/**
 * JSON values and their text. Objects keep their entries in insertion order. A number is
 * represented by the text the printer gives it, so equal texts are equal numbers.
 */
module Json {
  import opened Sequences

  datatype Json =
    | Null
    | Bool(value: bool)
    | Num(text: string)
    | Str(text: string)
    | Arr(items: seq<Json>)
    | Obj(entries: seq<Entry>)

  datatype Entry = Entry(key: string, value: Json)

  /** What a value means: objects are maps, so the order of their entries is gone. */
  datatype Meaning =
    | MNull
    | MBool(value: bool)
    | MNum(text: string)
    | MStr(text: string)
    | MArr(items: seq<Meaning>)
    | MObj(fields: map<string, Meaning>)

  ghost function MeaningOf(v: Json): Meaning {
    match v
    case Null => MNull
    case Bool(b) => MBool(b)
    case Num(t) => MNum(t)
    case Str(t) => MStr(t)
    case Arr(items) => MArr(ItemsMeaning(items))
    case Obj(entries) => MObj(EntriesMeaning(entries))
  }

  ghost function ItemsMeaning(items: seq<Json>): seq<Meaning> {
    if items == [] then [] else [MeaningOf(items[0])] + ItemsMeaning(items[1..])
  }

  ghost function EntriesMeaning(entries: seq<Entry>): map<string, Meaning> {
    if entries == [] then map[]
    else EntriesMeaning(entries[1..])[entries[0].key := MeaningOf(entries[0].value)]
  }

  // ----- Well-formed values --------------------------------------------------------------------

  predicate IsNumberChar(c: char) {
    '0' <= c <= '9' || c == '-' || c == '+' || c == '.' || c == 'e' || c == 'E'
  }

  predicate IsNumberText(s: string) {
    s != "" && ('0' <= s[0] <= '9' || s[0] == '-') && forall i :: 0 <= i < |s| ==> IsNumberChar(s[i])
  }

  predicate HasKey(entries: seq<Entry>, key: string) {
    exists i :: 0 <= i < |entries| && entries[i].key == key
  }

  predicate DistinctKeys(entries: seq<Entry>) {
    forall i, j :: 0 <= i < j < |entries| ==> entries[i].key != entries[j].key
  }

  /** Numbers print as numbers and no object has a key twice, at every depth. */
  predicate WellFormed(v: Json) {
    match v
    case Num(t) => IsNumberText(t)
    case Arr(items) => forall i :: 0 <= i < |items| ==> WellFormed(items[i])
    case Obj(entries) => DistinctKeys(entries) && forall i :: 0 <= i < |entries| ==> WellFormed(entries[i].value)
    case _ => true
  }

  // ----- Printing ------------------------------------------------------------------------------

  function HexDigit(n: nat): char
    requires n < 16
  {
    "0123456789abcdef"[n]
  }

  function EscapeChar(c: char): string {
    if c == '\"' then "\\\""
    else if c == '\\' then "\\\\"
    else if c == 8 as char then "\\b"
    else if c == 9 as char then "\\t"
    else if c == 10 as char then "\\n"
    else if c == 12 as char then "\\f"
    else if c == 13 as char then "\\r"
    else if c < 32 as char then "\\u00" + [HexDigit(c as int / 16), HexDigit(c as int % 16)]
    else [c]
  }

  function Escape(s: string): string {
    if s == "" then "" else EscapeChar(s[0]) + Escape(s[1..])
  }

  function Quote(s: string): string {
    "\"" + Escape(s) + "\""
  }

  function Print(v: Json): string {
    match v
    case Null => "null"
    case Bool(b) => if b then "true" else "false"
    case Num(t) => t
    case Str(t) => Quote(t)
    case Arr(items) => "[" + (if items == [] then "" else Print(items[0]) + PrintMoreItems(items[1..])) + "]"
    case Obj(entries) =>
      "{" + (if entries == [] then "" else Quote(entries[0].key) + ":" + Print(entries[0].value) + PrintMoreEntries(entries[1..])) + "}"
  }

  function PrintMoreItems(items: seq<Json>): string {
    if items == [] then "" else "," + Print(items[0]) + PrintMoreItems(items[1..])
  }

  function PrintMoreEntries(entries: seq<Entry>): string {
    if entries == [] then ""
    else "," + Quote(entries[0].key) + ":" + Print(entries[0].value) + PrintMoreEntries(entries[1..])
  }

  // ----- Strings: escaping is a prefix code ------------------------------------------------------

  lemma SameFront(a: string, b: string, s: string, t: string)
    requires |a| == |b| && a + s == b + t
    ensures a == b && s == t
  {
    assert (a + s)[..|a|] == a && (b + t)[..|b|] == b;
    assert (a + s)[|a|..] == s && (b + t)[|b|..] == t;
  }

  lemma EscapeCharShape(c: char)
    ensures EscapeChar(c) != "" && EscapeChar(c)[0] != '\"'
    ensures EscapeChar(c)[0] != '\\' ==> EscapeChar(c) == [c]
    ensures EscapeChar(c)[0] == '\\' ==> |EscapeChar(c)| >= 2
    ensures EscapeChar(c)[0] == '\\' && EscapeChar(c)[1] == 'u' <==> |EscapeChar(c)| == 6
    ensures |EscapeChar(c)| == 1 || |EscapeChar(c)| == 2 || |EscapeChar(c)| == 6
  {
  }

  lemma HexIsInjective(m: nat, n: nat)
    requires m < 16 && n < 16 && HexDigit(m) == HexDigit(n)
    ensures m == n
  {
  }

  lemma EscapeCharIsInjective(c: char, d: char)
    requires EscapeChar(c) == EscapeChar(d)
    ensures c == d
  {
    EscapeCharShape(c);
    EscapeCharShape(d);
    if |EscapeChar(c)| == 6 {
      assert EscapeChar(c)[4] == HexDigit(c as int / 16) && EscapeChar(c)[5] == HexDigit(c as int % 16);
      assert EscapeChar(d)[4] == HexDigit(d as int / 16) && EscapeChar(d)[5] == HexDigit(d as int % 16);
      HexIsInjective(c as int / 16, d as int / 16);
      HexIsInjective(c as int % 16, d as int % 16);
      assert c as int == d as int;
    } else if |EscapeChar(c)| == 2 {
      assert EscapeChar(c)[1] == EscapeChar(d)[1];
    } else {
      assert EscapeChar(c)[0] == EscapeChar(d)[0];
    }
  }

  lemma EscapeCharIsPrefixFree(c: char, d: char, s: string, t: string)
    requires EscapeChar(c) + s == EscapeChar(d) + t
    ensures c == d && s == t
  {
    var a, b := EscapeChar(c), EscapeChar(d);
    EscapeCharShape(c);
    EscapeCharShape(d);
    assert (a + s)[0] == a[0] && (b + t)[0] == b[0];
    if a[0] == '\\' {
      assert (a + s)[1] == a[1] && (b + t)[1] == b[1];
    }
    SameFront(a, b, s, t);
    EscapeCharIsInjective(c, d);
  }

  lemma EscapeHead(a: string, s: string)
    ensures var text := Escape(a) + ("\"" + s); text != "" && (text[0] == '\"' <==> a == "")
  {
    if a != "" {
      EscapeCharShape(a[0]);
    }
  }

  lemma EscapeSplit(a: string, s: string)
    requires a != ""
    ensures Escape(a) + s == EscapeChar(a[0]) + (Escape(a[1..]) + s)
  {
  }

  lemma {:induction false} QuotedIsPrefixFree(a: string, b: string, s: string, t: string)
    requires Escape(a) + ("\"" + s) == Escape(b) + ("\"" + t)
    ensures a == b && s == t
  {
    EscapeHead(a, s);
    EscapeHead(b, t);
    if a == "" {
      assert "" + ("\"" + s) == "\"" + s && "" + ("\"" + t) == "\"" + t;
      SameFront("\"", "\"", s, t);
    } else {
      EscapeSplit(a, "\"" + s);
      EscapeSplit(b, "\"" + t);
      EscapeCharIsPrefixFree(a[0], b[0], Escape(a[1..]) + ("\"" + s), Escape(b[1..]) + ("\"" + t));
      QuotedIsPrefixFree(a[1..], b[1..], s, t);
      HeadAndTail(a);
      HeadAndTail(b);
    }
  }

  lemma QuoteSplit(a: string, s: string)
    ensures Quote(a) + s == "\"" + (Escape(a) + ("\"" + s))
  {
  }

  lemma QuoteIsPrefixFree(a: string, b: string, s: string, t: string)
    requires Quote(a) + s == Quote(b) + t
    ensures a == b && s == t
  {
    QuoteSplit(a, s);
    QuoteSplit(b, t);
    SameFront("\"", "\"", Escape(a) + ("\"" + s), Escape(b) + ("\"" + t));
    QuotedIsPrefixFree(a, b, s, t);
  }

  // ----- Values: printing is a prefix code up to a delimiter ------------------------------------

  /** What may follow a printed value. */
  predicate IsRest(s: string) {
    s == "" || s[0] == ',' || s[0] == ']' || s[0] == '}'
  }

  /** The first character of a printed value tells its kind. */
  function Lead(v: Json): char {
    match v
    case Null => 'n'
    case Bool(b) => if b then 't' else 'f'
    case Num(t) => if t == "" then '0' else t[0]
    case Str(_) => '\"'
    case Arr(_) => '['
    case Obj(_) => '{'
  }

  lemma PrintStartsWithLead(v: Json, s: string)
    requires WellFormed(v)
    ensures Print(v) != "" && (Print(v) + s)[0] == Lead(v)
    ensures Lead(v) != ',' && Lead(v) != ']' && Lead(v) != '}'
  {
  }

  lemma NumberIsPrefixFree(a: string, b: string, s: string, t: string)
    requires IsNumberText(a) && IsNumberText(b) && IsRest(s) && IsRest(t) && a + s == b + t
    ensures a == b && s == t
  {
    var text := a + s;
    assert forall i :: 0 <= i < |a| ==> text[i] == a[i] && IsNumberChar(text[i]);
    assert forall i :: 0 <= i < |b| ==> text[i] == b[i] && IsNumberChar(text[i]);
    assert |a| < |text| ==> text[|a|] == s[0] && !IsNumberChar(text[|a|]);
    assert |b| < |text| ==> text[|b|] == t[0] && !IsNumberChar(text[|b|]);
    assert |a| == |b|;
    SameFront(a, b, s, t);
  }

  /** A value followed by a delimiter or the end can be read back in one way only. */
  lemma {:induction false} PrintIsPrefixFree(a: Json, b: Json, s: string, t: string)
    requires WellFormed(a) && WellFormed(b) && IsRest(s) && IsRest(t)
    requires Print(a) + s == Print(b) + t
    ensures a == b && s == t
    decreases a, 3
  {
    PrintStartsWithLead(a, s);
    PrintStartsWithLead(b, t);
    match a
    case Num(x) =>
      assert b.Num?;
      NumberIsPrefixFree(x, b.text, s, t);
    case Str(x) =>
      assert b.Str?;
      QuoteIsPrefixFree(x, b.text, s, t);
    case Arr(xs) =>
      assert b.Arr?;
      assert Print(a) + s == "[" + (ItemsText(xs) + ("]" + s)) by { ArrText(xs, s); }
      assert Print(b) + t == "[" + (ItemsText(b.items) + ("]" + t)) by { ArrText(b.items, t); }
      SameFront("[", "[", ItemsText(xs) + ("]" + s), ItemsText(b.items) + ("]" + t));
      ItemsArePrefixFree(xs, b.items, s, t);
    case Obj(xs) =>
      assert b.Obj?;
      assert Print(a) + s == "{" + (EntriesText(xs) + ("}" + s)) by { ObjText(xs, s); }
      assert Print(b) + t == "{" + (EntriesText(b.entries) + ("}" + t)) by { ObjText(b.entries, t); }
      SameFront("{", "{", EntriesText(xs) + ("}" + s), EntriesText(b.entries) + ("}" + t));
      EntriesArePrefixFree(xs, b.entries, s, t);
    case Null =>
      assert b.Null?;
      SameFront("null", "null", s, t);
    case Bool(x) =>
      assert b.Bool? && b.value == x;
      SameFront(Print(a), Print(a), s, t);
  }

  function ItemsText(items: seq<Json>): string {
    if items == [] then "" else Print(items[0]) + PrintMoreItems(items[1..])
  }

  function EntriesText(entries: seq<Entry>): string {
    if entries == [] then ""
    else Quote(entries[0].key) + ":" + Print(entries[0].value) + PrintMoreEntries(entries[1..])
  }

  lemma ArrText(items: seq<Json>, s: string)
    ensures Print(Arr(items)) + s == "[" + (ItemsText(items) + ("]" + s))
  {
  }

  lemma ObjText(entries: seq<Entry>, s: string)
    ensures Print(Obj(entries)) + s == "{" + (EntriesText(entries) + ("}" + s))
  {
  }

  lemma ItemsHead(xs: seq<Json>, s: string)
    requires forall i :: 0 <= i < |xs| ==> WellFormed(xs[i])
    ensures var text := ItemsText(xs) + ("]" + s); text != "" && (text[0] == ']' <==> xs == [])
  {
    if xs != [] {
      PrintStartsWithLead(xs[0], "");
    }
  }

  lemma MoreItemsHead(xs: seq<Json>, s: string)
    ensures var text := PrintMoreItems(xs) + ("]" + s); text[0] == (if xs == [] then ']' else ',')
  {
  }

  lemma ItemsSplit(xs: seq<Json>, s: string)
    requires xs != []
    ensures ItemsText(xs) + s == Print(xs[0]) + (PrintMoreItems(xs[1..]) + s)
    ensures PrintMoreItems(xs) + s == "," + (Print(xs[0]) + (PrintMoreItems(xs[1..]) + s))
  {
    AppendIsAssociative(Print(xs[0]), PrintMoreItems(xs[1..]), s);
    AppendIsAssociative("," + Print(xs[0]), PrintMoreItems(xs[1..]), s);
    AppendIsAssociative(",", Print(xs[0]), PrintMoreItems(xs[1..]) + s);
  }

  lemma {:induction false} ItemsArePrefixFree(xs: seq<Json>, ys: seq<Json>, s: string, t: string)
    requires (forall i :: 0 <= i < |xs| ==> WellFormed(xs[i])) && (forall i :: 0 <= i < |ys| ==> WellFormed(ys[i]))
    requires ItemsText(xs) + ("]" + s) == ItemsText(ys) + ("]" + t)
    ensures xs == ys && s == t
    decreases xs, 2
  {
    ItemsHead(xs, s);
    ItemsHead(ys, t);
    if xs == [] {
      CloseOnly("]", s, t);
    } else {
      var r, q := PrintMoreItems(xs[1..]) + ("]" + s), PrintMoreItems(ys[1..]) + ("]" + t);
      ItemsSplit(xs, "]" + s);
      ItemsSplit(ys, "]" + t);
      MoreItemsHead(xs[1..], s);
      MoreItemsHead(ys[1..], t);
      PrintIsPrefixFree(xs[0], ys[0], r, q);
      MoreItemsArePrefixFree(xs[1..], ys[1..], s, t);
      HeadAndTail(xs);
      HeadAndTail(ys);
    }
  }

  lemma CloseOnly(close: string, s: string, t: string)
    requires "" + (close + s) == "" + (close + t)
    ensures s == t
  {
    assert "" + (close + s) == close + s && "" + (close + t) == close + t;
    SameFront(close, close, s, t);
  }

  lemma {:induction false} MoreItemsArePrefixFree(xs: seq<Json>, ys: seq<Json>, s: string, t: string)
    requires (forall i :: 0 <= i < |xs| ==> WellFormed(xs[i])) && (forall i :: 0 <= i < |ys| ==> WellFormed(ys[i]))
    requires PrintMoreItems(xs) + ("]" + s) == PrintMoreItems(ys) + ("]" + t)
    ensures xs == ys && s == t
    decreases xs, 1
  {
    MoreItemsHead(xs, s);
    MoreItemsHead(ys, t);
    if xs == [] {
      CloseOnly("]", s, t);
    } else {
      var r, q := PrintMoreItems(xs[1..]) + ("]" + s), PrintMoreItems(ys[1..]) + ("]" + t);
      ItemsSplit(xs, "]" + s);
      ItemsSplit(ys, "]" + t);
      SameFront(",", ",", Print(xs[0]) + r, Print(ys[0]) + q);
      MoreItemsHead(xs[1..], s);
      MoreItemsHead(ys[1..], t);
      PrintIsPrefixFree(xs[0], ys[0], r, q);
      MoreItemsArePrefixFree(xs[1..], ys[1..], s, t);
      HeadAndTail(xs);
      HeadAndTail(ys);
    }
  }

  lemma {:induction false} EntryIsPrefixFree(x: Entry, y: Entry, r: string, q: string)
    requires WellFormed(x.value) && WellFormed(y.value) && IsRest(r) && IsRest(q)
    requires Quote(x.key) + (":" + (Print(x.value) + r)) == Quote(y.key) + (":" + (Print(y.value) + q))
    ensures x == y && r == q
    decreases x, 4
  {
    QuoteIsPrefixFree(x.key, y.key, ":" + (Print(x.value) + r), ":" + (Print(y.value) + q));
    SameFront(":", ":", Print(x.value) + r, Print(y.value) + q);
    PrintIsPrefixFree(x.value, y.value, r, q);
  }

  lemma EntriesHead(xs: seq<Entry>, s: string)
    ensures var text := EntriesText(xs) + ("}" + s); text[0] == (if xs == [] then '}' else '\"')
    ensures var text := PrintMoreEntries(xs) + ("}" + s); text[0] == (if xs == [] then '}' else ',')
  {
  }

  lemma EntriesSplit(xs: seq<Entry>, s: string)
    requires xs != []
    ensures EntriesText(xs) + s == Quote(xs[0].key) + (":" + (Print(xs[0].value) + (PrintMoreEntries(xs[1..]) + s)))
    ensures PrintMoreEntries(xs) + s == "," + (Quote(xs[0].key) + (":" + (Print(xs[0].value) + (PrintMoreEntries(xs[1..]) + s))))
  {
    Regroup(Quote(xs[0].key), ":", Print(xs[0].value), PrintMoreEntries(xs[1..]), s);
    Regroup("," + Quote(xs[0].key), ":", Print(xs[0].value), PrintMoreEntries(xs[1..]), s);
    AppendIsAssociative(",", Quote(xs[0].key), ":" + (Print(xs[0].value) + (PrintMoreEntries(xs[1..]) + s)));
  }

  lemma Regroup(a: string, b: string, c: string, d: string, e: string)
    ensures a + b + c + d + e == a + (b + (c + (d + e)))
  {
    AppendIsAssociative(a + b + c, d, e);
    AppendIsAssociative(a + b, c, d + e);
    AppendIsAssociative(a, b, c + (d + e));
  }

  lemma {:induction false} EntriesArePrefixFree(xs: seq<Entry>, ys: seq<Entry>, s: string, t: string)
    requires (forall i :: 0 <= i < |xs| ==> WellFormed(xs[i].value)) && (forall i :: 0 <= i < |ys| ==> WellFormed(ys[i].value))
    requires EntriesText(xs) + ("}" + s) == EntriesText(ys) + ("}" + t)
    ensures xs == ys && s == t
    decreases xs, 2
  {
    EntriesHead(xs, s);
    EntriesHead(ys, t);
    if xs == [] {
      CloseOnly("}", s, t);
    } else {
      EntriesSplit(xs, "}" + s);
      EntriesSplit(ys, "}" + t);
      FirstEntryIsPrefixFree(xs, ys, s, t);
    }
  }

  lemma {:induction false} FirstEntryIsPrefixFree(xs: seq<Entry>, ys: seq<Entry>, s: string, t: string)
    requires (forall i :: 0 <= i < |xs| ==> WellFormed(xs[i].value)) && (forall i :: 0 <= i < |ys| ==> WellFormed(ys[i].value))
    requires xs != [] && ys != []
    requires Quote(xs[0].key) + (":" + (Print(xs[0].value) + (PrintMoreEntries(xs[1..]) + ("}" + s))))
          == Quote(ys[0].key) + (":" + (Print(ys[0].value) + (PrintMoreEntries(ys[1..]) + ("}" + t))))
    ensures xs == ys && s == t
    decreases xs, 0
  {
    EntriesHead(xs[1..], s);
    EntriesHead(ys[1..], t);
    EntryIsPrefixFree(xs[0], ys[0], PrintMoreEntries(xs[1..]) + ("}" + s), PrintMoreEntries(ys[1..]) + ("}" + t));
    MoreEntriesArePrefixFree(xs[1..], ys[1..], s, t);
    HeadAndTail(xs);
    HeadAndTail(ys);
  }

  lemma {:induction false} MoreEntriesArePrefixFree(xs: seq<Entry>, ys: seq<Entry>, s: string, t: string)
    requires (forall i :: 0 <= i < |xs| ==> WellFormed(xs[i].value)) && (forall i :: 0 <= i < |ys| ==> WellFormed(ys[i].value))
    requires PrintMoreEntries(xs) + ("}" + s) == PrintMoreEntries(ys) + ("}" + t)
    ensures xs == ys && s == t
    decreases xs, 1
  {
    EntriesHead(xs, s);
    EntriesHead(ys, t);
    if xs == [] {
      CloseOnly("}", s, t);
    } else {
      EntriesSplit(xs, "}" + s);
      EntriesSplit(ys, "}" + t);
      var r, q := PrintMoreEntries(xs[1..]) + ("}" + s), PrintMoreEntries(ys[1..]) + ("}" + t);
      SameFront(",", ",", Quote(xs[0].key) + (":" + (Print(xs[0].value) + r)), Quote(ys[0].key) + (":" + (Print(ys[0].value) + q)));
      FirstEntryIsPrefixFree(xs, ys, s, t);
    }
  }

  /** Different values, and different orders of entries, print differently. */
  lemma PrintIsInjective(a: Json, b: Json)
    requires WellFormed(a) && WellFormed(b) && Print(a) == Print(b)
    ensures a == b
  {
    assert Print(a) + "" == Print(b) + "";
    PrintIsPrefixFree(a, b, "", "");
  }
}
