/**
 * Percent-encoding of a URI component (section 2.1 of RFC 3986) over UTF-8, as the language's
 * built-in pair does it: every character outside the unreserved set becomes the bytes of its UTF-8
 * form, and decoding refuses malformed triplets and byte sequences that are not UTF-8.
 */
module PercentEncoding {
  import opened Wrappers
  import opened Sequences

  // ----- UTF-8 -----------------------------------------------------------------------------------

  predicate IsScalar(n: int) {
    0 <= n < 0xD800 || 0xE000 <= n < 0x11_0000
  }

  function Utf8(n: nat): seq<nat>
    requires n < 0x11_0000
  {
    if n < 0x80 then [n]
    else if n < 0x800 then [0xC0 + n / 64, 0x80 + n % 64]
    else if n < 0x1_0000 then [0xE0 + n / 4096, 0x80 + n / 64 % 64, 0x80 + n % 64]
    else [0xF0 + n / 26_2144, 0x80 + n / 4096 % 64, 0x80 + n / 64 % 64, 0x80 + n % 64]
  }

  predicate AreBytes(bytes: seq<nat>) {
    forall i :: 0 <= i < |bytes| ==> bytes[i] < 256
  }

  /** How many bytes the lead byte announces; 0 for a byte that cannot lead. */
  function AnnouncedLength(lead: nat): nat {
    if lead < 0x80 then 1
    else if lead < 0xC0 then 0
    else if lead < 0xE0 then 2
    else if lead < 0xF0 then 3
    else if lead < 0xF8 then 4
    else 0
  }

  function Payload(lead: nat): nat
    requires AnnouncedLength(lead) > 0
  {
    if lead < 0x80 then lead
    else if lead < 0xE0 then lead - 0xC0
    else if lead < 0xF0 then lead - 0xE0
    else lead - 0xF0
  }

  predicate IsContinuation(b: nat) {
    0x80 <= b < 0xC0
  }

  function Assemble(value: nat, rest: seq<nat>): Option<nat>
    decreases |rest|
  {
    if rest == [] then Some(value)
    else if !IsContinuation(rest[0]) then None
    else Assemble(value * 64 + (rest[0] - 0x80), rest[1..])
  }

  /** The character a byte sequence stands for; over-long forms and surrogates stand for none. */
  function Utf8Value(bytes: seq<nat>): Option<char>
    requires bytes != [] && AnnouncedLength(bytes[0]) > 0
  {
    var value := Assemble(Payload(bytes[0]), bytes[1..]);
    if value.Some? && IsScalar(value.value) && Utf8(value.value) == bytes then Some(value.value as char) else None
  }

  lemma AssembleOne(v: nat, a: nat)
    requires a < 64
    ensures Assemble(v, [0x80 + a]) == Some(v * 64 + a)
  {
    assert [0x80 + a][1..] == [];
  }

  lemma AssembleTwo(v: nat, a: nat, b: nat)
    requires a < 64 && b < 64
    ensures Assemble(v, [0x80 + a, 0x80 + b]) == Some((v * 64 + a) * 64 + b)
  {
    assert [0x80 + a, 0x80 + b][1..] == [0x80 + b];
    AssembleOne(v * 64 + a, b);
  }

  lemma AssembleThree(v: nat, a: nat, b: nat, c: nat)
    requires a < 64 && b < 64 && c < 64
    ensures Assemble(v, [0x80 + a, 0x80 + b, 0x80 + c]) == Some(((v * 64 + a) * 64 + b) * 64 + c)
  {
    assert [0x80 + a, 0x80 + b, 0x80 + c][1..] == [0x80 + b, 0x80 + c];
    AssembleTwo(v * 64 + a, b, c);
  }

  lemma Digits64(n: nat)
    ensures n == n / 64 * 64 + n % 64
    ensures n / 64 == n / 4096 * 64 + n / 64 % 64
    ensures n / 4096 == n / 26_2144 * 64 + n / 4096 % 64
  {
  }

  /** Reading back what UTF-8 wrote. */
  lemma Utf8RoundTrip(c: char)
    ensures var bytes := Utf8(c as nat);
            && bytes != [] && AnnouncedLength(bytes[0]) == |bytes|
            && AreBytes(bytes)
            && (bytes[0] < 0x80 <==> c as nat < 0x80)
            && Utf8Value(bytes) == Some(c)
  {
    var n := c as nat;
    var bytes := Utf8(n);
    Digits64(n);
    if n < 0x80 {
      assert bytes[1..] == [];
    } else if n < 0x800 {
      assert bytes[1..] == [0x80 + n % 64];
      AssembleOne(n / 64, n % 64);
    } else if n < 0x1_0000 {
      assert bytes[1..] == [0x80 + n / 64 % 64, 0x80 + n % 64];
      AssembleTwo(n / 4096, n / 64 % 64, n % 64);
    } else {
      assert bytes[1..] == [0x80 + n / 4096 % 64, 0x80 + n / 64 % 64, 0x80 + n % 64];
      AssembleThree(n / 26_2144, n / 4096 % 64, n / 64 % 64, n % 64);
    }
  }

  // ----- Triplets --------------------------------------------------------------------------------

  function UpperHex(n: nat): char
    requires n < 16
  {
    if n < 10 then ('0' as int + n) as char else ('A' as int + (n - 10)) as char
  }

  function HexValue(c: char): Option<nat> {
    if '0' <= c <= '9' then Some(c as nat - '0' as nat)
    else if 'A' <= c <= 'F' then Some(c as nat - 'A' as nat + 10)
    else if 'a' <= c <= 'f' then Some(c as nat - 'a' as nat + 10)
    else None
  }

  function Triplet(b: nat): string
    requires b < 256
  {
    ['%', UpperHex(b / 16), UpperHex(b % 16)]
  }

  function Triplets(bytes: seq<nat>): string
    requires AreBytes(bytes)
  {
    if bytes == [] then "" else Triplet(bytes[0]) + Triplets(bytes[1..])
  }

  function ReadTriplet(s: string): Option<nat> {
    if |s| < 3 || s[0] != '%' || HexValue(s[1]).None? || HexValue(s[2]).None? then None
    else Some(HexValue(s[1]).value * 16 + HexValue(s[2]).value)
  }

  function ReadTriplets(s: string, n: nat): Option<seq<nat>> {
    if n == 0 then Some([])
    else if ReadTriplet(s).None? then None
    else
      var rest := ReadTriplets(s[3..], n - 1);
      if rest.None? then None else Some([ReadTriplet(s).value] + rest.value)
  }

  lemma TripletRoundTrip(b: nat, s: string)
    requires b < 256
    ensures |Triplet(b) + s| >= 3 && ReadTriplet(Triplet(b) + s) == Some(b) && (Triplet(b) + s)[3..] == s
  {
    var text := Triplet(b) + s;
    assert text[1] == UpperHex(b / 16) && text[2] == UpperHex(b % 16);
    assert HexValue(UpperHex(b / 16)) == Some(b / 16) && HexValue(UpperHex(b % 16)) == Some(b % 16);
  }

  lemma {:induction false} TripletsRoundTrip(bytes: seq<nat>, s: string)
    requires AreBytes(bytes)
    ensures |Triplets(bytes)| == 3 * |bytes|
    ensures ReadTriplets(Triplets(bytes) + s, |bytes|) == Some(bytes)
  {
    if bytes != [] {
      TripletsRoundTrip(bytes[1..], s);
      AppendIsAssociative(Triplet(bytes[0]), Triplets(bytes[1..]), s);
      TripletRoundTrip(bytes[0], Triplets(bytes[1..]) + s);
      HeadAndTail(bytes);
    }
  }

  // ----- Components ------------------------------------------------------------------------------

  /** Letters, digits and the marks that encoding a component leaves alone. */
  predicate IsUnreserved(c: char) {
    || 'A' <= c <= 'Z' || 'a' <= c <= 'z' || '0' <= c <= '9'
    || c == '-' || c == '_' || c == '.' || c == '!' || c == '~' || c == '*' || c == '\'' || c == '(' || c == ')'
  }

  lemma Utf8Bytes(c: char)
    ensures AreBytes(Utf8(c as nat))
  {
    Utf8RoundTrip(c);
  }

  function EncodeChar(c: char): string {
    if IsUnreserved(c) then [c] else
      Utf8Bytes(c);
      Triplets(Utf8(c as nat))
  }

  function Encode(s: string): string {
    if s == "" then "" else EncodeChar(s[0]) + Encode(s[1..])
  }

  /** The first decoded character and how much of the text it took. */
  function DecodeChar(s: string): Option<(char, nat)>
    requires s != ""
    ensures DecodeChar(s).Some? ==> 1 <= DecodeChar(s).value.1 <= |s|
  {
    if s[0] != '%' then Some((s[0], 1))
    else
      var lead := ReadTriplet(s);
      if lead.None? then None
      else
        var n := AnnouncedLength(lead.value);
        var bytes := ReadTriplets(s, n);
        if n == 0 || 3 * n > |s| || bytes.None? || bytes.value == [] || AnnouncedLength(bytes.value[0]) == 0 then None
        else
          var c := Utf8Value(bytes.value);
          if c.None? then None else Some((c.value, 3 * n))
  }

  /** None where the language throws. */
  function Decode(s: string): Option<string> {
    if s == "" then Some("")
    else
      var first := DecodeChar(s);
      if first.None? then None
      else
        var rest := Decode(s[first.value.1..]);
        if rest.None? then None else Some([first.value.0] + rest.value)
  }

  lemma {:induction false} TripletsShape(bytes: seq<nat>)
    requires AreBytes(bytes)
    ensures forall i :: 0 <= i < |Triplets(bytes)| ==> Triplets(bytes)[i] != '/' && Triplets(bytes)[i] != '#'
  {
    if bytes != [] {
      TripletsShape(bytes[1..]);
    }
  }

  /** An encoded character starts with its triplet, and its lead byte is read back. */
  lemma LeadTriplet(bytes: seq<nat>, s: string)
    requires bytes != [] && AreBytes(bytes)
    ensures var text := Triplets(bytes) + s; text != "" && text[0] == '%' && ReadTriplet(text) == Some(bytes[0])
  {
    AppendIsAssociative(Triplet(bytes[0]), Triplets(bytes[1..]), s);
    TripletRoundTrip(bytes[0], Triplets(bytes[1..]) + s);
  }

  lemma DecodeEncodedChar(c: char, s: string)
    ensures var text := EncodeChar(c) + s;
            text != "" && DecodeChar(text) == Some((c, |EncodeChar(c)|)) && text[|EncodeChar(c)|..] == s
  {
    if !IsUnreserved(c) {
      var bytes := Utf8(c as nat);
      Utf8RoundTrip(c);
      TripletsRoundTrip(bytes, s);
      LeadTriplet(bytes, s);
    }
  }

  /** Decoding undoes encoding, for every string. */
  lemma {:induction false} EncodeRoundTrip(s: string)
    ensures Decode(Encode(s)) == Some(s)
  {
    if s != "" {
      EncodeRoundTrip(s[1..]);
      DecodeEncodedChar(s[0], Encode(s[1..]));
      HeadAndTail(s);
    }
  }

  predicate IsUpperHex(c: char) {
    '0' <= c <= '9' || 'A' <= c <= 'F'
  }

  /** Position `3 * i` starts an upper-case triplet of byte `i`. */
  predicate SpellsByte(s: string, i: nat, b: nat) {
    && 3 * i + 3 <= |s| && s[3 * i] == '%' && IsUpperHex(s[3 * i + 1]) && IsUpperHex(s[3 * i + 2])
    && ReadTriplet(s[3 * i..]) == Some(b)
  }

  predicate SpellsBytes(s: string, bytes: seq<nat>) {
    |s| == 3 * |bytes| && forall i :: 0 <= i < |bytes| ==> SpellsByte(s, i, bytes[i])
  }

  lemma {:induction false} TripletsSpell(bytes: seq<nat>, i: nat)
    requires AreBytes(bytes) && i < |bytes|
    ensures SpellsByte(Triplets(bytes), i, bytes[i])
  {
    var s, rest := Triplets(bytes), Triplets(bytes[1..]);
    TripletsRoundTrip(bytes, "");
    if i == 0 {
      TripletRoundTrip(bytes[0], rest);
      assert s[0..] == s;
    } else {
      TripletsSpell(bytes[1..], i - 1);
      assert s[3 * i..] == rest[3 * (i - 1)..];
    }
  }

  /** An unreserved character stands for itself; any other is spelled as upper-case triplets of its bytes. */
  lemma EncodedCharIsExact(c: char)
    ensures IsUnreserved(c) ==> EncodeChar(c) == [c]
    ensures !IsUnreserved(c) ==> SpellsBytes(EncodeChar(c), Utf8(c as nat))
  {
    if !IsUnreserved(c) {
      var bytes := Utf8(c as nat);
      Utf8Bytes(c);
      TripletsRoundTrip(bytes, "");
      forall i | 0 <= i < |bytes| ensures SpellsByte(EncodeChar(c), i, bytes[i]) {
        TripletsSpell(bytes, i);
      }
    }
  }

  /** Encoding leaves a component as it is exactly when all its characters are unreserved. */
  lemma {:induction false} PlainIffUnreserved(s: string)
    ensures |Encode(s)| >= |s|
    ensures Encode(s) == s <==> forall i :: 0 <= i < |s| ==> IsUnreserved(s[i])
  {
    if s != "" {
      PlainIffUnreserved(s[1..]);
      EncodedCharIsExact(s[0]);
      HeadAndTail(s);
      if IsUnreserved(s[0]) {
        assert Encode(s)[1..] == Encode(s[1..]);
        assert forall i :: 0 <= i < |s[1..]| ==> s[1..][i] == s[i + 1];
      }
    }
  }

  /** An encoded component has no separators, and is empty only for the empty string. */
  lemma {:induction false} EncodedHasNoSeparator(s: string)
    ensures forall i :: 0 <= i < |Encode(s)| ==> Encode(s)[i] != '/' && Encode(s)[i] != '#'
    ensures Encode(s) == "" <==> s == ""
  {
    if s != "" {
      EncodedHasNoSeparator(s[1..]);
      DecodeEncodedChar(s[0], "");
      if !IsUnreserved(s[0]) {
        Utf8Bytes(s[0]);
        TripletsShape(Utf8(s[0] as nat));
      }
    }
  }
}
