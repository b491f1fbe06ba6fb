/** Assembling a channel reply: merging the assistant's texts, and hard-splitting them to a small limit. */
module ReplyText {
  import opened Sequences

  // ----- Merging ---------------------------------------------------------------------------------

  predicate OccursAt(s: string, t: string, i: nat) {
    i + |t| <= |s| && s[i..i + |t|] == t
  }

  predicate Contains(s: string, t: string) {
    exists i :: 0 <= i <= |s| && OccursAt(s, t, i)
  }

  /** One more text: ignored if empty or known, taken over if it extends the reply, else appended. */
  function Merge(merged: string, text: string): string {
    if text == "" then merged
    else if merged == "" then text
    else if merged <= text then text
    else if Contains(merged, text) then merged
    else merged + "\n\n" + text
  }

  function MergeAll(parts: seq<string>, trim: string -> string): string {
    if parts == [] then "" else Merge(MergeAll(parts[..|parts| - 1], trim), trim(parts[|parts| - 1]))
  }

  method CoalesceAssistantText(parts: seq<string>, trim: string -> string) returns (merged: string)
    ensures merged == MergeAll(parts, trim)
  {
    merged := "";
    for i := 0 to |parts|
      invariant merged == MergeAll(parts[..i], trim)
    {
      TakeOneMore(parts, i);
      var text := trim(parts[i]);
      if text == "" {
      } else if merged == "" {
        merged := text;
      } else if merged <= text {
        merged := text;
      } else if !Contains(merged, text) {
        merged := merged + "\n\n" + text;
      }
    }
    assert parts[..|parts|] == parts;
  }

  lemma OccursInLonger(s: string, t: string, i: nat, before: string, after: string)
    requires OccursAt(s, t, i)
    ensures Contains(before + s + after, t)
  {
    var all := before + s + after;
    assert all[|before| + i..|before| + i + |t|] == t;
    assert OccursAt(all, t, |before| + i);
  }

  /** Merging loses nothing: neither what was there nor what comes. */
  lemma MergeContains(merged: string, text: string, t: string)
    ensures Contains(Merge(merged, text), text)
    ensures Contains(merged, t) ==> Contains(Merge(merged, text), t)
  {
    assert OccursAt(text, text, 0) && OccursAt(Merge(merged, text), "", 0);
    assert merged + "\n\n" + text + "" == merged + "\n\n" + text;
    OccursInLonger(text, text, 0, merged + "\n\n", "");
    if Contains(merged, t) {
      var i :| 0 <= i <= |merged| && OccursAt(merged, t, i);
      assert "" + merged + ("\n\n" + text) == merged + "\n\n" + text;
      OccursInLonger(merged, t, i, "", "\n\n" + text);
      if merged <= text {
        assert "" + merged + text[|merged|..] == text;
        OccursInLonger(merged, t, i, "", text[|merged|..]);
      }
    }
  }

  /** Every part is in the reply. */
  lemma {:induction false} NoTextIsLost(parts: seq<string>, trim: string -> string, k: nat)
    requires k < |parts|
    ensures Contains(MergeAll(parts, trim), trim(parts[k]))
  {
    var n := |parts| - 1;
    MergeContains(MergeAll(parts[..n], trim), trim(parts[n]), trim(parts[k]));
    if k < n {
      NoTextIsLost(parts[..n], trim, k);
    }
  }

  /** A text that is already in the reply, or comes twice, adds nothing. */
  lemma RepeatsAddNothing(merged: string, text: string)
    ensures Contains(merged, text) ==> Merge(merged, text) == merged
    ensures Merge(Merge(merged, text), text) == Merge(merged, text)
  {
    MergeContains(merged, text, text);
    if Contains(merged, text) {
      ContainedIsShorter(merged, text);
    }
    ContainedIsShorter(Merge(merged, text), text);
  }

  lemma ContainedIsShorter(s: string, t: string)
    requires Contains(s, t)
    ensures |t| <= |s| && (s <= t ==> s == t)
  {
    var i :| 0 <= i <= |s| && OccursAt(s, t, i);
  }

  /** A text that neither holds nor extends what is there follows it after one blank line. */
  lemma UnrelatedTextsAreSeparated(merged: string, text: string)
    requires !Contains(merged, text) && !(merged <= text)
    ensures |Merge(merged, text)| == |merged| + 2 + |text|
    ensures merged <= Merge(merged, text) && Merge(merged, text)[|merged|..] == "\n\n" + text
  {
    assert OccursAt(merged, "", 0);
    assert (merged + "\n\n" + text)[|merged|..] == "\n\n" + text;
  }

  /** Streaming snapshots, each extending the one before, collapse to the last. */
  lemma {:induction false} SnapshotsCollapse(parts: seq<string>, trim: string -> string)
    requires parts != [] && forall i :: 0 < i < |parts| ==> trim(parts[i - 1]) <= trim(parts[i])
    ensures MergeAll(parts, trim) == trim(parts[|parts| - 1])
  {
    var n := |parts| - 1;
    if n == 0 {
      assert parts[..0] == [];
    } else {
      SnapshotsCollapse(parts[..n], trim);
      assert trim(parts[n - 1]) <= trim(parts[n]);
    }
  }

  // ----- Splitting -------------------------------------------------------------------------------

  function Join<U>(chunks: seq<seq<U>>): seq<U> {
    if chunks == [] then [] else Join(chunks[..|chunks| - 1]) + chunks[|chunks| - 1]
  }

  function LimitOf(maxTextLength: real): nat {
    if maxTextLength.Floor < 1 then 1 else maxTextLength.Floor
  }

  /** The limit is the whole number at or below the one given, and at least 1. */
  lemma LimitIsWhole(maxTextLength: real)
    ensures var limit := LimitOf(maxTextLength);
            limit >= 1 && maxTextLength < limit as real + 1.0 && (limit > 1 ==> limit as real <= maxTextLength)
  {
  }

  /** All chunks are full except that the last may be shorter. */
  predicate IsEvenSplit<U(==)>(text: seq<U>, chunks: seq<seq<U>>, limit: nat) {
    && Join(chunks) == text
    && (forall i :: 0 <= i < |chunks| ==> |chunks[i]| <= limit)
    && (forall i :: 0 <= i < |chunks| - 1 ==> |chunks[i]| == limit)
    && (text != [] ==> forall i :: 0 <= i < |chunks| ==> chunks[i] != [])
  }

  lemma JoinOneMore<U>(chunks: seq<seq<U>>, chunk: seq<U>)
    ensures Join(chunks + [chunk]) == Join(chunks) + chunk
  {
    assert (chunks + [chunk])[..|chunks|] == chunks;
  }

  /** The fallback for limits below the chunker's minimum; text units are the host's code units. */
  method HardSplit<U(==)>(text: seq<U>, maxTextLength: real) returns (chunks: seq<seq<U>>)
    ensures chunks != [] && IsEvenSplit(text, chunks, LimitOf(maxTextLength))
  {
    var limit := LimitOf(maxTextLength);
    chunks := [];
    var index := 0;
    ghost var covered := 0;
    while index < |text|
      invariant covered == Min(index, |text|) && Join(chunks) == text[..covered]
      invariant forall i :: 0 <= i < |chunks| ==> 0 < |chunks[i]| <= limit
      invariant forall i :: 0 <= i < |chunks| - 1 ==> |chunks[i]| == limit
      invariant index <= |text| && chunks != [] ==> |chunks[|chunks| - 1]| == limit
      decreases |text| - index
    {
      var end := Min(index + limit, |text|);
      JoinOneMore(chunks, text[index..end]);
      PrefixAndSlice(text, index, end);
      chunks := chunks + [text[index..end]];
      index := index + limit;
      covered := end;
    }
    WholePrefix(text);
    if chunks == [] {
      JoinOneMore([], text);
      chunks := [text];
    }
  }

  function Min(a: nat, b: nat): nat {
    if a < b then a else b
  }

  lemma PrefixAndSlice<U>(text: seq<U>, i: nat, j: nat)
    requires i <= j <= |text|
    ensures text[..i] + text[i..j] == text[..j]
  {
  }

  lemma WholePrefix<U>(text: seq<U>)
    ensures text[..|text|] == text
  {
  }
}
