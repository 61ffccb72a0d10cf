/** Hunks of a unified diff, and what it means to apply one to a file. */
module Hunks {
  import opened Lines

  datatype Hunk = Hunk(
    startsrc: nat, linessrc: nat,
    starttgt: nat, linestgt: nat,
    invalid: bool, desc: Bytes, text: seq<Line>)

  predicate IsMinus(l: Line) { l != [] && l[0] == MINUS }
  predicate IsPlus(l: Line) { l != [] && l[0] == PLUS }
  predicate IsContext(l: Line) { l != [] && l[0] == SPACE }
  predicate IsNoNewline(l: Line) { l != [] && l[0] == BACKSLASH }

  /** The line without its kind byte. */
  function Body(l: Line): Bytes {
    if l == [] then [] else l[1..]
  }

  /** Lines the hunk expects in the source. */
  function SourceLines(text: seq<Line>): seq<Line> {
    if text == [] then []
    else (if IsContext(text[0]) || IsMinus(text[0]) then [Body(text[0])] else []) + SourceLines(text[1..])
  }

  /** Lines the hunk puts into the target. */
  function TargetLines(text: seq<Line>): seq<Line> {
    if text == [] then []
    else (if IsContext(text[0]) || IsPlus(text[0]) then [Body(text[0])] else []) + TargetLines(text[1..])
  }

  lemma {:induction false} SourceAppend(text: seq<Line>, l: Line)
    ensures SourceLines(text + [l]) == SourceLines(text) + if IsContext(l) || IsMinus(l) then [Body(l)] else []
  {
    if text == [] {
      assert text + [l] == [l] && [l][1..] == [] && SourceLines([]) == [];
    } else {
      SourceAppend(text[1..], l);
      assert (text + [l])[1..] == text[1..] + [l] && (text + [l])[0] == text[0];
    }
  }

  lemma {:induction false} TargetAppend(text: seq<Line>, l: Line)
    ensures TargetLines(text + [l]) == TargetLines(text) + if IsContext(l) || IsPlus(l) then [Body(l)] else []
  {
    if text == [] {
      assert text + [l] == [l] && [l][1..] == [] && TargetLines([]) == [];
    } else {
      TargetAppend(text[1..], l);
      assert (text + [l])[1..] == text[1..] + [l] && (text + [l])[0] == text[0];
    }
  }

  /** Only context, removed, added and "No newline at end of file" lines. */
  predicate KnownText(text: seq<Line>) {
    forall i :: 0 <= i < |text| ==>
      IsContext(text[i]) || IsMinus(text[i]) || IsPlus(text[i]) || IsNoNewline(text[i])
  }

  predicate HasMarker(text: seq<Line>) {
    exists i :: 0 <= i < |text| && IsNoNewline(text[i])
  }

  /** The two counts in the hunk head agree with the hunk text. */
  predicate Counted(h: Hunk) {
    KnownText(h.text) && h.linessrc == |SourceLines(h.text)| && h.linestgt == |TargetLines(h.text)|
  }

  predicate AllCounted(hs: seq<Hunk>) {
    forall i :: 0 <= i < |hs| ==> Counted(hs[i])
  }

  function Old(h: Hunk): (r: seq<Bytes>)
    ensures |r| == |SourceLines(h.text)|
  {
    StripAll(SourceLines(h.text))
  }

  function New(h: Hunk): (r: seq<Bytes>)
    ensures |r| == |TargetLines(h.text)|
  {
    StripAll(TargetLines(h.text))
  }

  /** Zero-based index of a one-based line number; line 0 stands before line 1. */
  function Index(start: nat): nat {
    if start == 0 then 0 else start - 1
  }

  /** Hunks ordered and disjoint from line `p` on, all inside a file of `n` lines. */
  predicate Fits(n: nat, p: nat, hs: seq<Hunk>): (b: bool)
    ensures b ==> p <= n
    decreases hs
  {
    if hs == [] then p <= n
    else
      && Counted(hs[0])
      && p <= Index(hs[0].startsrc)
      && Fits(n, Index(hs[0].startsrc) + hs[0].linessrc, hs[1..])
  }

  lemma {:induction false} FitsCounted(n: nat, p: nat, hs: seq<Hunk>)
    requires Fits(n, p, hs)
    ensures AllCounted(hs)
    decreases hs
  {
    if hs != [] {
      FitsCounted(n, Index(hs[0].startsrc) + hs[0].linessrc, hs[1..]);
      assert forall i :: 1 <= i < |hs| ==> hs[i] == hs[1..][i - 1];
    }
  }

  /** Target starts follow from source starts and the growth of earlier hunks. */
  predicate Aligned(p: nat, q: nat, hs: seq<Hunk>)
    decreases hs
  {
    hs == [] || (
      && Index(hs[0].starttgt) - q == Index(hs[0].startsrc) - p
      && Aligned(Index(hs[0].startsrc) + hs[0].linessrc, Index(hs[0].starttgt) + hs[0].linestgt, hs[1..]))
  }

  // ---------- the meaning of a list of hunks ----------

  function Replace<T>(s: seq<T>, at: nat, len: nat, new_: seq<T>): seq<T>
    requires at + len <= |s|
  {
    s[..at] + new_ + s[at + len..]
  }

  /** Every range is replaced where it stands in the source; later ranges first, so that
      earlier positions stay what they were. */
  function Splice(s: seq<Bytes>, p: nat, hs: seq<Hunk>): (r: seq<Bytes>)
    requires Fits(|s|, p, hs)
    ensures p <= |s| && p <= |r| && r[..p] == s[..p]
    decreases hs
  {
    if hs == [] then s
    else
      var at := Index(hs[0].startsrc);
      var later := Splice(s, at + hs[0].linessrc, hs[1..]);
      assert later[..at] == later[..at + hs[0].linessrc][..at] == s[..at];
      Replace(later, at, hs[0].linessrc, New(hs[0]))
  }

  /** These lines stand in the file from this index on. */
  predicate Stands(s: seq<Bytes>, at: nat, ls: seq<Bytes>) {
    at + |ls| <= |s| && s[at..at + |ls|] == ls
  }

  /** The file holds the source lines of every hunk at the place its head names. */
  predicate OldStands(s: seq<Bytes>, hs: seq<Hunk>) {
    forall i :: 0 <= i < |hs| ==> Stands(s, Index(hs[i].startsrc), Old(hs[i]))
  }

  /** The file holds the target lines of every hunk at the place its head names. */
  predicate NewStands(s: seq<Bytes>, hs: seq<Hunk>) {
    forall i :: 0 <= i < |hs| ==> Stands(s, Index(hs[i].starttgt), New(hs[i]))
  }

  lemma OldStandsSplit(s: seq<Bytes>, hs: seq<Hunk>)
    requires hs != []
    ensures OldStands(s, hs) <==> Stands(s, Index(hs[0].startsrc), Old(hs[0])) && OldStands(s, hs[1..])
  {
    assert forall i :: 1 <= i < |hs| ==> hs[i] == hs[1..][i - 1];
  }

  /** Net growth of the file, in lines. */
  function Growth(hs: seq<Hunk>): int {
    if hs == [] then 0 else hs[0].linestgt - hs[0].linessrc + Growth(hs[1..])
  }

  lemma {:induction false} SpliceLength(s: seq<Bytes>, p: nat, hs: seq<Hunk>)
    requires Fits(|s|, p, hs)
    ensures |Splice(s, p, hs)| == |s| + Growth(hs)
    decreases hs
  {
    if hs != [] {
      SpliceLength(s, Index(hs[0].startsrc) + hs[0].linessrc, hs[1..]);
    }
  }

  // ---------- the same file read from left to right ----------

  /** What follows line `p` after all hunks have been applied. */
  function Rest(s: seq<Bytes>, p: nat, hs: seq<Hunk>): seq<Bytes>
    requires Fits(|s|, p, hs)
    decreases hs
  {
    if hs == [] then s[p..]
    else
      var at := Index(hs[0].startsrc);
      s[p..at] + New(hs[0]) + Rest(s, at + hs[0].linessrc, hs[1..])
  }

  lemma {:induction false} SpliceIsRest(s: seq<Bytes>, p: nat, hs: seq<Hunk>)
    requires Fits(|s|, p, hs)
    ensures Splice(s, p, hs)[p..] == Rest(s, p, hs)
    decreases hs
  {
    if hs != [] {
      var at := Index(hs[0].startsrc);
      var q := at + hs[0].linessrc;
      SpliceIsRest(s, q, hs[1..]);
      var later := Splice(s, q, hs[1..]);
      ReplaceFrom(later, s, p, at, hs[0].linessrc, New(hs[0]), later[q..]);
    }
  }

  lemma SharedPart<T>(a: seq<T>, b: seq<T>, p: nat, at: nat, q: nat)
    requires p <= at <= q <= |a| && q <= |b| && a[..q] == b[..q]
    ensures a[p..at] == b[p..at]
  {
    assert a[p..at] == a[..q][p..at] && b[p..at] == b[..q][p..at];
  }

  lemma ReplaceFrom<T>(later: seq<T>, s: seq<T>, p: nat, at: nat, len: nat, new_: seq<T>, rest: seq<T>)
    requires p <= at && at + len <= |later| && at + len <= |s|
    requires later[..at + len] == s[..at + len] && rest == later[at + len..]
    ensures Replace(later, at, len, new_)[p..] == s[p..at] + new_ + rest
  {
    SharedPart(later, s, p, at, at + len);
  }
}
