/** Two patches for one file: `revert` turns each around but keeps their order. */
module SetOrder {
  import opened Options
  import opened Lines
  import opened Hunks
  import opened ParserSteps
  import opened PatchStream
  import opened PatchTheorems
  import opened LineEnds
  import opened Revert
  import opened Matcher
  import opened Validator
  import opened Apply
  import opened PatchSets
  import opened SetApply

  /** Hunks that move no line: both sides have the same range. */
  predicate InPlace(hs: seq<Hunk>) {
    forall i :: 0 <= i < |hs| ==>
      hs[i].startsrc == hs[i].starttgt >= 1 && hs[i].linessrc == hs[i].linestgt >= 1
  }

  predicate Covers(h: Hunk, k: nat) {
    h.startsrc - 1 <= k < h.startsrc - 1 + h.linessrc
  }

  /** All but the last line of the hunk: the check compares no more. */
  predicate ComparesIn(h: Hunk, k: nat) {
    h.startsrc - 1 <= k < h.startsrc - 1 + h.linessrc - 1
  }

  /** Line `k`, counted from 0, belongs to a hunk. */
  predicate Covered(hs: seq<Hunk>, k: nat) {
    exists i :: 0 <= i < |hs| && Covers(hs[i], k)
  }

  /** The check compares line `k`. */
  predicate Compares(hs: seq<Hunk>, k: nat) {
    exists i :: 0 <= i < |hs| && ComparesIn(hs[i], k)
  }

  lemma ReverseCovers(hs: seq<Hunk>)
    requires InPlace(hs)
    ensures InPlace(ReverseAll(hs))
    ensures forall k: nat :: Covered(ReverseAll(hs), k) <==> Covered(hs, k)
    ensures forall k: nat :: Compares(ReverseAll(hs), k) <==> Compares(hs, k)
  {
    var rev := ReverseAll(hs);
    assert forall i, k: nat :: 0 <= i < |hs| ==> (Covers(rev[i], k) <==> Covers(hs[i], k));
    assert forall i, k: nat :: 0 <= i < |hs| ==> (ComparesIn(rev[i], k) <==> ComparesIn(hs[i], k));
  }

  lemma {:induction false} InPlaceAligned(p: nat, hs: seq<Hunk>)
    requires InPlace(hs)
    ensures Aligned(p, p, hs)
    decreases hs
  {
    if hs != [] {
      InPlaceAligned(Index(hs[0].startsrc) + hs[0].linessrc, hs[1..]);
    }
  }

  lemma StandsAt(s: seq<Bytes>, at: nat, ls: seq<Bytes>, k: nat)
    requires Stands(s, at, ls) && at <= k < at + |ls|
    ensures k < |s| && s[k] == ls[k - at]
  {
    assert s[at..at + |ls|][k - at] == s[k];
  }

  lemma StandsIs(s: seq<Bytes>, t: seq<Bytes>, at: nat, ls: seq<Bytes>)
    requires Stands(t, at, ls) && |s| == |t|
    ensures Stands(s, at, ls) <==> forall k :: at <= k < at + |ls| ==> s[k] == t[k]
  {
    if forall k :: at <= k < at + |ls| ==> s[k] == t[k] {
      assert s[at..at + |ls|] == t[at..at + |ls|];
    }
    if Stands(s, at, ls) {
      forall k | at <= k < at + |ls|
        ensures s[k] == t[k]
      {
        StandsAt(s, at, ls, k);
        StandsAt(t, at, ls, k);
      }
    }
  }

  /** The target lines stand in both files exactly when the covered lines are the same. */
  lemma NewStandsIs(s: seq<Bytes>, t: seq<Bytes>, hs: seq<Hunk>)
    requires AllCounted(hs) && InPlace(hs) && NewStands(t, hs) && |s| == |t|
    ensures NewStands(s, hs) <==> forall k: nat :: k < |s| && Covered(hs, k) ==> s[k] == t[k]
  {
    forall i | 0 <= i < |hs|
      ensures Stands(s, Index(hs[i].starttgt), New(hs[i])) <==>
        forall k: nat :: k < |s| && Covers(hs[i], k) ==> s[k] == t[k]
    {
      StandsIs(s, t, Index(hs[i].starttgt), New(hs[i]));
    }
  }

  /** The check passes exactly when the lines it compares are those of a matching file. */
  lemma CanPatchIs(u: seq<Bytes>, t: seq<Bytes>, hs: seq<Hunk>)
    requires AllCounted(hs) && InPlace(hs) && OldStands(t, hs) && |u| == |t|
    ensures CanPatch(u, hs) <==> forall k: nat :: k < |u| && Compares(hs, k) ==> u[k] == t[k]
    ensures !SomePending(u, hs) && !RemovesFile(hs)
  {
    forall i | 0 <= i < |hs|
      ensures hs[i].startsrc - 1 + hs[i].linessrc <= |u|
      ensures Checks(u, hs[i]) <==>
        forall k: nat :: k < |u| && ComparesIn(hs[i], k) ==> u[k] == t[k]
    {
      OneCheckIs(u, t, hs[i]);
    }
  }

  lemma OneCheckIs(u: seq<Bytes>, t: seq<Bytes>, h: Hunk)
    requires Counted(h) && HasSource(h) && Stands(t, Index(h.startsrc), Old(h)) && |u| == |t|
    ensures h.startsrc - 1 + h.linessrc <= |u|
    ensures Checks(u, h) <==> forall k: nat :: k < |u| && ComparesIn(h, k) ==> u[k] == t[k]
  {
    var at := h.startsrc - 1;
    forall k | at <= k < at + h.linessrc
      ensures t[k] == Old(h)[k - at]
    {
      StandsAt(t, at, Old(h), k);
    }
    if forall k: nat :: k < |u| && ComparesIn(h, k) ==> u[k] == t[k] {
      forall j | 0 <= j < h.linessrc - 1
        ensures u[at + j] == Old(h)[j]
      {
        assert ComparesIn(h, at + j);
      }
    }
    if Checks(u, h) {
      forall k: nat | k < |u| && ComparesIn(h, k)
        ensures u[k] == t[k]
      {
        assert u[at + (k - at)] == Old(h)[k - at];
      }
    }
  }

  // ---------- one patch on a file that need not match ----------

  /** The file `u` with the covered lines of `s`. */
  function Over(s: seq<Bytes>, u: seq<Bytes>, hs: seq<Hunk>): (r: seq<Bytes>)
    requires |s| == |u|
    ensures |r| == |u|
  {
    seq(|u|, k requires 0 <= k < |u| => if Covered(hs, k) then s[k] else u[k])
  }

  lemma ReplaceKeeps(later: seq<Bytes>, at: nat, len: nat, new_: seq<Bytes>, k: nat)
    requires at + len <= |later| && |new_| == len && k < |later| && !(at <= k < at + len)
    ensures |Replace(later, at, len, new_)| == |later| && Replace(later, at, len, new_)[k] == later[k]
  {
  }

  lemma NotInRest(hs: seq<Hunk>, k: nat)
    requires hs != [] && !Covered(hs, k)
    ensures !Covers(hs[0], k) && !Covered(hs[1..], k)
  {
    assert forall i :: 0 <= i < |hs[1..]| ==> hs[1..][i] == hs[i + 1];
  }

  lemma {:induction false} SpliceKeepsLength(s: seq<Bytes>, p: nat, hs: seq<Hunk>)
    requires Fits(|s|, p, hs) && InPlace(hs)
    ensures |Splice(s, p, hs)| == |s|
    decreases hs
  {
    if hs != [] {
      SpliceKeepsLength(s, Index(hs[0].startsrc) + hs[0].linessrc, hs[1..]);
    }
  }

  lemma {:induction false} SpliceKeepsAt(s: seq<Bytes>, p: nat, hs: seq<Hunk>, k: nat)
    requires Fits(|s|, p, hs) && InPlace(hs) && k < |s| && !Covered(hs, k)
    ensures |Splice(s, p, hs)| == |s| && Splice(s, p, hs)[k] == s[k]
    decreases hs
  {
    if hs != [] {
      var at, len := Index(hs[0].startsrc), hs[0].linessrc;
      NotInRest(hs, k);
      SpliceKeepsAt(s, at + len, hs[1..], k);
      ReplaceKeeps(Splice(s, at + len, hs[1..]), at, len, New(hs[0]), k);
    }
  }

  lemma SpliceKeeps(s: seq<Bytes>, p: nat, hs: seq<Hunk>)
    requires Fits(|s|, p, hs) && InPlace(hs)
    ensures |Splice(s, p, hs)| == |s|
    ensures forall k: nat :: k < |s| && !Covered(hs, k) ==> Splice(s, p, hs)[k] == s[k]
  {
    SpliceKeepsLength(s, p, hs);
    forall k: nat | k < |s| && !Covered(hs, k)
      ensures Splice(s, p, hs)[k] == s[k]
    {
      SpliceKeepsAt(s, p, hs, k);
    }
  }

  /** Patching writes the covered lines of any file that holds the target lines. */
  lemma SpliceIsOver(u: seq<Bytes>, s: seq<Bytes>, hs: seq<Hunk>)
    requires Fits(|u|, 0, hs) && InPlace(hs) && NewStands(s, hs) && |s| == |u|
    ensures Splice(u, 0, hs) == Over(s, u, hs)
  {
    var v := Splice(u, 0, hs);
    FitsCounted(|u|, 0, hs);
    InPlaceAligned(0, hs);
    SpliceKeeps(u, 0, hs);
    SpliceIsRest(u, 0, hs);
    PatchedHoldsTargets(u, v, 0, 0, hs);
    NewStandsIs(v, s, hs);
  }

  /** A patch that turns `t` into `s`, hunk by hunk in place. */
  predicate Turns(t: seq<Bytes>, s: seq<Bytes>, hs: seq<Hunk>) {
    && hs != [] && |s| == |t| && Fits(|t|, 0, hs) && InPlace(hs) && NoMarkers(hs)
    && OldStands(t, hs) && NewStands(s, hs)
    && forall k: nat :: k < |t| && !Covered(hs, k) ==> s[k] == t[k]
  }

  predicate SameCompared(u: seq<Bytes>, t: seq<Bytes>, hs: seq<Hunk>) {
    |u| == |t| && forall k: nat :: k < |u| && Compares(hs, k) ==> u[k] == t[k]
  }

  predicate SameCovered(u: seq<Bytes>, s: seq<Bytes>, hs: seq<Hunk>) {
    |u| == |s| && forall k: nat :: k < |u| && Covered(hs, k) ==> u[k] == s[k]
  }

  /** A file of one style and the patch for it. */
  ghost predicate OneStyle(lines: seq<Line>, hs: seq<Hunk>, e: End) {
    IsLfFile(lines) && LfText(hs) && (e == Lf || e == CrLf) && AllStyled(lines, e) && HunkStyled(hs, e)
  }

  lemma PatchedIsOver(lines: seq<Line>, u: seq<Bytes>, t: seq<Bytes>, s: seq<Bytes>, hs: seq<Hunk>, e: End)
    requires OneStyle(lines, hs, e) && u == StripAll(lines) && Turns(t, s, hs) && |u| == |t|
    ensures var out := Patched(lines, 0, hs);
      WrittenAndRead(out) == out && OneStyle(out, hs, e) && StripAll(out) == Over(s, u, hs)
  {
    var out := Patched(lines, 0, hs);
    FitsInside(|lines|, 0, hs);
    PatchedLf(lines, 0, hs);
    PatchedStyled(lines, e, 0, hs);
    SplitJoin(out);
    NoMarkersHarmless(|lines|, 0, hs);
    PatchRefinesSplice(lines, hs);
    SpliceIsOver(u, s, hs);
  }

  /** What `apply` makes of a file of that size: it writes the covered lines, or finds them there,
      or reports errors. */
  lemma AppliedInPlace(lines: seq<Line>, u: seq<Bytes>, t: seq<Bytes>, s: seq<Bytes>, hs: seq<Hunk>, e: End)
    requires OneStyle(lines, hs, e) && u == StripAll(lines) && Turns(t, s, hs) && |u| == |t|
    ensures var out, r := Patched(lines, 0, hs), AppliedTo(lines, hs);
      && r.Done?
      && (SameCompared(u, t, hs) ==> r == Done(Text(out), 0))
      && (!SameCompared(u, t, hs) ==> r.after == Text(lines) && (r.errors == 0 <==> SameCovered(u, s, hs)))
  {
    FitsIsOrdered(|u|, 0, hs);
    FitsCounted(|u|, 0, hs);
    AppliedMeaning(lines, hs);
    CanPatchIs(u, t, hs);
    InPlaceAligned(0, hs);
    DetectorMeaning(u, |u|, hs);
    NewStandsIs(u, s, hs);
    PatchedIsOver(lines, u, t, s, hs, e);
  }

  // ---------- two patches, reverted in their own order ----------

  /** Three states of a file; the first patch changes lines of its own, then the second. */
  predicate Changes(s0: seq<Bytes>, s1: seq<Bytes>, s2: seq<Bytes>, hs1: seq<Hunk>, hs2: seq<Hunk>) {
    && |s0| == |s1| == |s2|
    && (forall k: nat :: k < |s0| && !Covered(hs1, k) ==> s0[k] == s1[k])
    && (forall k: nat :: k < |s1| && !Covered(hs2, k) ==> s1[k] == s2[k])
  }

  /** The first patch keeps the lines that the second covers too. */
  predicate KeepsShared(s0: seq<Bytes>, s1: seq<Bytes>, hs1: seq<Hunk>, hs2: seq<Hunk>) {
    |s0| == |s1| && forall k: nat :: k < |s0| && Covered(hs1, k) && Covered(hs2, k) ==> s0[k] == s1[k]
  }

  /** The second patch keeps the lines that the check compares for the first. */
  predicate KeepsCompared(s1: seq<Bytes>, s2: seq<Bytes>, hs1: seq<Hunk>, hs2: seq<Hunk>) {
    |s1| == |s2| && forall k: nat :: k < |s1| && Compares(hs1, k) && Covered(hs2, k) ==> s1[k] == s2[k]
  }

  /** Of the lines of the first patch the check for the second finds those it compares. */
  predicate StillCompares(s0: seq<Bytes>, s2: seq<Bytes>, hs1: seq<Hunk>, hs2: seq<Hunk>) {
    |s0| == |s2| && forall k: nat :: k < |s0| && Covered(hs1, k) && Compares(hs2, k) ==> s0[k] == s2[k]
  }

  /** The second patch changes no line outside the first. */
  predicate StaysInside(s1: seq<Bytes>, s2: seq<Bytes>, hs1: seq<Hunk>, hs2: seq<Hunk>) {
    |s1| == |s2| && forall k: nat :: k < |s1| && Covered(hs2, k) && !Covered(hs1, k) ==> s1[k] == s2[k]
  }

  lemma ComparesIsCovered(hs: seq<Hunk>, k: nat)
    ensures Compares(hs, k) ==> Covered(hs, k)
  {
    if i :| 0 <= i < |hs| && ComparesIn(hs[i], k) {
      assert Covers(hs[i], k);
    }
  }

  lemma FirstIsChecked(s0: seq<Bytes>, s1: seq<Bytes>, s2: seq<Bytes>, hs1: seq<Hunk>, hs2: seq<Hunk>)
    requires Changes(s0, s1, s2, hs1, hs2)
    ensures SameCompared(s2, s1, hs1) <==> KeepsCompared(s1, s2, hs1, hs2)
    ensures SameCovered(s2, s0, hs1) && !SameCompared(s2, s1, hs1) ==> s0 != s1
  {
    forall k: nat
      ensures Compares(hs1, k) ==> Covered(hs1, k)
    {
      ComparesIsCovered(hs1, k);
    }
  }

  lemma SecondIsChecked(s0: seq<Bytes>, s1: seq<Bytes>, s2: seq<Bytes>, hs1: seq<Hunk>, hs2: seq<Hunk>,
                        y: seq<Bytes>)
    requires Changes(s0, s1, s2, hs1, hs2) && y == Over(s0, s2, hs1)
    ensures SameCompared(y, s2, hs2) <==> StillCompares(s0, s2, hs1, hs2)
    ensures SameCovered(y, s1, hs2) <==> KeepsShared(s0, s1, hs1, hs2) && StaysInside(s1, s2, hs1, hs2)
    ensures y == s0 <==> StaysInside(s1, s2, hs1, hs2)
  {
  }

  lemma BothWritten(s0: seq<Bytes>, s1: seq<Bytes>, s2: seq<Bytes>, hs1: seq<Hunk>, hs2: seq<Hunk>, y: seq<Bytes>)
    requires Changes(s0, s1, s2, hs1, hs2) && y == Over(s0, s2, hs1)
    ensures Over(s1, y, hs2) == s0 <==> KeepsShared(s0, s1, hs1, hs2)
    ensures Over(s1, s2, hs2) == s1
  {
  }

  /** When reverting in the order of the patches gives the file back. */
  predicate OrderHarmless(s0: seq<Bytes>, s1: seq<Bytes>, s2: seq<Bytes>, hs1: seq<Hunk>, hs2: seq<Hunk>) {
    && KeepsShared(s0, s1, hs1, hs2) && KeepsCompared(s1, s2, hs1, hs2)
    && (StillCompares(s0, s2, hs1, hs2) || StaysInside(s1, s2, hs1, hs2))
  }

  lemma SameHarmless(s0: seq<Bytes>, s1: seq<Bytes>, s2: seq<Bytes>, hs1: seq<Hunk>, hs2: seq<Hunk>)
    requires InPlace(hs1) && InPlace(hs2)
    ensures OrderHarmless(s0, s1, s2, ReverseAll(hs1), ReverseAll(hs2)) <==> OrderHarmless(s0, s1, s2, hs1, hs2)
  {
    ReverseCovers(hs1);
    ReverseCovers(hs2);
  }

  lemma ReverseMarkers(hs: seq<Hunk>)
    requires AllCounted(hs) && NoMarkers(hs)
    ensures NoMarkers(ReverseAll(hs)) && AllCounted(ReverseAll(hs))
  {
    forall i | 0 <= i < |hs|
      ensures !HasMarker(ReverseHunk(hs[i]).text) && Counted(ReverseHunk(hs[i]))
    {
      ReverseSwapsSides(hs[i].text);
    }
  }

  lemma PatchedInPlace(src: seq<Line>, hs: seq<Hunk>, out: seq<Line>)
    requires Fits(|src|, 0, hs) && InPlace(hs) && NoMarkers(hs) && out == Patched(src, 0, hs)
    ensures |out| == |src|
    ensures forall k: nat :: k < |src| && !Covered(hs, k) ==> StripAll(src)[k] == StripAll(out)[k]
  {
    NoMarkersHarmless(|src|, 0, hs);
    PatchRefinesSplice(src, hs);
    SpliceKeeps(StripAll(src), 0, hs);
  }

  lemma StandsReversed(s: seq<Bytes>, hs: seq<Hunk>)
    requires AllCounted(hs) && OldStands(s, hs)
    ensures NewStands(s, ReverseAll(hs))
  {
    ReverseOldIsNew(s, hs);
    ReverseOldIsNew(s, ReverseAll(hs));
    ReverseTwice(hs);
  }

  lemma BackIsOneStyle(src: seq<Line>, hs: seq<Hunk>, e: End, out: seq<Line>)
    requires Matching(src, hs, e) && out == Patched(src, 0, hs)
    ensures OneStyle(out, ReverseAll(hs), e)
  {
    FitsInside(|src|, 0, hs);
    PatchedLf(src, 0, hs);
    PatchedStyled(src, e, 0, hs);
    ReverseStyled(hs, e);
    ReverseLfText(hs);
  }

  /** The reversed patch turns the patched file back. */
  lemma TurnsBack(src: seq<Line>, hs: seq<Hunk>, e: End, out: seq<Line>)
    requires Matching(src, hs, e) && InPlace(hs) && NoMarkers(hs) && out == Patched(src, 0, hs)
    ensures OneStyle(out, ReverseAll(hs), e) && Turns(StripAll(out), StripAll(src), ReverseAll(hs))
  {
    BackIsOneStyle(src, hs, e, out);
    PatchedInPlace(src, hs, out);
    PatchedMatches(src, hs, e);
    FitsCounted(|src|, 0, hs);
    StandsReversed(StripAll(src), hs);
    ReverseCovers(hs);
    ReverseMarkers(hs);
  }

  /** Both patches, one after the other, on one file, go through and give this. */
  ghost predicate TwiceGives(lines: seq<Line>, g1: seq<Hunk>, g2: seq<Hunk>, result: seq<Line>)
    requires g1 != [] && g2 != []
  {
    var r := AppliedTo(lines, g1);
    r.Done? && r.errors == 0 && r.after.Text? && AppliedTo(r.after.lines, g2) == Done(Text(result), 0)
  }

  lemma SecondGives(lines: seq<Line>, y: seq<Bytes>, t: seq<Bytes>, s: seq<Bytes>, g: seq<Hunk>, e: End,
                    result: seq<Line>)
    requires OneStyle(lines, g, e) && y == StripAll(lines) && Turns(t, s, g) && |y| == |t| && AllStyled(result, e)
    ensures AppliedTo(lines, g) == Done(Text(result), 0) <==>
      if SameCompared(y, t, g) then Over(s, y, g) == StripAll(result)
      else SameCovered(y, s, g) && y == StripAll(result)
  {
    AppliedInPlace(lines, y, t, s, g, e);
    PatchedIsOver(lines, y, t, s, g, e);
    var out := Patched(lines, 0, g);
    if StripAll(out) == StripAll(result) {
      StyledEqual(out, result, e);
    }
    if StripAll(lines) == StripAll(result) {
      StyledEqual(lines, result, e);
    }
  }

  /** The three cases of the first step, and of the second after it. */
  lemma TwiceGivesIff(src0: seq<Line>, src2: seq<Line>, s0: seq<Bytes>, s1: seq<Bytes>, s2: seq<Bytes>,
                      g1: seq<Hunk>, g2: seq<Hunk>, e: End)
    requires OneStyle(src2, g1, e) && OneStyle(src2, g2, e) && AllStyled(src0, e)
    requires s0 == StripAll(src0) && s2 == StripAll(src2)
    requires Turns(s1, s0, g1) && Turns(s2, s1, g2) && |s1| == |s2|
    ensures TwiceGives(src2, g1, g2, src0) <==> OrderHarmless(s0, s1, s2, g1, g2)
  {
    var y := Over(s0, s2, g1);
    AppliedInPlace(src2, s2, s1, s0, g1, e);
    FirstIsChecked(s0, s1, s2, g1, g2);
    SecondIsChecked(s0, s1, s2, g1, g2, y);
    BothWritten(s0, s1, s2, g1, g2, y);
    if SameCompared(s2, s1, g1) {
      PatchedIsOver(src2, s2, s1, s0, g1, e);
      SecondGives(Patched(src2, 0, g1), y, s2, s1, g2, e, src0);
    } else {
      SecondGives(src2, s2, s2, s1, g2, e, src0);
    }
  }

  /** A file, patched twice: reverting in the same order gives it back exactly when both patches
      get along on the lines they share. */
  lemma TwoOnOneFile(src: seq<Line>, hs1: seq<Hunk>, hs2: seq<Hunk>, e: End)
    requires Matching(src, hs1, e) && InPlace(hs1) && NoMarkers(hs1)
    requires Matching(Patched(src, 0, hs1), hs2, e) && InPlace(hs2) && NoMarkers(hs2)
    ensures var once := Patched(src, 0, hs1);
      var twice := Patched(once, 0, hs2);
      TwiceGives(twice, ReverseAll(hs1), ReverseAll(hs2), src) <==>
        OrderHarmless(StripAll(src), StripAll(once), StripAll(twice), hs1, hs2)
  {
    var once := Patched(src, 0, hs1);
    var twice := Patched(once, 0, hs2);
    TurnsBack(src, hs1, e, once);
    TurnsBack(once, hs2, e, twice);
    TwiceGivesIff(src, twice, StripAll(src), StripAll(once), StripAll(twice), ReverseAll(hs1), ReverseAll(hs2), e);
    SameHarmless(StripAll(src), StripAll(once), StripAll(twice), hs1, hs2);
  }

  // ---------- as patch sets ----------

  lemma StepIs(files: Files, p: Patch, f: Bytes, lines: seq<Line>, r: Result)
    requires Usable(p) && f in files && Chosen(files, p) == f && files[f] == lines
    requires r == AppliedTo(lines, p.hunks) && r.Done? && r.after.Text?
    ensures ApplyOne(files, p) == SetResult(files[f := r.after.lines], r.errors, false)
  {
  }

  lemma TwoSteps(files: Files, p: Patch, q: Patch)
    requires Usable(p) && Usable(q)
    ensures ApplySet(files, [p, q]) == Then(ApplyOne(files, p), [q])
  {
    Singleton(files, p);
    ApplyConcat(files, [p], [q]);
    assert [p] + [q] == [p, q];
  }

  /** Where the file stays, it is the one both patches look for, before and after. */
  lemma ChosenStays(files: Files, p: Patch, f: Bytes, lines: seq<Line>)
    requires Usable(p) && f in files && Chosen(files, p) == f
    ensures Chosen(files[f := lines], p) == f && Chosen(files[f := lines], ReversePatch(p)) == f
  {
  }

  /** A matching patch that moves no line goes through. */
  lemma InPlaceApplies(src: seq<Line>, hs: seq<Hunk>, e: End)
    requires Matching(src, hs, e) && InPlace(hs)
    ensures AppliedTo(src, hs) == Done(Text(Patched(src, 0, hs)), 0)
  {
    StandingApplies(src, hs);
    PatchedMatches(src, hs, e);
  }

  /** Two steps of a set on one file that no step removes. */
  lemma TwoStepsGive(files: Files, p: Patch, q: Patch, f: Bytes, lines: seq<Line>, result: seq<Line>)
    requires Usable(p) && Usable(q) && f in files && files[f] == lines
    requires Chosen(files, p) == f && Chosen(files, q) == f
    requires var r := AppliedTo(lines, p.hunks);
      r.Done? && r.after.Text? && forall s :: AppliedTo(s, q.hunks).Done? ==> AppliedTo(s, q.hunks).after.Text?
    ensures ApplySet(files, [p, q]) == SetResult(files[f := result], 0, false) <==>
      TwiceGives(lines, p.hunks, q.hunks, result)
  {
    TwoSteps(files, p, q);
    var r := AppliedTo(lines, p.hunks);
    var once := files[f := r.after.lines];
    StepIs(files, p, f, lines, r);
    ChosenStays(files, q, f, r.after.lines);
    Singleton(once, q);
    var r' := AppliedTo(r.after.lines, q.hunks);
    if r'.Done? {
      StepIs(once, q, f, r.after.lines, r');
      assert once[f := r'.after.lines] == files[f := r'.after.lines];
      assert files[f := r'.after.lines] == files[f := result] ==> files[f := r'.after.lines][f] == result;
    }
  }

  lemma InPlaceStays(lines: seq<Line>, hs: seq<Hunk>)
    requires hs != [] && InPlace(hs)
    ensures AppliedTo(lines, hs).Done? ==> AppliedTo(lines, hs).after.Text?
  {
  }

  lemma TwoInPlaceGive(files: Files, p: Patch, q: Patch, f: Bytes, lines: seq<Line>, result: seq<Line>)
    requires Usable(p) && Usable(q) && f in files && files[f] == lines && InPlace(p.hunks) && InPlace(q.hunks)
    requires Chosen(files, p) == f && Chosen(files, q) == f && AppliedTo(lines, p.hunks).Done?
    ensures ApplySet(files, [p, q]) == SetResult(files[f := result], 0, false) <==>
      TwiceGives(lines, p.hunks, q.hunks, result)
  {
    InPlaceStays(lines, p.hunks);
    forall s
      ensures AppliedTo(s, q.hunks).Done? ==> AppliedTo(s, q.hunks).after.Text?
    {
      InPlaceStays(s, q.hunks);
    }
    TwoStepsGive(files, p, q, f, lines, result);
  }

  lemma ReversedPair(p: Patch, q: Patch)
    ensures ReverseSet([p, q]) == [ReversePatch(p), ReversePatch(q)]
  {
  }

  /** Two patches for one file, each matching when it is applied and moving no line: `revert`
      gives all files back, without errors, exactly when the patches get along on the lines
      they share. */
  lemma TwoPatchesReturn(files: Files, p: Patch, q: Patch, f: Bytes, e: End)
    requires Usable(p) && Usable(q) && f in files && Chosen(files, p) == f && Chosen(files, q) == f
    requires Matching(files[f], p.hunks, e) && InPlace(p.hunks) && NoMarkers(p.hunks)
    requires Matching(Patched(files[f], 0, p.hunks), q.hunks, e) && InPlace(q.hunks) && NoMarkers(q.hunks)
    ensures var once := Patched(files[f], 0, p.hunks);
      var twice := Patched(once, 0, q.hunks);
      Returns(files, [p, q]) <==>
        OrderHarmless(StripAll(files[f]), StripAll(once), StripAll(twice), p.hunks, q.hunks)
  {
    var src, once := files[f], Patched(files[f], 0, p.hunks);
    var twice := Patched(once, 0, q.hunks);
    InPlaceApplies(src, p.hunks, e);
    InPlaceApplies(once, q.hunks, e);
    TwoInPlaceGive(files, p, q, f, src, twice);
    TwoBack(files, p, q, f, e, twice);
    TwoOnOneFile(src, p.hunks, q.hunks, e);
  }

  lemma TwoBack(files: Files, p: Patch, q: Patch, f: Bytes, e: End, twice: seq<Line>)
    requires Usable(p) && Usable(q) && f in files && Chosen(files, p) == f && Chosen(files, q) == f
    requires Matching(files[f], p.hunks, e) && InPlace(p.hunks) && NoMarkers(p.hunks)
    requires Matching(Patched(files[f], 0, p.hunks), q.hunks, e) && InPlace(q.hunks) && NoMarkers(q.hunks)
    requires twice == Patched(Patched(files[f], 0, p.hunks), 0, q.hunks)
    ensures ApplySet(files[f := twice], ReverseSet([p, q])) == SetResult(files, 0, false) <==>
      TwiceGives(twice, ReverseAll(p.hunks), ReverseAll(q.hunks), files[f])
  {
    var there := files[f := twice];
    ReversedPair(p, q);
    ChosenStays(files, p, f, twice);
    ChosenStays(files, q, f, twice);
    ReverseCovers(p.hunks);
    ReverseCovers(q.hunks);
    FirstBackIsDone(files[f], p.hunks, q.hunks, e, twice);
    assert there[f := files[f]] == files;
    TwoInPlaceGive(there, ReversePatch(p), ReversePatch(q), f, twice, files[f]);
  }

  lemma FirstBackIsDone(src: seq<Line>, hs1: seq<Hunk>, hs2: seq<Hunk>, e: End, twice: seq<Line>)
    requires Matching(src, hs1, e) && InPlace(hs1) && NoMarkers(hs1)
    requires Matching(Patched(src, 0, hs1), hs2, e) && InPlace(hs2) && NoMarkers(hs2)
    requires twice == Patched(Patched(src, 0, hs1), 0, hs2)
    ensures AppliedTo(twice, ReverseAll(hs1)).Done?
  {
    var once := Patched(src, 0, hs1);
    TurnsBack(src, hs1, e, once);
    TurnsBack(once, hs2, e, twice);
    FitsIsOrdered(|twice|, 0, ReverseAll(hs1));
    FitsCounted(|twice|, 0, ReverseAll(hs1));
    AppliedMeaning(twice, ReverseAll(hs1));
  }
}
