/** `apply` for one file: check, detect, patch; and the way back. */
module Apply {
  import opened Lines
  import opened Hunks
  import opened PatchStream
  import opened PatchTheorems
  import opened LineEnds
  import opened Revert
  import opened Matcher
  import opened Validator

  predicate CanPatch(s: seq<Bytes>, hs: seq<Hunk>) {
    NewFile(hs) || forall i :: 0 <= i < |hs| ==> Checks(s, hs[i])
  }

  predicate SomePending(s: seq<Bytes>, hs: seq<Hunk>) {
    !NewFile(hs) && exists i :: 0 <= i < |hs| && Pending(s, hs[i])
  }

  /** One hunk that leaves an empty file: the target is removed. */
  predicate RemovesFile(hs: seq<Hunk>) {
    |hs| == 1 && hs[0].starttgt == 0 && hs[0].linestgt == 0
  }

  /** The file a patch is for. */
  datatype Target = Missing | Text(lines: seq<Line>)

  datatype Result = Raises | Done(after: Target, errors: nat)

  /** Check, detect, patch. */
  function AppliedTo(lines: seq<Line>, hs: seq<Hunk>): Result
    requires hs != []
  {
    match CheckFile(StripAll(lines), hs)
    case CheckRaises => Raises
    case Checked(valid, canpatch, errors) =>
      Done(
        if !canpatch then Text(lines)
        else if RemovesFile(hs) then Missing
        else Text(WrittenAndRead(Patched(lines, 0, hs))),
        errors + if valid < |hs| && !Found(StripAll(lines), 0, hs) then 1 else 0)
  }

  /** A missing file is created, empty, for a patch that makes a new file. */
  function Applied(file: Target, hs: seq<Hunk>): Result
    requires hs != []
  {
    match file
    case Missing => if NewFile(hs) then AppliedTo([], hs) else Done(Missing, 1)
    case Text(lines) => AppliedTo(lines, hs)
  }

  method ApplyToFile(file: Target, hunks: seq<Hunk>) returns (r: Result)
    requires hunks != [] && (file.Text? ==> IsFile(file.lines))
    ensures r == Applied(file, hunks)
  {
    var lines := [];
    if file.Text? {
      lines := file.lines;
    } else if !(|hunks| == 1 && hunks[0].startsrc == 0 && hunks[0].linessrc == 0) {
      return Done(Missing, 1);
    }
    var check := Validate(lines, hunks);
    if check.CheckRaises? {
      return Raises;
    }
    var errors := check.errors;
    if check.valid < |hunks| {
      var matched := MatchFileHunks(lines, hunks);
      if !matched {
        errors := errors + 1;
      }
    }
    if !check.canpatch {
      return Done(Text(lines), errors);
    }
    if |hunks| == 1 && hunks[0].starttgt == 0 && hunks[0].linestgt == 0 {
      return Done(Missing, errors);
    }
    var out := Patch(lines, hunks);
    r := Done(Text(WrittenAndRead(out)), errors);
  }

  /** For hunks in order nothing is raised, and the outcome depends on what stands in the file. */
  lemma AppliedMeaning(lines: seq<Line>, hs: seq<Hunk>)
    requires hs != [] && AllCounted(hs) && SourceOrdered(hs)
    ensures var s := StripAll(lines);
      AppliedTo(lines, hs) == Done(
        if !CanPatch(s, hs) then Text(lines)
        else if RemovesFile(hs) then Missing
        else Text(WrittenAndRead(Patched(lines, 0, hs))),
        (if SomePending(s, hs) then 1 else 0) + if !CanPatch(s, hs) && !Found(s, 0, hs) then 1 else 0)
  {
    CheckMeaning(StripAll(lines), hs);
  }

  // ---------- what the check does and does not establish ----------

  predicate LastLineStands(s: seq<Bytes>, h: Hunk) {
    HasSource(h) && h.startsrc - 1 + h.linessrc <= |s| && h.linessrc == |Old(h)|
    && s[h.startsrc - 1 + h.linessrc - 1] == Old(h)[h.linessrc - 1]
  }

  lemma StandsIsChecksAndLast(s: seq<Bytes>, h: Hunk)
    requires Counted(h) && HasSource(h)
    ensures Stands(s, Index(h.startsrc), Old(h)) <==> Checks(s, h) && LastLineStands(s, h)
  {
    var at := h.startsrc - 1;
    if at + h.linessrc <= |s| {
      var r := s[at..at + h.linessrc];
      assert forall k :: 0 <= k < |r| ==> r[k] == s[at + k];
      if Checks(s, h) && LastLineStands(s, h) {
        assert forall k :: 0 <= k < |r| ==> r[k] == Old(h)[k];
      }
    }
  }

  /** The source really holds every hunk exactly when the check passes and, besides, the last
      source line of every hunk is there: the line the check never compares. */
  lemma CheckGap(s: seq<Bytes>, hs: seq<Hunk>)
    requires AllCounted(hs) && forall i :: 0 <= i < |hs| ==> HasSource(hs[i])
    ensures OldStands(s, hs) <==> forall i :: 0 <= i < |hs| ==> Checks(s, hs[i]) && LastLineStands(s, hs[i])
  {
    forall i | 0 <= i < |hs|
      ensures Stands(s, Index(hs[i].startsrc), Old(hs[i])) <==> Checks(s, hs[i]) && LastLineStands(s, hs[i])
    {
      StandsIsChecksAndLast(s, hs[i]);
    }
  }

  /** A file holding `x` passes the check for a hunk that replaces `a`. */
  lemma CheckMissesLastLine()
    ensures exists s, h :: Counted(h) && NewFile([h]) == false && CanPatch(s, [h]) && !OldStands(s, [h])
  {
    var a: Line := [MINUS, 97, LF];
    var h := Hunk(1, 1, 1, 0, false, [], [a]);
    var s: seq<Bytes> := [[120]];
    assert IsMinus(a) && !IsContext(a) && !IsPlus(a) && h.text[0] == a;
    assert h.text[1..] == [] && SourceLines([]) == [] && TargetLines([]) == [];
    assert SourceLines(h.text) == [Body(a)];
    assert TargetLines(h.text) == [];
    assert Body(a) == [97, LF];
    assert StripEol([97, LF]) == [97] by {
      StripEolUnique([97, LF], [97]);
    }
    assert Old(h) == [[97]] by {
      assert SourceLines(h.text)[0] == [97, LF];
      StripAllAt(SourceLines(h.text), 0);
      assert |Old(h)| == 1;
    }
    assert Checks(s, h);
    assert CanPatch(s, [h]);
    assert !Stands(s, 0, Old(h)) by {
      assert s[0..1][0] == [120];
    }
    assert [h][0] == h && !OldStands(s, [h]);
  }

  // ---------- apply, then revert ----------

  lemma {:induction false} FitsIsOrdered(n: nat, p: nat, hs: seq<Hunk>)
    requires Fits(n, p, hs)
    ensures SourceOrdered(hs)
    decreases hs
  {
    if hs != [] {
      FitsIsOrdered(n, Index(hs[0].startsrc) + hs[0].linessrc, hs[1..]);
      assert forall i :: 1 <= i < |hs| ==> hs[i] == hs[1..][i - 1];
    }
  }

  /** No hunk has an empty source side, or the one hunk there is makes a new file. */
  predicate Applicable(hs: seq<Hunk>) {
    NewFile(hs) || forall i :: 0 <= i < |hs| ==> HasSource(hs[i])
  }

  /** When the source lines stand in the file, the check passes exactly for these hunks. In
      particular a hunk that only inserts, without context, is never applied to a file. */
  lemma StandingPassesCheck(s: seq<Bytes>, hs: seq<Hunk>)
    requires AllCounted(hs) && OldStands(s, hs)
    ensures CanPatch(s, hs) <==> Applicable(hs)
  {
    if forall i :: 0 <= i < |hs| ==> HasSource(hs[i]) {
      CheckGap(s, hs);
    }
  }

  lemma ReverseOldIsNew(s: seq<Bytes>, hs: seq<Hunk>)
    requires AllCounted(hs)
    ensures AllCounted(ReverseAll(hs))
    ensures OldStands(s, ReverseAll(hs)) <==> NewStands(s, hs)
  {
    forall i | 0 <= i < |hs|
      ensures Counted(ReverseHunk(hs[i])) && Old(ReverseHunk(hs[i])) == New(hs[i])
    {
      ReverseSwapsSides(hs[i].text);
    }
  }

  /** A file that holds the source lines: the patch goes through without errors exactly when
      it is applicable, else the file is kept and errors are counted. */
  lemma StandingApplies(lines: seq<Line>, hs: seq<Hunk>)
    requires hs != [] && Fits(|lines|, 0, hs) && OldStands(StripAll(lines), hs)
    ensures Applicable(hs) ==> (AppliedTo(lines, hs) ==
      Done(if RemovesFile(hs) then Missing else Text(WrittenAndRead(Patched(lines, 0, hs))), 0))
    ensures !Applicable(hs) ==> exists e :: e > 0 && AppliedTo(lines, hs) == Done(Text(lines), e)
  {
    FitsIsOrdered(|lines|, 0, hs);
    FitsCounted(|lines|, 0, hs);
    StandingPassesCheck(StripAll(lines), hs);
    AppliedMeaning(lines, hs);
    if !Applicable(hs) {
      var i :| 0 <= i < |hs| && !HasSource(hs[i]);
      assert Pending(StripAll(lines), hs[i]);
      assert AppliedTo(lines, hs) == Done(Text(lines), AppliedTo(lines, hs).errors);
    }
  }

  /** Patches and files for which one line-end style holds throughout, and the hunks match. */
  ghost predicate Matching(src: seq<Line>, hs: seq<Hunk>, e: End) {
    && hs != [] && IsLfFile(src) && LfText(hs)
    && (e == Lf || e == CrLf) && AllStyled(src, e) && HunkStyled(hs, e)
    && Fits(|src|, 0, hs) && Aligned(0, 0, hs) && MarkersHarmless(|src|, 0, hs, false)
    && OldStands(StripAll(src), hs)
  }

  /** The patched file matches the reversed hunks, and they write the source back. */
  lemma PatchedMatches(src: seq<Line>, hs: seq<Hunk>, e: End)
    requires Matching(src, hs, e)
    ensures var out := Patched(src, 0, hs);
      && WrittenAndRead(out) == out && IsLfFile(out)
      && Fits(|out|, 0, ReverseAll(hs)) && OldStands(StripAll(out), ReverseAll(hs))
      && Patched(out, 0, ReverseAll(hs)) == src && WrittenAndRead(src) == src
  {
    var out := Patched(src, 0, hs);
    FitsInside(|src|, 0, hs);
    PatchedLf(src, 0, hs);
    SplitJoin(out);
    SplitJoin(src);
    RevertIsExact(src, hs, e);
    PatchedIsText(src, 0, 0, hs);
    TextIsRest(StripAll(src), 0, 0, hs);
    RestLength(StripAll(src), 0, hs);
    ReverseFits(|src|, |out|, 0, 0, hs, false);
    PatchedHoldsTargets(StripAll(src), StripAll(out), 0, 0, hs);
    FitsCounted(|src|, 0, hs);
    ReverseOldIsNew(StripAll(out), hs);
  }

  /** Applying and reverting both go through without errors and give the file back. */
  ghost predicate RoundTrips(file: Target, hs: seq<Hunk>)
    requires hs != []
  {
    var there := Applied(file, hs);
    there.Done? && there.errors == 0 && Applied(there.after, ReverseAll(hs)) == Done(file, 0)
  }

  lemma CreatedText(g: Hunk)
    requires Counted(g) && NewFile([g])
    ensures StripAll(Patched([], 0, [g])) == New(g) && Fits(0, 0, [g])
  {
    OneFits(0, g);
    PatchedOne([], g, 0);
    assert StripAll([]) == [];
  }

  /** What a patch that makes a new file writes. */
  lemma CreatedFile(g: Hunk, e: End)
    requires Counted(g) && NewFile([g]) && LfText([g]) && HunkStyled([g], e) && (e == Lf || e == CrLf)
    ensures var out := Patched([], 0, [g]);
      IsLfFile(out) && WrittenAndRead(out) == out && AllStyled(out, e)
  {
    assert [g][0] == g && IsLfFile([]) && AllStyled([], e);
    PatchedLf([], 0, [g]);
    PatchedStyled([], e, 0, [g]);
    SplitJoin(Patched([], 0, [g]));
  }

  lemma CreatedApplies(g: Hunk, e: End)
    requires Counted(g) && NewFile([g]) && LfText([g]) && HunkStyled([g], e) && (e == Lf || e == CrLf)
    ensures Applied(Missing, [g]) == Done(if RemovesFile([g]) then Missing else Text(Patched([], 0, [g])), 0)
  {
    CreatedFile(g, e);
    CreatedText(g);
    AppliedMeaning([], [g]);
  }

  lemma WholeFile(s: seq<Bytes>, ls: seq<Bytes>)
    requires Stands(s, 0, ls)
    ensures s == ls <==> |ls| == |s|
  {
    assert s[0..|ls|] == ls;
  }

  /** The lines of a removed file, written again. */
  lemma WrittenAgain(src: seq<Line>, h: Hunk, rev: Hunk, e: End, out: seq<Line>)
    requires Matching(src, [h], e) && Index(h.startsrc) == 0 && |Old(h)| == h.linessrc
    requires AllStyled(out, e) && StripAll(out) == New(rev) == Old(h)
    ensures out == src <==> h.linessrc == |src|
  {
    assert Stands(StripAll(src), 0, Old(h)) by {
      assert [h][0] == h;
    }
    WholeFile(StripAll(src), Old(h));
    if h.linessrc == |src| {
      StyledEqual(out, src, e);
    }
  }

  lemma RemovedIsFirst(src: seq<Line>, h: Hunk, e: End)
    requires Matching(src, [h], e) && RemovesFile([h])
    ensures Index(h.startsrc) == 0 && Counted(h) && |Old(h)| == h.linessrc
    ensures Counted(ReverseHunk(h)) && NewFile([ReverseHunk(h)]) && New(ReverseHunk(h)) == Old(h)
  {
    assert [h][0] == h;
    ReverseSwapsSides(h.text);
  }

  /** A removed file is made again from the lines of the one hunk there was. */
  lemma RemovedComesBack(src: seq<Line>, h: Hunk, e: End)
    requires Matching(src, [h], e) && RemovesFile([h]) && !NewFile([h])
    ensures Applied(Missing, [ReverseHunk(h)]) == Done(Text(src), 0) <==> h.linessrc == |src|
  {
    var rev := ReverseHunk(h);
    RemovedIsFirst(src, h, e);
    ReverseStyled([h], e);
    ReverseLfText([h]);
    assert ReverseAll([h]) == [rev];
    CreatedApplies(rev, e);
    CreatedFile(rev, e);
    CreatedText(rev);
    WrittenAgain(src, h, rev, e, Patched([], 0, [rev]));
  }

  lemma ReverseLfText(hs: seq<Hunk>)
    requires LfText(hs)
    ensures LfText(ReverseAll(hs))
  {
    forall i, j | 0 <= i < |hs| && 0 <= j < |ReverseAll(hs)[i].text|
      ensures LfLine(Body(ReverseAll(hs)[i].text[j]))
    {
      assert LfLine(Body(hs[i].text[j]));
      assert Body(ReverseLine(hs[i].text[j])) == Body(hs[i].text[j]);
    }
  }

  /** The whole way, through the file: a matching file comes back without errors exactly when
      both directions are applicable, the patch is not one that makes a new file (reverting
      it removes the file), and a patch that removes the file covers all of it. */
  lemma ApplyThenRevert(src: seq<Line>, hs: seq<Hunk>, e: End)
    requires Matching(src, hs, e)
    ensures RoundTrips(Text(src), hs) <==>
      && Applicable(hs) && Applicable(ReverseAll(hs)) && !NewFile(hs)
      && (RemovesFile(hs) ==> hs[0].linessrc == |src|)
  {
    var out, rev := Patched(src, 0, hs), ReverseAll(hs);
    StandingApplies(src, hs);
    if Applicable(hs) && RemovesFile(hs) {
      assert hs == [hs[0]] && rev == [ReverseHunk(hs[0])];
      RemovedThenReverted(src, hs[0], e);
    } else if Applicable(hs) {
      assert RemovesFile(rev) <==> NewFile(hs);
      PatchedMatches(src, hs, e);
      StandingApplies(out, rev);
    }
  }

  lemma RemovedThenReverted(src: seq<Line>, h: Hunk, e: End)
    requires Matching(src, [h], e) && RemovesFile([h])
    ensures NewFile([ReverseHunk(h)])
    ensures Applied(Missing, [ReverseHunk(h)]) == Done(Text(src), 0) <==> !NewFile([h]) && h.linessrc == |src|
  {
    if NewFile([h]) {
      ReverseSwapsSides(h.text);
      ReverseStyled([h], e);
      ReverseLfText([h]);
      assert ReverseAll([h]) == [ReverseHunk(h)];
      CreatedApplies(ReverseHunk(h), e);
    } else {
      RemovedComesBack(src, h, e);
    }
  }

  lemma CreatedThenReverted(h: Hunk, e: End)
    requires Counted(h) && NewFile([h]) && LfText([h]) && HunkStyled([h], e) && (e == Lf || e == CrLf)
    requires Index(h.starttgt) == 0 && !RemovesFile([h])
    ensures var r := Applied(Text(Patched([], 0, [h])), [ReverseHunk(h)]);
      r == Done(Missing, 0) <==> Applicable([ReverseHunk(h)])
  {
    var none: seq<Line> := [];
    NewFileMatches(h, e);
    assert ReverseAll([h]) == [ReverseHunk(h)];
    PatchedMatches(none, [h], e);
    StandingApplies(Patched(none, 0, [h]), [ReverseHunk(h)]);
  }

  lemma NewFileMatches(h: Hunk, e: End)
    requires Counted(h) && NewFile([h]) && LfText([h]) && HunkStyled([h], e) && (e == Lf || e == CrLf)
    requires Index(h.starttgt) == 0
    ensures Matching([], [h], e)
  {
    OneFits(0, h);
    assert Aligned(0, 0, [h]) by {
      assert [h][0] == h && [h][1..] == [];
    }
    assert OldStands(StripAll([]), [h]) by {
      assert StripAll([]) == [] && Stands([], 0, Old(h));
    }
  }

  /** From nothing: only a patch that makes a new file goes through, and reverting it removes
      the file again exactly when the reversed patch is applicable. */
  lemma CreateThenRevert(hs: seq<Hunk>, e: End)
    requires hs != [] && AllCounted(hs) && LfText(hs) && HunkStyled(hs, e) && (e == Lf || e == CrLf)
    requires NewFile(hs) ==> Index(hs[0].starttgt) == 0
    ensures RoundTrips(Missing, hs) <==> NewFile(hs) && Applicable(ReverseAll(hs))
  {
    if NewFile(hs) {
      var h := hs[0];
      assert hs == [h] && ReverseAll(hs) == [ReverseHunk(h)];
      CreatedApplies(h, e);
      if RemovesFile(hs) {
        EmptyThenReverted(h, e);
      } else {
        CreatedThenReverted(h, e);
      }
    }
  }

  /** A patch that makes and removes an empty file. */
  lemma EmptyThenReverted(h: Hunk, e: End)
    requires Counted(h) && NewFile([h]) && LfText([h]) && HunkStyled([h], e) && (e == Lf || e == CrLf)
    requires RemovesFile([h])
    ensures Applied(Missing, [ReverseHunk(h)]) == Done(Missing, 0) && Applicable([ReverseHunk(h)])
  {
    ReverseSwapsSides(h.text);
    assert ReverseAll([h]) == [ReverseHunk(h)];
    ReverseStyled([h], e);
    ReverseLfText([h]);
    CreatedApplies(ReverseHunk(h), e);
  }

  // ---------- twice ----------

  /** The same patch once more: if the check refuses it, it is recognised as already applied,
      and nothing is reported but that the file ends too early for it. */
  lemma AppliedTwice(src: seq<Line>, hs: seq<Hunk>)
    requires hs != [] && IsLfFile(src) && LfText(hs) && NoMarkers(hs) && Fits(|src|, 0, hs) && Aligned(0, 0, hs)
    ensures var out := WrittenAndRead(Patched(src, 0, hs));
      !CanPatch(StripAll(out), hs) ==>
        AppliedTo(out, hs) == Done(Text(out), if SomePending(StripAll(out), hs) then 1 else 0)
  {
    DetectorAcceptsPatched(src, hs);
    FitsIsOrdered(|src|, 0, hs);
    FitsCounted(|src|, 0, hs);
    AppliedMeaning(WrittenAndRead(Patched(src, 0, hs)), hs);
  }

  /** A patch that makes a new file passes on every file, each time: its lines are put before
      what is there. */
  lemma NewFileAppliesAgain(lines: seq<Line>, h: Hunk)
    requires Counted(h) && NewFile([h]) && !RemovesFile([h]) && !HasMarker(h.text)
    ensures AppliedTo(lines, [h]) == Done(Text(WrittenAndRead(Patched(lines, 0, [h]))), 0)
    ensures StripAll(Patched(lines, 0, [h])) == New(h) + StripAll(lines)
  {
    AppliedMeaning(lines, [h]);
    OneFits(|lines|, h);
    PatchedOne(lines, h, |lines|);
  }

  // ---------- deletions numbered by the line before them ----------

  lemma InsertionRefused(now: seq<Line>, g: Hunk)
    requires Counted(g) && g.linessrc == 0
    ensures var r := AppliedTo(now, [g]);
      r.Done? && (r.errors > 0 <==> g.startsrc > 0) && (g.startsrc > 0 ==> r.after == Text(now))
  {
    AppliedMeaning(now, [g]);
    assert [g][0] == g;
    assert Pending(StripAll(now), g);
  }

  lemma DeletionApplied(src: seq<Line>, h: Hunk, at: nat)
    requires Fits(|src|, 0, [h]) && OldStands(StripAll(src), [h])
    requires h.startsrc == at + 1 && h.linessrc > 0 && h.starttgt == at && h.linestgt == 0
    ensures AppliedTo(src, [h]) == Done(if at == 0 then Missing else Text(WrittenAndRead(Patched(src, 0, [h]))), 0)
  {
    assert Applicable([h]) && (RemovesFile([h]) <==> at == 0);
    StandingApplies(src, [h]);
  }

  /** A deletion without context is not reverted through the file: where a line stands before
      it, the check refuses the reversed hunk, whatever the file holds by then; where none
      does, the file was removed as a whole when the deletion was applied. */
  lemma PosixDeletionRefused(src: seq<Line>, h: Hunk, at: nat, now: seq<Line>)
    requires Fits(|src|, 0, [h]) && OldStands(StripAll(src), [h])
    requires h.startsrc == at + 1 && h.linessrc > 0 && h.starttgt == at && h.linestgt == 0
    ensures AppliedTo(src, [h]) == Done(if at == 0 then Missing else Text(WrittenAndRead(Patched(src, 0, [h]))), 0)
    ensures var r := AppliedTo(now, [ReverseHunk(h)]);
      r.Done? && (r.errors > 0 <==> at > 0) && (at > 0 ==> r.after == Text(now))
  {
    DeletionApplied(src, h, at);
    OneFits(|src|, h);
    ReverseSwapsSides(h.text);
    InsertionRefused(now, ReverseHunk(h));
  }
}
