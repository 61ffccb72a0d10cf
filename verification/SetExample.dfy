/** Two patches for one file that do not come back when they are reverted. */
module SetExample {
  import opened Options
  import opened Lines
  import opened Hunks
  import opened ParserSteps
  import opened PatchStream
  import opened LineEnds
  import opened Revert
  import opened Validator
  import opened Apply
  import opened PatchSets
  import opened SetApply
  import opened SetOrder

  /** A hunk of one line, for the first line. */
  predicate OneLineHunk(h: Hunk, y: Byte, z: Byte) {
    && h.startsrc == h.starttgt == h.linessrc == h.linestgt == 1 && KnownText(h.text) && !HasMarker(h.text)
    && SourceLines(h.text) == [[y, LF]] && TargetLines(h.text) == [[z, LF]]
    && forall j :: 0 <= j < |h.text| ==> Body(h.text[j]) == [y, LF] || Body(h.text[j]) == [z, LF]
  }

  lemma OneLinePatched(h: Hunk, x: Byte, y: Byte, z: Byte, out: seq<Line>)
    requires OneLineHunk(h, y, z) && !IsEol(x) && !IsEol(y) && !IsEol(z) && out == Patched([[x, LF]], 0, [h])
    ensures out == [[z, LF]]
  {
    OneFits(1, h);
    PatchedOne([[x, LF]], h, 1);
    LetterLine(x);
    LetterLine(y);
    LetterLine(z);
    assert StripAll(out) == [[z]];
    PatchedStyled([[x, LF]], Lf, 0, [h]);
    StyledEqual(out, [[z, LF]], Lf);
  }

  /** It is applied to every file of one line. */
  lemma OneLineIsRewritten(h: Hunk, x: Byte, y: Byte, z: Byte)
    requires OneLineHunk(h, y, z) && !IsEol(x) && !IsEol(y) && !IsEol(z)
    ensures AppliedTo([[x, LF]], [h]) == Done(Text([[z, LF]]), 0)
  {
    var s := StripAll([[x, LF]]);
    assert Checks(s, h) && !Pending(s, h);
    AppliedMeaning([[x, LF]], [h]);
    OneLinePatched(h, x, y, z, Patched([[x, LF]], 0, [h]));
    assert IsLfFile([[z, LF]]);
    SplitJoin([[z, LF]]);
  }

  lemma LetterLine(c: Byte)
    requires !IsEol(c)
    ensures StripEol([c, LF]) == [c] && StripAll([[c, LF]]) == [[c]] && Styled([c, LF], Lf)
  {
    StripEolUnique([c, LF], [c]);
    StripAllAt([[c, LF]], 0);
    assert [c] + [LF] == [c, LF];
  }

  const NAME: Bytes := [120]

  /** A patch for the file `x` that replaces its one line. */
  function Replacing(y: Byte, z: Byte): Patch {
    Patch(Some(NAME), NAME, [], [Hunk(1, 1, 1, 1, false, [], [[MINUS, y, LF], [PLUS, z, LF]])], NO_LINES)
  }

  lemma ReplacingHunk(y: Byte, z: Byte)
    ensures OneLineHunk(Replacing(y, z).hunks[0], y, z)
  {
    var text := Replacing(y, z).hunks[0].text;
    assert text[1..] == [text[1]] && text[1..][1..] == [];
    assert Body(text[0]) == [y, LF] && Body(text[1]) == [z, LF];
    assert SourceLines([]) == [] && TargetLines([]) == [];
    assert SourceLines(text[1..]) == [] && TargetLines(text[1..]) == [[z, LF]];
  }

  /** The patch and its reverse on any file of one line. */
  lemma ReplacingGives(x: Byte, y: Byte, z: Byte)
    requires !IsEol(x) && !IsEol(y) && !IsEol(z)
    ensures AppliedTo([[x, LF]], Replacing(y, z).hunks) == Done(Text([[z, LF]]), 0)
    ensures AppliedTo([[x, LF]], ReversePatch(Replacing(y, z)).hunks) == Done(Text([[y, LF]]), 0)
  {
    var hs := Replacing(y, z).hunks;
    var h, rev := hs[0], ReverseHunk(hs[0]);
    ReplacingHunk(y, z);
    ReverseSwapsSides(h.text);
    forall j | 0 <= j < |rev.text|
      ensures Body(rev.text[j]) == [y, LF] || Body(rev.text[j]) == [z, LF]
    {
      assert Body(ReverseLine(h.text[j])) == Body(h.text[j]);
    }
    OneLineIsRewritten(h, x, y, z);
    OneLineIsRewritten(rev, x, z, y);
    assert ReverseAll(hs) == [rev];
  }

  lemma ReplacingSet(p: Patch, q: Patch, x: Byte, y: Byte, z: Byte)
    requires Usable(p) && Usable(q) && p.source == q.source == Some(NAME)
    requires AppliedTo([[x, LF]], p.hunks) == Done(Text([[y, LF]]), 0)
    requires AppliedTo([[y, LF]], q.hunks) == Done(Text([[z, LF]]), 0)
    ensures ApplySet(map[NAME := [[x, LF]]], [p, q]) == SetResult(map[NAME := [[z, LF]]], 0, false)
  {
    var files: Files := map[NAME := [[x, LF]]];
    var once: Files := files[NAME := [[y, LF]]];
    TwoSteps(files, p, q);
    StepIs(files, p, NAME, [[x, LF]], Done(Text([[y, LF]]), 0));
    StepIs(once, q, NAME, [[y, LF]], Done(Text([[z, LF]]), 0));
    Singleton(once, q);
  }

  /** `a` becomes `b`, then `c`; reverting reports no error and leaves `b`. */
  lemma RevertLeavesAnotherLine()
    ensures var items, a, c := [Replacing(97, 98), Replacing(98, 99)], map[NAME := [[97, LF]]], map[NAME := [[99, LF]]];
      && ApplySet(a, items) == SetResult(c, 0, false)
      && ApplySet(c, ReverseSet(items)) == SetResult(map[NAME := [[98, LF]]], 0, false)
  {
    var p, q := Replacing(97, 98), Replacing(98, 99);
    ReplacingGives(97, 97, 98);
    ReplacingGives(98, 98, 99);
    ReplacingSet(p, q, 97, 98, 99);
    ReplacingGives(99, 97, 98);
    ReplacingGives(97, 98, 99);
    ReversedPair(p, q);
    ReplacingSet(ReversePatch(p), ReversePatch(q), 99, 97, 98);
  }
}
