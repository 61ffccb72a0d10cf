/** Small inputs on which the patch engine does not do what the hunks say. */
module PatchExamples {
  import opened Lines
  import opened Hunks
  import opened PatchStream
  import opened PatchTheorems
  import opened LineEnds
  import opened Revert

  const LINE_A: Line := [97, LF]
  const LINE_B: Line := [98, LF]
  const LINE_C: Line := [99, LF]

  lemma ThreeLines()
    ensures StripAll([LINE_A, LINE_B, LINE_C]) == [[97], [98], [99]] && IsLfFile([LINE_A, LINE_B, LINE_C])
  {
    StripOf(97);
    StripOf(98);
    StripOf(99);
    StripAllAt([LINE_A, LINE_B, LINE_C], 0);
    StripAllAt([LINE_A, LINE_B, LINE_C], 1);
    StripAllAt([LINE_A, LINE_B, LINE_C], 2);
  }

  lemma StripOf(c: Byte)
    requires !IsEol(c)
    ensures StripEol([c, LF]) == [c]
  {
    StripEolUnique([c, LF], [c]);
  }

  /** The sides of a hunk text of one removed or added line. */
  lemma OneLineText(kind: Byte, l: Line)
    requires kind == MINUS || kind == PLUS
    ensures var text := [[kind] + l];
      && KnownText(text) && !HasMarker(text)
      && SourceLines(text) == (if kind == MINUS then [l] else [])
      && TargetLines(text) == (if kind == PLUS then [l] else [])
  {
    var text := [[kind] + l];
    assert text[1..] == [] && text[0][0] == kind && Body(text[0]) == l;
  }

  // ---------- a marker line ----------

  /** A hunk that replaces `a` by `b`, with a marker line between them. */
  const MARKED := Hunk(1, 1, 1, 1, false, [], [[MINUS] + LINE_A, [BACKSLASH, LF], [PLUS] + LINE_B])

  lemma MarkedIsCounted()
    ensures Counted(MARKED) && HasMarker(MARKED.text)
  {
    var text := MARKED.text;
    var last := text[2..];
    assert text[1..] == [text[1]] + last && last == [text[2]] && last[1..] == [];
    assert IsMinus(text[0]) && IsNoNewline(text[1]) && IsPlus(text[2]);
    assert !IsContext(text[0]) && !IsContext(text[1]) && !IsContext(text[2]);
    assert text[1..][0] == text[1] && text[1..][1..] == last;
    assert SourceLines(last[1..]) == [] && TargetLines(last[1..]) == [];
    assert SourceLines(last) == [] && |TargetLines(last)| == 1;
    assert SourceLines(text[1..]) == [] && TargetLines(text[1..]) == TargetLines(last);
  }

  /** The second of the lines `a`, `b`, `c` is lost. */
  lemma MarkerSwallowsLine()
    ensures Fits(3, 0, [MARKED])
    ensures var src := [LINE_A, LINE_B, LINE_C];
      StripAll(Patched(src, 0, [MARKED])) != Splice(StripAll(src), 0, [MARKED])
  {
    MarkedIsCounted();
    OneFits(3, MARKED);
    assert [MARKED][0] == MARKED && [MARKED][1..] == [];
    assert !MarkersHarmless(3, 1, [], true);
    assert !MarkersHarmless(3, 0, [MARKED], false);
    PatchRefinesSplice([LINE_A, LINE_B, LINE_C], [MARKED]);
  }

  // ---------- an empty range ----------

  /** A hunk that deletes the second of three lines. */
  const DELETION := Hunk(2, 1, 1, 0, false, [], [[MINUS] + LINE_B])

  lemma DeletionFits()
    ensures Fits(3, 0, [DELETION]) && Fits(2, 0, [ReverseHunk(DELETION)])
    ensures !HasMarker(DELETION.text) && !HasMarker(ReverseHunk(DELETION).text)
    ensures Old(DELETION) == [[98]]
  {
    OneLineText(MINUS, LINE_B);
    ReverseSwapsSides(DELETION.text);
    OneFits(3, DELETION);
    OneFits(2, ReverseHunk(DELETION));
    StripOf(98);
    StripAllAt(SourceLines(DELETION.text), 0);
  }

  /** Deleting the second of the lines `a`, `b`, `c` and putting it back does not give them back. */
  lemma DeletionComesBackTooEarly()
    ensures var patched := WrittenAndRead(Patched([LINE_A, LINE_B, LINE_C], 0, [DELETION]));
      StripAll(Patched(patched, 0, [ReverseHunk(DELETION)])) != StripAll([LINE_A, LINE_B, LINE_C])
  {
    var s := StripAll([LINE_A, LINE_B, LINE_C]);
    DeletionFits();
    ThreeLines();
    assert OldStands(s, [DELETION]) by {
      assert s[1..2] == [[98]];
    }
    assert LfText([DELETION]) by {
      assert Body(DELETION.text[0]) == LINE_B && LfLine(LINE_B);
    }
    OneFits(3, DELETION);
    OneFits(2, ReverseHunk(DELETION));
    PosixDeletionReverts([LINE_A, LINE_B, LINE_C], DELETION, 1, 2);
    assert s[1] != s[0];
  }
}
