/** A patch file that parses, and whose object prints a text that is not read back as its patches. */
module DumpExample {
  import opened Options
  import opened Lines
  import opened Hunks
  import opened ParserSteps
  import opened ParserModes
  import opened ParserSound
  import opened Names
  import opened PatchSets
  import Dump
  import PatchExamples

  /** The absolute name `/ a`, and what the normalisation leaves of it. */
  const ROOTED: Bytes := [SLASH, SPACE, 97]
  const BARE: Bytes := [SPACE, 97]

  lemma SplitRooted()
    ensures SplitSlash(ROOTED) == [[], BARE]
  {
    var last: Bytes := [97];
    assert ROOTED[1..] == BARE && BARE[1..] == last && last[1..] == [] && last[0] == 97;
    assert SplitSlash(last) == [last] by {
      assert SplitSlash([]) == [[]] && [last[0]] + [] == last;
    }
    assert SplitSlash(BARE) == [BARE] by {
      assert [BARE[0]] + last == BARE;
    }
  }

  lemma NormPathRooted()
    ensures NormPath(ROOTED) == ROOTED
  {
    SplitRooted();
    var comps := [[], BARE];
    assert comps[1..] == [BARE] && [BARE][1..] == [];
    assert KeepComp([], [], true) == [] && KeepComp([], BARE, true) == [BARE];
    assert FoldComps(comps, true, []) == FoldComps([BARE], true, []) == FoldComps([], true, [BARE]) == [BARE];
    assert InitialSlashes(ROOTED) == 1;
    assert Slashes(1) + JoinSlash([BARE]) == ROOTED;
  }

  lemma OnlyOneIsClean()
    ensures CleanName(ROOTED) && !CleanName(BARE)
  {
    assert StripLeft(ROOTED) == ROOTED && StripRight(ROOTED) == ROOTED;
    StripLeftIs(BARE);
    StripRightIs(StripLeft(BARE));
    assert IsSpace(BARE[0]) && Strip(BARE) != BARE;
  }

  /** The name stands on a line of its own before it is normalised, and not after. */
  lemma NormalNameIsUnclean(letter: Byte, vcs: bool)
    ensures CleanName(ROOTED)
    ensures Normalized(ROOTED, letter, vcs) == BARE && !CleanName(Normalized(ROOTED, letter, vcs))
  {
    NormPathRooted();
    assert ForwardSlashes(ROOTED) == ROOTED;
    assert StripPrefix(ROOTED, letter, vcs) == ROOTED by {
      assert ROOTED[1] != SLASH;
    }
    assert XNormPath(ROOTED) == ROOTED && DropParents(ROOTED) == ROOTED;
    assert ROOTED[1..] == BARE && SlashRun(BARE) == 0 && SlashRun(ROOTED) == 1;
    assert StripOnce(ROOTED) == BARE && StripAbs(BARE) == BARE;
    assert Normalized(ROOTED, letter, vcs) == StripAbs(ROOTED) == BARE;
    OnlyOneIsClean();
  }

  /** A patch for that name, which removes the line `a`. */
  const DELETING := Hunk(1, 1, 0, 0, false, [], [[MINUS] + PatchExamples.LINE_A])
  const PATCH := Patch(Some(ROOTED), ROOTED, [], [DELETING], NO_LINES)

  lemma PatchIsGood()
    ensures GoodPatches([PATCH])
  {
    PatchExamples.OneLineText(MINUS, PatchExamples.LINE_A);
    OnlyOneIsClean();
    assert ClosedHunk(DELETING);
  }

  lemma OneName(parsed: Patch, vcs: Patch -> bool)
    requires parsed.source == Some(ROOTED)
    ensures !CleanNames(NormalizedAll([parsed], vcs))
  {
    NormalNameIsUnclean(OLD_LETTER, vcs(parsed));
    var items := NormalizedAll([parsed], vcs);
    assert items[0] == NormalizedPatch(parsed, vcs(parsed));
  }

  /** The printed patch is a file that parses; what the object then holds is not what it prints. */
  lemma OwnDumpIsNotReadBack(vcs: Patch -> bool)
    ensures var parsed := ParseLines(SplitLines(Join(Dump.DumpPatches([PATCH]))));
      && parsed.success && HaveSources(parsed.items)
      && var items := NormalizedAll(parsed.items, vcs);
      var again := ParseLines(SplitLines(Join(Dump.DumpPatches(items))));
      !(again.success && Dump.SamePatches(again.items, Dump.PrintedPatches(items)))
  {
    PatchIsGood();
    Dump.ParseUndoesDump([PATCH]);
    var stream := SplitLines(Join(Dump.DumpPatches([PATCH])));
    var parsed := ParseLines(stream).items;
    SplitLinesIsFile(Join(Dump.DumpPatches([PATCH])));
    SuccessIsWellFormed(stream);
    assert Dump.SamePatch(parsed[0], Dump.PrintedPatches([PATCH])[0]) && parsed == [parsed[0]];
    assert HaveSources(parsed) by {
      assert GoodPatch(parsed[0], true);
    }
    OneName(parsed[0], vcs);
    OwnDumpParsesBack(stream, vcs);
  }
}
