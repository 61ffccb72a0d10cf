/** The `PatchSet` object: its patches and counters, changed in place. */
module PatchSets {
  import opened Options
  import opened Lines
  import opened Hunks
  import opened ParserSteps
  import opened ParserModes
  import opened ParserSound
  import opened Names
  import opened Revert
  import Dump
  import PatchParser

  function ReversePatch(p: Patch): Patch {
    p.(hunks := ReverseAll(p.hunks))
  }

  /** The letters of the prefixes that version control systems put before names. */
  const OLD_LETTER: Byte := 97
  const NEW_LETTER: Byte := 98

  function NormalizedPatch(p: Patch, vcs: bool): Patch
    requires p.source.Some?
  {
    p.(source := Some(Normalized(p.source.value, OLD_LETTER, vcs)), target := Normalized(p.target, NEW_LETTER, vcs))
  }

  function NormalizedAll(items: seq<Patch>, vcs: Patch -> bool): (r: seq<Patch>)
    requires HaveSources(items)
    ensures |r| == |items| && HaveSources(r)
  {
    seq(|items|, i requires 0 <= i < |items| => NormalizedPatch(items[i], vcs(items[i])))
  }

  /** In a Git or Mercurial patch `a/` is taken from the source name and `b/` from the target name,
      in any other patch neither; plain names stay. */
  lemma PrefixesOfNames(p: Patch, f: Bytes, fs: seq<Bytes>, g: Bytes, gs: seq<Bytes>)
    requires PlainName(f, fs) && PlainName(g, gs) && p.source == Some([97, 47] + f) && p.target == [98, 47] + g
    ensures NormalizedPatch(p, true) == p.(source := Some(f), target := g)
    ensures NormalizedPatch(p, false) == p
  {
    assert [97 as Byte] != [DOT] && [98 as Byte] != [DOT];
    PrefixIsStripped(f, fs, OLD_LETTER);
    PrefixIsStripped(g, gs, NEW_LETTER);
  }

  /** One warning for each name with parent references in front, and one if either name is absolute. */
  function NameWarnings(p: Patch, vcs: bool): nat
    requires p.source.Some?
  {
    var source := XNormPath(StripPrefix(p.source.value, OLD_LETTER, vcs));
    var target := XNormPath(StripPrefix(p.target, NEW_LETTER, vcs));
    (if StartsWithParent(source) then 1 else 0) + (if StartsWithParent(target) then 1 else 0)
    + if IsAbs(DropParents(source)) || IsAbs(DropParents(target)) then 1 else 0
  }

  /** Names with parent references or slashes in front lose them. There is a warning for parent
      references of each name, and one for slashes, be they in front of one name or of both. */
  lemma WarningsAre(p: Patch, f: Bytes, fs: seq<Bytes>, i: nat, m: nat, g: Bytes, gs: seq<Bytes>, j: nat, n: nat)
    requires p.source.Some? && Decorated(p.source.value, f, fs, i, m) && Decorated(p.target, g, gs, j, n)
    ensures NormalizedPatch(p, false) == p.(source := Some(f), target := g)
    ensures NameWarnings(p, false)
      == (if i > 0 then 1 else 0) + (if j > 0 then 1 else 0) + (if m > 0 || n > 0 then 1 else 0)
  {
    DecoratedIs(p.source.value, f, fs, i, m, OLD_LETTER);
    DecoratedIs(p.target, g, gs, j, n, NEW_LETTER);
  }

  function AllWarnings(items: seq<Patch>, vcs: Patch -> bool): nat
    requires HaveSources(items)
  {
    if items == [] then 0
    else
      var n := |items| - 1;
      AllWarnings(items[..n], vcs) + NameWarnings(items[n], vcs(items[n]))
  }

  lemma WarningsNext(items: seq<Patch>, i: nat, vcs: Patch -> bool)
    requires HaveSources(items) && i < |items|
    ensures HaveSources(items[..i]) && HaveSources(items[..i + 1])
    ensures AllWarnings(items[..i + 1], vcs) == AllWarnings(items[..i], vcs) + NameWarnings(items[i], vcs(items[i]))
  {
    assert items[..i + 1][..i] == items[..i];
  }

  lemma ParsedHaveSources(lines: seq<Line>)
    requires forall i :: 0 <= i < |lines| ==> IsLine(lines[i])
    ensures HaveSources(ParseLines(lines).items)
    ensures ParseLines(lines).success <==> ParseLines(lines).items != [] && ParseLines(lines).errors == 0
  {
    AlwaysOneMode(lines);
  }

  class PatchSet {
    var items: seq<Patch>
    var errors: nat
    var warnings: nat

    constructor ()
      ensures items == [] && errors == 0 && warnings == 0
    {
      items, errors, warnings := [], 0, 0;
    }

    /** Reads a patch file and adds its patches to those that are there; `vcs` stands for the
        detection of Git and Mercurial patches. All names are normalised, the earlier ones
        once more. */
    method Parse(stream: seq<Line>, vcs: Patch -> bool) returns (ok: bool)
      requires HaveSources(items) && forall i :: 0 <= i < |stream| ==> IsLine(stream[i])
      modifies this
      ensures HaveSources(ParseLines(stream).items) && errors == ParseLines(stream).errors
      ensures var all := old(items) + ParseLines(stream).items;
        && items == NormalizedAll(all, vcs)
        && warnings == old(warnings) + ParseLines(stream).warnings + AllWarnings(all, vcs)
      ensures ok == (items != [] && errors == 0)
      ensures old(items) == [] ==> ok == ParseLines(stream).success
    {
      var o := PatchParser.Parse(stream);
      ParsedHaveSources(stream);
      items, errors, warnings := items + o.items, o.errors, warnings + o.warnings;
      if items == [] {
        return false;
      }
      NormalizeFilenames(vcs);
      ok := errors == 0;
    }

    method NormalizeFilenames(vcs: Patch -> bool)
      requires HaveSources(items)
      modifies this`items, this`warnings
      ensures items == NormalizedAll(old(items), vcs)
      ensures warnings == old(warnings) + AllWarnings(old(items), vcs)
    {
      for i := 0 to |items|
        invariant |items| == |old(items)|
        invariant forall k :: 0 <= k < i ==> items[k] == NormalizedPatch(old(items)[k], vcs(old(items)[k]))
        invariant forall k :: i <= k < |items| ==> items[k] == old(items)[k]
        invariant warnings == old(warnings) + AllWarnings(old(items)[..i], vcs)
      {
        WarningsNext(old(items), i, vcs);
        var p, given := NormalizePatch(items[i], vcs(items[i]));
        warnings := warnings + given;
        items := items[i := p];
      }
      assert old(items)[..|old(items)|] == old(items);
    }

    /** `_reverse`: turns every hunk of every patch around. */
    method Reverse()
      modifies this
      ensures errors == old(errors) && warnings == old(warnings) && |items| == |old(items)|
      ensures forall k :: 0 <= k < |items| ==> items[k] == ReversePatch(old(items)[k])
    {
      for i := 0 to |items|
        invariant errors == old(errors) && warnings == old(warnings) && |items| == |old(items)|
        invariant forall k :: 0 <= k < i ==> items[k] == ReversePatch(old(items)[k])
        invariant forall k :: i <= k < |items| ==> items[k] == old(items)[k]
      {
        var hunks := ReverseHunksOf(items[i].hunks);
        items := items[i := items[i].(hunks := hunks)];
      }
    }

    method DumpLines() returns (out: seq<Line>)
      requires HaveSources(items)
      ensures out == Dump.DumpPatches(items)
    {
      out := [];
      for i := 0 to |items|
        invariant out == Dump.DumpPatches(items[..i])
      {
        assert items[..i + 1][..i] == items[..i];
        out := out + Dump.DumpPatch(items[i]);
      }
      assert items[..|items|] == items;
    }
  }

  /** `_normalize_filenames` for one patch, with the number of warnings given. */
  method NormalizePatch(p0: Patch, vcs: bool) returns (p: Patch, given: nat)
    requires p0.source.Some?
    ensures p == NormalizedPatch(p0, vcs) && given == NameWarnings(p0, vcs)
  {
    var source, parents, absolute := NormalizeName(p0.source.value, OLD_LETTER, vcs);
    var target, parents', absolute' := NormalizeName(p0.target, NEW_LETTER, vcs);
    p := p0.(source := Some(source), target := target);
    given := (if parents then 1 else 0) + (if parents' then 1 else 0) + if absolute || absolute' then 1 else 0;
  }

  /** The middle loop of `_reverse`: every hunk of a patch. */
  method ReverseHunksOf(hunks0: seq<Hunk>) returns (hunks: seq<Hunk>)
    ensures hunks == ReverseAll(hunks0)
  {
    hunks := hunks0;
    for j := 0 to |hunks|
      invariant |hunks| == |hunks0|
      invariant forall k :: 0 <= k < j ==> hunks[k] == ReverseHunk(hunks0[k])
      invariant forall k :: j <= k < |hunks| ==> hunks[k] == hunks0[k]
    {
      var h := hunks[j];
      var text := ReverseTextOf(h.text);
      hunks := hunks[j := h.(startsrc := h.starttgt, starttgt := h.startsrc,
        linessrc := h.linestgt, linestgt := h.linessrc, text := text)];
    }
  }

  /** The innermost loop: every line of a hunk text. */
  method ReverseTextOf(text0: seq<Line>) returns (text: seq<Line>)
    ensures text == ReverseText(text0)
  {
    text := text0;
    for i := 0 to |text|
      invariant |text| == |text0|
      invariant forall k :: 0 <= k < i ==> text[k] == ReverseLine(text0[k])
      invariant forall k :: i <= k < |text| ==> text[k] == text0[k]
    {
      if IsPlus(text[i]) {
        text := text[i := [MINUS] + text[i][1..]];
      } else if IsMinus(text[i]) {
        text := text[i := [PLUS] + text[i][1..]];
      }
    }
  }

  // ---------- the dump of the object itself ----------

  /** Well-formed but for its names. */
  predicate GoodBut(p: Patch, first: bool) {
    p.source.Some? && GoodHeader(p.header, first) && p.hunks != [] && GoodHunks(p.hunks)
  }

  predicate CleanNames(items: seq<Patch>)
    requires HaveSources(items)
  {
    forall i :: 0 <= i < |items| ==> CleanName(items[i].source.value) && CleanName(items[i].target)
  }

  /** Patches with any names come back from their dump exactly when their names stand on a
      line of their own: without tabs and line ends, and without blanks at either end. */
  lemma NamesDecideDump(items: seq<Patch>)
    requires items != [] && HaveSources(items) && forall i :: 0 <= i < |items| ==> GoodBut(items[i], i == 0)
    ensures var again := ParseLines(SplitLines(Join(Dump.DumpPatches(items))));
      again.success && Dump.SamePatches(again.items, Dump.PrintedPatches(items)) <==> CleanNames(items)
  {
    var lines := SplitLines(Join(Dump.DumpPatches(items)));
    var again := ParseLines(lines);
    if CleanNames(items) {
      Dump.ParseUndoesDump(items);
    }
    SplitLinesIsFile(Join(Dump.DumpPatches(items)));
    SuccessIsWellFormed(lines);
    if again.success && Dump.SamePatches(again.items, Dump.PrintedPatches(items)) {
      forall i | 0 <= i < |items|
        ensures CleanName(items[i].source.value) && CleanName(items[i].target)
      {
        assert GoodPatch(again.items[i], i == 0) && Dump.SamePatch(again.items[i], Dump.PrintedPatches(items)[i]);
      }
    }
  }

  /** So what an object prints after a successful parse, with its names normalised, is read
      back as its own patches exactly when the normalised names are clean. */
  lemma OwnDumpParsesBack(stream: seq<Line>, vcs: Patch -> bool)
    requires IsFile(stream) && HaveSources(ParseLines(stream).items)
    ensures ParseLines(stream).success ==>
      var items := NormalizedAll(ParseLines(stream).items, vcs);
      var again := ParseLines(SplitLines(Join(Dump.DumpPatches(items))));
      again.success && Dump.SamePatches(again.items, Dump.PrintedPatches(items)) <==> CleanNames(items)
  {
    if ParseLines(stream).success {
      var parsed := ParseLines(stream).items;
      SuccessIsWellFormed(stream);
      var items := NormalizedAll(parsed, vcs);
      forall i | 0 <= i < |items|
        ensures GoodBut(items[i], i == 0)
      {
        assert GoodPatch(parsed[i], i == 0);
      }
      NamesDecideDump(items);
    }
  }
}
