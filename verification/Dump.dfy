/** `PatchSet.dump`, and why the parser undoes it. */
module Dump {
  import opened Options
  import opened Lines
  import opened Hunks
  import opened HunkHead
  import opened ParserSteps
  import opened ParserModes
  import opened ParserSound
  import opened PatchGrammar
  import opened PatchLines

  function StripLf(l: Line): Line {
    if l != [] && l[|l| - 1] == LF then StripLf(l[..|l| - 1]) else l
  }

  /** One printed line: the text without its LF, and the LF that print adds. */
  function Printed(l: Line): Line {
    StripLf(l) + [LF]
  }

  function PrintedAll(ls: seq<Line>): (r: seq<Line>)
    ensures |r| == |ls| && forall i :: 0 <= i < |ls| ==> r[i] == Printed(ls[i])
  {
    seq(|ls|, i requires 0 <= i < |ls| => Printed(ls[i]))
  }

  function DumpHunk(h: Hunk): seq<Line> {
    [PrintHead(Range(h.startsrc, h.linessrc), Range(h.starttgt, h.linestgt)) + [LF]] + PrintedAll(h.text)
  }

  function DumpHunks(hs: seq<Hunk>): seq<Line> {
    if hs == [] then [] else DumpHunks(hs[..|hs| - 1]) + DumpHunk(hs[|hs| - 1])
  }

  function NameLines(source: Bytes, target: Bytes): seq<Line> {
    [OLD_NAME + source + [LF], NEW_NAME + target + [LF]]
  }

  function DumpPatch(p: Patch): seq<Line>
    requires p.source.Some?
  {
    PrintedAll(p.header) + NameLines(p.source.value, p.target) + DumpHunks(p.hunks)
  }

  function DumpPatches(items: seq<Patch>): seq<Line>
    requires HaveSources(items)
  {
    if items == [] then [] else DumpPatches(items[..|items| - 1]) + DumpPatch(items[|items| - 1])
  }

  // ---------- what a round trip keeps ----------

  /** Everything but the line-end statistics, which are not printed. */
  predicate SamePatch(a: Patch, b: Patch) {
    a.source == b.source && a.target == b.target && a.header == b.header && a.hunks == b.hunks
  }

  predicate SamePatches(a: seq<Patch>, b: seq<Patch>) {
    |a| == |b| && forall i :: 0 <= i < |a| ==> SamePatch(a[i], b[i])
  }

  /** A hunk without its description and with every text line ended by LF. */
  function PrintedHunk(h: Hunk): Hunk {
    h.(desc := [], text := PrintedAll(h.text))
  }

  function PrintedHunks(hs: seq<Hunk>): (r: seq<Hunk>)
    ensures |r| == |hs| && forall i :: 0 <= i < |hs| ==> r[i] == PrintedHunk(hs[i])
  {
    seq(|hs|, i requires 0 <= i < |hs| => PrintedHunk(hs[i]))
  }

  function PrintedPatch(p: Patch): Patch {
    p.(header := PrintedAll(p.header), hunks := PrintedHunks(p.hunks))
  }

  function PrintedPatches(items: seq<Patch>): (r: seq<Patch>)
    ensures |r| == |items| && forall i :: 0 <= i < |items| ==> r[i] == PrintedPatch(items[i])
  {
    seq(|items|, i requires 0 <= i < |items| => PrintedPatch(items[i]))
  }

  // ---------- printed patches as a file of the grammar ----------

  function PrintedHunkPart(h: Hunk): HunkPart {
    HunkPart(PrintHead(Range(h.startsrc, h.linessrc), Range(h.starttgt, h.linestgt)) + [LF], PrintedAll(h.text))
  }

  function PrintedHunkParts(hs: seq<Hunk>): (r: seq<HunkPart>)
    ensures |r| == |hs| && forall i :: 0 <= i < |hs| ==> r[i] == PrintedHunkPart(hs[i])
  {
    if hs == [] then [] else PrintedHunkParts(hs[..|hs| - 1]) + [PrintedHunkPart(hs[|hs| - 1])]
  }

  function PrintedPart(p: Patch): PatchPart
    requires p.source.Some?
  {
    PatchPart(PrintedAll(p.header), [OLD_NAME + p.source.value + [LF]], NEW_NAME + p.target + [LF],
      PrintedHunkParts(p.hunks))
  }

  function PrintedParts(items: seq<Patch>): (r: seq<PatchPart>)
    requires HaveSources(items)
    ensures |r| == |items| && forall i :: 0 <= i < |items| ==> r[i] == PrintedPart(items[i])
  {
    if items == [] then [] else PrintedParts(items[..|items| - 1]) + [PrintedPart(items[|items| - 1])]
  }

  lemma {:induction false} HunkPartsAreDumped(hs: seq<Hunk>)
    ensures HunksLines(PrintedHunkParts(hs)) == DumpHunks(hs)
  {
    if hs != [] {
      var n := |hs| - 1;
      HunkPartsAreDumped(hs[..n]);
      assert PrintedHunkParts(hs)[..n] == PrintedHunkParts(hs[..n]);
    }
  }

  lemma PartIsDumped(p: Patch)
    requires p.source.Some?
    ensures PartLines(PrintedPart(p)) == DumpPatch(p)
  {
    HunkPartsAreDumped(p.hunks);
    var oldLine, newLine := OLD_NAME + p.source.value + [LF], NEW_NAME + p.target + [LF];
    assert [oldLine] + [newLine] == NameLines(p.source.value, p.target);
    Assoc(PrintedAll(p.header), [oldLine], [newLine]);
  }

  lemma {:induction false} PartsAreDumped(items: seq<Patch>)
    requires HaveSources(items)
    ensures PartsLines(PrintedParts(items)) == DumpPatches(items)
  {
    if items != [] {
      var n := |items| - 1;
      PartsAreDumped(items[..n]);
      PartIsDumped(items[n]);
      PartsNext(PrintedParts(items[..n]), PrintedPart(items[n]), PrintedParts(items));
    }
  }

  lemma CleanIsTrimmed(n: Bytes)
    requires CleanName(n)
    ensures Trimmed(n) && TAB !in n
  {
    StripLeftIs(n);
    StripRightIs(StripLeft(n));
  }

  /** A printed name is read back. */
  lemma FileNameIs(prefix: Bytes, n: Bytes)
    requires |prefix| == 4 && CleanName(n)
    ensures IsNamed(prefix + n + [LF]) && NameOf(prefix + n + [LF]) == n
  {
    CleanIsTrimmed(n);
    NameIsRead(prefix, [], n, [LF], []);
    assert prefix + [] + n + [LF] + [] == prefix + n + [LF];
  }

  lemma TextIsNotBlank(text: seq<Line>)
    requires HunkLines(text)
    ensures Expanded(text) == text
  {
    forall i | 0 <= i < |text|
      ensures Expand(text[i]) == text[i]
    {
      assert !IsEol(text[i][0]);
    }
  }

  lemma PrintedHunkIs(h: Hunk)
    requires ClosedHunk(h)
    ensures HunkOf(PrintedHunkPart(h)) == PrintedHunk(h) && ClosedPart(PrintedHunkPart(h))
  {
    ReadHeadIs(Range(h.startsrc, h.linessrc), Range(h.starttgt, h.linestgt));
    PrintedHunkIsClosed(h);
    TextIsNotBlank(PrintedAll(h.text));
  }

  lemma PrintedHunksClosed(hs: seq<Hunk>)
    requires GoodHunks(hs)
    ensures ClosedParts(PrintedHunkParts(hs))
  {
    forall i | 0 <= i < |hs|
      ensures ClosedPart(PrintedHunkParts(hs)[i])
    {
      PrintedHunkIs(hs[i]);
    }
  }

  lemma PrintedHunksNext(hs: seq<Hunk>, n: nat)
    requires n == |hs| - 1
    ensures PrintedHunks(hs) == PrintedHunks(hs[..n]) + [PrintedHunk(hs[n])]
  {
  }

  lemma {:induction false} PrintedHunksAre(hs: seq<Hunk>)
    requires GoodHunks(hs)
    ensures HunksOf(PrintedHunkParts(hs)) == PrintedHunks(hs)
  {
    if hs != [] {
      var n := |hs| - 1;
      assert GoodHunks(hs[..n]) && ClosedHunk(hs[n]);
      PrintedHunksAre(hs[..n]);
      PrintedHunkIs(hs[n]);
      HunksNext(PrintedHunkParts(hs[..n]), PrintedHunkPart(hs[n]), PrintedHunkParts(hs));
      PrintedHunksNext(hs, n);
    }
  }

  lemma PrintedNames(p: Patch, first: bool)
    requires GoodPatch(p, first)
    ensures NamedPart(PrintedPart(p), first)
    ensures NameOf(PrintedPart(p).olds[0]) == p.source.value && NameOf(PrintedPart(p).target) == p.target
  {
    FileNameIs(OLD_NAME, p.source.value);
    FileNameIs(NEW_NAME, p.target);
    PrintedTwice(p.header);
  }

  lemma PrintedPartIs(p: Patch, first: bool)
    requires GoodPatch(p, first)
    ensures GoodPart(PrintedPart(p), first) && SamePatch(PatchOf(PrintedPart(p)), PrintedPatch(p))
  {
    PrintedNames(p, first);
    assert ClosedParts(PrintedPart(p).hunks) && PrintedPart(p).hunks != [] by {
      PrintedHunksClosed(p.hunks);
    }
    assert HunksOf(PrintedPart(p).hunks) == PrintedHunks(p.hunks) by {
      PrintedHunksAre(p.hunks);
    }
  }

  lemma PrintedPartsGood(items: seq<Patch>)
    requires GoodPatches(items) && HaveSources(items)
    ensures GoodParts(PrintedParts(items))
  {
    forall i | 0 <= i < |items|
      ensures GoodPart(PrintedParts(items)[i], i == 0)
    {
      assert GoodPatch(items[i], i == 0);
      PrintedPartIs(items[i], i == 0);
    }
  }

  lemma {:induction false} PatchesOfAt(ps: seq<PatchPart>, i: nat)
    requires WithNames(ps) && i < |ps|
    ensures PatchesOf(ps)[i] == PatchOf(ps[i])
  {
    if i < |ps| - 1 {
      PatchesOfAt(ps[..|ps| - 1], i);
    }
  }

  lemma PrintedPartsAre(items: seq<Patch>)
    requires GoodPatches(items) && HaveSources(items) && GoodParts(PrintedParts(items))
    ensures SamePatches(PatchesOf(PrintedParts(items)), PrintedPatches(items))
  {
    var parts := PrintedParts(items);
    GoodAreNamed(parts);
    forall i | 0 <= i < |items|
      ensures SamePatch(PatchesOf(parts)[i], PrintedPatches(items)[i])
    {
      assert GoodPatch(items[i], i == 0);
      PrintedPartIs(items[i], i == 0);
      PatchesOfAt(parts, i);
    }
  }

  // ---------- printing changes line ends and descriptions only ----------

  lemma {:induction false} PrintedIs(l: Line)
    requires IsLine(l)
    ensures IsLine(Printed(l)) && EndsLf(Printed(l))
    ensures EndsLf(l) ==> Printed(l) == l
    ensures l[0] != LF ==> Printed(l)[0] == l[0]
  {
    if EndsLf(l) {
      assert l == l[..|l| - 1] + [LF];
      assert StripLf(l[..|l| - 1]) == l[..|l| - 1];
    }
  }

  lemma {:induction false} PrintedSides(text: seq<Line>)
    requires HunkLines(text)
    ensures HunkLines(PrintedAll(text))
    ensures |SourceLines(PrintedAll(text))| == |SourceLines(text)|
    ensures |TargetLines(PrintedAll(text))| == |TargetLines(text)|
  {
    forall i | 0 <= i < |text|
      ensures IsLine(PrintedAll(text)[i]) && PrintedAll(text)[i][0] == text[i][0]
    {
      PrintedIs(text[i]);
    }
    if text != [] {
      PrintedSides(text[1..]);
      assert PrintedAll(text)[1..] == PrintedAll(text[1..]);
    }
  }

  lemma PrintedTwice(text: seq<Line>)
    requires forall i :: 0 <= i < |text| ==> IsLine(text[i])
    ensures PrintedAll(PrintedAll(text)) == PrintedAll(text)
    ensures EndedLines(text) ==> PrintedAll(text) == text
  {
    forall i | 0 <= i < |text|
      ensures Printed(Printed(text[i])) == Printed(text[i])
      ensures EndsLf(text[i]) ==> Printed(text[i]) == text[i]
    {
      PrintedIs(text[i]);
      PrintedIs(Printed(text[i]));
    }
  }

  lemma PrintedHunkIsClosed(h: Hunk)
    requires ClosedHunk(h)
    ensures ClosedHunk(PrintedHunk(h))
  {
    var t := PrintedHunk(h);
    PrintedSides(h.text);
    forall k | 0 < k < |t.text|
      ensures Short(t, k)
    {
      assert Short(h, k);
      PrintedSides(h.text[..k]);
      assert t.text[..k] == PrintedAll(h.text[..k]);
    }
  }

  // ---------- the dump is a file of lines ----------

  lemma PrintedAllIsLines(text: seq<Line>)
    requires forall i :: 0 <= i < |text| ==> IsLine(text[i])
    ensures IsLfFile(PrintedAll(text))
  {
    forall i | 0 <= i < |text|
      ensures IsLine(PrintedAll(text)[i]) && EndsLf(PrintedAll(text)[i])
    {
      PrintedIs(text[i]);
    }
  }

  lemma PrefixedIsLine(a: Bytes, b: Bytes)
    requires LF !in a && LF !in b
    ensures IsLine(a + b + [LF]) && EndsLf(a + b + [LF])
  {
  }

  lemma PrintHeadIsLine(src: Range, tgt: Range)
    ensures IsLine(PrintHead(src, tgt) + [LF]) && EndsLf(PrintHead(src, tgt) + [LF])
  {
    assert LF !in OPEN && LF !in MIDDLE && LF !in CLOSE;
    assert LF !in PrintRange(src) && LF !in PrintRange(tgt) by {
      assert !IsDigit(LF);
    }
    assert LF !in PrintHead(src, tgt);
    PrefixedIsLine(PrintHead(src, tgt), []);
    assert PrintHead(src, tgt) + [] == PrintHead(src, tgt);
  }

  lemma {:induction false} DumpHunksIsLines(hs: seq<Hunk>)
    requires GoodHunks(hs)
    ensures IsLfFile(DumpHunks(hs))
  {
    if hs != [] {
      var h := hs[|hs| - 1];
      DumpHunksIsLines(hs[..|hs| - 1]);
      PrintedAllIsLines(h.text);
      PrintHeadIsLine(Range(h.startsrc, h.linessrc), Range(h.starttgt, h.linestgt));
    }
  }

  lemma {:induction false} DumpIsLines(items: seq<Patch>)
    requires GoodPatches(items)
    ensures HaveSources(items) && IsLfFile(DumpPatches(items))
  {
    if items != [] {
      var p := items[|items| - 1];
      DumpIsLines(items[..|items| - 1]);
      PrintedAllIsLines(p.header);
      DumpHunksIsLines(p.hunks);
      assert LF !in OLD_NAME && LF !in NEW_NAME;
      PrefixedIsLine(OLD_NAME, p.source.value);
      PrefixedIsLine(NEW_NAME, p.target);
    }
  }

  // ---------- the round trip ----------

  /** Parsing what was printed from any well-formed patches gives them back: same headers,
      names, hunk starts, counts and texts. Descriptions are not printed, and a last text
      line without LF gets one. */
  lemma ParseUndoesDump(items: seq<Patch>)
    requires items != [] && GoodPatches(items)
    ensures HaveSources(items)
    ensures var again := ParseLines(SplitLines(Join(DumpPatches(items))));
      again.success && again.errors == 0 && SamePatches(again.items, PrintedPatches(items))
  {
    DumpIsLines(items);
    SplitJoin(DumpPatches(items));
    PrintedPartsGood(items);
    PrintedPartsAre(items);
    PartsAreDumped(items);
    ParseIs(PatchFile(PrintedParts(items), []));
    assert FileLines(PatchFile(PrintedParts(items), [])) == DumpPatches(items);
  }

  /** For every patch file: if it parses without errors, so does its dump, to the same patches. */
  lemma DumpParsesBack(lines: seq<Line>)
    requires IsFile(lines)
    ensures ParseLines(lines).success ==>
      var items := ParseLines(lines).items;
      && HaveSources(items)
      && var again := ParseLines(SplitLines(Join(DumpPatches(items))));
      again.success && again.errors == 0 && SamePatches(again.items, PrintedPatches(items))
  {
    if ParseLines(lines).success {
      SuccessIsWellFormed(lines);
      ParseUndoesDump(ParseLines(lines).items);
    }
  }
}
