/** How single lines of a patch file are read, and which heads are read alike. */
module PatchLines {
  import opened Options
  import opened Lines
  import opened Hunks
  import opened HunkHead
  import opened ParserSteps
  import opened ParserModes
  import opened PatchGrammar

  // ---------- heads that are read alike ----------

  predicate SameHead(a: HunkPart, b: HunkPart) {
    ReadHead(a.head) == ReadHead(b.head) && a.body == b.body
  }

  predicate SameHeads(a: seq<HunkPart>, b: seq<HunkPart>) {
    |a| == |b| && forall i :: 0 <= i < |a| ==> SameHead(a[i], b[i])
  }

  predicate SamePart(p: PatchPart, q: PatchPart) {
    p.(hunks := []) == q.(hunks := []) && SameHeads(p.hunks, q.hunks)
  }

  predicate SameParts(a: seq<PatchPart>, b: seq<PatchPart>) {
    |a| == |b| && forall i :: 0 <= i < |a| ==> SamePart(a[i], b[i])
  }

  lemma SameHunk(a: HunkPart, b: HunkPart)
    requires SameHead(a, b)
    ensures HunkOf(a) == HunkOf(b) && (ClosedPart(a) ==> ClosedPart(b))
  {
    if ClosedPart(a) {
      forall k | 0 < k < |b.body|
        ensures Short(HunkOf(b), k)
      {
        assert Short(HunkOf(a), k);
      }
    }
  }

  lemma HunksLast(hs: seq<HunkPart>, n: nat)
    requires n == |hs| - 1
    ensures HunksOf(hs) == HunksOf(hs[..n]) + [HunkOf(hs[n])]
    ensures EndsOf(hs) == AddAll(EndsOf(hs[..n]), HunkOf(hs[n]).text)
    ensures HunkWarnings(hs) == HunkWarnings(hs[..n]) + Blanks(hs[n].body) + Flag(MixedEnds(EndsOf(hs)))
  {
  }

  lemma {:induction false} SameHunks(a: seq<HunkPart>, b: seq<HunkPart>)
    requires SameHeads(a, b)
    ensures HunksOf(a) == HunksOf(b) && EndsOf(a) == EndsOf(b) && HunkWarnings(a) == HunkWarnings(b)
  {
    if a != [] {
      var n := |a| - 1;
      assert SameHeads(a[..n], b[..n]);
      SameHunks(a[..n], b[..n]);
      assert SameHead(a[n], b[n]);
      SameHunk(a[n], b[n]);
      HunksLast(a, n);
      HunksLast(b, n);
    }
  }

  lemma SameGood(p: PatchPart, q: PatchPart, first: bool)
    requires SamePart(p, q) && GoodPart(p, first)
    ensures GoodPart(q, first)
  {
    forall i | 0 <= i < |q.hunks|
      ensures ClosedPart(q.hunks[i])
    {
      assert ClosedPart(p.hunks[i]) && SameHead(p.hunks[i], q.hunks[i]);
      SameHunk(p.hunks[i], q.hunks[i]);
    }
    SameNames(p, q);
  }

  lemma SameNames(p: PatchPart, q: PatchPart)
    requires SamePart(p, q)
    ensures p.header == q.header && p.olds == q.olds && p.target == q.target
  {
    assert p.(hunks := []).header == q.header && p.(hunks := []).olds == q.olds && p.(hunks := []).target == q.target;
  }

  lemma SameWith(p: PatchPart, q: PatchPart, hs: seq<Hunk>, ends: Tally)
    requires p.olds != [] && p.header == q.header && p.olds == q.olds && p.target == q.target
    ensures PatchWith(p, hs, ends) == PatchWith(q, hs, ends)
  {
  }

  lemma SameOne(p: PatchPart, q: PatchPart)
    requires SamePart(p, q) && p.olds != []
    ensures q.olds != [] && PatchOf(p) == PatchOf(q) && HunkWarnings(p.hunks) == HunkWarnings(q.hunks)
  {
    SameNames(p, q);
    SameHunks(p.hunks, q.hunks);
    SameWith(p, q, HunksOf(p.hunks), EndsOf(p.hunks));
  }

  predicate WithNames(a: seq<PatchPart>) {
    forall i :: 0 <= i < |a| ==> a[i].olds != []
  }

  lemma {:induction false} SamePartsRead(a: seq<PatchPart>, b: seq<PatchPart>)
    requires SameParts(a, b) && WithNames(a) && WithNames(b)
    ensures PatchesOf(a) == PatchesOf(b) && PartWarnings(a) == PartWarnings(b)
  {
    if a != [] {
      var n := |a| - 1;
      assert SameParts(a[..n], b[..n]) && SamePart(a[n], b[n]);
      SamePartsRead(a[..n], b[..n]);
      SameOne(a[n], b[n]);
    }
  }

  /** The same head without some of its counts. */
  predicate LeavesOut(line: Line, whole: Line, s: nat, m: Option<nat>, t: nat, n: Option<nat>, rest: Bytes) {
    && line == OPEN + RangeWith(s, m) + MIDDLE + RangeWith(t, n) + CLOSE + rest
    && whole == PrintHead(Range(s, CountOf(m)), Range(t, CountOf(n))) + rest
  }

  ghost predicate CountsOut(a: HunkPart, b: HunkPart) {
    a.body == b.body && exists s, m, t, n, rest :: LeavesOut(a.head, b.head, s, m, t, n, rest)
  }

  ghost predicate CountsOutOf(p: PatchPart, q: PatchPart) {
    && p.(hunks := []) == q.(hunks := []) && |p.hunks| == |q.hunks|
    && forall i :: 0 <= i < |p.hunks| ==> CountsOut(p.hunks[i], q.hunks[i])
  }

  /** A file with counts left out of its heads is parsed as the file with all counts written out. */
  lemma CountsMayBeLeftOut(f: PatchFile, whole: PatchFile)
    requires GoodFile(f) && f.rest == whole.rest && |f.parts| == |whole.parts|
    requires forall i :: 0 <= i < |f.parts| ==> CountsOutOf(f.parts[i], whole.parts[i])
    ensures GoodFile(whole) && ParseLines(FileLines(f)) == ParseLines(FileLines(whole)) == Parsed(whole)
  {
    assert SameParts(f.parts, whole.parts) by {
      forall i | 0 <= i < |f.parts|
        ensures SamePart(f.parts[i], whole.parts[i])
      {
        LeftOutIsSame(f.parts[i], whole.parts[i]);
      }
    }
    SameFile(f, whole);
    ParseIs(f);
    ParseIs(whole);
  }

  lemma SameFile(f: PatchFile, g: PatchFile)
    requires GoodFile(f) && SameParts(f.parts, g.parts) && f.rest == g.rest
    ensures GoodFile(g) && Parsed(f) == Parsed(g)
  {
    SameGoods(f.parts, g.parts);
    GoodAreNamed(f.parts);
    GoodAreNamed(g.parts);
    SamePartsRead(f.parts, g.parts);
  }

  lemma SameGoods(a: seq<PatchPart>, b: seq<PatchPart>)
    requires SameParts(a, b) && GoodParts(a)
    ensures GoodParts(b)
  {
    forall i | 0 <= i < |b|
      ensures GoodPart(b[i], i == 0)
    {
      assert SamePart(a[i], b[i]) && GoodPart(a[i], i == 0);
      SameGood(a[i], b[i], i == 0);
    }
  }

  lemma GoodAreNamed(a: seq<PatchPart>)
    requires GoodParts(a)
    ensures WithNames(a)
  {
    forall i | 0 <= i < |a|
      ensures a[i].olds != []
    {
      assert GoodPart(a[i], i == 0);
    }
  }

  lemma LeftOutIsSame(p: PatchPart, q: PatchPart)
    requires CountsOutOf(p, q)
    ensures SamePart(p, q)
  {
    forall i | 0 <= i < |p.hunks|
      ensures SameHead(p.hunks[i], q.hunks[i])
    {
      var a, b := p.hunks[i], q.hunks[i];
      assert CountsOut(a, b);
      var s, m, t, n, rest :| LeavesOut(a.head, b.head, s, m, t, n, rest);
      MissingCountIsOne(s, m, t, n, rest);
    }
  }

  // ---------- how single lines are read ----------

  predicate AllSpace(s: Bytes) {
    forall i :: 0 <= i < |s| ==> IsSpace(s[i])
  }

  /** No blank at either end. */
  predicate Trimmed(s: Bytes) {
    s == [] || (!IsSpace(s[0]) && !IsSpace(s[|s| - 1]))
  }

  lemma {:induction false} StripLeftOf(pad: Bytes, s: Bytes)
    requires AllSpace(pad) && (s == [] || !IsSpace(s[0]))
    ensures StripLeft(pad + s) == s
  {
    if pad == [] {
      assert pad + s == s;
    } else {
      assert (pad + s)[1..] == pad[1..] + s;
      StripLeftOf(pad[1..], s);
    }
  }

  lemma {:induction false} StripRightOf(s: Bytes, pad: Bytes)
    requires AllSpace(pad) && (s == [] || !IsSpace(s[|s| - 1]))
    ensures StripRight(s + pad) == s
  {
    if pad == [] {
      assert s + pad == s;
    } else {
      assert (s + pad)[..|s + pad| - 1] == s + pad[..|pad| - 1];
      StripRightOf(s, pad[..|pad| - 1]);
    }
  }

  lemma StripOf(left: Bytes, s: Bytes, right: Bytes)
    requires AllSpace(left) && AllSpace(right) && Trimmed(s)
    ensures Strip(left + s + right) == s
  {
    if s == [] {
      assert left + s + right == (left + right) + [];
      StripLeftOf(left + right, []);
    } else {
      assert left + s + right == left + (s + right);
      StripLeftOf(left, s + right);
      StripRightOf(s, right);
    }
  }

  lemma {:induction false} UpToTabOf(s: Bytes, tail: Bytes)
    requires TAB !in s && (tail == [] || tail[0] == TAB)
    ensures UpToTab(s + tail) == s
  {
    if s == [] {
      assert s + tail == tail;
    } else {
      assert (s + tail)[1..] == s[1..] + tail;
      UpToTabOf(s[1..], tail);
    }
  }

  /** The name is what stands between the marker and a tab, or the line end, without the blanks around
      it; what follows the tab, such as a date, is left aside. */
  lemma NameIsRead(marker: Bytes, left: Bytes, name: Bytes, right: Bytes, tail: Bytes)
    requires |marker| == 4 && AllSpace(left) && AllSpace(right) && Trimmed(name) && left + name + right != []
    requires TAB !in left && TAB !in name && TAB !in right && (tail == [] || tail[0] == TAB)
    ensures FileName(marker + left + name + right + tail) == Some(name)
  {
    var line, text := marker + left + name + right + tail, left + name + right;
    assert line[4..] == text + tail;
    UpToTabOf(text, tail);
    StripOf(left, name, right);
  }

  /** Only a tab, or the end, right behind the marker leaves no name. */
  lemma NamedIff(line: Line)
    requires |line| >= 4
    ensures FileName(line).Some? <==> |line| > 4 && line[4] != 9
  {
  }

  lemma {:induction false} UpToLfOf(s: Bytes, tail: Bytes)
    requires LF !in s && (tail == [] || tail[0] == LF)
    ensures UpToLf(s + tail) == s
  {
    if s == [] {
      assert s + tail == tail;
    } else {
      assert (s + tail)[1..] == s[1..] + tail;
      UpToLfOf(s[1..], tail);
    }
  }

  /** The description of a hunk is the text behind its head, without the byte that separates them and
      without blanks at its end. */
  lemma DescriptionIsRead(sep: Byte, text: Bytes, pad: Bytes, tail: Bytes)
    requires LF !in [sep] + (text + pad) && AllSpace(pad) && (text == [] || !IsSpace(text[|text| - 1]))
    requires tail == [] || tail[0] == LF
    ensures Description(UpToLf([sep] + (text + pad) + tail)) == text
  {
    var rest := [sep] + (text + pad);
    UpToLfOf(rest, tail);
    assert rest[1..] == text + pad;
    StripRightOf(text, pad);
  }

  /** An empty line in a hunk, whatever its line end, is a context line of no text; any other line
      stands as it is. */
  lemma EmptyIsContext(line: Line)
    ensures (forall i :: 0 <= i < |line| ==> line[i] == 10 || line[i] == 13) ==> Expand(line) == [32] + line
    ensures (exists i :: 0 <= i < |line| && line[i] != 10 && line[i] != 13) ==> Expand(line) == line
  {
  }

  // ---------- when line ends are mixed ----------

  /** All hunk lines up to here. */
  function TextOf(hs: seq<HunkPart>): seq<Line> {
    if hs == [] then [] else TextOf(hs[..|hs| - 1]) + Expanded(hs[|hs| - 1].body)
  }

  lemma TallyNext(ls: seq<Line>, l: Line, all: seq<Line>)
    requires all == ls + [l]
    ensures TallyOf(all) == TallyOf(ls).Add(l)
  {
    assert all[..|all| - 1] == ls;
  }

  lemma {:induction false} AddAllIs(a: seq<Line>, text: seq<Line>)
    ensures AddAll(TallyOf(a), text) == TallyOf(a + text)
  {
    if text == [] {
      assert a + text == a;
    } else {
      var n := |text| - 1;
      var before, l := text[..n], text[n];
      AddAllIs(a, before);
      assert a + text == (a + before) + [l];
      TallyNext(a + before, l, a + text);
    }
  }

  lemma {:induction false} EndsOfIs(hs: seq<HunkPart>)
    ensures EndsOf(hs) == TallyOf(TextOf(hs))
  {
    if hs != [] {
      var n := |hs| - 1;
      EndsOfIs(hs[..n]);
      AddAllIs(TextOf(hs[..n]), Expanded(hs[n].body));
    }
  }

  /** Line ends are mixed when two hunk lines of the patch so far end differently. */
  lemma MixedIff(hs: seq<HunkPart>)
    ensures MixedEnds(EndsOf(hs)) <==>
      exists e, f :: e != f && e != NoEnd && f != NoEnd && Ends(TextOf(hs), e) && Ends(TextOf(hs), f)
  {
    EndsOfIs(hs);
    TallyIs(TextOf(hs), CrLf);
    TallyIs(TextOf(hs), Lf);
    TallyIs(TextOf(hs), Cr);
  }

  // ---------- behind an invalid hunk ----------

  /** An invalid hunk is being skipped. */
  predicate Skipping(s: State) {
    && s.hunkskip && s.p.Some? && s.srcname.None? && s.tgtname.None?
    && !s.headscan && !s.filenames && !s.hunkhead && !s.hunkbody && !s.hunkparsed && !s.scanning
  }

  /** A line that can be no part of the hunk: the hunk is kept, marked as invalid, with one error more. If
      the line is no head it is skipped, and so are the lines behind it. */
  lemma BadLineIsSkipped(s: State, line: Line)
    requires s.hunkbody && s.p.Some? && s.srcname.None? && s.tgtname.None? && !s.hunkskip
    requires !s.headscan && !s.filenames && !s.hunkhead && !s.hunkparsed && !s.scanning
    requires s.actualsrc <= s.hunk.linessrc && s.actualtgt <= s.hunk.linestgt
    requires s.actualsrc < s.hunk.linessrc || s.actualtgt < s.hunk.linestgt
    requires !IsHunkLine(Expand(line)) && !IsHead(line)
    ensures var n := Step(s, line);
      && Skipping(n) && n.errors == s.errors + 1 && n.items == s.items
      && n.p == Some(AddHunk(s.p.value, s.hunk.(invalid := true)))
  {
    assert !IsBlank(line);
  }

  /** Lines are skipped without a trace until a hunk head or a source name comes. */
  lemma SkippedWithoutTrace(s: State, line: Line)
    requires Skipping(s) && !IsHead(line) && !IsOldName(line)
    ensures Step(s, line) == s
  {
  }

  /** A head opens the next hunk of the same patch; no further error is counted. */
  lemma HeadEndsSkipping(s: State, line: Line)
    requires Skipping(s) && IsHead(line)
    ensures var n := Step(s, line);
      && n.hunkbody && !n.hunkskip && !n.hunkhead && n.p == s.p && n.items == s.items && n.errors == s.errors
      && n.hunk == HunkOf(HunkPart(line, [])) && n.actualsrc == n.actualtgt == 0
  {
    HeadStartsWithAt(line);
  }

  /** A source name ends the patch. */
  lemma NameEndsSkipping(s: State, line: Line)
    requires Skipping(s) && IsOldName(line) && IsNamed(line)
    ensures var n := Step(s, line);
      && n.filenames && !n.hunkskip && n.srcname == Some(NameOf(line))
      && n.p == s.p && n.items == s.items && n.errors == s.errors
  {
    OldIsNoHead(line);
  }
}
