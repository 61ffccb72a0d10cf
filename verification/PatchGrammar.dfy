/** Which files `parse` accepts, as a grammar, and what it makes of them. */
module PatchGrammar {
  import opened Options
  import opened Lines
  import opened Hunks
  import opened HunkHead
  import opened ParserSteps
  import opened ParserModes

  // ---------- the parts of a patch file, line for line ----------

  datatype HunkPart = HunkPart(head: Line, body: seq<Line>)

  /** Several source names in a row are allowed; the last one counts. */
  datatype PatchPart = PatchPart(header: seq<Line>, olds: seq<Line>, target: Line, hunks: seq<HunkPart>)

  /** Patches, and lines that belong to none of them. */
  datatype PatchFile = PatchFile(parts: seq<PatchPart>, rest: seq<Line>)

  function HunkPartLines(h: HunkPart): seq<Line> {
    [h.head] + h.body
  }

  function HunksLines(hs: seq<HunkPart>): seq<Line> {
    if hs == [] then [] else HunksLines(hs[..|hs| - 1]) + HunkPartLines(hs[|hs| - 1])
  }

  function PartLines(p: PatchPart): seq<Line> {
    p.header + p.olds + [p.target] + HunksLines(p.hunks)
  }

  function PartsLines(ps: seq<PatchPart>): seq<Line> {
    if ps == [] then [] else PartsLines(ps[..|ps| - 1]) + PartLines(ps[|ps| - 1])
  }

  function FileLines(f: PatchFile): seq<Line> {
    PartsLines(f.parts) + f.rest
  }

  // ---------- what they stand for ----------

  function HeadOf(line: Line): Head {
    match ReadHead(line)
    case Some(h) => h
    case None => Head(Range(0, 0), Range(0, 0), [])
  }

  function Expanded(body: seq<Line>): (r: seq<Line>)
    ensures |r| == |body|
  {
    seq(|body|, i requires 0 <= i < |body| => Expand(body[i]))
  }

  function HunkOf(h: HunkPart): Hunk {
    var head := HeadOf(h.head);
    Hunk(head.src.start, head.src.count, head.tgt.start, head.tgt.count, false, Description(head.rest),
      Expanded(h.body))
  }

  function HunksOf(hs: seq<HunkPart>): (r: seq<Hunk>)
    ensures |r| == |hs|
  {
    if hs == [] then [] else HunksOf(hs[..|hs| - 1]) + [HunkOf(hs[|hs| - 1])]
  }

  function AddAll(t: Tally, text: seq<Line>): Tally {
    if text == [] then t else AddAll(t, text[..|text| - 1]).Add(text[|text| - 1])
  }

  /** Line ends of all hunk lines. */
  function EndsOf(hs: seq<HunkPart>): Tally {
    if hs == [] then NO_LINES else AddAll(EndsOf(hs[..|hs| - 1]), Expanded(hs[|hs| - 1].body))
  }

  function NameOf(line: Line): Bytes {
    if |line| >= 4 && FileName(line).Some? then FileName(line).value else []
  }

  function PatchWith(p: PatchPart, hunks: seq<Hunk>, ends: Tally): Patch
    requires p.olds != []
  {
    Patch(Some(NameOf(p.olds[|p.olds| - 1])), NameOf(p.target), p.header, hunks, ends)
  }

  function PatchOf(p: PatchPart): Patch
    requires p.olds != []
  {
    PatchWith(p, HunksOf(p.hunks), EndsOf(p.hunks))
  }

  function PatchesOf(ps: seq<PatchPart>): (r: seq<Patch>)
    requires forall i :: 0 <= i < |ps| ==> ps[i].olds != []
    ensures |r| == |ps|
  {
    if ps == [] then [] else PatchesOf(ps[..|ps| - 1]) + [PatchOf(ps[|ps| - 1])]
  }

  /** Empty hunk lines. */
  function Blanks(body: seq<Line>): nat {
    if body == [] then 0 else Blanks(body[..|body| - 1]) + Flag(IsBlank(body[|body| - 1]))
  }

  /** One warning for each empty line, and one for each hunk after which the line ends are mixed. */
  function HunkWarnings(hs: seq<HunkPart>): nat {
    if hs == [] then 0
    else HunkWarnings(hs[..|hs| - 1]) + Blanks(hs[|hs| - 1].body) + Flag(MixedEnds(EndsOf(hs)))
  }

  function PartWarnings(ps: seq<PatchPart>): nat {
    if ps == [] then 0 else PartWarnings(ps[..|ps| - 1]) + HunkWarnings(ps[|ps| - 1].hunks)
  }

  // ---------- the grammar ----------

  /** A line with a name on it: something stands before the first tab. */
  predicate IsNamed(line: Line) {
    |line| >= 4 && FileName(line).Some?
  }

  predicate SourceNames(olds: seq<Line>) {
    olds != [] && forall i :: 0 <= i < |olds| ==> IsOldName(olds[i]) && IsNamed(olds[i])
  }

  /** Header lines; after a patch the first of them is no hunk head. */
  predicate HeaderPart(header: seq<Line>, first: bool) {
    && (forall i :: 0 <= i < |header| ==> !IsOldName(header[i]))
    && (first || header == [] || !IsHead(header[0]))
  }

  predicate OpenPart(h: HunkPart) {
    IsHead(h.head) && KnownText(Expanded(h.body)) && forall k :: 0 < k <= |h.body| ==> Short(HunkOf(h), k)
  }

  /** The counts of the head are reached by the last line and by none before it. */
  predicate ClosedPart(h: HunkPart) {
    && IsHead(h.head) && h.body != [] && Counted(HunkOf(h))
    && forall k :: 0 < k < |h.body| ==> Short(HunkOf(h), k)
  }

  predicate NamedPart(p: PatchPart, first: bool) {
    HeaderPart(p.header, first) && SourceNames(p.olds) && IsNewName(p.target) && IsNamed(p.target)
  }

  predicate ClosedParts(hs: seq<HunkPart>) {
    forall i :: 0 <= i < |hs| ==> ClosedPart(hs[i])
  }

  predicate GoodPart(p: PatchPart, first: bool) {
    NamedPart(p, first) && p.hunks != [] && ClosedParts(p.hunks)
  }

  predicate GoodParts(ps: seq<PatchPart>) {
    forall i :: 0 <= i < |ps| ==> GoodPart(ps[i], i == 0)
  }

  predicate GoodFile(f: PatchFile) {
    f.parts != [] && GoodParts(f.parts) && HeaderPart(f.rest, false)
  }

  // ---------- how far the grammar has got ----------

  datatype Progress =
    | InHeader(done: seq<PatchPart>, header: seq<Line>)
    | InNames(done: seq<PatchPart>, header: seq<Line>, olds: seq<Line>)
    | InPatch(done: seq<PatchPart>, part: PatchPart)
    | InHunk(done: seq<PatchPart>, part: PatchPart, hunk: HunkPart)

  function ProgressLines(g: Progress): seq<Line> {
    match g
    case InHeader(done, header) => PartsLines(done) + header
    case InNames(done, header, olds) => PartsLines(done) + header + olds
    case InPatch(done, part) => PartsLines(done) + PartLines(part)
    case InHunk(done, part, hunk) => PartsLines(done) + PartLines(part) + HunkPartLines(hunk)
  }

  predicate Good(g: Progress) {
    && GoodParts(g.done)
    && match g
       case InHeader(done, header) => HeaderPart(header, done == []) && (done != [] ==> header != [])
       case InNames(done, header, olds) => HeaderPart(header, done == []) && SourceNames(olds)
       case InPatch(done, part) => NamedPart(part, done == []) && ClosedParts(part.hunks)
       case InHunk(done, part, hunk) => NamedPart(part, done == []) && ClosedParts(part.hunks) && OpenPart(hunk)
  }

  /** The hunk with one more line: too long, complete, or still open. */
  function ExtendHunk(done: seq<PatchPart>, part: PatchPart, hunk: HunkPart): Option<Progress> {
    var h := HunkOf(hunk);
    if !KnownText(h.text) || |SourceLines(h.text)| > h.linessrc || |TargetLines(h.text)| > h.linestgt then None
    else if Counted(h) then Some(InPatch(done, part.(hunks := part.hunks + [hunk])))
    else Some(InHunk(done, part, hunk))
  }

  /** One more line; nothing if no file of the grammar goes on with it. */
  function Extend(g: Progress, line: Line): Option<Progress> {
    match g
    case InHeader(done, header) =>
      if !IsOldName(line) then Some(InHeader(done, header + [line]))
      else if IsNamed(line) then Some(InNames(done, header, [line]))
      else None
    case InNames(done, header, olds) =>
      if !IsNamed(line) then None
      else if IsOldName(line) then Some(InNames(done, header, olds + [line]))
      else if IsNewName(line) then Some(InPatch(done, PatchPart(header, olds, line, [])))
      else None
    case InPatch(done, part) =>
      if IsHead(line) then Some(InHunk(done, part, HunkPart(line, [])))
      else if part.hunks == [] then None
      else if !IsOldName(line) then Some(InHeader(done + [part], [line]))
      else if IsNamed(line) then Some(InNames(done + [part], [], [line]))
      else None
    case InHunk(done, part, hunk) => ExtendHunk(done, part, hunk.(body := hunk.body + [line]))
  }

  // ---------- the machine follows ----------

  function Warned(g: Progress): nat {
    PartWarnings(g.done) +
    match g
    case InHeader(_, _) => 0
    case InNames(_, _, _) => 0
    case InPatch(_, part) => HunkWarnings(part.hunks)
    case InHunk(_, part, hunk) => HunkWarnings(part.hunks) + Blanks(hunk.body)
  }

  predicate Quiet(s: State) {
    s.errors == 0 && s.tgtname.None? && !s.dead && !s.hunkskip && Safe(s)
  }

  predicate ReadsHeader(done: seq<PatchPart>, header: seq<Line>, s: State)
    requires GoodParts(done)
  {
    && Quiet(s) && s.headscan && !s.filenames && !s.hunkhead && !s.hunkbody && !s.hunkparsed
    && s.scanning == (header != []) && s.header == header && s.srcname.None?
    && AllPatches(s) == PatchesOf(done) && (s.p.Some? <==> done != [])
  }

  predicate ReadsNames(done: seq<PatchPart>, header: seq<Line>, olds: seq<Line>, s: State)
    requires GoodParts(done) && olds != []
  {
    && Quiet(s) && !s.headscan && s.filenames && !s.hunkhead && !s.hunkbody && !s.hunkparsed && !s.scanning
    && s.header == header && s.srcname == Some(NameOf(olds[|olds| - 1]))
    && AllPatches(s) == PatchesOf(done) && (s.p.Some? <==> done != [])
  }

  predicate ReadsPatch(done: seq<PatchPart>, part: PatchPart, s: State)
    requires GoodParts(done) && part.olds != []
  {
    && Quiet(s) && !s.headscan && !s.filenames && !s.hunkbody && !s.scanning
    && s.hunkhead == (part.hunks == []) && s.hunkparsed == (part.hunks != [])
    && s.header == [] && s.srcname.None? && s.items == PatchesOf(done) && s.p == Some(PatchOf(part))
  }

  /** The current patch while a hunk of it is read: its line ends count already. */
  function OpenPatchOf(part: PatchPart, hunk: HunkPart): Patch
    requires part.olds != []
  {
    PatchWith(part, HunksOf(part.hunks), AddAll(EndsOf(part.hunks), Expanded(hunk.body)))
  }

  predicate ReadsHunk(done: seq<PatchPart>, part: PatchPart, hunk: HunkPart, s: State)
    requires GoodParts(done) && part.olds != []
  {
    && Quiet(s) && !s.headscan && !s.filenames && !s.hunkhead && s.hunkbody && !s.hunkparsed && !s.scanning
    && s.header == [] && s.srcname.None? && s.items == PatchesOf(done)
    && s.p == Some(OpenPatchOf(part, hunk)) && s.hunk == HunkOf(hunk)
    && s.actualsrc == |SourceLines(s.hunk.text)| && s.actualtgt == |TargetLines(s.hunk.text)|
  }

  predicate Reads(g: Progress, s: State)
    requires Good(g)
  {
    s.warnings == Warned(g) &&
    match g
    case InHeader(done, header) => ReadsHeader(done, header, s)
    case InNames(done, header, olds) => ReadsNames(done, header, olds, s)
    case InPatch(done, part) => ReadsPatch(done, part, s)
    case InHunk(done, part, hunk) => ReadsHunk(done, part, hunk, s)
  }

  // ---------- one line ----------

  lemma HeaderLineStep(done: seq<PatchPart>, header: seq<Line>, s: State, line: Line)
    requires GoodParts(done) && ReadsHeader(done, header, s) && !IsOldName(line)
    ensures ReadsHeader(done, header + [line], Step(s, line)) && Step(s, line).warnings == s.warnings
  {
  }

  lemma HeaderNameStep(done: seq<PatchPart>, header: seq<Line>, s: State, line: Line)
    requires GoodParts(done) && ReadsHeader(done, header, s) && IsOldName(line)
    ensures var s' := Step(s, line);
      if IsNamed(line) then ReadsNames(done, header, [line], s') && s'.warnings == s.warnings else s'.errors > 0
  {
  }

  lemma NamesOldStep(done: seq<PatchPart>, header: seq<Line>, olds: seq<Line>, s: State, line: Line)
    requires GoodParts(done) && olds != [] && ReadsNames(done, header, olds, s) && IsOldName(line)
    ensures var s' := Step(s, line);
      if IsNamed(line) then ReadsNames(done, header, olds + [line], s') && s'.warnings == s.warnings
      else s'.errors > 0
  {
  }

  lemma NamesTargetStep(done: seq<PatchPart>, header: seq<Line>, olds: seq<Line>, s: State, line: Line)
    requires GoodParts(done) && olds != [] && ReadsNames(done, header, olds, s) && !IsOldName(line)
    ensures var s' := Step(s, line);
      if IsNewName(line) && IsNamed(line) then
        ReadsPatch(done, PatchPart(header, olds, line, []), s') && s'.warnings == s.warnings
      else s'.errors > 0
  {
  }

  lemma PatchHeadStep(done: seq<PatchPart>, part: PatchPart, s: State, line: Line)
    requires GoodParts(done) && part.olds != [] && ReadsPatch(done, part, s) && IsHead(line)
    ensures ReadsHunk(done, part, HunkPart(line, []), Step(s, line)) && Step(s, line).warnings == s.warnings
  {
    HeadStartsWithAt(line);
  }

  lemma PatchNoHeadStep(done: seq<PatchPart>, part: PatchPart, s: State, line: Line)
    requires GoodParts(done) && part.olds != [] && ReadsPatch(done, part, s) && !IsHead(line) && part.hunks == []
    ensures Step(s, line).errors > 0
  {
  }

  /** After its last hunk the patch is one of those that are done. */
  lemma PartDone(done: seq<PatchPart>, part: PatchPart, s: State, all: seq<PatchPart>)
    requires GoodParts(done) && GoodPart(part, done == []) && ReadsPatch(done, part, s) && all == done + [part]
    ensures GoodParts(all) && AllPatches(s) == PatchesOf(all)
  {
    assert all[..|all| - 1] == done;
  }

  /** The decider at the start of the cycle opens a header. */
  lemma DecideHeader(all: seq<PatchPart>, s: State, line: Line)
    requires GoodParts(all) && all != [] && AllPatches(s) == PatchesOf(all) && s.p.Some?
    requires Quiet(s) && s.hunkparsed && !s.headscan && !s.filenames && !s.hunkhead && !s.hunkbody && !s.scanning
    requires s.header == [] && s.srcname.None? && !IsHead(line) && !IsOldName(line)
    ensures var e := Enter(s, line);
      ReadsHeader(all, [], e) && e.warnings == s.warnings && Step(s, line) == Step(e, line)
  {
  }

  lemma DecideName(all: seq<PatchPart>, s: State, line: Line)
    requires GoodParts(all) && all != [] && AllPatches(s) == PatchesOf(all) && s.p.Some?
    requires Quiet(s) && s.hunkparsed && !s.headscan && !s.filenames && !s.hunkhead && !s.hunkbody && !s.scanning
    requires s.header == [] && s.srcname.None? && !IsHead(line) && IsOldName(line)
    ensures var s' := Step(s, line);
      if IsNamed(line) then ReadsNames(all, [], [line], s') && s'.warnings == s.warnings else s'.errors > 0
  {
  }

  lemma ExpandedNext(body: seq<Line>, line: Line)
    ensures Expanded(body + [line]) == Expanded(body) + [Expand(line)]
    ensures Blanks(body + [line]) == Blanks(body) + Flag(IsBlank(line))
  {
    assert (body + [line])[..|body|] == body;
  }

  lemma AddAllNext(t: Tally, text: seq<Line>, l: Line)
    ensures AddAll(t, text + [l]) == AddAll(t, text).Add(l)
  {
    assert (text + [l])[..|text|] == text;
  }

  lemma HunksNext(hs: seq<HunkPart>, h: HunkPart, hs': seq<HunkPart>)
    requires hs' == hs + [h]
    ensures HunksOf(hs') == HunksOf(hs) + [HunkOf(h)] && EndsOf(hs') == AddAll(EndsOf(hs), Expanded(h.body))
    ensures HunkWarnings(hs') == HunkWarnings(hs) + Blanks(h.body) + Flag(MixedEnds(EndsOf(hs')))
  {
    assert hs'[..|hs|] == hs;
  }

  /** A body line is taken, or the hunk is given up. */
  lemma TakeStep(done: seq<PatchPart>, part: PatchPart, hunk: HunkPart, s: State, line: Line, next: HunkPart)
    requires GoodParts(done) && part.olds != [] && ReadsHunk(done, part, hunk, s)
    requires next == hunk.(body := hunk.body + [line])
    ensures var a := TakeLine(WarnBlank(s, line), Expand(line));
      if IsHunkLine(Expand(line)) then
        ReadsHunk(done, part, next, a) && a.warnings == s.warnings + Flag(IsBlank(line))
      else a.errors > 0
  {
    ExpandedNext(hunk.body, line);
    AddAllNext(EndsOf(part.hunks), Expanded(hunk.body), Expand(line));
    SourceAppend(Expanded(hunk.body), Expand(line));
    TargetAppend(Expanded(hunk.body), Expand(line));
  }

  lemma WholeIs(part: PatchPart, whole: PatchPart, hs: seq<Hunk>, h: Hunk, ends: Tally)
    requires part.olds != [] && whole == part.(hunks := whole.hunks)
    ensures PatchWith(whole, hs + [h], ends) == AddHunk(PatchWith(part, hs, ends), h)
  {
  }

  lemma WholePatch(part: PatchPart, hunk: HunkPart, whole: PatchPart)
    requires part.olds != [] && whole == part.(hunks := part.hunks + [hunk])
    ensures PatchOf(whole) == AddHunk(OpenPatchOf(part, hunk), HunkOf(hunk))
    ensures EndsOf(whole.hunks) == OpenPatchOf(part, hunk).hunkends
  {
    HunksNext(part.hunks, hunk, whole.hunks);
    WholeIs(part, whole, HunksOf(part.hunks), HunkOf(hunk), EndsOf(whole.hunks));
  }

  lemma ClosedStep(done: seq<PatchPart>, whole: PatchPart, a: State, q: Patch)
    requires GoodParts(done) && whole.olds != [] && whole.hunks != []
    requires Quiet(a) && !a.headscan && !a.filenames && !a.hunkhead && a.hunkbody && !a.hunkparsed && !a.scanning
    requires a.header == [] && a.srcname.None? && a.items == PatchesOf(done) && a.p == Some(q)
    requires PatchOf(whole) == AddHunk(q, a.hunk)
    requires a.actualsrc == a.hunk.linessrc && a.actualtgt == a.hunk.linestgt
    ensures ReadsPatch(done, whole, CloseHunk(a))
    ensures CloseHunk(a).warnings == a.warnings + Flag(MixedEnds(q.hunkends))
  {
  }

  lemma BodyIs(s: State, line: Line)
    requires Safe(s) && s.hunkbody && !s.headscan && !s.hunkparsed && !s.scanning
    ensures Step(s, line) == Dispatch(s, line)
  {
  }

  /** A line of a hunk that goes on, or ends, or is too long. */
  lemma HunkStep(done: seq<PatchPart>, part: PatchPart, hunk: HunkPart, s: State, line: Line,
                 next: HunkPart, whole: PatchPart)
    requires GoodParts(done) && part.olds != [] && ReadsHunk(done, part, hunk, s)
    requires next == hunk.(body := hunk.body + [line]) && whole == part.(hunks := part.hunks + [next])
    ensures var s', h, w := Step(s, line), HunkOf(next), s.warnings + Flag(IsBlank(line));
      if !IsHunkLine(Expand(line)) || |SourceLines(h.text)| > h.linessrc || |TargetLines(h.text)| > h.linestgt then
        s'.errors > 0
      else if |SourceLines(h.text)| == h.linessrc && |TargetLines(h.text)| == h.linestgt then
        ReadsPatch(done, whole, s') && s'.warnings == w + Flag(MixedEnds(EndsOf(whole.hunks)))
      else ReadsHunk(done, part, next, s') && s'.warnings == w
  {
    var a := TakeLine(WarnBlank(s, line), Expand(line));
    BodyIs(s, line);
    TakeStep(done, part, hunk, s, line, next);
    if IsHunkLine(Expand(line)) {
      TakenStep(done, part, next, a, Expand(line), whole);
    }
  }

  lemma TakenStep(done: seq<PatchPart>, part: PatchPart, next: HunkPart, a: State, l: Line, whole: PatchPart)
    requires GoodParts(done) && part.olds != [] && ReadsHunk(done, part, next, a)
    requires whole == part.(hunks := part.hunks + [next])
    ensures var r, h := CloseHunk(a), HunkOf(next);
      var s' := if r.hunkparsed then r else Route(r, l);
      if |SourceLines(h.text)| > h.linessrc || |TargetLines(h.text)| > h.linestgt then s'.errors > 0
      else if |SourceLines(h.text)| == h.linessrc && |TargetLines(h.text)| == h.linestgt then
        ReadsPatch(done, whole, s') && s'.warnings == a.warnings + Flag(MixedEnds(EndsOf(whole.hunks)))
      else s' == a
  {
    if a.actualsrc == a.hunk.linessrc && a.actualtgt == a.hunk.linestgt {
      WholePatch(part, next, whole);
      ClosedStep(done, whole, a, OpenPatchOf(part, next));
    }
  }

  // ---------- any number of lines ----------

  lemma StartReads()
    ensures Good(InHeader([], [])) && Reads(InHeader([], []), START) && ProgressLines(InHeader([], [])) == []
  {
  }

  predicate Follows(g: Progress, line: Line, s': State)
    requires Good(g)
  {
    match Extend(g, line)
    case None => s'.errors > 0
    case Some(g') => Good(g') && Reads(g', s')
  }

  lemma HeaderFollows(done: seq<PatchPart>, header: seq<Line>, s: State, line: Line)
    requires Good(InHeader(done, header)) && Reads(InHeader(done, header), s)
    ensures Follows(InHeader(done, header), line, Step(s, line))
  {
    if IsOldName(line) {
      HeaderNameStep(done, header, s, line);
    } else {
      HeaderLineStep(done, header, s, line);
      PatchEndGood(done, header, line);
    }
  }

  /** A header that goes on. */
  lemma PatchEndGood(done: seq<PatchPart>, header: seq<Line>, line: Line)
    requires Good(InHeader(done, header)) && !IsOldName(line)
    ensures Good(InHeader(done, header + [line]))
  {
  }

  lemma NamesFollow(done: seq<PatchPart>, header: seq<Line>, olds: seq<Line>, s: State, line: Line)
    requires Good(InNames(done, header, olds)) && Reads(InNames(done, header, olds), s)
    ensures Follows(InNames(done, header, olds), line, Step(s, line))
  {
    if IsOldName(line) {
      NamesOldStep(done, header, olds, s, line);
    } else {
      NamesTargetStep(done, header, olds, s, line);
    }
  }

  lemma PatchFollows(done: seq<PatchPart>, part: PatchPart, s: State, line: Line)
    requires Good(InPatch(done, part)) && Reads(InPatch(done, part), s)
    ensures Follows(InPatch(done, part), line, Step(s, line))
  {
    if IsHead(line) {
      PatchHeadStep(done, part, s, line);
    } else if part.hunks == [] {
      PatchNoHeadStep(done, part, s, line);
    } else {
      EndFollows(done, part, s, line, done + [part]);
    }
  }

  lemma WarnedPart(done: seq<PatchPart>, part: PatchPart, all: seq<PatchPart>)
    requires all == done + [part]
    ensures PartWarnings(all) == PartWarnings(done) + HunkWarnings(part.hunks)
  {
    assert all[..|all| - 1] == done;
  }

  lemma EndHeader(done: seq<PatchPart>, part: PatchPart, all: seq<PatchPart>, s: State, line: Line)
    requires GoodParts(done) && part.olds != [] && part.hunks != [] && ReadsPatch(done, part, s)
    requires GoodParts(all) && all != [] && AllPatches(s) == PatchesOf(all) && !IsHead(line) && !IsOldName(line)
    ensures ReadsHeader(all, [line], Step(s, line)) && Step(s, line).warnings == s.warnings
  {
    DecideHeader(all, s, line);
    HeaderLineStep(all, [], Enter(s, line), line);
    assert [] + [line] == [line];
  }

  lemma IntoHeader(all: seq<PatchPart>, line: Line, s': State)
    requires GoodParts(all) && all != [] && !IsHead(line) && !IsOldName(line)
    requires ReadsHeader(all, [line], s') && s'.warnings == PartWarnings(all)
    ensures Good(InHeader(all, [line])) && Reads(InHeader(all, [line]), s')
  {
  }

  lemma IntoNames(all: seq<PatchPart>, line: Line, s': State)
    requires GoodParts(all) && IsOldName(line) && IsNamed(line)
    requires ReadsNames(all, [], [line], s') && s'.warnings == PartWarnings(all)
    ensures Good(InNames(all, [], [line])) && Reads(InNames(all, [], [line]), s')
  {
  }

  lemma EndName(done: seq<PatchPart>, part: PatchPart, all: seq<PatchPart>, s: State, line: Line)
    requires GoodParts(done) && part.olds != [] && part.hunks != [] && ReadsPatch(done, part, s)
    requires GoodParts(all) && all != [] && AllPatches(s) == PatchesOf(all) && !IsHead(line) && IsOldName(line)
    ensures var s' := Step(s, line);
      if IsNamed(line) then ReadsNames(all, [], [line], s') && s'.warnings == s.warnings else s'.errors > 0
  {
    DecideName(all, s, line);
  }

  lemma AllDone(done: seq<PatchPart>, part: PatchPart, s: State, all: seq<PatchPart>)
    requires Good(InPatch(done, part)) && Reads(InPatch(done, part), s) && part.hunks != [] && all == done + [part]
    ensures GoodParts(all) && AllPatches(s) == PatchesOf(all) && s.warnings == PartWarnings(all)
    ensures ReadsPatch(done, part, s)
  {
    PartDone(done, part, s, all);
    WarnedPart(done, part, all);
  }

  lemma EndFollows(done: seq<PatchPart>, part: PatchPart, s: State, line: Line, all: seq<PatchPart>)
    requires Good(InPatch(done, part)) && Reads(InPatch(done, part), s) && part.hunks != [] && !IsHead(line)
    requires all == done + [part]
    ensures Follows(InPatch(done, part), line, Step(s, line))
  {
    AllDone(done, part, s, all);
    if !IsOldName(line) {
      assert Good(InHeader(all, [line])) && Reads(InHeader(all, [line]), Step(s, line)) by {
        EndHeader(done, part, all, s, line);
        IntoHeader(all, line, Step(s, line));
      }
    } else if IsNamed(line) {
      assert Good(InNames(all, [], [line])) && Reads(InNames(all, [], [line]), Step(s, line)) by {
        EndName(done, part, all, s, line);
        IntoNames(all, line, Step(s, line));
      }
    } else {
      EndName(done, part, all, s, line);
    }
  }

  /** What the grammar makes of a hunk with one line more. */
  lemma ExtendIs(done: seq<PatchPart>, part: PatchPart, hunk: HunkPart, line: Line, next: HunkPart, whole: PatchPart)
    requires Good(InHunk(done, part, hunk)) && next == hunk.(body := hunk.body + [line])
    requires whole == part.(hunks := part.hunks + [next])
    ensures var h, e := HunkOf(next), Extend(InHunk(done, part, hunk), line);
      if !IsHunkLine(Expand(line)) || TooLong(h) then e.None?
      else if Reached(h) then e == Some(InPatch(done, whole)) && Good(e.value)
      else e == Some(InHunk(done, part, next)) && Good(e.value)
  {
    NextHunkGood(hunk, line, next);
    var h := HunkOf(next);
    if IsHunkLine(Expand(line)) && !TooLong(h) {
      if Reached(h) {
        assert ClosedPart(next);
        OneMoreClosed(part.hunks, next, whole.hunks);
      } else {
        assert h.text[..|h.text|] == h.text;
        assert Short(h, |next.body|);
      }
    }
  }

  lemma OneMoreClosed(hs: seq<HunkPart>, h: HunkPart, hs': seq<HunkPart>)
    requires ClosedParts(hs) && ClosedPart(h) && hs' == hs + [h]
    ensures ClosedParts(hs')
  {
  }

  predicate TooLong(h: Hunk) {
    |SourceLines(h.text)| > h.linessrc || |TargetLines(h.text)| > h.linestgt
  }

  predicate Reached(h: Hunk) {
    |SourceLines(h.text)| == h.linessrc && |TargetLines(h.text)| == h.linestgt
  }

  lemma IntoPatch(done: seq<PatchPart>, whole: PatchPart, s': State)
    requires Good(InPatch(done, whole)) && ReadsPatch(done, whole, s') && s'.warnings == Warned(InPatch(done, whole))
    ensures Reads(InPatch(done, whole), s')
  {
  }

  lemma IntoHunk(done: seq<PatchPart>, part: PatchPart, next: HunkPart, s': State)
    requires Good(InHunk(done, part, next)) && ReadsHunk(done, part, next, s')
    requires s'.warnings == Warned(InHunk(done, part, next))
    ensures Reads(InHunk(done, part, next), s')
  {
  }

  lemma HunkRefused(done: seq<PatchPart>, part: PatchPart, hunk: HunkPart, s: State, line: Line,
      next: HunkPart, whole: PatchPart)
    requires Good(InHunk(done, part, hunk)) && Reads(InHunk(done, part, hunk), s)
    requires next == hunk.(body := hunk.body + [line]) && whole == part.(hunks := part.hunks + [next])
    requires !IsHunkLine(Expand(line)) || TooLong(HunkOf(next))
    ensures Extend(InHunk(done, part, hunk), line).None? && Step(s, line).errors > 0
  {
    ExtendIs(done, part, hunk, line, next, whole);
    HunkStep(done, part, hunk, s, line, next, whole);
  }

  lemma HunkCompletes(done: seq<PatchPart>, part: PatchPart, hunk: HunkPart, s: State, line: Line,
      next: HunkPart, whole: PatchPart)
    requires Good(InHunk(done, part, hunk)) && Reads(InHunk(done, part, hunk), s)
    requires next == hunk.(body := hunk.body + [line]) && whole == part.(hunks := part.hunks + [next])
    requires IsHunkLine(Expand(line)) && Reached(HunkOf(next))
    ensures Extend(InHunk(done, part, hunk), line) == Some(InPatch(done, whole))
    ensures Good(InPatch(done, whole)) && Reads(InPatch(done, whole), Step(s, line))
  {
    assert Extend(InHunk(done, part, hunk), line) == Some(InPatch(done, whole)) && Good(InPatch(done, whole)) by {
      ExtendIs(done, part, hunk, line, next, whole);
    }
    var s' := Step(s, line);
    assert ReadsPatch(done, whole, s') && s'.warnings == Warned(InPatch(done, whole)) by {
      HunkStep(done, part, hunk, s, line, next, whole);
      HunkWarned(done, part, hunk, line, next, whole);
    }
    IntoPatch(done, whole, s');
  }

  lemma HunkGoesOn(done: seq<PatchPart>, part: PatchPart, hunk: HunkPart, s: State, line: Line,
      next: HunkPart, whole: PatchPart)
    requires Good(InHunk(done, part, hunk)) && Reads(InHunk(done, part, hunk), s)
    requires next == hunk.(body := hunk.body + [line]) && whole == part.(hunks := part.hunks + [next])
    requires IsHunkLine(Expand(line)) && !TooLong(HunkOf(next)) && !Reached(HunkOf(next))
    ensures Extend(InHunk(done, part, hunk), line) == Some(InHunk(done, part, next))
    ensures Good(InHunk(done, part, next)) && Reads(InHunk(done, part, next), Step(s, line))
  {
    assert Good(InHunk(done, part, next)) && Extend(InHunk(done, part, hunk), line) == Some(InHunk(done, part, next))
    by {
      ExtendIs(done, part, hunk, line, next, whole);
    }
    var s' := Step(s, line);
    assert ReadsHunk(done, part, next, s') && s'.warnings == Warned(InHunk(done, part, next)) by {
      HunkStep(done, part, hunk, s, line, next, whole);
      HunkWarned(done, part, hunk, line, next, whole);
    }
    IntoHunk(done, part, next, s');
  }

  lemma HunkFollows(done: seq<PatchPart>, part: PatchPart, hunk: HunkPart, s: State, line: Line)
    requires Good(InHunk(done, part, hunk)) && Reads(InHunk(done, part, hunk), s)
    ensures Follows(InHunk(done, part, hunk), line, Step(s, line))
  {
    var next := hunk.(body := hunk.body + [line]);
    var whole := part.(hunks := part.hunks + [next]);
    if !IsHunkLine(Expand(line)) || TooLong(HunkOf(next)) {
      HunkRefused(done, part, hunk, s, line, next, whole);
    } else if Reached(HunkOf(next)) {
      HunkCompletes(done, part, hunk, s, line, next, whole);
    } else {
      HunkGoesOn(done, part, hunk, s, line, next, whole);
    }
  }

  lemma HunkWarned(done: seq<PatchPart>, part: PatchPart, hunk: HunkPart, line: Line, next: HunkPart, whole: PatchPart)
    requires next == hunk.(body := hunk.body + [line]) && whole == part.(hunks := part.hunks + [next])
    ensures var w := Warned(InHunk(done, part, hunk)) + Flag(IsBlank(line));
      && Warned(InHunk(done, part, next)) == w
      && Warned(InPatch(done, whole)) == w + Flag(MixedEnds(EndsOf(whole.hunks)))
  {
    ExpandedNext(hunk.body, line);
    HunksNext(part.hunks, next, whole.hunks);
  }

  lemma ShortLonger(hunk: HunkPart, next: HunkPart, line: Line, k: nat)
    requires next == hunk.(body := hunk.body + [line]) && k <= |hunk.body| && Short(HunkOf(hunk), k)
    ensures Short(HunkOf(next), k)
  {
    assert HunkOf(next).text[..k] == HunkOf(hunk).text[..k];
  }

  /** All but the last line of the longer hunk are as before. */
  lemma NextHunkGood(hunk: HunkPart, line: Line, next: HunkPart)
    requires OpenPart(hunk) && next == hunk.(body := hunk.body + [line])
    ensures KnownText(HunkOf(next).text) <==> IsHunkLine(Expand(line))
    ensures forall k :: 0 < k < |next.body| ==> Short(HunkOf(next), k)
  {
    forall k | 0 < k < |next.body|
      ensures Short(HunkOf(next), k)
    {
      ShortLonger(hunk, next, line, k);
    }
    ExpandedNext(hunk.body, line);
    OneMoreKnown(Expanded(hunk.body), Expand(line), HunkOf(next).text);
  }

  lemma OneMoreKnown(text: seq<Line>, l: Line, text': seq<Line>)
    requires KnownText(text) && text' == text + [l]
    ensures KnownText(text') <==> IsHunkLine(l)
  {
    assert text'[|text|] == l;
  }

  lemma StepFollows(g: Progress, s: State, line: Line)
    requires Good(g) && Reads(g, s)
    ensures Follows(g, line, Step(s, line))
  {
    match g
    case InHeader(done, header) => HeaderFollows(done, header, s, line);
    case InNames(done, header, olds) => NamesFollow(done, header, olds, s, line);
    case InPatch(done, part) => PatchFollows(done, part, s, line);
    case InHunk(done, part, hunk) => HunkFollows(done, part, hunk, s, line);
  }

  lemma PartsNext(done: seq<PatchPart>, part: PatchPart, all: seq<PatchPart>)
    requires all == done + [part]
    ensures PartsLines(all) == PartsLines(done) + PartLines(part)
  {
    assert all[..|all| - 1] == done;
  }

  lemma HunkLinesNext(part: PatchPart, hunk: HunkPart, whole: PatchPart)
    requires whole == part.(hunks := part.hunks + [hunk])
    ensures PartLines(whole) == PartLines(part) + HunkPartLines(hunk)
  {
    assert whole.hunks[..|part.hunks|] == part.hunks;
  }

  lemma BodyLinesNext(hunk: HunkPart, line: Line)
    ensures HunkPartLines(hunk.(body := hunk.body + [line])) == HunkPartLines(hunk) + [line]
  {
  }

  lemma NamedLines(header: seq<Line>, olds: seq<Line>, target: Line)
    ensures PartLines(PatchPart(header, olds, target, [])) == header + olds + [target]
  {
    assert HunksLines([]) == [];
  }

  lemma Assoc<T>(a: seq<T>, b: seq<T>, c: seq<T>)
    ensures a + b + c == a + (b + c)
  {
  }

  lemma HunkExtendLines(done: seq<PatchPart>, part: PatchPart, hunk: HunkPart, line: Line, g: Progress)
    requires Extend(InHunk(done, part, hunk), line) == Some(g)
    ensures ProgressLines(g) == ProgressLines(InHunk(done, part, hunk)) + [line]
  {
    var next := hunk.(body := hunk.body + [line]);
    var whole := part.(hunks := part.hunks + [next]);
    BodyLinesNext(hunk, line);
    HunkLinesNext(part, next, whole);
    Assoc(PartsLines(done) + PartLines(part), HunkPartLines(hunk), [line]);
    Assoc(PartsLines(done), PartLines(part), HunkPartLines(next));
  }

  lemma PatchExtendLines(done: seq<PatchPart>, part: PatchPart, line: Line, g: Progress)
    requires Extend(InPatch(done, part), line) == Some(g)
    ensures ProgressLines(g) == ProgressLines(InPatch(done, part)) + [line]
  {
    if IsHead(line) {
      assert HunkPartLines(HunkPart(line, [])) == [line];
    } else {
      PartsNext(done, part, done + [part]);
    }
  }

  lemma NamesExtendLines(done: seq<PatchPart>, header: seq<Line>, olds: seq<Line>, line: Line, g: Progress)
    requires Extend(InNames(done, header, olds), line) == Some(g)
    ensures ProgressLines(g) == ProgressLines(InNames(done, header, olds)) + [line]
  {
    NamedLines(header, olds, line);
    Assoc(PartsLines(done) + header, olds, [line]);
    Assoc(PartsLines(done), header, olds);
    Assoc(PartsLines(done), header + olds, [line]);
  }

  lemma HeaderExtendLines(done: seq<PatchPart>, header: seq<Line>, line: Line, g: Progress)
    requires Extend(InHeader(done, header), line) == Some(g)
    ensures ProgressLines(g) == ProgressLines(InHeader(done, header)) + [line]
  {
    Assoc(PartsLines(done), header, [line]);
  }

  /** What was read so far, as lines, goes on with each line. */
  lemma ExtendLines(g: Progress, line: Line, g': Progress)
    requires Extend(g, line) == Some(g')
    ensures ProgressLines(g') == ProgressLines(g) + [line]
  {
    match g
    case InHeader(done, header) => HeaderExtendLines(done, header, line, g');
    case InNames(done, header, olds) => NamesExtendLines(done, header, olds, line, g');
    case InPatch(done, part) => PatchExtendLines(done, part, line, g');
    case InHunk(done, part, hunk) => HunkExtendLines(done, part, hunk, line, g');
  }

  lemma Unsnoc<T>(a: seq<T>, n: nat)
    requires n == |a| - 1
    ensures a[..n] + [a[n]] == a
  {
  }

  lemma RunNext(lines: seq<Line>, n: nat, before: seq<Line>, line: Line)
    requires n == |lines| - 1 && before == lines[..n] && line == lines[n]
    ensures Run(START, lines) == Step(Run(START, before), line) && before + [line] == lines
    ensures Run(START, before).errors <= Run(START, lines).errors
  {
    Unsnoc(lines, n);
  }

  /** The progress stands for these lines, and the machine is where it is. */
  predicate Explains(g: Progress, lines: seq<Line>, s: State) {
    Good(g) && Reads(g, s) && ProgressLines(g) == lines
  }

  lemma ExplainedNext(g: Progress, before: seq<Line>, s: State, line: Line) returns (g': Progress)
    requires Explains(g, before, s) && Step(s, line).errors == 0
    ensures Explains(g', before + [line], Step(s, line))
  {
    StepFollows(g, s, line);
    g' := Extend(g, line).value;
    ExtendLines(g, line, g');
  }

  /** As long as no error was found, the lines so far are those of some progress in the grammar, and
      the machine is where that progress is. */
  lemma {:induction false} Explained(lines: seq<Line>) returns (g: Progress)
    requires Run(START, lines).errors == 0
    ensures Explains(g, lines, Run(START, lines))
  {
    if lines == [] {
      g := InHeader([], []);
      StartReads();
    } else {
      var n := |lines| - 1;
      var before, line := lines[..n], lines[n];
      RunNext(lines, n, before, line);
      var b := Explained(before);
      g := ExplainedNext(b, before, Run(START, before), line);
    }
  }

  // ---------- and back: every progress is reached ----------

  lemma EarlierHeader(done: seq<PatchPart>, header: seq<Line>, n: nat)
    requires Good(InHeader(done, header)) && n == |header| - 1 && (n > 0 || done == [])
    ensures Good(InHeader(done, header[..n]))
    ensures Extend(InHeader(done, header[..n]), header[n]) == Some(InHeader(done, header))
  {
    Unsnoc(header, n);
  }

  /** A header, or a source name, right after a patch. */
  lemma EarlierEnd(done: seq<PatchPart>, m: nat, line: Line)
    requires GoodParts(done) && m == |done| - 1 && !IsHead(line)
    ensures Good(InPatch(done[..m], done[m]))
    ensures !IsOldName(line) ==> Extend(InPatch(done[..m], done[m]), line) == Some(InHeader(done, [line]))
    ensures IsOldName(line) && IsNamed(line) ==>
      Extend(InPatch(done[..m], done[m]), line) == Some(InNames(done, [], [line]))
  {
    Unsnoc(done, m);
    assert GoodPart(done[m], m == 0);
  }

  lemma EarlierNames(done: seq<PatchPart>, header: seq<Line>, olds: seq<Line>, n: nat)
    requires Good(InNames(done, header, olds)) && n == |olds| - 1 && n > 0
    ensures Good(InNames(done, header, olds[..n]))
    ensures Extend(InNames(done, header, olds[..n]), olds[n]) == Some(InNames(done, header, olds))
  {
    Unsnoc(olds, n);
  }

  lemma EarlierTarget(done: seq<PatchPart>, part: PatchPart)
    requires Good(InPatch(done, part)) && part.hunks == []
    ensures Good(InNames(done, part.header, part.olds))
    ensures Extend(InNames(done, part.header, part.olds), part.target) == Some(InPatch(done, part))
  {
    assert !IsOldName(part.target);
  }

  lemma ShortPrefix(h: HunkPart, prefix: HunkPart, n: nat, k: nat)
    requires n <= |h.body| && prefix == h.(body := h.body[..n]) && k <= n && Short(HunkOf(h), k)
    ensures Short(HunkOf(prefix), k)
  {
    assert HunkOf(prefix).text[..k] == HunkOf(h).text[..k];
  }

  lemma PrefixText(h: HunkPart, prefix: HunkPart, n: nat)
    requires n <= |h.body| && prefix == h.(body := h.body[..n])
    ensures HunkOf(prefix).text == HunkOf(h).text[..n]
    ensures KnownText(HunkOf(h).text) ==> KnownText(HunkOf(prefix).text)
  {
    assert Expanded(prefix.body) == Expanded(h.body)[..n];
  }

  /** The first lines of a hunk. */
  lemma OpenPrefix(h: HunkPart, n: nat, prefix: HunkPart)
    requires n == |h.body| - 1 && prefix == h.(body := h.body[..n])
    requires IsHead(h.head) && KnownText(HunkOf(h).text) && forall k :: 0 < k < |h.body| ==> Short(HunkOf(h), k)
    ensures OpenPart(prefix) && prefix.(body := prefix.body + [h.body[n]]) == h
  {
    Unsnoc(h.body, n);
    PrefixText(h, prefix, n);
    forall k | 0 < k <= n
      ensures Short(HunkOf(prefix), k)
    {
      assert Short(HunkOf(h), k);
      ShortPrefix(h, prefix, n, k);
    }
  }

  lemma EarlierHunkEnd(done: seq<PatchPart>, part: PatchPart, m: nat, h: HunkPart, n: nat,
                       open: PatchPart, prefix: HunkPart)
    requires Good(InPatch(done, part)) && m == |part.hunks| - 1 && h == part.hunks[m] && n == |h.body| - 1
    requires open == part.(hunks := part.hunks[..m]) && prefix == h.(body := h.body[..n])
    ensures Good(InHunk(done, open, prefix))
    ensures Extend(InHunk(done, open, prefix), h.body[n]) == Some(InPatch(done, part))
  {
    Unsnoc(part.hunks, m);
    assert ClosedPart(h);
    OpenPrefix(h, n, prefix);
  }

  lemma EarlierHunkLine(done: seq<PatchPart>, part: PatchPart, h: HunkPart, n: nat, prefix: HunkPart)
    requires Good(InHunk(done, part, h)) && n == |h.body| - 1 && prefix == h.(body := h.body[..n])
    ensures Good(InHunk(done, part, prefix))
    ensures Extend(InHunk(done, part, prefix), h.body[n]) == Some(InHunk(done, part, h))
  {
    OpenPrefix(h, n, prefix);
    assert Short(HunkOf(h), |h.body|);
    assert HunkOf(h).text[..|h.body|] == HunkOf(h).text;
  }

  lemma EarlierHead(done: seq<PatchPart>, part: PatchPart, h: HunkPart)
    requires Good(InHunk(done, part, h)) && h.body == []
    ensures Good(InPatch(done, part)) && Extend(InPatch(done, part), h.head) == Some(InHunk(done, part, h))
  {
  }

  lemma OldIsNoHead(line: Line)
    requires IsOldName(line)
    ensures !IsHead(line)
  {
    if IsHead(line) {
      HeadStartsWithAt(line);
    }
  }

  /** The progress one line earlier. */
  lemma Earlier(g: Progress) returns (b: Progress, line: Line)
    requires Good(g) && g != InHeader([], [])
    ensures Good(b) && Extend(b, line) == Some(g)
  {
    match g
    case InHeader(done, header) =>
      var n := |header| - 1;
      line := header[n];
      if n == 0 && done != [] {
        b := InPatch(done[..|done| - 1], done[|done| - 1]);
        EarlierEnd(done, |done| - 1, line);
        assert header == [line];
      } else {
        b := InHeader(done, header[..n]);
        EarlierHeader(done, header, n);
      }
    case InNames(done, header, olds) =>
      b, line := EarlierName(done, header, olds);
    case InPatch(done, part) =>
      if part.hunks == [] {
        b, line := InNames(done, part.header, part.olds), part.target;
        EarlierTarget(done, part);
      } else {
        var m := |part.hunks| - 1;
        var h := part.hunks[m];
        assert ClosedPart(h);
        var n := |h.body| - 1;
        var open, prefix := part.(hunks := part.hunks[..m]), h.(body := h.body[..n]);
        b, line := InHunk(done, open, prefix), h.body[n];
        EarlierHunkEnd(done, part, m, h, n, open, prefix);
      }
    case InHunk(done, part, hunk) =>
      var n := |hunk.body| - 1;
      if n >= 0 {
        b, line := InHunk(done, part, hunk.(body := hunk.body[..n])), hunk.body[n];
        EarlierHunkLine(done, part, hunk, n, hunk.(body := hunk.body[..n]));
      } else {
        b, line := InPatch(done, part), hunk.head;
        EarlierHead(done, part, hunk);
      }
  }

  lemma EarlierName(done: seq<PatchPart>, header: seq<Line>, olds: seq<Line>) returns (b: Progress, line: Line)
    requires Good(InNames(done, header, olds))
    ensures Good(b) && Extend(b, line) == Some(InNames(done, header, olds))
  {
    var n := |olds| - 1;
    line := olds[n];
    if n > 0 {
      b := InNames(done, header, olds[..n]);
      EarlierNames(done, header, olds, n);
    } else {
      assert olds == [line];
      if header == [] && done != [] {
        b := InPatch(done[..|done| - 1], done[|done| - 1]);
        OldIsNoHead(line);
        EarlierEnd(done, |done| - 1, line);
      } else {
        b := InHeader(done, header);
      }
    }
  }

  /** The machine gets wherever the grammar does. */
  lemma {:induction false} GrammarIsReached(g: Progress)
    requires Good(g)
    ensures Reads(g, Run(START, ProgressLines(g)))
    decreases |ProgressLines(g)|
  {
    if g == InHeader([], []) {
      StartReads();
    } else {
      var b, line := Earlier(g);
      ExtendLines(b, line, g);
      GrammarIsReached(b);
      StepFollows(b, Run(START, ProgressLines(b)), line);
      RunLast(ProgressLines(b), line, ProgressLines(g));
    }
  }

  lemma RunLast(before: seq<Line>, line: Line, lines: seq<Line>)
    requires lines == before + [line]
    ensures Run(START, lines) == Step(Run(START, before), line)
  {
    assert lines[..|lines| - 1] == before;
  }

  // ---------- the end of the file ----------

  /** The end of the file is accepted after a patch, or in the lines behind one. */
  predicate Final(g: Progress) {
    (g.InPatch? && g.part.hunks != []) || (g.InHeader? && g.done != [])
  }

  function FileOf(g: Progress): PatchFile
    requires Final(g)
  {
    match g
    case InPatch(done, part) => PatchFile(done + [part], [])
    case InHeader(done, header) => PatchFile(done, header)
  }

  lemma FinalHeader(done: seq<PatchPart>, header: seq<Line>, s: State)
    requires GoodParts(done) && ReadsHeader(done, header, s) && (done != [] ==> header != [])
    ensures Finish(EndOfHeader(s)).success <==> done != []
    ensures done != [] ==> Finish(EndOfHeader(s)) == Outcome(PatchesOf(done), 0, s.warnings + 1, true)
  {
  }

  lemma FinalPatch(done: seq<PatchPart>, part: PatchPart, s: State)
    requires GoodParts(done) && part.olds != [] && ReadsPatch(done, part, s)
    ensures Finish(EndOfHeader(s)).success <==> part.hunks != []
    ensures part.hunks != [] ==> Finish(EndOfHeader(s)) == Outcome(AllPatches(s), 0, s.warnings, true)
  {
  }

  lemma NotFinal(g: Progress, s: State)
    requires Good(g) && Reads(g, s) && (g.InNames? || g.InHunk?)
    ensures !Finish(EndOfHeader(s)).success
  {
  }

  function Parsed(f: PatchFile): Outcome
    requires GoodParts(f.parts)
  {
    Outcome(PatchesOf(f.parts), 0, PartWarnings(f.parts) + Flag(f.rest != []), true)
  }

  lemma FinalFile(g: Progress)
    requires Good(g) && Final(g)
    ensures GoodFile(FileOf(g)) && FileLines(FileOf(g)) == ProgressLines(g)
  {
    if g.InPatch? {
      OneMorePart(g.done, g.part, g.done + [g.part]);
      PartsNext(g.done, g.part, g.done + [g.part]);
    }
  }

  lemma OneMorePart(done: seq<PatchPart>, part: PatchPart, all: seq<PatchPart>)
    requires GoodParts(done) && GoodPart(part, done == []) && all == done + [part]
    ensures GoodParts(all)
  {
  }

  lemma FinalIs(g: Progress, s: State)
    requires Good(g) && Reads(g, s)
    ensures Finish(EndOfHeader(s)).success <==> Final(g)
    ensures Final(g) ==> GoodParts(FileOf(g).parts) && Finish(EndOfHeader(s)) == Parsed(FileOf(g))
  {
    match g
    case InHeader(done, header) => FinalHeader(done, header, s);
    case InPatch(done, part) =>
      FinalPatch(done, part, s);
      if part.hunks != [] {
        AllDone(done, part, s, done + [part]);
      }
    case InNames(_, _, _) => NotFinal(g, s);
    case InHunk(_, _, _) => NotFinal(g, s);
  }

  lemma ProgressOf(f: PatchFile) returns (g: Progress)
    requires GoodFile(f)
    ensures Good(g) && Final(g) && FileOf(g) == f
  {
    if f.rest == [] {
      var n := |f.parts| - 1;
      Unsnoc(f.parts, n);
      assert GoodPart(f.parts[n], n == 0);
      g := InPatch(f.parts[..n], f.parts[n]);
    } else {
      g := InHeader(f.parts, f.rest);
    }
  }

  /** What `parse` makes of a file of the grammar: the patches it stands for, no error, and a warning for
      each empty hunk line, each hunk after which line ends are mixed, and lines behind the last patch. */
  lemma ParseIs(f: PatchFile)
    requires GoodFile(f)
    ensures ParseLines(FileLines(f)) == Parsed(f)
  {
    var g := ProgressOf(f);
    FinalFile(g);
    GrammarIsReached(g);
    FinalIs(g, Run(START, ProgressLines(g)));
  }

  lemma ErrorsStay(s: State)
    ensures Finish(EndOfHeader(s)).success ==> s.errors == 0
  {
  }

  /** `parse` succeeds on exactly the files of the grammar. */
  lemma ParsesIff(lines: seq<Line>)
    ensures ParseLines(lines).success <==> exists f :: GoodFile(f) && FileLines(f) == lines
  {
    if ParseLines(lines).success {
      var s := Run(START, lines);
      ErrorsStay(s);
      var g := Explained(lines);
      FinalIs(g, s);
      FinalFile(g);
    }
    if f :| GoodFile(f) && FileLines(f) == lines {
      ParseIs(f);
    }
  }
}
