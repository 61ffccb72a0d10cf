/** The main loop of `PatchSet.parse`, as one step per line of the patch file. */
module ParserSteps {
  import opened Options
  import opened Lines
  import opened Hunks
  import opened HunkHead

  datatype Patch = Patch(
    source: Option<Bytes>, target: Bytes, header: seq<Line>,
    hunks: seq<Hunk>, hunkends: Tally)

  const OLD_NAME: Bytes := [MINUS, MINUS, MINUS, SPACE]
  const NEW_NAME: Bytes := [PLUS, PLUS, PLUS, SPACE]
  const NO_HUNK := Hunk(0, 0, 0, 0, false, [], [])

  /** Everything the loop keeps between two lines. `scanning` says that the inner header
      loop is running; `dead` records that a branch the source calls unreachable was taken. */
  datatype State = State(
    headscan: bool, filenames: bool, hunkhead: bool, hunkbody: bool, hunkskip: bool, hunkparsed: bool,
    p: Option<Patch>, hunk: Hunk, actualsrc: nat, actualtgt: nat,
    header: seq<Line>, srcname: Option<Bytes>, tgtname: Option<Bytes>,
    items: seq<Patch>, errors: nat, warnings: nat,
    scanning: bool, dead: bool)

  const START := State(
    true, false, false, false, false, false,
    None, NO_HUNK, 0, 0, [], None, None, [], 0, 0, false, false)

  // ---------- names ----------

  predicate IsSpace(b: Byte) {
    9 <= b <= 13 || b == SPACE
  }

  function StripLeft(s: Bytes): Bytes {
    if s != [] && IsSpace(s[0]) then StripLeft(s[1..]) else s
  }

  function StripRight(s: Bytes): Bytes {
    if s != [] && IsSpace(s[|s| - 1]) then StripRight(s[..|s| - 1]) else s
  }

  function Strip(s: Bytes): Bytes {
    StripRight(StripLeft(s))
  }

  function UpToTab(s: Bytes): Bytes {
    if s == [] || s[0] == TAB then [] else [s[0]] + UpToTab(s[1..])
  }

  /** The line starts with `--- `. */
  predicate IsOldName(line: Line) {
    |line| >= 4 && line[0] == MINUS && line[1] == MINUS && line[2] == MINUS && line[3] == SPACE
  }

  /** The line starts with `+++ `. */
  predicate IsNewName(line: Line) {
    |line| >= 4 && line[0] == PLUS && line[1] == PLUS && line[2] == PLUS && line[3] == SPACE
  }

  /** The name on a `--- ` or `+++ ` line; nothing if a tab or the end of the line follows. */
  function FileName(line: Line): Option<Bytes>
    requires |line| >= 4
  {
    var name := UpToTab(line[4..]);
    if name == [] then None else Some(Strip(name))
  }

  // ---------- the blocks of one cycle ----------

  /** After a complete hunk, the next line says what comes next. */
  function Decide(s: State, line: Line): State {
    if !s.hunkparsed then s
    else if IsHead(line) then s.(hunkparsed := false, hunkhead := true)
    else if IsOldName(line) then s.(hunkparsed := false, filenames := true)
    else s.(hunkparsed := false, headscan := true)
  }

  predicate IsBlank(line: Line) {
    forall i :: 0 <= i < |line| ==> IsEol(line[i])
  }

  predicate IsHunkLine(line: Line) {
    IsContext(line) || IsMinus(line) || IsPlus(line) || IsNoNewline(line)
  }

  /** Empty lines in a hunk count as a single space. */
  function Expand(line: Line): Line {
    if IsBlank(line) then [SPACE] + line else line
  }

  function AddHunk(p: Patch, h: Hunk): Patch {
    p.(hunks := p.hunks + [h])
  }

  /** A line of a hunk body, already expanded: count and keep it, or give the hunk up. */
  function TakeLine(s: State, line: Line): (r: State)
    requires s.p.Some?
    ensures r.p.Some?
    ensures r.scanning == s.scanning
    ensures r.errors >= s.errors
  {
    if IsHunkLine(line) then
      s.(p := Some(s.p.value.(hunkends := s.p.value.hunkends.Add(line))),
         actualsrc := s.actualsrc + (if IsMinus(line) || IsContext(line) then 1 else 0),
         actualtgt := s.actualtgt + (if IsPlus(line) || IsContext(line) then 1 else 0),
         hunk := s.hunk.(text := s.hunk.text + [line]))
    else GiveUp(s)
  }

  /** The current hunk is kept, but as an invalid one. */
  function GiveUp(s: State): (r: State)
    requires s.p.Some?
    ensures r.p.Some?
    ensures r.scanning == s.scanning
    ensures r.errors >= s.errors
  {
    var h := s.hunk.(invalid := true);
    s.(hunk := h, p := Some(AddHunk(s.p.value, h)), errors := s.errors + 1, hunkbody := false, hunkskip := true)
  }

  predicate MixedEnds(t: Tally) {
    (if t.cr != 0 then 1 else 0) + (if t.crlf != 0 then 1 else 0) + (if t.lf != 0 then 1 else 0) > 1
  }

  /** The exit conditions after each body line. */
  function CloseHunk(s: State): (r: State)
    requires s.p.Some?
    ensures r.p.Some?
    ensures r.scanning == s.scanning
    ensures r.errors >= s.errors
  {
    if s.actualsrc > s.hunk.linessrc || s.actualtgt > s.hunk.linestgt then GiveUp(s)
    else if s.actualsrc == s.hunk.linessrc && s.actualtgt == s.hunk.linestgt then
      s.(p := Some(AddHunk(s.p.value, s.hunk)), hunkbody := false, hunkparsed := true,
         warnings := s.warnings + if MixedEnds(s.p.value.hunkends) then 1 else 0)
    else s
  }

  /** Empty lines in a hunk are warned of. */
  function WarnBlank(s: State, line: Line): State {
    s.(warnings := s.warnings + if IsBlank(line) then 1 else 0)
  }

  function BodyLine(s: State, line: Line): (r: State)
    requires s.p.Some?
    ensures r.p.Some?
    ensures r.scanning == s.scanning
    ensures r.errors >= s.errors
  {
    CloseHunk(TakeLine(WarnBlank(s, line), Expand(line)))
  }

  /** While skipping an invalid hunk: look for the next hunk or the next patch. */
  function SkipLine(s: State, line: Line): (r: State)
    ensures r.p == s.p && r.errors == s.errors && r.scanning == s.scanning
  {
    if !s.hunkskip then s
    else if IsHead(line) then s.(hunkskip := false, hunkhead := true)
    else if IsOldName(line) then s.(hunkskip := false, filenames := true)
    else s
  }

  function ToHeader(s: State): (r: State)
    ensures r == s.(filenames := false, headscan := true)
  {
    s.(filenames := false, headscan := true)
  }

  /** A `--- ` line; a second one in a row replaces the first. */
  function OldNameLine(s: State, line: Line): (r: State)
    requires |line| >= 4
    ensures r.errors >= s.errors && r.scanning == s.scanning
    ensures r.p.Some? || (r.p == s.p && r.hunkhead == s.hunkhead)
    ensures r.hunkbody == s.hunkbody && r.hunkskip == s.hunkskip && r.hunkparsed == s.hunkparsed
  {
    match FileName(line)
    case Some(name) => s.(srcname := Some(name))
    case None => ToHeader(s.(srcname := None, errors := s.errors + 1))
  }

  function OpenPatch(s: State, name: Bytes): (r: State)
    ensures r.p.Some? && r.errors == s.errors && r.scanning == s.scanning
    ensures r.hunkbody == s.hunkbody && r.hunkskip == s.hunkskip && r.hunkparsed == s.hunkparsed
  {
    s.(items := AllPatches(s), p := Some(Patch(s.srcname, name, s.header, [], NO_LINES)),
       srcname := None, header := [], filenames := false, hunkhead := true)
  }

  /** A `+++ ` line: the patch becomes current; the one before it is complete. */
  function NewNameLine(s: State, line: Line): (r: State)
    requires |line| >= 4
    ensures r.errors >= s.errors && r.scanning == s.scanning
    ensures r.p.Some? || (r.p == s.p && r.hunkhead == s.hunkhead)
    ensures r.hunkbody == s.hunkbody && r.hunkskip == s.hunkskip && r.hunkparsed == s.hunkparsed
  {
    if s.tgtname.Some? then
      ToHeader(s.(srcname := None, tgtname := None, errors := s.errors + 1, dead := true))
    else
      match FileName(line)
      case None => ToHeader(s.(srcname := None, errors := s.errors + 1))
      case Some(name) => OpenPatch(s, name)
  }

  /** The patches so far, the current one included. */
  function AllPatches(s: State): seq<Patch> {
    if s.p.Some? then s.items + [s.p.value] else s.items
  }

  /** The one case in which the names block ends the cycle. */
  predicate OpensPatch(s: State, line: Line) {
    IsNewName(line) && s.tgtname.None? && FileName(line).Some?
  }

  function NamesLine(s: State, line: Line): (r: State)
    ensures r.errors >= s.errors && r.scanning == s.scanning
    ensures r.p.Some? || (r.p == s.p && r.hunkhead == s.hunkhead)
    ensures r.hunkbody == s.hunkbody && r.hunkskip == s.hunkskip && r.hunkparsed == s.hunkparsed
  {
    if IsOldName(line) then OldNameLine(s, line)
    else if !IsNewName(line) then
      if s.srcname.Some? then ToHeader(s.(srcname := None, errors := s.errors + 1))
      else ToHeader(s.(dead := true))
    else NewNameLine(s, line)
  }

  function HeadLine(s: State, line: Line): (r: State)
    requires s.p.Some?
    ensures r.p == s.p && r.errors >= s.errors && r.scanning == s.scanning
  {
    match ReadHead(line)
    case None =>
      if s.p.value.hunks == [] then s.(errors := s.errors + 1, hunkhead := false, headscan := true)
      else s.(hunkhead := false, headscan := true, dead := true)
    case Some(h) =>
      s.(hunk := Hunk(h.src.start, h.src.count, h.tgt.start, h.tgt.count, false, Description(h.rest), []),
         actualsrc := 0, actualtgt := 0, hunkhead := false, hunkbody := true)
  }

  function Description(rest: Bytes): Bytes {
    if rest == [] then [] else StripRight(rest[1..])
  }

  // ---------- one cycle ----------

  /** The code never reads a patch or a hunk that is not there. */
  predicate Safe(s: State) {
    (s.hunkhead || s.hunkbody || s.hunkskip || s.hunkparsed) ==> s.p.Some?
  }

  /** The names block, and the head block if the names block lets the cycle go on. */
  function NamesThenHead(s: State, line: Line): (r: State)
    requires Safe(s)
    ensures Safe(r) && r.errors >= s.errors && r.scanning == s.scanning
  {
    var c := NamesLine(s, line);
    if OpensPatch(s, line) || !c.hunkhead then c else HeadLine(c, line)
  }

  /** The skip, names and head blocks. */
  function Route(s: State, line: Line): (r: State)
    requires Safe(s)
    ensures Safe(r) && r.errors >= s.errors && r.scanning == s.scanning
  {
    var b := SkipLine(s, line);
    if b.filenames then NamesThenHead(b, line)
    else if b.hunkhead then HeadLine(b, line)
    else b
  }

  /** The part of a cycle after the header loop. */
  function Dispatch(s: State, line: Line): (r: State)
    requires Safe(s)
    ensures Safe(r) && r.errors >= s.errors && r.scanning == s.scanning
  {
    if !s.hunkbody then Route(s, line)
    else
      var a := BodyLine(s, line);
      if a.hunkparsed then a else Route(a, Expand(line))
  }

  /** The mode of the cycle that reads this line. */
  function Enter(s: State, line: Line): (r: State)
    requires Safe(s)
    ensures Safe(r) && r.errors >= s.errors
  {
    if s.scanning then s else Decide(s, line)
  }

  /** The header loop has met a `--- ` line. */
  function LeaveHeader(s: State): (r: State)
    requires Safe(s)
    ensures Safe(r) && r.errors >= s.errors
  {
    if s.headscan then s.(headscan := false, filenames := true, scanning := false) else s
  }

  function Scan(s: State, line: Line): (r: State)
    requires Safe(s)
    ensures Safe(r) && r.errors >= s.errors
  {
    s.(header := s.header + [line], scanning := true)
  }

  function Step(s: State, line: Line): (r: State)
    requires Safe(s)
    ensures Safe(r) && r.errors >= s.errors
  {
    if Enter(s, line).headscan && !IsOldName(line) then Scan(Enter(s, line), line)
    else Dispatch(LeaveHeader(Enter(s, line)), line)
  }

  function Run(s: State, lines: seq<Line>): (r: State)
    requires Safe(s)
    ensures Safe(r)
  {
    if lines == [] then s else Step(Run(s, lines[..|lines| - 1]), lines[|lines| - 1])
  }

  // ---------- the end of the file ----------

  datatype Outcome = Outcome(items: seq<Patch>, errors: nat, warnings: nat, success: bool)

  /** The file ended inside the header loop. */
  function EndOfHeader(s: State): State {
    if !s.scanning then s
    else if s.p.None? then s.(errors := s.errors + 1)
    else s.(warnings := s.warnings + 1)
  }

  function Finish(s: State): Outcome {
    var items := AllPatches(s);
    if s.hunkparsed || s.hunkskip then Outcome(items, s.errors, s.warnings, s.errors == 0)
    else if s.headscan then Outcome(items, s.errors, s.warnings, items != [] && s.errors == 0)
    else Outcome(items, s.errors + 1, s.warnings, false)
  }

  function ParseLines(lines: seq<Line>): Outcome {
    Finish(EndOfHeader(Run(START, lines)))
  }
}
