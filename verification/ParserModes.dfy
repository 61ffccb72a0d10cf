/** What holds between any two lines of any patch file. */
module ParserModes {
  import opened Lines
  import opened Hunks
  import opened HunkHead
  import opened ParserSteps

  /** After `k` lines the hunk is neither complete nor too long. */
  predicate Short(h: Hunk, k: nat)
    requires k <= |h.text|
  {
    && |SourceLines(h.text[..k])| <= h.linessrc
    && |TargetLines(h.text[..k])| <= h.linestgt
    && (|SourceLines(h.text[..k])| < h.linessrc || |TargetLines(h.text[..k])| < h.linestgt)
  }

  predicate HunkLines(text: seq<Line>) {
    KnownText(text) && forall i :: 0 <= i < |text| ==> IsLine(text[i])
  }

  /** A hunk whose body is being read. */
  predicate OpenHunk(h: Hunk) {
    !h.invalid && HunkLines(h.text) && forall k :: 0 < k <= |h.text| ==> Short(h, k)
  }

  /** A hunk that was read to its end: the counts are reached by the last line, not before. */
  predicate ClosedHunk(h: Hunk) {
    !h.invalid && HunkLines(h.text) && h.text != [] && Counted(h) && forall k :: 0 < k < |h.text| ==> Short(h, k)
  }

  function Flag(b: bool): nat { if b then 1 else 0 }

  function Flags(s: State): nat {
    Flag(s.headscan) + Flag(s.filenames) + Flag(s.hunkhead) + Flag(s.hunkbody) + Flag(s.hunkskip) + Flag(s.hunkparsed)
  }

  /** An invalid line under a `-0,0 +0,0` head: the hunk is given up and complete at once. */
  predicate GivenUpEmpty(s: State) {
    s.hunkskip && s.hunkparsed && s.hunk.linessrc == 0 && s.hunk.linestgt == 0 && s.hunk.invalid
  }

  /** Exactly one mode at the top of a cycle; the exception is the cycle after an invalid
      line under a `-0,0 +0,0` head. Inside the header loop of that cycle the second flag is
      still set. */
  predicate OneMode(s: State) {
    if s.scanning then s.headscan && (Flags(s) == 1 || (Flags(s) == 2 && s.hunkskip))
    else Flags(s) == 1 || (Flags(s) == 2 && GivenUpEmpty(s))
  }

  predicate HaveSources(items: seq<Patch>) {
    forall i :: 0 <= i < |items| ==> items[i].source.Some?
  }

  predicate Modes(s: State) {
    && OneMode(s)
    && HaveSources(s.items) && (s.p.Some? ==> s.p.value.source.Some?)
    && (s.filenames <==> s.srcname.Some?)
    && s.tgtname.None?
    && !s.dead
    && Safe(s)
    && (s.hunkhead ==> s.p.value.hunks == [])
    && (s.hunkparsed ==> s.p.value.hunks != [])
    && (s.hunkskip ==> s.errors > 0)
    && (s.hunkbody ==>
          && OpenHunk(s.hunk)
          && s.actualsrc == |SourceLines(s.hunk.text)|
          && s.actualtgt == |TargetLines(s.hunk.text)|)
  }

  lemma HeadStartsWithAt(line: Line)
    requires IsHead(line)
    ensures line != [] && line[0] == AT
  {
    assert OPEN <= line;
    assert line[0] == OPEN[0];
  }

  lemma ExpandIsLine(line: Line)
    requires IsLine(line)
    ensures IsLine(Expand(line))
    ensures IsBlank(line) ==> IsContext(Expand(line))
  {
    assert forall i :: 1 <= i < |[SPACE] + line| ==> ([SPACE] + line)[i] == line[i - 1];
  }

  /** Taking a body line keeps the hunk open until the exit conditions look at it. */
  lemma TakeKeepsOpen(h: Hunk, line: Line)
    requires OpenHunk(h) && IsLine(line) && IsHunkLine(line)
    ensures var t := h.(text := h.text + [line]);
      && HunkLines(t.text) && !t.invalid
      && forall k :: 0 < k < |t.text| ==> Short(t, k)
  {
    var t := h.(text := h.text + [line]);
    forall k | 0 < k < |t.text|
      ensures Short(t, k)
    {
      assert t.text[..k] == h.text[..k];
      assert Short(h, k);
    }
  }

  /** The outcome of one body line. */
  lemma BodyModes(s: State, line: Line)
    requires Modes(s) && s.hunkbody && IsLine(line)
    ensures var r := BodyLine(s, line);
      && r.p.Some? && r.p.value.source.Some? && r.items == s.items
      && r.srcname == s.srcname && r.tgtname == s.tgtname && r.dead == s.dead && !r.scanning
      && (r.hunkskip && r.hunkparsed ==> GivenUpEmpty(r))
      && !r.headscan && !r.filenames && !r.hunkhead
      && (r.hunkbody ==> !r.hunkskip && !r.hunkparsed && Modes(r))
      && (r.hunkskip ==> r.errors > 0)
      && (!r.hunkbody ==> (r.hunkskip || r.hunkparsed) && r.p.value.hunks != [])
  {
    ExpandIsLine(line);
    var l := Expand(line);
    if IsHunkLine(l) {
      SourceAppend(s.hunk.text, l);
      TargetAppend(s.hunk.text, l);
      TakeKeepsOpen(s.hunk, l);
      var t := s.hunk.(text := s.hunk.text + [l]);
      assert t.text[..|t.text|] == t.text;
    } else {
      var text := s.hunk.text;
      assert text[..|text|] == text;
      assert text == [] || Short(s.hunk, |text|);
    }
  }

  /** What the blocks after the body block may start from. */
  predicate Routable(s: State, line: Line) {
    && !s.scanning && !s.headscan && !s.hunkbody && !s.hunkparsed
    && s.tgtname.None? && !s.dead && Safe(s)
    && HaveSources(s.items) && (s.p.Some? ==> s.p.value.source.Some?)
    && (s.hunkskip ==> s.errors > 0 && s.srcname.None?)
    && (s.hunkskip || s.hunkhead || s.filenames) && !(s.hunkhead && s.filenames)
    && (s.filenames ==> s.srcname.Some? || IsOldName(line))
    && (!s.filenames ==> s.srcname.None?)
    && (s.hunkhead ==> s.p.value.hunks == [] || IsHead(line))
    && (s.hunkskip && s.hunkhead ==> IsHead(line))
    && (s.hunkskip && s.filenames ==> IsOldName(line))
  }

  lemma NamesModes(s: State, line: Line)
    requires Routable(s, line) && s.filenames && !s.hunkskip
    ensures Modes(NamesThenHead(s, line)) && Flags(NamesThenHead(s, line)) == 1
  {
  }

  lemma HeadModes(s: State, line: Line)
    requires Routable(s, line) && s.hunkhead && !s.hunkskip
    ensures Modes(HeadLine(s, line)) && Flags(HeadLine(s, line)) == 1
  {
  }

  lemma RouteModes(s: State, line: Line)
    requires Routable(s, line)
    ensures Modes(Route(s, line)) && Flags(Route(s, line)) == 1
  {
    if IsHead(line) {
      HeadStartsWithAt(line);
    }
    var b := SkipLine(s, line);
    if b.filenames {
      NamesModes(b, line);
    } else if b.hunkhead {
      HeadModes(b, line);
    }
  }

  lemma DispatchBodyModes(s: State, line: Line)
    requires Modes(s) && s.hunkbody && IsLine(line)
    ensures Modes(Dispatch(s, line))
  {
    BodyModes(s, line);
    var a := BodyLine(s, line);
    if a.hunkskip && !a.hunkparsed {
      RouteModes(a, Expand(line));
    }
  }

  lemma EnterModes(s: State, line: Line)
    requires Modes(s) && !s.hunkbody
    ensures var e := Enter(s, line);
      if e.headscan && !IsOldName(line) then Modes(Scan(e, line)) else Routable(LeaveHeader(e), line)
  {
  }

  lemma StepIsDispatch(s: State, line: Line)
    requires Modes(s) && (s.hunkbody || !Enter(s, line).headscan || IsOldName(line))
    ensures Step(s, line) == Dispatch(LeaveHeader(Enter(s, line)), line)
    ensures s.hunkbody ==> LeaveHeader(Enter(s, line)) == s
  {
  }

  /** One more line of any file keeps the modes in order, and a second flag does not outlast
      the cycle after the one that set it: the next line is the last of that cycle, or the
      header loop goes on. */
  lemma StepModes(s: State, line: Line)
    requires Modes(s) && IsLine(line)
    ensures Modes(Step(s, line))
    ensures Flags(s) == 2 ==> Step(s, line).scanning || Flags(Step(s, line)) == 1
  {
    if s.hunkbody {
      StepIsDispatch(s, line);
      DispatchBodyModes(s, line);
    } else {
      EnterModes(s, line);
      if !Enter(s, line).headscan || IsOldName(line) {
        StepIsDispatch(s, line);
        RouteModes(LeaveHeader(Enter(s, line)), line);
      }
    }
  }

  /** For every patch file and every line of it: one mode at a time, the names and the hunk
      list that go with it, and no branch the source calls unreachable. Two flags between
      cycles mean an invalid line under a `-0,0 +0,0` head, and are one again when the next
      cycle is over. */
  lemma {:induction false} AlwaysOneMode(lines: seq<Line>)
    requires forall i :: 0 <= i < |lines| ==> IsLine(lines[i])
    ensures Modes(Run(START, lines))
    ensures lines != [] && Flags(Run(START, lines[..|lines| - 1])) == 2 ==>
      Run(START, lines).scanning || Flags(Run(START, lines)) == 1
  {
    if lines != [] {
      AlwaysOneMode(lines[..|lines| - 1]);
      StepModes(Run(START, lines[..|lines| - 1]), lines[|lines| - 1]);
    }
  }
}
