/** A patch file that parses without errors yields well-formed patches. */
module ParserSound {
  import opened Lines
  import opened Hunks
  import opened HunkHead
  import opened ParserSteps
  import opened ParserModes

  // ---------- names ----------

  /** A name that survives being printed on a line and read again. */
  predicate CleanName(n: Bytes) {
    (forall i :: 0 <= i < |n| ==> n[i] != TAB && n[i] != LF) && Strip(n) == n
  }

  lemma {:induction false} UpToTabIs(s: Bytes)
    ensures UpToTab(s) <= s && TAB !in UpToTab(s)
  {
    if s != [] && s[0] != TAB {
      UpToTabIs(s[1..]);
    }
  }

  lemma {:induction false} StripRightIs(s: Bytes)
    ensures var r := StripRight(s);
      && r <= s && (r != [] ==> !IsSpace(r[|r| - 1]))
      && (|r| < |s| ==> IsSpace(s[|s| - 1]))
  {
    if s != [] && IsSpace(s[|s| - 1]) {
      StripRightIs(s[..|s| - 1]);
    }
  }

  lemma {:induction false} StripLeftIs(s: Bytes)
    ensures var r := StripLeft(s);
      && |r| <= |s| && r == s[|s| - |r|..] && (r != [] ==> !IsSpace(r[0]))
  {
    if s != [] && IsSpace(s[0]) {
      StripLeftIs(s[1..]);
    }
  }

  /** Stripping a text whose only LF can be its last byte gives a name without LF. */
  lemma StripIsClean(s: Bytes)
    requires TAB !in s && forall i :: 0 <= i < |s| - 1 ==> s[i] != LF
    ensures CleanName(Strip(s))
  {
    var l := StripLeft(s);
    var r := StripRight(l);
    StripLeftIs(s);
    StripRightIs(l);
    forall i | 0 <= i < |r|
      ensures r[i] != TAB && r[i] != LF
    {
      assert r[i] == s[|s| - |l| + i];
      if i == |r| - 1 {
        assert IsSpace(LF);
      }
    }
    assert r != [] ==> r[0] == l[0];
  }

  lemma FileNameIsClean(line: Line)
    requires |line| >= 4 && IsLine(line)
    ensures FileName(line).Some? ==> CleanName(FileName(line).value)
  {
    var s := line[4..];
    UpToTabIs(s);
    assert forall i :: 0 <= i < |UpToTab(s)| ==> UpToTab(s)[i] == line[4 + i];
    StripIsClean(UpToTab(s));
  }

  // ---------- well-formed patches ----------

  predicate HeaderLines(header: seq<Line>) {
    forall i :: 0 <= i < |header| ==> IsLine(header[i]) && !IsOldName(header[i])
  }

  predicate EndedLines(header: seq<Line>) {
    forall i :: 0 <= i < |header| ==> EndsLf(header[i])
  }

  /** Between two patches the first line is not taken for another hunk. */
  predicate GoodHeader(header: seq<Line>, first: bool) {
    HeaderLines(header) && EndedLines(header) && (first || header == [] || !IsHead(header[0]))
  }

  predicate Named(p: Patch, first: bool) {
    p.source.Some? && CleanName(p.source.value) && CleanName(p.target) && GoodHeader(p.header, first)
  }

  predicate GoodHunks(hs: seq<Hunk>) {
    forall i :: 0 <= i < |hs| ==> ClosedHunk(hs[i])
  }

  predicate GoodPatch(p: Patch, first: bool) {
    Named(p, first) && p.hunks != [] && GoodHunks(p.hunks)
  }

  predicate GoodPatches(items: seq<Patch>) {
    forall i :: 0 <= i < |items| ==> GoodPatch(items[i], i == 0)
  }

  // ---------- the invariant of an error-free run ----------

  predicate Sound(s: State) {
    && GoodPatches(s.items)
    && (s.p.None? ==> s.items == [])
    && (s.p.Some? ==>
          && Named(s.p.value, s.items == []) && GoodHunks(s.p.value.hunks)
          && (s.hunkhead || s.hunkbody || s.p.value.hunks != []))
    && (s.srcname.Some? ==> CleanName(s.srcname.value))
    && HeaderLines(s.header)
    && (s.p.Some? && s.header != [] ==> !IsHead(s.header[0]))
    && (s.hunkhead || s.hunkbody || s.hunkparsed ==> s.header == [])
    && (s.scanning ==> s.header != [])
    && (s.headscan && !s.scanning ==> s.p.None? && s.header == [])
  }

  /** The hunk after one more line, if the exit conditions accept it. */
  lemma TakenHunk(h: Hunk, l: Line)
    requires OpenHunk(h) && IsLine(l) && IsHunkLine(l)
    ensures var t := h.(text := h.text + [l]);
      |SourceLines(t.text)| == h.linessrc && |TargetLines(t.text)| == h.linestgt ==> ClosedHunk(t)
  {
    TakeKeepsOpen(h, l);
  }

  lemma CloseIsGood(s: State, line: Line)
    requires Modes(s) && s.hunkbody && IsLine(line) && Sound(s)
    requires BodyLine(s, line).errors == 0
    ensures Sound(BodyLine(s, line)) && !BodyLine(s, line).hunkskip
  {
    var l := Expand(line);
    ExpandIsLine(line);
    SourceAppend(s.hunk.text, l);
    TargetAppend(s.hunk.text, l);
    if IsHunkLine(l) {
      TakenHunk(s.hunk, l);
    }
  }

  lemma NamesSound(s: State, line: Line)
    requires Routable(s, line) && s.filenames && !s.hunkskip && IsLine(line) && Sound(s) && EndedLines(s.header)
    requires NamesThenHead(s, line).errors == 0
    ensures Sound(NamesThenHead(s, line))
  {
    if |line| >= 4 {
      FileNameIsClean(line);
    }
  }

  lemma HeadSound(s: State, line: Line)
    requires Routable(s, line) && s.hunkhead && !s.hunkskip && Sound(s)
    requires HeadLine(s, line).errors == 0
    ensures Sound(HeadLine(s, line))
  {
  }

  lemma EnterSound(s: State, line: Line)
    requires Modes(s) && !s.hunkbody && Sound(s) && s.errors == 0 && IsLine(line)
    ensures var e := Enter(s, line);
      if e.headscan && !IsOldName(line) then Sound(Scan(e, line)) else Sound(LeaveHeader(e))
  {
  }

  predicate Good(s: State) {
    Modes(s) && (s.errors == 0 ==> Sound(s))
  }

  lemma BodySound(s: State, line: Line)
    requires Good(s) && s.hunkbody && IsLine(line) && Step(s, line).errors == 0
    ensures Sound(Step(s, line)) && Step(s, line).header == s.header
  {
    StepIsDispatch(s, line);
    CloseIsGood(s, line);
  }

  lemma RestSound(s: State, line: Line)
    requires Good(s) && !s.hunkbody && EndedLines(s.header) && IsLine(line) && Step(s, line).errors == 0
    ensures Sound(Step(s, line))
    ensures EndsLf(line) ==> EndedLines(Step(s, line).header)
  {
    EnterModes(s, line);
    EnterSound(s, line);
    if !Enter(s, line).headscan || IsOldName(line) {
      StepIsDispatch(s, line);
      var e := LeaveHeader(Enter(s, line));
      if e.filenames {
        NamesSound(e, line);
      } else {
        HeadSound(e, line);
      }
    }
  }

  lemma StepGood(s: State, line: Line)
    requires Good(s) && EndedLines(s.header) && IsLine(line)
    ensures Good(Step(s, line))
    ensures Step(s, line).errors == 0 && EndsLf(line) ==> EndedLines(Step(s, line).header)
  {
    StepModes(s, line);
    if Step(s, line).errors == 0 {
      if s.hunkbody {
        BodySound(s, line);
      } else {
        RestSound(s, line);
      }
    }
  }

  lemma {:induction false} RunGood(lines: seq<Line>)
    requires IsFile(lines)
    ensures Good(Run(START, lines))
    ensures Run(START, lines).errors == 0 && IsLfFile(lines) ==> EndedLines(Run(START, lines).header)
  {
    if lines != [] {
      var before := lines[..|lines| - 1];
      RunGood(before);
      assert forall i :: 0 <= i < |before| ==> EndsLf(lines[i]);
      if Run(START, before).errors == 0 {
        StepGood(Run(START, before), lines[|lines| - 1]);
      } else {
        StepModes(Run(START, before), lines[|lines| - 1]);
      }
    }
  }

  /** Whatever file is parsed: success means at least one patch, and every patch has a
      source, a target and at least one hunk, all of them valid, with texts that reach the
      counts of their heads exactly at the last line. */
  lemma SuccessIsWellFormed(lines: seq<Line>)
    requires IsFile(lines)
    ensures ParseLines(lines).success ==>
      ParseLines(lines).items != [] && GoodPatches(ParseLines(lines).items) && ParseLines(lines).errors == 0
  {
    if ParseLines(lines).success {
      RunGood(lines);
    }
  }
}
