/** `_match_file_hunks`: does the file already hold the target side of the hunks? */
module Matcher {
  import opened Lines
  import opened Hunks
  import opened PatchStream
  import opened PatchTheorems
  import opened LineEnds
  import opened Revert

  /** Lines of the hunk text that are compared: everything that is not removed. */
  function Compared(text: seq<Line>): seq<Bytes> {
    if text == [] then []
    else (if IsMinus(text[0]) then [] else [StripEol(Body(text[0]))]) + Compared(text[1..])
  }

  /** Each line but the removed ones is compared, markers too, without its first byte and its line end. */
  lemma {:induction false} ComparedNext(text: seq<Line>, l: Line)
    ensures Compared(text + [l]) == Compared(text) + if [45] <= l then [] else [StripEol(Body(l))]
  {
    if text == [] {
      assert text + [l] == [l] && [l][1..] == [];
    } else {
      ComparedNext(text[1..], l);
      assert (text + [l])[1..] == text[1..] + [l] && (text + [l])[0] == text[0];
    }
  }

  /** Without markers these are the target lines. */
  lemma {:induction false} ComparedIsNew(text: seq<Line>)
    requires KnownText(text) && !HasMarker(text)
    ensures Compared(text) == StripAll(TargetLines(text))
  {
    if text != [] {
      assert forall i :: 0 <= i < |text[1..]| ==> text[1..][i] == text[i + 1];
      assert !IsNoNewline(text[0]);
      ComparedIsNew(text[1..]);
      if !IsMinus(text[0]) {
        StripAllCons(Body(text[0]), TargetLines(text[1..]));
      } else {
        assert TargetLines(text) == TargetLines(text[1..]);
      }
    }
  }

  /** Where the scan looks for a hunk when `pos` lines have been compared or passed. */
  function Place(pos: nat, starttgt: nat): nat {
    if pos < Index(starttgt) then Index(starttgt) else pos
  }

  /** The scan as a function of the lines not yet compared. */
  predicate Found(s: seq<Bytes>, pos: nat, hs: seq<Hunk>)
    decreases hs
  {
    hs == [] || (
      var at := Place(pos, hs[0].starttgt);
      && Stands(s, at, Compared(hs[0].text))
      && Found(s, at + |Compared(hs[0].text)|, hs[1..]))
  }

  lemma StandsNext(s: seq<Bytes>, at: nat, ls: seq<Bytes>)
    requires ls != []
    ensures Stands(s, at, ls) <==> at < |s| && s[at] == ls[0] && Stands(s, at + 1, ls[1..])
  {
    if at + |ls| <= |s| {
      assert s[at..at + |ls|] == [s[at]] + s[at + 1..at + |ls|];
      assert ls == [ls[0]] + ls[1..];
      if s[at..at + |ls|] == ls {
        assert s[at + 1..at + |ls|] == ls[1..];
      }
    }
  }

  /** Reads on to the first target line of a hunk; fails at the end of the file. */
  method SkipToTarget(file: seq<Line>, lineno0: nat, starttgt: nat) returns (lineno: nat, ok: bool)
    requires IsFile(file) && 1 <= lineno0 <= |file| + 1
    ensures ok <==> Index(starttgt) <= |file|
    ensures ok ==> lineno - 1 == Place(lineno0 - 1, starttgt)
    ensures 1 <= lineno <= |file| + 1
  {
    lineno := lineno0;
    var line := LineAt(file, lineno - 1);
    while lineno < starttgt
      invariant lineno0 <= lineno <= |file| + 1 && line == LineAt(file, lineno - 1)
      invariant lineno == lineno0 || lineno <= starttgt
    {
      if |line| == 0 {
        return lineno, false;
      }
      line := LineAt(file, lineno);
      lineno := lineno + 1;
    }
    ok := true;
  }

  /** The comparison of one hunk, line by line. */
  predicate TextStands(file: seq<Line>, at: nat, text: seq<Line>)
    decreases text
  {
    if text == [] then at <= |file|
    else if IsMinus(text[0]) then TextStands(file, at, text[1..])
    else
      && at < |file|
      && StripEol(file[at]) == StripEol(Body(text[0]))
      && TextStands(file, at + 1, text[1..])
  }

  lemma {:induction false} TextStandsMeaning(file: seq<Line>, at: nat, text: seq<Line>)
    ensures TextStands(file, at, text) <==> Stands(StripAll(file), at, Compared(text))
    decreases text
  {
    if text == [] {
    } else if IsMinus(text[0]) {
      TextStandsMeaning(file, at, text[1..]);
      assert Compared(text) == Compared(text[1..]);
    } else {
      TextStandsMeaning(file, at + 1, text[1..]);
      assert Compared(text)[1..] == Compared(text[1..]);
      StandsNext(StripAll(file), at, Compared(text));
      if at < |file| {
        StripAllAt(file, at);
      }
    }
  }

  method CompareHunk(file: seq<Line>, lineno0: nat, text: seq<Line>) returns (lineno: nat, ok: bool)
    requires IsFile(file) && 1 <= lineno0 <= |file| + 1
    ensures ok <==> TextStands(file, lineno0 - 1, text)
    ensures ok ==> lineno == lineno0 + |Compared(text)| <= |file| + 1
  {
    lineno := lineno0;
    var line := LineAt(file, lineno - 1);
    var k := 0;
    while k < |text|
      invariant k <= |text| && lineno0 <= lineno <= |file| + 1 && line == LineAt(file, lineno - 1)
      invariant TextStands(file, lineno0 - 1, text) == TextStands(file, lineno - 1, text[k..])
      invariant lineno + |Compared(text[k..])| == lineno0 + |Compared(text)|
    {
      var hline := text[k];
      assert text[k..][0] == hline && text[k..][1..] == text[k + 1..];
      if !IsMinus(hline) {
        if |line| == 0 {
          return lineno, false;
        }
        if StripEol(line) != StripEol(Body(hline)) {
          return lineno, false;
        }
        line := LineAt(file, lineno);
        lineno := lineno + 1;
      }
      k := k + 1;
    }
    ok := true;
  }

  /** What the scan decides for one hunk. */
  lemma HunkFound(file: seq<Line>, s: seq<Bytes>, pos: nat, hs: seq<Hunk>, i: nat, rest: seq<Hunk>, at: nat, next: nat)
    requires i < |hs| && rest == hs[i..] && at == Place(pos, hs[i].starttgt) && s == StripAll(file)
    requires next == at + |Compared(hs[i].text)|
    ensures rest[1..] == hs[i + 1..]
    ensures Found(s, pos, rest) <==>
      TextStands(file, at, hs[i].text) && Found(s, next, rest[1..])
  {
    TextStandsMeaning(file, at, hs[i].text);
  }

  lemma {:induction false} StandsInside(file: seq<Line>, at: nat, text: seq<Line>)
    requires TextStands(file, at, text)
    ensures at <= |file|
    decreases text
  {
    if text != [] && IsMinus(text[0]) {
      StandsInside(file, at, text[1..]);
    }
  }

  /** One round of the loop: the next hunk stands where the scan looks for it. */
  method MatchHunk(file: seq<Line>, lineno0: nat, h: Hunk) returns (lineno: nat, ok: bool)
    requires IsFile(file) && 1 <= lineno0 <= |file| + 1
    ensures var at := Place(lineno0 - 1, h.starttgt);
      && (ok <==> TextStands(file, at, h.text))
      && (ok ==> lineno == at + 1 + |Compared(h.text)| <= |file| + 1)
  {
    lineno, ok := SkipToTarget(file, lineno0, h.starttgt);
    if ok {
      lineno, ok := CompareHunk(file, lineno, h.text);
    } else if TextStands(file, Index(h.starttgt), h.text) {
      StandsInside(file, Index(h.starttgt), h.text);
    }
  }

  method MatchFileHunks(file: seq<Line>, hunks: seq<Hunk>) returns (matched: bool)
    requires IsFile(file)
    ensures matched == Found(StripAll(file), 0, hunks)
  {
    ghost var s := StripAll(file);
    ghost var answer := Found(s, 0, hunks);
    ghost var pos: nat, rest := 0, hunks;
    var lineno := 1;
    var hno := 0;
    while hno < |hunks|
      invariant hno <= |hunks| && lineno == pos + 1 <= |file| + 1
      invariant rest == hunks[hno..] && answer == Found(s, pos, rest)
    {
      ghost var at := Place(pos, hunks[hno].starttgt);
      ghost var next := at + |Compared(hunks[hno].text)|;
      HunkFound(file, s, pos, hunks, hno, rest, at, next);
      var ok;
      lineno, ok := MatchHunk(file, lineno, hunks[hno]);
      if !ok {
        return false;
      }
      pos, rest := next, rest[1..];
      hno := hno + 1;
    }
    matched := true;
  }

  // ---------- what the answer means ----------

  predicate TargetOrdered(q: nat, hs: seq<Hunk>)
    decreases hs
  {
    hs == [] || (
      && q <= Index(hs[0].starttgt)
      && TargetOrdered(Index(hs[0].starttgt) + |Compared(hs[0].text)|, hs[1..]))
  }

  /** The compared lines of every hunk stand at its target start. */
  predicate ComparedStand(s: seq<Bytes>, hs: seq<Hunk>) {
    forall i :: 0 <= i < |hs| ==> Stands(s, Index(hs[i].starttgt), Compared(hs[i].text))
  }

  lemma ComparedStandSplit(s: seq<Bytes>, hs: seq<Hunk>)
    requires hs != []
    ensures ComparedStand(s, hs) <==>
      Stands(s, Index(hs[0].starttgt), Compared(hs[0].text)) && ComparedStand(s, hs[1..])
  {
    assert forall i :: 1 <= i < |hs| ==> hs[i] == hs[1..][i - 1];
  }

  /** For hunks whose targets are ordered and disjoint, the scan succeeds exactly when the
      compared lines of every hunk stand at its target start. */
  lemma {:induction false} FoundMeaning(s: seq<Bytes>, q: nat, hs: seq<Hunk>)
    requires TargetOrdered(q, hs)
    ensures Found(s, q, hs) <==> ComparedStand(s, hs)
    decreases hs
  {
    if hs != [] {
      FoundMeaning(s, Index(hs[0].starttgt) + |Compared(hs[0].text)|, hs[1..]);
      ComparedStandSplit(s, hs);
    }
  }

  predicate NoMarkers(hs: seq<Hunk>) {
    forall i :: 0 <= i < |hs| ==> !HasMarker(hs[i].text)
  }

  lemma {:induction false} FitsOrdersTargets(n: nat, p: nat, q: nat, hs: seq<Hunk>)
    requires Fits(n, p, hs) && Aligned(p, q, hs) && NoMarkers(hs)
    ensures TargetOrdered(q, hs)
    ensures forall i :: 0 <= i < |hs| ==> Compared(hs[i].text) == New(hs[i])
    decreases hs
  {
    if hs != [] {
      ComparedIsNew(hs[0].text);
      assert forall i :: 0 <= i < |hs[1..]| ==> hs[1..][i] == hs[i + 1];
      FitsOrdersTargets(n, Index(hs[0].startsrc) + hs[0].linessrc, Index(hs[0].starttgt) + hs[0].linestgt, hs[1..]);
      assert forall i :: 1 <= i < |hs| ==> hs[i] == hs[1..][i - 1];
    }
  }

  /** The detector accepts a file exactly when all target lines stand at their places. */
  lemma DetectorMeaning(s: seq<Bytes>, n: nat, hs: seq<Hunk>)
    requires Fits(n, 0, hs) && Aligned(0, 0, hs) && NoMarkers(hs)
    ensures Found(s, 0, hs) <==> NewStands(s, hs)
  {
    FitsOrdersTargets(n, 0, 0, hs);
    FoundMeaning(s, 0, hs);
  }

  lemma {:induction false} PatchedHoldsTargets(s: seq<Bytes>, t: seq<Bytes>, p: nat, q: nat, hs: seq<Hunk>)
    requires Fits(|s|, p, hs) && Aligned(p, q, hs) && q <= |t| && t[q..] == Rest(s, p, hs)
    ensures NewStands(t, hs)
    decreases hs
  {
    if hs != [] {
      var h := hs[0];
      var at, bt := Index(h.startsrc), Index(h.starttgt);
      var rest := Rest(s, at + h.linessrc, hs[1..]);
      RestSegments(t, q, s[p..at], New(h), rest);
      PatchedHoldsTargets(s, t, at + h.linessrc, bt + h.linestgt, hs[1..]);
      assert forall i :: 1 <= i < |hs| ==> hs[i] == hs[1..][i - 1];
    }
  }

  lemma RestSegments(t: seq<Bytes>, q: nat, a: seq<Bytes>, b: seq<Bytes>, c: seq<Bytes>)
    requires q <= |t| && t[q..] == a + b + c
    ensures Stands(t, q + |a|, b) && t[q + |a| + |b|..] == c
  {
    assert t[q + |a|..q + |a| + |b|] == t[q..][|a|..|a| + |b|];
    assert t[q + |a| + |b|..] == t[q..][|a| + |b|..];
  }

  /** The detector accepts every file the patcher has written, whether or not the source
      matched the hunks. */
  lemma DetectorAcceptsPatched(src: seq<Line>, hs: seq<Hunk>)
    requires IsLfFile(src) && LfText(hs)
    requires Fits(|src|, 0, hs) && Aligned(0, 0, hs) && NoMarkers(hs)
    ensures Found(StripAll(WrittenAndRead(Patched(src, 0, hs))), 0, hs)
  {
    var out := Patched(src, 0, hs);
    FitsInside(|src|, 0, hs);
    PatchedLf(src, 0, hs);
    SplitJoin(out);
    NoMarkersHarmless(|src|, 0, hs);
    PatchedIsText(src, 0, 0, hs);
    TextIsRest(StripAll(src), 0, 0, hs);
    PatchedHoldsTargets(StripAll(src), StripAll(out), 0, 0, hs);
    DetectorMeaning(StripAll(out), |src|, hs);
  }
}
