/** The two nested loops of `PatchSet.parse`, proved to take one step per line. */
module PatchParser {
  import opened Lines
  import opened ParserSteps
  import opened ParserModes

  predicate Linked(a: State, line: Line, b: State) {
    Safe(a) && Modes(a) && b == Step(a, line)
  }

  /** The states between the lines of a file. */
  ghost predicate IsTrace(stream: seq<Line>, trace: seq<State>) {
    && |trace| == |stream| + 1
    && trace[0] == START
    && (forall k :: 0 <= k <= |stream| ==> Safe(trace[k]))
    && forall k {:trigger Linked(trace[k], stream[k], trace[k + 1])} ::
         0 <= k < |stream| ==> Linked(trace[k], stream[k], trace[k + 1])
  }

  lemma {:induction false} TraceOf(stream: seq<Line>) returns (trace: seq<State>)
    requires forall i :: 0 <= i < |stream| ==> IsLine(stream[i])
    ensures IsTrace(stream, trace) && trace[|stream|] == Run(START, stream)
  {
    if stream == [] {
      trace := [START];
    } else {
      var n := |stream| - 1;
      var before := TraceOf(stream[..n]);
      trace := before + [Run(START, stream)];
      AlwaysOneMode(stream[..n]);
      forall k | 0 <= k < |stream|
        ensures Linked(trace[k], stream[k], trace[k + 1])
      {
        if k < n {
          assert Linked(before[k], stream[..n][k], before[k + 1]);
        }
      }
    }
  }

  /** A header line is kept, and the header loop goes on. */
  lemma ScanStep(stream: seq<Line>, trace: seq<State>, at: nat, s: State)
    requires IsTrace(stream, trace) && at < |stream| && s == Enter(trace[at], stream[at])
    requires s.headscan && !IsOldName(stream[at])
    ensures Scan(s, stream[at]) == trace[at + 1]
    ensures at + 1 < |stream| ==> Scan(s, stream[at]) == Enter(trace[at + 1], stream[at + 1])
  {
    assert Linked(trace[at], stream[at], trace[at + 1]);
  }

  /** The blocks after the header loop complete the step of this line. */
  lemma CycleStep(stream: seq<Line>, trace: seq<State>, at: nat, s: State)
    requires IsTrace(stream, trace) && at < |stream|
    requires s == LeaveHeader(Enter(trace[at], stream[at]))
    requires Enter(trace[at], stream[at]).headscan ==> IsOldName(stream[at])
    ensures Dispatch(s, stream[at]) == trace[at + 1] && !trace[at + 1].scanning
  {
    assert Linked(trace[at], stream[at], trace[at + 1]);
  }

  /** The header loop: it hands on a `--- ` line, or comes to the end of the file. */
  method ReadHeader(stream: seq<Line>, first: nat, s0: State, ghost trace: seq<State>)
      returns (s: State, at: nat, exhausted: bool)
    requires IsTrace(stream, trace) && first < |stream| && s0.headscan
    requires s0 == Enter(trace[first], stream[first])
    ensures first <= at < |stream|
    ensures exhausted ==> at == |stream| - 1 && s == EndOfHeader(trace[|stream|])
    ensures !exhausted ==>
      && IsOldName(stream[at]) && Enter(trace[at], stream[at]).headscan
      && s == LeaveHeader(Enter(trace[at], stream[at]))
  {
    s, at, exhausted := s0, first, false;
    while !exhausted && !IsOldName(stream[at])
      invariant first <= at < |stream| && s.headscan && Safe(s)
      invariant !exhausted ==> s == Enter(trace[at], stream[at])
      invariant exhausted ==> at == |stream| - 1 && s.scanning && s == trace[|stream|]
      decreases |stream| - at, !exhausted
    {
      ScanStep(stream, trace, at, s);
      s := Scan(s, stream[at]);
      if at + 1 < |stream| {
        at := at + 1;
      } else {
        exhausted := true;
      }
    }
    if !exhausted {
      s := LeaveHeader(s);
    } else if s.p.None? {
      s := s.(errors := s.errors + 1);
    } else {
      s := s.(warnings := s.warnings + 1);
    }
  }

  /** Before line `next`, or at the end of the file. */
  ghost predicate Reached(stream: seq<Line>, trace: seq<State>, next: nat, s: State)
    requires IsTrace(stream, trace)
  {
    next <= |stream| && if next < |stream| then s == trace[next] && !s.scanning else s == EndOfHeader(trace[next])
  }

  lemma LineDone(stream: seq<Line>, trace: seq<State>, next: nat, s: State)
    requires IsTrace(stream, trace) && next <= |stream| && s == trace[next] && !s.scanning
    ensures Reached(stream, trace, next, s)
  {
  }

  /** One cycle of the main loop. */
  method Cycle(stream: seq<Line>, next: nat, s0: State, ghost trace: seq<State>) returns (s: State, after: nat)
    requires IsTrace(stream, trace) && next < |stream| && Reached(stream, trace, next, s0)
    ensures next < after && Reached(stream, trace, after, s)
  {
    var at := next;
    s := Decide(s0, stream[at]);
    var exhausted := false;
    if s.headscan {
      s, at, exhausted := ReadHeader(stream, at, s, trace);
    }
    if !exhausted {
      CycleStep(stream, trace, at, s);
      s := Dispatch(s, stream[at]);
      LineDone(stream, trace, at + 1, s);
    }
    after := at + 1;
  }

  /** The main loop. */
  method Parse(stream: seq<Line>) returns (o: Outcome)
    requires forall i :: 0 <= i < |stream| ==> IsLine(stream[i])
    ensures o == ParseLines(stream)
  {
    ghost var trace := TraceOf(stream);
    var s := START;
    var next := 0;
    while next < |stream|
      invariant Reached(stream, trace, next, s)
    {
      s, next := Cycle(stream, next, s, trace);
    }
    o := Finish(s);
  }
}
