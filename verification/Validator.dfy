/** The check `apply` runs over the source file before it patches. */
module Validator {
  import opened Lines
  import opened Hunks

  /** Source ranges in order and disjoint. */
  predicate SourceOrdered(hs: seq<Hunk>) {
    forall i :: 0 <= i < |hs| - 1 ==> Index(hs[i].startsrc) + hs[i].linessrc <= Index(hs[i + 1].startsrc)
  }

  /** One hunk that inserts into an empty file. */
  predicate NewFile(hs: seq<Hunk>) {
    |hs| == 1 && hs[0].startsrc == 0 && hs[0].linessrc == 0
  }

  predicate HasSource(h: Hunk) {
    h.startsrc >= 1 && h.linessrc >= 1
  }

  // ---------- the loop, line by line, for any hunks ----------

  datatype Verdict = Waiting | Refuted | Complete | IndexError

  datatype Comparison = Comparison(find: seq<Bytes>, at: nat, verdict: Verdict)

  /** One line of the file against the current hunk. The lines that are looked for stay those
      of an earlier hunk when this one starts too early; then the index may run out of range. */
  function CompareLine(line: Bytes, lineno: nat, h: Hunk, find: seq<Bytes>, at: nat): Comparison {
    if lineno + 1 < h.startsrc then Comparison(find, at, Waiting)
    else
      var find' := if lineno + 1 == h.startsrc then Old(h) else find;
      var at' := if lineno + 1 == h.startsrc then 0 else at;
      if lineno + 1 < h.startsrc + |find'| - 1 then
        if at' >= |find'| then Comparison(find', at', IndexError)
        else if line == find'[at'] then Comparison(find', at' + 1, Waiting)
        else Comparison(find', at', Refuted)
      else Comparison(find', at', if lineno + 1 == h.startsrc + |find'| - 1 then Complete else Waiting)
  }

  /** The loop between two lines, after a `break`, or left by an exception. */
  datatype Progress =
    | Checking(hunkno: nat, find: seq<Bytes>, at: nat, valid: nat)
    | Stopped(valid: nat, canpatch: bool)
    | Raised

  function HunkAt(hs: seq<Hunk>, hunkno: nat): Hunk
    requires hs != []
  {
    hs[if hunkno < |hs| then hunkno else |hs| - 1]
  }

  /** What the loop does after one comparison, with `total` hunks. */
  function Moved(c: Comparison, no: nat, valid: nat, total: nat): Progress {
    match c.verdict
    case IndexError => Raised
    case Waiting => Checking(no, c.find, c.at, valid)
    case Refuted => if no + 1 < total then Checking(no + 1, c.find, c.at, valid) else Stopped(valid, false)
    case Complete =>
      if no + 1 < total || valid + 1 != total then Checking(no + 1, c.find, c.at, valid + 1)
      else Stopped(valid + 1, true)
  }

  function CheckStep(line: Bytes, lineno: nat, hs: seq<Hunk>, p: Progress): Progress
    requires hs != []
  {
    match p
    case Checking(no, find, at, valid) =>
      Moved(CompareLine(line, lineno, HunkAt(hs, no), find, at), no, valid, |hs|)
    case _ => p
  }

  function CheckLines(s: seq<Bytes>, n: nat, hs: seq<Hunk>): Progress
    requires hs != [] && n <= |s|
  {
    if n == 0 then Checking(0, [], 0, 0) else CheckStep(s[n - 1], n - 1, hs, CheckLines(s, n - 1, hs))
  }

  datatype Check = CheckRaises | Checked(valid: nat, canpatch: bool, errors: nat)

  /** The `else` of the loop: the file ended before the last hunk was done with. */
  function CheckEnd(hs: seq<Hunk>, p: Progress): Check
    requires hs != []
  {
    match p
    case Raised => CheckRaises
    case Stopped(valid, canpatch) => Checked(valid, canpatch, 0)
    case Checking(no, _, _, valid) =>
      var h := HunkAt(hs, no);
      if h.startsrc == 0 && h.linessrc == 0 && |hs| == 1 then Checked(1, true, 0)
      else Checked(valid, false, if no < |hs| then 1 else 0)
  }

  function CheckFile(s: seq<Bytes>, hs: seq<Hunk>): Check
    requires hs != []
  {
    CheckEnd(hs, CheckLines(s, |s|, hs))
  }

  method CompareWith(line: Line, lineno: nat, hunk: Hunk, find: seq<Bytes>, at: nat)
      returns (hunkfind: seq<Bytes>, hunklineno: nat, verdict: Verdict)
    ensures Comparison(hunkfind, hunklineno, verdict) == CompareLine(StripEol(line), lineno, hunk, find, at)
  {
    hunkfind, hunklineno, verdict := find, at, Waiting;
    if lineno + 1 < hunk.startsrc {
      return;
    } else if lineno + 1 == hunk.startsrc {
      hunkfind := Old(hunk);
      hunklineno := 0;
    }
    if lineno + 1 < hunk.startsrc + |hunkfind| - 1 {
      if hunklineno >= |hunkfind| {
        return hunkfind, hunklineno, IndexError;
      }
      if StripEol(line) == hunkfind[hunklineno] {
        hunklineno := hunklineno + 1;
      } else {
        return hunkfind, hunklineno, Refuted;
      }
    }
    if lineno + 1 == hunk.startsrc + |hunkfind| - 1 {
      verdict := Complete;
    }
  }

  /** For every file and every list of hunks, in order or not. */
  method Validate(file: seq<Line>, hunks: seq<Hunk>) returns (r: Check)
    requires hunks != []
    ensures r == CheckFile(StripAll(file), hunks)
  {
    ghost var s := StripAll(file);
    ghost var p := CheckLines(s, 0, hunks);
    var hunkno, hunkfind, hunklineno, validhunks, canpatch := 0, [], 0, 0, false;
    var hunk := hunks[0];
    var stopped := false;
    var lineno := 0;
    while lineno < |file| && !stopped
      invariant lineno <= |file| && hunk == HunkAt(hunks, hunkno) && (canpatch ==> stopped)
      invariant p == CheckLines(s, lineno, hunks)
      invariant p == if stopped then Stopped(validhunks, canpatch)
        else Checking(hunkno, hunkfind, hunklineno, validhunks)
    {
      var verdict;
      hunkfind, hunklineno, verdict := CompareWith(file[lineno], lineno, hunk, hunkfind, hunklineno);
      ghost var c := Comparison(hunkfind, hunklineno, verdict);
      p := NextLine(file, s, lineno, hunks, p, c);
      lineno := lineno + 1;
      if verdict == IndexError {
        LeftOrDone(s, lineno, hunks, p);
        return CheckRaises;
      }
      if verdict != Waiting {
        hunkno := hunkno + 1;
        validhunks := validhunks + if verdict == Complete then 1 else 0;
        if hunkno < |hunks| {
          hunk := hunks[hunkno];
        } else if verdict == Refuted || validhunks == |hunks| {
          canpatch := verdict == Complete;
          stopped := true;
        }
      }
    }
    LeftOrDone(s, lineno, hunks, p);
    if stopped {
      return Checked(validhunks, canpatch, 0);
    }
    if hunk.startsrc == 0 && hunk.linessrc == 0 && |hunks| == 1 {
      return Checked(1, true, 0);
    }
    r := Checked(validhunks, canpatch, if hunkno < |hunks| then 1 else 0);
  }

  /** Once left, the loop does nothing more. */
  lemma {:induction false} LeftStays(s: seq<Bytes>, n: nat, m: nat, hs: seq<Hunk>)
    requires hs != [] && n <= m <= |s| && !CheckLines(s, n, hs).Checking?
    ensures CheckLines(s, m, hs) == CheckLines(s, n, hs)
  {
    if n < m {
      LeftStays(s, n, m - 1, hs);
    }
  }

  lemma LeftOrDone(s: seq<Bytes>, n: nat, hs: seq<Hunk>, p: Progress)
    requires hs != [] && n <= |s| && p == CheckLines(s, n, hs) && (n == |s| || !p.Checking?)
    ensures CheckFile(s, hs) == CheckEnd(hs, p)
  {
    if !p.Checking? {
      LeftStays(s, n, |s|, hs);
    }
  }

  lemma NextLine(file: seq<Line>, s: seq<Bytes>, n: nat, hs: seq<Hunk>, before: Progress, c: Comparison)
      returns (p: Progress)
    requires hs != [] && n < |file| && s == StripAll(file) && before == CheckLines(s, n, hs) && before.Checking?
    requires c == CompareLine(StripEol(file[n]), n, HunkAt(hs, before.hunkno), before.find, before.at)
    ensures p == CheckLines(s, n + 1, hs) == Moved(c, before.hunkno, before.valid, |hs|)
  {
    StripAllAt(file, n);
    p := CheckLines(s, n + 1, hs);
  }

  // ---------- what it means for hunks in order ----------

  /** The file reaches the last source line of the hunk, and every source line but the last
      stands in the file. */
  predicate Checks(s: seq<Bytes>, h: Hunk) {
    && HasSource(h)
    && h.startsrc - 1 + h.linessrc <= |s|
    && forall k :: 0 <= k < h.linessrc - 1 && k < |Old(h)| ==> s[h.startsrc - 1 + k] == Old(h)[k]
  }

  /** A hunk that the check never leaves: no line of the file refutes it, none completes it. */
  predicate Pending(s: seq<Bytes>, h: Hunk) {
    !HasSource(h) || (
      && |s| < h.startsrc - 1 + h.linessrc
      && forall k :: 0 <= k < h.linessrc - 1 && k < |Old(h)| && h.startsrc - 1 + k < |s| ==>
           s[h.startsrc - 1 + k] == Old(h)[k])
  }

  /** Before file line `n` the hunk is untouched, or partly compared. */
  ghost predicate InHunk(s: seq<Bytes>, h: Hunk, n: nat, find: seq<Bytes>, at: nat) {
    || n <= h.startsrc - 1
    || (!HasSource(h) && find == [])
    || (&& HasSource(h) && n < h.startsrc - 1 + h.linessrc && n <= |s|
        && find == Old(h) && at == n - (h.startsrc - 1)
        && forall k :: 0 <= k < at && k < |Old(h)| ==> s[h.startsrc - 1 + k] == Old(h)[k])
  }

  /** Hunks before `no` are done with; they were all in order iff they were all counted. */
  ghost predicate Passed(s: seq<Bytes>, hs: seq<Hunk>, no: nat, valid: nat) {
    && valid <= no <= |hs|
    && (forall i :: 0 <= i < no ==> HasSource(hs[i]) && !Pending(s, hs[i]))
    && (valid == no ==> forall i :: 0 <= i < no ==> Checks(s, hs[i]))
    && (valid < no ==> exists i :: 0 <= i < no && !Checks(s, hs[i]))
  }

  /** The loop has left the hunk behind; this happens only after the last one. */
  ghost predicate Behind(h: Hunk, n: nat, find: seq<Bytes>) {
    HasSource(h) && find == Old(h) && h.startsrc - 1 + h.linessrc <= n
  }

  /** One line against a hunk that is in step. */
  lemma CompareMeaning(s: seq<Bytes>, n: nat, h: Hunk, find: seq<Bytes>, at: nat)
    requires n < |s| && Counted(h) && (InHunk(s, h, n, find, at) || Behind(h, n, find))
    ensures var c := CompareLine(s[n], n, h, find, at);
      && !c.verdict.IndexError?
      && (Behind(h, n, find) ==> c.verdict == Waiting && Behind(h, n + 1, c.find))
      && (c.verdict == Waiting && !Behind(h, n, find) ==> InHunk(s, h, n + 1, c.find, c.at))
      && (c.verdict == Refuted ==>
            HasSource(h) && !Checks(s, h) && !Pending(s, h) && n + 1 < h.startsrc - 1 + h.linessrc)
      && (c.verdict == Complete ==> Checks(s, h) && n + 1 == h.startsrc - 1 + h.linessrc && c.find == Old(h))
  {
  }

  /** Going on to the next hunk: it starts no earlier than the next line. */
  lemma PassHunk(s: seq<Bytes>, hs: seq<Hunk>, no: nat, valid: nat, n: nat, complete: bool)
    requires SourceOrdered(hs) && Passed(s, hs, no, valid) && no < |hs|
    requires HasSource(hs[no]) && !Pending(s, hs[no]) && n + 1 <= hs[no].startsrc - 1 + hs[no].linessrc
    requires complete <==> Checks(s, hs[no])
    ensures Passed(s, hs, no + 1, if complete then valid + 1 else valid)
    ensures no + 1 < |hs| ==> n + 1 <= hs[no + 1].startsrc - 1
  {
  }

  ghost predicate InOrder(s: seq<Bytes>, n: nat, hs: seq<Hunk>, p: Progress)
    requires hs != []
  {
    match p
    case Raised => false
    case Stopped(valid, canpatch) => Passed(s, hs, |hs|, valid) && canpatch == (valid == |hs|)
    case Checking(no, find, at, valid) =>
      && Passed(s, hs, no, valid)
      && if no < |hs| then InHunk(s, hs[no], n, find, at) else Behind(hs[|hs| - 1], n, find) && valid < |hs|
  }

  lemma PassedOn(s: seq<Bytes>, n: nat, hs: seq<Hunk>, no: nat, valid: nat, c: Comparison)
    requires no < |hs| && valid <= no && (c.verdict == Refuted || c.verdict == Complete)
    requires Passed(s, hs, no + 1, if c.verdict == Complete then valid + 1 else valid)
    requires no + 1 < |hs| ==> n <= hs[no + 1].startsrc - 1
    requires c.verdict == Complete ==> Behind(hs[no], n, c.find)
    ensures InOrder(s, n, hs, Moved(c, no, valid, |hs|))
  {
  }

  /** The step between two hunks, or after the last. */
  lemma PassInOrder(s: seq<Bytes>, n: nat, hs: seq<Hunk>, p: Progress, n': nat, p': Progress, c: Comparison)
    requires hs != [] && AllCounted(hs) && SourceOrdered(hs) && n' == n + 1 <= |s| && InOrder(s, n, hs, p)
    requires p.Checking? && p.hunkno < |hs| && c == CompareLine(s[n], n, hs[p.hunkno], p.find, p.at)
    requires p' == Moved(c, p.hunkno, p.valid, |hs|) && (c.verdict == Refuted || c.verdict == Complete)
    ensures InOrder(s, n', hs, p')
  {
    CompareMeaning(s, n, hs[p.hunkno], p.find, p.at);
    PassHunk(s, hs, p.hunkno, p.valid, n, c.verdict == Complete);
    PassedOn(s, n', hs, p.hunkno, p.valid, c);
  }

  lemma WaitInOrder(s: seq<Bytes>, n: nat, hs: seq<Hunk>, p: Progress, n': nat, p': Progress, c: Comparison)
    requires hs != [] && AllCounted(hs) && n' == n + 1 <= |s| && InOrder(s, n, hs, p)
    requires p.Checking? && c == CompareLine(s[n], n, HunkAt(hs, p.hunkno), p.find, p.at)
    requires c.verdict == Waiting && p' == Checking(p.hunkno, c.find, c.at, p.valid)
    ensures InOrder(s, n', hs, p')
  {
    CompareMeaning(s, n, HunkAt(hs, p.hunkno), p.find, p.at);
  }

  lemma StepInOrder(s: seq<Bytes>, n: nat, hs: seq<Hunk>, p: Progress, n': nat, p': Progress)
    requires hs != [] && AllCounted(hs) && SourceOrdered(hs) && n' == n + 1 <= |s| && InOrder(s, n, hs, p)
    requires p' == CheckStep(s[n], n, hs, p)
    ensures InOrder(s, n', hs, p')
  {
    if p.Checking? {
      var h := HunkAt(hs, p.hunkno);
      var c := CompareLine(s[n], n, h, p.find, p.at);
      CompareMeaning(s, n, h, p.find, p.at);
      if c.verdict == Waiting {
        WaitInOrder(s, n, hs, p, n', p', c);
      } else {
        PassInOrder(s, n, hs, p, n', p', c);
      }
    }
  }

  lemma {:induction false} LinesInOrder(s: seq<Bytes>, n: nat, hs: seq<Hunk>)
    requires hs != [] && AllCounted(hs) && SourceOrdered(hs) && n <= |s|
    ensures InOrder(s, n, hs, CheckLines(s, n, hs))
  {
    if n > 0 {
      var m := n - 1;
      var p, p' := CheckLines(s, m, hs), CheckLines(s, n, hs);
      LinesInOrder(s, m, hs);
      assert p' == CheckStep(s[m], m, hs, p);
      StepInOrder(s, m, hs, p, n, p');
    }
  }

  /** For hunks in order the check raises nothing. It lets the patch pass exactly when the
      patch creates a file or every hunk checks, whatever mismatches it meets on the way. */
  lemma CheckMeaning(s: seq<Bytes>, hs: seq<Hunk>)
    requires hs != [] && AllCounted(hs) && SourceOrdered(hs)
    ensures var r := CheckFile(s, hs);
      && r.Checked?
      && (r.canpatch <==> NewFile(hs) || forall i :: 0 <= i < |hs| ==> Checks(s, hs[i]))
      && (r.valid < |hs| <==> !r.canpatch)
      && r.errors == if !NewFile(hs) && exists i :: 0 <= i < |hs| && Pending(s, hs[i]) then 1 else 0
  {
    LinesInOrder(s, |s|, hs);
  }

  // ---------- hunks out of order ----------

  /** The loop without the lines: `len` lines are held, `at` of them are behind, and every
      comparison may go either way. Can it run out of range within `end` lines? */
  predicate MayRaise(hs: seq<Hunk>, no: nat, len: nat, at: nat, n: nat, end: nat)
    decreases end - n
  {
    no < |hs| && n < end &&
    var start := hs[no].startsrc;
    if n + 1 < start then MayRaise(hs, no, len, at, n + 1, end)
    else
      var len' := if n + 1 == start then |Old(hs[no])| else len;
      var at' := if n + 1 == start then 0 else at;
      if n + 1 < start + len' - 1 then
        at' >= len' || MayRaise(hs, no, len', at' + 1, n + 1, end) || MayRaise(hs, no + 1, len', at', n + 1, end)
      else MayRaise(hs, if n + 1 == start + len' - 1 then no + 1 else no, len', at', n + 1, end)
  }

  lemma {:induction false} SamePrefix(s: seq<Bytes>, t: seq<Bytes>, n: nat, hs: seq<Hunk>)
    requires hs != [] && n <= |s| && n <= |t| && s[..n] == t[..n]
    ensures CheckLines(s, n, hs) == CheckLines(t, n, hs)
  {
    if n > 0 {
      assert s[n - 1] == s[..n][n - 1] && t[n - 1] == t[..n][n - 1];
      assert s[..n - 1] == s[..n][..n - 1] && t[..n - 1] == t[..n][..n - 1];
      SamePrefix(s, t, n - 1, hs);
    }
  }

  lemma LastIsBehind(line: Bytes, n: nat, hs: seq<Hunk>, p: Progress, p': Progress)
    requires hs != [] && p.Checking? && p.hunkno < |hs| && p' == CheckStep(line, n, hs, p)
    requires p'.Checking? && p'.hunkno >= |hs|
    ensures hs[|hs| - 1].startsrc + |p'.find| - 1 <= n + 1 && hs[|hs| - 1].startsrc <= n + 1
  {
  }

  /** Behind its last hunk the loop only waits. */
  lemma {:induction false} AfterLast(s: seq<Bytes>, n: nat, m: nat, hs: seq<Hunk>)
    requires hs != [] && n <= m <= |s|
    requires var p := CheckLines(s, n, hs);
      p.Checking? && p.hunkno >= |hs| && hs[|hs| - 1].startsrc + |p.find| - 1 <= n && hs[|hs| - 1].startsrc <= n
    ensures CheckLines(s, m, hs) == CheckLines(s, n, hs)
  {
    if n < m {
      AfterLast(s, n, m - 1, hs);
    }
  }

  lemma StepWhereItMay(line: Bytes, n: nat, hs: seq<Hunk>, p: Progress, p': Progress, end: nat)
    requires hs != [] && n < end && p.Checking? && p.hunkno < |hs| && p' == CheckStep(line, n, hs, p)
    requires p'.Raised? || (p'.Checking? && MayRaise(hs, p'.hunkno, |p'.find|, p'.at, n + 1, end))
    ensures MayRaise(hs, p.hunkno, |p.find|, p.at, n, end)
  {
  }

  /** Whatever the lines are, the loop raises only where it may. */
  lemma {:induction false} RaisesWhereItMay(s: seq<Bytes>, n: nat, hs: seq<Hunk>, p: Progress)
    requires hs != [] && n <= |s| && p == CheckLines(s, n, hs) && p.Checking? && p.hunkno < |hs|
    requires CheckLines(s, |s|, hs).Raised?
    ensures MayRaise(hs, p.hunkno, |p.find|, p.at, n, |s|)
    decreases |s| - n
  {
    var n', p' := n + 1, CheckLines(s, n + 1, hs);
    assert p' == CheckStep(s[n], n, hs, p);
    if !p'.Checking? {
      LeftStays(s, n', |s|, hs);
    } else if p'.hunkno < |hs| {
      RaisesWhereItMay(s, n', hs, p');
    } else {
      LastIsBehind(s[n], n, hs, p, p');
      AfterLast(s, n', |s|, hs);
    }
    StepWhereItMay(s[n], n, hs, p, p', |s|);
  }

  function Other(line: Bytes): (r: Bytes)
    ensures r != line
  {
    line + [SPACE]
  }

  /** The line that takes the loop towards the exception. */
  function NextFor(hs: seq<Hunk>, p: Progress, n: nat, end: nat): Bytes
    requires p.Checking? && MayRaise(hs, p.hunkno, |p.find|, p.at, n, end)
  {
    var h := hs[p.hunkno];
    var find := if n + 1 == h.startsrc then Old(h) else p.find;
    var at := if n + 1 == h.startsrc then 0 else p.at;
    if n + 1 < h.startsrc || n + 1 >= h.startsrc + |find| - 1 || at >= |find| then []
    else if MayRaise(hs, p.hunkno, |find|, at + 1, n + 1, end) then find[at]
    else Other(find[at])
  }

  lemma NextForGoesOn(hs: seq<Hunk>, p: Progress, n: nat, end: nat)
    requires p.Checking? && MayRaise(hs, p.hunkno, |p.find|, p.at, n, end)
    ensures var p' := CheckStep(NextFor(hs, p, n, end), n, hs, p);
      p'.Raised? || (p'.Checking? && MayRaise(hs, p'.hunkno, |p'.find|, p'.at, n + 1, end))
  {
  }

  lemma Padded(s: seq<Bytes>, hs: seq<Hunk>, end: nat) returns (t: seq<Bytes>)
    requires hs != [] && |s| <= end && CheckLines(s, |s|, hs).Raised?
    ensures |t| == end && CheckLines(t, end, hs).Raised?
  {
    t := s + seq(end - |s|, _ => []);
    SamePrefix(s, t, |s|, hs);
    LeftStays(t, |s|, end, hs);
  }

  lemma OneMore(s: seq<Bytes>, line: Bytes, hs: seq<Hunk>, n: nat, s': seq<Bytes>)
    requires hs != [] && n == |s| && s' == s + [line]
    ensures CheckLines(s', n + 1, hs) == CheckStep(line, n, hs, CheckLines(s, n, hs))
  {
    SamePrefix(s, s', n, hs);
  }

  /** Where it may raise, some lines make it. */
  lemma {:induction false} LinesThatRaise(s: seq<Bytes>, n: nat, hs: seq<Hunk>, p: Progress, end: nat)
      returns (t: seq<Bytes>)
    requires hs != [] && n == |s| && p == CheckLines(s, n, hs)
    requires p.Checking? && MayRaise(hs, p.hunkno, |p.find|, p.at, n, end)
    ensures |t| == end && CheckLines(t, end, hs).Raised?
    decreases end - n
  {
    var line := NextFor(hs, p, n, end);
    NextForGoesOn(hs, p, n, end);
    var s' := s + [line];
    OneMore(s, line, hs, n, s');
    var p' := CheckLines(s', n + 1, hs);
    if p'.Raised? {
      t := Padded(s', hs, end);
    } else {
      t := LinesThatRaise(s', n + 1, hs, p', end);
    }
  }

  /** For any hunks: on some file of `n` lines the check runs out of range exactly when starts
      and counts allow it. */
  lemma RaisesIff(n: nat, hs: seq<Hunk>)
    requires hs != []
    ensures (exists s :: |s| == n && CheckFile(s, hs).CheckRaises?) <==> MayRaise(hs, 0, 0, 0, 0, n)
  {
    if s :| |s| == n && CheckFile(s, hs).CheckRaises? {
      RaisesWhereItMay(s, 0, hs, Checking(0, [], 0, 0));
    }
    if MayRaise(hs, 0, 0, 0, 0, n) {
      var s := LinesThatRaise([], 0, hs, Checking(0, [], 0, 0), n);
      assert CheckFile(s, hs).CheckRaises?;
    }
  }

  /** The lines of hunk `f` are still looked for when hunk `g` is reached: every hunk between
      starts before the one before it would be through with that many lines. */
  predicate StillHeld(hs: seq<Hunk>, f: nat, g: nat) {
    && f <= g < |hs|
    && hs[f].startsrc >= 1
    && forall i :: f < i <= g ==> hs[i].startsrc <= hs[i - 1].startsrc - 1 + |Old(hs[f])|
  }

  /** And `g` starts so late that they are all behind before its own count is reached. */
  predicate Overtakes(hs: seq<Hunk>, f: nat, g: nat) {
    StillHeld(hs, f, g) && hs[f].startsrc + (g - f) + 2 <= hs[g].startsrc
  }

  lemma {:induction false} MayRaiseNeeds(hs: seq<Hunk>, no: nat, len: nat, at: nat, n: nat, end: nat, f: nat)
      returns (f': nat, g: nat)
    requires MayRaise(hs, no, len, at, n, end)
    requires var start := hs[no].startsrc;
      || n < start
      || n + 1 > start + len - 1
      || (StillHeld(hs, f, no) && len == |Old(hs[f])| && at == n + 1 - hs[f].startsrc - (no - f))
    ensures Overtakes(hs, f', g)
    decreases end - n
  {
    var start := hs[no].startsrc;
    if n + 1 < start {
      f', g := MayRaiseNeeds(hs, no, len, at, n + 1, end, f);
    } else {
      var len' := if n + 1 == start then |Old(hs[no])| else len;
      var at' := if n + 1 == start then 0 else at;
      var e := if n + 1 == start then no else f;
      if n + 1 < start + len' - 1 {
        if at' >= len' {
          f', g := e, no;
        } else if MayRaise(hs, no, len', at' + 1, n + 1, end) {
          f', g := MayRaiseNeeds(hs, no, len', at' + 1, n + 1, end, e);
        } else {
          f', g := MayRaiseNeeds(hs, no + 1, len', at', n + 1, end, e);
        }
      } else if n + 1 == start + len' - 1 {
        f', g := MayRaiseNeeds(hs, no + 1, len', at', n + 1, end, e);
      } else {
        f', g := MayRaiseNeeds(hs, no, len', at', n + 1, end, e);
      }
    }
  }

  /** For any hunks: the check raises only when one overtakes another. */
  lemma RaisesNeeds(s: seq<Bytes>, hs: seq<Hunk>)
    requires hs != [] && CheckFile(s, hs).CheckRaises?
    ensures exists f, g :: Overtakes(hs, f, g)
  {
    RaisesIff(|s|, hs);
    var f, g := MayRaiseNeeds(hs, 0, 0, 0, 0, |s|, 0);
  }

  /** The run of two hunks up to the exception. */
  lemma {:induction false} OvertakenRaises(hs: seq<Hunk>, len: nat, at: nat, n: nat)
    requires |hs| == 2 && Overtakes(hs, 0, 1)
    requires var start := hs[0].startsrc;
      n < start || (len == |Old(hs[0])| && at == n + 1 - start && n + 1 < start + len)
    ensures MayRaise(hs, 0, len, at, n, hs[0].startsrc + |Old(hs[0])| + 1)
    decreases hs[0].startsrc + |Old(hs[0])| - n
  {
    var start, all := hs[0].startsrc, |Old(hs[0])|;
    var end := start + all + 1;
    if n + 1 < start {
      OvertakenRaises(hs, len, at, n + 1);
    } else if n + 1 < start + all - 1 {
      OvertakenRaises(hs, all, n + 2 - start, n + 1);
    } else {
      assert MayRaise(hs, 1, all, all, start + all, end);
      assert MayRaise(hs, 1, all, all - 1, start + all - 1, end);
    }
  }

  /** For two hunks: on some file the check runs out of range if and only if the second starts
      inside the first, at its fourth line or later. */
  lemma TwoHunksRaise(h: Hunk, g: Hunk)
    ensures (exists s :: CheckFile(s, [h, g]).CheckRaises?) <==>
      h.startsrc >= 1 && h.startsrc + 3 <= g.startsrc <= h.startsrc - 1 + |Old(h)|
  {
    var hs := [h, g];
    if s :| CheckFile(s, hs).CheckRaises? {
      RaisesNeeds(s, hs);
      var e, f :| Overtakes(hs, e, f);
      assert e == 0 && f == 1 && hs[1] == g && hs[0] == h;
    }
    if h.startsrc >= 1 && h.startsrc + 3 <= g.startsrc <= h.startsrc - 1 + |Old(h)| {
      assert Overtakes(hs, 0, 1);
      OvertakenRaises(hs, 0, 0, 0);
      RaisesIff(h.startsrc + |Old(h)| + 1, hs);
    }
  }

  /** Such a file: the second hunk starts on the last line of the first, at its fourth. */
  lemma OutOfOrderRaises(s: seq<Bytes>, h: Hunk, g: Hunk)
    requires h.startsrc == 1 && |Old(h)| == 4 && g.startsrc == 4
    requires |s| >= 6 && s[..3] == Old(h)[..3] && s[4] == Old(h)[3]
    ensures CheckFile(s, [h, g]) == CheckRaises
  {
    var hs, f := [h, g], Old(h);
    forall i | 0 <= i < 3
      ensures s[i] == f[i]
    {
      assert s[..3][i] == f[..3][i];
    }
    assert CheckLines(s, 0, hs) == Checking(0, [], 0, 0);
    assert CheckLines(s, 1, hs) == Checking(0, f, 1, 0);
    assert CheckLines(s, 2, hs) == Checking(0, f, 2, 0);
    assert CheckLines(s, 3, hs) == Checking(0, f, 3, 0);
    assert CheckLines(s, 4, hs) == Checking(1, f, 3, 1);
    assert CheckLines(s, 5, hs) == Checking(1, f, 4, 1);
    assert CheckLines(s, 6, hs) == Raised;
    LeftStays(s, 6, |s|, hs);
  }
}
