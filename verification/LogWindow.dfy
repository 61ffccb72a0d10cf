/** `LogHandler`: the backlog and the window of messages around the first critical one. */
module LogWindow {
  import Lines

  type Byte = Lines.Byte
  newtype CodeUnit = u: int | 0 <= u < 0x1_0000

  type Text = seq<CodeUnit>

  // ---------- the encoding of the log file ----------

  predicate IsHigh(u: CodeUnit) { 0xD800 <= u <= 0xDBFF }
  predicate IsLow(u: CodeUnit) { 0xDC00 <= u <= 0xDFFF }

  function Tail(n: nat): Byte { (0x80 + n % 0x40) as Byte }

  /** `toUtf8`; half of a surrogate pair becomes one question mark. */
  function Utf8(t: Text): (r: seq<Byte>)
    ensures |r| >= |t|
  {
    if t == [] then []
    else
      var n := t[0] as int;
      if n < 0x80 then [n as Byte] + Utf8(t[1..])
      else if n < 0x800 then [(0xC0 + n / 0x40) as Byte, Tail(n)] + Utf8(t[1..])
      else if IsHigh(t[0]) && |t| > 1 && IsLow(t[1]) then
        var c := 0x1_0000 + (n - 0xD800) * 0x400 + (t[1] as int - 0xDC00);
        [(0xF0 + c / 0x4_0000) as Byte, Tail(c / 0x1000), Tail(c / 0x40), Tail(c)] + Utf8(t[2..])
      else if IsHigh(t[0]) || IsLow(t[0]) then [0x3F] + Utf8(t[1..])
      else [(0xE0 + n / 0x1000) as Byte, Tail(n / 0x40), Tail(n)] + Utf8(t[1..])
  }

  /** This unit and the next one make a pair. */
  predicate Pair(t: Text, i: nat) {
    i + 1 < |t| && IsHigh(t[i]) && IsLow(t[i + 1])
  }

  /** Every code unit takes one byte: plain ASCII, or half of a pair without the other half. */
  predicate OneByteEach(t: Text) {
    forall i :: 0 <= i < |t| ==> (t[i] < 0x80 || IsHigh(t[i]) || IsLow(t[i])) && !Pair(t, i)
  }

  lemma OneByteEachTail(t: Text)
    requires t != []
    ensures OneByteEach(t) <==> (t[0] < 0x80 || IsHigh(t[0]) || IsLow(t[0])) && !Pair(t, 0) && OneByteEach(t[1..])
  {
    assert forall i :: 1 <= i < |t| ==> t[i] == t[1..][i - 1];
    assert forall i :: 1 <= i < |t| ==> (Pair(t, i) <==> Pair(t[1..], i - 1));
  }

  /** A text takes as many bytes as it has code units exactly when each takes one. */
  lemma {:induction false} OneByteLength(t: Text)
    ensures |Utf8(t)| == |t| <==> OneByteEach(t)
  {
    if t != [] {
      OneByteEachTail(t);
      if Pair(t, 0) {
        assert |Utf8(t)| >= 4 + |t[2..]|;
      } else {
        OneByteLength(t[1..]);
      }
    }
  }

  // ---------- messages and the window they should make ----------

  datatype Kind = Debug | Info | Warning | Critical | Fatal

  /** A logged line; `alarm` says that it is critical and its category is not ignored. */
  datatype Message = Message(alarm: bool, text: Text)

  /** The bytes of messages `lo` up to `hi` in the log file. */
  function Bytes(ms: seq<Message>, lo: nat, hi: nat): seq<Byte>
    requires lo <= hi <= |ms|
  {
    if lo == hi then [] else Bytes(ms, lo, hi - 1) + Utf8(ms[hi - 1].text)
  }

  lemma {:induction false} BytesSplit(ms: seq<Message>, lo: nat, i: nat, hi: nat)
    requires lo <= i <= hi <= |ms|
    ensures Bytes(ms, lo, hi) == Bytes(ms, lo, i) + Bytes(ms, i, hi)
  {
    if i < hi {
      BytesSplit(ms, lo, i, hi - 1);
    }
  }

  lemma {:induction false} BytesStay(ms: seq<Message>, m: Message, lo: nat, hi: nat)
    requires lo <= hi <= |ms|
    ensures Bytes(ms + [m], lo, hi) == Bytes(ms, lo, hi)
  {
    if lo < hi {
      BytesStay(ms, m, lo, hi - 1);
    }
  }

  lemma BytesNext(ms: seq<Message>, m: Message, ms': seq<Message>)
    requires ms' == ms + [m]
    ensures Bytes(ms', 0, |ms'|) == Bytes(ms, 0, |ms|) + Utf8(m.text)
  {
    BytesStay(ms, m, 0, |ms|);
    assert |ms'| - 1 == |ms| && ms'[|ms|] == m;
  }

  /** Index of the first alarm from `mark` on, or the number of messages. */
  function FirstAlarm(ms: seq<Message>, mark: nat): (f: nat)
    requires mark <= |ms|
    ensures mark <= f <= |ms| && (f < |ms| ==> ms[f].alarm) && forall i :: mark <= i < f ==> !ms[i].alarm
    decreases |ms| - mark
  {
    if mark == |ms| || ms[mark].alarm then mark else FirstAlarm(ms, mark + 1)
  }

  lemma AlarmNext(ms: seq<Message>, mark: nat, m: Message)
    requires mark <= |ms|
    ensures FirstAlarm(ms + [m], mark) ==
      if FirstAlarm(ms, mark) < |ms| || m.alarm then FirstAlarm(ms, mark) else |ms| + 1
  {
    var f, g := FirstAlarm(ms, mark), FirstAlarm(ms + [m], mark);
    if f < |ms| {
      assert (ms + [m])[f].alarm;
      assert g < |ms| ==> ms[g].alarm;
    } else {
      assert (ms + [m])[|ms|] == m;
      assert g >= |ms|;
    }
  }

  function Max(a: int, b: int): int { if a < b then b else a }
  function Min(a: int, b: int): int { if a < b then a else b }

  /** The window over the messages `mark` up to `n`, of which `f` is the first alarm (`f == n`:
      there is none): up to the alarm the newest messages; from then on it only fills up. */
  function Lo(mark: nat, n: nat, f: nat, cap: nat): nat
    requires cap >= 1 && mark <= f <= n
  {
    if f == n then Max(mark, n - cap) else Max(mark, f + 1 - cap)
  }

  function Hi(mark: nat, n: nat, f: nat, cap: nat): (h: nat)
    requires cap >= 1 && mark <= f <= n
    ensures mark <= Lo(mark, n, f, cap) <= h <= n && h - Lo(mark, n, f, cap) <= cap
  {
    if f == n then n else Min(n, Lo(mark, n, f, cap) + cap)
  }

  /** The first alarm is always in the window, with as many messages before it as fit, and then as
      many behind it as still do. */
  lemma AlarmIsKept(mark: nat, n: nat, f: nat, cap: nat)
    requires cap >= 1 && mark <= f < n
    ensures Lo(mark, n, f, cap) <= f < Hi(mark, n, f, cap)
    ensures f - Lo(mark, n, f, cap) == Min(f - mark, cap - 1)
    ensures Hi(mark, n, f, cap) - 1 - f == Min(n - 1 - f, cap - 1 - Min(f - mark, cap - 1))
  {
  }

  /** Until there is one, the newest messages are kept, as many as fit. */
  lemma NewestAreKept(mark: nat, n: nat, cap: nat)
    requires cap >= 1 && mark <= n
    ensures Hi(mark, n, n, cap) == n && n - Lo(mark, n, n, cap) == Min(n - mark, cap)
  {
  }

  /** What messages `lo` up to `hi` are read as: the last one is cut after as many bytes as it
      has code units. */
  function Evidence(ms: seq<Message>, lo: nat, hi: nat): seq<Byte>
    requires lo < hi <= |ms|
  {
    Bytes(ms, lo, hi - 1) + Utf8(ms[hi - 1].text)[..|ms[hi - 1].text|]
  }

  lemma CutIsWhole(a: seq<Byte>, u: seq<Byte>, n: nat)
    requires n <= |u|
    ensures a + u[..n] == a + u <==> n == |u|
  {
    if n == |u| {
      assert u[..n] == u;
    } else {
      assert |a + u[..n]| != |a + u|;
    }
  }

  /** The messages are read back whole exactly when every code unit of the last one takes one
      byte, as in plain ASCII. */
  lemma EvidenceIsWhole(ms: seq<Message>, lo: nat, hi: nat)
    requires lo < hi <= |ms|
    ensures Evidence(ms, lo, hi) == Bytes(ms, lo, hi) <==> OneByteEach(ms[hi - 1].text)
  {
    var last := ms[hi - 1].text;
    OneByteLength(last);
    CutIsWhole(Bytes(ms, lo, hi - 1), Utf8(last), |last|);
  }

  /** One message with a letter outside ASCII loses its line end. */
  lemma AccentIsCut()
    ensures var m := Message(true, [0xE9, 10]);
      && Bytes([m], 0, 1) == [0xC3, 0xA9, 10]
      && Evidence([m], 0, 1) == [0xC3, 0xA9]
  {
    var t: Text := [0xE9, 10];
    assert t[1..] == [10] && [10 as CodeUnit][1..] == [];
    assert Utf8([10]) == [10];
    assert Utf8(t) == [0xC3, 0xA9] + [10];
    assert Bytes([Message(true, t)], 0, 0) == [];
  }

  // ---------- the window ----------

  datatype Entry = Entry(position: nat, length: nat)

  /** The ring buffer: a full one loses its first entry. */
  function Append(window: seq<Entry>, e: Entry, cap: nat): seq<Entry>
    requires cap >= 1
  {
    if |window| >= cap then window[|window| - cap + 1..] + [e] else window + [e]
  }

  /** What `handleLogWindow` does to the window. */
  function NextWindow(window: seq<Entry>, frozen: bool, e: Entry, cap: nat): seq<Entry>
    requires cap >= 1
  {
    if frozen && |window| == cap then window else Append(window, e, cap)
  }

  function EntryAt(logged: seq<Message>, i: nat): Entry
    requires i < |logged|
  {
    Entry(|Bytes(logged, 0, i)|, |logged[i].text|)
  }

  /** Entry `i` of the window is the message `lo + i` of the log. */
  ghost predicate EntriesFit(window: seq<Entry>, logged: seq<Message>, lo: nat) {
    && lo + |window| <= |logged|
    && forall i :: 0 <= i < |window| ==> window[i] == EntryAt(logged, lo + i)
  }

  /** The window is made of the messages `Lo` up to `Hi`. */
  ghost predicate WindowFits(window: seq<Entry>, logged: seq<Message>, mark: nat, f: nat, cap: nat)
    requires cap >= 1 && mark <= f <= |logged|
  {
    && |window| == Hi(mark, |logged|, f, cap) - Lo(mark, |logged|, f, cap)
    && EntriesFit(window, logged, Lo(mark, |logged|, f, cap))
  }

  lemma EntriesStay(window: seq<Entry>, logged: seq<Message>, lo: nat, m: Message)
    requires EntriesFit(window, logged, lo)
    ensures EntriesFit(window, logged + [m], lo)
  {
    forall i | 0 <= i < |window|
      ensures window[i] == EntryAt(logged + [m], lo + i)
    {
      assert window[i] == EntryAt(logged, lo + i);
      BytesStay(logged, m, 0, lo + i);
    }
  }

  lemma EntriesAppend(window: seq<Entry>, logged: seq<Message>, lo: nat, m: Message)
    requires EntriesFit(window, logged, lo) && lo + |window| == |logged|
    ensures EntriesFit(window + [Entry(|Bytes(logged, 0, |logged|)|, |m.text|)], logged + [m], lo)
  {
    EntriesStay(window, logged, lo, m);
    BytesStay(logged, m, 0, |logged|);
  }

  lemma EntriesNext(window: seq<Entry>, logged: seq<Message>, lo: nat, cap: nat, frozen: bool, m: Message)
    requires cap >= 1 && |window| <= cap && EntriesFit(window, logged, lo)
    requires (frozen && |window| == cap) || lo + |window| == |logged|
    ensures var w := NextWindow(window, frozen, Entry(|Bytes(logged, 0, |logged|)|, |m.text|), cap);
      if frozen && |window| == cap then w == window && EntriesFit(w, logged + [m], lo)
      else if |window| == cap then |w| == cap && EntriesFit(w, logged + [m], lo + 1)
      else |w| == |window| + 1 && EntriesFit(w, logged + [m], lo)
  {
    if frozen && |window| == cap {
      EntriesStay(window, logged, lo, m);
    } else if |window| == cap {
      EntriesAppend(window[1..], logged, lo + 1, m);
    } else {
      EntriesAppend(window, logged, lo, m);
    }
  }

  /** One more message keeps the window in step with the log. */
  lemma WindowFitsNext(window: seq<Entry>, logged: seq<Message>, mark: nat, f: nat, cap: nat, m: Message)
    requires cap >= 1 && mark <= f <= |logged| && WindowFits(window, logged, mark, f, cap)
    ensures var alarmed := f < |logged|;
      WindowFits(NextWindow(window, alarmed, Entry(|Bytes(logged, 0, |logged|)|, |m.text|), cap), logged + [m], mark,
        if alarmed || m.alarm then f else f + 1, cap)
  {
    EntriesNext(window, logged, Lo(mark, |logged|, f, cap), cap, f < |logged|, m);
  }

  /** Flag and window agree with what was logged since the last reset. */
  ghost predicate InStep(critical: bool, window: seq<Entry>, logged: seq<Message>, mark: nat, cap: nat)
    requires mark <= |logged| && cap >= 1
  {
    && critical == (FirstAlarm(logged, mark) < |logged|)
    && WindowFits(window, logged, mark, FirstAlarm(logged, mark), cap)
  }

  predicate NoEmptyText(ms: seq<Message>) {
    forall i :: 0 <= i < |ms| ==> ms[i].text != []
  }

  /** The file holds what was logged, `start` being the end of the first `mark` messages. */
  predicate Holds(content: seq<Byte>, start: nat, logged: seq<Message>, mark: nat)
    requires mark <= |logged|
  {
    content == Bytes(logged, 0, |logged|) && start == |Bytes(logged, 0, mark)| && NoEmptyText(logged)
  }

  lemma WindowAdded(critical: bool, window: seq<Entry>, logged: seq<Message>, mark: nat, cap: nat, m: Message)
    requires mark <= |logged| && cap >= 1 && InStep(critical, window, logged, mark, cap)
    ensures InStep(critical || m.alarm,
      NextWindow(window, critical, Entry(|Bytes(logged, 0, |logged|)|, |m.text|), cap), logged + [m], mark, cap)
  {
    AlarmNext(logged, mark, m);
    WindowFitsNext(window, logged, mark, FirstAlarm(logged, mark), cap, m);
  }

  /** One more message keeps file, flag and window in step. */
  lemma MessageAdded(content: seq<Byte>, start: nat, critical: bool, window: seq<Entry>, logged: seq<Message>,
    mark: nat, cap: nat, m: Message, at: nat,
    content': seq<Byte>, critical': bool, window': seq<Entry>, logged': seq<Message>)
    requires mark <= |logged| && cap >= 1 && InStep(critical, window, logged, mark, cap)
    requires Holds(content, start, logged, mark) && m.text != []
    requires content' == content + Utf8(m.text) && critical' == (critical || m.alarm) && logged' == logged + [m]
    requires at == |content| && window' == NextWindow(window, critical, Entry(at, |m.text|), cap)
    ensures Holds(content', start, logged', mark) && InStep(critical', window', logged', mark, cap)
  {
    BytesNext(logged, m, logged');
    BytesStay(logged, m, 0, mark);
    WindowAdded(critical, window, logged, mark, cap, m);
  }

  /** From the first entry to the last the log file holds the evidence. */
  lemma EntriesSlice(logged: seq<Message>, lo: nat, hi: nat, first: Entry, last: Entry)
    requires lo < hi <= |logged| && first == EntryAt(logged, lo) && last == EntryAt(logged, hi - 1)
    ensures first.position <= last.position && last.position + last.length <= |Bytes(logged, 0, |logged|)|
    ensures Bytes(logged, 0, |logged|)[first.position..last.position + last.length] == Evidence(logged, lo, hi)
  {
    var text := logged[hi - 1].text;
    BytesSplit(logged, 0, hi, |logged|);
    BytesSplit(logged, 0, lo, hi - 1);
    FourPieces(Bytes(logged, 0, lo), Bytes(logged, lo, hi - 1), Utf8(text), Bytes(logged, hi, |logged|), |text|);
  }

  lemma FourPieces(a: seq<Byte>, b: seq<Byte>, c: seq<Byte>, d: seq<Byte>, n: nat)
    requires n <= |c|
    ensures (((a + b) + c) + d)[|a|..|a| + |b| + n] == b + c[..n]
  {
  }

  lemma EntryOf(window: seq<Entry>, logged: seq<Message>, lo: nat, i: nat, j: nat)
    requires EntriesFit(window, logged, lo) && i < |window| && j == lo + i && NoEmptyText(logged)
    ensures j < |logged| && window[i] == EntryAt(logged, j) && window[i].length > 0
  {
    assert window[i] == EntryAt(logged, lo + i);
    assert logged[j].text != [];
  }

  lemma WindowReads(content: seq<Byte>, window: seq<Entry>, logged: seq<Message>, mark: nat, cap: nat)
    requires mark <= |logged| && cap >= 1 && InStep(true, window, logged, mark, cap)
    requires content == Bytes(logged, 0, |logged|) && NoEmptyText(logged)
    ensures window != []
    ensures var first, last, n, f := window[0], window[|window| - 1], |logged|, FirstAlarm(logged, mark);
      && first.position < last.position + last.length <= |content|
      && content[first.position..last.position + last.length]
        == Evidence(logged, Lo(mark, n, f, cap), Hi(mark, n, f, cap))
  {
    var n, f := |logged|, FirstAlarm(logged, mark);
    var lo, hi := Lo(mark, n, f, cap), Hi(mark, n, f, cap);
    AlarmIsKept(mark, n, f, cap);
    var k := |window| - 1;
    EntryOf(window, logged, lo, 0, lo);
    EntryOf(window, logged, lo, k, hi - 1);
    assert window[k].length > 0;
    EntriesSlice(logged, lo, hi, window[0], window[k]);
  }

  /** The part of a file that is read: a length of zero or less means the rest. */
  function Part(content: seq<Byte>, start: nat, length: int): seq<Byte>
    requires start <= |content|
  {
    if 0 < length < |content| - start then content[start..start + length] else content[start..]
  }

  lemma WindowIsRead(content: seq<Byte>, window: seq<Entry>, logged: seq<Message>, mark: nat, cap: nat)
    requires mark <= |logged| && cap >= 1 && InStep(true, window, logged, mark, cap)
    requires content == Bytes(logged, 0, |logged|) && NoEmptyText(logged)
    ensures window != [] && window[0].position <= |content| && FirstAlarm(logged, mark) < |logged|
    ensures var first, last, n, f := window[0], window[|window| - 1], |logged|, FirstAlarm(logged, mark);
      Part(content, first.position, last.position - first.position + last.length)
        == Evidence(logged, Lo(mark, n, f, cap), Hi(mark, n, f, cap))
  {
    WindowReads(content, window, logged, mark, cap);
  }

  datatype Read = Content(bytes: seq<Byte>) | Nothing

  class LogHandler {
    const capacity: nat
    const ignored: set<string>
    var useLogfile: bool
    var isOpen: bool
    var content: seq<Byte>
    var pos: nat
    var backlogPosition: nat
    var criticalLog: bool
    var window: seq<Entry>
    /** Everything in the log file, and how much of it was there at the last reset. */
    ghost var logged: seq<Message>
    ghost var mark: nat

    ghost predicate Valid()
      reads this
    {
      && capacity >= 1 && isOpen == useLogfile && pos == |content|
      && mark <= |logged| && Holds(content, backlogPosition, logged, mark)
      && InStep(criticalLog, window, logged, mark, capacity)
      && (!isOpen ==> logged == [])
    }

    constructor (capacity: nat, ignored: set<string>)
      requires capacity >= 1
      ensures Valid() && isOpen && logged == [] && mark == 0
      ensures this.capacity == capacity && this.ignored == ignored
    {
      this.capacity, this.ignored := capacity, ignored;
      useLogfile, isOpen, content, pos := true, true, [], 0;
      backlogPosition, criticalLog, window := 0, false, [];
      logged, mark := [], 0;
    }

    predicate IsAlarm(kind: Kind, category: string) {
      kind == Critical && category !in ignored
    }

    /** `handleMessage`: the window is updated first, then the line is written. */
    method HandleMessage(kind: Kind, category: string, formatted: Text)
      requires Valid()
      modifies this`content, this`pos, this`criticalLog, this`window, this`logged
      ensures Valid()
      ensures logged == if isOpen
        then old(logged) + [Message(kind == Critical && category !in ignored, formatted + [10])]
        else old(logged)
    {
      var logMsg := formatted + [10];
      ghost var m := Message(IsAlarm(kind, category), logMsg);
      WindowThenFile(kind, category, logMsg);
      if isOpen {
        Record(m, old(content), old(pos), old(criticalLog), old(window));
      }
    }

    method WindowThenFile(kind: Kind, category: string, logMsg: Text)
      requires capacity >= 1 && isOpen == useLogfile && pos == |content|
      modifies this`content, this`pos, this`criticalLog, this`window
      ensures pos == |content|
      ensures !isOpen ==> content == old(content) && criticalLog == old(criticalLog) && window == old(window)
      ensures isOpen ==>
        && content == old(content) + Utf8(logMsg) && criticalLog == (old(criticalLog) || IsAlarm(kind, category))
        && window == NextWindow(old(window), old(criticalLog), Entry(old(pos), |logMsg|), capacity)
    {
      HandleLogWindow(kind, category, logMsg);
      LogToFile(logMsg);
    }

    /** The log has one more message. */
    ghost method Record(m: Message, content0: seq<Byte>, at: nat, critical0: bool, window0: seq<Entry>)
      requires capacity >= 1 && mark <= |logged| && m.text != [] && at == |content0|
      requires Holds(content0, backlogPosition, logged, mark) && InStep(critical0, window0, logged, mark, capacity)
      requires content == content0 + Utf8(m.text) && criticalLog == (critical0 || m.alarm)
      requires window == NextWindow(window0, critical0, Entry(at, |m.text|), capacity)
      modifies this`logged
      ensures logged == old(logged) + [m] && Holds(content, backlogPosition, logged, mark)
      ensures InStep(criticalLog, window, logged, mark, capacity)
    {
      MessageAdded(content0, backlogPosition, critical0, window0, logged, mark, capacity, m, at,
        content, criticalLog, window, logged + [m]);
      logged := logged + [m];
    }

    method HandleLogWindow(kind: Kind, category: string, msg: Text)
      requires capacity >= 1
      modifies this`criticalLog, this`window
      ensures criticalLog == (old(criticalLog) || (useLogfile && IsAlarm(kind, category)))
      ensures useLogfile ==> window == NextWindow(old(window), old(criticalLog), Entry(pos, |msg|), capacity)
      ensures !useLogfile ==> window == old(window)
    {
      if !useLogfile {
        return;
      }
      if criticalLog && |window| == capacity {
        return;
      } else if IsAlarm(kind, category) {
        criticalLog := true;
      }
      window := Append(window, Entry(pos, |msg|), capacity);
    }

    method LogToFile(output: Text)
      requires pos == |content|
      modifies this`content, this`pos
      ensures isOpen ==> content == old(content) + Utf8(output)
      ensures !isOpen ==> content == old(content)
      ensures pos == |content|
    {
      if isOpen {
        content := content[..pos] + Utf8(output);
        pos := |content|;
      }
    }

    /** Reads from `start`; a length of zero or less means the rest of the file. The write
        position is put back. */
    method ReadLogFile(start: nat, length: int) returns (r: Read)
      requires start <= |content|
      modifies this`pos
      ensures pos == old(pos)
      ensures r == if !isOpen then Nothing else Content(Part(content, start, length))
      ensures isOpen && (length <= 0 || start + length >= |content|) ==> r == Content(content[start..])
      ensures isOpen && 0 < length && start + length <= |content| ==> r == Content(content[start..start + length])
    {
      if !isOpen {
        return Nothing;
      }
      var currentPos := pos;
      pos := start;
      var n := if 0 < length < |content| - pos then length else |content| - pos;
      r := Content(content[pos..pos + n]);
      pos := pos + n;
      pos := currentPos;
    }

    /** Exactly what was logged since the last reset, or everything in the file. */
    method GetBacklog(all: bool) returns (r: Read)
      requires Valid()
      modifies this`pos
      ensures Valid() && pos == old(pos)
      ensures isOpen ==> r == Content(Bytes(logged, if all then 0 else mark, |logged|))
      ensures !isOpen ==> r == Nothing
    {
      BytesSplit(logged, 0, mark, |logged|);
      r := ReadLogFile(if all then 0 else backlogPosition, -1);
    }

    /** The messages of the window, the last one cut to its number of code units. */
    method GetCriticalLogWindow() returns (r: Read)
      requires Valid()
      modifies this`pos
      ensures Valid() && pos == old(pos)
      ensures var n, f := |logged|, FirstAlarm(logged, mark);
        r == if f == n then Nothing
          else Content(Evidence(logged, Lo(mark, n, f, capacity), Hi(mark, n, f, capacity)))
    {
      if !criticalLog {
        return Nothing;
      }
      WindowIsRead(content, window, logged, mark, capacity);
      var first, last := window[0], window[|window| - 1];
      r := ReadLogFile(first.position, last.position - first.position + last.length);
    }

    method ResetBacklog()
      requires Valid()
      modifies this
      ensures Valid() && logged == old(logged) && mark == |logged| && isOpen == old(isOpen)
    {
      backlogPosition := pos;
      criticalLog := false;
      window := [];
      mark := |logged|;
    }

    method SetLogfile(enable: bool)
      requires Valid()
      modifies this
      ensures Valid() && isOpen == enable
      ensures if old(isOpen) == enable then logged == old(logged) && mark == old(mark) else logged == [] && mark == 0
    {
      if enable {
        if !isOpen {
          useLogfile, isOpen := true, true;
          content, pos := [], 0;
        }
      } else {
        if isOpen {
          isOpen, content, pos := false, [], 0;
          backlogPosition := 0;
          criticalLog := false;
          window := [];
          logged, mark := [], 0;
        }
        useLogfile := false;
      }
    }
  }
}
