/** Many updatable files share one downloader: every interleaving of their steps, with calls
    of `update` while an outcome is being delivered. */
module UpdateProtocol {
  import opened Options
  import opened Stamps
  import opened Downloads

  type Id = nat

  datatype File = File(name: string, url: Url, running: bool) {
    predicate Named() { name != "" }
  }

  /** Where a slot of a file stands: before `disconnect`, or between it and the reset of
      `mUpdateRunning`. User code may run in both. */
  datatype Slot = NoSlot | Handling(f: Id) | Disconnected(f: Id)

  /** A signal on its way to the objects that were connected when it was emitted. */
  datatype Emission = Quiet | Emitting(url: Url, signal: Signal, receivers: seq<Id>, slot: Slot)

  datatype System = System(
    files: seq<File>, table: map<string, Id>, connections: seq<Id>,
    q: Queue, e: Emission,
    foreign: set<Url>, scheduled: seq<Url>, completed: seq<Url>, emitted: seq<Url>)

  const INITIAL := System([], map[], [], EMPTY, Quiet, {}, [], [], [])

  datatype Event =
    | GetFile(key: string, name: string, url: Url)
    | Update(f: Id)
    | Foreign(url: Url)            // some other object uses the downloader
    | Finish(reply: Reply)
    | Deliver
    | Disconnect
    | Clear
    | Release

  /** The URL belongs to a named file. */
  predicate Owned(s: System, url: Url) {
    exists f :: 0 <= f < |s.files| && s.files[f].Named() && s.files[f].url == url
  }

  /** What may happen next. */
  predicate Enabled(s: System, ev: Event) {
    match ev
    case GetFile(_, _, _) => true
    case Update(f) => f < |s.files|
    case Foreign(_) => true
    case Finish(_) => s.q.active && s.e.Quiet?
    case Deliver => s.e.Emitting? && s.e.slot.NoSlot? && s.e.receivers != [] && s.e.receivers[0] < |s.files|
    case Disconnect => s.e.Emitting? && s.e.slot.Handling?
    case Clear => s.e.Emitting? && s.e.slot.Disconnected? && s.e.slot.f < |s.files|
    case Release => s.e.Emitting? && s.e.slot.NoSlot? && s.e.receivers == []
  }

  /** Named files get URLs of their own; foreign requests use other ones. */
  predicate OwnUrl(s: System, ev: Event) {
    match ev
    case GetFile(key, name, url) => key in s.table || name == "" || (!Owned(s, url) && url !in s.foreign)
    case Foreign(url) => !Owned(s, url)
    case _ => true
  }

  function Without(ids: seq<Id>, f: Id): seq<Id> {
    if ids == [] then []
    else if ids[0] == f then Without(ids[1..], f)
    else [ids[0]] + Without(ids[1..], f)
  }

  /** `update` */
  function UpdateFile(s: System, f: Id): System
    requires f < |s.files|
  {
    var file := s.files[f];
    if file.running || !file.Named() then s
    else s.(files := s.files[f := file.(running := true)],
            connections := s.connections + [f],
            q := s.q.Schedule(file.url), scheduled := s.scheduled + [file.url])
  }

  /** `getFile` */
  function Lookup(s: System, key: string, name: string, url: Url): System {
    if key in s.table then s
    else s.(files := s.files + [File(name, url, false)],
            table := if name == "" then s.table else s.table[key := |s.files|])
  }

  function DeliverNext(s: System): System
    requires Enabled(s, Deliver)
  {
    var f := s.e.receivers[0];
    var mine := f in s.connections && s.files[f].url == s.e.url;
    s.(e := s.e.(receivers := s.e.receivers[1..], slot := if mine then Handling(f) else NoSlot))
  }

  function Next(s: System, ev: Event): System
    requires Enabled(s, ev)
  {
    match ev
    case GetFile(key, name, url) => Lookup(s, key, name, url)
    case Update(f) => UpdateFile(s, f)
    case Foreign(url) => s.(foreign := s.foreign + {url}, q := s.q.Schedule(url), scheduled := s.scheduled + [url])
    case Finish(reply) =>
      if s.q.current.None? then s
      else s.(e := Emitting(s.q.current.value, SignalOf(reply), s.connections, NoSlot),
              emitted := s.emitted + [s.q.current.value])
    case Deliver => DeliverNext(s)
    case Disconnect =>
      s.(connections := Without(s.connections, s.e.slot.f), e := s.e.(slot := Disconnected(s.e.slot.f)))
    case Clear =>
      s.(files := s.files[s.e.slot.f := s.files[s.e.slot.f].(running := false)], e := s.e.(slot := NoSlot))
    case Release => s.(e := Quiet, q := s.q.Release(), completed := s.completed + [s.e.url])
  }

  // ---------- the invariant ----------

  predicate InSlot(e: Emission, f: Id) {
    e.Emitting? && (e.slot == Handling(f) || e.slot == Disconnected(f))
  }

  /** The current reply still has to reach this file. */
  predicate InFlight(s: System, f: Id)
    requires f < |s.files|
  {
    && s.q.active && s.q.current == Some(s.files[f].url)
    && (s.e.Emitting? ==> f in s.e.receivers || InSlot(s.e, f))
  }

  /** Requests for this file that have not reached it yet. */
  function Waiting(s: System, f: Id): nat
    requires f < |s.files|
  {
    multiset(s.q.pending)[s.files[f].url] + if InFlight(s, f) then 1 else 0
  }

  predicate Distinct(ids: seq<Id>) {
    forall i, j :: 0 <= i < j < |ids| ==> ids[i] != ids[j]
  }

  predicate InRange(ids: seq<Id>, n: nat) {
    forall f :: f in ids ==> f < n
  }

  predicate OwnUrls(s: System) {
    && (forall f, g :: 0 <= f < g < |s.files| && s.files[f].Named() && s.files[g].Named() ==>
          s.files[f].url != s.files[g].url)
    && (forall f :: 0 <= f < |s.files| && s.files[f].Named() ==> s.files[f].url !in s.foreign)
    && (forall u :: u in s.q.Outstanding() ==> u in s.foreign || Owned(s, u))
  }

  predicate Connected(s: System) {
    && Distinct(s.connections) && InRange(s.connections, |s.files|)
    && forall f :: 0 <= f < |s.files| ==>
         && (s.files[f].running <==> f in s.connections || (s.e.Emitting? && s.e.slot == Disconnected(f)))
         && (s.files[f].running ==> s.files[f].Named())
  }

  predicate Delivering(s: System) {
    s.e.Emitting? ==>
      && s.q.active && s.q.current == Some(s.e.url)
      && Distinct(s.e.receivers) && InRange(s.e.receivers, |s.files|)
      && match s.e.slot
         case NoSlot => true
         case Handling(f) => f < |s.files| && f !in s.e.receivers && f in s.connections && s.files[f].url == s.e.url
         case Disconnected(f) =>
           f < |s.files| && f !in s.e.receivers && f !in s.connections && s.files[f].url == s.e.url
  }

  /** A file is updating exactly while one request for it is waiting or in flight. */
  predicate OneRequest(s: System) {
    forall f :: 0 <= f < |s.files| && s.files[f].Named() ==> Waiting(s, f) == if s.files[f].running then 1 else 0
  }

  /** First in, first out; one signal for each completed request, with its own URL. */
  predicate Conserved(s: System) {
    && s.q.Busy()
    && s.scheduled == s.completed + s.q.Outstanding()
    && s.emitted == s.completed + if s.e.Emitting? then [s.e.url] else []
  }

  predicate Inv(s: System) {
    OwnUrls(s) && Connected(s) && Delivering(s) && OneRequest(s) && Conserved(s)
  }

  lemma {:induction false} WithoutIs(ids: seq<Id>, f: Id)
    ensures forall g :: g in Without(ids, f) <==> g in ids && g != f
    ensures Distinct(ids) ==> Distinct(Without(ids, f))
  {
    if ids != [] {
      WithoutIs(ids[1..], f);
      var rest := Without(ids[1..], f);
      if Distinct(ids) {
        assert Distinct(ids[1..]) && ids[0] !in ids[1..];
        assert forall i :: 0 <= i < |rest| ==> rest[i] in rest;
      }
    }
  }

  lemma ScheduleCounts(q: Queue, url: Url)
    requires q.Busy()
    ensures var r := q.Schedule(url);
      && r.Busy() && r.Outstanding() == q.Outstanding() + [url] && r.active
      && (if q.active then r.current == q.current && multiset(r.pending) == multiset(q.pending) + multiset{url}
          else r.current == Some(url) && r.pending == [] && q.pending == [])
  {
    QueueIsFifo(q, url);
  }

  lemma ReleaseCounts(q: Queue)
    requires q.Busy() && q.active
    ensures var r := q.Release();
      && r.Busy() && r.Outstanding() == q.Outstanding()[1..] == q.pending
      && (if r.active then r.current.Some? && multiset(q.pending) == multiset{r.current.value} + multiset(r.pending)
          else r.pending == [] && q.pending == [])
  {
    QueueIsFifo(q, "");
    if q.pending != [] {
      assert q.pending == [q.pending[0]] + q.pending[1..];
    }
  }

  /** Same files, apart from their running flags. */
  predicate SameFiles(s: System, t: System) {
    |s.files| == |t.files| && forall f :: 0 <= f < |s.files| ==>
      t.files[f].url == s.files[f].url && t.files[f].name == s.files[f].name
  }

  lemma SameOwners(s: System, t: System)
    requires SameFiles(s, t)
    ensures forall u :: Owned(s, u) <==> Owned(t, u)
  {
    forall u
      ensures Owned(s, u) <==> Owned(t, u)
    {
      if Owned(s, u) {
        var f :| 0 <= f < |s.files| && s.files[f].Named() && s.files[f].url == u;
        assert t.files[f].Named();
      }
      if Owned(t, u) {
        var f :| 0 <= f < |t.files| && t.files[f].Named() && t.files[f].url == u;
        assert s.files[f].Named();
      }
    }
  }

  lemma SameUrls(s: System, t: System)
    requires OwnUrls(s) && SameFiles(s, t) && s.foreign <= t.foreign
    requires forall u :: u in t.foreign ==> u in s.foreign || !Owned(s, u)
    requires forall u :: u in t.q.Outstanding() ==> u in s.q.Outstanding() || u in t.foreign || Owned(s, u)
    ensures OwnUrls(t)
  {
    SameOwners(s, t);
    forall f | 0 <= f < |t.files| && t.files[f].Named()
      ensures t.files[f].url !in t.foreign
    {
      assert s.files[f].Named() && Owned(s, s.files[f].url);
    }
  }

  lemma UpdateUrls(s: System, f: Id)
    requires Inv(s) && f < |s.files| && !s.files[f].running && s.files[f].Named()
    ensures OwnUrls(UpdateFile(s, f)) && Conserved(UpdateFile(s, f))
  {
    ScheduleCounts(s.q, s.files[f].url);
    SameUrls(s, UpdateFile(s, f));
  }

  lemma UpdateConnects(s: System, f: Id)
    requires Inv(s) && f < |s.files| && !s.files[f].running && s.files[f].Named()
    ensures Connected(UpdateFile(s, f)) && Delivering(UpdateFile(s, f))
  {
    ScheduleCounts(s.q, s.files[f].url);
  }

  lemma UpdateInv(s: System, f: Id)
    requires Inv(s) && f < |s.files|
    ensures Inv(UpdateFile(s, f))
  {
    if !s.files[f].running && s.files[f].Named() {
      UpdateUrls(s, f);
      UpdateConnects(s, f);
      UpdateRequests(s, f);
    }
  }

  lemma UpdateRequests(s: System, f: Id)
    requires Inv(s) && f < |s.files| && !s.files[f].running && s.files[f].Named()
    ensures OneRequest(UpdateFile(s, f))
  {
    var t := UpdateFile(s, f);
    ScheduleCounts(s.q, s.files[f].url);
    forall g | 0 <= g < |s.files| && s.files[g].Named()
      ensures Waiting(t, g) == Waiting(s, g) + if g == f then 1 else 0
    {
    }
  }

  lemma ForeignInv(s: System, url: Url)
    requires Inv(s) && !Owned(s, url)
    ensures Inv(Next(s, Foreign(url)))
  {
    ScheduleCounts(s.q, url);
    SameUrls(s, Next(s, Foreign(url)));
  }

  lemma LookupUrls(s: System, key: string, name: string, url: Url)
    requires Inv(s) && OwnUrl(s, GetFile(key, name, url)) && key !in s.table
    ensures OwnUrls(Lookup(s, key, name, url))
  {
    var t := Lookup(s, key, name, url);
    assert forall g :: 0 <= g < |s.files| ==> t.files[g] == s.files[g];
    forall f | 0 <= f < |s.files| && s.files[f].Named()
      ensures name != "" ==> s.files[f].url != url
    {
      assert Owned(s, s.files[f].url);
    }
    forall u | Owned(s, u)
      ensures Owned(t, u)
    {
      var f :| 0 <= f < |s.files| && s.files[f].Named() && s.files[f].url == u;
      assert t.files[f].Named() && t.files[f].url == u;
    }
  }

  lemma LookupInv(s: System, key: string, name: string, url: Url)
    requires Inv(s) && OwnUrl(s, GetFile(key, name, url))
    ensures Inv(Lookup(s, key, name, url))
  {
    var t := Lookup(s, key, name, url);
    if key !in s.table {
      LookupUrls(s, key, name, url);
      var n := |s.files|;
      assert forall g :: 0 <= g < n ==> t.files[g] == s.files[g];
      assert forall g :: 0 <= g < n ==> Waiting(t, g) == Waiting(s, g);
      if name != "" {
        assert url !in s.q.Outstanding();
        assert Waiting(t, n) == 0;
      }
    }
  }

  lemma FinishInv(s: System, reply: Reply)
    requires Inv(s) && Enabled(s, Finish(reply))
    ensures Inv(Next(s, Finish(reply)))
  {
    var t := Next(s, Finish(reply));
    forall f | 0 <= f < |s.files| && s.files[f].Named()
      ensures Waiting(t, f) == Waiting(s, f)
    {
      if InFlight(s, f) {
        assert s.files[f].running;
      }
    }
    SameUrls(s, t);
  }

  lemma DeliverInv(s: System)
    requires Inv(s) && Enabled(s, Deliver)
    ensures Inv(Next(s, Deliver))
  {
    var t := Next(s, Deliver);
    var g := s.e.receivers[0];
    assert s.e.receivers == [g] + s.e.receivers[1..];
    assert forall f :: f in t.e.receivers ==> f in s.e.receivers;
    forall f | 0 <= f < |s.files| && s.files[f].Named()
      ensures Waiting(t, f) == Waiting(s, f)
    {
      if f == g && InFlight(s, f) {
        assert Waiting(s, f) == 1;
      }
    }
    SameUrls(s, t);
  }

  lemma DisconnectInv(s: System)
    requires Inv(s) && Enabled(s, Disconnect)
    ensures Inv(Next(s, Disconnect))
  {
    var t := Next(s, Disconnect);
    WithoutIs(s.connections, s.e.slot.f);
    forall f | 0 <= f < |s.files| && s.files[f].Named()
      ensures Waiting(t, f) == Waiting(s, f)
    {
    }
    SameUrls(s, t);
  }

  lemma ClearInv(s: System)
    requires Inv(s) && Enabled(s, Clear)
    ensures Inv(Next(s, Clear))
  {
    var t := Next(s, Clear);
    var g := s.e.slot.f;
    assert Waiting(s, g) == 1 && InFlight(s, g);
    forall f | 0 <= f < |s.files| && s.files[f].Named()
      ensures Waiting(t, f) == if f == g then 0 else Waiting(s, f)
    {
      assert t.files[f].url == s.files[f].url;
    }
    SameUrls(s, t);
  }

  lemma ReleaseUrls(s: System)
    requires OwnUrls(s) && s.q.Busy() && s.q.active && Enabled(s, Release)
    ensures OwnUrls(Next(s, Release))
  {
    ReleaseCounts(s.q);
    SameUrls(s, Next(s, Release));
  }

  lemma ReleaseInv(s: System)
    requires Inv(s) && Enabled(s, Release)
    ensures Inv(Next(s, Release))
  {
    ReleaseUrls(s);
    ReleaseRequests(s);
    ReleaseCounts(s.q);
  }

  lemma ReleaseRequests(s: System)
    requires Inv(s) && Enabled(s, Release)
    ensures OneRequest(Next(s, Release))
  {
    forall f | 0 <= f < |s.files| && s.files[f].Named()
      ensures Waiting(Next(s, Release), f) == Waiting(s, f)
    {
      ReleaseWaiting(s, f);
    }
  }

  lemma ReleaseWaiting(s: System, f: Id)
    requires Delivering(s) && s.q.Busy() && Enabled(s, Release) && f < |s.files|
    ensures Waiting(Next(s, Release), f) == Waiting(s, f)
  {
    ReleaseCounts(s.q);
  }

  /** Every step keeps the invariant: also `update` in the middle of a delivery. */
  lemma StepInv(s: System, ev: Event)
    requires Inv(s) && Enabled(s, ev) && OwnUrl(s, ev)
    ensures Inv(Next(s, ev))
  {
    match ev
    case GetFile(key, name, url) => LookupInv(s, key, name, url);
    case Update(f) => UpdateInv(s, f);
    case Foreign(url) => ForeignInv(s, url);
    case Finish(reply) => FinishInv(s, reply);
    case Deliver => DeliverInv(s);
    case Disconnect => DisconnectInv(s);
    case Clear => ClearInv(s);
    case Release => ReleaseInv(s);
  }

  // ---------- whole runs ----------

  /** These states follow one another by these events, from the start; URLs may be shared. */
  ghost predicate IsRun(trace: seq<System>, evs: seq<Event>) {
    && |trace| == |evs| + 1 && trace[0] == INITIAL
    && forall i :: 0 <= i < |evs| ==> Enabled(trace[i], evs[i]) && trace[i + 1] == Next(trace[i], evs[i])
  }

  /** A run in which named files have URLs of their own. */
  ghost predicate OwnRun(trace: seq<System>, evs: seq<Event>) {
    IsRun(trace, evs) && forall i :: 0 <= i < |evs| ==> OwnUrl(trace[i], evs[i])
  }

  lemma {:induction false} ReachableInv(trace: seq<System>, evs: seq<Event>, k: nat)
    requires OwnRun(trace, evs) && k < |trace|
    ensures Inv(trace[k])
  {
    if k > 0 {
      ReachableInv(trace, evs, k - 1);
      StepInv(trace[k - 1], evs[k - 1]);
    }
  }

  /** In every reachable quiescent state: a named file is updating exactly when one request
      with its URL is pending or in flight, and there is none when it is not; the requests
      made are those completed, then the current one, then the pending ones; and every
      completed request gave one signal with its own URL. */
  lemma QuiescentState(trace: seq<System>, evs: seq<Event>, k: nat, s: System)
    requires OwnRun(trace, evs) && k < |trace| && s == trace[k] && s.e.Quiet?
    ensures forall f :: 0 <= f < |s.files| && s.files[f].Named() ==>
      multiset(s.q.Outstanding())[s.files[f].url] == if s.files[f].running then 1 else 0
    ensures s.scheduled == s.completed + s.q.Outstanding() && s.emitted == s.completed
    ensures !s.q.active ==> s.q.pending == []
  {
    ReachableInv(trace, evs, k);
    forall f | 0 <= f < |s.files| && s.files[f].Named()
      ensures multiset(s.q.Outstanding())[s.files[f].url] == Waiting(s, f)
    {
    }
  }

  // ---------- the number of requests ----------

  /** URLs of the files that are updating. */
  function RunningUrls(files: seq<File>): (r: set<Url>)
    ensures |r| <= |files|
  {
    if files == [] then {}
    else
      var last := files[|files| - 1];
      RunningUrls(files[..|files| - 1]) + if last.running then {last.url} else {}
  }

  lemma {:induction false} RunningUrlsHold(files: seq<File>, f: Id)
    requires f < |files| && files[f].running
    ensures files[f].url in RunningUrls(files)
  {
    if f < |files| - 1 {
      RunningUrlsHold(files[..|files| - 1], f);
    }
  }

  /** How many of these requests are for files. */
  function FileRequests(s: System, urls: seq<Url>): nat {
    if urls == [] then 0
    else FileRequests(s, urls[..|urls| - 1]) + if Owned(s, urls[|urls| - 1]) then 1 else 0
  }

  lemma {:induction false} RequestsBound(s: System, urls: seq<Url>, r: set<Url>)
    requires forall u :: u in urls && Owned(s, u) ==> u in r && multiset(urls)[u] == 1
    ensures FileRequests(s, urls) <= |r|
  {
    if urls != [] {
      var before, last := urls[..|urls| - 1], urls[|urls| - 1];
      assert urls == before + [last];
      if Owned(s, last) {
        RequestsBound(s, before, r - {last});
      } else {
        RequestsBound(s, before, r);
      }
    }
  }

  /** Between deliveries, the requests for files never outnumber the files. */
  lemma FewRequests(trace: seq<System>, evs: seq<Event>, k: nat, s: System)
    requires OwnRun(trace, evs) && k < |trace| && s == trace[k] && s.e.Quiet?
    ensures FileRequests(s, s.q.Outstanding()) <= |RunningUrls(s.files)| <= |s.files|
  {
    QuiescentState(trace, evs, k, s);
    forall u | u in s.q.Outstanding() && Owned(s, u)
      ensures u in RunningUrls(s.files) && multiset(s.q.Outstanding())[u] == 1
    {
      var f :| 0 <= f < |s.files| && s.files[f].Named() && s.files[f].url == u;
      assert multiset(s.q.Outstanding())[s.files[f].url] > 0;
      RunningUrlsHold(s.files, f);
    }
    RequestsBound(s, s.q.Outstanding(), RunningUrls(s.files));
  }

  // ---------- draining ----------

  /** Steps of the downloader itself, as opposed to calls from outside. */
  predicate Internal(ev: Event) {
    ev.Finish? || ev.Deliver? || ev.Disconnect? || ev.Clear? || ev.Release?
  }

  /** While a reply is in flight there is a next internal step. */
  function NextInternal(s: System, reply: Reply): (ev: Event)
    requires Inv(s) && s.q.active
    ensures Internal(ev) && Enabled(s, ev)
  {
    match s.e
    case Quiet => Finish(reply)
    case Emitting(_, _, receivers, slot) =>
      match slot
      case Handling(_) => Disconnect
      case Disconnected(_) => Clear
      case NoSlot => if receivers != [] then assert receivers[0] in receivers; Deliver else Release
  }

  /** Internal steps left in a delivery, its end not counted. */
  function Phase(e: Emission): nat {
    match e
    case Quiet => 0
    case Emitting(_, _, receivers, slot) =>
      3 * |receivers| + match slot case NoSlot => 0 case Disconnected(_) => 1 case Handling(_) => 2
  }

  /** The most internal steps one request can take: it is finished and released, and every
      connected file is called, disconnects and resets its flag. */
  function StepsPerRequest(connected: nat): nat {
    3 * connected + 2
  }

  /** A bound on the internal steps that are left when nothing is called from outside. */
  function Measure(s: System): nat {
    if s.e.Quiet? then |s.q.Outstanding()| * StepsPerRequest(|s.connections|)
    else
      var later := if s.q.Outstanding() == [] then 0 else |s.q.Outstanding()| - 1;
      Phase(s.e) + 1 + later * StepsPerRequest(|s.connections|)
  }

  lemma {:induction false} WithoutShrinks(ids: seq<Id>, f: Id)
    ensures |Without(ids, f)| <= |ids|
  {
    if ids != [] {
      WithoutShrinks(ids[1..], f);
    }
  }

  lemma TimesLess(n: nat, a: nat, b: nat)
    requires a <= b
    ensures n * a <= n * b
  {
  }

  lemma OneLess(n: nat, k: nat)
    requires n > 0
    ensures (n - 1) * k + k == n * k
  {
  }

  /** Every internal step comes closer to the idle state. */
  lemma InternalDecreases(s: System, ev: Event)
    requires Inv(s) && Internal(ev) && Enabled(s, ev)
    ensures Measure(Next(s, ev)) < Measure(s)
  {
    var n, c := |s.q.Outstanding()|, |s.connections|;
    match ev
    case Finish(_) => OneLess(n, StepsPerRequest(c));
    case Disconnect =>
      WithoutShrinks(s.connections, s.e.slot.f);
      TimesLess(n - 1, StepsPerRequest(|Without(s.connections, s.e.slot.f)|), StepsPerRequest(c));
    case Release => ReleaseCounts(s.q);
    case _ =>
  }

  /** Internal steps keep the invariant, the requests made and the number of files. */
  lemma InternalStep(s: System, ev: Event)
    requires Inv(s) && Internal(ev) && Enabled(s, ev)
    ensures Inv(Next(s, ev)) && Next(s, ev).scheduled == s.scheduled && |Next(s, ev).files| == |s.files|
  {
    StepInv(s, ev);
  }

  /** A run of the downloader alone from `s`, with any reply to each request. */
  ghost predicate InternalRun(s: System, trace: seq<System>, evs: seq<Event>) {
    && |trace| == |evs| + 1 && trace[0] == s
    && forall i :: 0 <= i < |evs| ==>
         Internal(evs[i]) && Enabled(trace[i], evs[i]) && trace[i + 1] == Next(trace[i], evs[i])
  }

  lemma {:induction false} InternalRunKeeps(s: System, trace: seq<System>, evs: seq<Event>, k: nat)
    requires Inv(s) && InternalRun(s, trace, evs) && k <= |evs|
    ensures Inv(trace[k]) && trace[k].scheduled == s.scheduled && |trace[k].files| == |s.files|
    ensures k + Measure(trace[k]) <= Measure(s)
  {
    if k > 0 {
      InternalRunKeeps(s, trace, evs, k - 1);
      InternalStep(trace[k - 1], evs[k - 1]);
      InternalDecreases(trace[k - 1], evs[k - 1]);
    }
  }

  ghost predicate Stuck(s: System) {
    forall ev :: Internal(ev) ==> !Enabled(s, ev)
  }

  /** Everything asked for is done, in order, and no file waits for anything. */
  predicate Idle(s: System) {
    && !s.q.active && s.q.pending == [] && s.e.Quiet?
    && s.completed == s.scheduled == s.emitted
    && forall f :: 0 <= f < |s.files| ==> !s.files[f].running
  }

  lemma IdleIffStuck(s: System, reply: Reply)
    requires Inv(s)
    ensures Stuck(s) <==> Idle(s)
    ensures !s.q.active <==> Idle(s)
  {
    if s.q.active {
      assert Enabled(s, NextInternal(s, reply));
    } else {
      forall f | 0 <= f < |s.files|
        ensures !s.files[f].running
      {
        assert s.files[f].Named() ==> Waiting(s, f) == 0;
      }
    }
  }

  /** Left alone, whatever the replies and their order: every run of internal steps is no
      longer than the measure of its first state, and it can go on until, and only until,
      everything that was scheduled is completed and no file is left updating. */
  lemma Drains(s: System, trace: seq<System>, evs: seq<Event>)
    requires Inv(s) && InternalRun(s, trace, evs)
    ensures |evs| <= Measure(s)
    ensures var t := trace[|evs|];
      && (Stuck(t) <==> Idle(t))
      && t.scheduled == s.scheduled && |t.files| == |s.files|
  {
    InternalRunKeeps(s, trace, evs, |evs|);
    IdleIffStuck(trace[|evs|], Reply(false, 0, None, Stamp(1, 1, 1, 0, 0, 0), 0, []));
  }

  // ---------- which names share a URL ----------

  function Key(section: string, name: string): string {
    section + "/" + name
  }

  /** `updateUrl` */
  function UrlOf(base: string, section: string, name: string): Url {
    base + (if section == "" then "" else "/" + section) + "/" + name
  }

  /** Two files have the same URL exactly when they have the same table key, or when one of
      them has no section and its name spells out the other one's section and name. */
  lemma SharedUrl(base: string, s1: string, n1: string, s2: string, n2: string)
    ensures UrlOf(base, s1, n1) == UrlOf(base, s2, n2) <==>
      if (s1 == "") == (s2 == "") then Key(s1, n1) == Key(s2, n2)
      else if s1 == "" then n1 == Key(s2, n2)
      else n2 == Key(s1, n1)
  {
    UrlIsKey(base, s1, n1);
    UrlIsKey(base, s2, n2);
    var k1 := if s1 == "" then n1 else Key(s1, n1);
    var k2 := if s2 == "" then n2 else Key(s2, n2);
    SamePrefix(base + "/", k1, k2);
    assert Key("", n1) == "/" + n1 && Key("", n2) == "/" + n2;
    SamePrefix("/", n1, n2);
  }

  lemma UrlIsKey(base: string, section: string, name: string)
    ensures UrlOf(base, section, name) == (base + "/") + if section == "" then name else Key(section, name)
  {
    if section == "" {
      assert base + "" + "/" + name == (base + "/") + name;
    } else {
      assert base + ("/" + section) + "/" + name == (base + "/") + (section + "/" + name);
    }
  }

  lemma SamePrefix(p: string, a: string, b: string)
    ensures p + a == p + b <==> a == b
  {
    assert (p + a)[|p|..] == a && (p + b)[|p|..] == b;
  }

  /** Such pairs exist. */
  lemma KeysMayShareUrl()
    ensures Key("", "a/b") != Key("a", "b") && UrlOf("x", "", "a/b") == UrlOf("x", "a", "b")
  {
    SharedUrl("x", "", "a/b", "a", "b");
    assert Key("", "a/b")[0] == '/' && Key("a", "b")[0] == 'a';
    assert "a" + "/" + "b" == "a/b";
  }

  /** Two updates and the first reply. */
  function SharedRun(k1: string, n1: string, k2: string, n2: string, url: Url, reply: Reply): seq<Event> {
    [GetFile(k1, n1, url), GetFile(k2, n2, url), Update(0), Update(1), Finish(reply),
     Deliver, Disconnect, Clear, Deliver, Disconnect, Clear, Release]
  }

  lemma ExtendRun(trace: seq<System>, evs: seq<Event>, ev: Event, t: System)
    requires IsRun(trace, evs) && Enabled(trace[|evs|], ev) && t == Next(trace[|evs|], ev)
    ensures IsRun(trace + [t], evs + [ev])
  {
  }

  /** Both files are registered and updating; both requests are out. */
  lemma SharedStart(k1: string, n1: string, k2: string, n2: string, url: Url) returns (trace: seq<System>)
    requires k1 != k2 && n1 != "" && n2 != ""
    ensures IsRun(trace, [GetFile(k1, n1, url), GetFile(k2, n2, url), Update(0), Update(1)])
    ensures trace[4] == System([File(n1, url, true), File(n2, url, true)], map[k1 := 0, k2 := 1], [0, 1],
      Queue(Some(url), true, [url]), Quiet, {}, [url, url], [], [])
  {
    var s1 := Lookup(INITIAL, k1, n1, url);
    var s2 := Lookup(s1, k2, n2, url);
    var s3 := UpdateFile(s2, 0);
    var s4 := UpdateFile(s3, 1);
    assert s2.files == [File(n1, url, false), File(n2, url, false)];
    assert s3.files == [File(n1, url, true), File(n2, url, false)] && s3.q == Queue(Some(url), true, []);
    assert s4.files == [File(n1, url, true), File(n2, url, true)] && s4.q == Queue(Some(url), true, [url]);
    assert s4.connections == [0, 1] && s4.scheduled == [url, url];
    trace := [INITIAL, s1, s2, s3, s4];
  }

  /** Distinct URLs are needed: any two named files that share one are both told that they
      are up to date by the first of two replies, while the second request is in flight. */
  lemma SharedUrlBreaks(k1: string, n1: string, k2: string, n2: string, url: Url, reply: Reply)
      returns (trace: seq<System>)
    requires k1 != k2 && n1 != "" && n2 != ""
    ensures IsRun(trace, SharedRun(k1, n1, k2, n2, url, reply))
    ensures var t := trace[|trace| - 1];
      && t.e.Quiet? && t.q.Outstanding() == [url] && |t.files| == 2
      && t.files[0].url == t.files[1].url == url && !t.files[0].running && !t.files[1].running
  {
    var evs := [GetFile(k1, n1, url), GetFile(k2, n2, url), Update(0), Update(1)];
    var sig := SignalOf(reply);
    trace := SharedStart(k1, n1, k2, n2, url);
    var s;
    trace, s := SharedMiddle(trace, evs, trace[4], url, reply);
    var evs8 := evs + [Finish(reply), Deliver, Disconnect, Clear];
    trace := SharedEnd(trace, evs8, s, url, sig);
    assert evs8 + [Deliver, Disconnect, Clear, Release] == SharedRun(k1, n1, k2, n2, url, reply);
  }

  lemma SharedMiddle(trace0: seq<System>, evs: seq<Event>, s: System, url: Url, reply: Reply)
      returns (trace: seq<System>, t: System)
    requires IsRun(trace0, evs) && trace0[|evs|] == s && |s.files| == 2 && s.e == Quiet && s.connections == [0, 1]
    requires s.q == Queue(Some(url), true, [url]) && s.emitted == []
    requires s.files[0].url == url == s.files[1].url
    ensures IsRun(trace, evs + [Finish(reply), Deliver, Disconnect, Clear]) && trace[|evs| + 4] == t && |t.files| == 2
    ensures t.e == Emitting(url, SignalOf(reply), [1], NoSlot) && t.connections == [1] && t.q == s.q
    ensures t.files[0].url == url == t.files[1].url && !t.files[0].running
  {
    var sig := SignalOf(reply);
    var s1 := s.(e := Emitting(url, sig, [0, 1], NoSlot), emitted := [url]);
    ExtendRun(trace0, evs, Finish(reply), s1);
    var s2 := s1.(e := Emitting(url, sig, [1], Handling(0)));
    ExtendRun(trace0 + [s1], evs + [Finish(reply)], Deliver, s2);
    var s3 := s2.(e := Emitting(url, sig, [1], Disconnected(0)), connections := [1]);
    assert Without([0, 1], 0) == [1] by { assert [0, 1][1..] == [1] && [1][1..] == []; }
    ExtendRun(trace0 + [s1] + [s2], evs + [Finish(reply)] + [Deliver], Disconnect, s3);
    t := s3.(e := Emitting(url, sig, [1], NoSlot), files := [s.files[0].(running := false), s.files[1]]);
    ExtendRun(trace0 + [s1] + [s2] + [s3], evs + [Finish(reply)] + [Deliver] + [Disconnect], Clear, t);
    trace := trace0 + [s1] + [s2] + [s3] + [t];
    assert evs + [Finish(reply)] + [Deliver] + [Disconnect] + [Clear]
      == evs + [Finish(reply), Deliver, Disconnect, Clear];
  }

  lemma SharedEnd(trace0: seq<System>, evs: seq<Event>, s: System, url: Url, sig: Signal) returns (trace: seq<System>)
    requires IsRun(trace0, evs) && trace0[|evs|] == s && |s.files| == 2
    requires s.e == Emitting(url, sig, [1], NoSlot) && s.connections == [1] && s.q == Queue(Some(url), true, [url])
    requires s.files[1].url == url == s.files[0].url && !s.files[0].running
    ensures IsRun(trace, evs + [Deliver, Disconnect, Clear, Release])
    ensures var t := trace[|trace| - 1];
      && t.e.Quiet? && t.q.Outstanding() == [url] && |t.files| == 2
      && t.files[0].url == t.files[1].url == url && !t.files[0].running && !t.files[1].running
  {
    var s1 := s.(e := Emitting(url, sig, [], Handling(1)));
    assert s.e.receivers[1..] == [];
    ExtendRun(trace0, evs, Deliver, s1);
    var s2 := s1.(e := Emitting(url, sig, [], Disconnected(1)), connections := []);
    assert Without([1], 1) == [] by { assert [1][1..] == []; }
    ExtendRun(trace0 + [s1], evs + [Deliver], Disconnect, s2);
    var s3 := s2.(e := Emitting(url, sig, [], NoSlot), files := [s.files[0], s.files[1].(running := false)]);
    ExtendRun(trace0 + [s1] + [s2], evs + [Deliver] + [Disconnect], Clear, s3);
    var s4 := s3.(e := Quiet, q := Queue(Some(url), true, []), completed := s3.completed + [url]);
    ExtendRun(trace0 + [s1] + [s2] + [s3], evs + [Deliver] + [Disconnect] + [Clear], Release, s4);
    trace := trace0 + [s1] + [s2] + [s3] + [s4];
    assert evs + [Deliver] + [Disconnect] + [Clear] + [Release] == evs + [Deliver, Disconnect, Clear, Release];
  }
}
