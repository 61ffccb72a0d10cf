/** `Env::getShared`: double-checked creation under a reader/writer lock, with weak references
    in the table, as interleaved steps of any number of threads. */
module SharedInstances {
  import opened Options

  type Class = string
  type Obj = nat
  datatype Pointer = Pointer(class_: Class, obj: Obj)

  /** Where a thread stands in `getShared`. `got` is the local strong pointer. */
  datatype Pc =
    | Outside
    | BeforeRead(c: Class)
    | Reading(c: Class)                    // holds the read lock
    | Looked(c: Class, got: Option<Obj>)   // still holds it
    | Checked(c: Class, got: Option<Obj>)  // read lock released
    | BeforeWrite(c: Class)
    | Writing(c: Class)                    // holds the write lock
    | Rechecked(c: Class, got: Option<Obj>)
    | Created(c: Class, obj: Obj)          // not in the table yet
    | Ready(c: Class, obj: Obj)            // in the table, lock still held
    | Done(c: Class, obj: Obj)

  predicate IsReader(pc: Pc) { pc.Reading? || pc.Looked? }

  predicate IsWriter(pc: Pc) { pc.Writing? || pc.Rechecked? || pc.Created? || pc.Ready? }

  /** The strong pointer a thread holds while it is inside. */
  function Local(pc: Pc): Option<Pointer> {
    match pc
    case Looked(c, Some(o)) => Some(Pointer(c, o))
    case Checked(c, Some(o)) => Some(Pointer(c, o))
    case Rechecked(c, Some(o)) => Some(Pointer(c, o))
    case Created(c, o) => Some(Pointer(c, o))
    case Ready(c, o) => Some(Pointer(c, o))
    case Done(c, o) => Some(Pointer(c, o))
    case _ => None
  }

  /** `table` holds weak references; `held` the pointers that callers got and still have. */
  datatype Env = Env(pcs: seq<Pc>, table: map<Class, Obj>, held: multiset<Pointer>, next: Obj)

  /** An object lives while a strong pointer to it exists. */
  predicate Live(e: Env, p: Pointer) {
    p in e.held || exists t :: 0 <= t < |e.pcs| && Local(e.pcs[t]) == Some(p)
  }

  predicate AnyLive(e: Env, c: Class) {
    (exists p :: p in e.held && p.class_ == c) ||
    exists t :: 0 <= t < |e.pcs| && Local(e.pcs[t]).Some? && Local(e.pcs[t]).value.class_ == c
  }

  /** Looking a class up makes a strong pointer of a weak one, if the object still lives. */
  function Promote(e: Env, c: Class): Option<Obj> {
    if c in e.table && Live(e, Pointer(c, e.table[c])) then Some(e.table[c]) else None
  }

  datatype Event =
    | Thread(t: nat, c: Class)   // the next step of a thread; `c` counts when it calls
    | Copy(p: Pointer)
    | Drop(p: Pointer)

  predicate NoWriter(e: Env) { forall t :: 0 <= t < |e.pcs| ==> !IsWriter(e.pcs[t]) }

  predicate NoReader(e: Env) { forall t :: 0 <= t < |e.pcs| ==> !IsReader(e.pcs[t]) }

  predicate Enabled(e: Env, ev: Event) {
    match ev
    case Thread(t, _) =>
      && t < |e.pcs|
      && (e.pcs[t].BeforeRead? ==> NoWriter(e))
      && (e.pcs[t].BeforeWrite? ==> NoWriter(e) && NoReader(e))
    case Copy(p) => p in e.held
    case Drop(p) => p in e.held
  }

  function Goto(e: Env, t: nat, pc: Pc): Env
    requires t < |e.pcs|
  {
    e.(pcs := e.pcs[t := pc])
  }

  function ThreadStep(e: Env, t: nat, call: Class): Env
    requires t < |e.pcs|
  {
    match e.pcs[t]
    case Outside => Goto(e, t, BeforeRead(call))
    case BeforeRead(c) => Goto(e, t, Reading(c))
    case Reading(c) => Goto(e, t, Looked(c, Promote(e, c)))
    case Looked(c, got) => Goto(e, t, Checked(c, got))
    case Checked(c, got) => Goto(e, t, if got.Some? then Done(c, got.value) else BeforeWrite(c))
    case BeforeWrite(c) => Goto(e, t, Writing(c))
    case Writing(c) => Goto(e, t, Rechecked(c, Promote(e, c)))
    case Rechecked(c, got) =>
      if got.Some? then Goto(e, t, Ready(c, got.value))
      else Goto(e, t, Created(c, e.next)).(next := e.next + 1)
    case Created(c, o) => Goto(e, t, Ready(c, o)).(table := e.table[c := o])
    case Ready(c, o) => Goto(e, t, Done(c, o))
    case Done(c, o) => Goto(e, t, Outside).(held := e.held + multiset{Pointer(c, o)})
  }

  function Next(e: Env, ev: Event): Env
    requires Enabled(e, ev)
  {
    match ev
    case Thread(t, c) => ThreadStep(e, t, c)
    case Copy(p) => e.(held := e.held + multiset{p})
    case Drop(p) => e.(held := e.held - multiset{p})
  }

  // ---------- the invariant ----------

  /** The reader/writer lock. */
  predicate Locked(e: Env) {
    && (forall t, u :: 0 <= t < |e.pcs| && 0 <= u < |e.pcs| && IsWriter(e.pcs[t]) && IsWriter(e.pcs[u]) ==> t == u)
    && (forall t, u :: 0 <= t < |e.pcs| && 0 <= u < |e.pcs| && IsWriter(e.pcs[t]) ==> !IsReader(e.pcs[u]))
  }

  predicate InTable(e: Env, p: Pointer) {
    p.class_ in e.table && e.table[p.class_] == p.obj
  }

  /** No strong pointer for the class but the one this thread may have. */
  predicate Alone(e: Env, t: nat, c: Class) {
    && (forall p :: p in e.held ==> p.class_ != c)
    && (forall u :: 0 <= u < |e.pcs| && u != t && Local(e.pcs[u]).Some? ==> Local(e.pcs[u]).value.class_ != c)
  }

  /** Every strong pointer points to the object in the table, except a pointer to an object
      that was just created; that one is alone. */
  predicate OneInstance(e: Env) {
    && (forall p :: p in e.held ==> InTable(e, p))
    && (forall t :: 0 <= t < |e.pcs| && Local(e.pcs[t]).Some? && !e.pcs[t].Created? ==>
          InTable(e, Local(e.pcs[t]).value))
    && (forall t :: 0 <= t < |e.pcs| && e.pcs[t].Created? ==> Alone(e, t, e.pcs[t].c))
    && (forall t :: 0 <= t < |e.pcs| && e.pcs[t].Rechecked? && e.pcs[t].got.None? ==> Alone(e, t, e.pcs[t].c))
  }

  /** Object identities are never reused. */
  predicate FreshIds(e: Env) {
    && (forall c :: c in e.table ==> e.table[c] < e.next)
    && (forall t :: 0 <= t < |e.pcs| && Local(e.pcs[t]).Some? ==> Local(e.pcs[t]).value.obj < e.next)
  }

  predicate Inv(e: Env) {
    Locked(e) && OneInstance(e) && FreshIds(e)
  }

  /** A failed lookup means that nothing of the class lives. */
  lemma PromoteNone(e: Env, t: nat, c: Class)
    requires Inv(e) && t < |e.pcs| && IsWriter(e.pcs[t]) && Promote(e, c).None?
    requires Local(e.pcs[t]).None?
    ensures Alone(e, t, c)
  {
    forall p | p in e.held
      ensures p.class_ != c
    {
      assert InTable(e, p) && Live(e, p);
      assert p == Pointer(p.class_, e.table[p.class_]);
    }
    forall u | 0 <= u < |e.pcs| && u != t && Local(e.pcs[u]).Some?
      ensures Local(e.pcs[u]).value.class_ != c
    {
      var p := Local(e.pcs[u]).value;
      assert Live(e, p) && InTable(e, p);
      assert p == Pointer(p.class_, e.table[p.class_]);
    }
  }

  lemma GotoLocked(e: Env, t: nat, pc: Pc)
    requires Locked(e) && t < |e.pcs|
    requires IsWriter(pc) ==> IsWriter(e.pcs[t]) || (NoWriter(e) && NoReader(e))
    requires IsReader(pc) ==> IsReader(e.pcs[t]) || NoWriter(e)
    ensures Locked(Goto(e, t, pc))
  {
  }

  predicate OnlyWriter(e: Env, t: nat) {
    forall u :: 0 <= u < |e.pcs| && u != t ==> !IsWriter(e.pcs[u])
  }

  /** A thread moves on without touching the table or the pointers of others. */
  lemma GotoInv(e: Env, t: nat, pc: Pc)
    requires Inv(e) && t < |e.pcs| && !pc.Created?
    requires IsWriter(pc) ==> IsWriter(e.pcs[t]) || (NoWriter(e) && NoReader(e))
    requires IsReader(pc) ==> IsReader(e.pcs[t]) || NoWriter(e)
    requires Local(pc).Some? ==> InTable(e, Local(pc).value) && (Local(pc) == Local(e.pcs[t]) || OnlyWriter(e, t))
    requires pc.Rechecked? && pc.got.None? ==> Alone(e, t, pc.c)
    ensures Inv(Goto(e, t, pc))
  {
    var n := Goto(e, t, pc);
    GotoLocked(e, t, pc);
    GotoAlone(e, t, pc);
    assert forall u :: 0 <= u < |e.pcs| && u != t ==> n.pcs[u] == e.pcs[u];
  }

  lemma GotoAlone(e: Env, t: nat, pc: Pc)
    requires t < |e.pcs|
    requires Local(pc).Some? ==> Local(pc) == Local(e.pcs[t]) || OnlyWriter(e, t)
    ensures forall u, c :: 0 <= u < |e.pcs| && IsWriter(e.pcs[u]) && Alone(e, u, c) ==>
      u == t || Alone(Goto(e, t, pc), u, c)
    ensures forall c :: Alone(e, t, c) ==> Alone(Goto(e, t, pc), t, c)
  {
  }

  /** A new object is made: the thread was alone with its class. */
  lemma CreateInv(e: Env, t: nat)
    requires Inv(e) && t < |e.pcs| && e.pcs[t].Rechecked? && e.pcs[t].got.None?
    ensures Inv(Goto(e, t, Created(e.pcs[t].c, e.next)).(next := e.next + 1))
  {
    var pc := Created(e.pcs[t].c, e.next);
    var n := Goto(e, t, pc).(next := e.next + 1);
    GotoLocked(e, t, pc);
    assert OnlyWriter(e, t);
    GotoAlone(e, t, pc);
    assert Alone(n, t, pc.c);
    assert forall u :: 0 <= u < |e.pcs| && u != t ==> n.pcs[u] == e.pcs[u];
  }

  /** The new object enters the table; the entry it replaces was dead. */
  lemma InsertInv(e: Env, t: nat)
    requires Inv(e) && t < |e.pcs| && e.pcs[t].Created?
    ensures Inv(Goto(e, t, Ready(e.pcs[t].c, e.pcs[t].obj)).(table := e.table[e.pcs[t].c := e.pcs[t].obj]))
  {
    var c, o := e.pcs[t].c, e.pcs[t].obj;
    var n := Goto(e, t, Ready(c, o)).(table := e.table[c := o]);
    GotoLocked(e, t, Ready(c, o));
    assert OnlyWriter(e, t);
    assert Alone(e, t, c);
    assert forall u :: 0 <= u < |e.pcs| && u != t ==> n.pcs[u] == e.pcs[u];
  }

  lemma ReturnInv(e: Env, t: nat)
    requires Inv(e) && t < |e.pcs| && e.pcs[t].Done?
    ensures Inv(Goto(e, t, Outside).(held := e.held + multiset{Pointer(e.pcs[t].c, e.pcs[t].obj)}))
  {
    var p := Pointer(e.pcs[t].c, e.pcs[t].obj);
    var n := Goto(e, t, Outside).(held := e.held + multiset{p});
    assert Local(e.pcs[t]) == Some(p);
    GotoLocked(e, t, Outside);
    assert forall u :: 0 <= u < |e.pcs| && u != t ==> n.pcs[u] == e.pcs[u];
  }

  /** A thread under the lock sees no other writer. */
  lemma LockExcludes(e: Env, t: nat)
    requires Locked(e) && t < |e.pcs| && (IsReader(e.pcs[t]) || IsWriter(e.pcs[t]))
    ensures OnlyWriter(e, t)
  {
  }

  /** A lookup, in either place. */
  lemma LookupInv(e: Env, t: nat, call: Class)
    requires Inv(e) && t < |e.pcs| && (e.pcs[t].Reading? || e.pcs[t].Writing?)
    ensures Inv(ThreadStep(e, t, call))
  {
    LockExcludes(e, t);
    var c := e.pcs[t].c;
    if e.pcs[t].Reading? {
      GotoInv(e, t, Looked(c, Promote(e, c)));
    } else {
      if Promote(e, c).None? {
        PromoteNone(e, t, c);
      }
      GotoInv(e, t, Rechecked(c, Promote(e, c)));
    }
  }

  /** The local pointer is kept, and the table entry with it. */
  lemma KeepInv(e: Env, t: nat, pc: Pc)
    requires Inv(e) && t < |e.pcs| && !e.pcs[t].Created? && !pc.Created? && !pc.Rechecked?
    requires Local(pc).Some? ==> Local(pc) == Local(e.pcs[t])
    requires IsWriter(pc) ==> IsWriter(e.pcs[t]) || (NoWriter(e) && NoReader(e))
    requires IsReader(pc) ==> IsReader(e.pcs[t]) || NoWriter(e)
    ensures Inv(Goto(e, t, pc))
  {
    GotoInv(e, t, pc);
  }

  /** Locking, unlocking and checking. */
  lemma LockStepInv(e: Env, t: nat, call: Class)
    requires Inv(e) && Enabled(e, Thread(t, call))
    requires !e.pcs[t].Reading? && !e.pcs[t].Writing? && !e.pcs[t].Created? && !e.pcs[t].Done?
    requires e.pcs[t].Rechecked? ==> e.pcs[t].got.Some?
    ensures Inv(ThreadStep(e, t, call))
  {
    match e.pcs[t]
    case Outside => KeepInv(e, t, BeforeRead(call));
    case BeforeRead(c) => KeepInv(e, t, Reading(c));
    case Looked(c, got) => KeepInv(e, t, Checked(c, got));
    case Checked(c, got) => KeepInv(e, t, if got.Some? then Done(c, got.value) else BeforeWrite(c));
    case BeforeWrite(c) => KeepInv(e, t, Writing(c));
    case Rechecked(c, got) => KeepInv(e, t, Ready(c, got.value));
    case Ready(c, o) => KeepInv(e, t, Done(c, o));
  }

  /** The only writer creates an object. */
  lemma CreateStepInv(e: Env, t: nat, call: Class)
    requires Inv(e) && Enabled(e, Thread(t, call)) && e.pcs[t].Rechecked? && e.pcs[t].got.None?
    ensures Inv(ThreadStep(e, t, call))
  {
    var n := Goto(e, t, Created(e.pcs[t].c, e.next)).(next := e.next + 1);
    assert Inv(n) by {
      CreateInv(e, t);
    }
    assert ThreadStep(e, t, call) == n;
  }

  /** The only writer puts it into the table. */
  lemma InsertStepInv(e: Env, t: nat, call: Class)
    requires Inv(e) && Enabled(e, Thread(t, call)) && e.pcs[t].Created?
    ensures Inv(ThreadStep(e, t, call))
  {
    var n := Goto(e, t, Ready(e.pcs[t].c, e.pcs[t].obj)).(table := e.table[e.pcs[t].c := e.pcs[t].obj]);
    assert Inv(n) by {
      InsertInv(e, t);
    }
    assert ThreadStep(e, t, call) == n;
  }

  lemma ThreadStepInv(e: Env, t: nat, call: Class)
    requires Inv(e) && Enabled(e, Thread(t, call))
    ensures Inv(ThreadStep(e, t, call))
  {
    if e.pcs[t].Reading? || e.pcs[t].Writing? {
      LookupInv(e, t, call);
    } else if e.pcs[t].Created? {
      InsertStepInv(e, t, call);
    } else if e.pcs[t].Rechecked? && e.pcs[t].got.None? {
      CreateStepInv(e, t, call);
    } else if e.pcs[t].Done? {
      ReturnInv(e, t);
    } else {
      LockStepInv(e, t, call);
    }
  }

  /** Copying and dropping pointers adds none that was not held before. */
  lemma HeldInv(e: Env, held: multiset<Pointer>)
    requires Inv(e) && forall p :: p in held ==> p in e.held
    ensures Inv(e.(held := held))
  {
    var n := e.(held := held);
    assert forall t, c :: Alone(e, t, c) ==> Alone(n, t, c);
  }

  lemma StepInv(e: Env, ev: Event)
    requires Inv(e) && Enabled(e, ev)
    ensures Inv(Next(e, ev))
  {
    match ev
    case Thread(t, c) => ThreadStepInv(e, t, c);
    case Copy(p) => HeldInv(e, e.held + multiset{p});
    case Drop(p) => HeldInv(e, e.held - multiset{p});
  }

  // ---------- whole runs ----------

  /** Any number of threads, any order of their steps, with pointers copied and dropped in between. */
  ghost predicate IsRun(trace: seq<Env>, evs: seq<Event>) {
    && |trace| == |evs| + 1
    && (forall t :: 0 <= t < |trace[0].pcs| ==> trace[0].pcs[t] == Outside)
    && trace[0].table == map[] && trace[0].held == multiset{}
    && forall i :: 0 <= i < |evs| ==> Enabled(trace[i], evs[i]) && trace[i + 1] == Next(trace[i], evs[i])
  }

  lemma RunStep(trace: seq<Env>, evs: seq<Event>, i: nat, k: nat)
    requires IsRun(trace, evs) && i < |evs| && k == i + 1
    ensures Enabled(trace[i], evs[i]) && trace[k] == Next(trace[i], evs[i])
  {
  }

  lemma {:induction false} RunInv(trace: seq<Env>, evs: seq<Event>, k: nat)
    requires IsRun(trace, evs) && k < |trace|
    ensures Inv(trace[k])
  {
    if k > 0 {
      RunInv(trace, evs, k - 1);
      StepInv(trace[k - 1], evs[k - 1]);
    }
  }

  /** All pointers that were returned for one class and are still held point to one object,
      the one in the table; a thread about to return one agrees with them. */
  lemma OneSharedInstance(trace: seq<Env>, evs: seq<Event>, k: nat, e: Env)
    requires IsRun(trace, evs) && k < |trace| && e == trace[k]
    ensures forall p, q :: p in e.held && q in e.held && p.class_ == q.class_ ==> p.obj == q.obj
    ensures forall p :: p in e.held ==> p.class_ in e.table && e.table[p.class_] == p.obj
    ensures forall t, p :: 0 <= t < |e.pcs| && e.pcs[t].Done? && p in e.held && p.class_ == e.pcs[t].c ==>
      p.obj == e.pcs[t].obj
  {
    RunInv(trace, evs, k);
    forall t, p | 0 <= t < |e.pcs| && e.pcs[t].Done? && p in e.held && p.class_ == e.pcs[t].c
      ensures p.obj == e.pcs[t].obj
    {
      assert InTable(e, p) && Local(e.pcs[t]).Some?;
    }
  }

  /** An object is created only when no object of its class lives. */
  lemma CreatedOnlyWhenNoneLives(trace: seq<Env>, evs: seq<Event>, k: nat)
    requires IsRun(trace, evs) && k < |evs| && trace[k + 1].next != trace[k].next
    ensures evs[k].Thread? && trace[k].pcs[evs[k].t].Rechecked?
    ensures !AnyLive(trace[k], trace[k].pcs[evs[k].t].c)
  {
    RunInv(trace, evs, k);
    var e, t := trace[k], evs[k].t;
    assert Alone(e, t, e.pcs[t].c);
  }

  // ---------- what callers get ----------

  /** The step with which a call returns. */
  predicate Returns(e: Env, ev: Event, p: Pointer) {
    ev.Thread? && ev.t < |e.pcs| && e.pcs[ev.t] == Done(p.class_, p.obj)
  }

  function Flag(b: bool): nat { if b then 1 else 0 }

  /** Calls that have returned this pointer. */
  ghost function Returned(trace: seq<Env>, evs: seq<Event>, p: Pointer, k: nat): nat
    requires k <= |evs| < |trace|
  {
    if k == 0 then 0 else Returned(trace, evs, p, k - 1) + Flag(Returns(trace[k - 1], evs[k - 1], p))
  }

  function Copied(evs: seq<Event>, p: Pointer, k: nat): nat
    requires k <= |evs|
  {
    if k == 0 then 0 else Copied(evs, p, k - 1) + Flag(evs[k - 1] == Copy(p))
  }

  function Dropped(evs: seq<Event>, p: Pointer, k: nat): nat
    requires k <= |evs|
  {
    if k == 0 then 0 else Dropped(evs, p, k - 1) + Flag(evs[k - 1] == Drop(p))
  }

  lemma StepCounts(e: Env, ev: Event, p: Pointer, n: Env)
    requires Enabled(e, ev) && n == Next(e, ev)
    ensures n.held[p] + Flag(ev == Drop(p)) == e.held[p] + Flag(Returns(e, ev, p)) + Flag(ev == Copy(p))
  {
  }

  /** Every call that returned has given its caller one pointer more, and nothing else does but
      copying: the pointers held are those returned and copied, without those dropped. */
  lemma {:induction false} HeldIsReturned(trace: seq<Env>, evs: seq<Event>, p: Pointer, k: nat)
    requires IsRun(trace, evs) && k <= |evs|
    ensures trace[k].held[p] + Dropped(evs, p, k) == Returned(trace, evs, p, k) + Copied(evs, p, k)
  {
    if k > 0 {
      var i := k - 1;
      HeldIsReturned(trace, evs, p, i);
      RunStep(trace, evs, i, k);
      StepCounts(trace[i], evs[i], p, trace[k]);
    }
  }

  /** The pointers held for a class; there are no others of it, by `OneSharedInstance`. */
  function HeldFor(e: Env, c: Class): nat {
    if c in e.table then e.held[Pointer(c, e.table[c])] else 0
  }

  /** Calls for the class that have returned. */
  ghost function Finished(trace: seq<Env>, evs: seq<Event>, c: Class, k: nat): nat
    requires k <= |evs| < |trace|
  {
    if k == 0 then 0
    else Finished(trace, evs, c, k - 1) + Flag(FinishesFor(trace[k - 1], evs[k - 1], c))
  }

  predicate FinishesFor(e: Env, ev: Event, c: Class) {
    ev.Thread? && ev.t < |e.pcs| && e.pcs[ev.t].Done? && e.pcs[ev.t].c == c
  }

  function CopiedFor(evs: seq<Event>, c: Class, k: nat): nat
    requires k <= |evs|
  {
    if k == 0 then 0 else CopiedFor(evs, c, k - 1) + Flag(evs[k - 1].Copy? && evs[k - 1].p.class_ == c)
  }

  function DroppedFor(evs: seq<Event>, c: Class, k: nat): nat
    requires k <= |evs|
  {
    if k == 0 then 0 else DroppedFor(evs, c, k - 1) + Flag(evs[k - 1].Drop? && evs[k - 1].p.class_ == c)
  }

  lemma ClassCounts(e: Env, ev: Event, c: Class, n: Env)
    requires Inv(e) && Enabled(e, ev) && n == Next(e, ev)
    ensures HeldFor(n, c) + Flag(ev.Drop? && ev.p.class_ == c)
      == HeldFor(e, c) + Flag(FinishesFor(e, ev, c)) + Flag(ev.Copy? && ev.p.class_ == c)
  {
    match ev
    case Copy(p) => assert InTable(e, p);
    case Drop(p) => assert InTable(e, p);
    case Thread(t, call) => ThreadCounts(e, t, call, c, n);
  }

  lemma ThreadCounts(e: Env, t: nat, call: Class, c: Class, n: Env)
    requires Inv(e) && t < |e.pcs| && n == ThreadStep(e, t, call)
    ensures HeldFor(n, c) == HeldFor(e, c) + Flag(e.pcs[t].Done? && e.pcs[t].c == c)
  {
    if e.pcs[t].Created? {
      assert Alone(e, t, e.pcs[t].c);
    } else if e.pcs[t].Done? {
      assert InTable(e, Local(e.pcs[t]).value);
    }
  }

  /** So for each class: as many pointers are held as calls for it have returned and copies were
      made, less those dropped, whichever objects they were. */
  lemma {:induction false} HeldIsFinished(trace: seq<Env>, evs: seq<Event>, c: Class, k: nat)
    requires IsRun(trace, evs) && k <= |evs|
    ensures HeldFor(trace[k], c) + DroppedFor(evs, c, k) == Finished(trace, evs, c, k) + CopiedFor(evs, c, k)
  {
    if k > 0 {
      var i := k - 1;
      HeldIsFinished(trace, evs, c, i);
      RunInv(trace, evs, i);
      RunStep(trace, evs, i, k);
      ClassCounts(trace[i], evs[i], c, trace[k]);
    }
  }

  /** The class a thread is asking for. */
  function Asked(pc: Pc): Option<Class> {
    if pc.Outside? then None else Some(pc.c)
  }

  /** From its entry to its return a call is about one class. */
  lemma {:induction false} CallKeepsClass(trace: seq<Env>, evs: seq<Event>, t: nat, c: Class, i: nat, j: nat)
    requires IsRun(trace, evs) && i < j <= |evs| && t < |trace[i].pcs|
    requires evs[i] == Thread(t, c) && trace[i].pcs[t] == Outside
    requires forall m :: i < m <= j ==> t < |trace[m].pcs| && trace[m].pcs[t] != Outside
    ensures Asked(trace[j].pcs[t]) == Some(c)
  {
    var m := j - 1;
    RunStep(trace, evs, m, j);
    if m > i {
      CallKeepsClass(trace, evs, t, c, i, m);
      OneStepKeepsClass(trace[m], evs[m], t, trace[j]);
    } else {
      EntryAsks(trace[i], t, c, trace[j]);
    }
  }

  lemma EntryAsks(e: Env, t: nat, c: Class, n: Env)
    requires t < |e.pcs| && e.pcs[t] == Outside && n == ThreadStep(e, t, c)
    ensures Asked(n.pcs[t]) == Some(c)
  {
  }

  lemma OneStepKeepsClass(e: Env, ev: Event, t: nat, n: Env)
    requires Enabled(e, ev) && n == Next(e, ev) && t < |e.pcs| && !e.pcs[t].Outside? && !n.pcs[t].Outside?
    ensures Asked(n.pcs[t]) == Asked(e.pcs[t])
  {
  }

  /** A call for a class, from its entry at `i` to its return at `j`: the caller has one pointer of
      that class more, to the object in the table. */
  lemma CallReturnsPointer(trace: seq<Env>, evs: seq<Event>, t: nat, c: Class, i: nat, j: nat)
    requires IsRun(trace, evs) && i < j < |evs| && t < |trace[i].pcs|
    requires evs[i] == Thread(t, c) && trace[i].pcs[t] == Outside
    requires forall m :: i < m <= j ==> t < |trace[m].pcs| && trace[m].pcs[t] != Outside
    requires evs[j].Thread? && evs[j].t == t && Next(trace[j], evs[j]).pcs[t] == Outside
    ensures c in trace[j + 1].table
    ensures trace[j + 1].held == trace[j].held + multiset{Pointer(c, trace[j + 1].table[c])}
  {
    CallKeepsClass(trace, evs, t, c, i, j);
    RunInv(trace, evs, j);
    assert trace[j].pcs[t].Done? && Local(trace[j].pcs[t]).Some?;
  }

  /** While a pointer is held its object lives: every look-up for its class finds this object. */
  lemma HeldIsFound(trace: seq<Env>, evs: seq<Event>, k: nat, p: Pointer)
    requires IsRun(trace, evs) && k < |trace| && p in trace[k].held
    ensures Promote(trace[k], p.class_) == Some(p.obj)
  {
    RunInv(trace, evs, k);
    assert InTable(trace[k], p);
  }

  /** An object that was just made is not yet the one in the table. */
  predicate Unseen(e: Env) {
    forall t :: 0 <= t < |e.pcs| && e.pcs[t].Created? ==> !InTable(e, Pointer(e.pcs[t].c, e.pcs[t].obj))
  }

  lemma StepUnseen(e: Env, ev: Event, n: Env)
    requires Inv(e) && Unseen(e) && Enabled(e, ev) && n == Next(e, ev)
    ensures Unseen(n)
  {
    if ev.Thread? {
      forall u | 0 <= u < |n.pcs| && n.pcs[u].Created?
        ensures !InTable(n, Pointer(n.pcs[u].c, n.pcs[u].obj))
      {
        ThreadUnseen(e, ev.t, ev.c, n, u);
      }
    }
  }

  lemma ThreadUnseen(e: Env, t: nat, call: Class, n: Env, u: nat)
    requires Locked(e) && FreshIds(e) && Unseen(e) && t < |e.pcs| && n == ThreadStep(e, t, call)
    requires u < |n.pcs| && n.pcs[u].Created?
    ensures !InTable(n, Pointer(n.pcs[u].c, n.pcs[u].obj))
  {
    if u != t {
      assert n.pcs[u] == e.pcs[u] && IsWriter(e.pcs[u]);
      assert !e.pcs[t].Created?;
    } else {
      assert e.pcs[t].Rechecked?;
    }
  }

  lemma {:induction false} RunUnseen(trace: seq<Env>, evs: seq<Event>, k: nat)
    requires IsRun(trace, evs) && k < |trace|
    ensures Unseen(trace[k])
  {
    if k > 0 {
      var i := k - 1;
      RunUnseen(trace, evs, i);
      RunInv(trace, evs, i);
      RunStep(trace, evs, i, k);
      StepUnseen(trace[i], evs[i], trace[k]);
    }
  }

  /** A look-up finds nothing exactly when no pointer for the class is left, but for one that a
      thread has just made and not yet put into the table. */
  lemma NothingFound(trace: seq<Env>, evs: seq<Event>, k: nat, c: Class)
    requires IsRun(trace, evs) && k < |trace|
    ensures Promote(trace[k], c).None? <==>
      !AnyLive(trace[k], c) || exists t :: 0 <= t < |trace[k].pcs| && trace[k].pcs[t].Created? && trace[k].pcs[t].c == c
  {
    RunInv(trace, evs, k);
    RunUnseen(trace, evs, k);
    var e := trace[k];
    if Promote(e, c).Some? {
      LiveIsAny(e, Pointer(c, e.table[c]));
    }
    if t :| 0 <= t < |e.pcs| && e.pcs[t].Created? && e.pcs[t].c == c {
      CreatedIsUnseen(e, t);
    } else if AnyLive(e, c) {
      LiveIsFound(e, c);
    }
  }

  lemma CreatedIsUnseen(e: Env, t: nat)
    requires Inv(e) && Unseen(e) && t < |e.pcs| && e.pcs[t].Created?
    ensures Promote(e, e.pcs[t].c).None?
  {
    assert Alone(e, t, e.pcs[t].c) && Local(e.pcs[t]) == Some(Pointer(e.pcs[t].c, e.pcs[t].obj));
  }

  lemma LiveIsFound(e: Env, c: Class)
    requires Inv(e) && AnyLive(e, c) && forall t :: 0 <= t < |e.pcs| && e.pcs[t].Created? ==> e.pcs[t].c != c
    ensures Promote(e, c).Some?
  {
    if p :| p in e.held && p.class_ == c {
      assert InTable(e, p) && p == Pointer(c, e.table[c]);
    } else {
      var t :| 0 <= t < |e.pcs| && Local(e.pcs[t]).Some? && Local(e.pcs[t]).value.class_ == c;
      assert InTable(e, Local(e.pcs[t]).value) && Local(e.pcs[t]).value == Pointer(c, e.table[c]);
    }
  }

  lemma LiveIsAny(e: Env, p: Pointer)
    requires Live(e, p)
    ensures AnyLive(e, p.class_)
  {
  }

  /** Steps a call has still to make. */
  function StepsLeft(pc: Pc): nat {
    match pc
    case Outside => 0
    case BeforeRead(_) => 10
    case Reading(_) => 9
    case Looked(_, _) => 8
    case Checked(_, _) => 7
    case BeforeWrite(_) => 6
    case Writing(_) => 5
    case Rechecked(_, _) => 4
    case Created(_, _) => 3
    case Ready(_, _) => 2
    case Done(_, _) => 1
  }

  /** No call goes round in circles: each of its steps brings it closer to its return. */
  lemma CallAdvances(e: Env, t: nat, call: Class)
    requires t < |e.pcs| && !e.pcs[t].Outside?
    ensures StepsLeft(ThreadStep(e, t, call).pcs[t]) < StepsLeft(e.pcs[t]) <= 10
  {
  }

  /** A thread that can move although others wait. */
  predicate CanMove(e: Env, t: nat) {
    t < |e.pcs| && !e.pcs[t].Outside? && Enabled(e, Thread(t, ""))
  }

  /** No deadlock: while some thread is inside, one of those inside can move. */
  lemma SomeThreadMoves(e: Env, t: nat) returns (u: nat)
    requires Locked(e) && t < |e.pcs| && !e.pcs[t].Outside?
    ensures CanMove(e, u)
  {
    if w :| 0 <= w < |e.pcs| && IsWriter(e.pcs[w]) {
      u := w;
    } else if r :| 0 <= r < |e.pcs| && IsReader(e.pcs[r]) {
      u := r;
    } else {
      u := t;
    }
  }
}
