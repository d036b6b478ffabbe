/** The invariant of the worker pipes and why every event keeps it. */
module WorkerPipeInvariant {
  import opened Options
  import opened WorkerPipe

  // References in use.

  /** The counted references of an operation under way. */
  function PcSabs(pc: Pc): multiset<nat> {
    match pc
    case PostDup(_, m, i) => if i <= |m.sabs| then multiset(m.sabs[..i]) else multiset{}
    case PostLock(_, m) => multiset(m.sabs)
    case PostSignal(_, m) => multiset(m.sabs)
    case PostAppend(_, m) => multiset(m.sabs)
    case TakeClear(_, m) => multiset(m.sabs)
    case TakeUnlock(_, m) => multiset(m.sabs)
    case Reading(_, m, _) => multiset(m.sabs)
    case Freeing(_, m, i) => if i <= |m.sabs| then multiset(m.sabs[i..]) else multiset{}
    case DrainMessage(_, m, i) => if i <= |m.sabs| then multiset(m.sabs[i..]) else multiset{}
    case _ => multiset{}
  }

  function ThreadUse(a: Thread): multiset<nat> { a.sabs + PcSabs(a.pc) }

  function ThreadsUse(ts: seq<Thread>): multiset<nat> {
    if ts == [] then multiset{} else ThreadsUse(ts[..|ts| - 1]) + ThreadUse(ts[|ts| - 1])
  }

  function QueueUse(q: seq<Message>): multiset<nat> {
    if q == [] then multiset{} else QueueUse(q[..|q| - 1]) + multiset(q[|q| - 1].sabs)
  }

  function PipesUse(ps: seq<Pipe>): multiset<nat> {
    if ps == [] then multiset{} else PipesUse(ps[..|ps| - 1]) + QueueUse(ps[|ps| - 1].queue)
  }

  /** References to buffer k: held by threads, in queued messages and in messages under way. */
  function SabUse(s: State, k: nat): nat { ThreadsUse(s.threads)[k] + PipesUse(s.pipes)[k] }

  function PipesHeld(ts: seq<Thread>): multiset<nat> {
    if ts == [] then multiset{} else PipesHeld(ts[..|ts| - 1]) + ts[|ts| - 1].pipes
  }

  /** References to pipe p held by threads. */
  function PipeUse(s: State, p: nat): nat { PipesHeld(s.threads)[p] }

  lemma {:induction false} ThreadsUsePut(ts: seq<Thread>, t: nat, a: Thread, k: nat)
    requires t < |ts|
    ensures ThreadsUse(ts[t := a])[k] + ThreadUse(ts[t])[k] == ThreadsUse(ts)[k] + ThreadUse(a)[k]
    decreases |ts|
  {
    hide ThreadUse;
    var n := |ts| - 1;
    var us := ts[t := a];
    if t < n {
      ThreadsUsePut(ts[..n], t, a, k);
      assert us[..n] == ts[..n][t := a];
    } else {
      assert us[..n] == ts[..n];
    }
  }

  lemma {:induction false} PipesHeldPut(ts: seq<Thread>, t: nat, a: Thread, k: nat)
    requires t < |ts|
    ensures PipesHeld(ts[t := a])[k] + ts[t].pipes[k] == PipesHeld(ts)[k] + a.pipes[k]
    decreases |ts|
  {
    var n := |ts| - 1;
    var us := ts[t := a];
    if t < n {
      PipesHeldPut(ts[..n], t, a, k);
      assert us[..n] == ts[..n][t := a];
    } else {
      assert us[..n] == ts[..n];
    }
  }

  lemma {:induction false} PipesUsePut(ps: seq<Pipe>, p: nat, q: Pipe, k: nat)
    requires p < |ps|
    ensures PipesUse(ps[p := q])[k] + QueueUse(ps[p].queue)[k] == PipesUse(ps)[k] + QueueUse(q.queue)[k]
    decreases |ps|
  {
    hide QueueUse;
    var n := |ps| - 1;
    var us := ps[p := q];
    if p < n {
      PipesUsePut(ps[..n], p, q, k);
      assert us[..n] == ps[..n][p := q];
    } else {
      assert us[..n] == ps[..n];
    }
  }

  lemma {:induction false} QueueUseFirst(ms: seq<Message>)
    requires ms != []
    ensures QueueUse(ms) == multiset(ms[0].sabs) + QueueUse(ms[1..])
    decreases |ms|
  {
    var n := |ms| - 1;
    if n == 0 {
      assert ms[..0] == [] && ms[1..] == [];
    } else {
      QueueUseFirst(ms[..n]);
      assert ms[..n][1..] == ms[1..][..n - 1] && ms[1..][n - 1] == ms[n];
    }
  }

  lemma SliceUse(s: seq<nat>, i: nat)
    requires i < |s|
    ensures multiset(s[..i + 1]) == multiset(s[..i]) + multiset{s[i]}
    ensures multiset(s[i..]) == multiset{s[i]} + multiset(s[i + 1..])
    ensures s[i] in multiset(s)
  {
    assert s[..i + 1] == s[..i] + [s[i]] && s[i..] == [s[i]] + s[i + 1..];
  }

  // Invariants.

  predicate Drains(pc: Pc, p: nat) { (pc.Draining? || pc.DrainMessage?) && pc.p == p }

  /** A thread that has the message m of p between taking and finishing it. */
  function Holding(pc: Pc, p: nat): seq<nat> {
    if (pc.TakeClear? || pc.TakeUnlock? || pc.Reading? || pc.Freeing?) && pc.p == p then [pc.m.id] else []
  }

  predicate Posting(pc: Pc) { pc.PostDup? || pc.PostLock? || pc.PostSignal? || pc.PostAppend? }

  function Ids(q: seq<Message>): seq<nat> { seq(|q|, i requires 0 <= i < |q| => q[i].id) }

  function InFlight(s: State, p: nat): seq<nat>
    requires p < |s.pipes|
  {
    var r := s.pipes[p].receiver;
    if r < |s.threads| then Holding(s.threads[r].pc, p) else []
  }

  /** The bytes in the wake pipe while no thread is inside the mutex. */
  function Quiet(q: Pipe): nat { if q.queue != [] && q.wrote then 1 else 0 }

  function WakeBytes(s: State, q: Pipe): nat {
    if q.lock == None || q.lock.value >= |s.threads| then Quiet(q)
    else
      var pc := s.threads[q.lock.value].pc;
      if pc.PostAppend? then (if q.wrote then 1 else 0) else if pc.TakeClear? then 1 else Quiet(q)
  }

  predicate IndexOk(pc: Pc) {
    pc.PostDup? || pc.Reading? || pc.Freeing? || pc.DrainMessage? ==> pc.i <= |pc.m.sabs|
  }

  predicate ThreadOk(s: State, t: nat)
    requires t < |s.threads|
  {
    var a, pc := s.threads[t], s.threads[t].pc;
    !pc.Idle? ==>
      && pc.p < |s.pipes| && IndexOk(pc)
      && var q := s.pipes[pc.p];
      && (Drains(pc, pc.p) ==> q.refCount == 0 && !q.freed && q.lock == None)
      && (!Drains(pc, pc.p) ==> pc.p in a.pipes)
      && (InLock(pc) <==> q.lock == Some(t))
      && (pc.TakeLock? || pc.TakeFirst? || pc.EmptyUnlock? || Holding(pc, pc.p) != [] ==> q.receiver == t)
      && (pc.TakeLock? || pc.TakeFirst? ==> q.wake == 1)
      && (pc.TakeClear? ==> q.wrote)
      && (pc.PostDup? ==> forall i :: 0 <= i < |pc.m.sabs| ==> pc.m.sabs[i] in a.sabs)
  }

  predicate HasDrainer(s: State, p: nat) { exists t :: 0 <= t < |s.threads| && Drains(s.threads[t].pc, p) }

  predicate PipeOk(s: State, p: nat)
    requires p < |s.pipes|
  {
    var q := s.pipes[p];
    && (q.lock.Some? ==>
      q.lock.value < |s.threads| && InLock(s.threads[q.lock.value].pc) && s.threads[q.lock.value].pc.p == p)
    && (q.freed ==> q.refCount == 0 && q.queue == [])
    && (q.refCount == 0 && !q.freed ==> HasDrainer(s, p))
    && (q.refCount > 0 ==> q.wake == WakeBytes(s, q) && q.dropped == [])
    && q.sent == q.handled + InFlight(s, p) + q.dropped + Ids(q.queue)
  }

  ghost predicate OneDrainer(s: State) {
    forall t, u, p ::
      (0 <= t < |s.threads| && 0 <= u < |s.threads| && Drains(s.threads[t].pc, p) && Drains(s.threads[u].pc, p))
      ==> t == u
  }

  ghost predicate Local(s: State) {
    && (forall t: nat :: t < |s.threads| ==> ThreadOk(s, t))
    && (forall p: nat :: p < |s.pipes| ==> PipeOk(s, p))
    && OneDrainer(s)
  }

  predicate SabCounted(s: State, k: nat) {
    if k < |s.sabs| then s.sabs[k].refCount == SabUse(s, k) && (s.sabs[k].freed <==> SabUse(s, k) == 0)
    else SabUse(s, k) == 0
  }

  predicate PipeCounted(s: State, p: nat) {
    if p < |s.pipes| then s.pipes[p].refCount == PipeUse(s, p) else PipeUse(s, p) == 0
  }

  ghost predicate Counted(s: State) {
    (forall k: nat :: SabCounted(s, k)) && (forall p: nat :: PipeCounted(s, p))
  }

  ghost predicate Inv(s: State) { Local(s) && Counted(s) && !s.fault }

  lemma {:induction false} HeldBelow(ts: seq<Thread>, t: nat, k: nat)
    requires t < |ts|
    ensures PipesHeld(ts)[k] >= ts[t].pipes[k] && ThreadsUse(ts)[k] >= ThreadUse(ts[t])[k]
    decreases |ts|
  {
    hide ThreadUse;
    var n := |ts| - 1;
    if t < n { HeldBelow(ts[..n], t, k); }
  }

  lemma HeldLive(s: State, t: nat, p: nat)
    requires Inv(s) && t < |s.threads| && p in s.threads[t].pipes
    ensures p < |s.pipes| && s.pipes[p].refCount > 0 && !s.pipes[p].freed
  {
    hide PipesHeld, ThreadsUse, ThreadOk;
    HeldBelow(s.threads, t, p);
    assert PipeCounted(s, p) && (p < |s.pipes| ==> PipeOk(s, p));
  }

  // One thread works on one pipe.

  predicate OnlyOn(pc: Pc, p: nat) { pc.Idle? || pc.p == p }

  /** What thread t may change in a pipe behind the back of the others. */
  predicate Kept(q: Pipe, r: Pipe, t: nat) {
    && r.receiver == q.receiver
    && (if q.lock.Some? && q.lock.value != t
        then r.lock == q.lock && r.wake == q.wake && r.wrote == q.wrote && r.queue == q.queue
        else r.lock == None || r.lock == Some(t))
    && (t != q.receiver && q.wake == 1 ==> r.wake == 1)
  }

  /** s2 differs from s in thread t and pipe p. */
  predicate Differ(s: State, s2: State, t: nat, p: nat) {
    && t < |s.threads| && p < |s.pipes| && |s2.threads| == |s.threads| && |s2.pipes| == |s.pipes|
    && s2.threads == s.threads[t := s2.threads[t]]
    && s2.pipes == s.pipes[p := s2.pipes[p]]
    && OnlyOn(s.threads[t].pc, p) && OnlyOn(s2.threads[t].pc, p)
  }

  lemma FrameThread(s: State, s2: State, t: nat, p: nat, u: nat)
    requires Local(s) && Differ(s, s2, t, p) && Kept(s.pipes[p], s2.pipes[p], t) && u < |s.threads| && u != t
    requires s.pipes[p].refCount > 0 || Drains(s.threads[t].pc, p)
    ensures ThreadOk(s2, u)
  {
    hide InFlight, WakeBytes, HasDrainer, PipeOk, IndexOk, Holding;
    assert ThreadOk(s, u) && s2.threads[u] == s.threads[u];
  }

  lemma FramePipe(s: State, s2: State, t: nat, p: nat, o: nat)
    requires Local(s) && Differ(s, s2, t, p) && o < |s.pipes| && o != p
    ensures PipeOk(s2, o)
  {
    hide IndexOk, Ids, Quiet;
    assert PipeOk(s, o) && s2.pipes[o] == s.pipes[o];
    var q := s.pipes[o];
    assert WakeBytes(s2, q) == WakeBytes(s, q);
    assert InFlight(s2, o) == InFlight(s, o);
    if HasDrainer(s, o) {
      var u :| 0 <= u < |s.threads| && Drains(s.threads[u].pc, o);
      assert Drains(s2.threads[u].pc, o);
    }
  }

  /** A step of thread t on pipe p disturbs no other thread and no other pipe. */
  lemma Frame(s: State, s2: State, t: nat, p: nat)
    requires Local(s) && Differ(s, s2, t, p) && Kept(s.pipes[p], s2.pipes[p], t)
    requires s.pipes[p].refCount > 0 || Drains(s.threads[t].pc, p)
    requires ThreadOk(s2, t) && PipeOk(s2, p)
    ensures Local(s2)
  {
    forall u: nat | u < |s2.threads| ensures ThreadOk(s2, u) {
      if u != t { FrameThread(s, s2, t, p, u); }
    }
    forall o: nat | o < |s2.pipes| ensures PipeOk(s2, o) {
      if o != p { FramePipe(s, s2, t, p, o); }
    }
    FrameDrainer(s, s2, t, p);
  }

  lemma FrameDrainer(s: State, s2: State, t: nat, p: nat)
    requires Local(s) && Differ(s, s2, t, p)
    requires s.pipes[p].refCount > 0 || Drains(s.threads[t].pc, p)
    ensures OneDrainer(s2)
  {
    hide InFlight, WakeBytes, HasDrainer, PipeOk, IndexOk, Holding, InLock;
    forall u, v, o | 0 <= u < |s2.threads| && 0 <= v < |s2.threads| && Drains(s2.threads[u].pc, o)
      && Drains(s2.threads[v].pc, o)
      ensures u == v
    {
      if u != t { assert s2.threads[u] == s.threads[u] && ThreadOk(s, u) && Drains(s.threads[u].pc, o); }
      if v != t { assert s2.threads[v] == s.threads[v] && ThreadOk(s, v) && Drains(s.threads[v].pc, o); }
      if u != t && v != t {
        assert u == v;
      } else if o == p && Drains(s.threads[t].pc, p) {
        assert u == v;
      }
    }
  }

  // Each step inside an operation.

  /** The state before a step of thread t on its pipe. */
  ghost predicate Ready(s: State, t: nat, p: nat) {
    && Inv(s) && t < |s.threads| && p < |s.pipes| && ThreadOk(s, t) && PipeOk(s, p)
    && !s.threads[t].pc.Idle? && s.threads[t].pc.p == p && !Waits(s, t)
    && !s.pipes[p].freed && (s.pipes[p].refCount > 0 || Drains(s.threads[t].pc, p))
  }

  lemma MakeReady(s: State, t: nat)
    requires Inv(s) && t < |s.threads| && !s.threads[t].pc.Idle? && !Waits(s, t)
    ensures Ready(s, t, s.threads[t].pc.p)
  {
    hide Counted, InFlight, WakeBytes, HasDrainer, IndexOk, Holding, InLock;
    var p := s.threads[t].pc.p;
    assert ThreadOk(s, t) && PipeOk(s, p);
    if !Drains(s.threads[t].pc, p) { HeldLive(s, t, p); }
  }

  lemma IdsSnoc(q: seq<Message>, m: Message)
    ensures Ids(q + [m]) == Ids(q) + [m.id]
  {
  }

  lemma IdsFirst(q: seq<Message>)
    requires q != []
    ensures Ids(q) == [q[0].id] + Ids(q[1..])
  {
  }

  lemma LocalInv(s: State)
    requires Inv(s)
    ensures Local(s) && !s.fault
  {
  }

  lemma PostDupLocal(s: State, t: nat, p: nat, ok: bool)
    requires Ready(s, t, p) && s.threads[t].pc.PostDup?
    ensures Local(Advance(s, t, s.pipes[p], ok))
  {
    hide Counted, HasDrainer, Local;
    var s2 := Advance(s, t, s.pipes[p], ok);
    LocalInv(s);
    assert InFlight(s2, p) == InFlight(s, p);
    Frame(s, s2, t, p);
  }

  lemma PostLockLocal(s: State, t: nat, p: nat, ok: bool)
    requires Ready(s, t, p) && s.threads[t].pc.PostLock?
    ensures Local(Advance(s, t, s.pipes[p], ok))
  {
    hide Counted, HasDrainer, Local;
    var s2 := Advance(s, t, s.pipes[p], ok);
    LocalInv(s);
    assert InFlight(s2, p) == InFlight(s, p);
    Frame(s, s2, t, p);
  }

  lemma PostSignalLocal(s: State, t: nat, p: nat, ok: bool)
    requires Ready(s, t, p) && s.threads[t].pc.PostSignal?
    ensures Local(Advance(s, t, s.pipes[p], ok))
  {
    hide Counted, HasDrainer, Local;
    var s2 := Advance(s, t, s.pipes[p], ok);
    LocalInv(s);
    assert InFlight(s2, p) == InFlight(s, p);
    Frame(s, s2, t, p);
  }

  lemma PostAppendLocal(s: State, t: nat, p: nat, ok: bool)
    requires Ready(s, t, p) && s.threads[t].pc.PostAppend?
    ensures Local(Advance(s, t, s.pipes[p], ok))
  {
    hide Counted, HasDrainer, Local;
    var s2 := Advance(s, t, s.pipes[p], ok);
    LocalInv(s);
    assert InFlight(s2, p) == InFlight(s, p);
    var q := s.pipes[p];
    IdsSnoc(q.queue, s.threads[t].pc.m);
    var h := q.handled + InFlight(s, p) + q.dropped;
    assert q.sent + [s.threads[t].pc.m.id] == h + Ids(s2.pipes[p].queue);
    Frame(s, s2, t, p);
  }

  lemma PostUnlockLocal(s: State, t: nat, p: nat, ok: bool)
    requires Ready(s, t, p) && s.threads[t].pc.PostUnlock?
    ensures Local(Advance(s, t, s.pipes[p], ok))
  {
    hide Counted, HasDrainer, Local;
    var s2 := Advance(s, t, s.pipes[p], ok);
    LocalInv(s);
    assert InFlight(s2, p) == InFlight(s, p);
    Frame(s, s2, t, p);
  }

  lemma TakeLockLocal(s: State, t: nat, p: nat, ok: bool)
    requires Ready(s, t, p) && s.threads[t].pc.TakeLock?
    ensures Local(Advance(s, t, s.pipes[p], ok))
  {
    hide Counted, HasDrainer, Local;
    var s2 := Advance(s, t, s.pipes[p], ok);
    LocalInv(s);
    assert InFlight(s2, p) == InFlight(s, p);
    Frame(s, s2, t, p);
  }

  lemma TakeFirstLocal(s: State, t: nat, p: nat, ok: bool)
    requires Ready(s, t, p) && s.threads[t].pc.TakeFirst?
    ensures Local(Advance(s, t, s.pipes[p], ok))
  {
    hide Counted, HasDrainer, Local;
    var s2 := Advance(s, t, s.pipes[p], ok);
    LocalInv(s);
    var q := s.pipes[p];
    assert q.queue != [];
    IdsFirst(q.queue);
    assert InFlight(s, p) == [] && InFlight(s2, p) == [q.queue[0].id];
    assert q.sent == q.handled + ([q.queue[0].id] + Ids(q.queue[1..]));
    Frame(s, s2, t, p);
  }

  lemma TakeClearLocal(s: State, t: nat, p: nat, ok: bool)
    requires Ready(s, t, p) && s.threads[t].pc.TakeClear?
    ensures Local(Advance(s, t, s.pipes[p], ok))
  {
    hide Counted, HasDrainer, Local;
    var s2 := Advance(s, t, s.pipes[p], ok);
    LocalInv(s);
    assert InFlight(s2, p) == InFlight(s, p);
    Frame(s, s2, t, p);
  }

  lemma TakeUnlockLocal(s: State, t: nat, p: nat, ok: bool)
    requires Ready(s, t, p) && s.threads[t].pc.TakeUnlock?
    ensures Local(Advance(s, t, s.pipes[p], ok))
  {
    hide Counted, HasDrainer, Local;
    var s2 := Advance(s, t, s.pipes[p], ok);
    LocalInv(s);
    assert InFlight(s2, p) == InFlight(s, p);
    Frame(s, s2, t, p);
  }

  lemma EmptyUnlockLocal(s: State, t: nat, p: nat, ok: bool)
    requires Ready(s, t, p) && s.threads[t].pc.EmptyUnlock?
    ensures Local(Advance(s, t, s.pipes[p], ok))
  {
    hide Counted, HasDrainer, Local;
    var s2 := Advance(s, t, s.pipes[p], ok);
    LocalInv(s);
    assert InFlight(s2, p) == InFlight(s, p);
    Frame(s, s2, t, p);
  }

  lemma ReadingLocal(s: State, t: nat, p: nat, ok: bool)
    requires Ready(s, t, p) && s.threads[t].pc.Reading?
    ensures Local(Advance(s, t, s.pipes[p], ok))
  {
    hide Counted, HasDrainer, Local;
    var s2 := Advance(s, t, s.pipes[p], ok);
    LocalInv(s);
    assert InFlight(s2, p) == InFlight(s, p);
    Frame(s, s2, t, p);
  }

  lemma FreeingLocal(s: State, t: nat, p: nat, ok: bool)
    requires Ready(s, t, p) && s.threads[t].pc.Freeing?
    ensures Local(Advance(s, t, s.pipes[p], ok))
  {
    hide Counted, HasDrainer, Local;
    var s2 := Advance(s, t, s.pipes[p], ok);
    LocalInv(s);
    var q, m := s.pipes[p], s.threads[t].pc.m;
    if s.threads[t].pc.i < |m.sabs| {
      assert InFlight(s2, p) == InFlight(s, p);
    } else {
      assert InFlight(s, p) == [m.id] && InFlight(s2, p) == [];
    }
    Frame(s, s2, t, p);
  }

  lemma NoFlight(s: State, p: nat)
    requires Inv(s) && p < |s.pipes| && s.pipes[p].refCount == 0
    ensures InFlight(s, p) == []
  {
    hide Counted;
    var r := s.pipes[p].receiver;
    if r < |s.threads| && Holding(s.threads[r].pc, p) != [] {
      assert ThreadOk(s, r);
      HeldLive(s, r, p);
    }
  }

  lemma DrainingLocal(s: State, t: nat, p: nat, ok: bool)
    requires Ready(s, t, p) && s.threads[t].pc.Draining?
    ensures Local(Advance(s, t, s.pipes[p], ok))
  {
    hide Counted, HasDrainer, Local;
    var s2 := Advance(s, t, s.pipes[p], ok);
    LocalInv(s);
    var q := s.pipes[p];
    if q.queue != [] {
      IdsFirst(q.queue);
      NoFlight(s, p);
      assert InFlight(s2, p) == InFlight(s, p);
      assert Drains(s2.threads[t].pc, p);
    }
    Frame(s, s2, t, p);
  }

  lemma DrainMessageLocal(s: State, t: nat, p: nat, ok: bool)
    requires Ready(s, t, p) && s.threads[t].pc.DrainMessage?
    ensures Local(Advance(s, t, s.pipes[p], ok))
  {
    hide Counted, HasDrainer, Local;
    var s2 := Advance(s, t, s.pipes[p], ok);
    LocalInv(s);
    assert InFlight(s2, p) == InFlight(s, p);
    assert Drains(s2.threads[t].pc, p);
    Frame(s, s2, t, p);
  }

  lemma AdvanceLocal(s: State, t: nat, p: nat, ok: bool)
    requires Ready(s, t, p)
    ensures Local(Advance(s, t, s.pipes[p], ok))
  {
    hide Ready, Local, Advance;
    ReadyBusy(s, t, p);
    match s.threads[t].pc
    case PostDup(_, _, _) => PostDupLocal(s, t, p, ok);
    case PostLock(_, _) => PostLockLocal(s, t, p, ok);
    case PostSignal(_, _) => PostSignalLocal(s, t, p, ok);
    case PostAppend(_, _) => PostAppendLocal(s, t, p, ok);
    case PostUnlock(_) => PostUnlockLocal(s, t, p, ok);
    case TakeLock(_) => TakeLockLocal(s, t, p, ok);
    case TakeFirst(_) => TakeFirstLocal(s, t, p, ok);
    case TakeClear(_, _) => TakeClearLocal(s, t, p, ok);
    case TakeUnlock(_, _) => TakeUnlockLocal(s, t, p, ok);
    case EmptyUnlock(_) => EmptyUnlockLocal(s, t, p, ok);
    case Reading(_, _, _) => ReadingLocal(s, t, p, ok);
    case Freeing(_, _, _) => FreeingLocal(s, t, p, ok);
    case Draining(_) => DrainingLocal(s, t, p, ok);
    case DrainMessage(_, _, _) => DrainMessageLocal(s, t, p, ok);
  }

  lemma ReadyBusy(s: State, t: nat, p: nat)
    requires Ready(s, t, p)
    ensures t < |s.threads| && p < |s.pipes| && !s.threads[t].pc.Idle? && s.threads[t].pc.p == p
  {
  }

  // Counting over the steps.

  /** s2 counts one reference more (d = 1) or less (d = -1) to buffer k than s, or as many (d = 0). */
  ghost predicate Counts(s: State, s2: State, k: nat, d: int) {
    && |s2.sabs| == |s.sabs| && (d != 0 ==> k < |s.sabs|)
    && (forall j: nat :: j < |s.sabs| ==> s2.sabs[j].refCount == s.sabs[j].refCount + if j == k then d else 0)
    && (forall j: nat :: j < |s.sabs| ==> (s2.sabs[j].freed <==> s2.sabs[j].refCount == 0))
    && (forall j: nat :: SabUse(s2, j) == SabUse(s, j) + if j == k then d else 0)
  }

  lemma CountsKept(s: State, s2: State, k: nat, d: int)
    requires Counted(s) && Counts(s, s2, k, d)
    ensures forall j: nat :: SabCounted(s2, j)
  {
    hide SabUse;
    forall j: nat ensures SabCounted(s2, j) { assert SabCounted(s, j); }
  }

  function One(k: nat, yes: bool): multiset<nat> { if yes then multiset{k} else multiset{} }

  /** Thread and pipe together refer d times more often to buffer k. */
  predicate Moves(a: Thread, b: Thread, q: Pipe, r: Pipe, k: nat, d: int) {
    ThreadUse(b) + QueueUse(r.queue) + One(k, d == -1) == ThreadUse(a) + QueueUse(q.queue) + One(k, d == 1)
  }

  lemma MoveCount(a: multiset<nat>, b: multiset<nat>, q: multiset<nat>, r: multiset<nat>, k: nat, d: int, j: nat)
    requires -1 <= d <= 1 && b + r + One(k, d == -1) == a + q + One(k, d == 1)
    ensures b[j] + r[j] == a[j] + q[j] + if j == k then d else 0
  {
    assert (b + r + One(k, d == -1))[j] == (a + q + One(k, d == 1))[j];
  }

  lemma UseChange(s: State, s2: State, t: nat, p: nat, j: nat, k: nat, d: int)
    requires Differ(s, s2, t, p) && -1 <= d <= 1 && Moves(s.threads[t], s2.threads[t], s.pipes[p], s2.pipes[p], k, d)
    ensures SabUse(s2, j) == SabUse(s, j) + if j == k then d else 0
    ensures PipeUse(s2, j) + s.threads[t].pipes[j] == PipeUse(s, j) + s2.threads[t].pipes[j]
  {
    hide ThreadUse, QueueUse, ThreadsUse, PipesUse, PipesHeld, One;
    ThreadsUsePut(s.threads, t, s2.threads[t], j);
    PipesUsePut(s.pipes, p, s2.pipes[p], j);
    PipesHeldPut(s.threads, t, s2.threads[t], j);
    MoveCount(ThreadUse(s.threads[t]), ThreadUse(s2.threads[t]), QueueUse(s.pipes[p].queue),
      QueueUse(s2.pipes[p].queue), k, d, j);
  }

  lemma UsedLive(s: State, t: nat, k: nat)
    requires Counted(s) && t < |s.threads| && k in ThreadUse(s.threads[t])
    ensures k < |s.sabs| && s.sabs[k].refCount > 0 && !s.sabs[k].freed
  {
    hide ThreadsUse, PipesUse;
    HeldBelow(s.threads, t, k);
    assert SabCounted(s, k);
  }

  /** A step that only moves references, or takes or drops one. */
  lemma Counting(s: State, s2: State, t: nat, p: nat, k: nat, d: int)
    requires Inv(s) && Differ(s, s2, t, p) && !s2.fault && -1 <= d <= 1
    requires if d == 0 then s2.sabs == s.sabs else if d == 1 then s2.sabs == SabDup(s, k).sabs
      && !SabDup(s, k).fault else s2.sabs == SabFree(s, k).sabs && !SabFree(s, k).fault
    requires Moves(s.threads[t], s2.threads[t], s.pipes[p], s2.pipes[p], k, d)
    requires s2.pipes[p].refCount + s.threads[t].pipes[p] == s.pipes[p].refCount + s2.threads[t].pipes[p]
    requires forall j: nat :: j != p ==> s2.threads[t].pipes[j] == s.threads[t].pipes[j]
    ensures Counted(s2)
  {
    hide ThreadUse, QueueUse, ThreadsUse, PipesUse, PipesHeld, Local, SabUse, PipeUse, Moves;
    forall j: nat ensures SabUse(s2, j) == SabUse(s, j) + (if j == k then d else 0) && PipeCounted(s2, j) {
      UseChange(s, s2, t, p, j, k, d);
      assert PipeCounted(s, j);
    }
    forall j: nat | j < |s.sabs|
      ensures s2.sabs[j].refCount == s.sabs[j].refCount + (if j == k then d else 0)
        && (s2.sabs[j].freed <==> s2.sabs[j].refCount == 0)
    {
      assert SabCounted(s, j);
    }
    CountsKept(s, s2, k, d);
  }

  lemma MovesNone(a: Thread, b: Thread, q: Pipe, r: Pipe)
    requires b.sabs == a.sabs && PcSabs(b.pc) == PcSabs(a.pc) && r.queue == q.queue
    ensures Moves(a, b, q, r, 0, 0)
  {
  }

  lemma MovesGain(a: Thread, b: Thread, q: Pipe, r: Pipe, k: nat)
    requires b.sabs + PcSabs(b.pc) == a.sabs + PcSabs(a.pc) + multiset{k} && r.queue == q.queue
    ensures Moves(a, b, q, r, k, 1)
  {
  }

  lemma MovesLoss(a: Thread, b: Thread, q: Pipe, r: Pipe, k: nat)
    requires b.sabs == a.sabs && PcSabs(a.pc) == multiset{k} + PcSabs(b.pc) && r.queue == q.queue
    ensures Moves(a, b, q, r, k, -1)
  {
  }

  lemma MovesIn(a: Thread, b: Thread, q: Pipe, r: Pipe, m: Message)
    requires b.sabs == a.sabs && PcSabs(a.pc) == multiset(m.sabs) && PcSabs(b.pc) == multiset{}
      && r.queue == q.queue + [m]
    ensures Moves(a, b, q, r, 0, 0)
  {
    hide PcSabs, QueueUse;
    QueueUseSnoc(q.queue, m);
  }

  lemma MovesOut(a: Thread, b: Thread, q: Pipe, r: Pipe)
    requires q.queue != [] && r.queue == q.queue[1..]
    requires b.sabs == a.sabs && PcSabs(a.pc) == multiset{} && PcSabs(b.pc) == multiset(q.queue[0].sabs)
    ensures Moves(a, b, q, r, 0, 0)
  {
    hide PcSabs, QueueUse;
    QueueUseFirst(q.queue);
  }

  lemma QueueUseSnoc(q: seq<Message>, m: Message)
    ensures QueueUse(q + [m]) == QueueUse(q) + multiset(m.sabs)
  {
    assert (q + [m])[..|q|] == q;
  }

  lemma PostDupCounted(s: State, t: nat, p: nat, ok: bool)
    requires Ready(s, t, p) && s.threads[t].pc.PostDup?
    ensures Counted(Advance(s, t, s.pipes[p], ok)) && !Advance(s, t, s.pipes[p], ok).fault
  {
    hide Counted, Local, PipeOk, Moves, ThreadUse, Waits;
    var s2, a := Advance(s, t, s.pipes[p], ok), s.threads[t];
    var m, i := a.pc.m, a.pc.i;
    if i < |m.sabs| {
      SliceUse(m.sabs, i);
      HeldUsed(a, m.sabs[i]);
      UsedLive(s, t, m.sabs[i]);
      MovesGain(a, s2.threads[t], s.pipes[p], s2.pipes[p], m.sabs[i]);
      Counting(s, s2, t, p, m.sabs[i], 1);
    } else {
      assert m.sabs[..i] == m.sabs;
      MovesNone(a, s2.threads[t], s.pipes[p], s2.pipes[p]);
      Counting(s, s2, t, p, 0, 0);
    }
  }

  lemma HeldUsed(a: Thread, k: nat)
    requires k in a.sabs || k in PcSabs(a.pc)
    ensures k in ThreadUse(a)
  {
  }

  predicate PlainPost(pc: Pc) { pc.PostLock? || pc.PostSignal? || pc.PostUnlock? }

  predicate PlainTake(pc: Pc) { pc.TakeLock? || pc.TakeClear? || pc.TakeUnlock? || pc.EmptyUnlock? }

  lemma PlainPostCounted(s: State, t: nat, p: nat, ok: bool)
    requires Ready(s, t, p) && PlainPost(s.threads[t].pc)
    ensures Counted(Advance(s, t, s.pipes[p], ok)) && !Advance(s, t, s.pipes[p], ok).fault
  {
    hide Counted, Local, PipeOk, Moves, ThreadUse, Waits, ThreadOk;
    var s2 := Advance(s, t, s.pipes[p], ok);
    MovesNone(s.threads[t], s2.threads[t], s.pipes[p], s2.pipes[p]);
    Counting(s, s2, t, p, 0, 0);
  }

  lemma PlainTakeCounted(s: State, t: nat, p: nat, ok: bool)
    requires Ready(s, t, p) && PlainTake(s.threads[t].pc)
    ensures Counted(Advance(s, t, s.pipes[p], ok)) && !Advance(s, t, s.pipes[p], ok).fault
  {
    hide Counted, Local, PipeOk, Moves, ThreadUse, Waits, ThreadOk;
    var s2 := Advance(s, t, s.pipes[p], ok);
    MovesNone(s.threads[t], s2.threads[t], s.pipes[p], s2.pipes[p]);
    Counting(s, s2, t, p, 0, 0);
  }

  lemma PostAppendCounted(s: State, t: nat, p: nat, ok: bool)
    requires Ready(s, t, p) && s.threads[t].pc.PostAppend?
    ensures Counted(Advance(s, t, s.pipes[p], ok)) && !Advance(s, t, s.pipes[p], ok).fault
  {
    hide Counted, Local, PipeOk, Moves, ThreadUse, Waits, ThreadOk;
    var s2 := Advance(s, t, s.pipes[p], ok);
    MovesIn(s.threads[t], s2.threads[t], s.pipes[p], s2.pipes[p], s.threads[t].pc.m);
    Counting(s, s2, t, p, 0, 0);
  }

  lemma TakeFirstCounted(s: State, t: nat, p: nat, ok: bool)
    requires Ready(s, t, p) && s.threads[t].pc.TakeFirst?
    ensures Counted(Advance(s, t, s.pipes[p], ok)) && !Advance(s, t, s.pipes[p], ok).fault
  {
    hide Counted, Local, PipeOk, Moves, ThreadUse, Waits, ThreadOk;
    var s2 := Advance(s, t, s.pipes[p], ok);
    if s.pipes[p].queue == [] {
      MovesNone(s.threads[t], s2.threads[t], s.pipes[p], s2.pipes[p]);
    } else {
      MovesOut(s.threads[t], s2.threads[t], s.pipes[p], s2.pipes[p]);
    }
    Counting(s, s2, t, p, 0, 0);
  }

  lemma DrainingCounted(s: State, t: nat, p: nat, ok: bool)
    requires Ready(s, t, p) && s.threads[t].pc.Draining?
    ensures Counted(Advance(s, t, s.pipes[p], ok)) && !Advance(s, t, s.pipes[p], ok).fault
  {
    hide Counted, Local, PipeOk, Moves, ThreadUse, Waits;
    var s2, q := Advance(s, t, s.pipes[p], ok), s.pipes[p];
    if q.queue == [] {
      MovesNone(s.threads[t], s2.threads[t], q, s2.pipes[p]);
    } else {
      assert q.queue[0].sabs[0..] == q.queue[0].sabs;
      MovesOut(s.threads[t], s2.threads[t], q, s2.pipes[p]);
    }
    Counting(s, s2, t, p, 0, 0);
  }

  lemma ReadingCounted(s: State, t: nat, p: nat, ok: bool)
    requires Ready(s, t, p) && s.threads[t].pc.Reading?
    ensures Counted(Advance(s, t, s.pipes[p], ok)) && !Advance(s, t, s.pipes[p], ok).fault
  {
    hide Counted, Local, PipeOk, Moves, ThreadUse, Waits;
    var s2, a := Advance(s, t, s.pipes[p], ok), s.threads[t];
    var m, i := a.pc.m, a.pc.i;
    if ok && i < |m.sabs| {
      SliceUse(m.sabs, i);
      HeldUsed(a, m.sabs[i]);
      UsedLive(s, t, m.sabs[i]);
      MovesGain(a, s2.threads[t], s.pipes[p], s2.pipes[p], m.sabs[i]);
      Counting(s, s2, t, p, m.sabs[i], 1);
    } else {
      assert m.sabs[0..] == m.sabs;
      MovesNone(a, s2.threads[t], s.pipes[p], s2.pipes[p]);
      Counting(s, s2, t, p, 0, 0);
    }
  }

  /** js_free_message at its entry i. */
  predicate FreesAt(pc: Pc, i: nat) { (pc.Freeing? || pc.DrainMessage?) && i <= |pc.m.sabs| && pc.i == i }

  lemma FreesUse(pc: Pc, i: nat)
    requires FreesAt(pc, i)
    ensures PcSabs(pc) == multiset(pc.m.sabs[i..])
  {
  }

  lemma FreesMoves(a: Thread, b: Thread, q: Pipe, r: Pipe, i: nat)
    requires FreesAt(a.pc, i) && FreesAt(b.pc, i + 1) && b.pc.m == a.pc.m && b.sabs == a.sabs && r.queue == q.queue
    ensures Moves(a, b, q, r, a.pc.m.sabs[i], -1) && a.pc.m.sabs[i] in ThreadUse(a)
  {
    hide Moves, ThreadUse, PcSabs;
    FreesUse(a.pc, i);
    FreesUse(b.pc, i + 1);
    SliceUse(a.pc.m.sabs, i);
    HeldUsed(a, a.pc.m.sabs[i]);
    MovesLoss(a, b, q, r, a.pc.m.sabs[i]);
  }

  lemma FreesEnd(a: Thread, b: Thread, q: Pipe, r: Pipe)
    requires (a.pc.Freeing? || a.pc.DrainMessage?) && a.pc.i == |a.pc.m.sabs| && (b.pc.Idle? || b.pc.Draining?)
    requires b.sabs == a.sabs && r.queue == q.queue
    ensures Moves(a, b, q, r, 0, 0)
  {
    assert a.pc.m.sabs[|a.pc.m.sabs|..] == [];
    MovesNone(a, b, q, r);
  }

  lemma FreeingCounted(s: State, t: nat, p: nat, ok: bool)
    requires Ready(s, t, p) && s.threads[t].pc.Freeing?
    ensures Counted(Advance(s, t, s.pipes[p], ok)) && !Advance(s, t, s.pipes[p], ok).fault
  {
    hide Counted, Local, PipeOk, Moves, ThreadUse, Waits, PcSabs;
    var s2, a := Advance(s, t, s.pipes[p], ok), s.threads[t];
    if a.pc.i < |a.pc.m.sabs| {
      var k := a.pc.m.sabs[a.pc.i];
      FreesMoves(a, Thread(Freeing(p, a.pc.m, a.pc.i + 1), a.pipes, a.sabs), s.pipes[p], s.pipes[p], a.pc.i);
      UsedLive(s, t, k);
      Counting(s, s2, t, p, k, -1);
    } else {
      FreesEnd(a, s2.threads[t], s.pipes[p], s2.pipes[p]);
      Counting(s, s2, t, p, 0, 0);
    }
  }

  lemma DrainMessageCounted(s: State, t: nat, p: nat, ok: bool)
    requires Ready(s, t, p) && s.threads[t].pc.DrainMessage?
    ensures Counted(Advance(s, t, s.pipes[p], ok)) && !Advance(s, t, s.pipes[p], ok).fault
  {
    hide Counted, Local, PipeOk, Moves, ThreadUse, Waits, PcSabs;
    var s2, a := Advance(s, t, s.pipes[p], ok), s.threads[t];
    if a.pc.i < |a.pc.m.sabs| {
      var k := a.pc.m.sabs[a.pc.i];
      FreesMoves(a, Thread(DrainMessage(p, a.pc.m, a.pc.i + 1), a.pipes, a.sabs), s.pipes[p], s.pipes[p], a.pc.i);
      UsedLive(s, t, k);
      Counting(s, s2, t, p, k, -1);
    } else {
      FreesEnd(a, s2.threads[t], s.pipes[p], s2.pipes[p]);
      Counting(s, s2, t, p, 0, 0);
    }
  }

  lemma AdvanceCounted(s: State, t: nat, p: nat, ok: bool)
    requires Ready(s, t, p)
    ensures Counted(Advance(s, t, s.pipes[p], ok)) && !Advance(s, t, s.pipes[p], ok).fault
  {
    hide Ready, Counted, Advance;
    ReadyBusy(s, t, p);
    match s.threads[t].pc
    case PostDup(_, _, _) => PostDupCounted(s, t, p, ok);
    case PostAppend(_, _) => PostAppendCounted(s, t, p, ok);
    case TakeFirst(_) => TakeFirstCounted(s, t, p, ok);
    case Reading(_, _, _) => ReadingCounted(s, t, p, ok);
    case Freeing(_, _, _) => FreeingCounted(s, t, p, ok);
    case Draining(_) => DrainingCounted(s, t, p, ok);
    case DrainMessage(_, _, _) => DrainMessageCounted(s, t, p, ok);
    case PostLock(_, _) => PlainPostCounted(s, t, p, ok);
    case PostSignal(_, _) => PlainPostCounted(s, t, p, ok);
    case PostUnlock(_) => PlainPostCounted(s, t, p, ok);
    case TakeLock(_) => PlainTakeCounted(s, t, p, ok);
    case TakeClear(_, _) => PlainTakeCounted(s, t, p, ok);
    case TakeUnlock(_, _) => PlainTakeCounted(s, t, p, ok);
    case EmptyUnlock(_) => PlainTakeCounted(s, t, p, ok);
  }

  // Steps of idle threads.

  /** Only the buffers that thread t holds change. */
  predicate SabsDiffer(s: State, s2: State, t: nat) {
    && t < |s.threads| && s.threads[t].pc.Idle? && s2.pipes == s.pipes
    && s2.threads == s.threads[t := s.threads[t].(sabs := if t < |s2.threads| then s2.threads[t].sabs else multiset{})]
  }

  lemma SabsLocal(s: State, s2: State, t: nat)
    requires Local(s) && SabsDiffer(s, s2, t)
    ensures Local(s2)
  {
    hide IndexOk, Ids, Quiet;
    assert forall u :: 0 <= u < |s.threads| ==> s2.threads[u].pc == s.threads[u].pc;
    forall u: nat | u < |s2.threads| ensures ThreadOk(s2, u) { assert ThreadOk(s, u); }
    forall p: nat | p < |s2.pipes| ensures PipeOk(s2, p) {
      assert PipeOk(s, p);
      assert WakeBytes(s2, s.pipes[p]) == WakeBytes(s, s.pipes[p]) && InFlight(s2, p) == InFlight(s, p);
      if HasDrainer(s, p) {
        var u :| 0 <= u < |s.threads| && Drains(s.threads[u].pc, p);
        assert Drains(s2.threads[u].pc, p);
      }
    }
    forall u, v, o | 0 <= u < |s2.threads| && 0 <= v < |s2.threads| && Drains(s2.threads[u].pc, o)
      && Drains(s2.threads[v].pc, o)
      ensures u == v
    {
      assert Drains(s.threads[u].pc, o) && Drains(s.threads[v].pc, o);
    }
  }

  lemma SabsCount(s: State, s2: State, t: nat, k: nat, d: int, j: nat)
    requires SabsDiffer(s, s2, t) && -1 <= d <= 1
    requires s2.threads[t].sabs + One(k, d == -1) == s.threads[t].sabs + One(k, d == 1)
    ensures SabUse(s2, j) == SabUse(s, j) + (if j == k then d else 0) && PipeUse(s2, j) == PipeUse(s, j)
  {
    hide ThreadsUse, PipesUse, PipesHeld;
    ThreadsUsePut(s.threads, t, s2.threads[t], j);
    PipesHeldPut(s.threads, t, s2.threads[t], j);
    assert (s2.threads[t].sabs + One(k, d == -1))[j] == (s.threads[t].sabs + One(k, d == 1))[j];
  }

  lemma CopySabKeeps(s: State, t: nat, k: nat)
    requires Inv(s) && Enabled(s, CopySab(t, k))
    ensures Inv(Apply(s, CopySab(t, k)))
  {
    hide Counted, Local, SabUse, PipeUse, ThreadUse;
    var s2 := Apply(s, CopySab(t, k));
    HeldUsed(s.threads[t], k);
    UsedLive(s, t, k);
    SabsLocal(s, s2, t);
    SabsCounted(s, s2, t, k, 1);
  }

  lemma DropSabKeeps(s: State, t: nat, k: nat)
    requires Inv(s) && Enabled(s, DropSab(t, k))
    ensures Inv(Apply(s, DropSab(t, k)))
  {
    hide Counted, Local, SabUse, PipeUse, ThreadUse;
    var s2 := Apply(s, DropSab(t, k));
    HeldUsed(s.threads[t], k);
    UsedLive(s, t, k);
    SabsLocal(s, s2, t);
    SabsCounted(s, s2, t, k, -1);
  }

  lemma SabsCounted(s: State, s2: State, t: nat, k: nat, d: int)
    requires Counted(s) && SabsDiffer(s, s2, t) && (d == 1 || d == -1)
    requires s2.threads[t].sabs + One(k, d == -1) == s.threads[t].sabs + One(k, d == 1)
    requires if d == 1 then s2.sabs == SabDup(s, k).sabs && !SabDup(s, k).fault
      else s2.sabs == SabFree(s, k).sabs && !SabFree(s, k).fault
    ensures Counted(s2)
  {
    hide SabUse, PipeUse, One;
    forall j: nat ensures SabUse(s2, j) == SabUse(s, j) + (if j == k then d else 0) && PipeCounted(s2, j) {
      SabsCount(s, s2, t, k, d, j);
      assert PipeCounted(s, j);
    }
    forall j: nat | j < |s.sabs|
      ensures s2.sabs[j].refCount == s.sabs[j].refCount + (if j == k then d else 0)
        && (s2.sabs[j].freed <==> s2.sabs[j].refCount == 0)
    {
      assert SabCounted(s, j);
    }
    CountsKept(s, s2, k, d);
  }

  lemma NewSabKeeps(s: State, t: nat)
    requires Inv(s) && Enabled(s, NewSab(t))
    ensures Inv(Apply(s, NewSab(t)))
  {
    hide Local, SabUse, PipeUse, Counted;
    var s2, k := Apply(s, NewSab(t)), |s.sabs|;
    SabsLocal(s, s2, t);
    assert Counted(s2) by {
      forall j: nat ensures SabCounted(s2, j) && PipeCounted(s2, j) {
        CountedAt(s, j);
        SabsCount(s, s2, t, k, 1, j);
      }
      AllCounted(s2);
    }
  }

  lemma CountedAt(s: State, j: nat)
    requires Counted(s)
    ensures SabCounted(s, j) && PipeCounted(s, j)
  {
  }

  lemma AllCounted(s: State)
    requires forall j: nat :: SabCounted(s, j) && PipeCounted(s, j)
    ensures Counted(s)
  {
  }

  lemma ContinueKeeps(s: State, t: nat, ok: bool)
    requires Inv(s) && Enabled(s, Continue(t, ok))
    ensures Inv(Apply(s, Continue(t, ok)))
  {
    hide Counted, Local, Advance, Ready, Waits;
    MakeReady(s, t);
    var p := s.threads[t].pc.p;
    ReadyBusy(s, t, p);
    AdvanceLocal(s, t, p, ok);
    AdvanceCounted(s, t, p, ok);
  }

  lemma CopyPipeKeeps(s: State, t: nat, p: nat)
    requires Inv(s) && Enabled(s, CopyPipe(t, p))
    ensures Inv(Apply(s, CopyPipe(t, p)))
  {
    hide Counted, Moves, ThreadUse, HasDrainer, Local;
    var s2 := Apply(s, CopyPipe(t, p));
    HeldLive(s, t, p);
    LocalAt(s, t, p);
    assert InFlight(s2, p) == InFlight(s, p);
    Frame(s, s2, t, p);
    MovesNone(s.threads[t], s2.threads[t], s.pipes[p], s2.pipes[p]);
    Counting(s, s2, t, p, 0, 0);
  }

  lemma LocalAt(s: State, t: nat, p: nat)
    requires Local(s) && t < |s.threads| && p < |s.pipes|
    ensures ThreadOk(s, t) && PipeOk(s, p)
  {
  }

  lemma PostKeeps(s: State, t: nat, p: nat, refs: seq<nat>)
    requires Inv(s) && Enabled(s, Post(t, p, refs))
    ensures Inv(Apply(s, Post(t, p, refs)))
  {
    hide Counted, Moves, ThreadUse, HasDrainer, Local;
    var s2 := Apply(s, Post(t, p, refs));
    HeldLive(s, t, p);
    LocalAt(s, t, p);
    assert InFlight(s2, p) == InFlight(s, p);
    Frame(s, s2, t, p);
    assert refs[..0] == [];
    MovesNone(s.threads[t], s2.threads[t], s.pipes[p], s2.pipes[p]);
    Counting(s, s2, t, p, 0, 0);
  }

  lemma PollKeeps(s: State, t: nat, p: nat)
    requires Inv(s) && Enabled(s, Poll(t, p))
    ensures Inv(Apply(s, Poll(t, p)))
  {
    hide Counted, Moves, ThreadUse, HasDrainer, Local;
    var s2 := Apply(s, Poll(t, p));
    HeldLive(s, t, p);
    LocalAt(s, t, p);
    assert InFlight(s2, p) == InFlight(s, p);
    Frame(s, s2, t, p);
    MovesNone(s.threads[t], s2.threads[t], s.pipes[p], s2.pipes[p]);
    Counting(s, s2, t, p, 0, 0);
  }

  lemma {:induction false} TwoHold(ts: seq<Thread>, t: nat, u: nat, k: nat)
    requires t < u < |ts|
    ensures PipesHeld(ts)[k] >= ts[t].pipes[k] + ts[u].pipes[k]
    decreases |ts|
  {
    hide PipesHeld, ThreadsUse;
    var n := |ts| - 1;
    HeldStep(ts, k);
    if u < n {
      TwoHold(ts[..n], t, u, k);
    } else {
      HeldBelow(ts[..n], t, k);
    }
  }

  lemma HeldStep(ts: seq<Thread>, k: nat)
    requires ts != []
    ensures PipesHeld(ts)[k] == PipesHeld(ts[..|ts| - 1])[k] + ts[|ts| - 1].pipes[k]
  {
  }

  /** With one reference left, the thread that holds it is alone with the pipe. */
  lemma LastReference(s: State, t: nat, p: nat)
    requires Inv(s) && t < |s.threads| && p < |s.pipes| && p in s.threads[t].pipes && s.pipes[p].refCount == 1
      && s.threads[t].pc.Idle?
    ensures s.pipes[p].lock == None
  {
    hide Counted, HasDrainer, Local, PipesHeld;
    LocalAt(s, t, p);
    CountedAt(s, p);
    if s.pipes[p].lock.Some? {
      var u := s.pipes[p].lock.value;
      LocalAt(s, u, p);
      TwoHold(s.threads, if t < u then t else u, if t < u then u else t, p);
    }
  }

  lemma DropPipeKeeps(s: State, t: nat, p: nat)
    requires Inv(s) && Enabled(s, DropPipe(t, p))
    ensures Inv(Apply(s, DropPipe(t, p)))
  {
    hide Counted, Moves, ThreadUse, HasDrainer, Local;
    var s2 := Apply(s, DropPipe(t, p));
    HeldLive(s, t, p);
    LocalAt(s, t, p);
    if s.pipes[p].refCount == 1 {
      LastReference(s, t, p);
      DrainerIs(s2, t, p);
    }
    assert InFlight(s2, p) == InFlight(s, p);
    Frame(s, s2, t, p);
    MovesNone(s.threads[t], s2.threads[t], s.pipes[p], s2.pipes[p]);
    Counting(s, s2, t, p, 0, 0);
  }

  lemma DrainerIs(s: State, t: nat, p: nat)
    requires t < |s.threads| && Drains(s.threads[t].pc, p)
    ensures HasDrainer(s, p)
  {
  }

  lemma NewPipeKeeps(s: State, t: nat, r: nat)
    requires Inv(s) && Enabled(s, NewPipe(t, r))
    ensures Inv(Apply(s, NewPipe(t, r)))
  {
    hide Local, Counted;
    NewPipeLocal(s, t, r);
    NewPipeCounted(s, t, r);
  }

  lemma NewPipeLocal(s: State, t: nat, r: nat)
    requires Inv(s) && Enabled(s, NewPipe(t, r))
    ensures Local(Apply(s, NewPipe(t, r)))
  {
    hide Counted, IndexOk;
    var s2, n := Apply(s, NewPipe(t, r)), |s.pipes|;
    assert forall u :: 0 <= u < |s.threads| ==> s2.threads[u].pc == s.threads[u].pc;
    forall u: nat | u < |s2.threads| ensures ThreadOk(s2, u) { assert ThreadOk(s, u); }
    forall p: nat | p < |s2.pipes| ensures PipeOk(s2, p) {
      if p < n {
        assert PipeOk(s, p) && s2.pipes[p] == s.pipes[p];
        assert WakeBytes(s2, s.pipes[p]) == WakeBytes(s, s.pipes[p]) && InFlight(s2, p) == InFlight(s, p);
        if HasDrainer(s, p) {
          var u :| 0 <= u < |s.threads| && Drains(s.threads[u].pc, p);
          assert Drains(s2.threads[u].pc, p);
        }
      } else if r < |s.threads| {
        assert ThreadOk(s, r) && InFlight(s2, p) == [];
      }
    }
    forall u, v, o | 0 <= u < |s2.threads| && 0 <= v < |s2.threads| && Drains(s2.threads[u].pc, o)
      && Drains(s2.threads[v].pc, o)
      ensures u == v
    {
      assert Drains(s.threads[u].pc, o) && Drains(s.threads[v].pc, o);
    }
  }

  lemma NewPipeCounted(s: State, t: nat, r: nat)
    requires Inv(s) && Enabled(s, NewPipe(t, r))
    ensures Counted(Apply(s, NewPipe(t, r)))
  {
    hide Local, Counted, ThreadsUse, PipesUse, PipesHeld;
    var s2 := Apply(s, NewPipe(t, r));
    forall j: nat ensures SabCounted(s2, j) && PipeCounted(s2, j) {
      CountedAt(s, j);
      ThreadsUsePut(s.threads, t, s2.threads[t], j);
      PipesHeldPut(s.threads, t, s2.threads[t], j);
      PipesSnoc(s.pipes, s2.pipes[|s.pipes|]);
    }
    AllCounted(s2);
  }

  lemma PipesSnoc(ps: seq<Pipe>, q: Pipe)
    ensures PipesUse(ps + [q]) == PipesUse(ps) + QueueUse(q.queue)
  {
    assert (ps + [q])[..|ps|] == ps;
  }

  lemma ThreadsSnoc(ts: seq<Thread>, a: Thread)
    ensures ThreadsUse(ts + [a]) == ThreadsUse(ts) + ThreadUse(a) && PipesHeld(ts + [a]) == PipesHeld(ts) + a.pipes
  {
    assert (ts + [a])[..|ts|] == ts;
  }

  lemma SpawnKeeps(s: State, t: nat, p: nat, q: nat)
    requires Inv(s) && Enabled(s, Spawn(t, p, q))
    ensures Inv(Apply(s, Spawn(t, p, q)))
  {
    hide Local, Counted;
    SpawnLocal(s, t, p, q);
    SpawnCounted(s, t, p, q);
  }

  lemma SpawnLocal(s: State, t: nat, p: nat, q: nat)
    requires Inv(s) && Enabled(s, Spawn(t, p, q))
    ensures Local(Apply(s, Spawn(t, p, q)))
  {
    hide Counted, Quiet, IndexOk;
    var s2 := Apply(s, Spawn(t, p, q));
    assert forall u :: 0 <= u < |s2.threads| ==> s2.threads[u].pc == if u < |s.threads| then s.threads[u].pc else Idle;
    forall u: nat | u < |s2.threads| ensures ThreadOk(s2, u) {
      if u < |s.threads| { assert ThreadOk(s, u); }
    }
    forall o: nat | o < |s2.pipes| ensures PipeOk(s2, o) { SpawnPipe(s, t, p, q, o); }
    forall u, v, o | 0 <= u < |s2.threads| && 0 <= v < |s2.threads| && Drains(s2.threads[u].pc, o)
      && Drains(s2.threads[v].pc, o)
      ensures u == v
    {
      assert Drains(s.threads[u].pc, o) && Drains(s.threads[v].pc, o);
    }
  }

  lemma SpawnPipe(s: State, t: nat, p: nat, q: nat, o: nat)
    requires Inv(s) && Enabled(s, Spawn(t, p, q)) && o < |s.pipes|
    ensures PipeOk(Apply(s, Spawn(t, p, q)), o)
  {
    hide Counted, Quiet, IndexOk, ThreadOk, OneDrainer;
    var s2 := Apply(s, Spawn(t, p, q));
    assert forall u :: 0 <= u < |s2.threads| ==> s2.threads[u].pc == if u < |s.threads| then s.threads[u].pc else Idle;
    assert PipeOk(s, o);
    assert WakeBytes(s2, s.pipes[o]) == WakeBytes(s, s.pipes[o]) && InFlight(s2, o) == InFlight(s, o);
    if HasDrainer(s, o) {
      var u :| 0 <= u < |s.threads| && Drains(s.threads[u].pc, o);
      assert Drains(s2.threads[u].pc, o);
    }
  }

  lemma SpawnCounted(s: State, t: nat, p: nat, q: nat)
    requires Inv(s) && Enabled(s, Spawn(t, p, q))
    ensures Counted(Apply(s, Spawn(t, p, q)))
  {
    hide Local, Counted, ThreadsUse, PipesUse, PipesHeld;
    var s2, a := Apply(s, Spawn(t, p, q)), s.threads[t];
    var b := a.(pipes := a.pipes - multiset{p, q});
    forall j: nat ensures SabCounted(s2, j) && PipeCounted(s2, j) {
      CountedAt(s, j);
      ThreadsUsePut(s.threads, t, b, j);
      PipesHeldPut(s.threads, t, b, j);
      ThreadsSnoc(s.threads[t := b], Thread(Idle, multiset{p, q}, multiset{}));
      assert (b.pipes + multiset{p, q})[j] == a.pipes[j];
    }
    AllCounted(s2);
  }

  lemma StepKeeps(s: State, e: Event)
    requires Inv(s) && Enabled(s, e)
    ensures Inv(Apply(s, e))
  {
    hide Inv, Enabled, Apply;
    match e
    case NewSab(t) => NewSabKeeps(s, t);
    case CopySab(t, k) => CopySabKeeps(s, t, k);
    case DropSab(t, k) => DropSabKeeps(s, t, k);
    case NewPipe(t, r) => NewPipeKeeps(s, t, r);
    case CopyPipe(t, p) => CopyPipeKeeps(s, t, p);
    case DropPipe(t, p) => DropPipeKeeps(s, t, p);
    case Spawn(t, p, q) => SpawnKeeps(s, t, p, q);
    case Post(t, p, refs) => PostKeeps(s, t, p, refs);
    case Poll(t, p) => PollKeeps(s, t, p);
    case Continue(t, ok) => ContinueKeeps(s, t, ok);
  }

  lemma InitInv()
    ensures Inv(Init())
  {
    var s := Init();
    assert s.threads[..0] == [];
    forall j: nat ensures SabCounted(s, j) && PipeCounted(s, j) { }
    AllCounted(s);
  }

  /** Every interleaving keeps the invariant. */
  lemma {:induction false} RunKeeps(run: seq<Event>)
    requires Run(Init(), run).Some?
    ensures Inv(Run(Init(), run).value)
    decreases |run|
  {
    hide Inv, Enabled, Apply, Init;
    if run == [] {
      InitInv();
    } else {
      var u := run[..|run| - 1];
      RunKeeps(u);
      StepKeeps(Run(Init(), u).value, run[|run| - 1]);
    }
  }

  // Message numbers.

  predicate Distinct(s: seq<nat>) { forall i, j :: 0 <= i < j < |s| ==> s[i] != s[j] }

  predicate NewId(s: State, t: nat)
    requires t < |s.threads|
  {
    var pc := s.threads[t].pc;
    Posting(pc) ==>
      && pc.m.id < s.nextId
      && (forall p :: 0 <= p < |s.pipes| ==> pc.m.id !in s.pipes[p].sent)
      && (forall u :: 0 <= u < |s.threads| && u != t && Posting(s.threads[u].pc) ==> s.threads[u].pc.m.id != pc.m.id)
  }

  predicate SentIds(s: State, p: nat)
    requires p < |s.pipes|
  {
    Distinct(s.pipes[p].sent) && forall i :: 0 <= i < |s.pipes[p].sent| ==> s.pipes[p].sent[i] < s.nextId
  }

  ghost predicate IdsOk(s: State) {
    (forall t: nat :: t < |s.threads| ==> NewId(s, t)) && (forall p: nat :: p < |s.pipes| ==> SentIds(s, p))
  }

  /** Thread t neither starts nor ends posting, and nothing is sent. */
  predicate SameIds(s: State, s2: State, t: nat) {
    && t < |s.threads| <= |s2.threads| && |s.pipes| <= |s2.pipes| && s2.nextId == s.nextId
    && (forall u :: 0 <= u < |s2.threads| && u != t ==> if u < |s.threads| then s2.threads[u].pc
      == s.threads[u].pc else s2.threads[u].pc.Idle?)
    && (Posting(s2.threads[t].pc) ==> Posting(s.threads[t].pc) && s2.threads[t].pc.m == s.threads[t].pc.m)
    && (forall p :: 0 <= p < |s2.pipes| ==> s2.pipes[p].sent == if p < |s.pipes| then s.pipes[p].sent else [])
  }

  lemma SameKeeps(s: State, s2: State, t: nat)
    requires IdsOk(s) && SameIds(s, s2, t)
    ensures IdsOk(s2)
  {
    forall u: nat | u < |s2.threads| ensures NewId(s2, u) {
      if u < |s.threads| { assert NewId(s, u); }
    }
    forall p: nat | p < |s2.pipes| ensures SentIds(s2, p) {
      if p < |s.pipes| { assert SentIds(s, p); }
    }
  }

  lemma PostIds(s: State, t: nat, p: nat, refs: seq<nat>)
    requires IdsOk(s) && Enabled(s, Post(t, p, refs))
    ensures IdsOk(Apply(s, Post(t, p, refs)))
  {
    var s2 := Apply(s, Post(t, p, refs));
    forall u: nat | u < |s2.threads| ensures NewId(s2, u) {
      assert NewId(s, u);
      forall o | 0 <= o < |s.pipes| && u == t ensures s.nextId !in s.pipes[o].sent { assert SentIds(s, o); }
      forall v | 0 <= v < |s.threads| && v != t && Posting(s.threads[v].pc)
        ensures s.threads[v].pc.m.id < s.nextId { assert NewId(s, v); }
    }
    forall o: nat | o < |s2.pipes| ensures SentIds(s2, o) { assert SentIds(s, o); }
  }

  lemma AppendIds(s: State, t: nat, p: nat, ok: bool)
    requires Ready(s, t, p) && IdsOk(s) && s.threads[t].pc.PostAppend?
    ensures IdsOk(Advance(s, t, s.pipes[p], ok))
  {
    hide Inv, ThreadOk, PipeOk, Waits;
    var s2 := Advance(s, t, s.pipes[p], ok);
    assert NewId(s, t);
    forall u: nat | u < |s2.threads| ensures NewId(s2, u) { assert NewId(s, u); }
    forall o: nat | o < |s2.pipes| ensures SentIds(s2, o) { assert SentIds(s, o); }
  }

  lemma PostSame(s: State, t: nat, p: nat, ok: bool)
    requires Ready(s, t, p) && !s.threads[t].pc.PostAppend? && Posting(s.threads[t].pc)
    ensures SameIds(s, Advance(s, t, s.pipes[p], ok), t)
  {
    hide Inv, ThreadOk, PipeOk, Waits;
  }

  lemma LockSame(s: State, t: nat, p: nat, ok: bool)
    requires Ready(s, t, p) && !s.threads[t].pc.PostAppend? && !Posting(s.threads[t].pc) && InLock(s.threads[t].pc)
    ensures SameIds(s, Advance(s, t, s.pipes[p], ok), t)
  {
    hide Inv, ThreadOk, PipeOk, Waits;
  }

  lemma RestSame(s: State, t: nat, p: nat, ok: bool)
    requires Ready(s, t, p) && !Posting(s.threads[t].pc) && !InLock(s.threads[t].pc)
    ensures SameIds(s, Advance(s, t, s.pipes[p], ok), t)
  {
    if s.threads[t].pc.Draining? || s.threads[t].pc.DrainMessage? { DrainSame(s, t, p, ok); }
    hide Inv, ThreadOk, PipeOk, Waits;
  }

  lemma DrainSame(s: State, t: nat, p: nat, ok: bool)
    requires Ready(s, t, p) && (s.threads[t].pc.Draining? || s.threads[t].pc.DrainMessage?)
    ensures SameIds(s, Advance(s, t, s.pipes[p], ok), t)
  {
    hide Inv, ThreadOk, PipeOk, Waits;
  }

  lemma ContinueIds(s: State, t: nat, ok: bool)
    requires Inv(s) && IdsOk(s) && Enabled(s, Continue(t, ok))
    ensures IdsOk(Apply(s, Continue(t, ok)))
  {
    hide Inv, Waits, IdsOk, Ready, Advance, SameIds;
    MakeReady(s, t);
    var p := s.threads[t].pc.p;
    ReadyBusy(s, t, p);
    if s.threads[t].pc.PostAppend? {
      AppendIds(s, t, p, ok);
    } else {
      if Posting(s.threads[t].pc) {
        PostSame(s, t, p, ok);
      } else if InLock(s.threads[t].pc) {
        LockSame(s, t, p, ok);
      } else {
        RestSame(s, t, p, ok);
      }
      SameKeeps(s, Advance(s, t, s.pipes[p], ok), t);
    }
  }

  lemma StepIds(s: State, e: Event)
    requires Inv(s) && IdsOk(s) && Enabled(s, e)
    ensures IdsOk(Apply(s, e))
  {
    hide *;
    if e.Continue? {
      ContinueIds(s, e.t, e.ok);
    } else if e.Post? {
      PostIds(s, e.t, e.p, e.refs);
    } else {
      if e.NewPipe? || e.CopyPipe? || e.DropPipe? { PipeSame(s, e); }
      else { OtherSame(s, e); }
      SameKeeps(s, Apply(s, e), e.t);
    }
  }

  lemma PipeSame(s: State, e: Event)
    requires Enabled(s, e) && (e.NewPipe? || e.CopyPipe? || e.DropPipe?)
    ensures SameIds(s, Apply(s, e), e.t)
  {
    hide Advance, Waits;
  }

  lemma OtherSame(s: State, e: Event)
    requires Enabled(s, e) && (e.NewSab? || e.CopySab? || e.DropSab? || e.Spawn? || e.Poll?)
    ensures SameIds(s, Apply(s, e), e.t)
  {
    hide Advance, Waits;
  }

  lemma {:induction false} RunIds(run: seq<Event>)
    requires Run(Init(), run).Some?
    ensures IdsOk(Run(Init(), run).value)
    decreases |run|
  {
    hide Inv, Enabled, Apply, IdsOk;
    if run == [] {
      NoIds();
    } else {
      var u := run[..|run| - 1];
      RunIds(u);
      RunKeeps(u);
      StepIds(Run(Init(), u).value, run[|run| - 1]);
    }
  }

  lemma NoIds()
    ensures IdsOk(Init())
  {
  }
}
