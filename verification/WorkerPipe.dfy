/** The worker message pipes: threads, a queue and a wake byte behind a mutex, and two kinds of
    reference counts. Every event is one atomic action of one thread, and events interleave freely. */
module WorkerPipe {
  import opened Options

  datatype Message = Message(id: nat, sabs: seq<nat>)

  /** A shared array buffer. */
  datatype Sab = Sab(refCount: int, freed: bool)

  /** A pipe. `lock` is the thread inside the mutex, `wrote` says whether the last write of a wake
      byte succeeded, and `sent`, `handled` and `dropped` record message numbers in order. */
  datatype Pipe = Pipe(refCount: int, queue: seq<Message>, wake: nat, lock: Option<nat>, receiver: nat,
                       wrote: bool, freed: bool, sent: seq<nat>, handled: seq<nat>, dropped: seq<nat>)

  /** What a thread does next. */
  datatype Pc =
    | Idle
    // js_worker_postMessage
    | PostDup(p: nat, m: Message, i: nat)
    | PostLock(p: nat, m: Message)
    | PostSignal(p: nat, m: Message)
    | PostAppend(p: nat, m: Message)
    | PostUnlock(p: nat)
    // handle_posted_message
    | TakeLock(p: nat)
    | TakeFirst(p: nat)
    | TakeClear(p: nat, m: Message)
    | TakeUnlock(p: nat, m: Message)
    | EmptyUnlock(p: nat)
    | Reading(p: nat, m: Message, i: nat)
    | Freeing(p: nat, m: Message, i: nat)
    // js_free_message_pipe, after the last reference is dropped
    | Draining(p: nat)
    | DrainMessage(p: nat, m: Message, i: nat)

  /** A thread and the references it holds. */
  datatype Thread = Thread(pc: Pc, pipes: multiset<nat>, sabs: multiset<nat>)

  /** `fault` records an access to freed memory, a count below zero or a mutex destroyed while held. */
  datatype State = State(threads: seq<Thread>, pipes: seq<Pipe>, sabs: seq<Sab>, nextId: nat, fault: bool)

  datatype Event =
    | NewSab(t: nat)
    | CopySab(t: nat, k: nat)
    | DropSab(t: nat, k: nat)
    | NewPipe(t: nat, receiver: nat)
    | CopyPipe(t: nat, p: nat)
    | DropPipe(t: nat, p: nat)
    | Spawn(t: nat, p: nat, q: nat)
    | Post(t: nat, p: nat, refs: seq<nat>)
    | Poll(t: nat, p: nat)
    | Continue(t: nat, ok: bool)

  // Actions.

  function Init(): State {
    State([Thread(Idle, multiset{}, multiset{})], [], [], 0, false)
  }

  function Put(s: State, t: nat, a: Thread): State
    requires t < |s.threads|
  {
    s.(threads := s.threads[t := a])
  }

  function Go(s: State, t: nat, pc: Pc): State
    requires t < |s.threads|
  {
    Put(s, t, s.threads[t].(pc := pc))
  }

  /** js_sab_dup */
  function SabDup(s: State, k: nat): State {
    if k >= |s.sabs| || s.sabs[k].freed then s.(fault := true)
    else s.(sabs := s.sabs[k := s.sabs[k].(refCount := s.sabs[k].refCount + 1)])
  }

  /** js_sab_free */
  function SabFree(s: State, k: nat): State {
    if k >= |s.sabs| || s.sabs[k].freed || s.sabs[k].refCount - 1 < 0 then s.(fault := true)
    else
      var n := s.sabs[k].refCount - 1;
      s.(sabs := s.sabs[k := Sab(n, n == 0)])
  }

  /** Access to a pipe's memory. */
  function Access(s: State, p: nat, q: Pipe): State {
    if p >= |s.pipes| || s.pipes[p].freed then s.(fault := true) else s.(pipes := s.pipes[p := q])
  }

  /** A change of the record only. */
  function Record(s: State, p: nat, q: Pipe): State {
    if p >= |s.pipes| then s else s.(pipes := s.pipes[p := q])
  }

  function Hold(s: State, t: nat, k: nat): State
    requires t < |s.threads|
  {
    Put(s, t, s.threads[t].(sabs := s.threads[t].sabs + multiset{k}))
  }

  predicate InLock(pc: Pc) {
    pc.PostSignal? || pc.PostAppend? || pc.PostUnlock? || pc.TakeFirst? || pc.TakeClear? || pc.TakeUnlock?
      || pc.EmptyUnlock?
  }

  predicate Enabled(s: State, e: Event) {
    && e.t < |s.threads|
    && var a := s.threads[e.t];
    match e
    case NewSab(_) => a.pc.Idle?
    case CopySab(_, k) => a.pc.Idle? && k in a.sabs
    case DropSab(_, k) => a.pc.Idle? && k in a.sabs
    case NewPipe(_, _) => a.pc.Idle?
    case CopyPipe(_, p) => a.pc.Idle? && p in a.pipes
    case DropPipe(_, p) => a.pc.Idle? && p in a.pipes
    case Spawn(_, p, q) => a.pc.Idle? && multiset{p, q} <= a.pipes
    case Post(_, p, refs) => a.pc.Idle? && p in a.pipes && forall i :: 0 <= i < |refs| ==> refs[i] in a.sabs
    case Poll(t, p) => a.pc.Idle? && p in a.pipes && p < |s.pipes| && s.pipes[p].receiver == t && s.pipes[p].wake > 0
    case Continue(_, _) => !a.pc.Idle? && !Waits(s, e.t)
  }

  /** The thread waits for the mutex, or in js_waker_clear for a byte. */
  predicate Waits(s: State, t: nat)
    requires t < |s.threads|
  {
    var pc := s.threads[t].pc;
    || ((pc.PostLock? || pc.TakeLock?) && pc.p < |s.pipes| && s.pipes[pc.p].lock != None)
    || BlockedInClear(s, t)
  }

  predicate BlockedInClear(s: State, t: nat)
    requires t < |s.threads|
  {
    var pc := s.threads[t].pc;
    pc.TakeClear? && pc.p < |s.pipes| && s.pipes[pc.p].queue == [] && s.pipes[pc.p].wake == 0
  }

  function Apply(s: State, e: Event): State
    requires Enabled(s, e)
  {
    var t, a := e.t, s.threads[e.t];
    match e
    case NewSab(_) => Hold(s.(sabs := s.sabs + [Sab(1, false)]), t, |s.sabs|)
    case CopySab(_, k) => Hold(SabDup(s, k), t, k)
    case DropSab(_, k) => SabFree(Put(s, t, a.(sabs := a.sabs - multiset{k})), k)
    case NewPipe(_, r) =>
      Put(s.(pipes := s.pipes + [Pipe(1, [], 0, None, r, true, false, [], [], [])]), t,
        a.(pipes := a.pipes + multiset{|s.pipes|}))
    case CopyPipe(_, p) =>
      if p >= |s.pipes| then s.(fault := true)
      else
        Access(Put(s, t, a.(pipes := a.pipes + multiset{p})), p, s.pipes[p].(refCount := s.pipes[p].refCount + 1))
    case DropPipe(_, p) =>
      if p >= |s.pipes| || s.pipes[p].refCount - 1 < 0 then s.(fault := true)
      else
        var n := s.pipes[p].refCount - 1;
        Access(Put(s, t, Thread(if n == 0 then Draining(p) else Idle, a.pipes - multiset{p}, a.sabs)), p,
          s.pipes[p].(refCount := n))
    case Spawn(_, p, q) =>
      var u := Put(s, t, a.(pipes := a.pipes - multiset{p, q}));
      u.(threads := u.threads + [Thread(Idle, multiset{p, q}, multiset{})])
    case Post(_, p, refs) => Go(s, t, PostDup(p, Message(s.nextId, refs), 0)).(nextId := s.nextId + 1)
    case Poll(_, p) => Go(s, t, TakeLock(p))
    case Continue(_, ok) => if a.pc.p >= |s.pipes| then s.(fault := true) else Advance(s, t, s.pipes[a.pc.p], ok)
  }

  /** The next action of a thread inside an operation. ok tells whether a write or a read of an object succeeds. */
  function Advance(s: State, t: nat, q: Pipe, ok: bool): State
    requires t < |s.threads| && !s.threads[t].pc.Idle?
  {
    match s.threads[t].pc
    case PostDup(p, m, i) => if i < |m.sabs| then Go(SabDup(s, m.sabs[i]), t, PostDup(p, m, i + 1))
      else Go(s, t, PostLock(p, m))
    case PostLock(p, m) => Go(Access(s, p, q.(lock := Some(t))), t, PostSignal(p, m))
    case PostSignal(p, m) =>
      Go(if q.queue != [] then Access(s, p, q) else if ok then Access(s, p, q.(wake := q.wake + 1, wrote := true))
        else Access(s, p, q.(wrote := false)),
         t, PostAppend(p, m))
    case PostAppend(p, m) => Go(Access(s, p, q.(queue := q.queue + [m], sent := q.sent + [m.id])), t, PostUnlock(p))
    case PostUnlock(p) => Go(Access(s, p, q.(lock := None)), t, Idle)
    case TakeLock(p) => Go(Access(s, p, q.(lock := Some(t))), t, TakeFirst(p))
    case TakeFirst(p) =>
      if q.queue == [] then Go(Access(s, p, q), t, EmptyUnlock(p))
      else Go(Access(s, p, q.(queue := q.queue[1..])), t, TakeClear(p, q.queue[0]))
    case TakeClear(p, m) =>
      Go(Access(s, p, if q.queue != [] then q else q.(wake := if q.wake <= 16 then 0 else q.wake - 16)), t,
        TakeUnlock(p, m))
    case TakeUnlock(p, m) => Go(Access(s, p, q.(lock := None)), t, Reading(p, m, 0))
    case EmptyUnlock(p) => Go(Access(s, p, q.(lock := None)), t, Idle)
    case Reading(p, m, i) =>
      if ok && i < |m.sabs| then Go(Hold(SabDup(s, m.sabs[i]), t, m.sabs[i]), t, Reading(p, m, i + 1))
        else Go(s, t, Freeing(p, m, 0))
    case Freeing(p, m, i) =>
      if i < |m.sabs| then Go(SabFree(s, m.sabs[i]), t, Freeing(p, m, i + 1))
      else Go(Record(s, p, q.(handled := q.handled + [m.id])), t, Idle)
    case Draining(p) =>
      if q.queue == [] then
        var u := Go(Access(s, p, q.(freed := true)), t, Idle);
        if q.lock != None then u.(fault := true) else u
      else Go(Access(s, p, q.(queue := q.queue[1..], dropped := q.dropped + [q.queue[0].id])), t,
        DrainMessage(p, q.queue[0], 0))
    case DrainMessage(p, m, i) =>
      if i < |m.sabs| then Go(SabFree(s, m.sabs[i]), t, DrainMessage(p, m, i + 1)) else Go(s, t, Draining(p))
  }

  // Runs.

  /** The state after the events, when they can happen one after the other. */
  function Run(s: State, run: seq<Event>): Option<State> {
    if run == [] then Some(s)
    else
      var before := Run(s, run[..|run| - 1]);
      if before.Some? && Enabled(before.value, run[|run| - 1]) then Some(Apply(before.value, run[|run| - 1])) else None
  }
}
