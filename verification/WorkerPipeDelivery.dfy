/** What a receiver gets: the references of the message that was posted, each of them counted. */
module WorkerPipeDelivery {
  import opened Options
  import opened WorkerPipe
  import opened WorkerPipeInvariant
  import opened WorkerPipeRuns

  // Messages only move.

  predicate HasMessage(pc: Pc) {
    pc.PostDup? || pc.PostLock? || pc.PostSignal? || pc.PostAppend? || pc.TakeClear? || pc.TakeUnlock? || pc.Reading?
      || pc.Freeing? || pc.DrainMessage?
  }

  /** P holds of every message and its pipe, in a queue or under way. */
  ghost predicate Carried(s: State, P: (nat, Message) -> bool) {
    && (forall t: nat :: t < |s.threads| && HasMessage(s.threads[t].pc) ==> P(s.threads[t].pc.p, s.threads[t].pc.m))
    && (forall p: nat, i: nat :: p < |s.pipes| && i < |s.pipes[p].queue| ==> P(p, s.pipes[p].queue[i]))
  }

  /** A queue after a step of a thread at pc. */
  predicate QueueStep(q: seq<Message>, q2: seq<Message>, pc: Pc, p: nat) {
    q2 == q || (q != [] && q2 == q[1..]) || (HasMessage(pc) && pc.p == p && q2 == q + [pc.m])
  }

  /** Thread t moves a message from itself to a queue, or from a queue to itself, or none. */
  predicate MovesOnly(s: State, s2: State, t: nat) {
    && t < |s.threads| <= |s2.threads| && |s.pipes| <= |s2.pipes|
    && (forall u :: 0 <= u < |s2.threads| && u != t ==> if u < |s.threads| then s2.threads[u].pc
      == s.threads[u].pc else s2.threads[u].pc.Idle?)
    && (forall p :: 0 <= p < |s2.pipes| ==>
          if p < |s.pipes| then QueueStep(s.pipes[p].queue, s2.pipes[p].queue, s.threads[t].pc, p)
          else s2.pipes[p].queue == [])
    && var pc, pc2 := s.threads[t].pc, s2.threads[t].pc;
      HasMessage(pc2) ==>
        || (HasMessage(pc) && pc2.p == pc.p && pc2.m == pc.m)
        || (pc2.p < |s.pipes| && s.pipes[pc2.p].queue != [] && pc2.m == s.pipes[pc2.p].queue[0])
  }

  lemma MovesCarry(s: State, s2: State, t: nat, P: (nat, Message) -> bool)
    requires Carried(s, P) && MovesOnly(s, s2, t)
    ensures Carried(s2, P)
  {
    forall p: nat, i: nat | p < |s2.pipes| && i < |s2.pipes[p].queue| ensures P(p, s2.pipes[p].queue[i]) {
      var q, q2 := s.pipes[p].queue, s2.pipes[p].queue;
      if q2 == q {
        assert P(p, q[i]);
      } else if q != [] && q2 == q[1..] {
        assert P(p, q[i + 1]);
      } else {
        assert i < |q| ==> P(p, q[i]);
      }
    }
  }

  lemma PipeMoves(s: State, e: Event)
    requires Enabled(s, e) && (e.NewPipe? || e.CopyPipe? || e.DropPipe?)
    ensures MovesOnly(s, Apply(s, e), e.t)
  {
    hide Waits, Advance;
  }

  lemma OtherMoves(s: State, e: Event)
    requires Enabled(s, e) && (e.NewSab? || e.CopySab? || e.DropSab? || e.Spawn? || e.Poll?)
    ensures MovesOnly(s, Apply(s, e), e.t)
  {
    hide Waits, Advance;
  }

  lemma PostMoves(s: State, t: nat, q: Pipe, ok: bool)
    requires t < |s.threads| && Posting(s.threads[t].pc) && s.threads[t].pc.p < |s.pipes|
    requires q == s.pipes[s.threads[t].pc.p]
    ensures MovesOnly(s, Advance(s, t, q, ok), t)
  {
  }

  lemma LockMoves(s: State, t: nat, q: Pipe, ok: bool)
    requires t < |s.threads| && !Posting(s.threads[t].pc) && InLock(s.threads[t].pc) && s.threads[t].pc.p < |s.pipes|
    requires q == s.pipes[s.threads[t].pc.p]
    ensures MovesOnly(s, Advance(s, t, q, ok), t)
  {
  }

  lemma DrainingMoves(s: State, t: nat, q: Pipe, ok: bool)
    requires t < |s.threads| && s.threads[t].pc.Draining? && s.threads[t].pc.p < |s.pipes|
    requires q == s.pipes[s.threads[t].pc.p]
    ensures MovesOnly(s, Advance(s, t, q, ok), t)
  {
  }

  lemma DropsMoves(s: State, t: nat, q: Pipe, ok: bool)
    requires t < |s.threads| && s.threads[t].pc.DrainMessage? && s.threads[t].pc.p < |s.pipes|
    requires q == s.pipes[s.threads[t].pc.p]
    ensures MovesOnly(s, Advance(s, t, q, ok), t)
  {
  }

  lemma RestMoves(s: State, t: nat, q: Pipe, ok: bool)
    requires t < |s.threads| && (s.threads[t].pc.TakeLock? || s.threads[t].pc.Reading? || s.threads[t].pc.Freeing?)
    requires s.threads[t].pc.p < |s.pipes| && q == s.pipes[s.threads[t].pc.p]
    ensures MovesOnly(s, Advance(s, t, q, ok), t)
  {
  }

  lemma StepCarries(s: State, e: Event, P: (nat, Message) -> bool)
    requires Carried(s, P) && Enabled(s, e) && (e.Post? ==> P(e.p, Message(s.nextId, e.refs)))
    ensures Carried(Apply(s, e), P)
  {
    hide Waits, Advance, MovesOnly, Carried;
    if e.Continue? {
      var pc := s.threads[e.t].pc;
      if pc.p >= |s.pipes| {
        Faulted(s, P);
      } else {
        var q := s.pipes[pc.p];
        if Posting(pc) { PostMoves(s, e.t, q, e.ok); }
        else if InLock(pc) { LockMoves(s, e.t, q, e.ok); }
        else if pc.Draining? { DrainingMoves(s, e.t, q, e.ok); }
        else if pc.DrainMessage? { DropsMoves(s, e.t, q, e.ok); }
        else { RestMoves(s, e.t, q, e.ok); }
        MovesCarry(s, Advance(s, e.t, q, e.ok), e.t, P);
      }
    } else if e.Post? {
      PostCarries(s, e, P);
    } else {
      if e.NewPipe? || e.CopyPipe? || e.DropPipe? { PipeMoves(s, e); } else { OtherMoves(s, e); }
      MovesCarry(s, Apply(s, e), e.t, P);
    }
  }

  lemma Faulted(s: State, P: (nat, Message) -> bool)
    requires Carried(s, P)
    ensures Carried(s.(fault := true), P)
  {
  }

  lemma PostCarries(s: State, e: Event, P: (nat, Message) -> bool)
    requires Carried(s, P) && Enabled(s, e) && e.Post? && P(e.p, Message(s.nextId, e.refs))
    ensures Carried(Apply(s, e), P)
  {
  }

  // What a step leaves alone.

  /** A step of thread t: the other threads are as they were, and so are the numbers given out. */
  predicate Alone(s: State, s2: State, t: nat) {
    s2.nextId == s.nextId && |s2.threads| >= |s.threads|
    && forall u :: 0 <= u < |s.threads| && u != t ==> s2.threads[u] == s.threads[u]
  }

  lemma PostAlone(s: State, t: nat, q: Pipe, ok: bool)
    requires t < |s.threads| && Posting(s.threads[t].pc)
    ensures Alone(s, Advance(s, t, q, ok), t)
  {
  }

  lemma LockAlone(s: State, t: nat, q: Pipe, ok: bool)
    requires t < |s.threads| && !Posting(s.threads[t].pc) && InLock(s.threads[t].pc)
    ensures Alone(s, Advance(s, t, q, ok), t)
  {
  }

  lemma RestAlone(s: State, t: nat, q: Pipe, ok: bool)
    requires t < |s.threads| && (s.threads[t].pc.TakeLock? || s.threads[t].pc.Reading? || s.threads[t].pc.Freeing?)
    ensures Alone(s, Advance(s, t, q, ok), t)
  {
  }

  lemma DrainAlone(s: State, t: nat, q: Pipe, ok: bool)
    requires t < |s.threads| && (s.threads[t].pc.Draining? || s.threads[t].pc.DrainMessage?)
    ensures Alone(s, Advance(s, t, q, ok), t)
  {
  }

  lemma PipeAlone(s: State, e: Event)
    requires Enabled(s, e) && (e.NewPipe? || e.CopyPipe? || e.DropPipe?)
    ensures Alone(s, Apply(s, e), e.t)
  {
    hide Waits, Advance;
  }

  lemma OtherAlone(s: State, e: Event)
    requires Enabled(s, e) && (e.NewSab? || e.CopySab? || e.DropSab? || e.Spawn? || e.Poll?)
    ensures Alone(s, Apply(s, e), e.t)
  {
    hide Waits, Advance;
  }

  lemma PostsNext(s: State, e: Event)
    requires Enabled(s, e) && e.Post?
    ensures Apply(s, e).nextId == s.nextId + 1 && Alone(s, Apply(s, e).(nextId := s.nextId), e.t)
  {
    hide Waits, Advance;
  }

  lemma StepAlone(s: State, e: Event)
    requires Enabled(s, e)
    ensures Alone(s, Apply(s, e).(nextId := s.nextId), e.t)
    ensures Apply(s, e).nextId == s.nextId + if e.Post? then 1 else 0
  {
    hide Waits, Advance, Alone;
    if e.Continue? {
      var pc := s.threads[e.t].pc;
      if pc.p >= |s.pipes| {
        FaultAlone(s, e.t);
      } else {
        var q := s.pipes[pc.p];
        if Posting(pc) { PostAlone(s, e.t, q, e.ok); }
        else if InLock(pc) { LockAlone(s, e.t, q, e.ok); }
        else if pc.Draining? || pc.DrainMessage? { DrainAlone(s, e.t, q, e.ok); }
        else { RestAlone(s, e.t, q, e.ok); }
        AloneNumber(s, Advance(s, e.t, q, e.ok), e.t);
      }
    } else if e.Post? {
      PostsNext(s, e);
    } else {
      if e.NewPipe? || e.CopyPipe? || e.DropPipe? { PipeAlone(s, e); } else { OtherAlone(s, e); }
      AloneNumber(s, Apply(s, e), e.t);
    }
  }

  lemma FaultAlone(s: State, t: nat)
    ensures Alone(s, s.(fault := true), t)
  {
  }

  lemma AloneNumber(s: State, s2: State, t: nat)
    requires Alone(s, s2, t)
    ensures s2.nextId == s.nextId && Alone(s, s2.(nextId := s.nextId), t)
  {
  }

  // The numbers of messages.

  function Below(n: nat): (nat, Message) -> bool { (p: nat, m: Message) => m.id < n }

  /** Whatever has the number is the message with these references, on its way through the pipe p. */
  function Named(id: nat, p: nat, refs: seq<nat>): (nat, Message) -> bool {
    (o: nat, m: Message) => m.id == id ==> o == p && m.sabs == refs
  }

  lemma CarriedMore(s: State, P: (nat, Message) -> bool, Q: (nat, Message) -> bool)
    requires Carried(s, P) && forall p, m :: P(p, m) ==> Q(p, m)
    ensures Carried(s, Q)
  {
  }

  lemma {:induction false} NumbersBelow(run: seq<Event>)
    requires Run(Init(), run).Some?
    ensures Carried(Run(Init(), run).value, Below(Run(Init(), run).value.nextId))
    decreases |run|
  {
    hide Apply, Enabled, Carried;
    if run == [] {
      NothingCarried(Below(0));
    } else {
      var s, e := Run(Init(), run[..|run| - 1]).value, run[|run| - 1];
      NumbersBelow(run[..|run| - 1]);
      StepAlone(s, e);
      CarriedMore(s, Below(s.nextId), Below(Apply(s, e).nextId));
      StepCarries(s, e, Below(Apply(s, e).nextId));
    }
  }

  lemma NothingCarried(P: (nat, Message) -> bool)
    ensures Carried(Init(), P)
  {
  }

  /** The number of a posted message stays its own. */
  lemma {:induction false} StaysNamed(s: State, more: seq<Event>, id: nat, p: nat, refs: seq<nat>)
    requires Carried(s, Named(id, p, refs)) && id < s.nextId && Run(s, more).Some?
    ensures Carried(Run(s, more).value, Named(id, p, refs)) && id < Run(s, more).value.nextId
    decreases |more|
  {
    hide Apply, Enabled, Carried;
    if more != [] {
      var n := |more| - 1;
      StaysNamed(s, more[..n], id, p, refs);
      var u := Run(s, more[..n]).value;
      StepAlone(u, more[n]);
      StepCarries(u, more[n], Named(id, p, refs));
    }
  }

  lemma {:induction false} RunAppend(s: State, a: seq<Event>, b: seq<Event>)
    ensures Run(s, a + b) == if Run(s, a).None? then None else Run(Run(s, a).value, b)
    decreases |b|
  {
    hide Apply, Enabled;
    if b == [] {
      assert a + b == a;
    } else {
      var n := |b| - 1;
      RunAppend(s, a, b[..n]);
      assert (a + b)[..|a + b| - 1] == a + b[..n] && (a + b)[|a + b| - 1] == b[n];
    }
  }

  // From the mutex to the end of the handler.

  /** Thread t is handling m: it has the references of the objects read so far, besides those in `own`. */
  predicate Receives(s: State, t: nat, p: nat, m: Message, own: multiset<nat>) {
    && t < |s.threads|
    && var a := s.threads[t];
    match a.pc
    case TakeClear(p1, m1) => p1 == p && m1 == m && a.sabs == own
    case TakeUnlock(p1, m1) => p1 == p && m1 == m && a.sabs == own
    case Reading(p1, m1, i) => p1 == p && m1 == m && i <= |m.sabs| && a.sabs == own + multiset(m.sabs[..i])
    case Freeing(p1, m1, _) => p1 == p && m1 == m && a.sabs == own + multiset(m.sabs)
    case Idle => a.sabs == own + multiset(m.sabs)
    case _ => false
  }

  lemma OtherThread(s: State, e: Event, t: nat)
    requires Enabled(s, e) && t < |s.threads| && e.t != t
    ensures t < |Apply(s, e).threads| && Apply(s, e).threads[t] == s.threads[t]
  {
    hide Apply, Enabled;
    StepAlone(s, e);
  }

  /** One object more is read, or none is left. */
  lemma ReadsOne(s: State, t: nat, q: Pipe)
    requires t < |s.threads| && s.threads[t].pc.Reading?
    ensures var a, s2 := s.threads[t], Advance(s, t, q, true);
      && t < |s2.threads|
      && s2.threads[t] == if a.pc.i < |a.pc.m.sabs|
        then Thread(Reading(a.pc.p, a.pc.m, a.pc.i + 1), a.pipes, a.sabs + multiset{a.pc.m.sabs[a.pc.i]})
        else a.(pc := Freeing(a.pc.p, a.pc.m, 0))
  {
  }

  lemma ReadsNext(s: State, t: nat, p: nat, m: Message, own: multiset<nat>, q: Pipe)
    requires Receives(s, t, p, m, own) && s.threads[t].pc.Reading?
    ensures Receives(Advance(s, t, q, true), t, p, m, own)
  {
    hide Advance;
    assert m.sabs[..|m.sabs|] == m.sabs;
    var pc := s.threads[t].pc;
    ReadsOne(s, t, q);
    if pc.i < |m.sabs| { SliceUse(m.sabs, pc.i); }
  }

  lemma TakesNext(s: State, t: nat, p: nat, m: Message, own: multiset<nat>, q: Pipe)
    requires Receives(s, t, p, m, own) && (s.threads[t].pc.TakeClear? || s.threads[t].pc.TakeUnlock?)
    ensures Receives(Advance(s, t, q, true), t, p, m, own)
  {
    assert multiset(m.sabs[..0]) == multiset{};
  }

  lemma FreesNext(s: State, t: nat, p: nat, m: Message, own: multiset<nat>, q: Pipe)
    requires Receives(s, t, p, m, own) && s.threads[t].pc.Freeing?
    ensures Receives(Advance(s, t, q, true), t, p, m, own)
  {
  }

  lemma ReceivesStep(s: State, t: nat, p: nat, m: Message, own: multiset<nat>)
    requires Receives(s, t, p, m, own) && Enabled(s, Continue(t, true))
    ensures Receives(Apply(s, Continue(t, true)), t, p, m, own)
  {
    hide Waits, Advance;
    var pc := s.threads[t].pc;
    if pc.p < |s.pipes| {
      var q := s.pipes[pc.p];
      if pc.Reading? { ReadsNext(s, t, p, m, own, q); }
      else if pc.Freeing? { FreesNext(s, t, p, m, own, q); }
      else { TakesNext(s, t, p, m, own, q); }
    }
  }

  lemma {:induction false} ReceivesRun(s: State, more: seq<Event>, t: nat, p: nat, m: Message, own: multiset<nat>)
    requires Receives(s, t, p, m, own) && Run(s, more).Some?
    requires forall i :: 0 <= i < |more| && more[i].t == t ==> more[i] == Continue(t, true)
    ensures Receives(Run(s, more).value, t, p, m, own)
    decreases |more|
  {
    hide Apply, Enabled;
    if more != [] {
      var n := |more| - 1;
      ReceivesRun(s, more[..n], t, p, m, own);
      var u := Run(s, more[..n]).value;
      if more[n].t == t {
        assert more[n] == Continue(t, true);
        ReceivesStep(u, t, p, m, own);
      } else {
        OtherThread(u, more[n], t);
      }
    }
  }

  /** A reference that a thread holds is to a buffer that is not freed, and is counted. */
  lemma HeldCounted(run: seq<Event>, t: nat, k: nat)
    requires Run(Init(), run).Some?
    requires t < |Run(Init(), run).value.threads| && k in Run(Init(), run).value.threads[t].sabs
    ensures var s := Run(Init(), run).value;
      k < |s.sabs| && !s.sabs[k].freed && s.sabs[k].refCount >= s.threads[t].sabs[k]
  {
    hide Init, Run, Local, ThreadsUse, PipesUse;
    RunKeeps(run);
    var s := Run(Init(), run).value;
    CountedAt(s, k);
    HeldBelow(s.threads, t, k);
    assert ThreadUse(s.threads[t])[k] >= s.threads[t].sabs[k] > 0;
  }

  /** From taking a message to the end of the handler, when all its objects are read and the thread does nothing
      else, the thread gains exactly the references of the message; their buffers are then not freed, and the
      counts include the new references. */
  lemma Delivered(run: seq<Event>, more: seq<Event>, t: nat)
    requires Run(Init(), run).Some? && Run(Run(Init(), run).value, more).Some?
    requires t < |Run(Init(), run).value.threads| && Run(Init(), run).value.threads[t].pc.TakeUnlock?
    requires forall i :: 0 <= i < |more| && more[i].t == t ==> more[i] == Continue(t, true)
    requires var s2 := Run(Run(Init(), run).value, more).value; t < |s2.threads| ==> s2.threads[t].pc.Idle?
    ensures var s := Run(Init(), run).value; var s2 := Run(s, more).value; var m := s.threads[t].pc.m;
      && t < |s2.threads| && s2.threads[t].sabs == s.threads[t].sabs + multiset(m.sabs)
      && forall i :: 0 <= i < |m.sabs| ==>
          m.sabs[i] < |s2.sabs| && !s2.sabs[m.sabs[i]].freed
          && s2.sabs[m.sabs[i]].refCount >= s2.threads[t].sabs[m.sabs[i]]
  {
    hide Run, Init;
    var s := Run(Init(), run).value;
    var m := s.threads[t].pc.m;
    ReceivesRun(s, more, t, s.threads[t].pc.p, m, s.threads[t].sabs);
    RunAppend(Init(), run, more);
    forall i | 0 <= i < |m.sabs|
      ensures var s2 := Run(s, more).value; var k := m.sabs[i];
        k < |s2.sabs| && !s2.sabs[k].freed && s2.sabs[k].refCount >= s2.threads[t].sabs[k]
    {
      assert m.sabs[i] in multiset(m.sabs);
      HeldCounted(run + more, t, m.sabs[i]);
    }
  }

  /** The message that a thread takes is the one that was posted under its number. */
  lemma TakenIsPosted(run: seq<Event>, e: Event, later: seq<Event>, t: nat)
    requires e.Post? && Run(Init(), run).Some? && Run(Init(), run + [e]).Some? && Run(Init(), run + [e] + later).Some?
    requires var s := Run(Init(), run + [e] + later).value;
      t < |s.threads| && HasMessage(s.threads[t].pc) && s.threads[t].pc.m.id == Run(Init(), run).value.nextId
    ensures var pc := Run(Init(), run + [e] + later).value.threads[t].pc; pc.p == e.p && pc.m.sabs == e.refs
  {
    hide Run, Init, Apply, Enabled, HasMessage;
    var s := Run(Init(), run).value;
    var id := s.nextId;
    NumbersBelow(run);
    PostedNext(run, e);
    CarriedMore(s, Below(id), Named(id, e.p, e.refs));
    StepCarries(s, e, Named(id, e.p, e.refs));
    StepAlone(s, e);
    RunAppend(Init(), run + [e], later);
    StaysNamed(Apply(s, e), later, id, e.p, e.refs);
    NamedAt(Run(Init(), run + [e] + later).value, t, id, e.p, e.refs);
  }

  lemma PostedNext(run: seq<Event>, e: Event)
    requires Run(Init(), run).Some? && Run(Init(), run + [e]).Some?
    ensures Enabled(Run(Init(), run).value, e) && Run(Init(), run + [e]) == Some(Apply(Run(Init(), run).value, e))
  {
    hide Init, Apply, Enabled;
    assert (run + [e])[..|run|] == run;
  }

  lemma NamedAt(s: State, t: nat, id: nat, p: nat, refs: seq<nat>)
    requires Carried(s, Named(id, p, refs)) && t < |s.threads| && HasMessage(s.threads[t].pc)
    ensures s.threads[t].pc.m.id == id ==> s.threads[t].pc.p == p && s.threads[t].pc.m.sabs == refs
  {
  }

  /** What was posted is what is received: the receiver ends with exactly the posted references besides its own,
      and may use every one of these buffers. */
  lemma PostReceived(run: seq<Event>, e: Event, later: seq<Event>, more: seq<Event>, t: nat)
    requires e.Post? && Run(Init(), run).Some? && Run(Init(), run + [e]).Some? && Run(Init(), run + [e] + later).Some?
    requires var s := Run(Init(), run + [e] + later).value;
      && t < |s.threads| && s.threads[t].pc.TakeUnlock? && s.threads[t].pc.m.id == Run(Init(), run).value.nextId
      && Run(s, more).Some? && (t < |Run(s, more).value.threads| ==> Run(s, more).value.threads[t].pc.Idle?)
    requires forall i :: 0 <= i < |more| && more[i].t == t ==> more[i] == Continue(t, true)
    ensures var s := Run(Init(), run + [e] + later).value; var s2 := Run(s, more).value;
      && s.threads[t].pc.p == e.p
      && t < |s2.threads| && s2.threads[t].sabs == s.threads[t].sabs + multiset(e.refs)
      && forall i :: 0 <= i < |e.refs| ==>
          e.refs[i] < |s2.sabs| && !s2.sabs[e.refs[i]].freed
          && s2.sabs[e.refs[i]].refCount >= s2.threads[t].sabs[e.refs[i]]
  {
    hide Run, Init;
    TakenIsPosted(run, e, later, t);
    Delivered(run + [e] + later, more, t);
  }

  /** A thread inside an operation works on a pipe that is not freed. */
  lemma BusyLive(run: seq<Event>, t: nat)
    requires Run(Init(), run).Some?
    requires t < |Run(Init(), run).value.threads| && !Run(Init(), run).value.threads[t].pc.Idle?
    ensures var s := Run(Init(), run).value; s.threads[t].pc.p < |s.pipes| && !s.pipes[s.threads[t].pc.p].freed
  {
    hide Counted, Init, Run, InFlight, WakeBytes, HasDrainer, IndexOk;
    RunKeeps(run);
    var s := Run(Init(), run).value;
    assert ThreadOk(s, t);
    if !Drains(s.threads[t].pc, s.threads[t].pc.p) { HeldLive(s, t, s.threads[t].pc.p); }
  }

  // A woken receiver handles the next message.

  /** A step leaves what pipe p has recorded as handled. */
  predicate SameHandled(s: State, s2: State, p: nat) {
    && p < |s.pipes| <= |s2.pipes| && s2.pipes[p].receiver == s.pipes[p].receiver
    && s2.pipes[p].handled == s.pipes[p].handled
  }

  lemma PostHandles(s: State, t: nat, q: Pipe, ok: bool, p: nat)
    requires t < |s.threads| && Posting(s.threads[t].pc) && p < |s.pipes| && s.threads[t].pc.p < |s.pipes|
    requires q == s.pipes[s.threads[t].pc.p]
    ensures SameHandled(s, Advance(s, t, q, ok), p)
  {
  }

  lemma LockHandles(s: State, t: nat, q: Pipe, ok: bool, p: nat)
    requires t < |s.threads| && !Posting(s.threads[t].pc) && InLock(s.threads[t].pc)
    requires p < |s.pipes| && s.threads[t].pc.p < |s.pipes| && q == s.pipes[s.threads[t].pc.p]
    ensures SameHandled(s, Advance(s, t, q, ok), p)
  {
  }

  lemma RestHandles(s: State, t: nat, q: Pipe, ok: bool, p: nat)
    requires t < |s.threads| && p < |s.pipes|
    requires var pc := s.threads[t].pc; pc.TakeLock? || pc.Reading? || (pc.Freeing? && pc.p != p)
    requires s.threads[t].pc.p < |s.pipes| && q == s.pipes[s.threads[t].pc.p]
    ensures SameHandled(s, Advance(s, t, q, ok), p)
  {
  }

  lemma DrainHandles(s: State, t: nat, q: Pipe, ok: bool, p: nat)
    requires t < |s.threads| && (s.threads[t].pc.Draining? || s.threads[t].pc.DrainMessage?)
    requires p < |s.pipes| && s.threads[t].pc.p < |s.pipes| && q == s.pipes[s.threads[t].pc.p]
    ensures SameHandled(s, Advance(s, t, q, ok), p)
  {
  }

  lemma EventHandles(s: State, e: Event, p: nat)
    requires Enabled(s, e) && !e.Continue? && p < |s.pipes|
    ensures SameHandled(s, Apply(s, e), p)
  {
    hide Waits, Advance;
  }

  /** Only the receiver of a pipe handles its messages. */
  lemma OthersHandle(s: State, e: Event, p: nat)
    requires Inv(s) && Enabled(s, e) && p < |s.pipes| && e.t != s.pipes[p].receiver
    ensures SameHandled(s, Apply(s, e), p)
  {
    if e.Continue? {
      var pc := s.threads[e.t].pc;
      HandlerIs(s, e.t);
      hide Inv, Waits, Advance, SameHandled;
      var q := s.pipes[pc.p];
      if Posting(pc) { PostHandles(s, e.t, q, e.ok, p); }
      else if InLock(pc) { LockHandles(s, e.t, q, e.ok, p); }
      else if pc.Draining? || pc.DrainMessage? { DrainHandles(s, e.t, q, e.ok, p); }
      else { RestHandles(s, e.t, q, e.ok, p); }
    } else {
      EventHandles(s, e, p);
    }
  }

  lemma HandlerIs(s: State, t: nat)
    requires Inv(s) && t < |s.threads|
    ensures var pc := s.threads[t].pc; !pc.Idle? ==> pc.p < |s.pipes|
    ensures var pc := s.threads[t].pc; pc.TakeLock? || pc.Freeing? ==> s.pipes[pc.p].receiver == t
    ensures var pc := s.threads[t].pc; pc.TakeFirst? ==> s.pipes[pc.p].queue != []
  {
    hide Counted, InFlight, HasDrainer, IndexOk;
    assert ThreadOk(s, t);
    if s.threads[t].pc.TakeFirst? {
      HeldLive(s, t, s.threads[t].pc.p);
      assert PipeOk(s, s.threads[t].pc.p);
    }
  }

  /** Thread t is in the handler of p, which had handled h when it began. */
  predicate Handles(s: State, t: nat, p: nat, h: seq<nat>) {
    && t < |s.threads| && p < |s.pipes| && s.pipes[p].receiver == t
    && var pc, handled := s.threads[t].pc, s.pipes[p].handled;
    match pc
    case TakeLock(o) => o == p && handled == h
    case TakeFirst(o) => o == p && handled == h
    case TakeClear(o, _) => o == p && handled == h
    case TakeUnlock(o, _) => o == p && handled == h
    case Reading(o, _, _) => o == p && handled == h
    case Freeing(o, _, _) => o == p && handled == h
    case Idle => |handled| == |h| + 1 && handled[..|h|] == h
    case _ => false
  }

  lemma FreesHandled(s: State, t: nat, p: nat, h: seq<nat>, ok: bool)
    requires Handles(s, t, p, h) && s.threads[t].pc.Freeing?
    ensures Handles(Advance(s, t, s.pipes[p], ok), t, p, h)
  {
    var q := s.pipes[p];
    assert (q.handled + [s.threads[t].pc.m.id])[..|h|] == h;
  }

  lemma TakesHandled(s: State, t: nat, p: nat, h: seq<nat>, ok: bool)
    requires Handles(s, t, p, h) && InLock(s.threads[t].pc)
    requires s.threads[t].pc.TakeFirst? ==> s.pipes[p].queue != []
    ensures Handles(Advance(s, t, s.pipes[p], ok), t, p, h)
  {
  }

  lemma ReadsHandled(s: State, t: nat, p: nat, h: seq<nat>, ok: bool)
    requires Handles(s, t, p, h) && (s.threads[t].pc.TakeLock? || s.threads[t].pc.Reading?)
    ensures Handles(Advance(s, t, s.pipes[p], ok), t, p, h)
  {
  }

  lemma HandlesStep(s: State, e: Event, t: nat, p: nat, h: seq<nat>)
    requires Inv(s) && Handles(s, t, p, h) && Enabled(s, e) && (e.t == t ==> e.Continue?)
    ensures Handles(Apply(s, e), t, p, h)
  {
    if e.t == t {
      HandlerIs(s, t);
      hide Inv, Waits, Advance;
      var pc := s.threads[t].pc;
      if pc.Freeing? { FreesHandled(s, t, p, h, e.ok); }
      else if InLock(pc) { TakesHandled(s, t, p, h, e.ok); }
      else { ReadsHandled(s, t, p, h, e.ok); }
    } else {
      hide Inv, Enabled, Apply;
      OthersHandle(s, e, p);
      OtherThread(s, e, t);
    }
  }

  lemma {:induction false} HandlesRun(s: State, more: seq<Event>, t: nat, p: nat, h: seq<nat>)
    requires Inv(s) && Handles(s, t, p, h) && Run(s, more).Some?
    requires forall i :: 0 <= i < |more| && more[i].t == t ==> more[i].Continue?
    ensures Inv(Run(s, more).value) && Handles(Run(s, more).value, t, p, h)
    decreases |more|
  {
    hide Inv, Handles, Apply, Enabled;
    if more != [] {
      var n := |more| - 1;
      HandlesRun(s, more[..n], t, p, h);
      StepKeeps(Run(s, more[..n]).value, more[n]);
      HandlesStep(Run(s, more[..n]).value, more[n], t, p, h);
    }
  }

  /** A woken receiver that goes through its handler handles one message, the next in the order sent. */
  lemma WokenHandles(run: seq<Event>, more: seq<Event>, t: nat, p: nat)
    requires Run(Init(), run).Some? && Run(Run(Init(), run).value, more).Some?
    requires t < |Run(Init(), run).value.threads| && Run(Init(), run).value.threads[t].pc == TakeLock(p)
    requires forall i :: 0 <= i < |more| && more[i].t == t ==> more[i].Continue?
    requires var s2 := Run(Run(Init(), run).value, more).value; t < |s2.threads| ==> s2.threads[t].pc.Idle?
    ensures var s := Run(Init(), run).value; var s2 := Run(s, more).value;
      && p < |s.pipes| && p < |s2.pipes|
      && |s2.pipes[p].sent| > |s.pipes[p].handled|
      && s2.pipes[p].handled == s.pipes[p].handled + [s2.pipes[p].sent[|s.pipes[p].handled|]]
  {
    RunKeeps(run);
    var s := Run(Init(), run).value;
    HandlerIs(s, t);
    var h := s.pipes[p].handled;
    HandlesRun(s, more, t, p, h);
    RunAppend(Init(), run, more);
    FifoOnce(run + more, p);
    hide Inv, Run, Init, InFlight;
    var q := Run(s, more).value.pipes[p];
    assert q.sent[|h|] == q.handled[|h|];
    assert q.handled == q.handled[..|h|] + [q.handled[|h|]];
  }
}
