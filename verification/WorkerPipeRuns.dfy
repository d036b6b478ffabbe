/** What every interleaving of senders and receivers guarantees. */
module WorkerPipeRuns {
  import opened Options
  import opened WorkerPipe
  import opened WorkerPipeInvariant

  // What holds in every run.

  /** No access to freed memory, no count below zero, and no mutex destroyed while it is held. */
  lemma NoFault(run: seq<Event>)
    requires Run(Init(), run).Some?
    ensures !Run(Init(), run).value.fault
  {
    RunKeeps(run);
  }

  /** Outside the mutex the wake pipe holds one byte exactly when the queue has messages, unless the
      write of that byte failed; so a waiting message is never missed. */
  lemma WakeByte(run: seq<Event>, p: nat)
    requires Run(Init(), run).Some?
    requires var s := Run(Init(), run).value; p < |s.pipes| && s.pipes[p].refCount > 0 && s.pipes[p].lock == None
    ensures var q := Run(Init(), run).value.pipes[p]; q.wake == if q.queue != [] && q.wrote then 1 else 0
  {
    RunKeeps(run);
    assert PipeOk(Run(Init(), run).value, p);
  }

  /** At most one thread is inside the mutex of a pipe. */
  lemma MutualExclusion(run: seq<Event>, t: nat, u: nat)
    requires Run(Init(), run).Some?
    requires var s := Run(Init(), run).value;
      t < |s.threads| && u < |s.threads| && InLock(s.threads[t].pc) && InLock(s.threads[u].pc)
        && s.threads[t].pc.p == s.threads[u].pc.p
    ensures t == u
  {
    RunKeeps(run);
    var s := Run(Init(), run).value;
    assert ThreadOk(s, t) && ThreadOk(s, u);
  }

  /** js_waker_clear always finds a byte, and a receiver that was woken always finds a message. */
  lemma ClearNeverBlocks(run: seq<Event>, t: nat)
    requires Run(Init(), run).Some? && t < |Run(Init(), run).value.threads|
    ensures var s := Run(Init(), run).value; !BlockedInClear(s, t)
    ensures var s := Run(Init(), run).value; var pc := s.threads[t].pc;
      pc.TakeFirst? && pc.p < |s.pipes| ==> s.pipes[pc.p].queue != []
  {
    hide Counted, InFlight, HasDrainer, Init, Run, IndexOk;
    RunKeeps(run);
    var s := Run(Init(), run).value;
    assert ThreadOk(s, t);
    var pc := s.threads[t].pc;
    if pc.TakeClear? || pc.TakeFirst? {
      HeldLive(s, t, pc.p);
      assert PipeOk(s, pc.p);
    }
  }

  /** Messages are handled once each and in the order sent: what was sent is what was handled, then
      the one being handled, those freed with the pipe, and those still queued. */
  lemma FifoOnce(run: seq<Event>, p: nat)
    requires Run(Init(), run).Some? && p < |Run(Init(), run).value.pipes|
    ensures var s := Run(Init(), run).value; var q := s.pipes[p];
      && q.sent == q.handled + InFlight(s, p) + q.dropped + Ids(q.queue)
      && Distinct(q.sent) && |InFlight(s, p)| <= 1
      && (q.refCount > 0 ==> q.dropped == []) && (q.refCount == 0 ==> InFlight(s, p) == [])
  {
    hide Counted, HasDrainer, Init, Run, IndexOk, Ids, InFlight, WakeBytes, Distinct;
    RunKeeps(run);
    RunIds(run);
    var s := Run(Init(), run).value;
    assert PipeOk(s, p) && SentIds(s, p);
    if s.pipes[p].refCount == 0 { NoFlight(s, p); }
    ShortFlight(s, p);
  }

  lemma ShortFlight(s: State, p: nat)
    requires p < |s.pipes|
    ensures |InFlight(s, p)| <= 1
  {
  }

  /** The count of a shared buffer is the number of references held by threads, queued messages and
      messages under way; the buffer is freed exactly when there is none left. */
  lemma SabCountExact(run: seq<Event>, k: nat)
    requires Run(Init(), run).Some? && k < |Run(Init(), run).value.sabs|
    ensures var s := Run(Init(), run).value;
      s.sabs[k].refCount == SabUse(s, k) && (s.sabs[k].freed <==> SabUse(s, k) == 0)
  {
    hide SabUse, Init, Run, Local;
    RunKeeps(run);
    CountedAt(Run(Init(), run).value, k);
  }

  /** The count of a pipe is the number of references held by threads; the pipe is freed exactly when
      there is none left and the thread that dropped the last one is done, and then its queue is empty. */
  lemma PipeCountExact(run: seq<Event>, p: nat)
    requires Run(Init(), run).Some? && p < |Run(Init(), run).value.pipes|
    ensures var s := Run(Init(), run).value;
      && s.pipes[p].refCount == PipeUse(s, p) && (s.pipes[p].freed <==> PipeUse(s, p) == 0 && !HasDrainer(s, p))
      && (s.pipes[p].freed ==> s.pipes[p].queue == [])
  {
    hide SabUse, PipeUse, Init, Run, InFlight, WakeBytes, IndexOk;
    RunKeeps(run);
    var s := Run(Init(), run).value;
    CountedAt(s, p);
    assert PipeOk(s, p);
    if HasDrainer(s, p) {
      var u :| 0 <= u < |s.threads| && Drains(s.threads[u].pc, p);
      assert ThreadOk(s, u);
    }
  }

  /** A thread inside an operation can go on, or waits for a mutex whose holder can go on. */
  lemma NoDeadlock(run: seq<Event>, t: nat)
    requires Run(Init(), run).Some?
    requires t < |Run(Init(), run).value.threads| && !Run(Init(), run).value.threads[t].pc.Idle?
    ensures var s := Run(Init(), run).value;
      || Enabled(s, Continue(t, true))
      || exists u :: 0 <= u < |s.threads| && HoldsLock(s, u, s.threads[t].pc.p) && Enabled(s, Continue(u, true))
  {
    hide Init, Run, Inv;
    var s := Run(Init(), run).value;
    if Waits(s, t) {
      var p := s.threads[t].pc.p;
      ClearNeverBlocks(run, t);
      var u := Holder(run, p);
      ClearNeverBlocks(run, u);
      assert Enabled(s, Continue(u, true));
    }
  }

  /** Thread u is inside the mutex of p. */
  predicate HoldsLock(s: State, u: nat, p: nat)
    requires u < |s.threads|
  {
    InLock(s.threads[u].pc) && s.threads[u].pc.p == p && p < |s.pipes| && s.pipes[p].lock == Some(u)
  }

  lemma Holder(run: seq<Event>, p: nat) returns (u: nat)
    requires Run(Init(), run).Some?
    requires var s := Run(Init(), run).value; p < |s.pipes| && s.pipes[p].lock != None
    ensures var s := Run(Init(), run).value; u < |s.threads| && HoldsLock(s, u, p)
  {
    hide Init, Run, Counted, WakeBytes, InFlight, HasDrainer;
    RunKeeps(run);
    var s := Run(Init(), run).value;
    assert PipeOk(s, p);
    u := s.pipes[p].lock.value;
  }

  // A failed write.

  lemma RunNext(s: State, run: seq<Event>, e: Event)
    requires Run(s, run).Some? && Enabled(Run(s, run).value, e)
    ensures Run(s, run + [e]) == Some(Apply(Run(s, run).value, e))
  {
    assert (run + [e])[..|run|] == run;
  }

  predicate Unseen(s: State, p: nat) {
    && p < |s.pipes| && s.pipes[p].queue != [] && s.pipes[p].lock == None && s.pipes[p].wake == 0
    && forall t :: 0 <= t < |s.threads| ==> s.threads[t].pc.Idle? && !Enabled(s, Poll(t, p))
  }

  /** A message whose wake byte could not be written stays unseen: the queue is not empty, every
      thread is idle, and no poll finds a byte. */
  lemma LostWakeup() returns (run: seq<Event>)
    ensures Run(Init(), run).Some?
    ensures Unseen(Run(Init(), run).value, 0)
  {
    hide Run;
    run := [];
    EmptyRun(Init());
    run := Next(run, NewPipe(0, 0));
    run := Next(run, Post(0, 0, []));
    run := Next(run, Continue(0, true));
    run := Next(run, Continue(0, true));
    run := Next(run, Continue(0, false));
    run := Next(run, Continue(0, true));
    run := Next(run, Continue(0, true));
  }

  lemma EmptyRun(s: State)
    ensures Run(s, []) == Some(s)
  {
  }

  lemma Next(run: seq<Event>, e: Event) returns (longer: seq<Event>)
    requires Run(Init(), run).Some? && Enabled(Run(Init(), run).value, e)
    ensures longer == run + [e] && Run(Init(), longer) == Some(Apply(Run(Init(), run).value, e))
  {
    RunNext(Init(), run, e);
    longer := run + [e];
  }

  predicate Taking(pc: Pc) { pc.TakeLock? || pc.TakeFirst? || pc.TakeClear? || pc.TakeUnlock? || pc.EmptyUnlock? }

  /** No byte will wake the receiver of p: a later message finds the queue not empty and writes none. */
  ghost predicate Lost(s: State, p: nat) {
    && p < |s.pipes| && s.pipes[p].wake == 0 && (s.pipes[p].queue != [] || s.pipes[p].refCount == 0)
    && forall t :: 0 <= t < |s.threads| && Taking(s.threads[t].pc) ==> s.threads[t].pc.p != p
  }

  function Done(s: State, p: nat): seq<nat>
    requires p < |s.pipes|
  {
    s.pipes[p].handled + InFlight(s, p)
  }

  /** What a step of thread t leaves of pipe p. */
  ghost predicate Still(s: State, s2: State, t: nat, p: nat) {
    && t < |s.threads| <= |s2.threads| && p < |s.pipes| && p < |s2.pipes|
    && (forall u :: 0 <= u < |s2.threads| && u != t ==> if u < |s.threads| then s2.threads[u].pc
      == s.threads[u].pc else s2.threads[u].pc.Idle?)
    && var q, q2, pc, pc2 := s.pipes[p], s2.pipes[p], s.threads[t].pc, s2.threads[t].pc;
    && q2.receiver == q.receiver && q2.wake == q.wake && (q2.queue != [] || q2.refCount == 0)
      && (Taking(pc2) ==> pc2.p != p)
    && q2.handled + Holding(pc2, p) == q.handled + Holding(pc, p) && (t != q.receiver ==> q2.handled == q.handled)
  }

  lemma StillLost(s: State, s2: State, t: nat, p: nat)
    requires Lost(s, p) && Still(s, s2, t, p)
    ensures Lost(s2, p) && Done(s2, p) == Done(s, p)
  {
    hide Holding;
    var r := s.pipes[p].receiver;
    if |s.threads| <= r < |s2.threads| { IdleHolds(s2.threads[r].pc, p); }
  }

  lemma IdleHolds(pc: Pc, p: nat)
    requires pc.Idle?
    ensures Holding(pc, p) == []
  {
  }

  lemma PipeStep(s: State, p: nat, e: Event)
    requires Inv(s) && Lost(s, p) && Enabled(s, e) && (e.NewPipe? || e.CopyPipe? || e.DropPipe?)
    ensures Still(s, Apply(s, e), e.t, p)
  {
    if !e.NewPipe? { HeldLive(s, e.t, e.p); }
    hide Inv, Waits, Advance;
  }

  lemma OtherStep(s: State, p: nat, e: Event)
    requires Lost(s, p) && Enabled(s, e) && (e.NewSab? || e.CopySab? || e.DropSab? || e.Spawn? || e.Post? || e.Poll?)
    ensures Still(s, Apply(s, e), e.t, p)
  {
    hide Waits, Advance;
  }

  lemma PostingElsewhere(s: State, p: nat, t: nat, o: nat, ok: bool)
    requires Ready(s, t, o) && Lost(s, p) && o != p && Posting(s.threads[t].pc)
    ensures Still(s, Advance(s, t, s.pipes[o], ok), t, p)
  {
    hide Inv, ThreadOk, PipeOk, Waits;
  }

  lemma LockElsewhere(s: State, p: nat, t: nat, o: nat, ok: bool)
    requires Ready(s, t, o) && Lost(s, p) && o != p && !Posting(s.threads[t].pc) && InLock(s.threads[t].pc)
    ensures Still(s, Advance(s, t, s.pipes[o], ok), t, p)
  {
    hide Inv, ThreadOk, PipeOk, Waits;
  }

  lemma RestElsewhere(s: State, p: nat, t: nat, o: nat, ok: bool)
    requires Ready(s, t, o) && Lost(s, p) && o != p && !Posting(s.threads[t].pc) && !InLock(s.threads[t].pc)
    ensures Still(s, Advance(s, t, s.pipes[o], ok), t, p)
  {
    if s.threads[t].pc.Draining? || s.threads[t].pc.DrainMessage? { DrainElsewhere(s, p, t, o, ok); }
    hide Inv, ThreadOk, PipeOk, Waits, Drains;
  }

  lemma DrainElsewhere(s: State, p: nat, t: nat, o: nat, ok: bool)
    requires Ready(s, t, o) && Lost(s, p) && o != p && (s.threads[t].pc.Draining? || s.threads[t].pc.DrainMessage?)
    ensures Still(s, Advance(s, t, s.pipes[o], ok), t, p)
  {
    hide Inv, ThreadOk, PipeOk, Waits;
  }

  lemma PostingStep(s: State, p: nat, t: nat, ok: bool)
    requires Ready(s, t, p) && Lost(s, p) && (Posting(s.threads[t].pc) || s.threads[t].pc.PostUnlock?)
    ensures Still(s, Advance(s, t, s.pipes[p], ok), t, p)
  {
    StillReferenced(s, t, p);
    hide Inv, ThreadOk, PipeOk, Waits, Ready;
    ReadyBusy(s, t, p);
  }

  lemma StillReferenced(s: State, t: nat, p: nat)
    requires Ready(s, t, p)
    ensures !s.pipes[p].freed && (s.pipes[p].refCount > 0 || Drains(s.threads[t].pc, p))
  {
  }

  lemma ReadingStep(s: State, p: nat, t: nat, ok: bool)
    requires Ready(s, t, p) && Lost(s, p) && (s.threads[t].pc.Reading? || s.threads[t].pc.Freeing?)
    ensures Still(s, Advance(s, t, s.pipes[p], ok), t, p)
  {
    hide Inv, PipeOk, Waits;
  }

  lemma DrainStep(s: State, p: nat, t: nat, ok: bool)
    requires Ready(s, t, p) && Lost(s, p) && Drains(s.threads[t].pc, p)
    ensures Still(s, Advance(s, t, s.pipes[p], ok), t, p)
  {
    hide Inv, PipeOk, Waits;
  }

  lemma ContinueStep(s: State, p: nat, t: nat, o: nat, ok: bool)
    requires Ready(s, t, o) && Lost(s, p)
    ensures t < |s.threads| && o < |s.pipes| && !s.threads[t].pc.Idle? && s.threads[t].pc.p == o
    ensures Still(s, Advance(s, t, s.pipes[o], ok), t, p)
  {
    ReadyBusy(s, t, o);
    var pc := s.threads[t].pc;
    assert Taking(pc) ==> pc.p != p;
    hide Inv, Waits, Advance, Lost, Ready, Still;
    if o == p {
      if Posting(pc) || pc.PostUnlock? { PostingStep(s, p, t, ok); }
      else if Drains(pc, p) { DrainStep(s, p, t, ok); }
      else { ReadingStep(s, p, t, ok); }
    } else if Posting(pc) {
      PostingElsewhere(s, p, t, o, ok);
    } else if InLock(pc) {
      LockElsewhere(s, p, t, o, ok);
    } else {
      RestElsewhere(s, p, t, o, ok);
    }
  }

  lemma LostStep(s: State, p: nat, e: Event)
    requires Inv(s) && Lost(s, p) && Enabled(s, e)
    ensures Lost(Apply(s, e), p) && Done(Apply(s, e), p) == Done(s, p)
  {
    if e.Continue? {
      var o := s.threads[e.t].pc.p;
      hide Inv, Advance, Lost, Ready, Done, Still, Waits;
      MakeReady(s, e.t);
      ContinueStep(s, p, e.t, o, e.ok);
      StillLost(s, Advance(s, e.t, s.pipes[o], e.ok), e.t, p);
    } else {
      hide *;
      if e.NewPipe? || e.CopyPipe? || e.DropPipe? { PipeStep(s, p, e); }
      else { OtherStep(s, p, e); }
      StillLost(s, Apply(s, e), e.t, p);
    }
  }

  lemma {:induction false} LostRun(s: State, p: nat, more: seq<Event>)
    requires Inv(s) && Lost(s, p) && Run(s, more).Some?
    ensures Inv(Run(s, more).value) && Lost(Run(s, more).value, p) && Done(Run(s, more).value, p) == Done(s, p)
    decreases |more|
  {
    hide Inv, Lost, Apply, Enabled, Done;
    if more != [] {
      var n := |more| - 1;
      LostRun(s, p, more[..n]);
      StepKeeps(Run(s, more[..n]).value, more[n]);
      LostStep(Run(s, more[..n]).value, p, more[n]);
    }
  }

  /** After a failed write no message of the pipe is ever taken again: in every continuation, what is handled
      or in progress stays what it was, and no byte wakes the receiver. */
  lemma NeverTaken(run: seq<Event>, more: seq<Event>, p: nat)
    requires Run(Init(), run).Some? && Run(Run(Init(), run).value, more).Some?
    requires var s := Run(Init(), run).value;
      p < |s.pipes| && s.pipes[p].refCount > 0 && s.pipes[p].lock == None && s.pipes[p].queue != [] && !s.pipes[p].wrote
    ensures var s := Run(Init(), run).value; var s2 := Run(s, more).value;
      p < |s2.pipes| && s2.pipes[p].handled + InFlight(s2, p) == s.pipes[p].handled + InFlight(s, p)
        && s2.pipes[p].wake == 0
  {
    RunKeeps(run);
    var s := Run(Init(), run).value;
    StartsLost(s, p);
    LostRun(s, p, more);
    hide Inv, Run, Init, InFlight;
  }

  lemma StartsLost(s: State, p: nat)
    requires Inv(s) && p < |s.pipes| && s.pipes[p].refCount > 0 && s.pipes[p].lock == None && s.pipes[p].queue != []
      && !s.pipes[p].wrote
    ensures Lost(s, p)
  {
    hide Counted, InFlight, HasDrainer;
    assert PipeOk(s, p);
    forall t: nat | t < |s.threads| && Taking(s.threads[t].pc) ensures s.threads[t].pc.p != p { assert ThreadOk(s, t); }
  }
}
