/**
 * The repair queue and its consumers (pkg/repair/worker.go, pkg/repair/queue.go) as interleaved
 * steps: producers, N workers with a program counter each, pause, resume, cancel and close.
 */
module WorkerPool {
  import opened SealedStore

  /** Where a worker's loop stands; items are what it has dequeued and not yet finished. */
  datatype WorkerPc =
    | LoopTop                      // about to test ctx.Err()
    | PauseTest                    // about to load `paused`
    | PauseWait                    // paused: waiting for the ticker or ctx.Done
    | Receiving                    // inside Dequeue
    | Dequeued(it: RepairItem)     // before inflight.Add(1)
    | Processing(it: RepairItem)   // running the processor
    | Counted                      // before inflight.Add(-1)
    | Exited

  /** A producer inside Enqueue has already seen `closed == false`. */
  datatype ProducerPc = Outside | Sending(it: RepairItem)

  datatype Outcome = Processed | Skipped | Failed

  /** The program's state, with histories: what was accepted, taken and finished, in order. */
  datatype Pool = Pool(
    ch: seq<RepairItem>, capacity: nat, closed: bool, cancelled: bool, paused: bool,
    workers: seq<WorkerPc>, producers: seq<ProducerPc>,
    inflight: int, processed: nat, skipped: nat, failed: nat, panicked: bool,
    accepted: seq<RepairItem>, taken: seq<RepairItem>, takenBy: seq<nat>, finished: multiset<RepairItem>)

  /** What one worker does next. */
  datatype Op =
    | TestCancel | TestPause | Tick | WakeCancelled
    | Take | ReceiveCancelled | ReceiveClosed
    | Begin | Finish(o: Outcome) | End

  datatype Action =
    | Work(w: nat, op: Op)
    | Handoff(p: nat, w: nat)                    // a send that meets a waiting receiver
    | Offer(p: nat, it: RepairItem) | Send(p: nat) | GiveUp(p: nat) | SendOnClosed(p: nat)
    | Pause | Resume | Cancel | Close

  predicate Offering(s: Pool, p: nat) {
    p < |s.producers| && s.producers[p].Sending?
  }

  predicate CanWork(s: Pool, pc: WorkerPc, op: Op) {
    match op
    case TestCancel => pc.LoopTop?
    case TestPause => pc.PauseTest?
    case Tick => pc.PauseWait?
    case WakeCancelled => pc.PauseWait? && s.cancelled
    case Take => pc.Receiving? && s.ch != []
    case ReceiveCancelled => pc.Receiving? && s.cancelled
    case ReceiveClosed => pc.Receiving? && s.closed && s.ch == []
    case Begin => pc.Dequeued?
    case Finish(_) => pc.Processing?
    case End => pc.Counted?
  }

  predicate Enabled(s: Pool, a: Action) {
    && |s.workers| == |s.takenBy|
    && match a
       case Work(w, op) => w < |s.workers| && CanWork(s, s.workers[w], op)
       case Handoff(p, w) => Offering(s, p) && w < |s.workers| && s.workers[w].Receiving? && !s.closed && s.ch == []
       case Offer(p, _) => p < |s.producers| && s.producers[p].Outside?
       case Send(p) => Offering(s, p) && !s.closed && |s.ch| < s.capacity
       case GiveUp(p) => Offering(s, p)
       case SendOnClosed(p) => Offering(s, p) && s.closed
       case _ => true
  }

  /** Where an operation takes a worker. */
  function Next(s: Pool, pc: WorkerPc, op: Op): WorkerPc
    requires CanWork(s, pc, op)
  {
    match op
    case TestCancel => if s.cancelled then Exited else PauseTest
    case TestPause => if s.paused then PauseWait else Receiving
    case Tick => LoopTop
    case WakeCancelled => Exited
    case Take => Dequeued(s.ch[0])
    case ReceiveCancelled => Exited
    case ReceiveClosed => Exited
    case Begin => Processing(pc.it)
    case Finish(_) => Counted
    case End => LoopTop
  }

  /** One operation of one worker: its own move, and what it does to the queue, the counters and the histories. */
  function WorkAfter(s: Pool, w: nat, op: Op): Pool
    requires Enabled(s, Work(w, op))
  {
    var pc := s.workers[w];
    s.(workers := s.workers[w := Next(s, pc, op)],
       ch := if op.Take? then s.ch[1..] else s.ch,
       inflight := if op.Begin? then s.inflight + 1 else if op.End? then s.inflight - 1 else s.inflight,
       processed := if op == Finish(Processed) then s.processed + 1 else s.processed,
       skipped := if op == Finish(Skipped) then s.skipped + 1 else s.skipped,
       failed := if op == Finish(Failed) then s.failed + 1 else s.failed,
       taken := if op.Take? then s.taken + [s.ch[0]] else s.taken,
       takenBy := if op.Take? then s.takenBy[w := s.takenBy[w] + 1] else s.takenBy,
       finished := if op.Finish? then s.finished + multiset{pc.it} else s.finished)
  }

  function ProducerAfter(s: Pool, a: Action): Pool
    requires Enabled(s, a) && (a.Offer? || a.Send? || a.GiveUp? || a.SendOnClosed?)
  {
    match a
    case Offer(p, it) => if s.closed then s else s.(producers := s.producers[p := Sending(it)])
    case Send(p) =>
      s.(producers := s.producers[p := Outside], ch := s.ch + [s.producers[p].it], accepted := s.accepted + [s.producers[p].it])
    case GiveUp(p) => s.(producers := s.producers[p := Outside])
    case SendOnClosed(p) => s.(producers := s.producers[p := Outside], panicked := true)
  }

  function After(s: Pool, a: Action): Pool
    requires Enabled(s, a)
  {
    match a
    case Work(w, op) => WorkAfter(s, w, op)
    case Handoff(p, w) =>
      var it := s.producers[p].it;
      s.(producers := s.producers[p := Outside], workers := s.workers[w := Dequeued(it)],
         accepted := s.accepted + [it], taken := s.taken + [it], takenBy := s.takenBy[w := s.takenBy[w] + 1])
    case Pause => s.(paused := true)
    case Resume => s.(paused := false)
    case Cancel => s.(cancelled := true)
    case Close => s.(closed := true)
    case _ => ProducerAfter(s, a)
  }

  /** The actions can happen one after another from `s`. */
  predicate CanRun(s: Pool, run: seq<Action>)
    decreases |run|
  {
    run == [] ||
    (Enabled(s, run[0]) && CanRun(After(s, run[0]), run[1..]))
  }

  function Exec(s: Pool, run: seq<Action>): Pool
    requires CanRun(s, run)
    decreases |run|
  {
    if run == [] then s else Exec(After(s, run[0]), run[1..])
  }

  /** A started pool: every worker at the top of its loop, nothing accepted yet. */
  predicate Start(s: Pool) {
    && s.ch == [] && !s.closed && !s.panicked
    && |s.workers| == |s.takenBy|
    && (forall w :: 0 <= w < |s.workers| ==> s.workers[w] == LoopTop && s.takenBy[w] == 0)
    && (forall p :: 0 <= p < |s.producers| ==> s.producers[p] == Outside)
    && s.inflight == 0 && s.processed == 0 && s.skipped == 0 && s.failed == 0
    && s.accepted == [] && s.taken == [] && s.finished == multiset{}
  }

  // ---------------------------------------------------------------- sums over workers

  function Sum(weight: WorkerPc -> nat, ws: seq<WorkerPc>): nat {
    if ws == [] then 0 else weight(ws[0]) + Sum(weight, ws[1..])
  }

  lemma {:induction false} SumMove(weight: WorkerPc -> nat, ws: seq<WorkerPc>, w: nat, pc: WorkerPc)
    requires w < |ws|
    ensures Sum(weight, ws[w := pc]) + weight(ws[w]) == Sum(weight, ws) + weight(pc)
  {
    if w == 0 {
      assert ws[0 := pc][1..] == ws[1..];
    } else {
      assert ws[w := pc][1..] == ws[1..][w - 1 := pc];
      SumMove(weight, ws[1..], w - 1, pc);
    }
  }

  lemma {:induction false} SumBound(weight: WorkerPc -> nat, ws: seq<WorkerPc>, max: nat)
    requires forall pc :: weight(pc) <= max
    ensures Sum(weight, ws) <= max * |ws|
  {
    if ws != [] {
      SumBound(weight, ws[1..], max);
      assert max * |ws| == max + max * |ws[1..]|;
    }
  }

  /** Whether a worker holds a copy of `x`: dequeued and not finished. */
  function Holds(x: RepairItem): WorkerPc -> nat {
    (pc: WorkerPc) => if (pc.Dequeued? || pc.Processing?) && pc.it == x then 1 else 0
  }

  function Inflight(pc: WorkerPc): nat { if pc.Processing? || pc.Counted? then 1 else 0 }

  // ---------------------------------------------------------------- conservation and order

  /** Of every item, as many copies are held or finished as were taken. */
  ghost predicate Balanced(taken: seq<RepairItem>, ws: seq<WorkerPc>, finished: multiset<RepairItem>) {
    forall x :: multiset(taken)[x] == Sum(Holds(x), ws) + finished[x]
  }

  ghost predicate Inv(s: Pool) {
    && |s.workers| == |s.takenBy|
    && |s.ch| <= s.capacity
    && s.accepted == s.taken + s.ch
    && Balanced(s.taken, s.workers, s.finished)
    && |s.finished| == s.processed + s.skipped + s.failed
    && s.inflight == Sum(Inflight, s.workers)
    && (forall w :: 0 <= w < |s.workers| && s.workers[w].Exited? ==> s.cancelled || (s.closed && s.ch == []))
  }

  predicate ByWorker(a: Action) {
    a.Work? || a.Handoff?
  }

  function Target(s: Pool, a: Action): WorkerPc
    requires Enabled(s, a) && ByWorker(a)
  {
    if a.Work? then Next(s, s.workers[a.w], a.op) else Dequeued(s.producers[a.p].it)
  }

  predicate Takes(a: Action) {
    a.Handoff? || (a.Work? && a.op.Take?)
  }

  /** What an action does to the workers and to the record of dequeues. */
  lemma Moves(s: Pool, a: Action)
    requires Enabled(s, a)
    ensures var t := After(s, a);
            && t.workers == (if ByWorker(a) then s.workers[a.w := Target(s, a)] else s.workers)
            && t.takenBy == (if Takes(a) then s.takenBy[a.w := s.takenBy[a.w] + 1] else s.takenBy)
            && |t.taken| == |s.taken| + (if Takes(a) then 1 else 0)
            && |t.producers| == |s.producers| && t.capacity == s.capacity
            && (s.closed ==> t.closed && t.accepted == s.accepted)
            && (s.cancelled ==> t.cancelled)
            && (s.paused && a != Resume ==> t.paused)
  {
  }

  lemma CountAppend<T>(s: seq<T>, y: T, x: T)
    ensures multiset(s + [y])[x] == multiset(s)[x] + if x == y then 1 else 0
  {
  }

  lemma TakeBalance(taken: seq<RepairItem>, ws: seq<WorkerPc>, finished: multiset<RepairItem>, w: nat, it: RepairItem)
    requires Balanced(taken, ws, finished) && w < |ws| && ws[w].Receiving?
    ensures Balanced(taken + [it], ws[w := Dequeued(it)], finished)
  {
    forall x ensures multiset(taken + [it])[x] == Sum(Holds(x), ws[w := Dequeued(it)]) + finished[x] {
      SumMove(Holds(x), ws, w, Dequeued(it));
      CountAppend(taken, it, x);
      assert multiset(taken)[x] == Sum(Holds(x), ws) + finished[x];
    }
  }

  lemma FinishBalance(taken: seq<RepairItem>, ws: seq<WorkerPc>, finished: multiset<RepairItem>, w: nat)
    requires Balanced(taken, ws, finished) && w < |ws| && ws[w].Processing?
    ensures Balanced(taken, ws[w := Counted], finished + multiset{ws[w].it})
  {
    var after := finished + multiset{ws[w].it};
    forall x ensures multiset(taken)[x] == Sum(Holds(x), ws[w := Counted]) + after[x] {
      SumMove(Holds(x), ws, w, Counted);
      assert multiset(taken)[x] == Sum(Holds(x), ws) + finished[x];
    }
  }

  lemma MoveBalance(taken: seq<RepairItem>, ws: seq<WorkerPc>, finished: multiset<RepairItem>, w: nat, pc: WorkerPc)
    requires Balanced(taken, ws, finished) && w < |ws|
    requires forall x :: Holds(x)(ws[w]) == Holds(x)(pc)
    ensures Balanced(taken, ws[w := pc], finished)
  {
    forall x ensures multiset(taken)[x] == Sum(Holds(x), ws[w := pc]) + finished[x] {
      SumMove(Holds(x), ws, w, pc);
      assert multiset(taken)[x] == Sum(Holds(x), ws) + finished[x];
    }
  }

  lemma ShiftFirst<T>(taken: seq<T>, ch: seq<T>)
    requires ch != []
    ensures taken + ch == (taken + [ch[0]]) + ch[1..]
  {
  }

  lemma TakeKeepsInv(s: Pool, w: nat)
    requires Inv(s) && Enabled(s, Work(w, Take))
    ensures Inv(WorkAfter(s, w, Take))
  {
    SumMove(Inflight, s.workers, w, Dequeued(s.ch[0]));
    ShiftFirst(s.taken, s.ch);
    TakeBalance(s.taken, s.workers, s.finished, w, s.ch[0]);
  }

  lemma FinishKeepsInv(s: Pool, w: nat, o: Outcome)
    requires Inv(s) && Enabled(s, Work(w, Finish(o)))
    ensures Inv(WorkAfter(s, w, Finish(o)))
  {
    SumMove(Inflight, s.workers, w, Counted);
    FinishBalance(s.taken, s.workers, s.finished, w);
    assert o in {Processed, Skipped, Failed};
  }

  lemma MoveKeepsInv(s: Pool, w: nat, op: Op)
    requires Inv(s) && Enabled(s, Work(w, op)) && !op.Take? && !op.Finish?
    ensures Inv(WorkAfter(s, w, op))
  {
    var pc := Next(s, s.workers[w], op);
    SumMove(Inflight, s.workers, w, pc);
    MoveBalance(s.taken, s.workers, s.finished, w, pc);
  }

  lemma HandoffKeepsInv(s: Pool, p: nat, w: nat)
    requires Inv(s) && Enabled(s, Handoff(p, w))
    ensures Inv(After(s, Handoff(p, w)))
  {
    var it := s.producers[p].it;
    SumMove(Inflight, s.workers, w, Dequeued(it));
    TakeBalance(s.taken, s.workers, s.finished, w, it);
  }

  lemma StepKeepsInv(s: Pool, a: Action)
    requires Inv(s) && Enabled(s, a)
    ensures Inv(After(s, a))
  {
    match a
    case Work(w, Take) => TakeKeepsInv(s, w);
    case Work(w, Finish(o)) => FinishKeepsInv(s, w, o);
    case Work(w, op) => MoveKeepsInv(s, w, op);
    case Handoff(p, w) => HandoffKeepsInv(s, p, w);
    case Send(p) => assert s.taken + s.ch + [s.producers[p].it] == s.taken + (s.ch + [s.producers[p].it]);
    case _ =>
  }

  lemma {:induction false} RunKeepsInv(s: Pool, run: seq<Action>)
    requires Inv(s) && CanRun(s, run)
    ensures Inv(Exec(s, run))
    decreases |run|
  {
    if run != [] {
      StepKeepsInv(s, run[0]);
      RunKeepsInv(After(s, run[0]), run[1..]);
    }
  }

  /** No worker carries weight where each one separately carries none. */
  lemma {:induction false} SumZero(weight: WorkerPc -> nat, ws: seq<WorkerPc>)
    requires forall w :: 0 <= w < |ws| ==> weight(ws[w]) == 0
    ensures Sum(weight, ws) == 0
  {
    if ws != [] { SumZero(weight, ws[1..]); }
  }

  lemma StartInv(s: Pool)
    requires Start(s)
    ensures Inv(s)
  {
    SumZero(Inflight, s.workers);
    forall x ensures multiset(s.taken)[x] == Sum(Holds(x), s.workers) + s.finished[x] {
      SumZero(Holds(x), s.workers);
    }
  }

  /**
   * In every interleaving: items leave in the order they were accepted, none is lost or duplicated,
   * the counters add up, the inflight gauge is exact and the buffer keeps to its capacity.
   */
  lemma Conservation(s0: Pool, run: seq<Action>)
    requires Start(s0) && CanRun(s0, run)
    ensures var s := Exec(s0, run);
            && s.taken <= s.accepted && s.accepted == s.taken + s.ch
            && (forall x :: multiset(s.accepted)[x] == multiset(s.ch)[x] + Sum(Holds(x), s.workers) + s.finished[x])
            && |s.finished| == s.processed + s.skipped + s.failed
            && s.inflight == Sum(Inflight, s.workers)
            && |s.ch| <= s.capacity
  {
    StartInv(s0);
    RunKeepsInv(s0, run);
    var s := Exec(s0, run);
    assert multiset(s.accepted) == multiset(s.taken) + multiset(s.ch);
  }

  /** Once closed the queue accepts nothing more and loses nothing: what was accepted is taken or still buffered. */
  lemma {:induction false} ClosedAcceptsNothing(s: Pool, run: seq<Action>)
    requires Inv(s) && s.closed && CanRun(s, run)
    ensures Exec(s, run).closed && Exec(s, run).accepted == s.accepted
    decreases |run|
  {
    if run != [] {
      StepKeepsInv(s, run[0]);
      Moves(s, run[0]);
      ClosedAcceptsNothing(After(s, run[0]), run[1..]);
    }
  }

  /** Without a cancel, workers only stop when everything accepted has been taken and finished. */
  lemma GracefulDrain(s0: Pool, run: seq<Action>)
    requires Start(s0) && CanRun(s0, run)
    requires var s := Exec(s0, run);
             |s.workers| > 0 && !s.cancelled && forall w :: 0 <= w < |s.workers| ==> s.workers[w] == Exited
    ensures var s := Exec(s0, run);
            s.closed && s.taken == s.accepted && s.finished == multiset(s.accepted)
  {
    StartInv(s0);
    RunKeepsInv(s0, run);
    var s := Exec(s0, run);
    assert s.workers[0].Exited?;
    forall x ensures s.finished[x] == multiset(s.accepted)[x] {
      SumZero(Holds(x), s.workers);
      assert multiset(s.taken)[x] == Sum(Holds(x), s.workers) + s.finished[x];
    }
  }

  // ---------------------------------------------------------------- the pool works

  /** Only operations of worker `w`. */
  predicate Alone(run: seq<Action>, w: nat) {
    forall a :: a in run ==> a.Work? && a.w == w
  }

  /** A worker with nothing to hold it up: not cancelled, not paused, and looking for work. */
  predicate Waiting(s: Pool, w: nat) {
    && |s.workers| == |s.takenBy| && w < |s.workers| && !s.cancelled && !s.paused
    && (s.workers[w].LoopTop? || s.workers[w].PauseTest? || s.workers[w].PauseWait? || s.workers[w].Receiving?)
  }

  lemma RunOn(s: Pool, a: Action, run: seq<Action>)
    requires Enabled(s, a) && CanRun(After(s, a), run)
    ensures CanRun(s, [a] + run) && Exec(s, [a] + run) == Exec(After(s, a), run)
  {
    assert ([a] + run)[1..] == run;
  }

  lemma {:induction false} RunThen(s: Pool, run: seq<Action>, more: seq<Action>)
    requires CanRun(s, run) && CanRun(Exec(s, run), more)
    ensures CanRun(s, run + more) && Exec(s, run + more) == Exec(Exec(s, run), more)
    decreases |run|
  {
    if run == [] {
      assert run + more == more;
    } else {
      var a, rest := run[0], run[1..];
      RunThen(After(s, a), rest, more);
      RunOn(s, a, rest + more);
      FirstThen(run, more);
    }
  }

  lemma FirstThen(run: seq<Action>, more: seq<Action>)
    requires run != []
    ensures run + more == [run[0]] + (run[1..] + more)
  {
  }

  /** Going round its loop, a waiting worker comes to its receive and changes nothing else on the way. */
  lemma {:induction false} ReachesReceive(s: Pool, w: nat) returns (run: seq<Action>)
    requires Waiting(s, w)
    ensures Alone(run, w) && CanRun(s, run) && Exec(s, run) == s.(workers := s.workers[w := Receiving])
    decreases match s.workers[w] case PauseWait => 3 case LoopTop => 2 case PauseTest => 1 case _ => 0
  {
    if s.workers[w].Receiving? {
      run := [];
      assert s.workers[w := Receiving] == s.workers;
    } else {
      var a := Work(w, if s.workers[w].PauseWait? then Tick else if s.workers[w].LoopTop? then TestCancel else TestPause);
      var t := After(s, a);
      var rest := ReachesReceive(t, w);
      RunOn(s, a, rest);
      run := [a] + rest;
      assert t.workers[w := Receiving] == s.workers[w := Receiving];
    }
  }

  /** The pool after worker `w` has finished `it` and is back at the top of its loop. */
  function Done(s: Pool, w: nat, it: RepairItem, o: Outcome): Pool
    requires w < |s.workers|
  {
    s.(workers := s.workers[w := LoopTop], finished := s.finished + multiset{it},
       processed := s.processed + (if o.Processed? then 1 else 0),
       skipped := s.skipped + (if o.Skipped? then 1 else 0),
       failed := s.failed + (if o.Failed? then 1 else 0))
  }

  /** ... and after it has taken the oldest item before. */
  function Served(s: Pool, w: nat, o: Outcome): Pool
    requires w < |s.workers| == |s.takenBy| && s.ch != []
  {
    Done(s.(ch := s.ch[1..], taken := s.taken + [s.ch[0]], takenBy := s.takenBy[w := s.takenBy[w] + 1]), w, s.ch[0], o)
  }

  /** An item in a worker's hands gets finished, and its outcome raises its own counter and no other. */
  lemma FinishesItem(s: Pool, w: nat, o: Outcome) returns (run: seq<Action>)
    requires w < |s.workers| == |s.takenBy| && s.workers[w].Dequeued?
    ensures Alone(run, w) && CanRun(s, run) && Exec(s, run) == Done(s, w, s.workers[w].it, o)
  {
    var s1 := After(s, Work(w, Begin));
    var s2 := After(s1, Work(w, Finish(o)));
    RunOn(s2, Work(w, End), []);
    run := [Work(w, End)] + [];
    RunOn(s1, Work(w, Finish(o)), run);
    run := [Work(w, Finish(o))] + run;
    RunOn(s, Work(w, Begin), run);
    run := [Work(w, Begin)] + run;
    assert After(s2, Work(w, End)).workers == s.workers[w := LoopTop];
  }

  lemma ServesAtReceive(s: Pool, w: nat, o: Outcome) returns (run: seq<Action>)
    requires Waiting(s, w) && s.workers[w].Receiving? && s.ch != []
    ensures Alone(run, w) && CanRun(s, run) && Exec(s, run) == Served(s, w, o)
  {
    var s1 := After(s, Work(w, Take));
    var finish := FinishesItem(s1, w, o);
    RunOn(s, Work(w, Take), finish);
    run := [Work(w, Take)] + finish;
    assert s1.workers[w := LoopTop] == s.workers[w := LoopTop];
  }

  lemma AloneThen(run: seq<Action>, more: seq<Action>, w: nat)
    requires Alone(run, w) && Alone(more, w)
    ensures Alone(run + more, w)
  {
  }

  lemma ServedFrom(s: Pool, w: nat, pc: WorkerPc, o: Outcome)
    requires w < |s.workers| == |s.takenBy| && s.ch != []
    ensures Served(s.(workers := s.workers[w := pc]), w, o) == Served(s, w, o)
  {
    assert s.workers[w := pc][w := LoopTop] == s.workers[w := LoopTop];
  }

  /**
   * A running worker works: by steps of its own it takes the oldest item in the queue and finishes it with
   * any outcome, which raises the counter of that outcome and no other.
   */
  lemma WorkerServes(s: Pool, w: nat, o: Outcome) returns (run: seq<Action>)
    requires Waiting(s, w) && s.ch != []
    ensures Alone(run, w) && CanRun(s, run) && Exec(s, run) == Served(s, w, o)
  {
    var there := ReachesReceive(s, w);
    var serve := ServesAtReceive(s.(workers := s.workers[w := Receiving]), w, o);
    RunThen(s, there, serve);
    AloneThen(there, serve, w);
    ServedFrom(s, w, Receiving, o);
    run := there + serve;
  }

  /** A pause ends: after Pause and Resume a worker serves the queue as if neither had happened. */
  lemma ResumedWorkerServes(s: Pool, w: nat, o: Outcome) returns (run: seq<Action>)
    requires Waiting(s.(paused := false), w) && s.ch != []
    ensures Alone(run, w) && CanRun(s, [Pause, Resume] + run)
    ensures Exec(s, [Pause, Resume] + run) == Served(s.(paused := false), w, o)
  {
    run := WorkerServes(s.(paused := false), w, o);
    RunOn(After(s, Pause), Resume, run);
    RunOn(s, Pause, [Resume] + run);
    assert [Pause] + ([Resume] + run) == [Pause, Resume] + run;
  }

  /** The queue is empty, and what it held has been taken in order and finished. */
  predicate Drained(s: Pool, t: Pool, w: nat) {
    && Waiting(t, w) && t.ch == [] && t.closed == s.closed && t.accepted == s.accepted
    && t.taken == s.taken + s.ch && t.finished == s.finished + multiset(s.ch)
  }

  lemma ServedThenDrained(s: Pool, t: Pool, w: nat, o: Outcome)
    requires w < |s.workers| == |s.takenBy| && s.ch != [] && Drained(Served(s, w, o), t, w)
    ensures Drained(s, t, w)
  {
    ShiftFirst(s.taken, s.ch);
    assert s.ch == [s.ch[0]] + s.ch[1..];
  }

  /** One worker alone can empty the queue, in order, and finish everything in it. */
  lemma {:induction false} WorkerDrains(s: Pool, w: nat) returns (run: seq<Action>)
    requires Waiting(s, w)
    ensures Alone(run, w) && CanRun(s, run)
    ensures Drained(s, Exec(s, run), w)
    decreases |s.ch|
  {
    if s.ch == [] {
      run := [];
      assert s.taken + s.ch == s.taken;
    } else {
      var first := WorkerServes(s, w, Processed);
      var rest := WorkerDrains(Served(s, w, Processed), w);
      RunThen(s, first, rest);
      AloneThen(first, rest, w);
      run := first + rest;
      ServedThenDrained(s, Exec(s, run), w, Processed);
    }
  }

  /** On a closed queue a worker can finish what is left and then stop. */
  lemma ClosedWorkerStops(s: Pool, w: nat) returns (run: seq<Action>)
    requires Waiting(s, w) && s.closed
    ensures Alone(run, w) && CanRun(s, run)
    ensures var t := Exec(s, run);
            && w < |t.workers| && t.workers[w] == Exited && !t.cancelled && t.ch == []
            && t.taken == s.taken + s.ch && t.finished == s.finished + multiset(s.ch)
  {
    var drain := WorkerDrains(s, w);
    var t := Exec(s, drain);
    var there := ReachesReceive(t, w);
    RunThen(s, drain, there);
    RunOn(Exec(t, there), Work(w, ReceiveClosed), []);
    RunThen(s, drain + there, [Work(w, ReceiveClosed)]);
    AloneThen(drain, there, w);
    AloneThen(drain + there, [Work(w, ReceiveClosed)], w);
    run := drain + there + [Work(w, ReceiveClosed)];
  }

  /**
   * An offered item is accepted behind the others while there is room, turned away once the queue is
   * closed, and gone without a trace when its producer gives up.
   */
  lemma OfferAccepted(s: Pool, p: nat, it: RepairItem)
    requires |s.workers| == |s.takenBy| && p < |s.producers| && s.producers[p].Outside?
    ensures !s.closed && |s.ch| < s.capacity ==>
              && CanRun(s, [Offer(p, it), Send(p)])
              && Exec(s, [Offer(p, it), Send(p)]) == s.(ch := s.ch + [it], accepted := s.accepted + [it])
    ensures s.closed ==> After(s, Offer(p, it)) == s
    ensures !s.closed ==> Enabled(After(s, Offer(p, it)), GiveUp(p)) && After(After(s, Offer(p, it)), GiveUp(p)) == s
  {
    if !s.closed { assert After(After(s, Offer(p, it)), GiveUp(p)).producers == s.producers; }
    if !s.closed && |s.ch| < s.capacity {
      var s1 := After(s, Offer(p, it));
      RunOn(s1, Send(p), []);
      RunOn(s, Offer(p, it), [Send(p)]);
      assert [Offer(p, it)] + [Send(p)] == [Offer(p, it), Send(p)];
      assert After(s1, Send(p)).producers == s.producers;
    }
  }

  /** With an empty queue, whatever its capacity, an offered item can go straight to a worker in its receive. */
  lemma OfferHandedOver(s: Pool, p: nat, it: RepairItem, w: nat)
    requires |s.workers| == |s.takenBy| && p < |s.producers| && s.producers[p].Outside?
    requires !s.closed && s.ch == [] && w < |s.workers| && s.workers[w].Receiving?
    ensures CanRun(s, [Offer(p, it), Handoff(p, w)])
    ensures Exec(s, [Offer(p, it), Handoff(p, w)]) ==
            s.(workers := s.workers[w := Dequeued(it)], accepted := s.accepted + [it], taken := s.taken + [it],
               takenBy := s.takenBy[w := s.takenBy[w] + 1])
  {
    var s1 := After(s, Offer(p, it));
    RunOn(s1, Handoff(p, w), []);
    RunOn(s, Offer(p, it), [Handoff(p, w)]);
    assert [Offer(p, it)] + [Handoff(p, w)] == [Offer(p, it), Handoff(p, w)];
    assert After(s1, Handoff(p, w)).producers == s.producers;
  }

  // ---------------------------------------------------------------- pause

  function InReceive(pc: WorkerPc): nat { if pc.Receiving? then 1 else 0 }

  lemma {:induction false} PausedTakes(s: Pool, run: seq<Action>)
    requires |s.workers| == |s.takenBy| && s.paused && CanRun(s, run)
    requires Resume !in run
    ensures |Exec(s, run).taken| + Sum(InReceive, Exec(s, run).workers) <= |s.taken| + Sum(InReceive, s.workers)
    decreases |run|
  {
    if run != [] {
      var t := After(s, run[0]);
      Moves(s, run[0]);
      if ByWorker(run[0]) { SumMove(InReceive, s.workers, run[0].w, Target(s, run[0])); }
      assert run[0] in run;
      PausedTakes(t, run[1..]);
    }
  }

  /** After Pause, until a Resume, no more items are dequeued than workers were already waiting in Dequeue. */
  lemma PauseBound(s: Pool, run: seq<Action>)
    requires |s.workers| == |s.takenBy| && CanRun(After(s, Pause), run) && Resume !in run
    ensures |Exec(After(s, Pause), run).taken| <= |s.taken| + Sum(InReceive, s.workers)
    ensures Sum(InReceive, s.workers) <= |s.workers|
  {
    PausedTakes(After(s, Pause), run);
    SumBound(InReceive, s.workers, 1);
  }

  // ---------------------------------------------------------------- stop

  /** Steps a worker can still make once the context is cancelled. */
  function Rank(pc: WorkerPc): nat {
    match pc
    case Exited => 0
    case LoopTop => 1
    case PauseWait => 2
    case Counted => 2
    case Processing(_) => 3
    case Dequeued(_) => 4
    case Receiving => 5
    case PauseTest => 6
  }

  function WorkerSteps(run: seq<Action>): nat {
    if run == [] then 0 else (if ByWorker(run[0]) then 1 else 0) + WorkerSteps(run[1..])
  }

  function CanStillTake(pc: WorkerPc): nat { if pc.Receiving? || pc.PauseTest? then 1 else 0 }

  lemma CancelledStep(s: Pool, a: Action)
    requires s.cancelled && Enabled(s, a)
    ensures var t := After(s, a);
            && t.cancelled && |t.workers| == |t.takenBy| == |s.workers|
            && (if ByWorker(a) then 1 else 0) + Sum(Rank, t.workers) <= Sum(Rank, s.workers)
            && forall w :: 0 <= w < |s.workers| ==>
                 t.takenBy[w] + CanStillTake(t.workers[w]) <= s.takenBy[w] + CanStillTake(s.workers[w])
  {
    Moves(s, a);
    if ByWorker(a) { SumMove(Rank, s.workers, a.w, Target(s, a)); }
  }

  lemma {:induction false} CancelledRun(s: Pool, run: seq<Action>)
    requires |s.workers| == |s.takenBy| && s.cancelled && CanRun(s, run)
    ensures var t := Exec(s, run);
            && t.cancelled && |t.workers| == |t.takenBy| == |s.workers|
            && WorkerSteps(run) + Sum(Rank, t.workers) <= Sum(Rank, s.workers)
            && forall w :: 0 <= w < |s.workers| ==>
                 t.takenBy[w] + CanStillTake(t.workers[w]) <= s.takenBy[w] + CanStillTake(s.workers[w])
    decreases |run|
  {
    if run != [] {
      CancelledStep(s, run[0]);
      CancelledRun(After(s, run[0]), run[1..]);
    }
  }

  /**
   * After Stop cancels the context: each worker takes at most one more item, although select may
   * prefer a ready item to ctx.Done, and all workers together make at most six steps each.
   */
  lemma StopBound(s: Pool, run: seq<Action>)
    requires |s.workers| == |s.takenBy| && CanRun(After(s, Cancel), run)
    ensures var t := Exec(After(s, Cancel), run);
            && WorkerSteps(run) <= 6 * |s.workers|
            && |t.takenBy| == |s.takenBy|
            && forall w :: 0 <= w < |s.workers| ==> t.takenBy[w] <= s.takenBy[w] + 1
  {
    CancelledRun(After(s, Cancel), run);
    SumBound(Rank, s.workers, 6);
  }

  /** A cancelled worker is never stuck: until it has exited it has a step of its own to make. */
  lemma CancelledWorkerMoves(s: Pool, w: nat) returns (a: Action)
    requires w < |s.workers| == |s.takenBy| && s.cancelled && s.workers[w] != Exited
    ensures ByWorker(a) && a.w == w && Enabled(s, a)
    ensures Rank(After(s, a).workers[w]) < Rank(s.workers[w])
  {
    match s.workers[w]
    case LoopTop => a := Work(w, TestCancel);
    case PauseTest => a := Work(w, TestPause);
    case PauseWait => a := Work(w, WakeCancelled);
    case Receiving => a := Work(w, ReceiveCancelled);
    case Dequeued(_) => a := Work(w, Begin);
    case Processing(_) => a := Work(w, Finish(Processed));
    case Counted => a := Work(w, End);
  }

  // ---------------------------------------------------------------- closing against a sender

  /** No Close strikes between a producer's test of `closed` and its send. */
  ghost predicate CloseIsExclusive(s: Pool, run: seq<Action>)
    requires CanRun(s, run)
    decreases |run|
  {
    run != [] ==>
      && (run[0] == Close ==> forall p :: 0 <= p < |s.producers| ==> s.producers[p] == Outside)
      && CloseIsExclusive(After(s, run[0]), run[1..])
  }

  ghost predicate NoSenderOnClosed(s: Pool) {
    && !s.panicked
    && (s.closed ==> forall p :: 0 <= p < |s.producers| ==> s.producers[p] == Outside)
  }

  lemma {:induction false} ExclusiveCloseNeverPanics(s: Pool, run: seq<Action>)
    requires CanRun(s, run) && NoSenderOnClosed(s) && CloseIsExclusive(s, run)
    ensures !Exec(s, run).panicked
    decreases |run|
  {
    if run != [] {
      ExclusiveCloseNeverPanics(After(s, run[0]), run[1..]);
    }
  }

  /** The actions can happen and end in a panic. */
  ghost predicate EndsInPanic(s: Pool, run: seq<Action>) {
    CanRun(s, run) && Exec(s, run).panicked
  }

  /** The test and the send are separate: a Close that strikes while a producer is sending can make its send panic. */
  lemma SenderPanics(s: Pool, p: nat)
    requires |s.workers| == |s.takenBy| && Offering(s, p)
    ensures EndsInPanic(After(s, Close), [SendOnClosed(p)])
  {
    var s1 := After(s, Close);
    var s2 := After(s1, SendOnClosed(p));
    assert [SendOnClosed(p)][1..] == [];
    assert CanRun(s2, []) && Exec(s2, []) == s2;
  }

  /** On a closed queue a producer outside Enqueue is turned away at the test, so no send follows. */
  lemma {:induction false} ClosedAndOutsideNeverPanics(s: Pool, run: seq<Action>)
    requires CanRun(s, run) && s.closed && NoSenderOnClosed(s)
    ensures !Exec(s, run).panicked
    decreases |run|
  {
    if run != [] { ClosedAndOutsideNeverPanics(After(s, run[0]), run[1..]); }
  }

  /** A Close can lead to a panic exactly when some producer is between its test of `closed` and its send. */
  lemma ClosePanicsIffSending(s: Pool)
    requires |s.workers| == |s.takenBy| && !s.panicked
    ensures (exists run :: EndsInPanic(After(s, Close), run)) <==> (exists p :: Offering(s, p))
  {
    if p :| Offering(s, p) {
      SenderPanics(s, p);
    } else {
      forall p | 0 <= p < |s.producers| ensures s.producers[p] == Outside {
        assert !Offering(s, p);
      }
      forall run ensures !EndsInPanic(After(s, Close), run) {
        if CanRun(After(s, Close), run) { ClosedAndOutsideNeverPanics(After(s, Close), run); }
      }
    }
  }
}
