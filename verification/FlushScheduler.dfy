/**
 The coalescing flush of realtime updates (queueRtUpdate, scheduleRtDataFlush and
 processRtDataMongoUpdates in src/cs_data_processor/cs_data_processor.js) on an event loop: a
 callback runs to its end, or to the point where it awaits the bulk write, before another begins.
 */
module FlushScheduler {
  import opened RealtimeUpdates

  datatype State = State(
    queue: seq<Update>,
    scheduled: bool,
    running: bool,
    callbacks: nat,
    inFlight: seq<seq<Op>>,
    written: seq<Op>,
    connected: bool,
    enqueued: seq<Update>)

  const INIT := State([], false, false, 0, [], [], false, [])

  datatype Step = Queue(u: Update) | Callback | Completed | Timer | Connection(up: bool)

  predicate Enabled(s: State, step: Step) {
    match step
    case Callback => s.callbacks > 0
    case Completed => s.inFlight != []
    case _ => true
  }

  function Schedule(s: State): State {
    if s.scheduled || s.running then s else s.(scheduled := true, callbacks := s.callbacks + 1)
  }

  function Next(s: State, step: Step): State
    requires Enabled(s, step)
  {
    match step
    case Queue(u) => Schedule(s.(queue := s.queue + [u], enqueued := s.enqueued + [u]))
    case Callback =>
      var t := s.(callbacks := s.callbacks - 1, scheduled := false);
      if !s.connected || s.queue == [] then t
      else t.(running := true, queue := [], inFlight := s.inFlight + [Ops(s.queue)])
    case Completed =>
      var t := s.(running := false, inFlight := s.inFlight[1..], written := s.written + s.inFlight[0]);
      if s.queue != [] then Schedule(t) else t
    case Timer => Schedule(s)
    case Connection(up) => s.(connected := up)
  }

  // ---- the event loop's callbacks -------------------------------------------------------------

  class RtFlusher {
    var queue: seq<Update>
    var rtFlushScheduled: bool
    var rtFlushRunning: bool
    var connected: bool
    var callbacks: nat
    var inFlight: seq<seq<Op>>
    var written: seq<Op>
    var enqueued: seq<Update>

    function Now(): State
      reads this
    {
      State(queue, rtFlushScheduled, rtFlushRunning, callbacks, inFlight, written, connected, enqueued)
    }

    constructor ()
      ensures Now() == INIT
    {
      queue, enqueued := [], [];
      rtFlushScheduled, rtFlushRunning, connected := false, false, false;
      callbacks, inFlight, written := 0, [], [];
    }

    method QueueRtUpdate(u: Update)
      modifies this
      ensures Now() == Next(old(Now()), Queue(u))
    {
      queue := queue + [u];
      enqueued := enqueued + [u];
      ScheduleRtDataFlush();
    }

    method ScheduleRtDataFlush()
      modifies this
      ensures Now() == Schedule(old(Now()))
    {
      if rtFlushScheduled || rtFlushRunning {
        return;
      }
      rtFlushScheduled := true;
      callbacks := callbacks + 1;
    }

    /** The callback, up to the point where it awaits the write. */
    method ProcessRtDataMongoUpdates()
      requires callbacks > 0
      modifies this
      ensures Now() == Next(old(Now()), Callback)
    {
      callbacks := callbacks - 1;
      rtFlushScheduled := false;
      if !connected || queue == [] {
        return;
      }
      rtFlushRunning := true;
      var updArr := Drain();
      inFlight := inFlight + [updArr];
    }

    /** Empties the queue into the operations of one bulk write. */
    method Drain() returns (updArr: seq<Op>)
      modifies `queue
      ensures queue == [] && updArr == Ops(old(queue))
    {
      hide Ops;
      updArr := [];
      ghost var drained: seq<Update> := [];
      NoOps();
      while queue != []
        modifies `queue
        invariant drained + queue == old(queue) && updArr == Ops(drained)
        decreases |queue|
      {
        var upd := queue[0];
        assert queue == [upd] + queue[1..];
        queue := queue[1..];
        OpsAppend(drained, upd);
        drained := drained + [upd];
        var base := updArr;
        updArr := updArr + [Set(upd.id, upd.fields)];
        if upd.addToSet.Some? {
          updArr := updArr + [AddToSet(upd.id, upd.addToSet.value)];
        }
        assert updArr == base + OpsOf(upd);
      }
      assert drained == old(queue);
    }

    /** The rest of the callback, when the write is done. */
    method WriteDone()
      requires inFlight != []
      modifies this
      ensures Now() == Next(old(Now()), Completed)
    {
      written := written + inFlight[0];
      inFlight := inFlight[1..];
      rtFlushRunning := false;
      if queue != [] {
        ScheduleRtDataFlush();
      }
    }
  }

  // ---- what every step keeps --------------------------------------------------------------------

  /** One callback at most, one write at most, never both; every update drained once, in order. */
  predicate Inv(s: State) {
    && s.callbacks == (if s.scheduled then 1 else 0)
    && |s.inFlight| == (if s.running then 1 else 0)
    && !(s.scheduled && s.running)
    && Ops(s.enqueued) == s.written + (Concat(s.inFlight) + Ops(s.queue))
  }

  lemma QueueKeepsInv(s: State, u: Update)
    requires Inv(s)
    ensures Inv(Next(s, Queue(u)))
  {
    OpsAppend(s.enqueued, u);
    OpsAppend(s.queue, u);
    hide Ops, Concat, OpsOf;
    var a, b, more := Concat(s.inFlight), Ops(s.queue), OpsOf(u);
    assert (s.written + (a + b)) + more == s.written + (a + (b + more));
  }

  lemma CallbackKeepsInv(s: State)
    requires Inv(s) && s.callbacks > 0
    ensures Inv(Next(s, Callback))
  {
    hide Ops, OpsOf;
    if s.connected && s.queue != [] {
      NoOps();
      var b := Ops(s.queue);
      assert s.inFlight == [] && [b][1..] == [];
      assert Concat([b]) == b + [] == b;
      var t := Next(s, Callback);
      assert t.inFlight == [b];
      assert Concat<Op>([]) == [] && [] + b == b + [];
      assert t.written + (Concat(t.inFlight) + Ops(t.queue)) == s.written + ([] + b);
    }
  }

  lemma CompletedKeepsInv(s: State)
    requires Inv(s) && s.inFlight != []
    ensures Inv(Next(s, Completed))
  {
    hide Ops, OpsOf;
    var a, b := s.inFlight[0], Ops(s.queue);
    assert s.inFlight[1..] == [];
    assert Concat(s.inFlight) == a + [] == a;
    assert s.written + (a + b) == (s.written + a) + ([] + b);
  }

  lemma StepKeepsInv(s: State, step: Step)
    requires Inv(s) && Enabled(s, step)
    ensures Inv(Next(s, step))
  {
    match step
    case Queue(u) => QueueKeepsInv(s, u);
    case Callback => CallbackKeepsInv(s);
    case Completed => CompletedKeepsInv(s);
    case _ =>
      hide Ops, Concat;
  }

  /** Waiting updates have a flush coming. */
  predicate Awake(s: State) {
    s.queue != [] ==> s.scheduled || s.running
  }

  /** The one way to lose a wake-up: the flush runs while there is no connection. */
  lemma WakeUpIsLostExactly(s: State, step: Step)
    requires Inv(s) && Awake(s) && Enabled(s, step)
    ensures !Awake(Next(s, step)) <==> step.Callback? && !s.connected && s.queue != []
  {
  }

  /** The fallback timer repairs it. */
  lemma TimerWakes(s: State)
    ensures Next(s, Timer).scheduled || Next(s, Timer).running
  {
  }

  // ---- runs -------------------------------------------------------------------------------------

  predicate Possible(s: State, steps: seq<Step>)
    decreases |steps|
  {
    steps == [] || (Enabled(s, steps[0]) && Possible(Next(s, steps[0]), steps[1..]))
  }

  function Run(s: State, steps: seq<Step>): State
    requires Possible(s, steps)
    decreases |steps|
  {
    if steps == [] then s else Run(Next(s, steps[0]), steps[1..])
  }

  /** Every flush of the run finds a connection. */
  predicate FlushesConnected(s: State, steps: seq<Step>)
    requires Possible(s, steps)
    decreases |steps|
  {
    steps == [] || ((steps[0].Callback? ==> s.connected) && FlushesConnected(Next(s, steps[0]), steps[1..]))
  }

  lemma {:induction false} RunKeepsInv(s: State, steps: seq<Step>)
    requires Inv(s) && Possible(s, steps)
    ensures Inv(Run(s, steps))
    decreases |steps|
  {
    hide Inv, Next, Enabled;
    if steps != [] {
      StepKeepsInv(s, steps[0]);
      RunKeepsInv(Next(s, steps[0]), steps[1..]);
    }
  }

  lemma {:induction false} RunStaysAwake(s: State, steps: seq<Step>)
    requires Inv(s) && Awake(s) && Possible(s, steps) && FlushesConnected(s, steps)
    ensures Awake(Run(s, steps))
    decreases |steps|
  {
    hide Inv, Next, Enabled, Awake;
    if steps != [] {
      StepKeepsInv(s, steps[0]);
      WakeUpIsLostExactly(s, steps[0]);
      RunStaysAwake(Next(s, steps[0]), steps[1..]);
    }
  }

  /**
   In every run at most one write is in flight, and the updates queued are, in order, those
   written, those in flight and those waiting; if every flush finds a connection, waiting updates
   always have a flush scheduled or running.
   */
  lemma NoLostWakeUp(steps: seq<Step>)
    requires Possible(INIT, steps)
    ensures var s := Run(INIT, steps);
      && |s.inFlight| <= 1
      && Ops(s.enqueued) == s.written + (Concat(s.inFlight) + Ops(s.queue))
      && (FlushesConnected(INIT, steps) && s.queue != [] ==> s.scheduled || s.running)
  {
    hide Next, Enabled;
    RunKeepsInv(INIT, steps);
    if FlushesConnected(INIT, steps) {
      RunStaysAwake(INIT, steps);
    }
  }

  function Left(s: State): nat {
    if s.running then (if s.queue == [] then 1 else 3) else if s.scheduled then 2 else 0
  }

  /**
   With a connection and no further updates, the loop comes to rest within three of its own
   callbacks, and then everything that was queued has been written.
   */
  lemma {:induction false} EverythingIsWritten(s: State, steps: seq<Step>)
    requires Inv(s) && Awake(s) && s.connected && Possible(s, steps)
    requires forall i :: 0 <= i < |steps| ==> steps[i].Callback? || steps[i].Completed?
    ensures |steps| <= Left(s) <= 3
    ensures var t := Run(s, steps);
      !Enabled(t, Callback) && !Enabled(t, Completed) ==> t.queue == [] && t.written == Ops(s.enqueued)
    decreases |steps|
  {
    if steps == [] {
      if s.callbacks == 0 && s.inFlight == [] {
        assert Ops(s.queue) == [] && Concat(s.inFlight) == [];
      }
    } else {
      var t := Next(s, steps[0]);
      StepKeepsInv(s, steps[0]);
      WakeUpIsLostExactly(s, steps[0]);
      LeftDecreases(s, steps[0]);
      hide Inv, Next, Awake, Left, Ops;
      EverythingIsWritten(t, steps[1..]);
    }
  }

  lemma LeftDecreases(s: State, step: Step)
    requires Inv(s) && s.connected && Enabled(s, step) && (step.Callback? || step.Completed?)
    ensures Left(Next(s, step)) < Left(s) && Next(s, step).connected && Next(s, step).enqueued == s.enqueued
  {
  }
}
