/**
 The linger and size batching shared by rtDataWriter and soeWriter (src/cs_data_processor-go/writers.go):
 a select loop over the input channel, the timer's channel and the end of the context.
 */
module BatchingWriter {
  import opened RealtimeUpdates

  /** A Go timer: not armed, armed, or expired with its tick waiting in the channel. */
  datatype Timer = Stopped | Running(deadline: int) | Fired(deadline: int)

  datatype Item<T> = Item(payload: T, arrival: int)

  datatype State<T> = State(
    now: int,
    batch: seq<Item<T>>,
    timer: Timer,
    timerArmed: bool,
    done: bool,
    flushed: seq<seq<Item<T>>>,
    received: seq<Item<T>>)

  datatype Config = Config(maxBatch: int, linger: int)
  {
    /** No batch is larger than this. */
    function Limit(): nat {
      if maxBatch > 1 then maxBatch else 1
    }
  }

  function Init<T>(now: int): State<T> {
    State(now, [], Stopped, false, false, [], [])
  }

  /** Time passes, a value is received, a tick is received, or the context ends. */
  datatype Step<T> = Wait(until: int) | Receive(payload: T) | Tick | Cancel

  predicate Enabled<T>(s: State<T>, step: Step<T>) {
    match step
    case Wait(until) => s.now <= until
    case Receive(_) => !s.done
    case Tick => !s.done && s.timer.Fired?
    case Cancel => !s.done
  }

  /** Stops the timer, a waiting tick included, and hands over the batch if there is one. */
  function Flush<T>(s: State<T>): State<T> {
    var t := if s.timerArmed then s.(timer := Stopped, timerArmed := false) else s;
    if s.batch == [] then t else t.(flushed := s.flushed + [s.batch], batch := [])
  }

  function Next<T>(c: Config, s: State<T>, step: Step<T>): State<T>
    requires Enabled(s, step)
  {
    match step
    case Wait(until) =>
      var expires := s.timer.Running? && until >= s.timer.deadline;
      s.(now := until, timer := if expires then Fired(s.timer.deadline) else s.timer)
    case Receive(payload) =>
      var item := Item(payload, s.now);
      var t := s.(batch := s.batch + [item], received := s.received + [item]);
      if |t.batch| >= c.maxBatch || (!s.timerArmed && c.linger <= 0) then Flush(t)
      else if !s.timerArmed then t.(timer := Running(s.now + c.linger), timerArmed := true)
      else t
    case Tick => Flush(s.(timer := Stopped, timerArmed := false))
    case Cancel => Flush(s).(done := true)
  }

  // ---- the writer goroutine -------------------------------------------------------------------

  class Writer<T(==)> {
    const cfg: Config
    var now: int
    var batch: seq<Item<T>>
    var timer: Timer
    var timerArmed: bool
    var done: bool
    var flushed: seq<seq<Item<T>>>
    var received: seq<Item<T>>

    function Current(): State<T>
      reads this
    {
      State(now, batch, timer, timerArmed, done, flushed, received)
    }

    constructor (cfg: Config, now: int)
      ensures Current() == Init(now) && this.cfg == cfg
    {
      this.cfg, this.now := cfg, now;
      batch, flushed, received := [], [], [];
      timer, timerArmed, done := Stopped, false, false;
    }

    method FlushBatch()
      modifies this
      ensures Current() == Flush(old(Current()))
    {
      if timerArmed {
        if timer.Running? {
          timer := Stopped;
        } else if timer.Fired? {
          // Too late to stop it: its tick is taken out of the channel.
          timer := Stopped;
        }
        timerArmed := false;
      }
      if batch == [] {
        return;
      }
      flushed := flushed + [batch];
      batch := [];
    }

    method OnReceive(payload: T)
      requires !done
      modifies this
      ensures Current() == Next(cfg, old(Current()), Receive(payload))
    {
      batch := batch + [Item(payload, now)];
      received := received + [Item(payload, now)];
      if |batch| >= cfg.maxBatch {
        FlushBatch();
        return;
      }
      if !timerArmed {
        if cfg.linger <= 0 {
          FlushBatch();
          return;
        }
        timer := Running(now + cfg.linger);
        timerArmed := true;
      }
    }

    method OnTick()
      requires !done && timer.Fired?
      modifies this
      ensures Current() == Next(cfg, old(Current()), Tick)
    {
      timer := Stopped;
      timerArmed := false;
      FlushBatch();
    }

    method OnCancel()
      requires !done
      modifies this
      ensures Current() == Next(cfg, old(Current()), Cancel)
    {
      FlushBatch();
      done := true;
    }
  }

  // ---- what every step keeps --------------------------------------------------------------------

  /** The timer is armed exactly when something waits, and set to the oldest item's arrival plus linger. */
  predicate TimerFollowsBatch<T>(c: Config, s: State<T>) {
    && (s.timerArmed <==> s.batch != [])
    && (s.timerArmed <==> !s.timer.Stopped?)
    && (s.batch != [] ==> s.timer.deadline == s.batch[0].arrival + c.linger)
    && (s.timer.Running? ==> s.now < s.timer.deadline)
    && (s.timer.Fired? ==> s.timer.deadline <= s.now)
    && (c.linger <= 0 ==> s.batch == [])
  }

  predicate Sized<T>(c: Config, s: State<T>) {
    && |s.batch| < c.Limit()
    && forall i :: 0 <= i < |s.flushed| ==> 1 <= |s.flushed[i]| <= c.Limit()
  }

  ghost predicate Inv<T>(c: Config, s: State<T>) {
    && TimerFollowsBatch(c, s)
    && Sized(c, s)
    && Concat(s.flushed) + s.batch == s.received
    && (s.done ==> s.batch == [])
  }

  lemma {:induction false} ConcatAppend<T>(batches: seq<seq<T>>, last: seq<T>)
    ensures Concat(batches + [last]) == Concat(batches) + last
  {
    if batches == [] {
      assert [] + [last] == [last] && [last][1..] == [];
      assert Concat([last]) == last + [] == last;
    } else {
      assert (batches + [last])[1..] == batches[1..] + [last];
      ConcatAppend(batches[1..], last);
      assert batches[0] + (Concat(batches[1..]) + last) == (batches[0] + Concat(batches[1..])) + last;
    }
  }

  lemma FlushKeepsReceived<T>(s: State<T>)
    requires Concat(s.flushed) + s.batch == s.received
    ensures Concat(Flush(s).flushed) + Flush(s).batch == s.received && Flush(s).batch == []
  {
    ConcatAppend(s.flushed, s.batch);
    assert s.received + [] == s.received;
  }

  lemma ReceiveKeepsInv<T>(c: Config, s: State<T>, payload: T)
    requires Inv(c, s) && !s.done
    ensures Inv(c, Next(c, s, Receive(payload)))
  {
    hide Concat;
    var item := Item(payload, s.now);
    var t := s.(batch := s.batch + [item], received := s.received + [item]);
    assert Concat(s.flushed) + (s.batch + [item]) == (Concat(s.flushed) + s.batch) + [item];
    FlushKeepsReceived(t);
  }

  lemma StepKeepsInv<T>(c: Config, s: State<T>, step: Step<T>)
    requires Inv(c, s) && Enabled(s, step)
    ensures Inv(c, Next(c, s, step))
  {
    hide Concat;
    match step
    case Receive(payload) => ReceiveKeepsInv(c, s, payload);
    case Tick => FlushKeepsReceived(s.(timer := Stopped, timerArmed := false));
    case Cancel => FlushKeepsReceived(s);
    case _ =>
  }

  // ---- runs -------------------------------------------------------------------------------------

  predicate Possible<T>(c: Config, s: State<T>, steps: seq<Step<T>>)
    decreases |steps|
  {
    steps == [] || (Enabled(s, steps[0]) && Possible(c, Next(c, s, steps[0]), steps[1..]))
  }

  function Run<T>(c: Config, s: State<T>, steps: seq<Step<T>>): State<T>
    requires Possible(c, s, steps)
    decreases |steps|
  {
    if steps == [] then s else Run(c, Next(c, s, steps[0]), steps[1..])
  }

  lemma {:induction false} RunKeepsInv<T>(c: Config, s: State<T>, steps: seq<Step<T>>)
    requires Inv(c, s) && Possible(c, s, steps)
    ensures Inv(c, Run(c, s, steps))
    decreases |steps|
  {
    hide Inv, Next, Enabled;
    if steps != [] {
      StepKeepsInv(c, s, steps[0]);
      RunKeepsInv(c, Next(c, s, steps[0]), steps[1..]);
    }
  }

  /**
   In every run: the flushed batches followed by the current one are what was received, in order;
   batches have between one and the maximal number of items; something waits exactly when the
   timer is armed, with the oldest item's deadline; and as long as the timer has not expired the
   oldest item is younger than the linger time.
   */
  lemma BatchesAreExact<T>(c: Config, now: int, steps: seq<Step<T>>)
    requires Possible(c, Init<T>(now), steps)
    ensures var s := Run(c, Init<T>(now), steps);
      && Concat(s.flushed) + s.batch == s.received
      && Sized(c, s) && TimerFollowsBatch(c, s)
      && (s.batch != [] && !s.timer.Fired? ==> s.now - s.batch[0].arrival < c.linger)
      && (s.done ==> Concat(s.flushed) == s.received)
  {
    hide Next, Enabled;
    var s0 := Init<T>(now);
    assert Inv(c, s0);
    RunKeepsInv(c, s0, steps);
    var s := Run(c, s0, steps);
    assert s.batch == [] ==> Concat(s.flushed) + s.batch == Concat(s.flushed);
  }

  /** A tick never comes late from a batch already flushed: whatever it flushes has waited its time. */
  lemma NoStaleTick<T>(c: Config, s: State<T>)
    requires Inv(c, s) && Enabled(s, Tick)
    ensures s.batch != [] && s.now - s.batch[0].arrival >= c.linger
    ensures Next(c, s, Tick).flushed == s.flushed + [s.batch]
  {
  }

  /**
   Nothing is written early or needlessly: a step hands over the current batch if it makes it full or
   there is no linger time, if the timer of its oldest item has run out, or if the context ends; no
   other step hands over anything.
   */
  lemma FlushedOnlyWhenDue<T>(c: Config, s: State<T>, step: Step<T>)
    requires Inv(c, s) && Enabled(s, step)
    ensures var s', all := Next(c, s, step), if step.Receive? then s.batch + [Item(step.payload, s.now)] else s.batch;
      var due := all != [] &&
        match step
        case Wait(_) => false
        case Receive(_) => |all| >= c.maxBatch || c.linger <= 0
        case Tick => s.now >= all[0].arrival + c.linger
        case Cancel => true;
      s'.flushed == s.flushed + (if due then [all] else []) && s'.batch == if due then [] else all
  {
    hide Concat;
  }

  /** The timer runs out exactly when the oldest item has waited the linger time. */
  lemma TimerRunsOutExactly<T>(c: Config, s: State<T>)
    requires Inv(c, s)
    ensures s.timer.Fired? ==> s.batch != [] && s.now >= s.batch[0].arrival + c.linger
    ensures s.batch != [] && s.now >= s.batch[0].arrival + c.linger ==> s.timer.Fired?
  {
    hide Concat;
  }

  // ---- realtime updates ---------------------------------------------------------------------------

  function Payloads(items: seq<Item<Update>>): seq<Update> {
    if items == [] then [] else [items[0].payload] + Payloads(items[1..])
  }

  function Written(batches: seq<seq<Item<Update>>>): seq<Op> {
    if batches == [] then [] else Ops(Payloads(batches[0])) + Written(batches[1..])
  }

  lemma {:induction false} PayloadsConcat(a: seq<Item<Update>>, b: seq<Item<Update>>)
    ensures Payloads(a + b) == Payloads(a) + Payloads(b)
  {
    if a == [] {
      assert a + b == b;
    } else {
      assert (a + b)[1..] == a[1..] + b;
      PayloadsConcat(a[1..], b);
    }
  }

  lemma {:induction false} WrittenIsOps(batches: seq<seq<Item<Update>>>)
    ensures Written(batches) == Ops(Payloads(Concat(batches)))
  {
    if batches != [] {
      hide Ops;
      WrittenIsOps(batches[1..]);
      PayloadsConcat(batches[0], Concat(batches[1..]));
      OpsConcat(Payloads(batches[0]), Payloads(Concat(batches[1..])));
    }
  }

  /** Cut into batches or not, the same operations are written in the same order. */
  lemma BatchingIsTransparent(c: Config, now: int, steps: seq<Step<Update>>)
    requires Possible(c, Init<Update>(now), steps)
    ensures var s := Run(c, Init<Update>(now), steps);
      Written(s.flushed) + Ops(Payloads(s.batch)) == Ops(Payloads(s.received))
  {
    hide Next, Enabled, Ops, Possible;
    BatchesAreExact(c, now, steps);
    var s := Run(c, Init<Update>(now), steps);
    WrittenIsOps(s.flushed);
    PayloadsConcat(Concat(s.flushed), s.batch);
    OpsConcat(Payloads(Concat(s.flushed)), Payloads(s.batch));
  }
}
