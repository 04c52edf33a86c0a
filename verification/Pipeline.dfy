/**
 The way of change events from the reader through the dispatcher to the workers (Submit and
 StartWorkers in src/cs_data_processor-go/process.go), as interleaved steps on bounded channels.
 */
module ChangePipeline {
  import opened Options

  /**
   Events are numbered in the order of submission; key gives the _id of an event's point. The queue
   holds at least one event: an unbuffered channel hands over instead of queueing.
   */
  datatype Config = Config(capacity: nat, workers: nat, key: nat -> int, hash: int -> nat)
  {
    predicate Valid() {
      capacity >= 1 && workers >= 1
    }

    function Shard(e: nat): (w: nat)
      requires Valid()
      ensures w < workers
    {
      if workers > 1 then hash(key(e)) % workers else 0
    }

    function InboxCapacity(): nat
      requires Valid()
    {
      capacity / workers + 1
    }
  }

  /** Where the reader is inside Submit. */
  datatype Reader = Idle | Trying(event: nat) | Dropping(event: nat) | Retrying(event: nat)

  datatype Worker = Worker(inbox: seq<nat>, busy: Option<nat>, handled: seq<nat>)

  datatype State = State(
    submitted: nat,
    reader: Reader,
    channel: seq<nat>,
    dispatcher: Option<nat>,
    workers: seq<Worker>,
    dropped: nat,
    lost: seq<nat>)

  function Init(c: Config): State {
    State(0, Idle, [], None, seq(c.workers, _ => Worker([], None, [])), 0, [])
  }

  datatype Step = Submit | TrySend | DropOldest | Retry | Receive | Route | Take(w: nat) | Finish(w: nat)

  predicate Enabled(c: Config, s: State, step: Step)
    requires c.Valid()
  {
    |s.workers| == c.workers &&
    match step
    case Submit => s.reader.Idle?
    case TrySend => s.reader.Trying?
    case DropOldest => s.reader.Dropping?
    case Retry => s.reader.Retrying?
    case Receive => s.dispatcher.None? && s.channel != []
    case Route => s.dispatcher.Some? && |s.workers[c.Shard(s.dispatcher.value)].inbox| < c.InboxCapacity()
    case Take(w) => w < c.workers && s.workers[w].busy.None? && s.workers[w].inbox != []
    case Finish(w) => w < c.workers && s.workers[w].busy.Some?
  }

  function Next(c: Config, s: State, step: Step): State
    requires c.Valid() && Enabled(c, s, step)
  {
    match step
    case Submit => s.(submitted := s.submitted + 1, reader := Trying(s.submitted))
    case TrySend =>
      if |s.channel| < c.capacity then s.(channel := s.channel + [s.reader.event], reader := Idle)
      else s.(reader := Dropping(s.reader.event))
    case DropOldest =>
      if s.channel != [] then
        s.(channel := s.channel[1..], dropped := s.dropped + 1, lost := s.lost + [s.channel[0]],
           reader := Retrying(s.reader.event))
      else s.(reader := Retrying(s.reader.event))
    case Retry =>
      if |s.channel| < c.capacity then s.(channel := s.channel + [s.reader.event], reader := Idle)
      else s.(dropped := s.dropped + 1, lost := s.lost + [s.reader.event], reader := Idle)
    case Receive => s.(dispatcher := Some(s.channel[0]), channel := s.channel[1..])
    case Route =>
      var e := s.dispatcher.value;
      var w := c.Shard(e);
      s.(dispatcher := None, workers := s.workers[w := s.workers[w].(inbox := s.workers[w].inbox + [e])])
    case Take(w) =>
      var k := s.workers[w];
      s.(workers := s.workers[w := k.(inbox := k.inbox[1..], busy := Some(k.inbox[0]))])
    case Finish(w) =>
      var k := s.workers[w];
      s.(workers := s.workers[w := k.(busy := None, handled := k.handled + [k.busy.value])])
  }

  // ---- the events of one worker, in order ---------------------------------------------------

  function Opt(o: Option<nat>): seq<nat> {
    if o.Some? then [o.value] else []
  }

  function Pending(r: Reader): seq<nat> {
    if r.Idle? then [] else [r.event]
  }

  /** The events that belong to worker w. */
  function Of(c: Config, es: seq<nat>, w: nat): seq<nat>
    requires c.Valid()
  {
    if es == [] then [] else (if c.Shard(es[0]) == w then [es[0]] else []) + Of(c, es[1..], w)
  }

  /** Events not yet in an inbox, oldest first. */
  function Upstream(s: State): seq<nat> {
    Opt(s.dispatcher) + (s.channel + Pending(s.reader))
  }

  /** Everything worker w has handled, is handling and will get, oldest first. */
  function Flow(c: Config, s: State, w: nat): seq<nat>
    requires c.Valid() && |s.workers| == c.workers && w < c.workers
  {
    var k := s.workers[w];
    k.handled + (Opt(k.busy) + (k.inbox + Of(c, Upstream(s), w)))
  }

  lemma {:induction false} OfConcat(c: Config, a: seq<nat>, b: seq<nat>, w: nat)
    requires c.Valid()
    ensures Of(c, a + b, w) == Of(c, a, w) + Of(c, b, w)
  {
    if a == [] {
      assert a + b == b;
    } else {
      assert (a + b)[1..] == a[1..] + b;
      OfConcat(c, a[1..], b, w);
    }
  }

  lemma OfOne(c: Config, e: nat, w: nat)
    requires c.Valid()
    ensures Of(c, [e], w) == if c.Shard(e) == w then [e] else []
  {
    assert [e][1..] == [];
  }

  predicate Increasing(es: seq<nat>) {
    forall i, j :: 0 <= i < j < |es| ==> es[i] < es[j]
  }

  predicate Below(es: seq<nat>, n: nat) {
    forall i :: 0 <= i < |es| ==> es[i] < n
  }

  // ---- the invariant ------------------------------------------------------------------------

  function Numbers(n: nat): seq<nat> {
    seq(n, i requires 0 <= i < n => i)
  }

  predicate Shaped(c: Config, s: State) {
    && c.Valid() && |s.workers| == c.workers && |s.channel| <= c.capacity
    && (s.reader.Retrying? ==> |s.channel| < c.capacity)
    && s.dropped == |s.lost|
  }

  /** Every event of a worker is in its flow or lost, and no event is in two places. */
  ghost predicate Accounted(c: Config, s: State, w: nat)
    requires Shaped(c, s) && w < c.workers
  {
    multiset(Flow(c, s, w)) + multiset(Of(c, s.lost, w)) == multiset(Of(c, Numbers(s.submitted), w))
  }

  ghost predicate Ordered(es: seq<nat>, n: nat) {
    Increasing(es) && Below(es, n)
  }

  ghost predicate Good(c: Config, s: State, w: nat)
    requires Shaped(c, s) && w < c.workers
  {
    Ordered(Flow(c, s, w), s.submitted) && Accounted(c, s, w)
  }

  ghost predicate Inv(c: Config, s: State) {
    Shaped(c, s) && Ordered(Upstream(s), s.submitted) && forall w :: 0 <= w < c.workers ==> Good(c, s, w)
  }

  lemma InitInv(c: Config)
    requires c.Valid()
    ensures Inv(c, Init(c))
  {
    var s := Init(c);
    assert Upstream(s) == [];
    forall w | 0 <= w < c.workers ensures Good(c, s, w) {
      assert s.workers[w] == Worker([], None, []);
      assert Of(c, Numbers(0), w) == [];
      assert Flow(c, s, w) == [];
    }
  }

  /** Steps that neither submit nor lose an event leave every flow as it is. */
  predicate Moves(c: Config, s: State, step: Step)
    requires Shaped(c, s)
  {
    match step
    case Submit => false
    case DropOldest => s.channel == []
    case _ => true
  }

  lemma UpstreamMoves(c: Config, s: State, step: Step)
    requires Shaped(c, s) && Enabled(c, s, step) && Moves(c, s, step) && !step.Route?
    ensures Upstream(Next(c, s, step)) == Upstream(s)
  {
    match step
    case Receive =>
      assert s.channel == [s.channel[0]] + s.channel[1..];
    case TrySend =>
      assert (s.channel + [s.reader.event]) + [] == s.channel + [s.reader.event];
    case Retry =>
      assert (s.channel + [s.reader.event]) + [] == s.channel + [s.reader.event];
    case _ =>
  }

  lemma RouteTakesFirst(c: Config, s: State)
    requires Shaped(c, s) && Enabled(c, s, Route)
    ensures Upstream(s) == [s.dispatcher.value] + Upstream(Next(c, s, Route))
  {
  }

  lemma RouteKeepsFlow(c: Config, s: State, w: nat)
    requires Shaped(c, s) && Enabled(c, s, Route) && w < c.workers
    ensures Flow(c, Next(c, s, Route), w) == Flow(c, s, w)
  {
    var e, t, k := s.dispatcher.value, Next(c, s, Route), s.workers[w];
    RouteTakesFirst(c, s);
    hide Of, Upstream;
    var rest := Of(c, Upstream(t), w);
    OfConcat(c, [e], Upstream(t), w);
    OfOne(c, e, w);
    if w == c.Shard(e) {
      assert t.workers[w] == k.(inbox := k.inbox + [e]);
      Assoc(k.inbox, [e], rest);
    } else {
      assert t.workers[w] == k;
      assert [] + rest == rest;
    }
  }

  lemma TakeKeepsFlow(c: Config, s: State, w: nat)
    requires Shaped(c, s) && Enabled(c, s, Take(w))
    ensures Flow(c, Next(c, s, Take(w)), w) == Flow(c, s, w)
  {
    assert Upstream(Next(c, s, Take(w))) == Upstream(s);
    hide Of, Upstream;
    var k := s.workers[w];
    var after := Of(c, Upstream(s), w);
    assert k.inbox == [k.inbox[0]] + k.inbox[1..];
    Assoc([k.inbox[0]], k.inbox[1..], after);
    assert [] + (k.inbox + after) == k.inbox + after;
  }

  lemma FinishKeepsFlow(c: Config, s: State, w: nat)
    requires Shaped(c, s) && Enabled(c, s, Finish(w))
    ensures Flow(c, Next(c, s, Finish(w)), w) == Flow(c, s, w)
  {
    assert Upstream(Next(c, s, Finish(w))) == Upstream(s);
    hide Of, Upstream;
    var k := s.workers[w];
    var after := k.inbox + Of(c, Upstream(s), w);
    Assoc(k.handled, [k.busy.value], after);
    assert [] + after == after;
  }

  lemma Assoc(a: seq<nat>, b: seq<nat>, d: seq<nat>)
    ensures (a + b) + d == a + (b + d)
  {
  }

  /** A worker whose own state stays and whose part of the upstream events stays keeps its flow. */
  lemma OtherFlows(c: Config, s: State, t: State, w: nat)
    requires |s.workers| == |t.workers| == c.workers && c.Valid() && w < c.workers
    requires t.workers[w] == s.workers[w] && Upstream(t) == Upstream(s)
    ensures Flow(c, t, w) == Flow(c, s, w)
  {
  }

  lemma FlowMoves(c: Config, s: State, step: Step, w: nat)
    requires Shaped(c, s) && Enabled(c, s, step) && Moves(c, s, step) && w < c.workers
    ensures Flow(c, Next(c, s, step), w) == Flow(c, s, w)
  {
    hide Of, Flow, Upstream;
    if step.Route? {
      RouteKeepsFlow(c, s, w);
    } else if step == Take(w) {
      TakeKeepsFlow(c, s, w);
    } else if step == Finish(w) {
      FinishKeepsFlow(c, s, w);
    } else {
      UpstreamMoves(c, s, step);
      OtherFlows(c, s, Next(c, s, step), w);
    }
  }

  lemma ShapedKept(c: Config, s: State, step: Step)
    requires Shaped(c, s) && Enabled(c, s, step)
    ensures Shaped(c, Next(c, s, step))
  {
  }

  lemma MovesKeepGood(c: Config, s: State, step: Step, w: nat)
    requires Shaped(c, s) && Enabled(c, s, step) && Moves(c, s, step) && w < c.workers && Good(c, s, w)
    ensures Shaped(c, Next(c, s, step)) && Good(c, Next(c, s, step), w)
  {
    hide Of, Flow;
    ShapedKept(c, s, step);
    FlowMoves(c, s, step, w);
    assert Next(c, s, step).submitted == s.submitted && Next(c, s, step).lost == s.lost;
  }

  lemma TailOrdered(es: seq<nat>, n: nat)
    requires Ordered(es, n) && es != []
    ensures Ordered(es[1..], n)
  {
    var rest := es[1..];
    forall i | 0 <= i < |rest| ensures rest[i] == es[i + 1] {
    }
  }

  lemma UpstreamShrinks(c: Config, s: State)
    requires Shaped(c, s) && Enabled(c, s, Route) && Ordered(Upstream(s), s.submitted)
    ensures Ordered(Upstream(Next(c, s, Route)), s.submitted)
  {
    assert Upstream(s)[1..] == Upstream(Next(c, s, Route));
    hide Ordered, Upstream;
    TailOrdered(Upstream(s), s.submitted);
  }

  lemma MovesKeepInv(c: Config, s: State, step: Step)
    requires Inv(c, s) && Enabled(c, s, step) && Moves(c, s, step)
    ensures Inv(c, Next(c, s, step))
  {
    ShapedKept(c, s, step);
    if step.Route? {
      UpstreamShrinks(c, s);
    } else {
      UpstreamMoves(c, s, step);
    }
    hide Of, Flow, Good, Upstream, Ordered;
    forall w | 0 <= w < c.workers ensures Good(c, Next(c, s, step), w) {
      MovesKeepGood(c, s, step, w);
    }
    assert Next(c, s, step).submitted == s.submitted;
  }

  lemma AppendOrdered(es: seq<nat>, e: nat)
    requires Ordered(es, e)
    ensures Ordered(es + [e], e + 1) && Ordered(es + [], e + 1)
  {
  }

  lemma FlowParts(a: seq<nat>, b: seq<nat>, d: seq<nat>, front: seq<nat>, back: seq<nat>)
    ensures a + (b + (d + (front + back))) == (a + (b + (d + front))) + back
  {
  }

  lemma SubmitFlow(c: Config, s: State, w: nat)
    requires Shaped(c, s) && Enabled(c, s, Submit) && w < c.workers
    ensures Flow(c, Next(c, s, Submit), w) == Flow(c, s, w) + Of(c, [s.submitted], w)
  {
    hide Of;
    var t, e, k := Next(c, s, Submit), s.submitted, s.workers[w];
    assert Upstream(t) == Upstream(s) + [e];
    OfConcat(c, Upstream(s), [e], w);
    hide Upstream;
    FlowParts(k.handled, Opt(k.busy), k.inbox, Of(c, Upstream(s), w), Of(c, [e], w));
  }

  lemma SubmitKeepsGood(c: Config, s: State, w: nat)
    requires Shaped(c, s) && Enabled(c, s, Submit) && w < c.workers && Good(c, s, w)
    ensures Good(c, Next(c, s, Submit), w)
  {
    hide Of, Ordered, Flow;
    var e := s.submitted;
    SubmitFlow(c, s, w);
    OfOne(c, e, w);
    assert Numbers(e + 1) == Numbers(e) + [e];
    hide Numbers;
    OfConcat(c, Numbers(e), [e], w);
    AppendOrdered(Flow(c, s, w), e);
    AppendCount(Flow(c, s, w), Of(c, [e], w), Of(c, s.lost, w), Of(c, Numbers(e), w));
  }

  lemma AppendCount(flow: seq<nat>, more: seq<nat>, lost: seq<nat>, all: seq<nat>)
    requires multiset(flow) + multiset(lost) == multiset(all)
    ensures multiset(flow + more) + multiset(lost) == multiset(all + more)
  {
  }

  lemma SubmitKeepsInv(c: Config, s: State)
    requires Inv(c, s) && Enabled(c, s, Submit)
    ensures Inv(c, Next(c, s, Submit))
  {
    var t := Next(c, s, Submit);
    assert Upstream(t) == Upstream(s) + [s.submitted];
    hide Good, Ordered;
    AppendOrdered(Upstream(s), s.submitted);
    forall w | 0 <= w < c.workers ensures Good(c, t, w) {
      SubmitKeepsGood(c, s, w);
    }
  }

  /** The middle of a sequence taken out. */
  lemma ExciseOrdered(head: seq<nat>, one: seq<nat>, tail: seq<nat>, n: nat)
    requires Ordered(head + (one + tail), n)
    ensures Ordered(head + tail, n)
  {
    var was, now := head + (one + tail), head + tail;
    forall i | 0 <= i < |now| ensures now[i] == was[if i < |head| then i else i + |one|] {
    }
  }

  lemma ExciseCount(head: seq<nat>, one: seq<nat>, tail: seq<nat>, lost: seq<nat>, all: multiset<nat>)
    requires multiset(head + (one + tail)) + multiset(lost) == all
    ensures multiset(head + tail) + multiset(lost + one) == all
  {
  }

  lemma UpstreamAtDrop(c: Config, s: State)
    requires Shaped(c, s) && Enabled(c, s, DropOldest) && s.channel != []
    ensures var front, back := Opt(s.dispatcher), s.channel[1..] + Pending(s.reader);
      && Upstream(s) == front + ([s.channel[0]] + back)
      && Upstream(Next(c, s, DropOldest)) == front + back
  {
  }

  /** The oldest queued event leaves the flow of its worker and joins the lost ones. */
  lemma DropKeepsInv(c: Config, s: State)
    requires Inv(c, s) && Enabled(c, s, DropOldest) && s.channel != []
    ensures Inv(c, Next(c, s, DropOldest))
  {
    var t := Next(c, s, DropOldest);
    var front, back := Opt(s.dispatcher), s.channel[1..] + Pending(s.reader);
    UpstreamAtDrop(c, s);
    hide Good, Ordered;
    ExciseOrdered(front, [s.channel[0]], back, s.submitted);
    forall w | 0 <= w < c.workers ensures Good(c, t, w) {
      DropKeepsGood(c, s, w);
    }
  }

  lemma DropKeepsGood(c: Config, s: State, w: nat)
    requires Shaped(c, s) && Enabled(c, s, DropOldest) && s.channel != [] && w < c.workers && Good(c, s, w)
    ensures Good(c, Next(c, s, DropOldest), w)
  {
    hide Of, Ordered;
    var t, k := Next(c, s, DropOldest), s.workers[w];
    var e, front, back := s.channel[0], Opt(s.dispatcher), s.channel[1..] + Pending(s.reader);
    UpstreamAtDrop(c, s);
    OfConcat(c, front, [e] + back, w);
    OfConcat(c, [e], back, w);
    OfConcat(c, front, back, w);
    OfConcat(c, s.lost, [e], w);
    hide Upstream;
    var head := k.handled + (Opt(k.busy) + (k.inbox + Of(c, front, w)));
    var one, tail := Of(c, [e], w), Of(c, back, w);
    FlowParts(k.handled, Opt(k.busy), k.inbox, Of(c, front, w), one + tail);
    FlowParts(k.handled, Opt(k.busy), k.inbox, Of(c, front, w), tail);
    ExciseOrdered(head, one, tail, s.submitted);
    ExciseCount(head, one, tail, Of(c, s.lost, w), multiset(Of(c, Numbers(s.submitted), w)));
  }

  lemma StepKeepsInv(c: Config, s: State, step: Step)
    requires Inv(c, s) && Enabled(c, s, step)
    ensures Inv(c, Next(c, s, step))
  {
    if step.Submit? {
      SubmitKeepsInv(c, s);
    } else if Moves(c, s, step) {
      MovesKeepInv(c, s, step);
    } else {
      DropKeepsInv(c, s);
    }
  }

  // ---- runs ---------------------------------------------------------------------------------

  predicate Possible(c: Config, s: State, steps: seq<Step>)
    requires c.Valid()
    decreases |steps|
  {
    steps == [] || (Enabled(c, s, steps[0]) && Possible(c, Next(c, s, steps[0]), steps[1..]))
  }

  function Run(c: Config, s: State, steps: seq<Step>): State
    requires c.Valid() && Possible(c, s, steps)
    decreases |steps|
  {
    if steps == [] then s else Run(c, Next(c, s, steps[0]), steps[1..])
  }

  lemma {:induction false} RunKeepsInv(c: Config, s: State, steps: seq<Step>)
    requires c.Valid() && Inv(c, s) && Possible(c, s, steps)
    ensures Inv(c, Run(c, s, steps))
    decreases |steps|
  {
    hide Inv, Enabled, Next;
    if steps != [] {
      StepKeepsInv(c, s, steps[0]);
      RunKeepsInv(c, Next(c, s, steps[0]), steps[1..]);
    }
  }

  /** The handled events of one point, in the order its worker handled them. */
  function HandledOf(c: Config, es: seq<nat>, key: int): seq<nat> {
    if es == [] then [] else (if c.key(es[0]) == key then [es[0]] else []) + HandledOf(c, es[1..], key)
  }

  lemma {:induction false} SelectionIncreases(c: Config, es: seq<nat>, key: int)
    requires Increasing(es)
    ensures Increasing(HandledOf(c, es, key))
  {
    if es != [] {
      IncreasingParts(es);
      SelectionIncreases(c, es[1..], key);
      var rest := HandledOf(c, es[1..], key);
      SelectionHasKey(c, es[1..], key);
      hide Increasing, HandledOf;
      IncreasingFront(es[0], rest);
      assert HandledOf(c, es, key) == if c.key(es[0]) == key then [es[0]] + rest else rest by {
        SelectionUnfolds(c, es, key);
      }
    }
  }

  lemma SelectionUnfolds(c: Config, es: seq<nat>, key: int)
    requires es != []
    ensures HandledOf(c, es, key)
      == if c.key(es[0]) == key then [es[0]] + HandledOf(c, es[1..], key) else HandledOf(c, es[1..], key)
  {
  }

  lemma IncreasingParts(es: seq<nat>)
    requires Increasing(es) && es != []
    ensures Increasing(es[1..]) && forall e :: e in es[1..] ==> es[0] < e
  {
    var rest := es[1..];
    forall i | 0 <= i < |rest| ensures rest[i] == es[i + 1] {
    }
  }

  lemma IncreasingFront(e: nat, rest: seq<nat>)
    requires Increasing(rest) && forall i :: 0 <= i < |rest| ==> e < rest[i]
    ensures Increasing([e] + rest)
  {
    var all := [e] + rest;
    forall i, j | 0 <= i < j < |all| ensures all[i] < all[j] {
      assert all[j] == rest[j - 1];
      if i > 0 {
        assert all[i] == rest[i - 1];
      }
    }
  }

  /** Worker w handles only its own events, in submission order. */
  lemma WorkerOrder(c: Config, s: State, w: nat)
    requires Inv(c, s) && w < c.workers
    ensures Increasing(s.workers[w].handled)
    ensures forall i :: 0 <= i < |s.workers[w].handled| ==> c.Shard(s.workers[w].handled[i]) == w
  {
    var h := s.workers[w].handled;
    var flow := Flow(c, s, w);
    assert Good(c, s, w);
    assert forall i :: 0 <= i < |h| ==> h[i] == flow[i];
    forall i | 0 <= i < |h| ensures c.Shard(h[i]) == w {
      assert flow[i] in multiset(flow);
      assert h[i] in multiset(Of(c, Numbers(s.submitted), w));
      OfBelongs(c, Numbers(s.submitted), w);
    }
  }

  lemma {:induction false} OfBelongs(c: Config, es: seq<nat>, w: nat)
    requires c.Valid()
    ensures forall e :: e in Of(c, es, w) ==> c.Shard(e) == w && e in es
  {
    if es != [] {
      OfBelongs(c, es[1..], w);
      assert es == [es[0]] + es[1..];
    }
  }

  /**
   In every reachable state the handled events of each point are in the order of their
   submission, and they were all handled by the same worker.
   */
  lemma PerPointOrder(c: Config, steps: seq<Step>, key: int)
    requires c.Valid() && Possible(c, Init(c), steps)
    ensures var s := Run(c, Init(c), steps);
      && |s.workers| == c.workers
      && forall w :: 0 <= w < c.workers ==> FromOneWorker(c, s, w, key)
  {
    hide Good, Ordered, Init, Possible, Run, FromOneWorker;
    InitInv(c);
    RunKeepsInv(c, Init(c), steps);
    var s := Run(c, Init(c), steps);
    forall w | 0 <= w < c.workers ensures FromOneWorker(c, s, w, key) {
      OneWorker(c, s, w, key);
    }
  }

  /** Worker w has handled the point's events in order, and it has handled any only if it is the point's worker. */
  predicate FromOneWorker(c: Config, s: State, w: nat, key: int)
    requires c.Valid() && w < |s.workers|
  {
    var es := HandledOf(c, s.workers[w].handled, key);
    Increasing(es) && (es != [] ==> w == if c.workers > 1 then c.hash(key) % c.workers else 0)
  }

  lemma OneWorker(c: Config, s: State, w: nat, key: int)
    requires Inv(c, s) && w < c.workers
    ensures FromOneWorker(c, s, w, key)
  {
    hide Good, Ordered, Increasing, HandledOf;
    var h := s.workers[w].handled;
    WorkerOrder(c, s, w);
    SelectionIncreases(c, h, key);
    SelectionHasKey(c, h, key);
    var es := HandledOf(c, h, key);
    if es != [] {
      assert es[0] in h && c.key(es[0]) == key;
      assert c.Shard(es[0]) == w;
    }
  }

  lemma {:induction false} SelectionHasKey(c: Config, es: seq<nat>, key: int)
    ensures forall i :: 0 <= i < |HandledOf(c, es, key)| ==>
      c.key(HandledOf(c, es, key)[i]) == key && HandledOf(c, es, key)[i] in es
  {
    if es != [] {
      SelectionHasKey(c, es[1..], key);
      assert es == [es[0]] + es[1..];
    }
  }

  // ---- counting -----------------------------------------------------------------------------

  function Load(ks: seq<Worker>): nat {
    if ks == [] then 0 else |ks[0].handled| + |Opt(ks[0].busy)| + |ks[0].inbox| + Load(ks[1..])
  }

  lemma {:induction false} LoadChange(ks: seq<Worker>, w: nat, k: Worker)
    requires w < |ks|
    ensures Load(ks[w := k]) == Load(ks) - (|ks[w].handled| + |Opt(ks[w].busy)| + |ks[w].inbox|)
      + (|k.handled| + |Opt(k.busy)| + |k.inbox|)
  {
    if w > 0 {
      LoadChange(ks[1..], w - 1, k);
      assert ks[w := k][1..] == ks[1..][w - 1 := k];
    } else {
      assert ks[0 := k][1..] == ks[1..];
    }
  }

  /** submitted = dropped + queued + in flight + handled. */
  predicate Balanced(s: State) {
    s.submitted == s.dropped + |Upstream(s)| + Load(s.workers)
  }

  lemma WorkerStepKeepsLoad(c: Config, s: State, step: Step)
    requires c.Valid() && Enabled(c, s, step) && (step.Take? || step.Finish?)
    ensures Load(Next(c, s, step).workers) == Load(s.workers)
  {
    hide Load;
    var k := s.workers[step.w];
    if step.Take? {
      LoadChange(s.workers, step.w, k.(inbox := k.inbox[1..], busy := Some(k.inbox[0])));
    } else {
      LoadChange(s.workers, step.w, k.(busy := None, handled := k.handled + [k.busy.value]));
    }
  }

  lemma StepKeepsBalance(c: Config, s: State, step: Step)
    requires c.Valid() && Enabled(c, s, step) && Balanced(s)
    ensures Balanced(Next(c, s, step))
  {
    hide Load;
    if step.Route? {
      var w := c.Shard(s.dispatcher.value);
      LoadChange(s.workers, w, s.workers[w].(inbox := s.workers[w].inbox + [s.dispatcher.value]));
    } else if step.Take? || step.Finish? {
      WorkerStepKeepsLoad(c, s, step);
    }
  }

  lemma {:induction false} EmptyLoad(n: nat)
    ensures Load(seq(n, _ => Worker([], None, []))) == 0
  {
    if n > 0 {
      EmptyLoad(n - 1);
      assert seq(n, _ => Worker([], None, []))[1..] == seq(n - 1, _ => Worker([], None, []));
    }
  }

  lemma {:induction false} RunKeepsBalance(c: Config, s: State, steps: seq<Step>)
    requires c.Valid() && Balanced(s) && Possible(c, s, steps)
    ensures Balanced(Run(c, s, steps))
    decreases |steps|
  {
    hide Balanced, Enabled, Next;
    if steps != [] {
      StepKeepsBalance(c, s, steps[0]);
      RunKeepsBalance(c, Next(c, s, steps[0]), steps[1..]);
    }
  }

  /**
   Conservation: in every reachable state each submitted event of a worker is in exactly one place
   on its way or lost, the drop counter counts the lost ones, and the totals add up.
   */
  lemma Conservation(c: Config, steps: seq<Step>)
    requires c.Valid() && Possible(c, Init(c), steps)
    ensures var s := Run(c, Init(c), steps);
      && Shaped(c, s) && s.dropped == |s.lost|
      && (forall w :: 0 <= w < c.workers ==> Accounted(c, s, w))
      && s.submitted == s.dropped + |Upstream(s)| + Load(s.workers)
  {
    hide Accounted, Ordered, Possible, Run, Flow;
    InitInv(c);
    EmptyLoad(c.workers);
    RunKeepsInv(c, Init(c), steps);
    RunKeepsBalance(c, Init(c), steps);
    var s := Run(c, Init(c), steps);
    forall w | 0 <= w < c.workers ensures Accounted(c, s, w) {
      assert Good(c, s, w);
    }
  }

  /** An event goes to the worker its point's hash gives, as soon as that one's inbox has room. */
  lemma RoutedByHash(c: Config, s: State, e: nat, w: nat)
    requires Shaped(c, s) && s.dispatcher == Some(e) && w == c.hash(c.key(e)) % c.workers
    ensures Enabled(c, s, Route) <==> |s.workers[w].inbox| <= c.capacity / c.workers
    ensures Enabled(c, s, Route) ==>
      && Next(c, s, Route).dispatcher.None?
      && Next(c, s, Route).workers == s.workers[w := s.workers[w].(inbox := s.workers[w].inbox + [e])]
  {
  }

  // ---- what is dropped ----------------------------------------------------------------------

  /** Only the oldest queued event is ever dropped; the one being submitted never is. */
  lemma OnlyTheOldestIsDropped(c: Config, s: State, step: Step)
    requires Inv(c, s) && Enabled(c, s, step) && Next(c, s, step).lost != s.lost
    ensures step.DropOldest? && s.channel != [] && Next(c, s, step).lost == s.lost + [s.channel[0]]
    ensures forall i :: 0 < i < |s.channel| ==> s.channel[0] < s.channel[i]
    ensures s.channel[0] < s.reader.event
  {
    var up, n := Upstream(s), |Opt(s.dispatcher)|;
    assert forall i :: 0 <= i < |s.channel| ==> up[n + i] == s.channel[i];
    if step.DropOldest? && s.channel != [] {
      assert up[n + |s.channel|] == s.reader.event;
    }
  }

  /** The reader alone, from an idle state: what one call of Submit comes to without interference. */
  lemma UndisturbedSubmit(c: Config, s: State)
    requires Inv(c, s) && s.reader.Idle?
    ensures var steps := if |s.channel| < c.capacity then [Submit, TrySend] else [Submit, TrySend, DropOldest, Retry];
      && Possible(c, s, steps)
      && Run(c, s, steps) ==
        if |s.channel| < c.capacity then s.(submitted := s.submitted + 1, channel := s.channel + [s.submitted])
        else s.(submitted := s.submitted + 1, channel := s.channel[1..] + [s.submitted],
                dropped := s.dropped + 1, lost := s.lost + [s.channel[0]])
  {
    var s1 := Next(c, s, Submit);
    var s2 := Next(c, s1, TrySend);
    if |s.channel| < c.capacity {
      assert [Submit, TrySend][1..] == [TrySend] && [TrySend][1..] == [];
      RunOne(c, s1, TrySend);
    } else {
      var s3 := Next(c, s2, DropOldest);
      assert [Submit, TrySend, DropOldest, Retry][1..] == [TrySend, DropOldest, Retry];
      assert [TrySend, DropOldest, Retry][1..] == [DropOldest, Retry];
      assert [DropOldest, Retry][1..] == [Retry];
      RunOne(c, s3, Retry);
    }
  }

  lemma RunOne(c: Config, s: State, step: Step)
    requires c.Valid() && Enabled(c, s, step)
    ensures Possible(c, s, [step]) && Run(c, s, [step]) == Next(c, s, step)
  {
    assert [step][1..] == [];
    assert Possible(c, Next(c, s, step), []);
  }

  /** Submit on the queue of a processor nobody else is using at the moment. */
  class Processor {
    const capacity: nat
    var changes: seq<nat>
    var dropped: nat

    constructor (capacity: nat)
      ensures this.capacity == capacity && changes == [] && dropped == 0
    {
      this.capacity := capacity;
      changes, dropped := [], 0;
    }

    method SubmitEvent(e: nat)
      requires capacity >= 1 && |changes| <= capacity
      modifies this
      ensures |old(changes)| < capacity ==> changes == old(changes) + [e] && dropped == old(dropped)
      ensures |old(changes)| == capacity ==> changes == old(changes)[1..] + [e] && dropped == old(dropped) + 1
    {
      if |changes| < capacity {
        changes := changes + [e];
      } else {
        if changes != [] {
          changes := changes[1..];
          dropped := dropped + 1;
        }
        if |changes| < capacity {
          changes := changes + [e];
        } else {
          // The second drop of Submit: no room although the oldest event is gone.
          assert false;
        }
      }
    }
  }

  // ---- everything submitted is worked off -----------------------------------------------------

  function ReaderWork(r: Reader): nat {
    match r
    case Idle => 0
    case Trying(_) => 8
    case Dropping(_) => 7
    case Retrying(_) => 6
  }

  function WorkersWork(ks: seq<Worker>): nat {
    if ks == [] then 0 else 2 * |ks[0].inbox| + |Opt(ks[0].busy)| + WorkersWork(ks[1..])
  }

  function Work(s: State): nat {
    ReaderWork(s.reader) + 5 * |s.channel| + 4 * |Opt(s.dispatcher)| + WorkersWork(s.workers)
  }

  lemma {:induction false} WorkChange(ks: seq<Worker>, w: nat, k: Worker)
    requires w < |ks|
    ensures WorkersWork(ks[w := k])
      == WorkersWork(ks) - (2 * |ks[w].inbox| + |Opt(ks[w].busy)|) + 2 * |k.inbox| + |Opt(k.busy)|
  {
    if w > 0 {
      WorkChange(ks[1..], w - 1, k);
      assert ks[w := k][1..] == ks[1..][w - 1 := k];
    } else {
      assert ks[0 := k][1..] == ks[1..];
    }
  }

  lemma StepsDoWork(c: Config, s: State, step: Step)
    requires c.Valid() && Enabled(c, s, step) && !step.Submit?
    ensures Work(Next(c, s, step)) < Work(s)
  {
    hide WorkersWork;
    match step
    case Route =>
      var w := c.Shard(s.dispatcher.value);
      WorkChange(s.workers, w, s.workers[w].(inbox := s.workers[w].inbox + [s.dispatcher.value]));
    case Take(w) =>
      var k := s.workers[w];
      WorkChange(s.workers, w, k.(inbox := k.inbox[1..], busy := Some(k.inbox[0])));
    case Finish(w) =>
      var k := s.workers[w];
      WorkChange(s.workers, w, k.(busy := None, handled := k.handled + [k.busy.value]));
    case _ =>
  }

  predicate Empty(s: State) {
    Upstream(s) == [] && forall w :: 0 <= w < |s.workers| ==> s.workers[w].inbox == [] && s.workers[w].busy.None?
  }

  /** The pipeline never gets stuck: with an event on its way, somebody can take a step. */
  lemma NeverStuck(c: Config, s: State) returns (step: Step)
    requires Shaped(c, s) && !Empty(s)
    ensures !step.Submit? && Enabled(c, s, step)
  {
    if !s.reader.Idle? {
      step := match s.reader case Trying(_) => TrySend case Dropping(_) => DropOldest case _ => Retry;
    } else if s.dispatcher.Some? {
      var w := c.Shard(s.dispatcher.value);
      step := if |s.workers[w].inbox| < c.InboxCapacity() then Route
              else if s.workers[w].busy.Some? then Finish(w) else Take(w);
    } else if s.channel != [] {
      step := Receive;
    } else {
      var w :| 0 <= w < |s.workers| && (s.workers[w].inbox != [] || s.workers[w].busy.Some?);
      step := if s.workers[w].busy.Some? then Finish(w) else Take(w);
    }
  }

  /**
   Once submissions stop, at most Work(s) more steps are possible, and a run that cannot go on has
   handled or dropped everything.
   */
  lemma {:induction false} SubmittedIsWorkedOff(c: Config, s: State, steps: seq<Step>)
    requires c.Valid() && Shaped(c, s) && Possible(c, s, steps)
    requires forall i :: 0 <= i < |steps| ==> !steps[i].Submit?
    ensures |steps| <= Work(s)
    ensures (forall step: Step :: !step.Submit? ==> !Enabled(c, Run(c, s, steps), step)) ==> Empty(Run(c, s, steps))
    decreases |steps|
  {
    hide Next, Work, Empty, Enabled, Shaped;
    if steps == [] {
      if !Empty(s) {
        var step := NeverStuck(c, s);
      }
    } else {
      StepsDoWork(c, s, steps[0]);
      ShapedKept(c, s, steps[0]);
      SubmittedIsWorkedOff(c, Next(c, s, steps[0]), steps[1..]);
    }
  }
}
