/**
 Concurrent recording into the histogram (Observe in src/cs_data_processor-go/metrics.go).

 Any number of Observe calls run at once.  Each is a program counter over the atomic
 instructions of the source: three fetch-and-adds, then a load / compare-and-swap loop for the
 minimum and another for the maximum.  A run is any interleaving of those instructions.
 */
module LockFreeHistogram {
  import opened HistogramBuckets
  import opened LatencyHistogram

  datatype Pc =
    | AddBucket
    | AddCount
    | AddSum
    | LoadMin
    | SwapMin(cur: int)
    | LoadMax
    | SwapMax(cur: int)
    | Done

  datatype Call = Call(us: Sample, pc: Pc)

  datatype State = State(cells: Cells, calls: seq<Call>)

  /** What may happen next: a new Observe call, or one instruction of a call already running. */
  datatype Action = Begin(us: Int64) | Tick(call: nat)

  ghost const Fresh := State(Cells(seq(BUCKET_COUNT, _ => 0), 0, 0, MAX_INT64, 0), [])

  ghost predicate Enabled(s: State, a: Action) {
    match a
    case Begin(_) => true
    case Tick(i) => i < |s.calls| && s.calls[i].pc != Done
  }

  ghost function Step(s: State, a: Action): (s': State)
    requires |s.cells.buckets| == BUCKET_COUNT && Enabled(s, a)
    ensures |s'.cells.buckets| == BUCKET_COUNT
  {
    match a
    case Begin(us) => s.(calls := s.calls + [Call(if us < 0 then 0 else us, AddBucket)])
    case Tick(i) =>
      var (cells, pc) := Instruction(s.cells, s.calls[i]);
      State(cells, s.calls[i := s.calls[i].(pc := pc)])
  }

  /** One atomic instruction of one call. */
  ghost function Instruction(c: Cells, call: Call): (Cells, Pc)
    requires |c.buckets| == BUCKET_COUNT && call.pc != Done
  {
    match call.pc
    case AddBucket =>
      var idx := HistIndex(call.us);
      (c.(buckets := c.buckets[idx := c.buckets[idx] + 1]), AddCount)
    case AddCount => (c.(count := c.count + 1), AddSum)
    case AddSum => (c.(sum := c.sum + call.us), LoadMin)
    case LoadMin => (c, if call.us >= c.min then LoadMax else SwapMin(c.min))
    case SwapMin(cur) => if c.min == cur then (c.(min := call.us), LoadMax) else (c, LoadMin)
    case LoadMax => (c, if call.us <= c.max then Done else SwapMax(c.max))
    case SwapMax(cur) => if c.max == cur then (c.(max := call.us), Done) else (c, LoadMax)
  }

  ghost predicate IsRun(s: State, actions: seq<Action>)
    requires |s.cells.buckets| == BUCKET_COUNT
    decreases |actions|
  {
    actions == [] || (Enabled(s, actions[0]) && IsRun(Step(s, actions[0]), actions[1..]))
  }

  ghost function Run(s: State, actions: seq<Action>): (s': State)
    requires |s.cells.buckets| == BUCKET_COUNT && IsRun(s, actions)
    ensures |s'.cells.buckets| == BUCKET_COUNT
    decreases |actions|
  {
    if actions == [] then s else Run(Step(s, actions[0]), actions[1..])
  }

  // ---- what each instruction has accounted for -------------------------------------------

  ghost function Rank(pc: Pc): nat {
    match pc
    case AddBucket => 0
    case AddCount => 1
    case AddSum => 2
    case LoadMin => 3
    case SwapMin(_) => 3
    case LoadMax => 4
    case SwapMax(_) => 4
    case Done => 5
  }

  /** The samples of the calls that have passed stage r. */
  ghost function Past(calls: seq<Call>, r: int): seq<Sample> {
    if calls == [] then []
    else
      var last := calls[|calls| - 1];
      var before := Past(calls[..|calls| - 1], r);
      if Rank(last.pc) > r then before + [last.us] else before
  }

  /** All samples handed to Observe so far, in the order the calls began. */
  ghost function Offered(s: State): seq<Sample> {
    Past(s.calls, -1)
  }

  ghost predicate Inv(s: State) {
    BucketsMatch(s) && TotalsMatch(s) && ExtremesMatch(s)
  }

  ghost predicate BucketsMatch(s: State) {
    && |s.cells.buckets| == BUCKET_COUNT
    && (forall b :: 0 <= b < BUCKET_COUNT ==> s.cells.buckets[b] == CountIn(Past(s.calls, 0), b))
  }

  ghost predicate TotalsMatch(s: State) {
    s.cells.count == |Past(s.calls, 1)| && s.cells.sum == Sum(Past(s.calls, 2))
  }

  ghost predicate ExtremesMatch(s: State) {
    && (forall x :: x in Past(s.calls, 3) ==> s.cells.min <= x)
    && (forall x :: x in Past(s.calls, 4) ==> x <= s.cells.max)
    && (s.cells.min == MAX_INT64 || s.cells.min in Offered(s))
    && (s.cells.max == 0 || s.cells.max in Offered(s))
    && (forall i :: 0 <= i < |s.calls| ==> Sensible(s.cells, s.calls[i]))
  }

  /** A call only tries to swap in an improvement, and the cell has only improved since its load. */
  ghost predicate Sensible(c: Cells, call: Call) {
    && (call.pc.SwapMin? ==> call.us < call.pc.cur && c.min <= call.pc.cur)
    && (call.pc.SwapMax? ==> call.pc.cur < call.us && call.pc.cur <= c.max)
  }

  /** now holds the samples of was and us once more. */
  ghost predicate Gains(was: seq<Sample>, now: seq<Sample>, us: Sample) {
    && |now| == |was| + 1
    && Sum(now) == Sum(was) + us
    && (forall b :: CountIn(now, b) == CountIn(was, b) + if HistIndex(us) == b then 1 else 0)
    && (forall x :: x in now <==> x in was || x == us)
  }

  lemma GainsAppended(was: seq<Sample>, now: seq<Sample>, us: Sample, y: Sample)
    requires Gains(was, now, us)
    ensures Gains(was + [y], now + [y], us)
  {
    assert (was + [y])[..|was|] == was && (now + [y])[..|now|] == now;
  }

  /** Moving call i on adds its sample to the stages it passes and changes nothing else. */
  lemma {:induction false} PastMoves(calls: seq<Call>, i: nat, pc: Pc, r: int)
    requires i < |calls| && Rank(calls[i].pc) <= Rank(pc)
    ensures var was, now := Past(calls, r), Past(calls[i := calls[i].(pc := pc)], r);
      if Rank(calls[i].pc) <= r < Rank(pc) then Gains(was, now, calls[i].us) else now == was
  {
    var n := |calls| - 1;
    var us := calls[i].us;
    var moved := calls[i := calls[i].(pc := pc)];
    if i == n {
      assert moved[..n] == calls[..n];
      var was, now := Past(calls, r), Past(moved, r);
      if Rank(calls[i].pc) <= r < Rank(pc) {
        assert now == was + [us];
        assert now[..|now| - 1] == was;
      }
    } else {
      PastMoves(calls[..n], i, pc, r);
      assert moved[..n] == calls[..n][i := calls[i].(pc := pc)];
      var was, now := Past(calls[..n], r), Past(moved[..n], r);
      if Rank(calls[n].pc) > r && now != was {
        GainsAppended(was, now, us, calls[n].us);
      }
    }
  }

  lemma {:induction false} CallIsOffered(calls: seq<Call>, i: nat)
    requires i < |calls|
    ensures calls[i].us in Past(calls, -1)
  {
    if i < |calls| - 1 {
      CallIsOffered(calls[..|calls| - 1], i);
    }
  }

  lemma BeginKeepsInv(s: State, us: Int64)
    requires Inv(s)
    ensures Inv(Step(s, Begin(us)))
  {
    var s' := Step(s, Begin(us));
    assert s'.calls[..|s.calls|] == s.calls;
    assert forall r | 0 <= r :: Past(s'.calls, r) == Past(s.calls, r);
  }

  lemma TickKeepsBuckets(s: State, i: nat)
    requires BucketsMatch(s) && Enabled(s, Tick(i))
    ensures BucketsMatch(Step(s, Tick(i)))
  {
    PastMoves(s.calls, i, Instruction(s.cells, s.calls[i]).1, 0);
  }

  lemma TickKeepsTotals(s: State, i: nat)
    requires BucketsMatch(s) && TotalsMatch(s) && Enabled(s, Tick(i))
    ensures TotalsMatch(Step(s, Tick(i)))
  {
    PastMoves(s.calls, i, Instruction(s.cells, s.calls[i]).1, 1);
    PastMoves(s.calls, i, Instruction(s.cells, s.calls[i]).1, 2);
  }

  /** Instructions only lower the minimum and raise the maximum, and to the call's own value. */
  lemma ExtremesMove(s: State, i: nat)
    requires BucketsMatch(s) && ExtremesMatch(s) && Enabled(s, Tick(i))
    ensures var call := s.calls[i]; var cells := Instruction(s.cells, call).0;
      && (cells.min == s.cells.min || cells.min == call.us) && (cells.max == s.cells.max || cells.max == call.us)
      && cells.min <= s.cells.min && s.cells.max <= cells.max
      && forall j :: 0 <= j < |s.calls| ==>
        Sensible(cells, s.calls[j].(pc := if j == i then Instruction(s.cells, call).1 else s.calls[j].pc))
  {
    hide Past;
    assert Sensible(s.cells, s.calls[i]);
    forall j | 0 <= j < |s.calls| && j != i ensures Sensible(Instruction(s.cells, s.calls[i]).0, s.calls[j]) {
      assert Sensible(s.cells, s.calls[j]);
    }
  }

  lemma TickKeepsMin(s: State, i: nat, x: Sample)
    requires BucketsMatch(s) && ExtremesMatch(s) && Enabled(s, Tick(i)) && x in Past(Step(s, Tick(i)).calls, 3)
    ensures Step(s, Tick(i)).cells.min <= x
  {
    PastMoves(s.calls, i, Instruction(s.cells, s.calls[i]).1, 3);
    ExtremesMove(s, i);
  }

  lemma TickKeepsMax(s: State, i: nat, x: Sample)
    requires BucketsMatch(s) && ExtremesMatch(s) && Enabled(s, Tick(i)) && x in Past(Step(s, Tick(i)).calls, 4)
    ensures x <= Step(s, Tick(i)).cells.max
  {
    PastMoves(s.calls, i, Instruction(s.cells, s.calls[i]).1, 4);
    ExtremesMove(s, i);
  }

  lemma TickKeepsExtremes(s: State, i: nat)
    requires BucketsMatch(s) && ExtremesMatch(s) && Enabled(s, Tick(i))
    ensures ExtremesMatch(Step(s, Tick(i)))
  {
    var s' := Step(s, Tick(i));
    PastMoves(s.calls, i, Instruction(s.cells, s.calls[i]).1, -1);
    CallIsOffered(s.calls, i);
    ExtremesMove(s, i);
    forall x | x in Past(s'.calls, 3) ensures s'.cells.min <= x {
      TickKeepsMin(s, i, x);
    }
    forall x | x in Past(s'.calls, 4) ensures x <= s'.cells.max {
      TickKeepsMax(s, i, x);
    }
    hide Past, Instruction, Sensible;
    forall j | 0 <= j < |s'.calls| ensures Sensible(s'.cells, s'.calls[j]) {
      assert s'.calls[j] == s.calls[j].(pc := if j == i then Instruction(s.cells, s.calls[i]).1 else s.calls[j].pc);
    }
  }

  lemma {:induction false} RunKeepsInv(s: State, actions: seq<Action>)
    requires Inv(s) && IsRun(s, actions)
    ensures Inv(Run(s, actions))
    decreases |actions|
  {
    if actions != [] {
      match actions[0] {
        case Begin(us) => BeginKeepsInv(s, us);
        case Tick(i) =>
          TickKeepsBuckets(s, i);
          TickKeepsTotals(s, i);
          TickKeepsExtremes(s, i);
      }
      RunKeepsInv(Step(s, actions[0]), actions[1..]);
    }
  }

  ghost predicate Quiescent(s: State) {
    forall i :: 0 <= i < |s.calls| ==> s.calls[i].pc == Done
  }

  lemma {:induction false} QuiescentPast(calls: seq<Call>, r: int)
    requires r < 5 && forall i :: 0 <= i < |calls| ==> calls[i].pc == Done
    ensures Past(calls, r) == Past(calls, -1)
  {
    if calls != [] {
      QuiescentPast(calls[..|calls| - 1], r);
    }
  }

  /**
   Whatever the interleaving, once every call has returned the cells describe exactly the
   samples that were offered: true minimum and maximum, and count, sum and buckets that match.
   */
  lemma QuiescentCellsDescribeSamples(actions: seq<Action>)
    requires IsRun(Fresh, actions) && Quiescent(Run(Fresh, actions))
    ensures var s := Run(Fresh, actions); Describes(s.cells, Offered(s))
  {
    assert Inv(Fresh);
    RunKeepsInv(Fresh, actions);
    var s := Run(Fresh, actions);
    forall r | 0 <= r < 5 ensures Past(s.calls, r) == Offered(s) {
      QuiescentPast(s.calls, r);
    }
  }

  /**
   Lock freedom of a retry: in every reachable state a compare-and-swap that fails lost to a
   call that improved the cell after this one loaded it.
   */
  lemma FailedSwapLostToProgress(actions: seq<Action>, i: nat)
    requires IsRun(Fresh, actions) && Enabled(Run(Fresh, actions), Tick(i))
    ensures var s := Run(Fresh, actions);
      && (s.calls[i].pc.SwapMin? && Instruction(s.cells, s.calls[i]).1 == LoadMin ==> s.cells.min < s.calls[i].pc.cur)
      && (s.calls[i].pc.SwapMax? && Instruction(s.cells, s.calls[i]).1 == LoadMax ==> s.calls[i].pc.cur < s.cells.max)
  {
    assert Inv(Fresh);
    RunKeepsInv(Fresh, actions);
  }

  // ---- retries are bounded ---------------------------------------------------------------

  /** How many instructions a call may still need when n calls are made in all: a retry costs two. */
  ghost function Need(call: Call, c: Cells, n: nat): nat {
    match call.pc
    case AddBucket => 4 * n + 7
    case AddCount => 4 * n + 6
    case AddSum => 4 * n + 5
    case LoadMin => 4 * n + 4
    case SwapMin(cur) => if cur == c.min then 4 * n + 3 else 4 * n + 5
    case LoadMax => 2 * n + 2
    case SwapMax(cur) => if cur == c.max then 2 * n + 1 else 2 * n + 3
    case Done => 0
  }

  ghost function TotalNeed(calls: seq<Call>, c: Cells, n: nat): nat {
    if calls == [] then 0 else TotalNeed(calls[..|calls| - 1], c, n) + Need(calls[|calls| - 1], c, n)
  }

  lemma {:induction false} OthersNeed(calls: seq<Call>, c: Cells, c': Cells, n: nat, cost: nat)
    requires cost == 2 || (cost == 0 && c'.min == c.min && c'.max == c.max)
    ensures TotalNeed(calls, c', n) <= TotalNeed(calls, c, n) + cost * |calls|
  {
    if calls != [] {
      OthersNeed(calls[..|calls| - 1], c, c', n, cost);
    }
  }

  /** One call moves on; a changed extreme costs every other call a retry at most. */
  lemma {:induction false} OneMoves(calls: seq<Call>, i: nat, moved: Call, c: Cells, c': Cells, n: nat, cost: nat)
    requires i < |calls| && (cost == 2 || (cost == 0 && c'.min == c.min && c'.max == c.max))
    ensures TotalNeed(calls[i := moved], c', n) + Need(calls[i], c, n)
      <= TotalNeed(calls, c, n) + Need(moved, c', n) + cost * (|calls| - 1)
  {
    var k := |calls| - 1;
    var now := calls[i := moved];
    if i == k {
      assert now[..k] == calls[..k];
      OthersNeed(calls[..k], c, c', n, cost);
    } else {
      assert now[..k] == calls[..k][i := moved];
      OneMoves(calls[..k], i, moved, c, c', n, cost);
    }
  }

  lemma TickNeedsLess(s: State, i: nat, n: nat)
    requires |s.cells.buckets| == BUCKET_COUNT && Enabled(s, Tick(i)) && |s.calls| <= n
    ensures var t := Step(s, Tick(i)); TotalNeed(t.calls, t.cells, n) < TotalNeed(s.calls, s.cells, n)
  {
    var call := s.calls[i];
    var (cells, pc) := Instruction(s.cells, call);
    var moved := call.(pc := pc);
    var changed := cells.min != s.cells.min || cells.max != s.cells.max;
    OneMoves(s.calls, i, moved, s.cells, cells, n, if changed then 2 else 0);
  }

  lemma BeginNeeds(s: State, us: Int64, n: nat)
    requires |s.cells.buckets| == BUCKET_COUNT
    ensures var t := Step(s, Begin(us)); TotalNeed(t.calls, t.cells, n) == TotalNeed(s.calls, s.cells, n) + 4 * n + 7
  {
    var t := Step(s, Begin(us));
    assert t.calls[..|s.calls|] == s.calls;
  }

  ghost function Begins(actions: seq<Action>): nat {
    if actions == [] then 0 else (if actions[0].Begin? then 1 else 0) + Begins(actions[1..])
  }

  lemma OneMoreTime(k: nat, x: nat)
    ensures (k + 1) * x == k * x + x
  {
  }

  lemma {:induction false} TicksFrom(s: State, actions: seq<Action>, n: nat)
    requires |s.cells.buckets| == BUCKET_COUNT && IsRun(s, actions) && |s.calls| + Begins(actions) <= n
    ensures |actions| - Begins(actions) <= TotalNeed(s.calls, s.cells, n) + Begins(actions) * (4 * n + 7)
    decreases |actions|
  {
    if actions != [] {
      hide Instruction, TotalNeed, Need;
      var rest := actions[1..];
      OneMoreTime(Begins(rest), 4 * n + 7);
      match actions[0]
      case Begin(us) =>
        BeginNeeds(s, us, n);
        TicksFrom(Step(s, actions[0]), rest, n);
      case Tick(i) =>
        TickNeedsLess(s, i, n);
        TicksFrom(Step(s, actions[0]), rest, n);
    }
  }

  /**
   No interleaving keeps the calls retrying: n calls execute at most n * (4n + 7) instructions,
   so every run comes to rest.
   */
  lemma RetriesAreBounded(actions: seq<Action>)
    requires IsRun(Fresh, actions)
    ensures var n := Begins(actions); |actions| - n <= n * (4 * n + 7)
  {
    TicksFrom(Fresh, actions, Begins(actions));
  }
}
