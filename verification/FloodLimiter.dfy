/**
 The limit on what one monitored item may deliver (monItem.allow and its use in handleNotification,
 src/OPC-UA-Client-Go/subscribe.go). Times are nanoseconds of a clock that does not go back.
 */
module FloodLimiter {
  import opened Options

  const MAX_ITEM_EVENTS_PER_SECOND: nat := 200
  const SECOND: nat := 1_000_000_000

  /** A window that never started is the zero time, further back than any second. */
  datatype Window = Window(start: Option<int>, count: nat)

  const FRESH := Window(None, 0)

  predicate Expired(w: Window, now: int) {
    w.start.None? || now - w.start.value >= SECOND
  }

  function Next(w: Window, now: int): Window {
    if Expired(w, now) then Window(Some(now), 1) else w.(count := w.count + 1)
  }

  predicate Accepts(w: Window, now: int) {
    Next(w, now).count <= MAX_ITEM_EVENTS_PER_SECOND
  }

  /** The first value refused in a window. */
  predicate Warns(w: Window, now: int) {
    Next(w, now).count == MAX_ITEM_EVENTS_PER_SECOND + 1
  }

  class MonItem {
    var windowStart: Option<int>
    var windowCount: nat
    var flooded: nat
    var events: nat
    var warnings: nat
    var queued: seq<int>

    function State(): Window
      reads this
    {
      Window(windowStart, windowCount)
    }

    constructor ()
      ensures State() == FRESH && flooded == events == warnings == 0 && queued == []
    {
      windowStart, windowCount := None, 0;
      flooded, events, warnings, queued := 0, 0, 0, [];
    }

    method Allow(now: int) returns (ok: bool, first: bool)
      modifies `windowStart, `windowCount
      ensures State() == Next(old(State()), now)
      ensures ok == Accepts(old(State()), now) && first == Warns(old(State()), now)
    {
      if windowStart.None? || now - windowStart.value >= SECOND {
        windowStart := Some(now);
        windowCount := 0;
      }
      windowCount := windowCount + 1;
      if windowCount <= MAX_ITEM_EVENTS_PER_SECOND {
        return true, false;
      }
      return false, windowCount == MAX_ITEM_EVENTS_PER_SECOND + 1;
    }

    /** One reported value: queued, or counted as flooding, with one warning a window. */
    method HandleNotification(now: int)
      modifies this
      ensures State() == Next(old(State()), now) && events == old(events) + 1
      ensures queued == old(queued) + if Accepts(old(State()), now) then [now] else []
      ensures flooded == old(flooded) + if Accepts(old(State()), now) then 0 else 1
      ensures warnings == old(warnings) + if Warns(old(State()), now) then 1 else 0
      ensures old(|queued| + flooded == events) ==> |queued| + flooded == events
    {
      events := events + 1;
      var ok, first := Allow(now);
      if !ok {
        flooded := flooded + 1;
        if first {
          warnings := warnings + 1;
        }
        return;
      }
      queued := queued + [now];
    }
  }

  // ---- runs -------------------------------------------------------------------------------

  /** The values a run of arrivals delivers, with their times. */
  function Delivered(w: Window, times: seq<int>): seq<int>
    decreases |times|
  {
    if times == [] then []
    else (if Accepts(w, times[0]) then [times[0]] else []) + Delivered(Next(w, times[0]), times[1..])
  }

  function Refused(w: Window, times: seq<int>): nat
    decreases |times|
  {
    if times == [] then 0
    else (if Accepts(w, times[0]) then 0 else 1) + Refused(Next(w, times[0]), times[1..])
  }

  function Warnings(w: Window, times: seq<int>): nat
    decreases |times|
  {
    if times == [] then 0
    else (if Warns(w, times[0]) then 1 else 0) + Warnings(Next(w, times[0]), times[1..])
  }

  /** How many of the times fall into the second that begins at `from`. */
  function Within(times: seq<int>, from: int): nat {
    if times == [] then 0
    else (if from <= times[0] < from + 1_000_000_000 then 1 else 0) + Within(times[1..], from)
  }

  predicate Sorted(times: seq<int>) {
    forall i, j :: 0 <= i <= j < |times| ==> times[i] <= times[j]
  }

  /** Unfolds one arrival. */
  lemma FirstArrival(w: Window, times: seq<int>, from: int)
    requires times != []
    ensures Within(Delivered(w, times), from)
      == (if Accepts(w, times[0]) && from <= times[0] < from + SECOND then 1 else 0)
         + Within(Delivered(Next(w, times[0]), times[1..]), from)
  {
    var rest := Delivered(Next(w, times[0]), times[1..]);
    if Accepts(w, times[0]) {
      assert Delivered(w, times)[1..] == rest;
    } else {
      assert Delivered(w, times) == rest;
    }
  }

  lemma {:induction false} NothingLater(w: Window, times: seq<int>, from: int)
    requires Sorted(times) && (times != [] ==> times[0] >= from + SECOND)
    ensures Within(Delivered(w, times), from) == 0
    decreases |times|
  {
    if times != [] {
      FirstArrival(w, times, from);
      NothingLater(Next(w, times[0]), times[1..], from);
    }
  }

  function Room(w: Window): nat {
    if w.count <= MAX_ITEM_EVENTS_PER_SECOND then MAX_ITEM_EVENTS_PER_SECOND - w.count else 0
  }

  /** A window that began inside the second lasts until its end. */
  lemma {:induction false} WindowInside(w: Window, times: seq<int>, from: int)
    requires Sorted(times) && w.start.Some? && w.start.value >= from
    ensures Within(Delivered(w, times), from) <= Room(w)
    decreases |times|
  {
    if times != [] {
      hide Delivered, Within;
      if times[0] >= from + SECOND {
        NothingLater(w, times, from);
      } else {
        FirstArrival(w, times, from);
        WindowInside(Next(w, times[0]), times[1..], from);
      }
    } else {
      assert Delivered(w, times) == [];
    }
  }

  /** A window that began earlier has room left, and then one window begins inside. */
  lemma {:induction false} WindowBefore(w: Window, times: seq<int>, from: int)
    requires Sorted(times) && (times != [] ==> times[0] >= from)
    ensures Within(Delivered(w, times), from) <= Room(w) + MAX_ITEM_EVENTS_PER_SECOND
    decreases |times|
  {
    if times != [] {
      hide Delivered, Within;
      if times[0] >= from + SECOND {
        NothingLater(w, times, from);
      } else {
        FirstArrival(w, times, from);
        if Expired(w, times[0]) {
          WindowInside(Next(w, times[0]), times[1..], from);
        } else {
          WindowBefore(Next(w, times[0]), times[1..], from);
        }
      }
    } else {
      assert Delivered(w, times) == [];
    }
  }

  /** Either no window yet, or the value that began it came before the second. */
  predicate BeganBefore(w: Window, from: int) {
    w == FRESH || (w.start.Some? && w.start.value < from && w.count >= 1)
  }

  /**
   The sliding bound: in any half-open second one item delivers at most 399 values. The value that
   begins the earlier window lies outside the second, so this is one less than twice the limit.
   */
  lemma {:induction false} AtMost399InAnySecond(w: Window, times: seq<int>, from: int)
    requires Sorted(times) && BeganBefore(w, from)
    ensures Within(Delivered(w, times), from) <= 2 * MAX_ITEM_EVENTS_PER_SECOND - 1
    decreases |times|
  {
    if times != [] {
      hide Delivered, Within;
      if times[0] < from {
        FirstArrival(w, times, from);
        AtMost399InAnySecond(Next(w, times[0]), times[1..], from);
      } else if w == FRESH && times[0] < from + SECOND {
        FirstArrival(w, times, from);
        WindowInside(Next(w, times[0]), times[1..], from);
      } else if w == FRESH {
        NothingLater(w, times, from);
      } else {
        WindowBefore(w, times, from);
      }
    } else {
      assert Delivered(w, times) == [];
    }
  }

  /** For every item from its creation on. */
  lemma FloodBound(times: seq<int>, from: int)
    requires Sorted(times)
    ensures Within(Delivered(FRESH, times), from) <= 399
  {
    AtMost399InAnySecond(FRESH, times, from);
  }

  function Repeat(t: int, n: nat): seq<int> {
    if n == 0 then [] else [t] + Repeat(t, n - 1)
  }

  lemma {:induction false} RepeatedArrivals(w: Window, t: int, n: nat, rest: seq<int>, from: int)
    requires w.start.Some? && 0 <= t - w.start.value < SECOND && w.count + n <= MAX_ITEM_EVENTS_PER_SECOND
    requires from <= t < from + SECOND
    ensures Within(Delivered(w, Repeat(t, n) + rest), from)
      == n + Within(Delivered(w.(count := w.count + n), rest), from)
    decreases n
  {
    hide Repeat, Delivered, Within;
    RepeatUnrolls(t, n, rest);
    if n > 0 {
      var one := w.(count := w.count + 1);
      assert Next(w, t) == one && Accepts(w, t);
      FirstArrival(w, Repeat(t, n) + rest, from);
      RepeatedArrivals(one, t, n - 1, rest, from);
    }
  }

  lemma RepeatUnrolls(t: int, n: nat, rest: seq<int>)
    ensures var all := Repeat(t, n) + rest;
      if n == 0 then all == rest else all != [] && all[0] == t && all[1..] == Repeat(t, n - 1) + rest
  {
  }

  lemma {:induction false} RepeatSorted(t: int, n: nat)
    ensures |Repeat(t, n)| == n && forall i :: 0 <= i < n ==> Repeat(t, n)[i] == t
  {
    if n > 0 {
      RepeatSorted(t, n - 1);
    }
  }

  /** The bound is reached: 1 value, 199 just before the window ends, 200 when it has ended. */
  lemma BoundIsReached() returns (times: seq<int>)
    ensures Sorted(times) && Within(Delivered(FRESH, times), 1) == 399
  {
    var late := Repeat(SECOND - 1, 199);
    var next := [SECOND as int] + Repeat(SECOND, 199);
    times := [0] + (late + next);
    RepeatSorted(SECOND - 1, 199);
    RepeatSorted(SECOND, 199);
    hide Delivered, Within, Repeat;
    FirstArrival(FRESH, times, 1);
    assert times[1..] == late + next;
    RepeatedArrivals(Window(Some(0), 1), SECOND - 1, 199, next, 1);
    FirstArrival(Window(Some(0), 200), next, 1);
    assert next[1..] == Repeat(SECOND, 199) + [];
    RepeatedArrivals(Window(Some(SECOND), 1), SECOND, 199, [], 1);
    NothingLater(Window(Some(SECOND), 200), [], 1);
  }

  // ---- what is never refused --------------------------------------------------------------

  /** Every value but the first 200 comes a second or more after the one 200 places before it. */
  ghost predicate AtMost200ASecond(times: seq<int>) {
    forall i, j :: 0 <= i && j == i + 200 && j < |times| ==> times[j] >= times[i] + 1_000_000_000
  }

  /** The window has counted the last values of a history, and began with the first of these. */
  predicate Counts(w: Window, past: seq<int>) {
    w.start.Some? && 1 <= w.count <= |past| && w.start.value == past[|past| - w.count]
  }

  lemma FullWindowHasEnded(w: Window, past: seq<int>, times: seq<int>)
    requires times != [] && AtMost200ASecond(past + times) && Counts(w, past)
    ensures w.count == 200 ==> Expired(w, times[0])
  {
    if w.count == 200 {
      var all, j := past + times, |past|;
      assert all[j] == times[0] && all[j - 200] == w.start.value;
    }
  }

  lemma {:induction false} NoneRefusedAfter(w: Window, past: seq<int>, times: seq<int>)
    requires AtMost200ASecond(past + times) && (past == [] ==> w == FRESH)
    requires past != [] ==> Counts(w, past) && w.count <= 200
    ensures Refused(w, times) == 0 && Delivered(w, times) == times
    decreases |times|
  {
    if times != [] {
      var next := past + [times[0]];
      var w' := Next(w, times[0]);
      assert past + times == next + times[1..];
      if past != [] {
        FullWindowHasEnded(w, past, times);
      }
      assert Counts(w', next) && w'.count <= 200;
      NoneRefusedAfter(w', next, times[1..]);
      assert times == [times[0]] + times[1..];
    }
  }

  /** Up to the limit nothing is refused: an item with at most 200 values in any second delivers them all. */
  lemma WithinLimitAllIsDelivered(times: seq<int>)
    requires AtMost200ASecond(times)
    ensures Delivered(FRESH, times) == times && Refused(FRESH, times) == 0 && Warnings(FRESH, times) == 0
  {
    assert [] + times == times;
    NoneRefusedAfter(FRESH, [], times);
    WarnedWasRefused(FRESH, times);
  }

  lemma {:induction false} WarnedWasRefused(w: Window, times: seq<int>)
    ensures Warnings(w, times) <= Refused(w, times)
    decreases |times|
  {
    if times != [] {
      WarnedWasRefused(Next(w, times[0]), times[1..]);
    }
  }

  /** A value at least a second after the last one is delivered, whatever was refused before. */
  lemma PauseEndsRefusal(w: Window, past: seq<int>, now: int)
    requires past != [] && Counts(w, past) && now - w.start.value >= 1_000_000_000
    ensures Delivered(w, [now]) == [now]
  {
    assert Delivered(Next(w, now), [now][1..]) == [];
  }

  // ---- counting ---------------------------------------------------------------------------

  /** Every value is delivered or refused. */
  lemma {:induction false} NothingUnaccounted(w: Window, times: seq<int>)
    ensures |Delivered(w, times)| + Refused(w, times) == |times|
    decreases |times|
  {
    if times != [] {
      NothingUnaccounted(Next(w, times[0]), times[1..]);
    }
  }

  predicate Overflows(w: Window) {
    w.count > MAX_ITEM_EVENTS_PER_SECOND
  }

  /** The windows of a run, counted as they end, that got more values than allowed. */
  function OverflowingWindows(w: Window, times: seq<int>): nat
    decreases |times|
  {
    if times == [] then if Overflows(w) then 1 else 0
    else (if Expired(w, times[0]) && Overflows(w) then 1 else 0) + OverflowingWindows(Next(w, times[0]), times[1..])
  }

  lemma {:induction false} WarningsFrom(w: Window, times: seq<int>)
    ensures Warnings(w, times) + (if Overflows(w) then 1 else 0) == OverflowingWindows(w, times)
    decreases |times|
  {
    if times != [] {
      WarningsFrom(Next(w, times[0]), times[1..]);
    }
  }

  /** There is exactly one warning for each window that overflows. */
  lemma OneWarningPerOverflow(times: seq<int>)
    ensures Warnings(FRESH, times) == OverflowingWindows(FRESH, times)
  {
    WarningsFrom(FRESH, times);
  }
}
