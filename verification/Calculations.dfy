/**
 The calculation cycle (src/calculations/calculations.go): every cycle reads the current values of
 all parcels and calculated points, evaluates every formula on that snapshot, and writes the
 results that changed. Arithmetic is on reals.
 */
module Calculations {
  import opened Options

  datatype Point = Point(value: real, invalid: bool)

  datatype Calc = Calc(formula: int, parcels: seq<int>)

  datatype Outcome = NotComputed | Computed(point: Point, transient: bool)

  datatype Update = Update(id: int, point: Point, transient: bool)

  type Database = map<int, Point>

  /** Formulas left open: any function of the formula number and its parcels. */
  type Others = (int, seq<Point>) -> Outcome

  /** Missing points read as zero values do in Go. */
  function Lookup(db: Database, id: int): Point {
    if id in db then db[id] else Point(0.0, false)
  }

  // ---- formulas ---------------------------------------------------------------------------

  /** (2^53 - 1) * 2^971, the largest finite double. */
  const MAX_FLOAT: real :=
    var two97 := 158456325028528675187087900672.0;
    var two485 := two97 * two97 * two97 * two97 * two97;
    9007199254740991.0 * 2.0 * two485 * two485

  predicate AnyInvalid(ps: seq<Point>) {
    exists i :: 0 <= i < |ps| && ps[i].invalid
  }

  predicate AnyValid(ps: seq<Point>) {
    exists i :: 0 <= i < |ps| && !ps[i].invalid
  }

  predicate AnyZero(ps: seq<Point>) {
    exists i :: 0 <= i < |ps| && ps[i].value == 0.0
  }

  predicate AnyNonZero(ps: seq<Point>) {
    exists i :: 0 <= i < |ps| && ps[i].value != 0.0
  }

  function Truth(b: bool): real {
    if b then 1.0 else 0.0
  }

  function Sum(ps: seq<Point>): real {
    if ps == [] then 0.0 else Sum(ps[..|ps| - 1]) + ps[|ps| - 1].value
  }

  function Highest(ps: seq<Point>): (m: real)
    requires ps != []
    ensures (forall i :: 0 <= i < |ps| ==> ps[i].value <= m) && (exists i :: 0 <= i < |ps| && ps[i].value == m)
  {
    var last := ps[|ps| - 1].value;
    if |ps| == 1 then last
    else
      var m := Highest(ps[..|ps| - 1]);
      if last > m then last else m
  }

  function Lowest(ps: seq<Point>): (m: real)
    requires ps != []
    ensures (forall i :: 0 <= i < |ps| ==> m <= ps[i].value) && (exists i :: 0 <= i < |ps| && ps[i].value == m)
  {
    var last := ps[|ps| - 1].value;
    if |ps| == 1 then last
    else
      var m := Lowest(ps[..|ps| - 1]);
      if last < m then last else m
  }

  function Span(ps: seq<Point>): real {
    if ps == [] then -MAX_FLOAT - MAX_FLOAT else Highest(ps) - Lowest(ps)
  }

  /** The last valid parcel, or the first one when none is valid. */
  function Choice(ps: seq<Point>): Point
    requires ps != []
  {
    var last := ps[|ps| - 1];
    if !last.invalid || |ps| == 1 then last else
      var before := Choice(ps[..|ps| - 1]);
      before
  }

  datatype Linear = Linear(weights: seq<real>, constant: real)

  function Signs(s: string): (w: seq<real>)
    ensures |w| == |s| && forall i :: 0 <= i < |s| ==> w[i] == if s[i] == '+' then 1.0 else -1.0
  {
    seq(|s|, i requires 0 <= i < |s| => if s[i] == '+' then 1.0 else -1.0)
  }

  function Dot(w: seq<real>, ps: seq<Point>): real
    requires |w| == |ps|
  {
    if w == [] then 0.0 else w[0] * ps[0].value + Dot(w[1..], ps[1..])
  }

  /** The formulas that weigh a fixed number of parcels. */
  function Weights(formula: int): Option<Linear> {
    match formula
    case 11 => Some(Linear(Signs("+++++++++++++++++++++++") + [0.72], 0.0))
    case 13 =>
      Some(Linear(Signs("++++++++-+++") + [0.52] + Signs("++--+++++") + [0.0, 0.0] + Signs("+++++++++") + [0.2], -1.0))
    case 14 => Some(Linear([10.0 / 6.0], 0.0))
    case 15 | 25673 => Some(Linear(Signs("+-"), 0.0))
    case 16 => Some(Linear(Signs("+--"), 0.0))
    case 17 => Some(Linear(Signs("+---"), 0.0))
    case 18 => Some(Linear(Signs("+-----"), 0.0))
    case 19 => Some(Linear(Signs("++-"), 0.0))
    case 20 => Some(Linear(Signs("+++---"), 0.0))
    case 21 => Some(Linear(Signs("++++-----"), 0.0))
    case 22 => Some(Linear(Signs("++++++---"), 0.0))
    case 23 => Some(Linear(Signs("++++++++++-"), 0.0))
    case 24 => Some(Linear(Signs("+++------"), 0.0))
    case 200 => Some(Linear(Signs("+-------"), 0.0))
    case 201 => Some(Linear(Signs("++++++++---"), 0.0))
    case 205 => Some(Linear(Signs("++---"), 0.0))
    case 206 => Some(Linear(Signs("+--------"), 0.0))
    case 207 => Some(Linear(Signs("++----"), 0.0))
    case 208 => Some(Linear(Signs("+----"), 0.0))
    case 209 => Some(Linear(Signs("++-------"), 0.0))
    case 210 => Some(Linear(Signs("+------"), 0.0))
    case 211 => Some(Linear(Signs("+++++----"), 0.0))
    case 213 => Some(Linear(Signs("+++-"), 0.0))
    case 214 => Some(Linear(Signs("++++-"), 0.0))
    case 215 => Some(Linear(Signs("++--"), 0.0))
    case 217 => Some(Linear(Signs("+++++-"), 0.0))
    case 222 => Some(Linear(Signs("+++----"), 0.0))
    case 223 => Some(Linear(Signs("+++-----"), 0.0))
    case 224 => Some(Linear(Signs("++++++-"), 0.0))
    case 226 | 8055 => Some(Linear(Signs("++------"), 0.0))
    case 227 | 680 => Some(Linear(Signs("+++--"), 0.0))
    case 228 => Some(Linear(Signs("+++---------"), 0.0))
    case 229 => Some(Linear(Signs("+++++++++---"), 0.0))
    case 230 => Some(Linear(Signs("+++++++++-"), 0.0))
    case 232 => Some(Linear(Signs("+++++---"), 0.0))
    case 233 => Some(Linear(Signs("+++++++----"), 0.0))
    case 5022 => Some(Linear(Signs("++"), 0.0))
    case 5041 => Some(Linear(Signs("++-+-"), 0.0))
    case 5043 => Some(Linear(Signs("++++--+--"), 0.0))
    case 5406 => Some(Linear(Signs("-+++++--+++"), 0.0))
    case 5711 => Some(Linear(Signs("----"), 0.0))
    case 7374 => Some(Linear(Signs("+-----------"), 0.0))
    case 202 => Some(Linear([60.0, 1.0], 0.0))
    case 204 => Some(Linear([0.5], 0.0))
    case 5000 => Some(Linear(Signs("+++-") + [-0.6, 1.0], 0.0))
    case 5172 => Some(Linear([-0.72], 0.0))
    case 5173 => Some(Linear([0.38], 0.0))
    case 5174 => Some(Linear([0.14], 0.0))
    case _ => None
  }

  /** Square roots, quotients of parcels and the clock. */
  predicate LeftOpen(formula: int) {
    formula in {1, 2, 3, 5, 8, 9, 55}
  }

  /** These formulas look at their first parcel before they count them. */
  predicate CanEvaluate(formula: int, n: nat) {
    formula in {50, 51, 54} ==> n > 0
  }

  function Abs(x: real): real {
    if x < 0.0 then -x else x
  }

  function Evaluate(formula: int, ps: seq<Point>, others: Others): Outcome
    requires CanEvaluate(formula, |ps|)
  {
    if LeftOpen(formula) then others(formula, ps) else
    match formula
    case 4 => Computed(Point(Sum(ps), AnyInvalid(ps)), false)
    case 6 => Computed(Point(Truth(!AnyZero(ps)), AnyInvalid(ps)), false)
    case 7 | 500 => Computed(Point(Truth(AnyNonZero(ps)), AnyInvalid(ps)), false)
    case 10 => Computed(Point(-Sum(ps), AnyInvalid(ps)), false)
    case 50 | 51 => Computed(Choice(ps), false)
    case 52 => Computed(Point(Truth(AnyValid(ps)), false), false)
    case 53 => Computed(Point(Span(ps), AnyInvalid(ps)), false)
    case 225 => if |ps| <= 1 then Computed(Point(1.0, false), false) else NotComputed
    case _ => EvaluateFixed(formula, ps)
  }

  /** Formulas of one, two or three parcels with a decision in them, and the weighted sums. */
  function EvaluateFixed(formula: int, ps: seq<Point>): Outcome {
    match formula
    case 26 =>
      if |ps| != 2 then NotComputed else
      var a := Abs(ps[0].value);
      Computed(Point(if a <= 0.5 then 1.0 else if a > 1.4 then 0.0 else ps[1].value, AnyInvalid(ps)), false)
    case 54 =>
      if |ps| != 2 then NotComputed else
      var x, y := ps[0].value, ps[1].value;
      var state := if x == 0.0 && y != 0.0 then 0.0 else if x != 0.0 && y == 0.0 then 1.0 else x;
      Computed(Point(state, x == y || AnyInvalid(ps)), x == y)
    case 203 =>
      if |ps| != 3 then NotComputed else Computed(if ps[0].value != 0.0 then ps[2] else ps[1], false)
    case 216 =>
      if |ps| != 3 then NotComputed
      else Computed(Point(Truth(ps[1].value <= ps[0].value <= ps[2].value), ps[0].invalid), false)
    case 218 =>
      if |ps| != 3 then NotComputed
      else Computed(Point(Truth(ps[1].value < ps[0].value <= ps[2].value), ps[0].invalid), false)
    case 219 =>
      if |ps| != 3 then NotComputed
      else Computed(Point(Truth(ps[1].value <= ps[0].value < ps[2].value), ps[0].invalid), false)
    case 220 => if |ps| != 2 then NotComputed else Computed(Point(Lowest(ps), AnyInvalid(ps)), false)
    case 221 => if |ps| != 2 then NotComputed else Computed(Point(Highest(ps), AnyInvalid(ps)), false)
    case 231 =>
      if |ps| != 1 then NotComputed
      else Computed(Point(if ps[0].value > 0.0 then 0.0 else ps[0].value, ps[0].invalid), false)
    case _ =>
      match Weights(formula)
      case None => NotComputed
      case Some(l) =>
        if |ps| != |l.weights| then NotComputed
        else Computed(Point(Dot(l.weights, ps) + l.constant, AnyInvalid(ps)), false)
  }

  /** The comment asks for the first valid parcel; the loop keeps the last one. */
  lemma {:induction false} ChoiceIsLastValid(ps: seq<Point>)
    requires ps != []
    ensures Choice(ps).invalid ==> !AnyValid(ps)
    ensures AnyValid(ps) ==> exists i ::
      0 <= i < |ps| && Choice(ps) == ps[i] && !ps[i].invalid && forall j :: i < j < |ps| ==> ps[j].invalid
    ensures !AnyValid(ps) ==> Choice(ps) == ps[0]
  {
    var n := |ps| - 1;
    if n > 0 && ps[n].invalid {
      ChoiceIsLastValid(ps[..n]);
      if AnyValid(ps) {
        var k :| 0 <= k < |ps| && !ps[k].invalid;
        assert !ps[..n][k].invalid;
      }
      if AnyValid(ps[..n]) {
        var i :| 0 <= i < n && Choice(ps[..n]) == ps[..n][i] && !ps[..n][i].invalid
          && forall j :: i < j < n ==> ps[..n][j].invalid;
        assert forall j :: i < j < n ==> ps[j] == ps[..n][j];
        assert Choice(ps) == ps[i];
      }
    }
  }

  /** Is this the first, or the last, valid parcel? */
  predicate FirstValid(ps: seq<Point>, i: nat) {
    i < |ps| && !ps[i].invalid && forall j :: 0 <= j < i ==> ps[j].invalid
  }

  predicate LastValid(ps: seq<Point>, i: nat) {
    i < |ps| && !ps[i].invalid && forall j :: i < j < |ps| ==> ps[j].invalid
  }

  /** The choice meets its comment exactly when the first and the last valid parcel have the same value. */
  lemma ChoiceMeetsCommentIff(ps: seq<Point>, first: nat, last: nat)
    requires FirstValid(ps, first) && LastValid(ps, last)
    ensures Choice(ps) == ps[first] <==> ps[first].value == ps[last].value
  {
    ChoiceIsLastValid(ps);
    assert AnyValid(ps);
    var i :| 0 <= i < |ps| && Choice(ps) == ps[i] && !ps[i].invalid && forall j :: i < j < |ps| ==> ps[j].invalid;
    assert i == last;
  }

  lemma ChoiceIsNotFirstValid()
    ensures Choice([Point(1.0, false), Point(2.0, false)]) == Point(2.0, false)
  {
  }

  /** The sum of the parcels written with the given sign. */
  function Marked(s: string, plus: bool, ps: seq<Point>): real
    requires |s| == |ps|
  {
    if s == "" then 0.0
    else (if (s[0] == '+') == plus then ps[0].value else 0.0) + Marked(s[1..], plus, ps[1..])
  }

  /** A formula of plus and minus signs adds the parcels of the one kind and subtracts the others. */
  lemma {:induction false} SignsAddAndSubtract(s: string, ps: seq<Point>)
    requires |s| == |ps|
    ensures Dot(Signs(s), ps) == Marked(s, true, ps) - Marked(s, false, ps)
  {
    if s != "" {
      assert Signs(s)[1..] == Signs(s[1..]);
      SignsAddAndSubtract(s[1..], ps[1..]);
    }
  }

  // ---- formulas that differ from their comments ---------------------------------------------

  lemma {:induction false} DotSubtracts(w: seq<real>, ps: seq<Point>, i: nat)
    requires |w| == |ps| && i < |w| && w[i] == 0.0
    ensures Dot(w[i := -1.0], ps) == Dot(w, ps) - ps[i].value
  {
    var u := w[i := -1.0];
    if i > 0 {
      assert u[1..] == w[1..][i - 1 := -1.0];
      DotSubtracts(w[1..], ps[1..], i - 1);
    } else {
      assert u[1..] == w[1..];
    }
  }

  /** Formula 13 by its comment: parcels 23 and 24 are subtracted. */
  function Commented13(): (w: seq<real>)
    ensures |w| == 34
  {
    Weights(13).value.weights[22 := -1.0][23 := -1.0]
  }

  lemma Weights13()
    ensures Weights(13).Some? && |Weights(13).value.weights| == 34 && Weights(13).value.constant == -1.0
    ensures Weights(13).value.weights[22] == 0.0 && Weights(13).value.weights[23] == 0.0
  {
  }

  lemma Evaluates13(ps: seq<Point>, others: Others)
    requires |ps| == 34
    ensures Weights(13).Some? && |Weights(13).value.weights| == 34
    ensures var o := Evaluate(13, ps, others); o.Computed? && o.point.value == Dot(Weights(13).value.weights, ps) - 1.0
  {
    Weights13();
    hide Weights, Dot;
  }

  /** The code adds these two parcels again, so it meets the comment exactly when they cancel out. */
  lemma Formula13MeetsCommentIff(ps: seq<Point>, others: Others)
    requires |ps| == 34
    ensures var o := Evaluate(13, ps, others);
      o.Computed? && (o.point.value == Dot(Commented13(), ps) - 1.0 <==> ps[22].value + ps[23].value == 0.0)
  {
    Evaluates13(ps, others);
    Weights13();
    hide Weights, Dot, Evaluate;
    var w := Weights(13).value.weights;
    DotSubtracts(w, ps, 22);
    DotSubtracts(w[22 := -1.0], ps, 23);
  }

  /** Formula 5022 is commented as P1 + 0.65 * P2; the code does not weigh the second parcel. */
  lemma Formula5022MeetsCommentIff(ps: seq<Point>, others: Others)
    requires |ps| == 2
    ensures var o := Evaluate(5022, ps, others);
      o.Computed? && (o.point.value == ps[0].value + 0.65 * ps[1].value <==> ps[1].value == 0.0)
  {
    var w := Signs("++");
    assert Dot(w[1..], ps[1..]) == w[1..][0] * ps[1..][0].value + Dot(w[1..][1..], ps[1..][1..]);
    assert Dot(w, ps) == ps[0].value + ps[1].value;
  }

  // ---- formulas as the cycle computes them ------------------------------------------------

  function Reading(vals: map<int, real>, invalids: map<int, bool>, id: int): Point {
    Point(if id in vals then vals[id] else 0.0, if id in invalids then invalids[id] else false)
  }

  function Readings(vals: map<int, real>, invalids: map<int, bool>, ids: seq<int>): (ps: seq<Point>)
    ensures |ps| == |ids| && forall i :: 0 <= i < |ids| ==> ps[i] == Reading(vals, invalids, ids[i])
  {
    seq(|ids|, i requires 0 <= i < |ids| => Reading(vals, invalids, ids[i]))
  }

  method Accumulate(formula: int, ps: seq<Point>) returns (o: Outcome)
    requires formula in {4, 10}
    ensures o == Computed(Point(if formula == 4 then Sum(ps) else -Sum(ps), AnyInvalid(ps)), false)
  {
    var val, invalid := 0.0, false;
    for i := 0 to |ps|
      invariant val == if formula == 4 then Sum(ps[..i]) else -Sum(ps[..i])
      invariant invalid == exists j :: 0 <= j < i && ps[j].invalid
    {
      assert ps[..i + 1][..i] == ps[..i];
      val := if formula == 4 then val + ps[i].value else val - ps[i].value;
      invalid := invalid || ps[i].invalid;
    }
    assert ps[..|ps|] == ps;
    o := Computed(Point(val, invalid), false);
  }

  method Combine(formula: int, ps: seq<Point>) returns (o: Outcome)
    requires formula in {6, 7, 500}
    ensures o == Computed(Point(Truth(if formula == 6 then !AnyZero(ps) else AnyNonZero(ps)), AnyInvalid(ps)), false)
  {
    var val, invalid := if formula == 6 then 1.0 else 0.0, false;
    for i := 0 to |ps|
      invariant val == Truth(if formula == 6 then !AnyZero(ps[..i]) else AnyNonZero(ps[..i]))
      invariant invalid == AnyInvalid(ps[..i])
    {
      AnyGrows(ps, i);
      if formula == 6 {
        if ps[i].value == 0.0 {
          val := 0.0;
        }
      } else if ps[i].value != 0.0 {
        val := 1.0;
      }
      invalid := invalid || ps[i].invalid;
    }
    assert ps[..|ps|] == ps;
    o := Computed(Point(val, invalid), false);
  }

  lemma AnyGrows(ps: seq<Point>, i: nat)
    requires i < |ps|
    ensures AnyZero(ps[..i + 1]) == (AnyZero(ps[..i]) || ps[i].value == 0.0)
    ensures AnyNonZero(ps[..i + 1]) == (AnyNonZero(ps[..i]) || ps[i].value != 0.0)
    ensures AnyInvalid(ps[..i + 1]) == (AnyInvalid(ps[..i]) || ps[i].invalid)
    ensures AnyValid(ps[..i + 1]) == (AnyValid(ps[..i]) || !ps[i].invalid)
  {
    var now, was := ps[..i + 1], ps[..i];
    assert now[i] == ps[i] && forall j :: 0 <= j < i ==> now[j] == was[j];
  }

  method Choose(ps: seq<Point>) returns (o: Outcome)
    requires ps != []
    ensures o == Computed(Choice(ps), false)
  {
    var invalid, val := ps[0].invalid, ps[0].value;
    for i := 0 to |ps|
      invariant Point(val, invalid) == if i == 0 then ps[0] else Choice(ps[..i])
    {
      assert ps[..i + 1][..i] == ps[..i];
      if i > 0 {
        ChoiceIsLastValid(ps[..i]);
      }
      if !ps[i].invalid {
        val, invalid := ps[i].value, false;
      }
    }
    assert ps[..|ps|] == ps;
    o := Computed(Point(val, invalid), false);
  }

  method AnyOk(ps: seq<Point>) returns (o: Outcome)
    ensures o == Computed(Point(Truth(AnyValid(ps)), false), false)
  {
    var val := 0.0;
    for i := 0 to |ps|
      invariant val == Truth(AnyValid(ps[..i]))
    {
      AnyGrows(ps, i);
      if !ps[i].invalid {
        val := 1.0;
      }
    }
    assert ps[..|ps|] == ps;
    o := Computed(Point(val, false), false);
  }

  predicate InRange(p: Point) {
    -MAX_FLOAT <= p.value <= MAX_FLOAT
  }

  method MaxSpan(ps: seq<Point>) returns (o: Outcome)
    requires forall i :: 0 <= i < |ps| ==> InRange(ps[i])
    ensures o == Computed(Point(Span(ps), AnyInvalid(ps)), false)
  {
    var max, min, invalid := -MAX_FLOAT, MAX_FLOAT, false;
    for i := 0 to |ps|
      invariant i == 0 ==> max == -MAX_FLOAT && min == MAX_FLOAT
      invariant i > 0 ==> max == Highest(ps[..i]) && min == Lowest(ps[..i])
      invariant invalid == AnyInvalid(ps[..i])
    {
      AnyGrows(ps, i);
      assert ps[..i + 1][..i] == ps[..i];
      if ps[i].value > max {
        max := ps[i].value;
      }
      if ps[i].value < min {
        min := ps[i].value;
      }
      invalid := invalid || ps[i].invalid;
    }
    assert ps[..|ps|] == ps;
    o := Computed(Point(max - min, invalid), false);
  }

  /** Formulas that decide by the first parcel. */
  method Decide(formula: int, ps: seq<Point>) returns (o: Outcome)
    requires formula in {26, 54, 203, 231}
    ensures o == EvaluateFixed(formula, ps)
  {
    o := NotComputed;
    if formula == 26 {
      if |ps| == 2 {
        var val := ps[1].value;
        if Abs(ps[0].value) > 1.4 {
          val := 0.0;
        }
        if Abs(ps[0].value) <= 0.5 {
          val := 1.0;
        }
        o := Computed(Point(val, ps[0].invalid || ps[1].invalid), false);
      }
    } else if formula == 54 {
      if |ps| == 2 {
        o := DoublePoint(ps);
      }
    } else if formula == 203 {
      if |ps| == 3 {
        if ps[0].value != 0.0 {
          o := Computed(Point(ps[2].value, ps[2].invalid), false);
        } else {
          o := Computed(Point(ps[1].value, ps[1].invalid), false);
        }
      }
    } else if |ps| == 1 {
      var val := ps[0].value;
      if ps[0].value > 0.0 {
        val := 0.0;
      }
      o := Computed(Point(val, ps[0].invalid), false);
    }
  }

  method DoublePoint(ps: seq<Point>) returns (o: Outcome)
    requires |ps| == 2
    ensures o == EvaluateFixed(54, ps)
  {
    var val, invalid, transient := ps[0].value, false, false;
    if ps[0].value == 0.0 && ps[1].value != 0.0 {
      val := 0.0;
    }
    if ps[0].value != 0.0 && ps[1].value == 0.0 {
      val := 1.0;
    }
    if ps[0].value == ps[1].value {
      transient := true;
      invalid := true;
    }
    invalid := invalid || ps[0].invalid || ps[1].invalid;
    o := Computed(Point(val, invalid), transient);
  }

  /** Formulas that compare the first parcel with the others. */
  method Compare(formula: int, ps: seq<Point>) returns (o: Outcome)
    requires formula in {216, 218, 219, 220, 221}
    ensures o == EvaluateFixed(formula, ps)
  {
    if formula == 220 || formula == 221 {
      if |ps| != 2 {
        return NotComputed;
      }
      var val := ps[0].value;
      if formula == 220 && ps[1].value < ps[0].value {
        val := ps[1].value;
      }
      if formula == 221 && ps[1].value > ps[0].value {
        val := ps[1].value;
      }
      ExtremesOfTwo(ps);
      return Computed(Point(val, ps[0].invalid || ps[1].invalid), false);
    }
    if |ps| != 3 {
      return NotComputed;
    }
    var val := 0.0;
    var a, lo, hi := ps[0].value, ps[1].value, ps[2].value;
    if (lo < a || (formula != 218 && lo == a)) && (a < hi || (formula != 219 && a == hi)) {
      val := 1.0;
    }
    o := Computed(Point(val, ps[0].invalid), false);
  }

  lemma ExtremesOfTwo(ps: seq<Point>)
    requires |ps| == 2
    ensures Lowest(ps) == if ps[1].value < ps[0].value then ps[1].value else ps[0].value
    ensures Highest(ps) == if ps[1].value > ps[0].value then ps[1].value else ps[0].value
  {
  }

  /** Formulas that weigh their parcels. */
  method Weigh(formula: int, ps: seq<Point>) returns (o: Outcome)
    requires formula !in {26, 54, 203, 216, 218, 219, 220, 221, 231}
    ensures o == EvaluateFixed(formula, ps)
  {
    hide Weights;
    var l := Weights(formula);
    if l.None? || |ps| != |l.value.weights| {
      return NotComputed;
    }
    o := Computed(Point(Dot(l.value.weights, ps) + l.value.constant, AnyInvalid(ps)), false);
  }

  /** The interval formulas differ exactly at the ends of the interval. */
  lemma IntervalsDifferAtEnds(ps: seq<Point>, others: Others)
    requires |ps| == 3 && ps[1].value <= ps[2].value
    ensures var closed := Evaluate(216, ps, others);
      var openLow, openHigh := Evaluate(218, ps, others), Evaluate(219, ps, others);
      && (closed == openLow <==> ps[0].value != ps[1].value)
      && (closed == openHigh <==> ps[0].value != ps[2].value)
      && (openLow == openHigh <==> (ps[0].value == ps[1].value <==> ps[0].value == ps[2].value))
  {
  }

  /**
   Two single points give a double one: opposite valid signals give the state of the first,
   equal ones are in transition and invalid.
   */
  lemma DoublePointFromTwo(on: bool, off: bool, others: Others)
    ensures Evaluate(54, [Point(Truth(on), false), Point(Truth(off), false)], others)
      == Computed(Point(Truth(on), on == off), on == off)
  {
  }

  /** Of two parcels the lower and the higher one are chosen, so both formulas together keep the sum. */
  lemma LowerAndHigher(ps: seq<Point>, others: Others)
    requires |ps| == 2
    ensures var lo, hi := Evaluate(220, ps, others), Evaluate(221, ps, others);
      && lo.Computed? && hi.Computed? && lo.point.value <= hi.point.value
      && lo.point.value + hi.point.value == ps[0].value + ps[1].value
      && (lo.point.value == ps[0].value || lo.point.value == ps[1].value)
      && (lo.point.invalid <==> ps[0].invalid || ps[1].invalid)
  {
    ExtremesOfTwo(ps);
  }

  // ---- what the formulas give ---------------------------------------------------------------

  /** A result that is not transient, invalid exactly when some parcel is. */
  predicate Plainly(o: Outcome, value: real, ps: seq<Point>) {
    o.Computed? && o.point.value == value && !o.transient && (o.point.invalid <==> AnyInvalid(ps))
  }

  /** Formulas 4 and 10: nothing gives zero, and each further parcel is added, or subtracted. */
  lemma SumFormulas(ps: seq<Point>, p: Point, others: Others)
    ensures Plainly(Evaluate(4, [], others), 0.0, []) && Plainly(Evaluate(10, [], others), 0.0, [])
    ensures var sum := Evaluate(4, ps, others);
      && sum.Computed? && Plainly(Evaluate(4, ps + [p], others), sum.point.value + p.value, ps + [p])
      && Plainly(Evaluate(10, ps, others), -sum.point.value, ps)
  {
    assert (ps + [p])[..|ps|] == ps;
  }

  /** Formula 6 is one if every parcel is other than zero, 7 and 500 if some parcel is, 52 if some is valid. */
  lemma LogicFormulas(ps: seq<Point>, others: Others)
    ensures Plainly(Evaluate(6, ps, others), if forall i :: 0 <= i < |ps| ==> ps[i].value != 0.0 then 1.0 else 0.0, ps)
    ensures forall f :: f in {7, 500} ==>
      Plainly(Evaluate(f, ps, others), if exists i :: 0 <= i < |ps| && ps[i].value != 0.0 then 1.0 else 0.0, ps)
    ensures Evaluate(52, ps, others)
      == Computed(Point(if exists i :: 0 <= i < |ps| && !ps[i].invalid then 1.0 else 0.0, false), false)
  {
  }

  /** Formulas 50 and 51 give the last valid parcel, or the first one if none is valid. */
  lemma ChoiceFormulas(formula: int, ps: seq<Point>, last: nat, others: Others)
    requires formula in {50, 51} && ps != []
    ensures LastValid(ps, last) ==> Evaluate(formula, ps, others) == Computed(ps[last], false)
    ensures (forall i :: 0 <= i < |ps| ==> ps[i].invalid) ==> Evaluate(formula, ps, others) == Computed(ps[0], false)
  {
    ChoiceIsLastValid(ps);
    if LastValid(ps, last) {
      assert AnyValid(ps);
      var i :| 0 <= i < |ps| && Choice(ps) == ps[i] && !ps[i].invalid && forall j :: i < j < |ps| ==> ps[j].invalid;
      assert i == last;
    }
  }

  /** Formula 53 gives the largest difference of two parcels. */
  lemma SpanFormula(ps: seq<Point>, others: Others)
    requires ps != []
    ensures var o := Evaluate(53, ps, others);
      && o.Computed? && Plainly(o, o.point.value, ps)
      && (exists i, j :: 0 <= i < |ps| && 0 <= j < |ps| && o.point.value == ps[i].value - ps[j].value)
      && (forall i, j :: 0 <= i < |ps| && 0 <= j < |ps| ==> ps[i].value - ps[j].value <= o.point.value)
  {
    var i :| 0 <= i < |ps| && ps[i].value == Highest(ps);
    var j :| 0 <= j < |ps| && ps[j].value == Lowest(ps);
    assert Evaluate(53, ps, others).point.value == ps[i].value - ps[j].value;
  }

  /** Formula 26 takes the second parcel where the first is larger than 0.5 and at most 1.4 in magnitude. */
  lemma MiddleBandFormula(ps: seq<Point>, others: Others)
    requires |ps| == 2
    ensures var x := ps[0].value;
      Plainly(Evaluate(26, ps, others),
        if -0.5 <= x <= 0.5 then 1.0 else if -1.4 <= x <= 1.4 then ps[1].value else 0.0, ps)
  {
  }

  /** Formula 203 selects by the first parcel, 231 cuts off what is positive, 225 is one. */
  lemma SelectionFormulas(ps: seq<Point>, others: Others)
    ensures |ps| == 3 ==> Evaluate(203, ps, others) == Computed(if ps[0].value == 0.0 then ps[1] else ps[2], false)
    ensures |ps| == 1 ==>
      var o := Evaluate(231, ps, others);
      && Plainly(o, o.point.value, ps) && o.point.value <= 0.0 && o.point.value <= ps[0].value
      && (o.point.value == 0.0 || o.point.value == ps[0].value)
    ensures |ps| <= 1 ==> Evaluate(225, ps, others) == Computed(Point(1.0, false), false)
  {
  }

  /** Formula 54: the first signal's value, but one where only the second is zero; transient if both are equal. */
  lemma DoublePointFormula(ps: seq<Point>, others: Others)
    requires |ps| == 2
    ensures var o := Evaluate(54, ps, others);
      && o.Computed? && (o.transient <==> ps[0].value == ps[1].value)
      && (o.point.invalid <==> ps[0].value == ps[1].value || ps[0].invalid || ps[1].invalid)
      && o.point.value == if ps[1].value == 0.0 && ps[0].value != 0.0 then 1.0 else ps[0].value
  {
  }

  /** Formulas 216, 218 and 219 are one exactly inside their interval, and as valid as the first parcel. */
  lemma IntervalFormulas(ps: seq<Point>, others: Others)
    requires |ps| == 3
    ensures var a, lo, hi := ps[0].value, ps[1].value, ps[2].value;
      && Evaluate(216, ps, others) == Computed(Point(if lo <= a && a <= hi then 1.0 else 0.0, ps[0].invalid), false)
      && Evaluate(218, ps, others) == Computed(Point(if lo < a && a <= hi then 1.0 else 0.0, ps[0].invalid), false)
      && Evaluate(219, ps, others) == Computed(Point(if lo <= a && a < hi then 1.0 else 0.0, ps[0].invalid), false)
  {
  }

  lemma {:induction false} SumFirst(ps: seq<Point>)
    requires ps != []
    ensures Sum(ps) == ps[0].value + Sum(ps[1..])
  {
    if |ps| > 1 {
      var n := |ps| - 1;
      SumFirst(ps[..n]);
      assert ps[..n][1..] == ps[1..][..n - 1];
    }
  }

  lemma {:induction false} DotSplit(w: seq<real>, ps: seq<Point>, i: nat)
    requires |w| == |ps| && i <= |w|
    ensures Dot(w, ps) == Dot(w[..i], ps[..i]) + Dot(w[i..], ps[i..])
  {
    if i > 0 {
      DotSplit(w[1..], ps[1..], i - 1);
      assert w[..i][1..] == w[1..][..i - 1] && ps[..i][1..] == ps[1..][..i - 1];
      assert w[1..][i - 1..] == w[i..] && ps[1..][i - 1..] == ps[i..];
    } else {
      assert w[0..] == w && ps[0..] == ps;
    }
  }

  /** Equal weights weigh the sum. */
  lemma {:induction false} DotConstant(w: seq<real>, ps: seq<Point>, x: real)
    requires |w| == |ps| && forall i :: 0 <= i < |w| ==> w[i] == x
    ensures Dot(w, ps) == x * Sum(ps)
  {
    if w != [] {
      SumFirst(ps);
      DotConstant(w[1..], ps[1..], x);
      Distributes(x, ps[0].value, Sum(ps[1..]));
    }
  }

  lemma Distributes(x: real, a: real, b: real)
    ensures x * (a + b) == x * a + x * b
  {
  }

  /** The sum of the parcels from number i + 1 to number j. */
  function Part(ps: seq<Point>, i: nat, j: nat): real
    requires i <= j <= |ps|
  {
    Sum(ps[i..j])
  }

  /** The weights from i to j are all x. */
  predicate Flat(w: seq<real>, i: nat, j: nat, x: real) {
    i <= j <= |w| && forall k :: i <= k < j ==> w[k] == x
  }

  /** Takes one stretch of equal weights off the front of what is left. */
  lemma NextPart(w: seq<real>, ps: seq<Point>, i: nat, j: nat, x: real)
    requires |w| == |ps| && Flat(w, i, j, x)
    ensures Dot(w[i..], ps[i..]) == x * Part(ps, i, j) + Dot(w[j..], ps[j..])
  {
    hide Dot, Sum;
    var wi, pi, n := w[i..], ps[i..], j - i;
    DotSplit(wi, pi, n);
    Slices(w, i, j);
    Slices(ps, i, j);
    FlatSlice(w, i, j, x);
    DotConstant(w[i..j], ps[i..j], x);
    assert Dot(wi[..n], pi[..n]) == Dot(w[i..j], ps[i..j]);
    assert Dot(wi[n..], pi[n..]) == Dot(w[j..], ps[j..]);
  }

  lemma FlatSlice(w: seq<real>, i: nat, j: nat, x: real)
    requires Flat(w, i, j, x)
    ensures forall k :: 0 <= k < |w[i..j]| ==> w[i..j][k] == x
  {
  }

  lemma Slices<T>(s: seq<T>, i: nat, j: nat)
    requires i <= j <= |s|
    ensures s[i..][..j - i] == s[i..j] && s[i..][j - i..] == s[j..]
  {
  }

  lemma WholeDot(w: seq<real>, ps: seq<Point>)
    requires |w| == |ps|
    ensures Dot(w[0..], ps[0..]) == Dot(w, ps) && Dot(w[|w|..], ps[|w|..]) == 0.0
  {
    assert w[0..] == w && ps[0..] == ps;
  }

  /** The formula adds its first a parcels and subtracts the other b. */
  predicate AddsThenSubtracts(formula: int, a: nat, b: nat) {
    match formula
    case 15 | 25673 => (a, b) == (1, 1)
    case 16 => (a, b) == (1, 2)
    case 17 => (a, b) == (1, 3)
    case 208 => (a, b) == (1, 4)
    case 18 => (a, b) == (1, 5)
    case 210 => (a, b) == (1, 6)
    case 200 => (a, b) == (1, 7)
    case 206 => (a, b) == (1, 8)
    case 7374 => (a, b) == (1, 11)
    case 5022 => (a, b) == (2, 0)
    case 19 => (a, b) == (2, 1)
    case 215 => (a, b) == (2, 2)
    case 205 => (a, b) == (2, 3)
    case 207 => (a, b) == (2, 4)
    case 226 | 8055 => (a, b) == (2, 6)
    case 209 => (a, b) == (2, 7)
    case 213 => (a, b) == (3, 1)
    case 227 | 680 => (a, b) == (3, 2)
    case 20 => (a, b) == (3, 3)
    case 222 => (a, b) == (3, 4)
    case 223 => (a, b) == (3, 5)
    case 24 => (a, b) == (3, 6)
    case 228 => (a, b) == (3, 9)
    case 214 => (a, b) == (4, 1)
    case 21 => (a, b) == (4, 5)
    case 217 => (a, b) == (5, 1)
    case 232 => (a, b) == (5, 3)
    case 211 => (a, b) == (5, 4)
    case 224 => (a, b) == (6, 1)
    case 22 => (a, b) == (6, 3)
    case 233 => (a, b) == (7, 4)
    case 201 => (a, b) == (8, 3)
    case 230 => (a, b) == (9, 1)
    case 229 => (a, b) == (9, 3)
    case 23 => (a, b) == (10, 1)
    case 5711 => (a, b) == (0, 4)
    case _ => false
  }

  /** The weights that add a parcels and subtract b. */
  predicate IsPlusMinus(l: Option<Linear>, a: nat, b: nat) {
    && l.Some? && l.value.constant == 0.0 && |l.value.weights| == a + b
    && Flat(l.value.weights, 0, a, 1.0) && Flat(l.value.weights, a, a + b, -1.0)
  }

  lemma OneAddedFewSubtracted(formula: int, a: nat, b: nat)
    requires AddsThenSubtracts(formula, a, b) && a == 1 && b < 5
    ensures IsPlusMinus(Weights(formula), a, b)
  {
    hide Signs;
  }

  lemma OneAddedManySubtracted(formula: int, a: nat, b: nat)
    requires AddsThenSubtracts(formula, a, b) && a == 1 && b >= 5
    ensures IsPlusMinus(Weights(formula), a, b)
  {
    hide Signs;
  }

  lemma TwoAddedHardlySubtracted(formula: int, a: nat, b: nat)
    requires AddsThenSubtracts(formula, a, b) && a == 2 && b < 2
    ensures IsPlusMinus(Weights(formula), a, b)
  {
    hide Signs;
  }

  lemma TwoAddedFewSubtracted(formula: int, a: nat, b: nat)
    requires AddsThenSubtracts(formula, a, b) && a == 2 && 2 <= b < 4
    ensures IsPlusMinus(Weights(formula), a, b)
  {
    hide Signs;
  }

  lemma TwoAddedManySubtracted(formula: int, a: nat, b: nat)
    requires AddsThenSubtracts(formula, a, b) && a == 2 && b >= 4
    ensures IsPlusMinus(Weights(formula), a, b)
  {
    hide Signs;
  }

  lemma ThreeAddedFewSubtracted(formula: int, a: nat, b: nat)
    requires AddsThenSubtracts(formula, a, b) && a == 3 && b < 4
    ensures IsPlusMinus(Weights(formula), a, b)
  {
    hide Signs;
  }

  lemma ThreeAddedManySubtracted(formula: int, a: nat, b: nat)
    requires AddsThenSubtracts(formula, a, b) && a == 3 && b >= 4
    ensures IsPlusMinus(Weights(formula), a, b)
  {
    hide Signs;
  }

  lemma FourOrFiveAdded(formula: int, a: nat, b: nat)
    requires AddsThenSubtracts(formula, a, b) && 4 <= a <= 5
    ensures IsPlusMinus(Weights(formula), a, b)
  {
    hide Signs;
  }

  lemma SixOrSevenAdded(formula: int, a: nat, b: nat)
    requires AddsThenSubtracts(formula, a, b) && 6 <= a <= 7
    ensures IsPlusMinus(Weights(formula), a, b)
  {
    hide Signs;
  }

  lemma EightOrNoneAdded(formula: int, a: nat, b: nat)
    requires AddsThenSubtracts(formula, a, b) && (a == 8 || a == 0)
    ensures IsPlusMinus(Weights(formula), a, b)
  {
    hide Signs;
  }

  lemma NineAdded(formula: int, a: nat, b: nat)
    requires AddsThenSubtracts(formula, a, b) && a >= 9
    ensures IsPlusMinus(Weights(formula), a, b)
  {
    hide Signs;
  }

  lemma WeightsOfSigns(formula: int, a: nat, b: nat)
    requires AddsThenSubtracts(formula, a, b)
    ensures IsPlusMinus(Weights(formula), a, b)
  {
    hide AddsThenSubtracts, Weights, IsPlusMinus;
    if a == 1 && b < 5 {
      OneAddedFewSubtracted(formula, a, b);
    } else if a == 1 && b >= 5 {
      OneAddedManySubtracted(formula, a, b);
    } else if a == 2 && b < 2 {
      TwoAddedHardlySubtracted(formula, a, b);
    } else if a == 2 && b < 4 {
      TwoAddedFewSubtracted(formula, a, b);
    } else if a == 2 && b >= 4 {
      TwoAddedManySubtracted(formula, a, b);
    } else if a == 3 && b < 4 {
      ThreeAddedFewSubtracted(formula, a, b);
    } else if a == 3 && b >= 4 {
      ThreeAddedManySubtracted(formula, a, b);
    } else if 4 <= a <= 5 {
      FourOrFiveAdded(formula, a, b);
    } else if 6 <= a <= 7 {
      SixOrSevenAdded(formula, a, b);
    } else if a == 8 || a == 0 {
      EightOrNoneAdded(formula, a, b);
    } else {
      NineAdded(formula, a, b);
    }
  }

  /** Outside the loops and decisions a formula is its weighted sum. */
  predicate Weighted(formula: int) {
    Weights(formula).Some? && formula !in {1, 2, 3, 4, 5, 6, 7, 8, 9, 10, 26, 50, 51, 52, 53, 54, 55}
      && formula !in {203, 216, 218, 219, 220, 221, 225, 231, 500}
  }

  lemma EvaluatesWeights(formula: int, ps: seq<Point>, others: Others)
    requires Weighted(formula)
    ensures CanEvaluate(formula, |ps|)
    ensures var l := Weights(formula).value;
      && (Evaluate(formula, ps, others).Computed? <==> |ps| == |l.weights|)
      && (|ps| == |l.weights| ==> Plainly(Evaluate(formula, ps, others), Dot(l.weights, ps) + l.constant, ps))
  {
    hide Weights, Dot, Sum, Highest, Lowest, Choice, Span;
  }

  /** A formula of signs applies to a + b parcels, and is the sum of the first a less that of the others. */
  lemma PlusMinusFormulas(formula: int, a: nat, b: nat, ps: seq<Point>, others: Others)
    requires AddsThenSubtracts(formula, a, b)
    ensures CanEvaluate(formula, |ps|)
    ensures Evaluate(formula, ps, others).Computed? <==> |ps| == a + b
    ensures |ps| == a + b ==> Plainly(Evaluate(formula, ps, others), Part(ps, 0, a) - Part(ps, a, a + b), ps)
  {
    WeightsOfSigns(formula, a, b);
    SignsAreWeighted(formula, a, b);
    hide Weights, Dot, Sum, Evaluate, AddsThenSubtracts, Weighted;
    EvaluatesWeights(formula, ps, others);
    if |ps| == a + b {
      var w := Weights(formula).value.weights;
      WholeDot(w, ps);
      NextPart(w, ps, 0, a, 1.0);
      NextPart(w, ps, a, a + b, -1.0);
    }
  }

  lemma SignsAreWeighted(formula: int, a: nat, b: nat)
    requires AddsThenSubtracts(formula, a, b) && Weights(formula).Some?
    ensures Weighted(formula)
  {
    hide Weights;
  }

  // ---- formulas with other weights ------------------------------------------------------------

  lemma Weights5041Are()
    ensures Weighted(5041) && Weights(5041).Some? && Weights(5041).value.constant == 0.0
    ensures var w := Weights(5041).value.weights;
      && |w| == 5
      && Flat(w, 0, 2, 1.0) && Flat(w, 2, 3, -1.0) && Flat(w, 3, 4, 1.0) && Flat(w, 4, 5, -1.0)
  {
    hide Signs;
  }

  lemma Formula5041(ps: seq<Point>, others: Others)
    requires |ps| == 5
    ensures Plainly(Evaluate(5041, ps, others),
        Part(ps, 0, 2) - Part(ps, 2, 3) + Part(ps, 3, 4) - Part(ps, 4, 5), ps)
  {
    Weights5041Are();
    hide Weights, Dot, Sum, Evaluate, Weighted, Part;
    EvaluatesWeights(5041, ps, others);
    var w := Weights(5041).value.weights;
    WholeDot(w, ps);
    NextPart(w, ps, 0, 2, 1.0);
    NextPart(w, ps, 2, 3, -1.0);
    NextPart(w, ps, 3, 4, 1.0);
    NextPart(w, ps, 4, 5, -1.0);
  }

  lemma Weights5043Are()
    ensures Weighted(5043) && Weights(5043).Some? && Weights(5043).value.constant == 0.0
    ensures var w := Weights(5043).value.weights;
      && |w| == 9
      && Flat(w, 0, 4, 1.0) && Flat(w, 4, 6, -1.0) && Flat(w, 6, 7, 1.0) && Flat(w, 7, 9, -1.0)
  {
    hide Signs;
  }

  lemma Formula5043(ps: seq<Point>, others: Others)
    requires |ps| == 9
    ensures Plainly(Evaluate(5043, ps, others),
        Part(ps, 0, 4) - Part(ps, 4, 6) + Part(ps, 6, 7) - Part(ps, 7, 9), ps)
  {
    Weights5043Are();
    hide Weights, Dot, Sum, Evaluate, Weighted, Part;
    EvaluatesWeights(5043, ps, others);
    var w := Weights(5043).value.weights;
    WholeDot(w, ps);
    NextPart(w, ps, 0, 4, 1.0);
    NextPart(w, ps, 4, 6, -1.0);
    NextPart(w, ps, 6, 7, 1.0);
    NextPart(w, ps, 7, 9, -1.0);
  }

  lemma Weights5406Are()
    ensures Weighted(5406) && Weights(5406).Some? && Weights(5406).value.constant == 0.0
    ensures var w := Weights(5406).value.weights;
      && |w| == 11
      && Flat(w, 0, 1, -1.0) && Flat(w, 1, 6, 1.0) && Flat(w, 6, 8, -1.0) && Flat(w, 8, 11, 1.0)
  {
    hide Signs;
  }

  lemma Formula5406(ps: seq<Point>, others: Others)
    requires |ps| == 11
    ensures Plainly(Evaluate(5406, ps, others),
        -Part(ps, 0, 1) + Part(ps, 1, 6) - Part(ps, 6, 8) + Part(ps, 8, 11), ps)
  {
    Weights5406Are();
    hide Weights, Dot, Sum, Evaluate, Weighted, Part;
    EvaluatesWeights(5406, ps, others);
    var w := Weights(5406).value.weights;
    WholeDot(w, ps);
    NextPart(w, ps, 0, 1, -1.0);
    NextPart(w, ps, 1, 6, 1.0);
    NextPart(w, ps, 6, 8, -1.0);
    NextPart(w, ps, 8, 11, 1.0);
  }

  lemma Weights11Are()
    ensures Weighted(11) && Weights(11).Some? && Weights(11).value.constant == 0.0
    ensures var w := Weights(11).value.weights;
      && |w| == 24
      && Flat(w, 0, 23, 1.0) && Flat(w, 23, 24, 0.72)
  {
    hide Signs;
  }

  lemma Formula11(ps: seq<Point>, others: Others)
    requires |ps| == 24
    ensures Plainly(Evaluate(11, ps, others),
        Part(ps, 0, 23) + 0.72 * Part(ps, 23, 24), ps)
  {
    Weights11Are();
    hide Weights, Dot, Sum, Evaluate, Weighted, Part;
    EvaluatesWeights(11, ps, others);
    var w := Weights(11).value.weights;
    WholeDot(w, ps);
    NextPart(w, ps, 0, 23, 1.0);
    NextPart(w, ps, 23, 24, 0.72);
  }

  lemma Weights13Are()
    ensures Weighted(13) && Weights(13).Some? && Weights(13).value.constant == -1.0
    ensures var w := Weights(13).value.weights;
      && |w| == 34
      && Flat(w, 0, 8, 1.0) && Flat(w, 8, 9, -1.0) && Flat(w, 9, 12, 1.0) && Flat(w, 12, 13, 0.52)
      && Flat(w, 13, 15, 1.0) && Flat(w, 15, 17, -1.0) && Flat(w, 17, 22, 1.0) && Flat(w, 22, 24, 0.0)
      && Flat(w, 24, 33, 1.0) && Flat(w, 33, 34, 0.2)
  {
    hide Signs;
  }

  lemma Formula13(ps: seq<Point>, others: Others)
    requires |ps| == 34
    ensures Plainly(Evaluate(13, ps, others),
        Part(ps, 0, 8) - Part(ps, 8, 9) + Part(ps, 9, 12) + 0.52 * Part(ps, 12, 13) + Part(ps, 13, 15)
        - Part(ps, 15, 17) + Part(ps, 17, 22) + Part(ps, 24, 33) + 0.2 * Part(ps, 33, 34) - 1.0, ps)
  {
    Weights13Are();
    hide Weights, Dot, Sum, Evaluate, Weighted, Part;
    EvaluatesWeights(13, ps, others);
    var w := Weights(13).value.weights;
    WholeDot(w, ps);
    NextPart(w, ps, 0, 8, 1.0);
    NextPart(w, ps, 8, 9, -1.0);
    NextPart(w, ps, 9, 12, 1.0);
    NextPart(w, ps, 12, 13, 0.52);
    NextPart(w, ps, 13, 15, 1.0);
    NextPart(w, ps, 15, 17, -1.0);
    NextPart(w, ps, 17, 22, 1.0);
    NextPart(w, ps, 22, 24, 0.0);
    NextPart(w, ps, 24, 33, 1.0);
    NextPart(w, ps, 33, 34, 0.2);
  }

  lemma Weights5000Are()
    ensures Weighted(5000) && Weights(5000).Some? && Weights(5000).value.constant == 0.0
    ensures var w := Weights(5000).value.weights;
      && |w| == 6
      && Flat(w, 0, 3, 1.0) && Flat(w, 3, 4, -1.0) && Flat(w, 4, 5, -0.6) && Flat(w, 5, 6, 1.0)
  {
    hide Signs;
  }

  lemma Formula5000(ps: seq<Point>, others: Others)
    requires |ps| == 6
    ensures Plainly(Evaluate(5000, ps, others),
        Part(ps, 0, 3) - Part(ps, 3, 4) - 0.6 * Part(ps, 4, 5) + Part(ps, 5, 6), ps)
  {
    Weights5000Are();
    hide Weights, Dot, Sum, Evaluate, Weighted, Part;
    EvaluatesWeights(5000, ps, others);
    var w := Weights(5000).value.weights;
    WholeDot(w, ps);
    NextPart(w, ps, 0, 3, 1.0);
    NextPart(w, ps, 3, 4, -1.0);
    NextPart(w, ps, 4, 5, -0.6);
    NextPart(w, ps, 5, 6, 1.0);
  }

  lemma Weights202Are()
    ensures Weighted(202) && Weights(202).Some? && Weights(202).value.constant == 0.0
    ensures var w := Weights(202).value.weights;
      && |w| == 2
      && Flat(w, 0, 1, 60.0) && Flat(w, 1, 2, 1.0)
  {
    hide Signs;
  }

  lemma Formula202(ps: seq<Point>, others: Others)
    requires |ps| == 2
    ensures Plainly(Evaluate(202, ps, others),
        60.0 * Part(ps, 0, 1) + Part(ps, 1, 2), ps)
  {
    Weights202Are();
    hide Weights, Dot, Sum, Evaluate, Weighted, Part;
    EvaluatesWeights(202, ps, others);
    var w := Weights(202).value.weights;
    WholeDot(w, ps);
    NextPart(w, ps, 0, 1, 60.0);
    NextPart(w, ps, 1, 2, 1.0);
  }

  lemma OneWeight(formula: int, ps: seq<Point>, others: Others, x: real)
    requires |ps| == 1 && Weighted(formula) && Weights(formula) == Some(Linear([x], 0.0))
    ensures Plainly(Evaluate(formula, ps, others), x * ps[0].value, ps)
  {
    hide Weights, Evaluate, Weighted, Sum;
    EvaluatesWeights(formula, ps, others);
    assert Dot([x][1..], ps[1..]) == 0.0;
  }

  lemma OneWeightsAre()
    ensures Weights(14) == Some(Linear([10.0 / 6.0], 0.0)) && Weights(204) == Some(Linear([0.5], 0.0))
    ensures Weights(5172) == Some(Linear([-0.72], 0.0)) && Weights(5173) == Some(Linear([0.38], 0.0))
    ensures Weights(5174) == Some(Linear([0.14], 0.0))
    ensures forall f :: f in {14, 204, 5172, 5173, 5174} ==> Weighted(f)
  {
    hide Signs;
  }

  /** The formulas of one weight. */
  lemma OneParcelFormulas(ps: seq<Point>, others: Others)
    requires |ps| == 1
    ensures var x := ps[0].value;
      && Plainly(Evaluate(14, ps, others), x * 10.0 / 6.0, ps) && Plainly(Evaluate(204, ps, others), x / 2.0, ps)
      && Plainly(Evaluate(5172, ps, others), -0.72 * x, ps) && Plainly(Evaluate(5173, ps, others), 0.38 * x, ps)
      && Plainly(Evaluate(5174, ps, others), 0.14 * x, ps)
  {
    OneWeightsAre();
    hide Weights, Evaluate, Dot, Sum, Plainly, Weighted;
    OneWeight(14, ps, others, 10.0 / 6.0);
    OneWeight(204, ps, others, 0.5);
    OneWeight(5172, ps, others, -0.72);
    OneWeight(5173, ps, others, 0.38);
    OneWeight(5174, ps, others, 0.14);
  }

  /** A part of one parcel is its value, and parts join. */
  lemma PartsAreSums(ps: seq<Point>, i: nat, j: nat)
    requires i < j <= |ps|
    ensures Part(ps, i, i) == 0.0 && Part(ps, i, j) == Part(ps, i, j - 1) + ps[j - 1].value
  {
    assert ps[i..i] == [] && ps[i..j][..j - i - 1] == ps[i..j - 1];
  }

  /** The formulas with other weights: 11, 13, 202 and 5000 to 5406. */
  lemma OtherWeights(ps: seq<Point>, others: Others)
    ensures |ps| == 24 ==> Plainly(Evaluate(11, ps, others), Part(ps, 0, 23) + 0.72 * Part(ps, 23, 24), ps)
    ensures |ps| == 34 ==> Plainly(Evaluate(13, ps, others),
        Part(ps, 0, 8) - Part(ps, 8, 9) + Part(ps, 9, 12) + 0.52 * Part(ps, 12, 13) + Part(ps, 13, 15)
        - Part(ps, 15, 17) + Part(ps, 17, 22) + Part(ps, 24, 33) + 0.2 * Part(ps, 33, 34) - 1.0, ps)
    ensures |ps| == 2 ==> Plainly(Evaluate(202, ps, others), 60.0 * Part(ps, 0, 1) + Part(ps, 1, 2), ps)
    ensures |ps| == 6 ==> Plainly(Evaluate(5000, ps, others),
        Part(ps, 0, 3) - Part(ps, 3, 4) - 0.6 * Part(ps, 4, 5) + Part(ps, 5, 6), ps)
    ensures |ps| == 5 ==> Plainly(Evaluate(5041, ps, others),
        Part(ps, 0, 2) - Part(ps, 2, 3) + Part(ps, 3, 4) - Part(ps, 4, 5), ps)
    ensures |ps| == 9 ==> Plainly(Evaluate(5043, ps, others),
        Part(ps, 0, 4) - Part(ps, 4, 6) + Part(ps, 6, 7) - Part(ps, 7, 9), ps)
    ensures |ps| == 11 ==> Plainly(Evaluate(5406, ps, others),
        -Part(ps, 0, 1) + Part(ps, 1, 6) - Part(ps, 6, 8) + Part(ps, 8, 11), ps)
  {
    hide Evaluate, Part, Plainly;
    if |ps| == 24 {
      Formula11(ps, others);
    } else if |ps| == 34 {
      Formula13(ps, others);
    } else if |ps| == 2 {
      Formula202(ps, others);
    } else if |ps| == 6 {
      Formula5000(ps, others);
    } else if |ps| == 5 {
      Formula5041(ps, others);
    } else if |ps| == 9 {
      Formula5043(ps, others);
    } else if |ps| == 11 {
      Formula5406(ps, others);
    }
  }

  method Compute(c: Calc, vals: map<int, real>, invalids: map<int, bool>, others: Others) returns (o: Outcome)
    requires CanEvaluate(c.formula, |c.parcels|)
    requires forall i :: 0 <= i < |c.parcels| ==> InRange(Reading(vals, invalids, c.parcels[i]))
    ensures o == Evaluate(c.formula, Readings(vals, invalids, c.parcels), others)
  {
    var ps := Readings(vals, invalids, c.parcels);
    if LeftOpen(c.formula) {
      o := others(c.formula, ps);
    } else {
      match c.formula
      case 4 | 10 => o := Accumulate(c.formula, ps);
      case 6 | 7 | 500 => o := Combine(c.formula, ps);
      case 50 | 51 => o := Choose(ps);
      case 52 => o := AnyOk(ps);
      case 53 => o := MaxSpan(ps);
      case 225 => o := if |ps| <= 1 then Computed(Point(1.0, false), false) else NotComputed;
      case 26 | 54 | 203 | 231 => o := Decide(c.formula, ps);
      case 216 | 218 | 219 | 220 | 221 => o := Compare(c.formula, ps);
      case _ => o := Weigh(c.formula, ps);
    }
  }

  // ---- one cycle --------------------------------------------------------------------------

  type Calcs = map<int, Calc>

  predicate WellFormed(calcs: Calcs) {
    forall id :: id in calcs ==> CanEvaluate(calcs[id].formula, |calcs[id].parcels|)
  }

  function ReadAll(db: Database, ids: seq<int>): (ps: seq<Point>)
    ensures |ps| == |ids| && forall i :: 0 <= i < |ids| ==> ps[i] == Lookup(db, ids[i])
  {
    seq(|ids|, i requires 0 <= i < |ids| => Lookup(db, ids[i]))
  }

  function Result(db: Database, calcs: Calcs, others: Others, id: int): Outcome
    requires WellFormed(calcs) && id in calcs
  {
    Evaluate(calcs[id].formula, ReadAll(db, calcs[id].parcels), others)
  }

  /** Is an update written for this point? */
  predicate Changes(db: Database, calcs: Calcs, others: Others, id: int)
    requires WellFormed(calcs)
  {
    id in calcs && Result(db, calcs, others, id).Computed? && Result(db, calcs, others, id).point != Lookup(db, id)
  }

  function UpdateOf(db: Database, calcs: Calcs, others: Others, id: int): Update
    requires WellFormed(calcs) && Changes(db, calcs, others, id)
  {
    Update(id, Result(db, calcs, others, id).point, Result(db, calcs, others, id).transient)
  }

  function UpdatesAmong(db: Database, calcs: Calcs, others: Others, ids: set<int>): set<Update>
    requires WellFormed(calcs)
  {
    set id | id in ids && Changes(db, calcs, others, id) :: UpdateOf(db, calcs, others, id)
  }

  function Updates(db: Database, calcs: Calcs, others: Others): set<Update>
    requires WellFormed(calcs)
  {
    UpdatesAmong(db, calcs, others, calcs.Keys)
  }

  predicate Asked(calcs: Calcs, id: int) {
    id in calcs || exists c :: c in calcs && id in calcs[c].parcels
  }

  datatype Row = Row(id: int, value: real, invalid: bool)

  /** What the query for all parcels and calculated points returns. */
  ghost predicate Answers(rows: seq<Row>, db: Database, calcs: Calcs) {
    && (forall i :: 0 <= i < |rows| ==> rows[i].id in db && db[rows[i].id] == Point(rows[i].value, rows[i].invalid))
    && forall id :: Asked(calcs, id) && id in db ==> exists i :: 0 <= i < |rows| && rows[i].id == id
  }

  class Engine {
    const calcs: Calcs
    var vals: map<int, real>
    var invalids: map<int, bool>

    constructor (calcs: Calcs)
      ensures this.calcs == calcs && vals == map[] && invalids == map[]
    {
      this.calcs := calcs;
      vals, invalids := map[], map[];
    }

    /** Nothing is remembered of points the database does not hold. */
    ghost predicate Remembers(db: Database)
      reads this
    {
      forall id :: id in vals || id in invalids ==> id in db
    }

    method Refill(rows: seq<Row>, ghost db: Database)
      requires Remembers(db) && Answers(rows, db, calcs)
      modifies this
      ensures Remembers(db)
      ensures forall id :: Asked(calcs, id) ==> Reading(vals, invalids, id) == Lookup(db, id)
      ensures forall id :: Asked(calcs, id) ==>
        Reading(vals, invalids, id) == if id in db then db[id] else Point(0.0, false)
    {
      for i := 0 to |rows|
        invariant Remembers(db)
        invariant forall j :: 0 <= j < i ==> rows[j].id in vals && rows[j].id in invalids
        invariant forall j :: 0 <= j < i ==> Reading(vals, invalids, rows[j].id) == db[rows[j].id]
      {
        vals := vals[rows[i].id := rows[i].value];
        invalids := invalids[rows[i].id := rows[i].invalid];
      }
    }

    /**
     One cycle. Whatever order the map of points is ranged over in, the updates are those of the
     snapshot, each written once.
     */
    method Cycle(rows: seq<Row>, order: seq<int>, others: Others, ghost db: Database) returns (opers: seq<Update>)
      requires WellFormed(calcs) && Remembers(db) && Answers(rows, db, calcs) && Ranges(order, calcs)
      requires forall id :: InRange(Lookup(db, id))
      modifies this
      ensures Remembers(db)
      ensures multiset(opers) == multiset(Updates(db, calcs, others))
    {
      hide Evaluate, InRange, UpdatesAmong, Reading, Answers, Remembers;
      Refill(rows, db);
      opers := [];
      ghost var done: set<int> := {};
      NoUpdates(db, calcs, others);
      for i := 0 to |order|
        invariant forall id :: id in done <==> id in order[..i]
        invariant multiset(opers) == multiset(UpdatesAmong(db, calcs, others, done))
        modifies {}
      {
        var id := order[i];
        var p := calcs[id];
        SnapshotRead(db, calcs, vals, invalids, id);
        var o := Compute(p, vals, invalids, others);
        OneMore(db, calcs, others, done, id);
        if o.Computed? && o.point != Reading(vals, invalids, id) {
          opers := opers + [Update(id, o.point, o.transient)];
        }
        done := done + {id};
        assert order[..i + 1] == order[..i] + [id];
      }
      assert order[..|order|] == order;
      SameMembers(db, calcs, others, done, calcs.Keys);
    }
  }

  /** Every calculated point once, in some order. */
  predicate Ranges(order: seq<int>, calcs: Calcs) {
    && (forall i :: 0 <= i < |order| ==> order[i] in calcs && order[i] !in order[..i])
    && forall id :: id in calcs ==> id in order
  }

  lemma NoUpdates(db: Database, calcs: Calcs, others: Others)
    requires WellFormed(calcs)
    ensures UpdatesAmong(db, calcs, others, {}) == {}
  {
  }

  lemma SnapshotRead(db: Database, calcs: Calcs, vals: map<int, real>, invalids: map<int, bool>, id: int)
    requires id in calcs && forall q :: Asked(calcs, q) ==> Reading(vals, invalids, q) == Lookup(db, q)
    ensures Reading(vals, invalids, id) == Lookup(db, id)
    ensures Readings(vals, invalids, calcs[id].parcels) == ReadAll(db, calcs[id].parcels)
    ensures forall i :: 0 <= i < |calcs[id].parcels| ==>
      Reading(vals, invalids, calcs[id].parcels[i]) == Lookup(db, calcs[id].parcels[i])
  {
    hide Reading, Lookup;
    var ids := calcs[id].parcels;
    assert Asked(calcs, id);
    forall i | 0 <= i < |ids| ensures Reading(vals, invalids, ids[i]) == Lookup(db, ids[i]) {
      assert Asked(calcs, ids[i]);
    }
  }

  lemma SameMembers(db: Database, calcs: Calcs, others: Others, a: set<int>, b: set<int>)
    requires WellFormed(calcs) && forall id :: id in a <==> id in b
    ensures UpdatesAmong(db, calcs, others, a) == UpdatesAmong(db, calcs, others, b)
  {
    hide Result, Changes;
    var l, r := UpdatesAmong(db, calcs, others, a), UpdatesAmong(db, calcs, others, b);
    assert forall u :: u in l <==> u in r;
  }

  lemma OneMore(db: Database, calcs: Calcs, others: Others, done: set<int>, id: int)
    requires WellFormed(calcs) && id !in done
    ensures multiset(UpdatesAmong(db, calcs, others, done + {id}))
      == multiset(UpdatesAmong(db, calcs, others, done))
        + if Changes(db, calcs, others, id) then multiset{UpdateOf(db, calcs, others, id)} else multiset{}
  {
    hide Result;
    var was, now := UpdatesAmong(db, calcs, others, done), UpdatesAmong(db, calcs, others, done + {id});
    if Changes(db, calcs, others, id) {
      var u := UpdateOf(db, calcs, others, id);
      assert now == was + {u} && u !in was;
    } else {
      assert now == was;
    }
  }

  // ---- the results written back -----------------------------------------------------------

  /** What another process makes of a calculated value before it stores it. */
  type Conversion = (int, Point) -> Point

  /** An update of a point the database does not hold matches nothing. */
  function WriteBack(db: Database, opers: seq<Update>, convert: Conversion): Database {
    if opers == [] then db
    else
      var u := opers[|opers| - 1];
      var before := WriteBack(db, opers[..|opers| - 1], convert);
      if u.id in before then before[u.id := convert(u.id, u.point)] else before
  }

  /** Calculated points are stored as calculated: factor one, offset zero, no zero dead band. */
  ghost predicate Plain(calcs: Calcs, convert: Conversion) {
    forall id, p :: id in calcs ==> convert(id, p) == p
  }

  /** Every calculated point takes the result on the snapshot, every other point stays. */
  function Step(db: Database, calcs: Calcs, others: Others): Database
    requires WellFormed(calcs)
  {
    map id | id in db ::
      if id in calcs && Result(db, calcs, others, id).Computed? then Result(db, calcs, others, id).point else db[id]
  }

  lemma {:induction false} WrittenAt(db: Database, opers: seq<Update>, convert: Conversion, id: int, p: Point)
    requires id in db && forall i :: 0 <= i < |opers| && opers[i].id == id ==> convert(id, opers[i].point) == p
    ensures WriteBack(db, opers, convert).Keys == db.Keys
    ensures WriteBack(db, opers, convert)[id] == if Mentions(opers, id) then p else db[id]
  {
    if opers != [] {
      var n := |opers| - 1;
      WrittenAt(db, opers[..n], convert, id, p);
      assert Mentions(opers, id) <==> Mentions(opers[..n], id) || opers[n].id == id by {
        MentionsLast(opers, id);
      }
    }
  }

  predicate Mentions(opers: seq<Update>, id: int) {
    exists i :: 0 <= i < |opers| && opers[i].id == id
  }

  lemma MentionsLast(opers: seq<Update>, id: int)
    requires opers != []
    ensures Mentions(opers, id) <==> Mentions(opers[..|opers| - 1], id) || opers[|opers| - 1].id == id
  {
    var front := opers[..|opers| - 1];
    if Mentions(front, id) {
      var i :| 0 <= i < |front| && front[i].id == id;
      assert opers[i].id == id;
    }
    if i :| 0 <= i < |opers| && opers[i].id == id {
      assert i == |opers| - 1 || front[i].id == id;
    }
  }

  lemma MemberMentions(opers: seq<Update>, u: Update)
    requires u in opers
    ensures Mentions(opers, u.id)
  {
    var i :| 0 <= i < |opers| && opers[i] == u;
    assert opers[i].id == u.id;
  }

  /** The list has exactly the updates of the set. */
  predicate Lists(opers: seq<Update>, us: set<Update>) {
    (forall u :: u in opers ==> u in us) && forall u :: u in us ==> u in opers
  }

  /** The changed-only updates, in any order, take the database to the next snapshot. */
  lemma WrittenBackIsStep(db: Database, calcs: Calcs, others: Others, convert: Conversion, opers: seq<Update>)
    requires WellFormed(calcs) && Plain(calcs, convert)
    requires Lists(opers, Updates(db, calcs, others))
    ensures WriteBack(db, opers, convert) == Step(db, calcs, others)
  {
    hide Result;
    var next := Step(db, calcs, others);
    forall id | id in db
      ensures WriteBack(db, opers, convert).Keys == db.Keys && WriteBack(db, opers, convert)[id] == next[id]
    {
      forall i | 0 <= i < |opers| && opers[i].id == id ensures convert(id, opers[i].point) == next[id] {
        assert opers[i] in Updates(db, calcs, others);
      }
      WrittenAt(db, opers, convert, id, next[id]);
      if Changes(db, calcs, others, id) {
        var u := UpdateOf(db, calcs, others, id);
        assert u in Updates(db, calcs, others);
        MemberMentions(opers, u);
      }
    }
    KeysKept(db, opers, convert);
  }

  lemma {:induction false} KeysKept(db: Database, opers: seq<Update>, convert: Conversion)
    ensures WriteBack(db, opers, convert).Keys == db.Keys
  {
    if opers != [] {
      KeysKept(db, opers[..|opers| - 1], convert);
    }
  }

  /** A point stored as converted is not written again exactly when conversion keeps its result. */
  lemma AppliedUpdateIsQuietIff(db: Database, calcs: Calcs, others: Others, convert: Conversion, id: int)
    requires WellFormed(calcs) && id in calcs && id in db && id !in calcs[id].parcels
    requires Result(db, calcs, others, id).Computed?
    ensures var r := Result(db, calcs, others, id).point;
      Changes(db[id := convert(id, r)], calcs, others, id) <==> convert(id, r) != r
  {
    var stored := db[id := convert(id, Result(db, calcs, others, id).point)];
    assert ReadAll(stored, calcs[id].parcels) == ReadAll(db, calcs[id].parcels);
    hide Evaluate;
  }

  // ---- convergence ------------------------------------------------------------------------

  function After(db: Database, calcs: Calcs, others: Others, k: nat): Database
    requires WellFormed(calcs)
  {
    if k == 0 then db else Step(After(db, calcs, others, k - 1), calcs, others)
  }

  /** Whether a formula applies depends on the number of parcels alone. */
  predicate Applies(formula: int, n: nat) {
    match formula
    case 4 | 6 | 7 | 8 | 10 | 50 | 51 | 52 | 53 | 500 => true
    case 225 => n <= 1
    case 1 | 203 | 216 | 218 | 219 => n == 3
    case 2 | 3 | 9 | 26 | 54 | 55 | 220 | 221 => n == 2
    case 5 | 231 => n == 1
    case _ => Weights(formula).Some? && n == |Weights(formula).value.weights|
  }

  ghost predicate Regular(others: Others) {
    forall formula, ps :: LeftOpen(formula) ==> (others(formula, ps).Computed? <==> Applies(formula, |ps|))
  }

  lemma AppliesExactly(formula: int, ps: seq<Point>, others: Others)
    requires CanEvaluate(formula, |ps|) && Regular(others)
    ensures Evaluate(formula, ps, others).Computed? <==> Applies(formula, |ps|)
  {
    hide Weights, Dot, Sum, Highest, Lowest, Choice, Span;
  }

  predicate Calculated(calcs: Calcs, id: int) {
    id in calcs && Applies(calcs[id].formula, |calcs[id].parcels|)
  }

  /** Points on a cycle of parcels have no depth. */
  predicate DepthAtMost(calcs: Calcs, id: int, k: nat)
    decreases k
  {
    Calculated(calcs, id) ==>
      k > 0 && forall i :: 0 <= i < |calcs[id].parcels| ==> DepthAtMost(calcs, calcs[id].parcels[i], k - 1)
  }

  /** The value of a point by recursive evaluation of its formula on the values of its parcels. */
  function Denotes(db: Database, calcs: Calcs, others: Others, id: int, k: nat): Point
    requires WellFormed(calcs) && DepthAtMost(calcs, id, k)
    decreases k
  {
    if !Calculated(calcs, id) then Lookup(db, id)
    else
      var ids := calcs[id].parcels;
      var ps := seq(|ids|, i requires 0 <= i < |ids| => Denotes(db, calcs, others, ids[i], k - 1));
      match Evaluate(calcs[id].formula, ps, others)
      case Computed(point, _) => point
      case NotComputed => Lookup(db, id)
  }

  lemma {:induction false} InputsStay(db: Database, calcs: Calcs, others: Others, id: int, j: nat)
    requires WellFormed(calcs) && Regular(others)
    ensures After(db, calcs, others, j).Keys == db.Keys
    ensures !Calculated(calcs, id) ==> Lookup(After(db, calcs, others, j), id) == Lookup(db, id)
  {
    hide Evaluate, Applies;
    if j > 0 {
      InputsStay(db, calcs, others, id, j - 1);
      if id in calcs {
        var before := After(db, calcs, others, j - 1);
        AppliesExactly(calcs[id].formula, ReadAll(before, calcs[id].parcels), others);
      }
    }
  }

  lemma StepAt(db: Database, calcs: Calcs, others: Others, id: int)
    requires WellFormed(calcs) && Regular(others) && id in db && Calculated(calcs, id)
    ensures Result(db, calcs, others, id).Computed?
    ensures Lookup(Step(db, calcs, others), id) == Result(db, calcs, others, id).point
  {
    hide Evaluate, Applies, Regular;
    AppliesExactly(calcs[id].formula, ReadAll(db, calcs[id].parcels), others);
  }

  /** After k cycles, and from then on, a point of depth at most k has its recursive value. */
  lemma {:induction false} Converges(db: Database, calcs: Calcs, others: Others, id: int, k: nat, j: nat)
    requires WellFormed(calcs) && Regular(others) && calcs.Keys <= db.Keys
    requires DepthAtMost(calcs, id, k) && j >= k
    ensures Lookup(After(db, calcs, others, j), id) == Denotes(db, calcs, others, id, k)
    decreases k
  {
    hide Evaluate, Applies, Regular, Step;
    if !Calculated(calcs, id) {
      InputsStay(db, calcs, others, id, j);
    } else {
      var ids := calcs[id].parcels;
      var before := After(db, calcs, others, j - 1);
      InputsStay(db, calcs, others, id, j - 1);
      StepAt(before, calcs, others, id);
      var ps := seq(|ids|, i requires 0 <= i < |ids| => Denotes(db, calcs, others, ids[i], k - 1));
      forall i | 0 <= i < |ids| ensures ReadAll(before, ids)[i] == ps[i] {
        Converges(db, calcs, others, ids[i], k - 1, j - 1);
      }
      assert ReadAll(before, ids) == ps;
    }
  }

  /** Once every calculated point's depth is covered, cycles write nothing. */
  lemma SettledCyclesAreQuiet(db: Database, calcs: Calcs, others: Others, k: nat, j: nat)
    requires WellFormed(calcs) && Regular(others) && calcs.Keys <= db.Keys && j >= k
    requires forall id :: id in calcs ==> DepthAtMost(calcs, id, k)
    ensures Updates(After(db, calcs, others, j), calcs, others) == {}
  {
    hide Evaluate, Applies, Regular, Denotes, DepthAtMost;
    var now := After(db, calcs, others, j);
    forall id | id in calcs ensures !Changes(now, calcs, others, id) {
      Converges(db, calcs, others, id, k, j);
      Converges(db, calcs, others, id, k, j + 1);
      InputsStay(db, calcs, others, id, j);
      assert After(db, calcs, others, j + 1) == Step(now, calcs, others);
    }
  }

  // ---- runs with delayed write-back -----------------------------------------------------------

  /**
   A run of cycles: the database each of them reads, the updates it writes, and the updates that are
   converted and stored before the next one reads.
   */
  datatype Trace = Trace(dbs: seq<Database>, written: seq<seq<Update>>, applied: seq<seq<Update>>)
  {
    predicate Shaped() {
      |dbs| == |written| + 1 && |applied| == |written|
    }
  }

  ghost predicate Cycles(t: Trace, calcs: Calcs, others: Others, convert: Conversion)
    requires WellFormed(calcs) && t.Shaped()
  {
    forall i :: 0 <= i < |t.written| ==>
      multiset(t.written[i]) == multiset(Updates(t.dbs[i], calcs, others))
      && t.dbs[i + 1] == WriteBack(t.dbs[i], t.applied[i], convert)
  }

  /** The update stored after cycle i was written by it or by one of the d cycles before. */
  ghost predicate HasSource(t: Trace, d: nat, i: nat, u: Update)
    requires t.Shaped()
  {
    exists j :: 0 <= j <= i < |t.written| && i <= j + d && u in t.written[j]
  }

  /** The update written by cycle j is stored after it or after one of the next d cycles. */
  ghost predicate IsApplied(t: Trace, d: nat, j: nat, u: Update)
    requires t.Shaped()
  {
    exists i :: j <= i <= j + d && i < |t.applied| && u in t.applied[i]
  }

  /** Every update is stored within d cycles, any number of times and in any order, and nothing else is. */
  ghost predicate Run(t: Trace, d: nat, calcs: Calcs, others: Others, convert: Conversion)
    requires WellFormed(calcs)
  {
    && t.Shaped() && Cycles(t, calcs, others, convert)
    && (forall i, u :: 0 <= i < |t.applied| && u in t.applied[i] ==> HasSource(t, d, i, u))
    && (forall j, u :: 0 <= j < |t.written| - d && u in t.written[j] ==> IsApplied(t, d, j, u))
  }

  lemma WrittenIsUpdate(t: Trace, calcs: Calcs, others: Others, convert: Conversion, i: nat, u: Update)
    requires WellFormed(calcs) && t.Shaped() && Cycles(t, calcs, others, convert) && i < |t.written|
    ensures u in t.written[i] <==> u in Updates(t.dbs[i], calcs, others)
  {
    hide Updates;
    assert u in t.written[i] <==> u in multiset(t.written[i]);
  }

  lemma PromptlyApplied(t: Trace, calcs: Calcs, others: Others, convert: Conversion, i: nat)
    requires WellFormed(calcs) && Run(t, 0, calcs, others, convert) && i < |t.applied|
    ensures Lists(t.applied[i], Updates(t.dbs[i], calcs, others))
  {
    hide Updates, WriteBack;
    var stored, us := t.applied[i], Updates(t.dbs[i], calcs, others);
    forall u | u in stored ensures u in us {
      assert HasSource(t, 0, i, u);
      WrittenIsUpdate(t, calcs, others, convert, i, u);
    }
    forall u | u in us ensures u in stored {
      WrittenIsUpdate(t, calcs, others, convert, i, u);
      assert IsApplied(t, 0, i, u);
    }
  }

  /** Without delay a run is the iteration of steps. */
  lemma {:induction false} PromptRunIsIteration(t: Trace, calcs: Calcs, others: Others, convert: Conversion, i: nat)
    requires WellFormed(calcs) && Plain(calcs, convert) && Run(t, 0, calcs, others, convert) && i < |t.dbs|
    ensures t.dbs[i] == After(t.dbs[0], calcs, others, i)
  {
    hide Step, Updates, WriteBack, Lists, Plain, HasSource, IsApplied;
    if i > 0 {
      PromptRunIsIteration(t, calcs, others, convert, i - 1);
      PromptlyApplied(t, calcs, others, convert, i - 1);
      WrittenBackIsStep(t.dbs[i - 1], calcs, others, convert, t.applied[i - 1]);
    }
  }

  lemma {:induction false} RunKeepsKeys(t: Trace, calcs: Calcs, others: Others, convert: Conversion, i: nat)
    requires WellFormed(calcs) && t.Shaped() && Cycles(t, calcs, others, convert) && i < |t.dbs|
    ensures t.dbs[i].Keys == t.dbs[0].Keys
  {
    hide Updates;
    if i > 0 {
      RunKeepsKeys(t, calcs, others, convert, i - 1);
      KeysKept(t.dbs[i - 1], t.applied[i - 1], convert);
    }
  }

  /** If all updates of a point stored from cycle `from` on carry p, they store p, and only they change it. */
  lemma StoresOnly(t: Trace, calcs: Calcs, others: Others, convert: Conversion, id: int, p: Point, i: nat)
    requires WellFormed(calcs) && t.Shaped() && Cycles(t, calcs, others, convert)
    requires i < |t.applied| && id in t.dbs[i]
    requires forall u :: u in t.applied[i] && u.id == id ==> convert(id, u.point) == p
    ensures id in t.dbs[i + 1]
    ensures t.dbs[i + 1][id] == if Mentions(t.applied[i], id) then p else t.dbs[i][id]
  {
    hide Updates, WriteBack, Mentions;
    WrittenAt(t.dbs[i], t.applied[i], convert, id, p);
  }

  /** Where an update stored after cycle i comes from. */
  lemma StoredUpdate(t: Trace, d: nat, calcs: Calcs, others: Others, convert: Conversion, i: nat, u: Update)
      returns (j: nat)
    requires WellFormed(calcs) && Run(t, d, calcs, others, convert) && i < |t.applied| && u in t.applied[i]
    ensures j <= i <= j + d && u in Updates(t.dbs[j], calcs, others)
  {
    hide Updates, WriteBack, Cycles;
    assert HasSource(t, d, i, u);
    j :| 0 <= j <= i < |t.written| && i <= j + d && u in t.written[j];
    WrittenIsUpdate(t, calcs, others, convert, j, u);
  }

  lemma UpdateCarriesResult(db: Database, calcs: Calcs, others: Others, u: Update)
    requires WellFormed(calcs) && u in Updates(db, calcs, others)
    ensures Changes(db, calcs, others, u.id) && u.point == Result(db, calcs, others, u.id).point
  {
    hide Result;
  }

  lemma InputsNotStored(t: Trace, d: nat, calcs: Calcs, others: Others, convert: Conversion, id: int, i: nat)
    requires WellFormed(calcs) && Regular(others) && Run(t, d, calcs, others, convert)
    requires i < |t.applied| && !Calculated(calcs, id)
    ensures forall u :: u in t.applied[i] ==> u.id != id
  {
    hide Updates, WriteBack, Cycles, Calculated, Regular;
    forall u | u in t.applied[i] ensures u.id != id {
      var j := StoredUpdate(t, d, calcs, others, convert, i, u);
      UpdateIsCalculated(t.dbs[j], calcs, others, u);
    }
  }

  /** Inputs are never written. */
  lemma {:induction false} RunKeepsInputs(t: Trace, d: nat, calcs: Calcs, others: Others, convert: Conversion,
      id: int, i: nat)
    requires WellFormed(calcs) && Regular(others) && Run(t, d, calcs, others, convert)
    requires i < |t.dbs| && !Calculated(calcs, id)
    ensures Lookup(t.dbs[i], id) == Lookup(t.dbs[0], id)
  {
    hide Updates, WriteBack, Evaluate, Applies, Regular, Mentions, HasSource, IsApplied;
    RunKeepsKeys(t, calcs, others, convert, i);
    if i > 0 && id in t.dbs[0] {
      RunKeepsKeys(t, calcs, others, convert, i - 1);
      RunKeepsInputs(t, d, calcs, others, convert, id, i - 1);
      InputsNotStored(t, d, calcs, others, convert, id, i - 1);
      WrittenAt(t.dbs[i - 1], t.applied[i - 1], convert, id, t.dbs[i - 1][id]);
    }
  }

  lemma UpdateIsCalculated(db: Database, calcs: Calcs, others: Others, u: Update)
    requires WellFormed(calcs) && Regular(others) && u in Updates(db, calcs, others)
    ensures Calculated(calcs, u.id)
  {
    hide Evaluate, Applies, Regular;
    UpdateCarriesResult(db, calcs, others, u);
    AppliesExactly(calcs[u.id].formula, ReadAll(db, calcs[u.id].parcels), others);
  }

  /** The cycles after which points of depth k have settled. */
  function Settling(k: nat, d: nat): nat {
    if k == 0 then 0 else Settling(k - 1, d) + 2 * d + 1
  }

  lemma {:induction false} SettlingIsProduct(k: nat, d: nat)
    ensures Settling(k, d) == k * (2 * d + 1)
  {
    if k > 0 {
      SettlingIsProduct(k - 1, d);
    }
  }

  /** From cycle `from` on the point's result is p. */
  ghost predicate ResultsIn(t: Trace, calcs: Calcs, others: Others, id: int, p: Point, from: nat)
    requires WellFormed(calcs) && id in calcs
  {
    forall j :: from <= j < |t.dbs| ==>
      Result(t.dbs[j], calcs, others, id).Computed? && Result(t.dbs[j], calcs, others, id).point == p
  }

  /** From d cycles later on nothing else is stored for it. */
  lemma OnlyResultStored(t: Trace, d: nat, calcs: Calcs, others: Others, convert: Conversion,
      id: int, p: Point, from: nat, i: nat)
    requires WellFormed(calcs) && Plain(calcs, convert) && Run(t, d, calcs, others, convert) && id in calcs
    requires ResultsIn(t, calcs, others, id, p, from) && from + d <= i < |t.applied|
    ensures forall u :: u in t.applied[i] && u.id == id ==> convert(id, u.point) == p
  {
    hide Updates, WriteBack, Cycles, Result;
    forall u | u in t.applied[i] && u.id == id ensures u.point == p {
      var j := StoredUpdate(t, d, calcs, others, convert, i, u);
      UpdateCarriesResult(t.dbs[j], calcs, others, u);
    }
  }

  lemma {:induction false} ResultStays(t: Trace, d: nat, calcs: Calcs, others: Others, convert: Conversion,
      id: int, p: Point, from: nat, m: nat, i: nat)
    requires WellFormed(calcs) && Plain(calcs, convert) && Run(t, d, calcs, others, convert) && id in calcs
    requires ResultsIn(t, calcs, others, id, p, from) && from + d <= m <= i < |t.dbs|
    requires id in t.dbs[m] && t.dbs[m][id] == p
    ensures id in t.dbs[i] && t.dbs[i][id] == p
    decreases i - m
  {
    hide Updates, WriteBack, Cycles, Result, ResultsIn, Plain, Mentions;
    if m < i {
      OnlyResultStored(t, d, calcs, others, convert, id, p, from, m);
      StoresOnly(t, calcs, others, convert, id, p, m);
      ResultStays(t, d, calcs, others, convert, id, p, from, m + 1, i);
    }
  }

  /** A result that stays the same from some cycle on is stored 2d + 1 cycles later, for good. */
  lemma ResultIsStored(t: Trace, d: nat, calcs: Calcs, others: Others, convert: Conversion,
      id: int, p: Point, from: nat, i: nat)
    requires WellFormed(calcs) && Plain(calcs, convert) && Run(t, d, calcs, others, convert)
    requires id in calcs && id in t.dbs[0] && ResultsIn(t, calcs, others, id, p, from)
    requires from + 2 * d + 1 <= i < |t.dbs|
    ensures Lookup(t.dbs[i], id) == p
  {
    hide Updates, WriteBack, Result, Plain, Mentions, ResultsIn;
    var b := from + d;
    RunKeepsKeys(t, calcs, others, convert, b);
    if t.dbs[b][id] == p {
      ResultStays(t, d, calcs, others, convert, id, p, from, b, i);
    } else {
      var u := WritesResult(t, calcs, others, convert, id, p, from, b);
      assert IsApplied(t, d, b, u);
      var a :| b <= a <= b + d && a < |t.applied| && u in t.applied[a];
      RunKeepsKeys(t, calcs, others, convert, a);
      OnlyResultStored(t, d, calcs, others, convert, id, p, from, a);
      MemberMentions(t.applied[a], u);
      StoresOnly(t, calcs, others, convert, id, p, a);
      ResultStays(t, d, calcs, others, convert, id, p, from, a + 1, i);
    }
  }

  /** A point that does not have its result is written. */
  lemma WritesResult(t: Trace, calcs: Calcs, others: Others, convert: Conversion, id: int, p: Point, from: nat, b: nat)
      returns (u: Update)
    requires WellFormed(calcs) && t.Shaped() && Cycles(t, calcs, others, convert) && id in calcs
    requires ResultsIn(t, calcs, others, id, p, from) && from <= b < |t.written| && Lookup(t.dbs[b], id) != p
    ensures u in t.written[b] && u.id == id
  {
    hide Result, WriteBack;
    u := UpdateOf(t.dbs[b], calcs, others, id);
    assert u in Updates(t.dbs[b], calcs, others);
    WrittenIsUpdate(t, calcs, others, convert, b, u);
  }

  /** With its parcels settled a point's result is its recursive value. */
  lemma SettledResult(t: Trace, calcs: Calcs, others: Others, id: int, k: nat, from: nat)
    requires WellFormed(calcs) && Regular(others) && |t.dbs| > 0 && Calculated(calcs, id) && DepthAtMost(calcs, id, k)
    requires forall i, j :: 0 <= i < |calcs[id].parcels| && from <= j < |t.dbs| ==>
      Lookup(t.dbs[j], calcs[id].parcels[i]) == Denotes(t.dbs[0], calcs, others, calcs[id].parcels[i], k - 1)
    ensures ResultsIn(t, calcs, others, id, Denotes(t.dbs[0], calcs, others, id, k), from)
  {
    hide Evaluate, Applies, Regular;
    var ids := calcs[id].parcels;
    var ps := seq(|ids|, i requires 0 <= i < |ids| => Denotes(t.dbs[0], calcs, others, ids[i], k - 1));
    forall j | from <= j < |t.dbs|
      ensures Result(t.dbs[j], calcs, others, id).Computed?
      ensures Result(t.dbs[j], calcs, others, id).point == Denotes(t.dbs[0], calcs, others, id, k)
    {
      assert ReadAll(t.dbs[j], ids) == ps;
      AppliesExactly(calcs[id].formula, ps, others);
    }
  }

  lemma {:induction false} DelayedConverges(t: Trace, d: nat, calcs: Calcs, others: Others, convert: Conversion,
      id: int, k: nat, i: nat)
    requires WellFormed(calcs) && Regular(others) && Plain(calcs, convert) && Run(t, d, calcs, others, convert)
    requires calcs.Keys <= t.dbs[0].Keys && DepthAtMost(calcs, id, k) && Settling(k, d) <= i < |t.dbs|
    ensures Lookup(t.dbs[i], id) == Denotes(t.dbs[0], calcs, others, id, k)
    decreases k, 1
  {
    hide Evaluate, Applies, Regular, Run, Plain, ResultsIn;
    if !Calculated(calcs, id) {
      RunKeepsInputs(t, d, calcs, others, convert, id, i);
    } else {
      ResultSettles(t, d, calcs, others, convert, id, k);
      ResultIsStored(t, d, calcs, others, convert, id, Denotes(t.dbs[0], calcs, others, id, k), Settling(k - 1, d), i);
    }
  }

  /** The result of a point of depth k is settled once its parcels are. */
  lemma {:induction false} ResultSettles(t: Trace, d: nat, calcs: Calcs, others: Others, convert: Conversion,
      id: int, k: nat)
    requires WellFormed(calcs) && Regular(others) && Plain(calcs, convert) && Run(t, d, calcs, others, convert)
    requires calcs.Keys <= t.dbs[0].Keys && Calculated(calcs, id) && DepthAtMost(calcs, id, k)
    ensures k > 0 && ResultsIn(t, calcs, others, id, Denotes(t.dbs[0], calcs, others, id, k), Settling(k - 1, d))
    decreases k, 0
  {
    hide Evaluate, Applies, Regular, Plain, ResultsIn, WriteBack, Updates;
    var ids, from := calcs[id].parcels, Settling(k - 1, d);
    forall a, j | 0 <= a < |ids| && from <= j < |t.dbs|
      ensures Lookup(t.dbs[j], ids[a]) == Denotes(t.dbs[0], calcs, others, ids[a], k - 1)
    {
      DelayedConverges(t, d, calcs, others, convert, ids[a], k - 1, j);
    }
    SettledResult(t, calcs, others, id, k, from);
  }

  /**
   In every run whose updates are stored as calculated within d cycles, repeatedly and in any order, a
   point of depth at most k has its recursive value from cycle k * (2d + 1) on; once all depths are
   covered nothing is written.
   */
  lemma RunsConverge(t: Trace, d: nat, calcs: Calcs, others: Others, convert: Conversion, id: int, k: nat, i: nat)
    requires WellFormed(calcs) && Regular(others) && Plain(calcs, convert) && Run(t, d, calcs, others, convert)
    requires calcs.Keys <= t.dbs[0].Keys && k * (2 * d + 1) <= i < |t.dbs|
    ensures DepthAtMost(calcs, id, k) ==> Lookup(t.dbs[i], id) == Denotes(t.dbs[0], calcs, others, id, k)
    ensures (forall c :: c in calcs ==> DepthAtMost(calcs, c, k)) && i < |t.written| ==> t.written[i] == []
  {
    hide Denotes, DepthAtMost, Regular, Plain, WriteBack, Result, Settling;
    SettlingIsProduct(k, d);
    if DepthAtMost(calcs, id, k) {
      DelayedConverges(t, d, calcs, others, convert, id, k, i);
    }
    if (forall c :: c in calcs ==> DepthAtMost(calcs, c, k)) && i < |t.written| {
      forall c | c in calcs ensures !Changes(t.dbs[i], calcs, others, c) {
        SettledIsUnchanged(t, d, calcs, others, convert, c, k, i);
      }
      assert Updates(t.dbs[i], calcs, others) == {};
      NothingWritten(t, calcs, others, convert, i);
    }
  }

  lemma NothingWritten(t: Trace, calcs: Calcs, others: Others, convert: Conversion, i: nat)
    requires WellFormed(calcs) && t.Shaped() && Cycles(t, calcs, others, convert) && i < |t.written|
    requires Updates(t.dbs[i], calcs, others) == {}
    ensures t.written[i] == []
  {
    hide Updates, WriteBack;
    assert |multiset(t.written[i])| == 0;
  }

  /** A point of a settled run has its result. */
  lemma SettledIsUnchanged(t: Trace, d: nat, calcs: Calcs, others: Others, convert: Conversion, id: int, k: nat, i: nat)
    requires WellFormed(calcs) && Regular(others) && Plain(calcs, convert) && Run(t, d, calcs, others, convert)
    requires calcs.Keys <= t.dbs[0].Keys && Settling(k, d) <= i < |t.dbs|
    requires id in calcs && forall c :: c in calcs ==> DepthAtMost(calcs, c, k)
    ensures !Changes(t.dbs[i], calcs, others, id)
  {
    hide Evaluate, Applies, Regular, Run, Plain, Updates, WriteBack, Denotes;
    DelayedConverges(t, d, calcs, others, convert, id, k, i);
    AppliesExactly(calcs[id].formula, ReadAll(t.dbs[i], calcs[id].parcels), others);
    if Calculated(calcs, id) {
      ResultSettles(t, d, calcs, others, convert, id, k);
    }
  }

  /** Acyclic parcels are needed: a point that negates itself is updated in every cycle. */
  lemma {:induction false} SelfNegationNeverSettles(others: Others, j: nat)
    ensures WellFormed(NEGATED) && NegatedAfter(others, j) == map[1 := Point(if j % 2 == 0 then 1.0 else -1.0, false)]
    ensures Updates(NegatedAfter(others, j), NEGATED, others) != {}
  {
    hide Step, Changes;
    var x := if j % 2 == 0 then 1.0 else -1.0;
    if j > 0 {
      SelfNegationNeverSettles(others, j - 1);
      NegatedOnce(others, -x);
    }
    NegatedOnce(others, x);
    assert UpdateOf(NegatedAfter(others, j), NEGATED, others, 1) in Updates(NegatedAfter(others, j), NEGATED, others);
  }

  const NEGATED: Calcs := map[1 := Calc(10, [1])]

  function NegatedAfter(others: Others, j: nat): Database {
    After(map[1 := Point(1.0, false)], NEGATED, others, j)
  }

  lemma NegatedOnce(others: Others, x: real)
    requires x != 0.0
    ensures var db := map[1 := Point(x, false)];
      WellFormed(NEGATED) && Step(db, NEGATED, others) == map[1 := Point(-x, false)] && Changes(db, NEGATED, others, 1)
  {
    var db := map[1 := Point(x, false)];
    var ps := ReadAll(db, [1]);
    assert ps == [Point(x, false)];
    assert Sum(ps[..0]) == 0.0;
    assert Sum(ps) == x;
  }
}
