/**
 One analog point as the change handler treats it (handleChange in
 src/cs_data_processor-go/process.go): limits with hysteresis, the decision to update, and the
 historian's dead band. The point's stored fields are those the next change sees.
 */
module AnalogPoint {
  import opened Options

  datatype Limits = Limits(lo: real, hi: real)

  /** The fixed fields of a point; an absent field is None. */
  datatype Config = Config(
    kconv1: real,
    kconv2: real,
    zeroDeadband: Option<real>,
    limits: Option<Limits>,
    hysteresis: real,
    alarmDisabled: bool,
    isEvent: bool,
    historianPeriod: Option<real>,
    historianDeadBand: Option<real>)

  datatype Stamp = Stamp(year: int, instant: int)

  /** A source data update. */
  datatype Change = Change(
    valueAtSource: real,
    invalid: bool,
    timeTagAtSource: Option<Stamp>,
    rangeCheck: bool,
    isNotForHistorical: bool)

  /** The stored fields that changes read and write. */
  datatype Record = Record(
    value: real,
    invalid: bool,
    alarmRange: Option<int>,
    alarmed: bool,
    updated: bool,
    timeTagAtSource: Option<Stamp>,
    historianLastValue: Option<real>)

  /** Sequence-of-events entries: a change of the alarm range, or of the value. */
  datatype Event = RangeEvent(value: real, alarmed: bool) | ValueEvent(value: real)

  function Abs(x: real): real {
    if x < 0.0 then -x else x
  }

  // ---- what one change does ---------------------------------------------------------------

  function Converted(cfg: Config, source: real): real {
    var v := source * cfg.kconv1 + cfg.kconv2;
    match cfg.zeroDeadband
    case Some(band) => if band != 0.0 && Abs(v) < band then 0.0 else v
    case None => v
  }

  lemma BandChangesValue(cfg: Config)
    requires cfg.zeroDeadband.Some? && cfg.zeroDeadband.value > 0.0
    ensures exists x :: Converted(cfg, x) != x
  {
    var half := cfg.zeroDeadband.value / 2.0;
    assert Converted(cfg, half) != half;
  }

  /** Values are stored as they come exactly with factor one, offset zero and no zero dead band. */
  lemma ConversionIsIdentityIff(cfg: Config)
    ensures (forall x :: Converted(cfg, x) == x)
      <==> cfg.kconv1 == 1.0 && cfg.kconv2 == 0.0 && (cfg.zeroDeadband.Some? ==> cfg.zeroDeadband.value <= 0.0)
  {
    if forall x :: Converted(cfg, x) == x {
      if cfg.zeroDeadband.Some? && cfg.zeroDeadband.value > 0.0 {
        BandChangesValue(cfg);
      } else {
        assert Converted(cfg, 0.0) == cfg.kconv2;
        assert Converted(cfg, 1.0) == cfg.kconv1 + cfg.kconv2;
      }
    }
  }

  /** The conversion: factor and offset, and to zero what lies within the zero dead band. */
  lemma ConversionIsAffine(cfg: Config, x: real)
    ensures cfg.zeroDeadband.None? ==>
      && Converted(cfg, 0.0) == cfg.kconv2 && Converted(cfg, 1.0) == cfg.kconv1 + cfg.kconv2
      && Converted(cfg, x) - Converted(cfg, 0.0) == x * (Converted(cfg, 1.0) - Converted(cfg, 0.0))
    ensures cfg.zeroDeadband.Some? ==>
      var d, y := cfg.zeroDeadband.value, Converted(cfg.(zeroDeadband := None), x);
      Converted(cfg, x) == if -d < y < d then 0.0 else y
  {
  }

  predicate Watched(cfg: Config) {
    cfg.limits.Some? && !cfg.alarmDisabled
  }

  predicate Above(cfg: Config, v: real)
    requires Watched(cfg)
  {
    v > cfg.limits.value.hi + cfg.hysteresis
  }

  predicate Below(cfg: Config, v: real)
    requires Watched(cfg)
  {
    v < cfg.limits.value.lo - cfg.hysteresis
  }

  predicate Inside(cfg: Config, v: real)
    requires Watched(cfg)
  {
    cfg.limits.value.lo + cfg.hysteresis < v < cfg.limits.value.hi - cfg.hysteresis
  }

  /** The alarm range: the side the value is on, or the old one in a hysteresis band. */
  function NextRange(cfg: Config, was: Option<int>, v: real): int {
    if !Watched(cfg) then 0
    else if Above(cfg, v) then 1
    else if Below(cfg, v) then -1
    else if Inside(cfg, v) || was.None? then 0
    else was.value
  }

  function NextAlarmed(cfg: Config, r: Record, v: real): bool {
    var range := NextRange(cfg, r.alarmRange, v);
    if !Watched(cfg) then r.alarmed
    else if r.alarmRange != Some(range) && range != 0 then true
    else r.alarmed && (Above(cfg, v) || Below(cfg, v) || !Inside(cfg, v))
  }

  predicate IsSoe(cfg: Config, c: Change) {
    cfg.isEvent && c.timeTagAtSource.Some? && c.timeTagAtSource.value.year > 1899
  }

  predicate Stored(cfg: Config, r: Record, c: Change) {
    || IsSoe(cfg, c)
    || c.rangeCheck
    || Converted(cfg, c.valueAtSource) != r.value
    || (c.timeTagAtSource.Some? && c.timeTagAtSource != r.timeTagAtSource)
    || !r.updated
    || c.invalid != r.invalid
  }

  predicate Historized(cfg: Config, r: Record, c: Change) {
    Stored(cfg, r, c) &&
    (cfg.historianPeriod.Some? ==>
       && cfg.historianPeriod.value >= 0.0
       && !c.isNotForHistorical
       && (r.historianLastValue.Some? && cfg.historianDeadBand.Some? && cfg.historianDeadBand.value > 0.0 ==>
             Abs(Converted(cfg, c.valueAtSource) - r.historianLastValue.value) >= cfg.historianDeadBand.value))
  }

  function Next(cfg: Config, r: Record, c: Change): Record {
    var v := Converted(cfg, c.valueAtSource);
    if !Stored(cfg, r, c) then r
    else Record(v, c.invalid, Some(NextRange(cfg, r.alarmRange, v)), NextAlarmed(cfg, r, v) && !cfg.alarmDisabled, true,
                c.timeTagAtSource, if Historized(cfg, r, c) then Some(v) else r.historianLastValue)
  }

  predicate RangeChanges(cfg: Config, r: Record, c: Change) {
    Watched(cfg) && r.alarmRange != Some(NextRange(cfg, r.alarmRange, Converted(cfg, c.valueAtSource)))
  }

  function EventsOf(cfg: Config, r: Record, c: Change): seq<Event> {
    var v := Converted(cfg, c.valueAtSource);
    (if RangeChanges(cfg, r, c) then [RangeEvent(v, NextAlarmed(cfg, r, v))] else [])
    + if !cfg.alarmDisabled && (IsSoe(cfg, c) || (cfg.isEvent && !c.invalid && v != r.value)) then [ValueEvent(v)]
      else []
  }

  class Point {
    const cfg: Config
    var fields: Record
    var soe: seq<Event>
    var historian: seq<real>

    constructor (cfg: Config, fields: Record)
      ensures this.cfg == cfg && this.fields == fields && soe == [] && historian == []
    {
      this.cfg := cfg;
      this.fields := fields;
      soe, historian := [], [];
    }

    method HandleChange(c: Change)
      modifies this
      ensures fields == Next(cfg, old(fields), c)
      ensures soe == old(soe) + EventsOf(cfg, old(fields), c)
      ensures historian == old(historian)
        + if Historized(cfg, old(fields), c) then [Converted(cfg, c.valueAtSource)] else []
    {
      hide Converted, NextRange, NextAlarmed, Abs, Stored;
      var fd := fields;
      var isSoe := c.timeTagAtSource.Some? && cfg.isEvent && c.timeTagAtSource.value.year > 1899;
      var value := Convert(c.valueAtSource);
      var alarmRange, alarmed := CheckLimits(fd, value);
      if !cfg.alarmDisabled {
        if (cfg.isEvent && !c.invalid && value != fd.value) || isSoe {
          soe := soe + [ValueEvent(value)];
        }
      }
      var changed := ChangedForUpdate(fd, c, value, isSoe);
      if changed {
        StoreUpdate(fd, c, value, alarmRange, alarmed);
      }
    }

    method ChangedForUpdate(fd: Record, c: Change, value: real, isSoe: bool) returns (changed: bool)
      requires value == Converted(cfg, c.valueAtSource) && isSoe == IsSoe(cfg, c)
      ensures changed == Stored(cfg, fd, c)
    {
      hide Converted, IsSoe;
      var sourceTimeChanged := c.timeTagAtSource.Some?
        && (fd.timeTagAtSource.None? || fd.timeTagAtSource != c.timeTagAtSource);
      changed := isSoe || c.rangeCheck || value != fd.value || sourceTimeChanged
        || !fd.updated || c.invalid != fd.invalid;
    }

    method StoreUpdate(fd: Record, c: Change, value: real, alarmRange: int, alarmed: bool)
      requires value == Converted(cfg, c.valueAtSource) && Stored(cfg, fd, c)
      requires alarmRange == NextRange(cfg, fd.alarmRange, value) && alarmed == NextAlarmed(cfg, fd, value)
      modifies `fields, `historian
      ensures fields == Next(cfg, fd, c)
      ensures historian == old(historian) + if Historized(cfg, fd, c) then [value] else []
    {
      hide Converted, NextRange, NextAlarmed, Abs, Stored;
      var insert := InsertIntoHistorian(fd, value, c.isNotForHistorical);
      fields := Record(value, c.invalid, Some(alarmRange), alarmed && !cfg.alarmDisabled, true, c.timeTagAtSource,
                       if insert then Some(value) else fd.historianLastValue);
      if insert {
        historian := historian + [value];
      }
    }

    method Convert(valueAtSource: real) returns (value: real)
      ensures value == Converted(cfg, valueAtSource)
    {
      value := valueAtSource * cfg.kconv1 + cfg.kconv2;
      if cfg.zeroDeadband.Some? {
        if cfg.zeroDeadband.value != 0.0 && Abs(value) < cfg.zeroDeadband.value {
          value := 0.0;
        }
      }
    }

    /** The limit check, with its event when the range changes. */
    method CheckLimits(fd: Record, value: real) returns (alarmRange: int, alarmed: bool)
      modifies `soe
      ensures alarmRange == NextRange(cfg, fd.alarmRange, value) && alarmed == NextAlarmed(cfg, fd, value)
      ensures soe == old(soe)
        + if Watched(cfg) && fd.alarmRange != Some(alarmRange) then [RangeEvent(value, alarmed)] else []
    {
      alarmRange, alarmed := 0, fd.alarmed;
      if cfg.limits.None? || cfg.alarmDisabled {
        return;
      }
      var h := cfg.hysteresis;
      var limits := cfg.limits.value;
      if value > limits.hi + h {
        alarmRange := 1;
      } else if value < limits.lo - h {
        alarmRange := -1;
      } else if value < limits.hi - h && value > limits.lo + h {
        alarmed, alarmRange := false, 0;
      } else if fd.alarmRange.Some? && fd.alarmRange.value != 0 {
        alarmRange := fd.alarmRange.value;
      }
      if fd.alarmRange.None? || fd.alarmRange.value != alarmRange {
        if alarmRange != 0 {
          alarmed := true;
        }
        soe := soe + [RangeEvent(value, alarmed)];
      }
    }

    method InsertIntoHistorian(fd: Record, value: real, isNotForHistorical: bool) returns (insert: bool)
      ensures insert <==> (cfg.historianPeriod.Some? ==>
        && cfg.historianPeriod.value >= 0.0 && !isNotForHistorical
        && (fd.historianLastValue.Some? && cfg.historianDeadBand.Some? && cfg.historianDeadBand.value > 0.0 ==>
              Abs(value - fd.historianLastValue.value) >= cfg.historianDeadBand.value))
    {
      insert := true;
      if cfg.historianPeriod.Some? {
        if cfg.historianPeriod.value < 0.0 || isNotForHistorical {
          insert := false;
        } else if cfg.historianDeadBand.Some? {
          if fd.historianLastValue.Some? && cfg.historianDeadBand.value > 0.0 {
            if Abs(value - fd.historianLastValue.value) < Abs(cfg.historianDeadBand.value) {
              insert := false;
            }
          }
        }
      }
    }
  }

  // ---- what every change keeps ------------------------------------------------------------

  /** From the first stored update on, the range is one that its value does not move. */
  predicate Consistent(cfg: Config, r: Record) {
    && r.updated && r.alarmRange == Some(NextRange(cfg, r.alarmRange, r.value))
    && (r.alarmed && Watched(cfg) ==> r.alarmRange.value != 0)
  }

  /** The first change is stored whatever it says, and consistency begins with it. */
  lemma FirstChangeIsStored(cfg: Config, r: Record, c: Change)
    requires !r.updated && (r.alarmed ==> r.alarmRange.Some? && r.alarmRange.value != 0)
    ensures Stored(cfg, r, c) && Consistent(cfg, Next(cfg, r, c))
  {
    RangeIsStable(cfg, r.alarmRange, Converted(cfg, c.valueAtSource));
  }

  lemma RangeIsStable(cfg: Config, was: Option<int>, v: real)
    ensures NextRange(cfg, Some(NextRange(cfg, was, v)), v) == NextRange(cfg, was, v)
  {
  }

  /**
   Consistency is kept, alarmed points are out of range, and the range stored is always that of the
   latest value: no skipped update hides a change of range.
   */
  lemma ChangesKeepConsistency(cfg: Config, r: Record, c: Change)
    requires Consistent(cfg, r)
    ensures Consistent(cfg, Next(cfg, r, c))
    ensures Next(cfg, r, c).alarmRange == Some(NextRange(cfg, r.alarmRange, Converted(cfg, c.valueAtSource)))
    ensures Next(cfg, r, c).value == Converted(cfg, c.valueAtSource)
    ensures !Stored(cfg, r, c) ==> !RangeChanges(cfg, r, c)
  {
    RangeIsStable(cfg, r.alarmRange, Converted(cfg, c.valueAtSource));
  }

  // ---- what one change comes to -----------------------------------------------------------

  /** A point as changes leave it: never updated and not alarmed without a range, or consistent. */
  predicate Kept(cfg: Config, r: Record) {
    Consistent(cfg, r) || (!r.updated && (r.alarmed ==> r.alarmRange.Some? && r.alarmRange.value != 0))
  }

  /**
   Ranges: 1 above the high limit by more than the hysteresis, -1 below the low one, 0 inside both by
   more than the hysteresis, and else the old one, which is 0 for a point without any.
   */
  lemma RangeFollowsLimits(cfg: Config, r: Record, c: Change, lo: real, hi: real, h: real)
    requires Kept(cfg, r) && cfg.limits == Some(Limits(lo, hi)) && cfg.hysteresis == h && !cfg.alarmDisabled
    ensures var v, range := Converted(cfg, c.valueAtSource), Next(cfg, r, c).alarmRange;
      && (v > hi + h ==> range == Some(1))
      && (v <= hi + h && v < lo - h ==> range == Some(-1))
      && (v <= hi + h && v >= lo - h && lo + h < v < hi - h ==> range == Some(0))
      && (v <= hi + h && v >= lo - h && !(lo + h < v < hi - h) ==>
            range == if r.alarmRange.Some? then r.alarmRange else Some(0))
  {
    hide Converted;
  }

  /**
   Alarms: a point goes into alarm when its range changes to one outside the limits, leaves it when the
   value is inside both limits by more than the hysteresis, and else stays as it is. Just the changes
   of range are events, and carry the alarm that is stored.
   */
  lemma AlarmsFollowRanges(cfg: Config, r: Record, c: Change, lo: real, hi: real, h: real)
    requires Kept(cfg, r) && cfg.limits == Some(Limits(lo, hi)) && cfg.hysteresis == h && !cfg.alarmDisabled
    ensures var v, n, events := Converted(cfg, c.valueAtSource), Next(cfg, r, c), EventsOf(cfg, r, c);
      var left := n.alarmRange != r.alarmRange && n.alarmRange != Some(0);
      var back := v <= hi + h && v >= lo - h && lo + h < v < hi - h;
      && n.alarmed == (if left then true else if back then false else r.alarmed)
      && (if n.alarmRange != r.alarmRange then events != [] && events[0] == RangeEvent(v, n.alarmed)
          else forall e :: e in events ==> e.ValueEvent?)
      && (forall i :: 0 < i < |events| ==> events[i].ValueEvent?)
  {
    hide Converted;
  }

  /** Without limits, or with alarms disabled, there is no range; disabled points have no alarm and no events. */
  lemma UnwatchedHaveNoRange(cfg: Config, r: Record, c: Change)
    requires !r.updated || Consistent(cfg, r)
    ensures cfg.limits.None? || cfg.alarmDisabled ==>
      && Next(cfg, r, c).alarmRange == Some(0)
      && (forall e :: e in EventsOf(cfg, r, c) ==> e.ValueEvent?)
    ensures cfg.alarmDisabled ==> EventsOf(cfg, r, c) == [] && (c.rangeCheck ==> !Next(cfg, r, c).alarmed)
    ensures cfg.limits.None? && !cfg.alarmDisabled ==> Next(cfg, r, c).alarmed == r.alarmed
  {
    hide Converted;
  }

  /** A value event: the point is marked for events, and the update has a date, or is valid and changes the value. */
  lemma ValueEventsExactly(cfg: Config, r: Record, c: Change)
    ensures var v, events := Converted(cfg, c.valueAtSource), EventsOf(cfg, r, c);
      var dated := c.timeTagAtSource.Some? && c.timeTagAtSource.value.year >= 1900;
      && ((exists e :: e in events && e.ValueEvent?) <==>
            cfg.isEvent && !cfg.alarmDisabled && (dated || (!c.invalid && v != r.value)))
      && (forall e :: e in events && e.ValueEvent? ==> e.value == v && events[|events| - 1] == e)
  {
    hide Converted, NextRange, NextAlarmed;
    var events := EventsOf(cfg, r, c);
    if events != [] {
      assert events[|events| - 1] in events;
    }
  }

  /** Nothing new is lost: whatever was stored before, the fields then show the change. */
  lemma ChangeIsShown(cfg: Config, r: Record, c: Change)
    ensures var n := Next(cfg, r, c);
      && n.updated && n.value == Converted(cfg, c.valueAtSource) && n.invalid == c.invalid
      && (c.timeTagAtSource.Some? || c.rangeCheck ==> n.timeTagAtSource == c.timeTagAtSource)
  {
    hide Converted, NextRange, NextAlarmed, Historized;
  }

  /** And nothing else is stored: a change that says nothing new leaves the point and its history alone. */
  lemma NothingNewIsStored(cfg: Config, r: Record, c: Change)
    requires r.updated && r.value == Converted(cfg, c.valueAtSource) && r.invalid == c.invalid && !c.rangeCheck
    requires c.timeTagAtSource.Some? ==>
      c.timeTagAtSource == r.timeTagAtSource && (!cfg.isEvent || c.timeTagAtSource.value.year < 1900)
    ensures Next(cfg, r, c) == r && !Historized(cfg, r, c)
  {
    hide Converted, NextRange, NextAlarmed;
  }

  /**
   What is stored is sampled: always without a historian period, never with a negative one or when
   excluded, and else unless a last sample is nearer than a positive dead band.
   */
  lemma StoredIsSampled(cfg: Config, r: Record, c: Change)
    requires c.rangeCheck || !r.updated
    ensures var v, last := Converted(cfg, c.valueAtSource), r.historianLastValue;
      Historized(cfg, r, c) <==>
        || cfg.historianPeriod.None?
        || (cfg.historianPeriod.value >= 0.0 && !c.isNotForHistorical
            && (last.None? || cfg.historianDeadBand.None? || cfg.historianDeadBand.value <= 0.0
                || v >= last.value + cfg.historianDeadBand.value || v <= last.value - cfg.historianDeadBand.value))
    ensures Next(cfg, r, c).historianLastValue
      == if Historized(cfg, r, c) then Some(Converted(cfg, c.valueAtSource)) else r.historianLastValue
  {
    hide Converted, NextRange, NextAlarmed;
  }

  // ---- whole runs -------------------------------------------------------------------------

  function After(cfg: Config, r: Record, cs: seq<Change>): Record
    decreases |cs|
  {
    if cs == [] then r else After(cfg, Next(cfg, r, cs[0]), cs[1..])
  }

  /** After any run of changes the stored fields are consistent and hold the latest value. */
  lemma {:induction false} RunsKeepConsistency(cfg: Config, r: Record, cs: seq<Change>)
    requires cs != []
    requires Kept(cfg, r)
    ensures Consistent(cfg, After(cfg, r, cs))
    ensures After(cfg, r, cs).value == Converted(cfg, cs[|cs| - 1].valueAtSource)
    decreases |cs|
  {
    hide Converted, NextRange, NextAlarmed, Consistent, Stored;
    if Consistent(cfg, r) {
      ChangesKeepConsistency(cfg, r, cs[0]);
    } else {
      FirstChangeIsStored(cfg, r, cs[0]);
    }
    if |cs| > 1 {
      RunsKeepConsistency(cfg, Next(cfg, r, cs[0]), cs[1..]);
    } else {
      assert After(cfg, r, cs) == After(cfg, Next(cfg, r, cs[0]), cs[1..]);
    }
  }

  /** Alarm events over a run. */
  function RangeChangesIn(cfg: Config, r: Record, cs: seq<Change>): nat
    decreases |cs|
  {
    if cs == [] then 0
    else (if RangeChanges(cfg, r, cs[0]) then 1 else 0) + RangeChangesIn(cfg, Next(cfg, r, cs[0]), cs[1..])
  }

  function SamplesIn(cfg: Config, r: Record, cs: seq<Change>): seq<real>
    decreases |cs|
  {
    if cs == [] then []
    else
      (if Historized(cfg, r, cs[0]) then [Converted(cfg, cs[0].valueAtSource)] else [])
      + SamplesIn(cfg, Next(cfg, r, cs[0]), cs[1..])
  }

  function Times(n: int, x: real): real {
    n as real * x
  }

  /** The way the value goes, starting at `from`. */
  function Travel(cfg: Config, from: real, cs: seq<Change>): (t: real)
    ensures t >= 0.0
    decreases |cs|
  {
    if cs == [] then 0.0
    else
      var v := Converted(cfg, cs[0].valueAtSource);
      Abs(v - from) + Travel(cfg, v, cs[1..])
  }

  lemma Shortcut(cfg: Config, from: real, cs: seq<Change>)
    requires cs != []
    ensures Travel(cfg, from, cs[1..]) <= Travel(cfg, from, cs)
  {
  }

  /** The value at which the present range was entered. */
  predicate Entered(cfg: Config, r: Record, at: real) {
    Watched(cfg) && r.alarmRange.Some? &&
    match r.alarmRange.value
    case 1 => Above(cfg, at)
    case -1 => Below(cfg, at)
    case 0 => Inside(cfg, at)
    case _ => false
  }

  predicate Sound(cfg: Config) {
    cfg.hysteresis >= 0.0 && (cfg.limits.Some? ==> cfg.limits.value.lo <= cfg.limits.value.hi)
  }

  /** Two successive range changes are more than twice the hysteresis apart. */
  lemma ChangesAreApart(cfg: Config, r: Record, at: real, c: Change)
    requires Sound(cfg) && Consistent(cfg, r) && RangeChanges(cfg, r, c)
    ensures Entered(cfg, Next(cfg, r, c), Converted(cfg, c.valueAtSource))
    ensures Entered(cfg, r, at) ==> Abs(Converted(cfg, c.valueAtSource) - at) > 2.0 * cfg.hysteresis
  {
    ChangesKeepConsistency(cfg, r, c);
    var range, now := r.alarmRange.value, NextRange(cfg, r.alarmRange, Converted(cfg, c.valueAtSource));
    assert range != now;
    assert now == 1 || now == -1 || now == 0;
  }

  lemma {:induction false} ChatterFrom(cfg: Config, r: Record, at: real, cs: seq<Change>)
    requires Sound(cfg) && Consistent(cfg, r) && Entered(cfg, r, at)
    ensures Times(RangeChangesIn(cfg, r, cs), 2.0 * cfg.hysteresis) <= Travel(cfg, at, cs)
    ensures RangeChangesIn(cfg, r, cs) > 0 ==>
      Times(RangeChangesIn(cfg, r, cs), 2.0 * cfg.hysteresis) < Travel(cfg, at, cs)
    decreases |cs|
  {
    if cs != [] {
      hide Converted, Travel, NextRange, NextAlarmed, Stored, Historized, Times, Consistent;
      var v, next := Converted(cfg, cs[0].valueAtSource), Next(cfg, r, cs[0]);
      ChangesKeepConsistency(cfg, r, cs[0]);
      if RangeChanges(cfg, r, cs[0]) {
        ChangesAreApart(cfg, r, at, cs[0]);
        ChatterFrom(cfg, next, v, cs[1..]);
        TravelFirst(cfg, at, cs);
        OneMore(RangeChangesIn(cfg, next, cs[1..]), 2.0 * cfg.hysteresis);
      } else {
        SameRange(cfg, r, cs[0]);
        ChatterFrom(cfg, next, at, cs[1..]);
        Shortcut(cfg, at, cs);
      }
    } else {
      OneMore(0, 2.0 * cfg.hysteresis);
    }
  }

  lemma SameRange(cfg: Config, r: Record, c: Change)
    requires Watched(cfg) && Consistent(cfg, r) && !RangeChanges(cfg, r, c)
    ensures Next(cfg, r, c).alarmRange == r.alarmRange
  {
  }

  lemma TravelFirst(cfg: Config, from: real, cs: seq<Change>)
    requires cs != []
    ensures Travel(cfg, from, cs)
      == Abs(Converted(cfg, cs[0].valueAtSource) - from) + Travel(cfg, Converted(cfg, cs[0].valueAtSource), cs[1..])
  {
  }

  lemma OneMore(n: int, x: real)
    ensures Times(n + 1, x) == Times(n, x) + x
    ensures Times(0, x) == 0.0
  {
  }

  /**
   Alarm chatter is bounded: after the first stored update, (changes - 1) * 2h is at most the
   travel of the value, and less when there are at least two changes.
   */
  lemma {:induction false} ChatterBound(cfg: Config, r: Record, cs: seq<Change>)
    requires Sound(cfg) && Consistent(cfg, r)
    ensures Times(RangeChangesIn(cfg, r, cs) - 1, 2.0 * cfg.hysteresis) <= Travel(cfg, r.value, cs)
    ensures RangeChangesIn(cfg, r, cs) > 1 ==>
      Times(RangeChangesIn(cfg, r, cs) - 1, 2.0 * cfg.hysteresis) < Travel(cfg, r.value, cs)
    decreases |cs|
  {
    if cs != [] {
      hide Converted, Travel, NextRange, NextAlarmed, Stored, Historized, Times, Consistent;
      var next := Next(cfg, r, cs[0]);
      ChangesKeepConsistency(cfg, r, cs[0]);
      TravelFirst(cfg, r.value, cs);
      if RangeChanges(cfg, r, cs[0]) {
        ChangesAreApart(cfg, r, r.value, cs[0]);
        ChatterFrom(cfg, next, next.value, cs[1..]);
      } else {
        ChatterBound(cfg, next, cs[1..]);
      }
    }
  }

  // ---- the historian ----------------------------------------------------------------------

  /** A dead band is in force and no sample is excluded. */
  predicate DeadBand(cfg: Config, d: real) {
    d > 0.0 && cfg.historianDeadBand == Some(d) && cfg.historianPeriod.Some? && cfg.historianPeriod.value >= 0.0
  }

  predicate NoneExcluded(cs: seq<Change>) {
    forall i :: 0 <= i < |cs| ==> !cs[i].isNotForHistorical
  }

  /** The historian's last value is within the dead band of the stored one. */
  predicate Close(r: Record, d: real) {
    r.updated && r.historianLastValue.Some? && Abs(r.value - r.historianLastValue.value) < d
  }

  /** The first change begins a history that every later one keeps within the dead band. */
  lemma HistoryStaysClose(cfg: Config, r: Record, c: Change, d: real)
    requires DeadBand(cfg, d) && !c.isNotForHistorical
    ensures !r.updated || Close(r, d) ==> Close(Next(cfg, r, c), d)
    ensures Close(r, d) ==>
      (Historized(cfg, r, c) <==> Abs(Converted(cfg, c.valueAtSource) - r.historianLastValue.value) >= d)
  {
    hide Converted, NextRange, NextAlarmed;
  }

  ghost predicate Spaced(samples: seq<real>, d: real) {
    forall i :: 0 <= i < |samples| - 1 ==> Abs(samples[i + 1] - samples[i]) >= d
  }

  lemma SpacedFirst(a: real, b: real, rest: seq<real>, d: real)
    requires Spaced([b] + rest, d) && Abs(b - a) >= d
    ensures Spaced([a] + ([b] + rest), d)
  {
    var was, now := [b] + rest, [a] + ([b] + rest);
    forall i | 0 <= i < |now| - 1 ensures Abs(now[i + 1] - now[i]) >= d {
      if i > 0 {
        assert now[i] == was[i - 1] && now[i + 1] == was[i];
      }
    }
  }

  lemma {:induction false} SamplesAreApart(cfg: Config, r: Record, cs: seq<Change>, d: real)
    requires DeadBand(cfg, d) && NoneExcluded(cs) && Close(r, d)
    ensures var all := [r.historianLastValue.value] + SamplesIn(cfg, r, cs);
      && Spaced(all, d)
      && After(cfg, r, cs).historianLastValue == Some(all[|all| - 1])
    ensures Close(After(cfg, r, cs), d)
    ensures Times(|SamplesIn(cfg, r, cs)|, d) <= Travel(cfg, r.historianLastValue.value, cs)
    decreases |cs|
  {
    OneMore(0, d);
    if cs != [] {
      hide Converted, Travel, NextRange, NextAlarmed, Stored, Historized, Times, Spaced, Close, Next, Abs;
      var next, last := Next(cfg, r, cs[0]), r.historianLastValue.value;
      HistoryStaysClose(cfg, r, cs[0], d);
      SamplesAreApart(cfg, next, cs[1..], d);
      HistoryAdvances(cfg, r, cs[0]);
      TravelFirst(cfg, last, cs);
      Shortcut(cfg, last, cs);
      var rest := SamplesIn(cfg, next, cs[1..]);
      OneMore(|rest|, d);
      if Historized(cfg, r, cs[0]) {
        assert SamplesIn(cfg, r, cs) == [next.historianLastValue.value] + rest;
        SpacedFirst(last, next.historianLastValue.value, rest, d);
      } else {
        assert SamplesIn(cfg, r, cs) == rest;
      }
    }
  }

  lemma HistoryAdvances(cfg: Config, r: Record, c: Change)
    ensures Next(cfg, r, c).historianLastValue
      == if Historized(cfg, r, c) then Some(Converted(cfg, c.valueAtSource)) else r.historianLastValue
  {
  }

  /**
   From a point never updated: the first change is a sample, consecutive samples differ by at least
   the dead band, the stored value stays strictly within it of the last sample, and
   (samples - 1) * d is at most the travel of the value.
   */
  lemma DeadBandBoundsHistory(cfg: Config, r: Record, cs: seq<Change>, d: real)
    requires DeadBand(cfg, d) && NoneExcluded(cs) && cs != [] && !r.updated && r.historianLastValue.None?
    ensures var samples := SamplesIn(cfg, r, cs);
      && samples != [] && samples[0] == Converted(cfg, cs[0].valueAtSource)
      && Spaced(samples, d)
      && Times(|samples| - 1, d) <= Travel(cfg, samples[0], cs[1..])
      && Abs(After(cfg, r, cs).value - samples[|samples| - 1]) < d
  {
    hide Travel, NextRange, NextAlarmed, Converted, Times;
    var next := Next(cfg, r, cs[0]);
    HistoryStaysClose(cfg, r, cs[0], d);
    SamplesAreApart(cfg, next, cs[1..], d);
    assert SamplesIn(cfg, r, cs) == [next.historianLastValue.value] + SamplesIn(cfg, next, cs[1..]);
  }
}
