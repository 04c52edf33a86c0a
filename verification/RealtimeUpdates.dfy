/**
 Updates of realtime data and the operations a bulk write makes of them: flushRtBatch in
 src/cs_data_processor-go/writers.go and the drain loop in src/cs_data_processor/cs_data_processor.js.
 */
module RealtimeUpdates {
  import opened Options

  /** Field lists are opaque numbers. */
  datatype Update = Update(id: int, fields: int, addToSet: Option<int>)

  datatype Op = Set(id: int, fields: int) | AddToSet(id: int, fields: int)

  /** An update sets its fields, then adds to its set, if it has one. */
  function OpsOf(u: Update): seq<Op> {
    [Set(u.id, u.fields)] + if u.addToSet.Some? then [AddToSet(u.id, u.addToSet.value)] else []
  }

  function Ops(us: seq<Update>): seq<Op> {
    if us == [] then [] else Ops(us[..|us| - 1]) + OpsOf(us[|us| - 1])
  }

  lemma NoOps()
    ensures Ops([]) == []
  {
  }

  lemma OpsAppend(us: seq<Update>, u: Update)
    ensures Ops(us + [u]) == Ops(us) + OpsOf(u)
  {
    assert (us + [u])[..|us|] == us;
  }

  function Concat<T>(batches: seq<seq<T>>): seq<T> {
    if batches == [] then [] else batches[0] + Concat(batches[1..])
  }

  lemma {:induction false} OpsConcat(a: seq<Update>, b: seq<Update>)
    ensures Ops(a + b) == Ops(a) + Ops(b)
  {
    if b == [] {
      assert a + b == a;
    } else {
      assert (a + b)[..|a + b| - 1] == a + b[..|b| - 1];
      OpsConcat(a, b[..|b| - 1]);
    }
  }

  /** The set operations of a list, and its add-to-set operations, in order. */
  function Sets(ops: seq<Op>): seq<(int, int)> {
    if ops == [] then []
    else
      var op := ops[|ops| - 1];
      Sets(ops[..|ops| - 1]) + if op.Set? then [(op.id, op.fields)] else []
  }

  function Adds(ops: seq<Op>): seq<(int, int)> {
    if ops == [] then []
    else
      var op := ops[|ops| - 1];
      Adds(ops[..|ops| - 1]) + if op.AddToSet? then [(op.id, op.fields)] else []
  }

  lemma OneMoreOp(ops: seq<Op>, op: Op)
    ensures Sets(ops + [op]) == Sets(ops) + if op.Set? then [(op.id, op.fields)] else []
    ensures Adds(ops + [op]) == Adds(ops) + if op.AddToSet? then [(op.id, op.fields)] else []
  {
    assert (ops + [op])[..|ops|] == ops;
  }

  /** The additions that updates ask for, in order. */
  function Additions(us: seq<Update>): seq<(int, int)> {
    if us == [] then []
    else
      var u := us[|us| - 1];
      Additions(us[..|us| - 1]) + if u.addToSet.Some? then [(u.id, u.addToSet.value)] else []
  }

  /** An addition comes right after the set operation of the same point. */
  ghost predicate AddsFollowSets(ops: seq<Op>) {
    && (ops != [] ==> ops[0].Set?)
    && forall i, j :: 0 <= i && j == i + 1 < |ops| && ops[j].AddToSet? ==> ops[i].Set? && ops[i].id == ops[j].id
  }

  lemma OpFollows(ops: seq<Op>, op: Op)
    requires AddsFollowSets(ops)
    requires op.Set? || (ops != [] && ops[|ops| - 1].Set? && ops[|ops| - 1].id == op.id)
    ensures AddsFollowSets(ops + [op])
  {
    var longer := ops + [op];
    forall i, j | 0 <= i && j == i + 1 < |longer| && longer[j].AddToSet?
      ensures longer[i].Set? && longer[i].id == longer[j].id
    {
      if j < |ops| {
        assert longer[i] == ops[i] && longer[j] == ops[j];
      }
    }
  }

  /**
   Every update is set once, with its own fields, in the order of the updates; every addition asked for
   is made once, in order, right after the set operation of its point; and there is nothing else.
   */
  lemma {:induction false} OperationsOfUpdates(us: seq<Update>)
    ensures |Sets(Ops(us))| == |us| && forall i :: 0 <= i < |us| ==> Sets(Ops(us))[i] == (us[i].id, us[i].fields)
    ensures Adds(Ops(us)) == Additions(us) && |Ops(us)| == |us| + |Additions(us)|
    ensures AddsFollowSets(Ops(us))
  {
    hide Sets, Adds, AddsFollowSets, Ops, OpsOf, Additions;
    if us != [] {
      var n := |us| - 1;
      var u, before := us[n], Ops(us[..n]);
      OperationsOfUpdates(us[..n]);
      OneMoreUpdate(before, u);
      LastUpdate(us);
      forall i | 0 <= i < |us| ensures Sets(Ops(us))[i] == (us[i].id, us[i].fields) {
        if i < n {
          assert us[..n][i] == us[i];
        }
      }
    } else {
      NothingToDo();
    }
  }

  lemma NothingToDo()
    ensures Ops([]) == [] && Additions([]) == [] && Sets([]) == [] && Adds([]) == [] && AddsFollowSets([])
  {
  }

  lemma LastUpdate(us: seq<Update>)
    requires us != []
    ensures var n := |us| - 1;
      && Ops(us) == Ops(us[..n]) + OpsOf(us[n])
      && Additions(us) == Additions(us[..n])
           + if us[n].addToSet.Some? then [(us[n].id, us[n].addToSet.value)] else []
  {
  }

  lemma OneMoreUpdate(ops: seq<Op>, u: Update)
    requires AddsFollowSets(ops)
    ensures var more := ops + OpsOf(u);
      && Sets(more) == Sets(ops) + [(u.id, u.fields)]
      && Adds(more) == Adds(ops) + (if u.addToSet.Some? then [(u.id, u.addToSet.value)] else [])
      && AddsFollowSets(more) && |more| == |ops| + if u.addToSet.Some? then 2 else 1
  {
    hide Sets, Adds, AddsFollowSets;
    var setOp := Set(u.id, u.fields);
    OneMoreOp(ops, setOp);
    OpFollows(ops, setOp);
    if u.addToSet.Some? {
      var add := AddToSet(u.id, u.addToSet.value);
      OneMoreOp(ops + [setOp], add);
      OpFollows(ops + [setOp], add);
      assert ops + OpsOf(u) == ops + [setOp] + [add];
    } else {
      assert ops + OpsOf(u) == ops + [setOp];
    }
  }

  /** The list of models of one bulk write. */
  method BuildModels(batch: seq<Update>) returns (models: seq<Op>)
    ensures models == Ops(batch)
  {
    hide Ops;
    models := [];
    NoOps();
    for i := 0 to |batch|
      invariant models == Ops(batch[..i])
    {
      var u := batch[i];
      OpsAppend(batch[..i], u);
      assert batch[..i + 1] == batch[..i] + [u];
      ghost var base := models;
      models := models + [Set(u.id, u.fields)];
      if u.addToSet.Some? {
        models := models + [AddToSet(u.id, u.addToSet.value)];
      }
      assert models == base + OpsOf(u);
    }
    assert batch[..|batch|] == batch;
  }
}
