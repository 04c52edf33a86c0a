/**
 Address space discovery of the OPC UA client (src/OPC-UA-Client-Go/browse.go).

 A browse answer may come in pages: a continuation point stands for the pages still to be
 asked for (OPC UA Part 4, sections 5.8.2 and 5.8.3).
 */
module BrowsePages {
  import opened Options

  type NodeId = string

  datatype Reference = Reference(id: Option<NodeId>, name: Option<string>, property: bool) {
    /** References without a node id or a browse name are ignored. */
    predicate Usable() {
      id.Some? && name.Some?
    }
  }

  datatype Status = Good | BadNoContinuationPoints | OtherBad

  /** point holds the pages behind the continuation point; an empty one means there is none. */
  datatype BrowseResult = BrowseResult(status: Status, references: seq<Reference>, point: seq<seq<Reference>>)

  function ContinuationPoints(results: seq<BrowseResult>): (points: seq<seq<seq<Reference>>>)
    ensures forall p :: p in points ==> p != []
  {
    if results == [] then []
    else (if results[0].point != [] then [results[0].point] else []) + ContinuationPoints(results[1..])
  }

  /** The server's answer to BrowseNext: one page for each point, in the order of the points. */
  function BrowseNext(points: seq<seq<seq<Reference>>>): (results: seq<BrowseResult>)
    requires forall p :: p in points ==> p != []
    ensures |results| == |points|
  {
    if points == [] then []
    else
      assert points[0] in points && forall p :: p in points[1..] ==> p in points;
      [BrowseResult(Good, points[0][0], points[0][1..])] + BrowseNext(points[1..])
  }

  /** What merging a BrowseNext answer makes of the results. */
  function Merged(results: seq<BrowseResult>, continued: seq<BrowseResult>): (merged: seq<BrowseResult>)
    ensures |merged| == |results|
  {
    if results == [] then []
    else if results[0].point == [] then [results[0]] + Merged(results[1..], continued)
    else if continued == [] then results
    else
      [results[0].(references := results[0].references + continued[0].references, point := continued[0].point)]
      + Merged(results[1..], continued[1..])
  }

  lemma MergedNone(results: seq<BrowseResult>, continued: seq<BrowseResult>)
    ensures Merged(results[|results|..], continued) == []
  {
  }

  lemma MergedFirst(results: seq<BrowseResult>, i: nat, continued: seq<BrowseResult>, next: nat)
    requires i < |results| && next <= |continued|
    ensures var r, rest := results[i], results[i + 1..];
      Merged(results[i..], continued[next..]) ==
        if r.point == [] then [r] + Merged(rest, continued[next..])
        else if next == |continued| then results[i..]
        else [r.(references := r.references + continued[next].references, point := continued[next].point)]
             + Merged(rest, continued[next + 1..])
  {
    assert results[i..][1..] == results[i + 1..] && results[i..][0] == results[i];
    if next < |continued| {
      assert continued[next..][1..] == continued[next + 1..];
    }
  }

  lemma Shift(done: seq<BrowseResult>, r: BrowseResult, rest: seq<BrowseResult>, all: seq<BrowseResult>)
    requires done + ([r] + rest) == all
    ensures (done + [r]) + rest == all
  {
  }

  method MergeContinued(results: array<BrowseResult>, continued: seq<BrowseResult>)
    modifies results
    ensures results[..] == Merged(old(results[..]), continued)
  {
    hide Merged;
    var next := 0;
    ghost var was := results[..];
    ghost var all := Merged(was, continued);
    ghost var done: seq<BrowseResult> := [];
    assert was[0..] == was && continued[0..] == continued;
    for i := 0 to results.Length
      invariant 0 <= next <= |continued| && |done| == i
      invariant results[..] == done + was[i..]
      invariant done + Merged(was[i..], continued[next..]) == all
    {
      var r := results[i];
      assert r == was[i];
      MergedFirst(was, i, continued, next);
      if r.point != [] {
        if next >= |continued| {
          return;
        }
        r := r.(references := r.references + continued[next].references, point := continued[next].point);
        results[i] := r;
        next := next + 1;
      }
      Shift(done, r, Merged(was[i + 1..], continued[next..]), all);
      Updated(done, was, i, r);
      assert results[..] == (done + was[i..])[i := r];
      done := done + [r];
    }
    MergedNone(was, continued[next..]);
  }

  lemma Updated(done: seq<BrowseResult>, was: seq<BrowseResult>, i: nat, r: BrowseResult)
    requires |done| == i < |was|
    ensures (done + was[i..])[i := r] == (done + [r]) + was[i + 1..]
  {
  }

  // ---- draining a whole level -------------------------------------------------------------

  function Concat(pages: seq<seq<Reference>>): seq<Reference> {
    if pages == [] then [] else pages[0] + Concat(pages[1..])
  }

  /** A result with every page behind it collected. */
  function Drained(r: BrowseResult): BrowseResult {
    r.(references := r.references + Concat(r.point), point := [])
  }

  function Advanced(r: BrowseResult): BrowseResult {
    if r.point == [] then r else r.(references := r.references + r.point[0], point := r.point[1..])
  }

  lemma FirstAdvances(results: seq<BrowseResult>)
    requires results != []
    ensures var rest := results[1..];
      Merged(results, BrowseNext(ContinuationPoints(results)))
      == [Advanced(results[0])] + Merged(rest, BrowseNext(ContinuationPoints(rest)))
  {
    var rest := results[1..];
    if results[0].point != [] {
      assert ContinuationPoints(results)[1..] == ContinuationPoints(rest);
      assert BrowseNext(ContinuationPoints(results))[1..] == BrowseNext(ContinuationPoints(rest));
    } else {
      assert ContinuationPoints(results) == ContinuationPoints(rest);
    }
  }

  /** Merging the answer to a level's own points advances every result by its own next page. */
  lemma {:induction false} MergeAdvances(results: seq<BrowseResult>)
    ensures var merged := Merged(results, BrowseNext(ContinuationPoints(results)));
      forall i :: 0 <= i < |results| ==> merged[i] == Advanced(results[i])
  {
    hide Merged, BrowseNext, ContinuationPoints, Advanced;
    if results != [] {
      MergeAdvances(results[1..]);
      FirstAdvances(results);
    }
  }

  /** The points of the answer are the points the advanced results are left with. */
  lemma {:induction false} PointsAdvance(results: seq<BrowseResult>, advanced: seq<BrowseResult>)
    requires |advanced| == |results| && forall i :: 0 <= i < |results| ==> advanced[i] == Advanced(results[i])
    ensures ContinuationPoints(BrowseNext(ContinuationPoints(results))) == ContinuationPoints(advanced)
  {
    if results != [] {
      var rest := results[1..];
      PointsAdvance(rest, advanced[1..]);
      if results[0].point != [] {
        assert ContinuationPoints(results)[1..] == ContinuationPoints(rest);
        assert BrowseNext(ContinuationPoints(results))[1..] == BrowseNext(ContinuationPoints(rest));
      } else {
        assert ContinuationPoints(results) == ContinuationPoints(rest);
      }
    }
  }

  function Pages(results: seq<BrowseResult>): nat {
    if results == [] then 0 else |results[0].point| + Pages(results[1..])
  }

  lemma {:induction false} PagesDecrease(results: seq<BrowseResult>, advanced: seq<BrowseResult>)
    requires |advanced| == |results| && forall i :: 0 <= i < |results| ==> advanced[i] == Advanced(results[i])
    ensures Pages(advanced) <= Pages(results)
    ensures ContinuationPoints(results) != [] ==> Pages(advanced) < Pages(results)
    ensures ContinuationPoints(results) == [] ==> forall i :: 0 <= i < |results| ==> results[i].point == []
  {
    if results != [] {
      PagesDecrease(results[1..], advanced[1..]);
    }
  }

  lemma AdvancedDrainsAlike(r: BrowseResult)
    ensures Drained(Advanced(r)) == Drained(r)
  {
    if r.point != [] {
      assert r.references + r.point[0] + Concat(r.point[1..]) == r.references + Concat(r.point);
    }
  }

  /** Draining takes the pages behind a continuation point one after the other. */
  lemma PagesInOrder(status: Status, references: seq<Reference>, page: seq<Reference>, more: seq<seq<Reference>>)
    ensures Drained(BrowseResult(status, references, [page] + more))
      == Drained(BrowseResult(status, references + page, more))
    ensures Drained(BrowseResult(status, references, [])) == BrowseResult(status, references, [])
  {
    AdvancedDrainsAlike(BrowseResult(status, references, [page] + more));
    DrainedWithoutPoint(BrowseResult(status, references, []));
    assert ([page] + more)[1..] == more;
  }

  lemma DrainedWithoutPoint(r: BrowseResult)
    requires r.point == []
    ensures Drained(r) == r
  {
    assert r.references + [] == r.references;
  }

  lemma {:induction false} NoPoints(results: seq<BrowseResult>)
    requires ContinuationPoints(results) == []
    ensures forall i :: 0 <= i < |results| ==> results[i].point == []
  {
    if results != [] {
      NoPoints(results[1..]);
    }
  }

  /** Collects all pages of a level: nothing past the first page of a node is lost or misplaced. */
  method Drain(results: array<BrowseResult>)
    modifies results
    ensures forall i :: 0 <= i < results.Length ==> results[i] == Drained(old(results[i]))
  {
    hide Drained, Advanced, ContinuationPoints, BrowseNext, Merged, Pages;
    var cps := ContinuationPoints(results[..]);
    while |cps| > 0
      invariant cps == ContinuationPoints(results[..])
      invariant forall i :: 0 <= i < results.Length ==> Drained(results[i]) == Drained(old(results[i]))
      decreases Pages(results[..])
    {
      ghost var was := results[..];
      var next := BrowseNext(cps);
      MergeContinued(results, next);
      MergeAdvances(was);
      PointsAdvance(was, results[..]);
      PagesDecrease(was, results[..]);
      forall i | 0 <= i < results.Length ensures Drained(results[i]) == Drained(was[i]) {
        assert results[i] == results[..][i] == Advanced(was[i]);
        AdvancedDrainsAlike(was[i]);
      }
      cps := ContinuationPoints(next);
    }
    NoPoints(results[..]);
    forall i | 0 <= i < results.Length ensures results[i] == Drained(results[i]) {
      assert results[..][i].point == [];
      DrainedWithoutPoint(results[i]);
    }
  }
}

/** The breadth-first walk over the address space. */
module BrowseWalk {
  import opened Options
  import opened BrowsePages

  datatype Response = Results(results: seq<BrowseResult>) | TooLarge | Failed

  datatype Entry = Entry(ref: Reference, path: string)

  /** The nodes found so far and the order they were found in. */
  datatype Walk = Walk(refs: map<NodeId, Entry>, order: seq<NodeId>)

  /** prune tells the per-session diagnostics, by node id and path. */
  datatype Config = Config(start: NodeId, rootPath: string, prune: (NodeId, string) -> bool)

  const MAX_SEARCH_DEPTH := 128

  function TrimRight(s: string): (t: string)
    ensures |t| <= |s| && t == s[..|t|] && (t == [] || t[|t| - 1] != '/')
    ensures forall i :: |t| <= i < |s| ==> s[i] == '/'
  {
    if s != [] && s[|s| - 1] == '/' then TrimRight(s[..|s| - 1]) else s
  }

  function Join(parent: string, name: string): string {
    TrimRight(parent) + "/" + name
  }

  function ParentPath(c: Config, w: Walk, n: NodeId): string {
    if n in w.refs then w.refs[n].path else "/" + c.rootPath
  }

  // ---- what the walk knows at any time ----------------------------------------------------

  /** The references a node sent, none if it was refused. */
  datatype Reply = Reply(node: NodeId, references: seq<Reference>)

  /**
   received: references with the node they came from; answered: nodes browsed for good; log: the
   replies in the order they were visited in.
   */
  datatype History = History(received: set<(NodeId, Reference)>, answered: set<NodeId>, log: seq<Reply>)

  /** p is a path node n has had: its recorded one, or the root path for the start node. */
  ghost predicate PathOf(c: Config, w: Walk, n: NodeId, p: string) {
    (n in w.refs && p == w.refs[n].path) || (n == c.start && p == "/" + c.rootPath)
  }

  /** Recorded, or pruned as a diagnostic under a path of its parent. */
  ghost predicate Handled(c: Config, w: Walk, n: NodeId, r: Reference)
    requires r.Usable()
  {
    r.id.value in w.refs || exists p :: PathOf(c, w, n, p) && c.prune(r.id.value, Join(p, r.name.value))
  }

  /** The i-th node found came from n, found before it, and its path extends a path of n. */
  ghost predicate FoundUnder(c: Config, w: Walk, h: History, i: nat, n: NodeId)
    requires i < |w.order|
  {
    var k := w.order[i];
    && k in w.refs
    && w.refs[k].ref.Usable() && w.refs[k].ref.id.value == k
    && (n, w.refs[k].ref) in h.received
    && Expandable(c, w, n) && (n == c.start || n in w.order[..i])
    && (exists p :: PathOf(c, w, n, p) && w.refs[k].path == Join(p, w.refs[k].ref.name.value))
    && !c.prune(k, w.refs[k].path)
  }

  /** Only the start node and recorded nodes that are no properties are browsed. */
  ghost predicate Expandable(c: Config, w: Walk, n: NodeId) {
    n == c.start || (n in w.refs && !w.refs[n].ref.property)
  }

  ghost predicate Found(c: Config, w: Walk, h: History, i: nat)
    requires i < |w.order|
  {
    exists n :: FoundUnder(c, w, h, i, n)
  }

  ghost predicate Inv(c: Config, w: Walk, h: History, todo: set<NodeId>) {
    && (forall k :: k in w.order <==> k in w.refs)
    && (forall i, j :: 0 <= i < j < |w.order| ==> w.order[i] != w.order[j])
    && (forall n, r :: (n, r) in h.received && r.Usable() ==> Handled(c, w, n, r))
    && (forall n :: Expandable(c, w, n) <==> n in todo + h.answered)
    && (forall i :: 0 <= i < |w.order| ==> Found(c, w, h, i))
  }

  ghost predicate Extends(w: Walk, w': Walk) {
    && w.order <= w'.order
    && forall k :: k in w.refs ==> k in w'.refs && w'.refs[k] == w.refs[k]
  }

  // ---- one reference ----------------------------------------------------------------------

  datatype Visit = Visit(walk: Walk, expand: bool)

  /** One reference of a node with the given path: ignored, already known, pruned, or recorded. */
  function VisitReference(c: Config, w: Walk, parentPath: string, ref: Reference): (v: Visit)
    ensures v.expand ==> ref.Usable()
  {
    if !ref.Usable() then Visit(w, false)
    else
      var key := ref.id.value;
      if key in w.refs then Visit(w, false)
      else
        var path := Join(parentPath, ref.name.value);
        if c.prune(key, path) then Visit(w, false)
        else Visit(Walk(w.refs[key := Entry(ref, path)], w.order + [key]), !ref.property)
  }

  /** The references of one reply, in order. */
  function VisitAll(c: Config, w: Walk, parentPath: string, references: seq<Reference>): Walk {
    if references == [] then w
    else
      var n := |references| - 1;
      VisitReference(c, VisitAll(c, w, parentPath, references[..n]), parentPath, references[n]).walk
  }

  /** What a sequence of replies has found. */
  function Replay(c: Config, log: seq<Reply>): Walk {
    if log == [] then Walk(map[], [])
    else
      var n := |log| - 1;
      var before := Replay(c, log[..n]);
      VisitAll(c, before, ParentPath(c, before, log[n].node), log[n].references)
  }

  /** Every reply comes from a node that was to be browsed at the time. */
  ghost predicate Orderly(c: Config, log: seq<Reply>) {
    forall i :: 0 <= i < |log| ==> Expandable(c, Replay(c, log[..i]), log[i].node)
  }

  lemma ReplayNext(c: Config, log: seq<Reply>, reply: Reply)
    requires Orderly(c, log) && Expandable(c, Replay(c, log), reply.node)
    ensures Orderly(c, log + [reply])
    ensures Replay(c, log + [reply])
      == VisitAll(c, Replay(c, log), ParentPath(c, Replay(c, log), reply.node), reply.references)
  {
    hide Expandable, VisitAll;
    var longer := log + [reply];
    assert longer[..|log|] == log;
    forall i | 0 <= i < |longer| ensures Expandable(c, Replay(c, longer[..i]), longer[i].node) {
      if i < |log| {
        assert longer[..i] == log[..i];
      }
    }
  }

  lemma InvIgnoresLog(c: Config, w: Walk, h: History, todo: set<NodeId>, log: seq<Reply>)
    requires Inv(c, w, h, todo)
    ensures Inv(c, w, h.(log := log), todo)
  {
    var h' := h.(log := log);
    forall i | 0 <= i < |w.order| ensures Found(c, w, h', i) {
      FoundStays(c, w, w, h, h', i);
    }
  }

  lemma HandledStays(c: Config, w: Walk, w': Walk, n: NodeId, r: Reference)
    requires r.Usable() && Handled(c, w, n, r) && Extends(w, w')
    ensures Handled(c, w', n, r)
  {
    if r.id.value !in w.refs {
      var p :| PathOf(c, w, n, p) && c.prune(r.id.value, Join(p, r.name.value));
      assert PathOf(c, w', n, p);
    }
  }

  lemma FoundStays(c: Config, w: Walk, w': Walk, h: History, h': History, i: nat)
    requires i < |w.order| && Found(c, w, h, i) && h.received <= h'.received && Extends(w, w')
    ensures Found(c, w', h', i)
  {
    var n :| FoundUnder(c, w, h, i, n);
    assert w'.order[..i] == w.order[..i];
    var k := w.order[i];
    var p :| PathOf(c, w, n, p) && w.refs[k].path == Join(p, w.refs[k].ref.name.value);
    assert PathOf(c, w', n, p);
    assert FoundUnder(c, w', h', i, n);
  }

  /** A newly recorded reference is found under the node it came from. */
  lemma RecordedIsFound(c: Config, w: Walk, h: History, todo: set<NodeId>, n: NodeId, p: string, ref: Reference)
    requires Inv(c, w, h, todo) && Expandable(c, w, n) && PathOf(c, w, n, p)
    requires var v := VisitReference(c, w, p, ref); |v.walk.order| == |w.order| + 1
    ensures var v := VisitReference(c, w, p, ref);
      FoundUnder(c, v.walk, h.(received := h.received + {(n, ref)}), |w.order|, n)
  {
    var w' := VisitReference(c, w, p, ref).walk;
    assert PathOf(c, w', n, p);
    assert w'.order[..|w.order|] == w.order;
  }

  lemma VisitKeepsFrontier(c: Config, w: Walk, h: History, todo: set<NodeId>, p: string, ref: Reference)
    requires forall n :: Expandable(c, w, n) <==> n in todo + h.answered
    ensures var v := VisitReference(c, w, p, ref);
      var todo' := if v.expand then todo + {ref.id.value} else todo;
      forall n :: Expandable(c, v.walk, n) <==> n in todo' + h.answered
  {
    assert Expandable(c, w, c.start);
    var v := VisitReference(c, w, p, ref);
    var todo' := if v.expand then todo + {ref.id.value} else todo;
    forall n ensures Expandable(c, v.walk, n) <==> n in todo' + h.answered {
      assert Expandable(c, w, n) <==> n in todo + h.answered;
    }
  }

  lemma VisitExtends(c: Config, w: Walk, n: NodeId, p: string, ref: Reference)
    requires Expandable(c, w, n) && PathOf(c, w, n, p)
    requires forall k :: k in w.order <==> k in w.refs
    requires forall i, j :: 0 <= i < j < |w.order| ==> w.order[i] != w.order[j]
    ensures var v := VisitReference(c, w, p, ref);
      && Extends(w, v.walk) && Expandable(c, v.walk, n) && PathOf(c, v.walk, n, p)
      && (forall k :: k in v.walk.order <==> k in v.walk.refs)
      && (forall i, j :: 0 <= i < j < |v.walk.order| ==> v.walk.order[i] != v.walk.order[j])
      && (ref.Usable() ==> Handled(c, v.walk, n, ref))
  {
  }

  lemma VisitKeepsHandled(c: Config, w: Walk, w': Walk, h: History, n: NodeId, ref: Reference)
    requires forall m, r :: (m, r) in h.received && r.Usable() ==> Handled(c, w, m, r)
    requires Extends(w, w') && (ref.Usable() ==> Handled(c, w', n, ref))
    ensures forall m, r :: (m, r) in h.received + {(n, ref)} && r.Usable() ==> Handled(c, w', m, r)
  {
    hide Extends, Handled;
    forall m, r | (m, r) in h.received + {(n, ref)} && r.Usable() ensures Handled(c, w', m, r) {
      if (m, r) in h.received {
        HandledStays(c, w, w', m, r);
      }
    }
  }

  lemma VisitKeepsFound(c: Config, w: Walk, h: History, todo: set<NodeId>, n: NodeId, p: string, ref: Reference)
    requires Inv(c, w, h, todo) && Expandable(c, w, n) && PathOf(c, w, n, p)
    ensures var v := VisitReference(c, w, p, ref);
      forall i :: 0 <= i < |v.walk.order| ==> Found(c, v.walk, h.(received := h.received + {(n, ref)}), i)
  {
    hide FoundUnder, Join, PathOf, Handled, Expandable;
    var v := VisitReference(c, w, p, ref);
    var h' := h.(received := h.received + {(n, ref)});
    VisitExtends(c, w, n, p, ref);
    assert |v.walk.order| <= |w.order| + 1;
    forall i | 0 <= i < |v.walk.order| ensures Found(c, v.walk, h', i) {
      if i < |w.order| {
        FoundStays(c, w, v.walk, h, h', i);
      } else {
        RecordedIsFound(c, w, h, todo, n, p, ref);
      }
    }
  }

  /** Receiving a reference keeps the invariant; a recorded non-property joins the work to do. */
  lemma VisitKeepsInv(c: Config, w: Walk, h: History, todo: set<NodeId>, n: NodeId, p: string, ref: Reference)
    requires Inv(c, w, h, todo) && Expandable(c, w, n) && PathOf(c, w, n, p)
    ensures var v := VisitReference(c, w, p, ref);
      && Inv(c, v.walk, h.(received := h.received + {(n, ref)}), if v.expand then todo + {ref.id.value} else todo)
      && Extends(w, v.walk) && Expandable(c, v.walk, n) && PathOf(c, v.walk, n, p)
  {
    hide VisitReference, Expandable, PathOf, Extends, Found, Handled;
    VisitExtends(c, w, n, p, ref);
    VisitKeepsFrontier(c, w, h, todo, p, ref);
    VisitKeepsFound(c, w, h, todo, n, p, ref);
    VisitKeepsHandled(c, w, VisitReference(c, w, p, ref).walk, h, n, ref);
  }

  /** Moving a node from the work to do to the answered ones keeps the invariant. */
  lemma AnswerKeepsInv(c: Config, w: Walk, h: History, todo: set<NodeId>, todo': set<NodeId>, n: NodeId)
    requires Inv(c, w, h, todo) && n in todo && todo' <= todo <= todo' + {n}
    ensures Inv(c, w, h.(answered := h.answered + {n}), todo')
  {
    var h' := h.(answered := h.answered + {n});
    forall i | 0 <= i < |w.order| ensures Found(c, w, h', i) {
      FoundStays(c, w, w, h, h', i);
    }
  }

  // ---- the walk ---------------------------------------------------------------------------

  function SetOf(s: seq<NodeId>): set<NodeId> {
    set n | n in s
  }

  /** An answer has no more results than nodes were asked for. */
  ghost predicate InBounds(server: (nat, seq<NodeId>) -> Response) {
    forall k, b :: server(k, b).Results? ==> |server(k, b).results| <= |b|
  }

  /** The server answers batch b in error, or finds a single node too large. */
  ghost predicate FailsOn(server: (nat, seq<NodeId>) -> Response, b: seq<NodeId>) {
    exists k :: server(k, b).Failed? || (server(k, b).TooLarge? && |b| == 1)
  }

  ghost predicate AnswersBatch(server: (nat, seq<NodeId>) -> Response, b: seq<NodeId>, answer: seq<BrowseResult>) {
    exists k :: server(k, b) == Results(answer)
  }

  /** The nodes of one request: all that are pending, or as many as a limit other than zero allows. */
  function Cut(pending: seq<NodeId>, limit: nat): seq<NodeId> {
    if 0 < limit < |pending| then pending[..limit] else pending
  }

  function Halved(pending: seq<NodeId>, limit: nat): nat {
    (if limit == 0 then |pending| else limit) / 2
  }

  /** The limits one level tries, from request number k on: after each answer too large to encode, half. */
  ghost predicate Tries(server: (nat, seq<NodeId>) -> Response, k: nat, pending: seq<NodeId>, limits: seq<nat>) {
    && limits != []
    && forall i, l :: 0 <= i < |limits| - 1 && l == limits[i] ==>
         server(k + i, Cut(pending, l)).TooLarge? && limits[i + 1] == Halved(pending, l) >= 1
  }

  lemma TriesLonger(server: (nat, seq<NodeId>) -> Response, k: nat, pending: seq<NodeId>, limits: seq<nat>)
    requires Tries(server, k, pending, limits)
    requires var l := limits[|limits| - 1];
      server(k + |limits| - 1, Cut(pending, l)).TooLarge? && Halved(pending, l) >= 1
    ensures Tries(server, k, pending, limits + [Halved(pending, limits[|limits| - 1])])
  {
    var longer := limits + [Halved(pending, limits[|limits| - 1])];
    forall i, l | 0 <= i < |longer| - 1 && l == longer[i]
      ensures server(k + i, Cut(pending, l)).TooLarge? && longer[i + 1] == Halved(pending, l) >= 1
    {
      assert l == limits[i];
    }
  }

  /** The last of these tries ends the browse: another error, or a single node that is too large. */
  ghost predicate GivesUp(server: (nat, seq<NodeId>) -> Response, k: nat, pending: seq<NodeId>, limits: seq<nat>) {
    && Tries(server, k, pending, limits)
    && var l := limits[|limits| - 1];
      var r := server(k + |limits| - 1, Cut(pending, l));
      r.Failed? || (r.TooLarge? && Halved(pending, l) == 0)
  }

  /** One Browse request, retried with half the nodes while the answer is too large to encode. */
  method BrowseBatch(server: (nat, seq<NodeId>) -> Response, request: nat, pending: seq<NodeId>, limit: nat)
    returns (batch: seq<NodeId>, answer: Option<seq<BrowseResult>>, limit': nat, request': nat, ghost limits: seq<nat>)
    requires pending != []
    requires InBounds(server)
    ensures batch != [] && batch <= pending
    ensures Tries(server, request, pending, limits) && limits[0] == limit
    ensures request' == request + |limits| && batch == Cut(pending, limits[|limits| - 1])
    ensures answer.Some? ==> server(request' - 1, batch) == Results(answer.value) && |answer.value| <= |batch|
    ensures answer.Some? ==> limit' == limits[|limits| - 1]
    ensures answer.Some? && 0 < limit ==> |batch| <= limit' <= limit
    ensures answer.None? ==> GivesUp(server, request, pending, limits) && FailsOn(server, batch)
  {
    limit', request', limits := limit, request, [limit];
    while true
      invariant Tries(server, request, pending, limits) && limits[0] == limit && limits[|limits| - 1] == limit'
      invariant request' == request + |limits| - 1
      invariant 0 < limit ==> 0 < limit' <= limit
      decreases if limit' == 0 then |pending| + 1 else limit'
    {
      batch := pending;
      if limit' > 0 && |batch| > limit' {
        batch := pending[..limit'];
      }
      var resp := server(request', batch);
      request' := request' + 1;
      match resp {
        case Results(results) =>
          return batch, Some(results), limit', request', limits;
        case Failed =>
          return batch, None, limit', request', limits;
        case TooLarge =>
          limit' := if limit' == 0 then |batch| / 2 else limit' / 2;
          if limit' < 1 {
            return batch, None, limit', request', limits;
          }
          TriesLonger(server, request, pending, limits);
          limits := limits + [limit'];
      }
    }
  }

  /**
   Batches are not cut needlessly: if the server can encode the answers for m nodes and no more, the
   batch answered is within m, and has all pending nodes, as many as the first limit, or at least half
   of what the server can take.
   */
  lemma BatchIsNotTooSmall(server: (nat, seq<NodeId>) -> Response, k: nat, pending: seq<NodeId>,
      limits: seq<nat>, m: nat)
    requires Tries(server, k, pending, limits)
    requires forall i, b :: server(i, b).TooLarge? <==> |b| > m
    requires var batch := Cut(pending, limits[|limits| - 1]); server(k + |limits| - 1, batch).Results?
    ensures var batch := Cut(pending, limits[|limits| - 1]);
      && batch <= pending && |batch| <= m
      && (batch == pending || (|limits| == 1 && |batch| == limits[0]) || (|limits| > 1 && 2 * |batch| >= m))
  {
    if |limits| > 1 {
      var l := limits[|limits| - 2];
      assert server(k + |limits| - 2, Cut(pending, l)).TooLarge? && limits[|limits| - 2 + 1] == Halved(pending, l) >= 1;
    }
  }

  /** The browse only ends in error where the server does, or cannot encode the answer for one node. */
  lemma GivesUpOnServerOnly(server: (nat, seq<NodeId>) -> Response, k: nat, pending: seq<NodeId>, limits: seq<nat>)
      returns (request: nat, batch: seq<NodeId>)
    requires pending != [] && GivesUp(server, k, pending, limits)
    ensures k <= request && batch != [] && batch <= pending
    ensures server(request, batch).Failed? || (server(request, batch).TooLarge? && |batch| == 1)
  {
    request, batch := k + |limits| - 1, Cut(pending, limits[|limits| - 1]);
  }

  // ---- what a level finds and what it has to ask again --------------------------------------

  /** Of some recorded nodes those that are no properties, in order. */
  function ToBrowse(w: Walk, nodes: seq<NodeId>): seq<NodeId> {
    if nodes == [] then []
    else
      var n := nodes[|nodes| - 1];
      ToBrowse(w, nodes[..|nodes| - 1]) + if n in w.refs && !w.refs[n].ref.property then [n] else []
  }

  lemma {:induction false} ToBrowseConcat(w: Walk, a: seq<NodeId>, b: seq<NodeId>)
    ensures ToBrowse(w, a + b) == ToBrowse(w, a) + ToBrowse(w, b)
  {
    if b == [] {
      assert a + b == a;
    } else {
      assert (a + b)[..|a + b| - 1] == a + b[..|b| - 1];
      ToBrowseConcat(w, a, b[..|b| - 1]);
    }
  }

  lemma {:induction false} ToBrowseStays(w: Walk, w': Walk, nodes: seq<NodeId>)
    requires Extends(w, w') && forall n :: n in nodes ==> n in w.refs
    ensures ToBrowse(w', nodes) == ToBrowse(w, nodes)
  {
    if nodes != [] {
      ToBrowseStays(w, w', nodes[..|nodes| - 1]);
    }
  }

  /** The nodes of a batch the server refused for want of continuation points, in order. */
  function Refused(batch: seq<NodeId>, results: seq<BrowseResult>): (nodes: seq<NodeId>)
    requires |results| <= |batch|
    ensures forall i :: 0 <= i < |results| && results[i].status == BadNoContinuationPoints ==> batch[i] in nodes
    ensures forall n :: n in nodes ==> n in batch[..|results|]
  {
    if results == [] then []
    else
      var i := |results| - 1;
      assert results == results[..i] + [results[i]];
      assert batch[..i + 1] == batch[..i] + [batch[i]];
      Refused(batch, results[..i]) + if results[i].status == BadNoContinuationPoints then [batch[i]] else []
  }

  /** The replies of a level, all pages of every result collected. */
  function Replies(batch: seq<NodeId>, answer: seq<BrowseResult>): (log: seq<Reply>)
    requires |answer| <= |batch|
    ensures |log| == |answer|
    ensures forall i :: 0 <= i < |answer| ==> log[i] == Reply(batch[i], Drained(answer[i]).references)
  {
    seq(|answer|, i requires 0 <= i < |answer| => Reply(batch[i], Drained(answer[i]).references))
  }

  /** All references of one answered or re-queued node. */
  method VisitReferences(c: Config, w: Walk, n: NodeId, references: seq<Reference>,
      ghost h: History, ghost todo: set<NodeId>)
    returns (w': Walk, next: seq<NodeId>, ghost h': History)
    requires Inv(c, w, h, todo) && Expandable(c, w, n)
    ensures Inv(c, w', h', todo + SetOf(next)) && h'.answered == h.answered && Extends(w, w')
    ensures h'.received == h.received + Sent(n, references)
    ensures w' == VisitAll(c, w, ParentPath(c, w, n), references) && h'.log == h.log + [Reply(n, references)]
    ensures w.order <= w'.order && next == ToBrowse(w', w'.order[|w.order|..])
  {
    hide Inv, Expandable, PathOf, Extends, VisitReference, ToBrowse;
    w', next, h' := w, [], h;
    NothingToBrowse(w);
    var parentPath := ParentPath(c, w, n);
    StartVisiting(c, w, n);
    assert todo + SetOf(next) == todo;
    for j := 0 to |references|
      invariant Inv(c, w', h', todo + SetOf(next)) && Expandable(c, w', n) && PathOf(c, w', n, parentPath)
      invariant Extends(w, w') && h'.answered == h.answered && w' == VisitAll(c, w, parentPath, references[..j])
      invariant h'.received == h.received + Sent(n, references[..j])
      invariant w.order <= w'.order && next == ToBrowse(w', w'.order[|w.order|..])
    {
      var v := VisitReference(c, w', parentPath, references[j]);
      VisitFinds(c, w', h', todo + SetOf(next), parentPath, references[j], |w.order|);
      VisitKeepsInv(c, w', h', todo + SetOf(next), n, parentPath, references[j]);
      ExtendsTransitive(w, w', v.walk);
      SentGrows(n, references, j);
      assert references[..j + 1][..j] == references[..j];
      w' := v.walk;
      h' := h'.(received := h'.received + {(n, references[j])});
      if v.expand {
        SetOfGrows(next, references[j].id.value);
        assert todo + SetOf(next) + {references[j].id.value} == todo + SetOf(next + [references[j].id.value]);
        next := next + [references[j].id.value];
      }
    }
    assert references[..|references|] == references;
    InvIgnoresLog(c, w', h', todo + SetOf(next), h.log + [Reply(n, references)]);
    h' := h'.(log := h.log + [Reply(n, references)]);
  }

  lemma NothingToBrowse(w: Walk)
    ensures ToBrowse(w, w.order[|w.order|..]) == []
  {
  }

  /** One reference adds to the nodes to browse exactly what it records as no property. */
  lemma VisitFinds(c: Config, w: Walk, h: History, todo: set<NodeId>, p: string, ref: Reference, from: nat)
    requires Inv(c, w, h, todo) && from <= |w.order|
    ensures var v := VisitReference(c, w, p, ref);
      && w.order <= v.walk.order
      && ToBrowse(v.walk, v.walk.order[from..])
        == ToBrowse(w, w.order[from..]) + if v.expand then [ref.id.value] else []
  {
    var v := VisitReference(c, w, p, ref);
    var found := w.order[from..];
    forall n | n in found ensures n in w.refs {
      assert n in w.order;
    }
    RecordedAlone(c, w, p, ref);
    hide VisitReference, Join, Inv;
    ToBrowseStays(w, v.walk, found);
    if |v.walk.order| > |w.order| {
      assert v.walk.order[from..] == found + [ref.id.value];
      ToBrowseLast(v.walk, found, ref.id.value);
    }
  }

  lemma ToBrowseLast(w: Walk, nodes: seq<NodeId>, n: NodeId)
    ensures ToBrowse(w, nodes + [n])
      == ToBrowse(w, nodes) + if n in w.refs && !w.refs[n].ref.property then [n] else []
  {
    assert (nodes + [n])[..|nodes|] == nodes;
  }

  lemma RecordedAlone(c: Config, w: Walk, p: string, ref: Reference)
    ensures var v := VisitReference(c, w, p, ref);
      && Extends(w, v.walk)
      && ((v.walk == w && !v.expand)
          || (ref.Usable() && v.walk.order == w.order + [ref.id.value]
              && ref.id.value in v.walk.refs && v.walk.refs[ref.id.value].ref == ref && v.expand == !ref.property))
  {
  }

  ghost function Sent(n: NodeId, references: seq<Reference>): set<(NodeId, Reference)> {
    set r | r in references :: (n, r)
  }

  lemma SentGrows(n: NodeId, references: seq<Reference>, j: nat)
    requires j < |references|
    ensures Sent(n, references[..j + 1]) == Sent(n, references[..j]) + {(n, references[j])}
  {
    assert references[..j + 1] == references[..j] + [references[j]];
  }

  lemma SetOfGrows(s: seq<NodeId>, n: NodeId)
    ensures SetOf(s + [n]) == SetOf(s) + {n}
  {
  }

  lemma StartVisiting(c: Config, w: Walk, n: NodeId)
    requires Expandable(c, w, n)
    ensures PathOf(c, w, n, ParentPath(c, w, n)) && Extends(w, w)
  {
  }

  lemma ExtendsTransitive(w: Walk, w': Walk, w'': Walk)
    requires Extends(w, w') && Extends(w', w'')
    ensures Extends(w, w'')
  {
  }

  // ---- answers ----------------------------------------------------------------------------

  /** Answer number k to batch b: the i-th node asked for, and all pages of its result. */
  ghost predicate Answers(server: (nat, seq<NodeId>) -> Response, n: NodeId, r: BrowseResult) {
    exists k: nat, b: seq<NodeId>, i: nat ::
      IsAnswer(server, k, b, i) && b[i] == n && r == Drained(server(k, b).results[i])
  }

  ghost predicate IsAnswer(server: (nat, seq<NodeId>) -> Response, k: nat, b: seq<NodeId>, i: nat) {
    server(k, b).Results? && i < |b| && i < |server(k, b).results|
  }

  /** All references of an answered node were received, and whatever was received was sent. */
  ghost predicate Faithful(server: (nat, seq<NodeId>) -> Response, h: History) {
    && (forall n :: n in h.answered ==>
          exists r ::
            Answers(server, n, r) && r.status != BadNoContinuationPoints && Sent(n, r.references) <= h.received)
    && (forall n, ref :: (n, ref) in h.received ==> exists r :: Answers(server, n, r) && ref in r.references)
  }

  lemma FaithfulGrows(server: (nat, seq<NodeId>) -> Response, h: History, h': History, n: NodeId, r: BrowseResult)
    requires Faithful(server, h) && Answers(server, n, r)
    requires h'.received == h.received + Sent(n, r.references)
    requires h'.answered == h.answered || (r.status != BadNoContinuationPoints && h'.answered == h.answered + {n})
    ensures Faithful(server, h')
  {
    forall m | m in h'.answered
      ensures exists q ::
        Answers(server, m, q) && q.status != BadNoContinuationPoints && Sent(m, q.references) <= h'.received
    {
      if m in h.answered {
        var q :| Answers(server, m, q) && q.status != BadNoContinuationPoints && Sent(m, q.references) <= h.received;
        assert Sent(m, q.references) <= h'.received;
      } else {
        assert m == n && Sent(n, r.references) <= h'.received;
      }
    }
    forall m, ref | (m, ref) in h'.received ensures exists q :: Answers(server, m, q) && ref in q.references {
      if (m, ref) in h.received {
      } else {
        assert m == n && ref in r.references;
      }
    }
  }

  ghost predicate IsReply(server: (nat, seq<NodeId>) -> Response, reply: Reply) {
    exists r :: Answers(server, reply.node, r) && r.references == reply.references
  }

  ghost predicate IsFullReply(server: (nat, seq<NodeId>) -> Response, reply: Reply) {
    exists r ::
      Answers(server, reply.node, r) && r.references == reply.references && r.status != BadNoContinuationPoints
  }

  ghost predicate HasFullReply(server: (nat, seq<NodeId>) -> Response, log: seq<Reply>, n: NodeId) {
    exists i :: 0 <= i < |log| && log[i].node == n && IsFullReply(server, log[i])
  }

  /** The log explains the walk: its replies are the server's, and they found just what was found. */
  ghost predicate Logged(server: (nat, seq<NodeId>) -> Response, c: Config, w: Walk, h: History) {
    && w == Replay(c, h.log) && Orderly(c, h.log)
    && (forall i :: 0 <= i < |h.log| ==> IsReply(server, h.log[i]))
    && (forall n :: n in h.answered ==> HasFullReply(server, h.log, n))
  }

  lemma LoggedGrows(server: (nat, seq<NodeId>) -> Response, c: Config, w: Walk, h: History, w': Walk, h': History,
      n: NodeId, r: BrowseResult)
    requires Logged(server, c, w, h) && Answers(server, n, r) && Expandable(c, w, n)
    requires w' == VisitAll(c, w, ParentPath(c, w, n), r.references) && h'.log == h.log + [Reply(n, r.references)]
    requires h'.answered == h.answered || (r.status != BadNoContinuationPoints && h'.answered == h.answered + {n})
    ensures Logged(server, c, w', h')
  {
    hide Replay, Orderly, Expandable, VisitAll, Answers, HasFullReply, IsReply, IsFullReply;
    var reply := Reply(n, r.references);
    ReplayNext(c, h.log, reply);
    AnswerIsReply(server, n, r);
    forall i | 0 <= i < |h'.log| ensures IsReply(server, h'.log[i]) {
      if i < |h.log| {
        assert h'.log[i] == h.log[i];
      }
    }
    forall m | m in h'.answered ensures HasFullReply(server, h'.log, m) {
      FullReplyStays(server, h.log, reply, m);
    }
  }

  lemma AnswerIsReply(server: (nat, seq<NodeId>) -> Response, n: NodeId, r: BrowseResult)
    requires Answers(server, n, r)
    ensures IsReply(server, Reply(n, r.references))
    ensures r.status != BadNoContinuationPoints ==> IsFullReply(server, Reply(n, r.references))
  {
    hide Answers;
  }

  lemma FullReplyStays(server: (nat, seq<NodeId>) -> Response, log: seq<Reply>, reply: Reply, m: NodeId)
    requires HasFullReply(server, log, m) || (reply.node == m && IsFullReply(server, reply))
    ensures HasFullReply(server, log + [reply], m)
  {
    hide IsFullReply;
    var longer := log + [reply];
    if HasFullReply(server, log, m) {
      var i :| 0 <= i < |log| && log[i].node == m && IsFullReply(server, log[i]);
      assert longer[i] == log[i];
    } else {
      assert longer[|log|] == reply;
    }
  }

  /** The nodes the server could not serve for want of continuation points. */
  method Unprocessed(batch: seq<NodeId>, results: seq<BrowseResult>) returns (nodes: seq<NodeId>)
    requires |results| <= |batch|
    ensures nodes == Refused(batch, results)
  {
    nodes := [];
    for i := 0 to |results|
      invariant nodes == Refused(batch, results[..i])
    {
      assert results[..i + 1][..i] == results[..i];
      if results[i].status == BadNoContinuationPoints {
        nodes := nodes + [batch[i]];
      }
    }
    assert results[..|results|] == results;
  }

  lemma AddOne(s: set<NodeId>, n: NodeId)
    ensures |s + {n}| <= |s| + 1
  {
    if n in s {
      assert s + {n} == s;
    }
  }

  /** Visits everything a level of answers brought in and collects the nodes to browse next. */
  method VisitLevel(server: (nat, seq<NodeId>) -> Response, c: Config, w: Walk, batch: seq<NodeId>,
                    results: seq<BrowseResult>, ghost h: History, ghost rest: set<NodeId>)
    returns (w': Walk, nextNodes: seq<NodeId>, ghost h': History)
    requires |results| <= |batch|
    requires forall i :: 0 <= i < |results| ==> Answers(server, batch[i], results[i])
    requires forall i :: 0 <= i < |results| && results[i].status == BadNoContinuationPoints ==> batch[i] in rest
    requires Inv(c, w, h, rest + SetOf(batch[..|results|])) && Faithful(server, h) && Logged(server, c, w, h)
    ensures Inv(c, w', h', rest + SetOf(nextNodes)) && Faithful(server, h') && Logged(server, c, w', h')
    ensures |h'.answered| <= |h.answered| + |batch|
    ensures h'.log == h.log + SentReplies(batch, results)
    ensures w.order <= w'.order && nextNodes == ToBrowse(w', w'.order[|w.order|..])
  {
    hide Inv, Faithful, Extends, Answers, Logged, VisitAll, Expandable, ToBrowse, SetOf, SentReplies, Sent;
    w', nextNodes, h' := w, [], h;
    NothingToBrowse(w);
    LevelStarts(rest, batch, results);
    assert h.log + [] == h.log;
    for i := 0 to |results|
      invariant Inv(c, w', h', rest + SetOf(nextNodes) + SetOf(batch[i..|results|]))
      invariant Faithful(server, h') && Logged(server, c, w', h')
      invariant |h'.answered| <= |h.answered| + i
      invariant h'.log == h.log + SentReplies(batch, results)[..i]
      invariant w.order <= w'.order && nextNodes == ToBrowse(w', w'.order[|w.order|..])
    {
      var n := batch[i];
      var r := results[i];
      ghost var todo := rest + SetOf(nextNodes) + SetOf(batch[i..|results|]);
      InTodo(rest, nextNodes, batch, i, |results|);
      TodoIsExpandable(c, w', h', todo, n);
      ghost var w0, h0 := w', h';
      var next;
      w', next, h' := VisitReferences(c, w', n, r.references, h', todo);
      ghost var after := rest + SetOf(nextNodes + next) + SetOf(batch[i + 1..|results|]);
      TodoMoves(rest, nextNodes, next, batch, i, |results|);
      if r.status != BadNoContinuationPoints {
        AnswerKeepsInv(c, w', h', todo + SetOf(next), after, n);
        h' := h'.(answered := h'.answered + {n});
        AddOne(h0.answered, n);
      } else {
        RefusedStays(rest, nextNodes, next, batch, i, |results|);
      }
      FaithfulGrows(server, h0, h', n, r);
      LoggedGrows(server, c, w0, h0, w', h', n, r);
      LevelFinds(c, w0, h0, todo, w', |w.order|);
      NextReply(h.log, batch, results, i);
      nextNodes := nextNodes + next;
    }
    LevelEnds(rest, nextNodes, batch, results);
  }

  lemma LevelStarts(rest: set<NodeId>, batch: seq<NodeId>, results: seq<BrowseResult>)
    requires |results| <= |batch|
    ensures rest + SetOf([]) + SetOf(batch[0..|results|]) == rest + SetOf(batch[..|results|])
    ensures SentReplies(batch, results)[..0] == []
  {
  }

  lemma LevelEnds(rest: set<NodeId>, next: seq<NodeId>, batch: seq<NodeId>, results: seq<BrowseResult>)
    requires |results| <= |batch|
    ensures rest + SetOf(next) + SetOf(batch[|results|..|results|]) == rest + SetOf(next)
    ensures SentReplies(batch, results)[..|results|] == SentReplies(batch, results)
  {
    assert batch[|results|..|results|] == [];
  }

  lemma InTodo(rest: set<NodeId>, next: seq<NodeId>, batch: seq<NodeId>, i: nat, m: nat)
    requires i < m <= |batch|
    ensures batch[i] in rest + SetOf(next) + SetOf(batch[i..m])
  {
    assert batch[i] == batch[i..m][0];
  }

  lemma RefusedStays(rest: set<NodeId>, next: seq<NodeId>, more: seq<NodeId>, batch: seq<NodeId>, i: nat, m: nat)
    requires i < m <= |batch| && batch[i] in rest
    ensures rest + SetOf(next) + SetOf(batch[i..m]) + SetOf(more) == rest + SetOf(next + more) + SetOf(batch[i + 1..m])
  {
    assert batch[i..m] == [batch[i]] + batch[i + 1..m];
  }

  lemma NextReply(log: seq<Reply>, batch: seq<NodeId>, results: seq<BrowseResult>, i: nat)
    requires |results| <= |batch| && i < |results|
    ensures (log + SentReplies(batch, results)[..i]) + [Reply(batch[i], results[i].references)]
      == log + SentReplies(batch, results)[..i + 1]
  {
    var all := SentReplies(batch, results);
    assert all[..i + 1] == all[..i] + [all[i]];
  }

  /** The references of a level, result by result. */
  ghost function SentReplies(batch: seq<NodeId>, results: seq<BrowseResult>): (log: seq<Reply>)
    requires |results| <= |batch|
    ensures |log| == |results|
  {
    seq(|results|, i requires 0 <= i < |results| => Reply(batch[i], results[i].references))
  }

  lemma LevelFinds(c: Config, w: Walk, h: History, todo: set<NodeId>, w': Walk, from: nat)
    requires Inv(c, w, h, todo) && Extends(w, w') && from <= |w.order|
    ensures ToBrowse(w', w'.order[from..]) == ToBrowse(w, w.order[from..]) + ToBrowse(w', w'.order[|w.order|..])
  {
    var found := w.order[from..];
    forall n | n in found ensures n in w.refs {
      assert n in w.order;
    }
    hide Inv;
    ToBrowseStays(w, w', found);
    assert w'.order[from..] == found + w'.order[|w.order|..];
    ToBrowseConcat(w', found, w'.order[|w.order|..]);
  }

  lemma TodoIsExpandable(c: Config, w: Walk, h: History, todo: set<NodeId>, n: NodeId)
    requires Inv(c, w, h, todo) && n in todo
    ensures Expandable(c, w, n)
  {
  }

  lemma TodoMoves(rest: set<NodeId>, next: seq<NodeId>, more: seq<NodeId>, batch: seq<NodeId>, i: nat, m: nat)
    requires i < m <= |batch|
    ensures var todo := rest + SetOf(next) + SetOf(batch[i..m]) + SetOf(more);
      var after := rest + SetOf(next + more) + SetOf(batch[i + 1..m]);
      after <= todo <= after + {batch[i]}
  {
    assert batch[i..m] == [batch[i]] + batch[i + 1..m];
  }

  lemma LevelSplit(pending: seq<NodeId>, batch: seq<NodeId>, unprocessed: seq<NodeId>, n: nat)
    requires n <= |batch| && batch <= pending
    requires forall k :: k in unprocessed ==> k in batch[..n]
    ensures var rest := if n >= |pending| then [] else pending[n..];
      SetOf(pending) == SetOf(rest) + SetOf(unprocessed) + SetOf(batch[..n])
  {
    assert pending == batch[..n] + pending[n..];
  }

  lemma SetOfConcat(a: seq<NodeId>, b: seq<NodeId>, c: seq<NodeId>)
    ensures SetOf(a) + SetOf(c) + SetOf(b) == SetOf(a + b + c)
  {
  }

  lemma MemberOfSet(s: seq<NodeId>, n: NodeId)
    requires n in s
    ensures n in SetOf(s)
  {
  }

  /** At most n more nodes answered. */
  ghost predicate GrowsBy(h: History, h': History, n: nat) {
    |h'.answered| <= |h.answered| + n
  }

  /** The next pending nodes: those not answered, then those found to be browsed, then those refused. */
  function Queued(w: Walk, found: seq<NodeId>, pending: seq<NodeId>, batch: seq<NodeId>, answer: seq<BrowseResult>)
    : seq<NodeId>
    requires |answer| <= |batch|
  {
    (if |answer| >= |pending| then [] else pending[|answer|..]) + ToBrowse(w, found) + Refused(batch, answer)
  }

  /** One level: takes the answered nodes off the pending ones and adds those found and those re-queued. */
  method ExploreLevel(server: (nat, seq<NodeId>) -> Response, c: Config, w: Walk, pending: seq<NodeId>,
                      batch: seq<NodeId>, answer: seq<BrowseResult>, ghost h: History)
    returns (w': Walk, pending': seq<NodeId>, ghost h': History)
    requires batch <= pending && |answer| <= |batch| && AnswersBatch(server, batch, answer)
    requires Explored(server, c, w, h, SetOf(pending))
    ensures Explored(server, c, w', h', SetOf(pending'))
    ensures GrowsBy(h, h', |batch|)
    ensures h'.log == h.log + Replies(batch, answer)
    ensures w.order <= w'.order && pending' == Queued(w', w'.order[|w.order|..], pending, batch, answer)
  {
    hide Inv, Faithful, Logged, SetOf, ToBrowse, Refused;
    var unprocessed := Unprocessed(batch, answer);
    var results := new BrowseResult[|answer|](i requires 0 <= i < |answer| => answer[i]);
    assert results[..] == answer;
    Drain(results);
    pending' := if results.Length >= |pending| then [] else pending[results.Length..];
    ghost var rest := SetOf(pending') + SetOf(unprocessed);
    forall i | 0 <= i < |answer| && answer[i].status == BadNoContinuationPoints ensures batch[i] in rest {
      MemberOfSet(unprocessed, batch[i]);
    }
    forall i: nat | i < results.Length ensures Answers(server, batch[i], results[..][i]) {
      var k :| server(k, batch) == Results(answer);
      assert IsAnswer(server, k, batch, i);
    }
    LevelSplit(pending, batch, unprocessed, results.Length);
    var next;
    w', next, h' := VisitLevel(server, c, w, batch, results[..], h, rest);
    SetOfConcat(pending', next, unprocessed);
    assert SentReplies(batch, results[..]) == Replies(batch, answer);
    pending' := pending' + next + unprocessed;
  }

  /** What is known of a walk with these nodes still to browse. */
  ghost predicate Explored(server: (nat, seq<NodeId>) -> Response, c: Config, w: Walk, h: History, todo: set<NodeId>) {
    Inv(c, w, h, todo) && Faithful(server, h) && Logged(server, c, w, h)
  }

  /** The nodes that so many requests can carry. */
  ghost function Carried(requests: nat, nodes: nat): nat {
    if requests == 0 then 0 else Carried(requests - 1, nodes) + nodes
  }

  /** No more nodes answered than the requests could carry. */
  ghost predicate AtMost(h: History, requests: nat, nodes: nat) {
    |h.answered| <= Carried(requests, nodes)
  }

  lemma NoneAtFirst(h: History, nodes: nat)
    requires h.answered == {}
    ensures AtMost(h, 0, nodes)
  {
  }

  lemma AtMostNext(h: History, h': History, requests: nat, nodes: nat, batch: seq<NodeId>)
    requires AtMost(h, requests, nodes) && GrowsBy(h, h', |batch|) && |batch| <= nodes
    ensures AtMost(h', requests + 1, nodes)
  {
    assert Carried(requests + 1, nodes) == Carried(requests, nodes) + nodes;
  }

  lemma AtMostLimit(h: History, requests: nat, nodes: nat)
    requires AtMost(h, requests, nodes) && requests <= MAX_SEARCH_DEPTH
    ensures |h.answered| <= MAX_SEARCH_DEPTH * nodes
  {
    WithinLimit(requests, nodes);
  }

  lemma {:induction false} WithinLimit(requests: nat, nodes: nat)
    requires requests <= MAX_SEARCH_DEPTH
    ensures Carried(requests, nodes) <= MAX_SEARCH_DEPTH * nodes
    decreases MAX_SEARCH_DEPTH - requests
  {
    if requests < MAX_SEARCH_DEPTH {
      WithinLimit(requests + 1, nodes);
    } else {
      CarriedIsProduct(requests, nodes);
    }
  }

  lemma {:induction false} CarriedIsProduct(requests: nat, nodes: nat)
    ensures Carried(requests, nodes) == requests * nodes
  {
    if requests > 0 {
      CarriedIsProduct(requests - 1, nodes);
    }
  }

  lemma NothingFoundYet(server: (nat, seq<NodeId>) -> Response, c: Config)
    ensures Explored(server, c, Walk(map[], []), History({}, {}, []), SetOf([c.start]))
  {
    assert c.start in SetOf([c.start]);
  }

  // ---- rounds -----------------------------------------------------------------------------

  /** One round: the nodes pending, the number of its first request, the limits tried, and the answer. */
  datatype Round = Round(pending: seq<NodeId>, request: nat, limits: seq<nat>, answer: seq<BrowseResult>)
  {
    /** The nodes asked for when the answer came. */
    function Batch(): seq<NodeId> {
      if limits == [] then [] else Cut(pending, limits[|limits| - 1])
    }
  }

  type Answered = r: Round | r.limits != [] && |r.answer| <= |r.Batch()| witness Round([], 0, [0], [])

  ghost predicate IsRound(server: (nat, seq<NodeId>) -> Response, r: Answered) {
    && r.pending != [] && Tries(server, r.request, r.pending, r.limits)
    && server(r.request + |r.limits| - 1, r.Batch()) == Results(r.answer)
  }

  /** All replies of the rounds, in the order they came in. */
  function LogOf(rounds: seq<Answered>): seq<Reply> {
    if rounds == [] then []
    else
      var r := rounds[|rounds| - 1];
      LogOf(rounds[..|rounds| - 1]) + Replies(r.Batch(), r.answer)
  }

  /** The nodes w found after w0, in order. */
  function FoundSince(w0: Walk, w: Walk): seq<NodeId> {
    if |w0.order| <= |w.order| then w.order[|w0.order|..] else []
  }

  /** What is pending after the rounds. */
  function PendingAfter(c: Config, rounds: seq<Answered>): seq<NodeId> {
    if rounds == [] then [c.start]
    else
      var n := |rounds| - 1;
      var w0, w := Replay(c, LogOf(rounds[..n])), Replay(c, LogOf(rounds));
      Queued(w, FoundSince(w0, w), rounds[n].pending, rounds[n].Batch(), rounds[n].answer)
  }

  function RequestAfter(rounds: seq<Answered>): nat {
    if rounds == [] then 0
    else
      var r := rounds[|rounds| - 1];
      r.request + |r.limits|
  }

  function LimitAfter(maxNodes: nat, rounds: seq<Answered>): nat {
    if rounds == [] then maxNodes
    else
      var r := rounds[|rounds| - 1];
      r.limits[|r.limits| - 1]
  }

  /** The rounds follow one another as requests do: each takes up what the ones before have left. */
  ghost predicate IsBrowse(server: (nat, seq<NodeId>) -> Response, c: Config, maxNodes: nat, rounds: seq<Answered>) {
    rounds == [] ||
    var front, r := rounds[..|rounds| - 1], rounds[|rounds| - 1];
    && IsBrowse(server, c, maxNodes, front)
    && IsRound(server, r) && r.pending == PendingAfter(c, front)
    && r.request == RequestAfter(front) && r.limits[0] == LimitAfter(maxNodes, front)
  }

  lemma NoRounds(server: (nat, seq<NodeId>) -> Response, c: Config, maxNodes: nat)
    ensures IsBrowse(server, c, maxNodes, []) && LogOf([]) == []
    ensures PendingAfter(c, []) == [c.start] && RequestAfter([]) == 0 && LimitAfter(maxNodes, []) == maxNodes
  {
  }

  lemma NextRound(server: (nat, seq<NodeId>) -> Response, c: Config, maxNodes: nat, rounds: seq<Answered>,
      r: Answered, w: Walk, w': Walk)
    requires IsBrowse(server, c, maxNodes, rounds) && IsRound(server, r) && r.pending == PendingAfter(c, rounds)
    requires r.request == RequestAfter(rounds) && r.limits[0] == LimitAfter(maxNodes, rounds)
    requires w == Replay(c, LogOf(rounds)) && w' == Replay(c, LogOf(rounds) + Replies(r.Batch(), r.answer))
    requires w.order <= w'.order
    ensures var longer := rounds + [r];
      && IsBrowse(server, c, maxNodes, longer) && LogOf(longer) == LogOf(rounds) + Replies(r.Batch(), r.answer)
      && PendingAfter(c, longer) == Queued(w', w'.order[|w.order|..], r.pending, r.Batch(), r.answer)
      && RequestAfter(longer) == r.request + |r.limits| && LimitAfter(maxNodes, longer) == r.limits[|r.limits| - 1]
  {
    hide Replay, Queued, Replies, Cut, IsRound;
    var longer := rounds + [r];
    assert longer[..|longer| - 1] == rounds && longer[|longer| - 1] == r;
  }

  /** The result of a browse: what its rounds found, or none if a request ends it in error. */
  ghost predicate Outcome(server: (nat, seq<NodeId>) -> Response, c: Config, maxNodes: nat, found: Option<Walk>) {
    exists rounds :: EndsWith(server, c, maxNodes, rounds, found)
  }

  ghost predicate EndsWith(server: (nat, seq<NodeId>) -> Response, c: Config, maxNodes: nat,
      rounds: seq<Answered>, found: Option<Walk>)
  {
    var left := PendingAfter(c, rounds);
    && IsBrowse(server, c, maxNodes, rounds) && |rounds| <= 128
    && match found
       case Some(w) => w == Replay(c, LogOf(rounds)) && (left == [] || |rounds| == 128)
       case None => left != [] && |rounds| < 128 && exists limits ::
         GivesUp(server, RequestAfter(rounds), left, limits) && limits[0] == LimitAfter(maxNodes, rounds)
  }

  /** No further try follows this one. */
  ghost predicate IsLastTry(server: (nat, seq<NodeId>) -> Response, k: nat, pending: seq<NodeId>, limit: nat) {
    server(k, Cut(pending, limit)).TooLarge? ==> Halved(pending, limit) == 0
  }

  lemma {:induction false} TriesAgree(server: (nat, seq<NodeId>) -> Response, k: nat, pending: seq<NodeId>,
      a: seq<nat>, b: seq<nat>, i: nat)
    requires Tries(server, k, pending, a) && Tries(server, k, pending, b) && a[0] == b[0]
    requires i < |a| && i < |b|
    ensures a[i] == b[i]
  {
    if i > 0 {
      TriesAgree(server, k, pending, a, b, i - 1);
      assert a[i - 1 + 1] == Halved(pending, a[i - 1]) && b[i - 1 + 1] == Halved(pending, b[i - 1]);
    }
  }

  lemma EarlierIsNotLast(server: (nat, seq<NodeId>) -> Response, k: nat, pending: seq<NodeId>, b: seq<nat>, i: nat)
    requires Tries(server, k, pending, b) && i < |b| - 1
    ensures !IsLastTry(server, k + i, pending, b[i])
  {
    assert server(k + i, Cut(pending, b[i])).TooLarge? && b[i + 1] == Halved(pending, b[i]) >= 1;
  }

  lemma NoTryAfter(server: (nat, seq<NodeId>) -> Response, k: nat, pending: seq<NodeId>, a: seq<nat>, b: seq<nat>)
    requires a != [] && b != []
    requires Tries(server, k, pending, a) && Tries(server, k, pending, b) && a[0] == b[0]
    requires IsLastTry(server, k + |a| - 1, pending, a[|a| - 1])
    ensures |b| <= |a|
  {
    hide Tries, IsLastTry;
    if |b| > |a| {
      EarlierIsNotLast(server, k, pending, b, |a| - 1);
      TriesAgree(server, k, pending, a, b, |a| - 1);
    }
  }

  /** The server determines the limits a level tries. */
  lemma TriesAreDetermined(server: (nat, seq<NodeId>) -> Response, k: nat, pending: seq<NodeId>,
      a: seq<nat>, b: seq<nat>)
    requires Tries(server, k, pending, a) && Tries(server, k, pending, b) && a[0] == b[0]
    requires IsLastTry(server, k + |a| - 1, pending, a[|a| - 1]) && IsLastTry(server, k + |b| - 1, pending, b[|b| - 1])
    ensures a == b
  {
    NoTryAfter(server, k, pending, a, b);
    NoTryAfter(server, k, pending, b, a);
    forall i | 0 <= i < |a| ensures a[i] == b[i] {
      TriesAgree(server, k, pending, a, b, i);
    }
  }

  lemma RoundsStartAlike(server: (nat, seq<NodeId>) -> Response, r: Answered, q: Answered)
    requires IsRound(server, r) && IsRound(server, q)
    requires r.pending == q.pending && r.request == q.request && r.limits[0] == q.limits[0]
    ensures r == q
  {
    TriesAreDetermined(server, r.request, r.pending, r.limits, q.limits);
  }

  lemma {:induction false} BrowsePrefix(server: (nat, seq<NodeId>) -> Response, c: Config, maxNodes: nat,
      rounds: seq<Answered>, n: nat)
    requires IsBrowse(server, c, maxNodes, rounds) && n <= |rounds|
    ensures IsBrowse(server, c, maxNodes, rounds[..n])
    decreases |rounds|
  {
    hide IsRound, PendingAfter, RequestAfter, LimitAfter;
    if n < |rounds| {
      BrowsePrefix(server, c, maxNodes, rounds[..|rounds| - 1], n);
      assert rounds[..|rounds| - 1][..n] == rounds[..n];
    } else {
      assert rounds[..n] == rounds;
    }
  }

  /** A round of the browse takes up what the rounds before it left. */
  lemma RoundFollows(server: (nat, seq<NodeId>) -> Response, c: Config, maxNodes: nat, rounds: seq<Answered>, n: nat)
    requires IsBrowse(server, c, maxNodes, rounds) && n < |rounds|
    ensures var r := rounds[n];
      && IsRound(server, r) && r.pending == PendingAfter(c, rounds[..n])
      && r.request == RequestAfter(rounds[..n]) && r.limits[0] == LimitAfter(maxNodes, rounds[..n])
  {
    hide IsRound, PendingAfter, RequestAfter, LimitAfter;
    BrowsePrefix(server, c, maxNodes, rounds, n + 1);
    var upTo := rounds[..n + 1];
    assert upTo[..|upTo| - 1] == rounds[..n] && upTo[|upTo| - 1] == rounds[n];
  }

  /** The server determines the rounds. */
  lemma {:induction false} RoundsAreDetermined(server: (nat, seq<NodeId>) -> Response, c: Config, maxNodes: nat,
      a: seq<Answered>, b: seq<Answered>, n: nat)
    requires IsBrowse(server, c, maxNodes, a) && IsBrowse(server, c, maxNodes, b) && n <= |a| && n <= |b|
    ensures a[..n] == b[..n]
  {
    hide IsBrowse, IsRound, PendingAfter, RequestAfter, LimitAfter;
    if n > 0 {
      RoundsAreDetermined(server, c, maxNodes, a, b, n - 1);
      RoundFollows(server, c, maxNodes, a, n - 1);
      RoundFollows(server, c, maxNodes, b, n - 1);
      RoundsStartAlike(server, a[n - 1], b[n - 1]);
      assert a[..n] == a[..n - 1] + [a[n - 1]] && b[..n] == b[..n - 1] + [b[n - 1]];
    }
  }

  /** A browse that has ended has no further round. */
  lemma NoRoundAfter(server: (nat, seq<NodeId>) -> Response, c: Config, maxNodes: nat,
      a: seq<Answered>, b: seq<Answered>, found: Option<Walk>)
    requires EndsWith(server, c, maxNodes, a, found) && IsBrowse(server, c, maxNodes, b) && |b| <= 128
    ensures |b| <= |a|
  {
    hide IsBrowse, PendingAfter, RequestAfter, LimitAfter, Replay, LogOf;
    if |b| > |a| {
      var n := |a|;
      RoundsAreDetermined(server, c, maxNodes, a, b, n);
      assert a[..n] == a;
      RoundFollows(server, c, maxNodes, b, n);
      if found.None? {
        var limits :| GivesUp(server, RequestAfter(a), PendingAfter(c, a), limits)
          && limits[0] == LimitAfter(maxNodes, a);
        TriesAreDetermined(server, RequestAfter(a), PendingAfter(c, a), limits, b[n].limits);
      }
    }
  }

  /** The result is determined by the server: the contract of the browse allows no other. */
  lemma OutcomeIsUnique(server: (nat, seq<NodeId>) -> Response, c: Config, maxNodes: nat,
      found: Option<Walk>, other: Option<Walk>)
    requires Outcome(server, c, maxNodes, found) && Outcome(server, c, maxNodes, other)
    ensures found == other
  {
    hide IsBrowse, PendingAfter, RequestAfter, LimitAfter, Replay, LogOf, GivesUp;
    var a :| EndsWith(server, c, maxNodes, a, found);
    var b :| EndsWith(server, c, maxNodes, b, other);
    NoRoundAfter(server, c, maxNodes, a, b, found);
    NoRoundAfter(server, c, maxNodes, b, a, other);
    RoundsAreDetermined(server, c, maxNodes, a, b, |a|);
    assert a[..|a|] == a && b[..|a|] == b;
  }

  lemma ExploredIsReplay(server: (nat, seq<NodeId>) -> Response, c: Config, w: Walk, h: History, todo: set<NodeId>)
    requires Explored(server, c, w, h, todo)
    ensures w == Replay(c, h.log)
  {
  }

  /**
   The whole browse. Its rounds follow one another, left is pending after them, and the walk found
   what their replies say. It goes on until nothing is pending or 128 rounds were answered, or until
   a request ends it in error.
   */
  method BrowseFullAddressSpace(server: (nat, seq<NodeId>) -> Response, c: Config, maxNodesPerBrowse: nat)
    returns (found: Option<Walk>, ghost h: History, ghost rounds: seq<Answered>, ghost left: seq<NodeId>)
    requires InBounds(server)
    ensures Outcome(server, c, maxNodesPerBrowse, found)
    ensures IsBrowse(server, c, maxNodesPerBrowse, rounds) && left == PendingAfter(c, rounds) && |rounds| <= 128
    ensures found.Some? ==> h.log == LogOf(rounds) && found.value == Replay(c, LogOf(rounds))
    ensures found.Some? ==> left == [] || |rounds| == 128
    ensures found.Some? ==> Explored(server, c, found.value, h, SetOf(left))
    ensures found.Some? && maxNodesPerBrowse > 0 ==> |h.answered| <= 128 * maxNodesPerBrowse
    ensures found.None? ==> left != [] && |rounds| < 128 && exists limits ::
      GivesUp(server, RequestAfter(rounds), left, limits) && limits[0] == LimitAfter(maxNodesPerBrowse, rounds)
  {
    hide Explored, SetOf, AtMost, GrowsBy, InBounds, FailsOn, Tries, GivesUp;
    hide Cut, Queued, Replay, LogOf, PendingAfter, RequestAfter, LimitAfter, IsBrowse, Replies;
    var w := Walk(map[], []);
    h := History({}, {}, []);
    var limit: nat, request: nat := maxNodesPerBrowse, 0;
    var pending := [c.start];
    left, rounds := pending, [];
    NothingFoundYet(server, c);
    ExploredIsReplay(server, c, w, h, SetOf(pending));
    NoneAtFirst(h, maxNodesPerBrowse);
    NoRounds(server, c, maxNodesPerBrowse);
    var searchDepth := 0;
    while |pending| > 0 && searchDepth < MAX_SEARCH_DEPTH
      invariant Explored(server, c, w, h, SetOf(pending)) && w == Replay(c, h.log)
      invariant 0 <= searchDepth == |rounds| <= MAX_SEARCH_DEPTH
      invariant maxNodesPerBrowse > 0 ==> 0 < limit <= maxNodesPerBrowse && AtMost(h, searchDepth, maxNodesPerBrowse)
      invariant IsBrowse(server, c, maxNodesPerBrowse, rounds) && h.log == LogOf(rounds)
      invariant pending == PendingAfter(c, rounds)
      invariant request == RequestAfter(rounds) && limit == LimitAfter(maxNodesPerBrowse, rounds)
      decreases MAX_SEARCH_DEPTH - searchDepth
    {
      ghost var r0 := request;
      var batch, answer;
      ghost var limits;
      batch, answer, limit, request, limits := BrowseBatch(server, request, pending, limit);
      if answer.None? {
        assert EndsWith(server, c, maxNodesPerBrowse, rounds, None);
        return None, h, rounds, pending;
      }
      ghost var h0, w0 := h, w;
      ghost var r := NewRound(server, pending, r0, limits, answer.value, batch);
      ItIsAnswer(server, request - 1, batch, answer.value);
      w, pending, h := ExploreLevel(server, c, w, pending, batch, answer.value, h);
      ExploredIsReplay(server, c, w, h, SetOf(pending));
      NextRound(server, c, maxNodesPerBrowse, rounds, r, w0, w);
      rounds := rounds + [r];
      if maxNodesPerBrowse > 0 {
        AtMostNext(h0, h, searchDepth, maxNodesPerBrowse, batch);
      }
      searchDepth := searchDepth + 1;
    }
    if maxNodesPerBrowse > 0 {
      AtMostLimit(h, searchDepth, maxNodesPerBrowse);
    }
    found := Some(w);
    left := pending;
    assert EndsWith(server, c, maxNodesPerBrowse, rounds, found);
  }

  lemma NewRound(server: (nat, seq<NodeId>) -> Response, pending: seq<NodeId>, k: nat, limits: seq<nat>,
      answer: seq<BrowseResult>, batch: seq<NodeId>) returns (r: Answered)
    requires pending != [] && Tries(server, k, pending, limits) && batch == Cut(pending, limits[|limits| - 1])
    requires server(k + |limits| - 1, batch) == Results(answer) && |answer| <= |batch|
    ensures r == Round(pending, k, limits, answer) && r.Batch() == batch && IsRound(server, r)
  {
    r := Round(pending, k, limits, answer);
  }

  lemma ItIsAnswer(server: (nat, seq<NodeId>) -> Response, k: nat, batch: seq<NodeId>, answer: seq<BrowseResult>)
    requires server(k, batch) == Results(answer)
    ensures AnswersBatch(server, batch, answer)
  {
  }

  // ---- breadth first ----------------------------------------------------------------------

  /** No node was refused for want of continuation points. */
  predicate NoneRefused(rounds: seq<Answered>) {
    forall i :: 0 <= i < |rounds| ==>
      forall j :: 0 <= j < |rounds[i].answer| ==> rounds[i].answer[j].status != BadNoContinuationPoints
  }

  /** The nodes answered, in order. */
  function AnsweredNodes(rounds: seq<Answered>): seq<NodeId> {
    if rounds == [] then []
    else
      var r := rounds[|rounds| - 1];
      AnsweredNodes(rounds[..|rounds| - 1]) + r.Batch()[..|r.answer|]
  }

  /** What was recorded stays, and the order holds what is recorded. */
  ghost predicate Continues(w: Walk, w': Walk) {
    Extends(w, w') && ((forall n :: n in w.order ==> n in w.refs) ==> forall n :: n in w'.order ==> n in w'.refs)
  }

  lemma {:induction false} VisitAllContinues(c: Config, w: Walk, p: string, references: seq<Reference>)
    ensures Continues(w, VisitAll(c, w, p, references))
  {
    if references != [] {
      VisitAllContinues(c, w, p, references[..|references| - 1]);
      RecordedAlone(c, VisitAll(c, w, p, references[..|references| - 1]), p, references[|references| - 1]);
    }
  }

  lemma ContinuesFurther(w: Walk, w': Walk, w'': Walk)
    requires Continues(w, w') && Continues(w', w'')
    ensures Continues(w, w'')
  {
  }

  lemma LastReplayed(c: Config, log: seq<Reply>)
    requires log != []
    ensures var n := |log| - 1;
      Continues(Replay(c, log[..n]), Replay(c, log))
  {
    hide Continues, VisitAll;
    var n := |log| - 1;
    var before := Replay(c, log[..n]);
    VisitAllContinues(c, before, ParentPath(c, before, log[n].node), log[n].references);
  }

  lemma {:induction false} ReplayContinues(c: Config, log: seq<Reply>, more: seq<Reply>)
    ensures Continues(Replay(c, log), Replay(c, log + more))
    decreases |more|
  {
    hide Replay;
    if more == [] {
      assert log + more == log;
    } else {
      var front := more[..|more| - 1];
      assert (log + more)[..|log + more| - 1] == log + front;
      ReplayContinues(c, log, front);
      LastReplayed(c, log + more);
      hide Continues;
      ContinuesFurther(Replay(c, log), Replay(c, log + front), Replay(c, log + more));
    }
  }

  lemma {:induction false} RefusedNone(batch: seq<NodeId>, answer: seq<BrowseResult>)
    requires |answer| <= |batch| && forall i :: 0 <= i < |answer| ==> answer[i].status != BadNoContinuationPoints
    ensures Refused(batch, answer) == []
  {
    if answer != [] {
      RefusedNone(batch, answer[..|answer| - 1]);
    }
  }

  lemma CutIsPrefix(r: Answered)
    requires |r.answer| <= |r.Batch()|
    ensures r.Batch()[..|r.answer|] == r.pending[..|r.answer|] && |r.answer| <= |r.pending|
    ensures r.pending[..|r.answer|] + (if |r.answer| >= |r.pending| then [] else r.pending[|r.answer|..]) == r.pending
  {
  }

  lemma LastRound(server: (nat, seq<NodeId>) -> Response, c: Config, maxNodes: nat, rounds: seq<Answered>)
    requires rounds != [] && IsBrowse(server, c, maxNodes, rounds)
    ensures var n := |rounds| - 1;
      var front, r := rounds[..n], rounds[n];
      var w0, w := Replay(c, LogOf(front)), Replay(c, LogOf(rounds));
      && IsBrowse(server, c, maxNodes, front) && r.pending == PendingAfter(c, front)
      && LogOf(rounds) == LogOf(front) + Replies(r.Batch(), r.answer)
      && PendingAfter(c, rounds) == Queued(w, FoundSince(w0, w), r.pending, r.Batch(), r.answer)
  {
    hide Replay, Queued, FoundSince, IsRound, Cut, Replies;
  }

  lemma FoundLater(w0: Walk, w: Walk)
    requires Continues(w0, w) && forall n :: n in w0.order ==> n in w0.refs
    ensures forall n :: n in w.order ==> n in w.refs
    ensures ToBrowse(w, w.order) == ToBrowse(w0, w0.order) + ToBrowse(w, FoundSince(w0, w))
  {
    hide ToBrowse;
    ToBrowseStays(w0, w, w0.order);
    assert w.order == w0.order + FoundSince(w0, w);
    ToBrowseConcat(w, w0.order, FoundSince(w0, w));
  }

  lemma NothingReplayed(c: Config)
    ensures Orderly(c, []) && Replay(c, []) == Walk(map[], []) && ToBrowse(Walk(map[], []), []) == []
  {
  }

  /**
   Breadth first: as long as no node is refused, the start node and the nodes found to be browsed are
   answered in the order they were found in, and what is pending is the rest of them.
   */
  lemma {:induction false} BreadthFirst(server: (nat, seq<NodeId>) -> Response, c: Config, maxNodes: nat,
      rounds: seq<Answered>)
    requires IsBrowse(server, c, maxNodes, rounds) && NoneRefused(rounds)
    ensures var w := Replay(c, LogOf(rounds));
      && (forall n :: n in w.order ==> n in w.refs)
      && AnsweredNodes(rounds) + PendingAfter(c, rounds) == [c.start] + ToBrowse(w, w.order)
    decreases |rounds|
  {
    hide Replay, ToBrowse, Refused, Cut, Replies, IsBrowse, LogOf, PendingAfter, Continues, FoundSince;
    if rounds == [] {
      NoRounds(server, c, maxNodes);
      NothingReplayed(c);
    } else {
      var n := |rounds| - 1;
      var front, r := rounds[..n], rounds[n];
      LastRound(server, c, maxNodes, rounds);
      BreadthFirst(server, c, maxNodes, front);
      var w0, w := Replay(c, LogOf(front)), Replay(c, LogOf(rounds));
      ReplayContinues(c, LogOf(front), Replies(r.Batch(), r.answer));
      RefusedNone(r.Batch(), r.answer);
      CutIsPrefix(r);
      FoundLater(w0, w);
      Rejoin(AnsweredNodes(front), r.pending, |r.answer|, ToBrowse(w, FoundSince(w0, w)), [c.start],
             ToBrowse(w0, w0.order));
    }
  }

  lemma Rejoin(done: seq<NodeId>, pending: seq<NodeId>, n: nat, next: seq<NodeId>,
      first: seq<NodeId>, rest: seq<NodeId>)
    requires n <= |pending| && done + pending == first + rest
    ensures var left := if n >= |pending| then [] else pending[n..];
      (done + pending[..n]) + (left + next + []) == first + (rest + next)
  {
    var left := if n >= |pending| then [] else pending[n..];
    assert pending[..n] + left == pending;
    assert (done + pending[..n]) + (left + next + []) == (done + (pending[..n] + left)) + next;
    assert (first + rest) + next == first + (rest + next);
  }

  // ---- what a finished walk has found -----------------------------------------------------

  /**
   Closure: when nothing is left to browse, the start node and every recorded node that is no
   property was answered; every usable reference of theirs leads to a recorded node or was
   pruned; and the order lists each recorded node once.
   */
  lemma FinishedWalkIsClosed(server: (nat, seq<NodeId>) -> Response, c: Config, w: Walk, h: History)
    requires Inv(c, w, h, {}) && Faithful(server, h)
    ensures forall n :: Expandable(c, w, n) ==> exists r :: Settles(server, c, w, n, r)
    ensures forall n :: n in h.answered ==> Expandable(c, w, n)
    ensures (forall k :: k in w.order <==> k in w.refs) && |w.order| == |w.refs|
  {
    forall n | Expandable(c, w, n) ensures exists r :: Settles(server, c, w, n, r) {
      assert n in {} + h.answered;
      var r :| Answers(server, n, r) && r.status != BadNoContinuationPoints && Sent(n, r.references) <= h.received;
      forall ref | ref in r.references && ref.Usable() ensures Handled(c, w, n, ref) {
        assert (n, ref) in Sent(n, r.references);
      }
      assert Settles(server, c, w, n, r);
    }
    DistinctCount(w.order);
    assert w.refs.Keys == SetOf(w.order);
  }

  /** r is an answer for n, not a request to come back, and all its usable references are accounted for. */
  ghost predicate Settles(server: (nat, seq<NodeId>) -> Response, c: Config, w: Walk, n: NodeId, r: BrowseResult) {
    && Answers(server, n, r) && r.status != BadNoContinuationPoints
    && forall ref :: ref in r.references && ref.Usable() ==> Handled(c, w, n, ref)
  }

  lemma {:induction false} DistinctCount(s: seq<NodeId>)
    requires forall i, j :: 0 <= i < j < |s| ==> s[i] != s[j]
    ensures |SetOf(s)| == |s|
  {
    if s != [] {
      var front := s[..|s| - 1];
      DistinctCount(front);
      assert s == front + [s[|s| - 1]];
      SetOfGrows(front, s[|s| - 1]);
    }
  }

  /** Every recorded path is the path of an earlier node, or the root, with the browse name added. */
  lemma PathsExtendParents(c: Config, w: Walk, h: History, todo: set<NodeId>, k: NodeId) returns (n: NodeId, p: string)
    requires Inv(c, w, h, todo) && k in w.refs
    ensures PathOf(c, w, n, p) && Expandable(c, w, n)
    ensures w.refs[k].ref.Usable() && w.refs[k].path == TrimRight(p) + "/" + w.refs[k].ref.name.value
    ensures (p == [] || p[|p| - 1] != '/') <==> w.refs[k].path == p + "/" + w.refs[k].ref.name.value
    ensures !c.prune(k, w.refs[k].path)
  {
    var i :| 0 <= i < |w.order| && w.order[i] == k;
    assert Found(c, w, h, i);
    n :| FoundUnder(c, w, h, i, n);
    p :| PathOf(c, w, n, p) && w.refs[k].path == Join(p, w.refs[k].ref.name.value);
  }

  // ---- against a fixed address space ------------------------------------------------------

  /** The server always answers with the references of one fixed graph, or asks to come back. */
  ghost predicate Serves(server: (nat, seq<NodeId>) -> Response, children: NodeId -> seq<Reference>) {
    forall n, r :: Answers(server, n, r) ==>
      r.references == if r.status == BadNoContinuationPoints then [] else children(n)
  }

  /** A path through the graph from the start node; only its last reference may be to a property. */
  ghost predicate IsChain(c: Config, children: NodeId -> seq<Reference>, chain: seq<Reference>)
    ensures IsChain(c, children, chain) ==> forall i :: 0 <= i < |chain| ==> chain[i].Usable()
  {
    chain != [] && var last := chain[|chain| - 1];
      && last.Usable()
      && if |chain| == 1 then last in children(c.start)
         else
           var front := chain[..|chain| - 1];
           IsChain(c, children, front) && !front[|front| - 1].property && last in children(front[|front| - 1].id.value)
  }

  ghost predicate Reaches(c: Config, children: NodeId -> seq<Reference>, ref: Reference) {
    exists chain: seq<Reference> :: IsChain(c, children, chain) && chain[|chain| - 1] == ref
  }

  /** The reference a node was recorded with, and where the graph has it. */
  lemma RecordedIsSent(server: (nat, seq<NodeId>) -> Response, children: NodeId -> seq<Reference>,
                       c: Config, w: Walk, h: History, todo: set<NodeId>, i: nat) returns (n: NodeId)
    requires Inv(c, w, h, todo) && Faithful(server, h) && Serves(server, children) && i < |w.order|
    ensures w.order[i] in w.refs
    ensures var ref := w.refs[w.order[i]].ref; ref.Usable() && ref.id.value == w.order[i] && ref in children(n)
    ensures n == c.start || (n in w.order[..i] && n in w.refs && !w.refs[n].ref.property)
  {
    assert Found(c, w, h, i);
    n :| FoundUnder(c, w, h, i, n);
    var ref := w.refs[w.order[i]].ref;
    var r :| Answers(server, n, r) && ref in r.references;
  }

  /** Nothing is found that the graph does not lead to. */
  lemma {:induction false} FoundIsReachable(server: (nat, seq<NodeId>) -> Response, children: NodeId -> seq<Reference>,
                                             c: Config, w: Walk, h: History, todo: set<NodeId>, i: nat)
    requires Inv(c, w, h, todo) && Faithful(server, h) && Serves(server, children) && i < |w.order|
    ensures w.order[i] in w.refs && w.refs[w.order[i]].ref.id == Some(w.order[i])
    ensures Reaches(c, children, w.refs[w.order[i]].ref)
    decreases i
  {
    var n := RecordedIsSent(server, children, c, w, h, todo, i);
    hide Inv, Faithful, Serves;
    var ref := w.refs[w.order[i]].ref;
    if n == c.start {
      assert IsChain(c, children, [ref]);
    } else {
      var j :| 0 <= j < i && w.order[j] == n;
      FoundIsReachable(server, children, c, w, h, todo, j);
      var chain: seq<Reference> :| IsChain(c, children, chain) && chain[|chain| - 1] == w.refs[n].ref;
      assert (chain + [ref])[..|chain|] == chain;
      assert IsChain(c, children, chain + [ref]);
    }
  }
}
