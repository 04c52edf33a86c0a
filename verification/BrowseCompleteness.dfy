/**
 What a finished browse has found of a fixed address space, in whatever order its nodes were
 answered (browseFullAddressSpace in src/OPC-UA-Client-Go/browse.go).

 A node is browsed unless the first reference to it is a HasProperty reference, so what a walk
 reaches can depend on the order in which the server answers.
 */
module BrowseCompleteness {
  import opened Options
  import opened BrowsePages
  import opened BrowseWalk

  type Graph = NodeId -> seq<Reference>

  // ---- the first reference to a node ------------------------------------------------------

  predicate RefersTo(r: Reference, k: NodeId) {
    r.Usable() && r.id.value == k
  }

  function FirstRef(references: seq<Reference>, k: NodeId): Option<Reference> {
    if references == [] then None
    else
      var n := |references| - 1;
      var before := FirstRef(references[..n], k);
      if before.Some? then before else if RefersTo(references[n], k) then Some(references[n]) else None
  }

  lemma {:induction false} FirstRefIsThere(references: seq<Reference>, k: NodeId)
    ensures var f := FirstRef(references, k);
      if f.Some? then f.value in references && RefersTo(f.value, k)
      else forall r :: r in references ==> !RefersTo(r, k)
  {
    if references != [] {
      var n := |references| - 1;
      var front, last := references[..n], references[n];
      FirstRefIsThere(front, k);
      LastOrEarlier(references);
      hide RefersTo;
      if FirstRef(references, k).None? {
        forall r | r in references ensures !RefersTo(r, k) {
          assert r in front || r == last;
        }
      }
    }
  }

  lemma LastOrEarlier(references: seq<Reference>)
    requires references != []
    ensures forall r :: r in references <==> r in references[..|references| - 1] || r == references[|references| - 1]
  {
    assert references == references[..|references| - 1] + [references[|references| - 1]];
  }

  /** A path a node can have: the root's, or one that is not pruned. */
  ghost predicate MayBePath(c: Config, p: string) {
    p == "/" + c.rootPath || exists k :: !c.prune(k, p)
  }

  ghost predicate CanBeRecorded(c: Config, r: Reference) {
    r.Usable() && exists p :: MayBePath(c, p) && !c.prune(r.id.value, Join(p, r.name.value))
  }

  /** The reference is pruned under no parent. */
  ghost predicate IsKept(c: Config, r: Reference) {
    r.Usable() && forall p :: MayBePath(c, p) ==> !c.prune(r.id.value, Join(p, r.name.value))
  }

  ghost predicate AllKept(c: Config, references: seq<Reference>, k: NodeId) {
    forall r :: r in references && RefersTo(r, k) ==> IsKept(c, r)
  }

  lemma {:induction false} ReplyKeeps(c: Config, w: Walk, parentPath: string, references: seq<Reference>, k: NodeId)
    requires k in w.refs
    ensures var v := VisitAll(c, w, parentPath, references); k in v.refs && v.refs[k] == w.refs[k]
  {
    if references != [] {
      ReplyKeeps(c, w, parentPath, references[..|references| - 1], k);
    }
  }

  lemma VisitRecords(c: Config, w: Walk, parentPath: string, r: Reference, k: NodeId)
    requires MayBePath(c, parentPath) && k !in w.refs
    ensures var v := VisitReference(c, w, parentPath, r).walk;
      && (k in v.refs ==> v.refs[k].ref == r && RefersTo(r, k) && CanBeRecorded(c, r))
      && (RefersTo(r, k) && IsKept(c, r) ==> k in v.refs)
  {
    hide MayBePath, Join;
  }

  lemma VisitKeeps(c: Config, w: Walk, parentPath: string, r: Reference, k: NodeId)
    requires k in w.refs
    ensures var v := VisitReference(c, w, parentPath, r).walk; k in v.refs && v.refs[k] == w.refs[k]
  {
    hide Join;
  }

  /** What one reply does to an unknown node: the first reference to it is recorded. */
  lemma {:induction false} ReplyRecords(c: Config, w: Walk, parentPath: string, references: seq<Reference>, k: NodeId)
    requires MayBePath(c, parentPath) && k !in w.refs
    ensures var v := VisitAll(c, w, parentPath, references);
      && (k in v.refs ==>
            v.refs[k].ref in references && RefersTo(v.refs[k].ref, k) && CanBeRecorded(c, v.refs[k].ref))
      && (AllKept(c, references, k) ==>
            (k in v.refs <==> FirstRef(references, k).Some?)
            && (k in v.refs ==> FirstRef(references, k) == Some(v.refs[k].ref)))
  {
    hide VisitReference, RefersTo, MayBePath, CanBeRecorded, IsKept;
    if references != [] {
      var n := |references| - 1;
      var front := references[..n];
      var before := VisitAll(c, w, parentPath, front);
      ReplyRecords(c, w, parentPath, front, k);
      LastOrEarlier(references);
      assert references[n] in references;
      if k in before.refs {
        VisitKeeps(c, before, parentPath, references[n], k);
      } else {
        VisitRecords(c, before, parentPath, references[n], k);
      }
    }
  }

  /** No recorded path is pruned. */
  ghost predicate PathsUnpruned(c: Config, w: Walk) {
    forall k :: k in w.refs ==> !c.prune(k, w.refs[k].path)
  }

  lemma {:induction false} VisitsUnpruned(c: Config, w: Walk, parentPath: string, references: seq<Reference>)
    requires PathsUnpruned(c, w)
    ensures PathsUnpruned(c, VisitAll(c, w, parentPath, references))
  {
    hide Join;
    if references != [] {
      VisitsUnpruned(c, w, parentPath, references[..|references| - 1]);
    }
  }

  lemma {:induction false} ReplaysUnpruned(c: Config, log: seq<Reply>)
    ensures PathsUnpruned(c, Replay(c, log))
    decreases |log|
  {
    hide PathsUnpruned, VisitAll;
    if log != [] {
      var n := |log| - 1;
      var before := Replay(c, log[..n]);
      ReplaysUnpruned(c, log[..n]);
      VisitsUnpruned(c, before, ParentPath(c, before, log[n].node), log[n].references);
    } else {
      NothingUnpruned(c);
    }
  }

  lemma NothingUnpruned(c: Config)
    ensures PathsUnpruned(c, Walk(map[], []))
  {
  }

  lemma ParentMayBePath(c: Config, log: seq<Reply>, n: NodeId)
    ensures MayBePath(c, ParentPath(c, Replay(c, log), n))
  {
    hide Replay;
    ReplaysUnpruned(c, log);
  }

  // ---- logs of one address space ----------------------------------------------------------

  /** A reply refuses its node or has all its references. */
  predicate FromGraph(g: Graph, reply: Reply) {
    reply.references == [] || reply.references == g(reply.node)
  }

  predicate Served(g: Graph, log: seq<Reply>) {
    forall i :: 0 <= i < |log| ==> FromGraph(g, log[i])
  }

  predicate Browsed(g: Graph, log: seq<Reply>, n: NodeId) {
    exists i :: 0 <= i < |log| && log[i] == Reply(n, g(n))
  }

  /** Nothing is left to browse. */
  ghost predicate Finished(c: Config, g: Graph, log: seq<Reply>) {
    forall n :: Expandable(c, Replay(c, log), n) ==> Browsed(g, log, n)
  }

  ghost predicate IsWalk(c: Config, g: Graph, log: seq<Reply>) {
    Orderly(c, log) && Served(g, log)
  }

  /** Some reference to the node is not always pruned. */
  ghost predicate Recordable(c: Config, g: Graph, k: NodeId) {
    exists m, r :: r in g(m) && RefersTo(r, k) && CanBeRecorded(c, r)
  }

  ghost predicate NeverPruned(c: Config, g: Graph, k: NodeId) {
    forall m :: AllKept(c, g(m), k)
  }

  // ---- what a log has recorded ------------------------------------------------------------

  lemma LastReplyKeeps(c: Config, log: seq<Reply>, k: NodeId)
    requires log != [] && k in Replay(c, log[..|log| - 1]).refs
    ensures k in Replay(c, log).refs && Replay(c, log).refs[k] == Replay(c, log[..|log| - 1]).refs[k]
  {
    var last := log[|log| - 1];
    var before := Replay(c, log[..|log| - 1]);
    ReplyKeeps(c, before, ParentPath(c, before, last.node), last.references, k);
  }

  lemma {:induction false} RecordsStay(c: Config, log: seq<Reply>, i: nat, k: NodeId)
    requires i <= |log| && k in Replay(c, log[..i]).refs
    ensures k in Replay(c, log).refs && Replay(c, log).refs[k] == Replay(c, log[..i]).refs[k]
    decreases |log|
  {
    hide Replay;
    if i == |log| {
      assert log[..i] == log;
    } else {
      var front := log[..|log| - 1];
      assert front[..i] == log[..i];
      RecordsStay(c, front, i, k);
      LastReplyKeeps(c, log, k);
    }
  }

  lemma ServedPrefix(g: Graph, log: seq<Reply>, n: nat)
    requires Served(g, log) && n <= |log|
    ensures Served(g, log[..n])
  {
    hide FromGraph;
  }

  /** What a reply in a log does to a node not recorded before. */
  lemma LoggedReplyRecords(c: Config, g: Graph, log: seq<Reply>, i: nat, k: NodeId)
    requires Served(g, log) && i < |log| && k !in Replay(c, log[..i]).refs
    ensures var after := Replay(c, log[..i + 1]).refs;
      && (k in after ==>
            after[k].ref in log[i].references && RefersTo(after[k].ref, k) && Recordable(c, g, k))
      && (NeverPruned(c, g, k) ==>
            (k in after <==> FirstRef(log[i].references, k).Some?)
            && (k in after ==> FirstRef(log[i].references, k) == Some(after[k].ref)))
  {
    hide FirstRef, VisitAll, MayBePath, CanBeRecorded, IsKept, RefersTo;
    var upTo := log[..i + 1];
    assert upTo[..i] == log[..i] && upTo[i] == log[i];
    var before := Replay(c, log[..i]);
    ParentMayBePath(c, log[..i], log[i].node);
    ReplyRecords(c, before, ParentPath(c, before, log[i].node), log[i].references, k);
    assert FromGraph(g, log[i]);
    NothingKept(c, k);
    assert NeverPruned(c, g, k) ==> AllKept(c, log[i].references, k);
  }

  lemma NothingKept(c: Config, k: NodeId)
    ensures AllKept(c, [], k)
  {
  }

  /** The reply that recorded a node. */
  lemma {:induction false} RecordedBy(c: Config, g: Graph, log: seq<Reply>, k: NodeId) returns (i: nat)
    requires Served(g, log) && k in Replay(c, log).refs
    ensures i < |log| && k !in Replay(c, log[..i]).refs && k in Replay(c, log[..i + 1]).refs
    ensures var ref := Replay(c, log).refs[k].ref;
      && ref in log[i].references && RefersTo(ref, k) && Recordable(c, g, k)
      && (NeverPruned(c, g, k) ==> FirstRef(log[i].references, k) == Some(ref))
    decreases |log|
  {
    hide Replay, FirstRef, RefersTo, Recordable, NeverPruned, Served;
    if log == [] {
      NothingReplayed(c);
    } else {
      var n := |log| - 1;
      ServedPrefix(g, log, n);
      if k in Replay(c, log[..n]).refs {
        i := RecordedBy(c, g, log[..n], k);
        assert log[..n][..i] == log[..i] && log[..n][..i + 1] == log[..i + 1];
        LastReplyKeeps(c, log, k);
      } else {
        i := n;
        assert log[..n + 1] == log;
        LoggedReplyRecords(c, g, log, n, k);
      }
    }
  }

  /** A reply with a reference to a node that is never pruned has recorded it. */
  lemma ReferredIsRecorded(c: Config, g: Graph, log: seq<Reply>, i: nat, k: NodeId)
    requires Served(g, log) && i < |log| && NeverPruned(c, g, k) && FirstRef(log[i].references, k).Some?
    ensures k in Replay(c, log[..i + 1]).refs
  {
    hide Replay, FirstRef, NeverPruned;
    if k in Replay(c, log[..i]).refs {
      assert log[..i + 1][..i] == log[..i];
      LastReplyKeeps(c, log[..i + 1], k);
    } else {
      LoggedReplyRecords(c, g, log, i, k);
    }
  }

  // ---- paths ------------------------------------------------------------------------------

  ghost predicate LeadsTo(c: Config, g: Graph, m: NodeId, n: NodeId) {
    Recordable(c, g, n) && exists r :: r in g(m) && RefersTo(r, n) && !r.property
  }

  /** A path from the start along references that are no HasProperty references. */
  ghost predicate IsPath(c: Config, g: Graph, path: seq<NodeId>) {
    && path != [] && path[0] == c.start
    && forall j :: 0 < j < |path| ==> LeadsTo(c, g, path[j - 1], path[j])
  }

  ghost predicate IsClear(c: Config, g: Graph, path: seq<NodeId>) {
    forall j :: 0 < j < |path| ==> NeverPruned(c, g, path[j])
  }

  /** A node that is to be browsed: a path without prunable nodes leads to it. */
  ghost predicate Expected(c: Config, g: Graph, n: NodeId) {
    exists path :: IsPath(c, g, path) && IsClear(c, g, path) && path[|path| - 1] == n
  }

  /** The first node on the path that refers to k is the last one, and it does so by a HasProperty reference first. */
  ghost predicate MeetsAsProperty(c: Config, g: Graph, path: seq<NodeId>, k: NodeId) {
    && IsPath(c, g, path)
    && (forall j :: 0 <= j < |path| - 1 ==> FirstRef(g(path[j]), k).None?)
    && FirstRef(g(path[|path| - 1]), k).Some? && FirstRef(g(path[|path| - 1]), k).value.property
  }

  /** Some path meets the node as a property. */
  ghost predicate Shadowed(c: Config, g: Graph, k: NodeId) {
    k != c.start && exists path :: MeetsAsProperty(c, g, path, k)
  }

  lemma PathPrefix(c: Config, g: Graph, path: seq<NodeId>, n: nat)
    requires IsPath(c, g, path) && 0 < n <= |path|
    ensures IsPath(c, g, path[..n]) && (IsClear(c, g, path) ==> IsClear(c, g, path[..n]))
  {
    hide LeadsTo, NeverPruned;
  }

  lemma StartIsPath(c: Config, g: Graph)
    ensures IsPath(c, g, [c.start])
  {
  }

  lemma PathExtends(c: Config, g: Graph, path: seq<NodeId>, n: NodeId)
    requires path != [] && IsPath(c, g, path) && LeadsTo(c, g, path[|path| - 1], n)
    ensures IsPath(c, g, path + [n])
  {
    hide LeadsTo;
    var longer := path + [n];
    forall j | 0 < j < |longer| ensures LeadsTo(c, g, longer[j - 1], longer[j]) {
    }
  }

  // ---- unshadowed nodes are browsed -------------------------------------------------------

  /** The nodes of the path, the last one apart, were browsed before reply i. */
  ghost predicate BrowsedBefore(g: Graph, log: seq<Reply>, i: nat, path: seq<NodeId>) {
    i <= |log| && forall j :: 0 <= j < |path| - 1 ==> Browsed(g, log[..i], path[j])
  }

  lemma BrowsedLater(g: Graph, log: seq<Reply>, i: nat, j: nat, n: NodeId)
    requires i <= j <= |log| && Browsed(g, log[..i], n)
    ensures Browsed(g, log[..j], n)
  {
    var a :| 0 <= a < i && log[..i][a] == Reply(n, g(n));
    assert log[..j][a] == log[a];
  }

  lemma FullReplyBrowses(g: Graph, log: seq<Reply>, i: nat)
    requires Served(g, log) && i < |log| && log[i].references != []
    ensures Browsed(g, log[..i + 1], log[i].node)
  {
    assert FromGraph(g, log[i]);
    assert log[..i + 1][i] == log[i];
  }

  /** How the walk came to the node of a reply. */
  lemma {:induction false} Lineage(c: Config, g: Graph, log: seq<Reply>, i: nat) returns (path: seq<NodeId>)
    requires IsWalk(c, g, log) && i < |log|
    ensures path != [] && IsPath(c, g, path) && path[|path| - 1] == log[i].node && BrowsedBefore(g, log, i, path)
    decreases i
  {
    hide Replay, LeadsTo, Browsed, IsPath, FirstRef, RefersTo, Recordable, NeverPruned, Served;
    var n := log[i].node;
    assert Expandable(c, Replay(c, log[..i]), n);
    if n == c.start {
      path := [n];
      StartIsPath(c, g);
    } else {
      ServedPrefix(g, log, i);
      var a := RecordedBy(c, g, log[..i], n);
      assert log[..i][a] == log[a];
      var before := Lineage(c, g, log, a);
      Leads(c, g, log, a, n, Replay(c, log[..i]).refs[n].ref);
      PathExtends(c, g, before, n);
      path := before + [n];
      forall j | 0 <= j < |path| - 1 ensures Browsed(g, log[..i], path[j]) {
        if j < |before| - 1 {
          BrowsedLater(g, log, a, i, path[j]);
        } else {
          FullReplyBrowses(g, log, a);
          BrowsedLater(g, log, a + 1, i, path[j]);
        }
      }
    }
  }

  lemma Leads(c: Config, g: Graph, log: seq<Reply>, i: nat, n: NodeId, ref: Reference)
    requires Served(g, log) && i < |log| && Recordable(c, g, n)
    requires ref in log[i].references && RefersTo(ref, n) && !ref.property
    ensures LeadsTo(c, g, log[i].node, n)
  {
    assert FromGraph(g, log[i]);
  }

  /** A node recorded as a property was met as one by the path the walk took to it. */
  lemma PropertyIsShadowed(c: Config, g: Graph, log: seq<Reply>, n: NodeId)
    requires IsWalk(c, g, log) && n in Replay(c, log).refs && NeverPruned(c, g, n)
    requires n != c.start && Replay(c, log).refs[n].ref.property
    ensures Shadowed(c, g, n)
  {
    hide Replay, IsPath;
    var i := RecordedBy(c, g, log, n);
    var path := Lineage(c, g, log, i);
    assert FromGraph(g, log[i]);
    forall j | 0 <= j < |path| - 1 ensures FirstRef(g(path[j]), n).None? {
      EarlierDoNotRefer(c, g, log, i, path[j], n);
    }
    assert MeetsAsProperty(c, g, path, n);
  }

  /** A recorded node that no path meets as a property is not recorded as one. */
  lemma RecordedForBrowsing(c: Config, g: Graph, log: seq<Reply>, n: NodeId)
    requires IsWalk(c, g, log) && n in Replay(c, log).refs && NeverPruned(c, g, n) && !Shadowed(c, g, n)
    ensures Expandable(c, Replay(c, log), n)
  {
    hide Replay, Shadowed;
    if n != c.start && Replay(c, log).refs[n].ref.property {
      PropertyIsShadowed(c, g, log, n);
    }
  }

  lemma EarlierDoNotRefer(c: Config, g: Graph, log: seq<Reply>, i: nat, m: NodeId, n: NodeId)
    requires Served(g, log) && i <= |log| && Browsed(g, log[..i], m)
    requires NeverPruned(c, g, n) && n !in Replay(c, log[..i]).refs
    ensures FirstRef(g(m), n).None?
  {
    hide Replay, FirstRef, NeverPruned, Served;
    var a :| 0 <= a < i && log[..i][a] == Reply(m, g(m));
    if FirstRef(g(m), n).Some? {
      ServedPrefix(g, log, i);
      ReferredIsRecorded(c, g, log[..i], a, n);
      RecordsStay(c, log[..i], a + 1, n);
    }
  }

  /** Every node with references on the path, the start apart, is met by no path as a property. */
  ghost predicate Unshadowed(c: Config, g: Graph, path: seq<NodeId>) {
    forall j :: 0 < j < |path| && g(path[j]) != [] ==> !Shadowed(c, g, path[j])
  }

  /** A finished walk has browsed what a clear and unshadowed path leads to. */
  lemma {:induction false} PathIsBrowsed(c: Config, g: Graph, log: seq<Reply>, path: seq<NodeId>)
    requires IsWalk(c, g, log) && Finished(c, g, log)
    requires IsPath(c, g, path) && IsClear(c, g, path) && Unshadowed(c, g, path)
    ensures var n := path[|path| - 1];
      && (n == c.start || n in Replay(c, log).refs)
      && (n == c.start || g(n) != [] ==> Browsed(g, log, n))
    decreases |path|
  {
    hide Replay, Shadowed;
    var l := |path| - 1;
    var n := path[l];
    if l > 0 {
      PathPrefix(c, g, path, l);
      assert LeadsTo(c, g, path[l - 1], n);
      PathIsBrowsed(c, g, log, path[..l]);
      ReferenceIsRecorded(c, g, log, path[l - 1], n);
      if n != c.start && g(n) != [] {
        RecordedForBrowsing(c, g, log, n);
      }
    }
    if n == c.start {
      assert Expandable(c, Replay(c, log), n);
    }
  }

  /** What a browsed node refers to is recorded, if it is never pruned. */
  lemma ReferenceIsRecorded(c: Config, g: Graph, log: seq<Reply>, m: NodeId, k: NodeId)
    requires Served(g, log) && Browsed(g, log, m)
    requires NeverPruned(c, g, k) && exists r :: r in g(m) && RefersTo(r, k)
    ensures k in Replay(c, log).refs
  {
    hide Replay;
    var i :| 0 <= i < |log| && log[i] == Reply(m, g(m));
    FirstRefIsThere(g(m), k);
    ReferredIsRecorded(c, g, log, i, k);
    RecordsStay(c, log, i + 1, k);
  }

  // ---- shadowed nodes may be lost ---------------------------------------------------------

  /** The nodes of a path, each answered in turn. */
  function PathLog(g: Graph, path: seq<NodeId>): (log: seq<Reply>)
    ensures |log| == |path| && Served(g, log)
    ensures forall j :: 0 <= j < |path| ==> log[j] == Reply(path[j], g(path[j]))
  {
    seq(|path|, j requires 0 <= j < |path| => Reply(path[j], g(path[j])))
  }

  /** Pruning goes by the node, not by its path. */
  ghost predicate PrunesByNode(c: Config, g: Graph) {
    forall k :: Recordable(c, g, k) ==> NeverPruned(c, g, k)
  }

  /** The first node on the path to refer to k. */
  lemma {:induction false} FirstToRefer(g: Graph, path: seq<NodeId>, k: NodeId, j: nat) returns (i: nat)
    requires j < |path| && FirstRef(g(path[j]), k).Some?
    ensures i <= j && FirstRef(g(path[i]), k).Some?
    ensures forall a :: 0 <= a < i ==> FirstRef(g(path[a]), k).None?
  {
    i := 0;
    while FirstRef(g(path[i]), k).None?
      invariant i <= j && forall a :: 0 <= a < i ==> FirstRef(g(path[a]), k).None?
      decreases j - i
    {
      i := i + 1;
    }
  }

  lemma {:induction false} NoReferenceNoRecord(c: Config, g: Graph, path: seq<NodeId>, k: NodeId)
    requires NeverPruned(c, g, k) && forall a :: 0 <= a < |path| ==> FirstRef(g(path[a]), k).None?
    ensures k !in Replay(c, PathLog(g, path)).refs
  {
    if k in Replay(c, PathLog(g, path)).refs {
      var i := RecordedBy(c, g, PathLog(g, path), k);
    }
  }

  /** The first node to refer to k decides how it is recorded. */
  lemma FirstDecides(c: Config, g: Graph, path: seq<NodeId>, k: NodeId, i: nat)
    requires NeverPruned(c, g, k) && i < |path| && FirstRef(g(path[i]), k).Some?
    requires forall a :: 0 <= a < i ==> FirstRef(g(path[a]), k).None?
    ensures k in Replay(c, PathLog(g, path)).refs
    ensures Replay(c, PathLog(g, path)).refs[k].ref == FirstRef(g(path[i]), k).value
  {
    var log := PathLog(g, path);
    assert log[..i] == PathLog(g, path[..i]);
    NoReferenceNoRecord(c, g, path[..i], k);
    LoggedReplyRecords(c, g, log, i, k);
    RecordsStay(c, log, i + 1, k);
  }

  /** A finite address space. */
  ghost predicate Encloses(c: Config, g: Graph, nodes: set<NodeId>) {
    c.start in nodes && forall m, r :: m in nodes && r in g(m) && r.Usable() ==> r.id.value in nodes
  }

  ghost predicate LogInside(log: seq<Reply>, nodes: set<NodeId>) {
    forall i :: 0 <= i < |log| ==> log[i].node in nodes
  }

  lemma RecordedInside(c: Config, g: Graph, nodes: set<NodeId>, log: seq<Reply>, k: NodeId)
    requires Encloses(c, g, nodes) && LogInside(log, nodes) && Served(g, log) && k in Replay(c, log).refs
    ensures k in nodes
  {
    hide Replay;
    var i := RecordedBy(c, g, log, k);
    assert FromGraph(g, log[i]);
  }

  lemma {:induction false} PathInside(c: Config, g: Graph, nodes: set<NodeId>, path: seq<NodeId>)
    requires Encloses(c, g, nodes) && IsPath(c, g, path)
    ensures forall j :: 0 <= j < |path| ==> path[j] in nodes
    decreases |path|
  {
    if |path| > 1 {
      var l := |path| - 1;
      PathPrefix(c, g, path, l);
      PathInside(c, g, nodes, path[..l]);
      assert LeadsTo(c, g, path[l - 1], path[l]);
      assert path[..l][l - 1] in nodes;
    }
  }

  ghost function Unbrowsed(g: Graph, log: seq<Reply>, nodes: set<NodeId>): set<NodeId> {
    set n | n in nodes && !Browsed(g, log, n)
  }

  lemma BrowsedStays(g: Graph, log: seq<Reply>, more: seq<Reply>, n: NodeId)
    requires Browsed(g, log, n)
    ensures Browsed(g, log + more, n)
  {
    var i :| 0 <= i < |log| && log[i] == Reply(n, g(n));
    assert (log + more)[i] == log[i];
  }

  /** Any walk can be brought to an end. */
  lemma {:induction false} Finish(c: Config, g: Graph, nodes: set<NodeId>, log: seq<Reply>) returns (full: seq<Reply>)
    requires Encloses(c, g, nodes) && IsWalk(c, g, log) && LogInside(log, nodes)
    ensures IsWalk(c, g, full) && Finished(c, g, full) && log <= full
    decreases |Unbrowsed(g, log, nodes)|
  {
    hide Replay, Browsed;
    if Finished(c, g, log) {
      full := log;
    } else {
      var n :| Expandable(c, Replay(c, log), n) && !Browsed(g, log, n);
      if n != c.start {
        RecordedInside(c, g, nodes, log, n);
      }
      var reply := Reply(n, g(n));
      ReplayNext(c, log, reply);
      OneLess(g, log, reply, nodes);
      full := Finish(c, g, nodes, log + [reply]);
    }
  }

  lemma OneLess(g: Graph, log: seq<Reply>, reply: Reply, nodes: set<NodeId>)
    requires reply.references == g(reply.node) && reply.node in nodes && !Browsed(g, log, reply.node)
    ensures |Unbrowsed(g, log + [reply], nodes)| < |Unbrowsed(g, log, nodes)|
  {
    var was, now := Unbrowsed(g, log, nodes), Unbrowsed(g, log + [reply], nodes);
    forall n | n in now ensures n in was {
      if Browsed(g, log, n) {
        BrowsedStays(g, log, [reply], n);
      }
    }
    assert (log + [reply])[|log|] == reply;
    assert reply.node in was && reply.node !in now;
    SmallerSet(now, was);
  }

  lemma SmallerSet(a: set<NodeId>, b: set<NodeId>)
    requires a < b
    ensures |a| < |b|
  {
    assert b == a + (b - a);
  }

  /** A node recorded as a property is never browsed. */
  lemma PropertyIsNotBrowsed(c: Config, g: Graph, log: seq<Reply>, full: seq<Reply>, k: NodeId)
    requires IsWalk(c, g, full) && log <= full && k != c.start
    requires k in Replay(c, log).refs && Replay(c, log).refs[k].ref.property
    ensures !Browsed(g, full, k)
  {
    hide Replay;
    assert full[..|log|] == log;
    if Browsed(g, full, k) {
      var i :| 0 <= i < |full| && full[i] == Reply(k, g(k));
      assert Expandable(c, Replay(c, full[..i]), k);
      RecordsStay(c, full, i, k);
      RecordsStay(c, full, |log|, k);
    }
  }

  /** Can the nodes of the path be browsed one after the other? */
  ghost predicate Walkable(c: Config, g: Graph, path: seq<NodeId>) {
    forall j :: 0 <= j < |path| ==> Expandable(c, Replay(c, PathLog(g, path[..j])), path[j])
  }

  lemma WalkableIsWalk(c: Config, g: Graph, path: seq<NodeId>)
    requires Walkable(c, g, path)
    ensures IsWalk(c, g, PathLog(g, path))
  {
    hide Replay, Expandable;
    var plan := PathLog(g, path);
    forall j | 0 <= j < |plan| ensures Expandable(c, Replay(c, plan[..j]), plan[j].node) {
      assert plan[..j] == PathLog(g, path[..j]);
    }
  }

  /** A walk along such a path records the node it meets as a property, and never browses it. */
  lemma WalkAlongLoses(c: Config, g: Graph, nodes: set<NodeId>, path: seq<NodeId>, k: NodeId) returns (log: seq<Reply>)
    requires Encloses(c, g, nodes) && Walkable(c, g, path)
    requires MeetsAsProperty(c, g, path, k) && k != c.start && NeverPruned(c, g, k)
    ensures IsWalk(c, g, log) && Finished(c, g, log) && !Browsed(g, log, k)
  {
    hide Replay, FirstRef, Walkable, Finished, IsWalk, Browsed;
    WalkableIsWalk(c, g, path);
    PathInside(c, g, nodes, path);
    FirstDecides(c, g, path, k, |path| - 1);
    log := Finish(c, g, nodes, PathLog(g, path));
    PropertyIsNotBrowsed(c, g, PathLog(g, path), log, k);
  }

  /**
   If a path meets a node with references of its own as a property, a finished walk goes without
   browsing a node it was to browse: this one, or one the path meets so earlier.
   */
  lemma {:induction false} ShadowedIsLost(c: Config, g: Graph, nodes: set<NodeId>, path: seq<NodeId>, k: NodeId)
      returns (log: seq<Reply>, lost: NodeId)
    requires PrunesByNode(c, g) && Encloses(c, g, nodes)
    requires MeetsAsProperty(c, g, path, k) && k != c.start && Expected(c, g, k) && g(k) != []
    ensures IsWalk(c, g, log) && Finished(c, g, log)
    ensures Expected(c, g, lost) && g(lost) != [] && !Browsed(g, log, lost)
    decreases |path|
  {
    hide Replay, FirstRef, Expandable, Expected, IsWalk, Finished, Browsed, MeetsAsProperty, Encloses, PrunesByNode;
    if Walkable(c, g, path) {
      ExpectedIsClear(c, g, k);
      log := WalkAlongLoses(c, g, nodes, path, k);
      lost := k;
    } else {
      var j :| 0 <= j < |path| && !Expandable(c, Replay(c, PathLog(g, path[..j])), path[j]);
      MeetingPath(c, g, path, k);
      var i := ShorterShadow(c, g, path, j);
      HasReferences(c, g, path, j, k);
      log, lost := ShadowedIsLost(c, g, nodes, path[..i + 1], path[j]);
    }
  }

  lemma MeetingPath(c: Config, g: Graph, path: seq<NodeId>, k: NodeId)
    requires MeetsAsProperty(c, g, path, k)
    ensures IsPath(c, g, path)
  {
  }

  lemma ExpectedIsClear(c: Config, g: Graph, k: NodeId)
    requires Expected(c, g, k) && k != c.start
    ensures NeverPruned(c, g, k)
  {
    var path :| IsPath(c, g, path) && IsClear(c, g, path) && path[|path| - 1] == k;
    assert |path| > 1;
  }

  lemma HasReferences(c: Config, g: Graph, path: seq<NodeId>, j: nat, k: NodeId)
    requires MeetsAsProperty(c, g, path, k) && j < |path|
    ensures g(path[j]) != []
  {
    if j < |path| - 1 {
      assert LeadsTo(c, g, path[j], path[j + 1]);
    }
  }

  /** A node the path cannot browse in its turn was met as a property earlier on the path. */
  lemma ShorterShadow(c: Config, g: Graph, path: seq<NodeId>, j: nat) returns (i: nat)
    requires PrunesByNode(c, g) && IsPath(c, g, path) && j < |path|
    requires !Expandable(c, Replay(c, PathLog(g, path[..j])), path[j])
    ensures i < j && path[j] != c.start
    ensures MeetsAsProperty(c, g, path[..i + 1], path[j]) && Expected(c, g, path[j])
  {
    hide Replay, FirstRef, LeadsTo, NeverPruned, Expected, IsPath, IsClear, Recordable, PrunesByNode;
    var k := path[j];
    PathLeads(c, g, path, j);
    LeadsReferTo(c, g, path[j - 1], k);
    i := FirstToRefer(g, path, k, j - 1);
    var front := path[..j];
    assert front[i] == path[i] && forall a :: 0 <= a < i ==> front[a] == path[a];
    FirstDecides(c, g, front, k, i);
    PathPrefix(c, g, path, i + 1);
    MeetsFirst(c, g, path[..i + 1], k);
    PathIsExpected(c, g, path, j);
  }

  lemma PathLeads(c: Config, g: Graph, path: seq<NodeId>, j: nat)
    requires IsPath(c, g, path) && j < |path|
    ensures j == 0 ==> path[j] == c.start
    ensures j > 0 ==> LeadsTo(c, g, path[j - 1], path[j])
  {
  }

  lemma LeadsReferTo(c: Config, g: Graph, m: NodeId, k: NodeId)
    requires LeadsTo(c, g, m, k) && PrunesByNode(c, g)
    ensures FirstRef(g(m), k).Some? && NeverPruned(c, g, k)
  {
    FirstRefIsThere(g(m), k);
  }

  lemma MeetsFirst(c: Config, g: Graph, path: seq<NodeId>, k: NodeId)
    requires IsPath(c, g, path) && forall a :: 0 <= a < |path| - 1 ==> FirstRef(g(path[a]), k).None?
    requires FirstRef(g(path[|path| - 1]), k).Some? && FirstRef(g(path[|path| - 1]), k).value.property
    ensures MeetsAsProperty(c, g, path, k)
  {
  }

  lemma PathIsExpected(c: Config, g: Graph, path: seq<NodeId>, j: nat)
    requires PrunesByNode(c, g) && IsPath(c, g, path) && j < |path|
    ensures Expected(c, g, path[j])
  {
    PathPrefix(c, g, path, j + 1);
    var upTo := path[..j + 1];
    forall a | 0 < a < |upTo| ensures NeverPruned(c, g, upTo[a]) {
      assert LeadsTo(c, g, path[a - 1], path[a]);
    }
    assert upTo[|upTo| - 1] == path[j];
  }

  // ---- completeness -----------------------------------------------------------------------

  /** Every finished walk has received all references of every node it was to browse. */
  ghost predicate Complete(c: Config, g: Graph) {
    forall log, n :: IsWalk(c, g, log) && Finished(c, g, log) && Expected(c, g, n) && g(n) != [] ==> Browsed(g, log, n)
  }

  /**
   Completeness, exactly: in whatever order the nodes are answered, every finished walk receives all
   references of all nodes it was to browse, if and only if no path meets such a node, having
   references, as a property.
   */
  lemma CompletenessCondition(c: Config, g: Graph, nodes: set<NodeId>)
    requires PrunesByNode(c, g) && Encloses(c, g, nodes)
    ensures Complete(c, g) <==> forall k :: Expected(c, g, k) && g(k) != [] ==> !Shadowed(c, g, k)
  {
    if forall k :: Expected(c, g, k) && g(k) != [] ==> !Shadowed(c, g, k) {
      forall log, n | IsWalk(c, g, log) && Finished(c, g, log) && Expected(c, g, n) && g(n) != []
        ensures Browsed(g, log, n)
      {
        ExpectedIsBrowsed(c, g, log, n);
      }
    } else {
      var k :| Expected(c, g, k) && g(k) != [] && Shadowed(c, g, k);
      var path :| MeetsAsProperty(c, g, path, k);
      var log, lost := ShadowedIsLost(c, g, nodes, path, k);
      assert !Browsed(g, log, lost);
    }
  }

  lemma ExpectedIsBrowsed(c: Config, g: Graph, log: seq<Reply>, n: NodeId)
    requires IsWalk(c, g, log) && Finished(c, g, log) && Expected(c, g, n) && g(n) != []
    requires forall k :: Expected(c, g, k) && g(k) != [] ==> !Shadowed(c, g, k)
    ensures Browsed(g, log, n)
  {
    hide Shadowed, Finished, Browsed;
    var path :| IsPath(c, g, path) && IsClear(c, g, path) && path[|path| - 1] == n;
    forall j | 0 < j < |path| && g(path[j]) != [] ensures !Shadowed(c, g, path[j]) {
      PathPrefix(c, g, path, j + 1);
      assert path[..j + 1][j] == path[j];
      assert Expected(c, g, path[j]);
    }
    PathIsBrowsed(c, g, log, path);
  }

  // ---- pruned diagnostics -----------------------------------------------------------------

  const DIAGNOSTICS: set<string> :=
    {"SessionsDiagnosticsSummary", "SessionDiagnosticsArray", "SessionSecurityDiagnosticsArray",
     "SubscriptionDiagnosticsArray"}

  function Split(s: string): (parts: seq<string>)
    ensures parts != []
  {
    if s == "" then [""]
    else
      Extended(Split(s[..|s| - 1]), s[|s| - 1])
  }

  function Extended(parts: seq<string>, last: char): (longer: seq<string>)
    requires parts != []
    ensures longer != []
  {
    if last == '/' then parts + [""] else parts[..|parts| - 1] + [parts[|parts| - 1] + [last]]
  }

  predicate NamesDiagnostic(path: string) {
    exists name :: name in Split(path) && name in DIAGNOSTICS
  }

  /** The pruning of the source; standard tells the ids of the diagnostics nodes themselves. */
  predicate IsEphemeralDiagnostic(standard: NodeId -> bool, k: NodeId, path: string) {
    standard(k) || NamesDiagnostic(path)
  }

  lemma SplitLast(s: string, last: char)
    ensures Split(s + [last]) == Extended(Split(s), last)
  {
    assert (s + [last])[..|s|] == s;
  }

  lemma ExtendedAfter(parts: seq<string>, more: seq<string>, last: char)
    requires more != []
    ensures parts + Extended(more, last) == Extended(parts + more, last)
  {
    assert (parts + more)[..|parts + more| - 1] == parts + more[..|more| - 1];
  }

  lemma SplitSlash(a: string)
    ensures Split(a + "/" + "") == Split(a) + Split("")
  {
    SplitLast(a, '/');
    assert a + "/" + "" == a + ['/'];
  }

  lemma SplitLonger(a: string, front: string, last: char)
    requires Split(a + "/" + front) == Split(a) + Split(front)
    ensures Split(a + "/" + (front + [last])) == Split(a) + Split(front + [last])
  {
    hide Split, Extended;
    SplitLast(a + "/" + front, last);
    SplitLast(front, last);
    ExtendedAfter(Split(a), Split(front), last);
    assert a + "/" + (front + [last]) == a + "/" + front + [last];
  }

  lemma {:induction false} SplitAtSlash(a: string, b: string)
    ensures Split(a + "/" + b) == Split(a) + Split(b)
  {
    hide Split, Extended;
    if b == "" {
      SplitSlash(a);
    } else {
      var front, last := b[..|b| - 1], b[|b| - 1];
      SplitAtSlash(a, front);
      SplitLonger(a, front, last);
      assert b == front + [last];
    }
  }

  lemma NamesAfterSlash(a: string, b: string)
    ensures NamesDiagnostic(a + "/" + b) <==> NamesDiagnostic(a) || NamesDiagnostic(b)
  {
    SplitAtSlash(a, b);
    hide Split;
    assert forall name :: name in Split(a + "/" + b) <==> name in Split(a) || name in Split(b);
  }

  lemma NoEmptyName()
    ensures !NamesDiagnostic("")
  {
  }

  lemma {:induction false} TrimmedNames(p: string)
    ensures NamesDiagnostic(TrimRight(p)) <==> NamesDiagnostic(p)
  {
    hide NamesDiagnostic;
    if p != "" && p[|p| - 1] == '/' {
      var front := p[..|p| - 1];
      TrimmedNames(front);
      NamesAfterSlash(front, "");
      NoEmptyName();
      assert front + "/" + "" == p;
    }
  }

  /** The source prunes the node of a reference by its id and the name in the reference, whatever the parent. */
  lemma PrunedByIdAndName(standard: NodeId -> bool, c: Config, p: string, r: Reference)
    requires forall k, q :: c.prune(k, q) <==> IsEphemeralDiagnostic(standard, k, q)
    requires !NamesDiagnostic(c.rootPath) && MayBePath(c, p) && r.Usable()
    ensures c.prune(r.id.value, Join(p, r.name.value)) <==> standard(r.id.value) || NamesDiagnostic(r.name.value)
  {
    hide NamesDiagnostic;
    NamesAfterSlash("", c.rootPath);
    NoEmptyName();
    assert "" + "/" + c.rootPath == "/" + c.rootPath;
    NamesAfterSlash(TrimRight(p), r.name.value);
    TrimmedNames(p);
  }

  /** All references to a node carry its browse name. */
  ghost predicate OneName(g: Graph) {
    forall m, n, r, q :: r in g(m) && q in g(n) && r.id == q.id ==> r.name == q.name
  }

  /** Where every node has one browse name, the source prunes by the node. */
  lemma DiagnosticsArePrunedByNode(standard: NodeId -> bool, c: Config, g: Graph)
    requires forall k, q :: c.prune(k, q) <==> IsEphemeralDiagnostic(standard, k, q)
    requires !NamesDiagnostic(c.rootPath) && OneName(g)
    ensures PrunesByNode(c, g)
  {
    hide MayBePath, Join, IsEphemeralDiagnostic;
    forall k, m, r | Recordable(c, g, k) && r in g(m) && RefersTo(r, k) ensures IsKept(c, r) {
      var n, q :| q in g(n) && RefersTo(q, k) && CanBeRecorded(c, q);
      var p :| MayBePath(c, p) && !c.prune(q.id.value, Join(p, q.name.value));
      PrunedByIdAndName(standard, c, p, q);
      forall p' | MayBePath(c, p') ensures !c.prune(r.id.value, Join(p', r.name.value)) {
        PrunedByIdAndName(standard, c, p', r);
      }
    }
  }

  // ---- finished browses -------------------------------------------------------------------

  /** The log of a browse with nothing left to do is a finished walk over the graph served. */
  lemma BrowseIsWalk(server: (nat, seq<NodeId>) -> Response, c: Config, g: Graph, w: Walk, h: History)
    requires Explored(server, c, w, h, {}) && Serves(server, g)
    ensures w == Replay(c, h.log) && IsWalk(c, g, h.log) && Finished(c, g, h.log)
    ensures forall n :: Browsed(g, h.log, n) && Expandable(c, w, n) ==> n in h.answered
  {
    hide Replay, Answers, Browsed, Expandable;
    forall i | 0 <= i < |h.log| ensures FromGraph(g, h.log[i]) {
      assert IsReply(server, h.log[i]);
    }
    forall n | Expandable(c, w, n) ensures n in h.answered && Browsed(g, h.log, n) {
      assert n in {} + h.answered;
      assert HasFullReply(server, h.log, n);
      FullReplyIsBrowsed(server, g, h.log, n);
    }
  }

  lemma FullReplyIsBrowsed(server: (nat, seq<NodeId>) -> Response, g: Graph, log: seq<Reply>, n: NodeId)
    requires Serves(server, g) && HasFullReply(server, log, n)
    ensures Browsed(g, log, n)
  {
    hide Answers;
    var i :| 0 <= i < |log| && log[i].node == n && IsFullReply(server, log[i]);
    assert log[i] == Reply(n, g(n));
  }

  /** A node referred to at the end of a clear and unshadowed path is found by every finished browse. */
  lemma UnshadowedIsFound(server: (nat, seq<NodeId>) -> Response, c: Config, g: Graph, w: Walk, h: History,
      path: seq<NodeId>, ref: Reference)
    requires Explored(server, c, w, h, {}) && Serves(server, g)
    requires IsPath(c, g, path) && IsClear(c, g, path) && Unshadowed(c, g, path)
    requires ref in g(path[|path| - 1]) && ref.Usable() && NeverPruned(c, g, ref.id.value)
    ensures ref.id.value in w.refs
  {
    hide Explored, Serves, Replay, IsPath, IsClear, Unshadowed, Finished;
    BrowseIsWalk(server, c, g, w, h);
    PathIsNotEmpty(c, g, path);
    var m := path[|path| - 1];
    PathIsBrowsed(c, g, h.log, path);
    assert RefersTo(ref, ref.id.value);
    ReferenceIsRecorded(c, g, h.log, m, ref.id.value);
  }

  lemma PathIsNotEmpty(c: Config, g: Graph, path: seq<NodeId>)
    requires IsPath(c, g, path)
    ensures path != []
  {
  }

  /** References agree on which nodes are properties. */
  ghost predicate Consistent(g: Graph) {
    forall m, n, r, q :: r in g(m) && q in g(n) && r.id == q.id ==> r.property == q.property
  }

  /** Where references agree no node to be browsed is shadowed. */
  lemma ConsistentIsUnshadowed(c: Config, g: Graph, k: NodeId)
    requires Consistent(g) && Expected(c, g, k)
    ensures !Shadowed(c, g, k)
  {
    if k != c.start {
      var path :| IsPath(c, g, path) && IsClear(c, g, path) && path[|path| - 1] == k;
      assert LeadsTo(c, g, path[|path| - 2], k);
      var r :| r in g(path[|path| - 2]) && RefersTo(r, k) && !r.property;
      forall other | IsPath(c, g, other) && FirstRef(g(other[|other| - 1]), k).Some?
        ensures !FirstRef(g(other[|other| - 1]), k).value.property
      {
        FirstRefIsThere(g(other[|other| - 1]), k);
      }
    }
  }

  /** The limit of 128 requests is no depth limit: more nodes with references than they can carry stay behind. */
  lemma RequestLimitLeavesNodesBehind(server: (nat, seq<NodeId>) -> Response, c: Config, g: Graph, w: Walk, h: History,
      left: seq<NodeId>, maxNodesPerBrowse: nat, many: set<NodeId>)
    requires Explored(server, c, w, h, SetOf(left)) && Serves(server, g)
    requires |h.answered| <= 128 * maxNodesPerBrowse < |many|
    requires forall n :: n in many ==> Expected(c, g, n) && g(n) != []
    requires forall k :: Expected(c, g, k) && g(k) != [] ==> !Shadowed(c, g, k)
    ensures left != []
  {
    hide Expected, Shadowed, Replay, Serves, Browsed, Inv, Faithful, Logged;
    if left == [] {
      assert SetOf(left) == {};
      BrowseIsWalk(server, c, g, w, h);
      forall n | n in many ensures n in h.answered {
        ExpectedIsBrowsed(c, g, h.log, n);
        BrowsedIsExpandable(c, g, h.log, n);
      }
      SubsetSize(many, h.answered);
    }
  }

  predicate EachAnswersSome(rounds: seq<Answered>) {
    forall i :: 0 <= i < |rounds| ==> rounds[i].answer != []
  }

  lemma {:induction false} RoundsAnswer(rounds: seq<Answered>)
    requires EachAnswersSome(rounds)
    ensures |AnsweredNodes(rounds)| >= |rounds|
  {
    if rounds != [] {
      RoundsAnswer(rounds[..|rounds| - 1]);
    }
  }

  lemma {:induction false} FewerToBrowse(w: Walk, nodes: seq<NodeId>)
    ensures |ToBrowse(w, nodes)| <= |nodes|
  {
    if nodes != [] {
      FewerToBrowse(w, nodes[..|nodes| - 1]);
    }
  }

  lemma OrderFits(c: Config, w: Walk, h: History, todo: set<NodeId>, nodes: set<NodeId>)
    requires Inv(c, w, h, todo) && forall k :: k in w.refs ==> k in nodes
    ensures |w.order| <= |nodes|
  {
    DistinctCount(w.order);
    SubsetSize(SetOf(w.order), nodes);
  }

  /**
   The browse of an address space of fewer than 128 nodes comes to an end, if every round answers some
   node and refuses none.
   */
  lemma SmallSpaceIsFinished(server: (nat, seq<NodeId>) -> Response, c: Config, g: Graph, maxNodes: nat,
      w: Walk, h: History, rounds: seq<Answered>, left: seq<NodeId>, nodes: set<NodeId>)
    requires IsBrowse(server, c, maxNodes, rounds) && left == PendingAfter(c, rounds)
    requires h.log == LogOf(rounds) && (left == [] || |rounds| == 128)
    requires Explored(server, c, w, h, SetOf(left)) && Serves(server, g)
    requires EachAnswersSome(rounds) && NoneRefused(rounds)
    requires Encloses(c, g, nodes) && |nodes| < 128
    ensures left == []
  {
    hide IsBrowse, Serves, Replay, PendingAfter, LogOf, Encloses, ToBrowse, AnsweredNodes, Inv, Faithful;
    hide Orderly, IsReply, HasFullReply;
    BreadthFirst(server, c, maxNodes, rounds);
    RoundsAnswer(rounds);
    FewerToBrowse(w, w.order);
    forall k | k in w.refs ensures k in nodes {
      RecordedAreInside(server, c, g, nodes, w, h, SetOf(left), k);
    }
    OrderFits(c, w, h, SetOf(left), nodes);
  }

  lemma RecordedAreInside(server: (nat, seq<NodeId>) -> Response, c: Config, g: Graph, nodes: set<NodeId>,
      w: Walk, h: History, todo: set<NodeId>, k: NodeId)
    requires Inv(c, w, h, todo) && Faithful(server, h) && Serves(server, g)
    requires Encloses(c, g, nodes) && k in w.refs
    ensures k in nodes
  {
    hide Faithful, Serves, Encloses;
    var i :| 0 <= i < |w.order| && w.order[i] == k;
    EarlierAreInside(server, c, g, nodes, w, h, todo, i);
  }

  lemma {:induction false} EarlierAreInside(server: (nat, seq<NodeId>) -> Response, c: Config, g: Graph,
      nodes: set<NodeId>, w: Walk, h: History, todo: set<NodeId>, i: nat)
    requires Inv(c, w, h, todo) && Faithful(server, h) && Serves(server, g)
    requires Encloses(c, g, nodes) && i < |w.order|
    ensures w.order[i] in nodes
  {
    hide Inv, Faithful, Serves;
    var n := RecordedIsSent(server, g, c, w, h, todo, i);
    if n != c.start {
      var j :| 0 <= j < i && w.order[j] == n;
      EarlierAreInside(server, c, g, nodes, w, h, todo, j);
    }
  }

  lemma BrowsedIsExpandable(c: Config, g: Graph, log: seq<Reply>, n: NodeId)
    requires IsWalk(c, g, log) && Browsed(g, log, n)
    ensures Expandable(c, Replay(c, log), n)
  {
    hide Replay;
    var i :| 0 <= i < |log| && log[i] == Reply(n, g(n));
    assert Expandable(c, Replay(c, log[..i]), log[i].node);
    if n != c.start {
      RecordsStay(c, log, i, n);
    }
  }

  lemma SubsetSize(a: set<NodeId>, b: set<NodeId>)
    requires a <= b
    ensures |a| <= |b|
  {
    assert b == a + (b - a);
  }

  // ---- examples ---------------------------------------------------------------------------

  const PLAIN := Config("s", "Objects", (k, p) => false)

  function To(k: NodeId, property: bool): Reference {
    Reference(Some(k), Some(k), property)
  }

  /** The start refers to k as a property and to m; m refers to k as well, and k to x. */
  function ShadowGraph(n: NodeId): seq<Reference> {
    if n == "s" then [To("k", true), To("m", false)]
    else if n == "m" then [To("k", false)]
    else if n == "k" then [To("x", false)]
    else []
  }

  lemma VisitOne(c: Config, w: Walk, p: string, a: Reference)
    ensures VisitAll(c, w, p, [a]) == VisitReference(c, w, p, a).walk
  {
    assert [a][..0] == [];
  }

  lemma VisitTwo(c: Config, w: Walk, p: string, a: Reference, b: Reference)
    ensures VisitAll(c, w, p, [a, b]) == VisitReference(c, VisitReference(c, w, p, a).walk, p, b).walk
  {
    assert [a, b][..1] == [a];
    VisitOne(c, w, p, a);
  }

  /** Only k, as a property, and m are known, m not before k. */
  ghost predicate KnowsOnlyFirst(w: Walk) {
    && (forall n :: n in w.refs ==> n == "m" || n == "k")
    && ("m" in w.refs ==> "k" in w.refs)
    && ("k" in w.refs ==> w.refs["k"].ref.property)
  }

  /** Whatever is answered when, k is a property and x is never seen. */
  lemma {:induction false} ShadowGraphWalk(log: seq<Reply>)
    requires IsWalk(PLAIN, ShadowGraph, log)
    ensures KnowsOnlyFirst(Replay(PLAIN, log))
    decreases |log|
  {
    if log != [] {
      var n := |log| - 1;
      var last := log[n];
      WalkPrefix(PLAIN, ShadowGraph, log, n);
      ShadowGraphWalk(log[..n]);
      var w := Replay(PLAIN, log[..n]);
      var p := ParentPath(PLAIN, w, last.node);
      assert FromGraph(ShadowGraph, last) && Expandable(PLAIN, w, last.node);
      if last.references != [] {
        if last.node == "s" {
          VisitTwo(PLAIN, w, p, To("k", true), To("m", false));
        } else if last.node == "m" {
          VisitOne(PLAIN, w, p, To("k", false));
        }
      }
    }
  }

  lemma WalkPrefix(c: Config, g: Graph, log: seq<Reply>, n: nat)
    requires IsWalk(c, g, log) && n <= |log|
    ensures IsWalk(c, g, log[..n])
  {
    hide Replay, Expandable;
    forall i | 0 <= i < n ensures Expandable(c, Replay(c, log[..n][..i]), log[..n][i].node) {
      assert log[..n][..i] == log[..i];
    }
  }

  /**
   Every finished browse of this graph lacks x, although references lead to it that are no
   HasProperty references: k, met as a property first, is never browsed.
   */
  lemma PropertyFirstLosesNode(server: (nat, seq<NodeId>) -> Response, w: Walk, h: History)
    requires Explored(server, PLAIN, w, h, {}) && Serves(server, ShadowGraph)
    ensures "k" in w.refs && "m" in w.refs && "x" !in w.refs
    ensures Expected(PLAIN, ShadowGraph, "x") && Shadowed(PLAIN, ShadowGraph, "k")
  {
    hide Replay, Logged, Faithful, Inv;
    BrowseIsWalk(server, PLAIN, ShadowGraph, w, h);
    ShadowGraphWalk(h.log);
    StartReaches(h.log, "k");
    StartReaches(h.log, "m");
    ShadowGraphPaths();
  }

  lemma StartReaches(log: seq<Reply>, k: NodeId)
    requires IsWalk(PLAIN, ShadowGraph, log) && Finished(PLAIN, ShadowGraph, log) && k in {"k", "m"}
    ensures k in Replay(PLAIN, log).refs
  {
    assert Expandable(PLAIN, Replay(PLAIN, log), "s");
    var r := To(k, k == "k");
    assert r in ShadowGraph("s") && RefersTo(r, k);
    ReferenceIsRecorded(PLAIN, ShadowGraph, log, "s", k);
  }

  lemma PlainLeads(m: NodeId, n: NodeId)
    requires To(n, false) in ShadowGraph(m)
    ensures LeadsTo(PLAIN, ShadowGraph, m, n) && NeverPruned(PLAIN, ShadowGraph, n)
  {
    var r := To(n, false);
    assert RefersTo(r, n) && MayBePath(PLAIN, "/Objects") && !PLAIN.prune(n, Join("/Objects", n));
    assert CanBeRecorded(PLAIN, r);
  }

  lemma ShadowGraphPaths()
    ensures Expected(PLAIN, ShadowGraph, "x") && Shadowed(PLAIN, ShadowGraph, "k")
  {
    XIsExpected();
    KIsShadowed();
  }

  lemma XIsExpected()
    ensures Expected(PLAIN, ShadowGraph, "x")
  {
    hide LeadsTo, NeverPruned;
    var path: seq<NodeId> := ["s", "m", "k", "x"];
    PlainLeads("s", "m");
    PlainLeads("m", "k");
    PlainLeads("k", "x");
    assert IsPath(PLAIN, ShadowGraph, path) && IsClear(PLAIN, ShadowGraph, path) && path[|path| - 1] == "x";
  }

  lemma KIsShadowed()
    ensures Shadowed(PLAIN, ShadowGraph, "k")
  {
    hide LeadsTo;
    var refs := ShadowGraph("s");
    assert refs[..1] == [To("k", true)] && refs[..1][..0] == [];
    assert FirstRef(refs[..1], "k") == Some(To("k", true));
    assert MeetsAsProperty(PLAIN, ShadowGraph, ["s"], "k");
  }

  /** The start refers to k as a property, to m and to x; m refers to k as well, and k to x. */
  function HarmlessGraph(n: NodeId): seq<Reference> {
    if n == "s" then [To("k", true), To("m", false), To("x", false)] else ShadowGraph(n)
  }

  /**
   The condition is exact for receiving all references, not for finding all nodes: here k is
   shadowed and its reference to x never received, but every finished browse has found x elsewhere.
   */
  lemma ShadowedNodeMayLoseNothing(log: seq<Reply>)
    requires IsWalk(PLAIN, HarmlessGraph, log) && Finished(PLAIN, HarmlessGraph, log)
    ensures Shadowed(PLAIN, HarmlessGraph, "k")
    ensures forall k :: k in {"k", "m", "x"} ==> k in Replay(PLAIN, log).refs
  {
    hide Replay, FirstRef;
    assert Browsed(HarmlessGraph, log, "s") by {
      assert Expandable(PLAIN, Replay(PLAIN, log), "s");
    }
    HarmlessShadow();
    forall k | k in {"k", "m", "x"} ensures k in Replay(PLAIN, log).refs {
      var r := To(k, k == "k");
      assert r in HarmlessGraph("s") && RefersTo(r, k);
      ReferenceIsRecorded(PLAIN, HarmlessGraph, log, "s", k);
    }
  }

  lemma HarmlessShadow()
    ensures Shadowed(PLAIN, HarmlessGraph, "k")
  {
    var refs := HarmlessGraph("s");
    assert refs[..2] == [To("k", true), To("m", false)];
    assert refs[..2][..1] == [To("k", true)] && refs[..2][..1][..0] == [];
    assert FirstRef(refs[..2][..1], "k") == Some(To("k", true));
    assert FirstRef(refs[..2], "k") == Some(To("k", true));
    assert MeetsAsProperty(PLAIN, HarmlessGraph, ["s"], "k");
  }

  lemma NewReference(c: Config, log: seq<Reply>, n: NodeId, ref: Reference)
    requires Orderly(c, log) && Expandable(c, Replay(c, log), n)
    requires ref.Usable() && ref.id.value !in Replay(c, log).refs
    requires !c.prune(ref.id.value, Join(ParentPath(c, Replay(c, log), n), ref.name.value))
    ensures Orderly(c, log + [Reply(n, [ref])])
    ensures var w := Replay(c, log);
      Replay(c, log + [Reply(n, [ref])]).refs
      == w.refs[ref.id.value := Entry(ref, Join(ParentPath(c, w, n), ref.name.value))]
  {
    hide Replay, Join;
    var w := Replay(c, log);
    ReplayNext(c, log, Reply(n, [ref]));
    VisitOne(c, w, ParentPath(c, w, n), ref);
  }

  lemma SlashesTrimmed()
    ensures Join("/Objects", "a/") == "/Objects/a/" && Join("/Objects/a/", "b") == "/Objects/a/b"
    ensures "/" + "Objects" == "/Objects"
  {
    assert "/Objects/a/"[..10] == "/Objects/a";
    assert TrimRight("/Objects/a/") == TrimRight("/Objects/a") == "/Objects/a";
  }

  /** A browse name that ends in a slash: the child's path is not the parent's path, a slash and the name. */
  lemma TrailingSlashIsTrimmed() returns (log: seq<Reply>)
    ensures Orderly(PLAIN, log)
    ensures var refs := Replay(PLAIN, log).refs;
      && "a" in refs && refs["a"].path == "/Objects/a/"
      && "b" in refs && refs["b"].path == "/Objects/a/b"
  {
    hide Replay, Join, Orderly, TrimRight;
    var a, b := Reference(Some("a"), Some("a/"), false), To("b", false);
    NothingReplayed(PLAIN);
    SlashesTrimmed();
    PlainPrunesNothing("a");
    PlainPrunesNothing("b");
    NewReference(PLAIN, [], "s", a);
    log := [] + [Reply("s", [a])];
    NewReference(PLAIN, log, "a", b);
    log := log + [Reply("a", [b])];
  }

  lemma PlainPrunesNothing(k: NodeId)
    ensures forall p :: !PLAIN.prune(k, p)
  {
  }
}
