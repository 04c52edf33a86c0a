/**
 The arbitration protocol of many nodes over one shared document.

 A tick is not atomic: a node fetches the document, processes what it fetched later, and the
 write it then sends lands later still, or never.  A run is any interleaving of those steps.
 */
module RedundancyProtocol {
  import opened Options
  import opened RedundancyNode

  /** pending is the outcome of a read not processed yet; quiet counts reads since the document changed. */
  datatype NodeState = NodeState(local: Local, pending: Option<Option<Doc>>, quiet: nat)

  /** A write on its way to the database. */
  datatype Sent = Sent(node: NodeName, kind: Write, tag: Tag)

  /**
   clock is the last tag handed out; landed lists the writes that made the document, oldest first;
   failed holds the writes that were lost or refused; latest is each node's newest write.
   */
  datatype State = State(
    doc: Option<Doc>,
    flight: set<Sent>,
    clock: Tag,
    nodes: map<NodeName, NodeState>,
    landed: seq<Sent>,
    failed: set<Sent>,
    latest: map<NodeName, Sent>)

  datatype Action =
    | Fetch(n: NodeName)
    | Process(n: NodeName)
    | Skip(n: NodeName)
    | GoOffline(n: NodeName)
    | Crash(n: NodeName)
    | Land(w: Sent)
    | Lose(w: Sent)

  ghost predicate Enabled(s: State, a: Action) {
    match a
    case Fetch(n) => n in s.nodes && s.nodes[n].pending.None?
    case Process(n) => n in s.nodes && s.nodes[n].pending.Some?
    case Skip(n) => n in s.nodes && s.nodes[n].pending.Some?
    case GoOffline(n) => n in s.nodes && s.nodes[n].pending.None?
    case Crash(n) => n in s.nodes
    case Land(w) => w in s.flight
    case Lose(w) => w in s.flight
  }

  ghost function Step(s: State, a: Action): (s': State)
    requires Enabled(s, a)
    ensures s'.nodes.Keys == s.nodes.Keys
  {
    match a
    case Fetch(n) =>
      s.(nodes := s.nodes[n := s.nodes[n].(pending := Some(s.doc), quiet := s.nodes[n].quiet + 1)])
    case Process(n) =>
      var ns := s.nodes[n].(pending := None);
      var found := s.nodes[n].pending.value;
      if found.None? then
        Post(s, n, ns.(local := ns.local.(active := true)), Insert)
      else if !found.value.Admits(n) then
        s.(nodes := s.nodes[n := ns.(local := STARTED)])
      else
        var local := Decide(n, ns.local, found.value);
        if local.active then Post(s, n, ns.(local := local), Update)
        else s.(nodes := s.nodes[n := ns.(local := local)])
    case Skip(n) => s.(nodes := s.nodes[n := s.nodes[n].(pending := None)])
    case GoOffline(n) => s.(nodes := s.nodes[n := s.nodes[n].(local := s.nodes[n].local.(active := false))])
    case Crash(n) => s.(nodes := s.nodes[n := s.nodes[n].(local := STARTED, pending := None)])
    case Land(w) => LandWrite(s.(flight := s.flight - {w}), w)
    case Lose(w) => s.(flight := s.flight - {w}, failed := s.failed + {w})
  }

  /** An active node sends a write with a fresh tag. */
  ghost function Post(s: State, n: NodeName, ns: NodeState, kind: Write): State {
    var w := Sent(n, kind, s.clock + 1);
    s.(nodes := s.nodes[n := ns], clock := s.clock + 1, flight := s.flight + {w}, latest := s.latest[n := w])
  }

  /** The unique index refuses a second document; an update needs one to match. */
  ghost function LandWrite(s: State, w: Sent): (s': State)
    ensures s'.nodes.Keys == s.nodes.Keys
  {
    if w.kind.Insert? && s.doc.None? then
      Written(s, w, Doc(w.node, w.tag, true, []))
    else if w.kind.Update? && s.doc.Some? then
      Written(s, w, s.doc.value.(activeNode := w.node, tag := w.tag))
    else
      s.(failed := s.failed + {w})
  }

  ghost function Written(s: State, w: Sent, d: Doc): (s': State)
    ensures s'.nodes.Keys == s.nodes.Keys
  {
    s.(doc := Some(d), landed := s.landed + [w], nodes := map n | n in s.nodes :: s.nodes[n].(quiet := 0))
  }

  ghost predicate IsRun(s: State, actions: seq<Action>)
    decreases |actions|
  {
    actions == [] || (Enabled(s, actions[0]) && IsRun(Step(s, actions[0]), actions[1..]))
  }

  ghost function Run(s: State, actions: seq<Action>): (s': State)
    requires IsRun(s, actions)
    ensures s'.nodes.Keys == s.nodes.Keys
    decreases |actions|
  {
    if actions == [] then s else Run(Step(s, actions[0]), actions[1..])
  }

  lemma {:induction false} RunConcat(s: State, first: seq<Action>, second: seq<Action>)
    requires IsRun(s, first) && IsRun(Run(s, first), second)
    ensures IsRun(s, first + second) && Run(s, first + second) == Run(Run(s, first), second)
    decreases |first|
  {
    if first == [] {
      assert first + second == second;
    } else {
      assert (first + second)[1..] == first[1..] + second;
      RunConcat(Step(s, first[0]), first[1..], second);
    }
  }

  ghost predicate Active(s: State, n: NodeName) {
    n in s.nodes && s.nodes[n].local.active
  }

  /**
   What a write does when it lands: an insert makes the first document, which admits every node, and
   an update changes name and tag of the one there is; any other write is refused.
   */
  lemma LandedWriteShows(s: State, w: Sent)
    requires w in s.flight
    ensures var s' := Step(s, Land(w));
      && (s.doc.None? && w.kind.Insert? ==>
            && s'.doc.Some? && s'.doc.value.activeNode == w.node && s'.doc.value.tag == w.tag
            && forall n :: s'.doc.value.Admits(n))
      && (s.doc.Some? && w.kind.Update? ==>
            s'.doc == Some(Doc(w.node, w.tag, s.doc.value.enabled, s.doc.value.nodeNames)))
      && (s.doc.None? != w.kind.Insert? ==> s'.doc == s.doc && s'.landed == s.landed && w in s'.failed)
  {
  }

  // ---- tags never come back ---------------------------------------------------------------

  /** A tag still in flight has been seen by nobody, so two equal tags come from one write. */
  ghost predicate TagsFresh(s: State) {
    && (s.doc.Some? ==> s.doc.value.tag <= s.clock)
    && (forall n :: n in s.nodes ==> KnowsUpTo(s.nodes[n], s.clock))
    && (forall w :: w in s.flight ==> 0 < w.tag <= s.clock && Unseen(s, w.tag))
    && (forall v, w :: v in s.flight && w in s.flight && v.tag == w.tag ==> v == w)
  }

  ghost predicate HasSnapshot(ns: NodeState) {
    ns.pending.Some? && ns.pending.value.Some?
  }

  ghost predicate KnowsUpTo(ns: NodeState, clock: Tag) {
    ns.local.lastTag <= clock && (HasSnapshot(ns) ==> ns.pending.value.value.tag <= clock)
  }

  ghost predicate Knows(ns: NodeState, tag: Tag) {
    ns.local.lastTag == tag || (HasSnapshot(ns) && ns.pending.value.value.tag == tag)
  }

  ghost predicate Unseen(s: State, tag: Tag) {
    && (s.doc.Some? ==> s.doc.value.tag != tag)
    && (forall n :: n in s.nodes ==> !Knows(s.nodes[n], tag))
  }

  /** A node that comes to know nothing but the document leaves the tags fresh. */
  lemma NodeChangeKeepsTagsFresh(s: State, n: NodeName, ns: NodeState)
    requires TagsFresh(s) && n in s.nodes && KnowsUpTo(ns, s.clock)
    requires forall tag: Tag :: 0 < tag && Knows(ns, tag) && !Knows(s.nodes[n], tag) ==>
      s.doc.Some? && s.doc.value.tag == tag
    ensures TagsFresh(s.(nodes := s.nodes[n := ns]))
  {
    var s' := s.(nodes := s.nodes[n := ns]);
    forall w | w in s'.flight ensures 0 < w.tag <= s'.clock && Unseen(s', w.tag) {
      assert Unseen(s, w.tag);
    }
  }

  lemma PostKeepsTagsFresh(s: State, n: NodeName, ns: NodeState, kind: Write)
    requires TagsFresh(s) && n in s.nodes && KnowsUpTo(ns, s.clock)
    requires forall tag: Tag :: 0 < tag && Knows(ns, tag) && !Knows(s.nodes[n], tag) ==>
      s.doc.Some? && s.doc.value.tag == tag
    ensures TagsFresh(Post(s, n, ns, kind))
  {
    NodeChangeKeepsTagsFresh(s, n, ns);
    var mid := s.(nodes := s.nodes[n := ns]);
    var s' := Post(s, n, ns, kind);
    forall w | w in s'.flight ensures 0 < w.tag <= s'.clock && Unseen(s', w.tag) {
      assert w in s.flight ==> Unseen(mid, w.tag);
    }
  }

  lemma LandKeepsTagsFresh(s: State, v: Sent)
    requires TagsFresh(s) && v in s.flight
    ensures TagsFresh(Step(s, Land(v)))
  {
    var s' := Step(s, Land(v));
    forall w | w in s'.flight ensures 0 < w.tag <= s'.clock && Unseen(s', w.tag) {
      assert Unseen(s, w.tag);
    }
  }

  lemma StepKeepsTagsFresh(s: State, a: Action)
    requires TagsFresh(s) && Enabled(s, a)
    ensures TagsFresh(Step(s, a))
  {
    match a {
      case Land(v) => LandKeepsTagsFresh(s, v);
      case Lose(v) =>
        var s' := Step(s, a);
        forall w | w in s'.flight ensures Unseen(s', w.tag) {
          assert Unseen(s, w.tag);
        }
      case Process(n) =>
        var ns := Step(s, a).nodes[n];
        if Step(s, a).clock == s.clock {
          NodeChangeKeepsTagsFresh(s, n, ns);
        } else {
          PostKeepsTagsFresh(s, n, ns, if s.nodes[n].pending.value.None? then Insert else Update);
        }
      case _ => NodeChangeKeepsTagsFresh(s, a.n, Step(s, a).nodes[a.n]);
    }
  }

  // ---- no false takeover ------------------------------------------------------------------

  /** The longest row of reads of one document that never wakes a standby. */
  const QUIET_READS := 5

  /** Node a is in charge: the document, every write under way and every pending read say so. */
  ghost predicate InCharge(s: State, a: NodeName) {
    && TagsFresh(s)
    && s.doc.Some? && s.doc.value.activeNode == a && s.doc.value.tag != 0
    && (forall w :: w in s.flight ==> w.node == a)
    && (forall n :: n in s.nodes ==> n == a || Passive(s.nodes[n], s.doc.value, a))
    && (a in s.nodes && s.nodes[a].pending.Some? ==> NamesNode(s.nodes[a], a))
  }

  ghost predicate NamesNode(ns: NodeState, a: NodeName) {
    HasSnapshot(ns) && ns.pending.value.value.activeNode == a
  }

  /** A standby whose counter is covered by the reads it has made since the document changed. */
  ghost predicate Passive(ns: NodeState, d: Doc, a: NodeName) {
    && !ns.local.active
    && ns.local.count <= 4
    && (ns.local.lastTag == d.tag ==> ns.local.count + 1 <= ns.quiet)
    && (ns.pending.Some? ==>
          && NamesNode(ns, a)
          && var tag := ns.pending.value.value.tag;
            && (tag == ns.local.lastTag ==> ns.local.count < 4)
            && (tag == d.tag ==> 1 <= ns.quiet && (ns.local.lastTag == d.tag ==> ns.local.count + 2 <= ns.quiet)))
  }

  /** In every state of the run each standby has read the current document at most five times. */
  ghost predicate Refreshed(s: State, actions: seq<Action>, a: NodeName)
    requires IsRun(s, actions)
    decreases |actions|
  {
    && (forall n :: n in s.nodes && n != a ==> s.nodes[n].quiet <= QUIET_READS)
    && (actions != [] ==> Refreshed(Step(s, actions[0]), actions[1..], a))
  }

  lemma FetchKeepsPassive(ns: NodeState, d: Doc, a: NodeName)
    requires Passive(ns, d, a) && d.activeNode == a && ns.pending.None? && ns.quiet + 1 <= QUIET_READS
    ensures Passive(ns.(pending := Some(Some(d)), quiet := ns.quiet + 1), d, a)
  {
  }

  lemma ProcessKeepsPassive(n: NodeName, ns: NodeState, d: Doc, a: NodeName)
    requires Passive(ns, d, a) && ns.pending.Some? && n != a && d.tag != 0
    ensures HasSnapshot(ns) && !Decide(n, ns.local, ns.pending.value.value).active
    ensures Passive(ns.(pending := None, local := Decide(n, ns.local, ns.pending.value.value)), d, a)
    ensures Passive(ns.(pending := None, local := STARTED), d, a)
  {
  }

  lemma QuieterKeepsPassive(ns: NodeState, d: Doc, a: NodeName)
    requires Passive(ns, d, a) && d.tag != 0
    ensures Passive(ns.(pending := None), d, a)
    ensures Passive(ns.(local := ns.local.(active := false)), d, a)
    ensures Passive(ns.(pending := None, local := STARTED), d, a)
  {
  }

  /** A fresh tag uncovers nothing: no standby remembers it or is about to process it. */
  lemma LandKeepsPassive(ns: NodeState, d: Doc, d': Doc, a: NodeName)
    requires Passive(ns, d, a) && !Knows(ns, d'.tag)
    ensures Passive(ns.(quiet := 0), d', a)
  {
  }

  /** A step that changes one node, and adds at most a write by a, keeps a in charge. */
  lemma NodeChangeKeepsInCharge(s: State, s': State, n: NodeName, a: NodeName)
    requires InCharge(s, a) && TagsFresh(s') && n in s.nodes && n in s'.nodes
    requires s'.doc == s.doc && s'.nodes == s.nodes[n := s'.nodes[n]]
    requires forall w :: w in s'.flight ==> w.node == a
    requires if n == a then s'.nodes[n].pending.Some? ==> NamesNode(s'.nodes[n], a)
             else Passive(s'.nodes[n], s.doc.value, a)
    ensures InCharge(s', a)
  {
    hide TagsFresh, Passive;
  }

  lemma ProcessKeepsInCharge(s: State, n: NodeName, a: NodeName)
    requires InCharge(s, a) && Enabled(s, Process(n)) && TagsFresh(Step(s, Process(n)))
    ensures InCharge(Step(s, Process(n)), a)
  {
    if n != a {
      ProcessKeepsPassive(n, s.nodes[n], s.doc.value, a);
    }
    hide TagsFresh, Passive;
    NodeChangeKeepsInCharge(s, Step(s, Process(n)), n, a);
  }

  lemma FetchKeepsInCharge(s: State, n: NodeName, a: NodeName)
    requires InCharge(s, a) && Enabled(s, Fetch(n)) && TagsFresh(Step(s, Fetch(n)))
    requires n != a ==> s.nodes[n].quiet + 1 <= QUIET_READS
    ensures InCharge(Step(s, Fetch(n)), a)
  {
    if n != a {
      FetchKeepsPassive(s.nodes[n], s.doc.value, a);
    }
    hide TagsFresh, Passive;
    NodeChangeKeepsInCharge(s, Step(s, Fetch(n)), n, a);
  }

  lemma StepKeepsInCharge(s: State, action: Action, a: NodeName)
    requires InCharge(s, a) && Enabled(s, action)
    requires forall n :: n in s.nodes && n != a ==> Step(s, action).nodes[n].quiet <= QUIET_READS
    ensures InCharge(Step(s, action), a)
  {
    assert TagsFresh(Step(s, action)) by {
      StepKeepsTagsFresh(s, action);
    }
    hide TagsFresh, Passive;
    match action {
      case Fetch(n) =>
        assert Step(s, action).nodes[n].quiet == s.nodes[n].quiet + 1;
        FetchKeepsInCharge(s, n, a);
      case Process(n) => ProcessKeepsInCharge(s, n, a);
      case Land(w) => LandKeepsInCharge(s, w, a);
      case Lose(w) =>
      case _ =>
        if action.n != a {
          QuieterKeepsPassive(s.nodes[action.n], s.doc.value, a);
        }
        NodeChangeKeepsInCharge(s, Step(s, action), action.n, a);
    }
  }

  lemma LandKeepsInCharge(s: State, w: Sent, a: NodeName)
    requires InCharge(s, a) && w in s.flight
    ensures InCharge(Step(s, Land(w)), a)
  {
    LandKeepsTagsFresh(s, w);
    assert w.node == a && Unseen(s, w.tag) && 0 < w.tag;
    hide TagsFresh, Passive, Knows;
    var s' := Step(s, Land(w));
    if w.kind.Update? {
      forall n | n in s.nodes && n != a ensures Passive(s'.nodes[n], s'.doc.value, a) {
        LandKeepsPassive(s.nodes[n], s.doc.value, s'.doc.value, a);
      }
    }
  }

  /**
   No false takeover, over any interleaving of any number of nodes: while the document changes
   before any standby has read it a sixth time, node a alone is ever active and stays named.
   */
  lemma {:induction false} NoFalseTakeover(s: State, actions: seq<Action>, a: NodeName)
    requires InCharge(s, a) && IsRun(s, actions) && Refreshed(s, actions, a)
    ensures var s' := Run(s, actions);
      && InCharge(s', a)
      && s'.doc.value.activeNode == a
      && forall n :: Active(s', n) ==> n == a
    decreases |actions|
  {
    if actions == [] {
      forall n | Active(s, n) ensures n == a {
        assert n == a || Passive(s.nodes[n], s.doc.value, a);
      }
    } else {
      StepKeepsInCharge(s, actions[0], a);
      NoFalseTakeover(Step(s, actions[0]), actions[1..], a);
    }
  }

  /** Nodes that have just started leave the named node in charge. */
  lemma StartIsInCharge(s: State)
    requires s.doc.Some? && 0 < s.doc.value.tag <= s.clock && s.flight == {}
    requires forall n :: n in s.nodes ==> s.nodes[n].local == STARTED && s.nodes[n].pending.None?
    ensures InCharge(s, s.doc.value.activeNode)
  {
  }

  // ---- bounded takeover -------------------------------------------------------------------

  ghost function Ticks(n: NodeName, k: nat): seq<Action> {
    if k == 0 then [] else Ticks(n, k - 1) + [Fetch(n), Process(n)]
  }

  lemma TwoSteps(s: State, a: Action, b: Action)
    requires Enabled(s, a) && Enabled(Step(s, a), b)
    ensures IsRun(s, [a, b]) && Run(s, [a, b]) == Step(Step(s, a), b)
  {
    assert [a, b][1..] == [b] && [b][1..] == [];
    assert Run(Step(s, a), [b]) == Step(Step(s, a), b);
  }

  lemma {:induction false} LoneTicks(s: State, n: NodeName, k: nat)
    requires n in s.nodes && s.nodes[n].pending.None? && s.doc.Some?
    requires s.doc.value.Admits(n) && s.doc.value.activeNode != n
    requires s.nodes[n].local.count <= 4
    requires k <= ReadsToTakeover(s.nodes[n].local, s.doc.value)
    ensures IsRun(s, Ticks(n, k))
    ensures var s' := Run(s, Ticks(n, k));
      && s'.nodes[n].local == Repeat(n, s.nodes[n].local, s.doc.value, k)
      && s'.nodes[n].pending.None? && s'.doc == s.doc
      && (forall m :: m in s.nodes && m != n ==> s'.nodes[m] == s.nodes[m])
      && (s'.nodes[n].local.active && k > 0 ==> Sent(n, Update, s'.clock) in s'.flight)
  {
    if k > 0 {
      LoneTicks(s, n, k - 1);
      var t := Run(s, Ticks(n, k - 1));
      TwoSteps(t, Fetch(n), Process(n));
      RunConcat(s, Ticks(n, k - 1), [Fetch(n), Process(n)]);
    }
  }

  /**
   Bounded takeover: if every other node has stopped, a standby that keeps ticking is passive
   until its ReadsToTakeover-th tick, active at it (the sixth at the latest), and the document
   names it as soon as its write lands.
   */
  lemma LoneStandbyTakesOver(s: State, n: NodeName, k: nat)
    requires n in s.nodes && s.nodes[n].pending.None? && s.doc.Some?
    requires s.doc.value.Admits(n) && s.doc.value.activeNode != n
    requires s.nodes[n].local.count <= 4
    requires 1 <= k <= ReadsToTakeover(s.nodes[n].local, s.doc.value)
    ensures ReadsToTakeover(s.nodes[n].local, s.doc.value) <= 6
    ensures IsRun(s, Ticks(n, k))
    ensures var s' := Run(s, Ticks(n, k));
      && (Active(s', n) <==> k == ReadsToTakeover(s.nodes[n].local, s.doc.value))
      && (Active(s', n) ==>
            var w := Sent(n, Update, s'.clock);
            Enabled(s', Land(w)) && Step(s', Land(w)).doc == Some(s.doc.value.(activeNode := n, tag := s'.clock)))
  {
    LoneTicks(s, n, k);
    TakeoverExactly(n, s.nodes[n].local, s.doc.value, k);
  }

  // ---- an active node that is not named was overwritten -----------------------------------

  ghost predicate Known(s: State, w: Sent) {
    w in s.flight || w in s.failed || w in s.landed
  }

  /**
   Every write is under way, failed or landed, and only one of these; each node's latest write has
   its highest tag; active nodes have written; and the document is as the last landed write left it.
   */
  ghost predicate Accounted(s: State) {
    && (forall n :: Active(s, n) ==> n in s.latest)
    && (forall n :: n in s.latest ==> s.latest[n].node == n && Known(s, s.latest[n]))
    && (forall w :: Known(s, w) ==> w.tag <= s.clock && w.node in s.latest && w.tag <= s.latest[w.node].tag)
    && s.flight !! s.failed
    && (forall w :: w in s.landed ==> w !in s.flight && w !in s.failed)
    && (s.landed != [] ==> ShowsLast(s))
  }

  ghost predicate ShowsLast(s: State)
    requires s.landed != []
  {
    var w := s.landed[|s.landed| - 1];
    s.doc.Some? && s.doc.value.activeNode == w.node && s.doc.value.tag == w.tag
  }

  lemma PostKeepsAccounted(s: State, n: NodeName, ns: NodeState, kind: Write)
    requires Accounted(s)
    ensures Accounted(Post(s, n, ns, kind))
  {
    var s' := Post(s, n, ns, kind);
    var w := Sent(n, kind, s.clock + 1);
    assert Known(s', w) && !Known(s, w);
    forall v ensures Known(s', v) <==> Known(s, v) || v == w {
    }
    assert forall m :: Active(s', m) ==> m == n || Active(s, m);
  }

  /** A write leaves the flight by landing or by failing. */
  lemma LandOrLoseKeepsAccounted(s: State, w: Sent, a: Action)
    requires Accounted(s) && w in s.flight && (a == Land(w) || a == Lose(w))
    ensures Accounted(Step(s, a))
  {
    var s' := Step(s, a);
    assert s'.landed == s.landed || s'.landed == s.landed + [w];
    assert Known(s, w);
    forall v ensures Known(s', v) <==> Known(s, v) {
    }
    assert forall m :: Active(s', m) <==> Active(s, m);
  }

  lemma StepKeepsAccounted(s: State, a: Action)
    requires Accounted(s) && Enabled(s, a)
    ensures Accounted(Step(s, a))
  {
    var s' := Step(s, a);
    if a.Land? || a.Lose? {
      LandOrLoseKeepsAccounted(s, a.w, a);
    } else if a.Process? && s'.flight != s.flight {
      PostKeepsAccounted(s, a.n, s'.nodes[a.n], if s.nodes[a.n].pending.value.None? then Insert else Update);
    } else {
      assert s'.flight == s.flight && s'.latest == s.latest;
      assert forall w :: Known(s', w) <==> Known(s, w);
      assert forall n :: Active(s', n) ==> Active(s, n);
    }
  }

  lemma {:induction false} RunKeepsAccounted(s: State, actions: seq<Action>)
    requires Accounted(s) && IsRun(s, actions)
    ensures Accounted(Run(s, actions))
    decreases |actions|
  {
    hide Accounted, Step, Enabled;
    if actions != [] {
      StepKeepsAccounted(s, actions[0]);
      RunKeepsAccounted(Step(s, actions[0]), actions[1..]);
    }
  }

  /** Nothing has been written yet, and all nodes have just started. */
  ghost predicate Beginning(s: State) {
    && s.flight == {} && s.failed == {} && s.landed == [] && s.latest == map[]
    && forall n :: n in s.nodes ==> s.nodes[n].local == STARTED
  }

  /** The write landed, and a write landed later that left the document as it is, naming its node. */
  ghost predicate Overwritten(s: State, w: Sent) {
    exists i, j :: 0 <= i < j < |s.landed| && s.landed[i] == w && s.doc.Some?
      && s.landed[j].node == s.doc.value.activeNode && s.landed[j].tag == s.doc.value.tag
  }

  /**
   An active node the document does not name has written, and its newest write has landed and been
   overwritten by the node now named if and only if it is neither under way nor failed.
   */
  lemma ActiveUnnamedWasOverwritten(s: State, actions: seq<Action>, s': State, n: NodeName)
    requires Beginning(s) && IsRun(s, actions) && s' == Run(s, actions)
    requires Active(s', n) && s'.doc.Some? && s'.doc.value.activeNode != n
    ensures n in s'.latest && s'.latest[n].node == n
    ensures forall w :: Known(s', w) && w.node == n ==> w.tag <= s'.latest[n].tag
    ensures Overwritten(s', s'.latest[n]) <==> s'.latest[n] !in s'.flight + s'.failed
  {
    hide IsRun, Run;
    assert Accounted(s);
    RunKeepsAccounted(s, actions);
    var w := s'.latest[n];
    assert Known(s', w);
    if w in s'.landed {
      var i :| 0 <= i < |s'.landed| && s'.landed[i] == w;
      var j := |s'.landed| - 1;
      assert s'.landed[j].node == s'.doc.value.activeNode && i < j;
      assert Overwritten(s', w);
    }
  }

  // ---- convergence ------------------------------------------------------------------------

  /** No step of the run activates a node that the document it read does not name. */
  ghost predicate TakeoverFree(s: State, actions: seq<Action>)
    requires IsRun(s, actions)
    decreases |actions|
  {
    actions == [] || (!IsTakeover(s, actions[0]) && TakeoverFree(Step(s, actions[0]), actions[1..]))
  }

  ghost predicate IsTakeover(s: State, a: Action)
    requires Enabled(s, a)
  {
    a.Process? && var found := s.nodes[a.n].pending.value;
      found.None? || (found.value.Admits(a.n) && TakesOver(a.n, s.nodes[a.n].local, found.value))
  }

  /** n can still be confirmed: by the document, by an update under way, or by a read it holds. */
  ghost predicate Candidate(s: State, n: NodeName) {
    n in s.nodes && (Named(s, n) || Flying(s, n) || NamesNode(s.nodes[n], n))
  }

  ghost predicate Named(s: State, n: NodeName) {
    s.doc.Some? && s.doc.value.activeNode == n
  }

  ghost predicate Flying(s: State, n: NodeName) {
    exists w :: w in s.flight && w.kind.Update? && w.node == n
  }

  ghost predicate FullTick(actions: seq<Action>, n: NodeName) {
    exists i, j :: 0 <= i < j < |actions| && actions[i] == Fetch(n) && actions[j] == Process(n)
  }

  lemma StepKeepsOut(s: State, a: Action, n: NodeName)
    requires s.doc.Some? && n in s.nodes && !Candidate(s, n)
    requires Enabled(s, a) && !IsTakeover(s, a)
    ensures var s' := Step(s, a); s'.doc.Some? && !Candidate(s', n)
    ensures a == Process(n) ==> !Active(Step(s, a), n)
    ensures !Active(s, n) ==> !Active(Step(s, a), n)
  {
    assert forall w :: w in Step(s, a).flight && w.kind.Update? && w.node == n ==> w in s.flight;
  }

  /** A node that is no candidate is passive once it has processed a read, and stays passive. */
  lemma {:induction false} OutsiderSettles(s: State, actions: seq<Action>, n: NodeName)
    requires s.doc.Some? && n in s.nodes && !Candidate(s, n)
    requires IsRun(s, actions) && TakeoverFree(s, actions)
    requires Active(s, n) ==> Process(n) in actions
    ensures !Active(Run(s, actions), n)
    decreases |actions|
  {
    if actions != [] {
      StepKeepsOut(s, actions[0], n);
      OutsiderSettles(Step(s, actions[0]), actions[1..], n);
    }
  }

  ghost predicate AtMostOne(p: NodeName -> bool) {
    forall m, n :: p(m) && p(n) ==> m == n
  }

  /** Every takeover-free run in which each node completes a tick leaves at most one node active. */
  ghost predicate Converges(s: State) {
    forall actions ::
      IsRun(s, actions) && TakeoverFree(s, actions) && (forall n :: n in s.nodes ==> FullTick(actions, n)) ==>
        AtMostOne(n => Active(Run(s, actions), n))
  }

  lemma OneCandidateConverges(s: State)
    requires s.doc.Some? && AtMostOne(n => Candidate(s, n))
    ensures Converges(s)
  {
    forall actions, m, n |
      && IsRun(s, actions) && TakeoverFree(s, actions) && (forall n :: n in s.nodes ==> FullTick(actions, n))
      && Active(Run(s, actions), m) && Active(Run(s, actions), n)
      ensures m == n
    {
      forall k | k in s.nodes && !Candidate(s, k) ensures !Active(Run(s, actions), k) {
        assert FullTick(actions, k);
        OutsiderSettles(s, actions, k);
      }
      var p := k => Candidate(s, k);
      assert p(m) && p(n);
    }
  }

  // ---- the schedule that keeps two nodes active -------------------------------------------

  /** The schedule is a takeover-free run from s to s'. */
  ghost predicate Leads(s: State, actions: seq<Action>, s': State) {
    IsRun(s, actions) && TakeoverFree(s, actions) && Run(s, actions) == s'
  }

  lemma {:induction false} LeadsConcat(s: State, first: seq<Action>, mid: State, second: seq<Action>, s': State)
    requires Leads(s, first, mid) && Leads(mid, second, s')
    ensures Leads(s, first + second, s')
    decreases |first|
  {
    if first == [] {
      assert first + second == second;
    } else {
      assert (first + second)[1..] == first[1..] + second;
      LeadsConcat(Step(s, first[0]), first[1..], mid, second, s');
    }
  }

  lemma LeadsBy(s: State, actions: seq<Action>, mid: State, a: Action)
    requires Leads(s, actions, mid) && Enabled(mid, a) && !IsTakeover(mid, a)
    ensures Leads(s, actions + [a], Step(mid, a))
  {
    assert IsRun(Step(mid, a), [a][1..]);
    LeadsConcat(s, actions, mid, [a], Step(mid, a));
  }

  lemma FullTickConcat(first: seq<Action>, second: seq<Action>, n: NodeName)
    requires FullTick(first, n) || FullTick(second, n)
    ensures FullTick(first + second, n)
  {
    var both := first + second;
    if FullTick(first, n) {
      var i, j :| 0 <= i < j < |first| && first[i] == Fetch(n) && first[j] == Process(n);
      assert both[i] == Fetch(n) && both[j] == Process(n);
    } else {
      var i, j :| 0 <= i < j < |second| && second[i] == Fetch(n) && second[j] == Process(n);
      assert both[|first| + i] == Fetch(n) && both[|first| + j] == Process(n);
    }
  }

  /** s' differs from s only in the state of the given nodes and in writes added to the flight. */
  ghost predicate Grown(s: State, s': State, touched: set<NodeName>) {
    && s'.doc == s.doc && s.flight <= s'.flight && s'.nodes.Keys == s.nodes.Keys
    && forall n :: n in s.nodes && n !in touched ==> s'.nodes[n] == s.nodes[n]
  }

  lemma SameNodes(s: State, s': State, touched: set<NodeName>)
    requires Grown(s, s', touched)
    ensures s'.doc == s.doc && s'.nodes.Keys == s.nodes.Keys
  {
  }

  lemma GrownConcat(s: State, t: State, u: State, z: NodeName, touched: set<NodeName>)
    requires z in touched && Grown(s, t, touched - {z}) && Grown(t, u, {z})
    ensures Grown(s, u, touched)
  {
  }

  /** A node restarts and completes one tick. */
  lemma TickOne(s: State, z: NodeName) returns (actions: seq<Action>, s': State)
    requires s.doc.Some? && z in s.nodes
    ensures Leads(s, actions, s') && Grown(s, s', {z}) && FullTick(actions, z)
  {
    LeadsBy(s, [], s, Crash(z));
    var s1 := Step(s, Crash(z));
    LeadsBy(s, [] + [Crash(z)], s1, Fetch(z));
    var s2 := Step(s1, Fetch(z));
    LeadsBy(s, [] + [Crash(z)] + [Fetch(z)], s2, Process(z));
    s' := Step(s2, Process(z));
    actions := [] + [Crash(z)] + [Fetch(z)] + [Process(z)];
    assert actions[1] == Fetch(z) && actions[2] == Process(z);
  }

  /** The given nodes restart and complete one tick each. */
  lemma {:induction false} TickAll(s: State, others: set<NodeName>) returns (actions: seq<Action>, s': State)
    requires s.doc.Some? && others <= s.nodes.Keys
    ensures Leads(s, actions, s') && Grown(s, s', others)
    ensures forall n :: n in others ==> FullTick(actions, n)
    decreases others
  {
    if others == {} {
      actions, s' := [], s;
    } else {
      hide Leads, FullTick, Grown;
      var z :| z in others;
      var before, mid := TickAll(s, others - {z});
      var tick;
      SameNodes(s, mid, others - {z});
      tick, s' := TickOne(mid, z);
      actions := before + tick;
      GrownConcat(s, mid, s', z, others);
      LeadsConcat(s, before, mid, tick, s');
      forall n | n in others ensures FullTick(actions, n) {
        FullTickConcat(before, tick, n);
      }
    }
  }

  /** A candidate that only holds a read naming it turns that into an update under way. */
  lemma Materialize(s: State, x: NodeName) returns (actions: seq<Action>, s': State)
    requires Candidate(s, x) && (HasSnapshot(s.nodes[x]) ==> s.nodes[x].pending.value.value.Admits(x))
    ensures Leads(s, actions, s') && Grown(s, s', {x}) && (Named(s', x) || Flying(s', x))
  {
    if Named(s, x) || Flying(s, x) {
      actions, s' := [], s;
    } else {
      LeadsBy(s, [], s, Process(x));
      actions, s' := [] + [Process(x)], Step(s, Process(x));
      assert Sent(x, Update, s'.clock) in s'.flight;
    }
  }

  lemma ReadDocument(s: State, x: NodeName) returns (actions: seq<Action>, s': State)
    requires x in s.nodes && s.doc.Some?
    ensures Leads(s, actions, s') && s'.nodes.Keys == s.nodes.Keys && s'.flight == s.flight && s'.doc == s.doc
    ensures s'.nodes[x].pending == Some(s.doc) && forall n :: n in s.nodes && n != x ==> s'.nodes[n] == s.nodes[n]
    ensures |actions| > 0 && actions[|actions| - 1] == Fetch(x)
  {
    if s.nodes[x].pending.Some? {
      LeadsBy(s, [], s, Skip(x));
      var mid := Step(s, Skip(x));
      LeadsBy(s, [] + [Skip(x)], mid, Fetch(x));
      actions, s' := [] + [Skip(x)] + [Fetch(x)], Step(mid, Fetch(x));
    } else {
      LeadsBy(s, [], s, Fetch(x));
      actions, s' := [] + [Fetch(x)], Step(s, Fetch(x));
    }
  }

  /** x reads a document naming it, y's update lands, and y reads the document now naming it. */
  lemma BothRead(s: State, x: NodeName, y: NodeName) returns (actions: seq<Action>, s': State)
    requires x in s.nodes && y in s.nodes && x != y
    requires Named(s, x) && Flying(s, y) && s.doc.value.Admits(x) && s.doc.value.Admits(y)
    ensures Leads(s, actions, s') && ReadsItself(s', x) && ReadsItself(s', y)
    ensures Fetch(x) in actions && Fetch(y) in actions
  {
    hide Leads;
    var r1, s1 := ReadDocument(s, x);
    var w :| w in s.flight && w.kind.Update? && w.node == y;
    LeadsBy(s, r1, s1, Land(w));
    var s2 := Step(s1, Land(w));
    var r2;
    r2, s' := ReadDocument(s2, y);
    actions := r1 + [Land(w)] + r2;
    LeadsConcat(s, r1 + [Land(w)], s2, r2, s');
    assert Fetch(x) in r1 && Fetch(y) in r2;
  }

  ghost predicate ReadsItself(s: State, n: NodeName) {
    n in s.nodes && NamesNode(s.nodes[n], n) && s.nodes[n].pending.value.value.Admits(n)
  }

  /** Both then carry on as active. */
  lemma BothProcess(s: State, x: NodeName, y: NodeName) returns (s': State)
    requires x != y && ReadsItself(s, x) && ReadsItself(s, y)
    ensures Leads(s, [Process(x), Process(y)], s') && Active(s', x) && Active(s', y)
  {
    LeadsBy(s, [], s, Process(x));
    var mid := Step(s, Process(x));
    LeadsBy(s, [] + [Process(x)], mid, Process(y));
    s' := Step(mid, Process(y));
    assert [] + [Process(x)] + [Process(y)] == [Process(x), Process(y)];
  }

  lemma FetchThenProcess(first: seq<Action>, second: seq<Action>, n: NodeName)
    requires Fetch(n) in first && Process(n) in second
    ensures FullTick(first + second, n)
  {
    var i :| 0 <= i < |first| && first[i] == Fetch(n);
    var j :| 0 <= j < |second| && second[j] == Process(n);
    assert (first + second)[i] == Fetch(n) && (first + second)[|first| + j] == Process(n);
  }

  lemma Overlap(s: State, x: NodeName, y: NodeName) returns (actions: seq<Action>, s': State)
    requires x in s.nodes && y in s.nodes && x != y
    requires Named(s, x) && Flying(s, y) && s.doc.value.Admits(x) && s.doc.value.Admits(y)
    ensures Leads(s, actions, s') && Active(s', x) && Active(s', y)
    ensures FullTick(actions, x) && FullTick(actions, y)
  {
    hide Leads, FullTick;
    var before, mid := BothRead(s, x, y);
    s' := BothProcess(mid, x, y);
    actions := before + [Process(x), Process(y)];
    LeadsConcat(s, before, mid, [Process(x), Process(y)], s');
    FetchThenProcess(before, [Process(x), Process(y)], x);
    FetchThenProcess(before, [Process(x), Process(y)], y);
  }

  /** Both of them have an update under way or are named: let one be named and overlap. */
  lemma Clash(s: State, x: NodeName, y: NodeName) returns (actions: seq<Action>, s': State)
    requires x in s.nodes && y in s.nodes && x != y && s.doc.Some?
    requires (Named(s, x) || Flying(s, x)) && (Named(s, y) || Flying(s, y))
    requires s.doc.value.Admits(x) && s.doc.value.Admits(y)
    ensures Leads(s, actions, s') && Active(s', x) && Active(s', y)
    ensures FullTick(actions, x) && FullTick(actions, y)
  {
    if Named(s, x) {
      actions, s' := Overlap(s, x, y);
    } else if Named(s, y) {
      actions, s' := Overlap(s, y, x);
    } else {
      var w :| w in s.flight && w.kind.Update? && w.node == x;
      LeadsBy(s, [], s, Land(w));
      var mid := Step(s, Land(w));
      var v :| v in s.flight && v.kind.Update? && v.node == y;
      assert v in mid.flight;
      var rest;
      rest, s' := Overlap(mid, x, y);
      actions := [] + [Land(w)] + rest;
      LeadsConcat(s, [] + [Land(w)], mid, rest, s');
      FullTickConcat([] + [Land(w)], rest, x);
      FullTickConcat([] + [Land(w)], rest, y);
    }
  }

  /** Nobody is disabled: the document and every read of it admit all nodes. */
  ghost predicate AllAdmitted(s: State) {
    && s.doc.Some?
    && forall n :: n in s.nodes ==>
      && s.doc.value.Admits(n)
      && (HasSnapshot(s.nodes[n]) ==> s.nodes[n].pending.value.value.Admits(n))
  }

  /** Everyone else completes a tick, and both candidates come to be named or to have an update under way. */
  lemma Prepare(s: State, x: NodeName, y: NodeName) returns (actions: seq<Action>, s': State)
    requires AllAdmitted(s) && Candidate(s, x) && Candidate(s, y) && x != y
    ensures Leads(s, actions, s') && s'.doc == s.doc && s'.nodes.Keys == s.nodes.Keys
    ensures (Named(s', x) || Flying(s', x)) && (Named(s', y) || Flying(s', y))
    ensures forall n :: n in s.nodes && n != x && n != y ==> FullTick(actions, n)
  {
    hide Leads, FullTick;
    var others := s.nodes.Keys - {x, y};
    var a1, s1 := TickAll(s, others);
    CandidateGrown(s, s1, others, x);
    CandidateGrown(s, s1, others, y);
    assert s1.nodes[x] == s.nodes[x] && s1.nodes[y] == s.nodes[y];
    var a2;
    a2, s' := TwoWriters(s1, x, y);
    LeadsConcat(s, a1, s1, a2, s');
    actions := a1 + a2;
    forall n | n in s.nodes && n != x && n != y ensures FullTick(actions, n) {
      FullTickConcat(a1, a2, n);
    }
  }

  /** Two candidates can both end up active without any takeover, though every node completed a tick. */
  lemma TwoCandidatesCanBothStayActive(s: State, x: NodeName, y: NodeName)
    returns (actions: seq<Action>, s': State)
    requires AllAdmitted(s) && Candidate(s, x) && Candidate(s, y) && x != y
    ensures Leads(s, actions, s') && Active(s', x) && Active(s', y)
    ensures forall n :: n in s.nodes ==> FullTick(actions, n)
  {
    hide Leads, FullTick;
    var before, mid := Prepare(s, x, y);
    var after;
    after, s' := Clash(mid, x, y);
    LeadsConcat(s, before, mid, after, s');
    actions := before + after;
    forall n | n in s.nodes ensures FullTick(actions, n) {
      FullTickConcat(before, after, n);
    }
  }

  lemma TwoWriters(s: State, x: NodeName, y: NodeName) returns (actions: seq<Action>, s': State)
    requires Candidate(s, x) && Candidate(s, y) && x != y
    requires HasSnapshot(s.nodes[x]) ==> s.nodes[x].pending.value.value.Admits(x)
    requires HasSnapshot(s.nodes[y]) ==> s.nodes[y].pending.value.value.Admits(y)
    ensures Leads(s, actions, s') && s'.doc == s.doc && s'.nodes.Keys == s.nodes.Keys
    ensures (Named(s', x) || Flying(s', x)) && (Named(s', y) || Flying(s', y))
  {
    hide Leads;
    var a1, mid := Materialize(s, x);
    CandidateGrown(s, mid, {x}, y);
    var a2;
    a2, s' := Materialize(mid, y);
    LeadsConcat(s, a1, mid, a2, s');
    actions := a1 + a2;
    if Flying(mid, x) {
      var w :| w in mid.flight && w.kind.Update? && w.node == x;
      assert w in s'.flight;
    }
  }

  lemma CandidateGrown(s: State, s': State, touched: set<NodeName>, n: NodeName)
    requires Grown(s, s', touched) && n !in touched && Candidate(s, n)
    ensures Candidate(s', n)
  {
    if Flying(s, n) {
      var w :| w in s.flight && w.kind.Update? && w.node == n;
      assert w in s'.flight;
    }
  }

  /**
   Convergence, exactly: a state where nobody is disabled settles on one active node in every
   takeover-free run of full ticks if and only if it has at most one candidate.
   */
  lemma ConvergenceCondition(s: State)
    requires AllAdmitted(s)
    ensures Converges(s) <==> AtMostOne(n => Candidate(s, n))
  {
    if AtMostOne(n => Candidate(s, n)) {
      OneCandidateConverges(s);
    } else {
      var x, y :| Candidate(s, x) && Candidate(s, y) && x != y;
      var actions, s' := TwoCandidatesCanBothStayActive(s, x, y);
      var p := n => Active(Run(s, actions), n);
      assert p(x) && p(y);
      assert !AtMostOne(p);
    }
  }

  /** In particular a state with nothing under way settles. */
  lemma QuietStateConverges(s: State)
    requires s.doc.Some? && s.flight == {} && forall n :: n in s.nodes ==> s.nodes[n].pending.None?
    ensures Converges(s)
  {
    var p := n => Candidate(s, n);
    assert forall n :: p(n) ==> s.doc.value.activeNode == n;
    OneCandidateConverges(s);
  }

  /** Nodes that have just started, none of them shut out, and nothing under way. */
  ghost predicate Start(s: State) {
    && Beginning(s) && AllAdmitted(s)
    && forall n :: n in s.nodes ==> s.nodes[n].pending.None?
  }

  /** A standby that reads the document until it takes over becomes a candidate beside the named node. */
  lemma TakeoverMakesTwoCandidates(s: State, a: NodeName, b: NodeName) returns (actions: seq<Action>, s': State)
    requires Start(s) && a in s.nodes && b in s.nodes && a != b && s.doc.value.activeNode == a
    ensures IsRun(s, actions) && s' == Run(s, actions) && s'.nodes.Keys == s.nodes.Keys
    ensures AllAdmitted(s') && Candidate(s', a) && Candidate(s', b)
  {
    var k := ReadsToTakeover(STARTED, s.doc.value);
    actions := Ticks(b, k);
    LoneTicks(s, b, k);
    LoneStandbyTakesOver(s, b, k);
    s' := Run(s, actions);
    assert Sent(b, Update, s'.clock) in s'.flight;
  }

  /**
   The protocol reaches such states: from nodes that have just started there is a run after which
   convergence fails, and a takeover-free continuation with a full tick of every node that leaves
   both the named node and another one active.
   */
  lemma StartCanEndWithTwoActive(s: State, a: NodeName, b: NodeName)
    returns (first: seq<Action>, mid: State, second: seq<Action>, s': State)
    requires Start(s) && a in s.nodes && b in s.nodes && a != b && s.doc.value.activeNode == a
    ensures IsRun(s, first) && mid == Run(s, first) && !Converges(mid)
    ensures Leads(mid, second, s') && Active(s', a) && Active(s', b)
    ensures forall n :: n in s.nodes ==> FullTick(second, n)
  {
    hide IsRun, Run, Leads, FullTick, Candidate, Start, AllAdmitted;
    first, mid := TakeoverMakesTwoCandidates(s, a, b);
    second, s' := TwoCandidatesCanBothStayActive(mid, a, b);
    TwoCandidatesDoNotConverge(mid, a, b);
  }

  lemma TwoCandidatesDoNotConverge(s: State, x: NodeName, y: NodeName)
    requires AllAdmitted(s) && Candidate(s, x) && Candidate(s, y) && x != y
    ensures !Converges(s)
  {
    hide Converges, AllAdmitted;
    ConvergenceCondition(s);
    var p := n => Candidate(s, n);
    assert p(x) && p(y);
  }
}
