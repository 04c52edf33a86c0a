/**
 Active/standby arbitration (src/cs_data_processor-go/redundancy.go and redundancy.js).

 Every node periodically reads one shared document and compares its keep-alive tag with the
 one it saw last.  This module is one node: the rule it applies to a document it has read.
 */
module RedundancyNode {
  import opened Options

  type NodeName = string

  /** A keep-alive time tag; writers never repeat one.  0 stands for a document without a tag. */
  type Tag = nat

  datatype Doc = Doc(activeNode: NodeName, tag: Tag, enabled: bool, nodeNames: seq<NodeName>) {
    predicate Admits(n: NodeName) {
      enabled && (nodeNames == [] || n in nodeNames)
    }
  }

  const KEEP_ALIVE_UPDATES_LIMIT := 4

  /** What a node remembers between ticks. */
  datatype Local = Local(active: bool, count: nat, lastTag: Tag)

  const STARTED := Local(false, 0, 0)

  /** The rule applied to a document that admits the node. */
  function Decide(n: NodeName, l: Local, d: Doc): Local {
    if d.activeNode == n then
      l.(active := true, count := 0)
    else
      var before := if l.active then 0 else l.count;
      var count := if l.lastTag == d.tag then before + 1 else 0;
      if count > KEEP_ALIVE_UPDATES_LIMIT then Local(true, 0, d.tag) else Local(false, count, d.tag)
  }

  /** Becoming active without being named by the document that was read. */
  predicate TakesOver(n: NodeName, l: Local, d: Doc) {
    d.activeNode != n && Decide(n, l, d).active
  }

  datatype Write = Insert | Update

  class Node {
    const name: NodeName
    var processActive: bool
    var countKeepAliveNotUpdated: nat
    var lastActiveNodeKeepAliveTimeTag: Tag

    ghost function State(): Local
      reads this
    {
      Local(processActive, countKeepAliveNotUpdated, lastActiveNodeKeepAliveTimeTag)
    }

    constructor (name: NodeName)
      ensures this.name == name && State() == STARTED
    {
      this.name := name;
      processActive := false;
      countKeepAliveNotUpdated := 0;
      lastActiveNodeKeepAliveTimeTag := 0;
    }

    /** One tick that read the database; reports the write to send, and whether the process ends. */
    method ProcessRedundancy(found: Option<Doc>) returns (write: Option<Write>, exits: bool)
      modifies this
      ensures found.None? ==> State() == old(State()).(active := true) && write == Some(Insert) && !exits
      ensures found.Some? && !found.value.Admits(name) ==> exits && write == None && State() == old(State())
      ensures exits == (found.Some?
        && (!found.value.enabled || (found.value.nodeNames != [] && name !in found.value.nodeNames)))
      ensures found.Some? && found.value.Admits(name) ==>
        && !exits
        && State() == Decide(name, old(State()), found.value)
        && write == if State().active then Some(Update) else None
    {
      write, exits := None, false;
      if found.None? {
        processActive := true;
        return Some(Insert), false;
      }
      var inst := found.value;
      if !inst.enabled {
        return None, true;
      }
      if |inst.nodeNames| > 0 && name !in inst.nodeNames {
        return None, true;
      }
      if inst.activeNode == name {
        countKeepAliveNotUpdated := 0;
        processActive := true;
      } else {
        if processActive {
          countKeepAliveNotUpdated := 0;
        }
        processActive := false;
        if lastActiveNodeKeepAliveTimeTag == inst.tag {
          countKeepAliveNotUpdated := countKeepAliveNotUpdated + 1;
        } else {
          countKeepAliveNotUpdated := 0;
        }
        lastActiveNodeKeepAliveTimeTag := inst.tag;
        if countKeepAliveNotUpdated > KEEP_ALIVE_UPDATES_LIMIT {
          countKeepAliveNotUpdated := 0;
          processActive := true;
        }
      }
      if processActive {
        write := Some(Update);
      }
    }

    /** A tick without a database connection. */
    method TickOffline()
      modifies this
      ensures State() == old(State()).(active := false)
    {
      processActive := false;
    }
  }

  // ---- one node over its whole life -------------------------------------------------------

  datatype Tick = Read(doc: Doc) | Offline

  function After(n: NodeName, ticks: seq<Tick>): Local {
    if ticks == [] then STARTED
    else
      var l := After(n, ticks[..|ticks| - 1]);
      match ticks[|ticks| - 1]
      case Read(d) => Decide(n, l, d)
      case Offline => l.(active := false)
  }

  /** The documents read, in order, ticks without a connection left out. */
  function Reads(ticks: seq<Tick>): (docs: seq<Doc>) {
    if ticks == [] then []
    else
      var before := Reads(ticks[..|ticks| - 1]);
      match ticks[|ticks| - 1]
      case Read(d) => before + [d]
      case Offline => before
  }

  /** The last k documents read all carry this tag and name another node. */
  ghost predicate Stale(n: NodeName, docs: seq<Doc>, k: nat, tag: Tag) {
    && k <= |docs|
    && forall i :: |docs| - k <= i < |docs| ==> docs[i].tag == tag && docs[i].activeNode != n
  }

  /** The counter counts: that many of the last reads carried the remembered tag. */
  lemma {:induction false} CounterMeaning(n: NodeName, ticks: seq<Tick>)
    ensures var l := After(n, ticks);
      && l.count <= 4
      && Stale(n, Reads(ticks), l.count, l.lastTag)
  {
    if ticks != [] {
      CounterMeaning(n, ticks[..|ticks| - 1]);
    }
  }

  /** A takeover by counting follows five successive reads of one tag, none naming the node. */
  lemma TakeoverAfterFiveStaleReads(n: NodeName, ticks: seq<Tick>, d: Doc)
    requires TakesOver(n, After(n, ticks), d)
    ensures Stale(n, Reads(ticks + [Read(d)]), 5, d.tag)
  {
    CounterMeaning(n, ticks);
    assert (ticks + [Read(d)])[..|ticks|] == ticks;
  }

  /** How many reads of one unchanging document make a standby take over. */
  function ReadsToTakeover(l: Local, d: Doc): nat
    requires l.count <= 4
  {
    if l.lastTag != d.tag then 6
    else if l.active then 5
    else 5 - l.count
  }

  function Repeat(n: NodeName, l: Local, d: Doc, k: nat): Local {
    if k == 0 then l else Decide(n, Repeat(n, l, d, k - 1), d)
  }

  lemma {:induction false} RepeatCounts(n: NodeName, l: Local, d: Doc, k: nat)
    requires d.activeNode != n && l.count <= 4 && 1 <= k < ReadsToTakeover(l, d)
    ensures Repeat(n, l, d, k) == Local(false, 5 + k - ReadsToTakeover(l, d), d.tag)
  {
    if k == 1 {
      assert Repeat(n, l, d, 0) == l;
    } else {
      RepeatCounts(n, l, d, k - 1);
    }
  }

  /**
   Bounded takeover, exactly: a node that keeps reading a document nobody refreshes stays
   passive before read number ReadsToTakeover and becomes active at it, which is at most the sixth.
   */
  lemma TakeoverExactly(n: NodeName, l: Local, d: Doc, k: nat)
    requires d.activeNode != n && l.count <= 4
    requires 1 <= k <= ReadsToTakeover(l, d)
    ensures Repeat(n, l, d, k).active <==> k == ReadsToTakeover(l, d)
    ensures ReadsToTakeover(l, d) <= 6
  {
    if k < ReadsToTakeover(l, d) {
      RepeatCounts(n, l, d, k);
    } else if k > 1 {
      RepeatCounts(n, l, d, k - 1);
    } else {
      assert Repeat(n, l, d, 0) == l;
    }
  }

  // ---- the variant that never resets its counter ------------------------------------------

  /** The rule of src/calculations/calculations.go: a refreshed tag leaves the counter alone. */
  function DecideNoReset(n: NodeName, l: Local, d: Doc): Local {
    if d.activeNode == n then
      l.(active := true)
    else
      var before := if l.active then 0 else l.count;
      var count := if l.lastTag == d.tag then before + 1 else before;
      Local(count > KEEP_ALIVE_UPDATES_LIMIT, count, d.tag)
  }

  function AfterNoReset(n: NodeName, docs: seq<Doc>): Local {
    if docs == [] then STARTED else DecideNoReset(n, AfterNoReset(n, docs[..|docs| - 1]), docs[|docs| - 1])
  }

  /** Reads that found the tag of the read before them, anywhere in the sequence. */
  function Repeats(docs: seq<Doc>): nat {
    if docs == [] then 0
    else
      var before := if |docs| == 1 then 0 else docs[|docs| - 2].tag;
      Repeats(docs[..|docs| - 1]) + if docs[|docs| - 1].tag == before then 1 else 0
  }

  /**
   Without the reset repeated reads add up over the node's whole life: the first takeover comes
   with the fifth of them however far apart they are.
   */
  lemma {:induction false} NoResetCountsAllRepeats(n: NodeName, docs: seq<Doc>)
    requires forall i :: 0 <= i < |docs| ==> docs[i].activeNode != n
    requires docs != [] ==> Repeats(docs[..|docs| - 1]) <= 4
    ensures var l := AfterNoReset(n, docs);
      && l.count == Repeats(docs)
      && (l.active <==> Repeats(docs) > 4)
      && l.lastTag == if docs == [] then 0 else docs[|docs| - 1].tag
  {
    if docs != [] {
      var before := docs[..|docs| - 1];
      RepeatsGrow(before);
      NoResetCountsAllRepeats(n, before);
    }
  }

  lemma RepeatsGrow(docs: seq<Doc>)
    ensures docs != [] ==> Repeats(docs[..|docs| - 1]) <= Repeats(docs)
  {
  }

  function ReadTicks(docs: seq<Doc>): seq<Tick> {
    seq(|docs|, i requires 0 <= i < |docs| => Read(docs[i]))
  }

  /** A tag refreshed at least every second read never wakes a standby that resets its counter. */
  lemma {:induction false} ResetIgnoresShortStalls(n: NodeName, docs: seq<Doc>)
    requires forall i :: 0 <= i < |docs| ==> docs[i].activeNode != n && docs[i].tag != 0
    requires forall i :: 2 <= i < |docs| ==> docs[i].tag != docs[i - 1].tag || docs[i - 1].tag != docs[i - 2].tag
    ensures var l := After(n, ReadTicks(docs));
      && !l.active
      && l.count <= 1
      && l.lastTag == (if docs == [] then 0 else docs[|docs| - 1].tag)
      && (l.count == 1 ==> |docs| >= 2 && docs[|docs| - 1].tag == docs[|docs| - 2].tag)
  {
    if docs != [] {
      var before := docs[..|docs| - 1];
      ResetIgnoresShortStalls(n, before);
      assert ReadTicks(docs)[..|docs| - 1] == ReadTicks(before);
    }
  }

  /** Ten reads of a document that is refreshed before every second read. */
  function TenReads(other: NodeName): seq<Doc> {
    seq(10, i requires 0 <= i => Doc(other, 1 + i / 2, true, []))
  }

  lemma {:induction false} TenReadsRepeat(other: NodeName, k: nat)
    requires k <= 10
    ensures Repeats(TenReads(other)[..k]) == k / 2
  {
    if k > 0 {
      TenReadsRepeat(other, k - 1);
      assert TenReads(other)[..k][..k - 1] == TenReads(other)[..k - 1];
    }
  }

  /** On those reads only the variant takes over. */
  lemma VariantTakesOverFalsely(n: NodeName, other: NodeName)
    requires n != other
    ensures AfterNoReset(n, TenReads(other)).active && !After(n, ReadTicks(TenReads(other))).active
  {
    var docs := TenReads(other);
    TenReadsRepeat(other, 9);
    TenReadsRepeat(other, 10);
    assert docs[..10] == docs;
    NoResetCountsAllRepeats(n, docs);
    ResetIgnoresShortStalls(n, docs);
  }
}
