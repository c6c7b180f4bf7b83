/**
 * The part of graphlib's `Graph` that the manager relies on: a simple directed
 * graph (no multigraph option), so there is at most one edge per ordered pair
 * of nodes and setting an existing edge replaces its label. Nodes keep their
 * insertion order, which is the order `sources()` reports them in.
 */
module Graphlib {

  type Hash = string

  /** The label the manager puts on an edge: the link's name and size. */
  datatype Label = Label(name: string, size: nat)

  /** The contents of a graph: nodes in insertion order, labelled edges keyed by (source, target). */
  datatype GraphValue = GraphValue(nodes: seq<Hash>, edges: map<(Hash, Hash), Label>)

  const Empty := GraphValue([], map[])

  ghost predicate Distinct(s: seq<Hash>) {
    forall i, j :: 0 <= i < j < |s| ==> s[i] != s[j]
  }

  /** Nodes are listed once each, and every edge joins two nodes. */
  ghost predicate Wellformed(g: GraphValue) {
    && Distinct(g.nodes)
    && (forall e :: e in g.edges ==> e.0 in g.nodes && e.1 in g.nodes)
  }

  /** `setNode(v)`: adds `v` at the end unless it is already a node. */
  function AddNode(g: GraphValue, v: Hash): GraphValue {
    if v in g.nodes then g else g.(nodes := g.nodes + [v])
  }

  /** `setEdge(v, w, label)`: makes both endpoints nodes, then sets or replaces the label of (v, w). */
  function AddEdge(g: GraphValue, v: Hash, w: Hash, lab: Label): GraphValue {
    var h := AddNode(AddNode(g, v), w);
    h.(edges := h.edges[(v, w) := lab])
  }

  /** One call the manager makes on the graph. */
  datatype Op = SetNode(v: Hash) | SetEdge(v: Hash, w: Hash, lab: Label)

  function Apply(g: GraphValue, op: Op): GraphValue {
    match op
    case SetNode(v) => AddNode(g, v)
    case SetEdge(v, w, lab) => AddEdge(g, v, w, lab)
  }

  /** The graph after the calls `ops`, made in order. */
  function ApplyAll(g: GraphValue, ops: seq<Op>): GraphValue
    decreases |ops|
  {
    if ops == [] then g else Apply(ApplyAll(g, ops[..|ops| - 1]), ops[|ops| - 1])
  }

  function OpNodes(op: Op): set<Hash> {
    match op
    case SetNode(v) => {v}
    case SetEdge(v, w, _) => {v, w}
  }

  /** Every node that some call in `ops` names. */
  function Mentioned(ops: seq<Op>): set<Hash>
    decreases |ops|
  {
    if ops == [] then {} else Mentioned(ops[..|ops| - 1]) + OpNodes(ops[|ops| - 1])
  }

  /** For each pair that `ops` sets an edge on, the label of the last such call. */
  function Written(ops: seq<Op>): map<(Hash, Hash), Label>
    decreases |ops|
  {
    if ops == [] then map[]
    else
      var before := Written(ops[..|ops| - 1]);
      match ops[|ops| - 1]
      case SetNode(_) => before
      case SetEdge(v, w, lab) => before[(v, w) := lab]
  }

  /** Every node and edge of `g` survives `ops`; the new edges are the written ones, last write winning. */
  lemma {:induction false} ApplyAllEdges(g: GraphValue, ops: seq<Op>)
    ensures ApplyAll(g, ops).edges == g.edges + Written(ops)
    decreases |ops|
  {
    if ops != [] {
      var pre := ops[..|ops| - 1];
      ApplyAllEdges(g, pre);
      match ops[|ops| - 1]
      case SetNode(_) =>
      case SetEdge(v, w, lab) =>
        var m := ApplyAll(g, pre).edges;
        assert m[(v, w) := lab] == g.edges + Written(pre)[(v, w) := lab];
    }
  }

  /** The old nodes stay in place, and what is added are exactly the nodes the calls name. */
  lemma {:induction false} ApplyAllNodes(g: GraphValue, ops: seq<Op>)
    ensures |ApplyAll(g, ops).nodes| >= |g.nodes|
    ensures ApplyAll(g, ops).nodes[..|g.nodes|] == g.nodes
    ensures forall v :: v in ApplyAll(g, ops).nodes <==> v in g.nodes || v in Mentioned(ops)
    decreases |ops|
  {
    if ops != [] {
      var pre := ops[..|ops| - 1];
      ApplyAllNodes(g, pre);
      var h := ApplyAll(g, pre);
      assert AddNode(h, "").nodes[..|h.nodes|] == h.nodes;
      match ops[|ops| - 1]
      case SetNode(v) =>
        assert AddNode(h, v).nodes[..|h.nodes|] == h.nodes;
      case SetEdge(v, w, _) =>
        var h1 := AddNode(h, v);
        assert h1.nodes[..|h.nodes|] == h.nodes;
        assert AddNode(h1, w).nodes[..|h1.nodes|] == h1.nodes;
        assert AddNode(h1, w).nodes[..|h.nodes|] == h1.nodes[..|h.nodes|];
    }
  }

  /** Calls that name only existing nodes leave the node list exactly as it was. */
  lemma {:induction false} ApplyAllKeepsNodes(g: GraphValue, ops: seq<Op>)
    requires forall v :: v in Mentioned(ops) ==> v in g.nodes
    ensures ApplyAll(g, ops).nodes == g.nodes
    decreases |ops|
  {
    if ops != [] {
      var pre := ops[..|ops| - 1];
      assert forall v :: v in Mentioned(pre) ==> v in Mentioned(ops);
      ApplyAllKeepsNodes(g, pre);
    }
  }

  /** The graph operations keep a well-formed graph well-formed. */
  lemma {:induction false} ApplyAllWellformed(g: GraphValue, ops: seq<Op>)
    requires Wellformed(g)
    ensures Wellformed(ApplyAll(g, ops))
    decreases |ops|
  {
    if ops != [] {
      ApplyAllWellformed(g, ops[..|ops| - 1]);
    }
  }

  lemma {:induction false} MentionedAppend(a: seq<Op>, b: seq<Op>)
    ensures Mentioned(a + b) == Mentioned(a) + Mentioned(b)
    decreases |b|
  {
    if b == [] {
      assert a + b == a;
    } else {
      assert (a + b)[..|a + b| - 1] == a + b[..|b| - 1];
      assert (a + b)[|a + b| - 1] == b[|b| - 1];
      MentionedAppend(a, b[..|b| - 1]);
    }
  }

  lemma {:induction false} WrittenAppend(a: seq<Op>, b: seq<Op>)
    ensures Written(a + b) == Written(a) + Written(b)
    decreases |b|
  {
    if b == [] {
      assert a + b == a;
    } else {
      assert (a + b)[..|a + b| - 1] == a + b[..|b| - 1];
      assert (a + b)[|a + b| - 1] == b[|b| - 1];
      WrittenAppend(a, b[..|b| - 1]);
      match b[|b| - 1]
      case SetNode(_) =>
      case SetEdge(v, w, lab) =>
        assert (Written(a) + Written(b[..|b| - 1]))[(v, w) := lab] == Written(a) + Written(b[..|b| - 1])[(v, w) := lab];
    }
  }

  /** Making the calls `a` and then `b` is making the calls `a + b`. */
  lemma {:induction false} ApplyAllAppend(g: GraphValue, a: seq<Op>, b: seq<Op>)
    ensures ApplyAll(g, a + b) == ApplyAll(ApplyAll(g, a), b)
    decreases |b|
  {
    if b == [] {
      assert a + b == a;
    } else {
      assert (a + b)[..|a + b| - 1] == a + b[..|b| - 1];
      ApplyAllAppend(g, a, b[..|b| - 1]);
    }
  }

  /** Replaying the same calls changes nothing: setNode is idempotent and setEdge overwrites. */
  lemma ApplyAllTwice(g: GraphValue, ops: seq<Op>)
    ensures ApplyAll(ApplyAll(g, ops), ops) == ApplyAll(g, ops)
  {
    var h := ApplyAll(g, ops);
    ApplyAllNodes(g, ops);
    ApplyAllKeepsNodes(h, ops);
    ApplyAllEdges(g, ops);
    ApplyAllEdges(h, ops);
    assert h.edges + Written(ops) == h.edges;
  }

  /** `v` is the target of some edge, a self-loop included. */
  predicate HasIncoming(g: GraphValue, v: Hash) {
    exists e | e in g.edges.Keys :: e.1 == v
  }

  /** The members of `nodes` that no edge of `g` points to, in their order in `nodes`. */
  function SourcesOf(nodes: seq<Hash>, g: GraphValue): (r: seq<Hash>)
    ensures forall v :: v in r <==> v in nodes && !HasIncoming(g, v)
    ensures Distinct(nodes) ==> Distinct(r)
    decreases |nodes|
  {
    if nodes == [] then []
    else
      var v := nodes[|nodes| - 1];
      var r := SourcesOf(nodes[..|nodes| - 1], g);
      if HasIncoming(g, v) then r else r + [v]
  }

  /** `g.sources()`: the roots of the forest, the nodes without an incoming edge. */
  function Sources(g: GraphValue): (r: seq<Hash>)
    ensures forall v :: v in r <==> v in g.nodes && !HasIncoming(g, v)
    ensures Wellformed(g) ==> Distinct(r)
  {
    SourcesOf(g.nodes, g)
  }

  /** The graphlib object the manager keeps at module level and updates in place. */
  class Graph {
    var nodes: seq<Hash>
    var edges: map<(Hash, Hash), Label>

    function Value(): GraphValue
      reads this
    {
      GraphValue(nodes, edges)
    }

    ghost predicate Valid()
      reads this
    {
      Wellformed(Value())
    }

    /** `new graphlib.Graph()` */
    constructor ()
      ensures Valid() && Value() == Empty
    {
      nodes := [];
      edges := map[];
    }

    method SetNode(v: Hash)
      requires Valid()
      modifies this
      ensures Valid() && Value() == AddNode(old(Value()), v)
    {
      if v !in nodes {
        nodes := nodes + [v];
      }
    }

    method SetEdge(v: Hash, w: Hash, lab: Label)
      requires Valid()
      modifies this
      ensures Valid() && Value() == AddEdge(old(Value()), v, w, lab)
    {
      SetNode(v);
      SetNode(w);
      edges := edges[(v, w) := lab];
    }
  }
}
