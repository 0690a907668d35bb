/** The labelled graph of observed transitions and its split into deterministic,
    nondeterministic and frontier pairs. */
module CanonicalGraph {
  import opened Lists

  type Grid = seq<seq<int>>

  /** alpha maps a grid to a mode digest and the mover's corner, which may be missing. */
  datatype Node = Node(mode: string, located: bool, row: int, col: int)

  datatype Transition = Transition(action: int, s: Grid, next: Grid)

  datatype Edge = Edge(action: int, dst: Node)

  datatype Pair = Pair(node: Node, action: int)

  datatype Ambiguity = Ambiguity(pair: Pair, dsts: set<Node>)

  datatype Graph = Graph(nodes: seq<Node>, arity: nat, det: map<Pair, Node>, nondet: seq<Ambiguity>, frontier: seq<Pair>)

  /** The rows, the projection and the indices of environment rows. */
  datatype Bank = Bank(rows: seq<Transition>, alpha: Grid -> Node, env: set<nat>)

  // ---------- What the first k rows say ----------

  /** Environment rows are skipped; the others count when both ends are located. */
  predicate Counted(b: Bank, i: nat) {
    i < |b.rows| && i !in b.env && b.alpha(b.rows[i].s).located && b.alpha(b.rows[i].next).located
  }

  function PairOf(b: Bank, i: nat): Pair
    requires i < |b.rows|
  {
    Pair(b.alpha(b.rows[i].s), b.rows[i].action)
  }

  function Destinations(b: Bank, k: nat, p: Pair): set<Node>
    requires k <= |b.rows|
  {
    if k == 0 then {}
    else
      var latest := if Counted(b, k - 1) && PairOf(b, k - 1) == p then {b.alpha(b.rows[k - 1].next)} else {};
      Destinations(b, k - 1, p) + latest
  }

  function Sources(b: Bank, k: nat): set<Node>
    requires k <= |b.rows|
  {
    if k == 0 then {}
    else if Counted(b, k - 1) then Sources(b, k - 1) + {PairOf(b, k - 1).node}
    else Sources(b, k - 1)
  }

  function Arity(b: Bank, k: nat): nat
    requires k <= |b.rows|
  {
    if k == 0 then 0
    else if k - 1 !in b.env && b.rows[k - 1].action + 1 > Arity(b, k - 1) then b.rows[k - 1].action + 1
    else Arity(b, k - 1)
  }

  lemma {:induction false} DestinationMeans(b: Bank, k: nat, p: Pair, d: Node)
    requires k <= |b.rows|
    ensures d in Destinations(b, k, p)
       <==> exists i: nat :: i < k && Counted(b, i) && PairOf(b, i) == p && d == b.alpha(b.rows[i].next)
  {
    if k != 0 { DestinationMeans(b, k - 1, p, d); }
  }

  lemma {:induction false} SourceMeans(b: Bank, k: nat, n: Node)
    requires k <= |b.rows|
    ensures n in Sources(b, k) <==> exists i: nat :: i < k && Counted(b, i) && PairOf(b, i).node == n
  {
    if k != 0 { SourceMeans(b, k - 1, n); }
  }

  /** The arity is the largest action of a row that is not an environment row, plus one. */
  lemma {:induction false} ArityMeans(b: Bank, k: nat)
    requires k <= |b.rows|
    ensures forall i: nat :: i < k && i !in b.env ==> b.rows[i].action < Arity(b, k)
    ensures Arity(b, k) > 0 ==> exists i: nat :: i < k && i !in b.env && b.rows[i].action == Arity(b, k) - 1
  {
    if k != 0 { ArityMeans(b, k - 1); }
  }

  function All(b: Bank, p: Pair): set<Node> {
    Destinations(b, |b.rows|, p)
  }

  /** A pair of the graph: an observed node and an action below the arity. */
  predicate Listed(b: Bank, p: Pair) {
    p.node in Sources(b, |b.rows|) && 0 <= p.action < Arity(b, |b.rows|)
  }

  /** What a set of witnessed destinations makes of a pair. */
  datatype Outcome = Unwitnessed | Leads(dst: Node) | Varies(dsts: set<Node>)

  ghost function Judge(dsts: set<Node>): Outcome {
    if dsts == {} then Unwitnessed
    else if |dsts| > 1 then Varies(dsts)
    else
      var d :| d in dsts;
      Leads(d)
  }

  lemma JudgeOne(dsts: set<Node>, d: Node)
    requires d in dsts && |dsts| <= 1
    ensures dsts == {d} && Judge(dsts) == Leads(d)
  {
    assert |dsts - {d}| == |dsts| - 1;
    assert dsts - {d} == {};
  }

  /** The three lists hold the judged pairs among those given, each once. */
  ghost predicate Classified(outcome: Pair -> Outcome, done: set<Pair>, g: Graph) {
    && (forall p :: p in g.frontier <==> p in done && outcome(p) == Unwitnessed) && Distinct(g.frontier)
    && (forall p :: p in g.det <==> p in done && outcome(p).Leads?)
    && (forall p :: p in g.det ==> outcome(p) == Leads(g.det[p]))
    && (forall a :: a in g.nondet <==> a.pair in done && outcome(a.pair) == Varies(a.dsts)) && Distinct(g.nondet)
  }

  ghost function OutcomeIn(b: Bank): Pair -> Outcome {
    p => Judge(All(b, p))
  }

  ghost function AllPairs(b: Bank): set<Pair> {
    set n, a | n in Sources(b, |b.rows|) && 0 <= a < Arity(b, |b.rows|) :: Pair(n, a)
  }

  /** The graph that the rows determine, up to the order of its nodes. */
  ghost predicate Describes(b: Bank, g: Graph) {
    && Distinct(g.nodes) && (forall n :: n in g.nodes <==> n in Sources(b, |b.rows|))
    && g.arity == Arity(b, |b.rows|)
    && Classified(OutcomeIn(b), AllPairs(b), g)
  }

  // ---------- Building the graph ----------

  type Edges = map<Node, multiset<Edge>>

  ghost predicate Collected(b: Bank, k: nat, edges: Edges)
    requires k <= |b.rows|
  {
    && edges.Keys == Sources(b, k)
    && forall n, a, d :: n in edges ==> (Edge(a, d) in edges[n] <==> d in Destinations(b, k, Pair(n, a)))
  }

  function WithEdge(edges: Edges, from: Node, e: Edge): Edges {
    edges[from := (if from in edges then edges[from] else multiset{}) + multiset{e}]
  }

  lemma CollectedAdds(b: Bank, k: nat, edges: Edges)
    requires k < |b.rows| && Counted(b, k) && Collected(b, k, edges)
    ensures Collected(b, k + 1, WithEdge(edges, PairOf(b, k).node, Edge(b.rows[k].action, b.alpha(b.rows[k].next))))
  {
    var from, e := PairOf(b, k).node, Edge(b.rows[k].action, b.alpha(b.rows[k].next));
    var after := WithEdge(edges, from, e);
    forall n, a, d | n in after ensures Edge(a, d) in after[n] <==> d in Destinations(b, k + 1, Pair(n, a)) {
      assert Destinations(b, k + 1, Pair(n, a))
          == Destinations(b, k, Pair(n, a)) + if PairOf(b, k) == Pair(n, a) then {e.dst} else {};
      if n !in edges { NoDestinations(b, k, n, a); }
    }
  }

  lemma {:induction false} NoDestinations(b: Bank, k: nat, n: Node, a: int)
    requires k <= |b.rows| && n !in Sources(b, k)
    ensures Destinations(b, k, Pair(n, a)) == {}
  {
    if k != 0 { NoDestinations(b, k - 1, n, a); }
  }

  lemma CollectedSkips(b: Bank, k: nat, edges: Edges)
    requires k < |b.rows| && !Counted(b, k) && Collected(b, k, edges)
    ensures Collected(b, k + 1, edges)
  {
    forall n, a ensures Destinations(b, k + 1, Pair(n, a)) == Destinations(b, k, Pair(n, a)) { }
  }

  /** The counted transitions out of a node, each as often as it was seen. */
  function Witnessed(b: Bank, k: nat, n: Node): multiset<Edge>
    requires k <= |b.rows|
  {
    if k == 0 then multiset{}
    else
      var latest := if Counted(b, k - 1) && PairOf(b, k - 1).node == n
                    then multiset{Edge(b.rows[k - 1].action, b.alpha(b.rows[k - 1].next))} else multiset{};
      Witnessed(b, k - 1, n) + latest
  }

  function CountsOf(edges: Edges, n: Node): multiset<Edge> {
    if n in edges then edges[n] else multiset{}
  }

  ghost predicate Counts(b: Bank, k: nat, edges: Edges)
    requires k <= |b.rows|
  {
    forall n :: CountsOf(edges, n) == Witnessed(b, k, n)
  }

  lemma CountsAdd(b: Bank, k: nat, edges: Edges)
    requires k < |b.rows| && Counted(b, k) && Counts(b, k, edges)
    ensures Counts(b, k + 1, WithEdge(edges, PairOf(b, k).node, Edge(b.rows[k].action, b.alpha(b.rows[k].next))))
  {
    var from, e := PairOf(b, k).node, Edge(b.rows[k].action, b.alpha(b.rows[k].next));
    forall n ensures CountsOf(WithEdge(edges, from, e), n) == Witnessed(b, k + 1, n) {
      assert CountsOf(edges, n) == Witnessed(b, k, n);
    }
  }

  lemma CountsSkip(b: Bank, k: nat, edges: Edges)
    requires k < |b.rows| && !Counted(b, k) && Counts(b, k, edges)
    ensures Counts(b, k + 1, edges)
  {
  }

  method CollectEdges(b: Bank) returns (edges: Edges, arity: nat)
    ensures Collected(b, |b.rows|, edges) && arity == Arity(b, |b.rows|)
    ensures Counts(b, |b.rows|, edges)
  {
    edges, arity := map[], 0;
    for i := 0 to |b.rows|
      invariant Collected(b, i, edges) && arity == Arity(b, i) && Counts(b, i, edges)
    {
      var tr := b.rows[i];
      if i !in b.env {
        if tr.action + 1 > arity { arity := tr.action + 1; }
        var from, to := b.alpha(tr.s), b.alpha(tr.next);
        if from.located && to.located {
          CollectedAdds(b, i, edges);
          CountsAdd(b, i, edges);
          edges := WithEdge(edges, from, Edge(tr.action, to));
        } else {
          CollectedSkips(b, i, edges);
          CountsSkip(b, i, edges);
        }
      } else {
        CollectedSkips(b, i, edges);
        CountsSkip(b, i, edges);
      }
    }
  }

  /** The destinations of one node by action, from its counted edges. */
  method ByAction(counter: multiset<Edge>, ghost b: Bank, ghost node: Node) returns (byAction: map<int, set<Node>>)
    requires forall a, d :: Edge(a, d) in counter <==> d in All(b, Pair(node, a))
    ensures forall a :: a in byAction ==> byAction[a] == All(b, Pair(node, a))
    ensures forall a :: a !in byAction ==> All(b, Pair(node, a)) == {}
  {
    byAction := map[];
    var rest := set e | e in counter;
    ghost var whole := rest;
    while rest != {}
      invariant rest <= whole
      invariant forall a, d :: (a in byAction && d in byAction[a]) <==> Edge(a, d) in whole - rest
      decreases rest
    {
      var e :| e in rest;
      var dsts := if e.action in byAction then byAction[e.action] else {};
      byAction := byAction[e.action := dsts + {e.dst}];
      rest := rest - {e};
    }
  }

  lemma AppendNew<T>(s: seq<T>, x: T)
    requires Distinct(s) && x !in s
    ensures Distinct(s + [x]) && forall y :: y in s + [x] <==> y in s || y == x
  {
  }

  lemma AddFrontier(outcome: Pair -> Outcome, done: set<Pair>, p: Pair, g: Graph)
    requires Classified(outcome, done, g) && p !in done && outcome(p) == Unwitnessed
    ensures Classified(outcome, done + {p}, g.(frontier := g.frontier + [p]))
  {
    AppendNew(g.frontier, p);
  }

  lemma AddAmbiguity(outcome: Pair -> Outcome, done: set<Pair>, p: Pair, dsts: set<Node>, g: Graph)
    requires Classified(outcome, done, g) && p !in done && outcome(p) == Varies(dsts)
    ensures Classified(outcome, done + {p}, g.(nondet := g.nondet + [Ambiguity(p, dsts)]))
  {
    AppendNew(g.nondet, Ambiguity(p, dsts));
  }

  lemma AddDetermined(outcome: Pair -> Outcome, done: set<Pair>, p: Pair, d: Node, g: Graph)
    requires Classified(outcome, done, g) && p !in done && outcome(p) == Leads(d)
    ensures Classified(outcome, done + {p}, g.(det := g.det[p := d]))
  {
  }

  method ClassifyPair(ghost outcome: Pair -> Outcome, ghost done: set<Pair>, p: Pair, dsts: set<Node>, g: Graph)
    returns (g': Graph)
    requires Classified(outcome, done, g) && p !in done && outcome(p) == Judge(dsts)
    ensures Classified(outcome, done + {p}, g') && g'.nodes == g.nodes && g'.arity == g.arity
  {
    if dsts == {} {
      AddFrontier(outcome, done, p, g);
      g' := g.(frontier := g.frontier + [p]);
    } else if |dsts| > 1 {
      AddAmbiguity(outcome, done, p, dsts, g);
      g' := g.(nondet := g.nondet + [Ambiguity(p, dsts)]);
    } else {
      var d :| d in dsts;
      JudgeOne(dsts, d);
      AddDetermined(outcome, done, p, d, g);
      g' := g.(det := g.det[p := d]);
    }
  }

  ghost function PairsOf(node: Node, n: nat): set<Pair> {
    set a | 0 <= a < n :: Pair(node, a)
  }

  lemma NextPair(done: set<Pair>, node: Node, n: nat)
    ensures done + PairsOf(node, n) + {Pair(node, n)} == done + PairsOf(node, n + 1)
    ensures Pair(node, n) !in PairsOf(node, n)
  {
  }

  method ClassifyNode(ghost outcome: Pair -> Outcome, ghost done: set<Pair>, node: Node, byAction: map<int, set<Node>>, g: Graph)
    returns (g': Graph)
    requires Classified(outcome, done, g) && forall p :: p in done ==> p.node != node
    requires forall a :: outcome(Pair(node, a)) == Judge(if a in byAction then byAction[a] else {})
    ensures Classified(outcome, done + PairsOf(node, g.arity), g') && g'.nodes == g.nodes && g'.arity == g.arity
  {
    g' := g;
    assert done + PairsOf(node, 0) == done;
    for act := 0 to g.arity
      invariant Classified(outcome, done + PairsOf(node, act), g') && g'.nodes == g.nodes && g'.arity == g.arity
    {
      var dsts := if act in byAction then byAction[act] else {};
      NextPair(done, node, act);
      g' := ClassifyPair(outcome, done + PairsOf(node, act), Pair(node, act), dsts, g');
    }
  }

  method ListNodes(keys: set<Node>) returns (nodes: seq<Node>)
    ensures Distinct(nodes) && forall n :: n in nodes <==> n in keys
  {
    nodes := [];
    var rest := keys;
    while rest != {}
      invariant rest <= keys && Distinct(nodes) && forall n :: n in nodes <==> n in keys - rest
      decreases rest
    {
      var n :| n in rest;
      AppendNew(nodes, n);
      nodes, rest := nodes + [n], rest - {n};
    }
  }

  ghost function PairsOfAll(nodes: seq<Node>, n: nat): set<Pair> {
    set i, a | 0 <= i < |nodes| && 0 <= a < n :: Pair(nodes[i], a)
  }

  method BuildGraph(b: Bank) returns (g: Graph)
    ensures Describes(b, g)
  {
    var edges, arity := CollectEdges(b);
    var nodes := ListNodes(edges.Keys);
    g := Graph(nodes, arity, map[], [], []);
    ghost var done: set<Pair> := {};
    for i := 0 to |nodes|
      invariant done == PairsOfAll(nodes[..i], arity)
      invariant Classified(OutcomeIn(b), done, g) && g.nodes == nodes && g.arity == arity
    {
      assert nodes[i] in nodes;
      var byAction := ByAction(edges[nodes[i]], b, nodes[i]);
      g := ClassifyNode(OutcomeIn(b), done, nodes[i], byAction, g);
      done := done + PairsOf(nodes[i], arity);
      MorePairs(nodes, i, arity);
    }
    assert nodes[..|nodes|] == nodes;
    forall p ensures p in done <==> p in AllPairs(b) { PairListed(nodes, arity, p); }
    assert done == AllPairs(b);
  }

  lemma PairListed(nodes: seq<Node>, n: nat, p: Pair)
    ensures p in PairsOfAll(nodes, n) <==> p.node in nodes && 0 <= p.action < n
  {
    if p.node in nodes && 0 <= p.action < n {
      var i :| 0 <= i < |nodes| && nodes[i] == p.node;
      assert p == Pair(nodes[i], p.action);
    }
  }

  lemma MorePairs(nodes: seq<Node>, i: nat, n: nat)
    requires i < |nodes|
    ensures PairsOfAll(nodes[..i + 1], n) == PairsOfAll(nodes[..i], n) + PairsOf(nodes[i], n)
  {
    var a, b := nodes[..i], nodes[..i + 1];
    forall p | p in PairsOfAll(b, n) ensures p in PairsOfAll(a, n) + PairsOf(nodes[i], n) {
      var j, act :| 0 <= j < |b| && 0 <= act < n && p == Pair(b[j], act);
      if j < i { assert a[j] == b[j]; }
    }
    forall p | p in PairsOfAll(a, n) ensures p in PairsOfAll(b, n) {
      var j, act :| 0 <= j < |a| && 0 <= act < n && p == Pair(a[j], act);
      assert b[j] == a[j];
    }
    forall p | p in PairsOf(nodes[i], n) ensures p in PairsOfAll(b, n) { assert b[i] == nodes[i]; }
  }

  // ---------- What the split means ----------

  /** Row i, which is no environment row, takes the mover by the action from one located node to another. */
  predicate Shows(b: Bank, i: nat, p: Pair, dst: Node) {
    && i < |b.rows| && i !in b.env && b.rows[i].action == p.action
    && b.alpha(b.rows[i].s) == p.node && p.node.located && b.alpha(b.rows[i].next) == dst && dst.located
  }

  ghost predicate Witness(b: Bank, p: Pair, dst: Node) {
    exists i: nat :: Shows(b, i, p, dst)
  }

  lemma WitnessedDestination(b: Bank, p: Pair, d: Node)
    ensures d in All(b, p) <==> Witness(b, p, d)
  {
    DestinationMeans(b, |b.rows|, p, d);
    if i: nat :| i < |b.rows| && Counted(b, i) && PairOf(b, i) == p && d == b.alpha(b.rows[i].next) {
      assert Shows(b, i, p, d);
    }
    if i: nat :| Shows(b, i, p, d) {
      assert Counted(b, i) && PairOf(b, i) == p;
    }
  }

  /** The graph has the nodes that some row leads out of, and actions up to the largest of all rows. */
  lemma NodesMean(b: Bank, g: Graph, n: Node)
    requires Describes(b, g)
    ensures n in g.nodes <==> exists a, d :: Witness(b, Pair(n, a), d)
    ensures forall i: nat :: i < |b.rows| && i !in b.env ==> b.rows[i].action < g.arity
    ensures g.arity > 0 ==> exists i: nat :: i < |b.rows| && i !in b.env && b.rows[i].action == g.arity - 1
  {
    SourceMeans(b, |b.rows|, n);
    ArityMeans(b, |b.rows|);
    if i: nat :| i < |b.rows| && Counted(b, i) && PairOf(b, i).node == n {
      assert Shows(b, i, Pair(n, b.rows[i].action), b.alpha(b.rows[i].next));
      assert Witness(b, Pair(n, b.rows[i].action), b.alpha(b.rows[i].next));
    }
    if a, d :| Witness(b, Pair(n, a), d) {
      var i: nat :| Shows(b, i, Pair(n, a), d);
      assert Counted(b, i) && PairOf(b, i).node == n;
    }
  }

  ghost predicate OneWitness(b: Bank, p: Pair, dst: Node) {
    Witness(b, p, dst) && forall e :: Witness(b, p, e) ==> e == dst
  }

  ghost predicate TwoWitnesses(b: Bank, p: Pair) {
    exists d, e :: Witness(b, p, d) && Witness(b, p, e) && d != e
  }

  ghost predicate AreWitnessed(b: Bank, p: Pair, dsts: set<Node>) {
    forall d :: d in dsts <==> Witness(b, p, d)
  }

  lemma JudgeMeans(b: Bank, p: Pair, dsts: set<Node>)
    requires AreWitnessed(b, p, dsts)
    ensures Judge(dsts) == Unwitnessed ==> forall d :: !Witness(b, p, d)
    ensures Judge(dsts).Leads? ==> OneWitness(b, p, Judge(dsts).dst)
    ensures Judge(dsts).Varies? ==> TwoWitnesses(b, p) && Judge(dsts).dsts == dsts
  {
    if dsts == {} {
    } else if |dsts| > 1 {
      var d :| d in dsts;
      assert |dsts - {d}| == |dsts| - 1;
      var e :| e in dsts - {d};
      assert Witness(b, p, d) && Witness(b, p, e);
    } else {
      var d :| d in dsts;
      JudgeOne(dsts, d);
    }
  }

  lemma OnlyWitnessed(b: Bank, p: Pair, s: set<Node>, t: set<Node>)
    requires AreWitnessed(b, p, s) && AreWitnessed(b, p, t)
    ensures s == t
  {
  }

  /** A listed pair is frontier without a witness, deterministic when all its witnesses agree, and otherwise recorded
      with all its destinations. */
  lemma PairMeans(b: Bank, g: Graph, p: Pair, dsts: set<Node>)
    requires Describes(b, g)
    ensures var listed := p.node in g.nodes && 0 <= p.action < g.arity;
            && (p in g.frontier <==> listed && forall d :: !Witness(b, p, d))
            && (p in g.det <==> listed && exists d :: OneWitness(b, p, d))
            && (p in g.det ==> OneWitness(b, p, g.det[p]))
            && (Ambiguity(p, dsts) in g.nondet <==> listed && AreWitnessed(b, p, dsts) && TwoWitnesses(b, p))
  {
    PairDescribed(b, g, p);
    forall d ensures d in All(b, p) <==> Witness(b, p, d) { WitnessedDestination(b, p, d); }
    assert AreWitnessed(b, p, All(b, p));
    JudgeMeans(b, p, All(b, p));
    if AreWitnessed(b, p, dsts) { OnlyWitnessed(b, p, dsts, All(b, p)); }
  }

  ghost function Sightings(b: Bank, k: nat, p: Pair, dst: Node): set<nat> {
    set i: nat | i < k && Shows(b, i, p, dst)
  }

  lemma SightingsStep(b: Bank, k: nat, p: Pair, dst: Node)
    requires k < |b.rows|
    ensures |Sightings(b, k + 1, p, dst)| == |Sightings(b, k, p, dst)| + if Shows(b, k, p, dst) then 1 else 0
  {
    var before := Sightings(b, k, p, dst);
    if Shows(b, k, p, dst) {
      assert Sightings(b, k + 1, p, dst) == before + {k};
    } else {
      assert Sightings(b, k + 1, p, dst) == before;
    }
  }

  /** A transition is counted once for every row that shows it. */
  lemma {:induction false} WitnessedMeans(b: Bank, k: nat, n: Node, e: Edge)
    requires k <= |b.rows|
    ensures Witnessed(b, k, n)[e] == |Sightings(b, k, Pair(n, e.action), e.dst)|
  {
    if k == 0 {
      assert Sightings(b, 0, Pair(n, e.action), e.dst) == {};
    } else {
      WitnessedMeans(b, k - 1, n, e);
      SightingsStep(b, k - 1, Pair(n, e.action), e.dst);
    }
  }

  function FrontierAlphaPairs(g: Graph): set<Pair> {
    (set p | p in g.frontier) + (set a | a in g.nondet :: a.pair)
  }

  /** What a graph that describes the rows says of one pair. */
  lemma PairDescribed(b: Bank, g: Graph, p: Pair)
    requires Describes(b, g)
    ensures p in g.frontier <==> Listed(b, p) && Judge(All(b, p)) == Unwitnessed
    ensures p in g.det <==> Listed(b, p) && Judge(All(b, p)).Leads?
    ensures p in g.det ==> Judge(All(b, p)) == Leads(g.det[p])
    ensures forall ds :: Ambiguity(p, ds) in g.nondet <==> Listed(b, p) && Judge(All(b, p)) == Varies(ds)
  {
    assert OutcomeIn(b)(p) == Judge(All(b, p));
    assert p in AllPairs(b) <==> Listed(b, p) by { assert p == Pair(p.node, p.action); }
  }

  /** Every listed pair is deterministic, nondeterministic or frontier, and only one of them. */
  lemma Partition(b: Bank, g: Graph, p: Pair)
    requires Describes(b, g)
    ensures var ambiguous := Ambiguity(p, All(b, p)) in g.nondet;
            && (Listed(b, p) <==> p in g.det || ambiguous || p in g.frontier)
            && !(p in g.det && ambiguous) && !(p in g.det && p in g.frontier) && !(ambiguous && p in g.frontier)
  {
    PairDescribed(b, g, p);
  }

  /** The acquisition targets are exactly the listed pairs that are not deterministic. */
  lemma TargetsAreTheRest(b: Bank, g: Graph, p: Pair)
    requires Describes(b, g)
    ensures p in FrontierAlphaPairs(g) <==> Listed(b, p) && p !in g.det
  {
    PairDescribed(b, g, p);
    if p in FrontierAlphaPairs(g) && p !in g.frontier {
      var a :| a in g.nondet && a.pair == p;
      assert a == Ambiguity(p, a.dsts);
    }
    if Ambiguity(p, All(b, p)) in g.nondet { assert p in FrontierAlphaPairs(g); }
  }

  lemma JudgeMember(dsts: set<Node>, d: Node)
    requires d in dsts
    ensures Judge(dsts) == Leads(d) || Judge(dsts) == Varies(dsts)
  {
    if |dsts| <= 1 { JudgeOne(dsts, d); }
  }

  /** A counted row with a non-negative action is predicted by det or recorded as ambiguous;
      one with a negative action appears nowhere. */
  lemma RowPredicted(b: Bank, g: Graph, i: nat)
    requires Describes(b, g) && Counted(b, i)
    ensures var p, dst := PairOf(b, i), b.alpha(b.rows[i].next);
            && dst in All(b, p) && p !in g.frontier
            && (p in g.det ==> g.det[p] == dst)
            && (p in g.det || Ambiguity(p, All(b, p)) in g.nondet <==> b.rows[i].action >= 0)
  {
    PairDescribed(b, g, PairOf(b, i));
    RowListed(b, i);
    JudgeMember(All(b, PairOf(b, i)), b.alpha(b.rows[i].next));
  }

  /** A single counted row with action -1 leaves a graph without a pair in any list. */
  lemma NegativeActionLost(node: Node, g: Graph)
    requires node.located && Describes(Bank([Transition(-1, [], [])], _ => node, {}), g)
    ensures Counted(Bank([Transition(-1, [], [])], _ => node, {}), 0)
    ensures g.nodes == [node] && g.det == map[] && g.nondet == [] && g.frontier == []
  {
    var b := Bank([Transition(-1, [], [])], _ => node, {});
    assert Counted(b, 0) && PairOf(b, 0).node == node;
    assert Sources(b, 1) == Sources(b, 0) + {node};
    SizeOfDistinct(g.nodes, {node});
    if g.nondet != [] {
      var a := g.nondet[0];
      assert Ambiguity(a.pair, a.dsts) in g.nondet;
      NothingListed(b, node, g, a.pair);
    }
    if g.frontier != [] {
      var p := g.frontier[0];
      assert p in g.frontier;
      NothingListed(b, node, g, p);
    }
    forall p: Pair ensures p !in g.det { NothingListed(b, node, g, p); }
  }

  lemma NothingListed(b: Bank, node: Node, g: Graph, p: Pair)
    requires b == Bank([Transition(-1, [], [])], _ => node, {}) && Describes(b, g)
    ensures p !in g.det && p !in g.frontier && forall ds :: Ambiguity(p, ds) !in g.nondet
  {
    assert Arity(b, 1) == 0;
    PairDescribed(b, g, p);
  }

  lemma RowListed(b: Bank, i: nat)
    requires Counted(b, i)
    ensures b.alpha(b.rows[i].next) in All(b, PairOf(b, i))
    ensures Listed(b, PairOf(b, i)) <==> b.rows[i].action >= 0
  {
    DestinationMeans(b, |b.rows|, PairOf(b, i), b.alpha(b.rows[i].next));
    SourceMeans(b, |b.rows|, PairOf(b, i).node);
    ArityMeans(b, |b.rows|);
  }

  ghost predicate Extends(b: Bank, c: Bank) {
    && b.alpha == c.alpha && b.env == c.env && b.rows <= c.rows
  }

  lemma PrefixAgrees(b: Bank, c: Bank, i: nat)
    requires Extends(b, c) && i < |b.rows|
    ensures c.rows[i] == b.rows[i] && (Counted(b, i) <==> Counted(c, i)) && PairOf(b, i) == PairOf(c, i)
  {
  }

  lemma DestinationStays(b: Bank, c: Bank, p: Pair, d: Node)
    requires Extends(b, c) && d in All(b, p)
    ensures d in All(c, p)
  {
    DestinationMeans(b, |b.rows|, p, d);
    var i: nat :| i < |b.rows| && Counted(b, i) && PairOf(b, i) == p && d == b.alpha(b.rows[i].next);
    PrefixAgrees(b, c, i);
    DestinationMeans(c, |c.rows|, p, d);
  }

  lemma ListedStays(b: Bank, c: Bank, p: Pair)
    requires Extends(b, c) && Listed(b, p)
    ensures Listed(c, p)
  {
    SourceMeans(b, |b.rows|, p.node);
    var i: nat :| i < |b.rows| && Counted(b, i) && PairOf(b, i).node == p.node;
    PrefixAgrees(b, c, i);
    SourceMeans(c, |c.rows|, p.node);
    ArityMeans(b, |b.rows|);
    var j: nat :| j < |b.rows| && j !in b.env && b.rows[j].action == Arity(b, |b.rows|) - 1;
    PrefixAgrees(b, c, j);
    ArityMeans(c, |c.rows|);
  }

  /** More witnesses move a verdict only upwards. */
  lemma JudgeGrows(s: set<Node>, t: set<Node>)
    requires s <= t
    ensures Judge(t) == Unwitnessed ==> Judge(s) == Unwitnessed
    ensures Judge(t).Leads? ==> Judge(s) == Unwitnessed || Judge(s) == Judge(t)
    ensures Judge(s) == Varies(s) ==> Judge(t) == Varies(t)
  {
    assert |t - s| == |t| - |s|;
    if d :| d in s {
      JudgeMember(t, d);
      JudgeMember(s, d);
    }
  }

  /** Appending rows keeps every listed pair and moves it only from frontier to det to nondet;
      a pair that stays deterministic keeps its destination. */
  lemma RowsOnlyAdvance(b: Bank, g: Graph, c: Bank, h: Graph, p: Pair)
    requires Describes(b, g) && Describes(c, h) && Extends(b, c) && Listed(b, p)
    ensures Listed(c, p)
    ensures p in h.frontier ==> p in g.frontier
    ensures p in h.det ==> p in g.frontier || (p in g.det && g.det[p] == h.det[p])
    ensures Ambiguity(p, All(b, p)) in g.nondet ==> Ambiguity(p, All(c, p)) in h.nondet
  {
    ListedStays(b, c, p);
    forall d | d in All(b, p) ensures d in All(c, p) { DestinationStays(b, c, p, d); }
    JudgeGrows(All(b, p), All(c, p));
    PairDescribed(b, g, p);
    PairDescribed(c, h, p);
  }
}
