/**
 The dependency graph the analysis scripts draw for a program: every instruction that
 writes a register becomes a fresh node fed by the current nodes of its operands.
 */
module DependencyGraph {
  import opened Wrappers
  import opened RandomxDecode

  // The graph can be evaluated in any topological order with the outcome of running the program; an
  // initial register influences a final register exactly when a path leads from one to the other;
  // and the only thing that can break the graph is giving number 0 to a writing instruction.

  datatype Bank = R | A | F | E

  /** The node named by a bank letter, a register and an instruction number. */
  datatype Node = Node(bank: Bank, reg: nat, num: nat)

  datatype Edge = Edge(src: Node, dst: Node)

  /** The statements written to the digraph so far and the current node of each register. */
  datatype Graph = Graph(nodes: seq<Node>, edges: seq<Edge>, rNodes: map<nat, Node>)

  function BankNodes(bank: Bank, count: nat): seq<Node> {
    seq(count, i requires 0 <= i < count => Node(bank, i, 0))
  }

  function InitialNodes(): seq<Node> {
    BankNodes(R, 8) + BankNodes(A, 4) + BankNodes(F, 4) + BankNodes(E, 4)
  }

  ghost predicate HasRegisters(rNodes: map<nat, Node>) {
    forall r: nat :: r in rNodes <==> r < REGISTERS_COUNT
  }

  function InitialGraph(): (g: Graph)
    ensures HasRegisters(g.rNodes)
  {
    Graph(InitialNodes(), [], map r: nat | r < 8 :: Node(R, r, 0))
  }

  /** The edges drawn into the node of an instruction: source first, then destination. */
  function Operands(rNodes: map<nat, Node>, inst: Inst): (ops: seq<Node>)
    requires HasRegisters(rNodes) && inst.idst.Some?
  {
    (if inst.isrc.Some? then [rNodes[inst.isrc.value]] else []) + [rNodes[inst.idst.value]]
  }

  function EdgesInto(ops: seq<Node>, n: Node): (edges: seq<Edge>)
    ensures |edges| == |ops|
    ensures forall i :: 0 <= i < |edges| ==> edges[i] == Edge(ops[i], n)
  {
    seq(|ops|, i requires 0 <= i < |ops| => Edge(ops[i], n))
  }

  function AddInstruction(g: Graph, inst: Inst, num: nat): (g': Graph)
    requires HasRegisters(g.rNodes)
    ensures HasRegisters(g'.rNodes)
  {
    if inst.idst.None? then g
    else
      var n := Node(R, inst.idst.value, num);
      Graph(g.nodes + [n], g.edges + EdgesInto(Operands(g.rNodes, inst), n), g.rNodes[inst.idst.value := n])
  }

  /** The graph of the first k instructions, numbered from `first`. */
  function Build(prog: seq<Inst>, first: nat, k: nat): (g: Graph)
    requires k <= |prog|
    ensures HasRegisters(g.rNodes)
  {
    if k == 0 then InitialGraph()
    else AddInstruction(Build(prog, first, k - 1), prog[k - 1], first + k - 1)
  }

  function GraphOf(prog: seq<Inst>, first: nat): (g: Graph)
    ensures HasRegisters(g.rNodes)
  {
    Build(prog, first, |prog|)
  }

  // ---------------------------------------------------------------------------
  // The analyzer, as it works: shared tables updated in place
  // ---------------------------------------------------------------------------

  class DependencyNodes {
    var nodes: seq<Node>
    var edges: seq<Edge>
    var rNodes: map<nat, Node>
    var aNodes: map<nat, Node>
    var fNodes: map<nat, Node>
    var eNodes: map<nat, Node>

    function Value(): Graph
      reads this
    {
      Graph(nodes, edges, rNodes)
    }

    constructor ()
      ensures Value() == InitialGraph()
      ensures aNodes == (map r: nat | r < 4 :: Node(A, r, 0))
      ensures fNodes == (map r: nat | r < 4 :: Node(F, r, 0))
      ensures eNodes == (map r: nat | r < 4 :: Node(E, r, 0))
    {
      nodes, edges := [], [];
      rNodes := map r: nat | r < 8 :: Node(R, r, 0);
      aNodes := map r: nat | r < 4 :: Node(A, r, 0);
      fNodes := map r: nat | r < 4 :: Node(F, r, 0);
      eNodes := map r: nat | r < 4 :: Node(E, r, 0);
      new;
      DeclareNodes(R, rNodes, 8);
      DeclareNodes(A, aNodes, 4);
      DeclareNodes(F, fNodes, 4);
      DeclareNodes(E, eNodes, 4);
    }

    /** Declares the initial nodes of one bank. */
    method DeclareNodes(bank: Bank, nodeList: map<nat, Node>, count: nat)
      requires forall r: nat :: r < count ==> r in nodeList && nodeList[r] == Node(bank, r, 0)
      modifies this`nodes
      ensures nodes == old(nodes) + BankNodes(bank, count)
    {
      for i := 0 to count
        invariant nodes == old(nodes) + BankNodes(bank, i)
      {
        nodes := nodes + [nodeList[i]];
      }
    }

    /** Draws one instruction; operands are read before the destination is renamed. */
    method AddDependencies(inst: Inst, instNum: nat)
      requires HasRegisters(rNodes)
      modifies this
      ensures Value() == AddInstruction(old(Value()), inst, instNum)
      ensures aNodes == old(aNodes) && fNodes == old(fNodes) && eNodes == old(eNodes)
    {
      if inst.idst.Some? {
        var target := Node(R, inst.idst.value, instNum);
        nodes := nodes + [target];
        if inst.isrc.Some? {
          edges := edges + [Edge(rNodes[inst.isrc.value], target)];
        }
        edges := edges + [Edge(rNodes[inst.idst.value], target)];
        rNodes := rNodes[inst.idst.value := target];
      }
    }
  }

  /** Draws the whole program, numbering its instructions from 0 as the scripts do. */
  method Analyze(insts: seq<Inst>) returns (nodes: DependencyNodes)
    ensures fresh(nodes)
    ensures nodes.Value() == GraphOf(insts, 0)
  {
    nodes := new DependencyNodes();
    for num := 0 to |insts|
      invariant fresh(nodes)
      invariant nodes.Value() == Build(insts, 0, num)
    {
      nodes.AddDependencies(insts[num], num);
    }
  }

  // ---------------------------------------------------------------------------
  // Sequential execution
  // ---------------------------------------------------------------------------

  /**
   What the numbered instruction computes from its old destination and, when it records a
   source register, its old source. Opcode, immediate and memory are part of the number.
   */
  type Operation<!V> = (nat, V, Option<V>) -> V

  /** Register r after the first k instructions. */
  function Exec<V>(prog: seq<Inst>, first: nat, op: Operation<V>, init: Node -> V, k: nat, r: nat): V
    requires k <= |prog|
  {
    if k == 0 then init(Node(R, r, 0))
    else
      var inst := prog[k - 1];
      if inst.idst != Some(r) then Exec(prog, first, op, init, k - 1, r)
      else
        op(first + k - 1,
           Exec(prog, first, op, init, k - 1, r),
           if inst.isrc.Some? then Some(Exec(prog, first, op, init, k - 1, inst.isrc.value)) else None)
  }

  // ---------------------------------------------------------------------------
  // Dataflow evaluation, which sees only nodes and edges
  // ---------------------------------------------------------------------------

  function Preds(edges: seq<Edge>, n: Node): seq<Node> {
    if edges == [] then []
    else
      Preds(edges[..|edges| - 1], n) +
      (if edges[|edges| - 1].dst == n then [edges[|edges| - 1].src] else [])
  }

  function Lookup<V>(env: map<Node, V>, init: Node -> V, n: Node): V {
    if n in env then env[n] else init(n)
  }

  /** A node without incoming edges is an input; the last incoming edge is the destination. */
  function EvalNode<V>(ps: seq<Node>, op: Operation<V>, init: Node -> V, env: map<Node, V>, n: Node): V {
    if ps == [] then init(n)
    else
      op(n.num,
         Lookup(env, init, ps[|ps| - 1]),
         if |ps| >= 2 then Some(Lookup(env, init, ps[0])) else None)
  }

  /** Evaluates the first k nodes of an order. */
  function Evaluate<V>(edges: seq<Edge>, op: Operation<V>, init: Node -> V, order: seq<Node>, k: nat): map<Node, V>
    requires k <= |order|
  {
    if k == 0 then map[]
    else
      var env := Evaluate(edges, op, init, order, k - 1);
      env[order[k - 1] := EvalNode(Preds(edges, order[k - 1]), op, init, env, order[k - 1])]
  }

  /** Each node once, and every edge's source strictly before its destination. */
  ghost predicate Topological(order: seq<Node>, g: Graph) {
    && (forall n :: n in order <==> n in g.nodes)
    && (forall i, j :: 0 <= i < j < |order| ==> order[i] != order[j])
    && (forall e, k :: e in g.edges && 0 <= k < |order| && order[k] == e.dst ==> e.src in order[..k])
  }

  /** No writing instruction has number 0: numbering from 1, or an initial no-op. */
  predicate Safe(prog: seq<Inst>, first: nat) {
    first >= 1 || |prog| == 0 || prog[0].idst.None?
  }

  // ---------------------------------------------------------------------------
  // Shape of the graph
  // ---------------------------------------------------------------------------

  /** n is the node of instruction j. */
  ghost predicate IsTarget(prog: seq<Inst>, first: nat, j: int, n: Node) {
    0 <= j < |prog| && prog[j].idst.Some? && n == Node(R, prog[j].idst.value, first + j)
  }

  /** The current node of r is its initial node or the target of an earlier instruction. */
  lemma {:induction false} CurrentNode(prog: seq<Inst>, first: nat, k: nat, r: nat)
    requires k <= |prog| && r < REGISTERS_COUNT
    ensures var n := Build(prog, first, k).rNodes[r];
      n == Node(R, r, 0) || (exists j :: j < k && IsTarget(prog, first, j, n))
    ensures var n := Build(prog, first, k).rNodes[r];
      n.bank == R && n.reg == r && (n.num == 0 || first <= n.num < first + k)
  {
    if k > 0 {
      CurrentNode(prog, first, k - 1, r);
      var n := Build(prog, first, k - 1).rNodes[r];
      if prog[k - 1].idst == Some(r) {
        assert IsTarget(prog, first, k - 1, Node(R, r, first + k - 1));
      } else if n != Node(R, r, 0) {
        var j :| j < k - 1 && IsTarget(prog, first, j, n);
        assert j < k;
      }
    }
  }

  /** Every edge was drawn by one instruction, from a register's current node to its target. */
  ghost predicate DrawnBy(prog: seq<Inst>, first: nat, j: int, e: Edge) {
    && IsTarget(prog, first, j, e.dst)
    && e.src in Operands(Build(prog, first, j).rNodes, prog[j])
  }

  lemma {:induction false} EdgeOrigin(prog: seq<Inst>, first: nat, k: nat, e: Edge) returns (j: nat)
    requires k <= |prog| && e in Build(prog, first, k).edges
    ensures j < k && DrawnBy(prog, first, j, e)
  {
    if e in Build(prog, first, k - 1).edges {
      j := EdgeOrigin(prog, first, k - 1, e);
    } else {
      j := k - 1;
    }
  }

  lemma {:induction false} EdgesGrow(prog: seq<Inst>, first: nat, j: nat, k: nat, e: Edge)
    requires j <= k <= |prog| && e in Build(prog, first, j).edges
    ensures e in Build(prog, first, k).edges
  {
    if j < k {
      EdgesGrow(prog, first, j, k - 1, e);
    }
  }

  /** An edge goes to a strictly later number, except into the node of instruction 0. */
  lemma EdgeForward(prog: seq<Inst>, first: nat, e: Edge)
    requires e in GraphOf(prog, first).edges
    ensures e.src.num < e.dst.num || (!Safe(prog, first) && e.dst == Node(R, prog[0].idst.value, 0) && e.src.num == 0)
  {
    var j := EdgeOrigin(prog, first, |prog|, e);
    CurrentNode(prog, first, j, prog[j].idst.value);
    if prog[j].isrc.Some? {
      CurrentNode(prog, first, j, prog[j].isrc.value);
    }
  }

  // ---------------------------------------------------------------------------
  // Paths and cycles
  // ---------------------------------------------------------------------------

  ghost predicate IsPath(edges: seq<Edge>, p: seq<Node>) {
    |p| > 0 && forall i :: 0 <= i < |p| - 1 ==> Edge(p[i], p[i + 1]) in edges
  }

  ghost predicate Reaches(edges: seq<Edge>, a: Node, b: Node) {
    exists p :: IsPath(edges, p) && p[0] == a && p[|p| - 1] == b
  }

  ghost predicate IsCycle(edges: seq<Edge>, p: seq<Node>) {
    IsPath(edges, p) && |p| >= 2 && p[0] == p[|p| - 1]
  }

  lemma {:induction false} PathForward(prog: seq<Inst>, first: nat, p: seq<Node>, i: nat, j: nat)
    requires IsPath(GraphOf(prog, first).edges, p) && i <= j < |p|
    ensures p[i].num <= p[j].num
    ensures Safe(prog, first) && i < j ==> p[i].num < p[j].num
  {
    if i < j {
      PathForward(prog, first, p, i, j - 1);
      EdgeForward(prog, first, Edge(p[j - 1], p[j]));
    }
  }

  /** Without a writing instruction 0 the graph is acyclic. */
  lemma Acyclic(prog: seq<Inst>, first: nat, p: seq<Node>)
    requires Safe(prog, first)
    ensures !IsCycle(GraphOf(prog, first).edges, p)
  {
    if IsCycle(GraphOf(prog, first).edges, p) {
      PathForward(prog, first, p, 0, |p| - 1);
    }
  }

  lemma SelfLoopDrawn(prog: seq<Inst>, first: nat)
    requires !Safe(prog, first)
    ensures var n := Node(R, prog[0].idst.value, 0); Edge(n, n) in GraphOf(prog, first).edges
  {
    var n := Node(R, prog[0].idst.value, 0);
    var g := Build(prog, first, 0);
    var ops := Operands(g.rNodes, prog[0]);
    assert ops[|ops| - 1] == n;
    assert EdgesInto(ops, n)[|ops| - 1] == Edge(n, n);
    assert Build(prog, first, 1) == AddInstruction(g, prog[0], 0);
    EdgesGrow(prog, first, 1, |prog|, Edge(n, n));
  }

  lemma CycleStays(prog: seq<Inst>, first: nat, p: seq<Node>, i: nat)
    requires !Safe(prog, first) && IsCycle(GraphOf(prog, first).edges, p) && i < |p|
    ensures p[i] == Node(R, prog[0].idst.value, 0)
  {
    var j := if i == 0 then |p| - 1 else i;
    PathForward(prog, first, p, 0, j - 1);
    PathForward(prog, first, p, j, |p| - 1);
    EdgeForward(prog, first, Edge(p[j - 1], p[j]));
  }

  /**
   With a writing instruction 0 there is exactly one possible cycle: the node of that
   instruction carries an edge to itself, and every cycle stays on that node.
   */
  lemma SelfLoopOfInstructionZero(prog: seq<Inst>, first: nat)
    requires !Safe(prog, first)
    ensures var n := Node(R, prog[0].idst.value, 0);
      && IsCycle(GraphOf(prog, first).edges, [n, n])
      && forall p, i :: IsCycle(GraphOf(prog, first).edges, p) && 0 <= i < |p| ==> p[i] == n
  {
    SelfLoopDrawn(prog, first);
    forall p, i | IsCycle(GraphOf(prog, first).edges, p) && 0 <= i < |p|
      ensures p[i] == Node(R, prog[0].idst.value, 0)
    {
      CycleStays(prog, first, p, i);
    }
  }

  // ---------------------------------------------------------------------------
  // The graph determines the operands of each node
  // ---------------------------------------------------------------------------

  lemma {:induction false} PredsConcat(a: seq<Edge>, b: seq<Edge>, n: Node)
    ensures Preds(a + b, n) == Preds(a, n) + Preds(b, n)
  {
    if b == [] {
      assert a + b == a;
    } else {
      var c := b[..|b| - 1];
      assert (a + b)[..|a + b| - 1] == a + c;
      PredsConcat(a, c, n);
    }
  }

  lemma {:induction false} PredsOfEdgesInto(ops: seq<Node>, n: Node, m: Node)
    ensures Preds(EdgesInto(ops, n), m) == if m == n then ops else []
  {
    if ops != [] {
      var front := ops[..|ops| - 1];
      PredsOfEdgesInto(front, n, m);
      assert EdgesInto(ops, n)[..|ops| - 1] == EdgesInto(front, n);
    }
  }

  /** Drawing one instruction adds its operands before its own target and nothing elsewhere. */
  lemma PredsStep(prog: seq<Inst>, first: nat, k: nat, n: Node)
    requires 0 < k <= |prog|
    ensures Preds(Build(prog, first, k).edges, n) == Preds(Build(prog, first, k - 1).edges, n) +
      (if IsTarget(prog, first, k - 1, n) then Operands(Build(prog, first, k - 1).rNodes, prog[k - 1]) else [])
  {
    if prog[k - 1].idst.Some? {
      var g := Build(prog, first, k - 1);
      var m := Node(R, prog[k - 1].idst.value, first + k - 1);
      var ops := Operands(g.rNodes, prog[k - 1]);
      PredsConcat(g.edges, EdgesInto(ops, m), n);
      PredsOfEdgesInto(ops, m, n);
    }
  }

  /** Only targets of instructions have incoming edges. */
  lemma {:induction false} PredsEmpty(prog: seq<Inst>, first: nat, k: nat, n: Node)
    requires k <= |prog| && forall j :: j < k ==> !IsTarget(prog, first, j, n)
    ensures Preds(Build(prog, first, k).edges, n) == []
  {
    if k > 0 {
      PredsEmpty(prog, first, k - 1, n);
      PredsStep(prog, first, k, n);
    }
  }

  /** The incoming edges of a target are exactly the operands its instruction read. */
  lemma {:induction false} PredsOfTarget(prog: seq<Inst>, first: nat, k: nat, j: nat, n: Node)
    requires j < k <= |prog| && IsTarget(prog, first, j, n)
    ensures Preds(Build(prog, first, k).edges, n) == Operands(Build(prog, first, j).rNodes, prog[j])
  {
    PredsStep(prog, first, k, n);
    if j == k - 1 {
      PredsEmpty(prog, first, k - 1, n);
    } else {
      PredsOfTarget(prog, first, k - 1, j, n);
    }
  }

  // ---------------------------------------------------------------------------
  // Dataflow evaluation equals sequential execution
  // ---------------------------------------------------------------------------

  /** The value sequential execution gives a node. */
  function NodeValue<V>(prog: seq<Inst>, first: nat, op: Operation<V>, init: Node -> V, n: Node): V {
    var j := n.num - first;
    if 0 <= j < |prog| && n.bank == R && prog[j].idst == Some(n.reg)
    then Exec(prog, first, op, init, j + 1, n.reg)
    else init(n)
  }

  /**
   The current node of a register always stands for the register's current value, but before a
   writing instruction 0, whose node its register's initial node is.
   */
  lemma {:induction false} CurrentValue<V>(prog: seq<Inst>, first: nat, op: Operation<V>, init: Node -> V, k: nat, r: nat)
    requires k <= |prog| && r < REGISTERS_COUNT && (k > 0 || Safe(prog, first))
    ensures NodeValue(prog, first, op, init, Build(prog, first, k).rNodes[r]) == Exec(prog, first, op, init, k, r)
  {
    if k > 1 || (k == 1 && Safe(prog, first)) {
      CurrentValue(prog, first, op, init, k - 1, r);
    } else if k == 1 {
      assert Build(prog, first, 0).rNodes[r] == Node(R, r, 0);
    }
  }

  /** A node's value follows from the values of its predecessors. */
  lemma NodeEquation<V>(prog: seq<Inst>, first: nat, op: Operation<V>, init: Node -> V, env: map<Node, V>, n: Node)
    requires Safe(prog, first)
    requires forall p :: p in Preds(GraphOf(prog, first).edges, n) ==> Agrees(prog, first, op, init, env, p)
    ensures EvalNode(Preds(GraphOf(prog, first).edges, n), op, init, env, n) == NodeValue(prog, first, op, init, n)
  {
    var j := n.num - first;
    var ps := Preds(GraphOf(prog, first).edges, n);
    if IsTarget(prog, first, j, n) {
      PredsOfTarget(prog, first, |prog|, j, n);
      TargetEquation(prog, first, op, init, env, j);
    } else {
      PredsEmpty(prog, first, |prog|, n);
    }
  }

  lemma TargetEquation<V>(prog: seq<Inst>, first: nat, op: Operation<V>, init: Node -> V, env: map<Node, V>, j: nat)
    requires Safe(prog, first) && j < |prog| && prog[j].idst.Some?
    requires forall p :: p in Operands(Build(prog, first, j).rNodes, prog[j]) ==> Agrees(prog, first, op, init, env, p)
    ensures EvalNode(Operands(Build(prog, first, j).rNodes, prog[j]), op, init, env, Node(R, prog[j].idst.value, first + j))
         == Exec(prog, first, op, init, j + 1, prog[j].idst.value)
  {
    var ops := Operands(Build(prog, first, j).rNodes, prog[j]);
    assert ops[|ops| - 1] in ops && ops[0] in ops;
    CurrentValue(prog, first, op, init, j, prog[j].idst.value);
    if prog[j].isrc.Some? {
      CurrentValue(prog, first, op, init, j, prog[j].isrc.value);
    }
  }

  lemma {:induction false} PredsAreSources(edges: seq<Edge>, n: Node, p: Node)
    ensures p in Preds(edges, n) <==> Edge(p, n) in edges
  {
    if edges != [] {
      PredsAreSources(edges[..|edges| - 1], n, p);
      assert edges == edges[..|edges| - 1] + [edges[|edges| - 1]];
    }
  }

  ghost predicate Agrees<V>(prog: seq<Inst>, first: nat, op: Operation<V>, init: Node -> V, env: map<Node, V>, n: Node) {
    n in env && env[n] == NodeValue(prog, first, op, init, n)
  }

  lemma {:induction false} EvaluatedPrefix<V>(prog: seq<Inst>, first: nat, op: Operation<V>, init: Node -> V, order: seq<Node>, k: nat)
    requires Safe(prog, first) && Topological(order, GraphOf(prog, first)) && k <= |order|
    ensures var env := Evaluate(GraphOf(prog, first).edges, op, init, order, k);
      forall n :: n in order[..k] ==> Agrees(prog, first, op, init, env, n)
  {
    if k > 0 {
      var edges := GraphOf(prog, first).edges;
      EvaluatedPrefix(prog, first, op, init, order, k - 1);
      var env := Evaluate(edges, op, init, order, k - 1);
      var n := order[k - 1];
      forall p | p in Preds(edges, n) ensures Agrees(prog, first, op, init, env, p) {
        PredsAreSources(edges, n, p);
        assert p in order[..k - 1];
      }
      NodeEquation(prog, first, op, init, env, n);
      assert order[..k] == order[..k - 1] + [n];
    }
  }

  lemma {:induction false} CurrentNodeDeclared(prog: seq<Inst>, first: nat, k: nat, r: nat)
    requires k <= |prog| && r < REGISTERS_COUNT
    ensures Build(prog, first, k).rNodes[r] in Build(prog, first, k).nodes
  {
    if k == 0 {
      assert BankNodes(R, 8)[r] == Node(R, r, 0);
      assert InitialNodes()[r] == Node(R, r, 0);
    } else {
      CurrentNodeDeclared(prog, first, k - 1, r);
    }
  }

  /**
   For every program, every meaning of its operations, every initial register file and
   every topological order of the drawn graph, evaluating the nodes in that order gives
   the current node of each register the value sequential execution gives the register.
   */
  lemma {:induction false} DataflowEqualsExecution<V>(prog: seq<Inst>, first: nat, op: Operation<V>, init: Node -> V, order: seq<Node>, r: nat)
    requires Topological(order, GraphOf(prog, first)) && r < REGISTERS_COUNT
    ensures var g := GraphOf(prog, first);
      var env := Evaluate(g.edges, op, init, order, |order|);
      g.rNodes[r] in env && env[g.rNodes[r]] == Exec(prog, first, op, init, |prog|, r)
  {
    OrderExistsIffSafe(prog, first);
    CurrentNodeDeclared(prog, first, |prog|, r);
    assert order[..|order|] == order;
    EvaluatedPrefix(prog, first, op, init, order, |order|);
    CurrentValue(prog, first, op, init, |prog|, r);
  }

  // ---------------------------------------------------------------------------
  // Exactly when a topological order exists
  // ---------------------------------------------------------------------------

  ghost predicate Distinct(nodes: seq<Node>) {
    forall i, j :: 0 <= i < j < |nodes| ==> nodes[i] != nodes[j]
  }

  lemma DistinctConcat(a: seq<Node>, b: seq<Node>)
    requires Distinct(a) && Distinct(b) && forall n :: n in a ==> n !in b
    ensures Distinct(a + b)
  {
    forall i, j | 0 <= i < j < |a + b| ensures (a + b)[i] != (a + b)[j] {
      if i < |a| <= j {
        assert a[i] in a && b[j - |a|] in b;
      }
    }
  }

  lemma InitialDistinct()
    ensures Distinct(InitialNodes())
    ensures forall n :: n in InitialNodes() ==> n.num == 0
  {
  }

  /** The order in which the analyzer declares the nodes is topological. */
  lemma {:induction false} DeclarationOrder(prog: seq<Inst>, first: nat, k: nat)
    requires Safe(prog, first) && k <= |prog|
    ensures Topological(Build(prog, first, k).nodes, Build(prog, first, k))
    ensures forall n :: n in Build(prog, first, k).nodes ==> n.num == 0 || n.num < first + k
  {
    if k == 0 {
      InitialDistinct();
    } else if prog[k - 1].idst.None? {
      DeclarationOrder(prog, first, k - 1);
    } else {
      DeclarationOrder(prog, first, k - 1);
      var g, g' := Build(prog, first, k - 1), Build(prog, first, k);
      var n := Node(R, prog[k - 1].idst.value, first + k - 1);
      DistinctConcat(g.nodes, [n]);
      forall e, i | e in g'.edges && 0 <= i < |g'.nodes| && g'.nodes[i] == e.dst
        ensures e.src in g'.nodes[..i]
      {
        SourceDeclared(prog, first, k, e, i);
      }
    }
  }

  lemma SourceDeclared(prog: seq<Inst>, first: nat, k: nat, e: Edge, i: nat)
    requires Safe(prog, first) && 0 < k <= |prog| && prog[k - 1].idst.Some?
    requires Topological(Build(prog, first, k - 1).nodes, Build(prog, first, k - 1))
    requires forall n :: n in Build(prog, first, k - 1).nodes ==> n.num == 0 || n.num < first + k - 1
    requires e in Build(prog, first, k).edges
    requires i < |Build(prog, first, k).nodes| && Build(prog, first, k).nodes[i] == e.dst
    ensures e.src in Build(prog, first, k).nodes[..i]
  {
    var g, g' := Build(prog, first, k - 1), Build(prog, first, k);
    if e in g.edges {
      var j := EdgeOrigin(prog, first, k - 1, e);
      assert i < |g.nodes|;
      assert g'.nodes[..i] == g.nodes[..i];
    } else {
      CurrentNodeDeclared(prog, first, k - 1, prog[k - 1].idst.value);
      if prog[k - 1].isrc.Some? {
        CurrentNodeDeclared(prog, first, k - 1, prog[k - 1].isrc.value);
      }
      if i < |g.nodes| {
        assert false;
      }
      assert g'.nodes[..i] == g.nodes;
    }
  }

  /**
   The drawn graph has a topological order exactly when no writing instruction has number
   0; numbering from 0, as the analyzer does, this asks that the program start with a no-op.
   */
  lemma OrderExistsIffSafe(prog: seq<Inst>, first: nat)
    ensures (exists order :: Topological(order, GraphOf(prog, first))) <==> Safe(prog, first)
  {
    var g := GraphOf(prog, first);
    if Safe(prog, first) {
      DeclarationOrder(prog, first, |prog|);
      assert Topological(g.nodes, g);
    } else {
      SelfLoopDrawn(prog, first);
      var n := Node(R, prog[0].idst.value, 0);
      InitialNodesKept(prog, first, |prog|, n);
      forall order ensures !Topological(order, g) {
        SelfLoopHasNoOrder(order, g, n);
      }
    }
  }

  lemma SelfLoopHasNoOrder(order: seq<Node>, g: Graph, n: Node)
    requires Edge(n, n) in g.edges && n in g.nodes
    ensures !Topological(order, g)
  {
  }

  lemma {:induction false} InitialNodesKept(prog: seq<Inst>, first: nat, k: nat, n: Node)
    requires k <= |prog| && n.bank == R && n.reg < 8 && n.num == 0
    ensures n in Build(prog, first, k).nodes
  {
    if k == 0 {
      assert BankNodes(R, 8)[n.reg] == n;
      assert InitialNodes()[n.reg] == n;
    } else {
      InitialNodesKept(prog, first, k - 1, n);
    }
  }

  // ---------------------------------------------------------------------------
  // Influence of initial registers
  // ---------------------------------------------------------------------------

  lemma ReachesExtend(edges: seq<Edge>, a: Node, b: Node, c: Node)
    requires Reaches(edges, a, b) && Edge(b, c) in edges
    ensures Reaches(edges, a, c)
  {
    var p :| IsPath(edges, p) && p[0] == a && p[|p| - 1] == b;
    assert IsPath(edges, p + [c]);
  }

  /** A node that does not reach the target of an instruction reaches none of its operands. */
  lemma OperandsUnreached(prog: seq<Inst>, first: nat, k: nat, a: Node, i: nat)
    requires 0 < k <= |prog| && prog[k - 1].idst.Some?
    requires var ops := Operands(Build(prog, first, k - 1).rNodes, prog[k - 1]); i < |ops|
    requires !Reaches(GraphOf(prog, first).edges, a, Node(R, prog[k - 1].idst.value, first + k - 1))
    ensures !Reaches(GraphOf(prog, first).edges, a, Operands(Build(prog, first, k - 1).rNodes, prog[k - 1])[i])
  {
    var edges := GraphOf(prog, first).edges;
    var n := Node(R, prog[k - 1].idst.value, first + k - 1);
    var ops := Operands(Build(prog, first, k - 1).rNodes, prog[k - 1]);
    assert EdgesInto(ops, n)[i] in Build(prog, first, k).edges;
    EdgesGrow(prog, first, k, |prog|, Edge(ops[i], n));
    if Reaches(edges, a, ops[i]) {
      ReachesExtend(edges, a, ops[i], n);
    }
  }

  /**
   An initial register with no path to the current node of a register cannot influence
   that register's value, whatever the operations mean and however the program is numbered.
   */
  lemma {:induction false} NoPathNoInfluence<V>(prog: seq<Inst>, first: nat, op: Operation<V>,
                                                init: Node -> V, init': Node -> V, a: Node, k: nat, r: nat)
    requires forall n :: n != a ==> init(n) == init'(n)
    requires k <= |prog| && r < REGISTERS_COUNT
    requires !Reaches(GraphOf(prog, first).edges, a, Build(prog, first, k).rNodes[r])
    ensures Exec(prog, first, op, init, k, r) == Exec(prog, first, op, init', k, r)
  {
    hide GraphOf, EdgesInto, Operands, Reaches;
    if k == 0 {
      SelfReached(prog, first, a);
    } else if prog[k - 1].idst != Some(r) {
      NoPathNoInfluence(prog, first, op, init, init', a, k - 1, r);
    } else {
      OperandRegistersUnreached(prog, first, k, a);
      NoPathNoInfluence(prog, first, op, init, init', a, k - 1, r);
      if prog[k - 1].isrc.Some? {
        NoPathNoInfluence(prog, first, op, init, init', a, k - 1, prog[k - 1].isrc.value);
      }
    }
  }

  lemma SelfReached(prog: seq<Inst>, first: nat, a: Node)
    ensures Reaches(GraphOf(prog, first).edges, a, a)
  {
    hide GraphOf;
    assert IsPath(GraphOf(prog, first).edges, [a]) && [a][0] == a;
  }

  /** A node that does not reach a target reaches neither register its instruction read. */
  lemma OperandRegistersUnreached(prog: seq<Inst>, first: nat, k: nat, a: Node)
    requires 0 < k <= |prog| && prog[k - 1].idst.Some?
    requires !Reaches(GraphOf(prog, first).edges, a, Node(R, prog[k - 1].idst.value, first + k - 1))
    ensures var nodes := Build(prog, first, k - 1).rNodes; var edges := GraphOf(prog, first).edges;
      && !Reaches(edges, a, nodes[prog[k - 1].idst.value])
      && (prog[k - 1].isrc.Some? ==> !Reaches(edges, a, nodes[prog[k - 1].isrc.value]))
  {
    hide GraphOf, Reaches, Build;
    OperandsUnreached(prog, first, k, a, if prog[k - 1].isrc.Some? then 1 else 0);
    if prog[k - 1].isrc.Some? {
      OperandsUnreached(prog, first, k, a, 0);
    }
  }

  function OrOperation(num: nat, dst: bool, src: Option<bool>): bool {
    dst || (src.Some? && src.value)
  }

  lemma {:induction false} NoInputNoOutput(prog: seq<Inst>, first: nat, k: nat, r: nat)
    requires k <= |prog|
    ensures !Exec(prog, first, OrOperation, (n: Node) => false, k, r)
  {
    if k > 0 {
      NoInputNoOutput(prog, first, k - 1, r);
      if prog[k - 1].isrc.Some? {
        NoInputNoOutput(prog, first, k - 1, prog[k - 1].isrc.value);
      }
    }
  }

  /** A target carries what one of its operands carried when it was drawn. */
  lemma TargetCarries(prog: seq<Inst>, first: nat, a: Node, j: nat, e: Edge)
    requires j < |prog| && DrawnBy(prog, first, j, e)
    requires NodeValue(prog, first, OrOperation, (n: Node) => n == a, e.src)
    ensures Exec(prog, first, OrOperation, (n: Node) => n == a, j + 1, e.dst.reg)
  {
    var init := (n: Node) => n == a;
    if j == 0 {
      assert forall r: nat :: r < REGISTERS_COUNT ==> Build(prog, first, 0).rNodes[r] == Node(R, r, 0);
    } else {
      CurrentValue(prog, first, OrOperation, init, j, e.dst.reg);
      if prog[j].isrc.Some? {
        CurrentValue(prog, first, OrOperation, init, j, prog[j].isrc.value);
      }
    }
  }

  lemma {:induction false} PathCarries(prog: seq<Inst>, first: nat, a: Node, p: seq<Node>)
    requires IsPath(GraphOf(prog, first).edges, p) && p[0] == a && a.num == 0
    ensures NodeValue(prog, first, OrOperation, (n: Node) => n == a, p[|p| - 1])
  {
    if |p| > 1 {
      var q := p[..|p| - 1];
      PathCarries(prog, first, a, q);
      var e := Edge(p[|p| - 2], p[|p| - 1]);
      var j := EdgeOrigin(prog, first, |prog|, e);
      TargetCarries(prog, first, a, j, e);
    }
  }

  /**
   The converse, for every program and numbering: a path is an influence. When initial register a
   reaches the current node of r, two runs that differ only in a end with different values in r
   for some operations.
   */
  lemma {:induction false} PathMeansInfluence(prog: seq<Inst>, first: nat, a: Node, r: nat)
    requires r < REGISTERS_COUNT && a.num == 0
    ensures Reaches(GraphOf(prog, first).edges, a, GraphOf(prog, first).rNodes[r]) ==>
      Exec(prog, first, OrOperation, (n: Node) => n == a, |prog|, r)
      != Exec(prog, first, OrOperation, (n: Node) => false, |prog|, r)
  {
    if Reaches(GraphOf(prog, first).edges, a, GraphOf(prog, first).rNodes[r]) {
      var p :| IsPath(GraphOf(prog, first).edges, p) && p[0] == a && p[|p| - 1] == GraphOf(prog, first).rNodes[r];
      PathCarries(prog, first, a, p);
      CurrentValue(prog, first, OrOperation, (n: Node) => n == a, |prog|, r);
      NoInputNoOutput(prog, first, |prog|, r);
    }
  }
}
