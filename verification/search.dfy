/**
 * The A* search: search nodes (`AStarNode`) with their cost bookkeeping, and
 * the solver (`AStarSolver`) with its frontier `Q`, its list of every node
 * generated (`visited_nodes`), best-node selection, successor generation,
 * the main loop and the walk back along parent links.
 */
module Search {
  import opened Options
  import opened CubeTables
  import opened CubeModel
  import opened Heuristics

  /** `AStarNode`: a state with its path cost `g`, estimate `h` and total `f`. */
  class Node {
    const state: Grid
    const visited: bool
    var parent: Node?
    const rotation: Move
    var g: int
    const h: real
    var f: real

    /** `f = g + h`: set by the constructor and kept by every update. */
    ghost predicate Valid()
      reads this
    {
      f == g as real + h
    }

    /** `AStarNode(state, visited, parent, g, h, rotation)`. */
    constructor (state: Grid, visited: bool, parent: Node?, g: int, h: real, rotation: Move)
      ensures this.state == state && this.visited == visited && this.parent == parent
      ensures this.g == g && this.h == h && this.rotation == rotation
      ensures Valid()
    {
      this.state := state;
      this.visited := visited;
      this.parent := parent;
      this.rotation := rotation;
      this.g := g;
      this.h := h;
      this.f := g as real + h;
    }

    /** `__lt__`: compares total estimates. */
    predicate Less(other: Node)
      reads this, other
    {
      f < other.f
    }

    /** `__gt__`: compares total estimates. */
    predicate Greater(other: Node)
      reads this, other
    {
      f > other.f
    }

    /** `__eq__`: two nodes are equal when their states are. */
    predicate Equals(other: Node)
    {
      state == other.state
    }

    /**
     * `calculate_cost(parent)`: the cost of reaching this node through
     * `parent`. Without a parent the path cost is 1, not the 0 the root is
     * built with.
     */
    function CalculateCost(parent: Node?): (cost: (int, real))
      reads parent
      ensures cost.1 == cost.0 as real + h
      ensures parent != null ==> cost.0 == parent.g + 1
      ensures parent == null ==> cost.0 == 1
    {
      var g := if parent != null then parent.g + 1 else 1;
      (g, g as real + h)
    }

    /** `update_cost()`: recomputes `g` and `f` from the current parent. */
    method UpdateCost()
      modifies this
      ensures parent == old(parent)
      ensures (g, f) == old(CalculateCost(parent))
      ensures Valid()
    {
      var cost := CalculateCost(parent);
      g, f := cost.0, cost.1;
    }

    /**
     * `update_parent(cheaper_parent)`: re-parents the node only when the path
     * through `cheaper` gives a strictly smaller `f`; `f` never grows.
     */
    method UpdateParent(cheaper: Node?)
      modifies this
      ensures old(CalculateCost(cheaper)).1 < old(f) ==>
                parent == cheaper && (g, f) == old(CalculateCost(cheaper))
      ensures !(old(CalculateCost(cheaper)).1 < old(f)) ==> unchanged(this)
      ensures f <= old(f)
      ensures old(Valid()) ==> Valid()
    {
      var cost := CalculateCost(cheaper);
      if cost.1 < f {
        parent := cheaper;
        UpdateCost();
      }
    }
  }

  /**
   * The node `min` picks, in terms of `__lt__` and `__gt__`: it is greater
   * than no node of the frontier and less than every node before it, and no
   * other position has that property.
   */
  lemma BestIsLeast(q: seq<Node>, k: int)
    requires IsFirstMinimal(q, k)
    ensures forall i :: 0 <= i < |q| ==> !q[k].Greater(q[i])
    ensures forall i :: 0 <= i < k ==> q[k].Less(q[i])
    ensures forall j :: IsFirstMinimal(q, j) ==> j == k
  {
    forall j | IsFirstMinimal(q, j) ensures j == k {
      assert q[j].f == q[k].f;
    }
  }

  /**
   * Relaxing a node through the parent it was built from never changes it:
   * the candidate `f` equals the node's own `f`.
   */
  lemma RelaxingThroughOwnParentIsNoOp(u: Node, x: Node)
    requires u.Valid() && u.g == x.g + 1
    ensures u.CalculateCost(x) == (u.g, u.f)
    ensures !(u.CalculateCost(x).1 < u.f)
  {
  }

  /** The states of the nodes `ns`. */
  function StatesOf(ns: seq<Node>): set<Grid>
  {
    set n | n in ns :: n.state
  }

  /** A state is among the states of `ns` exactly when some node of `ns` has it. */
  lemma StatesOfMembers(ns: seq<Node>, s: Grid)
    ensures s in StatesOf(ns) <==> exists i :: 0 <= i < |ns| && ns[i].state == s
  {
  }

  /** The moves recorded on the nodes `ns`, in order. */
  function MovesOf(ns: seq<Node>): seq<Move>
  {
    seq(|ns|, i requires 0 <= i < |ns| => ns[i].rotation)
  }

  /** Appending the node for the next move of `moves` extends the recorded prefix. */
  lemma MovesOfAppend(ns: seq<Node>, n: Node, moves: seq<Move>)
    requires |ns| < |moves| && MovesOf(ns) == moves[..|ns|] && n.rotation == moves[|ns|]
    ensures MovesOf(ns + [n]) == moves[..|ns| + 1]
  {
  }

  /** `q[k]` is the first node of `q` with the smallest `f`, the one `min` picks. */
  ghost predicate IsFirstMinimal(q: seq<Node>, k: int)
    reads q
  {
    0 <= k < |q| &&
    (forall i :: 0 <= i < |q| ==> q[k].f <= q[i].f) &&
    (forall i :: 0 <= i < k ==> q[k].f < q[i].f)
  }

  /** `list.remove`: drops the first node whose state equals `s`. */
  function RemoveFirst(q: seq<Node>, s: Grid): seq<Node>
  {
    if q == [] then []
    else if q[0].state == s then q[1..]
    else [q[0]] + RemoveFirst(q[1..], s)
  }

  /** Removing by state takes out exactly the first node with that state. */
  lemma {:induction false} RemoveFirstAt(q: seq<Node>, j: int, s: Grid)
    requires 0 <= j < |q| && q[j].state == s
    requires forall i :: 0 <= i < j ==> q[i].state != s
    ensures RemoveFirst(q, s) == q[..j] + q[j + 1..]
  {
    if j > 0 {
      RemoveFirstAt(q[1..], j - 1, s);
      assert q[1..][..j - 1] == q[1..j];
      assert q[1..][j..] == q[j + 1..];
      assert q[..j] == [q[0]] + q[1..j];
    }
  }

  /** States pairwise distinct. */
  ghost predicate DistinctStates(q: seq<Node>)
  {
    forall i, j :: 0 <= i < j < |q| ==> q[i].state != q[j].state
  }

  /**
   * When no two nodes share a state, removing by the state of `q[k]` removes
   * `q[k]` itself and keeps the others in order.
   */
  lemma RemoveFirstDistinct(q: seq<Node>, k: int)
    requires DistinctStates(q) && 0 <= k < |q|
    ensures RemoveFirst(q, q[k].state) == q[..k] + q[k + 1..]
  {
    RemoveFirstAt(q, k, q[k].state);
  }

  /** Removing `q[k]` from a list with distinct states keeps them distinct and loses only `q[k]`'s state. */
  lemma RemoveAtIndex(q: seq<Node>, k: int)
    requires DistinctStates(q) && 0 <= k < |q|
    ensures DistinctStates(q[..k] + q[k + 1..])
    ensures forall n :: n in q[..k] + q[k + 1..] ==> n in q && n.state != q[k].state
    ensures forall n :: n in q && n != q[k] ==> n in q[..k] + q[k + 1..]
  {
    var r := q[..k] + q[k + 1..];
    assert forall i :: 0 <= i < |r| ==> r[i] == q[if i < k then i else i + 1];
  }

  /** Appending a node adds exactly its state. */
  lemma StatesOfAppend(ns: seq<Node>, n: Node)
    ensures StatesOf(ns + [n]) == StatesOf(ns) + {n.state}
  {
    assert (ns + [n])[..|ns|] == ns;
  }

  /** One more node of a prefix adds its state. */
  lemma StatesOfPrefixStep(ns: seq<Node>, k: int)
    requires 0 <= k < |ns|
    ensures StatesOf(ns[..k + 1]) == StatesOf(ns[..k]) + {ns[k].state}
  {
    assert ns[..k + 1] == ns[..k] + [ns[k]];
    StatesOfAppend(ns[..k], ns[k]);
  }

  /**
   * Appending generated nodes whose first new state is unseen leaves fewer
   * valid states unseen: the measure that bounds the search.
   */
  lemma GrowthShrinksUnseen(before: seq<Node>, after: seq<Node>)
    requires |before| < |after| && after[..|before|] == before
    requires DistinctStates(after) && ValidState(after[|before|].state)
    ensures AllStates - StatesOf(after) < AllStates - StatesOf(before)
  {
    var s := after[|before|].state;
    ValidStatesAreFinitelyMany(s);
    StatesOfMembers(before, s);
    StatesOfMembers(after, s);
    StatesOfPrefix(before, after);
  }

  /** The states of a prefix are among the states of the whole. */
  lemma StatesOfPrefix(before: seq<Node>, after: seq<Node>)
    requires |before| <= |after| && after[..|before|] == before
    ensures StatesOf(before) <= StatesOf(after)
  {
    forall n | n in before ensures n in after {
      var i :| 0 <= i < |before| && before[i] == n;
      assert after[i] == n;
    }
  }

  /**
   * The successors of `U` that the loop of `solve` queues, in order: each
   * node whose state is neither in `seen` nor the state of an earlier
   * queued node.
   */
  function NewSuccessors(U: seq<Node>, seen: set<Grid>): seq<Node>
  {
    if U == [] then []
    else
      var earlier := NewSuccessors(U[..|U| - 1], seen);
      earlier + Unseen(U[|U| - 1], seen + StatesOf(earlier))
  }

  /** What visiting `u` appends: `u` itself when its state is not in `seen`, else nothing. */
  function Unseen(u: Node, seen: set<Grid>): seq<Node>
  {
    if u.state in seen then [] else [u]
  }

  /** The nodes queued from `U` are nodes of `U` with pairwise distinct states, none in `seen`. */
  lemma {:induction false} NewSuccessorsAreNew(U: seq<Node>, seen: set<Grid>)
    ensures forall n :: n in NewSuccessors(U, seen) ==> n in U && n.state !in seen
    ensures DistinctStates(NewSuccessors(U, seen))
    ensures StatesOf(U) <= seen + StatesOf(NewSuccessors(U, seen))
  {
    if U != [] {
      var init, last := U[..|U| - 1], U[|U| - 1];
      NewSuccessorsAreNew(init, seen);
      var earlier := NewSuccessors(init, seen);
      assert U == init + [last];
      if last.state !in seen + StatesOf(earlier) {
        var r := earlier + [last];
        forall i, j | 0 <= i < j < |r| ensures r[i].state != r[j].state {
          if j == |earlier| {
            assert r[i] in earlier;
          }
        }
      }
    }
  }

  /** Taking one more node of `U` into account queues it exactly when its state is still unseen. */
  lemma NewSuccessorsStep(U: seq<Node>, k: int, seen: set<Grid>)
    requires 0 <= k < |U|
    ensures NewSuccessors(U[..k + 1], seen) ==
            NewSuccessors(U[..k], seen) + Unseen(U[k], seen + StatesOf(NewSuccessors(U[..k], seen)))
  {
    assert U[..k + 1][..k] == U[..k];
  }

  /** Appending to a joined list joins the appended part to its second half. */
  lemma ConcatAssoc(a: seq<Node>, b: seq<Node>, c: seq<Node>)
    ensures a + b + c == a + (b + c)
  {
  }

  /** The states of two lists joined are the states of each. */
  lemma StatesOfConcat(a: seq<Node>, b: seq<Node>)
    ensures StatesOf(a + b) == StatesOf(a) + StatesOf(b)
  {
  }

  /** `AStarSolver`: the frontier, the generated nodes and the search. */
  class Solver {
    var cube: Grid
    var Q: seq<Node>
    var visitedNodes: seq<Node>
    const divisor: int
    const rotate: Rotation
    const goal: Grid

    /**
     * `AStarSolver(cube, Q, visited_nodes, divisor)`: a missing `Q` or
     * `visited_nodes` starts empty. The simulator's move and solved state are
     * given as `rotate` and `goal`; the cube defaults to a new, solved one and
     * the divisor to 5.
     */
    constructor (rotate: Rotation, goal: Grid, cube: Grid := goal, Q: Option<seq<Node>> := None,
                 visitedNodes: Option<seq<Node>> := None, divisor: int := 5)
      ensures this.cube == cube && this.rotate == rotate && this.goal == goal
      ensures this.divisor == divisor
      ensures this.Q == (if Q.Some? then Q.value else [])
      ensures this.visitedNodes == (if visitedNodes.Some? then visitedNodes.value else [])
    {
      this.cube := cube;
      this.rotate := rotate;
      this.goal := goal;
      this.divisor := divisor;
      this.Q := if Q.Some? then Q.value else [];
      this.visitedNodes := if visitedNodes.Some? then visitedNodes.value else [];
    }

    /**
     * `goal` stands for the state of a new cube: when it is the solved state,
     * the heuristic scores it 0, as the final node of `solve` assumes.
     */
    lemma GoalScoresZero()
      requires IsSolved(goal) && divisor != 0
      ensures HeuristicOf(goal, divisor) == 0.0
    {
      SolvedScoresZero(goal, divisor);
    }

    /** `is_visited(node)`: some generated node has the same state. */
    method IsVisited(node: Node) returns (found: bool)
      ensures found <==> exists i :: 0 <= i < |visitedNodes| && visitedNodes[i].state == node.state
    {
      for i := 0 to |visitedNodes|
        invariant forall j :: 0 <= j < i ==> visitedNodes[j].state != node.state
      {
        if visitedNodes[i] == node || visitedNodes[i].state == node.state {
          return true;
        }
      }
      return false;
    }

    /**
     * `get_best_node()`: `null` on an empty frontier; otherwise the first
     * node with the smallest `f`, which leaves `Q` as `list.remove` does.
     */
    method GetBestNode() returns (best: Node?)
      modifies this`Q
      ensures old(Q) == [] ==> best == null && Q == []
      ensures old(Q) != [] ==>
                best != null &&
                (exists k :: IsFirstMinimal(old(Q), k) && best == old(Q)[k]) &&
                Q == RemoveFirst(old(Q), best.state)
    {
      if Q == [] {
        return null;
      }
      var k := 0;
      for i := 1 to |Q|
        invariant 0 <= k < i
        invariant forall t :: 0 <= t < i ==> Q[k].f <= Q[t].f
        invariant forall t :: 0 <= t < k ==> Q[k].f < Q[t].f
      {
        if Q[i].f < Q[k].f {
          k := i;
        }
      }
      assert IsFirstMinimal(Q, k);
      best := Q[k];
      var j := 0;
      while Q[j].state != best.state
        invariant 0 <= j <= k
        invariant forall t :: 0 <= t < j ==> Q[t].state != best.state
        decreases k - j
      {
        j := j + 1;
      }
      RemoveFirstAt(Q, j, best.state);
      Q := Q[..j] + Q[j + 1..];
    }

    /**
     * `u` is a node `get_next_states` builds from the state `s` under parent
     * `x`: its state is `s` moved by `u.rotation`, and its estimate is the
     * heuristic of that state.
     */
    ghost predicate IsSuccessor(u: Node, x: Node, s: Grid)
      reads u, x
    {
      ChildOf(u, x, s) && !u.visited &&
      Shaped(u.state) && divisor != 0 && u.h == HeuristicOf(u.state, divisor)
    }

    /**
     * `U` is what `get_next_states(x)` builds from the state of `x`: one
     * successor per move, in the order of `AllMoves`.
     */
    ghost predicate SuccessorsOf(U: seq<Node>, x: Node)
      reads U, x
    {
      MovesOf(U) == AllMoves && forall t :: 0 <= t < |U| ==> IsSuccessor(U[t], x, x.state)
    }

    /**
     * `u` has the valid state reached from `s` by its move, hangs off `x` one
     * step deeper, and keeps `f = g + h`.
     */
    ghost predicate ChildOf(u: Node, x: Node, s: Grid)
      reads u, x
    {
      u.state == rotate(s, u.rotation) && ValidState(u.state) &&
      u.parent == x && u.g == x.g + 1 && u.Valid()
    }

    /**
     * `get_next_states(parent)`: one new node per move, in the order of
     * `AllMoves`, each a child of `parent` with `g = parent.g + 1`. The moves
     * are applied to the solver's current `cube`.
     */
    method GetNextStates(parent: Node) returns (next: seq<Node>)
      requires SuccessorsValid(rotate, cube) && divisor != 0
      ensures MovesOf(next) == AllMoves
      ensures forall k :: 0 <= k < |next| ==> fresh(next[k]) && IsSuccessor(next[k], parent, cube)
    {
      next := [];
      for a := 0 to 3
        invariant |next| == 6 * a && MovesOf(next) == AllMoves[..|next|]
        invariant forall k :: 0 <= k < |next| ==> fresh(next[k]) && IsSuccessor(next[k], parent, cube)
      {
        for l := 0 to 2
          invariant |next| == 6 * a + 3 * l && MovesOf(next) == AllMoves[..|next|]
          invariant forall k :: 0 <= k < |next| ==> fresh(next[k]) && IsSuccessor(next[k], parent, cube)
        {
          for s := 0 to 3
            invariant |next| == 6 * a + 3 * l + s && MovesOf(next) == AllMoves[..|next|]
            invariant forall k :: 0 <= k < |next| ==> fresh(next[k]) && IsSuccessor(next[k], parent, cube)
          {
            var move := Move(Axes[a], Layers[l], Senses[s]);
            MoveOrder(a, l, s);
            var auxState := rotate(cube, move);
            var h := Heuristic(auxState, divisor);
            var node := new Node(auxState, false, parent, parent.g + 1, h, move);
            MovesOfAppend(next, node, AllMoves);
            next := next + [node];
          }
        }
      }
    }

    /** A generated node other than the root hangs off a node of `nodes` by one of the 18 moves. */
    ghost predicate LinkedIn(n: Node, nodes: seq<Node>)
      reads n, nodes
    {
      n.parent != null && n.parent in nodes &&
      n.g == n.parent.g + 1 && n.rotation in AllMoves &&
      n.state == rotate(n.parent.state, n.rotation)
    }

    /**
     * `nodes` form a tree rooted at a node for `init` with `g = 0`; every
     * node keeps `f = g + h` and has a valid state, and no two share a state.
     */
    ghost predicate IsTree(nodes: seq<Node>, init: Grid)
      reads nodes
    {
      |nodes| >= 1 &&
      nodes[0].parent == null && nodes[0].state == init && nodes[0].g == 0 &&
      (forall i {:trigger LinkedIn(nodes[i], nodes)} :: 1 <= i < |nodes| ==> LinkedIn(nodes[i], nodes)) &&
      (forall i :: 0 <= i < |nodes| ==> nodes[i].g >= 0 && nodes[i].Valid() && ValidState(nodes[i].state)) &&
      DistinctStates(nodes)
    }

    /** Every frontier node has been generated, and no two frontier nodes share a state. */
    ghost predicate FrontierIn(q: seq<Node>, nodes: seq<Node>)
    {
      (forall n :: n in q ==> n in nodes) && DistinctStates(q)
    }

    /** `n` is not the goal, and the states of all 18 of its successors are in `seen`. */
    ghost predicate ExpandedInto(n: Node, seen: set<Grid>)
    {
      n.state != goal &&
      forall m :: m in AllMoves ==> rotate(n.state, m) in seen
    }

    /** Every generated node outside the frontier, except `x`, has been expanded. */
    ghost predicate ExpandedExcept(q: seq<Node>, nodes: seq<Node>, x: Node?)
    {
      forall n {:trigger ExpandedInto(n, StatesOf(nodes))} ::
        n in nodes && n !in q && n != x ==> ExpandedInto(n, StatesOf(nodes))
    }

    /**
     * `ps` is the path the walk back collects above `x`: each node the child
     * of the one before, the first a child of `x`, the last at the goal, with
     * path costs counting up from `x`'s, and its moves lead from `x` to the goal.
     */
    ghost predicate PathFrom(x: Node, ps: seq<Node>, nodes: seq<Node>)
      reads ps, x
    {
      |ps| > 0 && ps[0].parent == x && ps[|ps| - 1].state == goal &&
      (forall i :: 0 < i < |ps| ==> ps[i].parent == ps[i - 1]) &&
      (forall i :: 0 <= i < |ps| ==> ps[i] in nodes && ps[i].g == x.g + 1 + i) &&
      Replay(rotate, x.state, MovesOf(ps)) == goal
    }

    /** In the tree, the root is the only node without a parent. */
    lemma ParentOf(nodes: seq<Node>, init: Grid, n: Node)
      requires IsTree(nodes, init) && n in nodes
      ensures n.parent == null ==> n == nodes[0]
      ensures n.parent != null ==> LinkedIn(n, nodes) && n.parent.g >= 0
    {
      var i :| 0 <= i < |nodes| && nodes[i] == n;
      if i > 0 {
        assert LinkedIn(nodes[i], nodes);
      }
    }

    /** A new node linked into the tree, with a state not yet in it, keeps it a tree. */
    lemma TreeGrows(nodes: seq<Node>, init: Grid, u: Node)
      requires IsTree(nodes, init) && u.state !in StatesOf(nodes)
      requires LinkedIn(u, nodes) && u.g >= 0 && u.Valid() && ValidState(u.state)
      ensures IsTree(nodes + [u], init)
    {
      StatesOfMembers(nodes, u.state);
      var grown := nodes + [u];
      forall i | 1 <= i < |grown| ensures LinkedIn(grown[i], grown) {
        if i < |nodes| {
          assert LinkedIn(nodes[i], nodes);
        }
      }
      forall i, j | 0 <= i < j < |grown| ensures grown[i].state != grown[j].state {
        if j == |nodes| {
          assert grown[i] in nodes;
        }
      }
    }

    /** Queueing and recording a node with a new state keeps the frontier inside the tree. */
    lemma FrontierGrows(q: seq<Node>, nodes: seq<Node>, u: Node)
      requires FrontierIn(q, nodes) && u.state !in StatesOf(nodes)
      ensures FrontierIn(q + [u], nodes + [u])
    {
      StatesOfMembers(nodes, u.state);
      forall i | 0 <= i < |q| ensures q[i].state != u.state {
        assert q[i] in q;
        var j :| 0 <= j < |nodes| && nodes[j] == q[i];
      }
    }

    /** Queueing a new node keeps everything else expanded, into the larger set of states. */
    lemma ExpandedGrows(q: seq<Node>, nodes: seq<Node>, x: Node, u: Node)
      requires ExpandedExcept(q, nodes, x)
      ensures ExpandedExcept(q + [u], nodes + [u], x)
    {
      StatesOfAppend(nodes, u);
      forall n | n in nodes + [u] && n !in q + [u] && n != x
        ensures ExpandedInto(n, StatesOf(nodes + [u]))
      {
        assert ExpandedInto(n, StatesOf(nodes));
      }
    }

    /**
     * Taking `q[k]` out of the frontier keeps the frontier inside the tree,
     * and every node it leaves unexpanded is `q[k]` itself.
     */
    lemma PopKeeps(q: seq<Node>, nodes: seq<Node>, k: int)
      requires FrontierIn(q, nodes) && ExpandedExcept(q, nodes, null) && 0 <= k < |q|
      ensures q[k] in nodes && q[k] !in q[..k] + q[k + 1..]
      ensures FrontierIn(q[..k] + q[k + 1..], nodes)
      ensures ExpandedExcept(q[..k] + q[k + 1..], nodes, q[k])
    {
      RemoveAtIndex(q, k);
    }

    /** One step of the walk back: putting `node` in front extends the path to its parent. */
    lemma {:induction false} PathExtends(node: Node, rotations: seq<Node>, nodes: seq<Node>)
      requires LinkedIn(node, nodes) && node in nodes
      requires rotations == [] ==> node.state == goal
      requires rotations != [] ==> PathFrom(node, rotations, nodes)
      ensures PathFrom(node.parent, [node] + rotations, nodes)
    {
      var ps := [node] + rotations;
      assert MovesOf(ps) == [node.rotation] + MovesOf(rotations);
      assert MovesOf(ps)[1..] == MovesOf(rotations);
      assert Replay(rotate, node.parent.state, MovesOf(ps)) == Replay(rotate, node.state, MovesOf(rotations));
    }

    /**
     * The walk back of `solve` from the goal node `x`: follows parent links up
     * to the root, putting each node passed in front of the result.
     */
    method TraceBack(x: Node, ghost init: Grid) returns (rotations: seq<Node>)
      requires IsTree(visitedNodes, init) && x in visitedNodes && x.state == goal
      ensures rotations == [] <==> x == visitedNodes[0]
      ensures rotations != [] ==> PathFrom(visitedNodes[0], rotations, visitedNodes)
    {
      rotations := [];
      var node := x;
      var parent := node.parent;
      while parent != null
        invariant node in visitedNodes && parent == node.parent
        invariant rotations == [] ==> node == x
        invariant rotations != [] ==> PathFrom(node, rotations, visitedNodes)
        decreases node.g
      {
        ParentOf(visitedNodes, init, node);
        PathExtends(node, rotations, visitedNodes);
        rotations := [node] + rotations;
        node := parent;
        parent := node.parent;
      }
      ParentOf(visitedNodes, init, node);
    }

    /**
     * One pass of the loop over the successors in `solve`: a successor `u`
     * of `x` whose state is new is queued and recorded as generated; one
     * already seen is offered `x` as a cheaper parent, which leaves it as it
     * was, since `u` was built with `x` as its parent.
     */
    method Visit(u: Node, x: Node, ghost init: Grid)
      requires IsTree(visitedNodes, init) && FrontierIn(Q, visitedNodes)
      requires x in visitedNodes && x !in Q && u != x
      requires ExpandedExcept(Q, visitedNodes, x)
      requires u.parent == x && u.g == x.g + 1 && u.Valid()
      requires u.rotation in AllMoves && u.state == rotate(x.state, u.rotation) && ValidState(u.state)
      modifies this`Q, this`visitedNodes, u
      ensures unchanged(u)
      ensures IsTree(visitedNodes, init) && FrontierIn(Q, visitedNodes)
      ensures x in visitedNodes && x !in Q
      ensures ExpandedExcept(Q, visitedNodes, x)
      ensures u.state in StatesOf(visitedNodes)
      ensures StatesOf(old(visitedNodes)) <= StatesOf(visitedNodes)
      ensures visitedNodes == old(visitedNodes) + Unseen(u, StatesOf(old(visitedNodes)))
      ensures Q == old(Q) + Unseen(u, StatesOf(old(visitedNodes)))
    {
      var seen := IsVisited(u);
      StatesOfMembers(visitedNodes, u.state);
      if !seen {
        ParentOf(visitedNodes, init, x);
        TreeGrows(visitedNodes, init, u);
        ExpandedGrows(Q, visitedNodes, x, u);
        FrontierGrows(Q, visitedNodes, u);
        StatesOfAppend(visitedNodes, u);
        Q := Q + [u];
        visitedNodes := visitedNodes + [u];
      } else {
        RelaxingThroughOwnParentIsNoOp(u, x);
        u.UpdateParent(x);
      }
    }

    /** Once the state of every successor is in `seen`, `x` has been expanded into `seen`. */
    lemma AllSuccessorsSeen(U: seq<Node>, x: Node, seen: set<Grid>)
      requires MovesOf(U) == AllMoves && x.state != goal
      requires forall t :: 0 <= t < |U| ==> U[t].state == rotate(x.state, U[t].rotation)
      requires StatesOf(U) <= seen
      ensures ExpandedInto(x, seen)
    {
      forall m | m in AllMoves ensures rotate(x.state, m) in seen {
        var t :| 0 <= t < |U| && MovesOf(U)[t] == m;
        assert U[t] in U;
      }
    }

    /**
     * The expansion step of `solve`: generates the successors `U` of `x` from
     * the current `cube` and visits each in turn, which queues and records
     * those with unseen states, in move order; after it `x` is expanded.
     */
    method Expand(x: Node, ghost init: Grid) returns (U: seq<Node>)
      requires IsTree(visitedNodes, init) && FrontierIn(Q, visitedNodes)
      requires x in visitedNodes && x !in Q && x.state != goal && cube == x.state
      requires ExpandedExcept(Q, visitedNodes, x)
      requires SuccessorsValid(rotate, x.state) && divisor != 0
      modifies this`Q, this`visitedNodes
      ensures SuccessorsOf(U, x)
      ensures visitedNodes == old(visitedNodes) + NewSuccessors(U, StatesOf(old(visitedNodes)))
      ensures Q == old(Q) + NewSuccessors(U, StatesOf(old(visitedNodes)))
      ensures IsTree(visitedNodes, init) && FrontierIn(Q, visitedNodes)
      ensures ExpandedExcept(Q, visitedNodes, null)
    {
      U := GetNextStates(x);
      assert forall t :: 0 <= t < |U| ==> U[t] != x && U[t].rotation in AllMoves && ChildOf(U[t], x, x.state) by {
        forall t | 0 <= t < |U| ensures U[t].rotation in AllMoves {
          assert MovesOf(U)[t] == U[t].rotation;
        }
      }
      VisitSuccessors(U, x, init);
      AllSuccessorsSeen(U, x, StatesOf(visitedNodes));
      ExpandedAll(Q, visitedNodes, x);
    }

    /** Once `x` itself is expanded, every generated node outside the frontier is. */
    lemma ExpandedAll(q: seq<Node>, nodes: seq<Node>, x: Node)
      requires ExpandedExcept(q, nodes, x) && ExpandedInto(x, StatesOf(nodes))
      ensures ExpandedExcept(q, nodes, null)
    {
    }

    /**
     * The loop over the successors in `solve`: visits each node of `U` in
     * turn, so that those with unseen states are appended to `Q` and
     * `visited_nodes` in order, and the state of every one is recorded.
     */
    method VisitSuccessors(U: seq<Node>, x: Node, ghost init: Grid)
      requires IsTree(visitedNodes, init) && FrontierIn(Q, visitedNodes)
      requires x in visitedNodes && x !in Q
      requires ExpandedExcept(Q, visitedNodes, x)
      requires forall t :: 0 <= t < |U| ==> U[t] != x && U[t].rotation in AllMoves && ChildOf(U[t], x, x.state)
      modifies this`Q, this`visitedNodes, U
      ensures unchanged(U)
      ensures visitedNodes == old(visitedNodes) + NewSuccessors(U, StatesOf(old(visitedNodes)))
      ensures Q == old(Q) + NewSuccessors(U, StatesOf(old(visitedNodes)))
      ensures IsTree(visitedNodes, init) && FrontierIn(Q, visitedNodes)
      ensures ExpandedExcept(Q, visitedNodes, x)
      ensures StatesOf(U) <= StatesOf(visitedNodes)
    {
      ghost var visitedBefore, queueBefore := visitedNodes, Q;
      ghost var seen := StatesOf(visitedNodes);
      for k := 0 to |U|
        invariant unchanged(U)
        invariant IsTree(visitedNodes, init) && FrontierIn(Q, visitedNodes)
        invariant x in visitedNodes && x !in Q
        invariant ExpandedExcept(Q, visitedNodes, x)
        invariant forall t :: k <= t < |U| ==> U[t] != x && U[t].rotation in AllMoves && ChildOf(U[t], x, x.state)
        invariant visitedNodes == visitedBefore + NewSuccessors(U[..k], seen)
        invariant Q == queueBefore + NewSuccessors(U[..k], seen)
      {
        ghost var added := NewSuccessors(U[..k], seen);
        StatesOfConcat(visitedBefore, added);
        NewSuccessorsStep(U, k, seen);
        Visit(U[k], x, init);
        ConcatAssoc(visitedBefore, added, Unseen(U[k], seen + StatesOf(added)));
        ConcatAssoc(queueBefore, added, Unseen(U[k], seen + StatesOf(added)));
      }
      assert U[..|U|] == U;
      NewSuccessorsAreNew(U, seen);
      StatesOfConcat(visitedBefore, NewSuccessors(U, seen));
    }

    /**
     * The first statement of the main loop of `solve`: `get_best_node` on a
     * non-empty frontier takes out its first node with the smallest `f`, which
     * leaves that node the only generated one not yet expanded.
     */
    method PopBest() returns (x: Node)
      requires FrontierIn(Q, visitedNodes) && ExpandedExcept(Q, visitedNodes, null) && Q != []
      modifies this`Q
      ensures exists k :: IsFirstMinimal(old(Q), k) && x == old(Q)[k] && Q == old(Q)[..k] + old(Q)[k + 1..]
      ensures x in old(Q) && x in visitedNodes && x !in Q
      ensures FrontierIn(Q, visitedNodes) && ExpandedExcept(Q, visitedNodes, x)
    {
      ghost var queueBefore := Q;
      var best := GetBestNode();
      ghost var k :| IsFirstMinimal(queueBefore, k) && best == queueBefore[k];
      RemoveFirstDistinct(queueBefore, k);
      PopKeeps(queueBefore, visitedNodes, k);
      x := best;
    }

    /**
     * One pass of the main loop of `solve`: pops the first node `x` of least
     * `f` and moves `cube` to its state; at the goal the walk back gives the
     * answer, otherwise `x` is expanded, which appends its successors `succ`
     * with unseen states, in move order, to `Q` and `visited_nodes`. Either
     * the set of generated states grows or, with it unchanged, the frontier
     * shrinks.
     */
    method SearchStep(ghost init: Grid) returns (ended: bool, rotations: seq<Node>, ghost x: Node, ghost succ: seq<Node>)
      requires IsTree(visitedNodes, init) && FrontierIn(Q, visitedNodes)
      requires ExpandedExcept(Q, visitedNodes, null) && Q != []
      requires KeepsValid(rotate) && divisor != 0
      modifies this`Q, this`visitedNodes, this`cube
      ensures cube == x.state && (ended <==> x.state == goal)
      ensures ended ==> succ == []
      ensures !ended ==> SuccessorsOf(succ, x)
      ensures exists k :: IsFirstMinimal(old(Q), k) && x == old(Q)[k] &&
                Q == old(Q)[..k] + old(Q)[k + 1..] + NewSuccessors(succ, StatesOf(old(visitedNodes)))
      ensures visitedNodes == old(visitedNodes) + NewSuccessors(succ, StatesOf(old(visitedNodes)))
      ensures IsTree(visitedNodes, init) && FrontierIn(Q, visitedNodes)
      ensures !ended ==> rotations == [] && ExpandedExcept(Q, visitedNodes, null)
      ensures ended && rotations == [] ==> init == goal
      ensures rotations != [] ==> ended && PathFrom(visitedNodes[0], rotations, visitedNodes)
      ensures init == goal && |old(visitedNodes)| == 1 && old(Q) == old(visitedNodes) ==> ended && rotations == []
      ensures AllStates - StatesOf(visitedNodes) < AllStates - StatesOf(old(visitedNodes)) ||
              (visitedNodes == old(visitedNodes) && |Q| < |old(Q)|)
    {
      ghost var queueBefore := Q;
      var best := PopBest();
      ghost var k :| IsFirstMinimal(queueBefore, k) && best == queueBefore[k] && Q == queueBefore[..k] + queueBefore[k + 1..];
      x := best;
      cube := best.state;
      ended, rotations, succ := Advance(best, init);
    }

    /**
     * The rest of a pass of the main loop once `x` is popped and `cube` is its
     * state: at the goal, the walk back from `x`; otherwise the expansion of
     * `x`, which appends its successors `succ` with unseen states.
     */
    method Advance(x: Node, ghost init: Grid) returns (ended: bool, rotations: seq<Node>, ghost succ: seq<Node>)
      requires IsTree(visitedNodes, init) && FrontierIn(Q, visitedNodes)
      requires x in visitedNodes && x !in Q && ExpandedExcept(Q, visitedNodes, x) && cube == x.state
      requires KeepsValid(rotate) && divisor != 0
      modifies this`Q, this`visitedNodes
      ensures ended <==> x.state == goal
      ensures ended ==> succ == []
      ensures !ended ==> SuccessorsOf(succ, x)
      ensures visitedNodes == old(visitedNodes) + NewSuccessors(succ, StatesOf(old(visitedNodes)))
      ensures Q == old(Q) + NewSuccessors(succ, StatesOf(old(visitedNodes)))
      ensures IsTree(visitedNodes, init) && FrontierIn(Q, visitedNodes)
      ensures !ended ==> rotations == [] && ExpandedExcept(Q, visitedNodes, null)
      ensures ended && rotations == [] ==> init == goal
      ensures ended && x == visitedNodes[0] ==> rotations == []
      ensures rotations != [] ==> ended && PathFrom(visitedNodes[0], rotations, visitedNodes)
      ensures AllStates - StatesOf(visitedNodes) < AllStates - StatesOf(old(visitedNodes)) ||
              visitedNodes == old(visitedNodes)
    {
      ghost var visitedBefore := visitedNodes;
      rotations := [];
      succ := [];
      if x.state == goal {
        ended := true;
        rotations := TraceBack(x, init);
      } else {
        ended := false;
        ParentOf(visitedNodes, init, x);
        ValidSuccessors(rotate, x.state);
        succ := Expand(x, init);
        if |visitedBefore| < |visitedNodes| {
          GrowthShrinksUnseen(visitedBefore, visitedNodes);
        }
      }
    }

    /**
     * When the frontier runs out, the generated states are closed under the
     * 18 moves and do not contain the goal, so no list of moves leads from
     * the start to the goal.
     */
    lemma ExhaustedMeansUnreachable(nodes: seq<Node>, init: Grid)
      requires IsTree(nodes, init) && ExpandedExcept([], nodes, null)
      ensures Unreachable(rotate, init, goal)
    {
      var seen := StatesOf(nodes);
      assert Closed(rotate, seen) by {
        forall s, m | s in seen && m in AllMoves ensures rotate(s, m) in seen {
          StatesOfMembers(nodes, s);
          var i :| 0 <= i < |nodes| && nodes[i].state == s;
          assert ExpandedInto(nodes[i], seen);
        }
      }
      StatesOfMembers(nodes, init);
      assert init in seen;
      assert goal !in seen by {
        forall i | 0 <= i < |nodes| ensures nodes[i].state != goal {
          assert ExpandedInto(nodes[i], seen);
        }
        StatesOfMembers(nodes, goal);
      }
      forall ms | AreMoves(ms)
        ensures Replay(rotate, init, ms) != goal
      {
        ReplayStaysInClosedSet(rotate, seen, init, ms);
      }
    }

    /**
     * `solve()`: A* from the current `cube` until a node at the goal is popped
     * or the frontier runs out. The result lists the nodes from the root's
     * child to the goal node; it is empty both when the start is the goal and
     * when the goal cannot be reached.
     */
    method Solve() returns (rotations: seq<Node>)
      requires Q == [] && visitedNodes == []
      requires ValidState(cube) && KeepsValid(rotate) && divisor != 0
      modifies this
      ensures IsTree(visitedNodes, old(cube))
      ensures rotations != [] ==>
                PathFrom(visitedNodes[0], rotations, visitedNodes) &&
                Replay(rotate, old(cube), MovesOf(rotations)) == goal
      ensures old(cube) == goal ==> rotations == [] && |visitedNodes| == 1
      ensures rotations == [] && old(cube) != goal ==> Q == [] && Unreachable(rotate, old(cube), goal)
    {
      ghost var init := cube;
      rotations := [];
      var h := Heuristic(cube, divisor);
      var initialNode := new Node(cube, false, null, 0, h, Move(X, 0, 0));
      visitedNodes := visitedNodes + [initialNode];
      Q := Q + [initialNode];
      var ended := false;
      while !ended && |Q| > 0
        invariant IsTree(visitedNodes, init) && FrontierIn(Q, visitedNodes)
        invariant !ended ==> rotations == [] && ExpandedExcept(Q, visitedNodes, null)
        invariant ended && rotations == [] ==> init == goal
        invariant rotations != [] ==> ended && PathFrom(visitedNodes[0], rotations, visitedNodes)
        invariant init == goal ==> |visitedNodes| == 1 && rotations == [] && (!ended ==> Q == visitedNodes)
        decreases AllStates - StatesOf(visitedNodes), |Q|
      {
        ghost var x: Node, succ: seq<Node>;
        ended, rotations, x, succ := SearchStep(init);
      }
      if rotations == [] && init != goal {
        ExhaustedMeansUnreachable(visitedNodes, init);
      }
    }
  }
}
