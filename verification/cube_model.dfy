/**
 * The cube as the search sees it: states, the 18 moves `get_next_states`
 * tries, and replaying a list of moves. The move itself (`rotate_90` of the
 * cube simulator, whose code is not part of this model) is a parameter
 * `rotate` of the solver; no law about it is assumed except, where stated,
 * that it maps valid states to valid states.
 */
module CubeModel {
  import opened CubeTables

  datatype Axis = X | Y | Z

  /** A call `rotate_90(axis, layer, sense)`: sense -1 and 1 turn a quarter, 2 a half. */
  datatype Move = Move(axis: Axis, layer: int, sense: int)

  /** The simulator's move function, taken as given. */
  type Rotation = (Grid, Move) -> Grid

  const Axes: seq<Axis> := [X, Y, Z]
  const Layers: seq<int> := [0, 2]
  const Senses: seq<int> := [-1, 1, 2]

  /** The 18 moves in the order of the three nested loops of `get_next_states`. */
  const AllMoves: seq<Move> :=
    [Move(X, 0, -1), Move(X, 0, 1), Move(X, 0, 2), Move(X, 2, -1), Move(X, 2, 1), Move(X, 2, 2),
     Move(Y, 0, -1), Move(Y, 0, 1), Move(Y, 0, 2), Move(Y, 2, -1), Move(Y, 2, 1), Move(Y, 2, 2),
     Move(Z, 0, -1), Move(Z, 0, 1), Move(Z, 0, 2), Move(Z, 2, -1), Move(Z, 2, 1), Move(Z, 2, 2)]

  /** The move placed at (axis index `a`, layer index `l`, sense index `s`) of the loops. */
  lemma MoveOrder(a: int, l: int, s: int)
    requires 0 <= a < 3 && 0 <= l < 2 && 0 <= s < 3
    ensures 6 * a + 3 * l + s < 18
    ensures AllMoves[6 * a + 3 * l + s] == Move(Axes[a], Layers[l], Senses[s])
  {
  }

  /** Every facelet on face `f` has colour `f`: the state `final_node` is compared against. */
  predicate IsSolved(s: Grid)
  {
    Shaped(s) &&
    forall f, r, col :: 0 <= f < 6 && 0 <= r < 3 && 0 <= col < 3 ==> s[f][r][col] == f
  }

  /** A 6 x 3 x 3 state whose colours are the six face colours 0..5. */
  predicate ValidState(s: Grid)
  {
    Shaped(s) &&
    forall f, r, col :: 0 <= f < 6 && 0 <= r < 3 && 0 <= col < 3 ==> 0 <= s[f][r][col] < 6
  }

  /** `rotate` keeps states valid: the only law about it the termination proof uses. */
  ghost predicate KeepsValid(rotate: Rotation)
  {
    forall s, m :: ValidState(s) ==> ValidState(rotate(s, m))
  }

  /** The 18 successors of `s` are valid states. */
  ghost predicate SuccessorsValid(rotate: Rotation, s: Grid)
  {
    forall m :: m in AllMoves ==> ValidState(rotate(s, m))
  }

  /** A move function that keeps states valid gives valid successors. */
  lemma ValidSuccessors(rotate: Rotation, s: Grid)
    requires KeepsValid(rotate) && ValidState(s)
    ensures SuccessorsValid(rotate, s)
  {
  }

  /** The state reached from `s` by applying the moves `ms` in order. */
  function Replay(rotate: Rotation, s: Grid, ms: seq<Move>): Grid
    decreases |ms|
  {
    if ms == [] then s else Replay(rotate, rotate(s, ms[0]), ms[1..])
  }

  /** Every move of `ms` is one of the 18. */
  predicate AreMoves(ms: seq<Move>)
  {
    forall i :: 0 <= i < |ms| ==> ms[i] in AllMoves
  }

  /** No list of the 18 moves leads from `s` to `target`. */
  ghost predicate Unreachable(rotate: Rotation, s: Grid, target: Grid)
  {
    forall ms :: AreMoves(ms) ==> Replay(rotate, s, ms) != target
  }

  /** `S` contains the result of every one of the 18 moves from each of its states. */
  ghost predicate Closed(rotate: Rotation, S: set<Grid>)
  {
    forall s, m :: s in S && m in AllMoves ==> rotate(s, m) in S
  }

  /** Replaying moves from the 18 never leaves a set closed under them. */
  lemma {:induction false} ReplayStaysInClosedSet(rotate: Rotation, S: set<Grid>, s: Grid, ms: seq<Move>)
    requires Closed(rotate, S) && s in S
    requires AreMoves(ms)
    ensures Replay(rotate, s, ms) in S
    decreases |ms|
  {
    if ms != [] {
      ReplayStaysInClosedSet(rotate, S, rotate(s, ms[0]), ms[1..]);
    }
  }

  /** All lists of length `n` over `S`: a finite set. */
  ghost function ListsOver<T>(S: set<T>, n: nat): set<seq<T>>
  {
    if n == 0 then {[]} else set xs, x | xs in ListsOver(S, n - 1) && x in S :: xs + [x]
  }

  lemma {:induction false} ListIsListed<T>(S: set<T>, xs: seq<T>)
    requires forall i :: 0 <= i < |xs| ==> xs[i] in S
    ensures xs in ListsOver(S, |xs|)
    decreases |xs|
  {
    if xs != [] {
      var init, last := xs[..|xs| - 1], xs[|xs| - 1];
      ListIsListed(S, init);
      assert xs == init + [last];
    }
  }

  /** The finitely many states with colours 0..5. */
  ghost const ColourSet: set<int> := set c | 0 <= c < 6
  ghost const AllStates: set<Grid> := ListsOver(ListsOver(ListsOver(ColourSet, 3), 3), 6)

  /** Every valid state belongs to the finite set `AllStates`. */
  lemma ValidStatesAreFinitelyMany(s: Grid)
    requires ValidState(s)
    ensures s in AllStates
  {
    var rows := ListsOver(ColourSet, 3);
    var faces := ListsOver(rows, 3);
    forall f | 0 <= f < 6 ensures s[f] in faces {
      forall r | 0 <= r < 3 ensures s[f][r] in rows {
        ListIsListed(ColourSet, s[f][r]);
      }
      ListIsListed(rows, s[f]);
    }
    ListIsListed(faces, s);
  }
}
