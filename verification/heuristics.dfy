/**
 * The heuristic of the A* solver: per cubie, whether it sits in its place
 * (`correct_position`) and whether it is turned the right way
 * (`correct_orientation`), a cost table over those two answers
 * (`moves_for_correct_cubie`), and their sum over the 20 movable cubies
 * divided by a tuning divisor (`heuristic`).
 *
 * The functions state what each answer means; the methods follow the
 * source's accumulator loops and are proved to compute those functions.
 */
module Heuristics {
  import opened Options
  import opened CubeTables
  import opened CubeModel

  /** One entry of `list_of_pairs`: the cubie owning a facelet and the facelet's colour. */
  datatype Pair = Pair(cubie: int, colour: int)

  /** `list_of_pairs`: `cube_map` zipped with the state, in face, row, column order. */
  function Pairs(s: Grid): seq<Pair>
    requires Shaped(s)
  {
    seq(54, p requires 0 <= p < 54 => Pair(CubieAt(p), At(s, p)))
  }

  /** The cubie tags of `ps` are `cube_map` read in list order, as `Pairs` builds them. */
  predicate FollowsCubeMap(ps: seq<Pair>)
  {
    |ps| <= 54 && forall p :: 0 <= p < |ps| ==> ps[p].cubie == CubieAt(p)
  }

  /** The colours of the pairs tagged with cubie `c`, in list order. */
  function Tagged(ps: seq<Pair>, c: int): seq<int>
  {
    if ps == [] then []
    else Tagged(ps[..|ps| - 1], c) + (if ps[|ps| - 1].cubie == c then [ps[|ps| - 1].colour] else [])
  }

  /**
   * The cubie is in its place: every facelet tagged with `c` shows one of the
   * colours `dict_cubies[c]`. Ids outside 0..19 always count as placed.
   */
  predicate Positioned(ps: seq<Pair>, c: int)
  {
    0 <= c < 20 ==>
      forall p :: 0 <= p < |ps| && ps[p].cubie == c ==> ps[p].colour in CubieColours[c]
  }

  /**
   * The cubie is turned the right way: for some k, the k-th facelet tagged
   * with `c`, in list order, shows colour `dict_cubies[c][k]`.
   */
  predicate Oriented(ps: seq<Pair>, c: int)
  {
    0 <= c < 20 &&
    exists k :: 0 <= k < |Tagged(ps, c)| && k < |CubieColours[c]| && Tagged(ps, c)[k] == CubieColours[c][k]
  }

  /** The cost table of `moves_for_correct_cubie` for corners (0..7) and edges (8..19). */
  function Cost(c: int, positioned: bool, oriented: bool): (moves: nat)
    requires 0 <= c < 20
    ensures IsCorner(c) ==> moves <= 2
    ensures moves <= 3
    ensures moves == 0 <==> positioned && oriented
  {
    if IsCorner(c) then
      (if oriented then (if positioned then 0 else 1) else 2)
    else if positioned then
      (if oriented then 0 else 3)
    else
      (if oriented then 1 else 2)
  }

  /** The cost of cubie `c` in `ps`. */
  function CubieCost(ps: seq<Pair>, c: int): nat
    requires 0 <= c < 20
  {
    Cost(c, Positioned(ps, c), Oriented(ps, c))
  }

  /** The summed cost of the cubies 0 .. n-1. */
  function CostSum(ps: seq<Pair>, n: int): nat
    requires 0 <= n <= 20
  {
    if n == 0 then 0 else CostSum(ps, n - 1) + CubieCost(ps, n - 1)
  }

  /** The value of `heuristic(state, divisor)`, in exact arithmetic. */
  function HeuristicOf(s: Grid, divisor: int): real
    requires Shaped(s) && divisor != 0
  {
    CostSum(Pairs(s), 20) as real / divisor as real
  }

  // ---------------------------------------------------------------------
  // Tagged facelets and the tables

  /** Taking one more pair extends the tagged colours by that pair's colour, if tagged. */
  lemma TaggedStep(ps: seq<Pair>, j: int, c: int)
    requires 0 <= j < |ps|
    ensures Tagged(ps[..j + 1], c) ==
            Tagged(ps[..j], c) + (if ps[j].cubie == c then [ps[j].colour] else [])
  {
    assert ps[..j + 1][..j] == ps[..j];
  }

  /**
   * When the positions tagged with `c` are exactly the entries of the
   * ascending list `h` below `|ps|`, the tagged colours are the colours at
   * those positions, in order.
   */
  lemma {:induction false} TaggedAt(ps: seq<Pair>, c: int, h: seq<int>)
    requires Ascending(h) && forall k :: 0 <= k < |h| ==> h[k] >= 0
    requires forall p :: 0 <= p < |ps| ==> (p in h <==> ps[p].cubie == c)
    ensures |Tagged(ps, c)| == Below(h, |ps|)
    ensures forall k :: 0 <= k < |Tagged(ps, c)| ==> h[k] < |ps| && Tagged(ps, c)[k] == ps[h[k]].colour
    decreases |ps|
  {
    if ps != [] {
      var n := |ps| - 1;
      TaggedAt(ps[..n], c, h);
      BelowStep(h, n);
    }
  }

  /**
   * In a list that follows `cube_map`, the facelets tagged with `c` are the
   * `Homes[c]` entries that the list reaches, in order.
   */
  lemma TaggedAtHomes(ps: seq<Pair>, c: int)
    requires FollowsCubeMap(ps) && 0 <= c < 26
    ensures |Tagged(ps, c)| == Below(Homes[c], |ps|)
    ensures forall k :: 0 <= k < |Tagged(ps, c)| ==>
              Homes[c][k] < |ps| && Tagged(ps, c)[k] == ps[Homes[c][k]].colour
  {
    HomesCounts();
    HomesAreOwned();
    forall p | 0 <= p < |ps| ensures p in Homes[c] <==> ps[p].cubie == c {
      HomeOf(p, c);
    }
    TaggedAt(ps, c, Homes[c]);
  }

  /** `cube_map` tags every cubie's facelets in a full state 3, 2 or 1 times. */
  lemma TaggedCounts(s: Grid, c: int)
    requires Shaped(s) && 0 <= c < 26
    ensures IsCorner(c) ==> |Tagged(Pairs(s), c)| == 3
    ensures IsEdge(c) ==> |Tagged(Pairs(s), c)| == 2
    ensures IsCentre(c) ==> |Tagged(Pairs(s), c)| == 1
  {
    TaggedAtHomes(Pairs(s), c);
    HomesAreOwned();
    HomesCounts();
    BelowAll(Homes[c], 54);
  }

  /**
   * The walking index of `correct_orientation` stays inside `dict_cubies[c]`:
   * before a facelet tagged `c`, fewer facelets tagged `c` have been seen
   * than `c` has colours.
   */
  lemma OrientationIndexInRange(ps: seq<Pair>, j: int, c: int)
    requires FollowsCubeMap(ps) && 0 <= j < |ps| && 0 <= c < 20 && ps[j].cubie == c
    ensures |Tagged(ps[..j], c)| < |CubieColours[c]|
  {
    TaggedAtHomes(ps[..j], c);
    FaceletsAreHomes();
    HomesCounts();
    BelowStep(Homes[c], j);
    ColoursAreHomeFaces();
  }

  /** The tagged colours of a prefix are a prefix of the tagged colours. */
  lemma TaggedPrefix(ps: seq<Pair>, j: int, c: int)
    requires FollowsCubeMap(ps) && 0 <= j <= |ps| && 0 <= c < 26
    ensures |Tagged(ps[..j], c)| <= |Tagged(ps, c)|
    ensures forall k :: 0 <= k < |Tagged(ps[..j], c)| ==> Tagged(ps[..j], c)[k] == Tagged(ps, c)[k]
  {
    TaggedAtHomes(ps[..j], c);
    TaggedAtHomes(ps, c);
    HomesCounts();
    BelowMonotone(Homes[c], j, |ps|);
  }

  lemma {:induction false} BelowMonotone(h: seq<int>, m: int, n: int)
    requires m <= n
    ensures Below(h, m) <= Below(h, n)
  {
    if h != [] && h[0] < m {
      BelowMonotone(h[1..], m, n);
    }
  }

  /** No entry of `t` matches the entry of `colours` at the same index. */
  predicate Mismatched(t: seq<int>, colours: seq<int>)
  {
    |t| <= |colours| && forall k :: 0 <= k < |t| ==> t[k] != colours[k]
  }

  lemma MismatchedAppend(t: seq<int>, colours: seq<int>, x: int)
    requires Mismatched(t, colours) && |t| < |colours| && x != colours[|t|]
    ensures Mismatched(t + [x], colours)
  {
  }

  // ---------------------------------------------------------------------
  // The source's procedures

  /** `correct_position(list_of_pairs, cubie)`. */
  method CorrectPosition(ps: seq<Pair>, c: int) returns (placed: bool)
    ensures placed == Positioned(ps, c)
  {
    placed := true;
    if 0 <= c < 20 {
      for j := 0 to |ps|
        invariant placed <==>
          forall p :: 0 <= p < j && ps[p].cubie == c ==> ps[p].colour in CubieColours[c]
      {
        if ps[j].cubie == c {
          if ps[j].colour !in CubieColours[c] {
            placed := false;
          }
        }
      }
    }
  }

  /**
   * `correct_orientation(list_of_pairs, cubie)`: `None` for ids outside
   * 0..19, where the source falls off the end of the function.
   */
  method CorrectOrientation(ps: seq<Pair>, c: int) returns (oriented: Option<bool>)
    requires FollowsCubeMap(ps)
    ensures oriented == if 0 <= c < 20 then Some(Oriented(ps, c)) else None
  {
    if !(0 <= c < 20) {
      return None;
    }
    var i := 0;
    for j := 0 to |ps|
      invariant i == |Tagged(ps[..j], c)|
      invariant Mismatched(Tagged(ps[..j], c), CubieColours[c])
    {
      TaggedStep(ps, j, c);
      if ps[j].cubie == c {
        OrientationIndexInRange(ps, j, c);
        if ps[j].colour == CubieColours[c][i] {
          TaggedPrefix(ps, j + 1, c);
          assert Tagged(ps, c)[i] == CubieColours[c][i];
          return Some(true);
        }
        MismatchedAppend(Tagged(ps[..j], c), CubieColours[c], ps[j].colour);
        i := i + 1;
      }
    }
    assert ps[..|ps|] == ps;
    return Some(false);
  }

  /** `moves_for_correct_cubie(list_of_pairs, cubie)`: `None` for ids outside 0..19. */
  method MovesForCorrectCubie(ps: seq<Pair>, c: int) returns (moves: Option<int>)
    requires FollowsCubeMap(ps)
    ensures moves == if 0 <= c < 20 then Some(CubieCost(ps, c)) else None
  {
    var placed := CorrectPosition(ps, c);
    var oriented := CorrectOrientation(ps, c);
    if 0 <= c < 8 {
      if oriented == Some(true) {
        if placed {
          return Some(0);
        } else {
          return Some(1);
        }
      } else {
        return Some(2);
      }
    }
    if 8 <= c < 20 {
      if placed {
        if oriented == Some(true) {
          return Some(0);
        } else {
          return Some(3);
        }
      } else {
        if oriented == Some(true) {
          return Some(1);
        } else {
          return Some(2);
        }
      }
    }
    return None;
  }

  /** `heuristic(state, divisor)`, with exact division in place of floating point. */
  method Heuristic(s: Grid, divisor: int) returns (h: real)
    requires Shaped(s) && divisor != 0
    ensures h == HeuristicOf(s, divisor)
  {
    var sumMoves := 0;
    var ps := Pairs(s);
    for i := 0 to 20
      invariant sumMoves == CostSum(ps, i)
    {
      var moves := MovesForCorrectCubie(ps, i);
      sumMoves := sumMoves + moves.value;
    }
    h := sumMoves as real / divisor as real;
  }

  // ---------------------------------------------------------------------
  // Properties of the heuristic

  /** Corners cost at most 2 and edges at most 3, so the first `n` cubies cost at most this. */
  lemma {:induction false} CostSumBounds(ps: seq<Pair>, n: int)
    requires 0 <= n <= 20
    ensures CostSum(ps, n) <= 2 * n + (if n > 8 then n - 8 else 0)
  {
    if n > 0 {
      CostSumBounds(ps, n - 1);
    }
  }

  /** The summed cost is zero exactly when each of those cubies is placed and turned right. */
  lemma {:induction false} CostSumZero(ps: seq<Pair>, n: int)
    requires 0 <= n <= 20
    ensures CostSum(ps, n) == 0 <==> forall c :: 0 <= c < n ==> Positioned(ps, c) && Oriented(ps, c)
  {
    if n > 0 {
      CostSumZero(ps, n - 1);
    }
  }

  /** With a positive divisor the heuristic lies between 0 and 52 / divisor. */
  lemma HeuristicBounds(s: Grid, divisor: int)
    requires Shaped(s) && divisor > 0
    ensures 0.0 <= HeuristicOf(s, divisor) <= 52.0 / divisor as real
  {
    CostSumBounds(Pairs(s), 20);
    DivideMonotone(CostSum(Pairs(s), 20) as real, 52.0, divisor as real);
  }

  lemma DivideMonotone(x: real, y: real, d: real)
    requires 0.0 <= x <= y && d > 0.0
    ensures 0.0 <= x / d <= y / d
  {
    var qx, qy := x / d, y / d;
    assert qx * d == x && qy * d == y;
    assert (qy - qx) * d == y - x;
  }

  /** The heuristic is zero exactly when all 20 cubies are placed and turned right. */
  lemma HeuristicZero(s: Grid, divisor: int)
    requires Shaped(s) && divisor != 0
    ensures HeuristicOf(s, divisor) == 0.0 <==>
            forall c :: 0 <= c < 20 ==> Positioned(Pairs(s), c) && Oriented(Pairs(s), c)
  {
    CostSumZero(Pairs(s), 20);
    var total := CostSum(Pairs(s), 20) as real;
    var d := divisor as real;
    assert total / d == 0.0 <==> total == 0.0 by {
      assert total / d * d == total;
    }
  }

  /** In the solved state every cubie is placed and turned right. */
  lemma SolvedCubiesAreCorrect(s: Grid, c: int)
    requires IsSolved(s) && 0 <= c < 20
    ensures Positioned(Pairs(s), c) && Oriented(Pairs(s), c)
  {
    var ps := Pairs(s);
    HomesAreOwned();
    FaceletsAreHomes();
    ColoursAreHomeFaces();
    HomesCounts();
    forall p | 0 <= p < 54 ensures At(s, p) == FaceOf(p) {
      var f, r, col := p / 9, p % 9 / 3, p % 3;
      assert 0 <= f < 6 && 0 <= r < 3 && 0 <= col < 3;
    }
    forall p | 0 <= p < |ps| && ps[p].cubie == c
      ensures ps[p].colour in CubieColours[c]
    {
      var k :| 0 <= k < |Homes[c]| && Homes[c][k] == p;
      assert ps[p].colour == FaceOf(p) == CubieColours[c][k];
    }
    TaggedAtHomes(ps, c);
    BelowAll(Homes[c], 54);
    assert Tagged(ps, c)[0] == CubieColours[c][0];
  }

  /** The solved state, where every facelet on face k has colour k, scores zero. */
  lemma SolvedScoresZero(s: Grid, divisor: int)
    requires IsSolved(s) && divisor != 0
    ensures HeuristicOf(s, divisor) == 0.0
  {
    forall c | 0 <= c < 20 ensures Positioned(Pairs(s), c) && Oriented(Pairs(s), c) {
      SolvedCubiesAreCorrect(s, c);
    }
    HeuristicZero(s, divisor);
  }
}
