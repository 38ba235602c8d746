/**
 * The static tables of the A* solver: where each cubie's stickers sit in a
 * cube state (`cube_map`) and which colours each cubie carries when the cube
 * is solved (`dict_cubies`).
 *
 * A cube state is a 6 x 3 x 3 grid of colours, indexed by face, row and
 * column. The heuristic reads a state as one flat list of 54 facelets in
 * face, row, column order, so facelet `p` of that list lies on face `p / 9`,
 * row `p % 9 / 3`, column `p % 3`.
 */
module CubeTables {

  /** Six faces of three rows of three entries. */
  type Grid = seq<seq<seq<int>>>

  const FaceCount := 6
  const FaceletCount := 54

  /** `g` has the 6 x 3 x 3 shape of a cube state. */
  predicate Shaped(g: Grid)
  {
    |g| == 6 &&
    forall f :: 0 <= f < 6 ==> |g[f]| == 3 && forall r :: 0 <= r < 3 ==> |g[f][r]| == 3
  }

  /** The entry of a shaped grid at flat position `p` (face, row, column order). */
  function At(g: Grid, p: int): int
    requires Shaped(g) && 0 <= p < 54
  {
    g[p / 9][p % 9 / 3][p % 3]
  }

  /** The face that flat position `p` lies on. */
  function FaceOf(p: int): int
  {
    p / 9
  }

  /**
   * `cube_map`: the cubie owning each facelet. Ids 0..7 are corners, 8..19
   * edges and 20..25 centres.
   */
  const CubeMap: Grid :=
    [[[0,  8, 1], [ 9, 20, 10], [2, 11, 3]],
     [[1, 12, 4], [10, 21, 13], [3, 14, 5]],
     [[4, 15, 6], [13, 22, 16], [5, 17, 7]],
     [[6, 18, 0], [16, 23,  9], [7, 19, 2]],
     [[0, 18, 6], [ 8, 24, 15], [1, 12, 4]],
     [[3, 14, 5], [11, 25, 17], [2, 19, 7]]]

  /** `dict_cubies`: the solved colours of cubie `c`, for the keys 0..19. */
  const CubieColours: seq<seq<int>> :=
    [[0, 3, 4], [0, 1, 4], [0, 3, 5], [0, 1, 5],
     [1, 2, 4], [1, 2, 5], [2, 3, 4], [2, 3, 5],
     [0, 4], [0, 3], [0, 1], [0, 5],
     [1, 4], [1, 2], [1, 5], [2, 4],
     [2, 3], [2, 5], [3, 4], [3, 5]]

  /** The cubie id that owns flat facelet `p`. */
  function CubieAt(p: int): int
    requires 0 <= p < 54
  {
    CubeMap[p / 9][p % 9 / 3][p % 3]
  }

  predicate IsCorner(c: int) { 0 <= c < 8 }
  predicate IsEdge(c: int) { 8 <= c < 20 }
  predicate IsCentre(c: int) { 20 <= c < 26 }

  /**
   * Derived from `CubeMap`: the flat positions of cubie `c`, in list order.
   * `HomesAreOwned` and `FaceletsAreHomes` prove that these are exactly the
   * facelets `CubeMap` assigns to `c`.
   */
  const Homes: seq<seq<int>> :=
    [[0, 29, 36], [2, 9, 42], [6, 35, 51], [8, 15, 45],
     [11, 18, 44], [17, 24, 47], [20, 27, 38], [26, 33, 53],
     [1, 39], [3, 32], [5, 12], [7, 48],
     [10, 43], [14, 21], [16, 46], [19, 41],
     [23, 30], [25, 50], [28, 37], [34, 52],
     [4], [13], [22], [31], [40], [49]]

  /** Derived from `CubeMap`: the rank of each facelet among its cubie's facelets. */
  const Slots: Grid :=
    [[[0, 0, 0], [0, 0, 0], [0, 0, 0]],
     [[1, 0, 0], [1, 0, 0], [1, 0, 0]],
     [[1, 0, 0], [1, 0, 0], [1, 0, 0]],
     [[1, 0, 1], [1, 0, 1], [1, 0, 1]],
     [[2, 1, 2], [1, 0, 1], [2, 1, 2]],
     [[2, 1, 2], [1, 0, 1], [2, 1, 2]]]

  /** `h` is strictly increasing. */
  predicate Ascending(h: seq<int>)
  {
    forall i, j :: 0 <= i < j < |h| ==> h[i] < h[j]
  }

  /** How many entries of the ascending list `h` lie below `n`. */
  function Below(h: seq<int>, n: int): (k: nat)
    ensures k <= |h|
  {
    if h == [] || h[0] >= n then 0 else 1 + Below(h[1..], n)
  }

  /**
   * Moving the bound `n` up by one admits one more entry exactly when `n`
   * occurs in `h`, and that entry is the next one in order.
   */
  lemma {:induction false} BelowStep(h: seq<int>, n: int)
    requires Ascending(h)
    ensures Below(h, n + 1) == Below(h, n) + (if n in h then 1 else 0)
    ensures n in h ==> Below(h, n) < |h| && h[Below(h, n)] == n
    ensures forall k :: 0 <= k < Below(h, n) ==> h[k] < n
  {
    if h != [] {
      assert Ascending(h[1..]);
      BelowStep(h[1..], n);
      if h[0] < n {
        assert n in h ==> n in h[1..];
      } else if h[0] == n {
        assert n !in h[1..];
      } else {
        assert n !in h;
      }
    }
  }

  /** Every entry of `h` lies below `n` when they are all below `n`. */
  lemma {:induction false} BelowAll(h: seq<int>, n: int)
    requires forall k :: 0 <= k < |h| ==> h[k] < n
    ensures Below(h, n) == |h|
  {
    if h != [] {
      BelowAll(h[1..], n);
    }
  }

  /** Every `Homes` entry is a facelet that `cube_map` gives to that cubie. */
  lemma HomesAreOwned()
    ensures forall c, k :: 0 <= c < 26 && 0 <= k < |Homes[c]| ==>
              0 <= Homes[c][k] < 54 && CubieAt(Homes[c][k]) == c
  {
  }

  /** Every facelet is listed among its cubie's `Homes`. */
  lemma FaceletsAreHomes()
    ensures forall p :: 0 <= p < 54 ==> 0 <= CubieAt(p) < 26 && p in Homes[CubieAt(p)]
  {
    forall p | 0 <= p < 54
      ensures 0 <= CubieAt(p) < 26 && p in Homes[CubieAt(p)]
    {
      var f, r, col := p / 9, p % 9 / 3, p % 3;
      assert 0 <= f < 6 && 0 <= r < 3 && 0 <= col < 3 && p == 9 * f + 3 * r + col;
      SlotLocates(f, r, col);
    }
  }

  /** Facelet `p` is one of the homes of cubie `c` exactly when `cube_map` gives it to `c`. */
  lemma HomeOf(p: int, c: int)
    requires 0 <= p < 54 && 0 <= c < 26
    ensures p in Homes[c] <==> CubieAt(p) == c
  {
    HomesAreOwned();
    FaceletsAreHomes();
  }

  lemma HomesCounts()
    ensures forall c :: 0 <= c < 26 ==> Ascending(Homes[c])
    ensures forall c :: IsCorner(c) ==> |Homes[c]| == 3
    ensures forall c :: IsEdge(c) ==> |Homes[c]| == 2
    ensures forall c :: IsCentre(c) ==> |Homes[c]| == 1
  {
  }

  /** The `Slots` table names the position of each facelet in its cubie's `Homes` list. */
  lemma SlotLocates(f: int, r: int, col: int)
    requires 0 <= f < 6 && 0 <= r < 3 && 0 <= col < 3
    ensures 0 <= CubeMap[f][r][col] < 26
    ensures 0 <= Slots[f][r][col] < |Homes[CubeMap[f][r][col]]|
    ensures Homes[CubeMap[f][r][col]][Slots[f][r][col]] == 9 * f + 3 * r + col
  {
  }

  /**
   * `dict_cubies[c]` lists, in ascending order, exactly the faces on which
   * `cube_map` places cubie `c`: the k-th facelet of `c` in list order lies on
   * face `dict_cubies[c][k]`.
   */
  lemma ColoursAreHomeFaces()
    ensures forall c :: 0 <= c < 20 ==> |CubieColours[c]| == |Homes[c]|
    ensures forall c, k :: 0 <= c < 20 && 0 <= k < |Homes[c]| ==> FaceOf(Homes[c][k]) == CubieColours[c][k]
  {
  }
}
