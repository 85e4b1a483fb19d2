/** Two-dimensional grids and their row-major vectors: cell (p, q) is at index `p * paths + q`. */
module Grids {
  function Index(planes: nat, paths: nat, plane: nat, path: nat): (i: nat)
    requires plane < planes && path < paths
    ensures i < planes * paths
  {
    IndexBound(planes, paths, plane, path);
    plane * paths + path
  }

  lemma {:induction false} IndexBound(planes: nat, paths: nat, plane: nat, path: nat)
    requires plane < planes && path < paths
    ensures plane * paths + path < planes * paths
  {
    assert (plane + 1) * paths <= planes * paths;
  }

  /** Folds a row-major vector into rows of `paths` columns. */
  function Grid<T>(flat: seq<T>, planes: nat, paths: nat): (g: seq<seq<T>>)
    requires |flat| == planes * paths
    ensures |g| == planes
    ensures forall p :: 0 <= p < planes ==> |g[p]| == paths
    ensures forall p, q :: 0 <= p < planes && 0 <= q < paths ==>
      g[p][q] == flat[Index(planes, paths, p, q)]
  {
    seq(planes, p requires 0 <= p < planes =>
      seq(paths, q requires 0 <= q < paths => flat[Index(planes, paths, p, q)]))
  }

  function Flatten<T>(g: seq<seq<T>>): seq<T> {
    if g == [] then [] else Flatten(g[..|g| - 1]) + g[|g| - 1]
  }

  ghost predicate Rectangular<T>(g: seq<seq<T>>, paths: nat) {
    forall p :: 0 <= p < |g| ==> |g[p]| == paths
  }

  /** Cell (p, q) of a rectangular grid is element `p * paths + q` of its row-major vector. */
  lemma {:induction false} FlattenAt<T>(g: seq<seq<T>>, paths: nat, p: nat, q: nat)
    requires Rectangular(g, paths) && p < |g| && q < paths
    ensures |Flatten(g)| == |g| * paths
    ensures Flatten(g)[Index(|g|, paths, p, q)] == g[p][q]
  {
    FlattenLength(g, paths);
    var n := |g| - 1;
    FlattenLength(g[..n], paths);
    if p < n {
      FlattenAt(g[..n], paths, p, q);
      IndexBound(n, paths, p, q);
    }
  }

  lemma {:induction false} FlattenLength<T>(g: seq<seq<T>>, paths: nat)
    requires Rectangular(g, paths)
    ensures |Flatten(g)| == |g| * paths
  {
    if g != [] {
      FlattenLength(g[..|g| - 1], paths);
      assert (|g| - 1) * paths + paths == |g| * paths;
    }
  }

  lemma {:induction false} RowEnd(planes: nat, paths: nat, p: nat)
    requires p < planes
    ensures p * paths + paths == (p + 1) * paths <= planes * paths
  {
  }

  lemma {:induction false} GridRow<T>(flat: seq<T>, planes: nat, paths: nat, p: nat)
    requires |flat| == planes * paths && p < planes
    ensures p * paths + paths == (p + 1) * paths <= |flat|
    ensures Grid(flat, planes, paths)[p] == flat[p * paths..p * paths + paths]
  {
    RowEnd(planes, paths, p);
    var row, lo := Grid(flat, planes, paths)[p], p * paths;
    forall q | 0 <= q < paths ensures row[q] == flat[lo..lo + paths][q] {
      assert row[q] == flat[Index(planes, paths, p, q)] == flat[lo + q];
    }
  }

  lemma {:induction false} FlattenRows<T>(flat: seq<T>, planes: nat, paths: nat, g: seq<seq<T>>, p: nat)
    requires |flat| == planes * paths && p <= planes && g == Grid(flat, planes, paths)
    ensures p * paths <= |flat|
    ensures Flatten(g[..p]) == flat[..p * paths]
  {
    if p > 0 {
      FlattenRows(flat, planes, paths, g, p - 1);
      GridRow(flat, planes, paths, p - 1);
      assert g[..p][..p - 1] == g[..p - 1];
    }
  }

  /** Reading a grid row by row gives the row-major vector back. */
  lemma {:induction false} FlattenGrid<T>(flat: seq<T>, planes: nat, paths: nat)
    requires |flat| == planes * paths
    ensures Flatten(Grid(flat, planes, paths)) == flat
  {
    var g := Grid(flat, planes, paths);
    FlattenRows(flat, planes, paths, g, planes);
    assert g[..planes] == g;
  }

  lemma {:induction false} SameCell(paths: nat, p: nat, q: nat, plane: nat, path: nat)
    requires q < paths && path < paths
    ensures p * paths + q == plane * paths + path <==> p == plane && q == path
  {
    if p < plane {
      assert (p + 1) * paths <= plane * paths;
    } else if plane < p {
      assert (plane + 1) * paths <= p * paths;
    }
  }
}
