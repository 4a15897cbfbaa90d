/**
 * Rotations of a cycle of currencies (src/utils/graph.py), and the
 * vocabulary of simple cycles over a set of directed edges that the cycle
 * enumerator works with.
 */
module Graph {

  /** A currency symbol such as "BTC": the nodes of the currency graph. */
  type Currency = string

  /** `s` repeats no element. */
  predicate Distinct<T(==)>(s: seq<T>) {
    forall i, j :: 0 <= i < j < |s| ==> s[i] != s[j]
  }

  /**
   * `c` is a simple directed cycle over `edges`: it is non-empty, visits no
   * node twice, and every node is joined to the next one, the last to the
   * first.
   */
  predicate IsSimpleCycleIn<T(==)>(c: seq<T>, edges: set<(T, T)>) {
    |c| > 0 && Distinct(c) &&
    forall i :: 0 <= i < |c| ==> Hop(c, i) in edges
  }

  /** The hop from position `i` of cycle `c` to the next position, wrapping around. */
  function Hop<T>(c: seq<T>, i: nat): (T, T)
    requires i < |c|
  {
    (c[i], c[(i + 1) % |c|])
  }

  /** The rotation of `cycle` that starts at position `i`. */
  function Rotate<T>(cycle: seq<T>, i: nat): (r: seq<T>)
    requires i <= |cycle|
    ensures |r| == |cycle|
    ensures i < |cycle| ==> r[0] == cycle[i]
  {
    cycle[i..] + cycle[..i]
  }

  /** `find_all_rotations`: every rotation of `cycle`, rotation i starting at `cycle[i]`. */
  function FindAllRotations<T>(cycle: seq<T>): (r: seq<seq<T>>)
    ensures |r| == |cycle|
    ensures forall i :: 0 <= i < |r| ==> |r[i]| == |cycle| && r[i][0] == cycle[i]
  {
    seq(|cycle|, i requires 0 <= i < |cycle| => Rotate(cycle, i))
  }

  /** Element j of rotation i is the element i + j places along the cycle. */
  lemma RotationAt<T>(cycle: seq<T>, i: nat, j: nat)
    requires i < |cycle| && j < |cycle|
    ensures FindAllRotations(cycle)[i][j] == cycle[(i + j) % |cycle|]
  {
    SmallMod(i + j, |cycle|);
  }

  /** Rotation 0 is the cycle itself; an empty cycle has no rotations. */
  lemma RotationZero<T>(cycle: seq<T>)
    ensures cycle == [] ==> FindAllRotations(cycle) == []
    ensures cycle != [] ==> FindAllRotations(cycle)[0] == cycle
  {
    if cycle != [] {
      assert cycle[0..] + cycle[..0] == cycle;
    }
  }

  /** Every rotation holds the same elements, as often, as the cycle. */
  lemma RotationMultiset<T>(cycle: seq<T>, i: nat)
    requires i < |cycle|
    ensures multiset(FindAllRotations(cycle)[i]) == multiset(cycle)
  {
    assert cycle[..i] + cycle[i..] == cycle;
  }

  /** A rotation of a simple cycle is a simple cycle over the same edges. */
  lemma {:induction false} RotationIsSimpleCycle<T>(cycle: seq<T>, edges: set<(T, T)>, i: nat)
    requires IsSimpleCycleIn(cycle, edges)
    requires i < |cycle|
    ensures IsSimpleCycleIn(FindAllRotations(cycle)[i], edges)
  {
    var n := |cycle|;
    var r := FindAllRotations(cycle)[i];
    forall j, k | 0 <= j < k < n
      ensures r[j] != r[k]
    {
      RotationAt(cycle, i, j);
      RotationAt(cycle, i, k);
      var a, b := (i + j) % n, (i + k) % n;
      assert a != b;
      if a < b { assert cycle[a] != cycle[b]; } else { assert cycle[b] != cycle[a]; }
    }
    forall j | 0 <= j < n
      ensures Hop(r, j) in edges
    {
      var j' := (j + 1) % n;
      var a := (i + j) % n;
      RotationAt(cycle, i, j);
      RotationAt(cycle, i, j');
      NextAlong(n, i, j);
      assert Hop(cycle, a) in edges;
    }
  }

  /** Reduction modulo `n` of a value below `2 * n`. */
  lemma SmallMod(a: int, n: int)
    requires 0 < n && 0 <= a < 2 * n
    ensures a % n == if a < n then a else a - n
  {
    if a >= n {
      assert a == 1 * n + (a - n);
    }
  }

  /** Stepping once along a rotation steps once along the cycle. */
  lemma NextAlong(n: nat, i: nat, j: nat)
    requires i < n && j < n
    ensures (i + (j + 1) % n) % n == ((i + j) % n + 1) % n
  {
    SmallMod(j + 1, n);
    SmallMod(i + j, n);
    SmallMod(i + (j + 1) % n, n);
    SmallMod((i + j) % n + 1, n);
  }

  /**
   * In a cycle with distinct elements every element heads exactly one
   * rotation: the one at its own position.
   */
  lemma UniqueRotationHead<T>(cycle: seq<T>, x: T)
    requires Distinct(cycle)
    ensures forall i :: 0 <= i < |cycle| ==>
      (FindAllRotations(cycle)[i][0] == x <==> cycle[i] == x)
    ensures x in cycle ==> exists i :: 0 <= i < |cycle| && FindAllRotations(cycle)[i][0] == x
    ensures forall i, j ::
      0 <= i < |cycle| && 0 <= j < |cycle| &&
      FindAllRotations(cycle)[i][0] == x && FindAllRotations(cycle)[j][0] == x
      ==> i == j
  {
  }
}
