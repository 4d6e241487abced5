/**
 * Complete type names: the flat, pre-order lists of (name, inner count) nodes that
 * newer asset revisions store beside every property tag.
 */
module TypeDescriptors {

  /** One node of a complete type name: a type name and the number of complete
      type names (its parameters) that immediately follow it. */
  datatype TypeNode = TypeNode(name: string, innerCount: int)

  /** `ns` is exactly `need` complete pre-order trees laid end to end: reading the
      nodes left to right, each one fills one pending slot and opens `innerCount`
      new ones; no node may arrive when no slot is open, and no slot may stay open. */
  predicate Fits(ns: seq<TypeNode>, need: nat)
    decreases |ns|
  {
    if |ns| == 0 then need == 0
    else need > 0 && ns[0].innerCount >= 0 && Fits(ns[1..], need - 1 + ns[0].innerCount)
  }

  /** A well-formed complete type name: exactly one tree, nothing left over. */
  predicate OneTree(ns: seq<TypeNode>)
  {
    Fits(ns, 1)
  }

  /** Laying `m` trees next to `n` trees gives `m + n` trees. */
  lemma {:induction false} FitsConcat(a: seq<TypeNode>, m: nat, b: seq<TypeNode>, n: nat)
    requires Fits(a, m) && Fits(b, n)
    ensures Fits(a + b, m + n)
  {
    if |a| == 0 {
      assert a + b == b;
    } else {
      assert (a + b)[1..] == a[1..] + b;
      FitsConcat(a[1..], m - 1 + a[0].innerCount, b, n);
    }
  }

  /** The trees of a well-formed list end exactly where the list ends: a list that
      already holds its `need` trees cannot be extended by anything but nothing. */
  lemma {:induction false} FitsNoLeftover(a: seq<TypeNode>, b: seq<TypeNode>, need: nat)
    requires Fits(a, need) && Fits(a + b, need)
    ensures b == []
  {
    if |a| == 0 {
      assert a + b == b;
    } else {
      assert (a + b)[1..] == a[1..] + b;
      FitsNoLeftover(a[1..], b, need - 1 + a[0].innerCount);
    }
  }

  /** A list of two trees splits in exactly one place into two single trees. */
  lemma {:induction false} FitsSplitUnique(a: seq<TypeNode>, b: seq<TypeNode>, c: seq<TypeNode>, d: seq<TypeNode>)
    requires OneTree(a) && OneTree(b) && OneTree(c) && OneTree(d)
    requires a + b == c + d
    ensures a == c && b == d
  {
    if |a| <= |c| {
      PrefixOneTree(a, c, (a + b)[|a|..|c|]);
    } else {
      PrefixOneTree(c, a, (c + d)[|c|..|a|]);
    }
  }

  /** A single tree has no proper prefix that is also a single tree. */
  lemma {:induction false} PrefixOneTree(a: seq<TypeNode>, c: seq<TypeNode>, mid: seq<TypeNode>)
    requires OneTree(a) && OneTree(c) && |a| <= |c| && c == a + mid
    ensures mid == [] && a == c
  {
    FitsNoLeftover(a, mid, 1);
  }
}
