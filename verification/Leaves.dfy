/** The leaves of the EPT, seen as a map from gfns to host frames. */
module Leaves {
  /** A present leaf entry. */
  datatype Leaf = Leaf(pfn: nat, writable: bool)

  /** Invalidating a range of gfns. */
  function ClearRange(leaves: map<nat, Leaf>, start: nat, npages: int): map<nat, Leaf> {
    map g | g in leaves && !(start <= g < start + npages) :: leaves[g]
  }

  /** Creating the first n entries of a range. */
  function Filled(leaves: map<nat, Leaf>, start: nat, pfns: seq<nat>, writable: bool, n: nat): map<nat, Leaf>
    requires n <= |pfns|
  {
    if n == 0 then leaves else Filled(leaves, start, pfns, writable, n - 1)[start + n - 1 := Leaf(pfns[n - 1], writable)]
  }

  lemma {:induction false} FilledAt(leaves: map<nat, Leaf>, start: nat, pfns: seq<nat>, writable: bool, n: nat, g: nat)
    requires n <= |pfns|
    ensures var after := Filled(leaves, start, pfns, writable, n);
            && (g in after <==> g in leaves || start <= g < start + n)
            && (start <= g < start + n ==> after[g] == Leaf(pfns[g - start], writable))
            && (g in leaves && !(start <= g < start + n) ==> after[g] == leaves[g])
  {
    if n > 0 {
      FilledAt(leaves, start, pfns, writable, n - 1, g);
    }
  }

  /** A different entry is already there. */
  predicate Clash(leaves: map<nat, Leaf>, g: nat, leaf: Leaf) {
    g in leaves && leaves[g] != leaf
  }

  /** How many of the first n entries of a range are not there yet. */
  function Missing(leaves: map<nat, Leaf>, start: nat, n: nat): nat {
    if n == 0 then 0 else Missing(leaves, start, n - 1) + if start + n - 1 in leaves then 0 else 1
  }
}
