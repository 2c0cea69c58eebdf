/** toml::array::flatten of the bundled toml.hpp: nested arrays are spliced into the array in place. */
module TomlArrays {
  import opened Words

  /** A node: an array or anything else. */
  datatype Node = Leaf(id: int) | Arr(elems: seq<Node>)

  /** The non-array nodes from left to right. */
  function Leaves(n: Node): seq<Node>
    decreases n, 0
  {
    match n case Leaf(_) => [n] case Arr(es) => LeavesOf(es)
  }

  function LeavesOf(ns: seq<Node>): seq<Node>
    decreases ns, 1
  {
    if ns == [] then [] else Leaves(ns[0]) + LeavesOf(ns[1..])
  }

  lemma LeavesFront(ns: seq<Node>)
    requires ns != []
    ensures LeavesOf(ns) == Leaves(ns[0]) + LeavesOf(ns[1..])
  {
  }

  lemma {:induction false} LeavesConcat(a: seq<Node>, b: seq<Node>)
    ensures LeavesOf(a + b) == LeavesOf(a) + LeavesOf(b)
  {
    hide Leaves, LeavesOf;
    if a == [] {
      NoLeaves();
      assert a + b == b;
    } else {
      LeavesFront(a);
      LeavesFront(a + b);
      LeavesConcat(a[1..], b);
      assert (a + b)[1..] == a[1..] + b;
    }
  }

  lemma LeavesSingle(n: Node)
    ensures LeavesOf([n]) == Leaves(n)
  {
    hide Leaves;
    assert [n][1..] == [];
    assert LeavesOf([n]) == Leaves(n) + LeavesOf([]);
  }

  lemma LeavesNext(ns: seq<Node>, i: nat)
    requires i < |ns|
    ensures LeavesOf(ns[..i + 1]) == LeavesOf(ns[..i]) + Leaves(ns[i])
  {
    hide Leaves, LeavesOf;
    LeavesSingle(ns[i]);
    assert ns[..i + 1] == ns[..i] + [ns[i]];
    LeavesConcat(ns[..i], [ns[i]]);
  }

  lemma LeavesAround(ns: seq<Node>, i: nat)
    requires i <= |ns|
    ensures LeavesOf(ns) == LeavesOf(ns[..i]) + LeavesOf(ns[i..])
  {
    hide Leaves, LeavesOf;
    assert ns == ns[..i] + ns[i..];
    LeavesConcat(ns[..i], ns[i..]);
  }

  /** An element slot holds an owning pointer, which is null after its node was moved away. */
  type Slot = Option<Node>

  function Full(ns: seq<Node>): seq<Slot> {
    seq(|ns|, i requires 0 <= i < |ns| => Some(ns[i]))
  }

  lemma FullConcat(a: seq<Node>, b: seq<Node>)
    ensures Full(a + b) == Full(a) + Full(b)
  {
  }

  lemma SplitAt(elems: seq<Slot>, front: seq<Slot>, was: seq<Slot>, n: nat)
    requires n == |front| <= |was| && elems == front + was[n..]
    ensures elems[..n] == front && forall m | n <= m <= |was| :: elems[m..] == was[m..]
  {
  }

  function Gap(n: nat): seq<Slot> { seq(n, i => None) }

  /** array::total_leaf_count */
  method TotalLeafCount(ns: seq<Node>) returns (leaves: nat)
    ensures leaves == |LeavesOf(ns)|
    decreases ns
  {
    leaves := 0;
    for i := 0 to |ns|
      invariant leaves == |LeavesOf(ns[..i])|
    {
      LeavesNext(ns, i);
      if ns[i].Arr? {
        var inner := TotalLeafCount(ns[i].elems);
        leaves := leaves + inner;
      } else {
        leaves := leaves + 1;
      }
    }
    assert ns[..|ns|] == ns;
  }

  class TomlArray {
    var elems: seq<Slot>

    /** Opens a gap of count null slots at idx by moving the tail to the right. */
    method PreinsertionResize(idx: nat, count: nat)
      requires idx <= |elems| && count >= 1
      modifies this
      ensures elems == old(elems)[..idx] + Gap(count) + old(elems)[idx..]
    {
      var oldSize := |elems|;
      var newSize := oldSize + count;
      var insertingAtEnd := idx == oldSize;
      elems := elems + Gap(count);
      if !insertingAtEnd {
        var left, right := oldSize, newSize - 1;
        while left > idx
          invariant idx <= left <= oldSize && right == left + count - 1 && |elems| == newSize
          invariant forall k | 0 <= k < left :: elems[k] == old(elems)[k]
          invariant forall k | left <= k <= right :: elems[k] == None
          invariant forall k | right < k < newSize :: elems[k] == old(elems)[k - count]
          decreases left
        {
          left := left - 1;
          var moved := elems[left];
          elems := elems[left := None];
          elems := elems[right := moved];
          right := right - 1;
        }
      }
    }

    /** Moves the leaves of child into the slots from dest on. */
    method FlattenChild(child: seq<Node>, dest: nat) returns (next: nat)
      requires dest + |LeavesOf(child)| <= |elems|
      modifies this
      ensures next == dest + |LeavesOf(child)|
      ensures elems == old(elems)[..dest] + Full(LeavesOf(child)) + old(elems)[next..]
      decreases child
    {
      hide Leaves, LeavesOf;
      next := dest;
      NoLeaves();
      ghost var pre, was, done := elems[..dest], elems, [];
      for i := 0 to |child|
        invariant done == LeavesOf(child[..i]) && next == dest + |done| <= |elems| == |was|
        invariant elems == pre + Full(done) + was[next..]
      {
        LeavesNext(child, i);
        LeavesAround(child, i + 1);
        ghost var more := Leaves(child[i]);
        SplitAt(elems, pre + Full(done), was, next);
        if child[i].Arr? {
          ArrayLeaves(child[i]);
          if child[i].elems != [] {
            next := FlattenChild(child[i].elems, next);
          } else {
            NoLeaves();
          }
        } else {
          LeafAlone(child[i]);
          elems := elems[next := Some(child[i])];
          next := next + 1;
        }
        FullConcat(done, more);
        assert pre + (Full(done) + Full(more)) == pre + Full(done) + Full(more);
        done := done + more;
      }
      assert child[..|child|] == child;
    }

    /** The first loop of flatten: erases the arrays without leaves, from the back. */
    method EraseEmpty(ghost ns: seq<Node>) returns (requiresFlattening: bool, ghost kept: seq<Node>)
      requires elems == Full(ns)
      modifies this
      ensures elems == Full(kept) && LeavesOf(kept) == LeavesOf(ns)
      ensures forall n | n in kept :: Leaves(n) != []
      ensures !requiresFlattening ==> forall n | n in kept :: n.Leaf?
    {
      hide Leaves, LeavesOf;
      requiresFlattening, kept := false, ns;
      var i := |elems|;
      while i > 0
        invariant 0 <= i <= |kept| && elems == Full(kept) && LeavesOf(kept) == LeavesOf(ns)
        invariant forall k | i <= k < |kept| :: Leaves(kept[k]) != []
        invariant !requiresFlattening ==> forall k | i <= k < |kept| :: kept[k].Leaf?
      {
        i := i - 1;
        if !elems[i].value.Arr? {
          LeafAlone(kept[i]);
        } else {
          var leafCount := TotalLeafCount(elems[i].value.elems);
          ArrayLeaves(kept[i]);
          if leafCount > 0 {
            requiresFlattening := true;
          } else {
            DropEmpty(kept, i);
            elems := elems[..i] + elems[i + 1..];
            kept := kept[..i] + kept[i + 1..];
          }
        }
      }
    }

    /** One array in slot i, between leaves a and nodes b, is replaced by its leaves: the gap opened
        for them has their number, which is never zero, so no null slot is left behind. */
    method SpliceOne(i: nat, ghost a: seq<Node>, ghost n: Node, ghost b: seq<Node>) returns (next: nat)
      requires i == |a| && elems == Full(a) + [Some(n)] + Full(b) && n.Arr? && Leaves(n) != []
      modifies this
      ensures next == |a + Leaves(n)| && elems == Full(a + Leaves(n)) + Full(b)
    {
      var storage := elems[i].value;
      elems := elems[i := None];
      var leafCount := TotalLeafCount(storage.elems);
      if leafCount > 1 {
        PreinsertionResize(i + 1, leafCount - 1);
      }
      assert elems == Full(a) + Gap(leafCount) + Full(b);
      assert elems[..i] == Full(a) && elems[i + leafCount..] == Full(b);
      next := FlattenChild(storage.elems, i);
      assert Full(a) + Full(Leaves(n)) == Full(a + Leaves(n));
    }

    /** The second loop of flatten. */
    method SpliceAll(ghost ns: seq<Node>)
      requires elems == Full(ns) && forall n | n in ns :: Leaves(n) != []
      modifies this
      ensures elems == Full(LeavesOf(ns))
    {
      hide Leaves, LeavesOf;
      var i := 0;
      ghost var k, done := 0, [];  // slot i holds what was in slot k
      assert LeavesOf(ns[..0]) == [] by { NoLeaves(); }
      while i < |elems|
        invariant k <= |ns| && i == |done| && done == LeavesOf(ns[..k])
        invariant elems == Full(done) + Full(ns[k..])
        decreases |ns| - k
      {
        LeavesNext(ns, k);
        assert elems[i] == Some(ns[k]);
        assert Full(ns[k..]) == [Some(ns[k])] + Full(ns[k + 1..]);
        if !elems[i].value.Arr? {
          i := i + 1;
          LeafAlone(ns[k]);
          assert Full(done + [ns[k]]) == Full(done) + [Some(ns[k])];
        } else {
          i := SpliceOne(i, done, ns[k], ns[k + 1..]);
        }
        done := done + Leaves(ns[k]);
        k := k + 1;
      }
      assert ns[..|ns|] == ns;
    }

    /** array::flatten: the array becomes exactly its leaves, from left to right; it terminates. */
    method Flatten(ghost ns: seq<Node>)
      requires elems == Full(ns)
      modifies this
      ensures elems == Full(LeavesOf(ns))
    {
      if elems == [] {
        return;
      }
      var requiresFlattening; ghost var kept;
      requiresFlattening, kept := EraseEmpty(ns);
      if !requiresFlattening {
        LeavesOnly(kept);
        return;
      }
      SpliceAll(kept);
    }
  }

  lemma {:induction false} LeavesOnly(ns: seq<Node>)
    requires forall n | n in ns :: n.Leaf?
    ensures LeavesOf(ns) == ns
  {
    if ns != [] { LeavesOnly(ns[1..]); }
  }

  lemma NoLeaves()
    ensures LeavesOf([]) == []
  {
  }

  lemma ArrayLeaves(n: Node)
    requires n.Arr?
    ensures Leaves(n) == LeavesOf(n.elems)
  {
  }

  lemma DropEmpty(ns: seq<Node>, i: nat)
    requires i < |ns| && Leaves(ns[i]) == []
    ensures LeavesOf(ns[..i] + ns[i + 1..]) == LeavesOf(ns)
  {
    hide Leaves, LeavesOf;
    LeavesNext(ns, i);
    LeavesAround(ns, i + 1);
    LeavesConcat(ns[..i], ns[i + 1..]);
  }

  lemma LeafAlone(n: Node)
    requires n.Leaf?
    ensures Leaves(n) == [n]
  {
  }
}
