/**
 The B-tree of kbtree.h. A node keeps its keys in order and, when it is
 internal, one more pointer than keys.
 */
module KbTree {
  import opened KbWeave

  // A key, or the null pointer.
  datatype Found = Nothing | Key(k: int)

  function Pow(b: nat, e: nat): nat {
    if e == 0 then 1 else b * Pow(b, e - 1)
  }

  class Node {
    var isInternal: bool
    var keys: seq<int>
    var ptrs: seq<Node>
    // Where the node hangs, how far above the leaves, what its subtree holds
    // and what its kids' subtrees hold.
    ghost var parent: Node?
    ghost var height: nat
    ghost var flat: seq<int>
    ghost var kidFlats: seq<seq<int>>

    // An empty node, as calloc leaves it.
    constructor (internal: bool)
      ensures isInternal == internal && keys == [] && ptrs == []
      ensures parent == null && height == 0 && flat == [] && kidFlats == []
    {
      isInternal, keys, ptrs := internal, [], [];
      parent, height, flat, kidFlats := null, 0, [], [];
    }

    ghost predicate Own()
      reads this
    {
      |ptrs| == |kidFlats| && Fits(isInternal, keys, kidFlats) && (isInternal <==> 0 < height)
    }

    // The keys of the subtree, from this node's keys and what its kids hold.
    ghost function Woven(): seq<int>
      reads this
    {
      Keys(isInternal, keys, kidFlats)
    }

    // __kb_getp_aux: where `k` is among the keys.
    method GetAux(k: int) returns (i: int, r: int)
      requires Sorted(keys)
      ensures -1 <= i < |keys|
      ensures r == 0 && 0 <= i ==> keys[i] == k && forall j :: 0 <= j < i ==> keys[j] < k
      ensures r != 0 || i < 0 ==> (forall j :: 0 <= j <= i ==> keys[j] < k) && forall j :: i < j < |keys| ==>
        k < keys[j]
      ensures keys == [] ==> r == 0
      ensures keys != [] && r == 0 ==> 0 <= i
    {
      var begin, end := 0, |keys|;
      if |keys| == 0 {
        return -1, 0;
      }
      while begin < end
        invariant 0 <= begin <= end <= |keys|
        invariant forall j :: 0 <= j < begin ==> keys[j] < k
        invariant forall j :: end <= j < |keys| ==> k <= keys[j]
      {
        var mid := (begin + end) / 2;
        if keys[mid] < k {
          begin := mid + 1;
        } else {
          end := mid;
        }
      }
      if begin == |keys| {
        return |keys| - 1, 1;
      }
      r := if k < keys[begin] then -1 else if k > keys[begin] then 1 else 0;
      if r < 0 {
        begin := begin - 1;
      }
      return begin, r;
    }

    // The leaf's part of __kb_putp_aux.
    method InsertKey(k: int)
      requires Sorted(keys)
      modifies this`keys
      ensures keys == With(old(keys), k)
    {
      var i, _ := GetAux(k);
      WithAt(keys, i + 1, k);
      keys := keys[..i + 1] + [k] + keys[i + 1..];
    }

    // __kb_split, as far as the full node and the new one go: the upper keys
    // move to the new node and the middle key is left over.
    method Halve(t: nat) returns (z: Node, m: int)
      requires 2 <= t && Own() && |keys| == 2 * t - 1
      modifies this`keys, this`ptrs, this`kidFlats, this`flat
      ensures fresh(z) && z.isInternal == isInternal && z.height == height && z.parent == parent
      ensures Own() && z.Own() && |keys| == |z.keys| == t - 1 && Reshared(old(ptrs), [], ptrs, z.ptrs)
        && Reshared(old(kidFlats), [], kidFlats, z.kidFlats)
      ensures Woven() + [m] + z.Woven() == old(Woven()) && flat == Woven() && z.flat == z.Woven()
    {
      hide Reshared, Weave;
      KeysSplit(isInternal, keys, kidFlats, t - 1);
      z := new Node(isInternal);
      z.height, z.parent := height, parent;
      z.keys := keys[t..];
      m := keys[t - 1];
      keys := keys[..t - 1];
      if isInternal {
        z.ptrs, z.kidFlats := ptrs[t..], kidFlats[t..];
        ptrs, kidFlats := ptrs[..t], kidFlats[..t];
      }
      SameConcat(old(ptrs), [], ptrs, z.ptrs);
      SameConcat(old(kidFlats), [], kidFlats, z.kidFlats);
      flat, z.flat := Woven(), z.Woven();
    }

    // __kb_split, as far as the parent goes: `z` and the key between come in
    // behind pointer `i`, which is for `y`.
    method TakeIn(i: nat, m: int, z: Node, ghost f: seq<int>, ghost g: seq<int>)
      requires Own() && isInternal && i < |ptrs| && f + [m] + g == kidFlats[i]
      modifies this`keys, this`ptrs, this`kidFlats
      ensures Own() && Woven() == old(Woven())
      ensures KeyAdded(old(keys), keys, i) && KidAdded(ptrs, kidFlats, i, old(ptrs), old(kidFlats))
      ensures ptrs[i + 1] == z && kidFlats[i] == f && kidFlats[i + 1] == g
    {
      hide KidAdded, Weave;
      TakenIn(ptrs, kidFlats, i, z, f, g);
      Parted(keys, kidFlats, i, f, m, g);
      ptrs := ptrs[..i + 1] + [z] + ptrs[i + 1..];
      keys := keys[..i] + [m] + keys[i..];
      kidFlats := kidFlats[..i] + [f, g] + kidFlats[i + 1..];
    }

    // __kb_split, with all that it assigns.
    method SplitKid(t: nat, i: nat, y: Node) returns (z: Node)
      requires Own() && isInternal && i < |ptrs| && y == ptrs[i] && y != this
      requires 2 <= t && y.Own() && |y.keys| == 2 * t - 1 && y.flat == y.Woven() == kidFlats[i]
      modifies this`keys, this`ptrs, this`kidFlats, y`keys, y`ptrs, y`kidFlats, y`flat
      ensures fresh(z) && z.isInternal == y.isInternal && z.height == y.height && z.parent == y.parent
      ensures Own() && y.Own() && z.Own() && |y.keys| == |z.keys| == t - 1
      ensures Reshared(old(y.ptrs), [], y.ptrs, z.ptrs) && Reshared(old(y.kidFlats), [], y.kidFlats, z.kidFlats)
        && y.flat == y.Woven() && z.flat == z.Woven()
      ensures Woven() == old(Woven()) && KeyAdded(old(keys), keys, i)
        && KidAdded(ptrs, kidFlats, i, old(ptrs), old(kidFlats))
      ensures ptrs[i + 1] == z && kidFlats[i] == y.flat && kidFlats[i + 1] == z.flat
    {
      var m;
      z, m := y.Halve(t);
      TakeIn(i, m, z, y.flat, z.flat);
    }

    // The last key leaves, with the last kid.
    method PopLast() returns (k: int, kid: seq<Node>, ghost f: seq<seq<int>>)
      requires Own() && keys != []
      modifies this`keys, this`ptrs, this`kidFlats, this`flat
      ensures var q := |old(ptrs)| - OneKid(isInternal);
        && kid == old(ptrs)[q..] && f == old(kidFlats)[q..] && ptrs == old(ptrs)[..q] && kidFlats == old(kidFlats)[..q]
      ensures Own() && keys == old(keys)[..|old(keys)| - 1] && k == old(keys)[|old(keys)| - 1] && flat == Woven()
    {
      k, kid, f := keys[|keys| - 1], [], [];
      keys := keys[..|keys| - 1];
      if isInternal {
        kid, f := ptrs[|ptrs| - 1..], kidFlats[|ptrs| - 1..];
        ptrs, kidFlats := ptrs[..|ptrs| - 1], kidFlats[..|ptrs| - 1];
      }
      flat := Woven();
    }

    // The first key leaves, with the first kid.
    method PopFirst() returns (k: int, kid: seq<Node>, ghost f: seq<seq<int>>)
      requires Own() && keys != []
      modifies this`keys, this`ptrs, this`kidFlats, this`flat
      ensures var q := OneKid(isInternal);
        && kid == old(ptrs)[..q] && f == old(kidFlats)[..q] && ptrs == old(ptrs)[q..] && kidFlats == old(kidFlats)[q..]
      ensures Own() && keys == old(keys)[1..] && k == old(keys)[0] && flat == Woven()
    {
      k, kid, f := keys[0], [], [];
      keys := keys[1..];
      if isInternal {
        kid, f := ptrs[..1], kidFlats[..1];
        ptrs, kidFlats := ptrs[1..], kidFlats[1..];
      }
      flat := Woven();
    }

    // A key comes in before the others, and a kid.
    method PushFirst(k: int, kid: seq<Node>, ghost f: seq<seq<int>>)
      requires Own() && |kid| == |f| == OneKid(isInternal)
      modifies this`keys, this`ptrs, this`kidFlats, this`flat
      ensures Own() && keys == [k] + old(keys) && ptrs == kid + old(ptrs) && kidFlats == f + old(kidFlats)
        && flat == Woven()
      ensures flat == Keys(isInternal, [], f) + [k] + old(Woven())
    {
      KeysConcat(isInternal, [], f, k, keys, kidFlats);
      assert [] + [k] + keys == [k] + keys;
      keys := [k] + keys;
      ptrs, kidFlats := kid + ptrs, f + kidFlats;
      flat := Woven();
    }

    // A key comes in behind the others, and a kid.
    method PushLast(k: int, kid: seq<Node>, ghost f: seq<seq<int>>)
      requires Own() && |kid| == |f| == OneKid(isInternal)
      modifies this`keys, this`ptrs, this`kidFlats, this`flat
      ensures Own() && keys == old(keys) + [k] && ptrs == old(ptrs) + kid && kidFlats == old(kidFlats) + f
        && flat == Woven()
      ensures flat == old(Woven()) + [k] + Keys(isInternal, [], f)
    {
      KeysConcat(isInternal, keys, kidFlats, k, [], f);
      assert keys + [k] + [] == keys + [k];
      keys := keys + [k];
      ptrs, kidFlats := ptrs + kid, kidFlats + f;
      flat := Woven();
    }

    // Two neighbours and the key between them.
    ghost predicate Neighbours(i: nat, y: Node, z: Node)
      reads this, y, z
    {
      && Own() && isInternal && i + 1 < |ptrs| && y == ptrs[i] && z == ptrs[i + 1] && this != y && y != z && z != this
      && y.Own() && y.flat == y.Woven() == kidFlats[i] && z.Own() && z.flat == z.Woven() == kidFlats[i + 1]
      && y.isInternal == z.isInternal
    }

    // The left neighbour's last key goes up, the key between comes down.
    method ShiftRight(i: nat, y: Node, z: Node)
      requires Neighbours(i, y, z) && y.keys != []
      modifies this`keys, this`kidFlats, y`keys, y`ptrs, y`kidFlats, y`flat, z`keys, z`ptrs, z`kidFlats, z`flat
      ensures Neighbours(i, y, z) && Woven() == old(Woven()) && |keys| == |old(keys)|
      ensures kidFlats == old(kidFlats)[i := y.flat][i + 1 := z.flat]
      ensures |y.keys| == |old(y.keys)| - 1 && |z.keys| == |old(z.keys)| + 1
      ensures Reshared(old(y.ptrs), old(z.ptrs), y.ptrs, z.ptrs)
        && Reshared(old(y.kidFlats), old(z.kidFlats), y.kidFlats, z.kidFlats)
      ensures forall v :: v in old(z.flat) ==> v in z.flat
    {
      hide Weave, Reshared;
      ShiftUp(y.isInternal, y.keys, y.kidFlats, keys[i], z.keys, z.kidFlats);
      var k, kid, f := y.PopLast();
      z.PushFirst(keys[i], kid, f);
      assert y.flat + [k] + z.flat == kidFlats[i] + [keys[i]] + kidFlats[i + 1];
      Rebalanced(keys, kidFlats, i, y.flat, k, z.flat);
      keys := keys[i := k];
      kidFlats := kidFlats[i := y.flat][i + 1 := z.flat];
      SameConcat(old(y.ptrs), old(z.ptrs), y.ptrs, z.ptrs);
      SameConcat(old(y.kidFlats), old(z.kidFlats), y.kidFlats, z.kidFlats);
    }

    // Takes the first key of `z`, but keeps `sep` and hands that key on.
    method BorrowFirst(z: Node, sep: int) returns (k: int)
      requires Own() && z.Own() && z != this && z.keys != [] && isInternal == z.isInternal
      modifies this`keys, this`ptrs, this`kidFlats, this`flat, z`keys, z`ptrs, z`kidFlats, z`flat
      ensures Own() && z.Own() && flat == Woven() && z.flat == z.Woven()
      ensures flat + [k] + z.flat == old(Woven()) + [sep] + old(z.Woven())
      ensures |keys| == |old(keys)| + 1 && |z.keys| == |old(z.keys)| - 1
      ensures ptrs + z.ptrs == old(ptrs) + old(z.ptrs) && kidFlats + z.kidFlats == old(kidFlats) + old(z.kidFlats)
      ensures forall v :: v in old(Woven()) ==> v in flat
    {
      hide Weave;
      ShiftDown(isInternal, keys, kidFlats, sep, z.keys, z.kidFlats);
      Reshare(ptrs, z.ptrs, OneKid(isInternal));
      Reshare(kidFlats, z.kidFlats, OneKid(isInternal));
      ghost var f;
      var kid;
      k, kid, f := z.PopFirst();
      PushLast(sep, kid, f);
    }

    // The right neighbour's first key goes up, the key between comes down.
    method ShiftLeft(i: nat, y: Node, z: Node)
      requires Neighbours(i, y, z) && z.keys != []
      modifies this`keys, this`kidFlats, y`keys, y`ptrs, y`kidFlats, y`flat, z`keys, z`ptrs, z`kidFlats, z`flat
      ensures Neighbours(i, y, z) && Woven() == old(Woven()) && |keys| == |old(keys)|
      ensures kidFlats == old(kidFlats)[i := y.flat][i + 1 := z.flat]
      ensures |y.keys| == |old(y.keys)| + 1 && |z.keys| == |old(z.keys)| - 1
      ensures Reshared(old(y.ptrs), old(z.ptrs), y.ptrs, z.ptrs)
        && Reshared(old(y.kidFlats), old(z.kidFlats), y.kidFlats, z.kidFlats)
      ensures forall v :: v in old(y.flat) ==> v in y.flat
    {
      hide Weave, Reshared;
      var k := y.BorrowFirst(z, keys[i]);
      Rebalanced(keys, kidFlats, i, y.flat, k, z.flat);
      keys := keys[i := k];
      kidFlats := kidFlats[i := y.flat][i + 1 := z.flat];
      SameConcat(old(y.ptrs), old(z.ptrs), y.ptrs, z.ptrs);
      SameConcat(old(y.kidFlats), old(z.kidFlats), y.kidFlats, z.kidFlats);
    }

    // All keys of the right neighbour, and the key between, come to `y`.
    method TakeAll(i: nat, y: Node, z: Node)
      requires Neighbours(i, y, z)
      modifies this`keys, this`ptrs, this`kidFlats, y`keys, y`ptrs, y`kidFlats, y`flat
      ensures Own() && y.Own() && Woven() == old(Woven())
        && y.flat == y.Woven() == old(y.flat) + [old(keys)[i]] + old(z.flat)
      ensures keys == JoinedKeys(old(keys), i) && KidDropped(this, i, old(ptrs), old(kidFlats)) && kidFlats[i] == y.flat
      ensures |y.keys| == |old(y.keys)| + 1 + |z.keys| && y.ptrs == old(y.ptrs) + z.ptrs
        && y.kidFlats == old(y.kidFlats) + z.kidFlats
    {
      hide Weave;
      KeysConcat(y.isInternal, y.keys, y.kidFlats, keys[i], z.keys, z.kidFlats);
      Joined(keys, kidFlats, i);
      y.keys := y.keys + [keys[i]] + z.keys;
      y.ptrs, y.kidFlats := y.ptrs + z.ptrs, y.kidFlats + z.kidFlats;
      y.flat := y.Woven();
      kidFlats := JoinedKids(keys, kidFlats, i);
      keys := keys[..i] + keys[i + 1..];
      ptrs := ptrs[..i + 1] + ptrs[i + 2..];
    }
  }

  // The kids of a node after its kids `i` and `i + 1` were merged.
  ghost predicate KidDropped(x: Node, i: nat, ptrs: seq<Node>, fs: seq<seq<int>>)
    reads x
  {
    && i + 1 < |ptrs| == |fs| && |x.ptrs| == |x.kidFlats| == |ptrs| - 1 && x.ptrs[i] == ptrs[i]
    && forall j {:trigger x.ptrs[j]} {:trigger x.kidFlats[j]} :: 0 <= j < |x.ptrs| && j != i ==>
         x.ptrs[j] == ptrs[if j < i then j else j + 1] && x.kidFlats[j] == fs[if j < i then j else j + 1]
  }

  // The kids of a node after a split at `i`.
  ghost predicate KidAdded(ptrs': seq<Node>, fs': seq<seq<int>>, i: nat, ptrs: seq<Node>, fs: seq<seq<int>>) {
    && i < |ptrs| == |fs| && |ptrs'| == |fs'| == |ptrs| + 1 && ptrs'[i] == ptrs[i]
    && forall j {:trigger ptrs'[j]} {:trigger fs'[j]} :: 0 <= j < |ptrs'| && j != i && j != i + 1 ==>
         ptrs'[j] == ptrs[if j < i then j else j - 1] && fs'[j] == fs[if j < i then j else j - 1]
  }

  lemma TakenIn(ptrs: seq<Node>, fs: seq<seq<int>>, i: nat, z: Node, f: seq<int>, g: seq<int>)
    requires i < |ptrs| == |fs|
    ensures
      var ptrs', fs' := ptrs[..i + 1] + [z] + ptrs[i + 1..], fs[..i] + [f, g] + fs[i + 1..];
      KidAdded(ptrs', fs', i, ptrs, fs) && ptrs'[i + 1] == z && fs'[i] == f && fs'[i + 1] == g
  {
  }

  // Two lists, one behind the other, were shared out anew.
  ghost predicate Reshared<T>(a: seq<T>, b: seq<T>, a': seq<T>, b': seq<T>) {
    && |a| + |b| == |a'| + |b'|
    && (forall j {:trigger a'[j]} :: 0 <= j < |a'| ==> a'[j] == if j < |a| then a[j] else b[j - |a|])
    && forall j {:trigger b'[j]} :: 0 <= j < |b'| ==> b'[j] == var k := |a'| + j; if k < |a| then a[k] else b[k - |a|]
  }

  lemma ResharedFrom<T>(a: seq<T>, b: seq<T>, a': seq<T>, b': seq<T>)
    requires Reshared(a, b, a', b')
    ensures forall c :: c in a' || c in b' ==> c in a || c in b
  {
  }

  lemma SameConcat<T>(a: seq<T>, b: seq<T>, a': seq<T>, b': seq<T>)
    requires a' + b' == a + b
    ensures Reshared(a, b, a', b')
  {
    var s := a' + b';
    assert |s| == |a'| + |b'| == |a| + |b|;
    forall j | 0 <= j < |b'|
      ensures b'[j] == s[|a'| + j]
    {
    }
    forall j | 0 <= j < |a'|
      ensures a'[j] == s[j]
    {
    }
  }

  // One more key, at `i`.
  ghost predicate KeyAdded(ks: seq<int>, ks': seq<int>, i: nat) {
    && i <= |ks| && |ks'| == |ks| + 1
    && (forall j {:trigger ks'[j]} :: 0 <= j < i ==> ks'[j] == ks[j])
    && forall j {:trigger ks'[j]} :: i < j < |ks'| ==> ks'[j] == ks[j - 1]
  }

  class BTree {
    const t: nat
    var root: Node
    var nKeys: nat
    ghost var nodes: set<Node>

    // kb_init, for a node size with room for a degree of at least two.
    constructor (degree: nat)
      requires 2 <= degree
      ensures t == degree && Valid() && Content() == []
    {
      t, nKeys := degree, 0;
      var x := new Node(false);
      root := x;
      nodes := {x};
    }

    // How a node hangs together with its kids.
    ghost predicate Linked(n: Node)
      requires n in nodes
      reads this`nodes, nodes
    {
      && n.Own()
      && (forall i :: 0 <= i < |n.ptrs| ==>
            && n.ptrs[i] in nodes && n.ptrs[i].parent == n && n.ptrs[i].height + 1 == n.height
            && n.kidFlats[i] == n.ptrs[i].flat)
      && forall i, j :: 0 <= i < j < |n.ptrs| ==> n.ptrs[i] != n.ptrs[j]
    }

    // How full it is: the root may have fewer keys than others.
    ghost predicate Filled(n: Node)
      reads n
    {
      |n.keys| <= 2 * t - 1 && (n.parent != null ==> t - 1 <= |n.keys|)
    }

    ghost predicate AllLinked()
      reads this`nodes, nodes
    {
      forall n {:trigger Linked(n)} :: n in nodes ==> Linked(n)
    }

    ghost predicate AllFilled()
      reads this`nodes, nodes
    {
      forall n {:trigger Filled(n)} :: n in nodes ==> Filled(n)
    }

    ghost predicate Shaped()
      reads this`root, this`nodes, nodes
    {
      2 <= t && root in nodes && root.parent == null && AllLinked() && AllFilled()
    }

    // `flat` is what is there.
    ghost predicate Whole(n: Node)
      reads n
    {
      n.Own() && n.flat == n.Woven()
    }

    // Only the nodes in `w` were rebuilt, and only kids of theirs hold
    // something else or have another parent.
    twostate predicate Edited(new w: set<Node>)
      reads this, nodes
    {
      && (forall n {:trigger n in nodes} :: n in nodes && n !in w ==> n in old(nodes))
      && (forall n {:trigger n.ptrs} {:trigger n.kidFlats} {:trigger n.keys}
        {:trigger n.isInternal} :: n in nodes && n !in w ==>
            n.keys == old(n.keys) && n.ptrs == old(n.ptrs) && n.kidFlats == old(n.kidFlats)
              && n.isInternal == old(n.isInternal))
      && (forall n {:trigger n.parent} {:trigger n.flat}
        {:trigger n in nodes} :: n in old(nodes) && old(n.parent) != null && old(n.parent) !in w ==>
            n in nodes && n.parent == old(n.parent) && n.flat == old(n.flat))
      && (forall n {:trigger n.parent} :: n in nodes && n !in w && old(n.parent) == null ==> n.parent == null)
      && (forall n {:trigger n.height} :: n in nodes && n in old(nodes) ==> n.height == old(n.height))
    }

    twostate lemma OthersLinked(new p: (set<Node>, Node))
      requires Edited(p.0) && p.1 in nodes && p.1 !in p.0 && old(AllLinked())
      ensures Linked(p.1)
    {
      var n := p.1;
      assert old(Linked(n));
    }

    twostate lemma OthersFilled(new p: (set<Node>, Node))
      requires Edited(p.0) && p.1 in nodes && p.1 !in p.0 && old(AllFilled())
      ensures Filled(p.1)
    {
      var n := p.1;
      assert old(Filled(n));
    }

    // The nodes are well linked and filled when the edited ones are.
    twostate lemma EditedIsShaped(new w: set<Node>)
      requires Edited(w) && old(Shaped()) && root in nodes && root.parent == null
      requires forall n {:trigger Linked(n)} {:trigger Filled(n)} :: n in w && n in nodes ==> Linked(n) && Filled(n)
      ensures Shaped()
    {
      forall n {:trigger Linked(n)} | n in nodes
        ensures Linked(n)
      {
        if n !in w {
          OthersLinked((w, n));
        }
      }
      forall n {:trigger Filled(n)} | n in nodes
        ensures Filled(n)
      {
        if n !in w {
          OthersFilled((w, n));
        }
      }
    }

    // Node p.1, a kid of p.0, was split; p.2 is new.
    twostate predicate SplitUp(new p: (Node, Node, Node))
      reads this, nodes, p.0, p.1, p.2
    {
      var x, y, z := p.0, p.1, p.2;
      && x in old(nodes) && y in old(nodes) && z !in old(nodes) && nodes == old(nodes) + {z}
      && x != y && old(y.parent) == x
      && (forall n {:trigger n.ptrs} {:trigger n.kidFlats} {:trigger n.keys} :: n in old(nodes) && n != x && n != y ==>
            n.keys == old(n.keys) && n.ptrs == old(n.ptrs) && n.kidFlats == old(n.kidFlats))
      && (forall n {:trigger n.height} {:trigger n.isInternal} :: n in old(nodes) ==>
        n.height == old(n.height) && n.isInternal == old(n.isInternal))
      && y.Own() && z.Own() && z.height == y.height && y.height + 1 == x.height
      && Reshared(old(y.ptrs), [], y.ptrs, z.ptrs) && Reshared(old(y.kidFlats), [], y.kidFlats, z.kidFlats)
      && (forall n {:trigger n.parent} :: n in old(nodes) ==> n.parent == if n in z.ptrs then z else old(n.parent))
      && (forall n {:trigger n.flat} :: n in old(nodes) && n != y ==> n.flat == old(n.flat))
    }

    twostate lemma SplitEdited(new p: (Node, Node, Node))
      requires SplitUp(p) && old(AllLinked())
      ensures Edited({p.0, p.1, p.2})
    {
      var y, z := p.1, p.2;
      assert old(Linked(y));
      ResharedFrom(old(y.ptrs), [], y.ptrs, z.ptrs);
    }

    twostate lemma SplitKept(new p: (Node, Node, Node))
      requires SplitUp(p) && old(AllLinked())
      ensures AboveKept(p.0)
    {
      var x, y, z := p.0, p.1, p.2;
      assert old(Linked(y));
      ResharedFrom(old(y.ptrs), [], y.ptrs, z.ptrs);
    }

    twostate lemma SplitLower(new p: (Node, Node, Node))
      requires SplitUp(p) && old(AllLinked())
      ensures Linked(p.1)
    {
      var y := p.1;
      assert old(Linked(y));
    }

    twostate lemma SplitUpper(new p: (Node, Node, Node))
      requires SplitUp(p) && old(AllLinked())
      ensures Linked(p.2)
    {
      var y := p.1;
      assert old(Linked(y));
    }

    // What becomes of the parent: p.3 says where the split node was.
    twostate predicate SplitAbove(new p: (Node, Node, Node, nat))
      requires SplitUp((p.0, p.1, p.2))
      reads this, nodes, p.0, p.1, p.2
    {
      var x, y, z, i := p.0, p.1, p.2, p.3;
      && x.Own() && KidAdded(x.ptrs, x.kidFlats, i, old(x.ptrs), old(x.kidFlats)) && x.ptrs[i] == y
      && x.ptrs[i + 1] == z
      && z.parent == x && x.kidFlats[i] == y.flat && x.kidFlats[i + 1] == z.flat
    }

    twostate lemma SplitParent(new p: (Node, Node, Node, nat))
      requires SplitUp((p.0, p.1, p.2)) && SplitAbove(p) && old(AllLinked())
      ensures Linked(p.0)
    {
      var x, y := p.0, p.1;
      assert old(Linked(x)) && old(Linked(y));
    }

    // __kb_split.
    method SplitNodes(x: Node, i: nat) returns (z: Node)
      requires 2 <= t && AllLinked() && x in nodes && i < |x.ptrs| && |x.ptrs[i].keys| == 2 * t - 1
      requires Whole(x.ptrs[i])
      modifies this`nodes, nodes
      ensures SplitUp((x, old(x.ptrs[i]), z)) && SplitAbove((x, old(x.ptrs[i]), z, i))
      ensures fresh(z) && x.Woven() == old(x.Woven())
      ensures var y := x.ptrs[i]; Whole(y) && Whole(z) && |y.keys| == |z.keys| == t - 1
      ensures KeyAdded(old(x.keys), x.keys, i)
    {
      hide KidAdded, KeyAdded, Keys, Reshared, Fits;
      var y := x.ptrs[i];
      assert Linked(x) && Linked(y);
      z := SplitApart(x, i, y);
      assert forall c :: c in z.ptrs ==> c in nodes;
      Adopt(z);
    }

    // The new node, before its kids know it.
    method SplitApart(x: Node, i: nat, y: Node) returns (z: Node)
      requires 2 <= t && x in nodes && y in nodes && Linked(x) && Linked(y) && i < |x.ptrs| && y == x.ptrs[i]
        && |y.keys| == 2 * t - 1 && y != x
      requires y.flat == y.Woven() == x.kidFlats[i]
      modifies this`nodes, x`keys, x`ptrs, x`kidFlats, y`keys, y`ptrs, y`kidFlats, y`flat
      ensures fresh(z) && nodes == old(nodes) + {z} && z.isInternal == y.isInternal && z.height == y.height
        && z.parent == y.parent
      ensures x.Own() && y.Own() && z.Own() && |y.keys| == |z.keys| == t - 1
      ensures Reshared(old(y.ptrs), [], y.ptrs, z.ptrs) && Reshared(old(y.kidFlats), [], y.kidFlats, z.kidFlats)
      ensures y.flat == y.Woven() && z.flat == z.Woven() && x.Woven() == old(x.Woven())
      ensures KeyAdded(old(x.keys), x.keys, i) && KidAdded(x.ptrs, x.kidFlats, i, old(x.ptrs), old(x.kidFlats))
      ensures x.ptrs[i + 1] == z && x.kidFlats[i] == y.flat && x.kidFlats[i + 1] == z.flat && x.ptrs[i] == y
      ensures forall c :: c in y.ptrs || c in z.ptrs ==> c in old(y.ptrs)
    {
      hide KidAdded, KeyAdded, Keys, Reshared, Fits;
      z := x.SplitKid(t, i, y);
      ResharedFrom(old(y.ptrs), [], y.ptrs, z.ptrs);
      nodes := nodes + {z};
    }

    // Its kids get `z` for a parent.
    ghost method Adopt(z: Node)
      requires forall c :: c in z.ptrs ==> c in nodes
      modifies nodes`parent
      ensures forall n {:trigger n.parent} :: n in nodes ==> n.parent == if n in z.ptrs then z else old(n.parent)
    {
      forall c | c in z.ptrs { c.parent := z; }
    }

    // Every node up to the height of `x` holds what it says, but maybe `x`.
    ghost predicate WholeUpTo(x: Node)
      reads this`nodes, nodes, x
    {
      forall n {:trigger Whole(n)} :: n in nodes && n.height <= x.height && n != x ==> Whole(n)
    }

    // Nodes higher than `x` were left alone, and `x` still holds the same.
    twostate predicate AboveKept(new x: Node)
      reads this, nodes
    {
      && x in old(nodes) && x in nodes && x.flat == old(x.flat) && x.parent == old(x.parent)
      && x.height == old(x.height)
      && x.isInternal == old(x.isInternal)
      && (forall n {:trigger n.height} :: n in nodes && x.height <= n.height ==> n in old(nodes))
      && (forall n {:trigger n.height} :: n in nodes && n in old(nodes) ==> n.height == old(n.height))
      && forall n {:trigger n in nodes} {:trigger n.flat} {:trigger n.keys} {:trigger n.ptrs} {:trigger n.kidFlats}
        {:trigger n.height} {:trigger n.parent} ::
           n in old(nodes) && x.height < old(n.height) ==>
             && n in nodes && n.height == old(n.height) && n.parent == old(n.parent) && n.flat == old(n.flat)
             && n.keys == old(n.keys) && n.ptrs == old(n.ptrs) && n.kidFlats == old(n.kidFlats)
             && n.isInternal == old(n.isInternal)
    }

    twostate lemma SplitWhole(new p: (Node, Node, Node))
      requires SplitUp(p) && Whole(p.1) && Whole(p.2)
      requires var x := p.0; old(WholeUpTo(x))
      ensures WholeUpTo(p.0)
    {
      var x := p.0;
      forall n {:trigger Whole(n)} | n in nodes && n.height <= x.height && n != x
        ensures Whole(n)
      {
        assert n != p.1 && n != p.2 ==> old(Whole(n));
      }
    }

    // __kb_split.
    method Split(x: Node, i: nat)
      requires Shaped() && x in nodes && i < |x.ptrs| && |x.ptrs[i].keys| == 2 * t - 1 && |x.keys| < 2 * t - 1
      requires WholeUpTo(x)
      modifies this`nodes, nodes
      ensures Shaped() && WholeUpTo(x) && AboveKept(x) && root == old(root) && fresh(nodes - old(nodes))
      ensures x.Woven() == old(x.Woven()) && i + 1 < |x.ptrs|
      ensures |x.ptrs[i].keys| == |x.ptrs[i + 1].keys| == t - 1
      ensures KeyAdded(old(x.keys), x.keys, i)
    {
      hide Edited, AboveKept, Keys, Reshared, Fits;
      ghost var y := x.ptrs[i];
      assert Linked(x) && Linked(y) && Whole(y) && Filled(x);
      var z := SplitNodes(x, i);
      SplitEdited((x, y, z));
      SplitKept((x, y, z));
      SplitLower((x, y, z));
      SplitUpper((x, y, z));
      SplitParent((x, y, z, i));
      SplitWhole((x, y, z));
      assert Filled(x) && Filled(y) && Filled(z);
      EditedIsShaped({x, y, z});
    }

    // A kid is to hold `f`.
    ghost method Promise(x: Node, i: nat, y: Node, f: seq<int>)
      requires Shaped() && x in nodes && i < |x.ptrs| && y == x.ptrs[i]
      modifies x`kidFlats, y`flat
      ensures Shaped() && y.flat == f && Linked(x) && Linked(y)
      ensures |old(x.kidFlats)| == |x.ptrs| && x.kidFlats == old(x.kidFlats)[i := f]
    {
      assert Linked(x) && Linked(y) && Filled(x);
      y.flat := f;
      x.kidFlats := x.kidFlats[i := f];
      assert Linked(x) && Linked(y) && Filled(x);
      EditedIsShaped({x});
    }

    // Where in an internal node `k` belongs.
    ghost predicate Belongs(x: Node, i: int, k: int)
      reads x
    {
      && x.isInternal && |x.ptrs| == |x.keys| + 1 && 0 <= i < |x.ptrs|
      && (0 < i ==> x.keys[i - 1] <= k) && (i < |x.keys| ==> k <= x.keys[i])
    }

    // The kid that `k` goes into, with room for it.
    method ChooseKid(x: Node, k: int) returns (i: int)
      requires Shaped() && x in nodes && WholeUpTo(x) && |x.keys| < 2 * t - 1 && x.isInternal && Sorted(x.Woven())
      modifies this`nodes, nodes
      ensures Shaped() && WholeUpTo(x) && AboveKept(x) && root == old(root) && fresh(nodes - old(nodes))
      ensures x.Woven() == old(x.Woven()) && Belongs(x, i, k) && |x.ptrs[i].keys| < 2 * t - 1
      ensures |old(x.keys)| <= |x.keys|
    {
      assert Linked(x);
      KeysInOrder(x.isInternal, x.keys, x.kidFlats);
      var at, _ := x.GetAux(k);
      i := at + 1;
      assert Filled(x.ptrs[i]);
      if |x.ptrs[i].keys| == 2 * t - 1 {
        Split(x, i);
        assert Linked(x);
        if k > x.keys[i] {
          i := i + 1;
        }
      }
      forall n | n in old(nodes) && x.height < old(n.height)
        ensures n in nodes && n.height == old(n.height) && n.parent == old(n.parent) && n.flat == old(n.flat)
             && n.keys == old(n.keys) && n.ptrs == old(n.ptrs) && n.kidFlats == old(n.kidFlats)
             && n.isInternal == old(n.isInternal)
      {
        assert n != x;
      }
    }

    // The kid is to hold `k` as well.
    ghost method PromiseWith(x: Node, i: nat, y: Node, k: int)
      requires Shaped() && x in nodes && Belongs(x, i, k) && y == x.ptrs[i] && Whole(y)
      requires Sorted(x.Woven()) && x.flat == With(x.Woven(), k)
      modifies x`kidFlats, y`flat
      ensures Shaped() && Whole(x) && Sorted(y.Woven()) && y.flat == With(y.Woven(), k) && y.height + 1 == x.height
    {
      hide Front, Back, Weave, With;
      assert Linked(x);
      var f := With(y.flat, k);
      assert Sorted(y.flat) && x.flat == Weave(x.keys, x.kidFlats[i := f]) by {
        KidWith(x.keys, x.kidFlats, i, k);
      }
      Promise(x, i, y, f);
    }

    // __kb_putp_aux. The node already says that `k` is there.
    method PutAux(x: Node, k: int)
      requires Shaped() && x in nodes && WholeUpTo(x) && |x.keys| < 2 * t - 1
      requires Sorted(x.Woven()) && x.flat == With(x.Woven(), k)
      modifies this`nodes, nodes
      ensures Shaped() && WholeUpTo(x) && Whole(x) && AboveKept(x) && root == old(root) && fresh(nodes - old(nodes))
      ensures |old(x.keys)| <= |x.keys|
      decreases x.height
    {
      hide Sorted, With, Weave, Shaped, Belongs, AllLinked, AllFilled;
      OfLeaf(x);
      if !x.isInternal {
        PutInLeaf(x, k);
      } else {
        var i := ChooseKid(x, k);
        label chosen:
        PutBelow(x, i, k);
        forall n | n in nodes && x.height <= n.height
          ensures n in old(nodes)
        {
          assert n in old@chosen(nodes) && old@chosen(n.height) == n.height;
        }
        forall n | n in old(nodes) && x.height < old(n.height)
          ensures n in nodes && n.height == old(n.height) && n.parent == old(n.parent) && n.flat == old(n.flat)
               && n.keys == old(n.keys) && n.ptrs == old(n.ptrs) && n.kidFlats == old(n.kidFlats)
               && n.isInternal == old(n.isInternal)
        {
          assert n in old@chosen(nodes) && old@chosen(n.height) == old(n.height);
        }
      }
    }

    lemma OfLeaf(x: Node)
      requires Shaped() && x in nodes
      ensures x.Own() && (!x.isInternal ==> x.Woven() == x.keys)
    {
      assert Linked(x);
    }

    method PutInLeaf(x: Node, k: int)
      requires Shaped() && x in nodes && |x.keys| < 2 * t - 1 && !x.isInternal
      requires Sorted(x.keys) && x.flat == With(x.keys, k)
      modifies x`keys
      ensures Shaped() && Whole(x) && |old(x.keys)| <= |x.keys|
    {
      assert Linked(x) && Filled(x);
      x.InsertKey(k);
      assert Linked(x) && Filled(x);
      EditedIsShaped({x});
    }

    // Nodes beside `x` were not touched below it.
    twostate lemma KeptWhole(new p: (Node, Node))
      requires AboveKept(p.1) && WholeUpTo(p.1) && Whole(p.1) && p.0.height == p.1.height + 1
      requires p.0 in old(nodes) && forall n
        {:trigger old(Whole(n))} :: n in old(nodes) && old(n.height) == p.0.height && n != p.0 ==> old(Whole(n))
      ensures WholeUpTo(p.0)
    {
      var x, y := p.0, p.1;
      forall n {:trigger Whole(n)} | n in nodes && n.height <= x.height && n != x
        ensures Whole(n)
      {
        if n.height == x.height {
          assert old(Whole(n));
        }
      }
    }

    method PutBelow(x: Node, i: nat, k: int)
      requires Shaped() && x in nodes && WholeUpTo(x) && Belongs(x, i, k) && |x.ptrs[i].keys| < 2 * t - 1
      requires Sorted(x.Woven()) && x.flat == With(x.Woven(), k)
      modifies this`nodes, nodes
      ensures Shaped() && WholeUpTo(x) && Whole(x) && AboveKept(x) && root == old(root) && fresh(nodes - old(nodes))
      ensures x.keys == old(x.keys)
      decreases x.height, 0
    {
      assert Linked(x);
      var y := x.ptrs[i];
      assert Whole(y);
      hide Sorted, With, Weave, Keys, Linked, AllFilled, Filled;
      PromiseWith(x, i, y, k);
      label promised:
      PutAux(y, k);
      KeptWhole@promised((x, y));
      assert x.keys == old(x.keys);
      forall n | n in old(nodes) && x.height < old(n.height)
        ensures n in nodes && n.height == old(n.height) && n.parent == old(n.parent) && n.flat == old(n.flat)
             && n.keys == old(n.keys) && n.ptrs == old(n.ptrs) && n.kidFlats == old(n.kidFlats)
             && n.isInternal == old(n.isInternal)
      {
        assert n != x && n != y;
      }
    }

    // A well-formed tree: every node holds what it says, and all keys are in
    // order.
    ghost predicate AlmostSettled()
      reads this`root, this`nodes, nodes
    {
      Shaped() && Sorted(root.flat) && AllWhole()
    }

    ghost predicate AllWhole()
      reads this`nodes, nodes
    {
      forall n {:trigger Whole(n)} :: n in nodes ==> Whole(n)
    }

    // ... and an internal root has a key.
    ghost predicate Settled()
      reads this`root, this`nodes, nodes
    {
      AlmostSettled() && (root.isInternal ==> root.keys != [])
    }

    ghost predicate Valid()
      reads this, nodes
    {
      Settled() && nKeys == |root.flat|
    }

    // All keys in order.
    ghost function Content(): seq<int>
      requires root in nodes
      reads this, nodes
    {
      root.flat
    }

    // After a change below `x`, and at `x` itself.
    twostate lemma KeptAllWhole(new x: Node)
      requires AboveKept(x) && WholeUpTo(x) && Whole(x)
      requires forall n {:trigger old(Whole(n))} :: n in old(nodes) && n != x ==> old(Whole(n))
      ensures AllWhole()
    {
      forall n {:trigger Whole(n)} | n in nodes
        ensures Whole(n)
      {
        assert x.height < n.height ==> old(Whole(n));
      }
    }

    lemma OneKid(f: seq<int>)
      ensures Weave([], [f]) == f == Keys(true, [], [f])
    {
    }

    // A full root becomes the only kid of a new root.
    method GrowRoot()
      requires Settled() && |root.keys| == 2 * t - 1
      modifies this`root, this`nodes, nodes
      ensures Shaped() && AllWhole() && root.flat == old(root.flat) && fresh(nodes - old(nodes))
      ensures fresh(root) && root.isInternal && root.keys == [] && root.ptrs == [old(root)]
        && old(root).keys == old(root.keys)
    {
      var r := root;
      var s := new Node(true);
      assert Linked(r);
      OneKid(r.flat);
      hide Sorted, Weave, Keys;
      root := s;
      s.ptrs := [r];
      s.height, s.flat, s.kidFlats, r.parent := r.height + 1, r.flat, [r.flat], s;
      nodes := nodes + {s};
      assert Linked(r) && Linked(s) && Filled(r) && Filled(s);
      EditedIsShaped({r, s});
      forall n {:trigger Whole(n)} | n in nodes
        ensures Whole(n)
      {
        assert n != s ==> old(Whole(n));
      }
    }

    // The root is to hold `f`.
    ghost method PromiseRoot(f: seq<int>)
      requires Shaped() && AllWhole()
      modifies root`flat
      ensures Shaped() && WholeUpTo(root) && root.flat == f
      ensures forall n {:trigger Whole(n)} :: n in nodes && n != root ==> Whole(n)
    {
      assert Linked(root) && Filled(root);
      root.flat := f;
      assert Linked(root) && Filled(root);
      EditedIsShaped({root});
      forall n {:trigger Whole(n)} | n in nodes && n != root
        ensures Whole(n)
      {
        assert old(Whole(n));
      }
    }

    // kb_putp.
    method Put(k: int)
      requires Valid()
      modifies this`root, this`nodes, this`nKeys, nodes
      ensures Valid() && Content() == With(old(Content()), k)
    {
      nKeys := nKeys + 1;
      MakeRoom();
      PutInRoot(k);
    }

    // A full root is split.
    method MakeRoom()
      requires Settled()
      modifies this`root, this`nodes, nodes
      ensures Settled() && |root.keys| < 2 * t - 1 && root.flat == old(root.flat) && fresh(nodes - old(nodes))
    {
      assert Linked(root) && Filled(root);
      if |root.keys| == 2 * t - 1 {
        GrowRoot();
        assert Linked(root) && Filled(root) && Whole(root);
        label grown:
        Split(root, 0);
        assert Linked(root) && Whole(root);
        KeptAllWhole@grown(root);
      }
    }

    method PutInRoot(k: int)
      requires Settled() && |root.keys| < 2 * t - 1
      modifies this`nodes, nodes
      ensures Settled() && root == old(root) && root.flat == With(old(root.flat), k)
    {
      WithIsSorted(root.flat, k);
      assert Whole(root);
      PromiseRoot(With(root.flat, k));
      label promised:
      PutAux(root, k);
      KeptAllWhole@promised(root);
    }

    // ---- Removal ------------------------------------------------------------

    // p.1 and p.2, neighbours below p.0, shared their kids out anew; p.4 is the
    // one of them that got a kid.
    twostate predicate Shifted(new p: (Node, Node, Node, nat, Node))
      reads this, nodes, p.0, p.1, p.2, p.4
    {
      var x, y, z, i, r := p.0, p.1, p.2, p.3, p.4;
      && x in old(nodes) && y in old(nodes) && z in old(nodes) && nodes == old(nodes) && (r == y || r == z)
      && Edited({x, y, z}) && x.Neighbours(i, y, z) && y.height == z.height && y.height + 1 == x.height
      && Reshared(old(y.ptrs), old(z.ptrs), y.ptrs, z.ptrs)
      && Reshared(old(y.kidFlats), old(z.kidFlats), y.kidFlats, z.kidFlats)
      && (if r == y then |old(y.ptrs)| <= |y.ptrs| else |y.ptrs| <= |old(y.ptrs)|)
      && (forall n {:trigger n.parent} :: n in nodes ==> n.parent == if n in r.ptrs then r else old(n.parent))
      && (forall n {:trigger n.flat} :: n in nodes && n != y && n != z ==> n.flat == old(n.flat))
      && x.ptrs == old(x.ptrs) && |x.kidFlats| == |old(x.kidFlats)|
      && forall j {:trigger x.kidFlats[j]} :: 0 <= j < |x.kidFlats| && j != i && j != i + 1 ==>
        x.kidFlats[j] == old(x.kidFlats)[j]
    }

    // Nodes below `x` hold what they say when these two do.
    twostate lemma EditedWhole(new p: (Node, Node, Node))
      requires Edited({p.0, p.1, p.2}) && (p.1 in nodes ==> Whole(p.1)) && (p.2 in nodes ==> Whole(p.2))
      requires var x := p.0; x in old(nodes) && x in nodes && old(WholeUpTo(x))
      requires forall n {:trigger n.flat} :: n in nodes && n != p.1 && n != p.2 ==> n.flat == old(n.flat)
      ensures WholeUpTo(p.0)
    {
      var x := p.0;
      forall n {:trigger Whole(n)} | n in nodes && n.height <= x.height && n != x
        ensures Whole(n)
      {
        assert n != p.1 && n != p.2 ==> old(Whole(n));
      }
    }

    twostate lemma ShiftedLower(new p: (Node, Node, Node, nat, Node))
      requires Shifted(p) && old(AllLinked())
      ensures Linked(p.1)
    {
      var y, z := p.1, p.2;
      assert old(Linked(y)) && old(Linked(z));
    }

    twostate lemma ShiftedUpper(new p: (Node, Node, Node, nat, Node))
      requires Shifted(p) && old(AllLinked())
      ensures Linked(p.2)
    {
      var y, z := p.1, p.2;
      assert old(Linked(y)) && old(Linked(z));
    }

    twostate lemma ShiftedParent(new p: (Node, Node, Node, nat, Node))
      requires Shifted(p) && old(AllLinked())
      ensures Linked(p.0)
    {
      var x, y, z := p.0, p.1, p.2;
      assert old(Linked(x)) && old(Linked(y)) && old(Linked(z));
    }

    // p.2 was merged into p.1, its neighbour below p.0.
    twostate predicate Merged(new p: (Node, Node, Node, nat))
      reads this, nodes, p.0, p.1, p.2
    {
      var x, y, z, i := p.0, p.1, p.2, p.3;
      && x in old(nodes) && y in old(nodes) && z in old(nodes) && nodes == old(nodes) - {z}
      && x != y && y != z && z != x && Edited({x, y, z}) && y.Own() && x.Own() && y.height + 1 == x.height
      && old(z.height) == y.height && |old(y.ptrs)| == |old(y.kidFlats)| && |old(z.ptrs)| == |old(z.kidFlats)|
      && y.ptrs == old(y.ptrs) + old(z.ptrs) && y.kidFlats == old(y.kidFlats) + old(z.kidFlats)
      && (forall n {:trigger n.parent} :: n in nodes ==> n.parent == if n in y.ptrs then y else old(n.parent))
      && (forall n {:trigger n.flat} :: n in nodes && n != y ==> n.flat == old(n.flat))
      && KidDropped(x, i, old(x.ptrs), old(x.kidFlats)) && x.kidFlats[i] == y.flat && x.ptrs[i] == y
      && old(x.ptrs)[i + 1] == z
    }

    twostate lemma MergedKid(new p: (Node, Node, Node, nat))
      requires Merged(p) && old(Shaped())
      ensures Linked(p.1)
    {
      var y, z := p.1, p.2;
      assert old(Linked(y)) && old(Linked(z));
    }

    // Both kids had the least number of keys.
    twostate lemma MergedFilled(new p: (Node, Node, Node, nat))
      requires Merged(p) && old(Shaped()) && root == old(root) && p.1.Woven() == p.1.flat && p.3 < |old(p.0.keys)|
      requires p.0.keys == JoinedKeys(old(p.0.keys), p.3) && |p.1.keys| == 2 * t - 1
        && (old(p.0.parent) != null ==> t <= |old(p.0.keys)|)
      ensures Filled(p.0) && Filled(p.1) && Whole(p.1) && root in nodes && root.parent == null
        && |p.0.keys| == |old(p.0.keys)| - 1
    {
      hide Weave, Keys, Edited;
      MergedAbove(p);
      assert old(Linked(p.0)) && old(Linked(p.1)) && old(Linked(p.2)) && old(Filled(p.0));
    }

    // What a merge leaves as it was.
    twostate lemma MergedFacts(new p: (Node, Node, Node, nat))
      requires Merged(p)
      ensures var x, y, z, i := p.0, p.1, p.2, p.3;
        && Edited({x, y, z}) && x in old(nodes) && x in nodes && y in nodes && z !in nodes && nodes <= old(nodes)
        && |old(x.ptrs)| == |x.ptrs| + 1 && i < |x.ptrs| && x.ptrs[i] == y && (x in y.ptrs || x.parent == old(x.parent))
      ensures forall n {:trigger n.flat} :: n in nodes && n != p.1 ==> n.flat == old(n.flat)
      ensures forall n {:trigger n.parent} :: n in nodes && n !in p.1.ptrs ==> n.parent == old(n.parent)
    {
    }

    twostate lemma MergedAbove(new p: (Node, Node, Node, nat))
      requires Merged(p) && old(Shaped())
      ensures AboveKept(p.0) && p.0.parent == old(p.0.parent) && p.1.parent == p.0
    {
      assert old(Linked(p.0)) && old(Linked(p.1)) && old(Linked(p.2));
    }

    twostate lemma MergedParent(new p: (Node, Node, Node, nat))
      requires Merged(p) && old(Shaped())
      ensures Linked(p.0)
    {
      var x, y, z := p.0, p.1, p.2;
      assert old(Linked(x)) && old(Linked(y)) && old(Linked(z));
    }

    method ShiftRightNodes(x: Node, i: nat, y: Node, z: Node)
      requires Shaped() && x in nodes && x.Neighbours(i, y, z) && y.keys != []
      modifies nodes
      ensures Shifted((x, y, z, i, z)) && x.Woven() == old(x.Woven()) && |x.keys| == |old(x.keys)|
      ensures |y.keys| == |old(y.keys)| - 1 && |z.keys| == |old(z.keys)| + 1
      ensures forall v :: v in old(z.flat) ==> v in z.flat
    {
      hide AllFilled, Filled, Weave, Keys, Sorted;
      assert Linked(x) && Linked(y) && Linked(z);
      x.ShiftRight(i, y, z);
      Adopt(z);
    }

    method ShiftLeftNodes(x: Node, i: nat, y: Node, z: Node)
      requires Shaped() && x in nodes && x.Neighbours(i, y, z) && z.keys != []
      modifies nodes
      ensures Shifted((x, y, z, i, y)) && x.Woven() == old(x.Woven()) && |x.keys| == |old(x.keys)|
      ensures |y.keys| == |old(y.keys)| + 1 && |z.keys| == |old(z.keys)| - 1
      ensures forall v :: v in old(y.flat) ==> v in y.flat
    {
      hide AllFilled, Filled, Weave, Keys, Sorted;
      assert Linked(x) && Linked(y) && Linked(z);
      x.ShiftLeft(i, y, z);
      Adopt(y);
    }

    method MergeNodes(x: Node, i: nat, y: Node, z: Node)
      requires Shaped() && x in nodes && x.Neighbours(i, y, z)
      modifies this`nodes, nodes
      ensures Merged((x, y, z, i)) && x.Woven() == old(x.Woven()) && x.keys == JoinedKeys(old(x.keys), i)
      ensures |y.keys| == |old(y.keys)| + 1 + |z.keys|
        && y.flat == y.Woven() == old(y.flat) + [old(x.keys)[i]] + old(z.flat)
    {
      hide AllFilled, Filled, Weave, Keys, Fits, Sorted, JoinedKeys, JoinedKids;
      assert Linked(x) && Linked(y) && Linked(z);
      x.TakeAll(i, y, z);
      nodes := nodes - {z};
      Adopt(y);
    }

    // The neighbours of an internal node hold what they say.
    lemma KidsAreNeighbours(x: Node, i: nat)
      requires Shaped() && x in nodes && WholeUpTo(x) && i + 1 < |x.ptrs|
      ensures x.Neighbours(i, x.ptrs[i], x.ptrs[i + 1])
    {
      var y, z := x.ptrs[i], x.ptrs[i + 1];
      assert Linked(x) && Linked(y) && Linked(z);
      assert Whole(y) && Whole(z);
    }

    method BorrowLeft(x: Node, i: nat)
      requires Shaped() && x in nodes && WholeUpTo(x) && i + 1 < |x.ptrs|
      requires t <= |x.ptrs[i].keys| && |x.ptrs[i + 1].keys| == t - 1
      modifies nodes
      ensures Shaped() && WholeUpTo(x) && AboveKept(x) && nodes == old(nodes)
      ensures x.Woven() == old(x.Woven()) && |x.keys| == |old(x.keys)| && x.ptrs == old(x.ptrs)
      ensures var z := x.ptrs[i + 1]; |z.keys| == t && forall v :: v in old(z.flat) ==> v in z.flat
    {
      var y, z := x.ptrs[i], x.ptrs[i + 1];
      KidsAreNeighbours(x, i);
      hide Reshared, Weave, Keys, Fits, Sorted, Shifted, Edited;
      assert Linked(x) && Filled(x) && Filled(y) && Filled(z);
      ShiftRightNodes(x, i, y, z);
      ShiftedLower((x, y, z, i, z));
      ShiftedUpper((x, y, z, i, z));
      ShiftedParent((x, y, z, i, z));
      EditedWhole((x, y, z));
      assert Filled(x) && Filled(y) && Filled(z);
      EditedIsShaped({x, y, z});
    }

    method BorrowRight(x: Node, i: nat)
      requires Shaped() && x in nodes && WholeUpTo(x) && i + 1 < |x.ptrs|
      requires t <= |x.ptrs[i + 1].keys| && |x.ptrs[i].keys| == t - 1
      modifies nodes
      ensures Shaped() && WholeUpTo(x) && AboveKept(x) && nodes == old(nodes)
      ensures x.Woven() == old(x.Woven()) && |x.keys| == |old(x.keys)| && x.ptrs == old(x.ptrs)
      ensures var y := x.ptrs[i]; |y.keys| == t && forall v :: v in old(y.flat) ==> v in y.flat
    {
      var y, z := x.ptrs[i], x.ptrs[i + 1];
      KidsAreNeighbours(x, i);
      assert Linked(x) && Filled(x) && Filled(y) && Filled(z);
      ShiftLeftNodes(x, i, y, z);
      ShiftedLower((x, y, z, i, y));
      ShiftedUpper((x, y, z, i, y));
      ShiftedParent((x, y, z, i, y));
      EditedWhole((x, y, z));
      assert Filled(x) && Filled(y) && Filled(z);
      EditedIsShaped({x, y, z});
    }

    method Merge(x: Node, i: nat)
      requires Shaped() && x in nodes && WholeUpTo(x) && i + 1 < |x.ptrs|
      requires |x.ptrs[i].keys| == |x.ptrs[i + 1].keys| == t - 1 && (x.parent != null ==> t <= |x.keys|)
      modifies this`nodes, nodes
      ensures Shaped() && WholeUpTo(x) && AboveKept(x) && nodes <= old(nodes)
      ensures x.Woven() == old(x.Woven()) && |x.keys| == |old(x.keys)| - 1 && |x.ptrs| == |old(x.ptrs)| - 1
      ensures x.ptrs[i] == old(x.ptrs[i]) && |x.ptrs[i].keys| == 2 * t - 1
      ensures |old(x.ptrs)| == |old(x.keys)| + 1
        && x.ptrs[i].flat == old(x.ptrs[i].flat) + [old(x.keys)[i]] + old(x.ptrs[i + 1].flat)
    {
      var y, z := x.ptrs[i], x.ptrs[i + 1];
      KidsAreNeighbours(x, i);
      hide *;
      MergeNodes(x, i, y, z);
      MergedKid((x, y, z, i));
      MergedParent((x, y, z, i));
      MergedFacts((x, y, z, i));
      MergedAbove((x, y, z, i));
      MergedFilled((x, y, z, i));
      EditedWhole((x, y, z));
      EditedIsShaped({x, y, z});
    }

    // Which key goes: `k` itself, or with mode 1 the last and with mode 2 the
    // first of all.
    ghost predicate Goes(f: seq<int>, k: int, s: nat, g: int) {
      && s <= 2 && g in f && (s == 0 ==> g == k) && (s == 1 ==> g == f[|f| - 1]) && (s == 2 ==> g == f[0])
    }

    // `x` can spare a key and has a neighbour for every kid.
    ghost predicate Spare(x: Node)
      reads x
    {
      (x.parent != null ==> t <= |x.keys|) && (x.isInternal ==> x.keys != [])
    }

    // What every step of a removal needs.
    ghost predicate Removing(x: Node, k: int, s: nat, g: int)
      reads this`root, this`nodes, nodes, x
    {
      && Shaped() && x in nodes && WholeUpTo(x) && Spare(x)
      && Sorted(x.Woven()) && Goes(x.Woven(), k, s, g) && x.flat == Without(x.Woven(), g)
    }

    // Every kid holds something.
    lemma KidHasKeys(x: Node, i: nat)
      requires Shaped() && x in nodes && WholeUpTo(x) && i < |x.ptrs|
      ensures x.ptrs[i].flat != []
    {
      var y := x.ptrs[i];
      assert Linked(x) && Linked(y) && Filled(y);
      assert Whole(y);
      HoldsKeys(y.isInternal, y.keys, y.kidFlats);
    }

    // The kid behind key `i` holds what goes, if it is not that key.
    lemma GoesBelow(x: Node, k: int, s: nat, g: int, i: int)
      requires Shaped() && x in nodes && WholeUpTo(x) && x.isInternal && -1 <= i < |x.keys|
      requires Sorted(x.Woven()) && Goes(x.Woven(), k, s, g)
      requires s == 0 ==> (forall j :: 0 <= j <= i ==> x.keys[j] < k) && forall j :: i < j < |x.keys| ==> k < x.keys[j]
      requires (s == 1 ==> i + 1 == |x.keys|) && (s == 2 ==> i == -1)
      ensures |x.ptrs| == |x.keys| + 1 && g in x.ptrs[i + 1].flat
    {
      hide Sorted, Weave, Front, Back;
      assert Linked(x);
      KidHasKeys(x, i + 1);
      if s == 0 {
        KidHolds(x.keys, x.kidFlats, i + 1, k);
      } else if s == 1 {
        LastIsInLast(x.keys, x.kidFlats);
      } else {
        FirstIsInFirst(x.keys, x.kidFlats);
      }
    }

    // Where to look for what goes.
    method Locate(x: Node, k: int, s: nat, ghost g: int) returns (i: int, r: int)
      requires Shaped() && x in nodes && WholeUpTo(x) && Sorted(x.Woven()) && Goes(x.Woven(), k, s, g)
      requires x.isInternal ==> x.keys != []
      ensures !x.isInternal ==> 0 <= i < |x.keys| && x.keys[i] == g
      ensures x.isInternal && r == 0 ==> s == 0 && 0 <= i < |x.keys| && x.keys[i] == k
      ensures x.isInternal && r != 0 ==>
        && -1 <= i < |x.keys| && |x.ptrs| == |x.keys| + 1 && g in x.ptrs[i + 1].flat
        && (s == 1 ==> i + 1 == |x.keys|) && (s == 2 ==> i == -1)
    {
      assert Linked(x);
      KeysInOrder(x.isInternal, x.keys, x.kidFlats);
      if s != 0 {
        r := if !x.isInternal then 0 else if s == 1 then 1 else -1;
        i := if s == 1 then |x.keys| - 1 else -1;
      } else {
        i, r := x.GetAux(k);
      }
      if !x.isInternal {
        if s == 2 {
          i := i + 1;
        }
      } else if r != 0 {
        GoesBelow(x, k, s, g, i);
      }
    }

    // __kb_delp_aux: removes `g`, which the node no longer says it holds.
    method DelAux(x: Node, k: int, s: nat, ghost g: int) returns (ret: int)
      requires Removing(x, k, s, g)
      modifies this`nodes, nodes
      ensures Shaped() && WholeUpTo(x) && Whole(x) && AboveKept(x) && nodes <= old(nodes) && ret == g
      decreases x.height
    {
      assert Linked(x);
      var i, r := Locate(x, k, s, g);
      if !x.isInternal {
        ret := DelInLeaf(x, i, g);
      } else if r == 0 {
        ret := DelHere(x, k, i);
      } else {
        ret := DelBelow(x, k, s, i + 1, g);
      }
    }

    method DelInLeaf(x: Node, i: nat, ghost g: int) returns (ret: int)
      requires Shaped() && x in nodes && !x.isInternal && Spare(x)
      requires Sorted(x.keys) && i < |x.keys| && x.keys[i] == g && x.flat == Without(x.keys, g)
      modifies x`keys
      ensures Shaped() && Whole(x) && ret == g
    {
      assert Linked(x) && Filled(x);
      ret := x.keys[i];
      WithoutAt(x.keys, i);
      x.keys := x.keys[..i] + x.keys[i + 1..];
      assert Linked(x) && Filled(x);
      EditedIsShaped({x});
    }

    // The kid is to hold one `g` less.
    ghost method PromiseWithout(x: Node, i: nat, y: Node, g: int)
      requires Shaped() && x in nodes && i < |x.ptrs| && y == x.ptrs[i] && Whole(y) && g in y.flat
      requires Sorted(x.Woven()) && x.flat == Without(x.Woven(), g)
      modifies x`kidFlats, y`flat
      ensures Shaped() && Whole(x) && Sorted(y.Woven()) && y.flat == Without(y.Woven(), g) && y.height + 1 == x.height
    {
      hide Front, Back, Weave, Without;
      assert Linked(x);
      var f := Without(y.flat, g);
      assert Sorted(y.flat) && x.flat == Weave(x.keys, x.kidFlats[i := f]) by {
        KidWithout(x.keys, x.kidFlats, i, g);
      }
      Promise(x, i, y, f);
    }

    // Goes on with a kid that can spare a key.
    method DelKid(x: Node, k: int, s: nat, i: nat, ghost g: int) returns (ret: int)
      requires Shaped() && x in nodes && WholeUpTo(x) && i < |x.ptrs| && t <= |x.ptrs[i].keys|
      requires Sorted(x.Woven()) && x.flat == Without(x.Woven(), g) && Goes(x.ptrs[i].flat, k, s, g)
      modifies this`nodes, nodes
      ensures Shaped() && WholeUpTo(x) && Whole(x) && AboveKept(x) && nodes <= old(nodes) && ret == g
      decreases x.height, 0
    {
      hide Sorted, Without, Weave, Front, Back;
      assert Linked(x);
      var y := x.ptrs[i];
      assert Whole(y);
      PromiseWithout(x, i, y, g);
      label promised:
      ret := DelAux(y, k, s, g);
      KeptWhole@promised((x, y));
      forall n | n in old(nodes) && x.height < old(n.height)
        ensures n in nodes && n.height == old(n.height) && n.parent == old(n.parent) && n.flat == old(n.flat)
             && n.keys == old(n.keys) && n.ptrs == old(n.ptrs) && n.kidFlats == old(n.kidFlats)
             && n.isInternal == old(n.isInternal)
      {
        assert n != x && n != y;
      }
    }

    // A kid with too few keys gets one from a neighbour, or is merged with it.
    method Refill(x: Node, i: nat) returns (j: nat)
      requires Shaped() && x in nodes && WholeUpTo(x) && Spare(x) && i < |x.ptrs| && |x.ptrs[i].keys| == t - 1
      modifies this`nodes, nodes
      ensures Shaped() && WholeUpTo(x) && AboveKept(x) && nodes <= old(nodes) && x.Woven() == old(x.Woven())
      ensures j < |x.ptrs| && t <= |x.ptrs[j].keys| && (i == 0 ==> j == 0)
        && (i + 1 == |old(x.ptrs)| ==> j + 1 == |x.ptrs|)
      ensures var f, y := old(x.ptrs[i].flat), x.ptrs[j]; forall v :: v in f ==> v in y.flat
    {
      assert Linked(x);
      j := i;
      if i > 0 && |x.ptrs[i - 1].keys| >= t {
        BorrowLeft(x, i - 1);
      } else if i < |x.keys| && |x.ptrs[i + 1].keys| >= t {
        BorrowRight(x, i);
      } else if i > 0 {
        assert Filled(x.ptrs[i - 1]);
        Merge(x, i - 1);
        j := i - 1;
      } else {
        assert Filled(x.ptrs[i + 1]);
        Merge(x, i);
      }
    }

    lemma GoesInKid(x: Node, i: nat, k: int, s: nat, g: int)
      requires x in nodes && Linked(x) && x.isInternal && Goes(x.Woven(), k, s, g) && i < |x.ptrs|
        && g in x.ptrs[i].flat
      requires (s == 1 ==> i + 1 == |x.ptrs|) && (s == 2 ==> i == 0)
      ensures Goes(x.ptrs[i].flat, k, s, g)
    {
      if s == 1 {
        LastIsInLast(x.keys, x.kidFlats);
      } else if s == 2 {
        FirstIsInFirst(x.keys, x.kidFlats);
      }
    }

    // The key that goes is further down, in kid `i`.
    method DelBelow(x: Node, k: int, s: nat, i: nat, ghost g: int) returns (ret: int)
      requires Removing(x, k, s, g) && x.isInternal && i < |x.ptrs| && g in x.ptrs[i].flat
      requires (s == 1 ==> i + 1 == |x.ptrs|) && (s == 2 ==> i == 0)
      modifies this`nodes, nodes
      ensures Shaped() && WholeUpTo(x) && Whole(x) && AboveKept(x) && nodes <= old(nodes) && ret == g
      decreases x.height, 1
    {
      assert Linked(x) && Filled(x.ptrs[i]);
      var j := i;
      if |x.ptrs[i].keys| == t - 1 {
        j := Refill(x, i);
        assert Linked(x);
      }
      GoesInKid(x, j, k, s, g);
      label refilled:
      ret := DelKid(x, k, s, j, g);
      forall n | n in old(nodes) && x.height < old(n.height)
        ensures n in nodes && n.height == old(n.height) && n.parent == old(n.parent) && n.flat == old(n.flat)
             && n.keys == old(n.keys) && n.ptrs == old(n.ptrs) && n.kidFlats == old(n.kidFlats)
             && n.isInternal == old(n.isInternal)
      {
        assert old@refilled(n.height) == old(n.height);
      }
    }

    // The key that goes is key `i` of this node.
    method DelHere(x: Node, k: int, i: nat) returns (ret: int)
      requires Removing(x, k, 0, k) && x.isInternal && i < |x.keys| && x.keys[i] == k
      modifies this`nodes, nodes
      ensures Shaped() && WholeUpTo(x) && Whole(x) && AboveKept(x) && nodes <= old(nodes) && ret == k
      decreases x.height, 2
    {
      assert Linked(x);
      if |x.ptrs[i].keys| >= t {
        ret := DelByLast(x, i);
      } else if |x.ptrs[i + 1].keys| >= t {
        ret := DelByFirst(x, i);
      } else {
        assert Filled(x.ptrs[i]) && Filled(x.ptrs[i + 1]);
        Merge(x, i);
        ret := DelKid(x, k, 0, i, k);
      }
    }

    method SetKey(x: Node, i: nat, v: int)
      requires Shaped() && x in nodes && WholeUpTo(x) && i < |x.keys|
      modifies x`keys
      ensures Shaped() && WholeUpTo(x) && x.keys == old(x.keys)[i := v]
    {
      assert Linked(x) && Filled(x);
      x.keys := x.keys[i := v];
      assert Linked(x) && Filled(x);
      EditedIsShaped({x});
      forall n {:trigger Whole(n)} | n in nodes && n.height <= x.height && n != x
        ensures Whole(n)
      {
        assert old(Whole(n));
      }
    }

    // The largest key of kid `j`, or with mode 2 the smallest, takes the place
    // of key `i`.
    method ExchangeKey(x: Node, i: nat, j: nat, s: nat, ghost v: int) returns (kp: int)
      requires Shaped() && x in nodes && WholeUpTo(x) && x.isInternal && i < |x.keys|
        && j < |x.ptrs| == |x.kidFlats| == |x.keys| + 1
      requires t <= |x.ptrs[j].keys| && Sorted(x.ptrs[j].flat) && s != 0 && Goes(x.ptrs[j].flat, 0, s, v)
      requires x.flat == Weave(x.keys[i := v], x.kidFlats[j := Without(x.ptrs[j].flat, v)])
      modifies this`nodes, nodes
      ensures Shaped() && WholeUpTo(x) && Whole(x) && AboveKept(x) && nodes <= old(nodes) && kp == old(x.keys)[i]
      decreases x.height, 0
    {
      hide Front, Back, Weave, Without, Sorted;
      assert Linked(x);
      var y := x.ptrs[j];
      assert Whole(y);
      kp := x.keys[i];
      Promise(x, j, y, Without(y.flat, v));
      label promised:
      var p := DelAux(y, 0, s, v);
      KeptWhole@promised((x, y));
      SetKey(x, i, p);
      forall n | n in old(nodes) && x.height < old(n.height)
        ensures n in nodes && n.height == old(n.height) && n.parent == old(n.parent) && n.flat == old(n.flat)
             && n.keys == old(n.keys) && n.ptrs == old(n.ptrs) && n.kidFlats == old(n.kidFlats)
             && n.isInternal == old(n.isInternal)
      {
        assert n != x && n != y;
      }
    }

    method DelByLast(x: Node, i: nat) returns (kp: int)
      requires Shaped() && x in nodes && WholeUpTo(x) && x.isInternal && i < |x.keys| && |x.ptrs| == |x.keys| + 1
        && t <= |x.ptrs[i].keys|
      requires Sorted(x.Woven()) && x.flat == Without(x.Woven(), x.keys[i])
      modifies this`nodes, nodes
      ensures Shaped() && WholeUpTo(x) && Whole(x) && AboveKept(x) && nodes <= old(nodes) && kp == old(x.keys)[i]
      decreases x.height, 1
    {
      hide Front, Back, Weave, Without, Sorted;
      assert Linked(x);
      KidHasKeys(x, i);
      KidInOrder(x.keys, x.kidFlats, i);
      KeyByLast(x.keys, x.kidFlats, i);
      ghost var f := x.ptrs[i].flat;
      kp := ExchangeKey(x, i, i, 1, f[|f| - 1]);
    }

    method DelByFirst(x: Node, i: nat) returns (kp: int)
      requires Shaped() && x in nodes && WholeUpTo(x) && x.isInternal && i < |x.keys| && |x.ptrs| == |x.keys| + 1
        && t <= |x.ptrs[i + 1].keys|
      requires Sorted(x.Woven()) && x.flat == Without(x.Woven(), x.keys[i])
      modifies this`nodes, nodes
      ensures Shaped() && WholeUpTo(x) && Whole(x) && AboveKept(x) && nodes <= old(nodes) && kp == old(x.keys)[i]
      decreases x.height, 1
    {
      hide Front, Back, Weave, Without, Sorted;
      assert Linked(x);
      KidHasKeys(x, i + 1);
      KidInOrder(x.keys, x.kidFlats, i + 1);
      KeyByFirst(x.keys, x.kidFlats, i);
      kp := ExchangeKey(x, i, i + 1, 2, x.ptrs[i + 1].flat[0]);
    }

    // kb_delp. A root without keys gives way to its only kid.
    method Del(k: int) returns (ret: int)
      requires Valid() && k in Content()
      modifies this`root, this`nodes, this`nKeys, nodes
      ensures Valid() && Content() == Without(old(Content()), k) && ret == k
    {
      ret := DelInRoot(k);
      nKeys := nKeys - 1;
      if root.keys == [] && root.isInternal {
        LowerRoot();
      }
    }

    method DelInRoot(k: int) returns (ret: int)
      requires Settled() && k in root.flat
      modifies this`nodes, nodes
      ensures AlmostSettled() && root == old(root) && nodes <= old(nodes) && root.flat == Without(old(root.flat), k)
        && ret == k
    {
      WithoutIsSorted(root.flat, k);
      assert Whole(root);
      PromiseRoot(Without(root.flat, k));
      label promised:
      ret := DelAux(root, k, 0, k);
      KeptAllWhole@promised(root);
    }

    method LowerRoot()
      requires AlmostSettled() && root.keys == [] && root.isInternal
      modifies this`root, this`nodes, nodes
      ensures Settled() && root.flat == old(root.flat) && nodes <= old(nodes)
    {
      var x := root;
      assert Linked(x) && Whole(x);
      var y := x.ptrs[0];
      assert x.Woven() == [] + y.flat == y.flat;
      assert Linked(y) && Filled(y) && Whole(y);
      root := y;
      y.parent := null;
      nodes := nodes - {x};
      assert Linked(y) && Filled(y);
      EditedIsShaped({x, y});
    }

    // ---- Lookup -------------------------------------------------------------

    // `k` falls behind the first `p` keys of the node and before the others.
    ghost predicate FallsAt(x: Node, p: nat, k: int)
      reads x
    {
      && p <= |x.keys| && (forall j :: 0 <= j < p ==> x.keys[j] < k) && forall j :: p <= j < |x.keys| ==> k < x.keys[j]
    }

    // What a search looks through: `a` before the node, `b` behind it.
    ghost predicate Around3(x: Node, a: seq<int>, b: seq<int>)
      requires root in nodes
      reads this, nodes
    {
      x in nodes && a + x.flat + b == Content()
    }

    lemma InOrder(x: Node, a: seq<int>, b: seq<int>)
      requires Valid() && Around3(x, a, b)
      ensures x.flat == x.Woven() && Sorted(x.Woven()) && Sorted(x.keys) && Linked(x)
    {
      assert Whole(x) && Linked(x);
      SortedParts(a, x.flat, b);
      KeysInOrder(x.isInternal, x.keys, x.kidFlats);
    }

    // One level down.
    lemma StepDown(x: Node, a: seq<int>, b: seq<int>, p: nat)
      requires Valid() && Around3(x, a, b) && x.isInternal && p < |x.ptrs|
      ensures Linked(x) && Around3(x.ptrs[p], a + Front(x.keys, x.kidFlats, p), Back(x.keys, x.kidFlats, p) + b)
    {
      InOrder(x, a, b);
      Around(x.keys, x.kidFlats, p);
      var f, g := Front(x.keys, x.kidFlats, p), Back(x.keys, x.kidFlats, p);
      Nested(a, f, x.ptrs[p].flat, g, b);
    }

    // What is before and behind the kid cannot be `k`.
    lemma NotBeside(x: Node, a: seq<int>, b: seq<int>, p: nat, k: int)
      requires Valid() && Around3(x, a, b) && x.isInternal && FallsAt(x, p, k)
      ensures Linked(x)
      ensures forall v :: v in Front(x.keys, x.kidFlats, p) ==> v < k
      ensures forall v :: v in Back(x.keys, x.kidFlats, p) ==> k < v
      ensures p == 0 ==> Front(x.keys, x.kidFlats, p) == []
      ensures p == |x.keys| ==> Back(x.keys, x.kidFlats, p) == []
      ensures 0 < p ==> Front(x.keys, x.kidFlats, p) != [] && Last(Front(x.keys, x.kidFlats, p)) == x.keys[p - 1]
      ensures p < |x.keys| ==> Back(x.keys, x.kidFlats, p) != [] && Back(x.keys, x.kidFlats, p)[0] == x.keys[p]
    {
      InOrder(x, a, b);
      if 0 < p {
        FrontIsBelow(x.keys, x.kidFlats, p, x.keys[p - 1]);
      }
      if p < |x.keys| {
        BackIsAbove(x.keys, x.kidFlats, p, x.keys[p]);
      }
    }

    // A search has come to `x`: what is left aside is below or above `k`.
    ghost predicate Beside(x: Node, a: seq<int>, b: seq<int>, k: int)
      reads this, nodes
    {
      root in nodes && Around3(x, a, b) && (forall v :: v in a ==> v < k) && forall v :: v in b ==> k < v
    }

    lemma AtRoot(k: int)
      requires Valid()
      ensures root in nodes && Beside(root, [], [], k) && LastOf([]) == Nothing == FirstOf([])
    {
      assert [] + root.flat + [] == root.flat;
    }

    lemma HereInOrder(x: Node, a: seq<int>, b: seq<int>, k: int)
      requires Valid() && Beside(x, a, b, k)
      ensures x in nodes && Sorted(x.keys)
    {
      InOrder(x, a, b);
    }

    lemma Falls(x: Node, p: nat, k: int)
      requires p <= |x.keys| && (forall j :: 0 <= j < p ==> x.keys[j] < k) && forall j :: p <= j < |x.keys| ==>
        k < x.keys[j]
      ensures FallsAt(x, p, k)
    {
    }

    // The search goes on in the kid into which `k` falls.
    lemma GoDown(x: Node, a: seq<int>, b: seq<int>, p: nat, k: int)
      requires Valid() && Beside(x, a, b, k) && x.isInternal && FallsAt(x, p, k)
      ensures p < |x.ptrs| && x.ptrs[p].height < x.height && |x.kidFlats| == |x.ptrs| == |x.keys| + 1
      ensures
        var a', b' := a + Front(x.keys, x.kidFlats, p), Back(x.keys, x.kidFlats, p) + b;
        && Beside(x.ptrs[p], a', b', k)
        && LastOf(a') == (if 0 < p then Key(x.keys[p - 1]) else LastOf(a))
        && FirstOf(b') == if p < |x.keys| then Key(x.keys[p]) else FirstOf(b)
    {
      hide Sorted, Weave, Front, Back, LastOf, FirstOf;
      NotBeside(x, a, b, p, k);
      StepDown(x, a, b, p);
      EndsOf(a, Front(x.keys, x.kidFlats, p), Back(x.keys, x.kidFlats, p), b);
    }

    // kb_getp: the node and the place of `k`, or null.
    method Get(k: int) returns (x: Node?, i: int)
      requires Valid()
      ensures x == null <==> k !in Content()
      ensures x != null ==> x in nodes && 0 <= i < |x.keys| && x.keys[i] == k
    {
      hide *;
      AtRoot(k);
      var y := root;
      ghost var a: seq<int>, b: seq<int> := [], [];
      while true
        invariant Beside(y, a, b, k)
        decreases y.height
      {
        HereInOrder(y, a, b, k);
        var j, r := y.GetAux(k);
        if j >= 0 && r == 0 {
          KeyIsThere(y, a, b, j, k);
          return y, j;
        }
        Falls(y, j + 1, k);
        if !y.isInternal {
          EndInLeaf(y, a, b, j + 1, k);
          return null, 0;
        }
        GoDown(y, a, b, j + 1, k);
        a, b := a + Front(y.keys, y.kidFlats, j + 1), Back(y.keys, y.kidFlats, j + 1) + b;
        y := y.ptrs[j + 1];
      }
    }

    // The keys of every node are in the tree.
    lemma KeyIsThere(x: Node, a: seq<int>, b: seq<int>, i: nat, k: int)
      requires Valid() && Beside(x, a, b, k) && i < |x.keys| && x.keys[i] == k
      ensures k in Content() && IsLower(Content(), k, Key(k)) && IsUpper(Content(), k, Key(k))
    {
      InOrder(x, a, b);
      if x.isInternal {
        Around(x.keys, x.kidFlats, i);
        BackHas(x.keys, x.kidFlats, i, i);
      }
      assert x.keys[i] in x.flat;
    }

    // kb_intervalp: the greatest key up to `k` and the least key from `k` on.
    method Interval(k: int) returns (lower: Found, upper: Found)
      requires Valid()
      ensures IsLower(Content(), k, lower) && IsUpper(Content(), k, upper)
    {
      hide *;
      AtRoot(k);
      var x := root;
      ghost var a: seq<int>, b: seq<int> := [], [];
      lower, upper := Nothing, Nothing;
      while true
        invariant Beside(x, a, b, k) && lower == LastOf(a) && upper == FirstOf(b)
        decreases x.height
      {
        HereInOrder(x, a, b, k);
        var i, r := x.GetAux(k);
        if i >= 0 && r == 0 {
          KeyIsThere(x, a, b, i, k);
          return Key(x.keys[i]), Key(x.keys[i]);
        }
        Falls(x, i + 1, k);
        if i >= 0 {
          lower := Key(x.keys[i]);
        }
        if i < |x.keys| - 1 {
          upper := Key(x.keys[i + 1]);
        }
        if !x.isInternal {
          EndInLeaf(x, a, b, i + 1, k);
          return;
        }
        GoDown(x, a, b, i + 1, k);
        a, b := a + Front(x.keys, x.kidFlats, i + 1), Back(x.keys, x.kidFlats, i + 1) + b;
        x := x.ptrs[i + 1];
      }
    }

    // In a leaf the search is over.
    lemma EndInLeaf(x: Node, a: seq<int>, b: seq<int>, p: nat, k: int)
      requires Valid() && Beside(x, a, b, k) && !x.isInternal && FallsAt(x, p, k)
      ensures k !in Content()
      ensures IsLower(Content(), k, if 0 < p then Key(x.keys[p - 1]) else LastOf(a))
      ensures IsUpper(Content(), k, if p < |x.keys| then Key(x.keys[p]) else FirstOf(b))
    {
      InOrder(x, a, b);
      InOrder(root, [], []) by { assert [] + root.flat + [] == root.flat; }
      hide Sorted, Weave, IsLower, IsUpper, LastOf, FirstOf;
      NotAmong(a, x.keys, b, p, k);
    }

    // ---- Height -------------------------------------------------------------

    // A kid of height h holds at least t^(h+1) - 1 keys.
    lemma {:induction false} KidHoldsMany(x: Node)
      requires Shaped() && AllWhole() && x in nodes && x.parent != null
      ensures Pow(t, x.height + 1) <= |x.flat| + 1
      decreases x.height
    {
      assert Linked(x) && Filled(x) && Whole(x);
      if x.isInternal {
        var m := Pow(t, x.height);
        forall j | 0 <= j < |x.ptrs|
          ensures m <= |x.kidFlats[j]| + 1
        {
          KidHoldsMany(x.ptrs[j]);
        }
        WeaveGrows(x.keys, x.kidFlats, m);
        Times(t, |x.kidFlats|, m);
      }
    }

    // The tree is flat: an internal root of height h is above 2t^h - 1 keys.
    lemma HeightBound()
      requires Valid() && root.isInternal
      ensures 2 * Pow(t, root.height) <= nKeys + 1
    {
      assert Linked(root) && Whole(root);
      var m := Pow(t, root.height);
      forall j | 0 <= j < |root.ptrs|
        ensures m <= |root.kidFlats[j]| + 1
      {
        KidHoldsMany(root.ptrs[j]);
      }
      WeaveGrows(root.keys, root.kidFlats, m);
      Times(2, |root.kidFlats|, m);
    }
  }

  lemma Nested(a: seq<int>, f: seq<int>, s: seq<int>, g: seq<int>, b: seq<int>)
    ensures a + (f + s + g) + b == (a + f) + s + (g + b)
  {
  }

  lemma Times(a: nat, b: nat, m: nat)
    requires a <= b
    ensures a * m <= b * m
  {
  }

  function Last(s: seq<int>): int
    requires s != []
  {
    s[|s| - 1]
  }

  function LastOf(s: seq<int>): Found {
    if s == [] then Nothing else Key(Last(s))
  }

  function FirstOf(s: seq<int>): Found {
    if s == [] then Nothing else Key(s[0])
  }

  lemma EndsOf(a: seq<int>, f: seq<int>, g: seq<int>, b: seq<int>)
    ensures LastOf(a + f) == if f == [] then LastOf(a) else Key(Last(f))
    ensures FirstOf(g + b) == if g == [] then FirstOf(b) else Key(g[0])
    ensures LastOf([]) == Nothing == FirstOf([])
  {
    assert f == [] ==> a + f == a;
    assert g == [] ==> g + b == b;
  }

  // A search has ended at place `p` of `s`.
  lemma NotAmong(a: seq<int>, s: seq<int>, b: seq<int>, p: nat, k: int)
    requires Sorted(a + s + b) && p <= |s| && (forall v :: v in a ==> v < k) && forall v :: v in b ==> k < v
    requires (forall j :: 0 <= j < p ==> s[j] < k) && forall j :: p <= j < |s| ==> k < s[j]
    ensures k !in a + s + b
    ensures IsLower(a + s + b, k, if 0 < p then Key(s[p - 1]) else LastOf(a))
    ensures IsUpper(a + s + b, k, if p < |s| then Key(s[p]) else FirstOf(b))
  {
    hide Sorted, IsLower, IsUpper, LastOf, FirstOf;
    var f, g := s[..p], s[p..];
    assert s == f + g && a + s + b == (a + f) + (g + b);
    EndsOf(a, f, g, b);
    BoundsMet(a + f, g + b, k, a + s + b);
  }

  // The greatest key that is not above `k`.
  predicate IsLower(s: seq<int>, k: int, f: Found) {
    match f
    case Nothing => forall v :: v in s ==> k < v
    case Key(c) => c in s && c <= k && forall v :: v in s && v <= k ==> v <= c
  }

  // The least key that is not below `k`.
  predicate IsUpper(s: seq<int>, k: int, f: Found) {
    match f
    case Nothing => forall v :: v in s ==> v < k
    case Key(c) => c in s && k <= c && forall v :: v in s && k <= v ==> c <= v
  }

  lemma BoundsMet(a: seq<int>, b: seq<int>, k: int, s: seq<int>)
    requires Sorted(s) && s == a + b && (forall v :: v in a ==> v < k) && forall v :: v in b ==> k < v
    ensures IsLower(s, k, LastOf(a)) && IsUpper(s, k, FirstOf(b))
  {
    if a != [] {
      assert a[|a| - 1] == s[|a| - 1] && Last(a) in a;
    }
    if b != [] {
      assert b[0] == s[|a|] && b[0] in b;
    }
  }
}
