module RbTree {
  import opened Bits

  datatype Color = Black | Red

  class Node {
    const key: int
    var left: Node?
    var right: Node?
    var parent: Node?
    var color: Color
    // Where the node stands in the in-order sequence of its tree, and the
    // half-open interval of positions its subtree covers.
    ghost var pos: int
    ghost var lo: int
    ghost var hi: int
    // The number of black nodes on any path from a child of this node down.
    ghost var rank: nat

    constructor (k: int)
      ensures key == k
    {
      key := k;
      left, right, parent, color := null, null, null, Red;
    }

    // RB_SET.
    method Set(p: Node?)
      modifies this`left, this`right, this`parent, this`color
      ensures parent == p && left == right == null && color == Red
    {
      parent := p;
      left, right := null, null;
      color := Red;
    }

    // Takes over all of the fields of `o`.
    method CopyEntry(o: Node)
      modifies this
      ensures left == o.left && right == o.right && parent == o.parent && color == o.color
      ensures pos == o.pos && lo == o.lo && hi == o.hi && rank == o.rank
    {
      left, right, parent, color := o.left, o.right, o.parent, o.color;
      pos, lo, hi, rank := o.pos, o.lo, o.hi, o.rank;
    }
  }

  function Max(a: nat, b: nat): nat {
    if a < b then b else a
  }

  lemma {:induction false} Pow2Monotone(j: nat, k: nat)
    requires j <= k
    ensures 1 <= Pow2(j) <= Pow2(k)
  {
    if 0 < k {
      Pow2Monotone(if j == k then j - 1 else j, k - 1);
    }
  }

  lemma {:induction false} Pow2Double(k: nat)
    ensures Pow2(2 * k) == Pow2(k) * Pow2(k)
  {
    if 0 < k {
      Pow2Double(k - 1);
      assert Pow2(2 * k) == 2 * Pow2(2 * k - 1) == 4 * Pow2(2 * (k - 1));
    }
  }

  lemma SquareMonotone(a: nat, b: nat)
    requires a <= b
    ensures a * a <= b * b
  {
  }

  class Tree {
    var root: Node?
    ghost var nodes: seq<Node>
    ghost var repr: set<Node>

    // RB_INIT.
    constructor ()
      ensures Valid() && nodes == [] && repr == {}
    {
      root, nodes, repr := null, [], {};
    }

    ghost predicate SelfOk(n: Node)
      reads this`nodes, n`pos, n`lo, n`hi
    {
      0 <= n.lo <= n.pos < n.hi <= |nodes| && nodes[n.pos] == n
    }

    ghost predicate LeftOk(n: Node)
      reads this`repr, n`left, n`pos, n`lo, repr`parent, repr`lo, repr`hi
    {
      && (n.left == null <==> n.lo == n.pos)
      && (n.left != null ==> n.left in repr && n.left.parent == n && n.left.lo == n.lo && n.left.hi == n.pos)
    }

    ghost predicate RightOk(n: Node)
      reads this`repr, n`right, n`pos, n`hi, repr`parent, repr`lo, repr`hi
    {
      && (n.right == null <==> n.pos + 1 == n.hi)
      && (n.right != null ==> n.right in repr && n.right.parent == n && n.right.lo == n.pos + 1 && n.right.hi == n.hi)
    }

    ghost predicate UpOk(n: Node)
      reads this`repr, this`root, n`parent, repr`left, repr`right
    {
      && (n.parent == null <==> n == root)
      && (n.parent != null ==> n.parent in repr && (n.parent.left == n || n.parent.right == n))
    }

    ghost predicate LinksOk(n: Node)
      reads this`root, this`nodes, this`repr, n`left, n`right, n`parent, n`pos, n`lo, n`hi,
            repr`left, repr`right, repr`parent, repr`lo, repr`hi
    {
      SelfOk(n) && LeftOk(n) && RightOk(n) && UpOk(n)
    }

    ghost predicate Linked()
      reads this`root, this`nodes, this`repr,
            repr`left, repr`right, repr`parent, repr`pos, repr`lo, repr`hi
    {
      && (forall i :: 0 <= i < |nodes| ==> nodes[i] in repr && nodes[i].pos == i)
      && (forall n {:trigger LinksOk(n)} :: n in repr ==> LinksOk(n))
      && (root == null <==> |nodes| == 0)
      && (root != null ==> root in repr && root.lo == 0 && root.hi == |nodes|)
    }

    ghost predicate Sorted()
      reads this`nodes
    {
      forall i, j :: 0 <= i < j < |nodes| ==> nodes[i].key < nodes[j].key
    }

    // The number of black nodes on a path from `c` down, `c` included.
    ghost function Blacks(c: Node?): nat
      requires c == null || c in repr
      reads this`repr, repr`color, repr`rank
    {
      if c == null then 0 else if c.color == Black then c.rank + 1 else c.rank
    }

    // Both sides of `n` have the same number of black nodes.
    ghost predicate RankOk(n: Node)
      reads this`repr, n`left, n`right, n`rank, repr`color, repr`rank
    {
      && (n.left == null || n.left in repr)
      && (n.right == null || n.right in repr)
      && Blacks(n.left) == n.rank == Blacks(n.right)
    }

    // A red node has a black parent.
    ghost predicate RedOk(n: Node)
      reads this`repr, n`color, n`parent, repr`color
    {
      n.color == Red && n.parent in repr ==> n.parent.color == Black
    }

    ghost predicate Ranked()
      reads this`repr, repr`left, repr`right, repr`color, repr`rank
    {
      forall n {:trigger RankOk(n)} :: n in repr ==> RankOk(n)
    }

    // Every red node other than `n` has a black parent.
    ghost predicate RedsOkBut(e: Node?)
      reads this`repr, repr`parent, repr`color
    {
      forall n {:trigger RedOk(n)} :: n in repr && n != e ==> RedOk(n)
    }

    ghost predicate Valid()
      reads this, repr
    {
      && Linked() && Sorted() && Ranked() && RedsOkBut(null)
      && (root != null ==> root.color == Black)
    }

    // The pointwise effect of a left rotation of `x`.
    twostate predicate RotatedLeft(x: Node)
      reads this, repr
    {
      && x in repr && old(x.right) != null && old(x.right) in repr
      && var y := old(x.right);
      && root == (if old(root) == x then y else old(root))
      && nodes == old(nodes) && repr == old(repr)
      && x.left == old(x.left) && x.right == old(y.left) && x.parent == y
      && y.left == x && y.right == old(y.right) && y.parent == old(x.parent)
      && x.hi == y.pos && x.lo == old(x.lo) && y.lo == x.lo && y.hi == old(y.hi)
      && x.pos == old(x.pos) && y.pos == old(y.pos)
      && (forall n :: n in repr && n != x && n != y ==>
        && n.left == (if n == old(x.parent) && old(n.left) == x then y else old(n.left))
        && n.right == (if n == old(x.parent) && old(n.left) != x then y else old(n.right))
        && n.parent == (if n == old(y.left) then x else old(n.parent))
        && n.lo == old(n.lo) && n.hi == old(n.hi) && n.pos == old(n.pos))
    }

    twostate lemma RotatedLeftLeft(x: Node)
      requires old(Linked()) && RotatedLeft(x)
      ensures forall n {:trigger LeftOk(n)} :: n in repr ==> LeftOk(n)
    {
      assert old(LinksOk(x)) && old(LinksOk(x.right));
      assert old(x.parent) != null ==> old(LinksOk(x.parent));
      forall n | n in repr
        ensures LeftOk(n)
      {
        assert old(LinksOk(n));
        assert n.left != null && old(n.left) != null ==> old(LinksOk(n.left));
      }
    }

    twostate lemma RotatedLeftRight(x: Node)
      requires old(Linked()) && RotatedLeft(x)
      ensures forall n {:trigger RightOk(n)} :: n in repr ==> RightOk(n)
    {
      assert old(LinksOk(x)) && old(LinksOk(x.right));
      assert old(x.parent) != null ==> old(LinksOk(x.parent));
      forall n | n in repr
        ensures RightOk(n)
      {
        assert old(LinksOk(n));
        assert n.right != null && old(n.right) != null ==> old(LinksOk(n.right));
      }
    }

    twostate lemma RotatedLeftUp(x: Node)
      requires old(Linked()) && RotatedLeft(x)
      ensures forall n {:trigger UpOk(n)} :: n in repr ==> UpOk(n)
    {
      assert old(LinksOk(x)) && old(LinksOk(x.right));
      assert old(x.parent) != null ==> old(LinksOk(x.parent));
      forall n | n in repr
        ensures UpOk(n)
      {
        assert old(LinksOk(n));
        assert old(n.parent) != null ==> old(LinksOk(n.parent));
      }
    }

    twostate lemma RotatedLeftLinked(x: Node)
      requires old(Linked()) && RotatedLeft(x)
      ensures Linked()
    {
      RotatedLeftLeft(x);
      RotatedLeftRight(x);
      RotatedLeftUp(x);
      assert old(LinksOk(x)) && old(LinksOk(x.right));
      forall n | n in repr
        ensures LinksOk(n)
      {
        assert old(LinksOk(n));
      }
    }

    method RotateLeft(elm: Node)
      requires Linked()
      requires elm in repr && elm.right != null && elm.right in repr
      modifies this`root, repr`left, repr`right, repr`parent, repr`lo, repr`hi
      ensures Linked()
      ensures RotatedLeft(elm)
    {
      assert LinksOk(elm) && LinksOk(elm.right);
      hide Linked, LinksOk, SelfOk;
      var tmp := elm.right;
      elm.right := tmp.left;
      if elm.right != null {
        tmp.left.parent := elm;
      }
      tmp.parent := elm.parent;
      if tmp.parent != null {
        if elm == elm.parent.left {
          elm.parent.left := tmp;
        } else {
          elm.parent.right := tmp;
        }
      } else {
        root := tmp;
      }
      tmp.left := elm;
      elm.parent := tmp;
      elm.hi, tmp.lo := tmp.pos, elm.lo;
      assert RotatedLeft(elm);
      RotatedLeftLinked(elm);
    }

    // The pointwise effect of a right rotation of `x`.
    twostate predicate RotatedRight(x: Node)
      reads this, repr
    {
      && x in repr && old(x.left) != null && old(x.left) in repr
      && var y := old(x.left);
      && root == (if old(root) == x then y else old(root))
      && nodes == old(nodes) && repr == old(repr)
      && x.right == old(x.right) && x.left == old(y.right) && x.parent == y
      && y.right == x && y.left == old(y.left) && y.parent == old(x.parent)
      && x.lo == y.pos + 1 && x.hi == old(x.hi) && y.hi == x.hi && y.lo == old(y.lo)
      && x.pos == old(x.pos) && y.pos == old(y.pos)
      && (forall n :: n in repr && n != x && n != y ==>
        && n.left == (if n == old(x.parent) && old(n.left) == x then y else old(n.left))
        && n.right == (if n == old(x.parent) && old(n.left) != x then y else old(n.right))
        && n.parent == (if n == old(y.right) then x else old(n.parent))
        && n.lo == old(n.lo) && n.hi == old(n.hi) && n.pos == old(n.pos))
    }

    twostate lemma RotatedRightRight(x: Node)
      requires old(Linked()) && RotatedRight(x)
      ensures forall n {:trigger RightOk(n)} :: n in repr ==> RightOk(n)
    {
      assert old(LinksOk(x)) && old(LinksOk(x.left));
      assert old(x.parent) != null ==> old(LinksOk(x.parent));
      forall n | n in repr
        ensures RightOk(n)
      {
        assert old(LinksOk(n));
        assert n.right != null && old(n.right) != null ==> old(LinksOk(n.right));
      }
    }

    twostate lemma RotatedRightLeft(x: Node)
      requires old(Linked()) && RotatedRight(x)
      ensures forall n {:trigger LeftOk(n)} :: n in repr ==> LeftOk(n)
    {
      assert old(LinksOk(x)) && old(LinksOk(x.left));
      assert old(x.parent) != null ==> old(LinksOk(x.parent));
      forall n | n in repr
        ensures LeftOk(n)
      {
        assert old(LinksOk(n));
        assert n.left != null && old(n.left) != null ==> old(LinksOk(n.left));
      }
    }

    twostate lemma RotatedRightUp(x: Node)
      requires old(Linked()) && RotatedRight(x)
      ensures forall n {:trigger UpOk(n)} :: n in repr ==> UpOk(n)
    {
      assert old(LinksOk(x)) && old(LinksOk(x.left));
      assert old(x.parent) != null ==> old(LinksOk(x.parent));
      forall n | n in repr
        ensures UpOk(n)
      {
        assert old(LinksOk(n));
        assert old(n.parent) != null ==> old(LinksOk(n.parent));
      }
    }

    twostate lemma RotatedRightLinked(x: Node)
      requires old(Linked()) && RotatedRight(x)
      ensures Linked()
    {
      RotatedRightRight(x);
      RotatedRightLeft(x);
      RotatedRightUp(x);
      assert old(LinksOk(x)) && old(LinksOk(x.left));
      forall n | n in repr
        ensures LinksOk(n)
      {
        assert old(LinksOk(n));
      }
    }

    method RotateRight(elm: Node)
      requires Linked()
      requires elm in repr && elm.left != null && elm.left in repr
      modifies this`root, repr`right, repr`left, repr`parent, repr`lo, repr`hi
      ensures Linked()
      ensures RotatedRight(elm)
    {
      assert LinksOk(elm) && LinksOk(elm.left);
      hide Linked, LinksOk, SelfOk;
      var tmp := elm.left;
      elm.left := tmp.right;
      if elm.left != null {
        tmp.right.parent := elm;
      }
      tmp.parent := elm.parent;
      if tmp.parent != null {
        if elm == elm.parent.left {
          elm.parent.left := tmp;
        } else {
          elm.parent.right := tmp;
        }
      } else {
        root := tmp;
      }
      tmp.right := elm;
      elm.parent := tmp;
      elm.lo, tmp.hi := tmp.pos + 1, elm.hi;
      assert RotatedRight(elm);
      RotatedRightLinked(elm);
    }


    // Black parent and uncle, red grandparent: the pointwise effect.
    twostate predicate PushedUp(gparent: Node)
      reads this, repr
    {
      && repr == old(repr) && gparent in repr
      && (forall n :: n in repr ==>
        && n.left == old(n.left) && n.right == old(n.right)
        && n.rank == (if n == gparent then old(n.rank) + 1 else old(n.rank))
        && n.color == (if n == gparent then Red else if n == gparent.left
          || n == gparent.right then Black else old(n.color)))
    }

    twostate lemma PushedUpRanked(gparent: Node)
      requires Linked() && old(Ranked()) && PushedUp(gparent)
      requires old(gparent.color) == Black && gparent.left in repr && gparent.right in repr
      requires old(gparent.left.color) == Red && old(gparent.right.color) == Red
      ensures Ranked()
    {
      assert LinksOk(gparent) && old(RankOk(gparent));
      forall n | n in repr
        ensures RankOk(n)
      {
        assert LinksOk(n) && old(RankOk(n));
      }
    }

    // The uncle is red: the red pair moves two levels up.
    method PushRedUp(gparent: Node, ghost elm: Node)
      requires Linked() && Ranked() && RedsOkBut(elm)
      requires gparent in repr && gparent.left in repr && gparent.right in repr
      requires gparent.color == Black && gparent.left.color == Red && gparent.right.color == Red
      requires elm in repr && (elm.parent == gparent.left || elm.parent == gparent.right)
      modifies repr`color, gparent`rank
      ensures Ranked() && RedsOkBut(gparent) && PushedUp(gparent)
    {
      assert LinksOk(gparent);
      gparent.right.color := Black;
      gparent.left.color := Black;
      gparent.color := Red;
      gparent.rank := gparent.rank + 1;
      assert PushedUp(gparent);
      PushedUpRanked(gparent);
      forall n | n in repr && n != gparent
        ensures RedOk(n)
      {
        assert LinksOk(n) && (n != elm ==> old(RedOk(n)));
      }
    }

    // What the last repair step of an insertion does: recolour, then rotate.
    twostate predicate RaisedLeft(gparent: Node)
      reads this, repr
    {
      && RotatedRight(gparent)
      && (forall n :: n in repr ==> n.rank == old(n.rank))
      && (forall n :: n in repr ==>
        n.color == if n == gparent then Red else if n == old(gparent.left) then Black else old(n.color))
    }

    twostate lemma RaisedLeftRanked(gparent: Node)
      requires old(Linked()) && old(Ranked()) && RaisedLeft(gparent)
      requires old(gparent.color) == Black && old(gparent.left.color) == Red
      ensures Ranked()
    {
      assert old(LinksOk(gparent)) && old(LinksOk(gparent.left));
      assert old(RankOk(gparent)) && old(RankOk(gparent.left));
      forall n | n in repr
        ensures RankOk(n)
      {
        assert old(LinksOk(n)) && old(RankOk(n));
      }
    }

    twostate lemma RaisedLeftReds(gparent: Node)
      requires old(Linked()) && RaisedLeft(gparent)
      requires old(gparent.color) == Black && old(gparent.left.color) == Red
      requires old(gparent.right) == null || old(gparent.right.color) == Black
      requires old(RedsOkBut(gparent.left.left))
      ensures RedsOkBut(null)
    {
      assert old(LinksOk(gparent)) && old(LinksOk(gparent.left));
      forall n | n in repr
        ensures RedOk(n)
      {
        assert old(LinksOk(n)) && (n != old(gparent.left.left) ==> old(RedOk(n)));
      }
    }

    // Both the left child and its own left child are red: one rotation ends
    // the repair.
    method RaiseLeft(gparent: Node)
      requires Linked() && Ranked()
      requires gparent in repr && gparent.left in repr && gparent.left.left in repr
      requires gparent.color == Black && gparent.left.color == Red && gparent.left.left.color == Red
      requires gparent.right == null || (gparent.right in repr && gparent.right.color == Black)
      requires RedsOkBut(gparent.left.left)
      modifies this`root, repr`left, repr`right, repr`parent, repr`lo, repr`hi, repr`color
      ensures Linked() && Ranked() && RedsOkBut(null)
      ensures RaisedLeft(gparent)
    {
      var parent := gparent.left;
      assert LinksOk(gparent) && LinksOk(parent);
      parent.color, gparent.color := Black, Red;
      RotateRight(gparent);
      assert RaisedLeft(gparent);
      RaisedLeftRanked(gparent);
      RaisedLeftReds(gparent);
    }

    // What the last repair step of an insertion does: recolour, then rotate.
    twostate predicate RaisedRight(gparent: Node)
      reads this, repr
    {
      && RotatedLeft(gparent)
      && (forall n :: n in repr ==> n.rank == old(n.rank))
      && (forall n :: n in repr ==>
        n.color == if n == gparent then Red else if n == old(gparent.right) then Black else old(n.color))
    }

    twostate lemma RaisedRightRanked(gparent: Node)
      requires old(Linked()) && old(Ranked()) && RaisedRight(gparent)
      requires old(gparent.color) == Black && old(gparent.right.color) == Red
      ensures Ranked()
    {
      assert old(LinksOk(gparent)) && old(LinksOk(gparent.right));
      assert old(RankOk(gparent)) && old(RankOk(gparent.right));
      forall n | n in repr
        ensures RankOk(n)
      {
        assert old(LinksOk(n)) && old(RankOk(n));
      }
    }

    twostate lemma RaisedRightReds(gparent: Node)
      requires old(Linked()) && RaisedRight(gparent)
      requires old(gparent.color) == Black && old(gparent.right.color) == Red
      requires old(gparent.left) == null || old(gparent.left.color) == Black
      requires old(RedsOkBut(gparent.right.right))
      ensures RedsOkBut(null)
    {
      assert old(LinksOk(gparent)) && old(LinksOk(gparent.right));
      forall n | n in repr
        ensures RedOk(n)
      {
        assert old(LinksOk(n)) && (n != old(gparent.right.right) ==> old(RedOk(n)));
      }
    }

    // Both the right child and its own right child are red: one rotation ends
    // the repair.
    method RaiseRight(gparent: Node)
      requires Linked() && Ranked()
      requires gparent in repr && gparent.right in repr && gparent.right.right in repr
      requires gparent.color == Black && gparent.right.color == Red && gparent.right.right.color == Red
      requires gparent.left == null || (gparent.left in repr && gparent.left.color == Black)
      requires RedsOkBut(gparent.right.right)
      modifies this`root, repr`right, repr`left, repr`parent, repr`lo, repr`hi, repr`color
      ensures Linked() && Ranked() && RedsOkBut(null)
      ensures RaisedRight(gparent)
    {
      var parent := gparent.right;
      assert LinksOk(gparent) && LinksOk(parent);
      parent.color, gparent.color := Black, Red;
      RotateLeft(gparent);
      assert RaisedRight(gparent);
      RaisedRightRanked(gparent);
      RaisedRightReds(gparent);
    }

    // A rotation of a red node over its red child keeps the black counts and
    // leaves the red pair with the lower node.
    twostate lemma RotatedRedLeft(x: Node)
      requires old(Linked()) && old(Ranked()) && RotatedLeft(x)
      requires forall n :: n in repr ==> n.color == old(n.color) && n.rank == old(n.rank)
      requires x.color == Red && old(x.right).color == Red
      requires old(x.parent) != null && old(x.parent).color == Black && old(RedsOkBut(x.right))
      ensures Ranked() && RedsOkBut(x)
    {
      assert old(LinksOk(x)) && old(LinksOk(x.right)) && old(RankOk(x)) && old(RankOk(x.right));
      forall n | n in repr
        ensures RankOk(n)
      {
        assert old(LinksOk(n)) && old(RankOk(n));
      }
      forall n | n in repr && n != x
        ensures RedOk(n)
      {
        assert old(LinksOk(n)) && (n != old(x.right) ==> old(RedOk(n)));
      }
    }

    // A rotation of a red node over its red child keeps the black counts and
    // leaves the red pair with the lower node.
    twostate lemma RotatedRedRight(x: Node)
      requires old(Linked()) && old(Ranked()) && RotatedRight(x)
      requires forall n :: n in repr ==> n.color == old(n.color) && n.rank == old(n.rank)
      requires x.color == Red && old(x.left).color == Red
      requires old(x.parent) != null && old(x.parent).color == Black && old(RedsOkBut(x.left))
      ensures Ranked() && RedsOkBut(x)
    {
      assert old(LinksOk(x)) && old(LinksOk(x.left)) && old(RankOk(x)) && old(RankOk(x.left));
      forall n | n in repr
        ensures RankOk(n)
      {
        assert old(LinksOk(n)) && old(RankOk(n));
      }
      forall n | n in repr && n != x
        ensures RedOk(n)
      {
        assert old(LinksOk(n)) && (n != old(x.left) ==> old(RedOk(n)));
      }
    }

    // What holds of the tree while `elm` may be a red child of a red node.
    ghost predicate RedPair(elm: Node)
      reads this, repr
    {
      && Linked() && Ranked() && RedsOkBut(elm)
      && elm in repr && elm.color == Red
      && root in repr && (root == elm || root.color == Black)
    }

    // One round of the repair when the parent is a left child.
    method RepairLeft(inserted: Node) returns (elm: Node)
      requires RedPair(inserted)
      requires inserted.parent in repr && inserted.parent.color == Red
      requires inserted.parent.parent in repr && inserted.parent.parent.left == inserted.parent
      modifies this`root, repr`left, repr`right, repr`parent, repr`lo, repr`hi, repr`color, repr`rank
      ensures RedPair(elm)
      ensures
        || (elm.parent != null && elm.parent.color == Black)
        || (elm == old(inserted.parent.parent) && elm.lo == old(elm.lo) && elm.hi == old(elm.hi))
    {
      elm := inserted;
      var parent := elm.parent;
      var gparent := parent.parent;
      assert LinksOk(elm) && LinksOk(parent) && LinksOk(gparent) && RedOk(parent);
      hide Linked, LinksOk, Ranked, RankOk, RedsOkBut;
      var tmp := gparent.right;
      if tmp != null && tmp.color == Red {
        PushRedUp(gparent, elm);
        elm := gparent;
      } else {
        if parent.right == elm {
          RotateLeft(parent);
          RotatedRedLeft(parent);
          elm, parent := parent, elm;
        }
        RaiseLeft(gparent);
      }
    }

    // One round of the repair when the parent is a right child.
    method RepairRight(inserted: Node) returns (elm: Node)
      requires RedPair(inserted)
      requires inserted.parent in repr && inserted.parent.color == Red
      requires inserted.parent.parent in repr && inserted.parent.parent.right == inserted.parent
      modifies this`root, repr`right, repr`left, repr`parent, repr`lo, repr`hi, repr`color, repr`rank
      ensures RedPair(elm)
      ensures
        || (elm.parent != null && elm.parent.color == Black)
        || (elm == old(inserted.parent.parent) && elm.lo == old(elm.lo) && elm.hi == old(elm.hi))
    {
      elm := inserted;
      var parent := elm.parent;
      var gparent := parent.parent;
      assert LinksOk(elm) && LinksOk(parent) && LinksOk(gparent) && RedOk(parent);
      hide Linked, LinksOk, Ranked, RankOk, RedsOkBut;
      var tmp := gparent.left;
      if tmp != null && tmp.color == Red {
        PushRedUp(gparent, elm);
        elm := gparent;
      } else {
        if parent.left == elm {
          RotateRight(parent);
          RotatedRedRight(parent);
          elm, parent := parent, elm;
        }
        RaiseRight(gparent);
      }
    }

    method InsertColor(inserted: Node)
      requires RedPair(inserted)
      modifies this`root, repr`left, repr`right, repr`parent, repr`lo, repr`hi, repr`color, repr`rank
      ensures Linked() && Ranked() && RedsOkBut(null)
      ensures root != null && root.color == Black
    {
      var elm := inserted;
      assert LinksOk(elm);
      while elm.parent != null && elm.parent.color == Red
        invariant RedPair(elm)
        decreases if elm.parent != null && elm.parent.color == Red then 1 + |nodes| - (elm.hi - elm.lo) else 0
      {
        var parent := elm.parent;
        var gparent := parent.parent;
        assert LinksOk(elm) && LinksOk(parent) && LinksOk(gparent);
        if parent == gparent.left {
          elm := RepairLeft(elm);
        } else {
          elm := RepairRight(elm);
        }
        assert LinksOk(elm);
      }
      PaintRootBlack(elm);
    }

    method PaintRootBlack(ghost elm: Node)
      requires RedPair(elm) && (elm.parent == null || elm.parent.color == Black)
      modifies repr`color
      ensures Linked() && Ranked() && RedsOkBut(null)
      ensures root != null && root.color == Black
    {
      root.color := Black;
      forall n | n in repr
        ensures RankOk(n)
      {
        assert LinksOk(n) && old(RankOk(n));
      }
      forall n | n in repr
        ensures RedOk(n)
      {
        assert LinksOk(n) && (n != elm ==> old(RedOk(n)));
      }
    }


    // The pointwise effect of hanging the new leaf `elm` under its parent,
    // at position `elm.pos` of the in-order sequence.
    twostate predicate Attached(elm: Node)
      reads this, repr
    {
      && elm in repr && elm !in old(repr) && repr == old(repr) + {elm} && root == old(root)
      && elm.left == elm.right == null && elm.lo == elm.pos && elm.hi == elm.pos + 1
      && elm.color == Red && elm.rank == 0
      && elm.parent != null && elm.parent in old(repr)
      && var p := elm.parent;
      && (elm.pos == old(p.pos) || elm.pos == old(p.pos) + 1)
      && (if elm.pos == old(p.pos) then old(p.left) == null else old(p.right) == null)
      && 0 <= elm.pos <= |old(nodes)| && nodes == old(nodes)[..elm.pos] + [elm] + old(nodes)[elm.pos..]
      && (forall n :: n in old(repr) ==>
        && n.left == (if n == p && elm.pos == old(p.pos) then elm else old(n.left))
        && n.right == (if n == p && elm.pos != old(p.pos) then elm else old(n.right))
        && n.parent == old(n.parent) && n.color == old(n.color) && n.rank == old(n.rank)
        && n.pos == (if old(n.pos) >= elm.pos then old(n.pos) + 1 else old(n.pos))
        && n.lo == (if old(n.lo) > old(p.pos) then old(n.lo) + 1 else old(n.lo))
        && n.hi == (if old(n.hi) > old(p.pos) then old(n.hi) + 1 else old(n.hi)))
    }

    twostate lemma AttachedNodes(elm: Node)
      requires old(Linked()) && Attached(elm)
      ensures forall i :: 0 <= i < |nodes| ==> nodes[i] in repr && nodes[i].pos == i
    {
      forall i | 0 <= i < |nodes|
        ensures nodes[i] in repr && nodes[i].pos == i
      {
        if i < elm.pos {
          assert nodes[i] == old(nodes)[i];
        } else if i > elm.pos {
          assert nodes[i] == old(nodes)[i - 1];
        }
      }
    }

    twostate lemma AttachedLeft(elm: Node)
      requires old(Linked()) && Attached(elm)
      ensures forall n {:trigger LeftOk(n)} :: n in old(repr) ==> LeftOk(n)
    {
      var p := elm.parent;
      assert old(LinksOk(p));
      forall n | n in old(repr)
        ensures LeftOk(n)
      {
        assert old(LinksOk(n));
        assert old(n.left) != null ==> old(LinksOk(n.left));
      }
    }

    twostate lemma AttachedRight(elm: Node)
      requires old(Linked()) && Attached(elm)
      ensures forall n {:trigger RightOk(n)} :: n in old(repr) ==> RightOk(n)
    {
      var p := elm.parent;
      assert old(LinksOk(p));
      forall n | n in old(repr)
        ensures RightOk(n)
      {
        assert old(LinksOk(n));
        assert old(n.right) != null ==> old(LinksOk(n.right));
      }
    }

    twostate lemma AttachedUp(elm: Node)
      requires old(Linked()) && Attached(elm)
      ensures forall n {:trigger UpOk(n)} :: n in old(repr) ==> SelfOk(n) && UpOk(n)
    {
      var p := elm.parent;
      assert old(LinksOk(p));
      forall n | n in old(repr)
        ensures SelfOk(n) && UpOk(n)
      {
        assert old(LinksOk(n));
        assert old(n.parent) != null ==> old(LinksOk(n.parent));
      }
    }

    twostate lemma AttachedLinked(elm: Node)
      requires old(Linked()) && Attached(elm)
      ensures Linked()
    {
      AttachedNodes(elm);
      AttachedLeft(elm);
      AttachedRight(elm);
      AttachedUp(elm);
      var p := elm.parent;
      assert old(LinksOk(p));
      assert LinksOk(elm);
      forall n | n in repr && n != elm
        ensures LinksOk(n)
      {
        assert UpOk(n) && LeftOk(n) && RightOk(n);
      }
    }

    twostate lemma AttachedColors(elm: Node)
      requires old(Linked()) && Attached(elm) && old(Ranked()) && old(RedsOkBut(null))
      ensures Ranked() && RedsOkBut(elm)
    {
      forall n | n in repr
        ensures RankOk(n)
      {
        if n != elm {
          assert old(LinksOk(n)) && old(RankOk(n));
          assert old(n.left) != null ==> old(LinksOk(n.left));
          assert old(n.right) != null ==> old(LinksOk(n.right));
        }
      }
      forall n | n in repr && n != elm
        ensures RedOk(n)
      {
        assert old(LinksOk(n)) && old(RedOk(n));
        assert old(n.parent) != null ==> old(LinksOk(n.parent));
      }
    }

    twostate lemma AttachedRedPair(elm: Node)
      requires old(Valid()) && Attached(elm)
      requires var k := elm.pos; old(Between(elm.key, k, k))
      ensures RedPair(elm) && Sorted()
    {
      AttachedLinked(elm);
      AttachedColors(elm);
      assert old(root) != null ==> old(LinksOk(root));
      assert LinksOk(elm);
    }

    // Makes room in the ghost numbering for a leaf below the node at `r`.
    ghost method ShiftUp(k: int, r: int)
      modifies repr`pos, repr`lo, repr`hi
      ensures forall n :: n in repr ==>
        && n.pos == (if old(n.pos) >= k then old(n.pos) + 1 else old(n.pos))
        && n.lo == (if old(n.lo) > r then old(n.lo) + 1 else old(n.lo))
        && n.hi == (if old(n.hi) > r then old(n.hi) + 1 else old(n.hi))
    {
      forall n | n in repr {
        n.pos := if n.pos >= k then n.pos + 1 else n.pos;
      }
      forall n | n in repr {
        n.lo := if n.lo > r then n.lo + 1 else n.lo;
      }
      forall n | n in repr {
        n.hi := if n.hi > r then n.hi + 1 else n.hi;
      }
    }

    // RB_SET, and the link from the parent to the new leaf.
    method HangBelow(elm: Node, parent: Node, toLeft: bool)
      requires elm !in repr && parent in repr
      modifies repr`left, repr`right, elm
      ensures elm.parent == parent && elm.left == elm.right == null && elm.color == Red
      ensures forall n :: n in repr ==>
        && n.left == (if n == parent && toLeft then elm else old(n.left))
        && n.right == (if n == parent && !toLeft then elm else old(n.right))
    {
      elm.Set(parent);
      if toLeft {
        parent.left := elm;
      } else {
        parent.right := elm;
      }
    }

    // The new leaf `elm` becomes a child of `parent`.
    method AttachBelow(elm: Node, parent: Node, toLeft: bool)
      requires Linked() && elm !in repr
      requires parent in repr && (if toLeft then parent.left == null else parent.right == null)
      modifies this, repr, elm
      ensures Attached(elm)
      ensures elm.parent == parent && elm.pos == if toLeft then old(parent.pos) else old(parent.pos) + 1
    {
      ghost var k := if toLeft then parent.pos else parent.pos + 1;
      assert LinksOk(parent);
      hide Linked, LinksOk, SelfOk, LeftOk, RightOk, UpOk;
      HangBelow(elm, parent, toLeft);
      ShiftUp(k, parent.pos);
      elm.rank, elm.pos, elm.lo, elm.hi := 0, k, k, k + 1;
      nodes, repr := nodes[..k] + [elm] + nodes[k..], repr + {elm};
    }

    // The new node `elm` becomes the root of an empty tree.
    method AttachFirst(elm: Node)
      requires Linked() && root == null
      modifies this, elm
      ensures repr == old(repr) + {elm} && RedPair(elm)
      ensures elm.pos == 0 && nodes == [elm]
    {
      assert forall n :: n in repr ==> LinksOk(n);
      elm.Set(null);
      elm.rank, elm.pos, elm.lo, elm.hi := 0, 0, 0, 1;
      root := elm;
      nodes, repr := [elm], {elm};
      assert LinksOk(elm) && RankOk(elm);
    }

    // Links `elm` into the tree and returns null, or returns the node that
    // already has its key and leaves everything as it was.
    method Insert(elm: Node) returns (res: Node?)
      requires Valid() && elm !in repr
      modifies this, repr, elm
      ensures Valid()
      ensures res == null ==> repr == old(repr) + {elm} && forall n :: n in old(repr) ==> n.key != elm.key
      ensures res == null ==>
        0 <= elm.pos <= |old(nodes)| && nodes == old(nodes)[..elm.pos] + [elm] + old(nodes)[elm.pos..]
      ensures res != null ==> res in repr && res.key == elm.key
      ensures res != null ==>
        nodes == old(nodes) && repr == old(repr) && unchanged(this) && unchanged(repr) && unchanged(elm)
    {
      var parent: Node? := null;
      var toLeft := false;
      var tmp := root;
      ghost var a, b := 0, |nodes|;
      while tmp != null
        invariant Valid() && 0 <= a <= b <= |nodes|
        invariant Between(elm.key, a, b)
        invariant if tmp == null then a == b else tmp in repr && tmp.lo == a && tmp.hi == b
        invariant parent == null ==> tmp == root
        invariant parent != null ==> root != null
        invariant parent != null ==>
          parent in repr
          && (if toLeft then parent.left == tmp && parent.pos == b else parent.right == tmp && parent.pos + 1 == a)
        decreases b - a
      {
        parent := tmp;
        assert LinksOk(tmp);
        if elm.key < parent.key {
          b := tmp.pos;
          toLeft := true;
          tmp := tmp.left;
        } else if elm.key > parent.key {
          a := tmp.pos + 1;
          toLeft := false;
          tmp := tmp.right;
        } else {
          return tmp;
        }
      }
      forall n | n in repr
        ensures n.key != elm.key
      {
        assert LinksOk(n);
      }
      if parent != null {
        AttachBelow(elm, parent, toLeft);
        AttachedRedPair(elm);
      } else {
        AttachFirst(elm);
      }
      InsertColor(elm);
      return null;
    }

    // The place of `key` in the order is between positions `a` and `b`.
    ghost predicate Between(key: int, a: int, b: int)
      reads this`nodes
    {
      && (forall i :: 0 <= i < a && i < |nodes| ==> nodes[i].key < key)
      && (forall i :: b <= i < |nodes| && 0 <= i ==> key < nodes[i].key)
    }


    // ---- Repair after a removal ------------------------------------------

    ghost predicate RankedBut(p: Node?)
      reads this`repr, repr`left, repr`right, repr`color, repr`rank
    {
      forall n {:trigger RankOk(n)} :: n in repr && n != p ==> RankOk(n)
    }

    // Every red node but `e` and its children has a black parent.
    ghost predicate RedsOkAwayFrom(e: Node?)
      reads this`repr, repr`parent, repr`color
    {
      forall n {:trigger RedOk(n)} :: n in repr && n != e && n.parent != e ==> RedOk(n)
    }

    predicate BlackOrNull(c: Node?)
      reads c
    {
      c == null || c.color == Black
    }

    // The left side of `p`, and nothing else, lacks one black node.
    ghost predicate ShortLeft(p: Node)
      reads this, repr
    {
      && Linked() && RankedBut(p) && p in repr
      && (p.left == null || p.left in repr) && p.right != null && p.right in repr
      && Blacks(p.right) == p.rank == Blacks(p.left) + 1
      && root != null && root in repr && root.color == Black
    }

    // The right side of `p`, and nothing else, lacks one black node.
    ghost predicate ShortRight(p: Node)
      reads this, repr
    {
      && Linked() && RankedBut(p) && p in repr
      && (p.right == null || p.right in repr) && p.left != null && p.left in repr
      && Blacks(p.left) == p.rank == Blacks(p.right) + 1
      && root != null && root in repr && root.color == Black
    }

    // The state of the repair loop: the subtree at `elm` lacks one black node,
    // and `elm` may be a red child of a red node.
    ghost predicate Short(parent: Node?, elm: Node?)
      reads this, repr
    {
      && RedsOkAwayFrom(elm)
      && (elm != null ==> elm in repr && elm.parent == parent)
      && (if parent == null then Linked() && Ranked() && elm == root
          else
            && parent in repr
            && ((parent.left == elm && ShortLeft(parent)) || (parent.right == elm && ShortRight(parent))))
    }

    // A red sibling is rotated above `p`.
    twostate predicate LoweredLeft(p: Node)
      reads this, repr
    {
      && RotatedLeft(p)
      && (forall n :: n in repr ==> n.rank == old(n.rank))
      && (forall n :: n in repr ==>
        n.color == if n == p then Red else if n == old(p.right) then Black else old(n.color))
    }

    twostate lemma LoweredLeftShort(p: Node)
      requires old(ShortLeft(p)) && old(RedsOkBut(null)) && LoweredLeft(p) && Linked()
      requires old(p.right.color) == Red && BlackOrNull(old(p.left))
      ensures ShortLeft(p)
      ensures p.right != null && p.right.color == Black
    {
      assert old(LinksOk(p)) && old(LinksOk(p.right)) && old(RedOk(p.right)) && old(RankOk(p.right));
      assert old(p.right.left) != null ==> old(RedOk(p.right.left)) && old(LinksOk(p.right.left));
      forall n | n in repr && n != p
        ensures RankOk(n)
      {
        assert old(LinksOk(n)) && old(RankOk(n));
      }
    }

    twostate lemma LoweredLeftReds(p: Node)
      requires old(ShortLeft(p)) && old(RedsOkBut(null)) && LoweredLeft(p)
      requires old(p.right.color) == Red && BlackOrNull(old(p.left))
      ensures RedsOkBut(null)
    {
      assert old(LinksOk(p)) && old(LinksOk(p.right)) && old(RedOk(p.right));
      forall n | n in repr
        ensures RedOk(n)
      {
        assert old(LinksOk(n)) && old(RedOk(n));
      }
    }

    method LowerLeft(p: Node)
      requires ShortLeft(p) && RedsOkBut(null)
      requires p.right.color == Red && BlackOrNull(p.left)
      modifies this`root, repr`left, repr`right, repr`parent, repr`lo, repr`hi, repr`color
      ensures ShortLeft(p) && RedsOkBut(null)
      ensures p.left == old(p.left) && BlackOrNull(p.left) && p.right.color == Black
      ensures p.left != null ==> p.left.lo == old(p.left.lo) && p.left.hi == old(p.left.hi)
    {
      assert LinksOk(p) && LinksOk(p.right);
      p.right.color, p.color := Black, Red;
      RotateLeft(p);
      assert LoweredLeft(p);
      LoweredLeftShort(p);
      LoweredLeftReds(p);
    }

    // A red sibling is rotated above `p`.
    twostate predicate LoweredRight(p: Node)
      reads this, repr
    {
      && RotatedRight(p)
      && (forall n :: n in repr ==> n.rank == old(n.rank))
      && (forall n :: n in repr ==>
        n.color == if n == p then Red else if n == old(p.left) then Black else old(n.color))
    }

    twostate lemma LoweredRightShort(p: Node)
      requires old(ShortRight(p)) && old(RedsOkBut(null)) && LoweredRight(p) && Linked()
      requires old(p.left.color) == Red && BlackOrNull(old(p.right))
      ensures ShortRight(p)
      ensures p.left != null && p.left.color == Black
    {
      assert old(LinksOk(p)) && old(LinksOk(p.left)) && old(RedOk(p.left)) && old(RankOk(p.left));
      assert old(p.left.right) != null ==> old(RedOk(p.left.right)) && old(LinksOk(p.left.right));
      forall n | n in repr && n != p
        ensures RankOk(n)
      {
        assert old(LinksOk(n)) && old(RankOk(n));
      }
    }

    twostate lemma LoweredRightReds(p: Node)
      requires old(ShortRight(p)) && old(RedsOkBut(null)) && LoweredRight(p)
      requires old(p.left.color) == Red && BlackOrNull(old(p.right))
      ensures RedsOkBut(null)
    {
      assert old(LinksOk(p)) && old(LinksOk(p.left)) && old(RedOk(p.left));
      forall n | n in repr
        ensures RedOk(n)
      {
        assert old(LinksOk(n)) && old(RedOk(n));
      }
    }

    method LowerRight(p: Node)
      requires ShortRight(p) && RedsOkBut(null)
      requires p.left.color == Red && BlackOrNull(p.right)
      modifies this`root, repr`right, repr`left, repr`parent, repr`lo, repr`hi, repr`color
      ensures ShortRight(p) && RedsOkBut(null)
      ensures p.right == old(p.right) && BlackOrNull(p.right) && p.left.color == Black
      ensures p.right != null ==> p.right.lo == old(p.right.lo) && p.right.hi == old(p.right.hi)
    {
      assert LinksOk(p) && LinksOk(p.left);
      p.left.color, p.color := Black, Red;
      RotateRight(p);
      assert LoweredRight(p);
      LoweredRightShort(p);
      LoweredRightReds(p);
    }

    // The sibling turns red: now the whole subtree at `p` lacks a black node.
    method ReddenRight(p: Node)
      requires ShortLeft(p) && RedsOkBut(null)
      requires p.right.color == Black && (p.right.left == null || p.right.left in repr)
        && (p.right.right == null || p.right.right in repr)
      requires BlackOrNull(p.left) && BlackOrNull(p.right.left) && BlackOrNull(p.right.right)
      modifies repr`color, repr`rank
      ensures Short(p.parent, p)
    {
      assert LinksOk(p) && LinksOk(p.right) && RankOk(p.right);
      p.right.color := Red;
      p.rank := p.rank - 1;
      ReddenedRight(p);
    }

    twostate lemma ReddenedRight(p: Node)
      requires old(ShortLeft(p)) && old(RedsOkBut(null)) && Linked() && repr == old(repr) && root == old(root)
      requires old(p.right.color) == Black && BlackOrNull(p.left)
      requires BlackOrNull(old(p.right.left)) && BlackOrNull(old(p.right.right))
      requires forall n :: n in repr ==>
        && n.left == old(n.left) && n.right == old(n.right) && n.parent == old(n.parent)
        && n.rank == (if n == p then old(n.rank) - 1 else old(n.rank))
        && n.color == (if n == p.right then Red else old(n.color))
      ensures Short(p.parent, p)
    {
      assert LinksOk(p) && LinksOk(p.right) && old(RankOk(p.right));
      forall n | n in repr && n != p.parent
        ensures RankOk(n)
      {
        assert LinksOk(n) && (n != p ==> old(RankOk(n)));
      }
      forall n | n in repr && n != p && n.parent != p
        ensures RedOk(n)
      {
        assert LinksOk(n) && old(RedOk(n));
      }
      if p.parent != null {
        assert LinksOk(p.parent) && old(RankOk(p.parent));
      }
    }

    // The sibling turns red: now the whole subtree at `p` lacks a black node.
    method ReddenLeft(p: Node)
      requires ShortRight(p) && RedsOkBut(null)
      requires p.left.color == Black && (p.left.right == null || p.left.right in repr)
        && (p.left.left == null || p.left.left in repr)
      requires BlackOrNull(p.right) && BlackOrNull(p.left.right) && BlackOrNull(p.left.left)
      modifies repr`color, repr`rank
      ensures Short(p.parent, p)
    {
      assert LinksOk(p) && LinksOk(p.left) && RankOk(p.left);
      p.left.color := Red;
      p.rank := p.rank - 1;
      ReddenedLeft(p);
    }

    twostate lemma ReddenedLeft(p: Node)
      requires old(ShortRight(p)) && old(RedsOkBut(null)) && Linked() && repr == old(repr) && root == old(root)
      requires old(p.left.color) == Black && BlackOrNull(p.right)
      requires BlackOrNull(old(p.left.right)) && BlackOrNull(old(p.left.left))
      requires forall n :: n in repr ==>
        && n.right == old(n.right) && n.left == old(n.left) && n.parent == old(n.parent)
        && n.rank == (if n == p then old(n.rank) - 1 else old(n.rank))
        && n.color == (if n == p.left then Red else old(n.color))
      ensures Short(p.parent, p)
    {
      assert LinksOk(p) && LinksOk(p.left) && old(RankOk(p.left));
      forall n | n in repr && n != p.parent
        ensures RankOk(n)
      {
        assert LinksOk(n) && (n != p ==> old(RankOk(n)));
      }
      forall n | n in repr && n != p && n.parent != p
        ensures RedOk(n)
      {
        assert LinksOk(n) && old(RedOk(n));
      }
      if p.parent != null {
        assert LinksOk(p.parent) && old(RankOk(p.parent));
      }
    }

    // A black sibling whose outer child is not red and whose inner child is:
    // the inner child takes the sibling's place.
    twostate predicate TurnedLeft(p: Node)
      reads this, repr
    {
      && p in repr && old(p.right) != null && p.left == old(p.left) && p.rank == old(p.rank)
      && RotatedRight(old(p.right))
      && (forall n :: n in repr ==> n.rank == old(n.rank))
      && (forall n :: n in repr ==>
        n.color == if n == old(p.right) then Red else if n == old(p.right.left) then Black else old(n.color))
    }

    twostate lemma TurnedLeftShort(p: Node)
      requires old(ShortLeft(p)) && old(RedsOkBut(null)) && TurnedLeft(p) && Linked()
      requires old(p.right.color) == Black && old(p.right.left.color) == Red
      requires BlackOrNull(old(p.left)) && BlackOrNull(old(p.right.right))
      ensures ShortLeft(p)
      ensures p.right == old(p.right.left) && p.right.color == Black
      ensures p.right.right == old(p.right) && p.right.right.color == Red
    {
      var tmp := old(p.right);
      assert old(LinksOk(p)) && old(LinksOk(tmp)) && old(RankOk(tmp));
      assert old(LinksOk(tmp.left)) && old(RankOk(tmp.left));
      forall n | n in repr && n != p
        ensures RankOk(n)
      {
        assert old(LinksOk(n)) && old(RankOk(n));
      }
    }

    twostate lemma TurnedLeftReds(p: Node)
      requires old(ShortLeft(p)) && old(RedsOkBut(null)) && TurnedLeft(p)
      requires old(p.right.color) == Black && old(p.right.left.color) == Red
      requires BlackOrNull(old(p.right.right))
      ensures RedsOkBut(null)
    {
      var tmp := old(p.right);
      assert old(LinksOk(p)) && old(LinksOk(tmp));
      assert old(LinksOk(tmp.left));
      assert old(tmp.left.right) != null ==> old(RedOk(tmp.left.right)) && old(LinksOk(tmp.left.right));
      forall n | n in repr
        ensures RedOk(n)
      {
        assert old(LinksOk(n)) && old(RedOk(n));
      }
    }

    method TurnLeft(p: Node)
      requires ShortLeft(p) && RedsOkBut(null)
      requires p.right.color == Black && p.right.left in repr && p.right.left.color == Red
      requires BlackOrNull(p.left) && (p.right.right == null || p.right.right in repr) && BlackOrNull(p.right.right)
      modifies this`root, repr`left, repr`right, repr`parent, repr`lo, repr`hi, repr`color
      ensures ShortLeft(p) && RedsOkBut(null)
      ensures p.left == old(p.left) && p.right.color == Black
      ensures p.right.right in repr && p.right.right.color == Red
    {
      var tmp := p.right;
      assert LinksOk(p) && LinksOk(tmp);
      tmp.left.color := Black;
      tmp.color := Red;
      RotateRight(tmp);
      assert TurnedLeft(p);
      TurnedLeftShort(p);
      TurnedLeftReds(p);
    }

    // A black sibling whose outer child is not red and whose inner child is:
    // the inner child takes the sibling's place.
    twostate predicate TurnedRight(p: Node)
      reads this, repr
    {
      && p in repr && old(p.left) != null && p.right == old(p.right) && p.rank == old(p.rank)
      && RotatedLeft(old(p.left))
      && (forall n :: n in repr ==> n.rank == old(n.rank))
      && (forall n :: n in repr ==>
        n.color == if n == old(p.left) then Red else if n == old(p.left.right) then Black else old(n.color))
    }

    twostate lemma TurnedRightShort(p: Node)
      requires old(ShortRight(p)) && old(RedsOkBut(null)) && TurnedRight(p) && Linked()
      requires old(p.left.color) == Black && old(p.left.right.color) == Red
      requires BlackOrNull(old(p.right)) && BlackOrNull(old(p.left.left))
      ensures ShortRight(p)
      ensures p.left == old(p.left.right) && p.left.color == Black
      ensures p.left.left == old(p.left) && p.left.left.color == Red
    {
      var tmp := old(p.left);
      assert old(LinksOk(p)) && old(LinksOk(tmp)) && old(RankOk(tmp));
      assert old(LinksOk(tmp.right)) && old(RankOk(tmp.right));
      forall n | n in repr && n != p
        ensures RankOk(n)
      {
        assert old(LinksOk(n)) && old(RankOk(n));
      }
    }

    twostate lemma TurnedRightReds(p: Node)
      requires old(ShortRight(p)) && old(RedsOkBut(null)) && TurnedRight(p)
      requires old(p.left.color) == Black && old(p.left.right.color) == Red
      requires BlackOrNull(old(p.left.left))
      ensures RedsOkBut(null)
    {
      var tmp := old(p.left);
      assert old(LinksOk(p)) && old(LinksOk(tmp));
      assert old(LinksOk(tmp.right));
      assert old(tmp.right.left) != null ==> old(RedOk(tmp.right.left)) && old(LinksOk(tmp.right.left));
      forall n | n in repr
        ensures RedOk(n)
      {
        assert old(LinksOk(n)) && old(RedOk(n));
      }
    }

    method TurnRight(p: Node)
      requires ShortRight(p) && RedsOkBut(null)
      requires p.left.color == Black && p.left.right in repr && p.left.right.color == Red
      requires BlackOrNull(p.right) && (p.left.left == null || p.left.left in repr) && BlackOrNull(p.left.left)
      modifies this`root, repr`right, repr`left, repr`parent, repr`lo, repr`hi, repr`color
      ensures ShortRight(p) && RedsOkBut(null)
      ensures p.right == old(p.right) && p.left.color == Black
      ensures p.left.left in repr && p.left.left.color == Red
    {
      var tmp := p.left;
      assert LinksOk(p) && LinksOk(tmp);
      tmp.right.color := Black;
      tmp.color := Red;
      RotateLeft(tmp);
      assert TurnedRight(p);
      TurnedRightShort(p);
      TurnedRightReds(p);
    }

    // A black sibling with a red outer child: one rotation of `p` restores the
    // missing black node.
    twostate predicate SettledLeft(p: Node)
      reads this, repr
    {
      && RotatedLeft(p)
      && (forall n :: n in repr ==>
        n.rank == if n == p then old(p.rank) - 1 else if n == old(p.right) then old(p.rank) else old(n.rank))
      && (forall n :: n in repr ==>
        n.color == if n == p || n == old(p.right.right) then Black else if n == old(p.right) then old(p.color)
          else old(n.color))
    }

    twostate lemma SettledLeftRanked(p: Node)
      requires old(ShortLeft(p)) && SettledLeft(p)
      requires old(p.right.color) == Black && old(p.right.right) != null && old(p.right.right.color) == Red
      requires BlackOrNull(old(p.left))
      ensures Ranked()
    {
      assert old(LinksOk(p)) && old(LinksOk(p.right)) && old(RankOk(p.right));
      assert old(LinksOk(p.right.right)) && old(RankOk(p.right.right));
      forall n | n in repr
        ensures RankOk(n)
      {
        assert old(LinksOk(n)) && (n != p ==> old(RankOk(n)));
      }
    }

    twostate lemma SettledLeftReds(p: Node)
      requires old(ShortLeft(p)) && old(RedsOkBut(null)) && SettledLeft(p)
      requires old(p.right.color) == Black && old(p.right.right) != null && old(p.right.right.color) == Red
      ensures RedsOkBut(null)
      ensures root != null && root.color == Black
    {
      assert old(LinksOk(p)) && old(LinksOk(p.right)) && old(RedOk(p));
      assert old(LinksOk(p.right.right));
      forall n | n in repr
        ensures RedOk(n)
      {
        assert old(LinksOk(n)) && old(RedOk(n));
      }
    }

    method SettleLeft(p: Node)
      requires ShortLeft(p) && RedsOkBut(null)
      requires p.right.color == Black && p.right.right in repr && p.right.right.color == Red
      requires BlackOrNull(p.left)
      modifies this`root, repr`left, repr`right, repr`parent, repr`lo, repr`hi, repr`color, repr`rank
      ensures Linked() && Ranked() && RedsOkBut(null)
      ensures root != null && root.color == Black
    {
      var tmp := p.right;
      assert LinksOk(p) && LinksOk(tmp);
      tmp.color := p.color;
      p.color := Black;
      tmp.right.color := Black;
      tmp.rank, p.rank := p.rank, p.rank - 1;
      RotateLeft(p);
      assert SettledLeft(p);
      SettledLeftRanked(p);
      SettledLeftReds(p);
    }

    // A black sibling with a red outer child: one rotation of `p` restores the
    // missing black node.
    twostate predicate SettledRight(p: Node)
      reads this, repr
    {
      && RotatedRight(p)
      && (forall n :: n in repr ==>
        n.rank == if n == p then old(p.rank) - 1 else if n == old(p.left) then old(p.rank) else old(n.rank))
      && (forall n :: n in repr ==>
        n.color == if n == p || n == old(p.left.left) then Black else if n == old(p.left) then old(p.color)
          else old(n.color))
    }

    twostate lemma SettledRightRanked(p: Node)
      requires old(ShortRight(p)) && SettledRight(p)
      requires old(p.left.color) == Black && old(p.left.left) != null && old(p.left.left.color) == Red
      requires BlackOrNull(old(p.right))
      ensures Ranked()
    {
      assert old(LinksOk(p)) && old(LinksOk(p.left)) && old(RankOk(p.left));
      assert old(LinksOk(p.left.left)) && old(RankOk(p.left.left));
      forall n | n in repr
        ensures RankOk(n)
      {
        assert old(LinksOk(n)) && (n != p ==> old(RankOk(n)));
      }
    }

    twostate lemma SettledRightReds(p: Node)
      requires old(ShortRight(p)) && old(RedsOkBut(null)) && SettledRight(p)
      requires old(p.left.color) == Black && old(p.left.left) != null && old(p.left.left.color) == Red
      ensures RedsOkBut(null)
      ensures root != null && root.color == Black
    {
      assert old(LinksOk(p)) && old(LinksOk(p.left)) && old(RedOk(p));
      assert old(LinksOk(p.left.left));
      forall n | n in repr
        ensures RedOk(n)
      {
        assert old(LinksOk(n)) && old(RedOk(n));
      }
    }

    method SettleRight(p: Node)
      requires ShortRight(p) && RedsOkBut(null)
      requires p.left.color == Black && p.left.left in repr && p.left.left.color == Red
      requires BlackOrNull(p.right)
      modifies this`root, repr`right, repr`left, repr`parent, repr`lo, repr`hi, repr`color, repr`rank
      ensures Linked() && Ranked() && RedsOkBut(null)
      ensures root != null && root.color == Black
    {
      var tmp := p.left;
      assert LinksOk(p) && LinksOk(tmp);
      tmp.color := p.color;
      p.color := Black;
      tmp.left.color := Black;
      tmp.rank, p.rank := p.rank, p.rank - 1;
      RotateRight(p);
      assert SettledRight(p);
      SettledRightRanked(p);
      SettledRightReds(p);
    }

    // `elm` is red or the root: painting it black ends the repair.
    method PaintBlack(ghost parent: Node?, elm: Node?)
      requires Short(parent, elm) && (elm == root || !BlackOrNull(elm))
      modifies repr`color
      ensures Linked() && Ranked() && RedsOkBut(null)
      ensures root != null ==> root.color == Black
    {
      if elm != null {
        elm.color := Black;
      }
      PaintedRanks((parent, elm));
      PaintedReds((parent, elm));
    }

    // Only the color of `elm` has changed.
    twostate predicate Painted(elm: Node?)
      reads this, repr
    {
      && repr == old(repr) && root == old(root) && (elm != null ==> elm in repr)
      && forall n {:trigger n.color} {:trigger n.left} {:trigger n.right} {:trigger n.parent}
        {:trigger n.rank} :: n in repr ==>
        n.color == (if n == elm then Black else old(n.color)) && n.left == old(n.left) && n.right == old(n.right)
        && n.parent == old(n.parent) && n.rank == old(n.rank)
    }

    twostate lemma PaintedRanks(p: (Node?, Node?))
      requires old(Short(p.0, p.1)) && Painted(p.1) && (p.1 == old(root) || !old(BlackOrNull(p.1)))
      requires Linked()
      ensures Ranked()
    {
      var parent, elm := p.0, p.1;
      assert elm != null ==> LinksOk(elm);
      assert parent != null ==> LinksOk(parent);
      forall n | n in repr
        ensures RankOk(n)
      {
        assert LinksOk(n) && (n != parent ==> old(RankOk(n)));
      }
    }

    twostate lemma PaintedReds(p: (Node?, Node?))
      requires old(Short(p.0, p.1)) && Painted(p.1)
      ensures RedsOkBut(null) && (root != null ==> root.color == Black)
    {
      forall n | n in repr
        ensures RedOk(n)
      {
        assert n != p.1 && n.parent != p.1 ==> old(RedOk(n));
      }
    }

    // One round of the repair when the short subtree is a left child.
    method MendLeft(p: Node) returns (settled: bool)
      requires ShortLeft(p) && RedsOkBut(null) && BlackOrNull(p.left)
      modifies this`root, repr`left, repr`right, repr`parent, repr`lo, repr`hi, repr`color, repr`rank
      ensures settled ==> Linked() && Ranked() && RedsOkBut(null) && root != null && root.color == Black
      ensures !settled ==> Short(p.parent, p) && p.left == old(p.left)
      ensures !settled && p.left != null ==> p.left.lo == old(p.left.lo) && p.left.hi == old(p.left.hi)
    {
      if p.right.color == Red {
        LowerLeft(p);
      }
      var tmp := p.right;
      assert LinksOk(p) && LinksOk(tmp);
      if (tmp.left == null || tmp.left.color == Black) && (tmp.right == null || tmp.right.color == Black) {
        ReddenRight(p);
        return false;
      }
      if tmp.right == null || tmp.right.color == Black {
        TurnLeft(p);
      }
      SettleLeft(p);
      return true;
    }

    // One round of the repair when the short subtree is a right child.
    method MendRight(p: Node) returns (settled: bool)
      requires ShortRight(p) && RedsOkBut(null) && BlackOrNull(p.right)
      modifies this`root, repr`right, repr`left, repr`parent, repr`lo, repr`hi, repr`color, repr`rank
      ensures settled ==> Linked() && Ranked() && RedsOkBut(null) && root != null && root.color == Black
      ensures !settled ==> Short(p.parent, p) && p.right == old(p.right)
      ensures !settled && p.right != null ==> p.right.lo == old(p.right.lo) && p.right.hi == old(p.right.hi)
    {
      if p.left.color == Red {
        LowerRight(p);
      }
      var tmp := p.left;
      assert LinksOk(p) && LinksOk(tmp);
      if (tmp.right == null || tmp.right.color == Black) && (tmp.left == null || tmp.left.color == Black) {
        ReddenLeft(p);
        return false;
      }
      if tmp.left == null || tmp.left.color == Black {
        TurnRight(p);
      }
      SettleRight(p);
      return true;
    }

    method RemoveColor(shortParent: Node?, short: Node?)
      requires Short(shortParent, short)
      modifies this`root, repr`left, repr`right, repr`parent, repr`lo, repr`hi, repr`color, repr`rank
      ensures Linked() && Ranked() && RedsOkBut(null)
      ensures root != null ==> root.color == Black
    {
      var parent, elm := shortParent, short;
      while (elm == null || elm.color == Black) && elm != root
        invariant Short(parent, elm)
        decreases |nodes| - (if elm == null then 0 else elm.hi - elm.lo)
      {
        RedsOkEverywhere(elm);
        assert LinksOk(parent);
        assert elm != null ==> LinksOk(elm);
        var settled;
        if parent.left == elm {
          settled := MendLeft(parent);
        } else {
          settled := MendRight(parent);
        }
        if settled {
          // The original goes on with the root, which is black already.
          return;
        }
        elm, parent := parent, parent.parent;
        assert LinksOk(elm);
      }
      PaintBlack(parent, elm);
    }

    lemma RedsOkEverywhere(e: Node?)
      requires Linked() && RedsOkAwayFrom(e) && BlackOrNull(e)
      ensures RedsOkBut(null)
    {
      forall n | n in repr
        ensures RedOk(n)
      {
        assert LinksOk(n);
      }
    }


    // ---- Removal ---------------------------------------------------------

    // The only child `elm` has, if it has one.
    function OnlyChild(elm: Node): Node?
      reads elm
    {
      if elm.left == null then elm.right else elm.left
    }

    // The pointwise effect of splicing out `elm`, which had at most one child.
    twostate predicate Detached(elm: Node)
      reads this, repr, elm
    {
      && elm in old(repr) && repr == old(repr) - {elm}
      && (old(elm.left) == null || old(elm.right) == null)
      && old(0 <= elm.pos < |nodes|) && nodes == old(nodes)[..old(elm.pos)] + old(nodes)[old(elm.pos) + 1..]
      && var c := old(OnlyChild(elm));
      && var r := old(elm.pos);
      && root == (if old(root) == elm then c else old(root))
      && (forall n :: n in old(repr) && n != elm ==>
        && n.left == (if n == old(elm.parent) && old(n.left) == elm then c else old(n.left))
        && n.right == (if n == old(elm.parent) && old(n.left) != elm then c else old(n.right))
        && n.parent == (if n == c then old(elm.parent) else old(n.parent))
        && n.color == old(n.color) && n.rank == old(n.rank)
        && n.pos == (if old(n.pos) > r then old(n.pos) - 1 else old(n.pos))
        && n.lo == (if old(n.lo) > r then old(n.lo) - 1 else old(n.lo))
        && n.hi == (if old(n.hi) > r then old(n.hi) - 1 else old(n.hi)))
    }

    twostate lemma DetachedNodes(elm: Node)
      requires old(Linked()) && Detached(elm)
      ensures forall i :: 0 <= i < |nodes| ==> nodes[i] in repr && nodes[i].pos == i
    {
      assert old(LinksOk(elm));
      forall i | 0 <= i < |nodes|
        ensures nodes[i] in repr && nodes[i].pos == i
      {
        if i < old(elm.pos) {
          assert nodes[i] == old(nodes)[i];
        } else {
          assert nodes[i] == old(nodes)[i + 1];
        }
      }
    }

    twostate lemma DetachedLeft(elm: Node)
      requires old(Linked()) && Detached(elm)
      ensures forall n {:trigger LeftOk(n)} :: n in repr ==> LeftOk(n)
    {
      assert old(LinksOk(elm));
      var c := old(OnlyChild(elm));
      assert c != null ==> old(LinksOk(c));
      forall n | n in repr
        ensures LeftOk(n)
      {
        assert old(LinksOk(n));
        assert old(n.left) != null ==> old(LinksOk(n.left));
      }
    }

    twostate lemma DetachedRight(elm: Node)
      requires old(Linked()) && Detached(elm)
      ensures forall n {:trigger RightOk(n)} :: n in repr ==> RightOk(n)
    {
      assert old(LinksOk(elm));
      var c := old(OnlyChild(elm));
      assert c != null ==> old(LinksOk(c));
      forall n | n in repr
        ensures RightOk(n)
      {
        assert old(LinksOk(n));
        assert old(n.right) != null ==> old(LinksOk(n.right));
      }
    }

    twostate lemma DetachedSelf(elm: Node)
      requires old(Linked()) && Detached(elm)
      ensures forall n {:trigger SelfOk(n)} :: n in repr ==> SelfOk(n)
    {
      assert old(LinksOk(elm));
      forall n | n in repr
        ensures SelfOk(n)
      {
        assert old(LinksOk(n));
        assert n.lo <= n.pos < n.hi <= |nodes|;
      }
    }

    twostate lemma DetachedUp(elm: Node)
      requires old(Linked()) && Detached(elm)
      ensures forall n {:trigger UpOk(n)} :: n in repr ==> UpOk(n)
    {
      assert old(LinksOk(elm));
      assert old(elm.parent) != null ==> old(LinksOk(elm.parent));
      forall n | n in repr
        ensures UpOk(n)
      {
        assert old(LinksOk(n));
        assert old(n.parent) != null ==> old(LinksOk(n.parent));
      }
    }

    twostate lemma DetachedLinked(elm: Node)
      requires old(Linked()) && Detached(elm)
      ensures Linked()
    {
      DetachedNodes(elm);
      DetachedLeft(elm);
      DetachedRight(elm);
      DetachedUp(elm);
      DetachedSelf(elm);
      assert old(LinksOk(elm)) && old(LinksOk(root));
      var c := old(OnlyChild(elm));
      assert c != null ==> old(LinksOk(c));
      forall n | n in repr
        ensures LinksOk(n)
      {
        assert SelfOk(n) && UpOk(n) && LeftOk(n) && RightOk(n);
      }
    }

    // Taking out a black node leaves its place one black node short; taking
    // out a red one leaves all colours right.
    twostate lemma DetachedRanks(elm: Node)
      requires old(Valid()) && Detached(elm) && Linked()
      ensures RankedBut(old(elm.parent))
      ensures old(elm.color) == Red ==> Ranked() && old(OnlyChild(elm)) == null
    {
      assert old(LinksOk(elm)) && old(RankOk(elm));
      var c := old(OnlyChild(elm));
      assert c != null ==> old(LinksOk(c)) && old(RedOk(c));
      forall n | n in repr && (n != old(elm.parent) || old(elm.color) == Red)
        ensures RankOk(n)
      {
        assert old(LinksOk(n)) && old(RankOk(n));
      }
    }

    twostate lemma DetachedReds(elm: Node)
      requires old(Valid()) && Detached(elm) && Linked()
      ensures RedsOkAwayFrom(old(OnlyChild(elm)))
    {
      assert old(LinksOk(elm));
      var c := old(OnlyChild(elm));
      assert c != null ==> old(LinksOk(c));
      forall n | n in repr && n != c && n.parent != c
        ensures RedOk(n)
      {
        assert old(LinksOk(n)) && old(RedOk(n));
      }
    }

    twostate lemma DetachedShortLeft(elm: Node)
      requires old(Valid()) && Detached(elm) && Linked() && old(elm.color) == Black
      requires old(elm.parent) != null && old(elm.parent.left) == elm
      ensures ShortLeft(old(elm.parent)) && old(elm.parent).left == old(OnlyChild(elm))
    {
      DetachedRanks(elm);
      var c, p := old(OnlyChild(elm)), old(elm.parent);
      assert old(LinksOk(elm)) && old(RankOk(elm)) && old(LinksOk(p)) && old(RankOk(p)) && LinksOk(p);
      assert c != null ==> old(LinksOk(c));
    }

    twostate lemma DetachedShortRight(elm: Node)
      requires old(Valid()) && Detached(elm) && Linked() && old(elm.color) == Black
      requires old(elm.parent) != null && old(elm.parent.right) == elm
      ensures ShortRight(old(elm.parent)) && old(elm.parent).right == old(OnlyChild(elm))
    {
      DetachedRanks(elm);
      var c, p := old(OnlyChild(elm)), old(elm.parent);
      assert old(LinksOk(elm)) && old(RankOk(elm)) && old(LinksOk(p)) && old(RankOk(p)) && LinksOk(p);
      assert c != null ==> old(LinksOk(c));
    }

    twostate lemma DetachedShort(elm: Node)
      requires old(Valid()) && Detached(elm) && Linked() && old(elm.color) == Black
      ensures Short(old(elm.parent), old(OnlyChild(elm)))
    {
      DetachedReds(elm);
      assert old(LinksOk(elm));
      var c, p := old(OnlyChild(elm)), old(elm.parent);
      assert c != null ==> old(LinksOk(c));
      if p == null {
        DetachedRanks(elm);
      } else if old(p.left) == elm {
        DetachedShortLeft(elm);
      } else {
        DetachedShortRight(elm);
      }
    }

    twostate lemma DetachedRed(elm: Node)
      requires old(Valid()) && Detached(elm) && Linked() && old(elm.color) == Red
      ensures Ranked() && RedsOkBut(null) && root != null && root in repr && root.color == Black
    {
      DetachedRanks(elm);
      DetachedReds(elm);
      assert old(LinksOk(elm));
      RedsOkEverywhere(null);
    }

    // Joins the only child of `elm`, if any, to the parent of `elm`.
    method Bypass(elm: Node, child: Node?, parent: Node?)
      requires Linked() && elm in repr && (elm.left == null || elm.right == null)
      requires child == OnlyChild(elm) && parent == elm.parent
      modifies this`root, repr`left, repr`right, repr`parent
      ensures root == (if old(root) == elm then child else old(root))
      ensures forall n :: n in repr ==>
        && n.left == (if n == parent && old(n.left) == elm then child else old(n.left))
        && n.right == (if n == parent && old(n.left) != elm then child else old(n.right))
        && n.parent == (if n == child then parent else old(n.parent))
    {
      assert LinksOk(elm);
      assert child != null ==> LinksOk(child);
      assert parent != null ==> LinksOk(parent);
      if child != null {
        child.parent := parent;
      }
      if parent != null {
        if parent.left == elm {
          parent.left := child;
        } else {
          parent.right := child;
        }
      } else {
        root := child;
      }
    }

    // Splices out `elm`: its only child, if any, takes its place.
    method Detach(elm: Node, child: Node?, parent: Node?)
      requires Linked() && elm in repr && (elm.left == null || elm.right == null)
      requires child == OnlyChild(elm) && parent == elm.parent
      modifies this, repr
      ensures Detached(elm)
      ensures elm.left == old(elm.left) && elm.right == old(elm.right) && elm.parent == old(elm.parent)
        && elm.color == old(elm.color)
    {
      assert LinksOk(elm);
      assert child != null ==> LinksOk(child);
      assert parent != null ==> LinksOk(parent);
      Bypass(elm, child, parent);
      ghost var r := elm.pos;
      repr := repr - {elm};
      ShiftDown(r);
      nodes := nodes[..r] + nodes[r + 1..];
    }

    // Closes the gap at `r` in the ghost numbering.
    ghost method ShiftDown(r: int)
      modifies repr`pos, repr`lo, repr`hi
      ensures forall n :: n in repr ==>
        && n.pos == (if old(n.pos) > r then old(n.pos) - 1 else old(n.pos))
        && n.lo == (if old(n.lo) > r then old(n.lo) - 1 else old(n.lo))
        && n.hi == (if old(n.hi) > r then old(n.hi) - 1 else old(n.hi))
    {
      forall n | n in repr {
        n.pos := if n.pos > r then n.pos - 1 else n.pos;
      }
      forall n | n in repr {
        n.lo := if n.lo > r then n.lo - 1 else n.lo;
      }
      forall n | n in repr {
        n.hi := if n.hi > r then n.hi - 1 else n.hi;
      }
    }

    // The pointwise effect of putting a node that is in no tree in the place
    // of `o`; the newcomer is found at the old position of `o`.
    twostate predicate Supplanted(o: Node)
      reads this, repr
    {
      && o in old(repr) && old(0 <= o.pos < |nodes|) && |nodes| == |old(nodes)|
      && var s := nodes[old(o.pos)];
      && s !in old(repr) && repr == old(repr) - {o} + {s} && nodes == old(nodes)[old(o.pos) := s]
      && root == (if old(root) == o then s else old(root))
      && s.left == old(o.left) && s.right == old(o.right) && s.parent == old(o.parent)
      && s.pos == old(o.pos) && s.lo == old(o.lo) && s.hi == old(o.hi)
      && s.color == old(o.color) && s.rank == old(o.rank)
      && (forall n :: n in old(repr) && n != o ==>
        && n.left == (if n == old(o.parent) && old(n.left) == o then s else old(n.left))
        && n.right == (if n == old(o.parent) && old(n.left) != o then s else old(n.right))
        && n.parent == (if n == old(o.left) || n == old(o.right) then s else old(n.parent))
        && n.color == old(n.color) && n.rank == old(n.rank)
        && n.pos == old(n.pos) && n.lo == old(n.lo) && n.hi == old(n.hi))
    }

    twostate lemma SupplantedLeft(o: Node)
      requires old(Linked()) && Supplanted(o)
      ensures forall n {:trigger LeftOk(n)} :: n in repr ==> LeftOk(n)
    {
      var s := nodes[old(o.pos)];
      assert old(LinksOk(o));
      forall n | n in repr
        ensures LeftOk(n)
      {
        if n == s {
          assert old(o.left) != null ==> old(LinksOk(o.left));
        } else {
          assert old(LinksOk(n));
          assert old(n.left) != null ==> old(LinksOk(n.left));
        }
      }
    }

    twostate lemma SupplantedRight(o: Node)
      requires old(Linked()) && Supplanted(o)
      ensures forall n {:trigger RightOk(n)} :: n in repr ==> RightOk(n)
    {
      var s := nodes[old(o.pos)];
      assert old(LinksOk(o));
      forall n | n in repr
        ensures RightOk(n)
      {
        if n == s {
          assert old(o.right) != null ==> old(LinksOk(o.right));
        } else {
          assert old(LinksOk(n));
          assert old(n.right) != null ==> old(LinksOk(n.right));
        }
      }
    }

    twostate lemma SupplantedUp(o: Node)
      requires old(Linked()) && Supplanted(o)
      ensures forall n {:trigger UpOk(n)} :: n in repr ==> SelfOk(n) && UpOk(n)
    {
      var s := nodes[old(o.pos)];
      assert old(LinksOk(o));
      assert old(o.parent) != null ==> old(LinksOk(o.parent));
      forall n | n in repr
        ensures SelfOk(n) && UpOk(n)
      {
        if n != s {
          assert old(LinksOk(n));
          assert old(n.parent) != null ==> old(LinksOk(n.parent));
        }
      }
    }

    twostate lemma SupplantedLinked(o: Node)
      requires old(Linked()) && Supplanted(o)
      ensures Linked()
    {
      hide SelfOk, UpOk, LeftOk, RightOk, Supplanted;
      SupplantedLeft(o);
      SupplantedRight(o);
      SupplantedUp(o);
      SupplantedRoot(o);
      forall n | n in repr
        ensures LinksOk(n)
      {
        assert UpOk(n) && LeftOk(n) && RightOk(n);
      }
    }

    twostate lemma SupplantedRoot(o: Node)
      requires old(Linked()) && Supplanted(o)
      ensures forall i :: 0 <= i < |nodes| ==> nodes[i] in repr && nodes[i].pos == i
      ensures root == null <==> |nodes| == 0
      ensures root != null ==> root in repr && root.lo == 0 && root.hi == |nodes|
    {
      assert old(LinksOk(o)) && old(LinksOk(root));
    }

    // Colours carry over; `o` and its successor in place are alike.
    twostate lemma SupplantedColors(o: Node)
      requires old(Linked()) && Supplanted(o)
      ensures forall n {:trigger RankOk(n)} :: n in repr && n in old(repr) && old(RankOk(n)) ==> RankOk(n)
      ensures forall n {:trigger RedOk(n)} :: n in repr && n in old(repr) && old(RedOk(n)) ==> RedOk(n)
      ensures old(RankOk(o)) ==> RankOk(nodes[old(o.pos)])
      ensures old(RedOk(o)) ==> RedOk(nodes[old(o.pos)])
    {
      var s := nodes[old(o.pos)];
      assert old(LinksOk(o));
      forall n | n in repr && n != s
        ensures old(RankOk(n)) ==> RankOk(n)
        ensures old(RedOk(n)) ==> RedOk(n)
      {
        assert old(LinksOk(n));
      }
    }

    // The short place moves along when `gap.0` is supplanted.
    twostate lemma SupplantedShort(gap: (Node, Node?, Node?))
      requires old(Linked()) && Supplanted(gap.0) && Linked()
      requires old(Short(gap.1, gap.2)) && gap.2 != gap.0 && gap.1 != null
      ensures Short(if gap.1 == gap.0 then nodes[old(gap.0.pos)] else gap.1, gap.2)
    {
      var (o, p, c) := gap;
      SupplantedColors(o);
      SupplantedReds(gap);
      assert old(LinksOk(o)) && old(LinksOk(p));
      assert c != null ==> old(LinksOk(c));
      var s := nodes[old(o.pos)];
      var q := if p == o then s else p;
      forall n | n in repr && n != q
        ensures RankOk(n)
      {
        assert n != s ==> old(RankOk(n));
        assert n == s ==> old(RankOk(o));
      }
    }

    twostate lemma SupplantedReds(gap: (Node, Node?, Node?))
      requires old(Linked()) && Supplanted(gap.0) && Linked()
      requires old(RedsOkAwayFrom(gap.2)) && gap.2 != gap.0
      ensures RedsOkAwayFrom(gap.2)
    {
      var (o, p, c) := gap;
      SupplantedColors(o);
      assert old(LinksOk(o));
      assert old(o.left) != null ==> old(LinksOk(o.left));
      assert old(o.right) != null ==> old(LinksOk(o.right));
      var s := nodes[old(o.pos)];
      forall n | n in repr && n != c && n.parent != c
        ensures RedOk(n)
      {
        assert n != s ==> old(LinksOk(n)) && old(RedOk(n));
        assert n == s ==> old(RedOk(o));
      }
    }

    // Turns the three links that lead to `o` to `elm`.
    method Redirect(o: Node, elm: Node)
      requires Linked() && o in repr && o.left != null && elm !in repr
      modifies this`root, repr`left, repr`right, repr`parent
      ensures root == (if old(root) == o then elm else old(root))
      ensures forall n :: n in repr ==>
        && n.left == (if n == old(o.parent) && old(n.left) == o then elm else old(n.left))
        && n.right == (if n == old(o.parent) && old(n.left) != o then elm else old(n.right))
        && n.parent == (if n == old(o.left) || n == old(o.right) then elm else old(n.parent))
    {
      assert LinksOk(o) && LinksOk(o.left);
      assert o.parent != null ==> LinksOk(o.parent);
      assert o.right != null ==> LinksOk(o.right);
      if o.parent != null {
        if o.parent.left == o {
          o.parent.left := elm;
        } else {
          o.parent.right := elm;
        }
      } else {
        root := elm;
      }
      o.left.parent := elm;
      if o.right != null {
        o.right.parent := elm;
      }
    }

    // `elm` takes over all fields and all neighbours of `o`.
    method Supplant(o: Node, elm: Node)
      requires Linked() && o in repr && o.left != null && elm !in repr
      modifies this, repr, elm
      ensures Supplanted(o) && nodes == old(nodes)[old(o.pos) := elm]
    {
      assert LinksOk(o);
      elm.CopyEntry(o);
      assert Linked();
      Redirect(o, elm);
      nodes := nodes[o.pos := elm];
      repr := repr - {o} + {elm};
    }

    // What is left to repair after a node of colour `color` was spliced out.
    ghost predicate ToRepair(color: Color, parent: Node?, child: Node?)
      reads this, repr
    {
      && Linked()
      && (color == Black ==> Short(parent, child))
      && (color == Red ==> Ranked() && RedsOkBut(null) && root != null && root.color == Black)
    }

    twostate lemma DetachedToRepair(elm: Node)
      requires old(Valid()) && Detached(elm)
      ensures ToRepair(old(elm.color), old(elm.parent), old(OnlyChild(elm)))
    {
      DetachedLinked(elm);
      if old(elm.color) == Black {
        DetachedShort(elm);
      } else {
        DetachedRed(elm);
      }
    }

    // Removal of a node with at most one child.
    method RemoveOuter(elm: Node)
      requires Valid() && elm in repr && (elm.left == null || elm.right == null)
      modifies this, repr
      ensures Linked() && Ranked() && RedsOkBut(null) && (root != null ==> root.color == Black)
      ensures repr == old(repr) - {elm} && old(0 <= elm.pos < |nodes|)
      ensures nodes == old(nodes)[..old(elm.pos)] + old(nodes)[old(elm.pos) + 1..]
    {
      assert LinksOk(elm);
      var child := OnlyChild(elm);
      var parent, color := elm.parent, elm.color;
      Detach(elm, child, parent);
      DetachedToRepair(elm);
      if color == Black {
        RemoveColor(parent, child);
      }
    }

    // The leftmost node below the right child of `o`: its successor.
    method Successor(o: Node) returns (elm: Node)
      requires Linked() && o in repr && o.right != null
      ensures elm in repr && elm.pos == o.pos + 1 && elm.left == null && elm != o
    {
      assert LinksOk(o);
      elm := o.right;
      assert LinksOk(elm);
      while elm.left != null
        invariant elm in repr && elm.lo == o.pos + 1 && LinksOk(elm)
        decreases elm.hi - elm.lo
      {
        assert LinksOk(elm.left);
        elm := elm.left;
      }
    }

    lemma SuccessorLinks(o: Node, elm: Node)
      requires Linked() && o in repr && o.left != null && o.right != null
      requires elm in repr && elm.pos == o.pos + 1 && elm.left == null
      ensures 0 <= o.pos && elm.pos < |nodes| && elm == nodes[elm.pos] && elm != o
      ensures elm.parent != null && elm.parent in repr && elm.parent != elm
      ensures o.left != elm && elm.right != o
    {
      assert LinksOk(o) && LinksOk(elm) && LinksOk(o.left) && LinksOk(root);
      assert elm.parent != null ==> LinksOk(elm.parent);
      assert elm.right != null ==> LinksOk(elm.right);
    }

    // Takes the successor of `o` out of its place below `o`.
    method DetachSuccessor(o: Node) returns (elm: Node, child: Node?, parent: Node, color: Color)
      requires Valid() && o in repr && o.left != null && o.right != null
      modifies this, repr
      ensures ToRepair(color, parent, child) && elm.parent == parent && parent in repr && child != o
      ensures elm in old(repr) && repr == old(repr) - {elm} && o in repr && o.left != null
      ensures old(0 <= o.pos < |nodes| - 1) && o.pos == old(o.pos) && elm == old(nodes)[o.pos + 1]
      ensures nodes == old(nodes)[..o.pos + 1] + old(nodes)[o.pos + 2..]
    {
      elm := Successor(o);
      SuccessorLinks(o, elm);
      child, parent, color := elm.right, elm.parent, elm.color;
      Detach(elm, child, parent);
      DetachedToRepair(elm);
    }

    // Puts `elm` where `o` is.
    method PutInPlace(o: Node, elm: Node, ghost child: Node?, ghost parent: Node, ghost color: Color)
      requires ToRepair(color, parent, child) && parent in repr && child != o
      requires o in repr && o.left != null && elm !in repr
      modifies this, repr, elm
      ensures ToRepair(color, if parent == o then elm else parent, child)
      ensures repr == old(repr) - {o} + {elm}
      ensures old(0 <= o.pos < |nodes|) && nodes == old(nodes)[old(o.pos) := elm]
    {
      assert LinksOk(o);
      ghost var gap := (o, parent, child);
      Supplant(o, elm);
      SupplantedLinked(o);
      if color == Black {
        SupplantedShort(gap);
      } else {
        SupplantedFine(o);
      }
    }

    twostate lemma SupplantedFine(o: Node)
      requires old(Linked()) && old(Ranked()) && old(RedsOkBut(null)) && Supplanted(o)
      requires old(root != null && root.color == Black)
      ensures Ranked() && RedsOkBut(null) && root != null && root.color == Black
    {
      SupplantedColors(o);
      var s := nodes[old(o.pos)];
      assert old(RankOk(o)) && old(RedOk(o)) && old(LinksOk(root));
      forall n | n in repr
        ensures RankOk(n) && RedOk(n)
      {
        assert n != s ==> old(RankOk(n)) && old(RedOk(n));
      }
    }

    // Removal of a node with two children: the successor is taken out of its
    // place and put where the node was.
    method RemoveInner(o: Node)
      requires Valid() && o in repr && o.left != null && o.right != null
      modifies this, repr
      ensures Linked() && Ranked() && RedsOkBut(null) && (root != null ==> root.color == Black)
      ensures repr == old(repr) - {o} && old(0 <= o.pos < |nodes|)
      ensures nodes == old(nodes)[..old(o.pos)] + old(nodes)[old(o.pos) + 1..]
    {
      var elm, child, parent, color := DetachSuccessor(o);
      PutInPlace(o, elm, child, parent, color);
      if parent == o {
        parent := elm;
      }
      if color == Black {
        RemoveColor(parent, child);
      }
    }

    // Takes `elm` out of the tree; returns it.
    method Remove(elm: Node) returns (res: Node)
      requires Valid() && elm in repr
      modifies this, repr
      ensures Valid() && res == elm
      ensures repr == old(repr) - {elm} && old(0 <= elm.pos < |nodes|)
      ensures nodes == old(nodes)[..old(elm.pos)] + old(nodes)[old(elm.pos) + 1..]
    {
      if elm.left == null || elm.right == null {
        RemoveOuter(elm);
      } else {
        RemoveInner(elm);
      }
      return elm;
    }

    // ---- Lookup and traversal --------------------------------------------

    // The node with `key`, or null when there is none.
    method Find(key: int) returns (res: Node?)
      requires Valid()
      ensures res != null ==> res in repr && res.key == key
      ensures res == null ==> forall n :: n in repr ==> n.key != key
    {
      var tmp := root;
      ghost var a, b := 0, |nodes|;
      while tmp != null
        invariant 0 <= a <= b <= |nodes| && Between(key, a, b)
        invariant if tmp == null then a == b else tmp in repr && tmp.lo == a && tmp.hi == b
        decreases b - a
      {
        assert LinksOk(tmp);
        if key < tmp.key {
          b := tmp.pos;
          tmp := tmp.left;
        } else if key > tmp.key {
          a := tmp.pos + 1;
          tmp := tmp.right;
        } else {
          return tmp;
        }
      }
      forall n | n in repr
        ensures n.key != key
      {
        assert LinksOk(n);
      }
      return null;
    }

    // The first node whose key is at least `key`, or null when all are less.
    method NFind(key: int) returns (res: Node?)
      requires Valid()
      ensures res != null ==> res in repr && key <= res.key
      ensures forall n :: n in repr && key <= n.key ==> res != null && res.key <= n.key
    {
      var tmp := root;
      ghost var a, b := 0, |nodes|;
      res := null;
      while tmp != null
        invariant 0 <= a <= b <= |nodes| && Between(key, a, b)
        invariant if tmp == null then a == b else tmp in repr && tmp.lo == a && tmp.hi == b
        invariant if b == |nodes| then res == null else res == nodes[b]
        decreases b - a
      {
        assert LinksOk(tmp);
        if key < tmp.key {
          b := tmp.pos;
          res := tmp;
          tmp := tmp.left;
        } else if key > tmp.key {
          a := tmp.pos + 1;
          tmp := tmp.right;
        } else {
          res := tmp;
          forall n | n in repr && key <= n.key
            ensures res.key <= n.key
          {
            assert LinksOk(n);
          }
          return;
        }
      }
      forall n | n in repr && key <= n.key
        ensures res != null && res.key <= n.key
      {
        assert LinksOk(n);
      }
    }

    // The next node in key order, or null after the last one.
    method Next(node: Node) returns (elm: Node?)
      requires Valid() && node in repr
      ensures 0 <= node.pos < |nodes| && nodes[node.pos] == node
      ensures elm == if node.pos + 1 < |nodes| then nodes[node.pos + 1] else null
    {
      elm := node;
      assert LinksOk(elm) && LinksOk(root);
      if elm.right != null {
        elm := elm.right;
        assert LinksOk(elm);
        while elm.left != null
          invariant elm in repr && LinksOk(elm) && elm.lo == node.pos + 1
          decreases elm.hi - elm.lo
        {
          elm := elm.left;
          assert LinksOk(elm);
        }
      } else {
        if elm.parent != null && elm == elm.parent.left {
          elm := elm.parent;
          assert LinksOk(elm);
        } else {
          while elm.parent != null && elm == elm.parent.right
            invariant elm in repr && LinksOk(elm) && elm.hi == node.pos + 1
            decreases |nodes| - (elm.hi - elm.lo)
          {
            assert LinksOk(elm.parent);
            elm := elm.parent;
          }
          elm := elm.parent;
          assert elm != null ==> LinksOk(elm);
        }
      }
    }

    // The previous node in key order, or null before the first one.
    method Prev(node: Node) returns (elm: Node?)
      requires Valid() && node in repr
      ensures 0 <= node.pos < |nodes| && nodes[node.pos] == node
      ensures elm == if 0 < node.pos then nodes[node.pos - 1] else null
    {
      elm := node;
      assert LinksOk(elm) && LinksOk(root);
      if elm.left != null {
        elm := elm.left;
        assert LinksOk(elm);
        while elm.right != null
          invariant elm in repr && LinksOk(elm) && elm.hi == node.pos
          decreases elm.hi - elm.lo
        {
          elm := elm.right;
          assert LinksOk(elm);
        }
      } else {
        if elm.parent != null && elm == elm.parent.right {
          elm := elm.parent;
          assert LinksOk(elm);
        } else {
          while elm.parent != null && elm == elm.parent.left
            invariant elm in repr && LinksOk(elm) && elm.lo == node.pos
            decreases |nodes| - (elm.hi - elm.lo)
          {
            assert LinksOk(elm.parent);
            elm := elm.parent;
          }
          elm := elm.parent;
          assert elm != null ==> LinksOk(elm);
        }
      }
    }

    // RB_MIN for a negative `val`, RB_MAX otherwise.
    method MinMax(val: int) returns (parent: Node?)
      requires Valid()
      ensures parent == null <==> nodes == []
      ensures parent != null ==> parent == if val < 0 then nodes[0] else nodes[|nodes| - 1]
    {
      var tmp := root;
      parent := null;
      while tmp != null
        invariant tmp != null ==> tmp in repr && LinksOk(tmp) && (if val < 0 then tmp.lo == 0 else tmp.hi == |nodes|)
        invariant tmp == null ==> parent == (if nodes == [] then null else if val < 0 then
          nodes[0] else nodes[|nodes| - 1])
        decreases if tmp == null then 0 else tmp.hi - tmp.lo
      {
        parent := tmp;
        tmp := if val < 0 then tmp.left else tmp.right;
        assert tmp != null ==> LinksOk(tmp);
      }
    }

    // ---- Height ----------------------------------------------------------

    // The number of nodes on the longest path down from `c`.
    ghost function Height(c: Node?): nat
      requires Linked() && (c == null || c in repr)
      reads this, repr
      decreases if c == null then 0 else c.hi - c.lo
    {
      if c == null then 0 else
        assert LinksOk(c);
        1 + Max(Height(c.left), Height(c.right))
    }

    // A subtree has at least 2^b - 1 nodes when its paths have b black ones,
    // and no path is more than twice as long.
    lemma {:induction false} SubtreeBounds(c: Node)
      requires Valid() && c in repr
      ensures Pow2(Blacks(c)) - 1 <= c.hi - c.lo
      ensures Height(c) <= 2 * Blacks(c) + (if c.color == Red then 1 else 0)
      decreases c.hi - c.lo
    {
      assert LinksOk(c) && RankOk(c);
      if c.left != null {
        assert LinksOk(c.left) && RedOk(c.left);
        SubtreeBounds(c.left);
      }
      if c.right != null {
        assert LinksOk(c.right) && RedOk(c.right);
        SubtreeBounds(c.right);
      }
    }

    // The height is at most 2 lg(n + 1).
    lemma HeightBound()
      requires Valid()
      ensures Pow2(Height(root)) <= (|nodes| + 1) * (|nodes| + 1)
    {
      if root != null {
        SubtreeBounds(root);
        var b := Blacks(root);
        Pow2Monotone(Height(root), 2 * b);
        Pow2Double(b);
        SquareMonotone(Pow2(b), |nodes| + 1);
      }
    }
  }
}
