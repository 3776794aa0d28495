/**
 The iterator of kbtree.h: an explicit stack of nodes and positions, from the
 root down to the node whose key is next.
 */
module KbIterator {
  import opened KbWeave
  import opened KbTree

  datatype Pos = Pos(x: Node?, i: nat)

  // What is left behind pointer `i` of a node: key `i` and all after it.
  ghost function Tail(p: Pos): seq<int>
    reads p.x
  {
    if p.x == null || !p.x.Own() || p.i > |p.x.keys| then [] else
      if p.x.isInternal then Back(p.x.keys, p.x.kidFlats, p.i) else p.x.keys[p.i..]
  }

  // What is in the subtree at pointer `i` of a node.
  ghost function Open(p: Pos): seq<int>
    reads p.x
  {
    if p.x == null || !p.x.Own() || p.i > |p.x.keys| || !p.x.isInternal then [] else p.x.kidFlats[p.i]
  }

  // What is left on a whole stack.
  ghost function Rest(s: seq<Pos>): seq<int>
    reads set p | p in s :: p.x
  {
    if s == [] then [] else Tail(s[|s| - 1]) + Rest(s[..|s| - 1])
  }

  lemma RestOfPush(s: seq<Pos>, p: Pos)
    ensures Rest(s + [p]) == Tail(p) + Rest(s)
  {
    assert (s + [p])[..|s|] == s;
  }

  // Key `i` is next, then the subtree behind it, and so on.
  lemma TailOpens(x: Node, i: nat)
    requires x.Own() && i <= |x.keys|
    ensures i < |x.keys| ==> Tail(Pos(x, i)) == [x.keys[i]] + (Open(Pos(x, i + 1)) + Tail(Pos(x, i + 1)))
    ensures i == |x.keys| ==> Tail(Pos(x, i)) == [] == Open(Pos(x, i + 1)) + Tail(Pos(x, i + 1))
  {
    if i < |x.keys| {
      if x.isInternal {
        Regrouped(x.keys[i], x.kidFlats[i + 1], Back(x.keys, x.kidFlats, i + 1), []);
      } else {
        assert x.keys[i..] == [x.keys[i]] + ([] + x.keys[i + 1..]);
      }
    }
  }

  lemma Regrouped(k: int, o: seq<int>, t: seq<int>, r: seq<int>)
    ensures [k] + o + t == [k] + (o + t)
    ensures ([k] + (o + t) + r)[1..] == o + (t + r)
  {
  }

  lemma LeafIsClosed(p: Pos)
    requires p.x != null && !p.x.isInternal
    ensures Open(p) == []
  {
  }

  lemma NodeOpens(x: Node)
    requires x.Own()
    ensures Open(Pos(x, 0)) + Tail(Pos(x, 0)) == x.Woven()
  {
    if x.isInternal {
      Around(x.keys, x.kidFlats, 0);
      assert Front(x.keys, x.kidFlats, 0) + x.kidFlats[0] == x.kidFlats[0];
    }
  }

  class Iterator {
    const b: BTree
    // itr->stack up to itr->p; empty when itr->p does not point into it.
    var stack: seq<Pos>

    constructor (tree: BTree)
      ensures b == tree && stack == []
    {
      b, stack := tree, [];
    }

    // Nodes of the tree, each lower than the one before.
    ghost predicate Good(s: seq<Pos>)
      reads b, b.nodes
    {
      && (forall j {:trigger s[j]} :: 0 <= j < |s| ==> s[j].x != null && s[j].x in b.nodes && s[j].i <= |s[j].x.keys|)
      && b.root in b.nodes && forall j {:trigger s[j]} :: 0 <= j < |s| ==> s[j].x.height + j <= b.root.height
    }

    ghost predicate Valid()
      reads this, b, b.nodes
    {
      b.Valid() && Good(stack) && (stack != [] ==> Top().i < |Top().x.keys|)
    }

    function Top(): Pos
      requires stack != []
      reads this
    {
      stack[|stack| - 1]
    }

    // A kid goes on the stack.
    lemma PushKid(s: seq<Pos>, p: Pos)
      requires b.Valid() && p.x != null && p.x in b.nodes && p.i <= |p.x.keys| && p.x.isInternal
      ensures b.Linked(p.x)
      ensures var q := Pos(p.x.ptrs[p.i], 0);
        && q.x in b.nodes && q.x.height + 1 == p.x.height
        && Open(q) + Rest(s + [q]) == Open(p) + Rest(s)
    {
      hide Sorted, Weave, Rest;
      assert b.Linked(p.x);
      var x := p.x.ptrs[p.i];
      var q := Pos(x, 0);
      assert b.Linked(x) && b.Whole(x);
      assert Open(p) == x.flat;
      hide Open, Tail;
      NodeOpens(x);
      RestOfPush(s, q);
      assert Open(q) + (Tail(q) + Rest(s)) == (Open(q) + Tail(q)) + Rest(s);
    }

    lemma GoodPush(s: seq<Pos>, q: Pos)
      requires Good(s) && q.x != null && q.x in b.nodes && q.i <= |q.x.keys|
      requires q.x.height + |s| <= b.root.height
      ensures Good(s + [q])
    {
      var u := s + [q];
      assert forall j :: 0 <= j < |s| ==> u[j] == s[j];
    }

    // One step down, to the first key of the kid at the top's pointer.
    method StepDown()
      requires b.Valid() && stack != [] && Good(stack) && Top().x.isInternal
      modifies this
      ensures Good(stack) && |stack| == |old(stack)| + 1 && Top().i == 0
      ensures Open(Top()) + Rest(stack) == old(Open(Top()) + Rest(stack))
      ensures Top().x.parent != null && Top().x.height < old(Top().x.height)
    {
      hide Sorted, Weave, Open, Tail, Rest, Front, Back;
      PushKid(stack, Top());
      ghost var x := Top().x.ptrs[Top().i];
      GoodPush(stack, Pos(x, 0));
      stack := stack + [Pos(Top().x.ptrs[Top().i], 0)];
    }

    // A leaf at the top holds a key, unless the tree is empty.
    lemma LeafHasKey(x: Node)
      requires b.Valid() && x in b.nodes && !x.isInternal && (x.parent != null || (x == b.root && b.nKeys != 0))
      ensures x.keys != []
    {
      assert b.Linked(x) && b.Filled(x) && b.Whole(x);
    }

    lemma Begin()
      requires b.Valid()
      ensures var p := Pos(b.root, 0); Good([p]) && Open(p) + Rest([p]) == b.Content()
    {
      var p := Pos(b.root, 0);
      assert b.Linked(b.root) && b.Whole(b.root);
      NodeOpens(b.root);
      RestOfPush([], p);
      assert [] + [p] == [p];
    }

    // kb_itr_first.
    method First()
      requires b.Valid()
      modifies this
      ensures Valid() && Rest(stack) == b.Content()
    {
      hide Sorted, Weave, Open, Tail, Rest, Front, Back;
      Begin();
      if b.nKeys == 0 {
        stack := [];
        Empty();
        return;
      }
      stack := [Pos(b.root, 0)];
      while Top().x.isInternal
        invariant b.Valid() && stack != [] && Good(stack) && Top().i == 0
        invariant Open(Top()) + Rest(stack) == b.Content()
        invariant Top().x == b.root || Top().x.parent != null
        decreases Top().x.height
      {
        StepDown();
      }
      LeafHasKey(Top().x);
      LeafIsClosed(Top());
    }

    lemma Empty()
      requires b.Valid() && b.nKeys == 0
      ensures Rest([]) == b.Content()
    {
    }

    // Where the inner loop of kb_itr_next stands: still on its way down, or with
    // the null pointer below a leaf.
    ghost predicate Under(s: seq<Pos>, was: seq<Pos>, r: seq<int>)
      requires was != [] && was[|was| - 1].x != null
      reads b, b.nodes, was[|was| - 1].x
    {
      s != [] &&
      var p, below, last := s[|s| - 1], s[..|s| - 1], was[|was| - 1];
      if p.x == null then
        && below != [] && Good(below) && Rest(below) == r
        && var leaf := below[|below| - 1];
           !leaf.x.isInternal && if last.x.isInternal then leaf.i < |leaf.x.keys| else below == was
      else
        && Good(s) && Open(p) + Rest(s) == r
        && (s == was || (last.x.isInternal && p.i == 0 && p.x.parent != null))
    }

    // The inner loop of kb_itr_next, and the step back behind it.
    method Descend()
      requires b.Valid() && stack != [] && Good(stack)
      modifies this
      ensures Good(stack) && stack != [] && Rest(stack) == old(Open(Top()) + Rest(stack))
      ensures if old(Top()).x.isInternal then Top().i < |Top().x.keys| else stack == old(stack)
    {
      hide Sorted, Weave, Open, Tail, Rest, Front, Back;
      ghost var was := stack;
      ghost var r := Open(Top()) + Rest(stack);
      while Top().x != null && Top().i <= |Top().x.keys|
        invariant b.Valid() && stack != [] && Under(stack, was, r)
        decreases if Top().x == null then 0 else Top().x.height + 1
      {
        if Top().x.isInternal {
          StepDown();
        } else {
          StepOff(was, r);
        }
      }
      stack := stack[..|stack| - 1];
    }

    // Below a leaf is the null pointer.
    method StepOff(ghost was: seq<Pos>, ghost r: seq<int>)
      requires b.Valid() && was != [] && was[|was| - 1].x != null
      requires Under(stack, was, r) && Top().x != null && !Top().x.isInternal
      modifies this
      ensures stack != [] && Top().x == null && Under(stack, was, r)
    {
      hide Sorted, Weave, Open, Tail, Rest, Front, Back;
      LeafIsClosed(Top());
      if Top().x.parent != null {
        LeafHasKey(Top().x);
      }
      ghost var s := stack;
      stack := stack + [Pos(null, 0)];
      assert stack[..|stack| - 1] == s;
    }

    // Behind key `i` of the top comes the subtree at pointer `i + 1`.
    lemma Bumped(s: seq<Pos>)
      requires b.Valid() && s != [] && Good(s)
      ensures
        var p, below := s[|s| - 1], s[..|s| - 1];
        var q := Pos(p.x, p.i + 1);
        && Good(below)
        && (if p.i < |p.x.keys|
            then Good(below + [q]) && Rest(s) != [] && Open(q) + Rest(below + [q]) == Rest(s)[1..]
              && Rest(s)[0] == p.x.keys[p.i]
            else Rest(below) == Rest(s))
    {
      hide Sorted, Weave, Open, Tail, Rest, Front, Back;
      var p, below := s[|s| - 1], s[..|s| - 1];
      var q := Pos(p.x, p.i + 1);
      assert b.Linked(p.x);
      assert s == below + [p];
      RestOfPush(below, p);
      TailOpens(p.x, p.i);
      if p.i < |p.x.keys| {
        GoodPush(below, q);
        RestOfPush(below, q);
        Regrouped(p.x.keys[p.i], Open(q), Tail(q), Rest(below));
      }
    }

    // kb_itr_next.
    method Next() returns (more: bool)
      requires Valid()
      modifies this
      ensures Valid() && (more <==> stack != []) && (old(stack) == [] ==> stack == [])
      ensures old(stack) != [] ==> old(Rest(stack)) != [] && Rest(stack) == old(Rest(stack))[1..]
    {
      if stack == [] {
        return false;
      }
      hide Rest, Good;
      Bumped(stack);
      ghost var r := Rest(stack)[1..];
      while true
        invariant b.Valid() && stack != [] && Good(stack)
        invariant if Top().i < |Top().x.keys| then Rest(stack) != [] && Rest(stack)[1..] == r else Rest(stack) == r
        decreases |stack|, |Top().x.keys| - Top().i
      {
        Bump();
        if stack == [] {
          return false;
        }
        if Top().i < |Top().x.keys| {
          return true;
        }
      }
    }

    // One turn of the loop: to the next place of the node at the top and down
    // from there, or off the stack with it.
    method Bump()
      requires b.Valid() && stack != [] && Good(stack)
      modifies this
      ensures Good(stack) && old(Rest(stack))
        == (if old(Top().i < |Top().x.keys|) then [old(Top().x.keys[Top().i])] else []) + Rest(stack)
      ensures stack == [] || Top().i < |Top().x.keys| || |stack| < |old(stack)|
        || (|stack| == |old(stack)| && |Top().x.keys| - Top().i < old(|Top().x.keys| - Top().i))
    {
      hide Sorted, Weave, Open, Tail, Rest, Front, Back;
      Bumped(stack);
      var x, i := Top().x, Top().i + 1;
      if i <= |x.keys| {
        stack := stack[..|stack| - 1] + [Pos(x, i)];
        Descend();
      } else {
        stack := stack[..|stack| - 1];
      }
    }

    // kb_itr_key.
    method Get() returns (k: int)
      requires Valid() && stack != []
      ensures Rest(stack) != [] && k == Rest(stack)[0]
    {
      Bumped(stack);
      return Top().x.keys[Top().i];
    }

    // The stack never needs more than KB_MAX_DEPTH places, the one for the null
    // pointer included, while the number of keys fits in an int.
    lemma StackFits()
      requires b.Valid() && Good(stack) && b.nKeys < 0x8000_0000
      ensures |stack| + 1 <= 32
    {
      var h := b.root.height;
      assert b.Linked(b.root);
      assert stack != [] ==> Top().x.height + (|stack| - 1) <= h by {
        assert stack != [] ==> Top() == stack[|stack| - 1];
      }
      if b.root.isInternal {
        b.HeightBound();
        PowGrows(b.t, h);
        if 30 < h {
          PowMonotone(31, h);
          PowOf31();
        }
      }
    }
  }

  lemma {:induction false} PowGrows(t: nat, e: nat)
    requires 2 <= t
    ensures Pow(2, e) <= Pow(t, e)
  {
    if 0 < e {
      PowGrows(t, e - 1);
      Product(2, t, Pow(2, e - 1), Pow(t, e - 1));
    }
  }

  lemma Product(a: nat, b: nat, m: nat, n: nat)
    requires a <= b && m <= n
    ensures a * m <= b * n
  {
    assert a * m <= a * n <= b * n;
  }

  lemma PowOf31()
    ensures Pow(2, 31) == 0x8000_0000
  {
    assert Pow(2, 8) == 0x100;
    assert Pow(2, 16) == 0x1_0000;
    assert Pow(2, 24) == 0x100_0000;
  }

  lemma {:induction false} PowMonotone(d: nat, e: nat)
    requires d <= e
    ensures Pow(2, d) <= Pow(2, e)
  {
    if d < e {
      PowMonotone(d, e - 1);
    }
  }

  // The way the iterator is used: every key once, in order.
  method Traverse(b: BTree) returns (s: seq<int>)
    requires b.Valid()
    ensures s == b.Content()
  {
    hide Rest, Sorted, Weave;
    var it := new Iterator(b);
    it.First();
    s := [];
    while it.stack != []
      invariant it.b == b && it.Valid() && s + Rest(it.stack) == b.Content()
      decreases |Rest(it.stack)|
    {
      ghost var r := Rest(it.stack);
      var k := it.Get();
      var _ := it.Next();
      OneMore(s, r);
      s := s + [k];
    }
    NothingLeft(it);
  }

  lemma OneMore(s: seq<int>, r: seq<int>)
    requires r != []
    ensures s + r == s + [r[0]] + r[1..] && |r[1..]| < |r|
  {
  }

  lemma NothingLeft(it: Iterator)
    requires it.stack == []
    ensures Rest(it.stack) == []
  {
  }
}
