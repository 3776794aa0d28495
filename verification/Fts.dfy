/**
 fts_read as in fts_compat.c: one entry at a time, over linked nodes and one
 shared path buffer, for a logical walk without change of directory.
 */
module Fts {
  import opened FtsSpec

  const ROOTPARENTLEVEL := -1
  const ROOTLEVEL := 0

  datatype Instr = NoInstr | Skip

  // FTSENT.
  class Ent {
    var name: string
    var info: Info
    var instr: Instr
    var level: int
    var pathlen: nat
    var id: int
    var link: Ent?
    var parent: Ent?
    // The file that its path leads to.
    var entry: Entry
    // Its full path, the directories above it, the nodes that follow on its
    // level, and what is visited once it is done with.
    ghost var path: string
    ghost var above: set<int>
    ghost var sibs: seq<Ent>
    ghost var after: seq<Visit>

    // fts_alloc.
    constructor (nm: string, e: Entry)
      ensures name == nm && info == FTS_INIT && instr == NoInstr && level == 0 && id == 0 && link == null
        && parent == null
      ensures entry == e && sibs == [] && above == {} && after == []
    {
      name, info, instr, level, pathlen, id, link, parent := nm, FTS_INIT, NoInstr, 0, 0, 0, null, null;
      entry, path, above, sibs, after := e, nm, {}, [], [];
    }
  }

  // What qsort gets: a pointer, and the name it leads to.
  datatype Item = Item(name: string, n: Ent)

  function InsertItem(x: Item, xs: seq<Item>): (r: seq<Item>)
    ensures multiset(r) == multiset(xs) + multiset{x}
  {
    if xs == [] || Leq(x.name, xs[0].name) then [x] + xs else
      assert xs == [xs[0]] + xs[1..];
      [xs[0]] + InsertItem(x, xs[1..])
  }

  // The order of the compare function, by name.
  function Qsort(xs: seq<Item>): (r: seq<Item>)
    ensures multiset(r) == multiset(xs)
  {
    if xs == [] then [] else
      assert xs == [xs[0]] + xs[1..];
      InsertItem(xs[0], Qsort(xs[1..]))
  }

  // The nodes stand for the entries, one by one.
  ghost predicate Stand(xs: seq<Item>, es: seq<Entry>)
    reads set x | x in xs :: x.n
  {
    |xs| == |es| && forall k :: 0 <= k < |xs| ==> xs[k].n.entry == es[k] && xs[k].name == es[k].name
  }

  lemma {:induction false} InsertStands(x: Item, e: Entry, xs: seq<Item>, es: seq<Entry>)
    requires Stand(xs, es) && x.n.entry == e && x.name == e.name
    ensures Stand(InsertItem(x, xs), Insert(e, es))
  {
    if xs != [] && !Leq(x.name, xs[0].name) {
      InsertStands(x, e, xs[1..], es[1..]);
    }
  }

  lemma {:induction false} QsortStands(xs: seq<Item>, es: seq<Entry>)
    requires Stand(xs, es)
    ensures Stand(Qsort(xs), Arrange(es))
  {
    if xs != [] {
      QsortStands(xs[1..], es[1..]);
      InsertStands(xs[0], es[0], Qsort(xs[1..]), Arrange(es[1..]));
    }
  }

  predicate Distinct<T(==)>(s: seq<T>) {
    forall i, k :: 0 <= i < k < |s| ==> s[i] != s[k]
  }

  lemma {:induction false} OneCopy<T>(s: seq<T>, x: T)
    requires Distinct(s)
    ensures multiset(s)[x] <= 1 && (x !in s ==> multiset(s)[x] == 0)
  {
    if s != [] {
      assert s == [s[0]] + s[1..];
      OneCopy(s[1..], x);
      assert multiset(s)[x] == (if s[0] == x then 1 else 0) + multiset(s[1..])[x];
    }
  }

  lemma TwoCopies<T>(s: seq<T>, i: nat, k: nat)
    requires i < k < |s| && s[i] == s[k]
    ensures 2 <= multiset(s)[s[i]]
  {
    assert s == s[..i] + [s[i]] + s[i + 1..k] + [s[k]] + s[k + 1..];
  }

  // Reordering makes no two alike.
  lemma DistinctAgain<T>(a: seq<T>, b: seq<T>)
    requires Distinct(a) && multiset(a) == multiset(b)
    ensures Distinct(b)
  {
    forall i, k | 0 <= i < k < |b|
      ensures b[i] != b[k]
    {
      if b[i] == b[k] {
        TwoCopies(b, i, k);
        OneCopy(a, b[i]);
      }
    }
  }

  class FTS {
    var cur: Ent?
    var child: Ent?
    var path: string
    ghost const skip: string -> bool
    // All nodes there have been, and those from the root down to the current.
    ghost var nodes: set<Ent>
    ghost var stack: seq<Ent>

    // How a node hangs together with its parent and with those that follow.
    ghost predicate Linked(n: Ent)
      requires n in nodes
      reads this`nodes, nodes`parent, nodes`level, nodes`entry, nodes`id, nodes`above, nodes`path, nodes`sibs,
        nodes`link, nodes`after
    {
      && n.parent != null && n.parent in nodes && n.level == n.parent.level + 1 && 0 <= n.level
      && Good(n.entry) && (n.entry.Dir? ==> n.id == n.entry.id)
      && (if n.level == 0 then n.above == {} && n.path == n.entry.name
          else
            n.parent.entry.Dir? && n.above == n.parent.above + {n.parent.id}
              && n.path == Join(n.parent.path, n.entry.name))
      && (forall s :: s in n.sibs ==> s in nodes && s.level == n.level && |s.sibs| < |n.sibs|)
      && (if n.sibs == [] then
            n.link == null && n.after == if n.level == 0 then [] else [Visit(FTS_DP, n.parent.path)] + n.parent.after
          else
            && n.link == n.sibs[0] && n.sibs[0].sibs == n.sibs[1..] && n.sibs[0].parent == n.parent
            && n.after == WalkOf(n.sibs[0]) + n.sibs[0].after)
    }

    ghost function WalkOf(n: Ent): seq<Visit>
      reads n`entry, n`above, n`path
    {
      Walk(n.entry, n.above, n.path, skip)
    }

    // A node nothing was done with yet.
    ghost predicate Unvisited(n: Ent)
      reads n`info, n`entry, n`above, n`instr, n`name, n`level, n`pathlen, n`path
    {
      n.info == InfoOf(n.entry, n.above) && n.instr == NoInstr && n.name == n.entry.name
        && (0 < n.level ==> n.pathlen == |n.path|)
    }

    // `c` is a directory of the walk.
    ghost predicate Ready(c: Ent)
      reads this`nodes, nodes`parent, nodes`level, nodes`entry, nodes`id, nodes`above, nodes`path, nodes`sibs,
        nodes`link, nodes`after, c`level, c`entry
    {
      AllLinked() && c in nodes && 0 <= c.level && c.entry.Dir? && Good(c.entry)
    }

    ghost predicate AllLinked()
      reads this`nodes, nodes`parent, nodes`level, nodes`entry, nodes`id, nodes`above, nodes`path, nodes`sibs,
        nodes`link, nodes`after
    {
      && (forall n {:trigger n.level} :: n in nodes ==> ROOTPARENTLEVEL <= n.level)
      && forall n {:trigger Linked(n)} :: n in nodes && 0 <= n.level ==> Linked(n)
    }

    // The way down to the current node: directories that are being visited,
    // each with its path in front of the next, and all that follow untouched.
    ghost predicate OnStack(j: nat)
      requires j < |stack|
      reads this`nodes, this`stack, nodes, stack
    {
      var n := stack[j];
      && n in nodes && n.level == j && n.pathlen == |n.path|
      && (0 < j ==> n.parent == stack[j - 1]) && n.info != FTS_INIT && (n.info == FTS_D ==> n.entry.Dir?)
      && (j + 1 < |stack| ==> n.info == FTS_D && n.instr == NoInstr && n.entry.Dir?)
      && forall s :: s in n.sibs ==> s in nodes && Unvisited(s)
    }

    ghost predicate Stacked()
      reads this`nodes, this`stack, nodes, stack
    {
      forall j {:trigger OnStack(j)} :: 0 <= j < |stack| ==> OnStack(j)
    }

    // The path buffer and the dummy node before the roots.
    ghost predicate Placed()
      reads this`cur, this`stack, this`path, cur, stack
    {
      if cur == null then stack == []
      else if cur.info == FTS_INIT then stack == []
      else stack != [] && cur == stack[|stack| - 1] && path == cur.path
    }

    // Where the walk begins: the dummy leads to the roots.
    ghost predicate Starting()
      reads this`cur, this`nodes, cur, nodes
    {
      cur != null && cur.info == FTS_INIT ==>
        && cur !in nodes && cur.sibs != [] && (forall s :: s in cur.sibs ==>
          s in nodes && s.level == ROOTLEVEL && Unvisited(s))
        && cur.link == cur.sibs[0] && cur.sibs[0].sibs == cur.sibs[1..]
        && cur.after == WalkOf(cur.sibs[0]) + cur.sibs[0].after
    }

    ghost predicate Valid()
      reads this, cur, nodes, stack
    {
      AllLinked() && Stacked() && Placed() && Starting() && child == null
    }

    // What is still to be visited, after `n` or after the current node.
    ghost function FutureOf(n: Ent): seq<Visit>
      reads n`info, n`entry, n`above, n`path, n`after
    {
      if n.info == FTS_D && n.entry.Dir? then Inside(n.entry, n.above, n.path, skip) + [Visit(FTS_DP, n.path)] + n.after
      else n.after
    }

    ghost function Future(): seq<Visit>
      reads this`cur, cur
    {
      if cur == null then [] else FutureOf(cur)
    }

    // The user has asked to skip what is to be skipped, and nothing else.
    ghost predicate Asked()
      reads this, cur
    {
      cur != null ==> (cur.instr == Skip <==> cur.info == FTS_D && skip(cur.path))
    }

    // No node on the stack is among those that follow one below it.
    lemma NotBelow(j: nat, k: nat)
      requires AllLinked() && Stacked() && j <= k < |stack|
      ensures stack[k] !in stack[j].sibs
    {
      assert OnStack(j) && OnStack(k) && Linked(stack[j]);
    }

    lemma NoneBelow(k: nat)
      requires AllLinked() && Stacked() && k < |stack|
      ensures forall j :: 0 <= j <= k ==> stack[k] !in stack[j].sibs
    {
      forall j | 0 <= j <= k
        ensures stack[k] !in stack[j].sibs
      {
        NotBelow(j, k);
      }
    }

    // fts_set.
    method Set(p: Ent, instr: Instr)
      requires Valid() && cur == p
      modifies p`instr
      ensures Valid() && Future() == old(Future()) && p.instr == instr
    {
      if stack != [] {
        NoneBelow(|stack| - 1);
      }
      assert forall j :: 0 <= j < |stack| ==> OnStack(j);
      p.instr := instr;
      forall j | 0 <= j < |stack|
        ensures OnStack(j)
      {
        assert old(OnStack(j)) && old(OnStack(|stack| - 1));
      }
      assert Starting();
    }

    // NAPPEND.
    method Nappend(p: Ent) returns (n: nat)
      requires p.pathlen == |p.path| && p.path <= path
      ensures n == if p.level == ROOTLEVEL && p.path == "/" then 0 else |p.path|
    {
      n := if p.level == ROOTLEVEL && p.pathlen == 1 && path[0] == '/' then 0 else p.pathlen;
    }

    // fts_stat: a directory that is its own ancestor is not one to go into.
    method Stat(p: Ent, e: Entry) returns (info: Info)
      requires AllLinked() && p !in nodes && p.parent != null && p.parent in nodes && ROOTPARENTLEVEL <= p.parent.level
      modifies p`id
      ensures info == InfoOf(e, Above(p.parent)) && (e.Dir? ==> p.id == e.id)
    {
      if e.Leaf? {
        return e.kind;
      }
      p.id := e.id;
      var t := p.parent;
      ghost var all := Above(t);
      while t.level >= ROOTLEVEL
        invariant AllLinked() && t in nodes && ROOTPARENTLEVEL <= t.level
        invariant e.id in all <==> e.id in Above(t)
        decreases t.level
      {
        if p.id == t.id {
          return FTS_DC;
        }
        assert Linked(t);
        t := t.parent;
      }
      return FTS_D;
    }

    // The directories above a kid of `n`.
    ghost function Above(n: Ent): set<int>
      reads n`level, n`above, n`id
    {
      if n.level < 0 then {} else n.above + {n.id}
    }

    ghost function PathOf(c: Ent, e: Entry): string
      reads c`level, c`path
    {
      if c.level < 0 then e.name else Join(c.path, e.name)
    }

    // A node made for entry `e` of directory `c`, or for a root.
    ghost predicate Made(n: Ent, c: Ent, e: Entry)
      reads n`info, n`entry, n`above, n`instr, n`name, n`level, n`pathlen, n`path, n`parent, n`id, c`level, c`above,
        c`id, c`path
    {
      && n.entry == e && n.level == c.level + 1 && n.parent == c
      && n.path == PathOf(c, e) && n.above == Above(c)
      && (e.Dir? ==> n.id == e.id) && Unvisited(n)
    }

    // Linked to one another in this order.
    ghost predicate Chain(ns: seq<Ent>)
      reads ns`link
    {
      && (forall k {:trigger ns[k]} :: 0 <= k < |ns| ==> ns[k].link == if k + 1 < |ns| then ns[k + 1] else null)
      && Distinct(ns)
    }

    lemma ReadyMeans(c: Ent)
      requires Ready(c)
      ensures AllLinked() && c in nodes && 0 <= c.level
    {
      hide AllLinked;
    }

    method MakeEnt(c: Ent, e: Entry, len: nat) returns (p: Ent)
      requires Ready(c) && Good(e)
      requires len + |e.name| == |Join(c.path, e.name)|
      ensures fresh(p) && Made(p, c, e) && p.link == null && p.sibs == []
    {
      hide AllLinked, Linked, Ready, Good, Join, Above;
      ReadyMeans(c);
      p := new Ent(e.name, e);
      p.pathlen := len + |e.name|;
      p.parent := c;
      p.level := c.level + 1;
      p.path, p.above := PathOf(c, e), Above(c);
      var info := Stat(p, e);
      p.info := info;
    }

    // tail->fts_link = p.
    method Attach(tail: Ent, p: Ent, ghost all: seq<Ent>)
      requires Chain(all) && all != [] && tail == all[|all| - 1] && p !in all && p.link == null
      modifies tail`link
      ensures Chain(all + [p])
    {
      tail.link := p;
      forall k | 0 <= k < |all| + 1
        ensures (all + [p])[k].link == if k + 1 < |all| + 1 then (all + [p])[k + 1] else null
      {
        assert k < |all| ==> (all + [p])[k] == all[k];
      }
    }

    // A list under construction: nodes for the first entries of `c`.
    ghost predicate List(c: Ent, es: seq<Entry>, head: Ent?, tail: Ent?, all: seq<Ent>)
      reads c, all
    {
      && |all| == |es| && (forall k {:trigger all[k]} :: 0 <= k < |all| ==> Made(all[k], c, es[k]) && all[k].sibs == [])
      && Chain(all) && head == (if all == [] then null else all[0])
      && tail == (if all == [] then null else all[|all| - 1])
    }

    method AddEntry(c: Ent, e: Entry, len: nat, head: Ent?, tail: Ent?, ghost all: seq<Ent>, ghost es: seq<Entry>)
      returns (head': Ent?, p: Ent)
      requires Ready(c) && Good(e) && c !in all
      requires len + |e.name| == |Join(c.path, e.name)| && List(c, es, head, tail, all)
      modifies (if tail == null then {} else {tail})`link
      ensures fresh(p) && List(c, es + [e], head', p, all + [p])
    {
      hide *;
      OfList(c, es, head, tail, all);
      Inhabited(c, es, head, tail, all);
      head' := head;
      p := MakeEnt(c, e, len);
      if head == null {
        head' := p;
        FirstList(c, e, p);
        assert all == [] && es == [] && [] + [p] == [p] && [] + [e] == [e];
      } else {
        Attach(tail, p, all);
        Longer(c, e, p, all, es);
        Relisted(c, es + [e], head, p, all + [p]);
      }
    }

    lemma Inhabited(c: Ent, es: seq<Entry>, head: Ent?, tail: Ent?, all: seq<Ent>)
      requires List(c, es, head, tail, all)
      ensures head == null <==> all == []
      ensures all != [] ==> tail == all[|all| - 1]
      ensures forall k {:trigger all[k]} :: 0 <= k < |all| ==> Made(all[k], c, es[k]) && all[k].sibs == []
    {
    }

    lemma FirstList(c: Ent, e: Entry, p: Ent)
      requires Made(p, c, e) && p.link == null && p.sibs == []
      ensures List(c, [e], p, p, [p])
    {
    }

    lemma Relisted(c: Ent, es: seq<Entry>, head: Ent?, tail: Ent?, all: seq<Ent>)
      requires |all| == |es| && all != [] && Chain(all) && head == all[0] && tail == all[|all| - 1]
      requires forall k {:trigger all[k]} :: 0 <= k < |all| ==> Made(all[k], c, es[k]) && all[k].sibs == []
      ensures List(c, es, head, tail, all)
    {
    }

    lemma Longer(c: Ent, e: Entry, p: Ent, all: seq<Ent>, es: seq<Entry>)
      requires |all| == |es| && (forall k {:trigger all[k]} :: 0 <= k < |all| ==>
        Made(all[k], c, es[k]) && all[k].sibs == [])
      requires Made(p, c, e) && p.sibs == []
      ensures var all', es' := all + [p], es + [e];
        forall k {:trigger all'[k]} :: 0 <= k < |all'| ==> Made(all'[k], c, es'[k]) && all'[k].sibs == []
    {
      var all', es' := all + [p], es + [e];
      forall k {:trigger all'[k]} | 0 <= k < |all'|
        ensures Made(all'[k], c, es'[k]) && all'[k].sibs == []
      {
        assert k < |all| ==> all'[k] == all[k] && es'[k] == es[k];
      }
    }

    // One turn of the loop over the directory.
    method TakeEntry(c: Ent, e: Entry, len: nat, head: Ent?, tail: Ent?, nitems: nat, ghost all: seq<Ent>,
        ghost es: seq<Entry>)
      returns (head': Ent?, tail': Ent?, nitems': nat, ghost all': seq<Ent>)
      requires Ready(c) && Good(e) && c !in all
      requires len + |e.name| == |Join(c.path, e.name)| && List(c, es, head, tail, all) && nitems == |all|
      modifies (if tail == null then {} else {tail})`link
      ensures List(c, es + if IsDot(e) then [] else [e], head', tail', all') && nitems' == |all'|
      ensures (all' == all && tail' == tail) || (tail' != null && fresh(tail') && all' == all + [tail'])
    {
      head', tail', nitems', all' := head, tail, nitems, all;
      if !IsDot(e) {
        var p;
        head', p := AddEntry(c, e, len, head, tail, all, es);
        tail' := p;
        all' := all + [p];
        nitems' := nitems + 1;
      } else {
        assert es + [] == es;
      }
    }

    lemma OfReady(c: Ent)
      requires Ready(c)
      ensures c.entry.Dir? && c in nodes && 0 <= c.level && AllLinked()
    {
    }

    // The full path of an entry has room for a slash and its name.
    lemma KidsFit(c: Ent, n: nat)
      requires Ready(c) && (0 < c.level ==> c.path != "/")
      requires n == if c.level == ROOTLEVEL && c.path == "/" then 0 else |c.path|
      ensures c.entry.Dir? && forall e :: e in c.entry.kids ==> Good(e) && n + 1 + |e.name| == |Join(c.path, e.name)|
    {
    }

    lemma Nothing(c: Ent)
      ensures List(c, [], null, null, []) && Visible([]) == []
    {
    }

    // The first half of fts_build: a list of all entries of the directory, in
    // the order readdir gives them.
    method ReadDir(c: Ent) returns (head: Ent?, nitems: nat, ghost all: seq<Ent>)
      requires Ready(c)
      requires path == c.path && c.pathlen == |c.path| && (0 < c.level ==> c.path != "/")
      ensures List(c, Visible(c.entry.kids), head, if all == [] then null else all[|all| - 1], all)
      ensures nitems == |all| && forall n :: n in all ==> fresh(n)
    {
      hide *;
      OfReady(c);
      var n := Nappend(c);
      var len := n + 1;
      var kids := c.entry.kids;
      Nothing(c);
      KidsFit(c, n);
      var tail: Ent? := null;
      head, nitems, all := null, 0, [];
      ghost var es: seq<Entry>, made: set<Ent> := [], {};
      assert kids[..0] == [];
      for i := 0 to |kids|
        invariant List(c, es, head, tail, all) && nitems == |all| && es == Visible(kids[..i])
        invariant fresh(made) && (tail != null ==> tail in made) && forall n :: n in all ==> n in made
      {
        ghost var e := if IsDot(kids[i]) then [] else [kids[i]];
        VisibleSnoc(kids, i);
        head, tail, nitems, all := TakeEntry(c, kids[i], len, head, tail, nitems, all, es);
        es := es + e;
        made := if tail == null then made else made + {tail};
      }
      assert kids[..|kids|] == kids;
      ListEnds(c, es, head, tail, all);
    }

    lemma ListEnds(c: Ent, es: seq<Entry>, head: Ent?, tail: Ent?, all: seq<Ent>)
      requires List(c, es, head, tail, all)
      ensures tail == if all == [] then null else all[|all| - 1]
    {
    }

    function Ents(xs: seq<Item>): (ns: seq<Ent>)
      ensures |ns| == |xs|
    {
      seq(|xs|, k requires 0 <= k < |xs| => xs[k].n)
    }

    lemma LongerItems(xs: seq<Item>, p: Ent)
      ensures Ents(xs + [Item(p.name, p)]) == Ents(xs) + [p]
    {
    }

    // The first loop of fts_sort.
    method Collect(head: Ent?, ghost all: seq<Ent>) returns (xs: seq<Item>)
      requires Chain(all) && head == if all == [] then null else all[0]
      ensures Ents(xs) == all && forall k :: 0 <= k < |xs| ==> xs[k].name == xs[k].n.name
    {
      xs := [];
      var p := head;
      while p != null
        invariant |xs| <= |all| && p == (if |xs| < |all| then all[|xs|] else null)
        invariant Ents(xs) == all[..|xs|] && forall k :: 0 <= k < |xs| ==> xs[k].name == xs[k].n.name
        decreases |all| - |xs|
      {
        hide Ents;
        assert p.link == if |xs| + 1 < |all| then all[|xs| + 1] else null;
        ghost var was := xs;
        xs := xs + [Item(p.name, p)];
        LongerItems(was, p);
        p := p.link;
      }
    }

    // The last loop of fts_sort.
    method Relink(ns: seq<Ent>, ghost s: set<Ent>)
      requires ns != [] && Distinct(ns) && forall n :: n in ns ==> n in s
      modifies s`link
      ensures Chain(ns)
    {
      for k := 0 to |ns| - 1
        invariant forall i {:trigger ns[i]} :: 0 <= i < k ==> ns[i].link == ns[i + 1]
      {
        ns[k].link := ns[k + 1];
      }
      ns[|ns| - 1].link := null;
    }

    lemma ItemsDistinct(xs: seq<Item>)
      requires Distinct(Ents(xs))
      ensures Distinct(xs)
    {
      var ns := Ents(xs);
      assert forall i :: 0 <= i < |xs| ==> ns[i] == xs[i].n;
    }

    lemma EntsDistinct(ys: seq<Item>)
      requires Distinct(ys) && forall y :: y in ys ==> y.name == y.n.name
      ensures Distinct(Ents(ys))
    {
      var ns := Ents(ys);
      forall i, k | 0 <= i < k < |ns|
        ensures ns[i] != ns[k]
      {
        assert ns[i] == ys[i].n && ns[k] == ys[k].n && ys[i] in ys && ys[k] in ys;
      }
    }

    lemma SameMembers<T>(a: seq<T>, b: seq<T>)
      requires multiset(a) == multiset(b)
      ensures |a| == |b| && forall x :: x in b ==> x in a
    {
      assert |multiset(a)| == |a| && |multiset(b)| == |b|;
      forall x | x in b
        ensures x in a
      {
        assert x in multiset(b);
      }
    }

    // What qsort keeps: the same nodes, each once, in the order of the entries.
    lemma SortedItems(xs: seq<Item>, es: seq<Entry>)
      requires Distinct(Ents(xs)) && Stand(xs, es) && forall x :: x in xs ==> x.name == x.n.name
      ensures var ys := Qsort(xs);
        && Stand(ys, Arrange(es)) && Distinct(Ents(ys)) && forall y :: y in ys ==> y in xs
    {
      hide Qsort, Arrange, Distinct;
      QsortStands(xs, es);
      SameMembers(xs, Qsort(xs));
      ItemsDistinct(xs);
      DistinctAgain(xs, Qsort(xs));
      EntsDistinct(Qsort(xs));
    }

    // The nodes in their new order are still made for their entries.
    lemma MadeAgain(c: Ent, all: seq<Ent>, es: seq<Entry>, ns: seq<Ent>, fs: seq<Entry>)
      requires |all| == |es| && |ns| == |fs|
      requires forall k {:trigger all[k]} :: 0 <= k < |all| ==> Made(all[k], c, es[k]) && all[k].sibs == []
      requires forall k {:trigger ns[k]} :: 0 <= k < |ns| ==> ns[k] in all && ns[k].entry == fs[k]
      ensures forall k {:trigger ns[k]} :: 0 <= k < |ns| ==> Made(ns[k], c, fs[k]) && ns[k].sibs == []
    {
      forall k {:trigger ns[k]} | 0 <= k < |ns|
        ensures Made(ns[k], c, fs[k]) && ns[k].sibs == []
      {
        var j :| 0 <= j < |all| && all[j] == ns[k];
      }
    }

    lemma ItemsOf(xs: seq<Item>, all: seq<Ent>, c: Ent, es: seq<Entry>)
      requires Ents(xs) == all && |all| == |es|
      requires forall k {:trigger all[k]} :: 0 <= k < |all| ==> Made(all[k], c, es[k])
      requires forall k :: 0 <= k < |xs| ==> xs[k].name == xs[k].n.name
      ensures Stand(xs, es) && forall x :: x in xs ==> x.name == x.n.name && x.n in all
    {
      assert forall k :: 0 <= k < |xs| ==> xs[k].n == all[k];
    }

    lemma SortedList(c: Ent, xs: seq<Item>, all: seq<Ent>, es: seq<Entry>)
      requires Ents(xs) == all && |all| == |es| && Distinct(all)
      requires forall k {:trigger all[k]} :: 0 <= k < |all| ==> Made(all[k], c, es[k]) && all[k].sibs == []
      requires forall k :: 0 <= k < |xs| ==> xs[k].name == xs[k].n.name
      ensures var ns, fs := Ents(Qsort(xs)), Arrange(es);
        && |ns| == |fs| == |xs| && Distinct(ns) && (forall n :: n in ns ==> n in all)
        && forall k {:trigger ns[k]} :: 0 <= k < |ns| ==> Made(ns[k], c, fs[k]) && ns[k].sibs == []
    {
      hide Made, Qsort, Arrange, Distinct;
      ItemsOf(xs, all, c, es);
      SortedItems(xs, es);
      var ys := Qsort(xs);
      SameMembers(xs, ys);
      var ns := Ents(ys);
      assert forall k {:trigger ns[k]} :: 0 <= k < |ns| ==> ns[k] == ys[k].n && ys[k] in ys;
      MadeAgain(c, all, es, ns, Arrange(es));
    }

    // The names are in the order of strcmp.
    ghost predicate NamesRise(ns: seq<Ent>)
      reads ns`name
    {
      forall i, k :: 0 <= i < k < |ns| ==> AtMost(ns[i].name, ns[k].name)
    }

    // Nodes made for arranged entries have such names.
    lemma NamesInOrder(c: Ent, ns: seq<Ent>, es: seq<Entry>)
      requires |ns| == |Arrange(es)| && forall k {:trigger ns[k]} :: 0 <= k < |ns| ==> Made(ns[k], c, Arrange(es)[k])
      ensures NamesRise(ns)
    {
      hide AtMost, Arrange;
      ArrangeInOrder(es);
      assert forall k :: 0 <= k < |ns| ==> ns[k].name == Arrange(es)[k].name;
    }

    // fts_sort.
    method Sort(c: Ent, head: Ent?, ghost all: seq<Ent>, ghost es: seq<Entry>, ghost s: set<Ent>)
      returns (head': Ent?, ghost ns: seq<Ent>)
      requires all != [] && List(c, es, head, all[|all| - 1], all) && forall n :: n in all ==> n in s
      modifies s`link
      ensures ns != [] && List(c, Arrange(es), head', ns[|ns| - 1], ns) && forall n :: n in ns ==> n in all
      ensures NamesRise(ns)
    {
      hide Made, Qsort, Arrange, Distinct, NamesRise;
      var xs := Collect(head, all);
      SortedList(c, xs, all, es);
      xs := Qsort(xs);
      ns := Ents(xs);
      Relink(Ents(xs), s);
      NamesInOrder(c, ns, es);
      head' := xs[0].n;
    }

    // What is visited once kid `k` of `c` is done with.
    ghost function AfterKid(c: Ent, es: seq<Entry>, k: nat): seq<Visit>
      requires c.entry.Dir? && k <= |es| && forall e :: e in es ==> e in c.entry.kids
      reads c
    {
      WalkAll(es[k..], c.entry, c.above + {c.id}, c.path, skip) + ([Visit(FTS_DP, c.path)] + c.after)
    }

    // The nodes know who follows, and what is visited afterwards.
    ghost predicate Ordered(c: Ent, ns: seq<Ent>, es: seq<Entry>)
      requires c.entry.Dir? && |ns| == |es| && forall e :: e in es ==> e in c.entry.kids
      reads c, ns`sibs, ns`after
    {
      forall k {:trigger ns[k]} :: 0 <= k < |ns| ==> ns[k].sibs == ns[k + 1..] && ns[k].after == AfterKid(c, es, k + 1)
    }

    ghost method Order(c: Ent, ns: seq<Ent>, es: seq<Entry>, s: set<Ent>)
      requires forall n :: n in ns ==> n in s
      requires c.entry.Dir? && |ns| == |es| && (forall e :: e in es ==> e in c.entry.kids) && Distinct(ns) && c !in ns
      modifies s`sibs, s`after
      ensures Ordered(c, ns, es)
    {
      hide AfterKid;
      forall k | 0 <= k < |ns| {
        ns[k].sibs := ns[k + 1..];
      }
      forall k | 0 <= k < |ns| {
        ns[k].after := AfterKid(c, es, k + 1);
      }
    }

    lemma AfterStep(c: Ent, n: Ent, es: seq<Entry>, k: nat)
      requires c.entry.Dir? && k < |es| && (forall e :: e in es ==> e in c.entry.kids) && c.id == c.entry.id
        && 0 <= c.level
      requires Made(n, c, es[k])
      ensures AfterKid(c, es, k) == WalkOf(n) + AfterKid(c, es, k + 1)
    {
      assert es[k..] == [es[k]] + es[k + 1..];
    }

    lemma AfterLast(c: Ent, es: seq<Entry>)
      requires c.entry.Dir? && (forall e :: e in es ==> e in c.entry.kids)
      ensures AfterKid(c, es, |es|) == [Visit(FTS_DP, c.path)] + c.after
    {
      assert es[|es|..] == [];
    }

    lemma KidLinked(c: Ent, ns: seq<Ent>, es: seq<Entry>, k: nat)
      requires c in nodes && c.entry.Dir? && |ns| == |es| && es == Kids(c.entry.kids) && c.id == c.entry.id
        && 0 <= c.level && Good(c.entry)
      requires Chain(ns) && Ordered(c, ns, es) && (forall n :: n in ns ==> n in nodes) && k < |ns|
      requires forall i {:trigger ns[i]} :: 0 <= i < |ns| ==> Made(ns[i], c, es[i])
      ensures Linked(ns[k])
    {
      hide *;
      KidPlace(c, ns[k], es, k);
      KidSibs(c, ns, es, k);
      KidAfter(c, ns, es, k);
      IsLinked(ns[k]);
    }

    lemma IsLinked(n: Ent)
      requires n in nodes && n.parent != null && n.parent in nodes && n.level == n.parent.level + 1 && 0 < n.level
      requires Good(n.entry) && (n.entry.Dir? ==> n.id == n.entry.id)
      requires n.parent.entry.Dir? && n.above == n.parent.above + {n.parent.id}
        && n.path == Join(n.parent.path, n.entry.name)
      requires forall s :: s in n.sibs ==> s in nodes && s.level == n.level && |s.sibs| < |n.sibs|
      requires n.sibs == [] ==> n.link == null && n.after == [Visit(FTS_DP, n.parent.path)] + n.parent.after
      requires n.sibs != [] ==> n.link == n.sibs[0] && n.sibs[0].sibs == n.sibs[1..] && n.sibs[0].parent == n.parent
      requires n.sibs != [] ==> n.after == WalkOf(n.sibs[0]) + n.sibs[0].after
      ensures Linked(n)
    {
    }

    // A kid in its directory.
    lemma KidPlace(c: Ent, n: Ent, es: seq<Entry>, k: nat)
      requires c.entry.Dir? && es == Kids(c.entry.kids) && k < |es| && Made(n, c, es[k]) && 0 <= c.level
        && Good(c.entry)
      ensures n.parent == c && n.level == c.level + 1 && 0 < n.level && Good(n.entry)
        && (n.entry.Dir? ==> n.id == n.entry.id)
      ensures n.above == c.above + {c.id} && n.path == Join(c.path, n.entry.name) && forall e :: e in es ==>
        e in c.entry.kids
    {
      hide Kids;
      assert es[k] in es;
    }

    // What follows a kid, and what is visited after it.
    lemma KidAfter(c: Ent, ns: seq<Ent>, es: seq<Entry>, k: nat)
      requires c.entry.Dir? && |ns| == |es| && (forall e :: e in es ==> e in c.entry.kids) && k < |ns|
      requires c.id == c.entry.id && 0 <= c.level && Chain(ns) && Ordered(c, ns, es)
      requires forall i {:trigger ns[i]} :: 0 <= i < |ns| ==> Made(ns[i], c, es[i])
      ensures if k + 1 < |ns| then ns[k].link == ns[k + 1] && ns[k + 1].parent == c
        && ns[k].after == WalkOf(ns[k + 1]) + ns[k + 1].after
        else ns[k].link == null && ns[k].after == [Visit(FTS_DP, c.path)] + c.after
    {
      hide AfterKid, WalkOf, Distinct;
      if k + 1 < |ns| {
        AfterStep(c, ns[k + 1], es, k + 1);
        MadeLevel(ns[k + 1], c, es[k + 1]);
      } else {
        AfterLast(c, es);
      }
    }

    // The siblings that follow a kid.
    lemma KidSibs(c: Ent, ns: seq<Ent>, es: seq<Entry>, k: nat)
      requires c.entry.Dir? && |ns| == |es| && (forall e :: e in es ==> e in c.entry.kids) && k < |ns|
      requires Ordered(c, ns, es) && forall n :: n in ns ==> n in nodes
      requires forall i {:trigger ns[i]} :: 0 <= i < |ns| ==> Made(ns[i], c, es[i])
      ensures forall s :: s in ns[k].sibs ==> s in nodes && s.level == ns[k].level && |s.sibs| < |ns[k].sibs|
      ensures if k + 1 < |ns| then ns[k].sibs != [] && ns[k].sibs[0] == ns[k + 1] && ns[k + 1].sibs == ns[k].sibs[1..]
        else ns[k].sibs == []
    {
      hide AfterKid, WalkOf;
      forall s | s in ns[k].sibs
        ensures s in nodes && s.level == ns[k].level && |s.sibs| < |ns[k].sibs|
      {
        var i :| 0 <= i < |ns[k].sibs| && ns[k].sibs[i] == s;
        assert s == ns[k + 1 + i];
      }
    }

    // The nodes of a directory join those of the walk.
    ghost method Settle(c: Ent, ns: seq<Ent>, es: seq<Entry>, s: set<Ent>)
      requires s == (set n | n in ns)
      requires Ready(c) && c !in ns && (forall n :: n in ns ==> n !in nodes) && Distinct(ns)
      requires Chain(ns) && |ns| == |es| && es == Kids(c.entry.kids) && c.id == c.entry.id
      requires forall k {:trigger ns[k]} :: 0 <= k < |ns| ==> Made(ns[k], c, es[k])
      modifies this`nodes, s`sibs, s`after
      ensures nodes == old(nodes) + s && Ready(c) && Ordered(c, ns, es)
    {
      hide AfterKid, Chain, Made, Ordered, Linked, Kids, Distinct;
      forall n | n in ns
        ensures ROOTPARENTLEVEL <= n.level
      {
        var k :| 0 <= k < |ns| && ns[k] == n;
        MadeLevel(n, c, es[k]);
      }
      Order(c, ns, es, s);
      label ordered:
      assert Ready(c);
      nodes := nodes + s;
      forall n | n in nodes && 0 <= n.level
        ensures Linked(n)
      {
        if n in ns {
          var k :| 0 <= k < |ns| && ns[k] == n;
          KidLinked(c, ns, es, k);
        } else {
          StillLinked@ordered(n);
        }
      }
    }

    lemma MadeLevel(n: Ent, c: Ent, e: Entry)
      requires Made(n, c, e)
      ensures n.level == c.level + 1
    {
    }

    twostate lemma StillLinked(n: Ent)
      requires n in old(nodes) && old(Linked(n)) && old(nodes) <= nodes
      requires forall m {:trigger m in old(nodes)} :: m in old(nodes) ==>
        m.parent == old(m.parent) && m.level == old(m.level) && m.entry == old(m.entry) && m.id == old(m.id)
        && m.above == old(m.above) && m.path == old(m.path) && m.sibs == old(m.sibs) && m.link == old(m.link)
        && m.after == old(m.after)
      ensures Linked(n)
    {
    }

    // One entry is in order as it is.
    lemma SortedAlone(es: seq<Entry>)
      requires |es| <= 1
      ensures Arrange(es) == es
    {
    }

    lemma OfKids(es: seq<Entry>)
      ensures Kids(es) == Arrange(Visible(es)) && |Kids(es)| == |Visible(es)|
    {
      assert |Arrange(Visible(es))| == |multiset(Visible(es))|;
    }

    lemma OfList(c: Ent, es: seq<Entry>, head: Ent?, tail: Ent?, all: seq<Ent>)
      requires List(c, es, head, tail, all)
      ensures |all| == |es| && head == (if all == [] then null else all[0]) && Chain(all) && Distinct(all)
      ensures forall k {:trigger all[k]} :: 0 <= k < |all| ==> Made(all[k], c, es[k])
    {
    }

    // The nodes of a directory, in the order of the walk.
    method Children(c: Ent) returns (head: Ent?, ghost ns: seq<Ent>)
      requires Ready(c)
      requires path == c.path && c.pathlen == |c.path| && (0 < c.level ==> c.path != "/")
      ensures c.entry.Dir? && List(c, Kids(c.entry.kids), head, if ns == [] then null else ns[|ns| - 1], ns)
      ensures forall n :: n in ns ==> fresh(n)
    {
      hide *;
      OfReady(c);
      var nitems;
      head, nitems, ns := ReadDir(c);
      ghost var es := Visible(c.entry.kids);
      OfKids(c.entry.kids);
      OfList(c, es, head, if ns == [] then null else ns[|ns| - 1], ns);
      if 1 < nitems {
        head, ns := Sort(c, head, ns, es, set n | n in ns);
      } else {
        SortedAlone(es);
      }
    }

    lemma LongPath(c: Ent)
      requires c in nodes && Linked(c) && 0 < c.level
      ensures c.path != "/"
    {
      assert |c.path| > 1;
    }

    // What a directory is like that was just returned.
    lemma OfCurrent(c: Ent)
      requires Valid() && cur == c && c.info == FTS_D
      ensures Ready(c) && path == c.path && c.pathlen == |c.path| && (0 < c.level ==> c.path != "/")
      ensures c.entry.Dir? && c.id == c.entry.id && child == null
    {
      assert OnStack(|stack| - 1) && Linked(c);
      if 0 < c.level {
        LongPath(c);
      }
    }

    twostate lemma StackKept()
      requires old(Valid()) && old(nodes) <= nodes && unchanged(old(nodes))
        && unchanged(this`stack, this`cur, this`path)
      requires old(cur) != null && old(cur.info == FTS_D)
      ensures Stacked() && Placed()
    {
      forall j | 0 <= j < |stack|
        ensures OnStack(j)
      {
        assert old(OnStack(j));
      }
      assert old(OnStack(|stack| - 1));
    }

    // fts_build.
    method Build() returns (head: Ent?, ghost ns: seq<Ent>)
      requires Valid() && cur != null && cur.info == FTS_D
      modifies this`nodes, cur`info
      ensures cur.entry.Dir? && (head == null <==> Kids(cur.entry.kids) == [])
      ensures head == null ==> Valid() && nodes == old(nodes) && cur.info == FTS_DP && Future() == cur.after
      ensures head != null ==> Stacked() && Placed()
      ensures head != null ==> cur.info == FTS_D && Ready(cur) && ns != [] && head == ns[0]
      ensures head != null ==> |ns| == |Kids(cur.entry.kids)| && Ordered(cur, ns, Kids(cur.entry.kids))
      ensures head != null ==> forall k {:trigger ns[k]} :: 0 <= k < |ns| ==>
        Made(ns[k], cur, Kids(cur.entry.kids)[k]) && ns[k] in nodes
      ensures head != null ==> nodes == old(nodes) + (set n | n in ns) && forall n :: n in ns ==> fresh(n)
    {
      hide *;
      var c: Ent := cur;
      OfCurrent(c);
      head, ns := Children(c);
      ghost var es := Kids(c.entry.kids);
      OfList(c, es, head, if ns == [] then null else ns[|ns| - 1], ns);
      if head == null {
        Finish();
        return;
      }
      ghost var s := set n | n in ns;
      Settle(c, ns, es, s);
      StackKept();
      forall k {:trigger ns[k]} | 0 <= k < |ns|
        ensures Made(ns[k], c, es[k]) && ns[k] in nodes
      {
        assert ns[k] in ns;
      }
    }

    // The current directory is done with.
    method Finish()
      requires Valid() && cur != null && cur.info == FTS_D
      modifies cur`info
      ensures Valid() && cur.info == FTS_DP && Future() == cur.after
    {
      ghost var p: Ent := cur;
      if stack != [] {
        NoneBelow(|stack| - 1);
      }
      cur.info := FTS_DP;
      forall j | 0 <= j < |stack|
        ensures OnStack(j)
      {
        assert old(OnStack(j)) && old(OnStack(|stack| - 1));
      }
    }

    // The name of an entry goes behind the path of its directory.
    method PutName(p: Ent)
      requires AllLinked() && p in nodes && Linked(p) && 0 < p.level && p.name == p.entry.name
      requires p.parent.pathlen == |p.parent.path| && p.parent.path <= path
      modifies this`path
      ensures path == p.path
    {
      if 0 < p.parent.level {
        LongPath(p.parent);
      }
      var n := Nappend(p.parent);
      assert path[..|p.parent.path|] == p.parent.path;
      path := path[..n] + "/" + p.name;
    }

    // A node is taken up.
    lemma Arrive(p: Ent)
      requires p in nodes && Linked(p) && Unvisited(p)
      ensures p.info != FTS_INIT && (p.info == FTS_D ==> p.entry.Dir?)
      ensures WalkOf(p) + p.after == [Visit(p.info, p.path)] + FutureOf(p)
    {
      hide *;
      OfArriving(p);
      OfWalk(p);
      if p.info == FTS_D {
        InFour([Visit(FTS_D, p.path)], Inside(p.entry, p.above, p.path, skip), [Visit(FTS_DP, p.path)], p.after);
      }
    }

    // A walk starts with the visit of its entry.
    lemma OfWalk(p: Ent)
      requires p.info == InfoOf(p.entry, p.above) && (p.info == FTS_D ==> p.entry.Dir?)
      ensures WalkOf(p) == if p.info == FTS_D then
        [Visit(FTS_D, p.path)] + Inside(p.entry, p.above, p.path, skip) + [Visit(FTS_DP, p.path)]
        else [Visit(p.info, p.path)]
      ensures FutureOf(p) == if p.info == FTS_D then
        Inside(p.entry, p.above, p.path, skip) + [Visit(FTS_DP, p.path)] + p.after else p.after
    {
      hide Inside;
    }

    lemma InFour(a: seq<Visit>, b: seq<Visit>, c: seq<Visit>, d: seq<Visit>)
      ensures a + b + c + d == a + (b + c + d)
    {
    }

    lemma OfArriving(p: Ent)
      requires p in nodes && Linked(p) && Unvisited(p)
      ensures p.info == InfoOf(p.entry, p.above) && p.info != FTS_INIT && (p.info == FTS_D ==> p.entry.Dir?)
    {
    }

    lemma FirstFuture(c: Ent, ns: seq<Ent>, es: seq<Entry>)
      requires c.info == FTS_D && c.entry.Dir? && es == Kids(c.entry.kids) && !skip(c.path) && c.id == c.entry.id
        && 0 <= c.level
      requires |ns| == |es| && ns != [] && Ordered(c, ns, es) && Made(ns[0], c, es[0])
      ensures FutureOf(c) == WalkOf(ns[0]) + ns[0].after
    {
      hide AfterKid, Ordered, Made, Kids;
      AfterStep(c, ns[0], es, 0);
      InsideIsAfter(c, es);
      FirstAfter(c, ns, es);
    }

    lemma FirstAfter(c: Ent, ns: seq<Ent>, es: seq<Entry>)
      requires c.entry.Dir? && |ns| == |es| && ns != [] && (forall e :: e in es ==> e in c.entry.kids)
        && Ordered(c, ns, es)
      ensures ns[0].after == AfterKid(c, es, 1) && ns[0].sibs == ns[1..]
    {
    }

    lemma InsideIsAfter(c: Ent, es: seq<Entry>)
      requires c.info == FTS_D && c.entry.Dir? && es == Kids(c.entry.kids) && !skip(c.path) && c.id == c.entry.id
      ensures FutureOf(c) == AfterKid(c, es, 0)
    {
      assert es[0..] == es;
    }

    lemma FirstOfMany(c: Ent, ns: seq<Ent>, es: seq<Entry>)
      requires c.entry.Dir? && |ns| == |es| && ns != [] && (forall e :: e in es ==> e in c.entry.kids)
        && Ordered(c, ns, es)
      requires forall k {:trigger ns[k]} :: 0 <= k < |ns| ==> Made(ns[k], c, es[k]) && ns[k] in nodes
      ensures forall s :: s in ns[0].sibs ==> s in nodes && Unvisited(s)
    {
      forall s | s in ns[0].sibs
        ensures s in nodes && Unvisited(s)
      {
        var k :| 0 <= k < |ns[0].sibs| && ns[0].sibs[k] == s;
        assert s == ns[k + 1];
      }
    }

    // The first entry of a directory.
    method Enter(p: Ent, ghost ns: seq<Ent>, ghost es: seq<Entry>)
      requires AllLinked() && Stacked() && Placed() && child == null
      requires cur != null && cur.info == FTS_D && cur.instr == NoInstr && cur.entry.Dir? && es == Kids(cur.entry.kids)
        && !skip(cur.path)
      requires |ns| == |es| && ns != [] && p == ns[0] && Ordered(cur, ns, es) && cur.id == cur.entry.id && cur in nodes
        && 0 <= cur.level
      requires forall k {:trigger ns[k]} :: 0 <= k < |ns| ==> Made(ns[k], cur, es[k]) && ns[k] in nodes
      modifies this`path, this`cur, this`stack
      ensures Valid() && cur == p && old(Future()) == [Visit(p.info, path)] + Future()
    {
      hide *;
      ghost var c: Ent := cur;
      OfEntering(p, ns, es);
      FutureIsOf(c);
      FirstFuture(c, ns, es);
      FirstOfMany(c, ns, es);
      PutName(p);
      Arrive(p);
      cur := p;
      stack := stack + [p];
      EnteredIsValid(p);
      FutureIsOf(p);
    }

    lemma FutureIsOf(p: Ent)
      requires cur == p
      ensures Future() == FutureOf(p)
    {
    }

    lemma OfEntering(p: Ent, ns: seq<Ent>, es: seq<Entry>)
      requires AllLinked() && Stacked() && Placed() && cur != null && cur.info == FTS_D && cur in nodes
        && 0 <= cur.level
      requires cur.entry.Dir? && |ns| == |es| && ns != [] && p == ns[0]
      requires forall k {:trigger ns[k]} :: 0 <= k < |ns| ==> Made(ns[k], cur, es[k]) && ns[k] in nodes
      ensures p in nodes && Linked(p) && Unvisited(p) && p.level == cur.level + 1 && p.parent == cur
        && p.name == p.entry.name
      ensures p.pathlen == |p.path| && cur.path <= path && cur.pathlen == |cur.path|
      ensures stack != [] && cur == stack[|stack| - 1] && Made(p, cur, es[0])
    {
      assert OnStack(|stack| - 1);
    }

    twostate lemma EnteredIsValid(p: Ent)
      requires old(cur) != null && old(cur.info == FTS_D && cur.instr == NoInstr && cur.entry.Dir?)
      requires old(AllLinked()) && old(Stacked()) && old(Placed()) && child == null
      requires nodes == old(nodes) && unchanged(nodes) && cur == p && stack == old(stack) + [p] && path == p.path
      requires p in nodes && p.parent == old(cur) && Unvisited(p) && p.pathlen == |p.path|
        && p.level == old(cur).level + 1
      requires Linked(p) && forall s :: s in p.sibs ==> s in nodes && Unvisited(s)
      ensures Valid()
    {
      forall j | 0 <= j < |stack|
        ensures OnStack(j)
      {
        assert old(OnStack(|stack| - 1));
        assert j < |old(stack)| ==> old(OnStack(j)) && stack[j] == old(stack)[j];
      }
    }

    // What follows on the level of the current node.
    lemma OfLeaving(t: Ent)
      requires Valid() && cur == t && t.info != FTS_INIT
      ensures stack != [] && t in nodes && Linked(t) && 0 <= t.level && t.level == |stack| - 1
        && t == stack[|stack| - 1] && path == t.path
      ensures t.pathlen == |t.path| && AllLinked() && child == null
      ensures forall s :: s in t.sibs ==> s in nodes && Unvisited(s)
      ensures 0 < t.level ==>
        && t.parent == stack[|stack| - 2] && t.parent.pathlen == |t.parent.path| && t.parent.info == FTS_D
        && t.parent.instr == NoInstr && t.parent.entry.Dir? && t.parent.level == t.level - 1
    {
      assert OnStack(|stack| - 1) && Linked(t);
      if 1 < |stack| {
        assert OnStack(|stack| - 2);
      }
    }

    lemma OfSibling(t: Ent, p: Ent)
      requires t in nodes && Linked(t) && t.link == p && forall s :: s in t.sibs ==> s in nodes && Unvisited(s)
      requires AllLinked()
      ensures p in nodes && p.level == t.level && p.parent == t.parent && t.after == WalkOf(p) + p.after && Unvisited(p)
        && Linked(p)
      ensures forall s :: s in p.sibs ==> s in nodes && Unvisited(s) && s != p
    {
      assert p in t.sibs;
    }

    // The next entry of the same directory.
    method Advance(p: Ent)
      requires Valid() && cur != null && cur.info != FTS_INIT && cur.info != FTS_D && cur.link == p && 0 < cur.level
      modifies this`path, this`cur, this`stack
      ensures Valid() && cur == p && old(Future()) == [Visit(p.info, path)] + Future()
    {
      hide *;
      ghost var t: Ent := cur;
      OfLeaving(t);
      FutureIsOf(t);
      LeavingFuture(t);
      OfSibling(t, p);
      OfAdvance(t, p);
      PutName(p);
      Arrive(p);
      cur := p;
      stack := stack[..|stack| - 1] + [p];
      AdvancedIsValid(p);
      FutureIsOf(p);
    }

    lemma LeavingFuture(t: Ent)
      requires t.info != FTS_D
      ensures FutureOf(t) == t.after
    {
    }

    lemma OfAdvance(t: Ent, p: Ent)
      requires AllLinked() && t in nodes && Linked(t) && p in nodes && Linked(p) && Unvisited(p)
        && 0 < t.level == p.level && p.parent == t.parent
      ensures p.pathlen == |p.path| && p.name == p.entry.name && p.parent.path <= t.path
    {
    }

    twostate lemma AdvancedIsValid(p: Ent)
      requires old(cur) != null && old(cur.info != FTS_INIT)
      requires old(Valid()) && child == null && old(stack) != []
      requires nodes == old(nodes) && cur == p && stack == old(stack)[..|old(stack)| - 1] + [p] && path == p.path
      requires unchanged(nodes - {p}) && p in nodes && p.pathlen == |p.path| && p.level == old(cur.level)
        && p.parent == old(cur.parent)
      requires unchanged(p) || (p.level == 0 && p.info == old(p.info))
      requires AllLinked() && p.info != FTS_INIT && (p.info == FTS_D ==> p.entry.Dir?)
      requires forall s :: s in p.sibs ==> s in nodes && Unvisited(s)
      ensures Valid()
    {
      forall j | 0 <= j < |stack|
        ensures OnStack(j)
      {
        assert old(OnStack(|stack| - 1));
        assert j + 1 < |old(stack)| ==> old(OnStack(j)) && stack[j] == old(stack)[j];
      }
    }

    // What stands behind the last slash of a name, unless it is "/".
    function Basename(name: string): string {
      if '/' !in name || name == "/" then name else AfterSlash(name)
    }

    function AfterSlash(name: string): string {
      if name == "" || name[|name| - 1] == '/' then "" else AfterSlash(name[..|name| - 1]) + name[|name| - 1..]
    }

    // It is the name itself, or all of it behind its last slash.
    lemma {:induction false} BasenameMeans(name: string)
      ensures '/' !in name || name == "/" ==> Basename(name) == name
      ensures '/' in name && name != "/" ==>
        && '/' !in Basename(name) && |Basename(name)| < |name|
        && "/" + Basename(name) == name[|name| - 1 - |Basename(name)|..]
    {
      if '/' in name && name != "/" {
        LastPart(name);
      }
    }

    lemma {:induction false} LastPart(name: string)
      requires '/' in name
      ensures '/' !in AfterSlash(name) && |AfterSlash(name)| < |name|
      ensures "/" + AfterSlash(name) == name[|name| - 1 - |AfterSlash(name)|..]
    {
      var n := |name| - 1;
      if name[n] != '/' {
        assert name == name[..n] + [name[n]];
        LastPart(name[..n]);
      }
    }

    // fts_load.
    method Load(p: Ent)
      modifies p`pathlen, p`name, this`path
      ensures path == old(p.name) && p.pathlen == |path| && p.name == Basename(path)
    {
      p.pathlen := |p.name|;
      path := p.name;
      p.name := Basename(p.name);
    }

    // The first root, or the next one.
    method NextRoot(p: Ent)
      requires Valid() && cur != null && cur.info != FTS_D && cur.link == p && p.level == ROOTLEVEL
      modifies this`path, this`cur, this`stack, p`pathlen, p`name
      ensures Valid() && cur == p && old(Future()) == [Visit(p.info, path)] + Future()
    {
      hide *;
      ghost var t: Ent := cur;
      OfRoot(t, p);
      FutureIsOf(t);
      LeavingFuture(t);
      Arrive(p);
      Load(p);
      cur := p;
      stack := [p];
      RootIsValid(p);
      FutureIsOf(p);
    }

    lemma OfRoot(t: Ent, p: Ent)
      requires Valid() && cur == t && t.info != FTS_D && t.link == p && p.level == ROOTLEVEL
      ensures p in nodes && Linked(p) && Unvisited(p) && p.path == p.name && t.after == WalkOf(p) + p.after
      ensures AllLinked() && child == null && forall s :: s in p.sibs ==> s in nodes && Unvisited(s) && s != p
    {
      if t.info == FTS_INIT {
        assert p in t.sibs && Linked(p);
        forall s | s in p.sibs
          ensures s in nodes && Unvisited(s) && s != p
        {
          var k :| 0 <= k < |p.sibs| && p.sibs[k] == s;
          assert s == t.sibs[k + 1];
        }
      } else {
        OfLeaving(t);
        OfSibling(t, p);
      }
    }

    twostate lemma RootIsValid(p: Ent)
      requires old(AllLinked()) && p in old(nodes) && old(Linked(p)) && old(Unvisited(p)) && old(p.path == p.name)
      requires old(forall s :: s in p.sibs ==> s in nodes && Unvisited(s) && s != p)
      requires nodes == old(nodes) && unchanged(nodes - {p}) && cur == p && stack == [p] && path == p.path
        && child == null
      requires unchanged(p`parent, p`level, p`entry, p`id, p`above, p`path, p`sibs, p`link, p`after, p`info, p`instr)
        && p.pathlen == |p.path|
      requires p.level == ROOTLEVEL
      ensures Valid()
    {
      assert OnStack(0);
    }

    // Back to the directory whose entries are all done with.
    method MoveUp(p: Ent)
      requires Valid() && cur != null && cur.info != FTS_INIT && cur.info != FTS_D && cur.link == null
        && cur.parent == p && p.level != ROOTPARENTLEVEL
      modifies this`path, this`cur, this`stack, p`info
      ensures Valid() && cur == p && p.instr == NoInstr && old(Future()) == [Visit(p.info, path)] + Future()
    {
      hide *;
      ghost var t: Ent := cur;
      OfLeaving(t);
      FutureIsOf(t);
      LeavingFuture(t);
      OfLast(t);
      AboveIt(t);
      path := path[..p.pathlen];
      p.info := FTS_DP;
      cur := p;
      stack := stack[..|stack| - 1];
      MovedIsValid(p);
      FutureIsOf(p);
      LeavingFuture(p);
    }

    lemma AboveIt(t: Ent)
      requires Valid() && cur == t && t.info != FTS_INIT
      ensures 1 < |stack| ==> forall j :: 0 <= j < |stack| - 1 ==> t.parent !in stack[j].sibs
    {
      if 1 < |stack| {
        assert OnStack(|stack| - 1);
        NoneBelow(|stack| - 2);
      }
    }

    lemma OfLast(t: Ent)
      requires t in nodes && Linked(t) && t.link == null
      ensures t.parent in nodes && t.parent.level == t.level - 1
        && (t.level == 0 <==> t.parent.level == ROOTPARENTLEVEL)
      ensures t.after == if t.level == 0 then [] else [Visit(FTS_DP, t.parent.path)] + t.parent.after
      ensures 0 < t.level ==> t.parent.path <= t.path
    {
    }

    twostate lemma MovedIsValid(p: Ent)
      requires old(Valid()) && old(cur) != null && old(cur.info != FTS_INIT) && old(cur.parent) == p && 1 < |old(stack)|
      requires nodes == old(nodes) && unchanged(nodes - {p}) && cur == p && stack == old(stack)[..|old(stack)| - 1]
      requires unchanged(p`parent, p`level, p`entry, p`id, p`above, p`path, p`sibs, p`link, p`after, p`instr, p`pathlen,
        p`name)
      requires old(forall j :: 0 <= j < |stack| - 1 ==> p !in stack[j].sibs)
      requires p.info == FTS_DP && path == p.path && child == null && p in nodes && 0 <= p.level
      ensures Valid()
    {
      assert old(OnStack(|stack| - 1)) && old(OnStack(|stack| - 2));
      forall j | 0 <= j < |stack|
        ensures OnStack(j)
      {
        assert old(OnStack(j)) && stack[j] == old(stack)[j];
      }
    }

    // The way on from a node that is done with: to what follows on its level,
    // or else up, or to the end.
    method Next(t: Ent) returns (r: Ent?)
      requires Valid() && cur == t && t.info != FTS_D && t.instr == NoInstr
      modifies this`path, this`cur, this`stack, nodes`pathlen, nodes`name, nodes`info
      ensures Valid() && r == cur && (r == null ==> old(Future()) == [])
      ensures r != null ==> r in nodes && r.instr == NoInstr && old(Future()) == [Visit(r.info, path)] + Future()
    {
      hide *;
      OfNext(t);
      var p := t.link;
      if p != null {
        if p.level == ROOTLEVEL {
          NextRoot(p);
        } else {
          Advance(p);
        }
        return p;
      }
      p := t.parent;
      if p.level == ROOTPARENTLEVEL {
        Finished(t);
        cur := null;
        stack := [];
        EndIsValid();
        return null;
      }
      MoveUp(p);
      return p;
    }

    lemma OfNext(t: Ent)
      requires Valid() && cur == t && t.info != FTS_D
      ensures t.link != null ==> t.link in nodes && t.link.instr == NoInstr
      ensures t.link != null && t.link.level != ROOTLEVEL ==> t.info != FTS_INIT && 0 < t.level
      ensures t.link == null ==> t.info != FTS_INIT && t.parent != null && t.parent in nodes
    {
      if t.info != FTS_INIT {
        OfLeaving(t);
        if t.link != null {
          OfSibling(t, t.link);
        }
      } else {
        assert t.link in t.sibs;
      }
    }

    lemma Finished(t: Ent)
      requires Valid() && cur == t && t.info != FTS_D && t.info != FTS_INIT && t.link == null && t.parent != null
        && t.parent.level == ROOTPARENTLEVEL
      ensures Future() == [] && child == null
    {
      OfLeaving(t);
      OfLast(t);
    }

    twostate lemma EndIsValid()
      requires old(Valid()) && nodes == old(nodes) && unchanged(nodes) && cur == null && stack == [] && child == null
      ensures Valid()
    {
    }

    // The way on from a directory: into it, or over it.
    method Directory(c: Ent, instr: Instr) returns (r: Ent)
      requires Valid() && cur == c && c.info == FTS_D && c.instr == NoInstr && (instr == Skip <==> skip(c.path))
      modifies this`nodes, this`path, this`cur, this`stack, this`child, c`info
      ensures Valid() && r == cur && r in nodes && r.instr == NoInstr
        && old(Future()) == [Visit(r.info, path)] + Future()
      ensures old(nodes) <= nodes && fresh(nodes - old(nodes))
    {
      hide *;
      OfCurrent(c);
      FutureIsOf(c);
      if instr == Skip {
        SkippedFuture(c);
        Finish();
        return c;
      }
      EmptyFuture(c);
      ghost var ns;
      child, ns := Build();
      if child == null {
        return c;
      }
      r := child;
      child := null;
      OfReady(c);
      FirstUnasked(c, ns, Kids(c.entry.kids));
      Enter(r, ns, Kids(c.entry.kids));
    }

    lemma EmptyFuture(c: Ent)
      requires c.info == FTS_D && c.entry.Dir?
      ensures Kids(c.entry.kids) == [] ==> FutureOf(c) == [Visit(FTS_DP, c.path)] + c.after
    {
      if Kids(c.entry.kids) == [] {
        assert WalkAll([], c.entry, c.above + {c.entry.id}, c.path, skip) == [];
      }
    }

    lemma FirstUnasked(c: Ent, ns: seq<Ent>, es: seq<Entry>)
      requires |ns| == |es| && ns != [] && Made(ns[0], c, es[0])
      ensures ns[0].instr == NoInstr
    {
    }

    lemma SkippedFuture(c: Ent)
      requires c.info == FTS_D && c.entry.Dir? && skip(c.path)
      ensures FutureOf(c) == [Visit(FTS_DP, c.path)] + c.after
    {
    }

    lemma OfUser()
      requires Asked()
      ensures cur == null ==> Future() == []
      ensures cur != null && cur.info == FTS_D ==> (cur.instr == Skip <==> skip(cur.path))
    {
    }

    // fts_read_compat.
    method Read() returns (r: Ent?)
      requires Valid() && Asked()
      modifies this`nodes, this`path, this`cur, this`stack, this`child, nodes`pathlen, nodes`name, nodes`info
      modifies (if cur == null then {} else {cur})`instr
      ensures old(nodes) <= nodes && fresh(nodes - old(nodes))
      ensures Valid() && r == cur && (r == null ==> old(Future()) == [])
      ensures r != null ==> r in nodes && r.instr == NoInstr && old(Future()) == [Visit(r.info, path)] + Future()
    {
      hide *;
      OfUser();
      if cur == null {
        return null;
      }
      var p: Ent := cur;
      var instr := p.instr;
      Set(p, NoInstr);
      if p.info == FTS_D {
        OfCurrent(p);
        r := Directory(p, instr);
      } else {
        r := Next(p);
      }
    }

    // An entry for one of the arguments.
    method MakeRoot(c: Ent, e: Entry, next: Ent?) returns (p: Ent)
      requires AllLinked() && c in nodes && c.level == ROOTPARENTLEVEL && Good(e)
      ensures fresh(p) && Made(p, c, e) && p.link == next && p.sibs == []
    {
      p := new Ent(e.name, e);
      p.level := ROOTLEVEL;
      p.parent := c;
      p.path, p.above := PathOf(c, e), Above(c);
      var info := Stat(p, e);
      p.info := info;
      p.link := next;
    }

    // A list that grows at its head.
    lemma Prepended(c: Ent, e: Entry, p: Ent, es: seq<Entry>, head: Ent?, tail: Ent?, all: seq<Ent>)
      requires List(c, es, head, tail, all) && Made(p, c, e) && p.sibs == [] && p.link == head && p !in all
      ensures List(c, [e] + es, p, if all == [] then p else tail, [p] + all)
    {
      var ns := [p] + all;
      forall k {:trigger ns[k]} | 0 <= k < |ns|
        ensures Made(ns[k], c, ([e] + es)[k]) && ns[k].sibs == [] && ns[k].link == if k + 1 < |ns| then ns[k + 1]
          else null
      {
        assert 0 < k ==> ns[k] == all[k - 1];
      }
    }

    // The arguments as a list, last to first.
    method MakeRoots(c: Ent, roots: seq<Entry>) returns (head: Ent?, nitems: nat, ghost all: seq<Ent>)
      requires AllLinked() && c in nodes && c.level == ROOTPARENTLEVEL && forall e :: e in roots ==> Good(e)
      ensures List(c, Reversed(roots), head, if all == [] then null else all[|all| - 1], all)
      ensures nitems == |all| == |roots| && forall n :: n in all ==> fresh(n)
    {
      hide *;
      NoRoots(c);
      head, nitems, all := null, 0, [];
      ghost var tail: Ent? := null;
      for i := 0 to |roots|
        invariant List(c, Reversed(roots[..i]), head, tail, all) && nitems == |all| == i && forall n :: n in all ==>
          fresh(n)
      {
        var p := MakeRoot(c, roots[i], head);
        Prepended(c, roots[i], p, Reversed(roots[..i]), head, tail, all);
        ReversedStep(roots, i);
        tail := if all == [] then p else tail;
        head, nitems, all := p, nitems + 1, [p] + all;
      }
      assert roots[..|roots|] == roots;
      ListEnds(c, Reversed(roots), head, tail, all);
    }

    lemma ReversedStep(es: seq<Entry>, i: nat)
      requires i < |es|
      ensures Reversed(es[..i + 1]) == [es[i]] + Reversed(es[..i])
    {
      assert es[..i + 1][..i] == es[..i];
    }

    lemma NoRoots(c: Ent)
      ensures List(c, [], null, null, []) && Reversed([]) == []
    {
    }

    // The roots in the order of the walk.
    method SortedRoots(c: Ent, roots: seq<Entry>) returns (head: Ent?, ghost ns: seq<Ent>)
      requires AllLinked() && c in nodes && c.level == ROOTPARENTLEVEL && forall e :: e in roots ==> Good(e)
      ensures List(c, Arrange(Reversed(roots)), head, if ns == [] then null else ns[|ns| - 1], ns)
      ensures |ns| == |roots| && forall n :: n in ns ==> fresh(n)
    {
      hide *;
      var nitems;
      head, nitems, ns := MakeRoots(c, roots);
      ghost var es := Reversed(roots);
      OfList(c, es, head, if ns == [] then null else ns[|ns| - 1], ns);
      if 1 < nitems {
        head, ns := Sort(c, head, ns, es, set n | n in ns);
        OfList(c, Arrange(es), head, if ns == [] then null else ns[|ns| - 1], ns);
        assert |Arrange(es)| == |multiset(Arrange(es))| == |multiset(es)|;
      } else {
        SortedAlone(es);
      }
    }

    // The roots know who follows, and what is visited afterwards.
    ghost predicate RootsOrdered(ns: seq<Ent>, es: seq<Entry>)
      requires |ns| == |es|
      reads ns`sibs, ns`after
    {
      forall k {:trigger ns[k]} :: 0 <= k < |ns| ==>
        ns[k].sibs == ns[k + 1..] && ns[k].after == WalkRoots(es[k + 1..], skip)
    }

    lemma RootLinked(c: Ent, ns: seq<Ent>, es: seq<Entry>, k: nat)
      requires c in nodes && c.level == ROOTPARENTLEVEL && |ns| == |es| && k < |ns|
      requires Chain(ns) && RootsOrdered(ns, es) && forall n :: n in ns ==> n in nodes
      requires forall i {:trigger ns[i]} :: 0 <= i < |ns| ==> Made(ns[i], c, es[i])
      requires forall e :: e in es ==> Good(e)
      ensures Linked(ns[k])
    {
      hide *;
      RootPlace(c, ns[k], es, k);
      RootSibs(c, ns, es, k);
      RootAfter(c, ns, es, k);
      IsRoot(ns[k]);
    }

    lemma IsRoot(n: Ent)
      requires n in nodes && n.parent != null && n.parent in nodes && n.level == n.parent.level + 1 == 0
      requires Good(n.entry) && (n.entry.Dir? ==> n.id == n.entry.id) && n.above == {} && n.path == n.entry.name
      requires forall s :: s in n.sibs ==> s in nodes && s.level == n.level && |s.sibs| < |n.sibs|
      requires n.sibs == [] ==> n.link == null && n.after == []
      requires n.sibs != [] ==> n.link == n.sibs[0] && n.sibs[0].sibs == n.sibs[1..] && n.sibs[0].parent == n.parent
      requires n.sibs != [] ==> n.after == WalkOf(n.sibs[0]) + n.sibs[0].after
      ensures Linked(n)
    {
    }

    lemma RootPlace(c: Ent, n: Ent, es: seq<Entry>, k: nat)
      requires k < |es| && Made(n, c, es[k]) && c.level == ROOTPARENTLEVEL && forall e :: e in es ==> Good(e)
      ensures n.parent == c && n.level == c.level + 1 == 0 && Good(n.entry) && (n.entry.Dir? ==> n.id == n.entry.id)
      ensures n.above == {} && n.path == n.entry.name
    {
    }

    // The siblings that follow a root.
    lemma RootSibs(c: Ent, ns: seq<Ent>, es: seq<Entry>, k: nat)
      requires |ns| == |es| && k < |ns| && RootsOrdered(ns, es) && forall n :: n in ns ==> n in nodes
      requires forall i {:trigger ns[i]} :: 0 <= i < |ns| ==> Made(ns[i], c, es[i])
      ensures forall s :: s in ns[k].sibs ==> s in nodes && s.level == ns[k].level && |s.sibs| < |ns[k].sibs|
      ensures if k + 1 < |ns| then ns[k].sibs != [] && ns[k].sibs[0] == ns[k + 1] && ns[k + 1].sibs == ns[k].sibs[1..]
        else ns[k].sibs == []
    {
      hide WalkRoots;
      forall s | s in ns[k].sibs
        ensures s in nodes && s.level == ns[k].level && |s.sibs| < |ns[k].sibs|
      {
        var i :| 0 <= i < |ns[k].sibs| && ns[k].sibs[i] == s;
        assert s == ns[k + 1 + i];
      }
    }

    // What follows a root, and what is visited after it.
    lemma RootAfter(c: Ent, ns: seq<Ent>, es: seq<Entry>, k: nat)
      requires |ns| == |es| && k < |ns| && c.level == ROOTPARENTLEVEL && Chain(ns) && RootsOrdered(ns, es)
      requires forall i {:trigger ns[i]} :: 0 <= i < |ns| ==> Made(ns[i], c, es[i])
      ensures if k + 1 < |ns| then ns[k].link == ns[k + 1] && ns[k + 1].parent == c
        && ns[k].after == WalkOf(ns[k + 1]) + ns[k + 1].after
        else ns[k].link == null && ns[k].after == []
    {
      hide WalkOf, Distinct, WalkRoots;
      if k + 1 < |ns| {
        RootStep(c, ns[k + 1], es, k + 1);
        MadeLevel(ns[k + 1], c, es[k + 1]);
      } else {
        LastRoot(es, k + 1);
      }
    }

    lemma LastRoot(es: seq<Entry>, k: nat)
      requires k == |es|
      ensures WalkRoots(es[k..], skip) == []
    {
      assert es[k..] == [];
    }

    lemma RootStep(c: Ent, n: Ent, es: seq<Entry>, k: nat)
      requires k < |es| && c.level == ROOTPARENTLEVEL && Made(n, c, es[k])
      ensures WalkRoots(es[k..], skip) == WalkOf(n) + WalkRoots(es[k + 1..], skip)
    {
      assert es[k..][1..] == es[k + 1..];
    }

    ghost method OrderRoots(ns: seq<Ent>, es: seq<Entry>, s: set<Ent>)
      requires |ns| == |es| && Distinct(ns) && forall n :: n in ns ==> n in s
      modifies s`sibs, s`after
      ensures RootsOrdered(ns, es)
    {
      hide WalkRoots;
      forall k | 0 <= k < |ns| {
        ns[k].sibs := ns[k + 1..];
      }
      forall k | 0 <= k < |ns| {
        ns[k].after := WalkRoots(es[k + 1..], skip);
      }
    }

    ghost method SettleRoots(c: Ent, ns: seq<Ent>, es: seq<Entry>, s: set<Ent>)
      requires s == (set n | n in ns) && Distinct(ns) && c !in ns
      requires nodes == {c} && c.level == ROOTPARENTLEVEL && Chain(ns) && |ns| == |es|
      requires forall k {:trigger ns[k]} :: 0 <= k < |ns| ==> Made(ns[k], c, es[k])
      requires forall e :: e in es ==> Good(e)
      modifies this`nodes, s`sibs, s`after
      ensures nodes == {c} + s && AllLinked() && RootsOrdered(ns, es)
    {
      hide Chain, Made, RootsOrdered, Linked, Distinct;
      OrderRoots(ns, es, s);
      nodes := nodes + s;
      forall n {:trigger n.level} | n in nodes
        ensures ROOTPARENTLEVEL <= n.level && (0 <= n.level ==> Linked(n))
      {
        if n != c {
          var k :| 0 <= k < |ns| && ns[k] == n;
          MadeLevel(n, c, es[k]);
          RootLinked(c, ns, es, k);
        }
      }
    }

    // The stream as fts_open leaves it: before the first root.
    lemma OpenIsValid(c: Ent, ns: seq<Ent>, es: seq<Entry>)
      requires nodes == {c} + (set n | n in ns) && AllLinked() && child == null && stack == []
      requires |ns| == |es| && RootsOrdered(ns, es) && ns != [] && c.level == ROOTPARENTLEVEL
      requires forall k {:trigger ns[k]} :: 0 <= k < |ns| ==> Made(ns[k], c, es[k])
      requires cur != null && cur.info == FTS_INIT && cur.instr == NoInstr && cur !in nodes && cur.link == ns[0]
      requires cur.sibs == ns && cur.after == WalkRoots(es, skip)
      ensures Valid() && Asked() && Future() == WalkRoots(es, skip)
    {
      assert es[0..] == es;
      RootStep(c, ns[0], es, 0);
      forall s | s in ns
        ensures s.level == ROOTLEVEL && Unvisited(s)
      {
        var k :| 0 <= k < |ns| && ns[k] == s;
      }
    }

    // The node that seems to have been visited before the first root.
    method MakeDummy(root: Ent?, ghost ns: seq<Ent>, ghost after: seq<Visit>) returns (p: Ent)
      ensures fresh(p) && p.info == FTS_INIT && p.instr == NoInstr && p.link == root && p.sibs == ns && p.after == after
    {
      p := new Ent("", Leaf("", FTS_INIT));
      p.link := root;
      p.sibs, p.after := ns, after;
    }

    method MakeRootParent() returns (p: Ent)
      ensures fresh(p) && p.level == ROOTPARENTLEVEL
    {
      p := new Ent("", Leaf("", FTS_INIT));
      p.level := ROOTPARENTLEVEL;
    }

    // The roots join the nodes.
    method LoadRoots(parent: Ent, roots: seq<Entry>) returns (root: Ent?, ghost ns: seq<Ent>)
      requires (forall e :: e in roots ==> Good(e)) && nodes == {parent} && parent.level == ROOTPARENTLEVEL
      modifies this`nodes
      ensures |ns| == |roots| == |Arrange(Reversed(roots))| && (ns != [] ==> root == ns[0])
      ensures nodes == {parent} + (set n | n in ns) && (forall n :: n in ns ==> fresh(n))
      ensures AllLinked() && RootsOrdered(ns, Arrange(Reversed(roots)))
      ensures forall k {:trigger ns[k]} :: 0 <= k < |ns| ==> Made(ns[k], parent, Arrange(Reversed(roots))[k])
    {
      hide *;
      NoneLinked(parent);
      root, ns := SortedRoots(parent, roots);
      ghost var es := Arrange(Reversed(roots));
      OfList(parent, es, root, if ns == [] then null else ns[|ns| - 1], ns);
      AllGood(roots);
      ghost var s := set n | n in ns;
      SettleRoots(parent, ns, es, s);
    }

    // What fts_open does once there is a stream.
    method Prepare(roots: seq<Entry>)
      requires roots != [] && (forall e :: e in roots ==> Good(e)) && cur == null && child == null && nodes == {}
        && stack == []
      modifies this
      ensures Valid() && Asked() && fresh(nodes) && cur != null && fresh(cur)
      ensures Future() == WalkRoots(Arrange(Reversed(roots)), skip)
    {
      hide *;
      var parent := MakeRootParent();
      nodes := {parent};
      var root;
      ghost var ns;
      root, ns := LoadRoots(parent, roots);
      ghost var es := Arrange(Reversed(roots));
      cur := MakeDummy(root, ns, WalkRoots(es, skip));
      OpenIsValid(parent, ns, es);
    }

    lemma NoneLinked(c: Ent)
      requires nodes == {c} && c.level == ROOTPARENTLEVEL
      ensures AllLinked()
    {
    }

    lemma AllGood(roots: seq<Entry>)
      requires forall e :: e in roots ==> Good(e)
      ensures forall e :: e in Arrange(Reversed(roots)) ==> Good(e)
    {
      forall e | e in Arrange(Reversed(roots))
        ensures Good(e)
      {
        assert e in multiset(Arrange(Reversed(roots))) && e in multiset(roots);
      }
    }

    lemma AtEnd()
      requires cur == null
      ensures Future() == []
    {
    }

    // The path buffer holds the path of a node that was returned.
    lemma OfReturned(p: Ent)
      requires Valid() && cur == p && p in nodes
      ensures path == p.path
    {
    }

    lemma Requested(p: Ent)
      requires cur == p && (p.instr == Skip <==> p.info == FTS_D && skip(p.path))
      ensures Asked()
    {
    }

    constructor (ghost skip: string -> bool)
      ensures this.skip == skip && cur == null && child == null && nodes == {} && stack == []
    {
      this.skip := skip;
      cur, child, path, nodes, stack := null, null, "", {}, [];
    }
  }

  // fts_open_compat, with the compare function; null for an empty argument.
  method Open(roots: seq<Entry>, ghost skip: string -> bool) returns (fts: FTS?)
    requires roots != [] && forall e :: e in roots && e.name != "" ==> Good(e)
    ensures fts == null <==> exists e :: e in roots && e.name == ""
    ensures fts != null ==>
      fresh(fts) && fts.Valid() && fts.Asked() && fresh(fts.nodes) && fts.cur != null && fresh(fts.cur)
    ensures fts != null ==> fts.skip == skip && fts.Future() == WalkRoots(Arrange(Reversed(roots)), skip)
  {
    for i := 0 to |roots|
      invariant forall e :: e in roots[..i] ==> e.name != ""
    {
      if roots[i].name == "" {
        return null;
      }
    }
    assert roots[..|roots|] == roots;
    fts := new FTS(skip);
    fts.Prepare(roots);
  }

  lemma Named(roots: seq<Entry>)
    requires forall e :: e in roots ==> Good(e)
    ensures forall e :: e in roots ==> e.name != ""
  {
  }

  // The loop of a caller: every node in turn, and a request to skip where it wants to.
  method Traverse(roots: seq<Entry>, skip: string -> bool) returns (visits: seq<Visit>)
    requires roots != [] && forall e :: e in roots ==> Good(e)
    ensures visits == WalkRoots(Arrange(Reversed(roots)), skip)
  {
    hide *;
    visits := [];
    Named(roots);
    var fts := Open(roots, skip);
    var p := fts.Read();
    if p == null {
      fts.AtEnd();
    }
    while p != null
      invariant fts.Valid() && fts.skip == skip && fresh(fts) && fresh(fts.nodes) && p == fts.cur
      invariant p != null ==> p in fts.nodes && p.instr == NoInstr
      invariant WalkRoots(Arrange(Reversed(roots)), skip) == visits
        + (if p == null then [] else [Visit(p.info, fts.path)]) + fts.Future()
      decreases |fts.Future()|, p != null
    {
      visits := visits + [Visit(p.info, fts.path)];
      fts.OfReturned(p);
      if p.info == FTS_D && skip(fts.path) {
        fts.Set(p, Skip);
      }
      fts.Requested(p);
      p := fts.Read();
      if p == null {
        fts.AtEnd();
      }
    }
    fts.AtEnd();
  }
}
