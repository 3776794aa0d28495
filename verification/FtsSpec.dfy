/**
 What a walk over a file tree visits, in which order and under which path.
 */
module FtsSpec {

  // A file system as readdir and stat show it. `id` is device and inode.
  datatype Entry = Leaf(name: string, kind: Info) | Dir(name: string, id: int, kids: seq<Entry>)

  // fts_info, as far as it occurs here.
  datatype Info = FTS_INIT | FTS_D | FTS_DC | FTS_DP | FTS_F | FTS_SLNONE | FTS_DEFAULT

  datatype Visit = Visit(info: Info, path: string)

  // A tree that can be read without errors.
  predicate Good(e: Entry) {
    && e.name != ""
    && match e
       case Leaf(_, kind) => kind.FTS_F? || kind.FTS_SLNONE? || kind.FTS_DEFAULT?
       case Dir(_, _, kids) => forall k :: k in kids ==> Good(k)
  }

  // strcmp.
  predicate Leq(a: string, b: string) {
    a == "" || (b != "" && (a[0] < b[0] || (a[0] == b[0] && Leq(a[1..], b[1..]))))
  }

  // What that decides: one string is the beginning of the other, or they differ,
  // for the first time, in a character that is less.
  ghost predicate AtMost(a: string, b: string) {
    a <= b || exists i :: 0 <= i < |a| && i < |b| && a[..i] == b[..i] && a[i] < b[i]
  }

  lemma {:induction false} LeqMeans(a: string, b: string)
    ensures Leq(a, b) <==> AtMost(a, b)
  {
    if a != "" && b != "" {
      if a[0] == b[0] {
        LeqMeans(a[1..], b[1..]);
        AtMostTail(a, b);
      } else {
        FirstDiffers(a, b);
      }
    }
  }

  lemma FirstDiffers(a: string, b: string)
    requires a != "" && b != "" && a[0] != b[0]
    ensures AtMost(a, b) <==> a[0] < b[0]
  {
    if a[0] < b[0] {
      assert a[..0] == b[..0];
    }
    forall i | 0 < i < |a| && i < |b|
      ensures a[..i] != b[..i]
    {
      assert a[..i][0] != b[..i][0];
    }
  }

  lemma AtMostTail(a: string, b: string)
    requires a != "" && b != "" && a[0] == b[0]
    ensures AtMost(a, b) <==> AtMost(a[1..], b[1..])
  {
    if AtMost(a, b) {
      AtMostDrop(a, b);
    }
    if AtMost(a[1..], b[1..]) {
      AtMostCons(a[0], a[1..], b[1..]);
      assert a == [a[0]] + a[1..] && b == [a[0]] + b[1..];
    }
  }

  lemma AtMostDrop(a: string, b: string)
    requires a != "" && b != "" && a[0] == b[0] && AtMost(a, b)
    ensures AtMost(a[1..], b[1..])
  {
    var c, d := a[1..], b[1..];
    if a <= b {
      assert c == b[..|a|][1..] && c <= d;
    } else {
      var i :| 0 <= i < |a| && i < |b| && a[..i] == b[..i] && a[i] < b[i];
      assert 0 < i && c[..i - 1] == a[..i][1..] && d[..i - 1] == b[..i][1..] && c[i - 1] < d[i - 1];
    }
  }

  lemma AtMostCons(x: char, c: string, d: string)
    requires AtMost(c, d)
    ensures AtMost([x] + c, [x] + d)
  {
    var a, b := [x] + c, [x] + d;
    if c <= d {
      assert a == b[..|a|] && a <= b;
    } else {
      var i :| 0 <= i < |c| && i < |d| && c[..i] == d[..i] && c[i] < d[i];
      assert a[..i + 1] == [x] + c[..i] && b[..i + 1] == [x] + d[..i] && a[i + 1] < b[i + 1];
    }
  }

  function Insert(e: Entry, es: seq<Entry>): (r: seq<Entry>)
    ensures multiset(r) == multiset(es) + multiset{e}
  {
    if es == [] || Leq(e.name, es[0].name) then [e] + es else
      assert es == [es[0]] + es[1..];
      [es[0]] + Insert(e, es[1..])
  }

  // The order of the compare function.
  function Arrange(es: seq<Entry>): (r: seq<Entry>)
    ensures multiset(r) == multiset(es)
  {
    if es == [] then [] else
      assert es == [es[0]] + es[1..];
      Insert(es[0], Arrange(es[1..]))
  }

  predicate InOrder(es: seq<Entry>) {
    forall i, k :: 0 <= i < k < |es| ==> Leq(es[i].name, es[k].name)
  }

  lemma {:induction false} LeqTotal(a: string, b: string)
    ensures Leq(a, b) || Leq(b, a)
    ensures Leq(a, b) && Leq(b, a) ==> a == b
  {
    if a != "" && b != "" {
      LeqTotal(a[1..], b[1..]);
      assert a == [a[0]] + a[1..] && b == [b[0]] + b[1..];
    }
  }

  lemma {:induction false} LeqTransitive(a: string, b: string, c: string)
    requires Leq(a, b) && Leq(b, c)
    ensures Leq(a, c)
  {
    if a != "" && a[0] == b[0] == c[0] {
      LeqTransitive(a[1..], b[1..], c[1..]);
    }
  }

  lemma {:induction false} InsertInOrder(e: Entry, es: seq<Entry>)
    requires InOrder(es)
    ensures InOrder(Insert(e, es))
  {
    if es == [] {
      return;
    }
    if Leq(e.name, es[0].name) {
      forall k | 0 < k < |es| + 1
        ensures Leq(e.name, ([e] + es)[k].name)
      {
        if 1 < k {
          LeqTransitive(e.name, es[0].name, es[k - 1].name);
        }
      }
    } else {
      LeqTotal(e.name, es[0].name);
      InsertInOrder(e, es[1..]);
      var rest := Insert(e, es[1..]);
      forall k | 0 <= k < |rest|
        ensures Leq(es[0].name, rest[k].name)
      {
        assert rest[k] in multiset(rest) && (rest[k] == e || rest[k] in es[1..]);
      }
    }
  }

  lemma {:induction false} ArrangeInOrder(es: seq<Entry>)
    ensures InOrder(Arrange(es))
    ensures forall i, k :: 0 <= i < k < |Arrange(es)| ==> AtMost(Arrange(es)[i].name, Arrange(es)[k].name)
  {
    hide AtMost;
    if es != [] {
      ArrangeInOrder(es[1..]);
      InsertInOrder(es[0], Arrange(es[1..]));
    }
    forall i, k | 0 <= i < k < |Arrange(es)|
      ensures AtMost(Arrange(es)[i].name, Arrange(es)[k].name)
    {
      LeqMeans(Arrange(es)[i].name, Arrange(es)[k].name);
    }
  }

  // Entries with names of their own have one order only, so that any way of
  // sorting them by name is as good as this one.
  lemma {:induction false} OneOrder(a: seq<Entry>, b: seq<Entry>)
    requires InOrder(a) && InOrder(b) && multiset(a) == multiset(b)
    requires forall d, e :: d in a && e in a && d.name == e.name ==> d == e
    ensures a == b
  {
    hide Leq;
    assert |multiset(a)| == |a| && |multiset(b)| == |b|;
    if a != [] {
      SameFirst(a, b);
      SameRest(a, b);
      OneOrder(a[1..], b[1..]);
    }
  }

  lemma SameFirst(a: seq<Entry>, b: seq<Entry>)
    requires InOrder(a) && InOrder(b) && multiset(a) == multiset(b) && a != [] && b != []
    requires forall d, e :: d in a && e in a && d.name == e.name ==> d == e
    ensures a[0] == b[0]
  {
    hide Leq;
    assert a[0] in multiset(b) && b[0] in multiset(a);
    var i :| 0 <= i < |b| && b[i] == a[0];
    var k :| 0 <= k < |a| && a[k] == b[0];
    LeqTotal(a[0].name, b[0].name);
  }

  lemma SameRest<T>(a: seq<T>, b: seq<T>)
    requires multiset(a) == multiset(b) && a != [] && b != [] && a[0] == b[0]
    ensures multiset(a[1..]) == multiset(b[1..]) && |a| == |b|
    ensures a[1..] == b[1..] ==> a == b
    ensures forall x :: x in a[1..] ==> x in a
  {
    assert a == [a[0]] + a[1..] && b == [b[0]] + b[1..];
    assert multiset(a[1..]) == multiset(a) - multiset{a[0]};
    assert multiset(b[1..]) == multiset(b) - multiset{b[0]};
    assert |multiset(a)| == |a| && |multiset(b)| == |b|;
  }

  // Last to first.
  function Reversed(es: seq<Entry>): (r: seq<Entry>)
    ensures multiset(r) == multiset(es)
  {
    if es == [] then [] else
      assert es == es[..|es| - 1] + [es[|es| - 1]];
      [es[|es| - 1]] + Reversed(es[..|es| - 1])
  }

  predicate IsDot(e: Entry) {
    e.name == "." || e.name == ".."
  }

  // The directory itself and its parent are not entries.
  function Visible(es: seq<Entry>): (r: seq<Entry>)
    ensures forall e :: e in r ==> e in es
  {
    if es == [] then [] else (if IsDot(es[0]) then [] else [es[0]]) + Visible(es[1..])
  }

  lemma {:induction false} VisibleMeans(es: seq<Entry>)
    ensures forall e :: e in Visible(es) <==> e in es && e.name != "." && e.name != ".."
    ensures forall e :: multiset(Visible(es))[e] == if e.name != "." && e.name != ".." then multiset(es)[e] else 0
  {
    if es != [] {
      VisibleMeans(es[1..]);
      assert es == [es[0]] + es[1..];
    }
  }

  lemma {:induction false} VisibleSnoc(es: seq<Entry>, i: nat)
    requires i < |es|
    ensures Visible(es[..i + 1]) == Visible(es[..i]) + if IsDot(es[i]) then [] else [es[i]]
  {
    if 0 < i {
      assert es[..i + 1][1..] == es[1..][..i] && es[..i][1..] == es[1..][..i - 1];
      VisibleSnoc(es[1..], i - 1);
    } else {
      assert es[..1][1..] == [] && es[..0] == [];
    }
  }

  function Kids(es: seq<Entry>): (r: seq<Entry>)
    ensures forall e :: e in r ==> e in es
  {
    var r := Arrange(Visible(es));
    assert forall e :: e in r ==> e in multiset(r);
    r
  }

  function Join(path: string, name: string): string {
    if path == "/" then "/" + name else path + "/" + name
  }

  function InfoOf(e: Entry, above: set<int>): Info {
    match e
    case Leaf(_, kind) => kind
    case Dir(_, id, _) => if id in above then FTS_DC else FTS_D
  }

  // The recursive walk: a directory, its entries in order, the directory again;
  // only twice when it is to be skipped, and once when it is its own ancestor.
  function Walk(e: Entry, above: set<int>, path: string, skip: string -> bool): seq<Visit>
    decreases e, 2
  {
    match e
    case Leaf(_, kind) => [Visit(kind, path)]
    case Dir(_, id, kids) =>
      if id in above then [Visit(FTS_DC, path)] else
        [Visit(FTS_D, path)] + Inside(e, above, path, skip) + [Visit(FTS_DP, path)]
  }

  // What is visited between a directory and the same again.
  function Inside(e: Entry, above: set<int>, path: string, skip: string -> bool): seq<Visit>
    requires e.Dir?
    decreases e, 1
  {
    if skip(path) then [] else WalkAll(Kids(e.kids), e, above + {e.id}, path, skip)
  }

  function WalkAll(es: seq<Entry>, parent: Entry, above: set<int>, path: string, skip: string -> bool): seq<Visit>
    requires parent.Dir? && forall e :: e in es ==> e in parent.kids
    decreases parent, 0, |es|
  {
    if es == [] then [] else
      assert es[0] in parent.kids;
      assert exists i :: 0 <= i < |parent.kids| && parent.kids[i] == es[0];
      Walk(es[0], above, Join(path, es[0].name), skip) + WalkAll(es[1..], parent, above, path, skip)
  }

  lemma WalkStep(es: seq<Entry>, parent: Entry, above: set<int>, path: string, skip: string -> bool)
    requires parent.Dir? && forall e :: e in es ==> e in parent.kids
    ensures es == [] ==> WalkAll(es, parent, above, path, skip) == []
    ensures es != [] ==>
      && (forall e :: e in es[1..] ==> e in parent.kids)
      && WalkAll(es, parent, above, path, skip)
         == Walk(es[0], above, Join(path, es[0].name), skip) + WalkAll(es[1..], parent, above, path, skip)
  {
    hide Walk;
  }

  lemma {:induction false} WalkApart(es: seq<Entry>, n: nat, parent: Entry, above: set<int>, path: string,
      skip: string -> bool)
    requires parent.Dir? && (forall e :: e in es ==> e in parent.kids) && n <= |es|
    ensures (forall e :: e in es[..n] ==> e in parent.kids) && forall e :: e in es[n..] ==> e in parent.kids
    ensures WalkAll(es, parent, above, path, skip)
      == WalkAll(es[..n], parent, above, path, skip) + WalkAll(es[n..], parent, above, path, skip)
  {
    hide Walk, WalkAll;
    assert (forall e :: e in es[..n] ==> e in es) && forall e :: e in es[n..] ==> e in es;
    WalkStep(es, parent, above, path, skip);
    WalkStep(es[..n], parent, above, path, skip);
    if n == 0 {
      assert es[..0] == [] && es[0..] == es;
    } else {
      assert es[..n][1..] == es[1..][..n - 1] && es[1..][n - 1..] == es[n..];
      WalkApart(es[1..], n - 1, parent, above, path, skip);
    }
  }

  // In the walk of a directory all visits below an entry come before those
  // below the entries behind it, and these have names that are not less.
  lemma SiblingsInOrder(e: Entry, above: set<int>, path: string, skip: string -> bool, i: nat, k: nat)
    returns (a: seq<Visit>, b: seq<Visit>, c: seq<Visit>)
    requires e.Dir? && !skip(path) && i < k < |Kids(e.kids)|
    ensures
      var kids, all := Kids(e.kids), above + {e.id};
      && AtMost(kids[i].name, kids[k].name)
      && Inside(e, above, path, skip) == a + Walk(kids[i], all, Join(path, kids[i].name), skip)
           + b + Walk(kids[k], all, Join(path, kids[k].name), skip) + c
  {
    hide AtMost, Walk, Kids, WalkAll;
    KidsInOrder(e.kids);
    var kids, all := Kids(e.kids), above + {e.id};
    var behind := kids[i + 1..];
    WalkApart(kids, i, e, all, path, skip);
    WalkStep(kids[i..], e, all, path, skip);
    assert kids[i..][1..] == behind && kids[i..][0] == kids[i];
    WalkApart(behind, k - i - 1, e, all, path, skip);
    WalkStep(behind[k - i - 1..], e, all, path, skip);
    a := WalkAll(kids[..i], e, all, path, skip);
    b := WalkAll(behind[..k - i - 1], e, all, path, skip);
    assert behind[k - i - 1..][1..] == kids[k + 1..] && behind[k - i - 1..][0] == kids[k];
    c := WalkAll(kids[k + 1..], e, all, path, skip);
    var x, y := Walk(kids[i], all, Join(path, kids[i].name), skip), Walk(kids[k], all, Join(path, kids[k].name), skip);
    InFive(a, x, b, y, c);
  }

  lemma InFive(a: seq<Visit>, x: seq<Visit>, b: seq<Visit>, y: seq<Visit>, c: seq<Visit>)
    ensures a + (x + (b + (y + c))) == a + x + b + y + c
  {
  }

  // The entries of a directory but itself and its parent, in the order of strcmp.
  lemma KidsInOrder(es: seq<Entry>)
    ensures forall e :: multiset(Kids(es))[e] == if e.name != "." && e.name != ".." then multiset(es)[e] else 0
    ensures forall i, k :: 0 <= i < k < |Kids(es)| ==> AtMost(Kids(es)[i].name, Kids(es)[k].name)
  {
    hide AtMost;
    VisibleMeans(es);
    ArrangeInOrder(Visible(es));
  }

  // The walks from all roots.
  function WalkRoots(roots: seq<Entry>, skip: string -> bool): seq<Visit> {
    if roots == [] then [] else Walk(roots[0], {}, roots[0].name, skip) + WalkRoots(roots[1..], skip)
  }
}
