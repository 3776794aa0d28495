/**
 Messages over a pipe, as in privsep.c: framing that does not depend on how
 read() cuts the stream into pieces.
 */
module Pipe {

  type byte = x: int | 0 <= x < 256

  const MAXMSGSIZE: nat := 65535
  const HEADER: nat := 4
  const PRIVMSG_LAUNCH: nat := 1
  const PRIVMSG_REPEAT: nat := 2
  const PRIVMSG_EXIT: nat := 0xFFFF
  const PRIVMSG_FLUSH: nat := 0xFFFE

  // A message as it is found in the stream.
  datatype Frame = Frame(kind: nat, bytes: seq<byte>)

  // What read() returns: some bytes, or an error.
  datatype Read = Got(data: seq<byte>) | Failed

  // What becomes of a piece of the stream: its messages, what is left of it,
  // and whether it was given up at a message of length zero.
  datatype Parsed = Parsed(frames: seq<Frame>, rest: seq<byte>, flushed: bool)

  function U16(lo: byte, hi: byte): nat {
    lo + 256 * hi
  }

  function Kind(s: seq<byte>): nat
    requires HEADER <= |s|
  {
    U16(s[0], s[1])
  }

  function Length(s: seq<byte>): (r: nat)
    requires HEADER <= |s|
    ensures r <= MAXMSGSIZE
  {
    U16(s[2], s[3])
  }

  function Parse(s: seq<byte>): Parsed
    decreases |s|
  {
    if |s| < HEADER then Parsed([], s, false)
    else if Length(s) == 0 then Parsed([], [], true)
    else if |s| < Length(s) then Parsed([], s, false)
    else
      var p := Parse(s[Length(s)..]);
      Parsed([Frame(Kind(s), s[..Length(s)])] + p.frames, p.rest, p.flushed)
  }

  // The part that waits for more bytes never fills the buffer.
  lemma {:induction false} RestFits(s: seq<byte>)
    ensures |Parse(s).rest| < MAXMSGSIZE && |Parse(s).rest| <= |s|
    decreases |s|
  {
    if HEADER <= |s| && Length(s) != 0 && Length(s) <= |s| {
      RestFits(s[Length(s)..]);
    }
  }

  lemma {:induction false} ParseConcat(a: seq<byte>, b: seq<byte>)
    ensures Continued(a, b)
    decreases |a|
  {
    hide Length, Kind, Parse, Continued;
    if HEADER <= |a| && 0 < Length(a) <= |a| {
      ParseConcat(a[Length(a)..], b);
      ContinuedStep(a, b);
    } else {
      ContinuedShort(a, b);
    }
  }

  // What is parsed later is what was left, and what comes.
  predicate Continued(a: seq<byte>, b: seq<byte>) {
    var p, q, r := Parse(a), Parse(Parse(a).rest + b), Parse(a + b);
    && r.frames == p.frames + (if p.flushed then [] else q.frames)
    && r.flushed == (p.flushed || q.flushed) && (!p.flushed ==> r.rest == q.rest)
  }

  lemma ParseStep(s: seq<byte>)
    requires HEADER <= |s| && 0 < Length(s) <= |s|
    ensures var p := Parse(s[Length(s)..]);
      Parse(s) == Parsed([Frame(Kind(s), s[..Length(s)])] + p.frames, p.rest, p.flushed)
  {
  }

  lemma ContinuedStep(a: seq<byte>, b: seq<byte>)
    requires HEADER <= |a| && 0 < Length(a) <= |a| && Continued(a[Length(a)..], b)
    ensures Continued(a, b)
  {
    hide Length, Kind, Parse;
    SameHead(a, b);
    ParseStep(a);
    ParseStep(a + b);
    var f, p, q := Frame(Kind(a), a[..Length(a)]), Parse(a[Length(a)..]), Parse(Parse(a[Length(a)..]).rest + b);
    assert [f] + (p.frames + (if p.flushed then [] else q.frames)) == ([f] + p.frames)
      + (if p.flushed then [] else q.frames);
  }

  lemma ContinuedShort(a: seq<byte>, b: seq<byte>)
    requires !(HEADER <= |a| && 0 < Length(a) <= |a|)
    ensures Continued(a, b)
  {
    hide Kind;
    if HEADER <= |a| {
      SameHead(a, b);
    }
  }

  lemma SameHead(a: seq<byte>, b: seq<byte>)
    requires HEADER <= |a|
    ensures Length(a + b) == Length(a) && Kind(a + b) == Kind(a)
    ensures Length(a) <= |a| ==> (a + b)[Length(a)..] == a[Length(a)..] + b && (a + b)[..Length(a)] == a[..Length(a)]
  {
  }

  // The messages that are passed on.
  function Deliver(fs: seq<Frame>): seq<Frame> {
    if fs == [] then [] else
      (if fs[0].kind == PRIVMSG_LAUNCH || fs[0].kind == PRIVMSG_REPEAT
        || fs[0].kind == PRIVMSG_EXIT then [fs[0]] else [])
      + Deliver(fs[1..])
  }

  predicate HasExit(fs: seq<Frame>) {
    exists f :: f in fs && f.kind == PRIVMSG_EXIT
  }

  // The messages up to the one that ends the session.
  function UpToExit(fs: seq<Frame>): seq<Frame> {
    if fs == [] then [] else if fs[0].kind == PRIVMSG_EXIT then [fs[0]] else [fs[0]] + UpToExit(fs[1..])
  }

  lemma HasExitConcat(a: seq<Frame>, b: seq<Frame>)
    ensures HasExit(a + b) == (HasExit(a) || HasExit(b))
  {
    if f :| f in a && f.kind == PRIVMSG_EXIT {
      assert f in a + b;
    } else if f :| f in b && f.kind == PRIVMSG_EXIT {
      assert f in a + b;
    }
  }

  lemma FirstAndRest(a: seq<Frame>, b: seq<Frame>)
    ensures a == [] ==> a + b == b && !HasExit(a)
    ensures a != [] ==> (a + b)[0] == a[0] && (a + b)[1..] == a[1..] + b
    ensures a != [] ==> HasExit(a) == (a[0].kind == PRIVMSG_EXIT || HasExit(a[1..]))
  {
    if a != [] {
      assert a == [a[0]] + a[1..];
      HasExitConcat([a[0]], a[1..]);
      assert HasExit([a[0]]) <==> [a[0]][0].kind == PRIVMSG_EXIT;
    }
  }

  lemma {:induction false} DeliverConcat(a: seq<Frame>, b: seq<Frame>)
    ensures Deliver(a + b) == Deliver(a) + Deliver(b)
    ensures HasExit(Deliver(a)) == HasExit(a)
  {
    hide HasExit;
    FirstAndRest(a, b);
    FirstAndRest(Deliver(a), []);
    if a != [] {
      DeliverConcat(a[1..], b);
      assert Deliver(a) == Deliver(a[1..]) || Deliver(a)[1..] == Deliver(a[1..]);
    }
  }

  lemma {:induction false} UpToExitConcat(a: seq<Frame>, b: seq<Frame>)
    ensures UpToExit(a + b) == if HasExit(a) then UpToExit(a) else a + UpToExit(b)
  {
    hide HasExit;
    FirstAndRest(a, b);
    if a == [] {
      assert a + UpToExit(b) == UpToExit(b);
    } else {
      UpToExitConcat(a[1..], b);
      assert [a[0]] + (a[1..] + UpToExit(b)) == a + UpToExit(b);
    }
  }

  // All messages, or those to the first that ends the session, with that one.
  lemma {:induction false} UpToExitMeans(fs: seq<Frame>)
    ensures UpToExit(fs) <= fs && (!HasExit(fs) ==> UpToExit(fs) == fs)
    ensures HasExit(fs) ==> UpToExit(fs) != [] && UpToExit(fs)[|UpToExit(fs)| - 1].kind == PRIVMSG_EXIT
    ensures forall i :: 0 <= i < |UpToExit(fs)| - 1 ==> UpToExit(fs)[i].kind != PRIVMSG_EXIT
  {
    hide HasExit;
    FirstAndRest(fs, []);
    if fs != [] && fs[0].kind != PRIVMSG_EXIT {
      UpToExitMeans(fs[1..]);
    }
  }

  // Those of the three kinds are passed on, each as often as it came; see
  // DeliverConcat for their order.
  lemma {:induction false} DeliverMeans(fs: seq<Frame>, f: Frame)
    ensures multiset(Deliver(fs))[f] == if f.kind == 1 || f.kind == 2 || f.kind == 0xFFFF then multiset(fs)[f] else 0
  {
    if fs != [] {
      assert fs == [fs[0]] + fs[1..];
      DeliverMeans(fs[1..], f);
    }
  }

  // What the reads of a session lead to, with `rest` waiting in the buffer.
  function Session(rs: seq<Read>, rest: seq<byte>): seq<Frame> {
    if rs == [] then []
    else match rs[0]
      case Failed => Session(rs[1..], [])
      case Got(data) =>
        var p := Parse(rest + data);
        Deliver(p.frames) + if HasExit(p.frames) then [] else Session(rs[1..], p.rest)
  }

  // read() is given the room behind `rest`, and returns at least one byte.
  predicate Possible(rs: seq<Read>, rest: seq<byte>) {
    rs == [] ||
    match rs[0]
    case Failed => Possible(rs[1..], [])
    case Got(data) =>
      0 < |data| <= MAXMSGSIZE - |rest| && Possible(rs[1..], Parse(rest + data).rest)
  }

  function Stream(rs: seq<Read>): seq<byte> {
    if rs == [] then [] else (if rs[0].Got? then rs[0].data else []) + Stream(rs[1..])
  }

  // No read fails while part of a message waits in the buffer.
  predicate Unharmed(rs: seq<Read>, rest: seq<byte>) {
    rs == [] ||
    match rs[0]
    case Failed => rest == [] && Unharmed(rs[1..], [])
    case Got(data) => Unharmed(rs[1..], Parse(rest + data).rest)
  }

  // However the stream is cut, the same messages are passed on up to the end
  // of the session, and all of them if it has no end.
  lemma {:induction false} CutsDoNotMatter(rs: seq<Read>, rest: seq<byte>)
    requires Unharmed(rs, rest) && !Parse(rest + Stream(rs)).flushed && Parse(rest).frames == []
    ensures var all := Deliver(Parse(rest + Stream(rs)).frames);
      && UpToExit(Session(rs, rest)) == UpToExit(all)
      && (!HasExit(all) ==> Session(rs, rest) == all)
  {
    if rs == [] {
      assert rest + Stream(rs) == rest;
    } else if rs[0].Failed? {
      assert rest + Stream(rs) == [] + Stream(rs[1..]);
      CutsDoNotMatter(rs[1..], []);
    } else {
      hide Parse, Deliver, HasExit, UpToExit;
      var data, more := rs[0].data, Stream(rs[1..]);
      var p := Parse(rest + data);
      assert rest + Stream(rs) == (rest + data) + more;
      ParseConcat(rest + data, more);
      RestHasNone(rest + data);
      CutsDoNotMatter(rs[1..], p.rest);
      var q := Parse(p.rest + more);
      DeliverConcat(p.frames, q.frames);
      CutStep(Deliver(p.frames), Deliver(q.frames), Session(rs[1..], p.rest));
    }
  }

  // What was passed on before the cut, and behind it what would be and what is.
  lemma CutStep(before: seq<Frame>, all: seq<Frame>, passed: seq<Frame>)
    requires UpToExit(passed) == UpToExit(all) && (!HasExit(all) ==> passed == all)
    ensures var session := before + if HasExit(before) then [] else passed;
      UpToExit(session) == UpToExit(before + all) && (!HasExit(before + all) ==> session == before + all)
  {
    hide *;
    UpToExitConcat(before, all);
    UpToExitConcat(before, if HasExit(before) then [] else passed);
    HasExitConcat(before, all);
  }

  // What waits is not yet a message.
  lemma {:induction false} RestHasNone(s: seq<byte>)
    ensures Parse(Parse(s).rest) == Parsed([], Parse(s).rest, false)
    decreases |s|
  {
    if HEADER <= |s| && Length(s) != 0 && Length(s) <= |s| {
      RestHasNone(s[Length(s)..]);
    }
  }

  // Two ways to cut the same stream.
  lemma SameSession(a: seq<Read>, b: seq<Read>)
    requires Unharmed(a, []) && Unharmed(b, []) && Stream(a) == Stream(b) && !Parse(Stream(a)).flushed
    ensures UpToExit(Session(a, [])) == UpToExit(Session(b, []))
  {
    assert [] + Stream(a) == Stream(a) && [] + Stream(b) == Stream(b);
    CutsDoNotMatter(a, []);
    CutsDoNotMatter(b, []);
  }

  lemma OneRead(data: seq<byte>, rest: seq<byte>)
    ensures Session([Got(data)], rest) == Deliver(Parse(rest + data).frames)
  {
    hide Parse, Deliver, HasExit;
    assert Session([], Parse(rest + data).rest) == [];
  }

  lemma TwoReads(a: seq<byte>, b: Read)
    requires !HasExit(Parse(a).frames)
    ensures Session([Got(a), b], []) == Deliver(Parse(a).frames) + Session([b], Parse(a).rest)
  {
    hide Parse, Deliver, HasExit;
    assert [] + a == a && [Got(a), b][1..] == [b];
  }

  lemma ParseOne(s: seq<byte>)
    requires HEADER <= |s| == Length(s)
    ensures Parse(s) == Parsed([Frame(Kind(s), s)], [], false)
  {
    ParseStep(s);
    assert s[|s|..] == [] && s[..|s|] == s && Parse([]) == Parsed([], [], false);
  }

  lemma DeliverFew(f: Frame)
    requires f.kind == PRIVMSG_LAUNCH || f.kind == PRIVMSG_REPEAT
    ensures Deliver([]) == [] && Deliver([f]) == [f] && !HasExit([])
  {
  }

  // A failed read drops what waits: here the message {2, 4} is lost, and one of
  // its halves taken for the head of another.
  lemma FailureLosesMessage()
    ensures var a, b: seq<byte> := [2, 0], [4, 0];
      && Session([Got(a), Got(b)], []) == [Frame(PRIVMSG_REPEAT, a + b)]
      && Session([Got(a), Failed, Got(b)], []) == []
  {
    hide Parse, Session;
    var a, b: seq<byte> := [2, 0], [4, 0];
    ParseShort(a);
    ParseShort(b);
    ParseOne(a + b);
    TwoReads(a, Got(b));
    OneRead(b, a);
    assert [] + b == b && [Got(a), Failed, Got(b)][1..] == [Failed, Got(b)];
    FailedBetween(a, b);
    OneRead(b, []);
  }

  lemma FailedBetween(a: seq<byte>, b: seq<byte>)
    requires Parse(a).frames == []
    ensures Session([Got(a), Failed, Got(b)], []) == Session([Got(b)], [])
  {
    hide Parse;
    assert [] + a == a && [Got(a), Failed, Got(b)][1..] == [Failed, Got(b)] && [Failed, Got(b)][1..] == [Got(b)];
  }

  // So does a message of length zero what was read together with it: the
  // message behind it is passed on only if it is read later.
  lemma FlushDependsOnTheCut(a: seq<byte>, b: seq<byte>)
    requires HEADER <= |a| && Length(a) == 0 && HEADER <= |b| == Length(b) && Kind(b) == PRIVMSG_LAUNCH
    ensures Session([Got(a + b)], []) == [] && Session([Got(a), Got(b)], []) == [Frame(PRIVMSG_LAUNCH, b)]
  {
    SameHead(a, b);
    hide Parse, Session, Deliver, HasExit, Length, Kind;
    assert [] + b == b && [] + (a + b) == a + b;
    ParseShort(a);
    ParseShort(a + b);
    ParseOne(b);
    OneRead(a + b, []);
    DeliverFew(Frame(PRIVMSG_LAUNCH, b));
    TwoReads(a, Got(b));
    OneRead(b, []);
  }

  // The shortest message.
  const PROBE: seq<byte> := [1, 0, 4, 0]

  lemma ProbeAlone()
    ensures |PROBE| == HEADER && PROBE == [1, 0, 4, 0]
    ensures Parse(PROBE) == Parsed([Frame(PRIVMSG_LAUNCH, PROBE)], [], false) && [] + PROBE == PROBE
    ensures Deliver([]) == [] && Deliver([Frame(PRIVMSG_LAUNCH, PROBE)]) == [Frame(PRIVMSG_LAUNCH, PROBE)]
  {
    ParseOne(PROBE);
    DeliverFew(Frame(PRIVMSG_LAUNCH, PROBE));
  }

  // Behind the beginning of another message it is not seen as one.
  lemma ProbeIsSwallowed(r: seq<byte>)
    requires Parse(r) == Parsed([], r, false) && r != []
    ensures !Parse(r + PROBE).flushed && forall f :: f in Parse(r + PROBE).frames ==> f.bytes != PROBE
  {
    var s := r + PROBE;
    if |r| < HEADER {
      ShortBeforeProbe(r);
    } else {
      SameHead(r, PROBE);
      if Length(r) <= |s| {
        ParseStep(s);
        ParseShort(s[Length(r)..]);
      } else {
        ParseShort(s);
      }
    }
  }

  lemma ShortBeforeProbe(r: seq<byte>)
    requires 0 < |r| < HEADER
    ensures !Parse(r + PROBE).flushed && forall f :: f in Parse(r + PROBE).frames ==> f.bytes != PROBE
  {
    var s := r + PROBE;
    if |r| == 2 {
      assert Length(s) == 1;
      ParseStep(s);
      assert Length(s[1..]) == 1024;
      ParseShort(s[1..]);
    } else {
      assert Length(s) > |s|;
      ParseShort(s);
    }
  }

  lemma DeliveredFrom(fs: seq<Frame>)
    ensures forall f :: f in Deliver(fs) ==> f in fs
  {
  }

  // It can always be read, one byte at a time.
  function ByBytes(): seq<Read> {
    [Got([1]), Got([0]), Got([4]), Got([0])]
  }

  lemma {:induction false} SmallReads(rs: seq<Read>, r: seq<byte>)
    requires |r| < MAXMSGSIZE && forall x :: x in rs ==> x.Got? && |x.data| == 1
    ensures Possible(rs, r) && Unharmed(rs, r)
  {
    if rs != [] {
      RestFits(r + rs[0].data);
      SmallReads(rs[1..], Parse(r + rs[0].data).rest);
    }
  }

  lemma StreamOfBytes()
    ensures Stream(ByBytes()) == PROBE
  {
    var rs := ByBytes();
    assert rs[1..] == [Got([0]), Got([4]), Got([0])] && rs[1..][1..] == [Got([4]), Got([0])]
      && rs[1..][1..][1..] == [Got([0])];
    assert Stream(rs[1..][1..]) == [4, 0] && Stream(rs) == [1] + [0] + [4, 0] == PROBE;
  }

  lemma ProbeByBytes(r: seq<byte>)
    requires |r| < MAXMSGSIZE && Parse(r).frames == [] && !Parse(r + PROBE).flushed
    ensures Possible(ByBytes(), r)
    ensures var all := Deliver(Parse(r + PROBE).frames);
      UpToExit(Session(ByBytes(), r)) == UpToExit(all) && (!HasExit(all) ==> Session(ByBytes(), r) == all)
  {
    hide Parse, Possible, Session, Unharmed, Stream, Deliver, HasExit, UpToExit;
    var rs := ByBytes();
    StreamOfBytes();
    SmallReads(rs, r);
    CutsDoNotMatter(rs, r);
  }

  lemma {:induction false} UpToExitFrom(fs: seq<Frame>)
    ensures forall f :: f in UpToExit(fs) ==> f in fs
  {
    if fs != [] {
      UpToExitFrom(fs[1..]);
    }
  }

  // After any piece of the stream, a failed read does no harm if and only if
  // no part of a message waits.
  lemma FailureHarmless(s: seq<byte>)
    ensures var r := Parse(s).rest;
      r == [] <==> forall rs :: Possible(rs, r) ==> Session([Failed] + rs, r) == Session(rs, r)
  {
    hide Parse, Possible, Session, UpToExit, Deliver, HasExit;
    var r := Parse(s).rest;
    RestHasNone(s);
    RestFits(s);
    if r != [] {
      FailureHarms(r);
      FailedFirst(ByBytes(), r);
    } else {
      forall rs
        ensures Session([Failed] + rs, r) == Session(rs, r)
      {
        FailedFirst(rs, r);
      }
    }
  }

  lemma FailureHarms(r: seq<byte>)
    requires Parse(r) == Parsed([], r, false) && r != [] && |r| < MAXMSGSIZE
    ensures Possible(ByBytes(), r) && Session(ByBytes(), []) != Session(ByBytes(), r)
  {
    hide Parse, Possible, Session, Deliver;
    var f, all := Frame(PRIVMSG_LAUNCH, PROBE), Deliver(Parse(r + PROBE).frames);
    ProbeAlone();
    ProbeIsSwallowed(r);
    ParseShort([]);
    ProbeByBytes([]);
    ProbeByBytes(r);
    DeliveredFrom(Parse(r + PROBE).frames);
    UpToExitFrom(all);
    assert UpToExit([f]) == [f] + UpToExit([]);
    assert f in UpToExit(Session(ByBytes(), [])) && f !in UpToExit(Session(ByBytes(), r));
  }

  lemma FailedFirst(rs: seq<Read>, r: seq<byte>)
    ensures Session([Failed] + rs, r) == Session(rs, [])
  {
    hide Parse;
    assert ([Failed] + rs)[1..] == rs;
  }

  // Whether the stream is read whole or cut behind `s`.
  predicate BothPossible(s: seq<byte>, t: seq<byte>) {
    Possible([Got(s + t)], []) && Possible([Got(s), Got(t)], [])
  }

  // To cut the stream behind `s` does not matter, for all that can be read, if
  // and only if `s` has no message of length zero, or one before it that ends
  // the session, or fills the buffer but for less than a header.
  lemma CutHarmless(s: seq<byte>)
    ensures (forall t :: BothPossible(s, t) ==>
      UpToExit(Session([Got(s + t)], [])) == UpToExit(Session([Got(s), Got(t)], [])))
      <==> !Parse(s).flushed || HasExit(Parse(s).frames) || MAXMSGSIZE < |s| + HEADER
  {
    hide Parse, Session, UpToExit, HasExit, BothPossible;
    var p := Parse(s);
    ParseShort(s);
    if p.flushed && !HasExit(p.frames) && |s| + HEADER <= MAXMSGSIZE {
      FlushLoses(s);
      ProbeIsPossible(s);
      assert UpToExit(Session([Got(s + PROBE)], [])) != UpToExit(Session([Got(s), Got(PROBE)], []));
    } else {
      forall t | BothPossible(s, t)
        ensures UpToExit(Session([Got(s + t)], [])) == UpToExit(Session([Got(s), Got(t)], []))
      {
        if !p.flushed || HasExit(p.frames) {
          CutKeeps(s, t);
        } else {
          FewBytes(s, t);
        }
      }
    }
  }

  lemma ProbeIsPossible(s: seq<byte>)
    requires s != [] && |s| + HEADER <= MAXMSGSIZE && Parse(s).flushed
    ensures BothPossible(s, PROBE)
  {
    hide Parse;
    ProbeAlone();
    FlushedRest(s);
    ReadAlone(s + PROBE);
    ReadAlone(PROBE);
    assert [] + s == s && [Got(s), Got(PROBE)][1..] == [Got(PROBE)] && [Got(PROBE)][1..] == [];
  }

  lemma ReadAlone(data: seq<byte>)
    ensures Possible([Got(data)], []) <==> 0 < |data| <= MAXMSGSIZE
  {
    hide Parse;
    assert [Got(data)][1..] == [];
  }

  // Behind a message of length zero, less than a header is no message either.
  lemma FewBytes(s: seq<byte>, t: seq<byte>)
    requires Parse(s).flushed && !HasExit(Parse(s).frames) && MAXMSGSIZE < |s| + HEADER && BothPossible(s, t)
    ensures UpToExit(Session([Got(s + t)], [])) == UpToExit(Session([Got(s), Got(t)], []))
  {
    hide Parse, Session, Deliver, HasExit, UpToExit;
    ReadAlone(s + t);
    FlushedRest(s);
    assert [] + t == t;
    ParseShort(t);
    WholeRead(s, t);
    CutRead(s, t);
    ProbeAlone();
  }

  lemma WholeRead(s: seq<byte>, t: seq<byte>)
    ensures var p, q := Parse(s), Parse(Parse(s).rest + t);
      Session([Got(s + t)], []) == Deliver(p.frames) + if p.flushed then [] else Deliver(q.frames)
  {
    hide Parse, Deliver, HasExit, Session;
    var p, q := Parse(s), Parse(Parse(s).rest + t);
    assert [] + (s + t) == s + t;
    OneRead(s + t, []);
    ParseConcat(s, t);
    DeliverConcat(p.frames, if p.flushed then [] else q.frames);
    ProbeAlone();
  }

  lemma CutRead(s: seq<byte>, t: seq<byte>)
    ensures var p, q := Parse(s), Parse(Parse(s).rest + t);
      Session([Got(s), Got(t)], []) == Deliver(p.frames) + if HasExit(p.frames) then [] else Deliver(q.frames)
  {
    hide Parse, Deliver, HasExit;
    assert [] + s == s && [Got(s), Got(t)][1..] == [Got(t)];
    OneRead(t, Parse(s).rest);
  }

  lemma CutKeeps(s: seq<byte>, t: seq<byte>)
    requires !Parse(s).flushed || HasExit(Parse(s).frames)
    ensures UpToExit(Session([Got(s + t)], [])) == UpToExit(Session([Got(s), Got(t)], []))
  {
    hide Parse, Session, Deliver, HasExit, UpToExit;
    var p, q := Parse(s), Parse(Parse(s).rest + t);
    WholeRead(s, t);
    CutRead(s, t);
    DeliverConcat(p.frames, []);
    UpToExitConcat(Deliver(p.frames), if p.flushed then [] else Deliver(q.frames));
    UpToExitConcat(Deliver(p.frames), if HasExit(p.frames) then [] else Deliver(q.frames));
  }

  lemma FlushLoses(s: seq<byte>)
    requires Parse(s).flushed && !HasExit(Parse(s).frames)
    ensures UpToExit(Session([Got(s + PROBE)], [])) != UpToExit(Session([Got(s), Got(PROBE)], []))
  {
    hide Parse, Session, Deliver;
    var p, f := Parse(s), Frame(PRIVMSG_LAUNCH, PROBE);
    WholeRead(s, PROBE);
    CutRead(s, PROBE);
    FlushedRest(s);
    ProbeAlone();
    DeliverConcat(p.frames, []);
    UpToExitConcat(Deliver(p.frames), []);
    UpToExitConcat(Deliver(p.frames), [f]);
    assert UpToExit([f]) == [f] + UpToExit([]);
  }

  lemma {:induction false} FlushedRest(s: seq<byte>)
    ensures Parse(s).flushed ==> Parse(s).rest == []
    decreases |s|
  {
    if HEADER <= |s| && 0 < Length(s) <= |s| {
      FlushedRest(s[Length(s)..]);
    }
  }

  // The loop over the bytes in the buffer: complete messages are passed on, the
  // rest is moved to the front.
  method Scan(buffer: array<byte>, available: nat) returns (passed: seq<Frame>, bufferOffset: nat, done: bool)
    requires buffer.Length == MAXMSGSIZE && 0 < available <= MAXMSGSIZE
    modifies buffer
    ensures bufferOffset < MAXMSGSIZE && buffer[..bufferOffset] == Parse(old(buffer[..available])).rest
    ensures passed == Deliver(Parse(old(buffer[..available])).frames)
      && done == HasExit(Parse(old(buffer[..available])).frames)
  {
    hide *;
    ghost var data := buffer[..available];
    ghost var parsed, seen: seq<Frame> := Parse(data), [];
    var nbytes, p := available, 0;
    passed, bufferOffset, done := [], 0, false;
    Begun(data);
    while p < available
      invariant p <= available
      invariant p < available ==>
        nbytes == available - p && bufferOffset == 0 && buffer[..available] == data
        && Behind(parsed, seen, Parse(data[p..]))
      invariant p == available ==>
        bufferOffset < MAXMSGSIZE && buffer[..bufferOffset] == parsed.rest && parsed.frames == seen
      invariant passed == Deliver(seen) && done == HasExit(seen)
      decreases available - p
    {
      ghost var s := data[p..];
      RestFits(s);
      ParseShort(s);
      if Parse(s).frames == [] {
        BehindAll(parsed, seen, Parse(s));
      }
      if nbytes < HEADER {
        Shift(buffer, p, nbytes);
        bufferOffset := nbytes;
        p := available;
        continue;
      }
      HeadOf(buffer[..], data, p);
      var kind, length := U16(buffer[p], buffer[p + 1]), U16(buffer[p + 2], buffer[p + 3]);
      OfHead(s);
      if length == 0 {
        p := available;
        continue;
      }
      if nbytes < length {
        Shift(buffer, p, nbytes);
        bufferOffset := nbytes;
        p := available;
        continue;
      }
      ghost var f := Frame(kind, s[..length]);
      var message := Frame(kind, buffer[p..p + length]);
      PartOf(buffer[..], data, p, length);
      ParseStep(s);
      DeliverOne(seen, f);
      BehindStep(parsed, seen, f, Parse(data[p + length..]));
      seen := seen + [f];
      if kind == PRIVMSG_FLUSH {
      } else if kind == PRIVMSG_LAUNCH || kind == PRIVMSG_REPEAT {
        passed := passed + [message];
      } else if kind == PRIVMSG_EXIT {
        done := true;
        passed := passed + [message];
      }
      nbytes := nbytes - length;
      p := p + length;
      if p == available {
        Emptied(data, p);
        BehindAll(parsed, seen, Parse(data[p..]));
      }
    }
  }

  lemma PartOf(buffer: seq<byte>, data: seq<byte>, p: nat, n: nat)
    requires p + n <= |data| <= |buffer| && data == buffer[..|data|]
    ensures buffer[p..p + n] == data[p..][..n] && data[p..][n..] == data[p + n..]
  {
  }

  lemma HeadOf(buffer: seq<byte>, data: seq<byte>, p: nat)
    requires p + 4 <= |data| <= |buffer| && data == buffer[..|data|]
    ensures var s := data[p..];
      buffer[p] == s[0] && buffer[p + 1] == s[1] && buffer[p + 2] == s[2] && buffer[p + 3] == s[3]
  {
  }

  lemma BehindStep(parsed: Parsed, seen: seq<Frame>, f: Frame, next: Parsed)
    requires Behind(parsed, seen, Parsed([f] + next.frames, next.rest, next.flushed))
    ensures Behind(parsed, seen + [f], next)
  {
  }

  lemma BehindAll(parsed: Parsed, seen: seq<Frame>, next: Parsed)
    requires Behind(parsed, seen, next) && next.frames == []
    ensures parsed.frames == seen && parsed.rest == next.rest
  {
  }

  // The part of a parse that is still to come.
  ghost predicate Behind(parsed: Parsed, seen: seq<Frame>, next: Parsed) {
    parsed.frames == seen + next.frames && parsed.rest == next.rest
  }

  lemma Begun(data: seq<byte>)
    ensures data[0..] == data && Behind(Parse(data), [], Parse(data)) && Deliver([]) == [] && !HasExit([])
  {
  }

  lemma Emptied(data: seq<byte>, p: nat)
    requires p <= |data|
    ensures p == |data| ==> Parse(data[p..]) == Parsed([], [], false)
  {
  }

  lemma ParseShort(s: seq<byte>)
    ensures HEADER == 4
    ensures |s| < HEADER || 0 < |s| < Length(s) ==> Parse(s) == Parsed([], s, false)
    ensures HEADER <= |s| && Length(s) == 0 ==> Parse(s) == Parsed([], [], true)
  {
  }

  lemma OfHead(s: seq<byte>)
    requires HEADER <= |s|
    ensures Kind(s) == U16(s[0], s[1]) && Length(s) == U16(s[2], s[3]) <= MAXMSGSIZE && HEADER == 4
  {
  }

  lemma DeliverOne(seen: seq<Frame>, f: Frame)
    ensures Deliver(seen + [f]) == if f.kind == PRIVMSG_LAUNCH || f.kind == PRIVMSG_REPEAT
      || f.kind == PRIVMSG_EXIT then Deliver(seen) + [f] else Deliver(seen)
    ensures HasExit(seen + [f]) == (HasExit(seen) || f.kind == PRIVMSG_EXIT)
    ensures PRIVMSG_EXIT != PRIVMSG_LAUNCH && PRIVMSG_EXIT != PRIVMSG_REPEAT
    ensures PRIVMSG_FLUSH != PRIVMSG_LAUNCH && PRIVMSG_FLUSH != PRIVMSG_REPEAT && PRIVMSG_FLUSH != PRIVMSG_EXIT
  {
    DeliverConcat(seen, [f]);
  }

  // memmove to the front of the buffer.
  method Shift(buffer: array<byte>, p: nat, n: nat)
    requires p + n <= buffer.Length
    modifies buffer
    ensures buffer[..n] == old(buffer[p..p + n])
  {
    forall k | 0 <= k < n {
      buffer[k] := buffer[p + k];
    }
  }

  // pipeReader, until the pipe is closed or an exit message has been passed on.
  method PipeReader(rs: seq<Read>) returns (passed: seq<Frame>)
    requires Possible(rs, [])
    ensures passed == Session(rs, [])
  {
    hide *;
    var buffer := new byte[MAXMSGSIZE];
    SessionBounds(rs);
    var bufferOffset: nat, done, i: nat := 0, false, 0;
    passed := [];
    while !done
      invariant i <= |rs| && bufferOffset < MAXMSGSIZE == buffer.Length && fresh(buffer)
      invariant !done ==> Possible(rs[i..], buffer[..bufferOffset])
      invariant Session(rs, []) == passed + if done then [] else Session(rs[i..], buffer[..bufferOffset])
      decreases |rs| - i, !done
    {
      if i == |rs| {
        SessionBounds(rs);
        bufferOffset := 0;
        done := true;
      } else if rs[i].Got? {
        ghost var rest := buffer[..bufferOffset];
        ReadStep(rs, i, rest);
        var n := Fill(buffer, bufferOffset, rs[i].data);
        var more;
        more, bufferOffset, done := Scan(buffer, n);
        Together(passed, more, if done then [] else Session(rs[i + 1..], buffer[..bufferOffset]));
        passed := passed + more;
        i := i + 1;
      } else {
        FailStep(rs, i, buffer[..bufferOffset]);
        bufferOffset := 0;
        i := i + 1;
      }
    }
  }

  lemma Together(a: seq<Frame>, b: seq<Frame>, c: seq<Frame>)
    ensures a + (b + c) == a + b + c
  {
  }

  lemma SessionBounds(rs: seq<Read>)
    ensures 0 < MAXMSGSIZE && rs[0..] == rs && forall rest :: Session(rs[|rs|..], rest) == []
  {
  }

  // read() behind what waits in the buffer.
  method Fill(buffer: array<byte>, offset: nat, data: seq<byte>) returns (nbytes: nat)
    requires offset + |data| <= buffer.Length
    modifies buffer
    ensures nbytes == offset + |data| && buffer[..nbytes] == old(buffer[..offset]) + data
  {
    forall k | 0 <= k < |data| {
      buffer[offset + k] := data[k];
    }
    nbytes := offset + |data|;
  }

  lemma ReadStep(rs: seq<Read>, i: nat, rest: seq<byte>)
    requires i < |rs| && rs[i].Got? && Possible(rs[i..], rest)
    ensures var p := Parse(rest + rs[i].data);
      && 0 < |rs[i].data| && |rest| + |rs[i].data| <= MAXMSGSIZE && Possible(rs[i + 1..], p.rest)
      && Session(rs[i..], rest) == Deliver(p.frames) + if HasExit(p.frames) then [] else Session(rs[i + 1..], p.rest)
  {
    assert rs[i..][1..] == rs[i + 1..];
  }

  lemma FailStep(rs: seq<Read>, i: nat, rest: seq<byte>)
    requires i < |rs| && rs[i].Failed? && Possible(rs[i..], rest)
    ensures Possible(rs[i + 1..], []) && Session(rs[i..], rest) == Session(rs[i + 1..], [])
  {
    assert rs[i..][1..] == rs[i + 1..];
  }
}
