/**
 The message that tells the launcher about a new file, as launch.c sends it
 and takes it apart again.
 */
module Launcher {
  import opened Pipe
  import opened Wrappers

  // sizeof(message_t) + sizeof(launcher_message_t).
  const FIXED: nat := 36
  const MAXPATHLEN := 4096
  const TWO32: nat := 0x1_0000_0000

  // launcher_args_t.
  datatype Args = Args(timeslot: nat, filename: seq<byte>, flowdir: seq<byte>, isotime: seq<byte>, ident: seq<byte>)

  function Pow256(k: nat): nat {
    if k == 0 then 1 else 256 * Pow256(k - 1)
  }

  // `k` bytes, the lowest first.
  function LE(n: nat, k: nat): (r: seq<byte>)
    ensures |r| == k
  {
    if k == 0 then [] else [n % 256] + LE(n / 256, k - 1)
  }

  function FromLE(s: seq<byte>): nat {
    if s == [] then 0 else s[0] + 256 * FromLE(s[1..])
  }

  lemma {:induction false} RoundTripLE(n: nat, k: nat)
    ensures n < Pow256(k) ==> FromLE(LE(n, k)) == n
  {
    if k != 0 {
      RoundTripLE(n / 256, k - 1);
      assert LE(n, k)[1..] == LE(n / 256, k - 1);
    }
  }

  lemma LowestFirst()
    ensures LE(0x0403_0201, 4) == [1, 2, 3, 4] && FromLE([1, 2, 3, 4]) == 0x0403_0201
  {
    assert [1, 2, 3, 4][1..] == [2, 3, 4] && [2, 3, 4][1..] == [3, 4] && [3, 4][1..] == [4] && [4][1..] == [];
    assert FromLE([4]) == 4 && FromLE([3, 4]) == 0x403 && FromLE([2, 3, 4]) == 0x4_0302;
    assert LE(4, 1) == [4] && LE(0x403, 2) == [3, 4] && LE(0x4_0302, 3) == [2, 3, 4];
  }

  // A C string: no zero in it.
  predicate IsString(s: seq<byte>) {
    forall i :: 0 <= i < |s| ==> s[i] != 0
  }

  predicate IsArgs(a: Args) {
    a.timeslot < 0x1_0000_0000_0000_0000 && IsString(a.filename) && IsString(a.flowdir) && IsString(a.isotime)
      && IsString(a.ident)
  }

  function Align(len: nat): nat {
    if len % 4 == 0 then 0 else 4 - len % 4
  }

  function Unaligned(a: Args): nat {
    FIXED + |a.filename| + 1 + |a.flowdir| + 1 + |a.isotime| + 1 + |a.ident| + 1
  }

  function Total(a: Args): nat {
    Unaligned(a) + Align(Unaligned(a))
  }

  function Strings(a: Args): seq<byte> {
    a.filename + [0] + a.flowdir + [0] + a.isotime + [0] + a.ident + [0]
  }

  // The header and the launcher message, with the four bytes of its hole.
  function Fixed(length: nat, a: Args, hole: seq<byte>): (r: seq<byte>)
    requires |hole| == 4
    ensures |r| == FIXED
  {
    LE(PRIVMSG_LAUNCH, 2) + LE(length, 2) + LE(a.timeslot, 8) + LE(|a.filename| + 1, 4) + LE(|a.flowdir| + 1, 4)
    + LE(|a.isotime| + 1, 4) + LE(|a.ident| + 1, 4) + LE(Align(Unaligned(a)), 4) + hole
  }

  function Encode(a: Args, hole: seq<byte>): (r: seq<byte>)
    requires |hole| == 4
    ensures |r| == Total(a)
  {
    Fixed(Total(a) % 0x1_0000, a, hole) + Strings(a) + LE(Unaligned(a) % 4, 8)[..Align(Unaligned(a))]
  }

  // A string ends at the first zero.
  function CString(s: seq<byte>): (r: seq<byte>)
    ensures IsString(r) && |r| <= |s|
  {
    if s == [] || s[0] == 0 then [] else [s[0]] + CString(s[1..])
  }

  function Len(m: seq<byte>, k: nat): nat
    requires FIXED <= |m| && k < 5
  {
    FromLE(m[12 + 4 * k..16 + 4 * k])
  }

  // The length that processMessage asks for: the sum is one of 32 bits.
  function Needed(m: seq<byte>): nat
    requires FIXED <= |m|
  {
    FIXED + (Len(m, 0) + Len(m, 1) + Len(m, 2) + Len(m, 3) + Len(m, 4)) % TWO32
  }

  // Where the zero of a string goes that starts at `p`: the index is one of 32 bits.
  function Mark(p: nat, n: nat): nat {
    p + (n - 1) % TWO32
  }

  // All four zeros are written inside the message.
  predicate WritesInside(m: seq<byte>)
    requires FIXED <= |m|
  {
    var f := FIXED;
    var d := f + Len(m, 0);
    var t := d + Len(m, 1);
    var i := t + Len(m, 2);
    Mark(f, Len(m, 0)) < |m| && Mark(d, Len(m, 1)) < |m| && Mark(t, Len(m, 2)) < |m| && Mark(i, Len(m, 3)) < |m|
  }

  // The strings, none without a byte, are inside the message.
  predicate Fits(m: seq<byte>)
    requires FIXED <= |m|
  {
    && 1 <= Len(m, 0) && 1 <= Len(m, 1) && 1 <= Len(m, 2) && 1 <= Len(m, 3)
    && FIXED + Len(m, 0) + Len(m, 1) + Len(m, 2) + Len(m, 3) <= |m|
  }

  lemma {:induction false} FromLEBound(s: seq<byte>)
    ensures FromLE(s) < Pow256(|s|)
  {
    if s != [] {
      FromLEBound(s[1..]);
    }
  }

  lemma LenBound(m: seq<byte>, k: nat)
    requires FIXED <= |m| && k < 5
    ensures Len(m, k) < TWO32
  {
    FromLEBound(m[12 + 4 * k..16 + 4 * k]);
    Powers();
  }

  lemma MarkIs(p: nat, n: nat)
    requires n < TWO32
    ensures Mark(p, n) == if n == 0 then p + TWO32 - 1 else p + n - 1
  {
  }

  // Exactly then nothing is written outside of it.
  lemma InsideExactly(m: seq<byte>)
    requires FIXED <= |m| <= TWO32
    ensures WritesInside(m) <==> Fits(m)
  {
    hide Len, Mark;
    LenBound(m, 0);
    LenBound(m, 1);
    LenBound(m, 2);
    LenBound(m, 3);
    var d := FIXED + Len(m, 0);
    var t := d + Len(m, 1);
    var i := t + Len(m, 2);
    MarkIs(FIXED, Len(m, 0));
    MarkIs(d, Len(m, 1));
    MarkIs(t, Len(m, 2));
    MarkIs(i, Len(m, 3));
  }

  // The test of processMessage sees to that, if no length is 0 and the sum does
  // not exceed 32 bits.
  lemma TestIsEnough(m: seq<byte>)
    requires FIXED <= |m| && Length(m) <= |m| && Needed(m) <= Length(m)
    requires 1 <= Len(m, 0) && 1 <= Len(m, 1) && 1 <= Len(m, 2) && 1 <= Len(m, 3)
    requires Len(m, 0) + Len(m, 1) + Len(m, 2) + Len(m, 3) + Len(m, 4) < TWO32
    ensures Fits(m)
  {
    hide Len, Length;
  }

  // Otherwise it need not: the lengths here are 2^32 - 1, 1, 1, 1 and 0, so that
  // 38 bytes are asked for.
  lemma TestIsNotEnough() returns (m: seq<byte>)
    ensures |m| == FIXED + 2 == Length(m) == Needed(m) && !WritesInside(m) && forall k
      {:trigger Len(m, k)} :: 0 <= k < 4 ==> 1 <= Len(m, k)
  {
    hide FromLE;
    m := [1, 0, 38, 0] + [0, 0, 0, 0, 0, 0, 0, 0] + [255, 255, 255, 255] + [1, 0, 0, 0] + [1, 0, 0, 0] + [1, 0, 0, 0]
      + [0, 0, 0, 0, 0, 0, 0, 0, 0, 0];
    assert m[12..16] == [255, 255, 255, 255] && m[16..20] == m[20..24] == m[24..28] == [1, 0, 0, 0]
      && m[28..32] == [0, 0, 0, 0];
    FourBytes(m[12..16]);
    FourBytes(m[16..20]);
    FourBytes(m[28..32]);
    assert Len(m, 0) == 0xFFFF_FFFF && Len(m, 1) == Len(m, 2) == Len(m, 3) == 1 && Len(m, 4) == 0;
    InsideExactly(m);
  }

  lemma FourBytes(s: seq<byte>)
    requires |s| == 4
    ensures var a: int, b: int, c: int, d: int := s[0], s[1], s[2], s[3];
      FromLE(s) == a + 256 * (b + 256 * (c + 256 * d))
  {
    assert s[1..][1..] == s[2..] && s[2..][1..] == s[3..] && s[3..][1..] == [];
    assert FromLE(s[2..]) == s[2..][0] + 256 * FromLE(s[3..]) && FromLE(s[3..]) == s[3..][0] + 256 * FromLE([]);
  }

  // What processMessage makes of a message: nothing if its length falls short.
  function Decode(m: seq<byte>): Option<Args>
    requires FIXED <= |m| && (Needed(m) <= Length(m) ==> Fits(m))
  {
    if Length(m) < Needed(m) then None else
      var f := FIXED;
      var d := f + Len(m, 0);
      var t := d + Len(m, 1);
      var i := t + Len(m, 2);
      Some(Args(FromLE(m[4..12]), CString(m[f..d - 1]), CString(m[d..t - 1]), CString(m[t..i - 1]),
        CString(m[i..i + Len(m, 3) - 1])))
  }

  lemma {:induction false} StringRoundTrip(s: seq<byte>)
    requires IsString(s)
    ensures CString(s) == s
  {
    if s != [] {
      StringRoundTrip(s[1..]);
    }
  }

  // The fields of the fixed part.
  lemma FixedFields(length: nat, a: Args, hole: seq<byte>, rest: seq<byte>)
    requires |hole| == 4 && length < 0x1_0000 && IsArgs(a) && Total(a) < TWO32
    ensures var m := Fixed(length, a, hole) + rest;
      && Length(m) == length && Kind(m) == PRIVMSG_LAUNCH && FromLE(m[4..12]) == a.timeslot
      && Len(m, 0) == |a.filename| + 1 && Len(m, 1) == |a.flowdir| + 1 && Len(m, 2) == |a.isotime| + 1
      && Len(m, 3) == |a.ident| + 1 && Len(m, 4) == Align(Unaligned(a))
  {
    hide LE, FromLE;
    var m := Fixed(length, a, hole) + rest;
    assert m[2..4] == LE(length, 2);
    assert m[0..2] == LE(PRIVMSG_LAUNCH, 2);
    assert m[4..12] == LE(a.timeslot, 8);
    assert m[12..16] == LE(|a.filename| + 1, 4);
    assert m[16..20] == LE(|a.flowdir| + 1, 4);
    assert m[20..24] == LE(|a.isotime| + 1, 4);
    assert m[24..28] == LE(|a.ident| + 1, 4);
    assert m[28..32] == LE(Align(Unaligned(a)), 4);
    TwoBytes(m[0..2]);
    TwoBytes(m[2..4]);
    Powers();
    RoundTripLE(length, 2);
    RoundTripLE(PRIVMSG_LAUNCH, 2);
    RoundTripLE(a.timeslot, 8);
    RoundTripLE(|a.filename| + 1, 4);
    RoundTripLE(|a.flowdir| + 1, 4);
    RoundTripLE(|a.isotime| + 1, 4);
    RoundTripLE(|a.ident| + 1, 4);
    RoundTripLE(Align(Unaligned(a)), 4);
  }

  lemma Powers()
    ensures Pow256(2) == 0x1_0000 && Pow256(4) == TWO32 && Pow256(8) == 0x1_0000_0000_0000_0000
  {
    assert Pow256(3) == 256 * Pow256(2) && Pow256(5) == 256 * Pow256(4) && Pow256(6) == 256 * Pow256(5)
      && Pow256(7) == 256 * Pow256(6);
  }

  lemma TwoBytes(s: seq<byte>)
    requires |s| == 2
    ensures FromLE(s) == U16(s[0], s[1])
  {
    assert FromLE(s[1..]) == s[1] + 256 * FromLE(s[1..][1..]);
  }

  // The strings behind it.
  lemma StringFields(fixed: seq<byte>, a: Args, rest: seq<byte>)
    requires |fixed| == FIXED && IsArgs(a)
    ensures var m := fixed + Strings(a) + rest;
      var d := FIXED + |a.filename| + 1;
      var t := d + |a.flowdir| + 1;
      var i := t + |a.isotime| + 1;
      && |m| >= i + |a.ident| + 1
      && m[FIXED..d - 1] == a.filename && m[d..t - 1] == a.flowdir && m[t..i - 1] == a.isotime
      && m[i..i + |a.ident|] == a.ident
  {
  }

  // What was sent is what arrives.
  lemma RoundTrip(a: Args, hole: seq<byte>)
    requires IsArgs(a) && |hole| == 4 && Total(a) <= MAXMSGSIZE
    ensures var m := Encode(a, hole);
      && FIXED <= |m| && Length(m) == |m| && Fits(m)
      && Decode(m) == Some(a)
  {
    hide Fixed, LE, FromLE, Strings, Kind, Length, CString;
    var m := Encode(a, hole);
    var pad := LE(Unaligned(a) % 4, 8)[..Align(Unaligned(a))];
    assert m == Fixed(Total(a), a, hole) + (Strings(a) + pad);
    FixedFields(Total(a), a, hole, Strings(a) + pad);
    StringFields(Fixed(Total(a), a, hole), a, pad);
    StringRoundTrip(a.filename);
    StringRoundTrip(a.flowdir);
    StringRoundTrip(a.isotime);
    StringRoundTrip(a.ident);
  }

  // The reader takes the message for one message exactly if its length fits
  // the 16 bits of the header.
  lemma OneFrame(a: Args, hole: seq<byte>)
    requires IsArgs(a) && |hole| == 4 && Total(a) < TWO32
    ensures Parse(Encode(a, hole)) == Parsed([Frame(PRIVMSG_LAUNCH, Encode(a, hole))], [], false) <==>
      Total(a) <= MAXMSGSIZE
  {
    hide Fixed, LE, FromLE, Strings, Kind, Length;
    var m := Encode(a, hole);
    var pad := LE(Unaligned(a) % 4, 8)[..Align(Unaligned(a))];
    assert m == Fixed(Total(a) % 0x1_0000, a, hole) + (Strings(a) + pad);
    FixedFields(Total(a) % 0x1_0000, a, hole, Strings(a) + pad);
    if Total(a) <= MAXMSGSIZE {
      ParseStep(m);
      assert m[|m|..] == [] && m[..|m|] == m;
    } else if Length(m) != 0 {
      ParseStep(m);
    }
  }

  // What writev makes of a vector.
  function Gather(v: seq<seq<byte>>): seq<byte> {
    if v == [] then [] else Gather(v[..|v| - 1]) + v[|v| - 1]
  }

  lemma GatherStep(v: seq<seq<byte>>, s: seq<byte>)
    ensures Gather(v + [s]) == Gather(v) + s
  {
    assert (v + [s])[..|v|] == v;
  }

  // AddVector: a string with its zero.
  method AddVector(v: seq<seq<byte>>, s: seq<byte>) returns (v': seq<seq<byte>>, l: nat)
    ensures l == |s| + 1 && Gather(v') == Gather(v) + s + [0]
  {
    GatherStep(v, s + [0]);
    v' := v + [s + [0]];
    l := |s| + 1;
    assert Gather(v) + (s + [0]) == Gather(v) + s + [0];
  }

  const PREFIX: seq<byte> := [110, 102, 99, 97, 112, 100, 46]

  // The file name, cut to the buffer it is printed to.
  function FileName(subdir: Option<seq<byte>>, fmt: seq<byte>): seq<byte> {
    var full := if subdir.Some? then subdir.value + [47] + PREFIX + fmt else PREFIX + fmt;
    if |full| <= MAXPATHLEN - 2 then full else full[..MAXPATHLEN - 2]
  }

  // A message takes whole words, and less than one more than it needs.
  lemma TotalIsAligned(a: Args)
    ensures Total(a) % 4 == 0 && 0 <= Total(a) - (|a.filename| + |a.flowdir| + |a.isotime| + |a.ident| + 40) < 4
  {
  }

  // So the launcher gets the whole name, below the sub-directory if there is one,
  // as long as it fits the buffer.
  lemma NameArrives(subdir: Option<seq<byte>>, fmt: seq<byte>, a: Args, hole: seq<byte>)
    requires a.filename == FileName(subdir, fmt) && IsArgs(a) && |hole| == 4 && Total(a) <= MAXMSGSIZE
    ensures var m := Encode(a, hole); FIXED <= |m| && Fits(m) && Decode(m).Some?
    ensures
      var name := Decode(Encode(a, hole)).value.filename;
      var nfcapd := [110, 102, 99, 97, 112, 100, 46] + fmt;
      var full := if subdir.Some? then subdir.value + [47] + nfcapd else nfcapd;
      name <= full && (|full| <= 4094 ==> name == full) && (|full| > 4094 ==> |name| == 4094)
  {
    hide Encode, Decode, Total, IsArgs;
    RoundTrip(a, hole);
    if subdir.Some? {
      assert subdir.value + [47] + (PREFIX + fmt) == subdir.value + [47] + PREFIX + fmt;
    }
  }

  method SendLauncherMessage(t_start: nat, subdir: Option<seq<byte>>, fmt: seq<byte>, datadir: seq<byte>,
      ident: seq<byte>, hole: seq<byte>)
    returns (sent: seq<byte>)
    requires |hole| == 4
    ensures sent == Encode(Args(t_start, FileName(subdir, fmt), datadir, fmt, ident), hole)
  {
    hide *;
    var fname := FileName(subdir, fmt);
    ghost var a := Args(t_start, fname, datadir, fmt, ident);
    var vector, argLen, len := [], 0, FIXED;
    var lenFilename, lenFlowdir, lenIsotime, lenIdent, lenAlign;
    vector, lenFilename := AddVector(vector, fname);
    len := len + lenFilename;
    vector, lenFlowdir := AddVector(vector, datadir);
    len := len + lenFlowdir;
    vector, lenIsotime := AddVector(vector, fmt);
    len := len + lenIsotime;
    vector, lenIdent := AddVector(vector, ident);
    len := len + lenIdent;
    OfArgs(a);
    var align := len % 4;
    if align != 0 {
      lenAlign := 4 - align;
      len := len + lenAlign;
      GatherStep(vector, LE(align, 8)[..lenAlign]);
      vector := vector + [LE(align, 8)[..lenAlign]];
    } else {
      lenAlign := 0;
    }
    var head := LE(PRIVMSG_LAUNCH, 2) + LE(len % 0x1_0000, 2)
      + LE(t_start, 8) + LE(lenFilename, 4) + LE(lenFlowdir, 4) + LE(lenIsotime, 4) + LE(lenIdent, 4) + LE(lenAlign, 4)
        + hole;
    sent := head + Gather(vector);
    Assembled(a, hole, head, Gather(vector));
  }

  lemma OfArgs(a: Args)
    ensures Gather([]) + a.filename + [0] + a.flowdir + [0] + a.isotime + [0] + a.ident + [0] == Strings(a)
    ensures Unaligned(a) == FIXED + (|a.filename| + 1) + (|a.flowdir| + 1) + (|a.isotime| + 1) + (|a.ident| + 1)
    ensures Align(Unaligned(a)) == if Unaligned(a) % 4 == 0 then 0 else 4 - Unaligned(a) % 4
    ensures Total(a) == Unaligned(a) + Align(Unaligned(a)) && Strings(a) + [] == Strings(a)
  {
  }

  lemma Assembled(a: Args, hole: seq<byte>, head: seq<byte>, tail: seq<byte>)
    requires |hole| == 4 && tail == Strings(a) + LE(Unaligned(a) % 4, 8)[..Align(Unaligned(a))]
    requires head == LE(PRIVMSG_LAUNCH, 2) + LE(Total(a) % 0x1_0000, 2) + LE(a.timeslot, 8) + LE(|a.filename| + 1, 4)
      + LE(|a.flowdir| + 1, 4) + LE(|a.isotime| + 1, 4) + LE(|a.ident| + 1, 4) + LE(Align(Unaligned(a)), 4) + hole
    ensures head + tail == Encode(a, hole)
  {
    hide LE, Strings;
    assert head == Fixed(Total(a) % 0x1_0000, a, hole);
    assert head + (Strings(a) + LE(Unaligned(a) % 4, 8)[..Align(Unaligned(a))]) == head + Strings(a)
      + LE(Unaligned(a) % 4, 8)[..Align(Unaligned(a))];
  }

  // launcher_args_t as it is: places in the message.
  datatype Places = Places(timeslot: nat, filename: nat, flowdir: nat, isotime: nat, ident: nat)

  // The strings at these places.
  function ArgsAt(m: seq<byte>, p: Places): Args
    requires p.filename <= |m| && p.flowdir <= |m| && p.isotime <= |m| && p.ident <= |m|
  {
    Args(p.timeslot, CString(m[p.filename..]), CString(m[p.flowdir..]), CString(m[p.isotime..]), CString(m[p.ident..]))
  }

  lemma {:induction false} CutAtZero(s: seq<byte>, n: nat)
    requires n < |s| && s[n] == 0
    ensures CString(s) == CString(s[..n])
  {
    if n != 0 && s[0] != 0 {
      assert s[..n][1..] == s[1..][..n - 1];
      CutAtZero(s[1..], n - 1);
    }
  }

  // A string of `n - 1` bytes in a message that was given its zero.
  lemma FieldAt(m: seq<byte>, m': seq<byte>, p: nat, n: nat)
    requires 1 <= n && p + n <= |m| == |m'| && m'[p + n - 1] == 0 && m'[p..p + n - 1] == m[p..p + n - 1]
    ensures CString(m'[p..]) == CString(m[p..p + n - 1])
  {
    CutAtZero(m'[p..], n - 1);
    assert m'[p..][..n - 1] == m'[p..p + n - 1];
  }

  // processMessage; no places are returned for a message that is too short.
  method ProcessMessage(message: array<byte>) returns (args: Option<Places>)
    requires FIXED <= message.Length && (Needed(message[..]) <= Length(message[..]) ==> Fits(message[..]))
    modifies message
    ensures args.None? <==> Decode(old(message[..])).None?
    ensures args.None? ==> message[..] == old(message[..])
    ensures args.Some? ==>
      && args.value.filename <= message.Length && args.value.flowdir <= message.Length
      && args.value.isotime <= message.Length && args.value.ident <= message.Length
      && Decode(old(message[..])) == Some(ArgsAt(message[..], args.value))
  {
    hide *;
    FixedSize();
    ghost var m := message[..];
    var timeslot := FromLE(message[4..12]);
    var lenFilename, lenFlowdir, lenIsotime, lenIdent, lenAlign :=
      FromLE(message[12..16]), FromLE(message[16..20]), FromLE(message[20..24]), FromLE(message[24..28]),
        FromLE(message[28..32]);
    Header(m, timeslot, lenFilename, lenFlowdir, lenIsotime, lenIdent, lenAlign);
    var len := FIXED + (lenFilename + lenFlowdir + lenIsotime + lenIdent + lenAlign) % TWO32;
    if U16(message[2], message[3]) < len {
      return None;
    }
    var filename := FIXED;
    var flowdir := filename + lenFilename;
    var isotime := flowdir + lenFlowdir;
    var ident := isotime + lenIsotime;
    var places := Places(timeslot, filename, flowdir, isotime, ident);
    SetZeros(message, places, lenIdent);
    Terminated(m, message[..], places, lenIdent);
    args := Some(places);
  }

  lemma FixedSize()
    ensures FIXED == 36
  {
  }

  // The strings get their zeros.
  method SetZeros(message: array<byte>, p: Places, n: nat)
    requires 1 <= n && 0 < p.flowdir < p.isotime < p.ident && p.ident + n <= message.Length
    modifies message
    ensures message[..] == old(message[..])[p.flowdir - 1 := 0][p.isotime - 1 := 0][p.ident - 1 := 0][p.ident
      + n - 1 := 0]
  {
    message[p.flowdir - 1] := 0;
    message[p.isotime - 1] := 0;
    message[p.ident - 1] := 0;
    message[p.ident + n - 1] := 0;
  }

  // The strings of a message that was given its zeros.
  lemma Terminated(m: seq<byte>, m': seq<byte>, p: Places, n: nat)
    requires 1 <= n && FIXED <= p.filename < p.flowdir < p.isotime < p.ident && p.ident + n <= |m|
    requires m' == m[p.flowdir - 1 := 0][p.isotime - 1 := 0][p.ident - 1 := 0][p.ident + n - 1 := 0]
    ensures ArgsAt(m', p) == Args(p.timeslot, CString(m[p.filename..p.flowdir - 1]),
      CString(m[p.flowdir..p.isotime - 1]),
      CString(m[p.isotime..p.ident - 1]), CString(m[p.ident..p.ident + n - 1]))
  {
    hide CString;
    FieldAt(m, m', p.filename, p.flowdir - p.filename);
    FieldAt(m, m', p.flowdir, p.isotime - p.flowdir);
    FieldAt(m, m', p.isotime, p.ident - p.isotime);
    FieldAt(m, m', p.ident, n);
  }

  lemma Header(m: seq<byte>, slot: nat, f: nat, d: nat, t: nat, i: nat, a: nat)
    requires FIXED <= |m| && slot == FromLE(m[4..12]) && (Needed(m) <= Length(m) ==> Fits(m))
    requires f == FromLE(m[12..16]) && d == FromLE(m[16..20]) && t == FromLE(m[20..24]) && i == FromLE(m[24..28])
      && a == FromLE(m[28..32])
    ensures 36 == FIXED <= |m| && TWO32 == 0x1_0000_0000 && U16(m[2], m[3]) == Length(m)
    ensures FIXED + (f + d + t + i + a) % TWO32 <= U16(m[2], m[3]) ==>
      1 <= f && 1 <= d && 1 <= t && 1 <= i && FIXED + f + d + t + i <= |m|
    ensures Decode(m) == var p, q, r := FIXED + f, FIXED + f + d, FIXED + f + d + t;
      if U16(m[2], m[3]) < FIXED + (f + d + t + i + a) % TWO32 then None
      else Some(Args(slot, CString(m[FIXED..p - 1]), CString(m[p..q - 1]), CString(m[q..r - 1]),
        CString(m[r..r + i - 1])))
  {
    hide FromLE, CString;
    assert Len(m, 0) == f && Len(m, 1) == d && Len(m, 2) == t && Len(m, 3) == i && Len(m, 4) == a;
  }

  // All messages one after the other.
  function EncodeAll(xs: seq<Args>, hole: seq<byte>): seq<byte>
    requires |hole| == 4
  {
    if xs == [] then [] else Encode(xs[0], hole) + EncodeAll(xs[1..], hole)
  }

  function FramesOf(xs: seq<Args>, hole: seq<byte>): seq<Frame>
    requires |hole| == 4
  {
    if xs == [] then [] else [Frame(PRIVMSG_LAUNCH, Encode(xs[0], hole))] + FramesOf(xs[1..], hole)
  }

  lemma {:induction false} ParseAll(xs: seq<Args>, hole: seq<byte>)
    requires |hole| == 4 && forall x :: x in xs ==> IsArgs(x) && Total(x) <= MAXMSGSIZE
    ensures Parse(EncodeAll(xs, hole)) == Parsed(FramesOf(xs, hole), [], false)
    ensures Deliver(FramesOf(xs, hole)) == FramesOf(xs, hole) && !HasExit(FramesOf(xs, hole))
  {
    if xs != [] {
      hide Encode, Parse;
      var m := Encode(xs[0], hole);
      OneFrame(xs[0], hole);
      ParseAll(xs[1..], hole);
      ParseConcat(m, EncodeAll(xs[1..], hole));
      assert [] + EncodeAll(xs[1..], hole) == EncodeAll(xs[1..], hole);
    }
  }

  // Whatever is sent is passed on and understood, however the pipe cuts it.
  lemma EverythingArrives(xs: seq<Args>, hole: seq<byte>, rs: seq<Read>, i: nat)
    requires |hole| == 4 && (forall x :: x in xs ==> IsArgs(x) && Total(x) <= MAXMSGSIZE)
    requires Stream(rs) == EncodeAll(xs, hole) && Unharmed(rs, []) && i < |xs|
    ensures var fs := Session(rs, []);
      && |fs| == |xs| && FIXED <= |fs[i].bytes| && Length(fs[i].bytes) == |fs[i].bytes|
      && Fits(fs[i].bytes) && Decode(fs[i].bytes) == Some(xs[i])
  {
    hide *;
    ParseAll(xs, hole);
    assert [] + Stream(rs) == Stream(rs);
    NothingYet();
    CutsDoNotMatter(rs, []);
    FrameAt(xs, hole, i);
    assert xs[i] in xs;
    RoundTrip(xs[i], hole);
  }

  lemma NothingYet()
    ensures Parse([]) == Parsed([], [], false)
  {
  }

  lemma {:induction false} FrameAt(xs: seq<Args>, hole: seq<byte>, i: nat)
    requires |hole| == 4 && i < |xs|
    ensures |FramesOf(xs, hole)| == |xs| && FramesOf(xs, hole)[i] == Frame(PRIVMSG_LAUNCH, Encode(xs[i], hole))
    decreases |xs|
  {
    if 1 < |xs| {
      FrameAt(xs[1..], hole, if i == 0 then 0 else i - 1);
    }
  }
}
