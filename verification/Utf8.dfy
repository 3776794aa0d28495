/**
 The table-driven check of UTF-8 in util.c, against the grammar in section 4
 of RFC 3629.
 */
module Utf8 {

  type byte = x: int | 0 <= x < 256

  const UTF8_ACCEPT: nat := 0
  const UTF8_REJECT: nat := 1

  // utf8d: 256 byte classes, and a row of 16 next states for each of 9 states.
  function Utf8d(i: nat): nat
    requires i < 400
  {
    if i < 0x80 then 0
    else if i < 0x90 then 1
    else if i < 0xa0 then 9
    else if i < 0xc0 then 7
    else if i < 0xc2 then 8
    else if i < 0xe0 then 2
    else if i < 0xf0 then RowE()[i - 0xe0]
    else if i < 0x100 then RowF()[i - 0xf0]
    else RowOf((i - 0x100) / 16)[(i - 0x100) % 16]
  }

  // e0..ef and f0..ff.
  function RowE(): (r: seq<nat>)
    ensures |r| == 16
  {
    [0xa, 3, 3, 3, 3, 3, 3, 3, 3, 3, 3, 3, 3, 4, 3, 3]
  }

  function RowF(): (r: seq<nat>)
    ensures |r| == 16
  {
    [0xb, 6, 6, 6, 5, 8, 8, 8, 8, 8, 8, 8, 8, 8, 8, 8]
  }

  // s0..s8.
  function RowOf(q: nat): (r: seq<nat>)
    ensures |r| == 16
  {
    if q == 0 then [0, 1, 2, 3, 5, 8, 7, 1, 1, 1, 4, 6, 1, 1, 1, 1]
    else if q == 1 then [1, 1, 1, 1, 1, 1, 1, 1, 1, 1, 1, 1, 1, 1, 1, 1]
    else if q == 2 then [1, 0, 1, 1, 1, 1, 1, 0, 1, 0, 1, 1, 1, 1, 1, 1]
    else if q == 3 then [1, 2, 1, 1, 1, 1, 1, 2, 1, 2, 1, 1, 1, 1, 1, 1]
    else if q == 4 then [1, 1, 1, 1, 1, 1, 1, 2, 1, 1, 1, 1, 1, 1, 1, 1]
    else if q == 5 then [1, 2, 1, 1, 1, 1, 1, 1, 1, 2, 1, 1, 1, 1, 1, 1]
    else if q == 6 then [1, 1, 1, 1, 1, 1, 1, 3, 1, 3, 1, 1, 1, 1, 1, 1]
    else if q == 7 then [1, 3, 1, 1, 1, 1, 1, 3, 1, 3, 1, 1, 1, 1, 1, 1]
    else [1, 3, 1, 1, 1, 1, 1, 1, 1, 1, 1, 1, 1, 1, 1, 1]
  }

  type State = q: nat | q < 9

  function Next(q: State, b: byte): State {
    TableIsClosed(q, b);
    Utf8d(256 + q * 16 + Utf8d(b))
  }

  lemma TableIsClosed(q: State, b: byte)
    ensures Utf8d(b) < 12 && Utf8d(256 + q * 16 + Utf8d(b)) < 9
  {
    ByteClasses(b);
    var t := Utf8d(b);
    StateRows(q, t);
  }

  lemma ByteClasses(b: byte)
    ensures Utf8d(b) == Class(b) < 12
  {
  }

  // The byte classes, by ranges.
  function Class(b: byte): nat {
    if b <= 0x7f then 0
    else if b <= 0x8f then 1
    else if b <= 0x9f then 9
    else if b <= 0xbf then 7
    else if b <= 0xc1 then 8
    else if b <= 0xdf then 2
    else if b == 0xe0 then 0xa
    else if b == 0xed then 4
    else if b <= 0xef then 3
    else if b == 0xf0 then 0xb
    else if b <= 0xf3 then 6
    else if b == 0xf4 then 5
    else 8
  }

  // The rows, by state.
  function Row(q: State, t: nat): State
    requires t < 12
  {
    if q == 0 then
      if t == 0 then 0 else if t == 2 then 2 else if t == 3 then 3 else if t == 4 then 5 else if t == 5 then 8
      else if t == 6 then 7 else if t == 0xa then 4 else if t == 0xb then 6 else 1
    else if q == 1 then 1
    else
      var tail := t == 1 || t == 7 || t == 9;
      if q == 2 then if tail then 0 else 1
      else if q == 3 then if tail then 2 else 1
      else if q == 4 then if t == 7 then 2 else 1
      else if q == 5 then if t == 1 || t == 9 then 2 else 1
      else if q == 6 then if t == 7 || t == 9 then 3 else 1
      else if q == 7 then if tail then 3 else 1
      else if t == 1 then 3 else 1
  }

  lemma StateRows(q: State, t: nat)
    requires t < 12
    ensures Utf8d(256 + q * 16 + t) == Row(q, t)
  {
    assert (q * 16 + t) / 16 == q && (q * 16 + t) % 16 == t;
  }

  function Run(q: State, s: seq<byte>): State
    decreases |s|
  {
    if s == [] then q else Run(Next(q, s[0]), s[1..])
  }

  // RFC 3629, section 4.
  predicate Tail(b: byte) {
    0x80 <= b <= 0xbf
  }

  predicate IsChar(s: seq<byte>) {
    || (|s| == 1 && s[0] <= 0x7f)
    || (|s| == 2 && 0xc2 <= s[0] <= 0xdf && Tail(s[1]))
    || (|s| == 3 && Tail(s[2]) &&
        ((s[0] == 0xe0 && 0xa0 <= s[1] <= 0xbf) || (0xe1 <= s[0] <= 0xec && Tail(s[1]))
        || (s[0] == 0xed && 0x80 <= s[1] <= 0x9f) || (0xee <= s[0] <= 0xef && Tail(s[1]))))
    || (|s| == 4 && Tail(s[2]) && Tail(s[3]) &&
        ((s[0] == 0xf0 && 0x90 <= s[1] <= 0xbf) || (0xf1 <= s[0] <= 0xf3 && Tail(s[1]))
          || (s[0] == 0xf4 && 0x80 <= s[1] <= 0x8f)))
  }

  predicate WellFormed(s: seq<byte>)
    decreases |s|
  {
    s == [] || exists n {:trigger s[..n]} :: 1 <= n <= |s| && n <= 4 && IsChar(s[..n]) && WellFormed(s[n..])
  }

  // What may follow in a state.
  predicate Continues(q: State, s: seq<byte>) {
    if q == 0 then WellFormed(s)
    else if q == 1 then false
    else if q == 2 then 1 <= |s| && Tail(s[0]) && WellFormed(s[1..])
    else if q == 3 then 2 <= |s| && Tail(s[0]) && Tail(s[1]) && WellFormed(s[2..])
    else if q == 4 then 2 <= |s| && 0xa0 <= s[0] <= 0xbf && Tail(s[1]) && WellFormed(s[2..])
    else if q == 5 then 2 <= |s| && 0x80 <= s[0] <= 0x9f && Tail(s[1]) && WellFormed(s[2..])
    else if q == 6 then 3 <= |s| && 0x90 <= s[0] <= 0xbf && Tail(s[1]) && Tail(s[2]) && WellFormed(s[3..])
    else if q == 7 then 3 <= |s| && Tail(s[0]) && Tail(s[1]) && Tail(s[2]) && WellFormed(s[3..])
    else 3 <= |s| && 0x80 <= s[0] <= 0x8f && Tail(s[1]) && Tail(s[2]) && WellFormed(s[3..])
  }

  // How many bytes the character takes that begins with `b`; none does after 5.
  function CharLen(b: byte): nat {
    if b <= 0x7f then 1 else if b < 0xc2 then 5 else if b <= 0xdf then 2 else if b <= 0xef then 3
      else if b <= 0xf4 then 4 else 5
  }

  lemma CharHasLen(s: seq<byte>)
    requires IsChar(s)
    ensures |s| == CharLen(s[0])
  {
  }

  // The first character of a well-formed string is known by its first byte.
  lemma FirstChar(s: seq<byte>)
    requires s != []
    ensures var n := CharLen(s[0]);
      WellFormed(s) <==> n <= 4 && n <= |s| && IsChar(s[..n]) && WellFormed(s[n..])
  {
    hide IsChar, CharLen;
    if WellFormed(s) {
      var n :| 1 <= n <= |s| && n <= 4 && IsChar(s[..n]) && WellFormed(s[n..]);
      CharHasLen(s[..n]);
    }
  }

  // One step of the machine is one byte of the grammar.
  lemma Step(q: State, s: seq<byte>)
    requires s != []
    ensures Continues(q, s) <==> Continues(Row(q, Class(s[0])), s[1..])
  {
    hide WellFormed;
    if q == 0 {
      StartStep(s);
    } else if 3 <= |s| {
      assert s[1..][1..] == s[2..] && s[1..][2..] == s[3..];
    } else if 2 <= |s| {
      assert s[1..][1..] == s[2..];
    }
  }

  lemma StartStep(s: seq<byte>)
    requires s != []
    ensures WellFormed(s) <==> Continues(Row(0, Class(s[0])), s[1..])
  {
    hide WellFormed;
    FirstChar(s);
    var n := CharLen(s[0]);
    if n <= 4 && n <= |s| {
      assert s[1..][n - 1..] == s[n..];
    }
  }

  lemma {:induction false} RunContinues(q: State, s: seq<byte>)
    ensures Run(q, s) == UTF8_ACCEPT <==> Continues(q, s)
    decreases |s|
  {
    hide Next, Row, Class, Continues;
    if s == [] {
      EmptyIsWellFormed(q);
    } else {
      NextIsRow(q, s[0]);
      Step(q, s);
      RunContinues(Next(q, s[0]), s[1..]);
    }
  }

  lemma NextIsRow(q: State, b: byte)
    ensures Class(b) < 12 && Next(q, b) == Row(q, Class(b))
  {
    ByteClasses(b);
    StateRows(q, Class(b));
  }

  lemma EmptyIsWellFormed(q: State)
    ensures Continues(q, []) <==> q == UTF8_ACCEPT
  {
  }

  // The shortest way on from a state.
  function Completion(q: State): seq<byte>
    requires q != UTF8_REJECT
  {
    if q == 0 then [] else if q == 2 then [0x80] else if q == 3 || q == 5 then [0x80, 0x80]
      else if q == 4 then [0xa0, 0x80]
    else if q == 6 then [0x90, 0x80, 0x80] else [0x80, 0x80, 0x80]
  }

  lemma CompletionContinues(q: State)
    requires q != UTF8_REJECT
    ensures Continues(q, Completion(q))
  {
    var c := Completion(q);
    assert c[|c|..] == [] && WellFormed([]);
  }

  // Validating in pieces.
  lemma {:induction false} Pieces(q: State, a: seq<byte>, b: seq<byte>)
    ensures Run(q, a + b) == Run(Run(q, a), b)
    decreases |a|
  {
    if a == [] {
      assert a + b == b;
    } else {
      assert (a + b)[1..] == a[1..] + b;
      Pieces(Next(q, a[0]), a[1..], b);
    }
  }

  // What the final state says about a string.
  lemma Verdict(s: seq<byte>)
    ensures Run(UTF8_ACCEPT, s) == UTF8_ACCEPT <==> WellFormed(s)
    ensures Run(UTF8_ACCEPT, s) == UTF8_REJECT <==> forall t :: !WellFormed(s + t)
    ensures Run(UTF8_ACCEPT, s) !in {UTF8_ACCEPT, UTF8_REJECT} <==> !WellFormed(s) && exists t :: WellFormed(s + t)
  {
    var q := Run(UTF8_ACCEPT, s);
    RunContinues(0, s);
    forall t
      ensures WellFormed(s + t) <==> Continues(q, t)
    {
      RunContinues(0, s + t);
      Pieces(0, s, t);
      RunContinues(q, t);
    }
    if q != UTF8_REJECT {
      CompletionContinues(q);
      assert WellFormed(s + Completion(q));
    }
  }

  lemma {:induction false} RejectStays(s: seq<byte>)
    ensures Run(UTF8_REJECT, s) == UTF8_REJECT
  {
    if s != [] {
      NextIsRow(UTF8_REJECT, s[0]);
      RejectStays(s[1..]);
    }
  }

  // The state that is carried from one piece to the next.
  class Validator {
    var state: State

    constructor ()
      ensures state == UTF8_ACCEPT
    {
      state := UTF8_ACCEPT;
    }

    // validate_utf8.
    method Validate(str: seq<byte>) returns (r: nat)
      modifies this
      ensures r == state == Run(old(state), str)
    {
      hide Next;
      assert str[0..] == str;
      for i := 0 to |str|
        invariant Run(old(state), str) == Run(state, str[i..])
      {
        assert str[i..][1..] == str[i + 1..];
        state := Next(state, str[i]);
        if state == UTF8_REJECT {
          RejectStays(str[i + 1..]);
          break;
        }
      }
      r := state;
    }
  }
}
