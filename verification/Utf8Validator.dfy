/**
 The table-driven UTF-8 automaton of `websocketpp/utf8_validator.hpp`, proved
 against the grammar of section 4 of RFC 3629 and the encoding of section 3.
 */
module Utf8Validator {
  import opened Common

  type Byte = b: int | 0 <= b < 256

  const ACCEPT: nat := 0
  const REJECT: nat := 1

  // ---------- The automaton ----------

  /** The lookup table, sixteen entries to a row: 256 byte classes, then nine states. */
  const TABLE: seq<seq<nat>> := [
    [0, 0, 0, 0, 0, 0, 0, 0, 0, 0, 0, 0, 0, 0, 0, 0],
    [0, 0, 0, 0, 0, 0, 0, 0, 0, 0, 0, 0, 0, 0, 0, 0],
    [0, 0, 0, 0, 0, 0, 0, 0, 0, 0, 0, 0, 0, 0, 0, 0],
    [0, 0, 0, 0, 0, 0, 0, 0, 0, 0, 0, 0, 0, 0, 0, 0],
    [0, 0, 0, 0, 0, 0, 0, 0, 0, 0, 0, 0, 0, 0, 0, 0],
    [0, 0, 0, 0, 0, 0, 0, 0, 0, 0, 0, 0, 0, 0, 0, 0],
    [0, 0, 0, 0, 0, 0, 0, 0, 0, 0, 0, 0, 0, 0, 0, 0],
    [0, 0, 0, 0, 0, 0, 0, 0, 0, 0, 0, 0, 0, 0, 0, 0],
    [1, 1, 1, 1, 1, 1, 1, 1, 1, 1, 1, 1, 1, 1, 1, 1],
    [9, 9, 9, 9, 9, 9, 9, 9, 9, 9, 9, 9, 9, 9, 9, 9],
    [7, 7, 7, 7, 7, 7, 7, 7, 7, 7, 7, 7, 7, 7, 7, 7],
    [7, 7, 7, 7, 7, 7, 7, 7, 7, 7, 7, 7, 7, 7, 7, 7],
    [8, 8, 2, 2, 2, 2, 2, 2, 2, 2, 2, 2, 2, 2, 2, 2],
    [2, 2, 2, 2, 2, 2, 2, 2, 2, 2, 2, 2, 2, 2, 2, 2],
    [0xA, 3, 3, 3, 3, 3, 3, 3, 3, 3, 3, 3, 3, 4, 3, 3],
    [0xB, 6, 6, 6, 5, 8, 8, 8, 8, 8, 8, 8, 8, 8, 8, 8],
    [0, 1, 2, 3, 5, 8, 7, 1, 1, 1, 4, 6, 1, 1, 1, 1],
    [1, 1, 1, 1, 1, 1, 1, 1, 1, 1, 1, 1, 1, 1, 1, 1],
    [1, 0, 1, 1, 1, 1, 1, 0, 1, 0, 1, 1, 1, 1, 1, 1],
    [1, 2, 1, 1, 1, 1, 1, 2, 1, 2, 1, 1, 1, 1, 1, 1],
    [1, 1, 1, 1, 1, 1, 1, 2, 1, 1, 1, 1, 1, 1, 1, 1],
    [1, 2, 1, 1, 1, 1, 1, 1, 1, 2, 1, 1, 1, 1, 1, 1],
    [1, 1, 1, 1, 1, 1, 1, 3, 1, 3, 1, 1, 1, 1, 1, 1],
    [1, 3, 1, 1, 1, 1, 1, 3, 1, 3, 1, 1, 1, 1, 1, 1],
    [1, 3, 1, 1, 1, 1, 1, 1, 1, 1, 1, 1, 1, 1, 1, 1]]

  /** `utf8d[i]`. */
  function Utf8d(i: nat): nat
    requires i < 400
  {
    var row := TABLE[i / 16];
    row[i % 16]
  }

  /** `(0xff >> type) & byte`: the low `8 - type` bits. */
  function LowBits(b: Byte, kind: nat): nat {
    if kind >= 8 then 0 else b % Pow2(8 - kind)
  }

  /** The new codepoint. `x | y` is `x + y` here, since the shifted value ends in six zero bits. */
  function NextCode(q: nat, c: nat, b: Byte): nat {
    if q != ACCEPT then (c * 64) % 0x1_0000_0000 + b % 64 else LowBits(b, ByteClass(b))
  }

  // ---------- What the table says ----------

  function ByteClass(b: Byte): nat {
    if b <= 0x7F then 0
    else if b <= 0x8F then 1
    else if b <= 0x9F then 9
    else if b <= 0xBF then 7
    else if b <= 0xC1 then 8
    else if b <= 0xDF then 2
    else if b == 0xE0 then 0xA
    else if b <= 0xEC then 3
    else if b == 0xED then 4
    else if b <= 0xEF then 3
    else if b == 0xF0 then 0xB
    else if b <= 0xF3 then 6
    else if b == 0xF4 then 5
    else 8
  }

  lemma ClassOfAscii(b: Byte)
    requires b < 0x80
    ensures Utf8d(b) == 0
  {}

  lemma ClassOfTail(b: Byte)
    requires 0x80 <= b < 0xC0
    ensures Utf8d(b) == ByteClass(b)
  {}

  lemma ClassOfLead(b: Byte)
    requires 0xC0 <= b
    ensures Utf8d(b) == ByteClass(b)
  {}

  lemma ClassOfByte(b: Byte)
    ensures Utf8d(b) == ByteClass(b) && Utf8d(b) < 12
  {
    if b < 0x80 { ClassOfAscii(b); } else if b < 0xC0 { ClassOfTail(b); } else { ClassOfLead(b); }
  }

  function Goto(q: nat, k: nat): nat {
    match q
    case 0 =>
      (match k case 0 => 0 case 2 => 2 case 3 => 3 case 4 => 5 case 5 => 8 case 6 => 7 case 10 => 4 case 11 => 6 case _ => 1)
    case 2 => if k == 1 || k == 7 || k == 9 then 0 else 1
    case 3 => if k == 1 || k == 7 || k == 9 then 2 else 1
    case 4 => if k == 7 then 2 else 1
    case 5 => if k == 1 || k == 9 then 2 else 1
    case 6 => if k == 7 || k == 9 then 3 else 1
    case 7 => if k == 1 || k == 7 || k == 9 then 3 else 1
    case 8 => if k == 1 then 3 else 1
    case _ => 1
  }

  lemma LowStateRow(q: nat, k: nat)
    requires q < 4 && k < 12
    ensures var row := TABLE[16 + q]; |row| == 16 && row[k] == Goto(q, k)
  {}

  lemma HighStateRow(q: nat, k: nat)
    requires 4 <= q < 9 && k < 12
    ensures var row := TABLE[16 + q]; |row| == 16 && row[k] == Goto(q, k)
  {}

  lemma StateRow(q: nat, k: nat)
    requires q < 9 && k < 12
    ensures Utf8d(256 + q * 16 + k) == Goto(q, k)
  {
    assert (256 + q * 16 + k) / 16 == 16 + q && (256 + q * 16 + k) % 16 == k;
    if q < 4 { LowStateRow(q, k); } else { HighStateRow(q, k); }
  }

  /** The transition the table describes. */
  function NextState(q: nat, b: Byte): (q': nat)
    requires q < 9
    ensures q' < 9
  {
    Goto(q, ByteClass(b))
  }

  /** Two lookups in the table make one transition, and never leave the table. */
  lemma TableStep(q: nat, b: Byte)
    requires q < 9
    ensures Utf8d(b) == ByteClass(b) && 256 + q * 16 + Utf8d(b) < 400
    ensures Utf8d(256 + q * 16 + Utf8d(b)) == NextState(q, b)
  {
    ClassOfByte(b);
    StateRow(q, Utf8d(b));
  }

  /** Runs of the automaton. */
  function FinalState(q: nat, s: seq<Byte>): (q': nat)
    requires q < 9
    ensures q' < 9
    decreases s
  {
    if s == [] then q else FinalState(NextState(q, s[0]), s[1..])
  }

  function FinalCode(q: nat, c: nat, s: seq<Byte>): nat
    requires q < 9
    decreases s
  {
    if s == [] then c else FinalCode(NextState(q, s[0]), NextCode(q, c, s[0]), s[1..])
  }

  /** The codepoint at every moment the automaton is back in the accept state. */
  function Emitted(q: nat, c: nat, s: seq<Byte>): (cs: seq<nat>)
    requires q < 9
    decreases s
  {
    if s == [] then []
    else
      var q', c' := NextState(q, s[0]), NextCode(q, c, s[0]);
      (if q' == ACCEPT then [c'] else []) + Emitted(q', c', s[1..])
  }

  /** When the automaton ends in the accept state, the codepoint is the last value it has shown. */
  lemma {:induction false} LastEmitted(q: nat, c: nat, s: seq<Byte>)
    requires q < 9 && s != [] && FinalState(q, s) == ACCEPT
    ensures var cs := Emitted(q, c, s); cs != [] && cs[|cs| - 1] == FinalCode(q, c, s)
    decreases s
  {
    if s[1..] != [] { LastEmitted(NextState(q, s[0]), NextCode(q, c, s[0]), s[1..]); }
  }

  lemma {:induction false} FinalStateConcat(q: nat, s: seq<Byte>, r: seq<Byte>)
    requires q < 9
    ensures FinalState(q, s + r) == FinalState(FinalState(q, s), r)
    decreases s
  {
    if s == [] {
      assert s + r == r;
    } else {
      assert (s + r)[1..] == s[1..] + r;
      FinalStateConcat(NextState(q, s[0]), s[1..], r);
    }
  }

  lemma {:induction false} FinalCodeConcat(q: nat, c: nat, s: seq<Byte>, r: seq<Byte>)
    requires q < 9
    ensures FinalCode(q, c, s + r) == FinalCode(FinalState(q, s), FinalCode(q, c, s), r)
    decreases s
  {
    if s == [] {
      assert s + r == r;
    } else {
      assert (s + r)[1..] == s[1..] + r;
      FinalCodeConcat(NextState(q, s[0]), NextCode(q, c, s[0]), s[1..], r);
    }
  }

  /** Once rejected, always rejected. */
  lemma {:induction false} RejectAbsorbs(s: seq<Byte>)
    ensures FinalState(REJECT, s) == REJECT
  {
    if s != [] {
      RejectAbsorbs(s[1..]);
    }
  }

  // ---------- Section 4 of RFC 3629 ----------

  predicate Tail(b: Byte) { 0x80 <= b <= 0xBF }

  predicate Utf8Char1(s: seq<Byte>) {
    |s| == 1 && s[0] <= 0x7F
  }

  predicate Utf8Char2(s: seq<Byte>) {
    |s| == 2 && 0xC2 <= s[0] <= 0xDF && Tail(s[1])
  }

  predicate Utf8Char3(s: seq<Byte>) {
    |s| == 3 && Tail(s[2]) && (
      || (s[0] == 0xE0 && 0xA0 <= s[1] <= 0xBF)
      || (0xE1 <= s[0] <= 0xEC && Tail(s[1]))
      || (s[0] == 0xED && 0x80 <= s[1] <= 0x9F)
      || (0xEE <= s[0] <= 0xEF && Tail(s[1])))
  }

  predicate Utf8Char4(s: seq<Byte>) {
    |s| == 4 && Tail(s[2]) && Tail(s[3]) && (
      || (s[0] == 0xF0 && 0x90 <= s[1] <= 0xBF)
      || (0xF1 <= s[0] <= 0xF3 && Tail(s[1]))
      || (s[0] == 0xF4 && 0x80 <= s[1] <= 0x8F))
  }

  predicate Utf8Char(s: seq<Byte>) {
    Utf8Char1(s) || Utf8Char2(s) || Utf8Char3(s) || Utf8Char4(s)
  }

  /** UTF8-octets = *( UTF8-char ). */
  predicate WellFormed(s: seq<Byte>) {
    s == [] || exists n :: 1 <= n <= 4 && n <= |s| && Utf8Char(s[..n]) && WellFormed(s[n..])
  }

  /** How many bytes the first character of a well-formed string has, from its first byte. */
  function CharLength(b: Byte): (n: nat)
    ensures 1 <= n <= 4
  {
    if b <= 0x7F then 1 else if b <= 0xDF then 2 else if b <= 0xEF then 3 else 4
  }

  lemma WellFormedSplit(s: seq<Byte>)
    ensures WellFormed(s) <==> s == [] || var n := CharLength(s[0]); n <= |s| && Utf8Char(s[..n]) && WellFormed(s[n..])
  {
    if s != [] {
      var n := CharLength(s[0]);
      if WellFormed(s) {
        var m :| 1 <= m <= 4 && m <= |s| && Utf8Char(s[..m]) && WellFormed(s[m..]);
        FirstByteTells(s[..m]);
      }
    }
  }

  lemma FirstByteTells(c: seq<Byte>)
    requires Utf8Char(c)
    ensures c != [] && CharLength(c[0]) == |c|
  {}

  // ---------- The automaton against the grammar ----------

  /** What must follow for the input to be well formed, state by state. */
  predicate Completes(q: nat, s: seq<Byte>)
    requires q < 9
    decreases q != 0, q == 6 || q == 7 || q == 8, q != 2
  {
    match q
    case 0 => WellFormed(s)
    case 1 => false
    case 2 => s != [] && Tail(s[0]) && WellFormed(s[1..])
    case 3 => s != [] && Tail(s[0]) && Completes(2, s[1..])
    case 4 => s != [] && 0xA0 <= s[0] <= 0xBF && Completes(2, s[1..])
    case 5 => s != [] && 0x80 <= s[0] <= 0x9F && Completes(2, s[1..])
    case 6 => s != [] && 0x90 <= s[0] <= 0xBF && Completes(3, s[1..])
    case 7 => s != [] && Tail(s[0]) && Completes(3, s[1..])
    case _ => s != [] && 0x80 <= s[0] <= 0x8F && Completes(3, s[1..])
  }

  /** Reading one byte moves from one obligation to the next, in both directions. */
  lemma CompletesStep(q: nat, s: seq<Byte>)
    requires q < 9 && s != []
    ensures Completes(q, s) <==> Completes(NextState(q, s[0]), s[1..])
  {
    if q == 0 {
      LeadStep(s);
    }
  }

  lemma TwoTails(s: seq<Byte>)
    ensures Completes(3, s) <==> |s| >= 2 && Tail(s[0]) && Tail(s[1]) && WellFormed(s[2..])
  {
    if |s| >= 2 { assert s[1..][1..] == s[2..]; }
  }

  lemma LeadStep(s: seq<Byte>)
    requires s != []
    ensures WellFormed(s) <==> Completes(Goto(0, ByteClass(s[0])), s[1..])
  {
    WellFormedSplit(s);
    var n, r := CharLength(s[0]), s[1..];
    if n == 1 {
      assert s[..1] == [s[0]];
    } else if n == 2 {
      if |s| >= 2 { assert s[..2] == [s[0], s[1]] && s[2..] == r[1..]; }
    } else if n == 3 {
      LeadStep3(s);
    } else {
      LeadStep4(s);
    }
  }

  lemma LeadStep3(s: seq<Byte>)
    requires s != [] && CharLength(s[0]) == 3
    ensures |s| >= 3 && Utf8Char(s[..3]) && WellFormed(s[3..]) <==> Completes(Goto(0, ByteClass(s[0])), s[1..])
  {
    TwoTails(s[1..]);
    if |s| >= 3 { assert s[..3] == [s[0], s[1], s[2]] && s[3..] == s[1..][1..][1..]; }
  }

  lemma LeadStep4(s: seq<Byte>)
    requires s != [] && CharLength(s[0]) == 4
    ensures |s| >= 4 && Utf8Char(s[..4]) && WellFormed(s[4..]) <==> Completes(Goto(0, ByteClass(s[0])), s[1..])
  {
    if |s| >= 2 { TwoTails(s[1..][1..]); }
    if |s| >= 4 { assert s[..4] == [s[0], s[1], s[2], s[3]] && s[4..] == s[1..][1..][2..]; }
  }

  lemma {:induction false} AcceptsCompletes(q: nat, s: seq<Byte>)
    requires q < 9
    ensures FinalState(q, s) == ACCEPT <==> Completes(q, s)
    decreases s
  {
    if s != [] {
      CompletesStep(q, s);
      AcceptsCompletes(NextState(q, s[0]), s[1..]);
    }
  }

  // ---------- Section 3 of RFC 3629 ----------

  predicate Scalar(c: nat) {
    c < 0x11_0000 && !(0xD800 <= c <= 0xDFFF)
  }

  function Encode(c: nat): (s: seq<Byte>)
    requires Scalar(c)
  {
    if c < 0x80 then [c]
    else if c < 0x800 then [0xC0 + c / 64, 0x80 + c % 64]
    else if c < 0x1_0000 then [0xE0 + c / 4096, 0x80 + c / 64 % 64, 0x80 + c % 64]
    else [0xF0 + c / 262144, 0x80 + c / 4096 % 64, 0x80 + c / 64 % 64, 0x80 + c % 64]
  }

  ghost predicate Scalars(cs: seq<nat>) {
    forall i :: 0 <= i < |cs| ==> Scalar(cs[i])
  }

  function EncodeAll(cs: seq<nat>): (s: seq<Byte>)
    requires forall i :: 0 <= i < |cs| ==> Scalar(cs[i])
  {
    if cs == [] then [] else Encode(cs[0]) + EncodeAll(cs[1..])
  }

  /** A byte in the middle of a character, and a byte that ends one. */
  lemma Advance(q: nat, c: nat, b: Byte, r: seq<Byte>, q': nat, c': nat)
    requires q < 9 && NextState(q, b) == q' && NextCode(q, c, b) == c' && q' != ACCEPT
    ensures FinalState(q, [b] + r) == FinalState(q', r) && Emitted(q, c, [b] + r) == Emitted(q', c', r)
  {
    assert ([b] + r)[1..] == r;
    assert Emitted(q, c, [b] + r) == [] + Emitted(q', c', r);
  }

  lemma Finish(q: nat, c: nat, b: Byte, r: seq<Byte>, c': nat)
    requires q < 9 && NextState(q, b) == ACCEPT && NextCode(q, c, b) == c'
    ensures FinalState(q, [b] + r) == FinalState(ACCEPT, r) && Emitted(q, c, [b] + r) == [c'] + Emitted(ACCEPT, c', r)
  {
    assert ([b] + r)[1..] == r;
  }

  /** A tail byte appends six bits. */
  lemma TailCode(q: nat, c: nat, d: nat)
    requires q != ACCEPT && d < 64 && c < 0x1_0000
    ensures NextCode(q, c, 0x80 + d) == c * 64 + d
  {}

  lemma LeadBits(b: Byte)
    ensures b <= 0x7F ==> NextCode(ACCEPT, 0, b) == b
    ensures 0xC2 <= b <= 0xDF ==> NextCode(ACCEPT, 0, b) == b - 0xC0
    ensures 0xE0 <= b <= 0xEF ==> NextCode(ACCEPT, 0, b) == b - 0xE0
    ensures 0xF0 <= b <= 0xF4 ==> NextCode(ACCEPT, 0, b) == b - 0xF0
  {
    assert Pow2(1) == 2 && Pow2(2) == 4;
    assert Pow2(3) == 8 && Pow2(4) == 16;
    assert Pow2(5) == 32 && Pow2(6) == 64;
    assert Pow2(8) == 256 by { assert Pow2(7) == 128; }
  }

  lemma RunChar2(c: nat, c0: nat, r: seq<Byte>)
    requires 0x80 <= c < 0x800
    ensures FinalState(ACCEPT, Encode(c) + r) == FinalState(ACCEPT, r)
    ensures Emitted(ACCEPT, c0, Encode(c) + r) == [c] + Emitted(ACCEPT, c, r)
  {
    var a, b := 0xC0 + c / 64, 0x80 + c % 64;
    assert Encode(c) + r == [a] + ([b] + r);
    LeadBits(a);
    Advance(ACCEPT, c0, a, [b] + r, 2, c / 64);
    TailCode(2, c / 64, c % 64);
    Finish(2, c / 64, b, r, c);
  }

  /** The last two bytes of a character. */
  lemma RunTails(c: nat, r: seq<Byte>)
    requires c < 0x11_0000
    ensures var s := [0x80 + c / 64 % 64] + ([0x80 + c % 64] + r);
      && FinalState(3, s) == FinalState(ACCEPT, r)
      && Emitted(3, c / 4096, s) == [c] + Emitted(ACCEPT, c, r)
  {
    var d, e := 0x80 + c / 64 % 64, 0x80 + c % 64;
    TailCode(3, c / 4096, c / 64 % 64);
    Advance(3, c / 4096, d, [e] + r, 2, c / 64);
    TailCode(2, c / 64, c % 64);
    Finish(2, c / 64, e, r, c);
  }

  lemma Lead3(c: nat)
    requires 0x800 <= c < 0x1_0000 && Scalar(c)
    ensures var q := NextState(ACCEPT, 0xE0 + c / 4096);
      3 <= q <= 5 && NextState(q, 0x80 + c / 64 % 64) == 2
  {
    assert c / 64 == 64 * (c / 4096) + c / 64 % 64;
  }

  lemma RunChar3(c: nat, c0: nat, r: seq<Byte>)
    requires 0x800 <= c < 0x1_0000 && Scalar(c)
    ensures FinalState(ACCEPT, Encode(c) + r) == FinalState(ACCEPT, r)
    ensures Emitted(ACCEPT, c0, Encode(c) + r) == [c] + Emitted(ACCEPT, c, r)
  {
    var a, b, d := 0xE0 + c / 4096, 0x80 + c / 64 % 64, 0x80 + c % 64;
    var q := NextState(ACCEPT, a);
    assert Encode(c) + r == [a] + ([b] + ([d] + r));
    LeadBits(a);
    Lead3(c);
    Advance(ACCEPT, c0, a, [b] + ([d] + r), q, c / 4096);
    RunRest3(c, q, r);
  }

  lemma RunRest3(c: nat, q: nat, r: seq<Byte>)
    requires 0x800 <= c < 0x1_0000 && 3 <= q <= 5 && NextState(q, 0x80 + c / 64 % 64) == 2
    ensures var s := [0x80 + c / 64 % 64] + ([0x80 + c % 64] + r);
      && FinalState(q, s) == FinalState(ACCEPT, r)
      && Emitted(q, c / 4096, s) == [c] + Emitted(ACCEPT, c, r)
  {
    var b, d := 0x80 + c / 64 % 64, 0x80 + c % 64;
    TailCode(q, c / 4096, c / 64 % 64);
    Advance(q, c / 4096, b, [d] + r, 2, c / 64);
    TailCode(2, c / 64, c % 64);
    Finish(2, c / 64, d, r, c);
  }

  lemma Lead4(c: nat)
    requires 0x1_0000 <= c && Scalar(c)
    ensures var q := NextState(ACCEPT, 0xF0 + c / 262144);
      6 <= q <= 8 && NextState(q, 0x80 + c / 4096 % 64) == 3
  {
    assert c / 4096 == 64 * (c / 262144) + c / 4096 % 64;
  }

  lemma RunChar4(c: nat, c0: nat, r: seq<Byte>)
    requires 0x1_0000 <= c && Scalar(c)
    ensures FinalState(ACCEPT, Encode(c) + r) == FinalState(ACCEPT, r)
    ensures Emitted(ACCEPT, c0, Encode(c) + r) == [c] + Emitted(ACCEPT, c, r)
  {
    var a, b, d, e := 0xF0 + c / 262144, 0x80 + c / 4096 % 64, 0x80 + c / 64 % 64, 0x80 + c % 64;
    var q := NextState(ACCEPT, a);
    assert Encode(c) + r == [a] + ([b] + ([d] + ([e] + r)));
    LeadBits(a);
    Lead4(c);
    Advance(ACCEPT, c0, a, [b] + ([d] + ([e] + r)), q, c / 262144);
    RunRest4(c, q, r);
  }

  lemma RunRest4(c: nat, q: nat, r: seq<Byte>)
    requires 0x1_0000 <= c < 0x11_0000 && 6 <= q <= 8 && NextState(q, 0x80 + c / 4096 % 64) == 3
    ensures var s := [0x80 + c / 4096 % 64] + ([0x80 + c / 64 % 64] + ([0x80 + c % 64] + r));
      && FinalState(q, s) == FinalState(ACCEPT, r)
      && Emitted(q, c / 262144, s) == [c] + Emitted(ACCEPT, c, r)
  {
    var b, d, e := 0x80 + c / 4096 % 64, 0x80 + c / 64 % 64, 0x80 + c % 64;
    TailCode(q, c / 262144, c / 4096 % 64);
    Advance(q, c / 262144, b, [d] + ([e] + r), 3, c / 4096);
    RunTails(c, r);
  }

  /** The automaton reads one encoded character back to its scalar value and is in the accept state again. */
  lemma RunChar(c: nat, c0: nat, r: seq<Byte>)
    requires Scalar(c)
    ensures FinalState(ACCEPT, Encode(c) + r) == FinalState(ACCEPT, r)
    ensures Emitted(ACCEPT, c0, Encode(c) + r) == [c] + Emitted(ACCEPT, c, r)
  {
    if c < 0x80 {
      LeadBits(c);
      Finish(ACCEPT, c0, c, r, c);
    } else if c < 0x800 {
      RunChar2(c, c0, r);
    } else if c < 0x1_0000 {
      RunChar3(c, c0, r);
    } else {
      RunChar4(c, c0, r);
    }
  }

  lemma Digits(h: nat, d: nat)
    requires d < 64
    ensures (h * 64 + d) / 64 == h && (h * 64 + d) % 64 == d
  {}

  /** The scalar value of one character of the grammar. */
  lemma CharIsEncoded(s: seq<Byte>) returns (c: nat)
    requires Utf8Char(s)
    ensures Scalar(c) && Encode(c) == s
  {
    if |s| == 1 {
      c := s[0];
    } else if |s| == 2 {
      var h: nat, d: nat := s[0] as int - 0xC0, s[1] as int - 0x80;
      Digits(h, d);
      c := h * 64 + d;
    } else if |s| == 3 {
      c := Char3IsEncoded(s);
    } else {
      c := Char4IsEncoded(s);
    }
  }

  lemma Char3IsEncoded(s: seq<Byte>) returns (c: nat)
    requires Utf8Char3(s)
    ensures Scalar(c) && Encode(c) == s
  {
    var a: nat, b: nat, d: nat := s[0] as int - 0xE0, s[1] as int - 0x80, s[2] as int - 0x80;
    var h := a * 64 + b;
    c := h * 64 + d;
    Digits(a, b);
    Digits(h, d);
    assert c / 4096 == a;
    assert Encode(c) == [0xE0 + a, 0x80 + b, 0x80 + d];
  }

  lemma Char4IsEncoded(s: seq<Byte>) returns (c: nat)
    requires Utf8Char4(s)
    ensures Scalar(c) && Encode(c) == s
  {
    var a: nat, b: nat, d: nat, e: nat := s[0] as int - 0xF0, s[1] as int - 0x80, s[2] as int - 0x80, s[3] as int - 0x80;
    var h := a * 64 + b;
    var g := h * 64 + d;
    c := g * 64 + e;
    Digits(a, b);
    Digits(h, d);
    Digits(g, e);
    assert c / 4096 == h && c / 262144 == a;
    assert Encode(c) == [0xF0 + a, 0x80 + b, 0x80 + d, 0x80 + e];
  }

  /** Every encoded list of scalar values is accepted, and the accept states show exactly those values. */
  lemma {:induction false} EncodedIsRead(cs: seq<nat>, c0: nat)
    requires Scalars(cs)
    ensures FinalState(ACCEPT, EncodeAll(cs)) == ACCEPT
    ensures Emitted(ACCEPT, c0, EncodeAll(cs)) == cs
    decreases cs
  {
    if cs != [] {
      RunChar(cs[0], c0, EncodeAll(cs[1..]));
      EncodedIsRead(cs[1..], cs[0]);
    }
  }

  /** Every accepted string is the encoding of the values its accept states show. */
  lemma {:induction false} AcceptedIsEncoded(s: seq<Byte>, c0: nat)
    requires FinalState(ACCEPT, s) == ACCEPT
    ensures Scalars(Emitted(ACCEPT, c0, s)) && EncodeAll(Emitted(ACCEPT, c0, s)) == s
    decreases |s|
  {
    if s != [] {
      AcceptsCompletes(ACCEPT, s);
      WellFormedSplit(s);
      var n := CharLength(s[0]);
      var c := CharIsEncoded(s[..n]);
      assert s == s[..n] + s[n..];
      RunChar(c, c0, s[n..]);
      AcceptedIsEncoded(s[n..], c);
    }
  }

  // ---------- The validator ----------

  class Validator {
    var state: nat
    var codepoint: nat

    ghost predicate Valid()
      reads this
    {
      state < 9
    }

    constructor ()
      ensures Valid() && state == ACCEPT && codepoint == 0
    {
      state, codepoint := ACCEPT, 0;
    }

    /** The free function `decode`: two table lookups. */
    method Step(b: Byte) returns (q: nat)
      requires Valid()
      modifies this
      ensures Valid() && q == state == NextState(old(state), b)
      ensures codepoint == NextCode(old(state), old(codepoint), b)
    {
      TableStep(state, b);
      var kind := Utf8d(b);
      codepoint := if state != ACCEPT then (codepoint * 64) % 0x1_0000_0000 + b % 64 else LowBits(b, kind);
      state := Utf8d(256 + state * 16 + kind);
      return state;
    }

    method Consume(b: Byte) returns (ok: bool)
      requires Valid()
      modifies this
      ensures Valid() && state == NextState(old(state), b) && codepoint == NextCode(old(state), old(codepoint), b)
      ensures ok <==> state != REJECT
    {
      var q := Step(b);
      return q != REJECT;
    }

    /** Reads a chunk and stops at the first error; the state is that of the whole chunk all the same. */
    method Decode(s: seq<Byte>) returns (ok: bool)
      requires Valid()
      modifies this
      ensures Valid() && state == FinalState(old(state), s)
      ensures ok ==> codepoint == FinalCode(old(state), old(codepoint), s)
      ensures ok <==> s == [] || state != REJECT
      ensures s != [] && state == ACCEPT ==>
        var cs := Emitted(old(state), old(codepoint), s); cs != [] && codepoint == cs[|cs| - 1]
    {
      for i := 0 to |s|
        invariant Valid() && state == FinalState(old(state), s[..i])
        invariant codepoint == FinalCode(old(state), old(codepoint), s[..i])
        invariant i > 0 ==> state != REJECT
      {
        ghost var q0, c0 := state, codepoint;
        var result := Step(s[i]);
        assert s[..i + 1] == s[..i] + [s[i]];
        FinalStateConcat(old(state), s[..i], [s[i]]);
        FinalCodeConcat(old(state), old(codepoint), s[..i], [s[i]]);
        if result == REJECT {
          assert s == s[..i + 1] + s[i + 1..];
          FinalStateConcat(old(state), s[..i + 1], s[i + 1..]);
          RejectAbsorbs(s[i + 1..]);
          return false;
        }
      }
      assert s[..|s|] == s;
      if s != [] && state == ACCEPT { LastEmitted(old(state), old(codepoint), s); }
      return true;
    }

    method Complete() returns (b: bool)
      requires Valid()
      ensures b <==> state == ACCEPT
    {
      return state == ACCEPT;
    }

    method Reset()
      modifies this
      ensures Valid() && state == ACCEPT && codepoint == 0
    {
      state, codepoint := ACCEPT, 0;
    }
  }

  /** `validate` accepts exactly the well-formed byte strings. */
  method Validate(s: seq<Byte>) returns (ok: bool)
    ensures ok <==> WellFormed(s)
  {
    AcceptsCompletes(ACCEPT, s);
    var v := new Validator();
    var decoded := v.Decode(s);
    if !decoded {
      return false;
    }
    ok := v.Complete();
  }

  function Concat(chunks: seq<seq<Byte>>): (s: seq<Byte>) {
    if chunks == [] then [] else Concat(chunks[..|chunks| - 1]) + chunks[|chunks| - 1]
  }

  /** Feeding a message in pieces, whatever the pieces and whatever `decode` answers on the way. */
  method Stream(chunks: seq<seq<Byte>>) returns (complete: bool)
    ensures complete <==> WellFormed(Concat(chunks))
  {
    var v := new Validator();
    for i := 0 to |chunks|
      invariant v.Valid() && fresh(v) && v.state == FinalState(ACCEPT, Concat(chunks[..i]))
    {
      var _ := v.Decode(chunks[i]);
      assert chunks[..i + 1][..i] == chunks[..i];
      FinalStateConcat(ACCEPT, Concat(chunks[..i]), chunks[i]);
    }
    assert chunks[..|chunks|] == chunks;
    AcceptsCompletes(ACCEPT, Concat(chunks));
    complete := v.Complete();
  }
}
