/**
 The payload masking of `websocketpp/frame.hpp` (section 5.3 of RFC 6455): byte at a
 time, word at a time, and streaming with a rotating prepared key. `Machine` carries
 what the C++ code asks its platform: `sizeof(size_t)`, 4 or 8, and
 `is_little_endian()`.

 A `size_t` is the sequence of its octets, least significant first, so the code's
 shifts, which are all by whole octets, move octets.
 */
module Masking {

  type Byte = bv8
  type Word = seq<Byte>

  datatype Machine = Machine(size: nat, little: bool)

  predicate ValidMachine(m: Machine) {
    m.size == 4 || m.size == 8
  }

  // ---------- Words ----------

  /** `w << (8*k)` in a word of the same width. */
  function ShiftLeft(w: Word, k: nat): (r: Word)
    ensures |r| == |w|
    ensures forall i :: 0 <= i < |w| ==> r[i] == if i >= k then w[i - k] else 0
  {
    seq(|w|, i requires 0 <= i < |w| => if i >= k then w[i - k] else 0)
  }

  /** `w >> (8*k)`. */
  function ShiftRight(w: Word, k: nat): (r: Word)
    ensures |r| == |w|
    ensures forall i :: 0 <= i < |w| ==> r[i] == if i + k < |w| then w[i + k] else 0
  {
    seq(|w|, i requires 0 <= i < |w| => if i + k < |w| then w[i + k] else 0)
  }

  function Or(a: Word, b: Word): (r: Word)
    requires |a| == |b|
    ensures |r| == |a|
    ensures forall i :: 0 <= i < |a| ==> r[i] == a[i] | b[i]
  {
    seq(|a|, i requires 0 <= i < |a| => a[i] | b[i])
  }

  function Xor(a: Word, b: Word): (r: Word)
    requires |a| == |b|
    ensures |r| == |a|
    ensures forall i :: 0 <= i < |a| ==> r[i] == a[i] ^ b[i]
  {
    seq(|a|, i requires 0 <= i < |a| => a[i] ^ b[i])
  }

  /** The octets of a word in memory order, and back: storing and loading through a cast pointer. */
  function InMemory(w: Word, little: bool): (s: seq<Byte>)
    ensures |s| == |w|
    ensures forall i :: 0 <= i < |w| ==> s[i] == if little then w[i] else w[|w| - 1 - i]
  {
    if little then w else seq(|w|, i requires 0 <= i < |w| => w[|w| - 1 - i])
  }

  // ---------- Prepared keys ----------

  /** `prepare_masking_key`; `key` holds the octets of the 32-bit `key.i`. */
  function PrepareMaskingKey(m: Machine, key: Word): (w: Word)
    requires ValidMachine(m) && |key| == 4
    ensures |w| == m.size
  {
    if m.size == 8 then
      var wide := key + [0, 0, 0, 0];
      Or(ShiftLeft(wide, 4), wide)
    else
      key
  }

  /** `circshift_prepared_key`. */
  function CircshiftPreparedKey(m: Machine, key: Word, offset: nat): (w: Word)
    requires ValidMachine(m) && |key| == m.size && offset < m.size
    ensures |w| == m.size
  {
    if offset == 0 then key
    else if m.little then
      var temp := ShiftLeft(key, m.size - offset);
      Or(ShiftRight(key, offset), temp)
    else
      var temp := ShiftRight(key, m.size - offset);
      Or(ShiftLeft(key, offset), temp)
  }

  /** The key byte for position `p` of the payload: `k[p % 4]`. */
  function KeyByte(k: seq<Byte>, p: nat): Byte
    requires |k| == 4
  {
    if p < 4 then k[p] else KeyByte(k, p - 4)
  }

  lemma {:induction false} KeyByteIsMod(k: seq<Byte>, p: nat)
    requires |k| == 4
    ensures KeyByte(k, p) == k[p % 4]
  {
    if p >= 4 { KeyByteIsMod(k, p - 4); }
  }

  lemma KeyIndexStep(k: seq<Byte>, p: nat)
    requires |k| == 4
    ensures KeyByte(k, p) == k[p % 4] && (p % 4 + 1) % 4 == (p + 1) % 4
  {
    KeyByteIsMod(k, p);
    SameMod(p % 4, p, 1);
  }

  lemma KeyByteNear(k: seq<Byte>, p: nat, q: nat)
    requires |k| == 4 && (q == p || q == p + 4 || q == p + 8)
    ensures KeyByte(k, p) == KeyByte(k, q)
  {
    if q == p + 8 { assert KeyByte(k, q) == KeyByte(k, q - 4); }
  }

  /** Whole words do not change the phase. */
  lemma KeyBytePeriod(k: seq<Byte>, p: nat, start: nat)
    requires |k| == 4 && start % 4 == 0
    ensures KeyByte(k, p + start) == KeyByte(k, p)
  {
    SameMod(start, 0, p);
    KeyByteIsMod(k, p + start);
    KeyByteIsMod(k, p);
  }

  lemma KeyByteSame(k: seq<Byte>, p: nat, q: nat, i: nat)
    requires |k| == 4 && p % 4 == q % 4
    ensures KeyByte(k, p + i) == KeyByte(k, q + i)
  {
    KeyByteIsMod(k, p + i);
    KeyByteIsMod(k, q + i);
    SameMod(p, q, i);
  }

  lemma SameMod(p: nat, q: nat, i: nat)
    requires p % 4 == q % 4
    ensures (p + i) % 4 == (q + i) % 4
  {}

  /** In memory the prepared key repeats the four key bytes, starting at position `phase`. */
  ghost predicate Repeats(m: Machine, w: Word, k: seq<Byte>, phase: nat)
    requires |k| == 4
  {
    |w| == m.size && forall i :: 0 <= i < m.size ==> InMemory(w, m.little)[i] == KeyByte(k, phase + i)
  }

  lemma OrZero(x: Byte)
    ensures x | 0 == x && 0 | x == x
  {}

  lemma PreparedWord(m: Machine, key: Word)
    requires m.size == 8 && |key| == 4
    ensures PrepareMaskingKey(m, key) == key + key
  {
    OrZero(key[0]);
    OrZero(key[1]);
    OrZero(key[2]);
    OrZero(key[3]);
  }

  lemma DoubledRepeats(m: Machine, key: Word, w: Word)
    requires ValidMachine(m) && |key| == 4 && w == if m.size == 8 then key + key else key
    ensures Repeats(m, w, InMemory(key, m.little), 0)
  {
    var k := InMemory(key, m.little);
    forall i | 0 <= i < m.size ensures InMemory(w, m.little)[i] == KeyByte(k, 0 + i) {
      assert KeyByte(k, i) == k[if i < 4 then i else i - 4];
    }
  }

  /** The bytes `key.c` of a masking key are its octets in memory order; preparing repeats them. */
  lemma PreparedRepeats(m: Machine, key: Word)
    requires ValidMachine(m) && |key| == 4
    ensures Repeats(m, PrepareMaskingKey(m, key), InMemory(key, m.little), 0)
  {
    if m.size == 8 {
      PreparedWord(m, key);
    }
    DoubledRepeats(m, key, PrepareMaskingKey(m, key));
  }

  lemma CircshiftOctet(m: Machine, key: Word, offset: nat, i: nat)
    requires ValidMachine(m) && |key| == m.size && 0 < offset < m.size && i < m.size
    ensures var w := CircshiftPreparedKey(m, key, offset);
      var shift := if m.little then offset else m.size - offset;
      w[i] == key[if i + shift < m.size then i + shift else i + shift - m.size]
  {
    var shift := if m.little then offset else m.size - offset;
    OrZero(key[if i + shift < m.size then i + shift else i + shift - m.size]);
  }

  lemma CircshiftMemory(m: Machine, key: Word, offset: nat, i: nat)
    requires ValidMachine(m) && |key| == m.size && 0 < offset < m.size && i < m.size
    ensures InMemory(CircshiftPreparedKey(m, key, offset), m.little)[i]
            == InMemory(key, m.little)[if i + offset < m.size then i + offset else i + offset - m.size]
  {
    var at := if m.little then i else m.size - 1 - i;
    CircshiftOctet(m, key, offset, at);
    assert InMemory(CircshiftPreparedKey(m, key, offset), m.little)[i] == CircshiftPreparedKey(m, key, offset)[at];
  }

  lemma RotatedRepeats(m: Machine, key: Word, w: Word, k: seq<Byte>, phase: nat, offset: nat)
    requires ValidMachine(m) && |k| == 4 && Repeats(m, key, k, phase) && offset < m.size && |w| == m.size
    requires forall i :: 0 <= i < m.size ==>
      InMemory(w, m.little)[i] == InMemory(key, m.little)[if i + offset < m.size then i + offset else i + offset - m.size]
    ensures Repeats(m, w, k, phase + offset)
  {
    forall i | 0 <= i < m.size ensures InMemory(w, m.little)[i] == KeyByte(k, phase + offset + i) {
      var j := if i + offset < m.size then i + offset else i + offset - m.size;
      RotatedOctet(m, key, k, phase, offset, i, j);
    }
  }

  lemma RotatedOctet(m: Machine, key: Word, k: seq<Byte>, phase: nat, offset: nat, i: nat, j: nat)
    requires ValidMachine(m) && |k| == 4 && Repeats(m, key, k, phase) && offset < m.size && i < m.size
    requires j == if i + offset < m.size then i + offset else i + offset - m.size
    ensures InMemory(key, m.little)[j] == KeyByte(k, phase + offset + i)
  {
    KeyByteNear(k, phase + j, phase + offset + i);
  }

  /** Rotating by `offset` moves the phase by `offset`. */
  lemma CircshiftRepeats(m: Machine, key: Word, k: seq<Byte>, phase: nat, offset: nat)
    requires ValidMachine(m) && |k| == 4 && Repeats(m, key, k, phase) && offset < m.size
    ensures Repeats(m, CircshiftPreparedKey(m, key, offset), k, phase + offset)
  {
    if offset > 0 {
      forall i | 0 <= i < m.size
        ensures InMemory(CircshiftPreparedKey(m, key, offset), m.little)[i]
                == InMemory(key, m.little)[if i + offset < m.size then i + offset else i + offset - m.size]
      {
        CircshiftMemory(m, key, offset, i);
      }
      RotatedRepeats(m, key, CircshiftPreparedKey(m, key, offset), k, phase, offset);
    }
  }

  lemma RepeatsPeriod(m: Machine, w: Word, k: seq<Byte>, p: nat, q: nat)
    requires |k| == 4 && Repeats(m, w, k, p) && p % 4 == q % 4
    ensures Repeats(m, w, k, q)
  {
    forall i | 0 <= i < m.size ensures InMemory(w, m.little)[i] == KeyByte(k, q + i) {
      KeyByteSame(k, p, q, i);
    }
  }

  // ---------- What masking means ----------

  /** Every byte is xored with the key byte of its position in the payload. */
  function Masked(data: seq<Byte>, k: seq<Byte>, phase: nat): (r: seq<Byte>)
    requires |k| == 4
    ensures |r| == |data|
    ensures forall i :: 0 <= i < |data| ==> r[i] == data[i] ^ KeyByte(k, phase + i)
  {
    seq(|data|, i requires 0 <= i < |data| => data[i] ^ KeyByte(k, phase + i))
  }

  lemma XorTwice(a: Byte, b: Byte)
    ensures (a ^ b) ^ b == a
  {}

  /** Masking is its own inverse. */
  lemma MaskTwice(data: seq<Byte>, k: seq<Byte>, phase: nat)
    requires |k| == 4
    ensures Masked(Masked(data, k, phase), k, phase) == data
  {
    forall i | 0 <= i < |data| ensures Masked(Masked(data, k, phase), k, phase)[i] == data[i] {
      XorTwice(data[i], KeyByte(k, phase + i));
    }
  }

  lemma MaskedConcat(a: seq<Byte>, b: seq<Byte>, k: seq<Byte>, phase: nat)
    requires |k| == 4
    ensures Masked(a + b, k, phase) == Masked(a, k, phase) + Masked(b, k, phase + |a|)
  {
    forall i | |a| <= i < |a| + |b|
      ensures Masked(a + b, k, phase)[i] == (Masked(a, k, phase) + Masked(b, k, phase + |a|))[i]
    {
      assert phase + |a| + (i - |a|) == phase + i;
    }
  }

  // ---------- The masking functions ----------
  // `input` and `output` may be the same array: the in-place forms are such calls.

  /** The first `i` bytes are masked, all others as they were. */
  twostate predicate MaskedUpTo(input: array<Byte>, output: array<Byte>, k: seq<Byte>, phase: nat, i: nat)
    requires |k| == 4 && i <= input.Length && i <= output.Length
    reads input, output
  {
    && (forall j :: 0 <= j < i ==> output[j] == old(input[j]) ^ KeyByte(k, phase + j))
    && (forall j :: i <= j < output.Length ==> output[j] == old(output[j]))
    && (forall j :: i <= j < input.Length ==> input[j] == old(input[j]))
  }

  /** `byte_mask`. */
  method ByteMask(input: array<Byte>, output: array<Byte>, length: nat, k: seq<Byte>, keyOffset: nat)
    requires |k| == 4 && length <= input.Length && length <= output.Length
    modifies output
    ensures MaskedUpTo(input, output, k, keyOffset, length)
  {
    var keyIndex := keyOffset % 4;
    for i := 0 to length
      invariant keyIndex == (keyOffset + i) % 4
      invariant forall j :: 0 <= j < i ==> output[j] == old(input[j]) ^ KeyByte(k, keyOffset + j)
      invariant forall j :: i <= j < output.Length ==> output[j] == old(output[j])
      invariant forall j :: i <= j < input.Length ==> input[j] == old(input[j])
    {
      var c;
      c, keyIndex := NextKeyByte(k, keyIndex, keyOffset + i);
      output[i] := input[i] ^ c;
    }
  }

  /** `key.c[key_index++]; key_index %= 4`. */
  method NextKeyByte(k: seq<Byte>, keyIndex: nat, ghost p: nat) returns (c: Byte, next: nat)
    requires |k| == 4 && keyIndex == p % 4
    ensures c == KeyByte(k, p) && next == (p + 1) % 4
  {
    KeyIndexStep(k, p);
    c, next := k[keyIndex], (keyIndex + 1) % 4;
  }

  /** Loading a word, masking it and storing it masks its bytes. */
  lemma WordXor(m: Machine, s: seq<Byte>, key: Word, j: nat)
    requires |s| == m.size && |key| == m.size && j < m.size
    ensures InMemory(Xor(InMemory(s, m.little), key), m.little)[j] == s[j] ^ InMemory(key, m.little)[j]
  {
    var at := if m.little then j else m.size - 1 - j;
    assert InMemory(s, m.little)[at] == s[j] && InMemory(key, m.little)[j] == key[at];
  }

  method Store(output: array<Byte>, at: nat, bytes: seq<Byte>)
    requires at + |bytes| <= output.Length
    modifies output
    ensures forall j :: 0 <= j < output.Length ==>
      output[j] == if at <= j < at + |bytes| then bytes[j - at] else old(output[j])
  {
    forall j | 0 <= j < |bytes| {
      output[at + j] := bytes[j];
    }
  }

  lemma RepeatedByte(m: Machine, key: Word, k: seq<Byte>, phase: nat, start: nat, j: nat)
    requires |k| == 4 && Repeats(m, key, k, phase) && start % 4 == 0 && j < m.size
    ensures InMemory(key, m.little)[j] == KeyByte(k, phase + start + j)
  {
    KeyBytePeriod(k, phase + j, start);
    assert phase + j + start == phase + start + j;
  }

  lemma MaskedWord(m: Machine, s: seq<Byte>, key: Word, k: seq<Byte>, phase: nat, start: nat)
    requires ValidMachine(m) && |k| == 4 && Repeats(m, key, k, phase) && |s| == m.size && start % 4 == 0
    ensures InMemory(Xor(InMemory(s, m.little), key), m.little) == Masked(s, k, phase + start)
  {
    forall j | 0 <= j < m.size
      ensures InMemory(Xor(InMemory(s, m.little), key), m.little)[j] == Masked(s, k, phase + start)[j]
    {
      MaskedOctet(m, s, key, k, phase, start, j);
    }
  }

  lemma MaskedOctet(m: Machine, s: seq<Byte>, key: Word, k: seq<Byte>, phase: nat, start: nat, j: nat)
    requires |k| == 4 && Repeats(m, key, k, phase) && |s| == m.size && start % 4 == 0 && j < m.size
    ensures InMemory(Xor(InMemory(s, m.little), key), m.little)[j] == Masked(s, k, phase + start)[j]
  {
    WordXor(m, s, key, j);
    RepeatedByte(m, key, k, phase, start, j);
  }

  /** `output_word[i] = input_word[i] ^ prepared_key`. */
  method MaskWord(m: Machine, input: array<Byte>, output: array<Byte>, start: nat, key: Word,
                  ghost k: seq<Byte>, ghost phase: nat)
    requires ValidMachine(m) && |k| == 4 && Repeats(m, key, k, phase) && start % 4 == 0
    requires start + m.size <= input.Length && start + m.size <= output.Length
    modifies output
    ensures forall j :: start <= j < start + m.size ==> output[j] == old(input[j]) ^ KeyByte(k, phase + j)
    ensures forall j :: 0 <= j < output.Length && !(start <= j < start + m.size) ==> output[j] == old(output[j])
  {
    var s := input[start..start + m.size];
    var bytes := XorWord(m, s, key, k, phase, start);
    Store(output, start, bytes);
    forall j | start <= j < start + m.size ensures output[j] == old(input[j]) ^ KeyByte(k, phase + j) {
      assert output[j] == bytes[j - start] && s[j - start] == old(input[j]);
      assert phase + start + (j - start) == phase + j;
    }
  }

  /** A word loaded from `s`, xored with the prepared key and stored again. */
  method XorWord(m: Machine, s: seq<Byte>, key: Word, ghost k: seq<Byte>, ghost phase: nat, ghost start: nat)
    returns (bytes: seq<Byte>)
    requires ValidMachine(m) && |k| == 4 && Repeats(m, key, k, phase) && |s| == m.size && start % 4 == 0
    ensures bytes == Masked(s, k, phase + start)
  {
    MaskedWord(m, s, key, k, phase, start);
    bytes := InMemory(Xor(InMemory(s, m.little), key), m.little);
  }

  /** The word loop of `word_mask_exact` and `word_mask_circ`, up to the whole words of `length`. */
  method MaskWords(m: Machine, input: array<Byte>, output: array<Byte>, length: nat, key: Word,
                   ghost k: seq<Byte>, ghost phase: nat)
    returns (start: nat)
    requires ValidMachine(m) && |k| == 4 && Repeats(m, key, k, phase)
    requires length <= input.Length && length <= output.Length
    modifies output
    ensures start <= length < start + m.size && start % 4 == 0
    ensures MaskedUpTo(input, output, k, phase, start)
  {
    start := 0;
    while start + m.size <= length
      invariant start <= length && start % 4 == 0
      invariant MaskedUpTo(input, output, k, phase, start)
    {
      MaskWord(m, input, output, start, key, k, phase);
      start := start + m.size;
    }
  }

  method Prepare(m: Machine, key: Word) returns (w: Word)
    requires ValidMachine(m) && |key| == 4
    ensures Repeats(m, w, InMemory(key, m.little), 0)
  {
    PreparedRepeats(m, key);
    w := PrepareMaskingKey(m, key);
  }

  lemma RotatedOnwards(m: Machine, key: Word, w: Word, k: seq<Byte>, phase: nat, offset: nat, length: nat)
    requires ValidMachine(m) && |k| == 4 && Repeats(m, key, k, phase)
    requires offset < m.size && offset % 4 == length % 4 && w == CircshiftPreparedKey(m, key, offset)
    ensures Repeats(m, w, k, phase + length)
  {
    SameMod(offset, length, phase);
    CircshiftRepeats(m, key, k, phase, offset);
    RepeatsPeriod(m, w, k, phase + offset, phase + length);
  }

  /** The rotation at the end of a circular mask of `length` bytes. */
  method NextKey(m: Machine, key: Word, offset: nat, ghost length: nat, ghost k: seq<Byte>, ghost phase: nat)
    returns (w: Word)
    requires ValidMachine(m) && |k| == 4 && Repeats(m, key, k, phase)
    requires offset < m.size && offset % 4 == length % 4
    ensures Repeats(m, w, k, phase + length)
  {
    w := CircshiftPreparedKey(m, key, offset);
    RotatedOnwards(m, key, w, k, phase, offset, length);
  }

  /** A byte loop: `output[at+i] = input[at+i] ^ c[i]`, where `c` runs through the key bytes of those positions. */
  method MaskBytes(input: array<Byte>, output: array<Byte>, at: nat, count: nat, c: seq<Byte>, ghost k: seq<Byte>,
                   ghost phase: nat)
    requires |k| == 4 && count <= |c| && at + count <= input.Length && at + count <= output.Length
    requires forall i :: 0 <= i < count ==> c[i] == KeyByte(k, phase + (at + i))
    modifies output
    ensures forall j :: at <= j < at + count ==> output[j] == old(input[j]) ^ KeyByte(k, phase + j)
    ensures forall j :: 0 <= j < output.Length && !(at <= j < at + count) ==> output[j] == old(output[j])
  {
    for i := 0 to count
      invariant forall j :: at <= j < at + i ==> output[j] == old(input[j]) ^ KeyByte(k, phase + j)
      invariant forall j :: 0 <= j < output.Length && !(at <= j < at + i) ==> output[j] == old(output[j])
      invariant forall j :: at + i <= j < input.Length ==> input[j] == old(input[j])
    {
      output[at + i] := input[at + i] ^ c[i];
    }
  }

  /** A byte loop from `at` to `length`: `output[i] = input[i] ^ c[i % 4]`. */
  method MaskCycle(input: array<Byte>, output: array<Byte>, at: nat, length: nat, c: seq<Byte>, ghost k: seq<Byte>,
                   ghost phase: nat)
    requires |k| == 4 && |c| == 4 && at <= length <= input.Length && length <= output.Length
    requires forall i :: 0 <= i < 4 ==> c[i] == KeyByte(k, phase + i)
    modifies output
    ensures forall j :: at <= j < length ==> output[j] == old(input[j]) ^ KeyByte(k, phase + j)
    ensures forall j :: 0 <= j < output.Length && !(at <= j < length) ==> output[j] == old(output[j])
  {
    for i := at to length
      invariant forall j :: at <= j < i ==> output[j] == old(input[j]) ^ KeyByte(k, phase + j)
      invariant forall j :: 0 <= j < output.Length && !(at <= j < i) ==> output[j] == old(output[j])
      invariant forall j :: i <= j < input.Length ==> input[j] == old(input[j])
    {
      CycleByte(c, k, phase, i);
      output[i] := input[i] ^ c[i % 4];
    }
  }

  lemma FirstKeyBytes(k: seq<Byte>)
    requires |k| == 4
    ensures forall i :: 0 <= i < 4 ==> k[i] == KeyByte(k, 0 + i)
  {}

  lemma CycleByte(c: seq<Byte>, k: seq<Byte>, phase: nat, i: nat)
    requires |k| == 4 && |c| == 4 && forall i :: 0 <= i < 4 ==> c[i] == KeyByte(k, phase + i)
    ensures c[i % 4] == KeyByte(k, phase + i)
  {
    assert c[i % 4] == KeyByte(k, phase + i % 4);
    SameMod(i % 4, i, phase);
    KeyByteSame(k, phase + i % 4, phase + i, 0);
  }

  /** The partial word at the end of `word_mask_circ`. */
  method MaskPartialWord(m: Machine, input: array<Byte>, output: array<Byte>, start: nat, l: nat, key: Word,
                         ghost k: seq<Byte>, ghost phase: nat)
    requires |k| == 4 && Repeats(m, key, k, phase) && l < m.size && start % 4 == 0
    requires start + l <= input.Length && start + l <= output.Length
    modifies output
    ensures forall j :: start <= j < start + l ==> output[j] == old(input[j]) ^ KeyByte(k, phase + j)
    ensures forall j :: 0 <= j < output.Length && !(start <= j < start + l) ==> output[j] == old(output[j])
  {
    var byteKey := InMemory(key, m.little);
    forall i | 0 <= i < l ensures byteKey[i] == KeyByte(k, phase + (start + i)) {
      KeyByteSame(k, phase, phase + start, i);
    }
    MaskBytes(input, output, start, l, byteKey, k, phase);
  }

  /** `word_mask_exact`; `key` holds the octets of the 32-bit key. */
  method WordMaskExact(m: Machine, input: array<Byte>, output: array<Byte>, length: nat, key: Word)
    requires ValidMachine(m) && |key| == 4 && length <= input.Length && length <= output.Length
    modifies output
    ensures MaskedUpTo(input, output, InMemory(key, m.little), 0, length)
  {
    var k := InMemory(key, m.little);
    var prepared := Prepare(m, key);
    FirstKeyBytes(k);
    MaskWordsThenBytes(m, input, output, length, prepared, k, k, 0);
  }

  /** The two loops of `word_mask_exact`. */
  method MaskWordsThenBytes(m: Machine, input: array<Byte>, output: array<Byte>, length: nat, key: Word, c: seq<Byte>,
                            ghost k: seq<Byte>, ghost phase: nat)
    requires ValidMachine(m) && |k| == 4 && Repeats(m, key, k, phase)
    requires |c| == 4 && forall i :: 0 <= i < 4 ==> c[i] == KeyByte(k, phase + i)
    requires length <= input.Length && length <= output.Length
    modifies output
    ensures MaskedUpTo(input, output, k, phase, length)
  {
    var start := MaskWords(m, input, output, length, key, k, phase);
    MaskCycle(input, output, start, length, c, k, phase);
  }

  /** `word_mask_circ`: returns the key for the bytes that follow. */
  method WordMaskCirc(m: Machine, input: array<Byte>, output: array<Byte>, length: nat, key: Word,
                      ghost k: seq<Byte>, ghost phase: nat)
    returns (next: Word)
    requires ValidMachine(m) && |k| == 4 && Repeats(m, key, k, phase)
    requires length <= input.Length && length <= output.Length
    modifies output
    ensures MaskedUpTo(input, output, k, phase, length)
    ensures Repeats(m, next, k, phase + length)
  {
    var l := MaskWithWords(m, input, output, length, key, k, phase);
    next := NextKey(m, key, l, length, k, phase);
  }

  /** The two loops of `word_mask_circ`; `l` is the length of the partial word. */
  method MaskWithWords(m: Machine, input: array<Byte>, output: array<Byte>, length: nat, key: Word,
                       ghost k: seq<Byte>, ghost phase: nat)
    returns (l: nat)
    requires ValidMachine(m) && |k| == 4 && Repeats(m, key, k, phase)
    requires length <= input.Length && length <= output.Length
    modifies output
    ensures MaskedUpTo(input, output, k, phase, length)
    ensures l < m.size && l % 4 == length % 4
  {
    var start := MaskWords(m, input, output, length, key, k, phase);
    l := length - start;
    SameMod(0, start, l);
    MaskPartialWord(m, input, output, start, l, key, k, phase);
  }

  /** The 32-bit truncation of a prepared key has the same bytes in memory. */
  lemma LowHalf(m: Machine, key: Word, k: seq<Byte>, phase: nat)
    requires ValidMachine(m) && |k| == 4 && Repeats(m, key, k, phase)
    ensures forall i :: 0 <= i < 4 ==> InMemory(key[..4], m.little)[i] == KeyByte(k, phase + i)
  {
    forall i | 0 <= i < 4 ensures InMemory(key[..4], m.little)[i] == KeyByte(k, phase + i) {
      LowOctet(m, key, k, phase, i, if m.little then i else m.size - 4 + i);
    }
  }

  lemma LowOctet(m: Machine, key: Word, k: seq<Byte>, phase: nat, i: nat, j: nat)
    requires ValidMachine(m) && |k| == 4 && Repeats(m, key, k, phase) && i < 4
    requires j == if m.little then i else m.size - 4 + i
    ensures InMemory(key[..4], m.little)[i] == KeyByte(k, phase + i)
  {
    LowInMemory(m, key, i, j);
    KeyByteNear(k, phase + i, phase + j);
  }

  lemma LowInMemory(m: Machine, key: Word, i: nat, j: nat)
    requires ValidMachine(m) && |key| == m.size && i < 4 && j == if m.little then i else m.size - 4 + i
    ensures InMemory(key[..4], m.little)[i] == InMemory(key, m.little)[j]
  {}

  /** `byte_mask_circ`. */
  method ByteMaskCirc(m: Machine, input: array<Byte>, output: array<Byte>, length: nat, key: Word,
                      ghost k: seq<Byte>, ghost phase: nat)
    returns (next: Word)
    requires ValidMachine(m) && |k| == 4 && Repeats(m, key, k, phase)
    requires length <= input.Length && length <= output.Length
    modifies output
    ensures MaskedUpTo(input, output, k, phase, length)
    ensures Repeats(m, next, k, phase + length)
  {
    var c := InMemory(key[..4], m.little);
    LowHalf(m, key, k, phase);
    MaskCycle(input, output, 0, length, c, k, phase);
    next := NextKey(m, key, length % 4, length, k, phase);
  }

  // ---------- Streaming ----------

  /** A piece of the payload, and which circular function masks it. */
  datatype Piece = Piece(bytes: seq<Byte>, byWord: bool)

  function Payload(pieces: seq<Piece>): (s: seq<Byte>) {
    if pieces == [] then [] else Payload(pieces[..|pieces| - 1]) + pieces[|pieces| - 1].bytes
  }

  /** One piece, masked in place. */
  method MaskPiece(m: Machine, piece: Piece, key: Word, ghost k: seq<Byte>, ghost phase: nat)
    returns (out: seq<Byte>, next: Word)
    requires ValidMachine(m) && |k| == 4 && Repeats(m, key, k, phase)
    ensures out == Masked(piece.bytes, k, phase) && Repeats(m, next, k, phase + |piece.bytes|)
  {
    var bytes := piece.bytes;
    var buffer := new Byte[|bytes|](j requires 0 <= j < |bytes| => bytes[j]);
    if piece.byWord {
      next := WordMaskCirc(m, buffer, buffer, |bytes|, key, k, phase);
    } else {
      next := ByteMaskCirc(m, buffer, buffer, |bytes|, key, k, phase);
    }
    out := buffer[..|bytes|];
  }

  lemma PayloadStep(pieces: seq<Piece>, i: nat, k: seq<Byte>)
    requires i < |pieces| && |k| == 4
    ensures var done := Payload(pieces[..i]);
      && |Payload(pieces[..i + 1])| == |done| + |pieces[i].bytes|
      && Masked(Payload(pieces[..i + 1]), k, 0) == Masked(done, k, 0) + Masked(pieces[i].bytes, k, |done|)
  {
    assert pieces[..i + 1][..i] == pieces[..i];
    MaskedConcat(Payload(pieces[..i]), pieces[i].bytes, k, 0);
  }

  /** Any split of a payload, masked piece by piece in place with the returned key passed on, is one `byte_mask` of
      it all. */
  method MaskStream(m: Machine, pieces: seq<Piece>, key: Word) returns (out: seq<Byte>)
    requires ValidMachine(m) && |key| == 4
    ensures out == Masked(Payload(pieces), InMemory(key, m.little), 0)
  {
    ghost var k := InMemory(key, m.little);
    var prepared := Prepare(m, key);
    out := [];
    for i := 0 to |pieces|
      invariant out == Masked(Payload(pieces[..i]), k, 0)
      invariant Repeats(m, prepared, k, |Payload(pieces[..i])|)
    {
      var masked;
      masked, prepared := MaskPiece(m, pieces[i], prepared, k, |Payload(pieces[..i])|);
      out := out + masked;
      PayloadStep(pieces, i, k);
    }
    assert pieces[..|pieces|] == pieces;
  }
}
