/**
 SHA-256 as FIPS 180-4 defines it, and the kernel's incremental hasher proved to compute it.
 */
module Sha256Spec {

  import opened Bits

  // Section 4.1.2: the six logical functions.
  function Ch(x: Word, y: Word, z: Word): Word { Xor(And(x, y), And(Not(x), z)) }
  function Maj(x: Word, y: Word, z: Word): Word { Xor(Xor(And(x, y), And(x, z)), And(y, z)) }
  function BigSigma0(x: Word): Word { Xor(Xor(Rotr(x, 2), Rotr(x, 13)), Rotr(x, 22)) }
  function BigSigma1(x: Word): Word { Xor(Xor(Rotr(x, 6), Rotr(x, 11)), Rotr(x, 25)) }
  function SmallSigma0(x: Word): Word { Xor(Xor(Rotr(x, 7), Rotr(x, 18)), Shr(x, 3)) }
  function SmallSigma1(x: Word): Word { Xor(Xor(Rotr(x, 17), Rotr(x, 19)), Shr(x, 10)) }

  // Section 4.2.2.
  const K: seq<Word> :=
    [0x428a2f98, 0x71374491, 0xb5c0fbcf, 0xe9b5dba5, 0x3956c25b, 0x59f111f1, 0x923f82a4, 0xab1c5ed5,
     0xd807aa98, 0x12835b01, 0x243185be, 0x550c7dc3, 0x72be5d74, 0x80deb1fe, 0x9bdc06a7, 0xc19bf174,
     0xe49b69c1, 0xefbe4786, 0x0fc19dc6, 0x240ca1cc, 0x2de92c6f, 0x4a7484aa, 0x5cb0a9dc, 0x76f988da,
     0x983e5152, 0xa831c66d, 0xb00327c8, 0xbf597fc7, 0xc6e00bf3, 0xd5a79147, 0x06ca6351, 0x14292967,
     0x27b70a85, 0x2e1b2138, 0x4d2c6dfc, 0x53380d13, 0x650a7354, 0x766a0abb, 0x81c2c92e, 0x92722c85,
     0xa2bfe8a1, 0xa81a664b, 0xc24b8b70, 0xc76c51a3, 0xd192e819, 0xd6990624, 0xf40e3585, 0x106aa070,
     0x19a4c116, 0x1e376c08, 0x2748774c, 0x34b0bcb5, 0x391c0cb3, 0x4ed8aa4a, 0x5b9cca4f, 0x682e6ff3,
     0x748f82ee, 0x78a5636f, 0x84c87814, 0x8cc70208, 0x90befffa, 0xa4506ceb, 0xbef9a3f7, 0xc67178f2]

  /** Eight words: a hash value, or the working variables a to h. */
  datatype Words = Words(a: Word, b: Word, c: Word, d: Word, e: Word, f: Word, g: Word, h: Word)

  // Section 5.3.3.
  const INITIAL := Words(0x6a09e667, 0xbb67ae85, 0x3c6ef372, 0xa54ff53a, 0x510e527f, 0x9b05688c, 0x1f83d9ab, 0x5be0cd19)

  function WordAt(block: seq<Byte>, t: nat): Word
    requires 4 * t + 4 <= |block|
  {
    block[4 * t] as int * 0x100_0000 + block[4 * t + 1] as int * 0x1_0000
    + block[4 * t + 2] as int * 0x100 + block[4 * t + 3]
  }

  // Section 6.2.2, step 1: the first n words of the message schedule.
  function Schedule(block: seq<Byte>, n: nat): (w: seq<Word>)
    requires |block| == 64 && n <= 64
    ensures |w| == n
  {
    if n == 0 then [] else
      var w := Schedule(block, n - 1);
      var t := n - 1;
      w + [if t < 16 then WordAt(block, t)
           else Add(Add(Add(SmallSigma1(w[t - 2]), w[t - 7]), SmallSigma0(w[t - 15])), w[t - 16])]
  }

  // Section 6.2.2, step 3.
  function Round(v: Words, k: Word, w: Word): Words
  {
    var t1 := Add(Add(Add(Add(v.h, BigSigma1(v.e)), Ch(v.e, v.f, v.g)), k), w);
    var t2 := Add(BigSigma0(v.a), Maj(v.a, v.b, v.c));
    Words(Add(t1, t2), v.a, v.b, v.c, Add(v.d, t1), v.e, v.f, v.g)
  }

  function Sum(v: Words, w: Words): Words
  {
    Words(Add(v.a, w.a), Add(v.b, w.b), Add(v.c, w.c), Add(v.d, w.d),
          Add(v.e, w.e), Add(v.f, w.f), Add(v.g, w.g), Add(v.h, w.h))
  }

  /** The n-th block of the message, from 0. */
  function BlockAt(m: seq<Byte>, n: nat): (block: seq<Byte>)
    requires 64 * n + 64 <= |m|
    ensures |block| == 64
  {
    m[64 * n..64 * n + 64]
  }

  /** Section 6.2.2, steps 2 and 3: the working variables after t rounds on block n. */
  function Rounds(m: seq<Byte>, n: nat, t: nat): Words
    requires 64 * n + 64 <= |m| && t <= 64
    decreases n, 1, t
  {
    if t == 0 then Hash(m, n)
    else Round(Rounds(m, n, t - 1), K[t - 1], Schedule(BlockAt(m, n), 64)[t - 1])
  }

  /** Section 6.2.2, step 4: the hash value after block n. */
  function AfterBlock(m: seq<Byte>, n: nat): Words
    requires 64 * n + 64 <= |m|
    decreases n, 2
  {
    Sum(Hash(m, n), Rounds(m, n, 64))
  }

  /** The hash value H(n) after the first n blocks of `m`. */
  function Hash(m: seq<Byte>, n: nat): Words
    requires 64 * n <= |m|
    decreases n, 0
  {
    if n == 0 then INITIAL else AfterBlock(m, n - 1)
  }

  /** The hash value after n blocks depends on those blocks alone. */
  lemma {:induction false} HashOfPrefix(m: seq<Byte>, m': seq<Byte>, n: nat)
    requires 64 * n <= |m| && 64 * n <= |m'| && m[..64 * n] == m'[..64 * n]
    ensures Hash(m, n) == Hash(m', n)
    decreases n, 1
  {
    if n > 0 {
      assert m[..64 * (n - 1)] == m[..64 * n][..64 * (n - 1)] == m'[..64 * (n - 1)];
      assert BlockAt(m, n - 1) == m[..64 * n][64 * (n - 1)..] == BlockAt(m', n - 1);
      HashOfPrefix(m, m', n - 1);
      RoundsOfPrefix(m, m', n - 1, 64);
    }
  }

  lemma NextRound(m: seq<Byte>, n: nat, t: nat)
    requires 64 * n + 64 <= |m| && 0 < t <= 64
    ensures Rounds(m, n, t) == Round(Rounds(m, n, t - 1), K[t - 1], Schedule(BlockAt(m, n), 64)[t - 1])
  {
  }

  lemma {:induction false} RoundsOfPrefix(m: seq<Byte>, m': seq<Byte>, n: nat, t: nat)
    requires 64 * n + 64 <= |m| && 64 * n + 64 <= |m'| && t <= 64
    requires Hash(m, n) == Hash(m', n) && BlockAt(m, n) == BlockAt(m', n)
    ensures Rounds(m, n, t) == Rounds(m', n, t)
  {
    if t > 0 {
      RoundsOfPrefix(m, m', n, t - 1);
      NextRound(m, n, t);
      NextRound(m', n, t);
    }
  }

  function BigEndian64(n: nat): (r: seq<Byte>)
    requires n < 0x1_0000_0000_0000_0000
    ensures |r| == 8
  {
    [(n / 0x100_0000_0000_0000), (n / 0x1_0000_0000_0000 % 256),
     (n / 0x100_0000_0000 % 256), (n / 0x1_0000_0000 % 256),
     (n / 0x100_0000 % 256), (n / 0x1_0000 % 256), (n / 0x100 % 256), (n % 256)]
  }

  function Zeros(k: nat): (r: seq<Byte>)
    ensures |r| == k
  {
    seq(k, _ => 0)
  }

  function WordBytes(w: Word): (r: seq<Byte>)
    ensures |r| == 4
  {
    [w / 0x100_0000, w / 0x1_0000 % 256, w / 0x100 % 256, w % 256]
  }

  /** A hash value as bytes, each word most significant byte first. */
  function DigestBytes(v: Words): (r: seq<Byte>)
    ensures |r| == 32
  {
    WordBytes(v.a) + WordBytes(v.b) + WordBytes(v.c) + WordBytes(v.d)
    + WordBytes(v.e) + WordBytes(v.f) + WordBytes(v.g) + WordBytes(v.h)
  }

  /** k is the least number of zero bytes for which l + 1 + zeros is 448 modulo 512 bits. */
  ghost predicate IsLeast(n: nat, k: nat)
  {
    && (8 * n + 8 + 8 * k) % 512 == 448
    && forall j: nat :: j < k ==> (8 * n + 8 + 8 * j) % 512 != 448
  }

  /** `pad` is a section 5.1.1 padding of a message of n bytes: a one bit, zeros, and the length in bits. */
  ghost predicate IsFipsPadding(n: nat, pad: seq<Byte>)
    requires n < 0x2000_0000_0000_0000
  {
    exists k: nat :: IsLeast(n, k) && pad == [0x80] + Zeros(k) + BigEndian64(8 * n)
  }

  function ZeroCount(n: nat): (k: nat)
    ensures k < 64 && (n + 9 + k) % 64 == 0
  {
    if n % 64 < 56 then 55 - n % 64 else 119 - n % 64
  }

  /** The padding with the length in bits taken modulo 2^64, as a 64-bit counter gives it. */
  function Padding(n: nat): (pad: seq<Byte>)
    ensures |pad| == 9 + ZeroCount(n)
  {
    [0x80] + Zeros(ZeroCount(n)) + BigEndian64(Wrap64(8 * n))
  }

  function Padded(m: seq<Byte>): (r: seq<Byte>)
    ensures |r| % 64 == 0 && m <= r
  {
    m + Padding(|m|)
  }

  function Digest(m: seq<Byte>): (r: seq<Byte>)
    ensures |r| == 32
  {
    DigestBytes(Hash(Padded(m), |Padded(m)| / 64))
  }

  lemma Residue512(q: nat, t: nat)
    requires t < 128
    ensures (512 * q + 8 * t) % 512 == if t < 64 then 8 * t else 8 * t - 512
  {
  }

  /** Up to `ZeroCount(n)` zero bytes, only the last makes the length come out at 448 bits modulo 512. */
  lemma LeastZeros(n: nat, k: nat)
    requires k <= ZeroCount(n)
    ensures (8 * n + 8 + 8 * k) % 512 == 448 <==> k == ZeroCount(n)
  {
    var q, r := n / 64, n % 64;
    assert 8 * n + 8 + 8 * k == 512 * q + 8 * (r + 1 + k);
    Residue512(q, r + 1 + k);
  }

  lemma LeastIsUnique(n: nat, k: nat)
    ensures IsLeast(n, k) <==> k == ZeroCount(n)
  {
    LeastZeros(n, ZeroCount(n));
    if k <= ZeroCount(n) {
      LeastZeros(n, k);
      forall j: nat | j < k ensures (8 * n + 8 + 8 * j) % 512 != 448 { LeastZeros(n, j); }
    }
  }

  /** For every length FIPS 180-4 admits, `Padding` is the padding of section 5.1.1 and the only one. */
  lemma PaddingIsFips(n: nat, pad: seq<Byte>)
    requires n < 0x2000_0000_0000_0000
    ensures IsFipsPadding(n, pad) <==> pad == Padding(n)
  {
    LeastIsUnique(n, ZeroCount(n));
    forall k: nat ensures IsLeast(n, k) <==> k == ZeroCount(n) {
      LeastIsUnique(n, k);
    }
  }
}

module Sha256Stream {
  import opened Bits
  import opened Sha256Spec
  import opened Slices

  method MessageSchedule(block: seq<Byte>) returns (schedule: array<Word>)
    requires |block| == 64
    ensures fresh(schedule) && schedule[..] == Schedule(block, 64)
  {
    schedule := new Word[64];
    for i := 0 to 16
      invariant schedule[..i] == Schedule(block, i)
    {
      schedule[i] := WordAt(block, i);
    }
    for i := 16 to 64
      invariant schedule[..i] == Schedule(block, i)
    {
      var x, y := schedule[i - 15], schedule[i - 2];
      var s0 := Xor(Xor(Rotr(x, 7), Rotr(x, 18)), Shr(x, 3));
      var s1 := Xor(Xor(Rotr(y, 17), Rotr(y, 19)), Shr(y, 10));
      ghost var w := schedule[..i];
      AddOrder(schedule[i - 16], s0, schedule[i - 7], s1);
      schedule[i] := Add(Add(Add(schedule[i - 16], s0), schedule[i - 7]), s1);
      assert schedule[..i + 1] == w + [schedule[i]];
    }
  }

  /** The hasher's state. `message` is everything `Update` has been given so far, `blocks` its full blocks. */
  class Sha256 {
    var state: array<Word>
    var buffer: array<Byte>
    var buffered: nat
    var totalLen: nat
    ghost var message: seq<Byte>
    ghost var blocks: nat

    ghost function State(): Words
      requires state.Length == 8
      reads this, state
    {
      Words(state[0], state[1], state[2], state[3], state[4], state[5], state[6], state[7])
    }

    /** The state has absorbed every full block; the buffer holds exactly the unprocessed tail. */
    ghost predicate Absorbed()
      reads this, state, buffer
    {
      Holding() && buffered < 64
    }

    /** The same, but the buffer may have just filled up. */
    ghost predicate Holding()
      reads this, state, buffer
    {
      && state.Length == 8
      && buffer.Length == 64
      && buffered <= 64
      && |message| == 64 * blocks + buffered
      && buffer[..buffered] == message[64 * blocks..]
      && State() == Hash(message, blocks)
    }

    ghost predicate Valid()
      reads this, state, buffer
    {
      Absorbed() && totalLen == Wrap64(|message|)
    }

    constructor ()
      ensures Valid() && fresh(state) && fresh(buffer)
      ensures message == []
    {
      state := new Word[] [0x6a09e667, 0xbb67ae85, 0x3c6ef372, 0xa54ff53a,
                           0x510e527f, 0x9b05688c, 0x1f83d9ab, 0x5be0cd19];
      buffer := new Byte[64](_ => 0);
      buffered := 0;
      totalLen := 0;
      message, blocks := [], 0;
    }

    /** Absorbs block n of `m` into a state that has absorbed the n blocks before it. */
    method Compress(block: seq<Byte>, ghost m: seq<Byte>, ghost n: nat)
      requires state.Length == 8
      requires 64 * n + 64 <= |m| && block == BlockAt(m, n)
      requires State() == Hash(m, n)
      modifies state
      ensures State() == Hash(m, n + 1)
    {
      var schedule := MessageSchedule(block);
      var a, b, c, d, e, f, g, h := state[0], state[1], state[2], state[3], state[4], state[5], state[6], state[7];
      ghost var w := schedule[..];
      for i := 0 to 64
        invariant schedule[..] == w == Schedule(block, 64)
        invariant State() == Hash(m, n)
        invariant Words(a, b, c, d, e, f, g, h) == Rounds(m, n, i)
        modifies {}
      {
        var sum1 := Xor(Xor(Rotr(e, 6), Rotr(e, 11)), Rotr(e, 25));
        var choice := Xor(And(e, f), And(Not(e), g));
        var temp1 := Add(Add(Add(Add(h, sum1), choice), K[i]), schedule[i]);
        var sum0 := Xor(Xor(Rotr(a, 2), Rotr(a, 13)), Rotr(a, 22));
        var majority := Xor(Xor(And(a, b), And(a, c)), And(b, c));
        var temp2 := Add(sum0, majority);
        h := g;
        g := f;
        f := e;
        e := Add(d, temp1);
        d := c;
        c := b;
        b := a;
        a := Add(temp1, temp2);
      }
      AddInto(a, b, c, d, e, f, g, h);
      assert Hash(m, n + 1) == AfterBlock(m, n);
    }

    method AddInto(a: Word, b: Word, c: Word, d: Word, e: Word, f: Word, g: Word, h: Word)
      requires state.Length == 8
      modifies state
      ensures State() == Sum(old(State()), Words(a, b, c, d, e, f, g, h))
    {
      state[0], state[1], state[2], state[3] := Add(state[0], a), Add(state[1], b), Add(state[2], c), Add(state[3], d);
      state[4], state[5], state[6], state[7] := Add(state[4], e), Add(state[5], f), Add(state[6], g), Add(state[7], h);
    }

    method Update(input: seq<Byte>)
      requires Valid()
      modifies this, state, buffer
      ensures Valid() && state == old(state) && buffer == old(buffer)
      ensures message == old(message) + input
    {
      totalLen := Wrap64(totalLen + |input|);
      Wrap64Add(|message|, |input|);
      Absorb(input);
    }

    method Absorb(input: seq<Byte>)
      requires Absorbed()
      modifies this`buffered, this`message, this`blocks, state, buffer
      ensures Absorbed() && message == old(message) + input
    {
      var rest := FillFirst(input);
      rest := AbsorbBlocks(rest);
      Keep(rest);
    }

    /** Fills a partly filled buffer from the start of the input and gives back what is left. */
    method FillFirst(input: seq<Byte>) returns (rest: seq<Byte>)
      requires Absorbed()
      modifies this`buffered, this`message, this`blocks, state, buffer
      ensures Absorbed() && (rest != [] ==> buffered == 0)
      ensures message + rest == old(message) + input
    {
      if buffered == 0 {
        return input;
      }
      var take := if 64 - buffered < |input| then 64 - buffered else |input|;
      TopUp(input[..take]);
      rest := input[take..];
      assert old(message) + input[..take] + rest == old(message) + input;
    }

    /** Compresses the whole blocks of the input and gives back what is left. */
    method AbsorbBlocks(input: seq<Byte>) returns (rest: seq<Byte>)
      requires Absorbed() && (input != [] ==> buffered == 0)
      modifies this`message, this`blocks, state
      ensures Absorbed()
      ensures |rest| < 64 && (rest != [] ==> buffered == 0)
      ensures message + rest == old(message) + input
    {
      rest := input;
      while |rest| >= 64
        invariant Absorbed()
        invariant rest != [] ==> buffered == 0
        invariant message + rest == old(message) + input
      {
        assert message + rest == message + rest[..64] + rest[64..];
        AbsorbWhole(rest[..64]);
        rest := rest[64..];
      }
    }

    /** Extends a partly filled buffer and compresses it once it is full. */
    method TopUp(input: seq<Byte>)
      requires Absorbed() && buffered != 0 && buffered + |input| <= 64
      modifies this`buffered, this`message, this`blocks, state, buffer
      ensures Absorbed()
      ensures message == old(message) + input
      ensures buffered == if old(buffered) + |input| == 64 then 0 else old(buffered) + |input|
    {
      Extend(input);
      if buffered == 64 {
        CompressBuffer();
      }
    }

    method Extend(input: seq<Byte>)
      requires Absorbed() && buffered + |input| <= 64
      modifies this`buffered, this`message, buffer
      ensures Holding()
      ensures message == old(message) + input && buffered == old(buffered) + |input|
    {
      CopyInto(buffer, buffered, input);
      ghost var before := message;
      buffered := buffered + |input|;
      message := message + input;
      assert buffer[..buffered] == before[64 * blocks..] + input == message[64 * blocks..];
      HashOfPrefix(before, message, blocks);
    }

    method CompressBuffer()
      requires Holding() && buffered == 64
      modifies this`buffered, this`blocks, state
      ensures Absorbed() && buffered == 0
    {
      assert buffer[..] == buffer[..64] == BlockAt(message, blocks);
      Compress(buffer[..], message, blocks);
      buffered := 0;
      blocks := blocks + 1;
    }

    /** Compresses a block straight from the input while the buffer is empty. */
    method AbsorbWhole(block: seq<Byte>)
      requires Absorbed() && buffered == 0 && |block| == 64
      modifies this`message, this`blocks, state
      ensures Absorbed()
      ensures message == old(message) + block
    {
      BlockAppended(message, block, blocks);
      message := message + block;
      Compress(block, message, blocks);
      blocks := blocks + 1;
    }

    /** Buffers the end of the input. */
    method Keep(rest: seq<Byte>)
      requires Absorbed() && |rest| < 64 && (rest != [] ==> buffered == 0)
      modifies this`buffered, this`message, buffer
      ensures Absorbed()
      ensures message == old(message) + rest
    {
      if rest != [] {
        CopyInto(buffer, 0, rest);
        buffered := |rest|;
        HashOfPrefix(message, message + rest, blocks);
        message := message + rest;
      } else {
        assert message + rest == message;
      }
    }

    /** Consumes the hasher; the digest is the one of everything it was given. */
    method Finalize() returns (output: seq<Byte>)
      requires Valid()
      modifies this, state, buffer
      ensures output == Digest(old(message))
    {
      ghost var n := FinishBlocks();
      DigestAfter(message, n);
      output := StateBytes();
    }

    /** Pads the message and absorbs what the padding adds. */
    method FinishBlocks() returns (ghost n: nat)
      requires Valid()
      modifies this`buffered, state, buffer
      ensures state.Length == 8
      ensures |Padded(message)| == 64 * n && State() == Hash(Padded(message), n)
    {
      var bitLen := Wrap64(totalLen * 8);
      Wrap64Times8(|message|);
      ghost var padded := Padded(message);
      HashOfPrefix(message, padded, blocks);
      LastBlocks(message, blocks);
      MarkEnd();
      assert buffer[..buffered] == message[64 * blocks..] + [0x80];
      n := FinishFrom(bitLen, padded, blocks);
    }

    method MarkEnd()
      requires buffer.Length == 64 && buffered < 64
      modifies this`buffered, buffer
      ensures buffered == old(buffered) + 1 && buffer[..buffered] == old(buffer[..buffered]) + [0x80]
    {
      buffer[buffered] := 0x80;
      buffered := buffered + 1;
    }

    method FinishFrom(bitLen: nat, ghost m: seq<Byte>, ghost k: nat) returns (ghost n: nat)
      requires state.Length == 8 && buffer.Length == 64 && buffered <= 64 && bitLen < 0x1_0000_0000_0000_0000
      requires EndsWith(m, k, buffer[..buffered], BigEndian64(bitLen)) && State() == Hash(m, k)
      modifies this`buffered, state, buffer
      ensures |m| == 64 * n && State() == Hash(m, n)
    {
      n := k;
      if buffered > 56 {
        Spill(m, n);
        n := n + 1;
        assert buffer[..buffered] == [];
      }
      Close(bitLen, m, n);
      n := n + 1;
    }

    /** No room for the length: fills the block with zeros, compresses it and starts an empty one. */
    method Spill(ghost m: seq<Byte>, ghost n: nat)
      requires state.Length == 8 && buffer.Length == 64 && buffered <= 64
      requires 64 * n + 64 <= |m| && BlockAt(m, n) == buffer[..buffered] + Zeros(64 - buffered)
      requires State() == Hash(m, n)
      modifies this`buffered, state, buffer
      ensures State() == Hash(m, n + 1) && buffered == 0
    {
      Fill(buffer, buffered, 64, 0);
      Compress(buffer[..], m, n);
      Fill(buffer, 0, 64, 0);
      buffered := 0;
    }

    /** Ends the last block with zeros up to byte 56 and the bit count, and compresses it. */
    method Close(bitLen: nat, ghost m: seq<Byte>, ghost n: nat)
      requires state.Length == 8 && buffer.Length == 64 && buffered <= 56 && bitLen < 0x1_0000_0000_0000_0000
      requires 64 * n + 64 <= |m|
      requires BlockAt(m, n) == buffer[..buffered] + Zeros(56 - buffered) + BigEndian64(bitLen)
      requires State() == Hash(m, n)
      modifies state, buffer
      ensures State() == Hash(m, n + 1)
    {
      Fill(buffer, buffered, 56, 0);
      CopyInto(buffer, 56, BigEndian64(bitLen));
      Compress(buffer[..], m, n);
    }

    method StateBytes() returns (output: seq<Byte>)
      requires state.Length == 8
      ensures output == DigestBytes(State())
    {
      output := [];
      for i := 0 to 8
        invariant |output| == 4 * i
        invariant forall j :: 0 <= j < i ==> output[4 * j..4 * j + 4] == WordBytes(state[j])
      {
        output := output + WordBytes(state[i]);
      }
    }
  }

  /** One more block behind n whole ones. */
  lemma BlockAppended(m: seq<Byte>, block: seq<Byte>, n: nat)
    requires |m| == 64 * n && |block| == 64
    ensures BlockAt(m + block, n) == block && (m + block)[64 * (n + 1)..] == []
    ensures Hash(m + block, n) == Hash(m, n)
  {
    assert (m + block)[..64 * n] == m == m[..64 * n];
    HashOfPrefix(m, m + block, n);
  }

  lemma WholeBlocks(length: nat, n: nat)
    requires length == 64 * n
    ensures length / 64 == n
  {
  }

  lemma DigestAfter(m: seq<Byte>, n: nat)
    requires |Padded(m)| == 64 * n
    ensures Digest(m) == DigestBytes(Hash(Padded(m), n))
  {
    WholeBlocks(|Padded(m)|, n);
  }

  /** What follows the full blocks: the tail and 0x80, zeros, and the length. */
  lemma LastBytes(m: seq<Byte>, n: nat)
    requires 64 * n <= |m| < 64 * n + 64
    ensures var padded, tail := Padded(m), m[64 * n..] + [0x80];
      && |padded| == (if |tail| <= 56 then 64 * n + 64 else 64 * n + 128)
      && padded[64 * n..] == tail + Zeros(|padded| - 64 * n - |tail| - 8) + BigEndian64(Wrap64(8 * |m|))
  {
    TailLength(|m|, n);
    TailJoined(m, n, Zeros(ZeroCount(|m|)), BigEndian64(Wrap64(8 * |m|)));
  }

  lemma TailLength(length: nat, n: nat)
    requires 64 * n <= length < 64 * n + 64
    ensures length + 9 + ZeroCount(length) == if length - 64 * n < 56 then 64 * n + 64 else 64 * n + 128
  {
    assert length % 64 == length - 64 * n;
  }

  lemma TailJoined(m: seq<Byte>, n: nat, zeros: seq<Byte>, length: seq<Byte>)
    requires 64 * n <= |m|
    ensures (m + ([0x80] + zeros + length))[64 * n..] == m[64 * n..] + [0x80] + zeros + length
  {
  }

  /** The blocks of `m` from block k on are the tail, zeros and the eight bytes of the length: one block, or two
      when the length does not fit in the first. */
  ghost predicate EndsWith(m: seq<Byte>, k: nat, tail: seq<Byte>, length: seq<Byte>)
    requires |tail| <= 64
  {
    if |tail| <= 56
    then |m| == 64 * k + 64 && BlockAt(m, k) == tail + Zeros(56 - |tail|) + length
    else && |m| == 64 * k + 128 && BlockAt(m, k) == tail + Zeros(64 - |tail|)
         && BlockAt(m, k + 1) == [] + Zeros(56) + length
  }

  lemma EndOf(m: seq<Byte>, k: nat, tail: seq<Byte>, length: seq<Byte>)
    requires |tail| <= 64 && |length| == 8 && |m| == 64 * k + if |tail| <= 56 then 64 else 128
    requires m[64 * k..] == tail + Zeros(|m| - 64 * k - |tail| - 8) + length
    ensures EndsWith(m, k, tail, length)
  {
    var rest := m[64 * k..];
    if |tail| > 56 {
      assert Zeros(120 - |tail|) == Zeros(64 - |tail|) + Zeros(56);
      assert rest == (tail + Zeros(64 - |tail|)) + ([] + Zeros(56) + length);
      assert BlockAt(m, k) == rest[..64];
      assert BlockAt(m, k + 1) == rest[64..];
    }
  }

  lemma LastBlocks(m: seq<Byte>, n: nat)
    requires 64 * n <= |m| < 64 * n + 64
    ensures EndsWith(Padded(m), n, m[64 * n..] + [0x80], BigEndian64(Wrap64(8 * |m|)))
  {
    LastBytes(m, n);
    EndOf(Padded(m), n, m[64 * n..] + [0x80], BigEndian64(Wrap64(8 * |m|)));
  }
}
