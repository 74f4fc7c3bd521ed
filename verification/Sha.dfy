/** SHA-256 over a block buffer, for any compression function: however the data is
    split, the message hashed is the one padded as section 5.1.1 of FIPS 180-4
    says, and the digest is the chain value's bytes, big end first. */
module Sha {
  import opened Basics

  type Word = w: int | 0 <= w < 0x1_0000_0000
  type Chain = s: seq<Word> | |s| == 8 witness [0, 0, 0, 0, 0, 0, 0, 0]
  type Compression = (Chain, seq<Byte>) -> Chain

  const BLOCK := 64
  const WRAP := 0x1_0000_0000_0000_0000

  /** The chain value after a message of whole blocks. */
  function Chained(f: Compression, h: Chain, m: seq<Byte>): Chain
    requires |m| % BLOCK == 0
    decreases |m|
  {
    if m == [] then h else Chained(f, f(h, m[..BLOCK]), m[BLOCK..])
  }

  lemma {:induction false} ChainedAppend(f: Compression, h: Chain, m: seq<Byte>, b: seq<Byte>)
    requires |m| % BLOCK == 0 && |b| == BLOCK
    ensures |m + b| % BLOCK == 0 && Chained(f, h, m + b) == f(Chained(f, h, m), b)
    ensures Chained(f, h, b) == f(h, b)
    decreases |m|
  {
    assert b[..BLOCK] == b && b[BLOCK..] == [];
    if m == [] {
      assert m + b == b;
    } else {
      assert (m + b)[..BLOCK] == m[..BLOCK] && (m + b)[BLOCK..] == m[BLOCK..] + b;
      ChainedAppend(f, f(h, m[..BLOCK]), m[BLOCK..], b);
    }
  }

  function Zeros(n: nat): (s: seq<Byte>)
    ensures |s| == n && forall i :: 0 <= i < n ==> s[i] == 0
  {
    if n == 0 then [] else Zeros(n - 1) + [0]
  }

  /** The last `n` base-256 digits of a number, big end first. */
  function BigEndian(v: nat, n: nat): (s: seq<Byte>)
    ensures |s| == n
  {
    if n == 0 then [] else BigEndian(v / 256, n - 1) + [v % 256]
  }

  function Number(s: seq<Byte>): nat {
    if s == [] then 0 else Number(s[..|s| - 1]) * 256 + s[|s| - 1]
  }

  function Power(n: nat): (p: nat)
    ensures p > 0
  {
    if n == 0 then 1 else 256 * Power(n - 1)
  }

  lemma {:induction false} NumberBigEndian(v: nat, n: nat)
    requires v < Power(n)
    ensures Number(BigEndian(v, n)) == v
  {
    if n > 0 {
      NumberBigEndian(v / 256, n - 1);
      assert BigEndian(v, n)[..n - 1] == BigEndian(v / 256, n - 1);
    }
  }

  /** How many zeros bring the length to eight bytes short of a block. */
  function Fill(len: nat): (k: nat)
    ensures k < BLOCK && (len + 1 + k) % BLOCK == BLOCK - 8
  {
    if len % BLOCK <= 55 then 55 - len % BLOCK else 119 - len % BLOCK
  }

  /** Section 5.1.1: a one bit, the fewest zeros that fit, and the length in bits. */
  function Padded(m: seq<Byte>): (p: seq<Byte>)
    ensures |p| % BLOCK == 0 && m <= p
  {
    hide Zeros, BigEndian, Fill;
    var tail := [0x80] + Zeros(Fill(|m|)) + BigEndian(8 * |m| % WRAP, 8);
    WholeBlocks(|m|, Fill(|m|), |tail|);
    m + tail
  }

  lemma WholeBlocks(len: nat, k: nat, tail: nat)
    requires (len + 1 + k) % BLOCK == BLOCK - 8 && tail == k + 9
    ensures (len + tail) % BLOCK == 0
  {
  }

  /** No fewer zeros would do. */
  lemma FillLeast(len: nat, k: nat)
    requires (len + 1 + k + 8) % BLOCK == 0
    ensures k >= Fill(len)
  {
  }

  lemma WrapIsPower()
    ensures Power(8) == WRAP
  {
    assert Power(2) == 65536 && Power(4) == 65536 * 65536;
  }

  /** Byte by byte: the message, a one bit, zeros, and the length in bits at the
      end of the first block that has room for it. */
  lemma PaddedBytes(m: seq<Byte>)
    ensures var p := Padded(m); var n := |p| - 8;
      && |m| < n < |m| + BLOCK + 1 && p[..|m|] == m && p[|m|] == 0x80
      && (forall i :: |m| < i < n ==> p[i] == 0)
      && Number(p[n..]) == 8 * |m| % WRAP
  {
    hide BigEndian, Zeros, Fill, Number;
    WrapIsPower();
    NumberBigEndian(8 * |m| % WRAP, 8);
    var front := m + [0x80] + Zeros(Fill(|m|));
    assert Padded(m) == front + BigEndian(8 * |m| % WRAP, 8);
    assert Padded(m)[|front|..] == BigEndian(8 * |m| % WRAP, 8);
  }

  /** Different messages are padded differently. */
  lemma PaddedInjective(a: seq<Byte>, b: seq<Byte>)
    requires 8 * |a| < WRAP && 8 * |b| < WRAP && Padded(a) == Padded(b)
    ensures a == b
  {
    hide Padded, Number;
    PaddedBytes(a);
    PaddedBytes(b);
  }

  /** The digest: eight words of four bytes. */
  function Digest(h: Chain): (s: seq<Byte>)
    ensures |s| == 32
  {
    DigestFrom(h, 8)
  }

  function DigestFrom(h: Chain, n: nat): (s: seq<Byte>)
    requires n <= 8
    ensures |s| == 4 * n
  {
    if n == 0 then [] else DigestFrom(h, n - 1) + BigEndian(h[n - 1], 4)
  }

  /** Word `i` of the chain value stands in bytes 4i to 4i + 3, big end first. */
  lemma {:induction false} DigestWord(h: Chain, n: nat, i: nat)
    requires i < n <= 8
    ensures var four := DigestFrom(h, n)[4 * i..4 * i + 4];
      && Number(four) == h[i]
      && four == [h[i] / 0x100_0000 % 256, h[i] / 0x1_0000 % 256, h[i] / 0x100 % 256, h[i] % 256]
  {
    hide BigEndian, Number, Power;
    if i < n - 1 {
      DigestWord(h, n - 1, i);
      assert DigestFrom(h, n)[4 * i..4 * i + 4] == DigestFrom(h, n - 1)[4 * i..4 * i + 4];
    } else {
      assert DigestFrom(h, n)[4 * i..4 * i + 4] == BigEndian(h[i], 4);
      FourBytes(h[i]);
      FourPower();
      NumberBigEndian(h[i], 4);
    }
  }

  lemma FourPower()
    ensures Power(4) == 0x1_0000_0000
  {
    assert Power(2) == 65536;
  }

  lemma FourBytes(w: Word)
    ensures BigEndian(w, 4) == [w / 0x100_0000 % 256, w / 0x1_0000 % 256, w / 0x100 % 256, w % 256]
  {
    var a: nat := w / 256;
    var b: nat := a / 256;
    var c: nat := b / 256;
    assert BigEndian(c, 1) == [c % 256] by { assert BigEndian(c / 256, 0) == []; }
    assert BigEndian(b, 2) == [c % 256, b % 256];
    assert BigEndian(a, 3) == [c % 256, b % 256, a % 256];
    assert b == w / 0x1_0000 && c == w / 0x100_0000;
  }

  /** A number shifted right by `i` bytes. */
  function Shifted(v: nat, i: nat): (r: nat) {
    if i == 0 then v else Shifted(v, i - 1) / 256
  }

  lemma {:induction false} ZerosAppend(a: nat, b: nat)
    ensures Zeros(a) + Zeros(b) == Zeros(a + b)
  {
    if b > 0 {
      ZerosAppend(a, b - 1);
      assert Zeros(a) + Zeros(b) == Zeros(a) + Zeros(b - 1) + [0];
    }
  }

  /** Padding that fits the last block, and padding that needs one more. */
  lemma PaddedOne(m: seq<Byte>, whole: seq<Byte>, t: seq<Byte>)
    requires m == whole + t && |whole| % BLOCK == 0 && |t| <= 55
    ensures whole + (t + [0x80] + Zeros(55 - |t|) + BigEndian(8 * |m| % WRAP, 8)) == Padded(m)
  {
    hide Zeros, BigEndian;
    assert Fill(|m|) == 55 - |t|;
  }

  lemma PaddedTwo(m: seq<Byte>, whole: seq<Byte>, t: seq<Byte>)
    requires m == whole + t && |whole| % BLOCK == 0 && 56 <= |t| <= 63
    ensures whole + (t + [0x80] + Zeros(63 - |t|)) + (Zeros(56) + BigEndian(8 * |m| % WRAP, 8)) == Padded(m)
  {
    hide Zeros, BigEndian;
    assert Fill(|m|) == 63 - |t| + 56;
    ZerosAppend(63 - |t|, 56);
  }

  lemma WrapAdd(a: nat, n: nat)
    ensures (a % WRAP + n) % WRAP == (a + n) % WRAP
  {
  }

  lemma WrapBits(a: nat)
    ensures a % WRAP * 8 % WRAP == 8 * a % WRAP
  {
  }

  lemma Slices(was: seq<Byte>, data: seq<Byte>, p: nat, n: nat)
    requires p + n <= |data|
    ensures was + data[..p] + data[p..p + n] == was + data[..p + n]
  {
  }

  lemma WholePart(len: nat)
    ensures (len - len % BLOCK) % BLOCK == 0
  {
  }

  class Sha256 {
    const compress: Compression
    const initial: Chain
    var state: Chain
    const block: array<Byte>
    var used: nat
    var bytes: nat
    /** Everything hashed so far. */
    ghost var fed: seq<Byte>

    /** The buffer holds what no whole block has taken yet. */
    ghost predicate Buffered()
      reads this`state, this`used, this`fed, block
    {
      && block.Length == BLOCK && used < BLOCK && used == |fed| % BLOCK
      && block[..used] == fed[|fed| - used..]
      && state == Chained(compress, initial, fed[..|fed| - used])
    }

    ghost predicate Valid()
      reads this, block
    {
      Buffered() && bytes == |fed| % WRAP
    }

    /** q36_sha256_init. */
    constructor (f: Compression, h: Chain)
      ensures Valid() && fed == [] && compress == f && initial == h && fresh(block)
    {
      compress, initial, state := f, h, h;
      block := new Byte[64];
      used, bytes, fed := 0, 0, [];
    }

    /** memcpy into the block buffer. */
    method Fetch(p: seq<Byte>)
      requires block.Length == BLOCK && used + |p| <= BLOCK
      modifies block
      ensures block[..used + |p|] == old(block[..used]) + p
    {
      for i := 0 to |p|
        invariant block[..used + i] == old(block[..used]) + p[..i]
      {
        block[used + i] := p[i];
        assert block[..used + i + 1] == block[..used + i] + [p[i]];
      }
    }

    /** q36_sha256_update. */
    method Update(data: seq<Byte>)
      requires Valid()
      modifies this, block
      ensures Valid() && fed == old(fed) + data
    {
      hide Buffered;
      WrapAdd(|fed|, |data|);
      bytes := (bytes + |data|) % WRAP;
      Absorb(data);
    }

    /** Its loop: the buffer is filled and emptied as often as it takes. */
    method Absorb(data: seq<Byte>)
      requires Buffered()
      modifies this`state, this`used, this`fed, block
      ensures Buffered() && fed == old(fed) + data
    {
      assert used < BLOCK;
      hide Buffered;
      var p := 0;
      while p < |data|
        invariant 0 <= p <= |data| && fed == old(fed) + data[..p] && Buffered() && used < BLOCK
      {
        var take := BLOCK - used;
        if take > |data| - p { take := |data| - p; }
        Slices(old(fed), data, p, take);
        Take(data[p..p + take]);
        p := p + take;
      }
      assert data[..p] == data;
    }

    lemma Holds(whole: seq<Byte>, tail: seq<Byte>)
      requires block.Length == BLOCK && fed == whole + tail && |whole| % BLOCK == 0 && used == |tail| < BLOCK
      requires block[..used] == tail && state == Chained(compress, initial, whole)
      ensures Buffered()
    {
      hide Chained;
      assert fed[..|fed| - used] == whole && fed[|fed| - used..] == tail;
    }

    /** One turn of the loop. */
    method Take(p: seq<Byte>)
      requires Buffered() && 0 < |p| <= BLOCK - used
      modifies this`state, this`used, this`fed, block
      ensures Buffered() && used < BLOCK && fed == old(fed) + p
    {
      hide Chained;
      ghost var whole, tail := fed[..|fed| - used], block[..used];
      WholePart(|fed|);
      assert fed == whole + tail;
      Regroup(whole, tail, p);
      hide Sha256.Buffered;
      Fetch(p);
      fed := fed + p;
      used := used + |p|;
      if used == BLOCK { Compress(whole); } else { Holds(whole, tail + p); }
    }

    /** q36_sha256_block on a full buffer, which is then empty. */
    method Compress(ghost whole: seq<Byte>)
      requires used == BLOCK == block.Length && fed == whole + block[..used] && |whole| % BLOCK == 0
      requires state == Chained(compress, initial, whole)
      modifies this`state, this`used
      ensures Buffered() && used == 0
    {
      hide Chained, Sha256.Buffered;
      assert block[..] == block[..used];
      ChainedAppend(compress, initial, whole, block[..]);
      state := compress(state, block[..]);
      used := 0;
      assert fed + [] == fed && block[..0] == [];
      Holds(fed, []);
    }

    method Clear(upTo: nat)
      requires block.Length == BLOCK && used <= upTo <= BLOCK
      modifies block
      ensures block[..upTo] == old(block[..used]) + Zeros(upTo - used)
      ensures block[upTo..] == old(block[upTo..])
    {
      for i := used to upTo
        invariant block[..i] == old(block[..used]) + Zeros(i - used)
        invariant block[upTo..] == old(block[upTo..])
      {
        block[i] := 0;
        assert block[..i + 1] == block[..i] + [0];
      }
    }

    method PutLength(bits: nat)
      requires block.Length == BLOCK
      modifies block
      ensures block[..] == old(block[..BLOCK - 8]) + BigEndian(bits, 8)
    {
      ghost var front := block[..BLOCK - 8];
      assert block[64..] == [];
      for i := 0 to 8
        invariant block[..BLOCK - 8] == front
        invariant BigEndian(Shifted(bits, i), 8 - i) + block[64 - i..] == BigEndian(bits, 8)
      {
        ghost var done := block[64 - i..];
        block[63 - i] := Shifted(bits, i) % 256;
        assert block[63 - i..] == [block[63 - i]] + done;
      }
      assert block[..] == front + block[56..];
    }

    /** The block that is full, or too full for the length. */
    method Flush(ghost whole: seq<Byte>)
      requires block.Length == BLOCK && 56 < used <= BLOCK && |whole| % BLOCK == 0
      requires state == Chained(compress, initial, whole)
      modifies this`state, this`used, block
      ensures used == 0
      ensures var last := old(block[..used]) + Zeros(BLOCK - old(used));
        |whole + last| % BLOCK == 0 && state == Chained(compress, initial, whole + last)
    {
      hide Chained, Zeros;
      Clear(64);
      assert block[..] == block[..64];
      ChainedAppend(compress, initial, whole, block[..]);
      state := compress(state, block[..]);
      used := 0;
    }

    /** The block that ends with the length. */
    method Close(ghost whole: seq<Byte>, bits: nat)
      requires block.Length == BLOCK && used <= 56 && |whole| % BLOCK == 0
      requires state == Chained(compress, initial, whole)
      modifies this`state, block
      ensures var last := old(block[..used]) + Zeros(56 - used) + BigEndian(bits, 8);
        |whole + last| % BLOCK == 0 && state == Chained(compress, initial, whole + last)
    {
      hide Chained, Zeros, BigEndian;
      Clear(56);
      PutLength(bits);
      ChainedAppend(compress, initial, whole, block[..]);
      state := compress(state, block[..]);
    }

    /** The end of the message: one or two more blocks. */
    method Pad(ghost m: seq<Byte>, ghost whole: seq<Byte>, bits: nat)
      requires block.Length == BLOCK && used < BLOCK && |whole| % BLOCK == 0
      requires m == whole + block[..used] && bits == 8 * |m| % WRAP && state == Chained(compress, initial, whole)
      modifies this`state, this`used, block
      ensures state == Chained(compress, initial, Padded(m))
    {
      hide Chained, Padded, Zeros, BigEndian;
      ghost var t := block[..used];
      block[used] := 0x80;
      used := used + 1;
      assert block[..used] == t + [0x80];
      if used > 56 {
        PaddedTwo(m, whole, t);
        Flush(whole);
        assert block[..used] + Zeros(56) == Zeros(56);
        Close(whole + (t + [0x80] + Zeros(63 - |t|)), bits);
      } else {
        PaddedOne(m, whole, t);
        Close(whole, bits);
      }
    }

    /** The message so far as whole blocks and what the buffer holds. */
    lemma Rest()
      requires Valid()
      ensures block.Length == BLOCK && used < BLOCK && used <= |fed| && (|fed| - used) % BLOCK == 0
      ensures fed == fed[..|fed| - used] + block[..used] && bytes * 8 % WRAP == 8 * |fed| % WRAP
      ensures state == Chained(compress, initial, fed[..|fed| - used])
    {
      hide Chained;
      WrapBits(|fed|);
      Rested();
      hide Sha256.Buffered;
    }

    lemma Rested()
      requires Buffered()
      ensures block.Length == BLOCK && used < BLOCK && used <= |fed| && (|fed| - used) % BLOCK == 0
      ensures fed == fed[..|fed| - used] + block[..used]
      ensures state == Chained(compress, initial, fed[..|fed| - used])
    {
      hide Chained;
      WholePart(|fed|);
      assert fed == fed[..|fed| - used] + fed[|fed| - used..];
    }

    /** q36_sha256_final: the padded message's last blocks, and the digest. */
    method Final(out: array<Byte>)
      requires Valid() && out.Length == 32 && out != block
      modifies this, block, out
      ensures out[..] == Digest(Chained(compress, initial, Padded(old(fed))))
      ensures forall i :: 0 <= i < 8 ==>
        Number(out[4 * i..4 * i + 4]) == Chained(compress, initial, Padded(old(fed)))[i]
    {
      hide Sha256.Buffered, Sha256.Valid, Chained, Padded, Digest, Number;
      Rest();
      var bits := bytes * 8 % WRAP;
      Pad(fed, fed[..|fed| - used], bits);
      Emit(out);
    }

    method Emit(out: array<Byte>)
      requires out.Length == 32
      modifies out
      ensures out[..] == Digest(state)
      ensures forall i :: 0 <= i < 8 ==> Number(out[4 * i..4 * i + 4]) == state[i]
    {
      hide Number;
      for i := 0 to 8
        invariant out[..4 * i] == DigestFrom(state, i)
      {
        FourBytes(state[i]);
        var w := state[i];
        out[i * 4] := w / 0x100_0000 % 256;
        out[i * 4 + 1] := w / 0x1_0000 % 256;
        out[i * 4 + 2] := w / 0x100 % 256;
        out[i * 4 + 3] := w % 256;
        assert out[..4 * (i + 1)] == out[..4 * i] + [out[4 * i], out[4 * i + 1], out[4 * i + 2], out[4 * i + 3]];
      }
      assert out[..] == out[..32];
      forall i | 0 <= i < 8 ensures Number(out[4 * i..4 * i + 4]) == state[i] {
        DigestWord(state, 8, i);
        assert out[4 * i..4 * i + 4] == out[..][4 * i..4 * i + 4];
      }
    }
  }

  /** How the data is cut into updates does not matter. */
  method HashPieces(f: Compression, h: Chain, pieces: seq<seq<Byte>>) returns (digest: seq<Byte>)
    ensures digest == Digest(Chained(f, h, Padded(Joined(pieces))))
  {
    hide Digest, Chained, Padded;
    var sha := new Sha256(f, h);
    assert pieces[..0] == [];
    for i := 0 to |pieces|
      invariant sha.Valid() && fresh(sha) && fresh(sha.block) && sha.compress == f && sha.initial == h
      invariant sha.fed == Joined(pieces[..i])
    {
      sha.Update(pieces[i]);
      assert pieces[..i + 1][..i] == pieces[..i];
    }
    assert pieces[..|pieces|] == pieces;
    var out := new Byte[32];
    sha.Final(out);
    digest := out[..];
  }
}
