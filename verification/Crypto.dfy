/**
 The encrypted message format: an initialisation vector, and then, in cipher block chaining, the hash of
 the message, the message, and padding.  Chaining is that of section 6.2 of NIST SP 800-38A and padding
 that of section 6.3 of RFC 5652.  What the program calls encryption runs the chaining mode's decryption,
 and the other way round.
 */
module Crypto {
  import opened Base

  type Bytes = seq<bv8>

  const IV_SIZE: nat := 16
  const BLOCK_SIZE: nat := 16
  const KEY_SIZE: nat := 32
  const SHA_SIZE: nat := 64

  /** The block cipher, forward and backward, and the hash: foreign code. */
  datatype Primitives = Primitives(forward: (Bytes, Bytes) -> Bytes, backward: (Bytes, Bytes) -> Bytes, sha: Bytes -> Bytes)

  /** Both directions map blocks to blocks, and the forward one undoes the backward one. */
  ghost predicate Sound(p: Primitives, key: Bytes) {
    && (forall b :: |b| == BLOCK_SIZE ==> |p.forward(key, b)| == BLOCK_SIZE && |p.backward(key, b)| == BLOCK_SIZE)
    && (forall b :: |b| == BLOCK_SIZE ==> p.forward(key, p.backward(key, b)) == b)
    && (forall m :: |p.sha(m)| == SHA_SIZE)
  }

  /** The laws are needed of proper keys only; with any other key nothing is encrypted or decrypted. */
  ghost predicate Usable(p: Primitives, key: Bytes) {
    |key| == KEY_SIZE ==> Sound(p, key)
  }

  /** The backward direction undoes the forward one too, as it does for a block cipher. */
  ghost predicate Bijective(p: Primitives, key: Bytes) {
    Sound(p, key) && forall b :: |b| == BLOCK_SIZE ==> p.backward(key, p.forward(key, b)) == b
  }

  function Xor(a: Bytes, b: Bytes): (r: Bytes)
    requires |a| == |b|
    ensures |r| == |a|
  {
    seq(|a|, i requires 0 <= i < |a| => a[i] ^ b[i])
  }

  lemma XorTwice(a: Bytes, b: Bytes)
    requires |a| == |b|
    ensures Xor(Xor(a, b), b) == a
  {}

  datatype Mode = Backward | Forward

  /** One block, and the chaining value after it. */
  function CbcBlock(p: Primitives, mode: Mode, key: Bytes, chain: Bytes, block: Bytes): (Bytes, Bytes) {
    match mode
    case Backward =>
      var x := p.backward(key, block);
      (if |x| == |chain| then Xor(x, chain) else x, block)
    case Forward =>
      var x := p.forward(key, if |block| == |chain| then Xor(block, chain) else block);
      (x, x)
  }

  predicate Whole(data: Bytes) {
    |data| % BLOCK_SIZE == 0
  }

  /** One pass over whole blocks. */
  function Cbc(p: Primitives, mode: Mode, key: Bytes, chain: Bytes, data: Bytes): Bytes
    requires Whole(data)
    decreases |data|
  {
    if data == [] then []
    else
      var (x, next) := CbcBlock(p, mode, key, chain, data[..BLOCK_SIZE]);
      x + Cbc(p, mode, key, next, data[BLOCK_SIZE..])
  }

  function CbcChain(p: Primitives, mode: Mode, key: Bytes, chain: Bytes, data: Bytes): Bytes
    requires Whole(data)
    decreases |data|
  {
    if data == [] then chain
    else CbcChain(p, mode, key, CbcBlock(p, mode, key, chain, data[..BLOCK_SIZE]).1, data[BLOCK_SIZE..])
  }

  lemma BlockSize(p: Primitives, mode: Mode, key: Bytes, chain: Bytes, block: Bytes)
    requires Sound(p, key) && |chain| == |block| == BLOCK_SIZE
    ensures |CbcBlock(p, mode, key, chain, block).0| == |CbcBlock(p, mode, key, chain, block).1| == BLOCK_SIZE
  {}

  lemma {:induction false} CbcSize(p: Primitives, mode: Mode, key: Bytes, chain: Bytes, data: Bytes)
    requires Sound(p, key) && Whole(data) && |chain| == BLOCK_SIZE
    ensures |Cbc(p, mode, key, chain, data)| == |data| && |CbcChain(p, mode, key, chain, data)| == BLOCK_SIZE
    decreases |data|
  {
    hide Sound, CbcBlock;
    if data != [] {
      BlockSize(p, mode, key, chain, data[..BLOCK_SIZE]);
      CbcSize(p, mode, key, CbcBlock(p, mode, key, chain, data[..BLOCK_SIZE]).1, data[BLOCK_SIZE..]);
    }
  }

  /** Two calls that continue each other's chain are one pass over both inputs. */
  lemma {:induction false} CbcSplit(p: Primitives, mode: Mode, key: Bytes, chain: Bytes, a: Bytes, b: Bytes)
    requires Whole(a) && Whole(b)
    ensures Whole(a + b)
    ensures Cbc(p, mode, key, chain, a + b) == Cbc(p, mode, key, chain, a) + Cbc(p, mode, key, CbcChain(p, mode, key, chain, a), b)
    ensures CbcChain(p, mode, key, chain, a + b) == CbcChain(p, mode, key, CbcChain(p, mode, key, chain, a), b)
    decreases |a|
  {
    hide CbcBlock;
    if a == [] {
      assert a + b == b;
    } else {
      assert (a + b)[..BLOCK_SIZE] == a[..BLOCK_SIZE] && (a + b)[BLOCK_SIZE..] == a[BLOCK_SIZE..] + b;
      CbcSplit(p, mode, key, CbcBlock(p, mode, key, chain, a[..BLOCK_SIZE]).1, a[BLOCK_SIZE..], b);
    }
  }

  lemma BlockUndone(p: Primitives, key: Bytes, chain: Bytes, block: Bytes)
    requires Sound(p, key) && |chain| == |block| == BLOCK_SIZE
    ensures CbcBlock(p, Forward, key, chain, CbcBlock(p, Backward, key, chain, block).0) == (block, block)
  {
    XorTwice(p.backward(key, block), chain);
  }

  /** The forward pass undoes the backward pass. */
  lemma {:induction false} CbcUndone(p: Primitives, key: Bytes, chain: Bytes, data: Bytes)
    requires Sound(p, key) && Whole(data) && |chain| == BLOCK_SIZE
    ensures Whole(Cbc(p, Backward, key, chain, data))
    ensures Cbc(p, Forward, key, chain, Cbc(p, Backward, key, chain, data)) == data
    decreases |data|
  {
    hide Sound;
    CbcSize(p, Backward, key, chain, data);
    if data != [] {
      var block := data[..BLOCK_SIZE];
      BlockSize(p, Backward, key, chain, block);
      BlockUndone(p, key, chain, block);
      CbcUndone(p, key, block, data[BLOCK_SIZE..]);
      var (x, next) := CbcBlock(p, Backward, key, chain, block);
      hide CbcBlock;
      var out := x + Cbc(p, Backward, key, next, data[BLOCK_SIZE..]);
      assert out[..BLOCK_SIZE] == x && out[BLOCK_SIZE..] == Cbc(p, Backward, key, next, data[BLOCK_SIZE..]);
      assert block + data[BLOCK_SIZE..] == data;
    }
  }

  lemma BlockRedone(p: Primitives, key: Bytes, chain: Bytes, block: Bytes)
    requires Bijective(p, key) && |chain| == |block| == BLOCK_SIZE
    ensures var (x, next) := CbcBlock(p, Forward, key, chain, block);
            CbcBlock(p, Backward, key, chain, x) == (block, next)
  {
    XorTwice(block, chain);
  }

  /** And the backward pass undoes the forward pass. */
  lemma {:induction false} CbcRedone(p: Primitives, key: Bytes, chain: Bytes, data: Bytes)
    requires Bijective(p, key) && Whole(data) && |chain| == BLOCK_SIZE
    ensures Whole(Cbc(p, Forward, key, chain, data))
    ensures Cbc(p, Backward, key, chain, Cbc(p, Forward, key, chain, data)) == data
    decreases |data|
  {
    hide Sound;
    CbcSize(p, Forward, key, chain, data);
    if data != [] {
      var block := data[..BLOCK_SIZE];
      BlockSize(p, Forward, key, chain, block);
      BlockRedone(p, key, chain, block);
      var (x, next) := CbcBlock(p, Forward, key, chain, block);
      CbcRedone(p, key, next, data[BLOCK_SIZE..]);
      hide CbcBlock;
      var out := x + Cbc(p, Forward, key, next, data[BLOCK_SIZE..]);
      assert out[..BLOCK_SIZE] == x && out[BLOCK_SIZE..] == Cbc(p, Forward, key, next, data[BLOCK_SIZE..]);
      assert block + data[BLOCK_SIZE..] == data;
    }
  }

  // The format

  function PadLength(m: Bytes): (n: nat)
    ensures 1 <= n <= BLOCK_SIZE && (|m| + n) % BLOCK_SIZE == 0
  {
    BLOCK_SIZE - |m| % BLOCK_SIZE
  }

  function Repeat(b: bv8, n: nat): (r: Bytes)
    ensures |r| == n && forall i :: 0 <= i < n ==> r[i] == b
  {
    seq(n, _ => b)
  }

  /** Each padding byte is the length of the padding. */
  function Padding(m: Bytes): (r: Bytes)
    ensures |r| == PadLength(m)
  {
    Repeat(PadLength(m) as bv8, PadLength(m))
  }

  function Plain(p: Primitives, m: Bytes): Bytes {
    p.sha(m) + m + Padding(m)
  }

  ghost function Seal(p: Primitives, key: Bytes, iv: Bytes, m: Bytes): Bytes
    requires Usable(p, key) && |key| == KEY_SIZE
  {
    PlainSize(p, key, m);
    iv + Cbc(p, Backward, key, iv, Plain(p, m))
  }

  lemma PlainSize(p: Primitives, key: Bytes, m: Bytes)
    requires Sound(p, key)
    ensures Whole(Plain(p, m)) && |Plain(p, m)| == SHA_SIZE + |m| + PadLength(m)
  {}

  /** Which inputs can be opened at all. */
  predicate Shaped(key: Bytes, s: Bytes) {
    |key| == KEY_SIZE && |s| >= IV_SIZE + SHA_SIZE + BLOCK_SIZE && |s| % BLOCK_SIZE == 0
  }

  /** The last byte is trusted to be the padding's length, and the hash has to match what is left. */
  ghost function Unpack(p: Primitives, c: Bytes): Option<Bytes>
    requires |c| >= SHA_SIZE + BLOCK_SIZE
  {
    var pad := c[|c| - 1] as int;
    if pad > BLOCK_SIZE then None
    else
      var m := c[SHA_SIZE..|c| - pad];
      if c[..SHA_SIZE] == p.sha(m) then Some(m) else None
  }

  ghost function Open(p: Primitives, key: Bytes, s: Bytes): Option<Bytes>
    requires Usable(p, key)
  {
    if !Shaped(key, s) then None
    else
      CbcSize(p, Forward, key, s[..IV_SIZE], s[IV_SIZE..]);
      Unpack(p, Cbc(p, Forward, key, s[..IV_SIZE], s[IV_SIZE..]))
  }

  lemma PadByte(n: nat)
    requires n <= 16
    ensures (n as bv8) as int == n
  {}

  lemma UnpackPlain(p: Primitives, key: Bytes, m: Bytes)
    requires Sound(p, key)
    ensures |Plain(p, m)| >= SHA_SIZE + BLOCK_SIZE && Unpack(p, Plain(p, m)) == Some(m)
  {
    var c := Plain(p, m);
    PadByte(PadLength(m));
    assert c[|c| - 1] == PadLength(m) as bv8;
    assert c[SHA_SIZE..|c| - PadLength(m)] == m;
    assert c[..SHA_SIZE] == p.sha(m);
  }

  /** What was sealed opens to the message, for every key, initialisation vector and message. */
  lemma OpenSealed(p: Primitives, key: Bytes, iv: Bytes, m: Bytes)
    requires Usable(p, key) && |key| == KEY_SIZE && |iv| == IV_SIZE
    ensures Open(p, key, Seal(p, key, iv, m)) == Some(m)
  {
    hide Sound, Plain, Unpack;
    PlainSize(p, key, m);
    UnpackPlain(p, key, m);
    CbcSize(p, Backward, key, iv, Plain(p, m));
    CbcUndone(p, key, iv, Plain(p, m));
    var s := Seal(p, key, iv, m);
    assert s[..IV_SIZE] == iv && s[IV_SIZE..] == Cbc(p, Backward, key, iv, Plain(p, m));
  }

  /** The plain text whose hash and message are followed by `tail`, its last byte being the length of `tail`. */
  ghost predicate Tailed(p: Primitives, m: Bytes, tail: Bytes) {
    var c := p.sha(m) + m + tail;
    |tail| <= BLOCK_SIZE && Whole(c) && |c| >= SHA_SIZE + BLOCK_SIZE && c[|c| - 1] == |tail| as bv8
  }

  /**
   Exactly which inputs open to `m`: those whose blocks are the hash of `m`, `m`, and at most one block
   whose last byte tells its length.  Only the length is checked, and it may be zero.
   */
  lemma OpensExactly(p: Primitives, key: Bytes, s: Bytes, m: Bytes)
    requires Bijective(p, key) && |key| == KEY_SIZE
    ensures Open(p, key, s) == Some(m) <==>
      |s| >= IV_SIZE && exists tail :: Tailed(p, m, tail) && s == s[..IV_SIZE] + Cbc(p, Backward, key, s[..IV_SIZE], p.sha(m) + m + tail)
  {
    if Open(p, key, s) == Some(m) {
      var tail := OpensOnly(p, key, s, m);
    }
    if |s| >= IV_SIZE {
      if tail :| Tailed(p, m, tail) && s == s[..IV_SIZE] + Cbc(p, Backward, key, s[..IV_SIZE], p.sha(m) + m + tail) {
        OpensTailed(p, key, s, m, tail);
      }
    }
  }

  lemma OpensTailed(p: Primitives, key: Bytes, s: Bytes, m: Bytes, tail: Bytes)
    requires Sound(p, key) && |key| == KEY_SIZE && |s| >= IV_SIZE && Tailed(p, m, tail)
    requires s == s[..IV_SIZE] + Cbc(p, Backward, key, s[..IV_SIZE], p.sha(m) + m + tail)
    ensures Open(p, key, s) == Some(m)
  {
    hide Sound, Cbc, Unpack;
    var iv, c := s[..IV_SIZE], p.sha(m) + m + tail;
    UnpackTailed(p, key, m, tail);
    CbcSize(p, Backward, key, iv, c);
    CbcUndone(p, key, iv, c);
    assert s[IV_SIZE..] == Cbc(p, Backward, key, iv, c);
  }

  lemma UnpackTailed(p: Primitives, key: Bytes, m: Bytes, tail: Bytes)
    requires Sound(p, key) && Tailed(p, m, tail)
    ensures Unpack(p, p.sha(m) + m + tail) == Some(m)
  {
    var c := p.sha(m) + m + tail;
    PadByte(|tail|);
    assert c[..SHA_SIZE] == p.sha(m) && c[SHA_SIZE..|c| - |tail|] == m;
  }

  lemma OpensOnly(p: Primitives, key: Bytes, s: Bytes, m: Bytes) returns (tail: Bytes)
    requires Bijective(p, key) && Open(p, key, s) == Some(m)
    ensures Tailed(p, m, tail) && |s| >= IV_SIZE
    ensures s == s[..IV_SIZE] + Cbc(p, Backward, key, s[..IV_SIZE], p.sha(m) + m + tail)
  {
    hide Sound, Bijective, Cbc, Open, Unpack, Whole, Tailed;
    OpenedBlocks(p, key, s);
    var iv, blocks := s[..IV_SIZE], s[IV_SIZE..];
    CbcSize(p, Forward, key, iv, blocks);
    CbcRedone(p, key, iv, blocks);
    tail := UnpackedOnly(p, Cbc(p, Forward, key, iv, blocks), m);
    assert s == iv + blocks;
  }

  lemma OpenedBlocks(p: Primitives, key: Bytes, s: Bytes)
    requires Bijective(p, key) && Open(p, key, s).Some?
    ensures Sound(p, key) && |s| >= IV_SIZE + SHA_SIZE + BLOCK_SIZE && Whole(s[IV_SIZE..])
    ensures var c := Cbc(p, Forward, key, s[..IV_SIZE], s[IV_SIZE..]);
            |c| == |s| - IV_SIZE && Whole(c) && Open(p, key, s) == Unpack(p, c)
  {
    hide Sound, Cbc, Unpack;
    CbcSize(p, Forward, key, s[..IV_SIZE], s[IV_SIZE..]);
  }

  lemma UnpackedOnly(p: Primitives, c: Bytes, m: Bytes) returns (tail: Bytes)
    requires |c| >= SHA_SIZE + BLOCK_SIZE && Whole(c) && Unpack(p, c) == Some(m)
    ensures Tailed(p, m, tail) && c == p.sha(m) + m + tail
  {
    var pad := c[|c| - 1] as int;
    tail := c[|c| - pad..];
    assert c == c[..SHA_SIZE] + c[SHA_SIZE..|c| - pad] + c[|c| - pad..];
    PadBack(c[|c| - 1]);
  }

  lemma PadBack(b: bv8)
    ensures (b as int) as bv8 == b
  {}

  // The code

  /** A streaming context: successive updates continue one chain. */
  class Cipher {
    const p: Primitives
    const key: Bytes
    const mode: Mode
    var chain: Bytes

    constructor (p: Primitives, key: Bytes, iv: Bytes, mode: Mode)
      ensures this.p == p && this.key == key && this.mode == mode && chain == iv
    {
      this.p, this.key, this.mode, chain := p, key, mode, iv;
    }

    /** `EVP_CipherUpdate` without padding, on whole blocks: one block after the other into `out`. */
    method Update(out: array<bv8>, at: nat, input: Bytes)
      requires Sound(p, key) && Whole(input) && |chain| == BLOCK_SIZE && at + |input| <= out.Length
      modifies this, out
      ensures out[..] == old(out[..at]) + Cbc(p, mode, key, old(chain), input) + old(out[at + |input|..])
      ensures out[..at + |input|] == old(out[..at]) + Cbc(p, mode, key, old(chain), input)
      ensures chain == CbcChain(p, mode, key, old(chain), input) && |chain| == BLOCK_SIZE
    {
      hide Sound, CbcBlock;
      var i := 0;
      ghost var before := out[..];
      assert input[..0] == [];
      while i < |input|
        invariant 0 <= i <= |input| && i % BLOCK_SIZE == 0 && Whole(input[..i])
        invariant chain == CbcChain(p, mode, key, old(chain), input[..i]) && |chain| == BLOCK_SIZE
        invariant |Cbc(p, mode, key, old(chain), input[..i])| == i
        invariant out[..] == before[..at] + Cbc(p, mode, key, old(chain), input[..i]) + before[at + i..]
      {
        var (x, next) := CbcBlock(p, mode, key, chain, input[i..i + BLOCK_SIZE]);
        BlockSize(p, mode, key, chain, input[i..i + BLOCK_SIZE]);
        CbcSnoc(p, mode, key, old(chain), input, i);
        PutAt(out, at + i, x);
        Regroup(before, at, Cbc(p, mode, key, old(chain), input[..i]), x);
        chain := next;
        i := i + BLOCK_SIZE;
      }
      assert input[..|input|] == input;
      assert out[..at + |input|] == out[..][..at + |input|];
    }
  }

  lemma CbcSnoc(p: Primitives, mode: Mode, key: Bytes, chain: Bytes, input: Bytes, i: nat)
    requires Whole(input) && i + BLOCK_SIZE <= |input| && Whole(input[..i])
    ensures Whole(input[..i + BLOCK_SIZE])
    ensures var (x, next) := CbcBlock(p, mode, key, CbcChain(p, mode, key, chain, input[..i]), input[i..i + BLOCK_SIZE]);
            && Cbc(p, mode, key, chain, input[..i + BLOCK_SIZE]) == Cbc(p, mode, key, chain, input[..i]) + x
            && CbcChain(p, mode, key, chain, input[..i + BLOCK_SIZE]) == next
  {
    hide CbcBlock;
    var block := input[i..i + BLOCK_SIZE];
    assert input[..i + BLOCK_SIZE] == input[..i] + block;
    CbcSplit(p, mode, key, chain, input[..i], block);
    assert block[..BLOCK_SIZE] == block && block[BLOCK_SIZE..] == [];
    var after := CbcChain(p, mode, key, chain, input[..i]);
    var (x, next) := CbcBlock(p, mode, key, after, block);
    assert Cbc(p, mode, key, next, []) == [] && CbcChain(p, mode, key, next, []) == next;
    assert Cbc(p, mode, key, after, block) == x + [];
  }

  /** `memcpy` into the middle of a buffer. */
  method PutAt(out: array<bv8>, at: nat, x: Bytes)
    requires at + |x| <= out.Length
    modifies out
    ensures out[..] == old(out[..at]) + x + old(out[at + |x|..])
  {
    forall i | 0 <= i < |x| { out[at + i] := x[i]; }
  }

  lemma Regroup(before: Bytes, at: nat, done: Bytes, x: Bytes)
    requires at + |done| + |x| <= |before|
    ensures var now := before[..at] + done + before[at + |done|..];
            now[..at + |done|] + x + now[at + |done| + |x|..] == before[..at] + (done + x) + before[at + |done| + |x|..]
  {}

  /**
   `EncAes256CbcSha512`: three updates write the hash, the whole blocks of the message, and the last block
   with its padding.  `random` is what the random generator gives, if anything; the result goes in front of
   what the caller's string held.
   */
  method EncAes256CbcSha512(p: Primitives, key: Bytes, clear: Bytes, random: Option<Bytes>, previous: Bytes)
    returns (ok: bool, encrypted: Bytes)
    requires Usable(p, key) && (random.Some? ==> |random.value| == IV_SIZE)
    ensures ok <==> |key| == KEY_SIZE && random.Some?
    ensures encrypted == if ok then Seal(p, key, random.value, clear) + previous else previous
  {
    hide Sound, Cbc, CbcChain, Padding, Seal, Whole, PadLength;
    encrypted := previous;
    if |key| != KEY_SIZE { return false, previous; }
    var whole := |clear| / BLOCK_SIZE * BLOCK_SIZE;
    var dataSize := (|clear| / BLOCK_SIZE + 1) * BLOCK_SIZE;
    Sizes(clear, whole);
    var result := new bv8[IV_SIZE + SHA_SIZE + dataSize];
    var lastBlock := LastBlock(clear, whole, dataSize - |clear|);
    var computed := Hash(p, key, clear);
    if random.None? { return false, previous; }
    PutAt(result, 0, random.value);
    assert result[..IV_SIZE] == random.value;
    var aes := new Cipher(p, key, result[..IV_SIZE], Backward);
    ghost var iv := random.value;
    aes.Update(result, IV_SIZE, computed);
    if |clear| >= BLOCK_SIZE { aes.Update(result, IV_SIZE + SHA_SIZE, clear[..dataSize - BLOCK_SIZE]); }
    NoBlocks(p, Backward, key, CbcChain(p, Backward, key, iv, computed));
    aes.Update(result, IV_SIZE + SHA_SIZE + whole, lastBlock[..]);
    ThreeParts(p, key, iv, clear, whole, lastBlock[..]);
    assert result[..result.Length] == result[..];
    encrypted := result[..] + previous;
    ok := true;
  }

  lemma Sizes(clear: Bytes, whole: nat)
    requires whole == |clear| / BLOCK_SIZE * BLOCK_SIZE
    ensures whole <= |clear| < whole + BLOCK_SIZE && (|clear| / BLOCK_SIZE + 1) * BLOCK_SIZE == whole + BLOCK_SIZE
    ensures PadLength(clear) == whole + BLOCK_SIZE - |clear| && Whole(clear[..whole]) && (whole == 0 ==> clear[..whole] == [])
    ensures |clear| < BLOCK_SIZE <==> whole == 0
    ensures forall last: Bytes :: |last| == BLOCK_SIZE ==> Whole(last)
    ensures forall sha: Bytes :: |sha| == SHA_SIZE ==> Whole(sha)
  {}

  lemma NoBlocks(p: Primitives, mode: Mode, key: Bytes, chain: Bytes)
    ensures Cbc(p, mode, key, chain, []) == [] && CbcChain(p, mode, key, chain, []) == chain
  {}

  method Hash(p: Primitives, key: Bytes, m: Bytes) returns (r: Bytes)
    requires Sound(p, key)
    ensures r == p.sha(m) && |r| == SHA_SIZE
  {
    r := p.sha(m);
  }

  /** The end of the message that fills no block, and the padding after it. */
  method LastBlock(clear: Bytes, whole: nat, padLength: nat) returns (lastBlock: array<bv8>)
    requires whole <= |clear| && padLength == PadLength(clear) && |clear| - whole + padLength == BLOCK_SIZE
    ensures fresh(lastBlock) && lastBlock[..] == clear[whole..] + Padding(clear)
  {
    lastBlock := new bv8[BLOCK_SIZE];
    PutAt(lastBlock, 0, clear[whole..]);
    PutAt(lastBlock, BLOCK_SIZE - padLength, Repeat(padLength as bv8, padLength));
  }

  /** The three streamed pieces, in place, are one pass over hash, message and padding. */
  lemma ThreeParts(p: Primitives, key: Bytes, iv: Bytes, m: Bytes, whole: nat, last: Bytes)
    requires Sound(p, key) && |key| == KEY_SIZE && |iv| == IV_SIZE
    requires whole <= |m| && Whole(m[..whole]) && Whole(last) && last == m[whole..] + Padding(m)
    ensures Whole(p.sha(m))
    ensures var c1 := CbcChain(p, Backward, key, iv, p.sha(m));
            var c2 := CbcChain(p, Backward, key, c1, m[..whole]);
            Seal(p, key, iv, m) ==
              iv + Cbc(p, Backward, key, iv, p.sha(m)) + Cbc(p, Backward, key, c1, m[..whole]) + Cbc(p, Backward, key, c2, last)
  {
    ShaWhole(p, key, m);
    SealIs(p, key, iv, m);
    hide Cbc, CbcChain, Padding, Plain, Sound, Usable, Seal, Whole;
    var sha, mid := p.sha(m), m[..whole];
    var c1 := CbcChain(p, Backward, key, iv, sha);
    var c2 := CbcChain(p, Backward, key, c1, mid);
    CbcSplit(p, Backward, key, c1, mid, last);
    CbcSplit(p, Backward, key, iv, sha, mid + last);
    PlainParts(sha, m, whole, Padding(m));
    FourInARow(iv, Cbc(p, Backward, key, iv, sha), Cbc(p, Backward, key, c1, mid), Cbc(p, Backward, key, c2, last));
  }

  lemma ShaWhole(p: Primitives, key: Bytes, m: Bytes)
    requires Sound(p, key)
    ensures Whole(p.sha(m))
  {}

  lemma SealIs(p: Primitives, key: Bytes, iv: Bytes, m: Bytes)
    requires Sound(p, key) && |key| == KEY_SIZE
    ensures Whole(p.sha(m) + m + Padding(m))
    ensures Seal(p, key, iv, m) == iv + Cbc(p, Backward, key, iv, p.sha(m) + m + Padding(m))
  {
    hide Cbc, Sound, Padding, Whole;
    PlainSize(p, key, m);
  }

  lemma PlainParts(sha: Bytes, m: Bytes, whole: nat, pad: Bytes)
    requires whole <= |m|
    ensures sha + m + pad == sha + (m[..whole] + (m[whole..] + pad))
  {}

  lemma FourInARow(a: Bytes, b: Bytes, c: Bytes, d: Bytes)
    ensures a + (b + (c + d)) == a + b + c + d
  {}

  /** `DecAes256CbcSha512`. */
  method DecAes256CbcSha512(p: Primitives, key: Bytes, encrypted: Bytes, previous: Bytes) returns (ok: bool, clear: Bytes)
    requires Usable(p, key)
    ensures ok <==> Open(p, key, encrypted).Some?
    ensures clear == if ok then Open(p, key, encrypted).value + previous else previous
  {
    hide Sound, Cbc, CbcChain;
    clear := previous;
    if |key| != KEY_SIZE || |encrypted| < IV_SIZE + SHA_SIZE + BLOCK_SIZE || |encrypted| % BLOCK_SIZE != 0 {
      return false, previous;
    }
    var blocksLen := |encrypted| - IV_SIZE;
    var clearResult := new bv8[blocksLen];
    var aes := new Cipher(p, key, encrypted[..IV_SIZE], Forward);
    CbcSize(p, Forward, key, encrypted[..IV_SIZE], encrypted[IV_SIZE..]);
    aes.Update(clearResult, 0, encrypted[IV_SIZE..]);
    assert clearResult[..] == Cbc(p, Forward, key, encrypted[..IV_SIZE], encrypted[IV_SIZE..]);
    var padLen := clearResult[blocksLen - 1] as int;
    if padLen > BLOCK_SIZE { return false, previous; }
    var payloadLen := blocksLen - SHA_SIZE - padLen;
    var computed := Hash(p, key, clearResult[SHA_SIZE..SHA_SIZE + payloadLen]);
    if clearResult[..SHA_SIZE] != computed { return false, previous; }
    clear := clearResult[SHA_SIZE..SHA_SIZE + payloadLen] + previous;
    ok := true;
  }
}
