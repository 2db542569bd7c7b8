/** CTR mode, section 6.5 of NIST SP 800-38A, and the streaming cipher context that
    src/librdrand-aes.c feeds in pieces. The block cipher itself is an oracle. */
module CtrStream {
  import opened Machine

  const BLOCK_BYTES: nat := 16

  type Block = b: seq<Byte> | |b| == 16 witness seq(16, _ => 0 as Byte)

  /** The forward cipher under a key. */
  type Cipher = (Block, Block) -> Block

  /** The standard incrementing function, appendix B.1 of NIST SP 800-38A. */
  function Inc(c: seq<Byte>): (r: seq<Byte>)
    ensures |r| == |c|
  {
    if c == [] then []
    else
      var last := c[|c| - 1];
      if last == 255 then Inc(c[..|c| - 1]) + [0] else c[..|c| - 1] + [last + 1]
  }

  /** Counter block T_(j+1) of a message whose first counter block is iv. */
  function CounterBlock(iv: Block, j: nat): (t: Block)
  {
    if j == 0 then iv else Inc(CounterBlock(iv, j - 1))
  }

  function Pow256(n: nat): (p: nat)
    ensures p >= 1
  {
    if n == 0 then 1 else 256 * Pow256(n - 1)
  }

  function Digit(b: Byte): (d: nat)
    ensures d < 256
  {
    b as int
  }

  /** The number a counter block stands for, most significant byte first. */
  function Value(c: seq<Byte>): (v: nat)
    ensures v < Pow256(|c|)
  {
    if c == [] then 0 else 256 * Value(c[..|c| - 1]) + Digit(c[|c| - 1])
  }

  lemma {:induction false} IncIsSuccessor(c: seq<Byte>)
    ensures Value(Inc(c)) == if Value(c) + 1 == Pow256(|c|) then 0 else Value(c) + 1
  {
    if c != [] {
      IncIsSuccessor(c[..|c| - 1]);
      assert Inc(c)[..|c| - 1] == if c[|c| - 1] == 255 then Inc(c[..|c| - 1]) else c[..|c| - 1];
    }
  }

  lemma {:induction false} CounterBlockValue(iv: Block, j: nat)
    requires j < Pow256(16)
    ensures var n := Pow256(16); var v := Value(iv) + j;
            Value(CounterBlock(iv, j)) == if v < n then v else v - n
  {
    hide Pow256, Inc, Value;
    if j > 0 {
      CounterBlockValue(iv, j - 1);
      IncIsSuccessor(CounterBlock(iv, j - 1));
    }
  }

  /** The counter blocks of one message never repeat (the requirement of appendix B). */
  lemma CounterBlocksDistinct(iv: Block, i: nat, j: nat)
    requires i < j < Pow256(16)
    ensures CounterBlock(iv, i) != CounterBlock(iv, j)
  {
    hide Pow256, Inc, Value, CounterBlock;
    CounterBlockValue(iv, i);
    CounterBlockValue(iv, j);
  }

  /** Byte j of the keystream: byte j mod 16 of CIPH_K(T_(j / 16 + 1)). */
  function Keystream(e: Cipher, key: Block, iv: Block, j: nat): Byte {
    e(key, CounterBlock(iv, j / 16))[j % 16]
  }

  /** One-shot CTR encryption of src, from byte `from` of the keystream on. */
  function Ctr(e: Cipher, key: Block, iv: Block, from: nat, src: seq<Byte>): (out: seq<Byte>)
    ensures |out| == |src|
    decreases |src|
  {
    if src == [] then []
    else
      var n := |src| - 1;
      Ctr(e, key, iv, from, src[..n]) + [src[n] ^ Keystream(e, key, iv, from + n)]
  }

  /** Every output byte is the input byte XOR the keystream byte at its position. */
  lemma {:induction false} CtrByte(e: Cipher, key: Block, iv: Block, from: nat, src: seq<Byte>, i: nat)
    requires i < |src|
    ensures Ctr(e, key, iv, from, src)[i] == src[i] ^ Keystream(e, key, iv, from + i)
    decreases |src|
  {
    if i < |src| - 1 {
      CtrByte(e, key, iv, from, src[..|src| - 1], i);
    }
  }

  lemma {:induction false} CtrConcat(e: Cipher, key: Block, iv: Block, from: nat, xs: seq<Byte>, ys: seq<Byte>)
    ensures Ctr(e, key, iv, from, xs + ys) == Ctr(e, key, iv, from, xs) + Ctr(e, key, iv, from + |xs|, ys)
    decreases |ys|
  {
    hide Keystream;
    if ys == [] {
      assert xs + ys == xs;
    } else {
      var n := |ys| - 1;
      assert (xs + ys)[..|xs| + n] == xs + ys[..n];
      CtrConcat(e, key, iv, from, xs, ys[..n]);
    }
  }

  lemma XorTwice(a: Byte, b: Byte)
    ensures (a ^ b) ^ b == a
  {
  }

  /** CTR decryption is the same operation. */
  lemma CtrInverts(e: Cipher, key: Block, iv: Block, from: nat, src: seq<Byte>)
    ensures Ctr(e, key, iv, from, Ctr(e, key, iv, from, src)) == src
  {
    hide Ctr, Keystream;
    var out := Ctr(e, key, iv, from, src);
    forall i: nat | i < |src|
      ensures Ctr(e, key, iv, from, out)[i] == src[i]
    {
      CtrByte(e, key, iv, from, src, i);
      CtrByte(e, key, iv, from, out, i);
      XorTwice(src[i], Keystream(e, key, iv, from + i));
    }
  }

  /** A cipher context between two updates: the key, the next counter block, and the
      keystream bytes of the current block that no data has used yet. */
  datatype Ctx = Ctx(key: Block, counter: Block, pad: seq<Byte>)

  datatype Update = Update(bytes: seq<Byte>, ctx: Ctx)

  /** The context with at least one unused keystream byte. */
  function Refill(e: Cipher, c: Ctx): (r: Ctx)
    ensures r.pad != []
  {
    if c.pad != [] then c else Ctx(c.key, Inc(c.counter), e(c.key, c.counter))
  }

  /** One more byte of input. */
  function Feed(e: Cipher, u: Update, b: Byte): (r: Update)
    ensures |r.bytes| == |u.bytes| + 1
  {
    var k := Refill(e, u.ctx);
    Update(u.bytes + [b ^ k.pad[0]], k.(pad := k.pad[1..]))
  }

  /** Feeding src to a context, byte by byte. */
  function EncryptUpdate(e: Cipher, c: Ctx, src: seq<Byte>): (r: Update)
    ensures |r.bytes| == |src|
  {
    if src == [] then Update([], c)
    else Feed(e, EncryptUpdate(e, c, src[..|src| - 1]), src[|src| - 1])
  }

  /** The context of a message of which j blocks and r more bytes have been fed. */
  function CtxIn(e: Cipher, key: Block, iv: Block, j: nat, r: nat): Ctx
    requires r < 16
  {
    if r == 0 then Ctx(key, CounterBlock(iv, j), [])
    else Ctx(key, CounterBlock(iv, j + 1), e(key, CounterBlock(iv, j))[r..])
  }

  /** The context of a message after p bytes. */
  function CtxAt(e: Cipher, key: Block, iv: Block, p: nat): Ctx {
    CtxIn(e, key, iv, p / 16, p % 16)
  }

  lemma RefillInBlock(e: Cipher, key: Block, iv: Block, j: nat, r: nat)
    requires r < 16
    ensures Refill(e, CtxIn(e, key, iv, j, r))
         == Ctx(key, CounterBlock(iv, j + 1), e(key, CounterBlock(iv, j))[r..])
  {
    hide Inc;
    var pad := e(key, CounterBlock(iv, j));
    if r == 0 {
      assert pad[0..] == pad;
    }
  }

  lemma FeedInBlock(e: Cipher, key: Block, iv: Block, j: nat, r: nat, out: seq<Byte>, b: Byte)
    requires r < 16
    ensures Feed(e, Update(out, CtxIn(e, key, iv, j, r)), b)
         == Update(out + [b ^ e(key, CounterBlock(iv, j))[r]],
                   if r == 15 then CtxIn(e, key, iv, j + 1, 0) else CtxIn(e, key, iv, j, r + 1))
  {
    hide CounterBlock, Inc, Refill;
    RefillInBlock(e, key, iv, j, r);
    var pad := e(key, CounterBlock(iv, j));
    assert pad[r..][1..] == pad[r + 1..];
  }

  lemma FeedIsCtr(e: Cipher, key: Block, iv: Block, p: nat, out: seq<Byte>, b: Byte)
    ensures Feed(e, Update(out, CtxAt(e, key, iv, p)), b)
         == Update(out + [b ^ Keystream(e, key, iv, p)], CtxAt(e, key, iv, p + 1))
  {
    hide Feed, CtxIn;
    FeedInBlock(e, key, iv, p / 16, p % 16, out, b);
  }

  /** Feeding a message in pieces, at any positions, is one-shot CTR on one contiguous
      keystream. */
  lemma {:induction false} EncryptUpdateIsCtr(e: Cipher, key: Block, iv: Block, p: nat, src: seq<Byte>)
    ensures EncryptUpdate(e, CtxAt(e, key, iv, p), src)
         == Update(Ctr(e, key, iv, p, src), CtxAt(e, key, iv, p + |src|))
    decreases |src|
  {
    hide CtxAt, Keystream, Feed;
    if src != [] {
      var n := |src| - 1;
      EncryptUpdateIsCtr(e, key, iv, p, src[..n]);
      FeedIsCtr(e, key, iv, p + n, Ctr(e, key, iv, p, src[..n]), src[n]);
    }
  }
}
