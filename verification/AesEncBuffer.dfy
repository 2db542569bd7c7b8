/** rdrand_enc_buffer (src/librdrand-aes.c), as a function on values. Its loop stops when counter
    returns 0, which it does whenever it only charges the budget, so a full buffer is encrypted
    only if charging it changes the key. */
module AesEncBuffer {
  import opened Machine
  import opened CtrStream
  import opened AesSchedule
  import opened AesRuns

  datatype Enc = Enc(ok: bool, out: seq<Byte>, c: Config)

  /** The first k full buffers; out is what has been stored to the destination. */
  function EncChunks(env: Env, c: Config, src: seq<Byte>, k: nat): (r: Enc)
    requires WellFormed(c) && MAX_BUFFER_SIZE * k <= |src|
    ensures WellFormed(r.c) && SameShape(c, r.c)
    ensures |r.out| <= MAX_BUFFER_SIZE * k && (r.ok ==> |r.out| == MAX_BUFFER_SIZE * k)
  {
    if k == 0 then Enc(true, [], c)
    else
      var r := EncChunks(env, c, src, k - 1);
      if !r.ok then r
      else
        var o := Counter(env, r.c, MAX_BUFFER_SIZE);
        if !o.ok then Enc(false, r.out, o.c)
        else
          var e := Encrypt(env, o.c, src[MAX_BUFFER_SIZE * (k - 1)..MAX_BUFFER_SIZE * k]);
          Enc(true, r.out + e.bytes, e.c)
  }

  function EncBuffer(env: Env, c: Config, src: seq<Byte>): (r: Enc)
    requires WellFormed(c)
    ensures WellFormed(r.c) && SameShape(c, r.c)
    ensures |r.out| <= |src| && (r.ok ==> |r.out| == |src|)
  {
    var chunks := |src| / MAX_BUFFER_SIZE;
    var r := EncChunks(env, c, src, chunks);
    if !r.ok || |src| % MAX_BUFFER_SIZE == 0 then r
    else
      var e := Encrypt(env, r.c, src[MAX_BUFFER_SIZE * chunks..]);
      Enc(true, r.out + e.bytes, e.c)
  }

  lemma {:induction false} EncChunksStuck(env: Env, c: Config, src: seq<Byte>, j: nat, k: nat)
    requires WellFormed(c) && j <= k && MAX_BUFFER_SIZE * k <= |src|
    requires !EncChunks(env, c, src, j).ok
    ensures EncChunks(env, c, src, k) == EncChunks(env, c, src, j)
  {
    hide Counter, Encrypt;
    if j < k {
      EncChunksStuck(env, c, src, j, k - 1);
    }
  }

  /** Success means that every full buffer was encrypted under a key of its own. */
  lemma {:induction false} EveryBufferChangesKey(env: Env, c: Config, src: seq<Byte>, k: nat)
    requires WellFormed(c) && MAX_BUFFER_SIZE * k <= |src|
    requires EncChunks(env, c, src, k).ok
    ensures EncChunks(env, c, src, k).c.h.changes == c.h.changes + k
  {
    hide EncryptUpdate;
    if k > 0 {
      EveryBufferChangesKey(env, c, src, k - 1);
    }
  }

  /** With given keys the call succeeds exactly when the buffer is shorter than MAX_BUFFER_SIZE, or
      shorter than twice that with a budget that does not cover one buffer. */
  lemma EncBufferSucceeds(env: Env, c: Config, src: seq<Byte>)
    requires WellFormed(c) && c.given
    ensures EncBuffer(env, c, src).ok <==>
            |src| < MAX_BUFFER_SIZE || (|src| < 2 * MAX_BUFFER_SIZE && c.next < MAX_BUFFER_SIZE)
  {
    hide EncryptUpdate;
    var chunks := |src| / MAX_BUFFER_SIZE;
    if chunks >= 1 {
      assert EncChunks(env, c, src, 0) == Enc(true, [], c);
      assert EncChunks(env, c, src, 1).ok <==> c.next < MAX_BUFFER_SIZE;
      if c.next >= MAX_BUFFER_SIZE {
        EncChunksStuck(env, c, src, 1, chunks);
      } else if chunks >= 2 {
        assert EncChunks(env, c, src, 1).c.next == MAX_COUNTER;
        assert !EncChunks(env, c, src, 2).ok;
        EncChunksStuck(env, c, src, 2, chunks);
      }
    }
  }

  /** With given keys a buffer of two full buffers or more is always refused; the first of them has been
      encrypted, and the rest of the destination left as it was, if the budget did not cover it, and
      otherwise all of the destination is left as it was. */
  lemma LargeBufferRefused(env: Env, c: Config, src: seq<Byte>)
    requires WellFormed(c) && c.given && |src| >= 2 * MAX_BUFFER_SIZE
    ensures var r := EncBuffer(env, c, src);
            && !r.ok
            && (if c.next < MAX_BUFFER_SIZE then
                  && r.out == Encrypt(env, Counter(env, c, MAX_BUFFER_SIZE).c, src[..MAX_BUFFER_SIZE]).bytes
                  && r.c.next == MAX_COUNTER - MAX_BUFFER_SIZE
                else r.out == [] && r.c.next == c.next - MAX_BUFFER_SIZE)
  {
    hide EncryptUpdate;
    var chunks := |src| / MAX_BUFFER_SIZE;
    assert EncChunks(env, c, src, 0) == Enc(true, [], c);
    assert src[0..MAX_BUFFER_SIZE] == src[..MAX_BUFFER_SIZE];
    if c.next >= MAX_BUFFER_SIZE {
      EncChunksStuck(env, c, src, 1, chunks);
    } else {
      var e := Encrypt(env, Counter(env, c, MAX_BUFFER_SIZE).c, src[..MAX_BUFFER_SIZE]);
      assert [] + e.bytes == e.bytes;
      assert EncChunks(env, c, src, 1) == Enc(true, e.bytes, e.c);
      EncChunksStuck(env, c, src, 2, chunks);
    }
  }

  /** With given keys a buffer of one full buffer or more, but less than two, is encrypted whole if the
      budget does not cover it, and else refused with nothing stored. */
  lemma MediumBuffer(env: Env, c: Config, src: seq<Byte>)
    requires WellFormed(c) && c.given && MAX_BUFFER_SIZE <= |src| < 2 * MAX_BUFFER_SIZE
    ensures var r := EncBuffer(env, c, src);
            if c.next < MAX_BUFFER_SIZE then r.ok && r.c.next == MAX_COUNTER
            else !r.ok && r.out == [] && r.c.next == c.next - MAX_BUFFER_SIZE
  {
    hide EncryptUpdate;
    assert EncChunks(env, c, src, 0) == Enc(true, [], c);
  }

  /** The budget after k changes to generated keys, each of which draws a key, a nonce and a timer,
      from draw `draws` on: a failed timer draw leaves the budget as it was. */
  function BudgetAfter(env: Env, draws: nat, next: nat, k: nat): (b: nat) {
    if k == 0 then next
    else
      match env.randTimer(draws + 3 * k - 1)
      case None => BudgetAfter(env, draws, next, k - 1)
      case Some(t) => Timer(t)
  }

  /** Charging full buffer k changes the generated key: the budget does not cover it, and both draws
      for it succeed. */
  predicate NewKeyAt(env: Env, draws: nat, next: nat, k: nat) {
    && BudgetAfter(env, draws, next, k) < MAX_BUFFER_SIZE
    && env.randBlock(draws + 3 * k).Some? && env.randBlock(draws + 3 * k + 1).Some?
  }

  lemma NoCharge(env: Env, draws: nat, next: nat)
    ensures BudgetAfter(env, draws, next, 0) == next
  {
  }

  lemma GeneratedCharge(env: Env, c: Config, draws: nat, next: nat, k: nat)
    requires WellFormed(c) && !c.given && c.draws == draws + 3 * k && c.next == BudgetAfter(env, draws, next, k)
    ensures var o := Counter(env, c, MAX_BUFFER_SIZE);
            && (o.ok <==> NewKeyAt(env, draws, next, k))
            && (o.ok ==> o.c.draws == draws + 3 * (k + 1) && o.c.next == BudgetAfter(env, draws, next, k + 1))
  {
  }

  lemma {:induction false} GeneratedChunks(env: Env, c: Config, src: seq<Byte>, k: nat)
    requires WellFormed(c) && !c.given && MAX_BUFFER_SIZE * k <= |src|
    ensures var r := EncChunks(env, c, src, k);
            && (r.ok <==> forall j: nat :: j < k ==> NewKeyAt(env, c.draws, c.next, j))
            && (r.ok ==> r.c.draws == c.draws + 3 * k && r.c.next == BudgetAfter(env, c.draws, c.next, k))
  {
    hide EncryptUpdate, NewKeyAt, Counter, BudgetAfter;
    if k == 0 {
      NoCharge(env, c.draws, c.next);
    } else {
      GeneratedChunks(env, c, src, k - 1);
      var r := EncChunks(env, c, src, k - 1);
      if r.ok {
        GeneratedCharge(env, r.c, c.draws, c.next, k - 1);
      }
    }
  }

  /** With generated keys the call succeeds exactly when every full buffer meets a budget that does not
      cover it, drawn with the key before, and both draws for its own key succeed. */
  lemma GeneratedEncBufferSucceeds(env: Env, c: Config, src: seq<Byte>)
    requires WellFormed(c) && !c.given
    ensures EncBuffer(env, c, src).ok <==>
            forall k: nat :: k < |src| / MAX_BUFFER_SIZE ==> NewKeyAt(env, c.draws, c.next, k)
  {
    hide EncChunks, NewKeyAt, Encrypt;
    GeneratedChunks(env, c, src, |src| / MAX_BUFFER_SIZE);
  }

  lemma EmptyStream(env: Env, c: Config)
    ensures Ctr(env.cipher, c.h.epoch.key, c.h.epoch.iv, |c.h.epoch.src|, []) == []
  {
  }

  /** A short buffer becomes the source XOR the current keystream where it stands, and is not
      charged to the budget: no number of short buffers ever changes the key. */
  lemma ShortBufferContinuesStream(env: Env, c: Config, src: seq<Byte>)
    requires WellFormed(c) && Streaming(env, c) && |src| < MAX_BUFFER_SIZE
    ensures var r := EncBuffer(env, c, src);
            && Streaming(env, r.c)
            && var p, q := c.h.epoch, r.c.h.epoch;
            r.ok && q.key == p.key && q.iv == p.iv && q.src == p.src + src && q.out == p.out + r.out
            && r.c.next == c.next && r.c.h.changes == c.h.changes
            && r.out == Ctr(env.cipher, p.key, p.iv, |p.src|, src)
  {
    hide Counter, EncryptUpdate, Ctr, CtxAt;
    var r := EncBuffer(env, c, src);
    assert EncChunks(env, c, src, 0) == Enc(true, [], c);
    assert src[MAX_BUFFER_SIZE * 0..] == src;
    if src == [] {
      EmptyStream(env, c);
      assert c.h.epoch.src + [] == c.h.epoch.src;
    } else {
      EncryptStreams(env, c, src);
      assert [] + Encrypt(env, c, src).bytes == Encrypt(env, c, src).bytes;
      StreamSuffix(env, c, r.c, r.out);
    }
  }

  /** From c to r the next slot's key was installed and then encrypted src, and nothing else. */
  ghost predicate StartsStream(env: Env, c: Config, src: seq<Byte>, r: Enc) {
    && WellFormed(c) && WellFormed(r.c)
    && var q := r.c.h.epoch;
    && r.c.index == NextSlot(c) && r.c.h.changes == c.h.changes + 1
    && Slot(q.key, q.iv) == r.c.slots[r.c.index] && q.src == src
    && r.out == Ctr(env.cipher, q.key, q.iv, 0, src)
  }

  /** Encrypting in a new epoch, and encrypting on from there. */
  lemma FreshStream(env: Env, c: Config, src: seq<Byte>)
    requires Streaming(env, c) && c.h.epoch.src == [] && c.h.epoch.out == []
    ensures var e := Encrypt(env, c, src);
            && Streaming(env, e.c) && e.c.h.epoch == c.h.epoch.(src := src, out := e.bytes)
            && e.c.index == c.index && e.c.slots == c.slots && e.c.h.changes == c.h.changes
  {
    hide EncryptUpdate, Ctr, CtxAt;
    EncryptStreams(env, c, src);
  }

  lemma NextStream(env: Env, c: Config, src: seq<Byte>)
    requires Streaming(env, c)
    ensures var e := Encrypt(env, c, src); var p := c.h.epoch;
            && Streaming(env, e.c) && e.c.h.epoch == p.(src := p.src + src, out := p.out + e.bytes)
            && e.c.index == c.index && e.c.slots == c.slots && e.c.h.changes == c.h.changes
  {
    hide EncryptUpdate, Ctr, CtxAt;
    EncryptStreams(env, c, src);
  }

  lemma StreamInTwoPieces(env: Env, c: Config, src: seq<Byte>, r: Enc)
    requires |src| >= MAX_BUFFER_SIZE
    requires WellFormed(c) && Streaming(env, c) && c.h.epoch.src == [] && c.h.epoch.out == []
    requires c.slots[c.index] == Slot(c.h.epoch.key, c.h.epoch.iv)
    requires var e := Encrypt(env, c, src[..MAX_BUFFER_SIZE]);
             var tail := src[MAX_BUFFER_SIZE..];
             if tail == [] then r == Enc(true, e.bytes, e.c)
             else r == Enc(true, e.bytes + Encrypt(env, e.c, tail).bytes, Encrypt(env, e.c, tail).c)
    ensures var q := r.c.h.epoch;
            && r.c.index == c.index && r.c.slots == c.slots && r.c.h.changes == c.h.changes
            && Slot(q.key, q.iv) == c.slots[c.index] && q.src == src
            && r.out == Ctr(env.cipher, q.key, q.iv, 0, src)
  {
    hide Encrypt, Ctr, CtxAt;
    var head, tail := src[..MAX_BUFFER_SIZE], src[MAX_BUFFER_SIZE..];
    FreshStream(env, c, head);
    NextStream(env, Encrypt(env, c, head).c, tail);
    assert src == head + tail;
  }

  lemma LongBufferSteps(env: Env, c: Config, src: seq<Byte>)
    requires WellFormed(c) && MAX_BUFFER_SIZE <= |src| < 2 * MAX_BUFFER_SIZE
    requires Counter(env, c, MAX_BUFFER_SIZE).ok
    ensures var r := EncBuffer(env, c, src);
            var e := Encrypt(env, Counter(env, c, MAX_BUFFER_SIZE).c, src[..MAX_BUFFER_SIZE]);
            var tail := src[MAX_BUFFER_SIZE..];
            if tail == [] then r == Enc(true, e.bytes, e.c)
            else r == Enc(true, e.bytes + Encrypt(env, e.c, tail).bytes, Encrypt(env, e.c, tail).c)
  {
    hide Counter, Encrypt;
    var e := Encrypt(env, Counter(env, c, MAX_BUFFER_SIZE).c, src[..MAX_BUFFER_SIZE]);
    assert EncChunks(env, c, src, 0) == Enc(true, [], c);
    assert [] + e.bytes == e.bytes && src[0..MAX_BUFFER_SIZE] == src[..MAX_BUFFER_SIZE];
    assert EncChunks(env, c, src, 1) == Enc(true, e.bytes, e.c);
  }

  lemma FirstBlockOfNewKey(env: Env, c: Config)
    requires WellFormed(c) && c.given && c.next < MAX_BUFFER_SIZE
    ensures var r := Counter(env, c, MAX_BUFFER_SIZE);
            && r.ok && r.c.index == NextSlot(c) && r.c.h.changes == c.h.changes + 1
            && r.c.slots[r.c.index] == Slot(r.c.h.epoch.key, r.c.h.epoch.iv)
            && r.c.h.epoch.src == [] && r.c.h.epoch.out == [] && Streaming(env, r.c)
  {
    hide EncryptUpdate, Ctr, CtxAt;
    InstalledStreams(env, Rotate(env, c.(index := NextSlot(c))));
  }

  /** A longer buffer that succeeds with given keys is encrypted from the start of the next
      key's keystream, one key for all of it. */
  lemma LongBufferStartsStream(env: Env, c: Config, src: seq<Byte>)
    requires WellFormed(c) && c.given && EncBuffer(env, c, src).ok && |src| >= MAX_BUFFER_SIZE
    ensures StartsStream(env, c, src, EncBuffer(env, c, src))
  {
    hide Counter, Encrypt, EncBuffer, NextSlot, Ctr, CtxAt, Streaming;
    EncBufferSucceeds(env, c, src);
    FirstBlockOfNewKey(env, c);
    LongBufferSteps(env, c, src);
    StreamInTwoPieces(env, Counter(env, c, MAX_BUFFER_SIZE).c, src, EncBuffer(env, c, src));
  }

  // ---- what each buffer holds, in either key mode ----

  /** The key and nonce that full buffer i begins, when the buffers before it did not stop the call. */
  function BufferEpoch(env: Env, c: Config, src: seq<Byte>, i: nat): Epoch
    requires WellFormed(c) && MAX_BUFFER_SIZE * i <= |src|
  {
    Counter(env, EncChunks(env, c, src, i).c, MAX_BUFFER_SIZE).c.h.epoch
  }

  lemma GeneratedStreams(env: Env, c: Config)
    requires WellFormed(c) && !c.given && KeyGenerate(env, c).ok
    ensures var r := KeyGenerate(env, c).c; Streaming(env, r) && r.h.epoch.src == [] && r.h.epoch.out == []
  {
    hide EncryptUpdate, Ctr, CtxAt;
    InstalledStreams(env, c.(slots := [Slot(env.randBlock(c.draws).value, env.randBlock(c.draws + 1).value)]));
  }

  /** A charge that changes the key leaves the context at the start of a new stream. */
  lemma NewKeyStreams(env: Env, c: Config, num: nat)
    requires WellFormed(c) && Counter(env, c, num).ok
    ensures var r := Counter(env, c, num).c; Streaming(env, r) && r.h.epoch.src == [] && r.h.epoch.out == []
  {
    hide EncryptUpdate, Ctr, CtxAt;
    if c.given {
      InstalledStreams(env, Rotate(env, c.(index := NextSlot(c))));
    } else {
      GeneratedStreams(env, c);
    }
  }

  /** Full buffer i of the first k, if it is stored, is its source under a key of its own, from the start of
      that key's keystream; and after the last one the stream stands behind it. */
  ghost predicate BufferStored(env: Env, c: Config, src: seq<Byte>, out: seq<Byte>, i: nat)
    requires WellFormed(c) && MAX_BUFFER_SIZE * (i + 1) <= |src| && MAX_BUFFER_SIZE * (i + 1) <= |out|
  {
    var p := BufferEpoch(env, c, src, i);
    out[MAX_BUFFER_SIZE * i..MAX_BUFFER_SIZE * (i + 1)]
    == Ctr(env.cipher, p.key, p.iv, 0, src[MAX_BUFFER_SIZE * i..MAX_BUFFER_SIZE * (i + 1)])
  }

  lemma NewStream(env: Env, c: Config, src: seq<Byte>)
    requires Streaming(env, c) && c.h.epoch.src == [] && c.h.epoch.out == []
    ensures var e := Encrypt(env, c, src);
            && Streaming(env, e.c) && e.c.h.epoch.src == src && e.c.h.epoch.key == c.h.epoch.key
            && e.c.h.epoch.iv == c.h.epoch.iv && e.bytes == Ctr(env.cipher, c.h.epoch.key, c.h.epoch.iv, 0, src)
  {
    hide EncryptUpdate, Ctr, CtxAt;
    FreshStream(env, c, src);
  }

  lemma OneMoreBuffer(env: Env, c: Config, src: seq<Byte>, k: nat)
    requires WellFormed(c) && k > 0 && MAX_BUFFER_SIZE * k <= |src| && EncChunks(env, c, src, k).ok
    ensures var r, s := EncChunks(env, c, src, k - 1), EncChunks(env, c, src, k);
            var p := BufferEpoch(env, c, src, k - 1);
            var block := src[MAX_BUFFER_SIZE * (k - 1)..MAX_BUFFER_SIZE * k];
            && r.ok && s.out == r.out + Ctr(env.cipher, p.key, p.iv, 0, block)
            && Streaming(env, s.c) && s.c.h.epoch.key == p.key && s.c.h.epoch.iv == p.iv && s.c.h.epoch.src == block
  {
    hide EncryptUpdate, Ctr, CtxAt, Counter, Streaming;
    var r := EncChunks(env, c, src, k - 1);
    var o := Counter(env, r.c, MAX_BUFFER_SIZE);
    NewKeyStreams(env, r.c, MAX_BUFFER_SIZE);
    var block := src[MAX_BUFFER_SIZE * (k - 1)..MAX_BUFFER_SIZE * k];
    NewStream(env, o.c, block);
  }

  lemma {:induction false} ChunksContent(env: Env, c: Config, src: seq<Byte>, k: nat, i: nat)
    requires WellFormed(c) && MAX_BUFFER_SIZE * k <= |src| && i < k
    requires MAX_BUFFER_SIZE * (i + 1) <= |EncChunks(env, c, src, k).out|
    ensures BufferStored(env, c, src, EncChunks(env, c, src, k).out, i)
  {
    hide Counter, Encrypt, BufferEpoch, Ctr, Streaming;
    var r, s := EncChunks(env, c, src, k - 1), EncChunks(env, c, src, k);
    if s.ok {
      OneMoreBuffer(env, c, src, k);
    }
    if i < k - 1 {
      ChunksContent(env, c, src, k - 1, i);
      assert s.out[MAX_BUFFER_SIZE * i..MAX_BUFFER_SIZE * (i + 1)]
          == r.out[MAX_BUFFER_SIZE * i..MAX_BUFFER_SIZE * (i + 1)];
    }
  }

  /** Whether or not the call succeeds: every full buffer it stores is its own source under the key begun
      for it, from the start of that key's keystream. */
  lemma BufferContent(env: Env, c: Config, src: seq<Byte>, i: nat)
    requires WellFormed(c) && MAX_BUFFER_SIZE * (i + 1) <= |src|
    requires MAX_BUFFER_SIZE * (i + 1) <= |EncBuffer(env, c, src).out|
    ensures BufferStored(env, c, src, EncBuffer(env, c, src).out, i)
  {
    hide EncChunks, Encrypt, BufferEpoch, Ctr;
    var k := |src| / MAX_BUFFER_SIZE;
    var r := EncChunks(env, c, src, k);
    ChunksContent(env, c, src, k, i);
    assert EncBuffer(env, c, src).out[..|r.out|] == r.out;
    assert EncBuffer(env, c, src).out[MAX_BUFFER_SIZE * i..MAX_BUFFER_SIZE * (i + 1)]
        == r.out[MAX_BUFFER_SIZE * i..MAX_BUFFER_SIZE * (i + 1)];
  }

  lemma NoTail(env: Env, p: Epoch)
    ensures Ctr(env.cipher, p.key, p.iv, MAX_BUFFER_SIZE, []) == []
  {
  }

  lemma EncryptContinues(env: Env, c: Config, src: seq<Byte>)
    requires Streaming(env, c)
    ensures var p := c.h.epoch; Encrypt(env, c, src).bytes == Ctr(env.cipher, p.key, p.iv, |p.src|, src)
  {
    hide EncryptUpdate, Ctr, CtxAt;
    EncryptUpdateIsCtr(env.cipher, c.h.epoch.key, c.h.epoch.iv, |c.h.epoch.src|, src);
  }

  /** The tail of a call with full buffers continues the stream of the last one. */
  lemma TailContent(env: Env, c: Config, src: seq<Byte>)
    requires WellFormed(c) && |src| > MAX_BUFFER_SIZE && EncBuffer(env, c, src).ok
    ensures var k := |src| / MAX_BUFFER_SIZE;
            var p := BufferEpoch(env, c, src, k - 1);
            && |EncBuffer(env, c, src).out| == |src|
            && EncBuffer(env, c, src).out[MAX_BUFFER_SIZE * k..]
            == Ctr(env.cipher, p.key, p.iv, MAX_BUFFER_SIZE, src[MAX_BUFFER_SIZE * k..])
  {
    hide EncChunks, EncryptUpdate, BufferEpoch, Ctr, CtxAt, Streaming;
    var k := |src| / MAX_BUFFER_SIZE;
    var r, tail := EncChunks(env, c, src, k), src[MAX_BUFFER_SIZE * k..];
    OneMoreBuffer(env, c, src, k);
    if tail == [] {
      NoTail(env, BufferEpoch(env, c, src, k - 1));
    } else {
      EncryptContinues(env, r.c, tail);
      assert EncBuffer(env, c, src).out[MAX_BUFFER_SIZE * k..] == Encrypt(env, r.c, tail).bytes;
    }
  }

  lemma ChunkOk(env: Env, c: Config, src: seq<Byte>, i: nat)
    requires WellFormed(c) && MAX_BUFFER_SIZE * (i + 1) <= |src| && EncChunks(env, c, src, i + 1).ok
    ensures EncChunks(env, c, src, i).ok && Counter(env, EncChunks(env, c, src, i).c, MAX_BUFFER_SIZE).ok
  {
    hide Counter, Encrypt;
  }

  /** A buffer is stored only if the call got that far. */
  lemma {:induction false} StoredOk(env: Env, c: Config, src: seq<Byte>, k: nat, i: nat)
    requires WellFormed(c) && MAX_BUFFER_SIZE * k <= |src| && i < k
    requires MAX_BUFFER_SIZE * (i + 1) <= |EncChunks(env, c, src, k).out|
    ensures EncChunks(env, c, src, i + 1).ok
  {
    hide Counter, Encrypt;
    if i < k - 1 {
      StoredOk(env, c, src, k - 1, i);
    }
  }

  lemma KeyInstalledOk(env: Env, c: Config, num: nat)
    requires WellFormed(c) && !c.given && Counter(env, c, num).ok
    ensures env.randBlock(c.draws).Some? && env.randBlock(c.draws + 1).Some?
    ensures Counter(env, c, num).c.h.epoch
         == Epoch(env.randBlock(c.draws).value, env.randBlock(c.draws + 1).value, [], [])
  {
  }

  /** With generated keys the key and nonce of a stored buffer i are the draws made for it: three draws go
      to each buffer. */
  lemma GeneratedEpochs(env: Env, c: Config, src: seq<Byte>, i: nat)
    requires WellFormed(c) && !c.given && MAX_BUFFER_SIZE * (i + 1) <= |src|
    requires MAX_BUFFER_SIZE * (i + 1) <= |EncBuffer(env, c, src).out|
    ensures env.randBlock(c.draws + 3 * i).Some? && env.randBlock(c.draws + 3 * i + 1).Some?
    ensures var p := BufferEpoch(env, c, src, i);
            p.key == env.randBlock(c.draws + 3 * i).value && p.iv == env.randBlock(c.draws + 3 * i + 1).value
  {
    hide EncChunks, Encrypt, Counter, BudgetAfter, NewKeyAt;
    StoredOk(env, c, src, |src| / MAX_BUFFER_SIZE, i);
    ChunkOk(env, c, src, i);
    GeneratedChunks(env, c, src, i);
    KeyInstalledOk(env, EncChunks(env, c, src, i).c, MAX_BUFFER_SIZE);
  }

  /** With given keys the only full buffer that can be stored is encrypted with the next slot, rewritten by
      its rotation. */
  lemma GivenEpoch(env: Env, c: Config, src: seq<Byte>)
    requires WellFormed(c) && c.given && MAX_BUFFER_SIZE <= |src| && c.next < MAX_BUFFER_SIZE
    ensures var p := BufferEpoch(env, c, src, 0);
            Slot(p.key, p.iv) == KeysChange(env, c).slots[NextSlot(c)]
  {
    hide EncryptUpdate;
    assert EncChunks(env, c, src, 0) == Enc(true, [], c);
  }
}
