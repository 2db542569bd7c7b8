/** The generator's pipeline (src/rdrand-gen.c) with rdrand_enc_buffer (src/librdrand-aes.c) as its
    encryptor, whose result generate_chunk ignores. */
module AesPipeline {
  import opened AesEncBuffer
  import opened AesLifetime
  import opened AesRuns
  import opened AesSchedule
  import opened ChunkLoop
  import opened CtrStream
  import opened Machine
  import opened Pipeline
  import opened Retry

  // A buffer of MAX_BUFFER_SIZE bytes, in words.
  const BUFFER_WORDS: nat := 256

  // ---- rdrand_enc_buffer as the encryptor ----

  /** The configuration after the given buffers have been handed to rdrand_enc_buffer. */
  function ConfigAfter(env: Env, c: Config, given: seq<seq<Word>>): (r: Config)
    requires WellFormed(c)
    ensures WellFormed(r) && SameShape(c, r)
  {
    if given == [] then c
    else
      var n := |given| - 1;
      EncBuffer(env, ConfigAfter(env, c, given[..n]), Flatten(given[n])).c
  }

  /** The call on the last of the given buffers. */
  function LastCall(env: Env, c: Config, given: seq<seq<Word>>): Enc
    requires WellFormed(c) && given != []
  {
    var n := |given| - 1;
    EncBuffer(env, ConfigAfter(env, c, given[..n]), Flatten(given[n]))
  }

  /** It stores what it has encrypted when it stops, and leaves the rest of the output buffer alone. */
  function RdRandEncryptor(env: Env, c: Config): Encryptor
    requires WellFormed(c)
  {
    (given: seq<seq<Word>>, j: nat, before: Word) =>
      if given == [] then before
      else
        var out := LastCall(env, c, given).out;
        if 8 * j + 8 <= |out| then LeWord(out[8 * j..8 * j + 8]) else before
  }

  lemma ChunkStep(env: Env, c: Config, src: seq<Byte>, k: nat)
    requires WellFormed(c) && 0 < k && MAX_BUFFER_SIZE * k <= |src|
    ensures var r, s := EncChunks(env, c, src, k - 1), EncChunks(env, c, src, k);
            |s.out| == |r.out| || |s.out| == |r.out| + MAX_BUFFER_SIZE
  {
    hide Counter, Encrypt, SameShape;
  }

  /** What the encryptor stores is a number of whole words. */
  lemma {:induction false} ChunksWhole(env: Env, c: Config, src: seq<Byte>, k: nat) returns (m: nat)
    requires WellFormed(c) && MAX_BUFFER_SIZE * k <= |src|
    ensures |EncChunks(env, c, src, k).out| == 8 * m
  {
    if k == 0 {
      m := 0;
    } else {
      hide EncChunks, WellFormed, SameShape;
      m := ChunksWhole(env, c, src, k - 1);
      ChunkStep(env, c, src, k);
      if |EncChunks(env, c, src, k).out| != 8 * m {
        m := m + BUFFER_WORDS;
      }
    }
  }

  lemma OutWhole(env: Env, c: Config, src: seq<Byte>, words: nat) returns (m: nat)
    requires WellFormed(c) && |src| == 8 * words
    ensures |EncBuffer(env, c, src).out| == 8 * m
  {
    hide EncChunks, Encrypt, SameShape;
    m := ChunksWhole(env, c, src, |src| / MAX_BUFFER_SIZE);
    if |EncBuffer(env, c, src).out| != 8 * m {
      m := words;
    }
  }

  lemma OverlaidSlice(m: seq<Byte>, s: seq<Byte>, a: nat, b: nat)
    requires a <= b <= |m| && |s| <= |m|
    ensures b <= |s| ==> Overlay(m, 0, s)[a..b] == s[a..b]
    ensures a >= |s| ==> Overlay(m, 0, s)[a..b] == m[a..b]
  {
    forall i | a <= i < b
      ensures Overlay(m, 0, s)[i] == if i < |s| then s[i] else m[i]
    {
      OverlayAt(m, 0, s, i);
    }
  }

  /** Word j of memory after the first m words have been overwritten. */
  lemma OverlaidWord(before: seq<Word>, out: seq<Byte>, m: nat, j: nat)
    requires j < |before| && |out| == 8 * m && m <= |before|
    ensures Overlay(Flatten(before), 0, out)[8 * j..8 * j + 8]
         == if j < m then out[8 * j..8 * j + 8] else LeBytes(before[j])
  {
    hide Flatten, LeBytes, Overlay;
    OverlaidSlice(Flatten(before), out, 8 * j, 8 * j + 8);
    FlattenAt(before, j);
  }

  /** In memory the encryptor does exactly what rdrand_enc_buffer does. */
  lemma EncryptedMemory(env: Env, c: Config, given: seq<seq<Word>>, before: seq<Word>)
    requires WellFormed(c) && given != [] && |before| == |given[|given| - 1]|
    ensures var out := LastCall(env, c, given).out;
            && |out| <= 8 * |before|
            && Flatten(EncryptedBuffer(RdRandEncryptor(env, c), given, before)) == Overlay(Flatten(before), 0, out)
  {
    hide EncBuffer, ConfigAfter, Flatten, LeBytes, LeWord, Overlay;
    var n := |given| - 1;
    var out := LastCall(env, c, given).out;
    var ws := EncryptedBuffer(RdRandEncryptor(env, c), given, before);
    var m := OutWhole(env, ConfigAfter(env, c, given[..n]), Flatten(given[n]), |before|);
    forall j: nat | j < |ws|
      ensures Overlay(Flatten(before), 0, out)[8 * j..8 * j + 8] == LeBytes(ws[j])
    {
      OverlaidWord(before, out, m, j);
      if j < m {
        LeBytesOfLeWord(out[8 * j..8 * j + 8]);
      }
    }
    FlattenIs(ws, Overlay(Flatten(before), 0, out));
  }

  // ---- large chunks with given keys ----

  /** Whatever call it is, rdrand_enc_buffer refuses a buffer of two full buffers or more, and leaves all
      but the first one of the output as it was. */
  lemma LargeCall(env: Env, c: Config, given: seq<seq<Word>>, before: seq<Word>)
    requires WellFormed(c) && c.given && given != [] && |before| == |given[|given| - 1]| >= 2 * BUFFER_WORDS
    ensures !LastCall(env, c, given).ok
    ensures forall j :: BUFFER_WORDS <= j < |before| ==>
              EncryptedBuffer(RdRandEncryptor(env, c), given, before)[j] == before[j]
  {
    hide EncBuffer, ConfigAfter, Flatten, Counter, Encrypt;
    var n := |given| - 1;
    LargeBufferRefused(env, ConfigAfter(env, c, given[..n]), Flatten(given[n]));
  }

  ghost predicate OldWords(ws: seq<Word>, buf0: seq<Word>) {
    |ws| <= |buf0| && forall j :: BUFFER_WORDS <= j < |ws| ==> ws[j] == buf0[j]
  }

  /** From position BUFFER_WORDS on the output buffer and all writes hold what buf0 held. */
  ghost predicate KeepsOld(l: Loop, buf0: seq<Word>) {
    && |l.encBuf| == |buf0|
    && (forall j :: BUFFER_WORDS <= j < |buf0| ==> l.encBuf[j] == buf0[j])
    && (forall k :: 0 <= k < |l.log.sent| ==> OldWords(l.log.sent[k].words, buf0))
  }

  lemma EmitKeepsOld(z: Sizes, w: World, l: Loop, from: nat, toppedUp: bool, buf0: seq<Word>)
    requires Sized(z, l) && z.aes && KeepsOld(l, buf0)
    ensures KeepsOld(Emit(z, w, l, from, toppedUp), buf0)
  {
  }

  lemma ToppedUpKeepsOld(z: Sizes, l: Loop, t: TopUp, buf0: seq<Word>)
    requires Sized(z, l) && KeepsOld(l, buf0)
    ensures Sized(z, ToppedUp(l, t)) && KeepsOld(ToppedUp(l, t), buf0)
  {
  }

  lemma PassKeepsOld(env: Env, c: Config, z: Sizes, w: World, l: Loop, turns: seq<nat>, buf0: seq<Word>)
    requires WellFormed(c) && c.given && w.enc == RdRandEncryptor(env, c)
    requires z.aes && z.Width() >= 2 * BUFFER_WORDS
    requires Sized(z, l) && CompleteRound(z, w, l, turns) && KeepsOld(l, buf0)
    ensures KeepsOld(Pass(z, w, l, turns), buf0)
  {
    hide CompleteRound, RoundEnd, FellShort, RdRandEncryptor, EncryptedBuffer, Emit, ToppedUp;
    var l1 := AfterRound(z, w, l, turns);
    PassEncrypts(z, w, l, turns);
    if !l.firstRun {
      LargeCall(env, c, l.given + [l.previous], l.encBuf);
    }
    assert KeepsOld(l1, buf0);
    if !FellShort(z, w, l, turns) {
      EmitKeepsOld(z, w, l1, l.pos, false, buf0);
    } else if l.threads == 1 && w.topUp(l.passes).Some? {
      ToppedUpKeepsOld(z, l1, w.topUp(l.passes).value, buf0);
      EmitKeepsOld(z, w, ToppedUp(l1, w.topUp(l.passes).value), l.pos, true, buf0);
    }
  }

  /** With given keys and rounds of at least two full buffers: in every run of the loop, whatever the
      hardware, the threads and fwrite do, all that is ever written behind the first MAX_BUFFER_SIZE bytes
      of a round is what the output buffer happened to hold when the loop began. */
  lemma {:induction false} LargeChunksKeepOld(env: Env, c: Config, z: Sizes, w: World, l: Loop, passes: seq<seq<nat>>)
    requires WellFormed(c) && c.given && w.enc == RdRandEncryptor(env, c)
    requires z.aes && z.Width() >= 2 * BUFFER_WORDS
    requires Fresh(z, l) && Sized(z, l) && Execution(z, w, l, passes)
    ensures KeepsOld(Loops(z, w, l, passes), l.encBuf)
  {
    hide Pass, Execution, RdRandEncryptor, CompleteRound;
    if passes == [] {
    } else {
      hide KeepsOld;
      var n := |passes| - 1;
      ExecutionFront(z, w, l, passes);
      LargeChunksKeepOld(env, c, z, w, l, passes[..n]);
      PassKeepsOld(env, c, z, w, Loops(z, w, l, passes[..n]), passes[n], l.encBuf);
    }
  }

  /** The budget before each call: two calls use up the first one, and from then on every second call
      changes the key. */
  lemma {:induction false} LargeBudget(env: Env, slots: seq<Slot>, given: seq<seq<Word>>)
    requires slots != [] && forall k :: 0 <= k < |given| ==> |given[k]| >= 2 * BUFFER_WORDS
    ensures ConfigAfter(env, GivenConfig(slots), given).next ==
            if given == [] then MAX_COUNTER else if |given| % 2 == 1 then MAX_COUNTER - MAX_BUFFER_SIZE else 0
  {
    hide EncBuffer, Flatten, Counter, Encrypt;
    if given == [] {
    } else {
      var n := |given| - 1;
      LargeBudget(env, slots, given[..n]);
      LargeBufferRefused(env, ConfigAfter(env, GivenConfig(slots), given[..n]), Flatten(given[n]));
    }
  }

  /** With rounds of one full buffer or more, but less than two, every third call changes the key. */
  lemma {:induction false} MediumBudget(env: Env, slots: seq<Slot>, given: seq<seq<Word>>)
    requires slots != [] && forall k :: 0 <= k < |given| ==> BUFFER_WORDS <= |given[k]| < 2 * BUFFER_WORDS
    ensures ConfigAfter(env, GivenConfig(slots), given).next == MAX_BUFFER_SIZE * (2 - |given| % 3)
  {
    hide EncBuffer, Flatten;
    if given == [] {
    } else {
      var n := |given| - 1;
      MediumBudget(env, slots, given[..n]);
      MediumBuffer(env, ConfigAfter(env, GivenConfig(slots), given[..n]), Flatten(given[n]));
    }
  }

  lemma StartsGiven(slots: seq<Slot>)
    requires slots != []
    ensures WellFormed(GivenConfig(slots)) && GivenConfig(slots).given
  {
  }

  /** Equal images mean equal words. */
  lemma {:induction false} FlattenSame(xs: seq<Word>, ys: seq<Word>)
    requires |xs| == |ys| && Flatten(xs) == Flatten(ys)
    ensures xs == ys
  {
    hide LeBytes, LeWord;
    forall j: nat | j < |xs|
      ensures xs[j] == ys[j]
    {
      FlattenAt(xs, j);
      FlattenAt(ys, j);
      LeWordOfLeBytes(xs[j]);
      LeWordOfLeBytes(ys[j]);
    }
  }

  /** What call k leaves in the output buffer: only every second one, from the third on, stores anything,
      the encryption of the first MAX_BUFFER_SIZE bytes of its chunk under a new key. */
  lemma LargeChunkPattern(env: Env, slots: seq<Slot>, drawn: seq<seq<Word>>, k: nat, before: seq<Word>)
    requires slots != [] && k < |drawn| && |before| == |drawn[k]|
    requires forall i :: 0 <= i < |drawn| ==> |drawn[i]| >= 2 * BUFFER_WORDS
    ensures var c := GivenConfig(slots);
            var d := ConfigAfter(env, c, drawn[..k]);
            var after := EncryptedBuffer(RdRandEncryptor(env, c), drawn[..k + 1], before);
            if k < 2 || k % 2 == 1 then after == before
            else Flatten(after) == Overlay(Flatten(before), 0,
                   Encrypt(env, Counter(env, d, MAX_BUFFER_SIZE).c, Flatten(drawn[k])[..MAX_BUFFER_SIZE]).bytes)
  {
    hide EncBuffer, ConfigAfter, Flatten, Counter, Encrypt, RdRandEncryptor, EncryptedBuffer, GivenConfig, Overlay;
    var c := GivenConfig(slots);
    var given := drawn[..k + 1];
    assert given[..k] == drawn[..k];
    StartsGiven(slots);
    LargeBudget(env, slots, drawn[..k]);
    LargeBufferRefused(env, ConfigAfter(env, c, drawn[..k]), Flatten(drawn[k]));
    EncryptedMemory(env, c, given, before);
    if k < 2 || k % 2 == 1 {
      OverlayNothing(Flatten(before), 0);
      FlattenSame(EncryptedBuffer(RdRandEncryptor(env, c), given, before), before);
    }
  }

  /** An undisturbed pipeline with such rounds writes the old contents of the output buffer twice, and
      then every second write is a repetition of the one before. */
  lemma LargeChunksRepeat(env: Env, slots: seq<Slot>, z: Sizes, w: World, l: Loop, passes: seq<seq<nat>>)
    requires slots != [] && w.enc == RdRandEncryptor(env, GivenConfig(slots)) && z.aes && z.Width() >= 2 * BUFFER_WORDS
    requires Fresh(z, l) && Sized(z, l) && Execution(z, w, l, passes) && NoneFallsShort(z, w, l, passes)
    requires var r := Loops(z, w, l, passes); Over(z, r) && r.halt.Going?
    ensures var outputs := Outputs(Loops(z, w, l, passes).log.sent);
            && |outputs| == z.chunkCount
            && forall k: nat :: k < |outputs| && (k < 2 || k % 2 == 1) ==>
                 outputs[k] == BufferBefore(outputs, l.encBuf, k)
  {
    hide Loops, Execution, NoneFallsShort, Concat, RdRandEncryptor, EncryptedBuffer, GivenConfig, ConfigAfter, Flatten;
    PipelineInOrder(z, w, l, passes);
    var r := Loops(z, w, l, passes);
    var drawn, outputs := r.log.drawn, Outputs(r.log.sent);
    forall k: nat | k < |outputs| && (k < 2 || k % 2 == 1)
      ensures outputs[k] == BufferBefore(outputs, l.encBuf, k)
    {
      assert DelayedAt(w.enc, drawn, outputs, l.encBuf, k);
      LargeChunkPattern(env, slots, drawn, k, BufferBefore(outputs, l.encBuf, k));
    }
  }

  // ---- small chunks ----

  /** The words of a list of buffers as bytes. */
  lemma FlattenLast(bs: seq<seq<Word>>)
    requires bs != []
    ensures var n := |bs| - 1; Flatten(Concat(bs)) == Flatten(Concat(bs[..n])) + Flatten(bs[n])
  {
    FlattenConcat(Concat(bs[..|bs| - 1]), bs[|bs| - 1]);
  }

  /** All buffers given so far have been encrypted on one keystream, under the key in use. */
  ghost predicate OneStream(env: Env, c: Config, given: seq<seq<Word>>) {
    var d := c.h.epoch;
    d.src == Flatten(Concat(given)) && d.out == Ctr(env.cipher, d.key, d.iv, 0, d.src) && Streaming(env, c)
  }

  lemma NothingGiven()
    ensures Flatten(Concat([])) == []
  {
  }

  lemma {:induction false} SmallCalls(env: Env, c: Config, given: seq<seq<Word>>)
    requires WellFormed(c) && Streaming(env, c) && c.h.epoch.src == []
    requires forall k :: 0 <= k < |given| ==> |given[k]| < BUFFER_WORDS
    ensures var d := ConfigAfter(env, c, given);
            && OneStream(env, d, given) && d.h.epoch.key == c.h.epoch.key && d.h.epoch.iv == c.h.epoch.iv
            && (given != [] ==>
                  && LastCall(env, c, given).ok
                  && d.h.epoch.out
                  == ConfigAfter(env, c, given[..|given| - 1]).h.epoch.out + LastCall(env, c, given).out)
  {
    hide EncBuffer, Flatten, Concat, Ctr, CtxAt;
    if given == [] {
      NothingGiven();
    } else {
      var n := |given| - 1;
      SmallCalls(env, c, given[..n]);
      ShortBufferContinuesStream(env, ConfigAfter(env, c, given[..n]), Flatten(given[n]));
      FlattenLast(given);
    }
  }

  lemma NoOutput(env: Env, c: Config)
    requires Streaming(env, c) && c.h.epoch.src == []
    ensures c.h.epoch.out == []
  {
  }

  lemma WholeOverlay(m: seq<Byte>, s: seq<Byte>)
    requires |m| == |s|
    ensures Overlay(m, 0, s) == s
  {
  }

  /** What the first k writes hold, when write i is the result of the encryptor's call on chunk i. */
  lemma {:induction false} SmallWrites(env: Env, c: Config, drawn: seq<seq<Word>>, outputs: seq<seq<Word>>,
                                       buf0: seq<Word>, k: nat)
    requires WellFormed(c) && Streaming(env, c) && c.h.epoch.src == [] && k <= |drawn| == |outputs|
    requires forall i :: 0 <= i < |drawn| ==> |drawn[i]| < BUFFER_WORDS
    requires forall i: nat :: i < |drawn| ==> DelayedAt(RdRandEncryptor(env, c), drawn, outputs, buf0, i)
    ensures Flatten(Concat(outputs[..k])) == ConfigAfter(env, c, drawn[..k]).h.epoch.out
  {
    hide EncBuffer, Flatten, Ctr, CtxAt, Streaming, Overlay, RdRandEncryptor, EncryptedBuffer;
    if k == 0 {
      NothingGiven();
      NoOutput(env, c);
    } else {
      hide Concat, ConfigAfter;
      var before, given := BufferBefore(outputs, buf0, k - 1), drawn[..k];
      assert given[..k - 1] == drawn[..k - 1] && outputs[..k][..k - 1] == outputs[..k - 1];
      SmallWrites(env, c, drawn, outputs, buf0, k - 1);
      assert DelayedAt(RdRandEncryptor(env, c), drawn, outputs, buf0, k - 1);
      EncryptedMemory(env, c, given, before);
      SmallCalls(env, c, given);
      WholeOverlay(Flatten(before), LastCall(env, c, given).out);
      FlattenLast(outputs[..k]);
    }
  }

  /** With rounds of less than a full buffer all that an undisturbed pipeline writes is one CTR message
      under the key in use at the start: the words drawn, in order, XOR one contiguous keystream. */
  lemma SmallChunksOneStream(env: Env, c: Config, z: Sizes, w: World, l: Loop, passes: seq<seq<nat>>)
    requires WellFormed(c) && Streaming(env, c) && c.h.epoch.src == [] && w.enc == RdRandEncryptor(env, c)
    requires z.aes && z.Width() < BUFFER_WORDS
    requires Fresh(z, l) && Sized(z, l) && Execution(z, w, l, passes) && NoneFallsShort(z, w, l, passes)
    requires var r := Loops(z, w, l, passes); Over(z, r) && r.halt.Going?
    ensures var r := Loops(z, w, l, passes);
            Flatten(AllWords(r.log.sent))
            == Ctr(env.cipher, c.h.epoch.key, c.h.epoch.iv, 0, Flatten(Concat(r.log.drawn)))
  {
    hide Loops, Execution, NoneFallsShort, Flatten, Concat, Ctr, CtxAt, Streaming;
    hide RdRandEncryptor, DelayedAt, ConfigAfter;
    PipelineInOrder(z, w, l, passes);
    var r := Loops(z, w, l, passes);
    var drawn, outputs := r.log.drawn, Outputs(r.log.sent);
    SmallWrites(env, c, drawn, outputs, l.encBuf, |drawn|);
    SmallCalls(env, c, drawn);
    assert drawn[..|drawn|] == drawn && outputs[..|outputs|] == outputs;
  }

  /** rdrand_enc_buffer succeeds on chunk k. */
  predicate CallSucceeds(env: Env, c: Config, drawn: seq<seq<Word>>, k: nat)
    requires WellFormed(c) && k < |drawn|
  {
    LastCall(env, c, drawn[..k + 1]).ok
  }

  /** With given keys and rounds of `width` words the encryptor succeeds on every chunk when a round is
      less than a full buffer, on every third one when it is less than two, and else on none. */
  lemma ChunkEncrypted(env: Env, slots: seq<Slot>, drawn: seq<seq<Word>>, width: nat, k: nat)
    requires slots != [] && k < |drawn| && forall i :: 0 <= i < |drawn| ==> |drawn[i]| == width
    ensures CallSucceeds(env, GivenConfig(slots), drawn, k)
       <==> width < BUFFER_WORDS || (width < 2 * BUFFER_WORDS && k % 3 == 2)
  {
    hide EncBuffer, ConfigAfter, Flatten, Streaming, GivenConfig;
    var c := GivenConfig(slots);
    StartsGiven(slots);
    assert drawn[..k + 1][..k] == drawn[..k];
    EncBufferSucceeds(env, ConfigAfter(env, c, drawn[..k]), Flatten(drawn[k]));
    if BUFFER_WORDS <= width < 2 * BUFFER_WORDS {
      MediumBudget(env, slots, drawn[..k]);
    }
  }

  /** So it succeeds on every chunk exactly when a round is less than a full buffer, or there are no
      chunks. */
  lemma EveryChunkEncrypted(env: Env, slots: seq<Slot>, drawn: seq<seq<Word>>, width: nat)
    requires slots != [] && forall i :: 0 <= i < |drawn| ==> |drawn[i]| == width
    ensures (forall k: nat :: k < |drawn| ==> CallSucceeds(env, GivenConfig(slots), drawn, k))
       <==> width < BUFFER_WORDS || drawn == []
  {
    hide CallSucceeds;
    forall k: nat | k < |drawn|
      ensures CallSucceeds(env, GivenConfig(slots), drawn, k)
         <==> width < BUFFER_WORDS || (width < 2 * BUFFER_WORDS && k % 3 == 2)
    {
      ChunkEncrypted(env, slots, drawn, width, k);
    }
    if drawn != [] {
      assert width < BUFFER_WORDS <==> CallSucceeds(env, GivenConfig(slots), drawn, 0);
    }
  }

  // ---- generated keys ----

  ghost predicate AllSucceed(env: Env, d: nat, drawn: seq<seq<Word>>)
    requires SetsUp(env, d)
  {
    forall k: nat :: k < |drawn| ==> CallSucceeds(env, RandomStart(env, d, 0).c, drawn, k)
  }

  /** With generated keys: rdrand_enc_buffer succeeds on every chunk whatever RAND_bytes yields, as long as
      it yields something. */
  ghost predicate AlwaysEncrypted(e: Cipher, d: nat, drawn: seq<seq<Word>>) {
    forall env: Env :: env.cipher == e && RandomNeverFails(env) ==> AllSucceed(env, d, drawn)
  }

  lemma OneGeneratedBuffer(env: Env, c: Config, src: seq<Byte>)
    requires WellFormed(c) && !c.given && MAX_BUFFER_SIZE <= |src| < 2 * MAX_BUFFER_SIZE
    requires EncBuffer(env, c, src).ok
    ensures EncBuffer(env, c, src).c.next == BudgetAfter(env, c.draws, c.next, 1)
  {
    hide EncChunks, EncryptUpdate, BudgetAfter;
    GeneratedChunks(env, c, src, 1);
  }

  /** The first call after set-up: its first full buffer begins a new key, the second one only if the
      first timer was short. */
  lemma FirstGeneratedCall(env: Env, d: nat, src: seq<Byte>)
    requires RandomNeverFails(env)
    ensures var c := RandomStart(env, d, 0).c;
            && (|src| < 2 * MAX_BUFFER_SIZE ==> EncBuffer(env, c, src).ok)
            && (|src| >= 2 * MAX_BUFFER_SIZE && Timer(env.randTimer(d + 4).value) >= MAX_BUFFER_SIZE ==>
                  !EncBuffer(env, c, src).ok)
            && (MAX_BUFFER_SIZE <= |src| < 2 * MAX_BUFFER_SIZE ==>
                  EncBuffer(env, c, src).c.next == Timer(env.randTimer(d + 4).value))
  {
    hide EncBuffer, EncryptUpdate, Timer;
    var c := RandomStart(env, d, 0).c;
    GeneratedEncBufferSucceeds(env, c, src);
    if |src| >= MAX_BUFFER_SIZE {
      assert BudgetAfter(env, c.draws, c.next, 0) == 0;
      assert BudgetAfter(env, c.draws, c.next, 1) == Timer(env.randTimer(d + 4).value);
      if |src| < 2 * MAX_BUFFER_SIZE {
        OneGeneratedBuffer(env, c, src);
      } else if Timer(env.randTimer(d + 4).value) >= MAX_BUFFER_SIZE {
        assert !NewKeyAt(env, c.draws, c.next, 1);
      }
    }
  }

  lemma SmallGeneratedChunk(env: Env, d: nat, drawn: seq<seq<Word>>, k: nat)
    requires SetsUp(env, d) && k < |drawn| && forall i :: 0 <= i < |drawn| ==> |drawn[i]| < BUFFER_WORDS
    ensures CallSucceeds(env, RandomStart(env, d, 0).c, drawn, k)
  {
    hide ConfigAfter, LastCall, Streaming, Concat, Flatten;
    RandomSetUpKeeps(env, env.randBlock(d).value, env.randBlock(d + 1).value, d + 2);
    SmallCalls(env, RandomStart(env, d, 0).c, drawn[..k + 1]);
  }

  lemma FirstGeneratedChunk(env: Env, d: nat, drawn: seq<seq<Word>>)
    requires RandomNeverFails(env) && drawn != []
    ensures |drawn[0]| < 2 * BUFFER_WORDS ==> CallSucceeds(env, RandomStart(env, d, 0).c, drawn, 0)
    ensures |drawn[0]| >= 2 * BUFFER_WORDS && env.randTimer(d + 4).value == UINT_MAX ==>
              !CallSucceeds(env, RandomStart(env, d, 0).c, drawn, 0)
  {
    hide EncBuffer, Flatten, RandomStart;
    assert drawn[..0 + 1] == [drawn[0]] && drawn[..0 + 1][..0] == [];
    FirstGeneratedCall(env, d, Flatten(drawn[0]));
  }

  lemma SecondGeneratedChunk(env: Env, d: nat, drawn: seq<seq<Word>>)
    requires RandomNeverFails(env) && env.randTimer(d + 4).value == UINT_MAX && |drawn| >= 2
    requires BUFFER_WORDS <= |drawn[0]| < 2 * BUFFER_WORDS && |drawn[1]| >= BUFFER_WORDS
    ensures !CallSucceeds(env, RandomStart(env, d, 0).c, drawn, 1)
  {
    hide EncBuffer, Flatten, RandomStart;
    var c := RandomStart(env, d, 0).c;
    assert drawn[..1 + 1][..1] == [drawn[0]] && [drawn[0]][..0] == [];
    FirstGeneratedCall(env, d, Flatten(drawn[0]));
    var c1 := EncBuffer(env, c, Flatten(drawn[0])).c;
    assert ConfigAfter(env, c, [drawn[0]]) == c1;
    GeneratedEncBufferSucceeds(env, c1, Flatten(drawn[1]));
    assert BudgetAfter(env, c1.draws, c1.next, 0) == MAX_COUNTER;
    assert !NewKeyAt(env, c1.draws, c1.next, 0);
  }

  /** With generated keys the encryptor succeeds on every chunk for everything RAND_bytes may yield exactly
      when a round is less than a full buffer, or less than two and the only one. */
  lemma GeneratedChunksEncrypted(e: Cipher, a: Attempts, d: nat, drawn: seq<seq<Word>>, width: nat)
    requires forall i :: 0 <= i < |drawn| ==> |drawn[i]| == width
    ensures AlwaysEncrypted(e, d, drawn)
       <==> width < BUFFER_WORDS || drawn == [] || (|drawn| == 1 && width < 2 * BUFFER_WORDS)
  {
    hide CallSucceeds, RandomStart, Timer;
    if width < BUFFER_WORDS || drawn == [] || (|drawn| == 1 && width < 2 * BUFFER_WORDS) {
      forall env: Env | env.cipher == e && RandomNeverFails(env)
        ensures AllSucceed(env, d, drawn)
      {
        forall k: nat | k < |drawn|
          ensures CallSucceeds(env, RandomStart(env, d, 0).c, drawn, k)
        {
          if width < BUFFER_WORDS {
            SmallGeneratedChunk(env, d, drawn, k);
          } else {
            FirstGeneratedChunk(env, d, drawn);
          }
        }
      }
    } else {
      var env := Env(e, a, _ => Some(ZERO_BLOCK), _ => Some(UINT_MAX));
      assert RandomNeverFails(env);
      FirstGeneratedChunk(env, d, drawn);
      if width < 2 * BUFFER_WORDS {
        SecondGeneratedChunk(env, d, drawn);
        assert !CallSucceeds(env, RandomStart(env, d, 0).c, drawn, 1);
      } else {
        assert !CallSucceeds(env, RandomStart(env, d, 0).c, drawn, 0);
      }
      assert !AllSucceed(env, d, drawn);
    }
  }
}
