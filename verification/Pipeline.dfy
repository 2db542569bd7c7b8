/** What the loop of generate_chunk (src/rdrand-gen.c) makes of the words it draws: with encryption
    the two swapped buffers are a queue of one chunk between the hardware and fwrite. */
module Pipeline {
  import opened ChunkLoop
  import opened Machine
  import opened ParallelRound
  import opened Retry
  import opened RoundShortfall

  /** What a finished round amounts to, in terms of the buffers and attempts before and after. */
  ghost predicate RoundOutcome(sh: Shape, from: nat, to: nat, previous: seq<Word>, before: seq<Word>,
                               gen: seq<Word>, buf: seq<Word>, written: nat)
  {
    var size := sh.threads * sh.chunkSize;
    var drawn := Successes(sh.a, from, to);
    && to >= from && written == |drawn| <= size <= |gen|
    && (!sh.generating ==> to == from)
    && (written == size ==> multiset(gen[..size]) == multiset(drawn))
    && |buf| == |before| == |previous|
    && forall j :: 0 <= j < |buf| ==> buf[j] == EncryptedAt(sh, previous, before, j)
  }

  lemma FinishedRound(sh: Shape, s: Round, turns: seq<nat>)
    requires Begins(sh, s) && Finished(sh, Run(sh, s, turns))
    ensures var r := Run(sh, s, turns);
            RoundOutcome(sh, s.pos, r.pos, s.previous, s.buf, r.gen, r.buf, Written(r.workers))
  {
    hide Run, Written, Finished, Successes;
    RoundConserves(sh, s, turns);
    EncryptionIsolated(sh, s, turns);
    if !sh.generating {
      IdleRound(sh, s, turns);
    }
  }

  /** The round of a pass, when it has not fallen short. */
  ghost predicate PassOutcome(z: Sizes, w: World, l: Loop, l1: Loop) {
    && l1.pos >= l.pos
    && |l1.current| == |l1.encBuf| == |l.encBuf| == |l.previous| == z.Width() && RoundWords(z, l) <= z.Width()
    && (if l.n < z.chunkCount then multiset(l1.current[..RoundWords(z, l)]) == multiset(Successes(w.a, l.pos, l1.pos))
        else l1.pos == l.pos)
    && l1.encBuf == if z.aes && !l.firstRun then EncryptedBuffer(w.enc, l.given + [l.previous], l.encBuf) else l.encBuf
  }

  /** The encryptor's part of a pass, whether or not the round falls short. */
  lemma PassEncrypts(z: Sizes, w: World, l: Loop, turns: seq<nat>)
    requires Sized(z, l) && CompleteRound(z, w, l, turns)
    ensures AfterRound(z, w, l, turns).encBuf ==
            if z.aes && !l.firstRun then EncryptedBuffer(w.enc, l.given + [l.previous], l.encBuf) else l.encBuf
  {
    hide Run, Finished;
    RoundBegins(z, w, l);
    EncryptionIsolated(RoundShape(z, w, l), RoundStart(z, w, l), turns);
  }

  lemma PassDraws(z: Sizes, w: World, l: Loop, turns: seq<nat>)
    requires Sized(z, l) && CompleteRound(z, w, l, turns) && !FellShort(z, w, l, turns)
    ensures PassOutcome(z, w, l, AfterRound(z, w, l, turns))
  {
    hide Run, Written, Finished, Successes;
    var sh := RoundShape(z, w, l);
    RoundBegins(z, w, l);
    FinishedRound(sh, RoundStart(z, w, l), turns);
    assert sh.threads * sh.chunkSize == RoundWords(z, l);
  }

  // ---- the chunks drawn ----

  /** The chunks drawn so far are whole, and together they are the words the hardware supplied. */
  ghost predicate DrawnAll(a: Attempts, from: nat, to: nat, drawn: seq<seq<Word>>, width: nat) {
    && from <= to && (forall k :: 0 <= k < |drawn| ==> |drawn[k]| == width)
    && multiset(Concat(drawn)) == multiset(Successes(a, from, to))
  }

  lemma DrawMore(a: Attempts, from: nat, mid: nat, to: nat, drawn: seq<seq<Word>>, width: nat, chunk: seq<Word>)
    requires DrawnAll(a, from, mid, drawn, width) && mid <= to && |chunk| == width
    requires multiset(chunk) == multiset(Successes(a, mid, to))
    ensures DrawnAll(a, from, to, drawn + [chunk], width)
  {
    hide Concat, Successes;
    ConcatAppend(drawn, chunk);
    SuccessesSplit(a, from, mid, to);
  }

  // ---- the delay line ----

  /** What the encryptor's buffer holds before call c. */
  ghost function BufferBefore(outputs: seq<seq<Word>>, buf0: seq<Word>, c: nat): seq<Word>
    requires c <= |outputs|
  {
    if c == 0 then buf0 else outputs[c - 1]
  }

  /** Write k is the result of the encryptor's call k on chunk k. */
  ghost predicate DelayedAt(enc: Encryptor, drawn: seq<seq<Word>>, outputs: seq<seq<Word>>, buf0: seq<Word>, k: nat)
    requires k < |drawn| && k < |outputs|
  {
    var before := BufferBefore(outputs, buf0, k);
    |drawn[k]| == |before| && outputs[k] == EncryptedBuffer(enc, drawn[..k + 1], before)
  }

  /** The encryptor has been given the first c chunks, once each and in order, and the writes are its
      results in the same order. */
  ghost predicate DelayLine(enc: Encryptor, drawn: seq<seq<Word>>, given: seq<seq<Word>>, outputs: seq<seq<Word>>,
                            buf0: seq<Word>, c: nat)
  {
    && |given| == |outputs| == c <= |drawn| && given == drawn[..c]
    && forall k: nat :: k < c ==> DelayedAt(enc, drawn, outputs, buf0, k)
  }

  lemma DelayMore(enc: Encryptor, drawn: seq<seq<Word>>, given: seq<seq<Word>>, outputs: seq<seq<Word>>,
                  buf0: seq<Word>, c: nat, out: seq<Word>)
    requires DelayLine(enc, drawn, given, outputs, buf0, c) && c < |drawn|
    requires |drawn[c]| == |BufferBefore(outputs, buf0, c)|
    requires out == EncryptedBuffer(enc, drawn[..c + 1], BufferBefore(outputs, buf0, c))
    ensures DelayLine(enc, drawn, given + [drawn[c]], outputs + [out], buf0, c + 1)
  {
    var outputs' := outputs + [out];
    forall k: nat | k <= c
      ensures DelayedAt(enc, drawn, outputs', buf0, k)
    {
      assert BufferBefore(outputs', buf0, k) == BufferBefore(outputs, buf0, k);
      assert k < c ==> DelayedAt(enc, drawn, outputs, buf0, k);
    }
  }

  /** Drawing one more chunk does not disturb the ones already encrypted. */
  lemma DelayDraws(enc: Encryptor, drawn: seq<seq<Word>>, given: seq<seq<Word>>, outputs: seq<seq<Word>>,
                   buf0: seq<Word>, c: nat, chunk: seq<Word>)
    requires DelayLine(enc, drawn, given, outputs, buf0, c)
    ensures DelayLine(enc, drawn + [chunk], given, outputs, buf0, c)
  {
    forall k: nat | k < c
      ensures DelayedAt(enc, drawn + [chunk], outputs, buf0, k)
    {
      assert DelayedAt(enc, drawn, outputs, buf0, k);
      assert (drawn + [chunk])[..k + 1] == drawn[..k + 1];
    }
  }

  // ---- the loop without a shortfall ----

  /** Nothing has been lost, repeated or reordered; buf0 is what the encryptor's buffer held at the
      start, `from` the attempts made before. */
  ghost predicate Lossless(z: Sizes, w: World, from: nat, buf0: seq<Word>, l: Loop) {
    var drawn, outputs := l.log.drawn, Outputs(l.log.sent);
    && DrawnAll(w.a, from, l.pos, drawn, z.Width())
    && |drawn| == (if l.n <= z.chunkCount then l.n else z.chunkCount)
    && if !z.aes then outputs == drawn
       else
         var c := WritesBefore(z, l.n);
         && DelayLine(w.enc, drawn, l.given, outputs, buf0, c)
         && l.encBuf == BufferBefore(outputs, buf0, c)
         && (1 <= l.n <= z.chunkCount ==> l.previous == drawn[l.n - 1])
  }

  lemma LosslessStart(z: Sizes, w: World, l: Loop)
    requires Fresh(z, l)
    ensures Lossless(z, w, l.pos, l.encBuf, l)
  {
  }

  /** The chunk of a complete pass. */
  function Chunk(z: Sizes, l: Loop, l1: Loop): seq<seq<Word>> {
    if l.n < z.chunkCount then [l1.current] else []
  }

  lemma DrawsChunk(z: Sizes, w: World, l: Loop, l1: Loop, from: nat)
    requires PassOutcome(z, w, l, l1) && l.threads == z.threads
    requires DrawnAll(w.a, from, l.pos, l.log.drawn, z.Width())
    ensures DrawnAll(w.a, from, l1.pos, l.log.drawn + Chunk(z, l, l1), z.Width())
  {
    hide Concat, Successes;
    if l.n < z.chunkCount {
      assert l1.current[..z.Width()] == l1.current;
      DrawMore(w.a, from, l.pos, l1.pos, l.log.drawn, z.Width(), l1.current);
    } else {
      assert l.log.drawn + [] == l.log.drawn;
    }
  }

  /** What the loop has at the end of a pass that writes everything it should. */
  lemma EmitsWhole(z: Sizes, w: World, l: Loop, from: nat)
    requires Sized(z, l) && l.threads == z.threads && l.halt.Going? && Emit(z, w, l, from, false).halt.Going?
    ensures var r := Emit(z, w, l, from, false);
            var out := if z.aes && l.firstRun then [] else [if z.aes then l.encBuf else l.current];
            && r.n == l.n + 1 && r.pos == l.pos && r.encBuf == l.encBuf && r.given == l.given
            && r.log.drawn == l.log.drawn + Chunk(z, l, l)
            && Outputs(r.log.sent) == Outputs(l.log.sent) + out
            && (z.aes ==> r.previous == l.current)
  {
    var r := Emit(z, w, l, from, false);
    var buf := if z.aes then l.encBuf else l.current;
    assert RoundWords(z, l) == z.Width() && buf[..z.Width()] == buf && l.current[..z.Width()] == l.current;
    if z.aes && l.firstRun {
      assert Outputs(l.log.sent) + [] == Outputs(l.log.sent);
    } else {
      AllWordsAppend(l.log.sent, r.log.sent[|l.log.sent|]);
    }
  }

  lemma DelayPass(z: Sizes, w: World, l: Loop, l1: Loop, buf0: seq<Word>)
    requires z.aes && l.firstRun == (l.n == 0) && l.n < z.Passes() && PassOutcome(z, w, l, l1)
    requires var outputs := Outputs(l.log.sent); var c := WritesBefore(z, l.n);
             && DelayLine(w.enc, l.log.drawn, l.given, outputs, buf0, c)
             && l.encBuf == BufferBefore(outputs, buf0, c)
             && |l.log.drawn| == l.n && (l.n > 0 ==> l.previous == l.log.drawn[l.n - 1])
    ensures var outputs := Outputs(l.log.sent) + if l.n == 0 then [] else [l1.encBuf];
            var given := l.given + if l.n == 0 then [] else [l.previous];
            && DelayLine(w.enc, l.log.drawn + Chunk(z, l, l1), given, outputs, buf0, l.n)
            && l1.encBuf == BufferBefore(outputs, buf0, l.n)
  {
    hide DelayedAt, EncryptedBuffer, Successes;
    var drawn, given, outputs := l.log.drawn, l.given, Outputs(l.log.sent);
    if l.n == 0 {
      assert given + [] == given && outputs + [] == outputs;
    } else {
      assert drawn[..l.n] == given + [l.previous];
      DelayMore(w.enc, drawn, given, outputs, buf0, l.n - 1, l1.encBuf);
      given, outputs := given + [l.previous], outputs + [l1.encBuf];
    }
    if l.n < z.chunkCount {
      DelayDraws(w.enc, drawn, given, outputs, buf0, l.n, l1.current);
    } else {
      assert drawn + [] == drawn;
    }
  }

  /** A complete pass at full width: chunk n is drawn while chunk n - 1 is encrypted and written. */
  lemma PassIsLossless(z: Sizes, w: World, first: nat, l: Loop, turns: seq<nat>, from: nat, buf0: seq<Word>)
    requires Books(z, w, first, l) && Lossless(z, w, from, buf0, l) && !Over(z, l) && l.threads == z.threads
    requires CompleteRound(z, w, l, turns) && !FellShort(z, w, l, turns) && Pass(z, w, l, turns).halt.Going?
    ensures Lossless(z, w, from, buf0, Pass(z, w, l, turns))
  {
    hide CompleteRound, RoundEnd, FellShort, SentAt, AllWords, DrawnAll, DelayLine, EncryptedBuffer, Successes;
    PassDraws(z, w, l, turns);
    var l1 := AfterRound(z, w, l, turns);
    DrawsChunk(z, w, l, l1, from);
    if z.aes {
      DelayPass(z, w, l, l1, buf0);
    }
    EmitsWhole(z, w, l1, l.pos);
  }

  // ---- main results ----

  /** In every pass the round generates what it should. */
  ghost predicate NoneFallsShort(z: Sizes, w: World, l: Loop, passes: seq<seq<nat>>)
    requires Sized(z, l)
  {
    forall p: nat :: p < |passes| ==> !FellShort(z, w, Before(z, w, l, passes, p), passes[p])
  }

  lemma NoneFallsShortFront(z: Sizes, w: World, l: Loop, passes: seq<seq<nat>>)
    requires Sized(z, l) && passes != [] && NoneFallsShort(z, w, l, passes)
    ensures var n := |passes| - 1;
            NoneFallsShort(z, w, l, passes[..n]) && !FellShort(z, w, Loops(z, w, l, passes[..n]), passes[n])
  {
    hide Loops, FellShort, Sized;
    var n := |passes| - 1;
    assert forall p: nat :: p < n ==> passes[..n][..p] == passes[..p];
    assert !FellShort(z, w, Before(z, w, l, passes, n), passes[n]);
    forall p: nat | p < n
      ensures !FellShort(z, w, Before(z, w, l, passes[..n], p), passes[..n][p])
    {
      assert !FellShort(z, w, Before(z, w, l, passes, p), passes[p]);
    }
  }

  lemma NoneFallsNoneLoses(z: Sizes, w: World, l: Loop, passes: seq<seq<nat>>)
    requires Sized(z, l) && NoneFallsShort(z, w, l, passes)
    ensures NoneLoses(z, w, l, passes)
  {
    hide Loops, FellShort, Sized;
    forall p: nat | p < |passes|
      ensures !Loses(z, w, Before(z, w, l, passes, p), passes[p])
    {
      assert !FellShort(z, w, Before(z, w, l, passes, p), passes[p]);
    }
  }

  lemma {:induction false} LosslessRun(z: Sizes, w: World, l: Loop, passes: seq<seq<nat>>)
    requires Fresh(z, l) && Sized(z, l) && Execution(z, w, l, passes) && NoneFallsShort(z, w, l, passes)
    requires Loops(z, w, l, passes).halt.Going?
    ensures Lossless(z, w, l.pos, l.encBuf, Loops(z, w, l, passes))
  {
    hide Books, Pass, Execution, Lossless, NoneFallsShort, Sized, FellShort, CompleteRound;
    if passes == [] {
      LosslessStart(z, w, l);
    } else {
      var n := |passes| - 1;
      var s := Loops(z, w, l, passes[..n]);
      ExecutionFront(z, w, l, passes);
      NoneFallsShortFront(z, w, l, passes);
      NoneFallsNoneLoses(z, w, l, passes[..n]);
      TeamKept(z, w, l, passes[..n]);
      BooksRun(z, w, l, passes[..n]);
      LosslessRun(z, w, l, passes[..n]);
      PassIsLossless(z, w, l.writes, s, passes[n], l.pos, l.encBuf);
    }
  }

  /** When no round falls short and no write fails: every chunk was drawn once, the chunks hold exactly
      the words the hardware supplied, and the writes are the chunks in order, or with encryption
      the encryptor's results for them, the k-th call on the k-th chunk. */
  lemma PipelineInOrder(z: Sizes, w: World, l: Loop, passes: seq<seq<nat>>)
    requires Fresh(z, l) && Sized(z, l) && Execution(z, w, l, passes) && NoneFallsShort(z, w, l, passes)
    requires var r := Loops(z, w, l, passes); Over(z, r) && r.halt.Going?
    ensures var r := Loops(z, w, l, passes);
            var drawn, outputs := r.log.drawn, Outputs(r.log.sent);
            && |drawn| == |outputs| == z.chunkCount && (forall k :: 0 <= k < |drawn| ==> |drawn[k]| == z.Width())
            && l.pos <= r.pos && multiset(Concat(drawn)) == multiset(Successes(w.a, l.pos, r.pos))
            && if !z.aes then outputs == drawn
               else && r.given == drawn
                    && forall k: nat :: k < z.chunkCount ==> DelayedAt(w.enc, drawn, outputs, l.encBuf, k)
  {
    hide Successes, Concat, Loops, Execution, NoneFallsShort, SentAt, DelayedAt;
    LosslessRun(z, w, l, passes);
    BooksRun(z, w, l, passes);
    var r := Loops(z, w, l, passes);
    assert r.n == z.Passes();
    assert r.log.drawn[..|r.log.drawn|] == r.log.drawn;
  }

  predicate AcceptsAll(w: World, call: nat, items: nat) {
    Accepted(w.writing(call), items) == items
  }

  /** One fwrite call per chunk accepts all of it. */
  ghost predicate WritesWhole(z: Sizes, w: World, first: nat) {
    forall call: nat :: first <= call < first + z.chunkCount ==> AcceptsAll(w, call, z.Width())
  }

  lemma WriteWholeAt(z: Sizes, w: World, first: nat, l: Loop, k: nat)
    requires Books(z, w, first, l) && l.threads == z.threads && k < |l.log.sent|
    ensures AcceptsAll(w, first + k, z.Width()) <==> !(l.halt.WriteFailed? && k == |l.log.sent| - 1)
  {
    hide AllWords;
    assert SentAt(z, w, first, l, k);
    SentThreads(z, w, first, l, k);
  }

  lemma WholeUnlessFailed(z: Sizes, w: World, first: nat, l: Loop)
    requires Books(z, w, first, l) && Over(z, l) && l.threads == z.threads && !l.halt.OutOfThreads?
    ensures l.halt.Going? <==> WritesWhole(z, w, first)
  {
    hide AllWords;
    if l.halt.Going? {
      forall call: nat | first <= call < first + z.chunkCount
        ensures AcceptsAll(w, call, z.Width())
      {
        WriteWholeAt(z, w, first, l, call - first);
      }
    } else {
      WriteWholeAt(z, w, first, l, |l.log.sent| - 1);
      assert !AcceptsAll(w, first + (|l.log.sent| - 1), z.Width());
    }
  }

  /** Once the loop is left it has written every word of every chunk exactly when no pass lost a
      thread and every fwrite call accepted a whole chunk, whatever the hardware did. */
  lemma ChunksExact(z: Sizes, w: World, l: Loop, passes: seq<seq<nat>>)
    requires Fresh(z, l) && Sized(z, l) && Execution(z, w, l, passes) && Over(z, Loops(z, w, l, passes))
    ensures var r := Loops(z, w, l, passes);
            && r.total <= z.chunkCount * z.Width()
            && (z.chunkSize > 0 && z.chunkCount > 0 ==>
                  (r.total == z.chunkCount * z.Width() <==> NoneLoses(z, w, l, passes) && WritesWhole(z, w, l.writes)))
  {
    hide Loops, Execution, NoneLoses, SentAt, AllWords;
    var r := Loops(z, w, l, passes);
    BooksRun(z, w, l, passes);
    TeamKept(z, w, l, passes);
    AmountExact(z, w, l.writes, r);
    if r.threads == z.threads && !r.halt.OutOfThreads? && z.chunkSize > 0 && z.chunkCount > 0 {
      WholeUnlessFailed(z, w, l.writes, r);
    }
  }

  lemma NoneGivesUpSteadily(sh: Shape, s: Round, turns: seq<nat>)
    requires forall k: nat :: sh.a(k).Some?
    ensures NoneGivesUp(sh, s, turns)
  {
    hide Outcomes;
    forall i: nat | i < sh.threads
      ensures !GivesUp(Outcomes(sh, s, turns, i))
    {
      SteadyOutcomes(sh, s, turns, i);
      var os := Outcomes(sh, s, turns, i);
      assert forall k :: MissRun(os, k) ==> !os[k];
    }
  }

  /** Hardware that never underflows makes no round fall short. */
  lemma SteadyRounds(z: Sizes, w: World, l: Loop, passes: seq<seq<nat>>)
    requires Sized(z, l) && Execution(z, w, l, passes) && forall k: nat :: w.a(k).Some?
    ensures NoneFallsShort(z, w, l, passes)
  {
    hide Loops, FellShort, NoneGivesUp, Sized;
    forall p: nat | p < |passes|
      ensures !FellShort(z, w, Before(z, w, l, passes, p), passes[p])
    {
      var s := Before(z, w, l, passes, p);
      FallsShort(z, w, s, passes[p]);
      NoneGivesUpSteadily(RoundShape(z, w, s), RoundStart(z, w, s), passes[p]);
    }
  }

  /** Without encryption, and whatever threads were lost before, a whole write holds exactly the words
      drawn in its own pass, unless that round was topped up slowly. */
  ghost predicate OwnWords(z: Sizes, w: World, s: Sent) {
    |s.words| == z.chunkSize * s.threads && !s.toppedUp ==>
      s.from <= s.to && multiset(s.words) == multiset(Successes(w.a, s.from, s.to))
  }

  lemma PassOwnWords(z: Sizes, w: World, l: Loop, turns: seq<nat>)
    requires Sized(z, l) && !Over(z, l) && CompleteRound(z, w, l, turns) && !z.aes
    ensures var sent := Pass(z, w, l, turns).log.sent;
            && l.log.sent <= sent && |sent| <= |l.log.sent| + 1
            && (|sent| > |l.log.sent| ==> OwnWords(z, w, sent[|l.log.sent|]))
  {
    hide CompleteRound, RoundEnd, FellShort, Successes;
    if !FellShort(z, w, l, turns) {
      PassDraws(z, w, l, turns);
    }
  }

  lemma {:induction false} PlainWrites(z: Sizes, w: World, l: Loop, passes: seq<seq<nat>>)
    requires Fresh(z, l) && Sized(z, l) && Execution(z, w, l, passes) && !z.aes
    ensures var sent := Loops(z, w, l, passes).log.sent;
            forall k :: 0 <= k < |sent| ==> OwnWords(z, w, sent[k])
  {
    hide Pass, Execution, OwnWords, Sized, CompleteRound;
    if passes == [] {
    } else {
      var n := |passes| - 1;
      ExecutionFront(z, w, l, passes);
      PlainWrites(z, w, l, passes[..n]);
      PassOwnWords(z, w, Loops(z, w, l, passes[..n]), passes[n]);
    }
  }

  // ---- with encryption, whatever falls short ----

  /** Between passes the previous buffer begins with the chunk drawn last, as long as that is still to be
      handed to the encryptor. */
  ghost predicate Queued(z: Sizes, l: Loop) {
    && l.firstRun == (l.n == 0)
    && |l.log.drawn| == (if l.n <= z.chunkCount then l.n else z.chunkCount)
    && (1 <= l.n <= z.chunkCount ==> l.log.drawn[l.n - 1] <= l.previous)
  }

  /** What one pass does to the buffers, the chunks and the writes with encryption. */
  ghost predicate PassHands(z: Sizes, w: World, s: Loop, short: bool, end: nat, t: Loop) {
    && (if s.n == 0 then t.given == s.given && t.encBuf == s.encBuf
        else t.given == s.given + [s.previous] && t.encBuf == EncryptedBuffer(w.enc, t.given, s.encBuf))
    && (t.log.sent == s.log.sent
        || (|t.log.sent| == |s.log.sent| + 1 && s.log.sent <= t.log.sent && s.n > 0
            && t.log.sent[|s.log.sent|].words <= t.encBuf))
    && (if short then
          var topUp := if s.threads == 1 then w.topUp(s.passes) else None;
          match topUp
          case None => t.n == s.n && t.previous == s.previous && t.log == s.log && t.pos == end
          case Some(u) =>
            && t.log.drawn == s.log.drawn + [seq(RoundWords(z, s), j requires 0 <= j => u.word(j))]
            && t.pos == end + u.attempts && t.log.drawn[|s.log.drawn|] <= t.previous
        else if s.n < z.chunkCount then
          && |t.log.drawn| == |s.log.drawn| + 1 && s.log.drawn <= t.log.drawn && t.pos == end >= s.pos
          && var chunk := t.log.drawn[|s.log.drawn|];
          |chunk| == RoundWords(z, s) && chunk <= t.previous && multiset(chunk) == multiset(Successes(w.a, s.pos, end))
        else t.log.drawn == s.log.drawn && t.pos == end == s.pos)
  }

  lemma EmitHands(z: Sizes, w: World, l: Loop, from: nat, toppedUp: bool)
    requires z.aes && Sized(z, l) && l.halt.Going? && l.firstRun == (l.n == 0)
    ensures var r := Emit(z, w, l, from, toppedUp);
            && r.given == l.given && r.encBuf == l.encBuf && r.pos == l.pos && r.previous == l.current
            && (r.halt.Going? ==> r.n == l.n + 1 && !r.firstRun)
            && r.log.drawn == l.log.drawn + (if l.n < z.chunkCount then [l.current[..RoundWords(z, l)]] else [])
            && (r.log.sent == l.log.sent
                || (|r.log.sent| == |l.log.sent| + 1 && l.log.sent <= r.log.sent && l.n > 0
                    && r.log.sent[|l.log.sent|].words <= l.encBuf))
  {
  }

  lemma ShortOnlyWhenGenerating(z: Sizes, w: World, l: Loop, turns: seq<nat>)
    ensures FellShort(z, w, l, turns) ==> l.n < z.chunkCount
  {
  }

  lemma WholePassHands(z: Sizes, w: World, l: Loop, turns: seq<nat>)
    requires z.aes && Sized(z, l) && !Over(z, l) && CompleteRound(z, w, l, turns) && Queued(z, l)
    requires !FellShort(z, w, l, turns)
    ensures var r := Pass(z, w, l, turns);
            && PassHands(z, w, l, FellShort(z, w, l, turns), RoundEnd(z, w, l, turns).pos, r)
            && (r.halt.Going? ==> Queued(z, r))
  {
    hide CompleteRound, RoundEnd, FellShort, Successes, EncryptedBuffer, Emit;
    PassEncrypts(z, w, l, turns);
    PassDraws(z, w, l, turns);
    EmitHands(z, w, AfterRound(z, w, l, turns), l.pos, false);
  }

  lemma ShortPassHands(z: Sizes, w: World, l: Loop, turns: seq<nat>)
    requires z.aes && Sized(z, l) && !Over(z, l) && CompleteRound(z, w, l, turns) && Queued(z, l)
    requires FellShort(z, w, l, turns)
    ensures var r := Pass(z, w, l, turns);
            && PassHands(z, w, l, FellShort(z, w, l, turns), RoundEnd(z, w, l, turns).pos, r)
            && (r.halt.Going? ==> Queued(z, r))
  {
    hide CompleteRound, RoundEnd, FellShort, Successes, EncryptedBuffer, Emit;
    PassEncrypts(z, w, l, turns);
    ShortOnlyWhenGenerating(z, w, l, turns);
    if l.threads == 1 && w.topUp(l.passes).Some? {
      var u := w.topUp(l.passes).value;
      var l2 := ToppedUp(AfterRound(z, w, l, turns), u);
      EmitHands(z, w, l2, l.pos, true);
      assert l2.current[..RoundWords(z, l)] == seq(RoundWords(z, l), j requires 0 <= j => u.word(j));
    }
  }

  lemma PassHandsOver(z: Sizes, w: World, l: Loop, turns: seq<nat>)
    requires z.aes && Sized(z, l) && !Over(z, l) && CompleteRound(z, w, l, turns) && Queued(z, l)
    ensures var r := Pass(z, w, l, turns);
            && PassHands(z, w, l, FellShort(z, w, l, turns), RoundEnd(z, w, l, turns).pos, r)
            && (r.halt.Going? ==> Queued(z, r))
  {
    hide *;
    if FellShort(z, w, l, turns) {
      ShortPassHands(z, w, l, turns);
    } else {
      WholePassHands(z, w, l, turns);
    }
  }

  lemma {:induction false} RunQueues(z: Sizes, w: World, l: Loop, passes: seq<seq<nat>>)
    requires z.aes && Fresh(z, l) && Sized(z, l) && Execution(z, w, l, passes)
    ensures Loops(z, w, l, passes).halt.Going? ==> Queued(z, Loops(z, w, l, passes))
  {
    hide Pass, Execution, Sized, PassHands, CompleteRound, RoundEnd, FellShort;
    if passes == [] {
    } else {
      hide Queued;
      var n := |passes| - 1;
      ExecutionFront(z, w, l, passes);
      RunQueues(z, w, l, passes[..n]);
      PassHandsOver(z, w, Loops(z, w, l, passes[..n]), passes[n]);
    }
  }

  lemma ExecutionPrefix(z: Sizes, w: World, l: Loop, passes: seq<seq<nat>>, m: nat)
    requires Sized(z, l) && Execution(z, w, l, passes) && m <= |passes|
    ensures Execution(z, w, l, passes[..m])
  {
    hide Loops, CompleteRound, Over;
    forall p: nat | p < m
      ensures Before(z, w, l, passes[..m], p) == Before(z, w, l, passes, p)
    {
      assert passes[..m][..p] == passes[..p];
    }
  }

  /** In every pass of every run with encryption, whatever fell short or was topped up before: the
      encryptor is handed the previous buffer, which begins with the chunk drawn last, and so the same one
      again after a pass that lost a thread; what is written begins the encryptor's output; and a round
      that does not fall short adds the words it drew as the next chunk. */
  lemma HandedOver(z: Sizes, w: World, l: Loop, passes: seq<seq<nat>>, p: nat)
    requires z.aes && Fresh(z, l) && Sized(z, l) && Execution(z, w, l, passes) && p < |passes|
    ensures var s, t := Before(z, w, l, passes, p), Before(z, w, l, passes, p + 1);
            && PassHands(z, w, s, FellShort(z, w, s, passes[p]), RoundEnd(z, w, s, passes[p]).pos, t)
            && s.n <= z.chunkCount && |s.log.drawn| == s.n && (s.n > 0 ==> s.log.drawn[s.n - 1] <= s.previous)
  {
    hide Loops, PassHands, CompleteRound, RoundEnd, FellShort;
    var more := passes[..p + 1];
    assert more[..p] == passes[..p];
    ExecutionPrefix(z, w, l, passes, p + 1);
    ExecutionFront(z, w, l, more);
    RunQueues(z, w, l, more[..p]);
    PassHandsOver(z, w, Loops(z, w, l, more[..p]), passes[p]);
  }

  lemma PlainShortPass(z: Sizes, w: World, s: Loop, turns: seq<nat>)
    requires !z.aes && Sized(z, s) && FellShort(z, w, s, turns)
    ensures var t := Pass(z, w, s, turns);
            var end := RoundEnd(z, w, s, turns).pos;
            match (if s.threads == 1 then w.topUp(s.passes) else None)
            case None => t.n == s.n && t.log == s.log && t.pos == end
            case Some(u) =>
              && |t.log.sent| == |s.log.sent| + 1 && s.log.sent <= t.log.sent && t.pos == end + u.attempts
              && t.log.sent[|s.log.sent|].words <= seq(RoundWords(z, s), j requires 0 <= j => u.word(j))
  {
    hide RoundEnd, FellShort;
  }

  /** Without encryption a round that falls short writes nothing and is run again, or, topped up, is written
      as the top-up left it. */
  lemma PlainShort(z: Sizes, w: World, l: Loop, passes: seq<seq<nat>>, p: nat)
    requires !z.aes && Fresh(z, l) && Sized(z, l) && Execution(z, w, l, passes) && p < |passes|
    requires FellShort(z, w, Before(z, w, l, passes, p), passes[p])
    ensures var s, t := Before(z, w, l, passes, p), Before(z, w, l, passes, p + 1);
            var end := RoundEnd(z, w, s, passes[p]).pos;
            match (if s.threads == 1 then w.topUp(s.passes) else None)
            case None => t.n == s.n && t.log == s.log && t.pos == end
            case Some(u) =>
              && |t.log.sent| == |s.log.sent| + 1 && s.log.sent <= t.log.sent && t.pos == end + u.attempts
              && t.log.sent[|s.log.sent|].words <= seq(RoundWords(z, s), j requires 0 <= j => u.word(j))
  {
    hide Loops, CompleteRound, RoundEnd, FellShort, Over;
    var more := passes[..p + 1];
    assert more[..p] == passes[..p];
    ExecutionPrefix(z, w, l, passes, p + 1);
    ExecutionFront(z, w, l, more);
    PlainShortPass(z, w, Before(z, w, l, passes, p), passes[p]);
  }
}
