/** A generating thread of a round, left to itself, is rdrand_get_bytes_retry on its chunk. */
module WorkerFill {
  import opened Machine
  import opened MemoryFill
  import opened ParallelRound
  import opened Retry

  /** A worker, the attempts made so far, and its chunk of the generated buffer. */
  datatype Alone = Alone(w: Worker, pos: nat, chunk: seq<Word>)

  ghost predicate Ready(x: Alone) {
    x.w.slot <= |x.chunk| && (!x.w.done ==> x.w.slot < |x.chunk| && x.w.tries < RETRY_LIMIT)
  }

  /** The worker after a group of attempts for its slot that ended with the given word, or none. */
  function AfterDraw(x: Alone, w: Worker, word: Option<Word>, pos: nat): Alone
    requires x.w.slot < |x.chunk|
  {
    Alone(Advance(|x.chunk|, w, word.Some?), pos, if word.Some? then x.chunk[x.w.slot := word.value] else x.chunk)
  }

  /** One turn of the worker. */
  function Turn(a: Attempts, x: Alone): Alone
    requires x.w.slot < |x.chunk|
  {
    AfterDraw(x, x.w, a(x.pos), x.pos + 1)
  }

  /** Worker i of a round with its own chunk. */
  function WorkerOf(sh: Shape, r: Round, i: nat): Alone
    requires i < |r.workers| && i * sh.chunkSize + sh.chunkSize <= |r.gen|
  {
    Alone(r.workers[i], r.pos, r.gen[i * sh.chunkSize..i * sh.chunkSize + sh.chunkSize])
  }

  lemma InvParts(sh: Shape, s: Round, r: Round, id: nat)
    requires Inv(sh, s, r) && id < sh.threads
    ensures Shaped(sh, s, r) && WorkerOk(sh, r.workers[id])
  {
  }

  lemma IndexIs(chunkSize: nat, i: nat, k: nat)
    ensures Index(chunkSize, i, k) == i * chunkSize + k
  {
  }

  /** A turn of a thread in a round is that turn on its own chunk. */
  lemma TurnIsStep(sh: Shape, s: Round, r: Round, id: nat)
    requires Inv(sh, s, r) && id < sh.threads && !r.workers[id].done
    ensures id < |Step(sh, r, id).workers| && |Step(sh, r, id).gen| == |r.gen|
    ensures id * sh.chunkSize + sh.chunkSize <= |r.gen| && r.workers[id].slot < sh.chunkSize
    ensures WorkerOf(sh, Step(sh, r, id), id) == Turn(sh.a, WorkerOf(sh, r, id))
  {
    hide Inv, Index, Advance, Step;
    assert Shaped(sh, s, r) && WorkerOk(sh, r.workers[id]) by { InvParts(sh, s, r, id); }
    IndexBound(sh.chunkSize, sh.threads, id, r.workers[id].slot);
    if sh.a(r.pos).Some? {
      HitSlot(sh, s, r, id);
      IndexIs(sh.chunkSize, id, r.workers[id].slot);
    } else {
      MissStep(sh, s, r, id);
    }
  }

  /** The worker taking turn after turn until it has finished. */
  ghost function Finish(a: Attempts, x: Alone): Alone
    requires Ready(x)
    decreases |x.chunk| - x.w.slot, !x.w.done, RETRY_LIMIT - x.w.tries
  {
    if x.w.done then x else Finish(a, Turn(a, x))
  }

  /** The worker's turns for one slot are one group of attempts. */
  lemma {:induction false} GroupIsRetry(a: Attempts, x: Alone)
    requires Ready(x) && !x.w.done
    ensures var d := RetryOnce(a, x.pos, RETRY_LIMIT - x.w.tries);
            Finish(a, x) == Finish(a, AfterDraw(x, x.w.(tries := RETRY_LIMIT - 1), d.word, d.pos))
    decreases RETRY_LIMIT - x.w.tries
  {
    if a(x.pos).None? && x.w.tries + 1 < RETRY_LIMIT {
      GroupIsRetry(a, Turn(a, x));
    }
  }

  /** The words end up in the chunk from the worker's slot on, and nothing else changes in it. */
  ghost predicate Filler(x: Alone, b: Batch, e: Alone) {
    && x.w.slot + |b.words| <= |x.chunk|
    && e.pos == b.pos && e.w.slot == x.w.slot + |b.words| && e.w.missed == x.w.missed
    && e.chunk == x.chunk[..x.w.slot] + b.words + x.chunk[x.w.slot + |b.words|..]
  }

  lemma FillerFront(x: Alone, word: Word, pos: nat, rest: Batch, e: Alone)
    requires 1 <= x.w.slot < |x.chunk|
    requires Filler(AfterDraw(x, x.w.(tries := RETRY_LIMIT - 1), Some(word), pos), rest, e)
    ensures Filler(x, Batch([word] + rest.words, rest.pos), e)
  {
  }

  lemma NothingLeft(a: Attempts, x: Alone)
    requires 1 <= x.w.slot == |x.chunk| && x.w.done
    ensures Filler(x, ArrayFill(a, x.pos, 0, RETRY_LIMIT), Finish(a, x))
  {
  }

  lemma StopsHere(x: Alone, y: Alone, pos: nat)
    requires 1 <= x.w.slot < |x.chunk| && y == AfterDraw(x, x.w.(tries := RETRY_LIMIT - 1), None, pos)
    ensures y.w.done && Filler(x, Batch([], pos), y)
  {
  }

  /** From the second slot on the worker is the array filler. */
  lemma {:induction false} BodyIsArrayFill(a: Attempts, x: Alone)
    requires 1 <= x.w.slot <= |x.chunk| && x.w.tries == 0 && x.w.done == (x.w.slot == |x.chunk|)
    ensures Filler(x, ArrayFill(a, x.pos, |x.chunk| - x.w.slot, RETRY_LIMIT), Finish(a, x))
    decreases |x.chunk| - x.w.slot
  {
    hide RetryOnce, Filler;
    if x.w.done {
      NothingLeft(a, x);
    } else {
      var d := RetryOnce(a, x.pos, RETRY_LIMIT);
      var y := AfterDraw(x, x.w.(tries := RETRY_LIMIT - 1), d.word, d.pos);
      GroupIsRetry(a, x);
      ArrayFillFront(a, x.pos, |x.chunk| - x.w.slot, RETRY_LIMIT);
      hide ArrayFill;
      if d.word.Some? {
        BodyIsArrayFill(a, y);
        FillerFront(x, d.word.value, d.pos, ArrayFill(a, y.pos, |y.chunk| - y.w.slot, RETRY_LIMIT), Finish(a, y));
      } else {
        StopsHere(x, y, d.pos);
      }
    }
  }

  /** The worker once its first group of attempts is over. */
  function AfterFirst(a: Attempts, pos: nat, chunk: seq<Word>): Alone
    requires |chunk| > 0
  {
    var d := RetryOnce(a, pos, RETRY_LIMIT);
    Alone(Worker(1, 0, d.word.None?, |chunk| == 1), d.pos, if d.word.Some? then chunk[0 := d.word.value] else chunk)
  }

  /** What a chunk's memory holds after a fill of its head and body. */
  function Overlaid(chunk: seq<Word>, f: Fill): seq<Byte>
    requires |f.head| <= 8 && 8 + |f.body| <= 8 * |chunk|
  {
    Overlay(Overlay(Flatten(chunk), 0, f.head), 8, f.body)
  }

  lemma OneWord(w: Word)
    ensures Flatten([w]) == LeBytes(w)
  {
    assert [w][1..] == [];
  }

  /** Storing words over part of an array stores their images over that part of its memory. */
  lemma FlattenSplice(pre: seq<Word>, before: seq<Word>, words: seq<Word>, post: seq<Word>)
    requires |words| == |before|
    ensures Flatten(pre + words + post)
         == Overlay(Flatten(pre + before + post), 8 * |pre|, Flatten(words))
  {
    hide Flatten;
    FlattenConcat(pre + words, post);
    FlattenConcat(pre, words);
    FlattenConcat(pre + before, post);
    FlattenConcat(pre, before);
  }

  lemma HeadBytes(chunk: seq<Word>, head: Word)
    requires 1 <= |chunk|
    ensures Flatten(chunk[0 := head]) == Overlay(Flatten(chunk), 0, LeBytes(head))
  {
    hide Flatten, LeBytes, Overlay;
    assert chunk == [] + chunk[..1] + chunk[1..];
    assert chunk[0 := head] == [] + [head] + chunk[1..];
    FlattenSplice([], chunk[..1], [head], chunk[1..]);
    OneWord(head);
  }

  lemma BodyBytes(chunk: seq<Word>, body: seq<Word>)
    requires 1 + |body| <= |chunk|
    ensures Flatten(chunk[..1] + body + chunk[1 + |body|..]) == Overlay(Flatten(chunk), 8, Flatten(body))
  {
    hide Flatten, Overlay;
    var mid := chunk[1..1 + |body|];
    assert chunk == chunk[..1] + mid + chunk[1 + |body|..];
    FlattenSplice(chunk[..1], mid, body, chunk[1 + |body|..]);
  }

  /** The byte filler asked for one whole word makes one group of attempts. */
  lemma HeadIsGroup(a: Attempts, pos: nat)
    ensures var d := RetryOnce(a, pos, RETRY_LIMIT);
            ByteFill(a, pos, 8, RETRY_LIMIT) == Chunk(if d.word.Some? then LeBytes(d.word.value) else [], d.pos)
  {
    hide RetryOnce;
    var d := RetryOnce(a, pos, RETRY_LIMIT);
    assert ArrayFill(a, pos, 0, RETRY_LIMIT) == Batch([], pos);
    assert ArrayFill(a, pos, 1, RETRY_LIMIT) == Batch(if d.word.Some? then [d.word.value] else [], d.pos);
    if d.word.Some? {
      OneWord(d.word.value);
    }
  }

  /** What rdrand_get_bytes_retry makes of a chunk at an aligned address. */
  lemma FillOfChunk(a: Attempts, pos: nat, start: nat, words: nat)
    requires 1 <= words && 8 * words < UINT_RANGE && start % 8 == 0
    ensures var d := RetryOnce(a, pos, RETRY_LIMIT);
            var b := ArrayFill(a, d.pos, words - 1, RETRY_LIMIT);
            GetBytes(a, pos, start, 8 * words, RETRY_LIMIT)
            == Fill(if d.word.Some? then LeBytes(d.word.value) else [], Flatten(b.words), [], b.pos)
  {
    hide RetryOnce, ArrayFill, ByteFill;
    assert LayoutOf(start, 8 * words) == Layout(8, words - 1, 0);
    HeadIsGroup(a, pos);
    EmptyFills(a, ArrayFill(a, RetryOnce(a, pos, RETRY_LIMIT).pos, words - 1, RETRY_LIMIT).pos, RETRY_LIMIT);
  }

  /** The worker's first group of attempts, and then the array filler. */
  lemma FinishFromStart(a: Attempts, chunk: seq<Word>, pos: nat)
    requires 1 <= |chunk|
    ensures var d := RetryOnce(a, pos, RETRY_LIMIT);
            var b := ArrayFill(a, d.pos, |chunk| - 1, RETRY_LIMIT);
            Filler(AfterFirst(a, pos, chunk), b, Finish(a, Alone(Worker(0, 0, false, false), pos, chunk)))
  {
    hide RetryOnce, ArrayFill, Filler, Finish;
    GroupIsRetry(a, Alone(Worker(0, 0, false, false), pos, chunk));
    BodyIsArrayFill(a, AfterFirst(a, pos, chunk));
  }

  /** Left to itself, a worker makes the same attempts as rdrand_get_bytes_retry does for its chunk,
      at an aligned address, counts the same words, and leaves the same bytes in the chunk; it
      misses its first slot when the fill misses its head. */
  lemma WorkerIsGetBytes(a: Attempts, chunk: seq<Word>, pos: nat, start: nat)
    requires 1 <= |chunk| && 8 * |chunk| < UINT_RANGE && start % 8 == 0
    ensures var e := Finish(a, Alone(Worker(0, 0, false, false), pos, chunk));
            var f := GetBytes(a, pos, start, 8 * |chunk|, RETRY_LIMIT);
            && e.pos == f.pos && 8 * Count(e.w) == Generated(f)
            && (e.w.missed <==> |f.head| == 0) && f.tail == []
            && |f.head| <= 8 && 8 + |f.body| <= 8 * |chunk| && Flatten(e.chunk) == Overlaid(chunk, f)
  {
    hide RetryOnce, ArrayFill, GetBytes, Finish, Flatten, LeBytes, Overlay;
    var x := AfterFirst(a, pos, chunk);
    FillOfChunk(a, pos, start, |chunk|);
    FinishFromStart(a, chunk, pos);
    BodyBytes(x.chunk, ArrayFill(a, x.pos, |chunk| - 1, RETRY_LIMIT).words);
    if x.w.missed {
      OverlayNothing(Flatten(chunk), 0);
    } else {
      HeadBytes(chunk, RetryOnce(a, pos, RETRY_LIMIT).word.value);
    }
  }
}
