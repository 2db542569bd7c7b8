/** One round of the parallel loop of generate_chunk (src/rdrand-gen.c), as a state machine in which
    the threads take turns in any order, one RDRAND attempt or one encrypted word at a time.

    A generating thread runs rdrand_get_bytes_retry on its own 8-byte aligned chunk: the first word
    goes through the byte filler and the others through the array filler, so that a first word that
    cannot be drawn leaves a hole while any later one ends the chunk. The last thread encrypts the
    previous round's buffer. */
module ParallelRound {
  import opened Machine
  import opened Retry
  import opened Arith

  /** What a round is given: the attempts, the chunk length in words, the number of generating
      threads, whether they generate, and what the encryptor stores at a position, given the
      buffer it encrypts and the word its result replaces; None when it does not run. */
  datatype Shape = Shape(a: Attempts, chunkSize: nat, threads: nat, generating: bool,
                         enc: Option<(seq<Word>, nat, Word) -> Word>)

  /** A generating thread: the next slot of its chunk, the attempts made for it, whether the
      first slot was given up, and whether it has finished. */
  datatype Worker = Worker(slot: nat, tries: nat, missed: bool, done: bool)

  /** times[k] counts the stores made to slot k of the generated buffer in this round. */
  datatype Round = Round(pos: nat, gen: seq<Word>, times: seq<nat>, workers: seq<Worker>,
                         previous: seq<Word>, buf: seq<Word>, encPos: nat)

  /** Slot k of worker i's chunk. */
  function Index(chunkSize: nat, i: nat, k: nat): nat {
    i * chunkSize + k
  }

  /** Chunks do not overlap. */
  lemma IndexInjective(chunkSize: nat, i: nat, k: nat, j: nat, l: nat)
    requires k < chunkSize && l < chunkSize && Index(chunkSize, i, k) == Index(chunkSize, j, l)
    ensures i == j && k == l
  {
    DivModUnique(Index(chunkSize, i, k), chunkSize, i, k);
    DivModUnique(Index(chunkSize, j, l), chunkSize, j, l);
  }

  lemma IndexBound(chunkSize: nat, threads: nat, i: nat, k: nat)
    requires i < threads && k < chunkSize
    ensures i * chunkSize <= Index(chunkSize, i, k) < i * chunkSize + chunkSize <= threads * chunkSize
  {
    MulStep(i, threads, chunkSize);
  }

  /** Every slot of the chunks belongs to exactly one worker. */
  lemma IndexCovers(chunkSize: nat, threads: nat, x: nat)
    requires x < threads * chunkSize
    ensures chunkSize > 0 && x / chunkSize < threads && x % chunkSize < chunkSize
    ensures Index(chunkSize, x / chunkSize, x % chunkSize) == x
  {
    MulStep(threads, x / chunkSize, chunkSize);
    assert x == (x / chunkSize) * chunkSize + x % chunkSize;
  }

  /** Words a thread has generated: what it adds to `written`. */
  function Count(w: Worker): nat {
    if w.missed && w.slot > 0 then w.slot - 1 else w.slot
  }

  /** What the first n threads have generated. */
  function WrittenBy(ws: seq<Worker>, n: nat): nat
    requires n <= |ws|
  {
    if n == 0 then 0 else WrittenBy(ws, n - 1) + Count(ws[n - 1])
  }

  /** The reduction over all threads. */
  function Written(ws: seq<Worker>): nat {
    WrittenBy(ws, |ws|)
  }

  /** A worker after an attempt for its slot. */
  function Advance(chunkSize: nat, w: Worker, success: bool): Worker {
    if success then Worker(w.slot + 1, 0, w.missed, w.slot + 1 == chunkSize)
    else if w.tries + 1 < RETRY_LIMIT then w.(tries := w.tries + 1)
    else if w.slot == 0 then Worker(1, 0, true, chunkSize == 1)
    else w.(tries := w.tries + 1, done := true)
  }

  /** The round before any thread has moved. */
  function Start(sh: Shape, pos: nat, gen: seq<Word>, previous: seq<Word>, buf: seq<Word>): Round {
    Round(pos, gen, seq(|gen|, _ => 0),
          seq(sh.threads, _ => Worker(0, 0, false, !sh.generating || sh.chunkSize == 0)), previous, buf, 0)
  }

  /** What the encryptor makes of word j of the previous round's buffer. */
  function EncryptedAt(sh: Shape, previous: seq<Word>, buf: seq<Word>, j: nat): Word
    requires j < |previous| && j < |buf|
  {
    if sh.enc.Some? then sh.enc.value(previous, j, buf[j]) else buf[j]
  }

  /** The thread `id` takes a step; a finished thread does nothing. */
  function Step(sh: Shape, r: Round, id: nat): Round {
    if id < |r.workers| then
      var w := r.workers[id];
      if w.done then r
      else
        var d := sh.a(r.pos);
        var r1 := r.(pos := r.pos + 1, workers := r.workers[id := Advance(sh.chunkSize, w, d.Some?)]);
        var x := Index(sh.chunkSize, id, w.slot);
        if d.Some? && x < |r.gen| && x < |r.times| then
          r1.(gen := r.gen[x := d.value], times := r.times[x := r.times[x] + 1])
        else r1
    else if sh.enc.Some? && r.encPos < |r.buf| && r.encPos < |r.previous| then
      var j := r.encPos;
      r.(buf := r.buf[j := EncryptedAt(sh, r.previous, r.buf, j)], encPos := j + 1)
    else r
  }

  /** The round after the threads have taken turns in the given order. */
  function Run(sh: Shape, r: Round, turns: seq<nat>): Round {
    if turns == [] then r else Step(sh, Run(sh, r, turns[..|turns| - 1]), turns[|turns| - 1])
  }

  ghost predicate Finished(sh: Shape, r: Round) {
    (forall i :: 0 <= i < |r.workers| ==> r.workers[i].done) && (sh.enc.Some? ==> r.encPos == |r.buf|)
  }

  // ---- what every turn keeps ----

  ghost function StoredAt(w: Word, times: nat): (m: multiset<Word>)
    ensures |m| == if times > 0 then 1 else 0
  {
    if times > 0 then multiset{w} else multiset{}
  }

  /** The words stored this round in the first n slots, as a multiset. */
  ghost function Stored(gen: seq<Word>, times: seq<nat>, n: nat): multiset<Word>
    requires n <= |gen| == |times|
  {
    if n == 0 then multiset{} else Stored(gen, times, n - 1) + StoredAt(gen[n - 1], times[n - 1])
  }

  ghost predicate WorkerOk(sh: Shape, w: Worker) {
    && w.slot <= sh.chunkSize && (w.missed ==> w.slot >= 1)
    && (!w.done ==> w.slot < sh.chunkSize && w.tries < RETRY_LIMIT)
  }

  /** Slot k of worker i has been stored exactly once if the worker has passed it (and not given
      it up), and never otherwise. */
  ghost predicate SlotOk(sh: Shape, r: Round, i: nat, k: nat)
    requires i < |r.workers|
  {
    var x := Index(sh.chunkSize, i, k);
    var w := r.workers[i];
    x < |r.times| && r.times[x] == if k < w.slot && !(k == 0 && w.missed) then 1 else 0
  }

  ghost predicate Shaped(sh: Shape, s: Round, r: Round) {
    && |r.gen| == |r.times| == |s.gen| >= sh.threads * sh.chunkSize
    && |r.workers| == sh.threads && r.pos >= s.pos
    && |r.previous| == |r.buf| == |s.buf| && r.encPos <= |r.buf|
  }

  /** The generating side: each thread stores only into its own chunk, each slot at most once, and
      the stored words are exactly the words drawn since the round began. */
  ghost predicate Generating(sh: Shape, s: Round, r: Round)
    requires Shaped(sh, s, r)
  {
    && (forall i :: 0 <= i < sh.threads ==> WorkerOk(sh, r.workers[i]))
    && (forall i, k :: 0 <= i < sh.threads && 0 <= k < sh.chunkSize ==> SlotOk(sh, r, i, k))
    && (forall x :: sh.threads * sh.chunkSize <= x < |r.times| ==> r.times[x] == 0)
    && (forall x :: 0 <= x < |r.gen| && r.times[x] == 0 ==> r.gen[x] == s.gen[x])
    && Stored(r.gen, r.times, |r.gen|) == multiset(Successes(sh.a, s.pos, r.pos))
    && Written(r.workers) == |Successes(sh.a, s.pos, r.pos)|
  }

  /** The encrypting side: it reads what the previous round left and writes only its own buffer. */
  ghost predicate Encrypting(sh: Shape, s: Round, r: Round)
    requires Shaped(sh, s, r)
  {
    && r.previous == s.previous
    && (forall j :: r.encPos <= j < |r.buf| ==> r.buf[j] == s.buf[j])
    && (forall j :: 0 <= j < r.encPos ==> r.buf[j] == EncryptedAt(sh, s.previous, s.buf, j))
    && (sh.enc.None? ==> r.encPos == 0)
  }

  ghost predicate Inv(sh: Shape, s: Round, r: Round) {
    Shaped(sh, s, r) && Shaped(sh, s, s) && Generating(sh, s, r) && Encrypting(sh, s, r)
  }

  lemma AddMiddle(a: multiset<Word>, b: multiset<Word>, w: Word)
    ensures a + multiset{w} + b == a + b + multiset{w}
  {
  }

  lemma {:induction false} StoredUpdate(gen: seq<Word>, times: seq<nat>, n: nat, x: nat, w: Word)
    requires n <= |gen| == |times| && x < |gen| && times[x] == 0
    ensures Stored(gen[x := w], times[x := 1], n)
         == Stored(gen, times, n) + (if x < n then multiset{w} else multiset{})
  {
    if n > 0 {
      StoredUpdate(gen, times, n - 1, x, w);
      if x == n - 1 {
        assert StoredAt(gen[x], 0) == multiset{} && StoredAt(w, 1) == multiset{w};
      } else if x < n - 1 {
        AddMiddle(Stored(gen, times, n - 1), StoredAt(gen[n - 1], times[n - 1]), w);
      }
    }
  }

  lemma {:induction false} StoredNothing(gen: seq<Word>, times: seq<nat>, n: nat)
    requires n <= |gen| == |times| && forall x :: 0 <= x < n ==> times[x] == 0
    ensures Stored(gen, times, n) == multiset{}
  {
    if n > 0 {
      StoredNothing(gen, times, n - 1);
    }
  }

  /** The stored words number at most the slots, and exactly as many only if all are stored. */
  lemma {:induction false} StoredCount(gen: seq<Word>, times: seq<nat>, n: nat)
    requires n <= |gen| == |times|
    ensures |Stored(gen, times, n)| <= n
    ensures |Stored(gen, times, n)| == n <==> forall x :: 0 <= x < n ==> times[x] > 0
  {
    hide StoredAt;
    if n > 0 {
      StoredCount(gen, times, n - 1);
    }
  }

  lemma {:induction false} StoredFull(gen: seq<Word>, times: seq<nat>, n: nat)
    requires n <= |gen| == |times| && forall x :: 0 <= x < n ==> times[x] > 0
    ensures Stored(gen, times, n) == multiset(gen[..n])
  {
    if n > 0 {
      StoredFull(gen, times, n - 1);
      assert gen[..n] == gen[..n - 1] + [gen[n - 1]];
    }
  }

  /** Slots past the chunks do not matter. */
  lemma {:induction false} StoredPrefix(gen: seq<Word>, times: seq<nat>, n: nat, m: nat)
    requires n <= m <= |gen| == |times|
    requires forall x :: n <= x < m ==> times[x] == 0
    ensures Stored(gen, times, m) == Stored(gen, times, n)
  {
    if n == m {
    } else {
      StoredPrefix(gen, times, n, m - 1);
      assert StoredAt(gen[m - 1], times[m - 1]) == multiset{};
      hide StoredAt;
    }
  }

  lemma {:induction false} WrittenUpdate(ws: seq<Worker>, n: nat, i: nat, w: Worker)
    requires n <= |ws| && i < |ws|
    ensures WrittenBy(ws[i := w], n) == WrittenBy(ws, n) + (if i < n then Count(w) - Count(ws[i]) else 0)
  {
    hide Count;
    if n > 0 {
      WrittenUpdate(ws, n - 1, i, w);
    }
  }

  lemma {:induction false} NothingWritten(ws: seq<Worker>, n: nat)
    requires n <= |ws| && forall i :: 0 <= i < |ws| ==> Count(ws[i]) == 0
    ensures WrittenBy(ws, n) == 0
  {
    if n > 0 {
      NothingWritten(ws, n - 1);
    }
  }

  /** A round as it begins. */
  ghost predicate Begins(sh: Shape, s: Round) {
    && Shaped(sh, s, s) && s.encPos == 0
    && (forall x :: 0 <= x < |s.times| ==> s.times[x] == 0)
    && (forall i :: 0 <= i < sh.threads ==>
          s.workers[i] == Worker(0, 0, false, !sh.generating || sh.chunkSize == 0))
  }

  lemma StartBegins(sh: Shape, pos: nat, gen: seq<Word>, previous: seq<Word>, buf: seq<Word>)
    requires |gen| == |previous| == |buf| >= sh.threads * sh.chunkSize
    ensures Begins(sh, Start(sh, pos, gen, previous, buf))
  {
  }

  lemma BeginInv(sh: Shape, s: Round)
    requires Begins(sh, s)
    ensures Inv(sh, s, s)
  {
    StoredNothing(s.gen, s.times, |s.gen|);
    NothingWritten(s.workers, |s.workers|);
    forall i, k | 0 <= i < sh.threads && 0 <= k < sh.chunkSize
      ensures SlotOk(sh, s, i, k)
    {
      IndexBound(sh.chunkSize, sh.threads, i, k);
    }
  }

  /** An attempt that underflows leaves the buffer and the count alone. */
  lemma MissStep(sh: Shape, s: Round, r: Round, id: nat)
    requires Inv(sh, s, r) && id < sh.threads && !r.workers[id].done && sh.a(r.pos).None?
    ensures var w := Advance(sh.chunkSize, r.workers[id], false);
            && Step(sh, r, id) == r.(pos := r.pos + 1, workers := r.workers[id := w])
            && WorkerOk(sh, w) && Count(w) == Count(r.workers[id])
  {
    hide Stored, WrittenBy, Index, Successes, Encrypting;
    assert WorkerOk(sh, r.workers[id]);
  }

  lemma MissSlots(sh: Shape, s: Round, r: Round, id: nat, i: nat, k: nat)
    requires Inv(sh, s, r) && id < sh.threads && !r.workers[id].done && sh.a(r.pos).None?
    requires i < sh.threads && k < sh.chunkSize
    ensures var r' := Step(sh, r, id); i < |r'.workers| && SlotOk(sh, r', i, k)
  {
    hide Stored, WrittenBy, Index, Successes, Encrypting, Step;
    MissStep(sh, s, r, id);
    assert SlotOk(sh, r, i, k);
  }

  /** The generating threads do not touch what the encryptor works on. */
  lemma EncryptingSame(sh: Shape, s: Round, r: Round, r': Round)
    requires Shaped(sh, s, r) && Encrypting(sh, s, r) && Shaped(sh, s, r')
    requires r'.previous == r.previous && r'.buf == r.buf && r'.encPos == r.encPos
    ensures Encrypting(sh, s, r')
  {
  }

  lemma OneAttempt(a: Attempts, pos: nat)
    ensures Successes(a, pos, pos + 1) == (if a(pos).Some? then [a(pos).value] else [])
  {
    assert Successes(a, pos + 1, pos + 1) == [];
  }

  lemma MissKeeps(sh: Shape, s: Round, r: Round, id: nat)
    requires Inv(sh, s, r) && id < sh.threads && !r.workers[id].done && sh.a(r.pos).None?
    ensures Inv(sh, s, Step(sh, r, id))
  {
    hide Stored, WrittenBy, Index, Successes, Step, SlotOk, WorkerOk, Count, Advance, Encrypting;
    MissStep(sh, s, r, id);
    SuccessesSplit(sh.a, s.pos, r.pos, r.pos + 1);
    OneAttempt(sh.a, r.pos);
    var r' := Step(sh, r, id);
    assert Successes(sh.a, s.pos, r'.pos) == Successes(sh.a, s.pos, r.pos);
    WrittenUpdate(r.workers, |r.workers|, id, Advance(sh.chunkSize, r.workers[id], false));
    EncryptingSame(sh, s, r, r');
    forall i, k | 0 <= i < sh.threads && 0 <= k < sh.chunkSize
      ensures SlotOk(sh, Step(sh, r, id), i, k)
    {
      MissSlots(sh, s, r, id, i, k);
    }
  }

  /** A drawn word goes to the next slot of its thread's own chunk, never stored before. */
  lemma HitSlot(sh: Shape, s: Round, r: Round, id: nat)
    requires Inv(sh, s, r) && id < sh.threads && !r.workers[id].done && sh.a(r.pos).Some?
    ensures var x := Index(sh.chunkSize, id, r.workers[id].slot);
            var w := sh.a(r.pos).value;
            && id * sh.chunkSize <= x < id * sh.chunkSize + sh.chunkSize <= sh.threads * sh.chunkSize
            && r.times[x] == 0
            && Step(sh, r, id) == r.(pos := r.pos + 1, gen := r.gen[x := w], times := r.times[x := 1],
                                     workers := r.workers[id := Advance(sh.chunkSize, r.workers[id], true)])
  {
    hide Stored, WrittenBy, Index, Successes, Encrypting;
    IndexBound(sh.chunkSize, sh.threads, id, r.workers[id].slot);
    assert SlotOk(sh, r, id, r.workers[id].slot);
  }

  lemma HitSlots(sh: Shape, s: Round, r: Round, id: nat, i: nat, k: nat)
    requires Inv(sh, s, r) && id < sh.threads && !r.workers[id].done && sh.a(r.pos).Some?
    requires i < sh.threads && k < sh.chunkSize
    ensures var r' := Step(sh, r, id); i < |r'.workers| && SlotOk(sh, r', i, k)
  {
    hide Stored, WrittenBy, Index, Successes, Encrypting, Step;
    HitSlot(sh, s, r, id);
    assert SlotOk(sh, r, i, k);
    if Index(sh.chunkSize, i, k) == Index(sh.chunkSize, id, r.workers[id].slot) {
      IndexInjective(sh.chunkSize, i, k, id, r.workers[id].slot);
    }
  }

  lemma HitKeeps(sh: Shape, s: Round, r: Round, id: nat)
    requires Inv(sh, s, r) && id < sh.threads && !r.workers[id].done && sh.a(r.pos).Some?
    ensures Inv(sh, s, Step(sh, r, id))
  {
    hide Stored, WrittenBy, Index, Successes, Step, SlotOk, Encrypting;
    var w := r.workers[id];
    var x := Index(sh.chunkSize, id, w.slot);
    HitSlot(sh, s, r, id);
    SuccessesSplit(sh.a, s.pos, r.pos, r.pos + 1);
    OneAttempt(sh.a, r.pos);
    var r' := Step(sh, r, id);
    assert Successes(sh.a, s.pos, r'.pos) == Successes(sh.a, s.pos, r.pos) + [sh.a(r.pos).value];
    EncryptingSame(sh, s, r, r');
    StoredUpdate(r.gen, r.times, |r.gen|, x, sh.a(r.pos).value);
    WrittenUpdate(r.workers, |r.workers|, id, Advance(sh.chunkSize, w, true));
    forall i, k | 0 <= i < sh.threads && 0 <= k < sh.chunkSize
      ensures SlotOk(sh, Step(sh, r, id), i, k)
    {
      HitSlots(sh, s, r, id, i, k);
    }
  }

  lemma EncryptKeeps(sh: Shape, s: Round, r: Round, id: nat)
    requires Inv(sh, s, r) && id >= sh.threads
    ensures Inv(sh, s, Step(sh, r, id))
  {
    hide Stored, WrittenBy, Index, Successes;
    var r' := Step(sh, r, id);
    forall i, k | 0 <= i < sh.threads && 0 <= k < sh.chunkSize
      ensures SlotOk(sh, r', i, k)
    {
      assert SlotOk(sh, r, i, k);
    }
  }

  lemma StepKeeps(sh: Shape, s: Round, r: Round, id: nat)
    requires Inv(sh, s, r)
    ensures Inv(sh, s, Step(sh, r, id))
  {
    if id < sh.threads {
      if !r.workers[id].done {
        if sh.a(r.pos).Some? {
          HitKeeps(sh, s, r, id);
        } else {
          MissKeeps(sh, s, r, id);
        }
      }
    } else {
      EncryptKeeps(sh, s, r, id);
    }
  }

  /** Every interleaving keeps the invariant. */
  lemma {:induction false} RunKeeps(sh: Shape, s: Round, turns: seq<nat>)
    requires Begins(sh, s)
    ensures Inv(sh, s, Run(sh, s, turns))
  {
    hide Inv, Step;
    if turns == [] {
      BeginInv(sh, s);
    } else {
      RunKeeps(sh, s, turns[..|turns| - 1]);
      StepKeeps(sh, s, Run(sh, s, turns[..|turns| - 1]), turns[|turns| - 1]);
    }
  }

  lemma StoredOnce(sh: Shape, s: Round, r: Round, x: nat)
    requires Inv(sh, s, r) && x < |r.times|
    ensures r.times[x] <= 1
  {
    hide Stored, WrittenBy, Index, Successes, Encrypting;
    if x < sh.threads * sh.chunkSize {
      IndexCovers(sh.chunkSize, sh.threads, x);
      assert SlotOk(sh, r, x / sh.chunkSize, x % sh.chunkSize);
    }
  }

  /** Whatever the interleaving: the reduced `written` is the number of words drawn from the hardware
      in this round; it reaches the size of the round exactly when every slot of every chunk was
      stored, and then each slot was stored once and the chunks hold exactly the words drawn. */
  lemma RoundConserves(sh: Shape, s: Round, turns: seq<nat>)
    requires Begins(sh, s)
    ensures var r := Run(sh, s, turns);
            var size := sh.threads * sh.chunkSize;
            var drawn := Successes(sh.a, s.pos, r.pos);
            && |r.gen| == |r.times| == |s.gen| >= size && r.pos >= s.pos
            && Written(r.workers) == |drawn| <= size
            && (Written(r.workers) == size <==> forall x :: 0 <= x < size ==> r.times[x] > 0)
            && (forall x :: 0 <= x < |r.times| ==> r.times[x] <= 1)
            && (forall x :: 0 <= x < |r.gen| && r.times[x] == 0 ==> r.gen[x] == s.gen[x])
            && (Written(r.workers) == size ==> multiset(r.gen[..size]) == multiset(drawn))
  {
    hide Stored, WrittenBy, Index, Successes, Run, Step, SlotOk, Encrypting;
    RunKeeps(sh, s, turns);
    var r := Run(sh, s, turns);
    StoredPrefix(r.gen, r.times, sh.threads * sh.chunkSize, |r.gen|);
    StoredCount(r.gen, r.times, sh.threads * sh.chunkSize);
    if Written(r.workers) == sh.threads * sh.chunkSize {
      StoredFull(r.gen, r.times, sh.threads * sh.chunkSize);
    }
    forall x: nat | x < |r.times|
      ensures r.times[x] <= 1
    {
      StoredOnce(sh, s, r, x);
    }
  }

  /** Once every thread has finished, the encrypted buffer is the same for all interleavings: the
      encryption of what the previous round left, untouched by the words being generated. */
  lemma EncryptionIsolated(sh: Shape, s: Round, turns: seq<nat>)
    requires Begins(sh, s) && Finished(sh, Run(sh, s, turns))
    ensures var r := Run(sh, s, turns);
            && r.previous == s.previous && |r.buf| == |s.buf| == |s.previous|
            && forall j :: 0 <= j < |s.buf| ==> r.buf[j] == EncryptedAt(sh, s.previous, s.buf, j)
  {
    hide Stored, WrittenBy, Index, Successes, Run, Step;
    RunKeeps(sh, s, turns);
  }

  /** A round in which nothing is generated draws nothing. */
  lemma {:induction false} IdleRound(sh: Shape, s: Round, turns: seq<nat>)
    requires Begins(sh, s) && !sh.generating
    ensures var r := Run(sh, s, turns); r.pos == s.pos && r.gen == s.gen && r.workers == s.workers
  {
    if turns != [] {
      IdleRound(sh, s, turns[..|turns| - 1]);
    }
  }
}
