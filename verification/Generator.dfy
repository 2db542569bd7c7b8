/** The generator engine (src/rdrand-gen.c): rounds of parallel chunks, with the encryption of one
    round overlapping the generation of the next, then the ending. */
module Generator {
  import opened ChunkLoop
  import opened ChunkPlan
  import opened Machine
  import opened MemoryFill
  import opened ParallelRound
  import opened Pipeline
  import opened Retry

  const UINT_MODULUS: nat := 0x1_0000_0000

  /** The buffers and counters of a round in progress. */
  class Threads {
    const dev: Device
    const gen: array<Word>
    const previous: array<Word>
    const buf: array<Word>
    const sh: Shape
    var ws: seq<Worker>
    var encPos: nat
    // The round as it began, and the turns taken since.
    ghost const start: Round
    ghost var trace: seq<nat>

    ghost predicate Separate()
    {
      gen != previous && gen != buf && previous != buf && sh.a == dev.attempts
    }

    /** The buffers and counters are those of the round after the turns in `trace`. */
    ghost predicate Valid()
      reads this, dev, gen, previous, buf
    {
      && Separate() && Begins(sh, start)
      && var r := Run(sh, start, trace);
      && r == Round(dev.pos, gen[..], r.times, ws, previous[..], buf[..], encPos)
      && |r.times| == gen.Length && |ws| == sh.threads && encPos <= buf.Length == previous.Length
    }

    constructor (dev: Device, gen: array<Word>, previous: array<Word>, buf: array<Word>, sh: Shape)
      requires gen != previous && gen != buf && previous != buf && sh.a == dev.attempts
      requires gen.Length == previous.Length == buf.Length >= sh.threads * sh.chunkSize
      ensures this.dev == dev && this.gen == gen && this.previous == previous && this.buf == buf && this.sh == sh
      ensures Valid() && trace == [] && start == Start(sh, dev.pos, gen[..], previous[..], buf[..])
    {
      this.dev, this.gen, this.previous, this.buf, this.sh := dev, gen, previous, buf, sh;
      ws := seq(sh.threads, _ => Worker(0, 0, false, !sh.generating || sh.chunkSize == 0));
      encPos := 0;
      start := Start(sh, dev.pos, gen[..], previous[..], buf[..]);
      trace := [];
      StartBegins(sh, dev.pos, gen[..], previous[..], buf[..]);
    }

    /** Thread id takes a turn. */
    method Turn(id: nat)
      requires Valid()
      modifies this, dev, gen, buf
      ensures Valid() && trace == old(trace) + [id]
      ensures ws == if id < |old(ws)| && !old(ws)[id].done
                    then old(ws)[id := Advance(sh.chunkSize, old(ws)[id], sh.a(old(dev.pos)).Some?)] else old(ws)
      ensures encPos == if id >= |ws| && sh.enc.Some? && old(encPos) < buf.Length then old(encPos) + 1 else old(encPos)
    {
      hide Advance, Index, Begins;
      ghost var r := Run(sh, start, trace);
      assert (trace + [id])[..|trace|] == trace;
      if id < |ws| {
        var w := ws[id];
        if !w.done {
          var d := dev.Step();
          ws := ws[id := Advance(sh.chunkSize, w, d.Some?)];
          var x := Index(sh.chunkSize, id, w.slot);
          if d.Some? && x < gen.Length {
            gen[x] := d.value;
          }
        }
      } else if sh.enc.Some? && encPos < buf.Length {
        buf[encPos] := EncryptedAt(sh, previous[..], buf[..], encPos);
        encPos := encPos + 1;
      }
      trace := trace + [id];
    }

    lemma WorkersOk()
      requires Valid()
      ensures forall i :: 0 <= i < |ws| ==> WorkerOk(sh, ws[i])
    {
      RunKeeps(sh, start, trace);
    }

    /** A generating thread runs to its end. */
    method FinishWorker(i: nat)
      requires Valid() && i < |ws|
      modifies this, dev, gen, buf
      ensures Valid() && |ws| == |old(ws)| && ws[i].done && encPos == old(encPos) && old(trace) <= trace
      ensures forall j :: 0 <= j < |ws| && j != i ==> ws[j] == old(ws)[j]
    {
      hide Run, Begins;
      WorkersOk();
      while !ws[i].done
        invariant Valid() && |ws| == |old(ws)| && encPos == old(encPos) && old(trace) <= trace
        invariant WorkerOk(sh, ws[i])
        invariant forall j :: 0 <= j < |ws| && j != i ==> ws[j] == old(ws)[j]
        decreases sh.chunkSize - ws[i].slot, !ws[i].done, RETRY_LIMIT - ws[i].tries
      {
        Turn(i);
        WorkersOk();
      }
    }

    /** The parallel loop: the threads take the given turns, and whatever is then left is run to its
        end. Every complete interleaving is such a run. */
    method Complete(turns: seq<nat>) returns (written: nat)
      requires Valid() && trace == []
      modifies this, dev, gen, buf
      ensures Valid() && turns <= trace && Finished(sh, Run(sh, start, trace))
      ensures written == Written(ws)
    {
      hide Run, Begins, Advance;
      for t := 0 to |turns|
        invariant Valid() && trace == turns[..t]
      {
        Turn(turns[t]);
      }
      assert turns[..|turns|] == turns;
      for i := 0 to sh.threads
        invariant Valid() && turns <= trace
        invariant forall j :: 0 <= j < i ==> ws[j].done
      {
        FinishWorker(i);
      }
      while sh.enc.Some? && encPos < buf.Length
        invariant Valid() && turns <= trace
        invariant forall j :: 0 <= j < sh.threads ==> ws[j].done
      {
        Turn(sh.threads);
      }
      written := 0;
      for i := 0 to sh.threads
        invariant written == WrittenBy(ws, i)
      {
        written := written + Count(ws[i]);
      }
    }
  }

  // ---- the ending ----

  /** What the encryptor makes of byte j of the ending. */
  type EndingEncryptor = (nat, Byte) -> Byte

  /** The bytes of the ending as they are written. */
  function EndingBytes(enc: Option<EndingEncryptor>, bs: seq<Byte>): (r: seq<Byte>)
    ensures |r| == |bs|
  {
    match enc
    case None => bs
    case Some(e) => seq(|bs|, j requires 0 <= j < |bs| => e(j, bs[j]))
  }

  /** What the ending writes, what it reports, and how often it calls fwrite. */
  datatype Ending = Ending(put: seq<Byte>, total: nat, calls: nat)

  /** The ending of the given size, from the fill made for it and what fwrite accepts. */
  function EndingOf(f: Fill, size: nat, enc: Option<EndingEncryptor>, write: Write): (e: Ending)
    ensures |e.put| <= size && (Generated(f) <= size ==> e.total <= size)
  {
    if Generated(f) != size then Ending([], Generated(f), 0)
    else
      var k := Accepted(write, size);
      Ending(EndingBytes(enc, f.head + f.body + f.tail)[..k], k, 1)
  }

  /** The ending reports what it has written exactly when all of it or nothing was generated. */
  lemma EndingReports(f: Fill, size: nat, enc: Option<EndingEncryptor>, write: Write)
    ensures var e := EndingOf(f, size, enc, write);
            && (e.total == |e.put| <==> Generated(f) == 0 || Generated(f) == size)
            && (e.total == size <==> Generated(f) == size && Accepted(write, size) == size)
  {
  }

  /** Hardware that yields one word and then underflows for ever. */
  function OneWordOnly(word: Word): Attempts {
    k => if k == 0 then Some(word) else None
  }

  lemma OneWordHead(word: Word)
    ensures ByteFill(OneWordOnly(word), 0, 8, RETRY_LIMIT) == ByteFill(OneWordOnly(word), 0, 8, RETRY_LIMIT).(pos := 1)
    ensures |ByteFill(OneWordOnly(word), 0, 8, RETRY_LIMIT).bytes| == 8
  {
    var a := OneWordOnly(word);
    EmptyFills(a, 0, RETRY_LIMIT);
    assert ArrayFill(a, 0, 1, RETRY_LIMIT) == Batch([word], 1);
  }

  lemma NoMoreWords(word: Word)
    ensures ByteFill(OneWordOnly(word), 1, 1, RETRY_LIMIT).bytes == []
  {
    RetryOnceIsFirstSuccess(OneWordOnly(word), 1, RETRY_LIMIT);
  }

  /** Nine bytes at address 0 on such hardware: the ending reports eight bytes, and has written none. */
  lemma EndingMisreports(word: Word, enc: Option<EndingEncryptor>, write: Write)
    ensures EndingOf(GetBytes(OneWordOnly(word), 0, 0, 9, RETRY_LIMIT), 9, enc, write) == Ending([], 8, 0)
  {
    hide ByteFill, ArrayFill, OneWordOnly;
    OneWordHead(word);
    EmptyFills(OneWordOnly(word), 1, RETRY_LIMIT);
    NoMoreWords(word);
  }

  // ---- the whole run, on values ----

  /** The sizes of the chunk loop for an amount. */
  function SizesFor(bytes: nat, threads: nat, aes: bool): Sizes
    requires threads >= 1
  {
    var p := PlanFor(bytes, threads);
    Sizes(p.chunkCount, p.chunkSize, threads, aes)
  }

  /** The passes are a whole execution of the chunk loop for this amount. */
  ghost predicate ChunkRun(z: Sizes, w: World, l: Loop, passes: seq<seq<nat>>) {
    Fresh(z, l) && Sized(z, l) && Execution(z, w, l, passes) && Over(z, Loops(z, w, l, passes))
  }

  /** What generate has written and reported when the loop left r and the ending was e. */
  datatype Account = Account(written: seq<Byte>, total: nat)

  function Together(r: Loop, e: Ending): Account {
    Account(Flatten(AllWords(r.log.sent)) + e.put, 8 * r.total + e.total)
  }

  /** The fill for the ending; its size is passed on as an unsigned int. */
  function EndingFill(a: Attempts, pos: nat, addr: nat, size: nat): Fill {
    GetBytes(a, pos, addr, size % UINT_MODULUS, RETRY_LIMIT)
  }

  /** It is complete exactly when the size fits and the hardware does not underflow RETRY_LIMIT times in
      a row. */
  lemma EndingComplete(a: Attempts, pos: nat, addr: nat, size: nat)
    ensures var f := EndingFill(a, pos, addr, size);
            && Generated(f) <= size
            && (Generated(f) == size <==> size < UINT_MODULUS && !HasFailRun(a, pos, f.pos, RETRY_LIMIT))
  {
    hide GetBytes;
    LayoutPartitions(addr, size % UINT_MODULUS);
    FillComplete(a, pos, addr, size % UINT_MODULUS, RETRY_LIMIT);
  }

  /** The first bytes of the ending as they reach the file: fresh bytes of the attempts in [from, to), or
      with encryption what the encryptor makes of each of them. */
  ghost predicate EndingPut(put: seq<Byte>, plain: seq<Byte>, a: Attempts, from: nat, to: nat, addr: nat, size: nat,
                            enc: Option<EndingEncryptor>)
  {
    && FreshBytes(plain, a, from, to, addr, size) && |put| <= |plain|
    && forall j :: 0 <= j < |put| ==> put[j] == if enc.Some? then enc.value(j, plain[j]) else plain[j]
  }

  /** What the ending puts into the file: nothing unless it was generated whole, and else as much as fwrite
      accepts of the bytes generated. */
  lemma EndingContent(a: Attempts, pos: nat, addr: nat, size: nat, enc: Option<EndingEncryptor>, write: Write)
    returns (plain: seq<Byte>)
    ensures var f := EndingFill(a, pos, addr, size);
            var e := EndingOf(f, size, enc, write);
            if Generated(f) == size then
              e.total == |e.put| == Accepted(write, size) && e.calls == 1
              && EndingPut(e.put, plain, a, pos, f.pos, addr, size, enc)
            else e.put == [] && e.calls == 0 && e.total == Generated(f)
  {
    hide GetBytes, FreshBytes;
    var f := EndingFill(a, pos, addr, size);
    plain := f.head + f.body + f.tail;
    EndingComplete(a, pos, addr, size);
    if Generated(f) == size {
      FillIsFresh(a, pos, addr, size, RETRY_LIMIT);
    }
  }

  /** What has to go well for the whole amount: no pass loses a thread, one fwrite call per chunk accepts
      all of it, no RETRY_LIMIT attempts for the ending underflow in a row, from the loop's last one up
      to attempt `to`, and fwrite accepts all of the ending, whose size fits an unsigned int. */
  ghost predicate Undisturbed(z: Sizes, w: World, l: Loop, passes: seq<seq<nat>>, size: nat, to: nat)
    requires Sized(z, l)
  {
    var r := Loops(z, w, l, passes);
    && (z.chunkSize > 0 ==> NoneLoses(z, w, l, passes) && WritesWhole(z, w, l.writes))
    && size < UINT_MODULUS && !HasFailRun(w.a, r.pos, to, RETRY_LIMIT) && AcceptsAll(w, r.writes, size)
  }

  /** Never more than was asked for is reported; what is reported is what is written, and the bytes
      generated for an ending that is not written; and exactly the amount is reported, and then written,
      exactly when the run is undisturbed. */
  lemma GenerateExact(bytes: nat, threads: nat, aes: bool, w: World, l: Loop, passes: seq<seq<nat>>,
                      addr: nat, enc: Option<EndingEncryptor>)
    requires bytes > 0 && threads >= 1 && ChunkRun(SizesFor(bytes, threads, aes), w, l, passes)
    ensures var z, size := SizesFor(bytes, threads, aes), PlanFor(bytes, threads).endingBytes;
            var r := Loops(z, w, l, passes);
            var f := EndingFill(w.a, r.pos, addr, size);
            var o := Together(r, EndingOf(f, size, enc, w.writing(r.writes)));
            && |o.written| <= o.total <= bytes
            && o.total == |o.written| + (if Generated(f) == size then 0 else Generated(f))
            && (o.total == bytes <==> Undisturbed(z, w, l, passes, size, f.pos))
  {
    hide Loops, Execution, NoneLoses, WritesWhole, PlanFor, Flatten, AllWords, EndingFill, HasFailRun;
    var z, size := SizesFor(bytes, threads, aes), PlanFor(bytes, threads).endingBytes;
    var r := Loops(z, w, l, passes);
    PlanCoversAmount(bytes, threads);
    ChunksExact(z, w, l, passes);
    EndingComplete(w.a, r.pos, addr, size);
    EndingReports(EndingFill(w.a, r.pos, addr, size), size, enc, w.writing(r.writes));
    assert r.total == |AllWords(r.log.sent)| by {
      hide SentAt;
      BooksRun(z, w, l, passes);
    }
  }

  lemma NeverFailRun(a: Attempts, from: nat, to: nat, tries: nat)
    requires tries >= 1 && forall k: nat :: a(k).Some?
    ensures !HasFailRun(a, from, to, tries)
  {
    forall k: nat
      ensures !FailRun(a, k, tries)
    {
      assert a(k).Some?;
    }
  }

  lemma SteadyHalt(z: Sizes, w: World, l: Loop, passes: seq<seq<nat>>)
    requires ChunkRun(z, w, l, passes) && NoneLoses(z, w, l, passes) && forall k: nat :: w.writing(k).Whole?
    ensures Loops(z, w, l, passes).halt.Going? && WritesWhole(z, w, l.writes)
  {
    hide Loops, Execution, NoneLoses, Books;
    TeamKept(z, w, l, passes);
    BooksRun(z, w, l, passes);
    WholeUnlessFailed(z, w, l.writes, Loops(z, w, l, passes));
  }

  /** On hardware that never underflows, when fwrite accepts everything: the whole amount is
      reported and written, every chunk once and in order, for every number of threads and every
      interleaving, exactly when the ending is shorter than the unsigned int that its size is
      passed in. */
  lemma GenerateSteadily(bytes: nat, threads: nat, aes: bool, w: World, l: Loop, passes: seq<seq<nat>>,
                         addr: nat, enc: Option<EndingEncryptor>)
    requires bytes > 0 && threads >= 1 && ChunkRun(SizesFor(bytes, threads, aes), w, l, passes)
    requires (forall k: nat :: w.a(k).Some?) && (forall k: nat :: w.writing(k).Whole?)
    ensures var z, size := SizesFor(bytes, threads, aes), PlanFor(bytes, threads).endingBytes;
            var r := Loops(z, w, l, passes);
            var f := EndingFill(w.a, r.pos, addr, size);
            var o := Together(r, EndingOf(f, size, enc, w.writing(r.writes)));
            && NoneFallsShort(z, w, l, passes) && r.halt.Going?
            && (o.total == |o.written| == bytes <==> size < UINT_MODULUS)
  {
    hide Loops, Execution, NoneLoses, NoneFallsShort, PlanFor, Flatten, AllWords, EndingFill;
    var z, size := SizesFor(bytes, threads, aes), PlanFor(bytes, threads).endingBytes;
    var r := Loops(z, w, l, passes);
    var f := EndingFill(w.a, r.pos, addr, size);
    SteadyRounds(z, w, l, passes);
    NoneFallsNoneLoses(z, w, l, passes);
    SteadyHalt(z, w, l, passes);
    NeverFailRun(w.a, r.pos, f.pos, RETRY_LIMIT);
    EndingComplete(w.a, r.pos, addr, size);
    GenerateExact(bytes, threads, aes, w, l, passes, addr, enc);
  }

  // ---- the engine ----

  method NewBuffers(size: nat) returns (a: array<Word>, b: array<Word>, c: array<Word>)
    ensures fresh(a) && fresh(b) && fresh(c) && a != b && a != c && b != c
    ensures a.Length == b.Length == c.Length == size
  {
    a := new Word[size];
    b := new Word[size];
    c := new Word[size];
  }

  /** A pass that does not end the loop advances n or loses a thread. */
  lemma PassProgress(z: Sizes, w: World, l: Loop, turns: seq<nat>)
    requires Sized(z, l) && l.halt.Going?
    ensures var r := Pass(z, w, l, turns);
            r.halt.Going? ==> (r.n == l.n + 1 && r.threads == l.threads) || (r.n == l.n && r.threads < l.threads)
  {
    hide RoundEnd, FellShort;
  }

  lemma NothingSent()
    ensures Flatten(AllWords([])) == []
  {
  }

  lemma NoPasses(z: Sizes, w: World, l: Loop)
    requires Sized(z, l)
    ensures Execution(z, w, l, []) && Loops(z, w, l, []) == l
  {
  }

  /** The locals of generate_chunk are fields here, so that one pass of its loop is one method. */
  class Engine {
    const cfg: Config
    const dev: Device
    // The order in which the threads of the n-th pass take turns, as far as it is given.
    const turns: nat -> seq<nat>
    const enc: Encryptor
    const writing: nat -> Write
    const topUp: nat -> Option<TopUp>
    const encEnding: EndingEncryptor
    // The output, and the number of fwrite calls made.
    var file: seq<Byte>
    var writes: nat
    // Locals of generate_chunk. `buf` is what is written; with encryption it is the encryptor's
    // output and the two generated buffers are swapped, without it it is generated into directly
    // and the encryptor's buffers are idle.
    var buf: array<Word>
    var genCurrent: array<Word>
    var genPrevious: array<Word>
    var encBuf: array<Word>
    var n: nat
    var firstRun: bool
    var bufSize: nat
    var writtenTotal: nat
    var rounds: nat
    // What the encryptor has been handed so far: the state it keeps between calls is up to it.
    var given: seq<seq<Word>>
    // How the loop ended, what it has done, and the thread count and the output when it began.
    ghost var halt: Halt
    ghost var log: Log
    ghost var threads0: nat
    ghost var file0: seq<Byte>

    constructor (cfg: Config, dev: Device, turns: nat -> seq<nat>, enc: Encryptor, writing: nat -> Write,
                 topUp: nat -> Option<TopUp>, encEnding: EndingEncryptor)
      ensures this.cfg == cfg && this.dev == dev && this.turns == turns && this.enc == enc && this.writing == writing
      ensures this.topUp == topUp && this.encEnding == encEnding
      ensures file == [] && writes == 0
    {
      this.cfg, this.dev, this.turns, this.enc, this.writing := cfg, dev, turns, enc, writing;
      this.topUp, this.encEnding := topUp, encEnding;
      file, writes := [], 0;
      var empty := new Word[0];
      buf, genCurrent, genPrevious, encBuf := empty, empty, empty, empty;
      n, firstRun, bufSize, writtenTotal, rounds, given := 0, true, 0, 0, 0, [];
      halt, log, threads0, file0 := Going, Log([], []), 0, [];
    }

    /** fwrite of whole words. */
    method FwriteWords(ws: seq<Word>) returns (k: nat)
      modifies this`file, this`writes
      ensures k == Accepted(writing(old(writes)), |ws|) && writes == old(writes) + 1
      ensures file == old(file) + Flatten(ws[..k])
    {
      k := Accepted(writing(writes), |ws|);
      writes := writes + 1;
      file := file + Flatten(ws[..k]);
    }

    /** fwrite of bytes. */
    method FwriteBytes(bs: seq<Byte>) returns (k: nat)
      modifies this`file, this`writes
      ensures k == Accepted(writing(old(writes)), |bs|) && writes == old(writes) + 1
      ensures file == old(file) + bs[..k]
    {
      k := Accepted(writing(writes), |bs|);
      writes := writes + 1;
      file := file + bs[..k];
    }

    ghost function Z(): Sizes
      reads this`threads0, cfg
    {
      Sizes(cfg.chunkCount, cfg.chunkSize, threads0, cfg.aesFlag)
    }

    ghost function W(): World {
      World(dev.attempts, enc, writing, topUp)
    }

    /** The loop as a value. */
    ghost function View(): Loop
      reads this, cfg, dev, genCurrent, genPrevious, encBuf
    {
      Loop(n, cfg.threads, firstRun, halt, dev.pos, genCurrent[..], genPrevious[..], encBuf[..],
           rounds, given, writes, writtenTotal, log)
    }

    ghost predicate Ready()
      reads this, cfg
    {
      && 1 <= cfg.threads <= threads0
      && bufSize == cfg.chunkSize * cfg.threads <= cfg.chunkSize * threads0
      && genCurrent.Length == genPrevious.Length == encBuf.Length == cfg.chunkSize * threads0
      && genCurrent != genPrevious && genCurrent != encBuf && genPrevious != encBuf
      && buf == (if cfg.aesFlag then encBuf else genCurrent)
    }

    /** The output has grown by the words written, in order. */
    ghost predicate SentAll()
      reads this`file, this`file0, this`log
    {
      file == file0 + Flatten(AllWords(log.sent))
    }

    /** The threads of a round run to their end, in an order that continues the one given for it. */
    method RunThreads(sh: Shape) returns (written: nat, ghost order: seq<nat>)
      requires Ready() && sh.a == dev.attempts && sh.chunkSize == cfg.chunkSize && sh.threads == cfg.threads
      modifies dev, genCurrent, encBuf
      ensures turns(rounds) <= order
      ensures var s := Start(sh, old(dev.pos), old(genCurrent[..]), old(genPrevious[..]), old(encBuf[..]));
              var r := Run(sh, s, order);
              && Finished(sh, r) && written == Written(r.workers)
              && dev.pos == r.pos && genCurrent[..] == r.gen && genPrevious[..] == r.previous && encBuf[..] == r.buf
      ensures genPrevious[..] == old(genPrevious[..])
    {
      hide Run, Begins, Written, Finished, Start;
      assert sh.threads * sh.chunkSize == bufSize;
      var threads := new Threads(dev, genCurrent, genPrevious, encBuf, sh);
      written := threads.Complete(turns(rounds));
      order := threads.trace;
    }

    /** The parallel loop of one pass. */
    method ParallelFor() returns (written: nat, ghost order: seq<nat>)
      requires Ready()
      modifies dev, genCurrent, encBuf, this`rounds, this`given
      ensures turns(old(rounds)) <= order && CompleteRound(Z(), W(), old(View()), order)
      ensures View() == AfterRound(Z(), W(), old(View()), order)
      ensures written == Written(RoundEnd(Z(), W(), old(View()), order).workers)
      ensures genPrevious[..] == old(genPrevious[..])
    {
      hide Run, Start, Written, Finished;
      ghost var l := View();
      var encrypts := cfg.aesFlag && !firstRun;
      var sh := Shape(dev.attempts, cfg.chunkSize, cfg.threads, n < cfg.chunkCount,
                      if encrypts then Some(EncryptCall(enc, given)) else None);
      written, order := RunThreads(sh);
      rounds := rounds + 1;
      if encrypts {
        given := given + [genPrevious[..]];
      }
    }

    /** A round that fell short gives up a thread and is run again. */
    method LowerThreads()
      requires Ready() && cfg.threads > 1 && n < UINT_MODULUS - 1
      modifies this`n, this`bufSize, cfg`threads
      ensures Ready() && View() == old(View()).(threads := old(cfg.threads) - 1)
    {
      assert cfg.chunkSize * (cfg.threads - 1) == bufSize - cfg.chunkSize;
      cfg.threads := cfg.threads - 1;
      bufSize := bufSize - cfg.chunkSize;
      // n-- in the body and n++ in the loop header, in unsigned arithmetic.
      n := (n + UINT_MODULUS - 1) % UINT_MODULUS;
      n := (n + 1) % UINT_MODULUS;
    }

    /** The words of out go to the output. */
    method PutWords(out: seq<Word>, ghost from: nat, ghost toppedUp: bool) returns (written: nat)
      requires SentAll()
      modifies this`file, this`writes, this`log
      ensures SentAll() && written == Accepted(writing(old(writes)), |out|) && writes == old(writes) + 1
      ensures log == old(log).(sent := old(log).sent + [Sent(out[..written], cfg.threads, from, dev.pos, toppedUp)])
    {
      hide AllWords, Flatten, Accepted;
      written := FwriteWords(out);
      ghost var s := Sent(out[..written], cfg.threads, from, dev.pos, toppedUp);
      AllWordsAppend(log.sent, s);
      FlattenConcat(AllWords(log.sent), s.words);
      log := log.(sent := log.sent + [s]);
    }

    /** The end of a pass that writes. */
    method SendWords(out: seq<Word>, ghost l: Loop, ghost whole: seq<Word>, ghost from: nat, ghost toppedUp: bool)
      returns (stop: bool)
      requires Ready() && SentAll() && l == View() && halt.Going?
      requires bufSize <= |whole| && out == whole[..bufSize]
      modifies this`n, this`writtenTotal, this`file, this`writes, this`log, this`halt
      ensures SentAll() && View() == Send(Z(), W(), l, whole, from, toppedUp)
      ensures stop <==> !halt.Going?
    {
      hide AllWords, Flatten, Accepted;
      var written := PutWords(out, from, toppedUp);
      writtenTotal := writtenTotal + written;
      stop := written != bufSize;
      assert out[..written] == whole[..written];
      if stop {
        halt := WriteFailed;
      } else {
        n := n + 1;
      }
    }

    /** With encryption the generated buffers are swapped. */
    method SwapBuffers(ghost l: Loop)
      requires Ready() && l == View()
      modifies this`log, this`genCurrent, this`genPrevious
      ensures Ready() && View() == ChunkLoop.TakeChunk(Z(), l)
      ensures {genCurrent, genPrevious} == old({genCurrent, genPrevious})
      ensures log.sent == old(log.sent)
    {
      log := log.(drawn := log.drawn + if n < cfg.chunkCount then [genCurrent[..bufSize]] else []);
      if cfg.aesFlag {
        genCurrent, genPrevious := genPrevious, genCurrent;
      }
    }

    /** The chunk was generated: move it on, and write what is ready. */
    method CompletePass(ghost l: Loop, ghost from: nat, ghost toppedUp: bool) returns (stop: bool)
      requires Ready() && SentAll() && l == View() && halt.Going?
      modifies this`n, this`firstRun, this`writtenTotal, this`genCurrent, this`genPrevious,
               this`file, this`writes, this`log, this`halt
      ensures Ready() && SentAll() && {genCurrent, genPrevious} == old({genCurrent, genPrevious})
      ensures View() == Emit(Z(), W(), l, from, toppedUp) && (stop <==> !halt.Going?)
    {
      hide AllWords, Flatten, Send, TakeChunk;
      var out := buf[..bufSize];
      ghost var whole := buf[..];
      SwapBuffers(l);
      if cfg.aesFlag && firstRun {
        // Nothing is ready to be written yet.
        firstRun := false;
        n := n + 1;
        return false;
      }
      stop := SendWords(out, View(), whole, from, toppedUp);
    }

    /** The slow top-up of the pass just run: it fails, or leaves some contents in the buffer. */
    method SlowTopUp() returns (ok: bool)
      requires Ready() && rounds > 0
      modifies dev, genCurrent
      ensures Ready()
      ensures var t := topUp(rounds - 1);
              ok == t.Some? && View() == if ok then ToppedUp(old(View()), t.value) else old(View())
    {
      var t := topUp(rounds - 1);
      ok := t.Some?;
      if ok {
        Discard(dev, t.value.attempts);
        forall j | 0 <= j < genCurrent.Length {
          genCurrent[j] := t.value.word(j);
        }
      }
    }

    /** A round that fell short. */
    method RunAgain(ghost l: Loop, ghost from: nat) returns (stop: bool)
      requires Ready() && SentAll() && l == View() && halt.Going? && rounds > 0 && n < UINT_MODULUS - 1
      modifies this`n, this`firstRun, this`bufSize, this`writtenTotal, this`genCurrent, this`genPrevious,
               this`file, this`writes, this`log, this`halt, cfg`threads, dev, genCurrent
      ensures Ready() && SentAll() && {genCurrent, genPrevious} == old({genCurrent, genPrevious})
      ensures View() == ChunkLoop.RunAgain(Z(), W(), l, from, rounds - 1) && (stop <==> !halt.Going?)
    {
      hide Emit, ToppedUp, AllWords, Flatten;
      if cfg.threads > 1 {
        LowerThreads();
        return false;
      }
      var ok := SlowTopUp();
      if !ok {
        halt := OutOfThreads;
        return true;
      }
      stop := CompletePass(View(), from, true);
    }

    /** One pass of the loop. */
    method Pass() returns (stop: bool, ghost order: seq<nat>)
      requires Ready() && SentAll() && halt.Going? && n < UINT_MODULUS - 1
      modifies this`n, this`firstRun, this`bufSize, this`writtenTotal, this`rounds, this`given,
               this`genCurrent, this`genPrevious, this`file, this`writes, this`log, this`halt,
               cfg`threads, dev, genCurrent, encBuf
      ensures Ready() && SentAll() && {genCurrent, genPrevious} == old({genCurrent, genPrevious})
      ensures turns(old(rounds)) <= order && CompleteRound(Z(), W(), old(View()), order)
      ensures View() == ChunkLoop.Pass(Z(), W(), old(View()), order) && (stop <==> !halt.Going?)
    {
      hide CompleteRound, RoundEnd, Emit, ChunkLoop.RunAgain, AllWords, Flatten;
      ghost var l := View();
      var written;
      written, order := ParallelFor();
      if written != bufSize && n < cfg.chunkCount {
        stop := RunAgain(View(), l.pos);
      } else {
        stop := CompletePass(View(), l.pos, false);
      }
    }

    /** Allocate the buffers of generate_chunk. */
    method AllocateBuffers()
      modifies this`buf, this`genCurrent, this`genPrevious, this`encBuf, this`bufSize
      ensures bufSize == cfg.chunkSize * cfg.threads
      ensures genCurrent.Length == genPrevious.Length == encBuf.Length == bufSize
      ensures genCurrent != genPrevious && genCurrent != encBuf && genPrevious != encBuf
      ensures buf == if cfg.aesFlag then encBuf else genCurrent
      ensures fresh(genCurrent) && fresh(genPrevious) && fresh(encBuf)
    {
      bufSize := cfg.chunkSize * cfg.threads;
      var out, genBuf1, genBuf2 := NewBuffers(bufSize);
      buf := out;
      if cfg.aesFlag {
        genCurrent, genPrevious, encBuf := genBuf1, genBuf2, out;
      } else {
        genCurrent, genPrevious, encBuf := out, genBuf1, genBuf2;
      }
    }

    /** The turns of every pass are a complete order of those given for it. */
    ghost predicate Ordered(passes: seq<seq<nat>>) {
      forall p: nat :: p < |passes| ==> turns(p) <= passes[p]
    }

    /** The loop stands where the given passes have brought it from its start l. */
    ghost predicate Reached(l: Loop, passes: seq<seq<nat>>)
      reads this, cfg, dev, genCurrent, genPrevious, encBuf
    {
      && Ready() && SentAll() && Fresh(Z(), l) && Sized(Z(), l)
      && Execution(Z(), W(), l, passes) && Ordered(passes) && View() == Loops(Z(), W(), l, passes)
    }

    /** The locals as they are before the first pass. */
    ghost predicate Initial()
      reads this`n, this`firstRun, this`writtenTotal, this`rounds, this`given, this`halt, this`log,
            this`threads0, this`file0, this`file, cfg
    {
      && n == writtenTotal == rounds == 0 && given == [] && firstRun && halt.Going? && log == Log([], [])
      && threads0 == cfg.threads && file0 == file
    }

    lemma InitialReached()
      requires Ready() && Initial()
      ensures Reached(View(), [])
    {
      NothingSent();
      NoPasses(Z(), W(), View());
    }

    /** Allocate the buffers and set the locals. */
    method Begin()
      requires cfg.threads >= 1
      modifies this
      ensures Reached(View(), []) && Initial()
      ensures fresh(genCurrent) && fresh(genPrevious) && fresh(encBuf)
      ensures file == old(file) && writes == old(writes)
    {
      hide Reached, View, Z, W, Sized, Execution, Loops, Ordered, SentAll;
      AllocateBuffers();
      n, firstRun := 0, true;
      writtenTotal, rounds, given := 0, 0, [];
      threads0, file0, halt, log := cfg.threads, file, Going, Log([], []);
      InitialReached();
    }

    /** One more pass. */
    method NextPass(ghost l: Loop, ghost done: seq<seq<nat>>) returns (stop: bool, ghost passes: seq<seq<nat>>)
      requires Reached(l, done) && !Over(Z(), View()) && Z().Passes() < UINT_MODULUS && rounds == |done|
      modifies this`n, this`firstRun, this`bufSize, this`writtenTotal, this`rounds, this`given,
               this`genCurrent, this`genPrevious, this`file, this`writes, this`log, this`halt,
               cfg`threads, dev, genCurrent, encBuf
      ensures Reached(l, passes) && {genCurrent, genPrevious} == old({genCurrent, genPrevious})
      ensures rounds == |passes| && (stop <==> !halt.Going?)
      ensures !stop ==> || (n == old(n) + 1 && cfg.threads == old(cfg.threads))
                        || (n == old(n) && cfg.threads < old(cfg.threads))
    {
      hide Loops, Execution, ChunkLoop.Pass, CompleteRound, AllWords, Flatten;
      ghost var s := View();
      ghost var order;
      stop, order := Pass();
      ExecutionExtends(Z(), W(), l, done, order);
      PassProgress(Z(), W(), s, order);
      PassTeam(Z(), W(), s, order);
      passes := done + [order];
    }

    /** Fill chunks until the count is reached; returns the bytes written. The ghost results are the
        loop at its start and the order of turns in every pass. */
    method GenerateChunk() returns (total: nat, ghost l: Loop, ghost passes: seq<seq<nat>>)
      requires cfg.bytes > 0 && cfg.threads >= 1 && cfg.chunkCount + 1 < UINT_MODULUS
      modifies this, cfg`threads, dev
      ensures threads0 == old(cfg.threads) && l.pos == old(dev.pos) && l.writes == old(writes)
      ensures ChunkRun(Z(), W(), l, passes) && Ordered(passes)
      ensures View() == Loops(Z(), W(), l, passes) && rounds == |passes| <= Z().Passes() + threads0 - 1
      ensures file == old(file) + Flatten(AllWords(log.sent)) && total == 8 * writtenTotal
    {
      hide Loops, Execution, AllWords, Flatten, Fresh, Ready;
      Begin();
      l, passes := View(), [];
      var stop := false;
      while !stop && n < cfg.chunkCount + (if cfg.aesFlag then 1 else 0)
        invariant Reached(l, passes) && rounds == |passes| && (stop <==> !halt.Going?)
        invariant file0 == old(file) && threads0 == old(cfg.threads)
        invariant fresh(genCurrent) && fresh(genPrevious) && fresh(encBuf)
        decreases !stop, Z().Passes() - n, cfg.threads
      {
        stop, passes := NextPass(l, passes);
      }
      PassBound(Z(), W(), l, passes);
      return writtenTotal * 8, l, passes;
    }

    function EndingCipher(): Option<EndingEncryptor>
      reads cfg`aesFlag
    {
      if cfg.aesFlag then Some(encEnding) else None
    }

    /** Generate and write the ending, in one thread. When it cannot be generated whole nothing is
        written, yet the bytes generated are what is returned. */
    method GenerateEnding(mem: Memory, addr: nat)
      returns (total: nat, ghost f: Fill, ghost put: seq<Byte>, ghost plain: seq<Byte>)
      requires addr + cfg.endingBytes <= mem.cells.Length
      modifies this`file, this`writes, dev, mem.cells, mem`wordStores
      ensures f == EndingFill(dev.attempts, old(dev.pos), addr, cfg.endingBytes) && dev.pos == f.pos
      ensures var e := EndingOf(f, cfg.endingBytes, EndingCipher(), writing(old(writes)));
              total == e.total && put == e.put && writes == old(writes) + e.calls
      ensures file == old(file) + put
      ensures if Generated(f) == cfg.endingBytes then
                && total == |put| == Accepted(writing(old(writes)), cfg.endingBytes) && writes == old(writes) + 1
                && EndingPut(put, plain, dev.attempts, old(dev.pos), f.pos, addr, cfg.endingBytes,
                             if cfg.aesFlag then Some(encEnding) else None)
              else put == [] && total == Generated(f) && writes == old(writes)
    {
      hide GetBytes, LayoutOf, Filled, EndingPut;
      // The amount is passed on as an unsigned int.
      var blocks := cfg.endingBytes % UINT_MODULUS;
      ghost var m := mem.cells[..];
      f := GetBytes(dev.attempts, dev.pos, addr, blocks, RETRY_LIMIT);
      plain := EndingContent(dev.attempts, dev.pos, addr, cfg.endingBytes, EndingCipher(), writing(writes));
      LayoutPartitions(addr, blocks);
      put := [];
      total := GetBytesRetry(dev, mem, addr, blocks, RETRY_LIMIT);
      if total != cfg.endingBytes {
        return;
      }
      FilledWhole(m, addr, cfg.endingBytes, f);
      var out := EndingBytes(EndingCipher(), mem.cells[addr..addr + cfg.endingBytes]);
      total := FwriteBytes(out);
      put := out[..total];
    }

    /** Generate the requested amount: the chunks, then the ending. */
    method Generate(mem: Memory, addr: nat)
      returns (total: nat, ghost l: Loop, ghost passes: seq<seq<nat>>, ghost f: Fill, ghost put: seq<Byte>,
               ghost plain: seq<Byte>)
      requires cfg.bytes > 0 && cfg.threads >= 1 && cfg.View() == PlanFor(cfg.bytes, cfg.threads)
      requires cfg.chunkCount + 1 < UINT_MODULUS && addr + cfg.endingBytes <= mem.cells.Length
      modifies this, cfg`threads, dev, mem.cells, mem`wordStores
      ensures Z() == SizesFor(cfg.bytes, old(cfg.threads), cfg.aesFlag)
      ensures ChunkRun(Z(), W(), l, passes) && Ordered(passes)
      ensures rounds == |passes| <= Z().Passes() + old(cfg.threads) - 1
      ensures l.pos == old(dev.pos) && l.writes == old(writes)
      ensures var r := Loops(Z(), W(), l, passes);
              && f == EndingFill(dev.attempts, r.pos, addr, cfg.endingBytes) && dev.pos == f.pos
              && var e := EndingOf(f, cfg.endingBytes, EndingCipher(), writing(r.writes));
              && Account(file, total) == Together(r, e).(written := old(file) + Together(r, e).written)
              && file == old(file) + Flatten(AllWords(r.log.sent)) + put
      ensures if Generated(f) == cfg.endingBytes then
                var from := Loops(Z(), W(), l, passes).pos;
                EndingPut(put, plain, dev.attempts, from, f.pos, addr, cfg.endingBytes,
                          if cfg.aesFlag then Some(encEnding) else None)
              else put == []
      ensures total == |file| - |old(file)| + if Generated(f) == cfg.endingBytes then 0 else Generated(f)
      ensures total <= cfg.bytes && |file| <= |old(file)| + total
      ensures total == cfg.bytes <==> Undisturbed(Z(), W(), l, passes, cfg.endingBytes, f.pos)
      ensures && (forall k: nat :: dev.attempts(k).Some?) && (forall k: nat :: writing(k).Whole?)
              && cfg.endingBytes < UINT_MODULUS ==>
                && NoneFallsShort(Z(), W(), l, passes) && Loops(Z(), W(), l, passes).halt.Going?
                && total == cfg.bytes && |file| == |old(file)| + cfg.bytes
    {
      hide Loops, Execution, NoneLoses, WritesWhole, AllWords, Flatten, EndingFill, EndingPut, PlanFor, Undisturbed;
      PlanCoversAmount(cfg.bytes, cfg.threads);
      var chunks;
      chunks, l, passes := GenerateChunk();
      var tail;
      tail, f, put, plain := GenerateEnding(mem, addr);
      total := chunks + tail;
      GenerateExact(cfg.bytes, threads0, cfg.aesFlag, W(), l, passes, addr, EndingCipher());
      if (forall k: nat :: dev.attempts(k).Some?) && forall k: nat :: writing(k).Whole? {
        GenerateSteadily(cfg.bytes, threads0, cfg.aesFlag, W(), l, passes, addr, EndingCipher());
      }
    }
  }
}
