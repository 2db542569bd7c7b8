/** The loop of generate_chunk (src/rdrand-gen.c), as a function on values: a run of the loop is
    one function of the hardware, the encryptor, what fwrite accepts, and the order in which the
    threads of each pass take turns. Class Generator.Engine performs the same passes in place and
    is proved against them; the properties over whole runs are proved here. */
module ChunkLoop {
  import opened Arith
  import opened Machine
  import opened ParallelRound
  import opened Retry
  import opened RoundShortfall

  /** What the encryptor stores at position j, given all the buffers it has been handed so far, the last
      one being the one to encrypt, and the word its result replaces. It may keep any state, and it
      may fail and leave the word as it was. */
  type Encryptor = (seq<seq<Word>>, nat, Word) -> Word

  /** The encryptor's next call, after it has been handed the given buffers. */
  function EncryptCall(enc: Encryptor, given: seq<seq<Word>>): (seq<Word>, nat, Word) -> Word {
    (src: seq<Word>, j: nat, before: Word) => enc(given + [src], j, before)
  }

  /** What the call on the last of the given buffers makes of the whole output buffer. */
  function EncryptedBuffer(enc: Encryptor, given: seq<seq<Word>>, before: seq<Word>): (r: seq<Word>)
    ensures |r| == |before|
  {
    seq(|before|, j requires 0 <= j < |before| => enc(given, j, before[j]))
  }

  /** What the slow top-up leaves in the buffer when it succeeds, and the attempts it makes. */
  datatype TopUp = TopUp(word: nat -> Word, attempts: nat)

  /** What the loop does not control: the attempts, the encryptor, what the n-th fwrite call accepts,
      and whether the slow top-up of the n-th pass succeeds. */
  datatype World = World(a: Attempts, enc: Encryptor, writing: nat -> Write, topUp: nat -> Option<TopUp>)

  /** The sizes a run of the loop works with. */
  datatype Sizes = Sizes(chunkCount: nat, chunkSize: nat, threads: nat, aes: bool) {
    function Width(): nat { chunkSize * threads }
    function Passes(): nat { chunkCount + if aes then 1 else 0 }
  }

  /** One fwrite call: the words it accepted, the thread count at the time, the attempts of the round
      made in the same pass, and whether that round was topped up slowly. */
  datatype Sent = Sent(words: seq<Word>, threads: nat, from: nat, to: nat, toppedUp: bool)

  /** Bookkeeping about the past: the chunks of the completed rounds, and the fwrite calls. */
  datatype Log = Log(drawn: seq<seq<Word>>, sent: seq<Sent>)

  datatype Halt = Going | OutOfThreads | WriteFailed

  /** The loop at its head. Without encryption `current` is the output buffer; `given` is what the
      encryptor has been handed. */
  datatype Loop = Loop(n: nat, threads: nat, firstRun: bool, halt: Halt, pos: nat,
                       current: seq<Word>, previous: seq<Word>, encBuf: seq<Word>,
                       passes: nat, given: seq<seq<Word>>, writes: nat, total: nat, log: Log)

  /** The loop before its first pass. */
  ghost predicate Fresh(z: Sizes, l: Loop) {
    && l.n == l.passes == l.total == 0 && l.given == [] && l.threads == z.threads >= 1
    && l.firstRun && l.halt.Going? && l.log == Log([], [])
    && |l.current| == |l.previous| == |l.encBuf| == z.Width()
  }

  /** The buffers are those allocated at the start, whatever the thread count is now. */
  ghost predicate Sized(z: Sizes, l: Loop) {
    && |l.current| == |l.previous| == |l.encBuf| == z.Width()
    && 1 <= l.threads <= z.threads && z.chunkSize * l.threads <= z.Width()
  }

  /** The round of a pass. */
  function RoundShape(z: Sizes, w: World, l: Loop): Shape {
    Shape(w.a, z.chunkSize, l.threads, l.n < z.chunkCount,
          if z.aes && !l.firstRun then Some(EncryptCall(w.enc, l.given)) else None)
  }

  function RoundStart(z: Sizes, w: World, l: Loop): Round {
    Start(RoundShape(z, w, l), l.pos, l.current, l.previous, l.encBuf)
  }

  /** The round after the given turns. */
  function RoundEnd(z: Sizes, w: World, l: Loop, turns: seq<nat>): Round {
    Run(RoundShape(z, w, l), RoundStart(z, w, l), turns)
  }

  function RoundWords(z: Sizes, l: Loop): nat {
    z.chunkSize * l.threads
  }

  /** The round of this pass has not generated what it should. */
  ghost predicate FellShort(z: Sizes, w: World, l: Loop, turns: seq<nat>) {
    l.n < z.chunkCount && Written(RoundEnd(z, w, l, turns).workers) != RoundWords(z, l)
  }

  lemma RoundBegins(z: Sizes, w: World, l: Loop)
    requires Sized(z, l)
    ensures Begins(RoundShape(z, w, l), RoundStart(z, w, l))
  {
    StartBegins(RoundShape(z, w, l), l.pos, l.current, l.previous, l.encBuf);
  }

  lemma RoundSizes(z: Sizes, w: World, l: Loop, turns: seq<nat>)
    requires Sized(z, l)
    ensures var r := RoundEnd(z, w, l, turns); |r.gen| == |r.buf| == z.Width() && r.pos >= l.pos
  {
    hide Run;
    RoundBegins(z, w, l);
    RunKeeps(RoundShape(z, w, l), RoundStart(z, w, l), turns);
  }

  /** The loop after the parallel round of a pass. */
  ghost function AfterRound(z: Sizes, w: World, l: Loop, turns: seq<nat>): (l1: Loop)
    requires Sized(z, l)
    ensures Sized(z, l1)
  {
    RoundSizes(z, w, l, turns);
    var r := RoundEnd(z, w, l, turns);
    var encrypts := z.aes && !l.firstRun;
    l.(pos := r.pos, current := r.gen, encBuf := r.buf, passes := l.passes + 1,
       given := l.given + if encrypts then [l.previous] else [])
  }

  /** The loop after a slow top-up. */
  function ToppedUp(l: Loop, t: TopUp): Loop {
    l.(pos := l.pos + t.attempts, current := seq(|l.current|, j requires 0 <= j => t.word(j)))
  }

  /** The chunk of a completed round is moved on: with encryption the two generated buffers swap. */
  function TakeChunk(z: Sizes, l: Loop): Loop
    requires RoundWords(z, l) <= |l.current|
  {
    var chunk := if l.n < z.chunkCount then [l.current[..RoundWords(z, l)]] else [];
    var l1 := l.(log := l.log.(drawn := l.log.drawn + chunk));
    if z.aes then l1.(current := l.previous, previous := l.current) else l1
  }

  /** One fwrite call on the output buffer. */
  function Send(z: Sizes, w: World, l: Loop, buf: seq<Word>, from: nat, toppedUp: bool): Loop
    requires RoundWords(z, l) <= |buf|
  {
    var size := RoundWords(z, l);
    var k := Accepted(w.writing(l.writes), size);
    var l1 := l.(writes := l.writes + 1, total := l.total + k,
                 log := l.log.(sent := l.log.sent + [Sent(buf[..k], l.threads, from, l.pos, toppedUp)]));
    if k == size then l1.(n := l.n + 1) else l1.(halt := WriteFailed)
  }

  /** The rest of a pass whose chunk was generated. */
  ghost function Emit(z: Sizes, w: World, l: Loop, from: nat, toppedUp: bool): (l1: Loop)
    requires Sized(z, l)
    ensures Sized(z, l1)
  {
    var l1 := TakeChunk(z, l);
    if z.aes && l.firstRun then l1.(firstRun := false, n := l.n + 1)
    else Send(z, w, l1, if z.aes then l.encBuf else l.current, from, toppedUp)
  }

  /** A pass whose round fell short: one thread fewer and the same chunk again, or, with one thread
      left, the slow top-up. */
  ghost function RunAgain(z: Sizes, w: World, l: Loop, from: nat, pass: nat): (l1: Loop)
    requires Sized(z, l)
    ensures Sized(z, l1)
  {
    MulStep(l.threads - 1, l.threads, z.chunkSize);
    if l.threads > 1 then l.(threads := l.threads - 1)
    else
      match w.topUp(pass)
      case None => l.(halt := OutOfThreads)
      case Some(t) => Emit(z, w, ToppedUp(l, t), from, true)
  }

  /** The turns are those of a complete round. */
  ghost predicate CompleteRound(z: Sizes, w: World, l: Loop, turns: seq<nat>) {
    Finished(RoundShape(z, w, l), RoundEnd(z, w, l, turns))
  }

  /** One pass of the loop. */
  ghost function Pass(z: Sizes, w: World, l: Loop, turns: seq<nat>): (r: Loop)
    requires Sized(z, l)
    ensures Sized(z, r)
  {
    hide *;
    var l1 := AfterRound(z, w, l, turns);
    if FellShort(z, w, l, turns) then
      RunAgain(z, w, l1, l.pos, l.passes)
    else Emit(z, w, l1, l.pos, false)
  }

  /** Whether the loop is left. */
  ghost predicate Over(z: Sizes, l: Loop) {
    !l.halt.Going? || l.n >= z.Passes()
  }

  /** The loop after the passes with the given turns. */
  ghost function Loops(z: Sizes, w: World, l: Loop, passes: seq<seq<nat>>): (r: Loop)
    requires Sized(z, l)
    ensures Sized(z, r)
  {
    if passes == [] then l else Pass(z, w, Loops(z, w, l, passes[..|passes| - 1]), passes[|passes| - 1])
  }

  /** The loop before pass p. */
  ghost function Before(z: Sizes, w: World, l: Loop, passes: seq<seq<nat>>, p: nat): Loop
    requires Sized(z, l) && p <= |passes|
  {
    Loops(z, w, l, passes[..p])
  }

  /** The passes are those the loop makes, each with a complete round. */
  ghost predicate Execution(z: Sizes, w: World, l: Loop, passes: seq<seq<nat>>)
    requires Sized(z, l)
  {
    forall p: nat :: p < |passes| ==>
      !Over(z, Before(z, w, l, passes, p)) && CompleteRound(z, w, Before(z, w, l, passes, p), passes[p])
  }

  lemma ExecutionFront(z: Sizes, w: World, l: Loop, passes: seq<seq<nat>>)
    requires Sized(z, l) && passes != [] && Execution(z, w, l, passes)
    ensures var n := |passes| - 1; var s := Loops(z, w, l, passes[..n]);
            && Execution(z, w, l, passes[..n]) && !Over(z, s) && CompleteRound(z, w, s, passes[n])
            && Loops(z, w, l, passes) == Pass(z, w, s, passes[n])
  {
    hide Pass, Over, CompleteRound, Sized;
    var n := |passes| - 1;
    forall p: nat | p < n
      ensures Before(z, w, l, passes[..n], p) == Before(z, w, l, passes, p)
    {
      assert passes[..n][..p] == passes[..p];
    }
    assert !Over(z, Before(z, w, l, passes, n));
  }

  /** One more pass. */
  lemma ExecutionExtends(z: Sizes, w: World, l: Loop, passes: seq<seq<nat>>, turns: seq<nat>)
    requires Sized(z, l) && Execution(z, w, l, passes)
    requires var s := Loops(z, w, l, passes); !Over(z, s) && CompleteRound(z, w, s, turns)
    ensures Execution(z, w, l, passes + [turns])
    ensures Loops(z, w, l, passes + [turns]) == Pass(z, w, Loops(z, w, l, passes), turns)
  {
    hide Pass, Over, CompleteRound, Sized;
    var more := passes + [turns];
    assert more[..|passes|] == passes;
    assert Loops(z, w, l, more) == Pass(z, w, Loops(z, w, l, passes), turns);
    forall p: nat | p < |more|
      ensures !Over(z, Before(z, w, l, more, p)) && CompleteRound(z, w, Before(z, w, l, more, p), more[p])
    {
      if p < |passes| {
        assert more[..p] == passes[..p];
        assert !Over(z, Before(z, w, l, passes, p)) && CompleteRound(z, w, Before(z, w, l, passes, p), passes[p]);
      }
    }
  }

  // ---- the books of the loop ----

  /** All words of a list of buffers. */
  function Concat(bs: seq<seq<Word>>): seq<Word> {
    if bs == [] then [] else Concat(bs[..|bs| - 1]) + bs[|bs| - 1]
  }

  lemma ConcatAppend(bs: seq<seq<Word>>, b: seq<Word>)
    ensures Concat(bs + [b]) == Concat(bs) + b
  {
    assert (bs + [b])[..|bs|] == bs;
  }

  /** What each fwrite call accepted. */
  function Outputs(sent: seq<Sent>): (bs: seq<seq<Word>>)
    ensures |bs| == |sent| && forall k :: 0 <= k < |bs| ==> bs[k] == sent[k].words
  {
    seq(|sent|, k requires 0 <= k < |sent| => sent[k].words)
  }

  function AllWords(sent: seq<Sent>): seq<Word> {
    Concat(Outputs(sent))
  }

  lemma AllWordsAppend(sent: seq<Sent>, s: Sent)
    ensures Outputs(sent + [s]) == Outputs(sent) + [s.words]
    ensures AllWords(sent + [s]) == AllWords(sent) + s.words
  {
    assert Outputs(sent + [s]) == Outputs(sent) + [s.words];
    ConcatAppend(Outputs(sent), s.words);
  }

  /** The words of the k-th write: as many as fwrite accepts of chunkSize words per thread; the thread
      count never grows, and only the last write may be short. */
  ghost predicate SentAt(z: Sizes, w: World, first: nat, l: Loop, k: nat)
    requires k < |l.log.sent|
  {
    var s := l.log.sent[k];
    && l.threads <= s.threads <= (if k == 0 then z.threads else l.log.sent[k - 1].threads)
    && |s.words| == Accepted(w.writing(first + k), z.chunkSize * s.threads)
    && (|s.words| < z.chunkSize * s.threads <==> l.halt.WriteFailed? && k == |l.log.sent| - 1)
  }

  /** Writes made when the loop is about to make pass n. */
  function WritesBefore(z: Sizes, n: nat): nat {
    if z.aes && n > 0 then n - 1 else n
  }

  /** Every pass has advanced n, cost a thread, or ended the loop; every pass but the first one with
      encryption that advanced n has written. `first` counts the fwrite calls made before the loop. */
  ghost predicate Books(z: Sizes, w: World, first: nat, l: Loop) {
    var sent := l.log.sent;
    && Sized(z, l) && l.n <= z.Passes() && (!l.halt.Going? ==> l.n < z.Passes())
    && l.firstRun == (!z.aes || l.n == 0)
    && l.passes == l.n + (z.threads - l.threads) + (if l.halt.Going? then 0 else 1)
    && |sent| == WritesBefore(z, l.n) + (if l.halt.WriteFailed? then 1 else 0)
    && (l.halt.OutOfThreads? ==> l.n < z.chunkCount) && (l.halt.WriteFailed? && z.aes ==> l.n > 0)
    && l.writes == first + |sent| && l.total == |AllWords(sent)|
    && (forall k: nat :: k < |sent| ==> SentAt(z, w, first, l, k))
    && (sent != [] && l.threads < sent[|sent| - 1].threads ==> l.n < z.chunkCount)
  }

  /** In the middle of a pass, when the round has been run and counted. */
  ghost predicate BooksMid(z: Sizes, w: World, first: nat, l: Loop) {
    l.passes > 0 && l.halt.Going? && l.n < z.Passes() && Books(z, w, first, l.(passes := l.passes - 1))
  }

  lemma BooksRound(z: Sizes, w: World, first: nat, l: Loop, turns: seq<nat>)
    requires Books(z, w, first, l) && !Over(z, l)
    ensures BooksMid(z, w, first, AfterRound(z, w, l, turns))
  {
    hide RoundEnd, AllWords;
    var l1 := AfterRound(z, w, l, turns);
    var mid := l1.(passes := l1.passes - 1);
    forall k: nat | k < |l.log.sent|
      ensures SentAt(z, w, first, mid, k)
    {
      assert SentAt(z, w, first, l, k);
    }
  }

  /** Only the thread count, the buffers, the position and the halt differ: the writes stand. */
  lemma SentStands(z: Sizes, w: World, first: nat, l: Loop, l1: Loop, k: nat)
    requires k < |l.log.sent| && l1.log.sent == l.log.sent && l1.threads <= l.threads
    requires SentAt(z, w, first, l, k) && !l.halt.WriteFailed? && !l1.halt.WriteFailed?
    ensures SentAt(z, w, first, l1, k)
  {
  }

  lemma BooksLower(z: Sizes, w: World, first: nat, l: Loop)
    requires BooksMid(z, w, first, l) && l.n < z.chunkCount && l.threads > 1
    ensures Books(z, w, first, l.(threads := l.threads - 1))
  {
    hide AllWords, SentAt;
    var r := l.(threads := l.threads - 1);
    assert z.chunkSize * r.threads == z.chunkSize * l.threads - z.chunkSize;
    forall k: nat | k < |r.log.sent|
      ensures SentAt(z, w, first, r, k)
    {
      SentStands(z, w, first, l.(passes := l.passes - 1), r, k);
    }
  }

  lemma BooksStop(z: Sizes, w: World, first: nat, l: Loop)
    requires BooksMid(z, w, first, l) && l.n < z.chunkCount
    ensures Books(z, w, first, l.(halt := OutOfThreads))
  {
    hide AllWords, SentAt;
    var r := l.(halt := OutOfThreads);
    forall k: nat | k < |r.log.sent|
      ensures SentAt(z, w, first, r, k)
    {
      SentStands(z, w, first, l.(passes := l.passes - 1), r, k);
    }
  }

  lemma EmitSends(z: Sizes, w: World, first: nat, l: Loop, from: nat, toppedUp: bool, k: nat)
    requires BooksMid(z, w, first, l)
    requires k < |Emit(z, w, l, from, toppedUp).log.sent|
    ensures SentAt(z, w, first, Emit(z, w, l, from, toppedUp), k)
  {
    hide AllWords;
    assert k < |l.log.sent| ==> SentAt(z, w, first, l.(passes := l.passes - 1), k);
    assert l.log.sent != [] ==> SentAt(z, w, first, l.(passes := l.passes - 1), |l.log.sent| - 1);
  }

  lemma BooksEmit(z: Sizes, w: World, first: nat, l: Loop, from: nat, toppedUp: bool)
    requires BooksMid(z, w, first, l)
    ensures Books(z, w, first, Emit(z, w, l, from, toppedUp))
  {
    hide AllWords, SentAt;
    var r := Emit(z, w, l, from, toppedUp);
    if !(z.aes && l.firstRun) {
      AllWordsAppend(l.log.sent, r.log.sent[|l.log.sent|]);
    }
    forall k: nat | k < |r.log.sent|
      ensures SentAt(z, w, first, r, k)
    {
      EmitSends(z, w, first, l, from, toppedUp, k);
    }
  }

  lemma BooksToppedUp(z: Sizes, w: World, first: nat, l: Loop, t: TopUp)
    requires BooksMid(z, w, first, l)
    ensures BooksMid(z, w, first, ToppedUp(l, t))
  {
    hide AllWords;
    var mid := l.(passes := l.passes - 1);
    var r := ToppedUp(mid, t);
    forall k: nat | k < |r.log.sent|
      ensures SentAt(z, w, first, r, k)
    {
      SentStands(z, w, first, mid, r, k);
    }
  }

  lemma BooksPass(z: Sizes, w: World, first: nat, l: Loop, turns: seq<nat>)
    requires Sized(z, l) && Books(z, w, first, l) && !Over(z, l)
    ensures Books(z, w, first, Pass(z, w, l, turns))
  {
    hide RoundEnd, BooksMid, Books, Emit, Sized, ToppedUp;
    var l1 := AfterRound(z, w, l, turns);
    BooksRound(z, w, first, l, turns);
    if !FellShort(z, w, l, turns) {
      BooksEmit(z, w, first, l1, l.pos, false);
    } else if l.threads > 1 {
      BooksLower(z, w, first, l1);
    } else if w.topUp(l.passes).None? {
      BooksStop(z, w, first, l1);
    } else {
      BooksToppedUp(z, w, first, l1, w.topUp(l.passes).value);
      BooksEmit(z, w, first, ToppedUp(l1, w.topUp(l.passes).value), l.pos, true);
    }
  }

  lemma BooksStart(z: Sizes, w: World, l: Loop)
    requires Fresh(z, l) && Sized(z, l)
    ensures Books(z, w, l.writes, l)
  {
  }

  lemma {:induction false} BooksRun(z: Sizes, w: World, l: Loop, passes: seq<seq<nat>>)
    requires Fresh(z, l) && Sized(z, l) && Execution(z, w, l, passes)
    ensures Books(z, w, l.writes, Loops(z, w, l, passes))
  {
    hide Books, Pass, Execution;
    if passes == [] {
      BooksStart(z, w, l);
    } else {
      ExecutionFront(z, w, l, passes);
      BooksRun(z, w, l, passes[..|passes| - 1]);
      BooksPass(z, w, l.writes, Loops(z, w, l, passes[..|passes| - 1]), passes[|passes| - 1]);
    }
  }

  /** The round fell short and was not topped up: a thread is lost, or the loop ends for want of one. */
  ghost predicate Loses(z: Sizes, w: World, l: Loop, turns: seq<nat>) {
    FellShort(z, w, l, turns) && !(l.threads == 1 && w.topUp(l.passes).Some?)
  }

  /** Each pass counts itself, and keeps its threads exactly unless it loses one. */
  lemma PassTeam(z: Sizes, w: World, l: Loop, turns: seq<nat>)
    requires Sized(z, l) && l.halt.Going?
    ensures var r := Pass(z, w, l, turns);
            && r.passes == l.passes + 1 && r.threads <= l.threads
            && (r.threads == l.threads && !r.halt.OutOfThreads? <==> !Loses(z, w, l, turns))
  {
    hide RoundEnd, FellShort;
  }

  /** No pass loses a thread, or ends the loop for want of one. */
  ghost predicate NoneLoses(z: Sizes, w: World, l: Loop, passes: seq<seq<nat>>)
    requires Sized(z, l)
  {
    forall p: nat :: p < |passes| ==> !Loses(z, w, Before(z, w, l, passes, p), passes[p])
  }

  lemma NoneLosesFront(z: Sizes, w: World, l: Loop, passes: seq<seq<nat>>)
    requires Sized(z, l) && passes != []
    ensures var n := |passes| - 1;
            NoneLoses(z, w, l, passes)
            <==> NoneLoses(z, w, l, passes[..n]) && !Loses(z, w, Loops(z, w, l, passes[..n]), passes[n])
  {
    hide Loops, Loses, Sized;
    var n := |passes| - 1;
    assert forall p: nat :: p < n ==> passes[..n][..p] == passes[..p];
    assert Before(z, w, l, passes, n) == Loops(z, w, l, passes[..n]);
    if NoneLoses(z, w, l, passes) {
      forall p: nat | p < n
        ensures !Loses(z, w, Before(z, w, l, passes[..n], p), passes[..n][p])
      {
        assert !Loses(z, w, Before(z, w, l, passes, p), passes[p]);
      }
    }
  }

  lemma NoneLosesEmpty(z: Sizes, w: World, l: Loop)
    requires Sized(z, l)
    ensures NoneLoses(z, w, l, [])
  {
  }

  lemma {:induction false} TeamKept(z: Sizes, w: World, l: Loop, passes: seq<seq<nat>>)
    requires Fresh(z, l) && Sized(z, l) && Execution(z, w, l, passes)
    ensures var r := Loops(z, w, l, passes);
            && r.passes == |passes| && r.threads <= z.threads
            && (r.threads == z.threads && !r.halt.OutOfThreads? <==> NoneLoses(z, w, l, passes))
  {
    hide Pass, Execution, Loses, NoneLoses, Sized;
    if passes == [] {
      assert NoneLoses(z, w, l, passes) by { NoneLosesEmpty(z, w, l); }
    } else {
      var n := |passes| - 1;
      ExecutionFront(z, w, l, passes);
      TeamKept(z, w, l, passes[..n]);
      PassTeam(z, w, Loops(z, w, l, passes[..n]), passes[n]);
      NoneLosesFront(z, w, l, passes);
    }
  }

  /** The round of a pass falls short exactly when one of its threads gives up. */
  lemma FallsShort(z: Sizes, w: World, l: Loop, turns: seq<nat>)
    requires Sized(z, l) && CompleteRound(z, w, l, turns)
    ensures FellShort(z, w, l, turns)
       <==> l.n < z.chunkCount && !NoneGivesUp(RoundShape(z, w, l), RoundStart(z, w, l), turns)
  {
    hide Run, Finished, Written;
    if l.n < z.chunkCount {
      RoundBegins(z, w, l);
      RoundFallsShort(RoundShape(z, w, l), RoundStart(z, w, l), turns);
      assert RoundWords(z, l) == l.threads * z.chunkSize;
    }
  }

  /** The loop makes at most one pass per chunk, one more with encryption, and one per lost thread. */
  lemma PassBound(z: Sizes, w: World, l: Loop, passes: seq<seq<nat>>)
    requires Fresh(z, l) && Sized(z, l) && Execution(z, w, l, passes)
    ensures |passes| <= z.Passes() + z.threads - 1
  {
    hide Loops, SentAt, AllWords, Execution;
    BooksRun(z, w, l, passes);
    TeamKept(z, w, l, passes);
  }

  lemma {:induction false} ConcatBound(bs: seq<seq<Word>>, width: nat)
    requires forall k :: 0 <= k < |bs| ==> |bs[k]| <= width
    ensures |Concat(bs)| <= |bs| * width
    ensures |Concat(bs)| == |bs| * width <==> forall k :: 0 <= k < |bs| ==> |bs[k]| == width
  {
    if bs == [] {
    } else {
      var n := |bs| - 1;
      ConcatBound(bs[..n], width);
      assert (n + 1) * width == n * width + width;
    }
  }

  lemma {:induction false} SentThreads(z: Sizes, w: World, first: nat, l: Loop, k: nat)
    requires k < |l.log.sent| && forall j: nat :: j <= k ==> SentAt(z, w, first, l, j)
    ensures l.threads <= l.log.sent[k].threads <= z.threads
  {
    assert SentAt(z, w, first, l, k);
    if k > 0 {
      SentThreads(z, w, first, l, k - 1);
    }
  }

  /** A write takes at most a whole chunk, and at full width exactly that. */
  lemma SentWidth(z: Sizes, w: World, first: nat, l: Loop, k: nat)
    requires Books(z, w, first, l) && k < |l.log.sent|
    ensures var s := l.log.sent[k];
            && |s.words| <= z.chunkSize * s.threads <= z.Width()
            && (s.threads < z.threads && z.chunkSize > 0 ==> |s.words| < z.Width())
            && (l.halt.Going? && l.threads == z.threads ==> |s.words| == z.Width())
  {
    assert SentAt(z, w, first, l, k);
    SentThreads(z, w, first, l, k);
    MulStep(l.log.sent[k].threads, z.threads, z.chunkSize);
  }

  /** The loop hands out every chunk at full width exactly when no thread was lost and no write
      was short. */
  lemma AmountExact(z: Sizes, w: World, first: nat, l: Loop)
    requires Books(z, w, first, l) && Over(z, l)
    ensures l.total <= z.chunkCount * z.Width()
    ensures z.chunkCount > 0 && z.chunkSize > 0 ==>
              (l.total == z.chunkCount * z.Width() <==> l.halt.Going? && l.threads == z.threads)
  {
    hide Concat;
    var bs, n := Outputs(l.log.sent), |l.log.sent|;
    forall k: nat | k < n
      ensures |bs[k]| <= z.Width()
      ensures l.halt.Going? && l.threads == z.threads ==> |bs[k]| == z.Width()
    {
      SentWidth(z, w, first, l, k);
    }
    ConcatBound(bs, z.Width());
    MulStep(n, z.chunkCount, z.Width());
    MulStep(0, z.threads, z.chunkSize);
    if n > 0 && n == z.chunkCount && !(l.halt.Going? && l.threads == z.threads) && z.chunkSize > 0 {
      assert SentAt(z, w, first, l, n - 1);
      SentWidth(z, w, first, l, n - 1);
      assert |bs[n - 1]| < z.Width();
    }
  }
}
