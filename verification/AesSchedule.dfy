/** The key schedule and the encrypted byte source (src/librdrand-aes.c), as functions on
    values. Class AesConfig.Aes performs the same steps in place and is proved against them; the
    properties over whole runs of calls are proved in AesRuns, AesLifetime and AesReceiver. */
module AesSchedule {
  import opened CtrStream
  import opened Machine
  import opened MemoryFill
  import opened Retry

  const MAX_COUNTER: nat := 4096
  const MAX_BUFFER_SIZE: nat := 2048
  // The most data that one key encrypts when no key draw fails.
  const LIFETIME: nat := MAX_COUNTER + MAX_BUFFER_SIZE
  const UINT_MAX: nat := 0xFFFF_FFFF

  type Uint = x: nat | x <= UINT_MAX

  /** The world outside the library: the block cipher, the RDRAND attempts, and what the n-th
      RAND_bytes call yields when it is asked for a key or nonce, or for a 32-bit timer.
      None is a failed call. */
  datatype Env = Env(cipher: Cipher, attempts: Attempts, randBlock: nat -> Option<Block>,
                     randTimer: nat -> Option<Uint>)

  /** RAND_bytes never fails when it is asked for a key or a nonce; it may still fail for a timer. */
  ghost predicate KeysNeverFail(env: Env) {
    forall k: nat :: env.randBlock(k).Some?
  }

  datatype Slot = Slot(key: Block, nonce: Block)

  /** What has been encrypted since a key was last installed in the cipher context. */
  datatype Epoch = Epoch(key: Block, iv: Block, src: seq<Byte>, out: seq<Byte>)

  /** Bookkeeping about the past, not part of the program's state.
      longest: the most data any one installed key has encrypted; spent, grant, trigger: bytes
      charged in this epoch, the counter it began with, and the charge that began it; changes,
      rotations: key changes so far, in all and by slot; failed, stale: key changes that failed, in
      all and since the key in use was installed. */
  datatype History = History(epoch: Epoch, longest: nat, spent: nat, grant: nat, trigger: nat,
                             changes: nat, rotations: seq<nat>, failed: nat, stale: nat)

  datatype Config = Config(slots: seq<Slot>, index: nat, next: nat, given: bool, ctx: Ctx, draws: nat, h: History)

  ghost predicate WellFormed(c: Config) {
    && c.index < |c.slots| == |c.h.rotations|
    && (!c.given ==> |c.slots| == 1)
  }

  /** The mode and the number of slots are fixed at set-up. */
  ghost predicate SameShape(c: Config, r: Config) {
    r.given == c.given && |r.slots| == |c.slots|
  }

  /** Every byte the budget granted since the last key change, or the last attempt at one, is either
      spent or still to be spent; the charge that caused it comes on top of the grant. A key that
      stays in use because no new one could be drawn gets a whole lifetime more each time. */
  ghost predicate Budgeted(c: Config) {
    var h := c.h;
    && h.spent + c.next == h.grant + h.trigger
    && h.trigger <= h.spent && h.grant <= MAX_COUNTER && h.trigger <= MAX_BUFFER_SIZE
    && |h.epoch.src| <= LIFETIME * h.stale + h.spent && |h.epoch.src| <= h.longest
    && h.longest <= LIFETIME * (1 + h.failed) && h.stale <= h.failed
    && (c.given ==> h.failed == 0)
  }

  /** The epoch's output is its source under one contiguous keystream, and the context stands
      where that keystream ends. */
  ghost predicate Streaming(env: Env, c: Config) {
    var p := c.h.epoch;
    && p.out == Ctr(env.cipher, p.key, p.iv, 0, p.src)
    && c.ctx == CtxAt(env.cipher, p.key, p.iv, |p.src|)
  }

  /** The key and nonce in the cipher context are those of the current slot, unless it was to be
      changed and could not. */
  ghost predicate Installed(c: Config)
    requires WellFormed(c)
  {
    c.h.stale == 0 ==> c.slots[c.index] == Slot(c.h.epoch.key, c.h.epoch.iv)
  }

  ghost predicate Inv(env: Env, c: Config) {
    WellFormed(c) && Budgeted(c) && Installed(c) && Streaming(env, c) && (KeysNeverFail(env) ==> c.h.failed == 0)
  }

  /** key_to_openssl: the current slot's key and nonce go into the cipher context. */
  function Install(c: Config): Config
    requires c.index < |c.slots|
  {
    var s := c.slots[c.index];
    c.(ctx := Ctx(s.key, s.nonce, []), h := c.h.(epoch := Epoch(s.key, s.nonce, [], []), stale := 0))
  }

  function NewHistory(amount: nat, grant: nat, epoch: Epoch): History {
    History(epoch, 0, 0, grant, 0, 0, seq(amount, _ => 0), 0, 0)
  }

  /** The state after rdrand_set_aes_keys. */
  function GivenConfig(slots: seq<Slot>): Config
    requires slots != []
  {
    var s := slots[0];
    Config(slots, 0, MAX_COUNTER, true, Ctx(s.key, s.nonce, []), 0,
           NewHistory(|slots|, MAX_COUNTER, Epoch(s.key, s.nonce, [], [])))
  }

  /** The state after rdrand_set_aes_random_key, when its two draws are key and nonce. */
  function GeneratedConfig(key: Block, nonce: Block, draws: nat): Config {
    Config([Slot(key, nonce)], 0, 0, false, Ctx(key, nonce, []), draws,
           NewHistory(1, 0, Epoch(key, nonce, [], [])))
  }

  /** keys_change_rotation: the current slot is replaced by its encryption under the context
      of the key being retired. */
  function Rotate(env: Env, c: Config): Config
    requires c.index < |c.slots| == |c.h.rotations|
  {
    var s := c.slots[c.index];
    var k := EncryptUpdate(env.cipher, c.ctx, s.key);
    var n := EncryptUpdate(env.cipher, k.ctx, s.nonce);
    c.(slots := c.slots[c.index := Slot(k.bytes, n.bytes)], ctx := n.ctx,
       h := c.h.(changes := c.h.changes + 1, rotations := c.h.rotations[c.index := c.h.rotations[c.index] + 1]))
  }

  /** Slots are used round robin. */
  function NextSlot(c: Config): (i: nat)
    requires WellFormed(c)
    ensures i < |c.slots|
  {
    (c.index + 1) % |c.slots|
  }

  function KeysChange(env: Env, c: Config): (r: Config)
    requires WellFormed(c)
    ensures WellFormed(r) && SameShape(c, r)
  {
    Install(Rotate(env, c.(index := NextSlot(c))))
  }

  datatype Outcome = Outcome(ok: bool, c: Config)

  /** key_generate: a failed second draw leaves the new key in its slot but not installed. */
  function KeyGenerate(env: Env, c: Config): (r: Outcome)
    requires WellFormed(c) && !c.given
    ensures WellFormed(r.c) && SameShape(c, r.c)
  {
    var failed := c.h.(failed := c.h.failed + 1, stale := c.h.stale + 1);
    match env.randBlock(c.draws)
    case None => Outcome(false, c.(draws := c.draws + 1, h := failed))
    case Some(k) =>
      var c1 := c.(slots := [c.slots[0].(key := k)], draws := c.draws + 2);
      match env.randBlock(c.draws + 1)
      case None => Outcome(false, c1.(h := failed))
      case Some(n) =>
        Outcome(true, Install(c1.(slots := [Slot(k, n)], h := c.h.(changes := c.h.changes + 1))))
  }

  /** ((double)buf / UINT_MAX) * MAX_COUNTER, truncated. */
  function Timer(buf: Uint): (t: nat)
    ensures t <= MAX_COUNTER && (t == MAX_COUNTER <==> buf == UINT_MAX)
  {
    buf * MAX_COUNTER / UINT_MAX
  }

  /** The timer is the quotient rounded down. */
  lemma TimerRoundsDown(buf: Uint)
    ensures Timer(buf) * 0xFFFF_FFFF <= buf * 4096 < (Timer(buf) + 1) * 0xFFFF_FFFF
  {
  }

  /** keys_randomize: when no timer can be drawn the old budget stays. */
  function KeysRandomize(env: Env, c: Config): (r: Outcome) {
    match env.randTimer(c.draws)
    case None => Outcome(false, c.(draws := c.draws + 1))
    case Some(buf) => Outcome(true, c.(draws := c.draws + 1, next := Timer(buf)))
  }

  /** The key change is uncharged: its bytes are spent, but not taken from the new budget. */
  function Charged(c: Config, num: nat): Config {
    c.(h := c.h.(spent := num, grant := c.next, trigger := num))
  }

  /** counter: charge num bytes, or change the key when the budget does not cover them. */
  function Counter(env: Env, c: Config, num: nat): (r: Outcome)
    requires WellFormed(c)
    ensures WellFormed(r.c) && SameShape(c, r.c)
  {
    if c.next == 0 || c.next < num then
      if c.given then
        var c1 := KeysChange(env, c).(next := MAX_COUNTER);
        Outcome(true, Charged(c1, num))
      else
        var r := KeyGenerate(env, c);
        Outcome(r.ok, Charged(KeysRandomize(env, r.c).c, num))
    else
      Outcome(false, c.(next := c.next - num, h := c.h.(spent := c.h.spent + num)))
  }

  function Max(a: nat, b: nat): nat { if a < b then b else a }

  datatype Encrypted = Encrypted(bytes: seq<Byte>, c: Config)

  /** EVP_EncryptUpdate on data. */
  function Encrypt(env: Env, c: Config, src: seq<Byte>): (r: Encrypted)
    ensures |r.bytes| == |src|
  {
    var u := EncryptUpdate(env.cipher, c.ctx, src);
    var p := c.h.epoch;
    Encrypted(u.bytes, c.(ctx := u.ctx,
                          h := c.h.(epoch := p.(src := p.src + src, out := p.out + u.bytes),
                                    longest := Max(c.h.longest, |p.src + src|))))
  }

  /** The library between two calls: its configuration and the RDRAND attempts made. */
  datatype State = State(c: Config, pos: nat)

  /** How the byte source is called: the address of its stack buffer and the retry limit. */
  datatype Source = Source(addr: nat, limit: int)

  datatype Step = Step(out: seq<Byte>, ok: bool, s: State)

  /** One pass of the loop body: charge n bytes, draw them, encrypt them. */
  function Piece(env: Env, io: Source, s: State, n: nat): (r: Step)
    requires WellFormed(s.c)
    ensures WellFormed(r.s.c) && SameShape(s.c, r.s.c)
    ensures |r.out| == if r.ok then n else 0
  {
    var c := Counter(env, s.c, n).c;
    var f := GetBytes(env.attempts, s.pos, io.addr, n, io.limit);
    if Generated(f) != n then Step([], false, State(c, f.pos))
    else
      var e := Encrypt(env, c, f.head + f.body + f.tail);
      Step(e.bytes, true, State(e.c, f.pos))
  }

  /** The first k full buffers of a call, given up at the first one that falls short. */
  function Blocks(env: Env, io: Source, s: State, k: nat): (r: Step)
    requires WellFormed(s.c)
    ensures WellFormed(r.s.c) && SameShape(s.c, r.s.c)
    ensures r.ok ==> |r.out| == MAX_BUFFER_SIZE * k
    ensures |r.out| <= MAX_BUFFER_SIZE * k
  {
    if k == 0 then Step([], true, s)
    else
      var r := Blocks(env, io, s, k - 1);
      if !r.ok then r
      else
        var p := Piece(env, io, r.s, MAX_BUFFER_SIZE);
        Step(r.out + p.out, p.ok, p.s)
  }

  /** rdrand_get_bytes_aes_ctr; what it returns is |out|. */
  function GetBytesAesCtr(env: Env, io: Source, s: State, count: nat): (r: Step)
    requires WellFormed(s.c)
    ensures WellFormed(r.s.c) && SameShape(s.c, r.s.c)
    ensures |r.out| <= count && (r.ok <==> |r.out| == count)
  {
    var r := Blocks(env, io, s, count / MAX_BUFFER_SIZE);
    var tail := count % MAX_BUFFER_SIZE;
    if !r.ok || tail == 0 then r
    else
      var p := Piece(env, io, r.s, tail);
      Step(r.out + p.out, p.ok, p.s)
  }

  datatype Call = Call(io: Source, count: nat)

  /** The state after a run of calls. */
  function Run(env: Env, s: State, calls: seq<Call>): (r: State)
    requires WellFormed(s.c)
    ensures WellFormed(r.c) && SameShape(s.c, r.c)
  {
    if calls == [] then s
    else
      var last := calls[|calls| - 1];
      GetBytesAesCtr(env, last.io, Run(env, s, calls[..|calls| - 1]), last.count).s
  }
}
