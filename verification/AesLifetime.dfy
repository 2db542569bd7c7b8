/** How much one key encrypts (src/librdrand-aes.c): when the documented lifetime of MAX_COUNTER bytes is
    kept, in both key modes. */
module AesLifetime {
  import opened AesRuns
  import opened AesSchedule
  import opened AesSupply
  import opened CtrStream
  import opened Machine
  import opened MemoryFill
  import opened Retry

  // ---- given keys ----

  /** What bears on the lifetime of a given key: the data it has encrypted, the budget, and the most
      data any key has encrypted. */
  datatype Life = Life(used: nat, budget: nat, longest: nat)

  function LifeOf(c: Config): Life {
    Life(|c.h.epoch.src|, c.next, c.h.longest)
  }

  /** One buffer of n bytes, charged and encrypted. */
  function Spend(x: Life, n: nat): (y: Life)
    ensures y.longest >= x.longest
  {
    if x.budget == 0 || x.budget < n then Life(n, MAX_COUNTER, Max(x.longest, n))
    else Life(x.used + n, x.budget - n, Max(x.longest, x.used + n))
  }

  /** k full buffers. */
  function SpendBlocks(x: Life, k: nat): (y: Life)
    ensures y.longest >= x.longest
  {
    if k == 0 then x else Spend(SpendBlocks(x, k - 1), MAX_BUFFER_SIZE)
  }

  function SpendCall(x: Life, count: nat): (y: Life)
    ensures y.longest >= SpendBlocks(x, count / MAX_BUFFER_SIZE).longest
  {
    var y := SpendBlocks(x, count / MAX_BUFFER_SIZE);
    if count % MAX_BUFFER_SIZE == 0 then y else Spend(y, count % MAX_BUFFER_SIZE)
  }

  /** Whether a call for count bytes keeps every key within MAX_COUNTER bytes, told from the data the
      key in use has encrypted and the budget: what the budget covers in whole buffers goes under
      that key, and at most MAX_COUNTER bytes may be left for the next ones. */
  predicate KeepsLifetime(used: nat, budget: nat, count: nat) {
    if count <= budget then used + count <= MAX_COUNTER
    else
      var covered := budget / MAX_BUFFER_SIZE * MAX_BUFFER_SIZE;
      used + covered <= MAX_COUNTER && count - covered <= MAX_COUNTER
  }

  /** After k full buffers: past those the budget covers, each key takes three of them. */
  ghost predicate Spent(x: Life, k: nat, y: Life) {
    var q := x.budget / MAX_BUFFER_SIZE;
    if k <= q then y.used == x.used + MAX_BUFFER_SIZE * k && y.budget == x.budget - MAX_BUFFER_SIZE * k
    else
      var m := (k - q - 1) % 3;
      y.used == MAX_BUFFER_SIZE * (m + 1) && y.budget == MAX_BUFFER_SIZE * (2 - m)
  }

  lemma SpendNext(x: Life, k: nat, y: Life)
    requires x.budget <= MAX_COUNTER && Spent(x, k, y)
    ensures Spent(x, k + 1, Spend(y, MAX_BUFFER_SIZE))
  {
  }

  /** One more buffer outlives MAX_COUNTER only where KeepsLifetime says so. */
  lemma SpendLongest(x: Life, k: nat, y: Life)
    requires x.budget <= MAX_COUNTER && Spent(x, k, y)
    requires y.longest <= MAX_COUNTER <==> KeepsLifetime(x.used, x.budget, MAX_BUFFER_SIZE * k)
    ensures Spend(y, MAX_BUFFER_SIZE).longest <= MAX_COUNTER
       <==> KeepsLifetime(x.used, x.budget, MAX_BUFFER_SIZE * (k + 1))
  {
  }

  lemma {:induction false} SpendBlocksKeeps(x: Life, k: nat)
    requires x.used <= x.longest <= MAX_COUNTER && x.budget <= MAX_COUNTER
    ensures var y := SpendBlocks(x, k);
            Spent(x, k, y) && (y.longest <= MAX_COUNTER <==> KeepsLifetime(x.used, x.budget, MAX_BUFFER_SIZE * k))
  {
    if k == 0 {
    } else {
      hide Spent, Spend, KeepsLifetime;
      SpendBlocksKeeps(x, k - 1);
      SpendNext(x, k - 1, SpendBlocks(x, k - 1));
      SpendLongest(x, k - 1, SpendBlocks(x, k - 1));
    }
  }

  lemma SpendCallKeeps(x: Life, count: nat)
    requires x.used <= x.longest <= MAX_COUNTER && x.budget <= MAX_COUNTER
    ensures SpendCall(x, count).longest <= MAX_COUNTER <==> KeepsLifetime(x.used, x.budget, count)
  {
    SpendBlocksKeeps(x, count / MAX_BUFFER_SIZE);
    hide SpendBlocks;
  }

  /** What holds of a call holds of its first full buffers. */
  lemma KeepsPrefix(used: nat, budget: nat, count: nat, k: nat)
    requires KeepsLifetime(used, budget, count) && MAX_BUFFER_SIZE * k <= count
    ensures KeepsLifetime(used, budget, MAX_BUFFER_SIZE * k)
  {
  }

  lemma PieceSpends(env: Env, io: Source, s: State, n: nat)
    requires WellFormed(s.c) && s.c.given
    ensures var r := Piece(env, io, s, n);
            if r.ok then LifeOf(r.s.c) == Spend(LifeOf(s.c), n) else r.s.c.h.longest == s.c.h.longest
  {
    hide GetBytes, EncryptUpdate;
  }

  /** The buffers that were served, up to the first that was not. */
  lemma {:induction false} BlocksSpend(env: Env, io: Source, s: State, k: nat)
    requires WellFormed(s.c) && s.c.given
    ensures var r := Blocks(env, io, s, k);
            && |r.out| % MAX_BUFFER_SIZE == 0
            && r.s.c.h.longest == SpendBlocks(LifeOf(s.c), |r.out| / MAX_BUFFER_SIZE).longest
            && (r.ok ==> LifeOf(r.s.c) == SpendBlocks(LifeOf(s.c), k))
  {
    hide Piece, Spend;
    if k == 0 {
    } else {
      BlocksSpend(env, io, s, k - 1);
      var r := Blocks(env, io, s, k - 1);
      if r.ok {
        PieceSpends(env, io, r.s, MAX_BUFFER_SIZE);
      }
    }
  }

  lemma CallSpends(env: Env, io: Source, s: State, count: nat)
    requires WellFormed(s.c) && s.c.given
    ensures var r := GetBytesAesCtr(env, io, s, count);
            && r.s.c.h.longest == SpendCall(LifeOf(s.c), |r.out|).longest
            && (r.ok || |r.out| % MAX_BUFFER_SIZE == 0)
  {
    hide Piece, Blocks, Spend, SpendBlocks;
    var b := Blocks(env, io, s, count / MAX_BUFFER_SIZE);
    BlocksSpend(env, io, s, count / MAX_BUFFER_SIZE);
    if b.ok {
      PieceSpends(env, io, b.s, count % MAX_BUFFER_SIZE);
    }
  }

  /** The documented lifetime of MAX_COUNTER bytes per key, exactly: with given keys, a call that finds it
      kept so far leaves it kept if and only if KeepsLifetime says so, beforehand, of the bytes the
      call serves; it does if KeepsLifetime says so of the bytes asked for. */
  lemma LifetimeKept(env: Env, io: Source, s: State, count: nat)
    requires Inv(env, s.c) && s.c.given && s.c.h.longest <= MAX_COUNTER
    ensures var r := GetBytesAesCtr(env, io, s, count);
            && (r.s.c.h.longest <= MAX_COUNTER <==> KeepsLifetime(|s.c.h.epoch.src|, s.c.next, |r.out|))
            && (KeepsLifetime(|s.c.h.epoch.src|, s.c.next, count) ==> r.s.c.h.longest <= MAX_COUNTER)
  {
    hide GetBytesAesCtr, SpendCall, KeepsLifetime;
    var r := GetBytesAesCtr(env, io, s, count);
    CallSpends(env, io, s, count);
    SpendCallKeeps(LifeOf(s.c), |r.out|);
    if KeepsLifetime(|s.c.h.epoch.src|, s.c.next, count) && !r.ok {
      KeepsPrefix(|s.c.h.epoch.src|, s.c.next, count, |r.out| / MAX_BUFFER_SIZE);
    }
  }

  /** The state before call i of a run from set-up with given keys. */
  function GivenBefore(env: Env, slots: seq<Slot>, calls: seq<Call>, i: nat): (s: State)
    requires slots != [] && i <= |calls|
    ensures WellFormed(s.c) && s.c.given
  {
    Run(env, State(GivenConfig(slots), 0), calls[..i])
  }

  /** Call i meets the condition for the bytes it serves. */
  predicate KeepsAt(env: Env, slots: seq<Slot>, calls: seq<Call>, i: nat)
    requires slots != [] && i < |calls|
  {
    var s := GivenBefore(env, slots, calls, i);
    KeepsLifetime(|s.c.h.epoch.src|, s.c.next, |CallSupply(env.attempts, s.pos, calls[i].io, calls[i].count).bytes|)
  }

  lemma SpendGrows(x: Life, count: nat)
    ensures SpendCall(x, count).longest >= x.longest
  {
  }

  /** A key that has outlived MAX_COUNTER stays on record; otherwise the last call decides. */
  lemma LastCall(env: Env, slots: seq<Slot>, calls: seq<Call>)
    requires slots != [] && calls != []
    ensures var n := |calls| - 1;
            GivenBefore(env, slots, calls, n + 1).c.h.longest <= MAX_COUNTER
            <==> GivenBefore(env, slots, calls, n).c.h.longest <= MAX_COUNTER && KeepsAt(env, slots, calls, n)
  {
    hide GetBytesAesCtr, KeepsLifetime, Inv, CallSupply, SpendCall;
    var n := |calls| - 1;
    var t := GivenBefore(env, slots, calls, n);
    assert calls[..n + 1] == calls && calls[..n + 1][..n] == calls[..n];
    SetUpKeeps(env, slots);
    RunKeeps(env, State(GivenConfig(slots), 0), calls[..n]);
    CallSpends(env, calls[n].io, t, calls[n].count);
    CallSupplied(env, calls[n].io, t, calls[n].count);
    if t.c.h.longest <= MAX_COUNTER {
      LifetimeKept(env, calls[n].io, t, calls[n].count);
    } else {
      SpendGrows(LifeOf(t.c), |GetBytesAesCtr(env, calls[n].io, t, calls[n].count).out|);
    }
  }

  lemma NoCalls(env: Env, slots: seq<Slot>)
    requires slots != []
    ensures Run(env, State(GivenConfig(slots), 0), []).c.h.longest == 0
  {
  }

  /** Over a whole run from set-up, whatever the hardware does, the documented lifetime is kept exactly
      when every call meets the condition. */
  lemma {:induction false} RunLifetime(env: Env, slots: seq<Slot>, calls: seq<Call>)
    requires slots != []
    ensures Run(env, State(GivenConfig(slots), 0), calls).c.h.longest <= MAX_COUNTER
       <==> forall i: nat :: i < |calls| ==> KeepsAt(env, slots, calls, i)
  {
    hide KeepsLifetime, Run, CallSupply;
    if calls == [] {
      NoCalls(env, slots);
    } else {
      var n := |calls| - 1;
      RunLifetime(env, slots, calls[..n]);
      LastCall(env, slots, calls);
      assert calls[..n + 1] == calls;
      assert forall i: nat :: i < n ==> calls[..n][..i] == calls[..i];
      assert forall i: nat :: i < n ==> (KeepsAt(env, slots, calls[..n], i) <==> KeepsAt(env, slots, calls, i));
    }
  }

  /** A call after set-up keeps the documented lifetime exactly when it serves at most 2 * MAX_COUNTER
      bytes. */
  lemma FirstCallLifetime(env: Env, io: Source, slots: seq<Slot>, pos: nat, count: nat)
    requires slots != []
    ensures var r := GetBytesAesCtr(env, io, State(GivenConfig(slots), pos), count);
            r.s.c.h.longest <= MAX_COUNTER <==> |r.out| <= 2 * MAX_COUNTER
  {
    hide GetBytesAesCtr, Inv;
    SetUpKeeps(env, slots);
    LifetimeKept(env, io, State(GivenConfig(slots), pos), count);
  }

  /** The bound of GivenKeyLifetime is attained: on hardware that never underflows, one call for five
      full buffers makes one key encrypt MAX_COUNTER + MAX_BUFFER_SIZE bytes. */
  lemma LifetimeAttained(env: Env, io: Source, slots: seq<Slot>)
    requires slots != [] && forall n: nat :: env.attempts(n).Some?
    ensures var r := GetBytesAesCtr(env, io, State(GivenConfig(slots), 0), 5 * MAX_BUFFER_SIZE);
            r.ok && |r.s.c.h.epoch.src| == MAX_COUNTER + MAX_BUFFER_SIZE
  {
    hide Blocks;
    SteadySupply(env.attempts, 0, io, 5);
    BlocksSupplied(env, io, State(GivenConfig(slots), 0), 5);
    GivenSchedule(env, io, slots, 0, 5);
  }

  // ---- generated keys, when draws may fail ----

  const ZERO_BLOCK: Block := seq(16, _ => 0)

  /** RAND_bytes yields a key and a nonce for the set-up after d earlier draws. */
  predicate SetsUp(env: Env, d: nat) {
    env.randBlock(d).Some? && env.randBlock(d + 1).Some?
  }

  /** The state such a set-up leaves, after pos attempts. */
  function RandomStart(env: Env, d: nat, pos: nat): (s: State)
    requires SetsUp(env, d)
    ensures WellFormed(s.c) && !s.c.given
  {
    State(GeneratedConfig(env.randBlock(d).value, env.randBlock(d + 1).value, d + 2), pos)
  }

  /** The most data any one key encrypts in a run. */
  function Longest(env: Env, d: nat, pos: nat, calls: seq<Call>): nat
    requires SetsUp(env, d)
  {
    Run(env, RandomStart(env, d, pos), calls).c.h.longest
  }

  ghost predicate NoKeysFrom(env: Env, d: nat) {
    forall n: nat :: n >= d ==> env.randBlock(n).None?
  }

  /** Of t bytes in all no key can have encrypted more than t; and exactly t went under the first key
      if no other could be drawn. */
  ghost predicate Carries(env: Env, d: nat, key: Block, c: Config, t: nat) {
    && !c.given && c.draws >= d && |c.h.epoch.src| <= c.h.longest <= t
    && (NoKeysFrom(env, d) ==> |c.h.epoch.src| == t && c.h.epoch.key == key)
  }

  lemma PieceCarries(env: Env, io: Source, s: State, n: nat, d: nat, key: Block, t: nat)
    requires WellFormed(s.c) && Carries(env, d, key, s.c, t)
    ensures var r := Piece(env, io, s, n); Carries(env, d, key, r.s.c, t + |r.out|)
  {
    hide GetBytes, EncryptUpdate;
  }

  lemma {:induction false} BlocksCarry(env: Env, io: Source, s: State, k: nat, d: nat, key: Block, t: nat)
    requires WellFormed(s.c) && Carries(env, d, key, s.c, t)
    ensures var r := Blocks(env, io, s, k); Carries(env, d, key, r.s.c, t + |r.out|)
  {
    hide Piece, Carries;
    if k == 0 {
    } else {
      BlocksCarry(env, io, s, k - 1, d, key, t);
      var r := Blocks(env, io, s, k - 1);
      if r.ok {
        PieceCarries(env, io, r.s, MAX_BUFFER_SIZE, d, key, t + |r.out|);
      }
    }
  }

  lemma CallCarries(env: Env, io: Source, s: State, count: nat, d: nat, key: Block, t: nat)
    requires WellFormed(s.c) && Carries(env, d, key, s.c, t)
    ensures var r := GetBytesAesCtr(env, io, s, count); Carries(env, d, key, r.s.c, t + |r.out|)
  {
    hide Piece, Blocks, Carries;
    var r := Blocks(env, io, s, count / MAX_BUFFER_SIZE);
    BlocksCarry(env, io, s, count / MAX_BUFFER_SIZE, d, key, t);
    if r.ok {
      PieceCarries(env, io, r.s, count % MAX_BUFFER_SIZE, d, key, t + |r.out|);
    }
  }

  lemma {:induction false} RunCarries(env: Env, d: nat, pos: nat, calls: seq<Call>)
    requires SetsUp(env, d)
    ensures Carries(env, d + 2, env.randBlock(d).value, Run(env, RandomStart(env, d, pos), calls).c,
                    |RunSupply(env.attempts, pos, calls).bytes|)
  {
    hide GetBytesAesCtr, CallSupply;
    var s, key := RandomStart(env, d, pos), env.randBlock(d).value;
    if calls == [] {
    } else {
      hide Carries;
      var n := |calls| - 1;
      var t := Run(env, s, calls[..n]);
      RunCarries(env, d, pos, calls[..n]);
      RunSupplied(env, s, calls[..n]);
      CallCarries(env, calls[n].io, t, calls[n].count, d + 2, key, |RunSupply(env.attempts, pos, calls[..n]).bytes|);
      CallSupplied(env, calls[n].io, t, calls[n].count);
    }
  }

  /** Failed key draws do prolong the life of a key: counter's failure is ignored, so when no key can be
      drawn after set-up the first one encrypts all that any run serves, without bound, whatever the
      timers do. */
  lemma StaleKeyUnbounded(env: Env, d: nat, pos: nat, calls: seq<Call>)
    requires SetsUp(env, d) && NoKeysFrom(env, d + 2)
    ensures var p := Run(env, RandomStart(env, d, pos), calls).c.h.epoch;
            && p.key == env.randBlock(d).value && |p.src| == |RunSupply(env.attempts, pos, calls).bytes|
            && ((forall n: nat :: env.attempts(n).Some?) ==> |p.src| == Sum(calls))
  {
    hide Run, RunSupply, SetsUp;
    RunCarries(env, d, pos, calls);
    if forall n: nat :: env.attempts(n).Some? {
      SteadyRun(env.attempts, pos, calls);
    }
  }

  /** The documented lifetime is kept whatever RAND_bytes does after set-up. */
  ghost predicate AlwaysKept(e: Cipher, a: Attempts, d: nat, pos: nat, calls: seq<Call>) {
    forall env: Env :: env.cipher == e && env.attempts == a && SetsUp(env, d) ==>
      Longest(env, d, pos, calls) <= MAX_COUNTER
  }

  /** With generated keys, on any hardware, the documented lifetime is kept for every outcome of RAND_bytes
      exactly when the whole run serves at most MAX_COUNTER bytes. */
  lemma GeneratedLifetime(e: Cipher, a: Attempts, d: nat, pos: nat, calls: seq<Call>)
    ensures AlwaysKept(e, a, d, pos, calls) <==> |RunSupply(a, pos, calls).bytes| <= MAX_COUNTER
  {
    hide Run, RunSupply, RandomStart;
    forall env: Env | env.cipher == e && env.attempts == a && SetsUp(env, d)
      ensures Longest(env, d, pos, calls) <= |RunSupply(a, pos, calls).bytes|
    {
      RunCarries(env, d, pos, calls);
    }
    var env := Env(e, a, n => if n < d + 2 then Some(ZERO_BLOCK) else None, _ => None);
    assert SetsUp(env, d) && NoKeysFrom(env, d + 2);
    RunCarries(env, d, pos, calls);
    assert Longest(env, d, pos, calls) >= |RunSupply(a, pos, calls).bytes|;
  }

  // ---- generated keys, when no draw fails ----

  /** One buffer of a run: how the source is called, and the bytes charged, drawn and encrypted. */
  datatype Part = Part(io: Source, n: nat)

  function BlockParts(io: Source, k: nat): (ps: seq<Part>)
    ensures forall i :: 0 <= i < |ps| ==> 0 < ps[i].n <= MAX_BUFFER_SIZE
  {
    if k == 0 then [] else BlockParts(io, k - 1) + [Part(io, MAX_BUFFER_SIZE)]
  }

  /** The buffers of one call. */
  function CallParts(call: Call): (ps: seq<Part>)
    ensures forall i :: 0 <= i < |ps| ==> 0 < ps[i].n <= MAX_BUFFER_SIZE
  {
    var tail := call.count % MAX_BUFFER_SIZE;
    BlockParts(call.io, call.count / MAX_BUFFER_SIZE) + if tail == 0 then [] else [Part(call.io, tail)]
  }

  /** The buffers of a run. */
  function Parts(calls: seq<Call>): (ps: seq<Part>)
    ensures forall i :: 0 <= i < |ps| ==> 0 < ps[i].n <= MAX_BUFFER_SIZE
  {
    if calls == [] then [] else Parts(calls[..|calls| - 1]) + CallParts(calls[|calls| - 1])
  }

  function PartSum(ps: seq<Part>): nat {
    if ps == [] then 0 else PartSum(ps[..|ps| - 1]) + ps[|ps| - 1].n
  }

  lemma {:induction false} PartSumAppend(ps: seq<Part>, qs: seq<Part>)
    ensures PartSum(ps + qs) == PartSum(ps) + PartSum(qs)
  {
    if qs == [] {
      assert ps + qs == ps;
    } else {
      assert (ps + qs)[..|ps + qs| - 1] == ps + qs[..|qs| - 1];
      PartSumAppend(ps, qs[..|qs| - 1]);
    }
  }

  lemma {:induction false} BlockPartsSum(io: Source, k: nat)
    ensures PartSum(BlockParts(io, k)) == MAX_BUFFER_SIZE * k
  {
    if k == 0 {
    } else {
      BlockPartsSum(io, k - 1);
      assert BlockParts(io, k)[..|BlockParts(io, k)| - 1] == BlockParts(io, k - 1);
    }
  }

  lemma OnePart(p: Part)
    ensures PartSum([p]) == p.n
  {
    assert [p][..0] == [];
  }

  lemma NoParts()
    ensures PartSum([]) == 0
  {
  }

  lemma {:induction false} PartsSum(calls: seq<Call>)
    ensures PartSum(Parts(calls)) == Sum(calls)
  {
    hide PartSum, BlockParts;
    if calls == [] {
      assert PartSum([]) == 0 by { NoParts(); }
    } else {
      var n := |calls| - 1;
      var tail := calls[n].count % MAX_BUFFER_SIZE;
      var blocks := BlockParts(calls[n].io, calls[n].count / MAX_BUFFER_SIZE);
      PartsSum(calls[..n]);
      PartSumAppend(Parts(calls[..n]), CallParts(calls[n]));
      PartSumAppend(blocks, if tail == 0 then [] else [Part(calls[n].io, tail)]);
      BlockPartsSum(calls[n].io, calls[n].count / MAX_BUFFER_SIZE);
      OnePart(Part(calls[n].io, tail));
      NoParts();
    }
  }

  /** The buffers one after the other. */
  function Play(env: Env, s: State, ps: seq<Part>): (r: State)
    requires WellFormed(s.c)
    ensures WellFormed(r.c) && SameShape(s.c, r.c)
  {
    if ps == [] then s
    else
      var last := ps[|ps| - 1];
      Piece(env, last.io, Play(env, s, ps[..|ps| - 1]), last.n).s
  }

  lemma {:induction false} PlayAppend(env: Env, s: State, ps: seq<Part>, qs: seq<Part>)
    requires WellFormed(s.c)
    ensures Play(env, s, ps + qs) == Play(env, Play(env, s, ps), qs)
  {
    hide Piece;
    if qs == [] {
      assert ps + qs == ps;
    } else {
      assert (ps + qs)[..|ps + qs| - 1] == ps + qs[..|qs| - 1];
      PlayAppend(env, s, ps, qs[..|qs| - 1]);
    }
  }

  lemma {:induction false} BlocksPlay(env: Env, io: Source, s: State, k: nat)
    requires WellFormed(s.c) && forall n: nat :: env.attempts(n).Some?
    ensures Blocks(env, io, s, k).ok && Blocks(env, io, s, k).s == Play(env, s, BlockParts(io, k))
  {
    hide Piece, BlocksSupply;
    if k == 0 {
    } else {
      var ps := BlockParts(io, k);
      BlocksPlay(env, io, s, k - 1);
      assert ps[..|ps| - 1] == BlockParts(io, k - 1);
      SteadySupply(env.attempts, s.pos, io, k);
      BlocksSupplied(env, io, s, k);
    }
  }

  lemma OnePlay(env: Env, s: State, p: Part)
    requires WellFormed(s.c)
    ensures Play(env, s, [p]) == Piece(env, p.io, s, p.n).s && Play(env, s, []) == s
  {
    assert [p][..0] == [];
  }

  /** On hardware that never underflows a run plays all its buffers. */
  lemma {:induction false} RunPlays(env: Env, s: State, calls: seq<Call>)
    requires WellFormed(s.c) && forall n: nat :: env.attempts(n).Some?
    ensures Run(env, s, calls) == Play(env, s, Parts(calls))
  {
    hide Piece, Blocks, BlockParts, Play;
    if calls == [] {
      OnePlay(env, s, Part(Source(0, 0), 0));
    } else {
      var n := |calls| - 1;
      var io, tail := calls[n].io, calls[n].count % MAX_BUFFER_SIZE;
      var t := Run(env, s, calls[..n]);
      var blocks := BlockParts(io, calls[n].count / MAX_BUFFER_SIZE);
      RunPlays(env, s, calls[..n]);
      PlayAppend(env, s, Parts(calls[..n]), CallParts(calls[n]));
      BlocksPlay(env, io, t, calls[n].count / MAX_BUFFER_SIZE);
      PlayAppend(env, t, blocks, if tail == 0 then [] else [Part(io, tail)]);
      OnePlay(env, Play(env, t, blocks), Part(io, tail));
    }
  }

  /** No draw fails. */
  ghost predicate RandomNeverFails(env: Env) {
    forall n: nat :: env.randBlock(n).Some? && env.randTimer(n).Some?
  }

  /** One buffer with a generated key: a buffer that the budget does not cover begins a new key, with the
      third of the three draws as its budget. */
  lemma PieceDraws(env: Env, io: Source, s: State, n: nat)
    requires WellFormed(s.c) && !s.c.given && RandomNeverFails(env)
    requires n <= MAX_BUFFER_SIZE && forall k: nat :: env.attempts(k).Some?
    ensures var r, x := Piece(env, io, s, n).s.c, LifeOf(s.c);
            if x.budget == 0 || x.budget < n then
              r.draws == s.c.draws + 3
              && LifeOf(r) == Life(n, Timer(env.randTimer(s.c.draws + 2).value), Max(x.longest, n))
            else r.draws == s.c.draws && LifeOf(r) == Life(x.used + n, x.budget - n, Max(x.longest, x.used + n))
  {
    hide GetBytes, EncryptUpdate, Timer;
    SteadyFill(env.attempts, s.pos, io.addr, n, io.limit);
  }

  /** The timers that put one part and all behind it under a single key: the largest budget for that
      part, and none for the others. */
  function WindowTimers(d: nat, i: nat): nat -> Option<Uint> {
    n => Some(if n == d + 3 * i + 2 then UINT_MAX else 0)
  }

  ghost predicate Windowed(env: Env, s: State, ps: seq<Part>, i: nat) {
    && WellFormed(s.c) && !s.c.given && s.c.next == 0 && RandomNeverFails(env)
    && (forall k: nat :: env.attempts(k).Some?)
    && env.randTimer == WindowTimers(s.c.draws, i) && i < |ps|
    && (forall j :: 0 <= j < |ps| ==> 0 < ps[j].n <= MAX_BUFFER_SIZE)
    && PartSum(ps[i + 1..]) <= MAX_COUNTER
  }

  /** Before the window every part begins a key of its own. */
  lemma {:induction false} BeforeWindow(env: Env, s: State, ps: seq<Part>, i: nat, m: nat)
    requires Windowed(env, s, ps, i) && m <= i
    ensures var c := Play(env, s, ps[..m]).c; c.next == 0 && c.draws == s.c.draws + 3 * m && !c.given
  {
    hide Piece;
    if m == 0 {
    } else {
      BeforeWindow(env, s, ps, i, m - 1);
      assert ps[..m][..m - 1] == ps[..m - 1];
      PieceDraws(env, ps[m - 1].io, Play(env, s, ps[..m - 1]), ps[m - 1].n);
    }
  }

  lemma SumNext(ps: seq<Part>, k: nat, m: nat)
    requires k < m <= |ps|
    ensures PartSum(ps[k..m]) == PartSum(ps[k..m - 1]) + ps[m - 1].n
  {
    assert ps[k..m] == ps[k..m - 1] + [ps[m - 1]];
    PartSumAppend(ps[k..m - 1], [ps[m - 1]]);
    OnePart(ps[m - 1]);
  }

  lemma SumBound(ps: seq<Part>, k: nat, m: nat)
    requires k <= m <= |ps|
    ensures PartSum(ps[k..m]) <= PartSum(ps[k..])
  {
    assert ps[k..] == ps[k..m] + ps[m..];
    PartSumAppend(ps[k..m], ps[m..]);
  }

  lemma PlayNext(env: Env, s: State, ps: seq<Part>, m: nat)
    requires WellFormed(s.c) && 0 < m <= |ps|
    ensures Play(env, s, ps[..m]) == Piece(env, ps[m - 1].io, Play(env, s, ps[..m - 1]), ps[m - 1].n).s
  {
    assert ps[..m][..m - 1] == ps[..m - 1];
  }

  /** In the window one key encrypts every part. */
  lemma {:induction false} InWindow(env: Env, s: State, ps: seq<Part>, i: nat, m: nat)
    requires Windowed(env, s, ps, i) && i < m <= |ps|
    ensures var x := LifeOf(Play(env, s, ps[..m]).c);
            && x.used == PartSum(ps[i..m]) <= x.longest && x.budget == MAX_COUNTER - PartSum(ps[i + 1..m])
  {
    hide Piece, Play, PartSum;
    var t, p := Play(env, s, ps[..m - 1]), ps[m - 1];
    PlayNext(env, s, ps, m);
    PieceDraws(env, p.io, t, p.n);
    SumNext(ps, i, m);
    NoParts();
    if m == i + 1 {
      BeforeWindow(env, s, ps, i, i);
      assert ps[i..i] == [] && ps[i + 1..m] == [];
    } else {
      InWindow(env, s, ps, i, m - 1);
      SumNext(ps, i + 1, m);
      SumBound(ps, i + 1, m);
    }
  }

  /** The last part from which on there are more than MAX_COUNTER bytes. */
  lemma LastWindow(ps: seq<Part>, k: nat) returns (i: nat)
    requires k <= |ps| && PartSum(ps[k..]) > MAX_COUNTER
    ensures i < |ps| && PartSum(ps[i..]) > MAX_COUNTER && PartSum(ps[i + 1..]) <= MAX_COUNTER
    decreases |ps| - k
  {
    if PartSum(ps[k + 1..]) > MAX_COUNTER {
      i := LastWindow(ps, k + 1);
    } else {
      i := k;
    }
  }

  /** The documented lifetime is kept whatever RAND_bytes yields, as long as it yields something. */
  ghost predicate KeptByRandom(e: Cipher, a: Attempts, d: nat, pos: nat, calls: seq<Call>) {
    forall env: Env :: env.cipher == e && env.attempts == a && RandomNeverFails(env) ==>
      Longest(env, d, pos, calls) <= MAX_COUNTER
  }

  /** A run that asks for more than MAX_COUNTER bytes can put more than that under one key. */
  lemma Outlived(e: Cipher, a: Attempts, d: nat, pos: nat, calls: seq<Call>) returns (env: Env)
    requires (forall k: nat :: a(k).Some?) && Sum(calls) > MAX_COUNTER
    ensures env.cipher == e && env.attempts == a && RandomNeverFails(env) && Longest(env, d, pos, calls) > MAX_COUNTER
  {
    hide Play, Run, Parts, Sum, PartSum;
    var ps := Parts(calls);
    PartsSum(calls);
    assert ps[0..] == ps;
    var i := LastWindow(ps, 0);
    env := Env(e, a, _ => Some(ZERO_BLOCK), WindowTimers(d + 2, i));
    var s := RandomStart(env, d, pos);
    InWindow(env, s, ps, i, |ps|);
    assert ps[i..|ps|] == ps[i..] && ps[..|ps|] == ps;
    RunPlays(env, s, calls);
  }

  /** With generated keys, on hardware that never underflows and when no draw fails, the documented
      lifetime is kept for everything RAND_bytes may yield exactly when the whole run asks for at most
      MAX_COUNTER bytes. */
  lemma GeneratedLifetimeSteady(e: Cipher, a: Attempts, d: nat, pos: nat, calls: seq<Call>)
    requires forall k: nat :: a(k).Some?
    ensures KeptByRandom(e, a, d, pos, calls) <==> Sum(calls) <= MAX_COUNTER
  {
    hide Longest, Run, RunSupply;
    if Sum(calls) <= MAX_COUNTER {
      SteadyRun(a, pos, calls);
      GeneratedLifetime(e, a, d, pos, calls);
    } else {
      var env := Outlived(e, a, d, pos, calls);
    }
  }
}
