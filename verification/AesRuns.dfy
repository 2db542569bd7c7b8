/** Properties of the encrypted byte source over whole runs of calls. */
module AesRuns {
  import opened AesSchedule
  import opened Arith
  import opened CtrStream
  import opened Machine
  import opened MemoryFill

  // ---- what every step keeps ----

  lemma InstalledStreams(env: Env, c: Config)
    requires c.index < |c.slots|
    ensures Streaming(env, Install(c))
  {
    assert CounterBlock(c.slots[c.index].nonce, 0) == c.slots[c.index].nonce;
  }

  /** The bytes about to be encrypted are already charged to the epoch they will join. */
  ghost predicate Reserved(c: Config, num: nat) {
    |c.h.epoch.src| + num <= LIFETIME * c.h.stale + c.h.spent
  }

  lemma GenerateKeeps(env: Env, c: Config)
    requires WellFormed(c) && Streaming(env, c) && !c.given
    ensures var r := KeyGenerate(env, c);
            && Streaming(env, r.c) && r.c.next == c.next && r.c.h.longest == c.h.longest
            && (if r.ok then r.c.h.epoch.src == [] && r.c.h.failed == c.h.failed && r.c.h.stale == 0 && Installed(r.c)
                else r.c.h.epoch.src == c.h.epoch.src && r.c.h.failed == c.h.failed + 1 && r.c.h.stale == c.h.stale + 1)
            && (KeysNeverFail(env) ==> r.ok)
  {
    hide EncryptUpdate, Ctr, CtxAt;
    if env.randBlock(c.draws).Some? && env.randBlock(c.draws + 1).Some? {
      InstalledStreams(env, c.(slots := [Slot(env.randBlock(c.draws).value, env.randBlock(c.draws + 1).value)]));
    }
  }

  lemma CounterKeeps(env: Env, c: Config, num: nat)
    requires Inv(env, c) && num <= MAX_BUFFER_SIZE
    ensures var c' := Counter(env, c, num).c; Inv(env, c') && Reserved(c', num)
  {
    hide EncryptUpdate, Ctr, CtxAt;
    if c.next == 0 || c.next < num {
      if c.given {
        InstalledStreams(env, Rotate(env, c.(index := NextSlot(c))));
      } else {
        GenerateKeeps(env, c);
      }
    }
  }

  lemma EncryptStreams(env: Env, c: Config, src: seq<Byte>)
    requires Streaming(env, c)
    ensures Streaming(env, Encrypt(env, c, src).c)
  {
    hide EncryptUpdate, Ctr, CtxAt;
    var p := c.h.epoch;
    EncryptUpdateIsCtr(env.cipher, p.key, p.iv, |p.src|, src);
    CtrConcat(env.cipher, p.key, p.iv, 0, p.src, src);
  }

  lemma PieceKeeps(env: Env, io: Source, s: State, n: nat)
    requires Inv(env, s.c) && n <= MAX_BUFFER_SIZE
    ensures Inv(env, Piece(env, io, s, n).s.c)
  {
    hide Counter, GetBytes, EncryptUpdate, Ctr, CtxAt;
    CounterKeeps(env, s.c, n);
    var f := GetBytes(env.attempts, s.pos, io.addr, n, io.limit);
    EncryptStreams(env, Counter(env, s.c, n).c, f.head + f.body + f.tail);
  }

  lemma {:induction false} BlocksKeeps(env: Env, io: Source, s: State, k: nat)
    requires Inv(env, s.c)
    ensures Inv(env, Blocks(env, io, s, k).s.c)
  {
    hide Piece, Budgeted, Streaming;
    if k > 0 {
      BlocksKeeps(env, io, s, k - 1);
      var r := Blocks(env, io, s, k - 1);
      if r.ok {
        PieceKeeps(env, io, r.s, MAX_BUFFER_SIZE);
      }
    }
  }

  lemma CallKeeps(env: Env, io: Source, s: State, count: nat)
    requires Inv(env, s.c)
    ensures Inv(env, GetBytesAesCtr(env, io, s, count).s.c)
  {
    hide Piece, Blocks, Budgeted, Streaming;
    BlocksKeeps(env, io, s, count / MAX_BUFFER_SIZE);
    var r := Blocks(env, io, s, count / MAX_BUFFER_SIZE);
    if r.ok {
      PieceKeeps(env, io, r.s, count % MAX_BUFFER_SIZE);
    }
  }

  lemma {:induction false} RunKeeps(env: Env, s: State, calls: seq<Call>)
    requires Inv(env, s.c)
    ensures Inv(env, Run(env, s, calls).c)
  {
    hide GetBytesAesCtr, Budgeted, Streaming;
    if calls != [] {
      var last := calls[|calls| - 1];
      RunKeeps(env, s, calls[..|calls| - 1]);
      CallKeeps(env, last.io, Run(env, s, calls[..|calls| - 1]), last.count);
    }
  }

  lemma SetUpKeeps(env: Env, slots: seq<Slot>)
    requires slots != []
    ensures Inv(env, GivenConfig(slots))
  {
    InstalledStreams(env, GivenConfig(slots));
  }

  lemma RandomSetUpKeeps(env: Env, key: Block, nonce: Block, draws: nat)
    ensures Inv(env, GeneratedConfig(key, nonce, draws))
  {
    InstalledStreams(env, GeneratedConfig(key, nonce, draws));
  }

  // ---- main results ----

  /** With given keys, no run of calls, whatever the hardware does, encrypts more than
      MAX_COUNTER + MAX_BUFFER_SIZE bytes under one installed key. */
  lemma GivenKeyLifetime(env: Env, slots: seq<Slot>, calls: seq<Call>)
    requires slots != []
    ensures Run(env, State(GivenConfig(slots), 0), calls).c.h.longest <= MAX_COUNTER + MAX_BUFFER_SIZE
  {
    hide Run;
    SetUpKeeps(env, slots);
    RunKeeps(env, State(GivenConfig(slots), 0), calls);
  }

  /** With generated keys each failed key draw can prolong the life of a key by that much, and nothing
      else can: a failed timer draw is harmless. If key draws never fail the bound is the same. */
  lemma GeneratedKeyLifetime(env: Env, key: Block, nonce: Block, draws: nat, calls: seq<Call>)
    ensures var h := Run(env, State(GeneratedConfig(key, nonce, draws), 0), calls).c.h;
            h.longest <= LIFETIME * (1 + h.failed) && (KeysNeverFail(env) ==> h.failed == 0)
  {
    hide Run;
    RandomSetUpKeeps(env, key, nonce, draws);
    RunKeeps(env, State(GeneratedConfig(key, nonce, draws), 0), calls);
  }

  /** With generated keys a charge that the budget does not cover installs a new key exactly when both
      draws for it succeed; otherwise the old key stays in use and the failure is counted. */
  lemma KeyInstalled(env: Env, c: Config, num: nat)
    requires WellFormed(c) && !c.given
    ensures var r := Counter(env, c, num).c;
            var due, key, nonce := c.next == 0 || c.next < num, env.randBlock(c.draws), env.randBlock(c.draws + 1);
            if due && key.Some? && nonce.Some? then
              && r.h.epoch == Epoch(key.value, nonce.value, [], []) && r.slots == [Slot(key.value, nonce.value)]
              && r.h.changes == c.h.changes + 1 && r.h.failed == c.h.failed
            else
              && r.h.epoch == c.h.epoch && r.ctx == c.ctx && r.h.changes == c.h.changes
              && r.h.failed == c.h.failed + if due then 1 else 0
  {
  }

  /** Such a charge makes one draw for the timer after those for the key and, if that succeeds, for the
      nonce; the budget becomes 4096 times the timer's share of the largest value, or stays. A key that
      was drawn goes into its slot even if the nonce then fails. A charge that is covered is taken from
      the budget and draws nothing. */
  lemma DrawsMade(env: Env, c: Config, num: nat)
    requires WellFormed(c) && !c.given
    ensures var r := Counter(env, c, num).c;
            var key, nonce := env.randBlock(c.draws), env.randBlock(c.draws + 1);
            var timer := env.randTimer(c.draws + if key.Some? then 2 else 1);
            if c.next != 0 && c.next >= num then r.next == c.next - num && r.draws == c.draws && r.slots == c.slots
            else
              && r.draws == c.draws + (if key.Some? then 3 else 2)
              && r.next == (if timer.Some? then timer.value * 4096 / 0xFFFF_FFFF else c.next)
              && (key.None? ==> r.slots == c.slots)
              && (key.Some? && nonce.None? ==> r.slots == [Slot(key.value, c.slots[0].nonce)])
  {
  }

  /** With given keys a charge that the budget does not cover gives the next slot a budget of 4096 bytes;
      one that is covered is taken from the budget and changes nothing else. */
  lemma GivenCharge(env: Env, c: Config, num: nat)
    requires WellFormed(c) && c.given
    ensures var r := Counter(env, c, num).c;
            if c.next != 0 && c.next >= num then
              && r.next == c.next - num && r.index == c.index && r.slots == c.slots && r.ctx == c.ctx
              && r.h.changes == c.h.changes
            else
              && r.next == 4096 && r.index == (if c.index + 1 == |c.slots| then 0 else c.index + 1)
              && r.h.changes == c.h.changes + 1 && r.draws == c.draws
  {
    hide EncryptUpdate;
    if c.index + 1 == |c.slots| {
      DivModUnique(c.index + 1, |c.slots|, 1, 0);
    } else {
      DivModUnique(c.index + 1, |c.slots|, 0, c.index + 1);
    }
  }

  // ---- one key epoch is one CTR message ----

  /** From s to r no key was installed: the epoch only grew, by `out`. */
  ghost predicate Extends(s: Config, r: Config, out: seq<Byte>) {
    var p, q := s.h.epoch, r.h.epoch;
    && q.key == p.key && q.iv == p.iv && p.src <= q.src && q.out == p.out + out
  }

  lemma PieceExtends(env: Env, io: Source, s: State, n: nat)
    requires WellFormed(s.c)
    ensures var r := Piece(env, io, s, n);
            && r.s.c.h.changes >= s.c.h.changes
            && (r.s.c.h.changes == s.c.h.changes ==> Extends(s.c, r.s.c, r.out))
  {
    hide GetBytes, EncryptUpdate;
  }

  lemma {:induction false} BlocksExtend(env: Env, io: Source, s: State, k: nat)
    requires WellFormed(s.c)
    ensures var r := Blocks(env, io, s, k);
            && r.s.c.h.changes >= s.c.h.changes
            && (r.s.c.h.changes == s.c.h.changes ==> Extends(s.c, r.s.c, r.out))
  {
    hide Piece;
    if k > 0 {
      BlocksExtend(env, io, s, k - 1);
      var r := Blocks(env, io, s, k - 1);
      if r.ok {
        PieceExtends(env, io, r.s, MAX_BUFFER_SIZE);
      }
    }
  }

  lemma CallExtends(env: Env, io: Source, s: State, count: nat)
    requires WellFormed(s.c)
    ensures var r := GetBytesAesCtr(env, io, s, count);
            && r.s.c.h.changes >= s.c.h.changes
            && (r.s.c.h.changes == s.c.h.changes ==> Extends(s.c, r.s.c, r.out))
  {
    hide Piece, Blocks;
    var b := Blocks(env, io, s, count / MAX_BUFFER_SIZE);
    BlocksExtend(env, io, s, count / MAX_BUFFER_SIZE);
    if b.ok {
      PieceExtends(env, io, b.s, count % MAX_BUFFER_SIZE);
    }
  }

  lemma StreamSuffix(env: Env, s: Config, r: Config, out: seq<Byte>)
    requires Streaming(env, s) && Streaming(env, r) && Extends(s, r, out)
    ensures var p := s.h.epoch;
            var drawn := r.h.epoch.src[|p.src|..];
            && out == Ctr(env.cipher, p.key, p.iv, |p.src|, drawn)
            && Ctr(env.cipher, p.key, p.iv, |p.src|, out) == drawn
  {
    hide Ctr, CtxAt;
    var p, q := s.h.epoch, r.h.epoch;
    var drawn := q.src[|p.src|..];
    assert q.src == p.src + drawn;
    CtrConcat(env.cipher, p.key, p.iv, 0, p.src, drawn);
    assert out == q.out[|p.out|..];
    CtrInverts(env.cipher, p.key, p.iv, |p.src|, drawn);
  }

  /** Within one key epoch a call's output, however it was cut into buffers and a tail, is the
      RdRand bytes it drew XOR the next stretch of the epoch's keystream; the same operation
      from the same position gives the RdRand bytes back. */
  lemma CallIsOneStream(env: Env, io: Source, s: State, count: nat)
    requires Inv(env, s.c)
    requires GetBytesAesCtr(env, io, s, count).s.c.h.changes == s.c.h.changes
    ensures var r := GetBytesAesCtr(env, io, s, count);
            var p, q := s.c.h.epoch, r.s.c.h.epoch;
            && q.key == p.key && q.iv == p.iv && p.src <= q.src
            && var drawn := q.src[|p.src|..];
            && r.out == Ctr(env.cipher, p.key, p.iv, |p.src|, drawn)
            && Ctr(env.cipher, p.key, p.iv, |p.src|, r.out) == drawn
  {
    hide GetBytesAesCtr, Budgeted, Streaming, Ctr;
    var r := GetBytesAesCtr(env, io, s, count);
    CallExtends(env, io, s, count);
    CallKeeps(env, io, s, count);
    StreamSuffix(env, s.c, r.s.c, r.out);
  }

  // ---- rotation and counter blocks ----

  /** A change of given keys rewrites the next slot, and only that one, with its encryption under
      the retired key, on the keystream right behind that key's data; the old key and nonce can be
      recovered from it. */
  lemma RotationContinuesStream(env: Env, c: Config)
    requires WellFormed(c) && Streaming(env, c)
    ensures var r := KeysChange(env, c);
            var i := NextSlot(c);
            var p, s, t := c.h.epoch, c.slots[i], r.slots[i];
            && r.index == i && Streaming(env, r) && r.slots == c.slots[i := t]
            && t.key == Ctr(env.cipher, p.key, p.iv, |p.src|, s.key)
            && t.nonce == Ctr(env.cipher, p.key, p.iv, |p.src| + 16, s.nonce)
            && Ctr(env.cipher, p.key, p.iv, |p.src|, t.key) == s.key
            && Ctr(env.cipher, p.key, p.iv, |p.src| + 16, t.nonce) == s.nonce
  {
    hide Ctr, CtxAt, EncryptUpdate;
    var p, s := c.h.epoch, c.slots[NextSlot(c)];
    EncryptUpdateIsCtr(env.cipher, p.key, p.iv, |p.src|, s.key);
    EncryptUpdateIsCtr(env.cipher, p.key, p.iv, |p.src| + 16, s.nonce);
    CtrInverts(env.cipher, p.key, p.iv, |p.src|, s.key);
    CtrInverts(env.cipher, p.key, p.iv, |p.src| + 16, s.nonce);
    InstalledStreams(env, Rotate(env, c.(index := NextSlot(c))));
  }

  lemma {:induction false} Pow256Grows(m: nat, n: nat)
    requires m <= n
    ensures Pow256(m) <= Pow256(n)
  {
    if m < n {
      Pow256Grows(m, n - 1);
    }
  }

  lemma ManyCounters()
    ensures Pow256(16) >= 0x1_0000_0000_0000
  {
    assert Pow256(2) == 0x1_0000;
    assert Pow256(4) == 0x1_0000_0000;
    assert Pow256(6) == 0x1_0000_0000_0000;
    Pow256Grows(6, 16);
  }

  /** The counter blocks the installed key has used, for its data and for a rotation after it, are all
      different, as long as there are as many counters. */
  lemma EpochCountersDistinct(c: Config, i: nat, j: nat)
    requires i < j && 16 * j < |c.h.epoch.src| + 32 <= 16 * Pow256(16)
    ensures CounterBlock(c.h.epoch.iv, i) != CounterBlock(c.h.epoch.iv, j)
  {
    hide CounterBlock, Pow256;
    CounterBlocksDistinct(c.h.epoch.iv, i, j);
  }

  /** There are in every state of a run in which fewer than 2^32 key draws in a row have failed. */
  lemma EnoughCounters(env: Env, c: Config)
    requires Inv(env, c) && c.h.stale < 0x1_0000_0000
    ensures |c.h.epoch.src| + 32 <= 16 * Pow256(16)
  {
    hide Pow256, Streaming, Installed;
    ManyCounters();
  }

  // ---- calls compose ----

  lemma {:induction false} BlocksCompose(env: Env, io: Source, s: State, j: nat, k: nat)
    requires WellFormed(s.c) && Blocks(env, io, s, j).ok
    ensures var a := Blocks(env, io, s, j); var b := Blocks(env, io, a.s, k);
            Blocks(env, io, s, j + k) == Step(a.out + b.out, b.ok, b.s)
  {
    hide Piece;
    if k > 0 {
      BlocksCompose(env, io, s, j, k - 1);
    }
  }

  /** Asking for a bytes and then for b more gives the same bytes, and leaves the same state, as
      asking for a + b at once, when a is a whole number of buffers and the first call is
      served in full. The second part may fall short. */
  lemma CallsCompose(env: Env, io: Source, s: State, a: nat, b: nat)
    requires WellFormed(s.c) && a % MAX_BUFFER_SIZE == 0
    requires GetBytesAesCtr(env, io, s, a).ok
    ensures var first := GetBytesAesCtr(env, io, s, a);
            var second := GetBytesAesCtr(env, io, first.s, b);
            GetBytesAesCtr(env, io, s, a + b) == Step(first.out + second.out, second.ok, second.s)
  {
    hide Piece;
    var j, k := a / MAX_BUFFER_SIZE, b / MAX_BUFFER_SIZE;
    assert (a + b) / MAX_BUFFER_SIZE == j + k && (a + b) % MAX_BUFFER_SIZE == b % MAX_BUFFER_SIZE;
    BlocksCompose(env, io, s, j, k);
    hide Blocks;
  }

  // ---- the schedule of given keys in closed form ----

  /** How many of the key changes 1..k land on slot i of `amount`: change j lands on j % amount. */
  function Visits(i: nat, k: nat, amount: nat): (n: nat)
    requires amount > 0
  {
    if k == 0 then 0 else Visits(i, k - 1, amount) + (if k % amount == i then 1 else 0)
  }

  lemma ShiftedMultiple(i: nat, k: nat, amount: nat)
    requires 0 < i < amount
    ensures (k + amount - i) % amount == 0 <==> k % amount == i
  {
    var q, r := k / amount, k % amount;
    if r >= i {
      assert (q + 1) * amount == q * amount + amount;
      DivModUnique(k + amount - i, amount, q + 1, r - i);
    } else {
      DivModUnique(k + amount - i, amount, q, r + amount - i);
    }
  }

  lemma {:induction false} VisitsClosedForm(i: nat, k: nat, amount: nat)
    requires i < amount
    ensures Visits(i, k, amount) == if i == 0 then k / amount else (k + amount - i) / amount
  {
    if k == 0 {
      DivModUnique(0, amount, 0, 0);
      DivModUnique(amount - i, amount, if i == 0 then 1 else 0, if i == 0 then 0 else amount - i);
    } else {
      VisitsClosedForm(i, k - 1, amount);
      DivSucc(k - 1, amount);
      if i > 0 {
        DivSucc(k - 1 + amount - i, amount);
        ShiftedMultiple(i, k, amount);
      }
    }
  }

  /** The state of the schedule after m full buffers. */
  ghost predicate Scheduled(c: Config, amount: nat, m: nat)
    requires amount > 0
  {
    && c.given && |c.slots| == amount == |c.h.rotations|
    && c.h.changes == m / 3 && c.index == (m / 3) % amount
    && c.next == MAX_BUFFER_SIZE * (2 - m % 3)
    && (forall i :: 0 <= i < amount ==> c.h.rotations[i] == Visits(i, m / 3, amount))
    && |c.h.epoch.src| == MAX_BUFFER_SIZE * (if m < 3 then m else m % 3 + 1)
  }

  lemma NextIndex(k: nat, amount: nat)
    requires amount > 0
    ensures (k % amount + 1) % amount == (k + 1) % amount
  {
    DivSucc(k, amount);
    if k % amount == amount - 1 {
      DivModUnique(amount, amount, 1, 0);
    }
  }

  lemma PieceSchedules(env: Env, io: Source, s: State, amount: nat, m: nat)
    requires WellFormed(s.c) && amount > 0 && Scheduled(s.c, amount, m)
    requires Piece(env, io, s, MAX_BUFFER_SIZE).ok
    ensures Scheduled(Piece(env, io, s, MAX_BUFFER_SIZE).s.c, amount, m + 1)
  {
    hide GetBytes, EncryptUpdate;
    if m % 3 == 2 {
      assert (m + 1) / 3 == m / 3 + 1 && (m + 1) % 3 == 0;
      DivSucc(m / 3, amount);
      NextIndex(m / 3, amount);
    } else {
      assert (m + 1) / 3 == m / 3 && (m + 1) % 3 == m % 3 + 1;
    }
  }

  /** With `amount` given keys, after m full buffers the key has changed exactly m / 3 times, slot
      (m / 3) % amount is in use, and every slot has been rewritten once per visit; the key in
      use has encrypted one buffer more than its budget of two accounts for, except the first. */
  lemma {:induction false} GivenSchedule(env: Env, io: Source, slots: seq<Slot>, pos: nat, m: nat)
    requires slots != []
    requires Blocks(env, io, State(GivenConfig(slots), pos), m).ok
    ensures Scheduled(Blocks(env, io, State(GivenConfig(slots), pos), m).s.c, |slots|, m)
  {
    hide Piece;
    if m == 0 {
      DivModUnique(0, |slots|, 0, 0);
    } else {
      GivenSchedule(env, io, slots, pos, m - 1);
      PieceSchedules(env, io, Blocks(env, io, State(GivenConfig(slots), pos), m - 1).s, |slots|, m - 1);
    }
  }
}
