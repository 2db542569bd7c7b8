/** Decryption of rdrand_get_bytes_aes_ctr output (src/librdrand-aes.c): a receiver who charges the same
    budgets and changes the same keys gets back every byte the hardware supplied, across key changes. */
module AesReceiver {
  import opened AesSchedule
  import opened AesSupply
  import opened CtrStream
  import opened Machine
  import opened MemoryFill

  // ---- the cipher does not look at the data ----

  lemma FeedInverts(e: Cipher, ctx: Ctx, sent: seq<Byte>, back: seq<Byte>, b: Byte)
    ensures var u := Feed(e, Update(sent, ctx), b);
            && u.bytes[..|sent|] == sent
            && Feed(e, Update(back, ctx), u.bytes[|sent|]) == Update(back + [b], u.ctx)
  {
    hide Refill;
    XorTwice(b, Refill(e, ctx).pad[0]);
  }

  /** Feeding the output to a context in the same state gives the input back, and leaves the same state. */
  lemma {:induction false} UpdateInverts(e: Cipher, c: Ctx, src: seq<Byte>)
    ensures var u := EncryptUpdate(e, c, src);
            EncryptUpdate(e, c, u.bytes) == Update(src, u.ctx)
  {
    if src == [] {
    } else {
      hide Feed;
      var n := |src| - 1;
      var u := EncryptUpdate(e, c, src[..n]);
      UpdateInverts(e, c, src[..n]);
      FeedInverts(e, u.ctx, u.bytes, src[..n], src[n]);
      assert src[..n] + [src[n]] == src;
    }
  }

  /** Both sides have the same keys, budget and cipher context. */
  ghost predicate Agree(c: Config, d: Config) {
    && c.slots == d.slots && c.index == d.index && c.next == d.next && c.given == d.given
    && c.ctx == d.ctx && c.draws == d.draws
  }

  /** The receiver has the same cipher, and with generated keys knows what was drawn for them. */
  ghost predicate Knows(r: Env, env: Env, given: bool) {
    r.cipher == env.cipher && (given || (r.randBlock == env.randBlock && r.randTimer == env.randTimer))
  }

  lemma CounterAgrees(env: Env, r: Env, c: Config, d: Config, num: nat)
    requires WellFormed(c) && WellFormed(d) && Agree(c, d) && Knows(r, env, c.given)
    ensures Agree(Counter(env, c, num).c, Counter(r, d, num).c)
  {
    hide EncryptUpdate;
  }

  lemma EncryptAgrees(env: Env, r: Env, c: Config, d: Config, src: seq<Byte>)
    requires Agree(c, d) && r.cipher == env.cipher
    ensures var u := Encrypt(env, c, src); var v := Encrypt(r, d, u.bytes);
            v.bytes == src && Agree(u.c, v.c)
  {
    hide EncryptUpdate;
    UpdateInverts(env.cipher, c.ctx, src);
  }

  // ---- the receiver ----

  /** What has been decrypted, whether the call goes on, and the receiver's configuration. */
  datatype Received = Received(bytes: seq<Byte>, more: bool, c: Config)

  /** A buffer of n bytes: it is charged even if it was not served. */
  function ReceivePiece(r: Env, d: Config, n: nat, out: seq<Byte>): (v: Received)
    requires WellFormed(d)
    ensures WellFormed(v.c) && SameShape(d, v.c)
  {
    var c := Counter(r, d, n).c;
    if |out| < n then Received([], false, c)
    else
      var e := Encrypt(r, c, out[..n]);
      Received(e.bytes, true, e.c)
  }

  function ReceiveBlocks(r: Env, d: Config, k: nat, out: seq<Byte>): (v: Received)
    requires WellFormed(d)
    ensures WellFormed(v.c) && SameShape(d, v.c) && (v.more ==> |out| >= MAX_BUFFER_SIZE * k)
  {
    if k == 0 then Received([], true, d)
    else
      var v := ReceiveBlocks(r, d, k - 1, out);
      if !v.more then v
      else
        var p := ReceivePiece(r, v.c, MAX_BUFFER_SIZE, out[MAX_BUFFER_SIZE * (k - 1)..]);
        Received(v.bytes + p.bytes, p.more, p.c)
  }

  /** The output of one call that asked for count bytes. */
  function Receive(r: Env, d: Config, count: nat, out: seq<Byte>): (v: Received)
    requires WellFormed(d)
    ensures WellFormed(v.c) && SameShape(d, v.c)
  {
    var b := count / MAX_BUFFER_SIZE;
    var v := ReceiveBlocks(r, d, b, out);
    if !v.more || count % MAX_BUFFER_SIZE == 0 then v
    else
      var p := ReceivePiece(r, v.c, count % MAX_BUFFER_SIZE, out[MAX_BUFFER_SIZE * b..]);
      Received(v.bytes + p.bytes, p.more, p.c)
  }

  /** The outputs of a run that asked for the given counts. */
  function ReceiveRun(r: Env, d: Config, counts: seq<nat>, outs: seq<seq<Byte>>): (v: Received)
    requires WellFormed(d) && |counts| == |outs|
    ensures WellFormed(v.c) && SameShape(d, v.c)
  {
    if counts == [] then Received([], true, d)
    else
      var n := |counts| - 1;
      var v := ReceiveRun(r, d, counts[..n], outs[..n]);
      var w := Receive(r, v.c, counts[n], outs[n]);
      Received(v.bytes + w.bytes, true, w.c)
  }

  // ---- what was sent ----

  function Counts(calls: seq<Call>): (counts: seq<nat>)
    ensures |counts| == |calls|
  {
    if calls == [] then [] else Counts(calls[..|calls| - 1]) + [calls[|calls| - 1].count]
  }

  /** The outputs of the calls of a run. */
  function Outs(env: Env, s: State, calls: seq<Call>): (outs: seq<seq<Byte>>)
    requires WellFormed(s.c)
    ensures |outs| == |calls|
  {
    if calls == [] then []
    else
      var n := |calls| - 1;
      Outs(env, s, calls[..n]) + [GetBytesAesCtr(env, calls[n].io, Run(env, s, calls[..n]), calls[n].count).out]
  }

  // ---- round trip ----

  lemma PieceReceived(env: Env, r: Env, io: Source, s: State, d: Config, n: nat, rest: seq<Byte>)
    requires WellFormed(s.c) && WellFormed(d) && Agree(s.c, d) && Knows(r, env, s.c.given) && n > 0
    requires var p := Piece(env, io, s, n); p.out <= rest && (!p.ok ==> |rest| < n)
    ensures var p := Piece(env, io, s, n); var v := ReceivePiece(r, d, n, rest);
            && v.bytes == PieceSupply(env.attempts, s.pos, io, n).bytes && v.more == p.ok && Agree(p.s.c, v.c)
  {
    hide Counter, Encrypt, GetBytes, Agree;
    var p := Piece(env, io, s, n);
    CounterAgrees(env, r, s.c, d, n);
    if p.ok {
      assert rest[..n] == p.out;
      EncryptAgrees(env, r, Counter(env, s.c, n).c, Counter(r, d, n).c, PieceSupply(env.attempts, s.pos, io, n).bytes);
    }
  }

  /** `out` is the output of the whole call: more than that of its full buffers only if all were served. */
  lemma {:induction false} BlocksReceived(env: Env, r: Env, io: Source, s: State, d: Config, k: nat, out: seq<Byte>)
    requires WellFormed(s.c) && WellFormed(d) && Agree(s.c, d) && Knows(r, env, s.c.given)
    requires var b := Blocks(env, io, s, k); b.out <= out && (!b.ok ==> out == b.out)
    ensures var b := Blocks(env, io, s, k); var v := ReceiveBlocks(r, d, k, out);
            && v.bytes == BlocksSupply(env.attempts, s.pos, io, k).bytes && v.more == b.ok && Agree(b.s.c, v.c)
  {
    hide Piece, PieceSupply, ReceivePiece, Agree, Knows;
    if k == 0 {
    } else {
      var b := Blocks(env, io, s, k - 1);
      BlocksSupplied(env, io, s, k - 1);
      BlocksReceived(env, r, io, s, d, k - 1, out);
      if b.ok {
        var p := Piece(env, io, b.s, MAX_BUFFER_SIZE);
        var rest := out[|b.out|..];
        assert out == b.out + rest && p.out <= rest;
        PieceReceived(env, r, io, b.s, ReceiveBlocks(r, d, k - 1, out).c, MAX_BUFFER_SIZE, rest);
      }
    }
  }

  /** One call: the receiver recovers what the hardware supplied, and stays in step. */
  lemma CallReceived(env: Env, r: Env, io: Source, s: State, d: Config, count: nat)
    requires WellFormed(s.c) && WellFormed(d) && Agree(s.c, d) && Knows(r, env, s.c.given)
    ensures var g := GetBytesAesCtr(env, io, s, count); var v := Receive(r, d, count, g.out);
            && v.bytes == CallSupply(env.attempts, s.pos, io, count).bytes && Agree(g.s.c, v.c)
  {
    hide Piece, PieceSupply, ReceivePiece, Blocks, BlocksSupply, ReceiveBlocks, Agree, Knows;
    var k, tail := count / MAX_BUFFER_SIZE, count % MAX_BUFFER_SIZE;
    var b, out := Blocks(env, io, s, k), GetBytesAesCtr(env, io, s, count).out;
    BlocksSupplied(env, io, s, k);
    BlocksReceived(env, r, io, s, d, k, out);
    if b.ok && tail != 0 {
      var p := Piece(env, io, b.s, tail);
      assert out[|b.out|..] == p.out;
      PieceReceived(env, r, io, b.s, ReceiveBlocks(r, d, k, out).c, tail, p.out);
    }
  }

  /** Whole runs, across all key changes: from the counts asked for and the outputs, a receiver who
      starts with the same keys recovers every byte the hardware supplied, in order. */
  lemma {:induction false} RunReceived(env: Env, r: Env, s: State, d: Config, calls: seq<Call>)
    requires WellFormed(s.c) && WellFormed(d) && Agree(s.c, d) && Knows(r, env, s.c.given)
    ensures var v := ReceiveRun(r, d, Counts(calls), Outs(env, s, calls));
            && v.bytes == RunSupply(env.attempts, s.pos, calls).bytes && Agree(Run(env, s, calls).c, v.c)
  {
    hide GetBytesAesCtr, CallSupply, Receive, Agree, Knows;
    if calls == [] {
    } else {
      var n := |calls| - 1;
      var t := Run(env, s, calls[..n]);
      assert Counts(calls)[..n] == Counts(calls[..n]) && Outs(env, s, calls)[..n] == Outs(env, s, calls[..n]);
      RunReceived(env, r, s, d, calls[..n]);
      RunSupplied(env, s, calls[..n]);
      var u := ReceiveRun(r, d, Counts(calls[..n]), Outs(env, s, calls[..n])).c;
      CallReceived(env, r, calls[n].io, t, u, calls[n].count);
    }
  }

  /** With given keys the receiver needs the initial slots and the block cipher, and nothing else. */
  lemma GivenRunReceived(env: Env, r: Env, slots: seq<Slot>, pos: nat, calls: seq<Call>)
    requires slots != [] && r.cipher == env.cipher
    ensures var s := State(GivenConfig(slots), pos);
            ReceiveRun(r, GivenConfig(slots), Counts(calls), Outs(env, s, calls)).bytes
            == RunSupply(env.attempts, pos, calls).bytes
  {
    hide ReceiveRun, RunSupply, Outs, Run;
    RunReceived(env, r, State(GivenConfig(slots), pos), GivenConfig(slots), calls);
  }
}
