/** What the hardware supplies to rdrand_get_bytes_aes_ctr (src/librdrand-aes.c): the bytes drawn, and
    whether the call is served, depend on the RDRAND attempts alone, not on keys or RAND_bytes. */
module AesSupply {
  import opened AesSchedule
  import opened Machine
  import opened MemoryFill
  import opened Retry

  /** The bytes drawn and to be encrypted, whether all that was asked for, and the attempts made. */
  datatype Supply = Supply(bytes: seq<Byte>, ok: bool, pos: nat)

  function PieceSupply(a: Attempts, pos: nat, io: Source, n: nat): (r: Supply)
    ensures |r.bytes| == if r.ok then n else 0
  {
    var f := GetBytes(a, pos, io.addr, n, io.limit);
    if Generated(f) != n then Supply([], false, f.pos) else Supply(f.head + f.body + f.tail, true, f.pos)
  }

  /** A buffer that is supplied holds the successive words of its attempts, as a memory fill leaves them. */
  lemma SupplyIsFresh(a: Attempts, pos: nat, io: Source, n: nat)
    requires PieceSupply(a, pos, io, n).ok
    ensures var r := PieceSupply(a, pos, io, n); FreshBytes(r.bytes, a, pos, r.pos, io.addr, n)
  {
    hide GetBytes, FreshBytes;
    FillIsFresh(a, pos, io.addr, n, io.limit);
  }

  function BlocksSupply(a: Attempts, pos: nat, io: Source, k: nat): (r: Supply)
    ensures |r.bytes| <= MAX_BUFFER_SIZE * k && (r.ok ==> |r.bytes| == MAX_BUFFER_SIZE * k)
  {
    if k == 0 then Supply([], true, pos)
    else
      var r := BlocksSupply(a, pos, io, k - 1);
      if !r.ok then r
      else
        var p := PieceSupply(a, r.pos, io, MAX_BUFFER_SIZE);
        Supply(r.bytes + p.bytes, p.ok, p.pos)
  }

  /** What one call for count bytes is supplied with. */
  function CallSupply(a: Attempts, pos: nat, io: Source, count: nat): (r: Supply)
    ensures |r.bytes| <= count && (r.ok <==> |r.bytes| == count)
  {
    var r := BlocksSupply(a, pos, io, count / MAX_BUFFER_SIZE);
    var tail := count % MAX_BUFFER_SIZE;
    if !r.ok || tail == 0 then r
    else
      var p := PieceSupply(a, r.pos, io, tail);
      Supply(r.bytes + p.bytes, p.ok, p.pos)
  }

  /** What a run of calls is supplied with; ok tells that every call was served in full. */
  function RunSupply(a: Attempts, pos: nat, calls: seq<Call>): Supply {
    if calls == [] then Supply([], true, pos)
    else
      var last := calls[|calls| - 1];
      var r := RunSupply(a, pos, calls[..|calls| - 1]);
      var c := CallSupply(a, r.pos, last.io, last.count);
      Supply(r.bytes + c.bytes, r.ok && c.ok, c.pos)
  }

  /** The step gives out as many bytes as were supplied, and makes the same attempts. */
  ghost predicate Supplied(r: Step, u: Supply) {
    |r.out| == |u.bytes| && r.ok == u.ok && r.s.pos == u.pos
  }

  lemma PieceSupplied(env: Env, io: Source, s: State, n: nat)
    requires WellFormed(s.c)
    ensures Supplied(Piece(env, io, s, n), PieceSupply(env.attempts, s.pos, io, n))
  {
    hide Counter, Encrypt, GetBytes;
  }

  lemma {:induction false} BlocksSupplied(env: Env, io: Source, s: State, k: nat)
    requires WellFormed(s.c)
    ensures Supplied(Blocks(env, io, s, k), BlocksSupply(env.attempts, s.pos, io, k))
  {
    hide Piece, PieceSupply;
    if k == 0 {
    } else {
      BlocksSupplied(env, io, s, k - 1);
      var r := Blocks(env, io, s, k - 1);
      if r.ok {
        PieceSupplied(env, io, r.s, MAX_BUFFER_SIZE);
      }
    }
  }

  lemma CallSupplied(env: Env, io: Source, s: State, count: nat)
    requires WellFormed(s.c)
    ensures Supplied(GetBytesAesCtr(env, io, s, count), CallSupply(env.attempts, s.pos, io, count))
  {
    hide Piece, PieceSupply, Blocks, BlocksSupply;
    BlocksSupplied(env, io, s, count / MAX_BUFFER_SIZE);
    var r := Blocks(env, io, s, count / MAX_BUFFER_SIZE);
    if r.ok {
      PieceSupplied(env, io, r.s, count % MAX_BUFFER_SIZE);
    }
  }

  /** The attempts of a run do not depend on the keys. */
  lemma {:induction false} RunSupplied(env: Env, s: State, calls: seq<Call>)
    requires WellFormed(s.c)
    ensures Run(env, s, calls).pos == RunSupply(env.attempts, s.pos, calls).pos
  {
    hide GetBytesAesCtr, CallSupply;
    if calls == [] {
    } else {
      var n := |calls| - 1;
      RunSupplied(env, s, calls[..n]);
      CallSupplied(env, calls[n].io, Run(env, s, calls[..n]), calls[n].count);
    }
  }

  // ---- when a call is served in full ----

  lemma {:induction false} BlocksStretch(a: Attempts, pos: nat, io: Source, k: nat)
    ensures var r := BlocksSupply(a, pos, io, k); Stretch(a, pos, r.pos, Tries(io.limit), r.ok)
  {
    hide Stretch, GetBytes;
    if k == 0 {
      EmptyStretch(a, pos, Tries(io.limit));
    } else {
      BlocksStretch(a, pos, io, k - 1);
      var r := BlocksSupply(a, pos, io, k - 1);
      if r.ok {
        var p := PieceSupply(a, r.pos, io, MAX_BUFFER_SIZE);
        FillComplete(a, r.pos, io.addr, MAX_BUFFER_SIZE, io.limit);
        StretchJoin(a, pos, r.pos, p.pos, Tries(io.limit), true, p.ok);
      }
    }
  }

  /** A call is served in full exactly when the hardware does not underflow limit times in a row in it. */
  lemma CallServed(env: Env, io: Source, s: State, count: nat)
    requires WellFormed(s.c)
    ensures var r := GetBytesAesCtr(env, io, s, count);
            |r.out| == count <==> !HasFailRun(env.attempts, s.pos, r.s.pos, Tries(io.limit))
  {
    hide GetBytesAesCtr, GetBytes, BlocksSupply;
    var a, pos, tail := env.attempts, s.pos, count % MAX_BUFFER_SIZE;
    CallSupplied(env, io, s, count);
    var r := BlocksSupply(a, pos, io, count / MAX_BUFFER_SIZE);
    BlocksStretch(a, pos, io, count / MAX_BUFFER_SIZE);
    if r.ok && tail != 0 {
      var p := PieceSupply(a, r.pos, io, tail);
      FillComplete(a, r.pos, io.addr, tail, io.limit);
      StretchJoin(a, pos, r.pos, p.pos, Tries(io.limit), true, p.ok);
    }
  }

  /** Hardware that never underflows serves every run in full. */
  lemma SteadyPiece(a: Attempts, pos: nat, io: Source, n: nat)
    requires n < UINT_RANGE && forall k: nat :: a(k).Some?
    ensures PieceSupply(a, pos, io, n).ok
  {
    hide GetBytes;
    SteadyFill(a, pos, io.addr, n, io.limit);
  }

  lemma {:induction false} SteadySupply(a: Attempts, pos: nat, io: Source, k: nat)
    requires forall n: nat :: a(n).Some?
    ensures BlocksSupply(a, pos, io, k).ok
  {
    hide PieceSupply;
    if k == 0 {
    } else {
      SteadySupply(a, pos, io, k - 1);
      SteadyPiece(a, BlocksSupply(a, pos, io, k - 1).pos, io, MAX_BUFFER_SIZE);
    }
  }

  /** The bytes asked for by a run. */
  function Sum(calls: seq<Call>): nat {
    if calls == [] then 0 else Sum(calls[..|calls| - 1]) + calls[|calls| - 1].count
  }

  lemma {:induction false} SteadyRun(a: Attempts, pos: nat, calls: seq<Call>)
    requires forall n: nat :: a(n).Some?
    ensures var r := RunSupply(a, pos, calls); r.ok && |r.bytes| == Sum(calls)
  {
    hide PieceSupply, BlocksSupply;
    if calls == [] {
    } else {
      var n := |calls| - 1;
      SteadyRun(a, pos, calls[..n]);
      var mid := RunSupply(a, pos, calls[..n]).pos;
      var b := BlocksSupply(a, mid, calls[n].io, calls[n].count / MAX_BUFFER_SIZE);
      SteadySupply(a, mid, calls[n].io, calls[n].count / MAX_BUFFER_SIZE);
      SteadyPiece(a, b.pos, calls[n].io, calls[n].count % MAX_BUFFER_SIZE);
    }
  }
}
