/** The global AES_CFG (src/librdrand-aes.c): key and nonce buffers rewritten in place through
    the pointers to the current ones. Every method is proved against AesSchedule. */
module AesConfig {
  import opened Machine
  import opened Retry
  import opened MemoryFill
  import opened CtrStream
  import opened AesSchedule
  import opened AesEncBuffer

  type Buffer = array<Byte>

  const KEY_LEN: nat := 16
  const MIN_KEY_LENGTH: bv64 := 4
  const MAX_KEY_LENGTH: bv64 := 32

  function Zeros(n: nat): (s: seq<Byte>)
    ensures |s| == n && forall k :: 0 <= k < n ==> s[k] == 0
  {
    seq(n, _ => 0)
  }

  /** x && (x & (x - 1)) == 0 */
  predicate IsPowerOfTwo(x: bv64) {
    x != 0 && x & (x - 1) == 0
  }

  /** Of the lengths the limits let through, 8 and 16 are the powers of two. */
  lemma AllowedKeyLengths(x: bv64)
    ensures MIN_KEY_LENGTH < x < MAX_KEY_LENGTH && IsPowerOfTwo(x) <==> x == 8 || x == 16
  {
  }

  /** memcpy over a whole buffer. */
  method Overwrite(b: Buffer, s: seq<Byte>)
    requires |s| == b.Length
    modifies b
    ensures b[..] == s
  {
    forall k | 0 <= k < |s| {
      b[k] := s[k];
    }
  }

  /** One key and one nonce buffer of the given length per slot, no two of them the same. */
  ghost predicate Separate(ks: seq<Buffer>, ns: seq<Buffer>, length: nat) {
    && |ks| == |ns|
    && (forall i :: 0 <= i < |ks| ==> ks[i].Length == ns[i].Length == length)
    && (forall i, j :: 0 <= i < j < |ks| ==> ks[i] != ks[j] && ns[i] != ns[j])
    && (forall i, j :: 0 <= i < |ks| && 0 <= j < |ns| ==> ks[i] != ns[j])
  }

  lemma SeparateAppend(ks: seq<Buffer>, ns: seq<Buffer>, length: nat, k: Buffer, n: Buffer)
    requires Separate(ks, ns, length) && k.Length == n.Length == length
    requires k != n && k !in ks && k !in ns && n !in ks && n !in ns
    ensures Separate(ks + [k], ns + [n], length)
  {
  }

  lemma SeparateLengths(ks: seq<Buffer>, ns: seq<Buffer>, length: nat)
    requires Separate(ks, ns, length)
    ensures |ks| == |ns|
    ensures forall i :: 0 <= i < |ks| ==> ks[i].Length == ns[i].Length == length
  {
  }

  /** The slots made of n given keys and half-length nonces, the nonces padded with zeros. */
  function SlotsOf(ks: seq<seq<Byte>>, ns: seq<seq<Byte>>, n: nat): (s: seq<Slot>)
    requires n <= |ks| && n <= |ns|
    requires forall i :: 0 <= i < n ==> |ks[i]| >= KEY_LEN && |ns[i]| >= KEY_LEN / 2
    ensures |s| == n
  {
    seq(n, i requires 0 <= i < n => Slot(ks[i][..KEY_LEN], ns[i][..KEY_LEN / 2] + Zeros(KEY_LEN / 2)))
  }

  /** Key and nonce of slot 0, then of slot 1, and so on. */
  ghost function FreeOrder(ks: seq<Buffer>, ns: seq<Buffer>, n: nat): seq<Buffer>
    requires n <= |ks| == |ns|
  {
    if n == 0 then [] else FreeOrder(ks, ns, n - 1) + [ks[n - 1], ns[n - 1]]
  }

  lemma FreeOrderNext(ks: seq<Buffer>, ns: seq<Buffer>, n: nat)
    requires n < |ks| == |ns|
    ensures FreeOrder(ks, ns, n + 1) == FreeOrder(ks, ns, n) + [ks[n]] + [ns[n]]
  {
  }

  /** One slot of zeros. */
  ghost function BlankConfig(ctx: Ctx, draws: nat): Config {
    Config([Slot(Zeros(16), Zeros(16))], 0, 0, false, ctx, draws, NewHistory(1, 0, Epoch(Zeros(16), Zeros(16), [], [])))
  }

  /** The first key_generate call, on the blank slot. */
  lemma GenerateFromBlank(env: Env, c: Config, ctx: Ctx, draws: nat)
    requires c == BlankConfig(ctx, draws)
    ensures WellFormed(c) && !c.given
    ensures var r := AesSchedule.KeyGenerate(env, c);
            var k, n := env.randBlock(draws), env.randBlock(draws + 1);
            && (r.ok <==> k.Some? && n.Some?)
            && (r.ok ==> r.c.(h := r.c.h.(changes := 0)) == GeneratedConfig(k.value, n.value, draws + 2))
  {
  }

  lemma {:induction false} BlocksStuck(env: Env, io: Source, s: State, j: nat, k: nat)
    requires WellFormed(s.c) && j <= k && !Blocks(env, io, s, j).ok
    ensures Blocks(env, io, s, k) == Blocks(env, io, s, j)
  {
    hide Piece;
    if j < k {
      BlocksStuck(env, io, s, j, k - 1);
    }
  }

  /** What AES_CFG.en points to: nothing yet, a cipher context, or one that has been freed. */
  datatype Handle = NoContext | LiveContext | FreedContext

  ghost predicate AllZero(bs: seq<Buffer>)
    reads bs
  {
    forall b :: b in bs ==> b[..] == Zeros(b.Length)
  }

  class Aes {
    const env: Env
    var amount: nat
    var keyLength: nat
    var index: nat
    var nextCounter: nat
    var given: bool
    var keys: seq<Buffer>
    var nonces: seq<Buffer>
    var keyCurrent: array?<Byte>
    var nonceCurrent: array?<Byte>
    var en: Ctx
    var draws: nat
    ghost var h: History
    ghost var slots: seq<Slot>
    // Buffers allocated and not yet freed, and the buffers freed so far, in order.
    ghost var live: set<Buffer>
    ghost var freed: seq<Buffer>
    ghost var handle: Handle

    ghost function Footprint(): set<Buffer>
      reads this`keys, this`nonces
    {
      (set b | b in keys) + (set b | b in nonces)
    }

    /** The memory is in order: one live buffer per key and per nonce, no two the same. */
    ghost predicate Held()
      reads this`keys, this`nonces, this`amount, this`keyLength, this`index, this`live, this`keyCurrent,
            this`nonceCurrent
    {
      && |keys| == |nonces| == amount && Separate(keys, nonces, keyLength)
      && (forall b :: b in keys ==> b in live) && (forall b :: b in nonces ==> b in live)
      && (amount == 0 ==> keyCurrent == null && nonceCurrent == null && index == 0)
    }

    /** The current pointers are the buffers of slot `index`. */
    ghost predicate Allocated()
      reads this`keys, this`nonces, this`amount, this`keyLength, this`index, this`live, this`keyCurrent,
            this`nonceCurrent
    {
      Held() && index < amount && keyCurrent == keys[index] && nonceCurrent == nonces[index]
    }

    /** The buffers hold the slots s. */
    ghost predicate Holds(s: seq<Slot>)
      reads this`keys, this`nonces, Footprint()
    {
      && |keys| == |nonces| == |s|
      && forall i :: 0 <= i < |s| ==> keys[i][..] == s[i].key && nonces[i][..] == s[i].nonce
    }

    /** The ghost slots are the contents of the buffers. */
    ghost predicate Stored()
      reads this`keys, this`nonces, this`slots, Footprint()
    {
      Holds(slots)
    }

    ghost predicate Valid()
      reads this, Footprint()
    {
      Allocated() && keyLength == KEY_LEN && Stored() && WellFormed(View()) && |slots| == amount
    }

    ghost function View(): Config
      reads this
    {
      Config(slots, index, nextCounter, given, en, draws, h)
    }

    /** No key memory is held. */
    ghost predicate Unallocated()
      reads this`keys, this`nonces, this`amount, this`keyCurrent, this`nonceCurrent
    {
      keys == [] && nonces == [] && keyCurrent == null && nonceCurrent == null && amount == 0
    }

    /** The configuration the program starts with. */
    ghost predicate Empty()
      reads this
    {
      Unallocated() && keyLength == 0 && index == 0 && nextCounter == 0 && !given
    }

    constructor (env: Env)
      ensures this.env == env && Empty() && live == {} && freed == [] && draws == 0 && handle.NoContext?
    {
      this.env := env;
      amount, keyLength, index, nextCounter, given, draws := 0, 0, 0, 0, false, 0;
      keys, nonces, keyCurrent, nonceCurrent := [], [], null, null;
      live, freed, handle := {}, [], NoContext;
      en := Ctx(Zeros(16), Zeros(16), []);
      slots := [];
      h := NewHistory(0, 0, Epoch(Zeros(16), Zeros(16), [], []));
    }

    /** Bind the current key and nonce to the cipher context. */
    method KeyToOpenssl()
      requires Valid()
      modifies this`en, this`h
      ensures Valid() && View() == Install(old(View()))
    {
      en := Ctx(keyCurrent[..], nonceCurrent[..], []);
      h := h.(epoch := Epoch(keyCurrent[..], nonceCurrent[..], [], []), stale := 0);
    }

    /** Encrypt the current key and nonce in place. */
    method KeysChangeRotation()
      requires Valid()
      modifies this`en, this`h, this`slots, keyCurrent, nonceCurrent
      ensures Valid() && View() == Rotate(env, old(View()))
    {
      hide EncryptUpdate;
      var k := EncryptUpdate(env.cipher, en, keyCurrent[..]);
      var n := EncryptUpdate(env.cipher, k.ctx, nonceCurrent[..]);
      en := n.ctx;
      Overwrite(keyCurrent, k.bytes);
      Overwrite(nonceCurrent, n.bytes);
      h := h.(changes := h.changes + 1, rotations := h.rotations[index := h.rotations[index] + 1]);
      slots := slots[index := Slot(k.bytes, n.bytes)];
    }

    method KeysChange()
      requires Valid()
      modifies this`index, this`keyCurrent, this`nonceCurrent, this`en, this`h, this`slots, Footprint()
      ensures Valid() && View() == AesSchedule.KeysChange(env, old(View()))
    {
      hide Rotate, Install;
      ghost var c := View();
      index := (index + 1) % amount;
      keyCurrent := keys[index];
      nonceCurrent := nonces[index];
      assert View() == c.(index := NextSlot(c));
      KeysChangeRotation();
      KeyToOpenssl();
    }

    /** Replace the only key, or the only nonce, in place. */
    method StoreKey(k: Block)
      requires Valid() && amount == 1
      modifies this`slots, Footprint()
      ensures Valid() && View() == old(View()).(slots := [old(slots)[0].(key := k)])
    {
      Overwrite(keys[0], k);
      slots := [slots[0].(key := k)];
    }

    method StoreNonce(n: Block)
      requires Valid() && amount == 1
      modifies this`slots, Footprint()
      ensures Valid() && View() == old(View()).(slots := [old(slots)[0].(nonce := n)])
    {
      Overwrite(nonces[0], n);
      slots := [slots[0].(nonce := n)];
    }

    /** Draw a new key and nonce into slot 0. */
    method KeyGenerate() returns (ok: bool)
      requires Valid() && !given
      modifies this`en, this`h, this`slots, this`draws, Footprint()
      ensures Valid() && Outcome(ok, View()) == AesSchedule.KeyGenerate(env, old(View()))
    {
      hide Allocated, Stored, Install;
      var k := env.randBlock(draws);
      draws := draws + 1;
      if k.None? {
        h := h.(failed := h.failed + 1, stale := h.stale + 1);
        return false;
      }
      StoreKey(k.value);
      var n := env.randBlock(draws);
      draws := draws + 1;
      if n.None? {
        h := h.(failed := h.failed + 1, stale := h.stale + 1);
        return false;
      }
      StoreNonce(n.value);
      h := h.(changes := h.changes + 1);
      KeyToOpenssl();
      return true;
    }

    method KeysRandomize() returns (ok: bool)
      requires Valid()
      modifies this`nextCounter, this`h, this`draws
      ensures Valid() && Outcome(ok, View()) == AesSchedule.KeysRandomize(env, old(View()))
    {
      var buf := env.randTimer(draws);
      draws := draws + 1;
      if buf.None? {
        return false;
      }
      nextCounter := buf.value * MAX_COUNTER / UINT_MAX;
      return true;
    }

    /** Charge num bytes to the budget, changing the key when it does not cover them. */
    method Counter(num: nat) returns (ok: bool)
      requires Valid()
      modifies this`index, this`keyCurrent, this`nonceCurrent, this`nextCounter, this`en, this`h,
               this`slots, this`draws, Footprint()
      ensures Valid() && Outcome(ok, View()) == AesSchedule.Counter(env, old(View()), num)
    {
      hide AesSchedule.KeysChange, AesSchedule.KeyGenerate, AesSchedule.KeysRandomize, Allocated, Stored;
      ok := false;
      if nextCounter == 0 || nextCounter < num {
        if given {
          KeysChange();
          ok := true;
          nextCounter := MAX_COUNTER;
        } else {
          ok := KeyGenerate();
          var _ := KeysRandomize();
        }
        h := h.(spent := num, grant := nextCounter, trigger := num);
      } else {
        nextCounter := nextCounter - num;
        h := h.(spent := h.spent + num);
      }
    }

    /** One EVP_EncryptUpdate call on data. */
    method EncryptData(src: seq<Byte>) returns (out: seq<Byte>)
      requires Valid()
      modifies this`en, this`h
      ensures Valid() && Encrypted(out, View()) == Encrypt(env, old(View()), src)
    {
      var u := EncryptUpdate(env.cipher, en, src);
      out := u.bytes;
      en := u.ctx;
      ghost var p := h.epoch;
      h := h.(epoch := p.(src := p.src + src, out := p.out + out), longest := Max(h.longest, |p.src + src|));
    }

    /** One buffer of rdrand_get_bytes_aes_ctr: charge, draw into the stack buffer at io.addr,
        encrypt, copy out. */
    method FillPiece(dev: Device, mem: Memory, io: Source, dest: array<Byte>, at: nat, n: nat) returns (ok: bool)
      requires Valid() && dev.attempts == env.attempts
      requires at + n <= dest.Length && io.addr + n <= mem.cells.Length && n < UINT_RANGE
      requires {dest, mem.cells} !! Footprint() && dest != mem.cells
      modifies this`index, this`keyCurrent, this`nonceCurrent, this`nextCounter, this`en, this`h,
               this`slots, this`draws, Footprint(), dev, mem`wordStores, mem.cells, dest
      ensures Valid()
      ensures var r := Piece(env, io, State(old(View()), old(dev.pos)), n);
              && ok == r.ok && View() == r.s.c && dev.pos == r.s.pos
              && dest[..] == Overlay(old(dest[..]), at, r.out)
    {
      hide AesSchedule.Counter, GetBytes, EncryptUpdate, Encrypt, Allocated, Stored, Overlay, LayoutOf, Filled;
      OverlayNothing(dest[..], at);
      var _ := Counter(n);
      ghost var m := mem.cells[..];
      ghost var f := GetBytes(dev.attempts, dev.pos, io.addr, n, io.limit);
      var generated := GetBytesRetry(dev, mem, io.addr, n, io.limit);
      if generated != n {
        return false;
      }
      FilledWhole(m, io.addr, n, f);
      var output := EncryptData(mem.cells[io.addr..io.addr + n]);
      StoreAt(dest, at, output);
      return true;
    }

    /** Fill dest with encrypted RdRand output. */
    method GetBytesAesCtr(dev: Device, mem: Memory, io: Source, dest: array<Byte>, count: nat) returns (generated: nat)
      requires Valid() && dev.attempts == env.attempts
      requires count <= dest.Length && io.addr + MAX_BUFFER_SIZE <= mem.cells.Length
      requires {dest, mem.cells} !! Footprint() && dest != mem.cells
      modifies this`index, this`keyCurrent, this`nonceCurrent, this`nextCounter, this`en, this`h,
               this`slots, this`draws, Footprint(), dev, mem`wordStores, mem.cells, dest
      ensures Valid()
      ensures var r := AesSchedule.GetBytesAesCtr(env, io, State(old(View()), old(dev.pos)), count);
              && generated == |r.out| && View() == r.s.c && dev.pos == r.s.pos
              && dest[..] == Overlay(old(dest[..]), 0, r.out)
    {
      hide Piece, Allocated, Stored, Overlay;
      var buffers, tail := count / MAX_BUFFER_SIZE, count % MAX_BUFFER_SIZE;
      ghost var s0, d0 := State(View(), dev.pos), dest[..];
      OverlayNothing(d0, 0);
      generated := 0;
      for i := 0 to buffers
        invariant Valid() && generated == MAX_BUFFER_SIZE * i
        invariant var r := Blocks(env, io, s0, i);
                  r.ok && r.s == State(View(), dev.pos) && dest[..] == Overlay(d0, 0, r.out)
      {
        ghost var before := Blocks(env, io, s0, i);
        ghost var p := Piece(env, io, before.s, MAX_BUFFER_SIZE);
        OverlayAdjacent(d0, 0, before.out, p.out);
        var ok := FillPiece(dev, mem, io, dest, i * MAX_BUFFER_SIZE, MAX_BUFFER_SIZE);
        if !ok {
          BlocksStuck(env, io, s0, i + 1, buffers);
          return;
        }
        generated := generated + MAX_BUFFER_SIZE;
      }
      if tail != 0 {
        ghost var before := Blocks(env, io, s0, buffers);
        OverlayAdjacent(d0, 0, before.out, Piece(env, io, before.s, tail).out);
        var ok := FillPiece(dev, mem, io, dest, buffers * MAX_BUFFER_SIZE, tail);
        if ok {
          generated := generated + tail;
        }
      }
    }

    /** One full buffer of rdrand_enc_buffer: charge it, and go on only if that changed the key. */
    method EncChunk(dest: array<Byte>, at: nat, src: seq<Byte>) returns (ok: bool)
      requires Valid() && at + |src| <= dest.Length && |src| == MAX_BUFFER_SIZE
      requires dest !in Footprint()
      modifies this`index, this`keyCurrent, this`nonceCurrent, this`nextCounter, this`en, this`h,
               this`slots, this`draws, Footprint(), dest
      ensures Valid()
      ensures var o := AesSchedule.Counter(env, old(View()), MAX_BUFFER_SIZE);
              var e := Encrypt(env, o.c, src);
              && ok == o.ok && View() == (if ok then e.c else o.c)
              && dest[..] == (if ok then Overlay(old(dest[..]), at, e.bytes) else old(dest[..]))
    {
      hide AesSchedule.Counter, Encrypt, Allocated, Stored, Overlay;
      ok := Counter(MAX_BUFFER_SIZE);
      if ok {
        var out := EncryptData(src);
        StoreAt(dest, at, out);
      }
    }

    /** Encrypt the bytes of src into dest. */
    method EncBuffer(dest: array<Byte>, src: seq<Byte>) returns (ok: bool)
      requires Valid() && |src| <= dest.Length && dest !in Footprint()
      modifies this`index, this`keyCurrent, this`nonceCurrent, this`nextCounter, this`en, this`h,
               this`slots, this`draws, Footprint(), dest
      ensures Valid()
      ensures var r := AesEncBuffer.EncBuffer(env, old(View()), src);
              && ok == r.ok && View() == r.c && dest[..] == Overlay(old(dest[..]), 0, r.out)
    {
      hide AesSchedule.Counter, Encrypt, Allocated, Stored, Overlay;
      var chunks, tail := |src| / MAX_BUFFER_SIZE, |src| % MAX_BUFFER_SIZE;
      ghost var c0, d0 := View(), dest[..];
      OverlayNothing(d0, 0);
      for i := 0 to chunks
        invariant Valid()
        invariant var r := EncChunks(env, c0, src, i);
                  r.ok && r.c == View() && dest[..] == Overlay(d0, 0, r.out)
      {
        ghost var before := EncChunks(env, c0, src, i);
        ghost var o := AesSchedule.Counter(env, before.c, MAX_BUFFER_SIZE);
        var chunk := src[MAX_BUFFER_SIZE * i..MAX_BUFFER_SIZE * (i + 1)];
        OverlayAdjacent(d0, 0, before.out, Encrypt(env, o.c, chunk).bytes);
        ok := EncChunk(dest, MAX_BUFFER_SIZE * i, chunk);
        if !ok {
          EncChunksStuck(env, c0, src, i + 1, chunks);
          return;
        }
      }
      if tail != 0 {
        ghost var before := EncChunks(env, c0, src, chunks);
        var out := EncryptData(src[MAX_BUFFER_SIZE * chunks..]);
        StoreAt(dest, MAX_BUFFER_SIZE * chunks, out);
        OverlayAdjacent(d0, 0, before.out, out);
      }
      return true;
    }

    /** malloc of a zeroed key or nonce buffer. */
    method Allocate(length: nat) returns (b: Buffer)
      modifies this`live
      ensures fresh(b) && b.Length == length && b[..] == Zeros(length)
      ensures live == old(live) + {b}
    {
      b := new Byte[length](_ => 0);
      live := live + {b};
    }

    method AddSlot(length: nat)
      requires Separate(keys, nonces, length) && AllZero(keys) && AllZero(nonces)
      modifies this`keys, this`nonces, this`live
      ensures Separate(keys, nonces, length) && AllZero(keys) && AllZero(nonces)
      ensures |keys| == |old(keys)| + 1 && old(keys) <= keys && old(nonces) <= nonces
      ensures fresh(Footprint() - old(Footprint())) && Footprint() >= old(Footprint())
      ensures live == old(live) + (Footprint() - old(Footprint()))
    {
      hide Separate;
      var key := Allocate(length);
      var nonce := Allocate(length);
      SeparateAppend(keys, nonces, length, key, nonce);
      keys := keys + [key];
      nonces := nonces + [nonce];
      assert Footprint() == old(Footprint()) + {key, nonce};
    }

    method AddSlots(n: nat, length: nat)
      modifies this`keys, this`nonces, this`live
      ensures |keys| == |nonces| == n && Separate(keys, nonces, length) && AllZero(keys) && AllZero(nonces)
      ensures fresh(Footprint()) && live == old(live) + Footprint()
      ensures forall b :: b in keys ==> b in live
      ensures forall b :: b in nonces ==> b in live
    {
      keys, nonces := [], [];
      assert Separate([], [], length) && AllZero([]);
      hide Separate, AllZero;
      for i := 0 to n
        invariant |keys| == |nonces| == i && fresh(Footprint())
        invariant live == old(live) + Footprint()
        invariant Separate(keys, nonces, length) && AllZero(keys) && AllZero(nonces)
      {
        AddSlot(length);
        SeparateLengths(keys, nonces, length);
      }
    }

    method AllocateSlots(n: nat, length: nat)
      requires n > 0 && index == 0
      modifies this`amount, this`keyLength, this`keys, this`nonces, this`keyCurrent, this`nonceCurrent, this`live
      ensures Allocated() && amount == n && keyLength == length && fresh(Footprint()) && live == old(live) + Footprint()
      ensures AllZero(keys) && AllZero(nonces)
    {
      hide Separate, AllZero;
      amount := n;
      keyLength := length;
      AddSlots(n, length);
      keyCurrent := keys[0];
      nonceCurrent := nonces[0];
    }

    /** keys_allocate: buffers held before are not freed. */
    method KeysAllocate(n: nat, length: bv64) returns (ok: bool)
      requires Held() && index == 0
      modifies this`amount, this`keyLength, this`keys, this`nonces, this`keyCurrent, this`nonceCurrent, this`live
      ensures ok <==> n > 0 && IsPowerOfTwo(length)
      ensures if ok then && Allocated() && amount == n && keyLength == length as nat
                         && fresh(Footprint()) && live == old(live) + Footprint()
              else Held() && unchanged(`amount, `keyLength, `keys, `nonces, `keyCurrent, `nonceCurrent, `live)
      ensures ok ==> AllZero(keys) && AllZero(nonces)
    {
      hide Allocated, AllZero, IsPowerOfTwo;
      ok := IsPowerOfTwo(length) && n > 0;
      if ok {
        AllocateSlots(n, length as nat);
      }
    }

    /** The first n slots hold the given keys, and the given nonces padded with zeros. */
    ghost predicate Copied(ks: seq<seq<Byte>>, ns: seq<seq<Byte>>, n: nat)
      requires n <= |ks| && n <= |ns|
      requires forall i :: 0 <= i < n ==> |ks[i]| >= keyLength && |ns[i]| >= keyLength / 2
      reads this`keys, this`nonces, this`keyLength, Footprint()
    {
      && n <= |keys| && n <= |nonces|
      && (forall i :: 0 <= i < n ==> keys[i][..] == ks[i][..keyLength])
      && (forall i :: 0 <= i < n ==> nonces[i][..] == ns[i][..keyLength / 2] + Zeros(keyLength - keyLength / 2))
    }

    /** Copy slot i's key and nonce in; half of the nonce buffer stays zero. */
    method CopySlot(i: nat, k: seq<Byte>, n: seq<Byte>)
      requires Allocated() && i < amount && |k| == keyLength && |n| == keyLength / 2
      modifies Footprint()
      ensures keys[i][..] == k && nonces[i][..] == n + Zeros(keyLength - keyLength / 2)
      ensures forall j :: 0 <= j < amount && j != i ==>
                keys[j][..] == old(keys[j][..]) && nonces[j][..] == old(nonces[j][..])
    {
      Overwrite(keys[i], k);
      Overwrite(nonces[i], n + Zeros(keyLength - keyLength / 2));
    }

    method CopyKeys(ks: seq<seq<Byte>>, ns: seq<seq<Byte>>)
      requires Allocated() && amount <= |ks| && amount <= |ns|
      requires forall i :: 0 <= i < amount ==> |ks[i]| >= keyLength && |ns[i]| >= keyLength / 2
      modifies Footprint()
      ensures Copied(ks, ns, amount)
    {
      for i := 0 to amount
        invariant Copied(ks, ns, i)
      {
        CopySlot(i, ks[i][..keyLength], ns[i][..keyLength / 2]);
      }
    }

    /** Start using the slots the buffers hold. */
    method Configure(ghost s: seq<Slot>)
      requires Allocated() && keyLength == KEY_LEN && Holds(s) && index == 0 && nextCounter == MAX_COUNTER && given
      modifies this`slots, this`h, this`en
      ensures Valid() && View() == GivenConfig(s).(draws := draws)
    {
      slots := s;
      h := NewHistory(amount, MAX_COUNTER, Epoch(s[0].key, s[0].nonce, [], []));
      KeyToOpenssl();
    }

    /** What both set-ups do before any key is in place. */
    method Prepare(n: nat, length: bv64, counter: nat, ofGiven: bool) returns (ok: bool)
      requires Held()
      modifies this`amount, this`keyLength, this`index, this`nextCounter, this`given, this`keys,
               this`nonces, this`keyCurrent, this`nonceCurrent, this`live
      ensures ok <==> n > 0 && IsPowerOfTwo(length)
      ensures index == 0 && nextCounter == counter && given == ofGiven
      ensures if ok then && Allocated() && amount == n && keyLength == length as nat
                         && fresh(Footprint()) && live == old(live) + Footprint()
              else Held() && unchanged(`amount, `keyLength, `keys, `nonces, `live)
      ensures ok ==> AllZero(keys) && AllZero(nonces)
    {
      index := 0;
      nextCounter := counter;
      given := ofGiven;
      keyCurrent := null;
      ok := KeysAllocate(n, length);
    }

    lemma CopiedSlots(ks: seq<seq<Byte>>, ns: seq<seq<Byte>>, n: nat)
      requires Allocated() && amount == n <= |ks| && n <= |ns| && keyLength == KEY_LEN
      requires forall i :: 0 <= i < n ==> |ks[i]| >= KEY_LEN && |ns[i]| >= KEY_LEN / 2
      requires Copied(ks, ns, n)
      ensures Holds(SlotsOf(ks, ns, n))
    {
    }

    method ConfigureCopied(ghost ks: seq<seq<Byte>>, ghost ns: seq<seq<Byte>>, ghost n: nat)
      requires Allocated() && amount == n <= |ks| && n <= |ns| && keyLength == KEY_LEN
      requires forall i :: 0 <= i < n ==> |ks[i]| >= KEY_LEN && |ns[i]| >= KEY_LEN / 2
      requires Copied(ks, ns, n) && index == 0 && nextCounter == MAX_COUNTER && given
      modifies this`slots, this`h, this`en
      ensures Valid() && View() == GivenConfig(SlotsOf(ks, ns, n)).(draws := draws)
    {
      hide Held, Holds, Copied, SlotsOf;
      CopiedSlots(ks, ns, n);
      Configure(SlotsOf(ks, ns, n));
    }

    /** Copy the keys into the new buffers and install the first one, or stop before reading past it. */
    method InstallKeys(ks: seq<seq<Byte>>, ns: seq<seq<Byte>>, n: nat) returns (pastEnd: bool)
      requires Allocated() && amount == n <= |ks| && n <= |ns| && keyLength in {8, KEY_LEN}
      requires forall i :: 0 <= i < n ==> |ks[i]| >= keyLength && |ns[i]| >= keyLength / 2
      requires index == 0 && nextCounter == MAX_COUNTER && given
      modifies this`slots, this`h, this`en, Footprint()
      ensures pastEnd <==> keyLength == 8
      ensures Allocated() && Copied(ks, ns, n)
      ensures !pastEnd ==> Valid() && View() == GivenConfig(SlotsOf(ks, ns, n)).(draws := draws)
    {
      hide Held, SlotsOf, Holds, Copied;
      CopyKeys(ks, ns);
      pastEnd := keyLength < BLOCK_BYTES;
      if !pastEnd {
        ConfigureCopied(ks, ns, n);
      }
    }

    /** Configure n given keys of the given length, with nonces half as long. Key length 8 is accepted
        too, but then key_to_openssl reads past the end of the buffers; what the cipher is given is
        not modelled in that case. */
    method SetAesKeys(n: nat, length: bv64, ks: seq<seq<Byte>>, ns: seq<seq<Byte>>) returns (ok: bool, pastEnd: bool)
      requires Held() && n <= |ks| && n <= |ns|
      requires length == 16 ==> forall i :: 0 <= i < n ==> |ks[i]| >= KEY_LEN && |ns[i]| >= KEY_LEN / 2
      requires length == 8 ==> forall i :: 0 <= i < n ==> |ks[i]| >= 8 && |ns[i]| >= 4
      modifies this
      ensures ok <==> n > 0 && (length == 8 || length == 16)
      ensures pastEnd <==> ok && length == 8
      ensures if ok then Allocated() && amount == n && fresh(Footprint()) && live == old(live) + Footprint()
              else Held() && unchanged(`amount, `keyLength, `keys, `nonces, `live)
      ensures ok && !pastEnd ==> Valid() && View() == GivenConfig(SlotsOf(ks, ns, n)).(draws := old(draws))
      ensures pastEnd ==> keyLength == 8 && Copied(ks, ns, n)
      ensures freed == old(freed)
      ensures handle == if MIN_KEY_LENGTH < length < MAX_KEY_LENGTH then LiveContext else old(handle)
    {
      hide Held, SlotsOf, Holds, IsPowerOfTwo, AllZero, Copied, WellFormed, Stored;
      AllowedKeyLengths(length);
      ok, pastEnd := false, false;
      if MIN_KEY_LENGTH < length < MAX_KEY_LENGTH {
        handle := LiveContext;
        ok := Prepare(n, length, MAX_COUNTER, true);
        if ok {
          pastEnd := InstallKeys(ks, ns, n);
        }
      }
    }

    /** Slot 0 as malloc and memset leave it. */
    method Blank()
      requires Allocated() && keyLength == KEY_LEN && AllZero(keys) && AllZero(nonces) && amount == 1
      requires !given && nextCounter == 0
      modifies this`slots, this`h
      ensures Valid() && View() == BlankConfig(en, draws)
    {
      slots := [Slot(Zeros(16), Zeros(16))];
      h := NewHistory(1, 0, Epoch(Zeros(16), Zeros(16), [], []));
    }

    /** Allocate a single slot for a generated key. */
    method PrepareBlank()
      requires Held()
      modifies this
      ensures Valid() && View() == BlankConfig(old(en), old(draws))
      ensures fresh(Footprint()) && live == old(live) + Footprint() && freed == old(freed)
    {
      hide Held, Separate, Stored, AllZero, BlankConfig, WellFormed;
      var _ := Prepare(1, 16, 0, false);
      Blank();
    }

    /** Configure one generated key. On failure the buffers are still held. */
    method SetAesRandomKey() returns (ok: bool)
      requires Held()
      modifies this
      ensures ok <==> env.randBlock(old(draws)).Some? && env.randBlock(old(draws) + 1).Some?
      ensures Allocated() && fresh(Footprint())
      ensures ok ==> Valid() && View() == GeneratedConfig(env.randBlock(old(draws)).value,
                                                         env.randBlock(old(draws) + 1).value, old(draws) + 2)
      ensures live == old(live) + Footprint() && freed == old(freed) && handle.LiveContext?
    {
      hide Allocated, Stored, AesSchedule.KeyGenerate, GeneratedConfig, BlankConfig;
      PrepareBlank();
      handle := LiveContext;
      GenerateFromBlank(env, View(), old(en), old(draws));
      ok := KeyGenerate();
      h := h.(changes := 0);
    }

    method Free(b: Buffer)
      requires b in live && b[..] == Zeros(b.Length)
      modifies this`live, this`freed
      ensures live == old(live) - {b} && freed == old(freed) + [b]
    {
      live := live - {b};
      freed := freed + [b];
    }

    /** Of the buffers in use, those of the first i slots are wiped and freed, in slot order, and the
        others still held; nothing else became free or live since live0 and freed0. */
    ghost predicate WipedTo(i: nat, live0: set<Buffer>, freed0: seq<Buffer>)
      reads this`keys, this`nonces, this`live, this`freed, this`keyLength, Footprint()
    {
      && i <= |keys| == |nonces|
      && (forall j :: 0 <= j < i ==> keys[j] !in live && nonces[j] !in live)
      && (forall j :: i <= j < |keys| ==> keys[j] in live && nonces[j] in live)
      && (forall j :: 0 <= j < i ==> keys[j][..] == nonces[j][..] == Zeros(keyLength))
      && live <= live0 && live0 - Footprint() <= live
      && freed == freed0 + FreeOrder(keys, nonces, i)
    }

    /** Wipe and free the two buffers of slot i. */
    method WipeSlot(i: nat, ghost live0: set<Buffer>, ghost freed0: seq<Buffer>)
      requires Separate(keys, nonces, keyLength) && WipedTo(i, live0, freed0) && i < |keys|
      modifies this`live, this`freed, Footprint()
      ensures WipedTo(i + 1, live0, freed0)
    {
      hide FreeOrder;
      FreeOrderNext(keys, nonces, i);
      Overwrite(keys[i], Zeros(keyLength));
      Free(keys[i]);
      Overwrite(nonces[i], Zeros(keyLength));
      Free(nonces[i]);
    }

    lemma NothingWiped()
      requires Held()
      ensures WipedTo(0, live, freed)
    {
    }

    method WipeAll()
      requires Separate(keys, nonces, keyLength) && amount == |keys| && WipedTo(0, live, freed)
      modifies this`live, this`freed, Footprint()
      ensures WipedTo(amount, old(live), old(freed))
    {
      hide Separate, WipedTo, Footprint;
      for i := 0 to amount
        invariant WipedTo(i, old(live), old(freed))
        modifies this`live, this`freed, Footprint()
      {
        WipeSlot(i, old(live), old(freed));
      }
    }

    lemma AllWiped(live0: set<Buffer>, freed0: seq<Buffer>)
      requires Separate(keys, nonces, keyLength) && amount == |keys| && WipedTo(amount, live0, freed0)
      ensures AllZero(keys) && AllZero(nonces) && live == live0 - Footprint()
      ensures freed == freed0 + FreeOrder(keys, nonces, amount)
    {
      SeparateLengths(keys, nonces, keyLength);
    }

    /** Every buffer held before is wiped and has been freed, in slot order and exactly once (Free
        takes a buffer out of the live ones), and no pointer to it is left. */
    ghost predicate Released(ks: seq<Buffer>, ns: seq<Buffer>, live0: set<Buffer>, freed0: seq<Buffer>)
      reads this`keys, this`nonces, this`keyCurrent, this`nonceCurrent, this`live, this`freed, ks, ns
    {
      && keys == nonces == [] && keyCurrent == null && nonceCurrent == null
      && |ks| == |ns| && freed == freed0 + FreeOrder(ks, ns, |ks|)
      && live == live0 - (set b | b in ks) - (set b | b in ns)
      && AllZero(ks) && AllZero(ns)
    }

    lemma NothingToRelease()
      requires Held() && keys == []
      ensures Released(keys, nonces, live, freed)
    {
    }

    method DropBuffers()
      requires Separate(keys, nonces, keyLength) && amount == |keys| == |nonces| && WipedTo(0, live, freed)
      requires keyCurrent == null && nonceCurrent == null
      modifies this`keys, this`nonces, this`live, this`freed, Footprint()
      ensures keys == nonces == [] && Released(old(keys), old(nonces), old(live), old(freed))
    {
      hide Separate, WipedTo, AllZero, FreeOrder;
      WipeAll();
      AllWiped(old(live), old(freed));
      keys := [];
      nonces := [];
    }

    /** Wipe and free every key and nonce buffer. */
    method KeysFree()
      requires Held()
      modifies this`keys, this`nonces, this`keyCurrent, this`nonceCurrent, this`index, this`live, this`freed,
               Footprint()
      ensures Released(old(keys), old(nonces), old(live), old(freed))
      ensures keys == nonces == [] && keyCurrent == null && nonceCurrent == null
      ensures index == if old(keys) == [] then old(index) else 0
    {
      hide FreeOrder, AllZero, Separate, Released;
      if keys == [] {
        NothingToRelease();
        return;
      }
      keyCurrent := null;
      nonceCurrent := null;
      index := 0;
      NothingWiped();
      DropBuffers();
    }

    /** Discard the keys and return to the empty configuration. The pointer to the cipher context is
        not reset: `again` tells that the context it points to was freed before and is freed again. */
    method CleanAes() returns (ghost again: bool)
      requires Held()
      modifies this, Footprint()
      ensures Released(old(keys), old(nonces), old(live), old(freed)) && Empty()
      ensures again <==> old(handle).FreedContext?
      ensures handle == if old(handle).NoContext? then NoContext else FreedContext
    {
      hide Released, Allocated, Footprint;
      KeysFree();
      given := false;
      amount := 0;
      keyLength := 0;
      nextCounter := 0;
      // EVP_CIPHER_CTX_free; a null pointer is ignored.
      again := handle.FreedContext?;
      if !handle.NoContext? {
        handle := FreedContext;
      }
    }
  }
}
