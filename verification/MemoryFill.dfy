/** Filling an arbitrary address range with random bytes (src/librdrand.c). */
module MemoryFill {
  import opened Machine
  import opened Retry

  /** The address space: cell k is the byte at address k. The ghost log records
      the address of every 64-bit store. */
  class Memory {
    const cells: array<Byte>
    ghost var wordStores: seq<nat>

    constructor (cells: array<Byte>)
      ensures this.cells == cells && wordStores == []
    {
      this.cells := cells;
      wordStores := [];
    }

    method StoreWord(at: nat, w: Word)
      requires at + 8 <= cells.Length
      modifies cells, `wordStores
      ensures cells[..] == Overlay(old(cells[..]), at, LeBytes(w))
      ensures wordStores == old(wordStores) + [at]
    {
      StoreAt(cells, at, LeBytes(w));
      wordStores := wordStores + [at];
    }
  }

  /** The addresses of count consecutive words from dest on. */
  ghost function WordAddresses(dest: nat, count: nat): (s: seq<nat>)
    ensures |s| == count && forall k :: 0 <= k < count ==> s[k] == dest + 8 * k
  {
    seq(count, k requires 0 <= k => dest + 8 * k)
  }

  /** Every store logged from position k on is 8-byte aligned. */
  ghost predicate AlignedFrom(stores: seq<nat>, k: nat) {
    forall i :: k <= i < |stores| ==> stores[i] % 8 == 0
  }

  lemma AlignedStores(before: seq<nat>, after: seq<nat>, dest: nat, count: nat)
    requires count > 0 ==> dest % 8 == 0
    requires before <= after <= before + WordAddresses(dest, count)
    ensures AlignedFrom(after, |before|)
  {
  }

  method GetUint64ArrayRetry(dev: Device, mem: Memory, dest: nat, count: nat, limit: int)
    returns (generated: nat)
    requires dest + 8 * count <= mem.cells.Length
    modifies dev, mem.cells, mem`wordStores
    ensures var r := ArrayFill(dev.attempts, old(dev.pos), count, Tries(limit));
            && generated == |r.words| && dev.pos == r.pos
            && mem.cells[..] == Overlay(old(mem.cells[..]), dest, Flatten(r.words))
            && mem.wordStores == old(mem.wordStores) + WordAddresses(dest, generated)
  {
    hide RetryOnce, Overlay, Flatten;
    OverlayNothing(mem.cells[..], dest);
    assert Flatten([]) == [];
    generated := 0;
    for i := 0 to count
      invariant generated == i
      invariant var r := ArrayFill(dev.attempts, old(dev.pos), i, Tries(limit));
                && |r.words| == i && dev.pos == r.pos
                && mem.cells[..] == Overlay(old(mem.cells[..]), dest, Flatten(r.words))
                && mem.wordStores == old(mem.wordStores) + WordAddresses(dest, i)
    {
      ghost var words := ArrayFill(dev.attempts, old(dev.pos), i, Tries(limit)).words;
      var r := GetUint64Retry(dev, limit);
      if r.None? {
        ArrayFillStuck(dev.attempts, old(dev.pos), i + 1, count, Tries(limit));
        assert words + [] == words;
        break;
      }
      mem.StoreWord(dest + 8 * i, r.value);
      FlattenAppend(words, r.value);
      OverlayAdjacent(old(mem.cells[..]), dest, Flatten(words), LeBytes(r.value));
      assert WordAddresses(dest, i) + [dest + 8 * i] == WordAddresses(dest, i + 1);
      generated := generated + 1;
    }
  }

  datatype Chunk = Chunk(bytes: seq<Byte>, pos: nat)

  /** The byte filler: count % 8 bytes cut from one word, then whole words. */
  function ByteFill(a: Attempts, pos: nat, count: nat, tries: nat): (r: Chunk)
    requires tries >= 1
    ensures |r.bytes| <= count
  {
    if count % 8 == 0 then
      var b := ArrayFill(a, pos, count / 8, tries);
      Chunk(Flatten(b.words), b.pos)
    else
      var d := RetryOnce(a, pos, tries);
      if d.word.None? then Chunk([], d.pos)
      else
        var b := ArrayFill(a, d.pos, count / 8, tries);
        Chunk(LeBytes(d.word.value)[..count % 8] + Flatten(b.words), b.pos)
  }

  /** Up to count words from the attempts in [from, to), fewer only after `tries` underflows at the end. */
  ghost predicate WordsOf(a: Attempts, from: nat, to: nat, count: nat, tries: nat, bytes: seq<Byte>) {
    var s := Successes(a, from, to);
    && from <= to && bytes == Flatten(s) && |s| <= count
    && (count == 0 ==> to == from)
    && (|s| < count ==> to >= from + tries && FailRun(a, to - tries, tries))
  }

  lemma ArrayEnds(a: Attempts, pos: nat, count: nat, tries: nat)
    requires tries >= 1
    ensures var r := ArrayFill(a, pos, count, tries);
            r.words == Successes(a, pos, r.pos) && WordsOf(a, pos, r.pos, count, tries, Flatten(r.words))
  {
    hide Flatten;
    ArrayFillIsScan(a, pos, count, tries);
  }

  /** The bytes of a byte fill, in terms of the words drawn: the first one cut to count % 8 bytes if that
      is not zero, then whole ones; it ends early only after `tries` underflows in a row. */
  lemma ByteFillContent(a: Attempts, pos: nat, count: nat, tries: nat)
    requires tries >= 1
    ensures var r := ByteFill(a, pos, count, tries);
            var s := Successes(a, pos, r.pos);
            && r.pos >= pos
            && r.bytes == (if count % 8 == 0 then Flatten(s)
                           else if s == [] then [] else LeBytes(s[0])[..count % 8] + Flatten(s[1..]))
            && |s| <= (count + 7) / 8
            && (|s| < (count + 7) / 8 ==> r.pos >= pos + tries && FailRun(a, r.pos - tries, tries))
  {
    hide RetryOnce, ArrayFill, Flatten, LeBytes, FailRun, Successes;
    if count % 8 == 0 {
      ArrayEnds(a, pos, count / 8, tries);
    } else {
      var d := RetryOnce(a, pos, tries);
      GroupEnds(a, pos, tries);
      GroupSuccesses(a, pos, tries);
      if d.word.Some? {
        var b := ArrayFill(a, d.pos, count / 8, tries);
        ArrayEnds(a, d.pos, count / 8, tries);
        SuccessesSplit(a, pos, d.pos, b.pos);
        assert ([d.word.value] + b.words)[1..] == b.words;
      }
    }
  }

  method GetUint8ArrayRetry(dev: Device, mem: Memory, dest: nat, count: nat, limit: int)
    returns (generated: nat)
    requires dest + count <= mem.cells.Length
    modifies dev, mem.cells, mem`wordStores
    ensures var r := ByteFill(dev.attempts, old(dev.pos), count, Tries(limit));
            && generated == |r.bytes| && dev.pos == r.pos
            && mem.cells[..] == Overlay(old(mem.cells[..]), dest, r.bytes)
    ensures mem.wordStores <= old(mem.wordStores) + WordAddresses(dest + count % 8, count / 8)
    ensures old(mem.wordStores) <= mem.wordStores
  {
    hide RetryOnce, ArrayFill, Flatten, Overlay;
    OverlayNothing(mem.cells[..], dest);
    var count64, count8 := count / 8, count % 8;
    generated := 0;
    ghost var head: seq<Byte> := [];
    if count8 > 0 {
      var r := GetUint64Retry(dev, limit);
      if r.None? {
        return;
      }
      var x := LeBytes(r.value)[..count8];
      head := x;
      StoreAt(mem.cells, dest, x);
      generated := count8;
    }
    ghost var before := dev.pos;
    var generated64 := GetUint64ArrayRetry(dev, mem, dest + count8, count64, limit);
    OverlayAdjacent(old(mem.cells[..]), dest, head,
                    Flatten(ArrayFill(dev.attempts, before, count64, Tries(limit)).words));
    generated := generated + 8 * generated64;
  }

  /** How a range is cut: bytes up to the first aligned address above its start, whole
      aligned words, and the bytes left over. The length after the offset is kept in an
      unsigned int. */
  datatype Layout = Layout(offset: nat, qWords: nat, rest: nat)

  const UINT_RANGE: nat := 0x1_0000_0000

  function LayoutOf(start: nat, size: nat): (l: Layout)
  {
    var offset := if size < 8 then 0 else 8 - start % 8;
    var alignedBytes := (size - offset) % UINT_RANGE;
    Layout(offset, alignedBytes / 8, alignedBytes % 8)
  }

  /** Rounding down with a mask is what the pointer arithmetic below does. */
  lemma AlignMask(a: bv64)
    ensures (a & !7) + 8 == a + (8 - a % 8)
  {
  }

  /** Head, words and tail cover the range exactly when its length past the head fits in an
      unsigned int, whatever the start address; the words always begin on an 8-byte boundary,
      also when the start is already aligned and the head is a whole word. */
  lemma LayoutPartitions(start: nat, size: nat)
    ensures var l := LayoutOf(start, size);
            && l.offset + 8 * l.qWords + l.rest <= size
            && (l.offset + 8 * l.qWords + l.rest == size <==> size < UINT_RANGE + l.offset)
            && (l.offset > 0 ==> (start + l.offset) % 8 == 0 && 1 <= l.offset <= 8)
            && (l.offset == 0 <==> size < 8) && (size < 8 ==> l.qWords == 0 && l.rest == size)
            && l.rest < 8 && (size >= 8 ==> 8 * l.qWords + l.rest == (size - l.offset) % 0x1_0000_0000)
  {
  }

  datatype Fill = Fill(head: seq<Byte>, body: seq<Byte>, tail: seq<Byte>, pos: nat)

  /** The number of bytes a fill reports. */
  function Generated(f: Fill): nat {
    |f.head| + |f.body| + |f.tail|
  }

  /** A fill of [start, start + size): the three regions are filled one after the other,
      each as a prefix, and a later one is attempted even after an earlier one fell short. */
  function GetBytes(a: Attempts, pos: nat, start: nat, size: nat, limit: int): (f: Fill)
    ensures var l := LayoutOf(start, size);
            |f.head| <= l.offset && |f.body| <= 8 * l.qWords && |f.tail| <= l.rest
  {
    var l := LayoutOf(start, size);
    var head := ByteFill(a, pos, l.offset, Tries(limit));
    var body := ArrayFill(a, head.pos, l.qWords, Tries(limit));
    var tail := ByteFill(a, body.pos, l.rest, Tries(limit));
    Fill(head.bytes, Flatten(body.words), tail.bytes, tail.pos)
  }

  /** The memory after a fill. */
  ghost function Filled(m: seq<Byte>, start: nat, size: nat, f: Fill): seq<Byte>
    requires start + size <= |m|
    requires var l := LayoutOf(start, size);
             |f.head| <= l.offset && |f.body| <= 8 * l.qWords && |f.tail| <= l.rest
  {
    LayoutPartitions(start, size);
    var l := LayoutOf(start, size);
    Overlay(Overlay(Overlay(m, start, f.head), start + l.offset, f.body),
            start + l.offset + 8 * l.qWords, f.tail)
  }

  /** Cell start + i belongs to the stored prefix of its region. */
  ghost predicate Reached(start: nat, size: nat, f: Fill, i: nat) {
    var l := LayoutOf(start, size);
    || i < |f.head|
    || l.offset <= i < l.offset + |f.body|
    || l.offset + 8 * l.qWords <= i < l.offset + 8 * l.qWords + |f.tail|
  }

  /** Nothing outside the range is written, nor any cell inside it that no region reached; and
      for a range shorter than the unsigned int limit the reported count is the size exactly
      when every cell was written. */
  lemma FillIsConfined(m: seq<Byte>, start: nat, size: nat, f: Fill)
    requires start + size <= |m|
    requires var l := LayoutOf(start, size);
             |f.head| <= l.offset && |f.body| <= 8 * l.qWords && |f.tail| <= l.rest
    ensures var r := Filled(m, start, size, f);
            && |r| == |m|
            && (forall k :: 0 <= k < start || start + size <= k < |m| ==> r[k] == m[k])
            && (forall i :: 0 <= i < size && !Reached(start, size, f, i) ==> r[start + i] == m[start + i])
    ensures Generated(f) == size <==> forall i :: 0 <= i < size ==> Reached(start, size, f, i)
  {
    hide LayoutOf, Overlay;
    LayoutPartitions(start, size);
    var l := LayoutOf(start, size);
    var m1 := Overlay(m, start, f.head);
    var m2 := Overlay(m1, start + l.offset, f.body);
    forall k: nat | k < |m| && (k < start || start + size <= k || !Reached(start, size, f, k - start))
      ensures Filled(m, start, size, f)[k] == m[k]
    {
      OverlayAt(m, start, f.head, k);
      OverlayAt(m1, start + l.offset, f.body, k);
      OverlayAt(m2, start + l.offset + 8 * l.qWords, f.tail, k);
    }
    if size > 0 && forall i :: 0 <= i < size ==> Reached(start, size, f, i) {
      var last: nat := size - 1;
      assert |f.head| < l.offset ==> !Reached(start, size, f, |f.head|);
      assert |f.body| < 8 * l.qWords ==> !Reached(start, size, f, l.offset + |f.body|);
      assert |f.tail| < l.rest ==> !Reached(start, size, f, l.offset + 8 * l.qWords + |f.tail|);
      assert l.offset + 8 * l.qWords + l.rest < size ==> !Reached(start, size, f, last);
    }
  }

  /** The whole byte fill of fewer than nine bytes is one truncated hardware word. */
  lemma ShortByteFill(a: Attempts, pos: nat, count: nat, tries: nat)
    requires tries >= 1 && 1 <= count <= 8
    ensures var r := ByteFill(a, pos, count, tries); var s := Successes(a, pos, r.pos);
            |r.bytes| == count ==> |s| == 1 && r.bytes == LeBytes(s[0])[..count]
  {
    GroupSuccesses(a, pos, tries);
    ArrayFillWords(a, pos, count / 8, tries);
    assert ArrayFill(a, pos, 0, tries) == Batch([], pos);
    if count == 8 {
      var w := ArrayFill(a, pos, 1, tries).words;
      assert |w| == 1 ==> w[1..] == [] && Flatten(w) == LeBytes(w[0]);
    }
  }

  lemma ByteFillMoves(a: Attempts, pos: nat, count: nat, tries: nat)
    requires tries >= 1
    ensures var r := ByteFill(a, pos, count, tries); r.pos >= pos && (count == 0 ==> r == Chunk([], pos))
  {
  }

  /** A head or tail of count bytes, from the attempts in [from, to): nothing to do, or one word cut to
      size, or none after `tries` underflows. */
  ghost predicate EdgeOf(a: Attempts, from: nat, to: nat, count: nat, tries: nat, bytes: seq<Byte>)
    requires count <= 8
  {
    if count == 0 then bytes == [] && to == from
    else if bytes == [] then to == from + tries && FailRun(a, from, tries)
    else to > from && FailRun(a, from, to - 1 - from) && a(to - 1).Some? && bytes == LeBytes(a(to - 1).value)[..count]
  }

  lemma EmptyFills(a: Attempts, pos: nat, tries: nat)
    requires tries >= 1
    ensures ArrayFill(a, pos, 0, tries) == Batch([], pos) && ByteFill(a, pos, 0, tries) == Chunk([], pos)
    ensures Flatten([]) == []
  {
  }

  lemma EdgeFilled(a: Attempts, pos: nat, count: nat, tries: nat)
    requires tries >= 1 && count <= 8
    ensures var r := ByteFill(a, pos, count, tries); EdgeOf(a, pos, r.pos, count, tries, r.bytes)
  {
    hide RetryOnce, LeBytes, FailRun;
    EmptyFills(a, pos, tries);
    GroupEnds(a, pos, tries);
    RetryOnceIsFirstSuccess(a, pos, tries);
    var d := RetryOnce(a, pos, tries);
    if count == 8 {
      assert ArrayFill(a, pos, 1, tries) == Batch(if d.word.Some? then [d.word.value] else [], d.pos);
      if d.word.Some? {
        assert [d.word.value][1..] == [] && Flatten([d.word.value]) == LeBytes(d.word.value);
      }
    } else if count > 0 && d.word.Some? {
      EmptyFills(a, d.pos, tries);
    }
  }

  /** The three regions of a fill, in terms of the attempts: each is filled, as a prefix, with the words
      drawn between where the one before stopped and where it stops itself, and stops short only
      after limit underflows in a row; a later one is attempted whether or not an earlier one was
      filled. */
  lemma FillRegions(a: Attempts, pos: nat, start: nat, size: nat, limit: int) returns (p: nat, q: nat)
    ensures var l, tries := LayoutOf(start, size), Tries(limit);
            var f := GetBytes(a, pos, start, size, limit);
            && pos <= p <= q <= f.pos
            && EdgeOf(a, pos, p, l.offset, tries, f.head)
            && WordsOf(a, p, q, l.qWords, tries, f.body)
            && EdgeOf(a, q, f.pos, l.rest, tries, f.tail)
  {
    hide ByteFill, ArrayFill;
    LayoutPartitions(start, size);
    var l, tries := LayoutOf(start, size), Tries(limit);
    p := ByteFill(a, pos, l.offset, tries).pos;
    q := ArrayFill(a, p, l.qWords, tries).pos;
    EdgeFilled(a, pos, l.offset, tries);
    ArrayEnds(a, p, l.qWords, tries);
    EdgeFilled(a, q, l.rest, tries);
  }

  /** On full success the range holds the little-endian images of the successive hardware words
      of the attempts consumed: one word cut to the head, the aligned words, one cut to the tail. */
  lemma FullFillContent(a: Attempts, pos: nat, start: nat, size: nat, limit: int)
    requires Generated(GetBytes(a, pos, start, size, limit)) == size
    ensures var l := LayoutOf(start, size);
            var f := GetBytes(a, pos, start, size, limit);
            var s := Successes(a, pos, f.pos);
            var h := if l.offset > 0 then 1 else 0;
            && |s| == h + l.qWords + (if l.rest > 0 then 1 else 0)
            && f.head == (if h == 1 then LeBytes(s[0])[..l.offset] else [])
            && f.body == Flatten(s[h..h + l.qWords])
            && f.tail == (if l.rest > 0 then LeBytes(s[h + l.qWords])[..l.rest] else [])
  {
    hide RetryOnce;
    LayoutPartitions(start, size);
    var l := LayoutOf(start, size);
    var tries := Tries(limit);
    var head := ByteFill(a, pos, l.offset, tries);
    var body := ArrayFill(a, head.pos, l.qWords, tries);
    var tail := ByteFill(a, body.pos, l.rest, tries);
    if l.offset > 0 { ShortByteFill(a, pos, l.offset, tries); }
    ArrayFillWords(a, head.pos, l.qWords, tries);
    if l.rest > 0 { ShortByteFill(a, body.pos, l.rest, tries); }
    assert |body.words| == l.qWords;
    ByteFillMoves(a, pos, l.offset, tries);
    ByteFillMoves(a, body.pos, l.rest, tries);
    SuccessesSplit(a, pos, head.pos, body.pos);
    SuccessesSplit(a, pos, body.pos, tail.pos);
  }

  lemma ByteStretch(a: Attempts, pos: nat, count: nat, tries: nat)
    requires tries >= 1
    ensures var r := ByteFill(a, pos, count, tries); Stretch(a, pos, r.pos, tries, |r.bytes| == count)
  {
    hide ArrayFill, RetryOnce, Stretch;
    if count % 8 == 0 {
      ArrayStretch(a, pos, count / 8, tries);
    } else {
      var d := RetryOnce(a, pos, tries);
      GroupStretch(a, pos, tries);
      if d.word.Some? {
        var b := ArrayFill(a, d.pos, count / 8, tries);
        ArrayStretch(a, d.pos, count / 8, tries);
        StretchJoin(a, pos, d.pos, b.pos, tries, true, |b.words| == count / 8);
      }
    }
  }

  /** A fill of a supported size is complete exactly when the hardware does not underflow limit times
      in a row in it. */
  lemma FillComplete(a: Attempts, pos: nat, start: nat, size: nat, limit: int)
    requires size < UINT_RANGE
    ensures var f := GetBytes(a, pos, start, size, limit);
            Stretch(a, pos, f.pos, Tries(limit), Generated(f) == size)
  {
    hide ArrayFill, ByteFill, Stretch;
    LayoutPartitions(start, size);
    var l, tries := LayoutOf(start, size), Tries(limit);
    var head := ByteFill(a, pos, l.offset, tries);
    var body := ArrayFill(a, head.pos, l.qWords, tries);
    var tail := ByteFill(a, body.pos, l.rest, tries);
    ByteStretch(a, pos, l.offset, tries);
    ArrayStretch(a, head.pos, l.qWords, tries);
    ByteStretch(a, body.pos, l.rest, tries);
    StretchJoin(a, pos, head.pos, body.pos, tries, |head.bytes| == l.offset, |body.words| == l.qWords);
    StretchJoin(a, pos, body.pos, tail.pos, tries,
                |head.bytes| == l.offset && |body.words| == l.qWords, |tail.bytes| == l.rest);
  }

  /** The size bytes from start on are the little-endian images of the successive words of the attempts in
      [from, to), the first one cut to reach an aligned address and the last one to the size. */
  ghost predicate FreshBytes(bs: seq<Byte>, a: Attempts, from: nat, to: nat, start: nat, size: nat) {
    LayoutPartitions(start, size);
    var l, s := LayoutOf(start, size), Successes(a, from, to);
    var h, t := if l.offset > 0 then 1 else 0, if l.rest > 0 then 1 else 0;
    && from <= to && |bs| == size && |s| == h + l.qWords + t
    && bs == (if h == 1 then LeBytes(s[0])[..l.offset] else []) + Flatten(s[h..h + l.qWords])
             + (if t == 1 then LeBytes(s[h + l.qWords])[..l.rest] else [])
  }

  lemma FillIsFresh(a: Attempts, pos: nat, start: nat, size: nat, limit: int)
    requires Generated(GetBytes(a, pos, start, size, limit)) == size
    ensures var f := GetBytes(a, pos, start, size, limit);
            FreshBytes(f.head + f.body + f.tail, a, pos, f.pos, start, size)
  {
    hide GetBytes, LeBytes, Flatten, Successes;
    FullFillContent(a, pos, start, size, limit);
    var _, _ := FillRegions(a, pos, start, size, limit);
  }

  /** A complete fill leaves its three regions side by side in the range. */
  lemma FilledWhole(m: seq<Byte>, start: nat, size: nat, f: Fill)
    requires start + size <= |m|
    requires var l := LayoutOf(start, size);
             |f.head| <= l.offset && |f.body| <= 8 * l.qWords && |f.tail| <= l.rest
    requires Generated(f) == size
    ensures Filled(m, start, size, f)[start..start + size] == f.head + f.body + f.tail
  {
    LayoutPartitions(start, size);
    var l := LayoutOf(start, size);
    hide LayoutOf;
    OverlayAdjacent(m, start, f.head, f.body);
    OverlayAdjacent(m, start, f.head + f.body, f.tail);
  }

  lemma SteadyWords(a: Attempts, pos: nat, count: nat, tries: nat)
    requires tries >= 1 && forall k: nat :: a(k).Some?
    ensures |ArrayFill(a, pos, count, tries).words| == count
  {
    ArrayFillStops(a, pos, count, tries);
    var r := ArrayFill(a, pos, count, tries);
    assert a(if r.pos >= tries then r.pos - tries else 0).Some?;
  }

  lemma SteadyBytes(a: Attempts, pos: nat, count: nat, tries: nat)
    requires tries >= 1 && forall k: nat :: a(k).Some?
    ensures |ByteFill(a, pos, count, tries).bytes| == count
  {
    hide ArrayFill;
    SteadyWords(a, pos, count / 8, tries);
    SteadyWords(a, RetryOnce(a, pos, tries).pos, count / 8, tries);
    RetryOnceIsFirstSuccess(a, pos, tries);
  }

  /** On hardware that never underflows every fill of a supported size is complete. */
  lemma SteadyFill(a: Attempts, pos: nat, start: nat, size: nat, limit: int)
    requires size < UINT_RANGE && forall k: nat :: a(k).Some?
    ensures Generated(GetBytes(a, pos, start, size, limit)) == size
  {
    hide ArrayFill, ByteFill;
    LayoutPartitions(start, size);
    var l := LayoutOf(start, size);
    var head := ByteFill(a, pos, l.offset, Tries(limit));
    SteadyBytes(a, pos, l.offset, Tries(limit));
    SteadyWords(a, head.pos, l.qWords, Tries(limit));
    SteadyBytes(a, ArrayFill(a, head.pos, l.qWords, Tries(limit)).pos, l.rest, Tries(limit));
  }

  /** The cut into regions, with the addresses the two later ones start at. */
  method CutRange(start: nat, size: nat) returns (l: Layout, alignedStart: nat)
    ensures l == LayoutOf(start, size) && alignedStart == start + l.offset
  {
    var offset, alignedBytes := 0, size;
    alignedStart := start;
    if size >= 8 {
      // The offset is 8, not 0, when start is already aligned, so the branch that the code keeps
      // for a zero offset is never taken.
      offset := 8 - start % 8;
      assert offset != 0;
      alignedStart := (start - start % 8) + 8;
      alignedBytes := (size - offset) % UINT_RANGE;
    }
    var rest := alignedBytes % 8;
    l := Layout(offset, (alignedBytes - rest) / 8, rest);
  }

  /** The head or the tail, when there is one. Word stores happen only for a whole-word head. */
  method FillEdge(dev: Device, mem: Memory, dest: nat, count: nat, limit: int) returns (generated: nat)
    requires dest + count <= mem.cells.Length
    requires count < 8 || (count == 8 && dest % 8 == 0)
    modifies dev, mem.cells, mem`wordStores
    ensures var r := ByteFill(dev.attempts, old(dev.pos), count, Tries(limit));
            && generated == |r.bytes| && dev.pos == r.pos
            && mem.cells[..] == Overlay(old(mem.cells[..]), dest, r.bytes)
    ensures old(mem.wordStores) <= mem.wordStores && AlignedFrom(mem.wordStores, |old(mem.wordStores)|)
  {
    hide ByteFill, Overlay;
    generated := 0;
    if count != 0 {
      generated := GetUint8ArrayRetry(dev, mem, dest, count, limit);
      AlignedStores(old(mem.wordStores), mem.wordStores, dest + count % 8, count / 8);
    } else {
      EmptyFills(dev.attempts, dev.pos, Tries(limit));
      OverlayNothing(mem.cells[..], dest);
    }
  }

  /** The aligned words, when there are any. */
  method FillWords(dev: Device, mem: Memory, dest: nat, count: nat, limit: int) returns (generated: nat)
    requires dest + 8 * count <= mem.cells.Length
    requires count > 0 ==> dest % 8 == 0
    modifies dev, mem.cells, mem`wordStores
    ensures var r := ArrayFill(dev.attempts, old(dev.pos), count, Tries(limit));
            && generated == |r.words| && dev.pos == r.pos
            && mem.cells[..] == Overlay(old(mem.cells[..]), dest, Flatten(r.words))
    ensures old(mem.wordStores) <= mem.wordStores && AlignedFrom(mem.wordStores, |old(mem.wordStores)|)
  {
    hide ArrayFill, Overlay;
    generated := 0;
    if count != 0 {
      generated := GetUint64ArrayRetry(dev, mem, dest, count, limit);
    } else {
      EmptyFills(dev.attempts, dev.pos, Tries(limit));
      OverlayNothing(mem.cells[..], dest);
    }
  }

  /** Fills [start, start + size) of the address space; every 64-bit store is aligned. */
  method GetBytesRetry(dev: Device, mem: Memory, start: nat, size: nat, limit: int)
    returns (generated: nat)
    requires start + size <= mem.cells.Length
    modifies dev, mem.cells, mem`wordStores
    ensures var f := GetBytes(dev.attempts, old(dev.pos), start, size, limit);
            && generated == Generated(f) && dev.pos == f.pos
            && mem.cells[..] == Filled(old(mem.cells[..]), start, size, f)
    ensures old(mem.wordStores) <= mem.wordStores && AlignedFrom(mem.wordStores, |old(mem.wordStores)|)
  {
    hide ArrayFill, ByteFill, LayoutOf, Overlay;
    LayoutPartitions(start, size);
    var retryLimit := if limit < 0 then RETRY_LIMIT else limit;
    var l, alignedStart := CutRange(start, size);
    var head := FillEdge(dev, mem, start, l.offset, retryLimit);
    var body := FillWords(dev, mem, alignedStart, l.qWords, retryLimit);
    var tail := FillEdge(dev, mem, alignedStart + 8 * l.qWords, l.rest, retryLimit);
    generated := head + 8 * body + tail;
  }
}
