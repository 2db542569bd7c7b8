/** Bytes, machine words and their images in memory, shared by every component. */
module Machine {
  type Byte = bv8
  type Word = bv64

  datatype Option<+T> = None | Some(value: T)

  /** What one fwrite call does: it accepts everything, or at most n items. */
  datatype Write = Whole | Short(n: nat)

  function Accepted(w: Write, items: nat): (k: nat)
    ensures k <= items && (k == items <==> w.Whole? || w.n >= items)
  {
    if w.Whole? || w.n > items then items else w.n
  }

  /** Every partial result of fwrite is covered. */
  lemma AcceptedAny(k: nat, items: nat)
    ensures k <= items ==> Accepted(Short(k), items) == k
    ensures Accepted(Whole, items) == items
  {
  }

  /** The in-memory image of a 64-bit word on x86: least significant byte first. */
  function LeBytes(w: Word): (s: seq<Byte>)
    ensures |s| == 8
  {
    [ (w & 0xFF) as Byte, ((w >> 8) & 0xFF) as Byte,
      ((w >> 16) & 0xFF) as Byte, ((w >> 24) & 0xFF) as Byte,
      ((w >> 32) & 0xFF) as Byte, ((w >> 40) & 0xFF) as Byte,
      ((w >> 48) & 0xFF) as Byte, ((w >> 56) & 0xFF) as Byte ]
  }

  /** The word whose memory image is s. */
  function LeWord(s: seq<Byte>): Word
    requires |s| == 8
  {
    (s[0] as Word) | ((s[1] as Word) << 8) | ((s[2] as Word) << 16) | ((s[3] as Word) << 24) |
    ((s[4] as Word) << 32) | ((s[5] as Word) << 40) | ((s[6] as Word) << 48) | ((s[7] as Word) << 56)
  }

  /** No bit of a hardware word is lost when it is stored. */
  lemma LeWordOfLeBytes(w: Word)
    ensures LeWord(LeBytes(w)) == w
  {
  }

  /** The in-memory image of an array of words. */
  function Flatten(ws: seq<Word>): (s: seq<Byte>)
    ensures |s| == 8 * |ws|
  {
    if ws == [] then [] else LeBytes(ws[0]) + Flatten(ws[1..])
  }

  lemma {:induction false} FlattenConcat(xs: seq<Word>, ys: seq<Word>)
    ensures Flatten(xs + ys) == Flatten(xs) + Flatten(ys)
  {
    if xs == [] {
      assert xs + ys == ys;
    } else {
      assert (xs + ys)[1..] == xs[1..] + ys;
      FlattenConcat(xs[1..], ys);
    }
  }

  lemma FlattenAppend(xs: seq<Word>, w: Word)
    ensures Flatten(xs + [w]) == Flatten(xs) + LeBytes(w)
  {
    FlattenConcat(xs, [w]);
    assert Flatten([w]) == LeBytes(w) + Flatten([]);
  }

  /** No byte overlaps another one in the word. */
  lemma BytesApart(b0: Byte, b1: Byte, b2: Byte, b3: Byte, b4: Byte, b5: Byte, b6: Byte, b7: Byte)
    ensures LeBytes(LeWord([b0, b1, b2, b3, b4, b5, b6, b7])) == [b0, b1, b2, b3, b4, b5, b6, b7]
  {
    var w := (b0 as Word) | ((b1 as Word) << 8) | ((b2 as Word) << 16) | ((b3 as Word) << 24) |
             ((b4 as Word) << 32) | ((b5 as Word) << 40) | ((b6 as Word) << 48) | ((b7 as Word) << 56);
    assert LeWord([b0, b1, b2, b3, b4, b5, b6, b7]) == w;
  }

  lemma LeBytesOfLeWord(s: seq<Byte>)
    requires |s| == 8
    ensures LeBytes(LeWord(s)) == s
  {
    hide LeBytes, LeWord;
    BytesApart(s[0], s[1], s[2], s[3], s[4], s[5], s[6], s[7]);
    assert [s[0], s[1], s[2], s[3], s[4], s[5], s[6], s[7]] == s;
  }

  lemma {:induction false} FlattenAt(ws: seq<Word>, j: nat)
    requires j < |ws|
    ensures Flatten(ws)[8 * j..8 * j + 8] == LeBytes(ws[j])
  {
    if j == 0 {
    } else {
      FlattenAt(ws[1..], j - 1);
      assert Flatten(ws)[8 * j..8 * j + 8] == Flatten(ws[1..])[8 * (j - 1)..8 * (j - 1) + 8];
    }
  }

  /** Bytes are the image of a buffer if they are so word by word. */
  lemma {:induction false} FlattenIs(ws: seq<Word>, s: seq<Byte>)
    requires |s| == 8 * |ws| && forall j: nat :: j < |ws| ==> s[8 * j..8 * j + 8] == LeBytes(ws[j])
    ensures Flatten(ws) == s
  {
    if ws == [] {
    } else {
      forall j: nat | j < |ws[1..]|
        ensures s[8..][8 * j..8 * j + 8] == LeBytes(ws[1..][j])
      {
        assert s[8 * (j + 1)..8 * (j + 1) + 8] == LeBytes(ws[j + 1]);
        assert s[8..][8 * j..8 * j + 8] == s[8 * (j + 1)..8 * (j + 1) + 8];
      }
      FlattenIs(ws[1..], s[8..]);
      assert s[8 * 0..8 * 0 + 8] == s[..8];
      assert s == s[..8] + s[8..];
    }
  }

  /** Memory m with the bytes s stored from address at on. */
  function Overlay(m: seq<Byte>, at: nat, s: seq<Byte>): (r: seq<Byte>)
    requires at + |s| <= |m|
    ensures |r| == |m|
  {
    m[..at] + s + m[at + |s|..]
  }

  lemma OverlayNothing(m: seq<Byte>, at: nat)
    requires at <= |m|
    ensures Overlay(m, at, []) == m
  {
  }

  /** What an overlay leaves alone, and what it stores. */
  lemma OverlayAt(m: seq<Byte>, at: nat, s: seq<Byte>, k: nat)
    requires at + |s| <= |m| && k < |m|
    ensures Overlay(m, at, s)[k] == if at <= k < at + |s| then s[k - at] else m[k]
  {
  }

  lemma OverlayAdjacent(m: seq<Byte>, at: nat, s: seq<Byte>, t: seq<Byte>)
    requires at + |s| + |t| <= |m|
    ensures Overlay(Overlay(m, at, s), at + |s|, t) == Overlay(m, at, s + t)
  {
  }

  /** memcpy of s into dest from position at on. */
  method StoreAt(dest: array<Byte>, at: nat, s: seq<Byte>)
    requires at + |s| <= dest.Length
    modifies dest
    ensures dest[..] == Overlay(old(dest[..]), at, s)
  {
    forall k | 0 <= k < |s| {
      dest[at + k] := s[k];
    }
  }
}
