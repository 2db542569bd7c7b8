/** The retry loops around the RDRAND instruction (src/librdrand.c).

    The instruction is an oracle: a run of the program is one stream of attempts,
    each of which either yields a word or underflows. Every statement below holds for
    every such stream. */
module Retry {
  import opened Machine

  type Attempts = nat -> Option<Word>

  const RETRY_LIMIT: nat := 10
  const SKIPPED: nat := 1024

  class Device {
    const attempts: Attempts
    var pos: nat

    constructor (attempts: Attempts)
      ensures this.attempts == attempts && pos == 0
    {
      this.attempts := attempts;
      pos := 0;
    }

    method Step() returns (r: Option<Word>)
      modifies this
      ensures r == attempts(old(pos)) && pos == old(pos) + 1
    {
      r := attempts(pos);
      pos := pos + 1;
    }
  }

  /** Attempts made per value: a negative limit means the default, and the
      do-while loops run at least once. */
  function Tries(limit: int): (t: nat)
    ensures t >= 1 && (limit > 0 ==> t == limit) && (limit == 0 ==> t == 1) && (limit < 0 ==> t == 10)
  {
    if limit < 0 then RETRY_LIMIT else if limit == 0 then 1 else limit
  }

  /** All of the len attempts from position from on underflow. */
  ghost predicate FailRun(a: Attempts, from: nat, len: nat) {
    forall k: nat :: from <= k < from + len ==> a(k).None?
  }

  /** Some run of len consecutive underflows lies inside [from, to). */
  ghost predicate HasFailRun(a: Attempts, from: nat, to: nat, len: nat) {
    exists k: nat :: from <= k && k + len <= to && FailRun(a, k, len)
  }

  /** The values of the successful attempts in [from, to), in order. */
  function Successes(a: Attempts, from: nat, to: nat): (s: seq<Word>)
    decreases to - from
  {
    if from >= to then []
    else (if a(from).Some? then [a(from).value] else []) + Successes(a, from + 1, to)
  }

  lemma {:induction false} SuccessesSplit(a: Attempts, from: nat, mid: nat, to: nat)
    requires from <= mid <= to
    ensures Successes(a, from, to) == Successes(a, from, mid) + Successes(a, mid, to)
    decreases mid - from
  {
    if from < mid {
      SuccessesSplit(a, from + 1, mid, to);
    }
  }

  lemma {:induction false} NoSuccesses(a: Attempts, from: nat, len: nat)
    requires FailRun(a, from, len)
    ensures Successes(a, from, from + len) == []
    decreases len
  {
    if len > 0 {
      assert FailRun(a, from + 1, len - 1);
      NoSuccesses(a, from + 1, len - 1);
    }
  }

  datatype Draw = Draw(word: Option<Word>, pos: nat)

  /** One do-while group of at most tries attempts. */
  function RetryOnce(a: Attempts, pos: nat, tries: nat): (d: Draw)
    requires tries >= 1
    ensures pos < d.pos <= pos + tries
    decreases tries
  {
    if a(pos).Some? || tries == 1 then Draw(a(pos), pos + 1) else RetryOnce(a, pos + 1, tries - 1)
  }

  /** A group ends at its first success or after `tries` underflows. */
  lemma {:induction false} RetryOnceIsFirstSuccess(a: Attempts, pos: nat, tries: nat)
    requires tries >= 1
    ensures var d := RetryOnce(a, pos, tries);
            && d.word == a(d.pos - 1)
            && FailRun(a, pos, d.pos - 1 - pos)
            && (d.word.None? ==> d.pos == pos + tries)
    decreases tries
  {
    if a(pos).None? && tries > 1 {
      RetryOnceIsFirstSuccess(a, pos + 1, tries - 1);
    }
  }

  /** A group ends with a word, or after exactly `tries` underflows. */
  lemma GroupEnds(a: Attempts, pos: nat, tries: nat)
    requires tries >= 1
    ensures var d := RetryOnce(a, pos, tries);
            && d.word == a(d.pos - 1)
            && (d.word.None? ==> d.pos == pos + tries && FailRun(a, pos, tries))
  {
    RetryOnceIsFirstSuccess(a, pos, tries);
  }

  /** A group draws its one value, or nothing after exactly `tries` underflows. */
  lemma GroupSuccesses(a: Attempts, pos: nat, tries: nat)
    requires tries >= 1
    ensures var d := RetryOnce(a, pos, tries);
            Successes(a, pos, d.pos) == (if d.word.Some? then [d.word.value] else [])
  {
    var d := RetryOnce(a, pos, tries);
    RetryOnceIsFirstSuccess(a, pos, tries);
    SuccessesSplit(a, pos, d.pos - 1, d.pos);
    NoSuccesses(a, pos, d.pos - 1 - pos);
    assert Successes(a, d.pos, d.pos) == [];
  }

  method GetUint64Retry(dev: Device, limit: int) returns (r: Option<Word>)
    modifies dev
    ensures Draw(r, dev.pos) == RetryOnce(dev.attempts, old(dev.pos), Tries(limit))
  {
    var retryLimit := if limit < 0 then RETRY_LIMIT else limit;
    r := dev.Step();
    var count := 1;
    while r.None? && count < retryLimit
      invariant 1 <= count <= Tries(limit)
      invariant dev.pos == old(dev.pos) + count
      invariant r == dev.attempts(dev.pos - 1)
      invariant RetryOnce(dev.attempts, old(dev.pos), Tries(limit)) ==
                if r.Some? || count == Tries(limit) then Draw(r, dev.pos)
                else RetryOnce(dev.attempts, dev.pos, Tries(limit) - count)
    {
      r := dev.Step();
      count := count + 1;
    }
  }

  datatype Batch = Batch(words: seq<Word>, pos: nat)

  /** count groups in a row, given up at the first group that draws nothing. */
  function ArrayFill(a: Attempts, pos: nat, count: nat, tries: nat): (r: Batch)
    requires tries >= 1
    ensures r.pos >= pos && |r.words| <= count
  {
    if count == 0 then Batch([], pos)
    else
      var r := ArrayFill(a, pos, count - 1, tries);
      if |r.words| < count - 1 then r
      else
        var d := RetryOnce(a, r.pos, tries);
        Batch(r.words + (if d.word.Some? then [d.word.value] else []), d.pos)
  }

  /** A fill that fell short stays where it is. */
  lemma {:induction false} ArrayFillStuck(a: Attempts, pos: nat, n: nat, count: nat, tries: nat)
    requires tries >= 1 && n <= count
    requires |ArrayFill(a, pos, n, tries).words| < n
    ensures ArrayFill(a, pos, count, tries) == ArrayFill(a, pos, n, tries)
  {
    if n < count {
      ArrayFillStuck(a, pos, n, count - 1, tries);
    }
  }

  lemma {:induction false} ArrayFillWords(a: Attempts, pos: nat, count: nat, tries: nat)
    requires tries >= 1
    ensures var r := ArrayFill(a, pos, count, tries); r.words == Successes(a, pos, r.pos)
  {
    if count > 0 {
      var r := ArrayFill(a, pos, count - 1, tries);
      ArrayFillWords(a, pos, count - 1, tries);
      if |r.words| == count - 1 {
        GroupSuccesses(a, r.pos, tries);
        SuccessesSplit(a, pos, r.pos, RetryOnce(a, r.pos, tries).pos);
      }
    }
  }

  /** Groups attempted: one per value, and the one that drew nothing. */
  function Groups(r: Batch, count: nat): nat {
    if |r.words| < count then |r.words| + 1 else count
  }

  lemma {:induction false} ArrayFillBudget(a: Attempts, pos: nat, count: nat, tries: nat)
    requires tries >= 1
    ensures var r := ArrayFill(a, pos, count, tries); r.pos <= pos + tries * Groups(r, count)
  {
    if count > 0 {
      var r := ArrayFill(a, pos, count - 1, tries);
      ArrayFillBudget(a, pos, count - 1, tries);
      if |r.words| == count - 1 {
        assert tries * count == tries * (count - 1) + tries;
      }
    }
  }

  /** A run of `tries` underflows cannot reach into a group that drew a value. */
  lemma FailRunSkipsGroup(a: Attempts, from: nat, pos: nat, tries: nat)
    requires tries >= 1 && from <= pos
    requires !HasFailRun(a, from, pos, tries)
    requires pos > from ==> a(pos - 1).Some?
    ensures var d := RetryOnce(a, pos, tries);
            && (d.word.Some? ==> !HasFailRun(a, from, d.pos, tries))
            && (d.word.None? ==> FailRun(a, pos, tries))
  {
    var d := RetryOnce(a, pos, tries);
    RetryOnceIsFirstSuccess(a, pos, tries);
    if d.word.Some? {
      forall k: nat | from <= k && k + tries <= d.pos
        ensures !FailRun(a, k, tries)
      {
        assert k + tries == d.pos ==> a(d.pos - 1).Some?;
        assert k < pos < k + tries ==> a(pos - 1).Some?;
      }
    }
  }

  lemma {:induction false} ArrayFillStops(a: Attempts, pos: nat, count: nat, tries: nat)
    requires tries >= 1
    ensures var r := ArrayFill(a, pos, count, tries);
            && (|r.words| < count ==> r.pos >= pos + tries && FailRun(a, r.pos - tries, tries))
            && (|r.words| == count ==> !HasFailRun(a, pos, r.pos, tries))
            && (|r.words| == count && r.pos > pos ==> a(r.pos - 1).Some?)
  {
    if count > 0 {
      var r := ArrayFill(a, pos, count - 1, tries);
      ArrayFillStops(a, pos, count - 1, tries);
      if |r.words| == count - 1 {
        RetryOnceIsFirstSuccess(a, r.pos, tries);
        FailRunSkipsGroup(a, pos, r.pos, tries);
      }
    }
  }

  /** The array fill refines a scan of the attempt stream: it yields exactly the successful
      values of the attempts it consumed, in order; it falls short exactly when `tries`
      attempts in a row underflow, and those are the last ones made; and it makes at most
      `tries` attempts per value, plus one last group when it gives up. */
  lemma ArrayFillIsScan(a: Attempts, pos: nat, count: nat, tries: nat)
    requires tries >= 1
    ensures var r := ArrayFill(a, pos, count, tries);
            && r.words == Successes(a, pos, r.pos)
            && (|r.words| < count <==> HasFailRun(a, pos, r.pos, tries))
            && (|r.words| < count ==> r.pos >= pos + tries && FailRun(a, r.pos - tries, tries))
            && r.pos <= pos + tries * Groups(r, count)
  {
    ArrayFillWords(a, pos, count, tries);
    ArrayFillBudget(a, pos, count, tries);
    ArrayFillStops(a, pos, count, tries);
  }

  /** A stretch of attempts as the retry loops leave it: it was completed exactly if `tries` underflows
      in a row do not occur in it, and then it ends with a word. */
  ghost predicate Stretch(a: Attempts, from: nat, to: nat, tries: nat, complete: bool) {
    && from <= to && (complete <==> !HasFailRun(a, from, to, tries))
    && (complete && to > from ==> a(to - 1).Some?)
  }

  lemma EmptyStretch(a: Attempts, pos: nat, tries: nat)
    requires tries >= 1
    ensures Stretch(a, pos, pos, tries, true)
  {
  }

  /** Where the first stretch ended with a word no run of underflows crosses over. */
  lemma StretchJoin(a: Attempts, from: nat, mid: nat, to: nat, tries: nat, first: bool, second: bool)
    requires tries >= 1 && Stretch(a, from, mid, tries, first) && Stretch(a, mid, to, tries, second)
    ensures Stretch(a, from, to, tries, first && second)
  {
    if first && second {
      forall k: nat | from <= k && k + tries <= to
        ensures !FailRun(a, k, tries)
      {
        assert k < mid < k + tries ==> a(mid - 1).Some?;
      }
    } else if first {
      var k: nat :| mid <= k && k + tries <= to && FailRun(a, k, tries);
      assert HasFailRun(a, from, to, tries);
    } else {
      var k: nat :| from <= k && k + tries <= mid && FailRun(a, k, tries);
      assert HasFailRun(a, from, to, tries);
    }
  }

  lemma GroupStretch(a: Attempts, pos: nat, tries: nat)
    requires tries >= 1
    ensures var d := RetryOnce(a, pos, tries); Stretch(a, pos, d.pos, tries, d.word.Some?)
  {
    RetryOnceIsFirstSuccess(a, pos, tries);
    FailRunSkipsGroup(a, pos, pos, tries);
  }

  lemma ArrayStretch(a: Attempts, pos: nat, count: nat, tries: nat)
    requires tries >= 1
    ensures var r := ArrayFill(a, pos, count, tries); Stretch(a, pos, r.pos, tries, |r.words| == count)
  {
    hide ArrayFill;
    ArrayFillStops(a, pos, count, tries);
  }

  /** The first group, and the rest of the fill from where it ends. */
  lemma {:induction false} ArrayFillFront(a: Attempts, pos: nat, count: nat, tries: nat)
    requires tries >= 1 && count >= 1
    ensures var d := RetryOnce(a, pos, tries);
            ArrayFill(a, pos, count, tries) ==
            if d.word.None? then Batch([], d.pos)
            else var rest := ArrayFill(a, d.pos, count - 1, tries); Batch([d.word.value] + rest.words, rest.pos)
  {
    hide RetryOnce;
    var d := RetryOnce(a, pos, tries);
    assert ArrayFill(a, pos, 0, tries) == Batch([], pos);
    if count == 1 {
      assert d.word.Some? ==> ArrayFill(a, d.pos, 0, tries) == Batch([], d.pos);
    } else {
      ArrayFillFront(a, pos, count - 1, tries);
    }
  }

  datatype Skips = Skips(words: seq<Word>, at: seq<nat>, pos: nat)

  /** The reseeding variant: 1024 attempts are thrown away before every group.
      at[k] is the attempt that supplied the k-th saved word. */
  function SkipFill(a: Attempts, pos: nat, count: nat, tries: nat): (r: Skips)
    requires tries >= 1
    ensures |r.words| == |r.at| <= count
  {
    if count == 0 then Skips([], [], pos)
    else
      var r := SkipFill(a, pos, count - 1, tries);
      if |r.words| < count - 1 then r
      else
        var d := RetryOnce(a, r.pos + SKIPPED, tries);
        if d.word.Some? then Skips(r.words + [d.word.value], r.at + [d.pos - 1], d.pos)
        else r.(pos := d.pos)
  }

  lemma {:induction false} SkipFillStuck(a: Attempts, pos: nat, n: nat, count: nat, tries: nat)
    requires tries >= 1 && n <= count
    requires |SkipFill(a, pos, n, tries).words| < n
    ensures SkipFill(a, pos, count, tries) == SkipFill(a, pos, n, tries)
  {
    if n < count {
      SkipFillStuck(a, pos, n, count - 1, tries);
    }
  }

  /** Saved word k comes from a group that starts exactly 1024 discarded attempts after the previous
      word, and at least 1024 * (k + 1) + k attempts went before it. */
  ghost predicate SpacedAt(a: Attempts, pos: nat, r: Skips, tries: nat, k: nat)
    requires k < |r.words| == |r.at|
  {
    var group := (if k == 0 then pos else r.at[k - 1] + 1) + SKIPPED;
    && a(r.at[k]) == Some(r.words[k])
    && group <= r.at[k] < group + tries
    && FailRun(a, group, r.at[k] - group)
    && r.at[k] >= pos + SKIPPED * (k + 1) + k
  }

  /** A later group leaves the words before it where they are. */
  lemma SpacedStays(a: Attempts, pos: nat, r: Skips, s: Skips, tries: nat, k: nat)
    requires k < |r.words| == |r.at| && |s.words| == |s.at| && r.words <= s.words && r.at <= s.at
    requires SpacedAt(a, pos, r, tries, k)
    ensures SpacedAt(a, pos, s, tries, k)
  {
    hide FailRun;
  }

  /** The word drawn by the group after r. */
  lemma SpacedNext(a: Attempts, pos: nat, r: Skips, tries: nat)
    requires tries >= 1 && |r.words| == |r.at|
    requires r.pos == if r.at == [] then pos else r.at[|r.at| - 1] + 1
    requires r.at != [] ==> SpacedAt(a, pos, r, tries, |r.at| - 1)
    ensures var d := RetryOnce(a, r.pos + SKIPPED, tries);
            d.word.Some? ==> SpacedAt(a, pos, Skips(r.words + [d.word.value], r.at + [d.pos - 1], d.pos), tries, |r.at|)
  {
    hide RetryOnce, FailRun;
    RetryOnceIsFirstSuccess(a, r.pos + SKIPPED, tries);
  }

  /** For any pattern of underflows, the saved words come from increasing attempts, spaced like that. */
  lemma {:induction false} SkipSpacing(a: Attempts, pos: nat, count: nat, tries: nat)
    requires tries >= 1
    ensures var r := SkipFill(a, pos, count, tries);
            && (forall k: nat :: k < |r.at| ==> SpacedAt(a, pos, r, tries, k))
            && (|r.at| == count ==> r.pos == if count == 0 then pos else r.at[count - 1] + 1)
  {
    hide RetryOnce, SpacedAt;
    if count == 0 {
    } else {
      SkipSpacing(a, pos, count - 1, tries);
      var r := SkipFill(a, pos, count - 1, tries);
      var s := SkipFill(a, pos, count, tries);
      if |r.at| == count - 1 {
        SpacedNext(a, pos, r, tries);
      }
      forall k: nat | k < |s.at|
        ensures SpacedAt(a, pos, s, tries, k)
      {
        if k < |r.at| {
          SpacedStays(a, pos, r, s, tries, k);
        }
      }
    }
  }

  /** Where the group behind the last saved word begins: 1024 attempts after it. */
  function NextGroup(r: Skips, pos: nat): nat
    requires |r.words| == |r.at|
  {
    (if r.at == [] then pos else r.at[|r.at| - 1] + 1) + 1024
  }

  /** The reseeding fill falls short exactly when `tries` attempts in a row underflow, right after the 1024
      discarded ones, and these are then the last ones made; otherwise all count words are saved. */
  lemma {:induction false} SkipStops(a: Attempts, pos: nat, count: nat, tries: nat)
    requires tries >= 1
    ensures var r := SkipFill(a, pos, count, tries);
            && (|r.words| < count ==> r.pos == NextGroup(r, pos) + tries && FailRun(a, NextGroup(r, pos), tries))
            && (|r.words| == count && count > 0 ==> r.pos > 0 && a(r.pos - 1).Some?)
  {
    hide RetryOnce, FailRun, SpacedAt;
    if count == 0 {
    } else {
      SkipStops(a, pos, count - 1, tries);
      SkipSpacing(a, pos, count - 1, tries);
      GroupEnds(a, SkipFill(a, pos, count - 1, tries).pos + SKIPPED, tries);
    }
  }

  /** At most 1024 + tries attempts are made for each saved word, and for one more that is not. */
  lemma {:induction false} SkipBudget(a: Attempts, pos: nat, count: nat, tries: nat)
    requires tries >= 1
    ensures var r := SkipFill(a, pos, count, tries);
            r.pos <= pos + (1024 + tries) * (if |r.words| < count then |r.words| + 1 else count)
  {
    hide RetryOnce;
    if count == 0 {
    } else {
      SkipBudget(a, pos, count - 1, tries);
      var group := 1024 + tries;
      assert group * count == group * (count - 1) + group;
    }
  }

  /** So the words are short of count if and only if the attempts end with that run of underflows. */
  lemma SkipFallsShort(a: Attempts, pos: nat, count: nat, tries: nat)
    requires tries >= 1
    ensures var r := SkipFill(a, pos, count, tries);
            |r.words| < count <==> r.pos >= pos + 1024 + tries && FailRun(a, r.pos - tries, tries)
  {
    hide SkipFill;
    var r := SkipFill(a, pos, count, tries);
    SkipStops(a, pos, count, tries);
    SkipSpacing(a, pos, count, tries);
    if |r.words| < count {
      assert r.at != [] ==> SpacedAt(a, pos, r, tries, |r.at| - 1);
    } else if r.pos > 0 {
      assert a(r.pos - 1).Some? || count == 0;
    }
  }

  method Discard(dev: Device, count: nat)
    modifies dev
    ensures dev.pos == old(dev.pos) + count
  {
    var n := 0;
    while n < count
      invariant n <= count && dev.pos == old(dev.pos) + n
    {
      var _ := dev.Step();
      n := n + 1;
    }
  }

  method SkipOne(dev: Device, limit: int) returns (r: Option<Word>)
    modifies dev
    ensures var d := RetryOnce(dev.attempts, old(dev.pos) + SKIPPED, Tries(limit));
            r == d.word && dev.pos == d.pos
  {
    Discard(dev, SKIPPED);
    r := GetUint64Retry(dev, limit);
  }

  method GetUint64ArrayReseedSkip(dev: Device, dest: array<Word>, count: nat, limit: int) returns (generated: nat)
    requires count <= dest.Length
    modifies dev, dest
    ensures var r := SkipFill(dev.attempts, old(dev.pos), count, Tries(limit));
            generated == |r.words| && dev.pos == r.pos && dest[..generated] == r.words
    ensures forall k :: generated <= k < dest.Length ==> dest[k] == old(dest[k])
  {
    hide RetryOnce;
    generated := 0;
    for i := 0 to count
      invariant generated == i
      invariant forall k :: i <= k < dest.Length ==> dest[k] == old(dest[k])
      invariant var r := SkipFill(dev.attempts, old(dev.pos), i, Tries(limit));
                |r.words| == i && dev.pos == r.pos && forall k :: 0 <= k < i ==> dest[k] == r.words[k]
    {
      var r := SkipOne(dev, limit);
      if r.None? {
        SkipFillStuck(dev.attempts, old(dev.pos), i + 1, count, Tries(limit));
        break;
      }
      dest[i] := r.value;
      generated := generated + 1;
    }
  }
}
