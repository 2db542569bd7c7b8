/** How a requested amount is cut into rounds of chunks and an ending (src/rdrand-gen.c). */
module ChunkPlan {
  import opened Arith

  const MAX_CHUNK_SIZE: nat := 2048

  datatype Plan = Plan(blocks: nat, chunkSize: nat, chunkCount: nat, endingBytes: nat)

  function ChunkSizeFor(bytes: nat, threads: nat): (c: nat)
    requires threads >= 1
    ensures c <= MAX_CHUNK_SIZE
  {
    var c := bytes / 8 / threads;
    if c > MAX_CHUNK_SIZE then MAX_CHUNK_SIZE else c
  }

  /** Rounds of `unit` words cover all but less than one more round, and the remainder by their
      whole product takes out exactly one multiple of it. */
  lemma OneMultiple(bytes: nat, unit: nat)
    requires 0 < unit <= bytes / 8
    ensures var count := bytes / 8 / unit;
            var total := 8 * (count * unit);
            count >= 1 && 0 < total <= bytes < total + 8 * unit && bytes % total == bytes - total
  {
    var blocks := bytes / 8;
    var count := blocks / unit;
    CapTimes(count, blocks, unit);
    DivZero(blocks, unit);
    MulStep(0, count, unit);
    assert blocks == count * unit + blocks % unit;
    var total := 8 * (count * unit);
    DivModUnique(bytes, total, 1, bytes - total);
  }

  lemma PlanExact(bytes: nat, threads: nat)
    requires threads >= 1
    ensures var c := ChunkSizeFor(bytes, threads);
            c > 0 ==>
              && 0 < c * threads <= bytes / 8
              && var count := bytes / 8 / (c * threads);
              && var total := 8 * (count * (c * threads));
              && c * count * threads * 8 == total > 0 && count >= 1
              && bytes % total == bytes - total < 8 * (c * threads)
  {
    var c := ChunkSizeFor(bytes, threads);
    if c > 0 {
      CapTimes(c, bytes / 8, threads);
      MulStep(0, c, threads);
      OneMultiple(bytes, c * threads);
      Regroup(c, bytes / 8 / (c * threads), threads);
    }
  }

  function PlanFor(bytes: nat, threads: nat): Plan
    requires threads >= 1
  {
    if bytes == 0 then Plan(0, MAX_CHUNK_SIZE, 0, 0)
    else
      var blocks := bytes / 8;
      var c := ChunkSizeFor(bytes, threads);
      if c == 0 then Plan(blocks, 0, 0, bytes)
      else
        PlanExact(bytes, threads);
        var count := blocks / (c * threads);
        Plan(blocks, c, count, bytes % (c * count * threads * 8))
  }

  /** A quotient is the largest number that goes into x that often. */
  lemma QuotientLargest(x: nat, d: nat)
    requires d > 0
    ensures x / d * d <= x < (x / d + 1) * d
  {
    CapTimes(x / d, x, d);
    assert (x / d + 1) * d == x / d * d + d;
    assert x == x / d * d + x % d;
  }

  /** The chunk size is the largest one up to 2048 words of which each thread can fill one; below that
      limit there is a single round. With no amount given chunks have the full size. */
  lemma PlanLargest(bytes: nat, threads: nat)
    requires threads >= 1
    ensures var p := PlanFor(bytes, threads);
            if bytes == 0 then p == Plan(0, 2048, 0, 0)
            else
              && p.blocks == bytes / 8 && p.chunkSize <= 2048
              && 8 * (p.chunkSize * threads) <= bytes
              && (p.chunkSize == 2048 || bytes < 8 * ((p.chunkSize + 1) * threads))
              && (0 < p.chunkSize < 2048 ==> p.chunkCount == 1)
  {
    if bytes > 0 {
      var blocks, p := bytes / 8, PlanFor(bytes, threads);
      var c := p.chunkSize;
      QuotientLargest(blocks, threads);
      PlanExact(bytes, threads);
      if c < 2048 {
        assert c == blocks / threads;
        if c > 0 {
          assert (c + 1) * threads == c * threads + threads;
          MulStep(0, c, threads);
          DivModUnique(blocks, c * threads, 1, blocks - c * threads);
        }
      } else {
        CapTimes(2048, blocks, threads);
      }
    }
  }

  /** The fields of cnf_t that the generator works on. Sizes of chunks are in 64-bit words. */
  class Config {
    var bytes: nat
    var threads: nat
    var aesFlag: bool
    var blocks: nat
    var chunkSize: nat
    var chunkCount: nat
    var endingBytes: nat

    constructor (bytes: nat, threads: nat, aesFlag: bool)
      ensures this.bytes == bytes && this.threads == threads && this.aesFlag == aesFlag
      ensures View() == Plan(0, 0, 0, 0)
    {
      this.bytes, this.threads, this.aesFlag := bytes, threads, aesFlag;
      blocks, chunkSize, chunkCount, endingBytes := 0, 0, 0, 0;
    }

    function View(): Plan
      reads this
    {
      Plan(blocks, chunkSize, chunkCount, endingBytes)
    }

    /** Cut the requested amount. */
    method ComputeChunkSize()
      requires threads >= 1
      modifies this`blocks, this`chunkSize, this`chunkCount, this`endingBytes
      ensures old(View()) == Plan(0, 0, 0, 0) ==> View() == PlanFor(bytes, threads)
    {
      if bytes > 0 {
        blocks := bytes / 8;
        chunkSize := blocks / threads;
        if chunkSize > MAX_CHUNK_SIZE {
          chunkSize := MAX_CHUNK_SIZE;
        }
        if chunkSize > 0 {
          PlanExact(bytes, threads);
          chunkCount := blocks / (chunkSize * threads);
          assert chunkSize * chunkCount * threads * 8 > 0;
          endingBytes := bytes % (chunkSize * chunkCount * threads * 8);
        } else {
          endingBytes := bytes;
        }
      } else {
        chunkSize := MAX_CHUNK_SIZE;
      }
    }
  }

  /** The plan is exact: rounds of equal chunks and one ending add up to the amount asked for. */
  lemma PlanCoversAmount(bytes: nat, threads: nat)
    requires bytes > 0 && threads >= 1
    ensures var p := PlanFor(bytes, threads);
            && 8 * (p.chunkCount * (p.chunkSize * threads)) + p.endingBytes == bytes
            && p.chunkSize <= MAX_CHUNK_SIZE
            && (p.chunkSize > 0 <==> p.chunkCount >= 1)
            && p.endingBytes < 8 * ((if p.chunkSize == 0 then 1 else p.chunkSize) * threads)
  {
    PlanExact(bytes, threads);
    DivZero(bytes / 8, threads);
  }
}
