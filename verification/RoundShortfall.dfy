/** When a round falls short (src/rdrand-gen.c): a thread gives up exactly when RETRY_LIMIT of its own
    attempts underflow in a row, whatever the other threads do in between. */
module RoundShortfall {
  import opened Retry
  import opened ParallelRound

  /** The outcomes of thread i's attempts, in order: true for a word, false for an underflow. */
  function Outcomes(sh: Shape, s: Round, turns: seq<nat>, i: nat): seq<bool> {
    if turns == [] then []
    else
      var before := turns[..|turns| - 1];
      var r := Run(sh, s, before);
      Outcomes(sh, s, before, i)
      + if turns[|turns| - 1] == i && i < |r.workers| && !r.workers[i].done then [sh.a(r.pos).Some?] else []
  }

  /** The RETRY_LIMIT outcomes from k on are underflows. */
  ghost predicate MissRun(os: seq<bool>, k: int) {
    0 <= k && k + RETRY_LIMIT <= |os| && forall j :: k <= j < k + RETRY_LIMIT ==> !os[j]
  }

  ghost predicate GivesUp(os: seq<bool>) {
    exists k :: MissRun(os, k)
  }

  /** The worker has left a slot of its chunk unfilled for good. */
  predicate LeftHole(chunkSize: nat, w: Worker) {
    w.missed || (w.done && w.slot < chunkSize)
  }

  /** The worker's state reflects its outcomes: `tries` counts the underflows since its last word. */
  ghost predicate Tracks(chunkSize: nat, w: Worker, os: seq<bool>) {
    if LeftHole(chunkSize, w) then GivesUp(os)
    else
      && !GivesUp(os) && w.tries <= |os|
      && (forall j :: |os| - w.tries <= j < |os| ==> !os[j])
      && (w.tries < |os| ==> os[|os| - w.tries - 1])
  }

  lemma StillGivesUp(os: seq<bool>, o: bool)
    requires GivesUp(os)
    ensures GivesUp(os + [o])
  {
    var k :| MissRun(os, k);
    assert MissRun(os + [o], k);
  }

  /** A new run of underflows can only be one that ends with the newest outcome. */
  lemma NewRun(os: seq<bool>, o: bool)
    requires !GivesUp(os)
    ensures GivesUp(os + [o]) <==> MissRun(os + [o], |os| + 1 - RETRY_LIMIT)
  {
    forall k | MissRun(os + [o], k) && k + RETRY_LIMIT <= |os|
      ensures MissRun(os, k)
    {
      assert forall j :: k <= j < k + RETRY_LIMIT ==> (os + [o])[j] == os[j];
    }
  }

  /** One attempt keeps the tracking. */
  lemma AdvanceTracks(chunkSize: nat, w: Worker, os: seq<bool>, o: bool)
    requires Tracks(chunkSize, w, os) && !w.done && w.slot < chunkSize && w.tries < RETRY_LIMIT
    ensures Tracks(chunkSize, Advance(chunkSize, w, o), os + [o])
  {
    if LeftHole(chunkSize, w) {
      StillGivesUp(os, o);
    } else {
      NewRun(os, o);
      if o || w.tries + 1 < RETRY_LIMIT {
        assert !MissRun(os + [o], |os| + 1 - RETRY_LIMIT) by {
          if |os| + 1 >= RETRY_LIMIT {
            assert (os + [o])[if o then |os| else |os| - w.tries - 1];
          }
        }
      } else {
        assert MissRun(os + [o], |os| + 1 - RETRY_LIMIT);
      }
    }
  }

  lemma StepTracks(sh: Shape, s: Round, before: seq<nat>, id: nat, i: nat, os: seq<bool>)
    requires Begins(sh, s) && i < sh.threads
    requires var r := Run(sh, s, before); i < |r.workers| && Tracks(sh.chunkSize, r.workers[i], os)
    ensures var r := Run(sh, s, before); var r' := Step(sh, r, id);
            && i < |r'.workers|
            && Tracks(sh.chunkSize, r'.workers[i],
                      os + if id == i && !r.workers[i].done then [sh.a(r.pos).Some?] else [])
  {
    hide Run, Tracks, Advance, Index;
    RunKeeps(sh, s, before);
    var r := Run(sh, s, before);
    assert WorkerOk(sh, r.workers[i]);
    assert os + [] == os;
    if id == i && !r.workers[i].done {
      AdvanceTracks(sh.chunkSize, r.workers[i], os, sh.a(r.pos).Some?);
    }
  }

  lemma {:induction false} WorkerTracks(sh: Shape, s: Round, turns: seq<nat>, i: nat)
    requires Begins(sh, s) && i < sh.threads && (sh.generating || sh.chunkSize == 0)
    ensures var r := Run(sh, s, turns); i < |r.workers| && Tracks(sh.chunkSize, r.workers[i], Outcomes(sh, s, turns, i))
  {
    if turns == [] {
    } else {
      var before, id := turns[..|turns| - 1], turns[|turns| - 1];
      WorkerTracks(sh, s, before, i);
      StepTracks(sh, s, before, id, i, Outcomes(sh, s, before, i));
    }
  }

  /** A sum of counts up to c reaches n * c only if each of them is c. */
  lemma {:induction false} WrittenFull(ws: seq<Worker>, n: nat, c: nat)
    requires n <= |ws| && forall i :: 0 <= i < n ==> Count(ws[i]) <= c
    ensures WrittenBy(ws, n) <= n * c
    ensures WrittenBy(ws, n) == n * c <==> forall i :: 0 <= i < n ==> Count(ws[i]) == c
  {
    hide Count;
    if n == 0 {
    } else {
      WrittenFull(ws, n - 1, c);
      assert n * c == (n - 1) * c + c;
    }
  }

  /** In no thread do RETRY_LIMIT attempts underflow in a row. */
  ghost predicate NoneGivesUp(sh: Shape, s: Round, turns: seq<nat>) {
    forall i: nat :: i < sh.threads ==> !GivesUp(Outcomes(sh, s, turns, i))
  }

  /** A finished worker has filled its whole chunk, unless it gave up. */
  lemma WorkerFills(sh: Shape, s: Round, turns: seq<nat>, i: nat)
    requires Begins(sh, s) && sh.generating && Finished(sh, Run(sh, s, turns)) && i < sh.threads
    ensures var r := Run(sh, s, turns);
            && i < |r.workers| && Count(r.workers[i]) <= sh.chunkSize
            && (Count(r.workers[i]) == sh.chunkSize <==> !GivesUp(Outcomes(sh, s, turns, i)))
  {
    hide Run, Outcomes, GivesUp, WrittenBy;
    RunKeeps(sh, s, turns);
    assert WorkerOk(sh, Run(sh, s, turns).workers[i]);
    WorkerTracks(sh, s, turns, i);
  }

  /** A finished round has generated everything exactly when no thread has underflowed RETRY_LIMIT
      times in a row, for every interleaving and every hardware. */
  lemma RoundFallsShort(sh: Shape, s: Round, turns: seq<nat>)
    requires Begins(sh, s) && sh.generating && Finished(sh, Run(sh, s, turns))
    ensures Written(Run(sh, s, turns).workers) == sh.threads * sh.chunkSize <==> NoneGivesUp(sh, s, turns)
  {
    hide Run, Outcomes, GivesUp, Count, WrittenBy, Finished;
    var ws := Run(sh, s, turns).workers;
    assert |ws| == sh.threads by { RunKeeps(sh, s, turns); }
    forall i: nat | i < sh.threads
      ensures Count(ws[i]) <= sh.chunkSize && (Count(ws[i]) == sh.chunkSize <==> !GivesUp(Outcomes(sh, s, turns, i)))
    {
      WorkerFills(sh, s, turns, i);
    }
    WrittenFull(ws, |ws|, sh.chunkSize);
  }

  /** Hardware that never underflows makes no thread give up. */
  lemma {:induction false} SteadyOutcomes(sh: Shape, s: Round, turns: seq<nat>, i: nat)
    requires forall k: nat :: sh.a(k).Some?
    ensures forall j :: 0 <= j < |Outcomes(sh, s, turns, i)| ==> Outcomes(sh, s, turns, i)[j]
  {
    if turns == [] {
    } else {
      SteadyOutcomes(sh, s, turns[..|turns| - 1], i);
    }
  }
}
