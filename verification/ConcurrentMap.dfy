/**
 Workers that map over a list with a shared cursor. Whatever order the workers run in, every item is started once, in
 list order, and when all workers have come back without a failure every item is done. A worker that fails stops; the
 others keep taking items.
 */
module ConcurrentMap {
  /** A busy worker has reached a stage of its item. */
  datatype Worker = Ready | Busy(item: nat, stage: nat) | Finished | Broken(item: nat)

  datatype Pool = Pool(size: nat, cursor: nat, workers: seq<Worker>, done: set<nat>, started: seq<nat>)

  predicate UsableConcurrency(concurrency: int) {
    1 <= concurrency <= 64
  }

  function NewPool(size: nat, concurrency: nat): (p: Pool)
    requires UsableConcurrency(concurrency)
    ensures Sound(p) && p.size == size
  {
    Pool(size, 0, seq(if concurrency < size then concurrency else size, _ => Ready), {}, [])
  }

  // ---- Steps -----------------------------------------------------------------------------------------------

  predicate CanTake(p: Pool, w: nat) {
    w < |p.workers| && p.workers[w] == Ready
  }

  predicate IsBusy(p: Pool, w: nat) {
    w < |p.workers| && p.workers[w].Busy?
  }

  /** A worker back from its item takes the next one, or leaves. */
  function Take(p: Pool, w: nat): Pool
    requires CanTake(p, w)
  {
    if p.cursor < p.size then
      p.(cursor := p.cursor + 1, workers := p.workers[w := Busy(p.cursor, 0)], started := p.started + [p.cursor])
    else
      p.(workers := p.workers[w := Finished])
  }

  function Advance(p: Pool, w: nat): Pool
    requires IsBusy(p, w)
  {
    p.(workers := p.workers[w := p.workers[w].(stage := p.workers[w].stage + 1)])
  }

  function Complete(p: Pool, w: nat): Pool
    requires IsBusy(p, w)
  {
    p.(workers := p.workers[w := Ready], done := p.done + {p.workers[w].item})
  }

  function Break(p: Pool, w: nat): Pool
    requires IsBusy(p, w)
  {
    p.(workers := p.workers[w := Broken(p.workers[w].item)])
  }

  // ---- The invariant ---------------------------------------------------------------------------------------

  predicate Holding(worker: Worker) {
    worker.Busy? || worker.Broken?
  }

  predicate HeldBySome(p: Pool, item: nat) {
    exists w :: 0 <= w < |p.workers| && Holding(p.workers[w]) && p.workers[w].item == item
  }

  /** The items taken so far are the first ones, each of them done or in the hands of exactly one worker. */
  predicate Sound(p: Pool) {
    && p.cursor <= p.size && |p.started| == p.cursor && (0 < p.size ==> 0 < |p.workers|)
    && (forall i :: 0 <= i < p.cursor ==> p.started[i] == i)
    && (forall i :: i in p.done ==> i < p.cursor)
    && (forall i: nat :: i < p.cursor && i !in p.done ==> HeldBySome(p, i))
    && (forall w :: 0 <= w < |p.workers| && Holding(p.workers[w]) ==> p.workers[w].item < p.cursor && p.workers[w].item !in p.done)
    && (forall v, w :: 0 <= v < w < |p.workers| && Holding(p.workers[v]) && Holding(p.workers[w])
          ==> p.workers[v].item != p.workers[w].item)
    && (forall w :: 0 <= w < |p.workers| && p.workers[w] == Finished ==> p.cursor == p.size)
  }

  predicate AllFinished(p: Pool) {
    forall w :: 0 <= w < |p.workers| ==> p.workers[w] == Finished
  }

  lemma TakeKeepsSound(p: Pool, w: nat)
    requires Sound(p) && CanTake(p, w)
    ensures Sound(Take(p, w))
  {
    var after := Take(p, w);
    forall i: nat | i < after.cursor && i !in after.done ensures HeldBySome(after, i) {
      if i < p.cursor {
        var v :| 0 <= v < |p.workers| && Holding(p.workers[v]) && p.workers[v].item == i;
        assert after.workers[v] == p.workers[v];
      } else {
        assert after.workers[w] == Busy(i, 0);
      }
    }
  }

  lemma AdvanceKeepsSound(p: Pool, w: nat)
    requires Sound(p) && IsBusy(p, w)
    ensures Sound(Advance(p, w)) && Sound(Break(p, w))
  {
    KeptHolders(p, Advance(p, w), w);
    KeptHolders(p, Break(p, w), w);
  }

  lemma KeptHolders(p: Pool, after: Pool, w: nat)
    requires Sound(p) && IsBusy(p, w) && |after.workers| == |p.workers|
    requires after == p.(workers := p.workers[w := after.workers[w]])
    requires Holding(after.workers[w]) && after.workers[w].item == p.workers[w].item
    ensures Sound(after)
  {
    forall i: nat | i < after.cursor && i !in after.done ensures HeldBySome(after, i) {
      var v :| 0 <= v < |p.workers| && Holding(p.workers[v]) && p.workers[v].item == i;
      assert Holding(after.workers[v]) && after.workers[v].item == i;
    }
  }

  lemma CompleteKeepsSound(p: Pool, w: nat)
    requires Sound(p) && IsBusy(p, w)
    ensures Sound(Complete(p, w))
  {
    var after := Complete(p, w);
    forall i: nat | i < after.cursor && i !in after.done ensures HeldBySome(after, i) {
      var v :| 0 <= v < |p.workers| && Holding(p.workers[v]) && p.workers[v].item == i;
      assert after.workers[v] == p.workers[v];
    }
  }

  /** When every worker has come back, every item was started once and is done. */
  lemma FinishedPoolIsDone(p: Pool)
    requires Sound(p) && AllFinished(p)
    ensures forall i: nat :: i in p.done <==> i < p.size
    ensures |p.started| == p.size && forall i :: 0 <= i < p.size ==> p.started[i] == i
  {
    assert 0 < p.size ==> p.workers[0] == Finished;
    forall i: nat | i < p.size ensures i in p.done {
      assert !HeldBySome(p, i);
    }
  }

  predicate HasWork(p: Pool, w: nat) {
    CanTake(p, w) || IsBusy(p, w)
  }

  predicate HasFailed(p: Pool) {
    exists w :: 0 <= w < |p.workers| && p.workers[w].Broken?
  }

  /** Until then some worker can move, unless one has failed. */
  lemma UnfinishedPoolCanMove(p: Pool)
    requires !AllFinished(p) && !HasFailed(p)
    ensures exists w: nat {:trigger HasWork(p, w)} :: HasWork(p, w)
  {
    var w :| 0 <= w < |p.workers| && p.workers[w] != Finished;
    assert HasWork(p, w);
  }

  // ---- Termination -----------------------------------------------------------------------------------------

  function Weight(worker: Worker): nat {
    match worker
    case Ready => 1
    case Busy(_, stage) => if stage == 0 then 4 else 3
    case Finished => 0
    case Broken(_) => 0
  }

  function Weights(workers: seq<Worker>): nat {
    if workers == [] then 0 else Weights(workers[..|workers| - 1]) + Weight(workers[|workers| - 1])
  }

  /** What is left to do. */
  function Work(p: Pool): nat {
    (if p.cursor < p.size then 4 * (p.size - p.cursor) else 0) + Weights(p.workers)
  }

  lemma {:induction false} WeightsAfterMove(workers: seq<Worker>, w: nat, worker: Worker)
    requires w < |workers|
    ensures Weights(workers[w := worker]) == Weights(workers) - Weight(workers[w]) + Weight(worker)
  {
    var n := |workers| - 1;
    if w == n {
      assert workers[w := worker][..n] == workers[..n];
    } else {
      WeightsAfterMove(workers[..n], w, worker);
      assert workers[w := worker][..n] == workers[..n][w := worker];
    }
  }

  /** Every move of a worker leaves less to do. */
  lemma MovesLeaveLess(p: Pool, w: nat)
    requires Sound(p)
    ensures CanTake(p, w) ==> Work(Take(p, w)) < Work(p)
    ensures IsBusy(p, w) ==> Work(Complete(p, w)) < Work(p)
    ensures IsBusy(p, w) && p.workers[w].stage == 0 ==> Work(Advance(p, w)) < Work(p)
  {
    if CanTake(p, w) || IsBusy(p, w) {
      WeightsAfterMove(p.workers, w, Busy(p.cursor, 0));
      WeightsAfterMove(p.workers, w, Finished);
      WeightsAfterMove(p.workers, w, Ready);
      if IsBusy(p, w) {
        WeightsAfterMove(p.workers, w, p.workers[w].(stage := p.workers[w].stage + 1));
      }
    }
  }
}
