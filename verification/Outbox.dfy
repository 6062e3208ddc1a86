/**
 The event outbox as a state machine: producers enqueue rows, dispatchers lease, send and mark them, sends fail, workers
 die, leases expire, people resend or close failed rows, and published rows are cleaned up.

 The table is changed by id, without a check that the worker still owns the row. `RunKeepsOrder` says what the
 sequencing predicate achieves over whole runs in which no lease of a live worker expires and no row is keyed ahead of
 an event that was sent or may be sent without another look at the rows ahead of it. `OrderlyExactly` says that these
 are the exact conditions: a step that breaks one of them can be continued to sends out of order.
 */
module Outbox {
  datatype Config = Config(sequenced: set<string>, maxRetries: nat)

  datatype Status = Pending | Processing | Published | Failed | Discarded

  datatype Row = Row(topic: string, aggregate: string, createdAt: int, status: Status, retryCount: nat, nextAttemptAt: int)

  /** A leased row in the memory of a worker, with the retry count it read, and whether it was sent. */
  datatype Job = Job(id: nat, retryCount: nat, manual: bool, sent: bool)

  /** Where an event stands among the events of its topic and aggregate. */
  datatype Place = Place(topic: string, aggregate: string, createdAt: int, id: nat)

  datatype State = State(rows: map<nat, Row>, jobs: map<nat, Job>, sent: seq<Place>)

  function PlaceOf(id: nat, row: Row): Place {
    Place(row.topic, row.aggregate, row.createdAt, id)
  }

  predicate SameGroup(p: Place, q: Place) {
    p.topic == q.topic && p.aggregate == q.aggregate
  }

  predicate Earlier(p: Place, q: Place) {
    SameGroup(p, q) && (p.createdAt < q.createdAt || (p.createdAt == q.createdAt && p.id < q.id))
  }

  predicate Settled(row: Row) {
    row.status == Published || row.status == Discarded
  }

  // ---- Steps -----------------------------------------------------------------------------------------------

  /** No unsettled row of the same topic and aggregate is earlier. */
  predicate FirstUnsettled(s: State, id: nat)
    requires id in s.rows
  {
    forall other :: other in s.rows && Earlier(PlaceOf(other, s.rows[other]), PlaceOf(id, s.rows[id]))
      ==> Settled(s.rows[other])
  }

  /** The condition under which a dispatcher leases a row. */
  predicate Eligible(c: Config, s: State, id: nat, now: int) {
    && id in s.rows && s.rows[id].status == Pending && s.rows[id].retryCount < c.maxRetries
    && s.rows[id].nextAttemptAt <= now
    && (s.rows[id].topic !in c.sequenced || FirstUnsettled(s, id))
  }

  /** A row ahead of another: of its topic and aggregate, and before it by creation time, then by id. */
  predicate Ahead(s: State, other: nat, id: nat) {
    && other in s.rows && id in s.rows
    && s.rows[other].topic == s.rows[id].topic && s.rows[other].aggregate == s.rows[id].aggregate
    && (|| s.rows[other].createdAt < s.rows[id].createdAt
        || (s.rows[other].createdAt == s.rows[id].createdAt && other < id))
  }

  /** What the query selects: due pending rows with tries left; of a sequenced topic, with nothing unsettled ahead. */
  lemma EligibleExactly(c: Config, s: State, id: nat, now: int)
    ensures Eligible(c, s, id, now) <==>
      && id in s.rows && s.rows[id].status == Pending && s.rows[id].retryCount < c.maxRetries
      && s.rows[id].nextAttemptAt <= now
      && (s.rows[id].topic in c.sequenced ==>
            forall other :: Ahead(s, other, id) ==> s.rows[other].status !in {Pending, Processing, Failed})
  {
    forall other | id in s.rows && other in s.rows
      ensures Ahead(s, other, id) <==> Earlier(PlaceOf(other, s.rows[other]), PlaceOf(id, s.rows[id]))
      ensures Settled(s.rows[other]) <==> s.rows[other].status !in {Pending, Processing, Failed}
    {
    }
  }

  datatype Step =
    | Enqueue(id: nat, topic: string, aggregate: string, createdAt: int, firstAttemptAt: int)
    | Acquire(id: nat, job: nat, now: int)
    | Resend(id: nat, job: nat)
    | Send(job: nat)
    | Mark(job: nat)
    | Fail(job: nat, nextAttemptAt: int)
    | Die(job: nat)
    | Expire(id: nat, now: int)
    | Discard(id: nat)
    | Cleanup(id: nat)

  /** A worker that has not finished with the row. */
  predicate HasLiveJob(s: State, id: nat) {
    exists job :: job in s.jobs && s.jobs[job].id == id
  }

  /** What can happen next. Ids are never used twice. */
  predicate Enabled(c: Config, s: State, step: Step) {
    match step
    case Enqueue(id, _, _, _, _) => id !in s.rows && !HasLiveJob(s, id) && (forall p :: p in s.sent ==> p.id != id)
    case Acquire(id, job, now) => Eligible(c, s, id, now) && job !in s.jobs
    case Resend(id, job) => id in s.rows && s.rows[id].status == Failed && job !in s.jobs
    case Send(job) => job in s.jobs && !s.jobs[job].sent && s.jobs[job].id in s.rows
    case Mark(job) => job in s.jobs && s.jobs[job].sent
    case Fail(job, _) => job in s.jobs
    case Die(job) => job in s.jobs
    case Expire(id, _) => id in s.rows && s.rows[id].status == Processing
    case Discard(id) => id in s.rows && s.rows[id].status == Failed
    case Cleanup(id) => id in s.rows && s.rows[id].status == Published
  }

  function WithRow(s: State, id: nat, row: Row): State {
    s.(rows := s.rows[id := row])
  }

  function WithoutJob(s: State, job: nat): State {
    s.(jobs := s.jobs - {job})
  }

  /** The row after a failed send: back to its schedule, or failed once the retries are used up. */
  function FailedRow(c: Config, row: Row, job: Job, nextAttemptAt: int): Row {
    if job.manual then row.(status := Failed)
    else if job.retryCount + 1 >= c.maxRetries then row.(status := Failed, retryCount := job.retryCount + 1)
    else row.(status := Pending, retryCount := job.retryCount + 1, nextAttemptAt := nextAttemptAt)
  }

  /** The row after its lease expired: a crash costs no retry, and a manual resend goes back to the failed rows. */
  function ExpiredRow(c: Config, row: Row, now: int): Row {
    if row.retryCount < c.maxRetries then row.(status := Pending, nextAttemptAt := now) else row.(status := Failed)
  }

  /** Workers write by id: an update of a row that is gone changes nothing. */
  function Apply(c: Config, s: State, step: Step): State
    requires Enabled(c, s, step)
  {
    match step
    case Enqueue(id, topic, aggregate, createdAt, at) => WithRow(s, id, Row(topic, aggregate, createdAt, Pending, 0, at))
    case Acquire(id, job, _) =>
      WithRow(s, id, s.rows[id].(status := Processing)).(jobs := s.jobs[job := Job(id, s.rows[id].retryCount, false, false)])
    case Resend(id, job) =>
      WithRow(s, id, s.rows[id].(status := Processing)).(jobs := s.jobs[job := Job(id, s.rows[id].retryCount, true, false)])
    case Send(job) =>
      s.(sent := s.sent + [PlaceOf(s.jobs[job].id, s.rows[s.jobs[job].id])], jobs := s.jobs[job := s.jobs[job].(sent := true)])
    case Mark(job) =>
      var id := s.jobs[job].id;
      if id in s.rows then WithoutJob(WithRow(s, id, s.rows[id].(status := Published)), job) else WithoutJob(s, job)
    case Fail(job, at) =>
      var id := s.jobs[job].id;
      if id in s.rows then WithoutJob(WithRow(s, id, FailedRow(c, s.rows[id], s.jobs[job], at)), job)
      else WithoutJob(s, job)
    case Die(job) => WithoutJob(s, job)
    case Expire(id, now) => WithRow(s, id, ExpiredRow(c, s.rows[id], now))
    case Discard(id) => WithRow(s, id, s.rows[id].(status := Discarded))
    case Cleanup(id) => s.(rows := s.rows - {id})
  }

  /** A dispatcher leases a batch in one statement; leasing its rows one by one comes to the same. */
  lemma BatchRowsStayEligible(c: Config, s: State, id: nat, job: nat, other: nat, now: int)
    requires Eligible(c, s, id, now) && Eligible(c, s, other, now) && id != other && job !in s.jobs
    ensures Eligible(c, Apply(c, s, Acquire(id, job, now)), other, now)
    ensures s.rows[id].topic in c.sequenced ==> !SameGroup(PlaceOf(id, s.rows[id]), PlaceOf(other, s.rows[other]))
  {
    var a, b := PlaceOf(id, s.rows[id]), PlaceOf(other, s.rows[other]);
    assert SameGroup(a, b) ==> Earlier(a, b) || Earlier(b, a);
    var after := Apply(c, s, Acquire(id, job, now));
    if s.rows[other].topic in c.sequenced {
      forall r | r in after.rows && Earlier(PlaceOf(r, after.rows[r]), PlaceOf(other, after.rows[other]))
        ensures Settled(after.rows[r])
      {
        assert Earlier(PlaceOf(r, s.rows[r]), b);
      }
    }
  }

  // ---- The two conditions ----------------------------------------------------------------------------------

  /** The row may be sent without another look at the rows ahead of it: a worker has it, or a person may resend it. */
  predicate Held(c: Config, s: State, id: nat)
    requires id in s.rows
  {
    || s.rows[id].status == Failed
    || (s.rows[id].status == Processing && (HasLiveJob(s, id) || c.maxRetries <= s.rows[id].retryCount))
  }

  /** The lease of a row of a sequenced topic expires only after its worker died. */
  predicate Fenced(c: Config, s: State, step: Step) {
    step.Expire? && step.id in s.rows && s.rows[step.id].topic in c.sequenced ==> !HasLiveJob(s, step.id)
  }

  /** A row of a sequenced topic is not keyed ahead of a held row or of a send of its topic and aggregate. */
  predicate KeyedLater(c: Config, s: State, step: Step) {
    step.Enqueue? && step.topic in c.sequenced ==>
      var p := Place(step.topic, step.aggregate, step.createdAt, step.id);
      && (forall id :: id in s.rows && Held(c, s, id) ==> !Earlier(p, PlaceOf(id, s.rows[id])))
      && (forall q :: q in s.sent ==> !Earlier(p, q))
  }

  predicate Orderly(c: Config, s: State, step: Step) {
    Fenced(c, s, step) && KeyedLater(c, s, step)
  }

  // ---- The invariant ---------------------------------------------------------------------------------------

  predicate OnSequenced(c: Config, s: State, job: Job) {
    job.id in s.rows && s.rows[job.id].topic in c.sequenced
  }

  predicate JobOwnsRow(c: Config, s: State, job: Job) {
    && job.id in s.rows && s.rows[job.id].status == Processing && s.rows[job.id].retryCount == job.retryCount
    && (job.manual <==> c.maxRetries <= job.retryCount)
  }

  predicate JobsOwnRows(c: Config, s: State) {
    && (forall j :: j in s.jobs && OnSequenced(c, s, s.jobs[j]) ==> JobOwnsRow(c, s, s.jobs[j]))
    && (forall j, k :: j in s.jobs && k in s.jobs && j != k && OnSequenced(c, s, s.jobs[j]) ==>
          s.jobs[j].id != s.jobs[k].id)
  }

  predicate RetryMatchesStatus(c: Config, row: Row) {
    && (row.status == Pending ==> row.retryCount < c.maxRetries)
    && (row.status == Failed && row.topic in c.sequenced ==> c.maxRetries <= row.retryCount)
  }

  /** A pending row has retries left, and a failed one has none: nothing pending is out of the dispatchers' reach. */
  predicate RetriesMatchStatus(c: Config, s: State) {
    forall id :: id in s.rows ==> RetryMatchesStatus(c, s.rows[id])
  }

  /** Ahead of a held row of a sequenced topic everything is settled. */
  predicate LeasedInOrder(c: Config, s: State) {
    forall a, b ::
      (a in s.rows && b in s.rows && s.rows[b].topic in c.sequenced && Held(c, s, b)
       && Earlier(PlaceOf(a, s.rows[a]), PlaceOf(b, s.rows[b])))
      ==> Settled(s.rows[a])
  }

  /** Nothing unsettled is earlier than what was sent. */
  predicate SendsAreBehind(c: Config, s: State) {
    forall p, id :: p in s.sent && p.topic in c.sequenced && id in s.rows && !Settled(s.rows[id])
      ==> !Earlier(PlaceOf(id, s.rows[id]), p)
  }

  /** The sends of every topic and aggregate are in order; a crash may repeat a send, never overtake one. */
  predicate SentInOrder(c: Config, sent: seq<Place>) {
    forall i, j :: 0 <= i < j < |sent| && sent[i].topic in c.sequenced ==> !Earlier(sent[j], sent[i])
  }

  /** A worker that has sent its row has left a send of it. */
  predicate SentJobsAreSent(s: State) {
    forall j :: j in s.jobs && s.jobs[j].sent && s.jobs[j].id in s.rows ==>
      PlaceOf(s.jobs[j].id, s.rows[s.jobs[j].id]) in s.sent
  }

  predicate Inv(c: Config, s: State) {
    && JobsOwnRows(c, s) && SentJobsAreSent(s) && RetriesMatchStatus(c, s)
    && LeasedInOrder(c, s) && SendsAreBehind(c, s) && SentInOrder(c, s.sent)
  }

  // ---- Every step keeps it ---------------------------------------------------------------------------------

  /** Rows that go on, or start to be held where everything ahead is settled, keep the order of leases and sends. */
  lemma OrderIsKept(c: Config, s: State, t: State)
    requires LeasedInOrder(c, s) && SendsAreBehind(c, s) && t.sent == s.sent && t.rows.Keys <= s.rows.Keys
    requires forall r :: r in t.rows ==> PlaceOf(r, t.rows[r]) == PlaceOf(r, s.rows[r])
    requires forall r :: r in t.rows && t.rows[r].topic in c.sequenced && Settled(s.rows[r]) ==> Settled(t.rows[r])
    requires forall r :: r in t.rows && t.rows[r].topic in c.sequenced && Held(c, t, r) ==> Held(c, s, r) || FirstUnsettled(s, r)
    ensures LeasedInOrder(c, t) && SendsAreBehind(c, t)
  {
    forall a, b | a in t.rows && b in t.rows && t.rows[b].topic in c.sequenced && Held(c, t, b)
                  && Earlier(PlaceOf(a, t.rows[a]), PlaceOf(b, t.rows[b]))
      ensures Settled(t.rows[a])
    {
      assert Earlier(PlaceOf(a, s.rows[a]), PlaceOf(b, s.rows[b]));
      assert Settled(s.rows[a]);
    }
    forall p, r | p in t.sent && p.topic in c.sequenced && r in t.rows && !Settled(t.rows[r])
      ensures !Earlier(PlaceOf(r, t.rows[r]), p)
    {
      if t.rows[r].topic == p.topic {
        assert !Settled(s.rows[r]);
      }
    }
  }

  lemma SentJobsStay(c: Config, s: State, step: Step)
    requires SentJobsAreSent(s) && Enabled(c, s, step)
    ensures SentJobsAreSent(Apply(c, s, step))
  {
    var t := Apply(c, s, step);
    forall j | j in t.jobs && t.jobs[j].sent && t.jobs[j].id in t.rows
      ensures PlaceOf(t.jobs[j].id, t.rows[t.jobs[j].id]) in t.sent
    {
      var id := t.jobs[j].id;
      assert j in s.jobs && s.jobs[j].id == id && id in s.rows && PlaceOf(id, t.rows[id]) == PlaceOf(id, s.rows[id]);
      if step == Send(j) {
        assert t.sent[|s.sent|] == PlaceOf(id, s.rows[id]);
      } else {
        assert PlaceOf(id, s.rows[id]) in s.sent;
      }
    }
  }

  lemma EnqueueKeepsInv(c: Config, s: State, step: Step)
    requires Inv(c, s) && Enabled(c, s, step) && step.Enqueue? && KeyedLater(c, s, step) && 0 < c.maxRetries
    ensures Inv(c, Apply(c, s, step))
  {
    SentJobsStay(c, s, step);
    var after := Apply(c, s, step);
    var p := Place(step.topic, step.aggregate, step.createdAt, step.id);
    assert PlaceOf(step.id, after.rows[step.id]) == p;
    forall a, b | a in after.rows && b in after.rows && after.rows[b].topic in c.sequenced && Held(c, after, b)
                  && Earlier(PlaceOf(a, after.rows[a]), PlaceOf(b, after.rows[b]))
      ensures Settled(after.rows[a])
    {
      assert b in s.rows && a in s.rows;
    }
    forall j | j in after.jobs && OnSequenced(c, after, after.jobs[j]) ensures JobOwnsRow(c, after, after.jobs[j]) {
      assert s.jobs[j].id != step.id && OnSequenced(c, s, s.jobs[j]);
    }
    forall j, k | j in after.jobs && k in after.jobs && j != k && OnSequenced(c, after, after.jobs[j])
      ensures after.jobs[j].id != after.jobs[k].id
    {
      assert s.jobs[j].id != step.id && OnSequenced(c, s, s.jobs[j]);
    }
  }

  lemma LeaseKeepsInv(c: Config, s: State, step: Step)
    requires Inv(c, s) && Enabled(c, s, step) && (step.Acquire? || step.Resend?)
    ensures Inv(c, Apply(c, s, step))
  {
    SentJobsStay(c, s, step);
    var after := Apply(c, s, step);
    forall r | r in after.rows && r != step.id && Held(c, after, r) ensures Held(c, s, r) {
      if HasLiveJob(after, r) {
        var j :| j in after.jobs && after.jobs[j].id == r;
        assert j in s.jobs && s.jobs[j].id == r;
      }
    }
    OrderIsKept(c, s, after);
    LeaseKeepsJobs(c, s, step);
  }

  lemma LeaseKeepsJobs(c: Config, s: State, step: Step)
    requires Inv(c, s) && Enabled(c, s, step) && (step.Acquire? || step.Resend?)
    ensures JobsOwnRows(c, Apply(c, s, step))
  {
    var after := Apply(c, s, step);
    forall j | j in after.jobs && OnSequenced(c, after, after.jobs[j]) ensures JobOwnsRow(c, after, after.jobs[j]) {
      assert RetryMatchesStatus(c, s.rows[step.id]);
      if j != step.job {
        assert OnSequenced(c, s, s.jobs[j]);
      }
    }
    forall j, k | j in after.jobs && k in after.jobs && j != k && OnSequenced(c, after, after.jobs[j])
      ensures after.jobs[j].id != after.jobs[k].id
    {
      assert j != step.job ==> OnSequenced(c, s, s.jobs[j]) && JobOwnsRow(c, s, s.jobs[j]);
      assert k != step.job ==> (OnSequenced(c, s, s.jobs[k]) ==> JobOwnsRow(c, s, s.jobs[k]));
    }
  }

  /** A worker sends what it leased: everything earlier is settled by then, and nothing later was sent. */
  lemma SendKeepsInv(c: Config, s: State, job: nat)
    requires Inv(c, s) && Enabled(c, s, Send(job))
    ensures Inv(c, Apply(c, s, Send(job)))
  {
    var after := Apply(c, s, Send(job));
    var id := s.jobs[job].id;
    var p := PlaceOf(id, s.rows[id]);
    SentJobsStay(c, s, Send(job));
    SendKeepsHolds(c, s, job);
    if p.topic in c.sequenced {
      assert OnSequenced(c, s, s.jobs[job]) && JobOwnsRow(c, s, s.jobs[job]) && HasLiveJob(s, id) && Held(c, s, id);
    }
    forall q, r | q in after.sent && q.topic in c.sequenced && r in after.rows && !Settled(after.rows[r])
      ensures !Earlier(PlaceOf(r, after.rows[r]), q)
    {
      assert q !in s.sent ==> q == p;
    }
    forall i, j | 0 <= i < j < |after.sent| && after.sent[i].topic in c.sequenced ensures !Earlier(after.sent[j], after.sent[i]) {
      if j == |s.sent| {
        assert after.sent[i] == s.sent[i] && s.sent[i] in s.sent && after.sent[j] == p;
      }
    }
  }

  lemma SendKeepsHolds(c: Config, s: State, job: nat)
    requires JobsOwnRows(c, s) && LeasedInOrder(c, s) && Enabled(c, s, Send(job))
    ensures JobsOwnRows(c, Apply(c, s, Send(job))) && LeasedInOrder(c, Apply(c, s, Send(job)))
  {
    var after := Apply(c, s, Send(job));
    assert forall j :: j in after.jobs ==> j in s.jobs && after.jobs[j].id == s.jobs[j].id;
    forall j | j in after.jobs && OnSequenced(c, after, after.jobs[j]) ensures JobOwnsRow(c, after, after.jobs[j]) {
      assert OnSequenced(c, s, s.jobs[j]);
    }
    forall j, k | j in after.jobs && k in after.jobs && j != k && OnSequenced(c, after, after.jobs[j])
      ensures after.jobs[j].id != after.jobs[k].id
    {
      assert OnSequenced(c, s, s.jobs[j]);
    }
    assert forall r :: r in s.rows && HasLiveJob(after, r) ==> HasLiveJob(s, r);
    assert forall r :: r in s.rows && Held(c, after, r) ==> Held(c, s, r);
  }

  /** A worker that still owns its row, or whose row needs no order, finishes it. */
  lemma FinishKeepsInv(c: Config, s: State, step: Step)
    requires Inv(c, s) && Enabled(c, s, step) && (step.Mark? || step.Fail?)
    ensures Inv(c, Apply(c, s, step))
  {
    SentJobsStay(c, s, step);
    FinishKeepsRetries(c, s, step);
    FinishKeepsOrder(c, s, step);
    RemainingJobs(c, s, Apply(c, s, step), step.job);
  }

  lemma FinishKeepsRetries(c: Config, s: State, step: Step)
    requires JobsOwnRows(c, s) && RetriesMatchStatus(c, s) && Enabled(c, s, step) && (step.Mark? || step.Fail?)
    ensures RetriesMatchStatus(c, Apply(c, s, step))
  {
    OwnedRowIsHeld(c, s, step.job);
  }

  lemma FinishKeepsOrder(c: Config, s: State, step: Step)
    requires JobsOwnRows(c, s) && LeasedInOrder(c, s) && SendsAreBehind(c, s)
    requires Enabled(c, s, step) && (step.Mark? || step.Fail?)
    ensures LeasedInOrder(c, Apply(c, s, step)) && SendsAreBehind(c, Apply(c, s, step))
  {
    var job := s.jobs[step.job];
    var after := Apply(c, s, step);
    OwnedRowIsHeld(c, s, step.job);
    FewerJobsHoldLess(c, s, after);
    forall r | r in after.rows && after.rows[r].topic in c.sequenced && Held(c, after, r) ensures Held(c, s, r) {
      assert r == job.id ==> OnSequenced(c, s, job);
    }
    OrderIsKept(c, s, after);
  }

  lemma OwnedRowIsHeld(c: Config, s: State, job: nat)
    requires JobsOwnRows(c, s) && job in s.jobs
    ensures OnSequenced(c, s, s.jobs[job]) ==> JobOwnsRow(c, s, s.jobs[job]) && Held(c, s, s.jobs[job].id)
  {
    assert HasLiveJob(s, s.jobs[job].id);
  }

  lemma FewerJobsHoldLess(c: Config, s: State, t: State)
    requires t.jobs.Keys <= s.jobs.Keys && forall j :: j in t.jobs ==> t.jobs[j].id == s.jobs[j].id
    ensures forall r :: r in t.rows && r in s.rows && t.rows[r] == s.rows[r] && Held(c, t, r) ==> Held(c, s, r)
  {
    forall r | HasLiveJob(t, r) ensures HasLiveJob(s, r) {
      var j :| j in t.jobs && t.jobs[j].id == r;
      assert j in s.jobs;
    }
  }

  lemma RemainingJobs(c: Config, s: State, t: State, job: nat)
    requires JobsOwnRows(c, s) && job in s.jobs && t.jobs == s.jobs - {job} && t.rows.Keys == s.rows.Keys
    requires forall r :: r in t.rows ==> t.rows[r].topic == s.rows[r].topic
    requires forall r :: r in t.rows && r != s.jobs[job].id ==> t.rows[r] == s.rows[r]
    ensures JobsOwnRows(c, t)
  {
    forall j | j in t.jobs && OnSequenced(c, t, t.jobs[j]) ensures JobOwnsRow(c, t, t.jobs[j]) {
      assert OnSequenced(c, s, s.jobs[j]) && s.jobs[j].id != s.jobs[job].id;
    }
    forall j, k | j in t.jobs && k in t.jobs && j != k && OnSequenced(c, t, t.jobs[j]) ensures t.jobs[j].id != t.jobs[k].id {
      assert OnSequenced(c, s, s.jobs[j]);
    }
  }

  lemma LeaveKeepsInv(c: Config, s: State, step: Step)
    requires Inv(c, s) && Enabled(c, s, step) && Fenced(c, s, step)
    requires step.Die? || step.Expire? || step.Discard? || step.Cleanup?
    ensures Inv(c, Apply(c, s, step))
  {
    SentJobsStay(c, s, step);
    LeaveKeepsOrder(c, s, step);
    LeaveKeepsJobs(c, s, step);
  }

  lemma LeaveKeepsOrder(c: Config, s: State, step: Step)
    requires LeasedInOrder(c, s) && SendsAreBehind(c, s) && Enabled(c, s, step) && Fenced(c, s, step)
    requires step.Die? || step.Expire? || step.Discard? || step.Cleanup?
    ensures LeasedInOrder(c, Apply(c, s, step)) && SendsAreBehind(c, Apply(c, s, step))
  {
    var after := Apply(c, s, step);
    assert forall r :: r in after.rows && HasLiveJob(after, r) ==> HasLiveJob(s, r);
    forall r | r in after.rows && after.rows[r].topic in c.sequenced && Held(c, after, r) ensures Held(c, s, r) {
      assert s.rows[r].topic in c.sequenced;
    }
    OrderIsKept(c, s, after);
  }

  lemma LeaveKeepsJobs(c: Config, s: State, step: Step)
    requires Inv(c, s) && Enabled(c, s, step) && Fenced(c, s, step)
    requires step.Die? || step.Expire? || step.Discard? || step.Cleanup?
    ensures JobsOwnRows(c, Apply(c, s, step))
  {
    var after := Apply(c, s, step);
    forall j | j in after.jobs && OnSequenced(c, after, after.jobs[j]) ensures JobOwnsRow(c, after, after.jobs[j]) {
      assert OnSequenced(c, s, s.jobs[j]) && JobOwnsRow(c, s, s.jobs[j]) && HasLiveJob(s, s.jobs[j].id);
    }
    forall j, k | j in after.jobs && k in after.jobs && j != k && OnSequenced(c, after, after.jobs[j])
      ensures after.jobs[j].id != after.jobs[k].id
    {
      assert OnSequenced(c, s, s.jobs[j]);
    }
  }

  lemma StepKeepsInv(c: Config, s: State, step: Step)
    requires Inv(c, s) && Enabled(c, s, step) && Orderly(c, s, step) && 0 < c.maxRetries
    ensures Inv(c, Apply(c, s, step))
  {
    match step
    case Enqueue(_, _, _, _, _) => EnqueueKeepsInv(c, s, step);
    case Acquire(_, _, _) => LeaseKeepsInv(c, s, step);
    case Resend(_, _) => LeaseKeepsInv(c, s, step);
    case Send(job) => SendKeepsInv(c, s, job);
    case Mark(_) => FinishKeepsInv(c, s, step);
    case Fail(_, _) => FinishKeepsInv(c, s, step);
    case _ => LeaveKeepsInv(c, s, step);
  }

  // ---- Whole runs ------------------------------------------------------------------------------------------

  const EMPTY: State := State(map[], map[], [])

  predicate StepAt(c: Config, states: seq<State>, steps: seq<Step>, k: nat)
    requires |states| == |steps| + 1 && k < |steps|
  {
    Enabled(c, states[k], steps[k]) && states[k + 1] == Apply(c, states[k], steps[k])
  }

  predicate Run(c: Config, states: seq<State>, steps: seq<Step>) {
    |states| == |steps| + 1 && states[0] == EMPTY && forall k :: 0 <= k < |steps| ==> StepAt(c, states, steps, k)
  }

  predicate OrderlyRun(c: Config, states: seq<State>, steps: seq<Step>)
    requires |states| == |steps| + 1
  {
    forall k :: 0 <= k < |steps| ==> Orderly(c, states[k], steps[k])
  }

  lemma {:induction false} RunKeepsInv(c: Config, states: seq<State>, steps: seq<Step>, n: nat)
    requires Run(c, states, steps) && OrderlyRun(c, states, steps) && n <= |steps| && 0 < c.maxRetries
    ensures Inv(c, states[n])
  {
    if n > 0 {
      RunKeepsInv(c, states, steps, n - 1);
      assert StepAt(c, states, steps, n - 1);
      StepKeepsInv(c, states[n - 1], steps[n - 1]);
    }
  }

  /**
   In every orderly run, at every moment: an event of a sequenced topic is in the hands of a worker, by schedule or by
   manual resend, only while all earlier events of its topic and aggregate are settled; and the sends so far follow the
   order of the events.
   */
  lemma RunKeepsOrder(c: Config, states: seq<State>, steps: seq<Step>, n: nat)
    requires Run(c, states, steps) && OrderlyRun(c, states, steps) && n <= |steps| && 0 < c.maxRetries
    ensures forall id :: id in states[n].rows && states[n].rows[id].topic in c.sequenced && HasLiveJob(states[n], id) ==>
              FirstUnsettled(states[n], id)
    ensures SentInOrder(c, states[n].sent)
    ensures forall i, j :: 0 <= i < j < |states[n].sent| ==> InOrder(c, states[n].sent[i], states[n].sent[j])
  {
    RunKeepsInv(c, states, steps, n);
    var s := states[n];
    forall id | id in s.rows && s.rows[id].topic in c.sequenced && HasLiveJob(s, id) ensures FirstUnsettled(s, id) {
      var j :| j in s.jobs && s.jobs[j].id == id;
      OwnedRowIsHeld(c, s, j);
    }
  }

  /** Two sends, the first one first: of one sequenced topic and aggregate, the second is not of an earlier event. */
  predicate InOrder(c: Config, first: Place, second: Place) {
    first.topic in c.sequenced && first.topic == second.topic && first.aggregate == second.aggregate ==>
      first.createdAt < second.createdAt || (first.createdAt == second.createdAt && first.id <= second.id)
  }

  /** The first unsettled event of a group is never stuck: a worker has it, a person can act on it, or it is due. */
  lemma HeadIsNeverStuck(c: Config, states: seq<State>, steps: seq<Step>, n: nat, id: nat)
    requires Run(c, states, steps) && OrderlyRun(c, states, steps) && n <= |steps| && 0 < c.maxRetries
    requires id in states[n].rows && !Settled(states[n].rows[id]) && FirstUnsettled(states[n], id)
    ensures states[n].rows[id].status == Processing || states[n].rows[id].status == Failed
            || forall now :: states[n].rows[id].nextAttemptAt <= now ==> Eligible(c, states[n], id, now)
  {
    RunKeepsInv(c, states, steps, n);
    assert RetryMatchesStatus(c, states[n].rows[id]);
  }

  // ---- What becomes of an event ----------------------------------------------------------------------------

  /** The step is a failed send of this event by a scheduled worker. */
  predicate FailsScheduled(s: State, step: Step, id: nat) {
    step.Fail? && step.job in s.jobs && s.jobs[step.job].id == id && !s.jobs[step.job].manual
  }

  predicate Enqueues(step: Step, id: nat) {
    step.Enqueue? && step.id == id
  }

  /** How many scheduled sends of an event failed since it was enqueued. */
  function FailedSends(states: seq<State>, steps: seq<Step>, n: nat, id: nat): nat
    requires |states| == |steps| + 1 && n <= |steps|
  {
    if n == 0 || Enqueues(steps[n - 1], id) then 0
    else FailedSends(states, steps, n - 1, id) + if FailsScheduled(states[n - 1], steps[n - 1], id) then 1 else 0
  }

  /** The time set by the last step that put the event on its schedule: its enqueuing, a failed send or an expiry. */
  function ScheduledAt(states: seq<State>, steps: seq<Step>, n: nat, id: nat): int
    requires |states| == |steps| + 1 && n <= |steps|
  {
    if n == 0 then 0
    else if Enqueues(steps[n - 1], id) then steps[n - 1].firstAttemptAt
    else if FailsScheduled(states[n - 1], steps[n - 1], id) then steps[n - 1].nextAttemptAt
    else if steps[n - 1].Expire? && steps[n - 1].id == id then steps[n - 1].now
    else ScheduledAt(states, steps, n - 1, id)
  }

  /** A row of a sequenced topic counts its failed sends, up to the limit, and until then keeps the time set for it. */
  predicate Accounted(c: Config, row: Row, failures: nat, at: int) {
    && row.retryCount == failures <= c.maxRetries
    && (failures < c.maxRetries ==> row.nextAttemptAt == at)
  }

  lemma StepAccounts(c: Config, s: State, step: Step, id: nat, failures: nat, at: int)
    requires Inv(c, s) && Enabled(c, s, step) && 0 < c.maxRetries
    requires id in Apply(c, s, step).rows && Apply(c, s, step).rows[id].topic in c.sequenced
    requires id in s.rows ==> Accounted(c, s.rows[id], failures, at)
    ensures Enqueues(step, id) ==> Accounted(c, Apply(c, s, step).rows[id], 0, step.firstAttemptAt)
    ensures FailsScheduled(s, step, id) ==> Accounted(c, Apply(c, s, step).rows[id], failures + 1, step.nextAttemptAt)
    ensures step.Expire? && step.id == id ==> Accounted(c, Apply(c, s, step).rows[id], failures, step.now)
    ensures !Enqueues(step, id) && !FailsScheduled(s, step, id) && !(step.Expire? && step.id == id) ==>
              Accounted(c, Apply(c, s, step).rows[id], failures, at)
  {
    if step.Fail? && s.jobs[step.job].id == id {
      OwnedRowIsHeld(c, s, step.job);
    }
  }

  lemma {:induction false} RunAccounts(c: Config, states: seq<State>, steps: seq<Step>, n: nat, id: nat)
    requires Run(c, states, steps) && OrderlyRun(c, states, steps) && n <= |steps| && 0 < c.maxRetries
    requires id in states[n].rows && states[n].rows[id].topic in c.sequenced
    ensures Accounted(c, states[n].rows[id], FailedSends(states, steps, n, id), ScheduledAt(states, steps, n, id))
  {
    if n > 0 {
      RunKeepsInv(c, states, steps, n - 1);
      assert StepAt(c, states, steps, n - 1);
      if id in states[n - 1].rows {
        assert states[n - 1].rows[id].topic == states[n].rows[id].topic;
        RunAccounts(c, states, steps, n - 1, id);
      }
      StepAccounts(c, states[n - 1], steps[n - 1], id, FailedSends(states, steps, n - 1, id),
                   ScheduledAt(states, steps, n - 1, id));
    }
  }

  /** A dispatcher may lease the row exactly from this time on. */
  ghost predicate DueFrom(c: Config, s: State, id: nat, at: int) {
    forall now :: Eligible(c, s, id, now) == (at <= now)
  }

  /**
   Retries are counted one by one over every orderly run: a row has as many as scheduled sends of it failed since it was
   enqueued, it is failed for good only once these are as many as allowed, and while it waits it is due exactly from the
   time last set for it, if everything ahead of it is settled.
   */
  lemma RetriesAreCounted(c: Config, states: seq<State>, steps: seq<Step>, n: nat, id: nat)
    requires Run(c, states, steps) && OrderlyRun(c, states, steps) && n <= |steps| && 0 < c.maxRetries
    requires id in states[n].rows && states[n].rows[id].topic in c.sequenced
    ensures states[n].rows[id].retryCount == FailedSends(states, steps, n, id) <= c.maxRetries
    ensures states[n].rows[id].status == Failed ==> FailedSends(states, steps, n, id) == c.maxRetries
    ensures states[n].rows[id].status == Pending && FirstUnsettled(states[n], id) ==>
              DueFrom(c, states[n], id, ScheduledAt(states, steps, n, id))
    ensures !FirstUnsettled(states[n], id) ==> forall now :: !Eligible(c, states[n], id, now)
  {
    RunAccounts(c, states, steps, n, id);
    RunKeepsInv(c, states, steps, n);
    assert RetryMatchesStatus(c, states[n].rows[id]);
  }

  /**
   After a failed scheduled send with retries left the event waits, and is due exactly from the time given: it is still
   the first of its group. After the last one it is failed.
   */
  lemma FailedSendIsRescheduled(c: Config, states: seq<State>, steps: seq<Step>, n: nat, id: nat)
    requires Run(c, states, steps) && OrderlyRun(c, states, steps) && n < |steps| && 0 < c.maxRetries
    requires id in states[n].rows && states[n].rows[id].topic in c.sequenced && FailsScheduled(states[n], steps[n], id)
    ensures id in states[n + 1].rows
    ensures FailedSends(states, steps, n + 1, id) < c.maxRetries ==>
              states[n + 1].rows[id].status == Pending && DueFrom(c, states[n + 1], id, steps[n].nextAttemptAt)
    ensures FailedSends(states, steps, n + 1, id) == c.maxRetries ==> states[n + 1].rows[id].status == Failed
  {
    var s, t := states[n], states[n + 1];
    assert StepAt(c, states, steps, n);
    RunAccounts(c, states, steps, n, id);
    RunKeepsInv(c, states, steps, n);
    OwnedRowIsHeld(c, s, steps[n].job);
    RetriesAreCounted(c, states, steps, n + 1, id);
    forall r | r in t.rows && Earlier(PlaceOf(r, t.rows[r]), PlaceOf(id, t.rows[id])) ensures Settled(t.rows[r]) {
      assert Earlier(PlaceOf(r, s.rows[r]), PlaceOf(id, s.rows[id]));
    }
  }

  /** A worker's failed or lost lease of a row without retries left, a manual resend, goes back to the failed rows. */
  lemma ResendGoesBack(c: Config, states: seq<State>, steps: seq<Step>, n: nat, id: nat)
    requires Run(c, states, steps) && OrderlyRun(c, states, steps) && n < |steps| && 0 < c.maxRetries
    requires id in states[n].rows && states[n].rows[id].topic in c.sequenced && states[n].rows[id].status == Processing
    requires FailedSends(states, steps, n, id) == c.maxRetries
    requires (steps[n].Fail? && steps[n].job in states[n].jobs && states[n].jobs[steps[n].job].id == id)
             || (steps[n].Expire? && steps[n].id == id)
    ensures states[n + 1].rows == states[n].rows[id := states[n].rows[id].(status := Failed)]
  {
    assert StepAt(c, states, steps, n);
    RunAccounts(c, states, steps, n, id);
    RunKeepsInv(c, states, steps, n);
    if steps[n].Fail? {
      OwnedRowIsHeld(c, states[n], steps[n].job);
    }
  }

  /** Events of other topics wait for nothing but their time. */
  lemma FreeTopicsDoNotWait(c: Config, states: seq<State>, steps: seq<Step>, n: nat, id: nat)
    requires Run(c, states, steps) && OrderlyRun(c, states, steps) && n <= |steps| && 0 < c.maxRetries
    requires id in states[n].rows && states[n].rows[id].topic !in c.sequenced && states[n].rows[id].status == Pending
    ensures DueFrom(c, states[n], id, states[n].rows[id].nextAttemptAt)
  {
    RunKeepsInv(c, states, steps, n);
    assert RetryMatchesStatus(c, states[n].rows[id]);
  }

  /** What was published was sent. */
  predicate PublishedWasSent(s: State) {
    forall id :: id in s.rows && s.rows[id].status == Published ==> PlaceOf(id, s.rows[id]) in s.sent
  }

  lemma {:induction false} RunPublishesSent(c: Config, states: seq<State>, steps: seq<Step>, n: nat)
    requires Run(c, states, steps) && n <= |steps|
    ensures SentJobsAreSent(states[n]) && PublishedWasSent(states[n])
  {
    if n > 0 {
      RunPublishesSent(c, states, steps, n - 1);
      assert StepAt(c, states, steps, n - 1);
      SentJobsStay(c, states[n - 1], steps[n - 1]);
      PublishingKeepsSent(c, states[n - 1], steps[n - 1]);
    }
  }

  lemma PublishingKeepsSent(c: Config, s: State, step: Step)
    requires SentJobsAreSent(s) && PublishedWasSent(s) && Enabled(c, s, step)
    ensures PublishedWasSent(Apply(c, s, step)) && s.sent <= Apply(c, s, step).sent
  {
    var t := Apply(c, s, step);
    forall id | id in t.rows && t.rows[id].status == Published ensures PlaceOf(id, t.rows[id]) in t.sent {
      assert id in s.rows && PlaceOf(id, t.rows[id]) == PlaceOf(id, s.rows[id]);
      assert PlaceOf(id, s.rows[id]) in s.sent;
    }
  }

  /** The event as its producer keyed it. */
  function PlaceOfEvent(step: Step): Place
    requires step.Enqueue?
  {
    Place(step.topic, step.aggregate, step.createdAt, step.id)
  }

  /** The event is in the table under its key, or was sent. */
  predicate Kept(s: State, p: Place) {
    (p.id in s.rows && PlaceOf(p.id, s.rows[p.id]) == p) || p in s.sent
  }

  lemma StepKeepsEvent(c: Config, s: State, step: Step, p: Place)
    requires SentJobsAreSent(s) && PublishedWasSent(s) && Enabled(c, s, step) && Kept(s, p)
    ensures Kept(Apply(c, s, step), p)
  {
    PublishingKeepsSent(c, s, step);
    var t := Apply(c, s, step);
    if p in s.sent {
      var i :| 0 <= i < |s.sent| && s.sent[i] == p;
      assert t.sent[i] == p;
    }
  }

  /**
   No event is lost, in any run, orderly or not: an event that was enqueued is in the table under its key until it was
   sent; a published one was sent; only a person gives up on one, and it stays in the table.
   */
  lemma {:induction false} NoEventIsLost(c: Config, states: seq<State>, steps: seq<Step>, k: nat, n: nat)
    requires Run(c, states, steps) && k < n <= |steps| && steps[k].Enqueue?
    ensures Kept(states[n], PlaceOfEvent(steps[k]))
    ensures PublishedWasSent(states[n])
    decreases n
  {
    RunPublishesSent(c, states, steps, n);
    assert StepAt(c, states, steps, n - 1);
    if k < n - 1 {
      NoEventIsLost(c, states, steps, k, n - 1);
      RunPublishesSent(c, states, steps, n - 1);
      StepKeepsEvent(c, states[n - 1], steps[n - 1], PlaceOfEvent(steps[k]));
    }
  }

  predicate Closes(step: Step, id: nat) {
    step.Discard? && step.id == id
  }

  /** A row is discarded only by a person, and only after it failed; and nothing brings it back. */
  lemma {:induction false} OnlyClosedIsDiscarded(c: Config, states: seq<State>, steps: seq<Step>, n: nat, id: nat)
      returns (k: nat)
    requires Run(c, states, steps) && n <= |steps| && id in states[n].rows && states[n].rows[id].status == Discarded
    ensures k < n && Closes(steps[k], id) && id in states[k].rows && states[k].rows[id].status == Failed
  {
    assert StepAt(c, states, steps, n - 1);
    if Closes(steps[n - 1], id) {
      k := n - 1;
    } else {
      k := OnlyClosedIsDiscarded(c, states, steps, n - 1, id);
    }
  }

  predicate Marks(s: State, step: Step, id: nat) {
    step.Mark? && step.job in s.jobs && s.jobs[step.job].id == id
  }

  predicate WasSent(s: State, id: nat) {
    exists p :: p in s.sent && p.id == id
  }

  /** A settled row of a sequenced topic stays as it is until it is removed, and a sent one does not come back. */
  lemma StepKeepsSettled(c: Config, s: State, step: Step, id: nat)
    requires Inv(c, s) && Enabled(c, s, step) && 0 < c.maxRetries
    requires id in s.rows ==> Settled(s.rows[id]) && s.rows[id].topic in c.sequenced
    requires id !in s.rows ==> WasSent(s, id)
    ensures id in Apply(c, s, step).rows ==> id in s.rows && Apply(c, s, step).rows[id] == s.rows[id]
    ensures id in s.rows && s.rows[id].status == Discarded ==> id in Apply(c, s, step).rows
  {
    if (step.Mark? || step.Fail?) && s.jobs[step.job].id == id {
      OwnedRowIsHeld(c, s, step.job);
    }
  }

  /**
   What is done is done, over every orderly run: an event its worker marked is published, one a person closed is
   discarded, from then on; a discarded one is never removed, a published one only by the cleanup.
   */
  lemma {:induction false} SettledForGood(c: Config, states: seq<State>, steps: seq<Step>, k: nat, n: nat, id: nat)
    requires Run(c, states, steps) && OrderlyRun(c, states, steps) && k < n <= |steps| && 0 < c.maxRetries
    requires id in states[k].rows && states[k].rows[id].topic in c.sequenced
    requires Closes(steps[k], id) || Marks(states[k], steps[k], id)
    ensures id in states[n].rows ==>
              states[n].rows[id] == states[k].rows[id].(status := if steps[k].Discard? then Discarded else Published)
    ensures id !in states[n].rows ==> steps[k].Mark? && WasSent(states[n], id)
    decreases n
  {
    assert StepAt(c, states, steps, n - 1);
    if k == n - 1 {
    } else {
      SettledForGood(c, states, steps, k, n - 1, id);
      RunKeepsInv(c, states, steps, n - 1);
      RunPublishesSent(c, states, steps, n - 1);
      PublishingKeepsSent(c, states[n - 1], steps[n - 1]);
      StepKeepsSettled(c, states[n - 1], steps[n - 1], id);
      if id in states[n - 1].rows && id !in states[n].rows {
        assert PlaceOf(id, states[n - 1].rows[id]) in states[n - 1].sent;
      }
    }
  }

  /** A row is removed exactly by the cleanup, and then it was published. */
  lemma OnlyPublishedIsRemoved(c: Config, states: seq<State>, steps: seq<Step>, n: nat, id: nat)
    requires Run(c, states, steps) && n < |steps| && id in states[n].rows
    ensures id !in states[n + 1].rows <==> steps[n] == Cleanup(id)
    ensures id !in states[n + 1].rows ==> states[n].rows[id].status == Published && PlaceOf(id, states[n].rows[id]) in states[n].sent
  {
    assert StepAt(c, states, steps, n);
    RunPublishesSent(c, states, steps, n);
  }

  // ---- Both conditions are exact ---------------------------------------------------------------------------

  /** Orderly steps lead from one state to the other. */
  ghost predicate Leads(c: Config, s: State, steps: seq<Step>, t: State)
    decreases |steps|
  {
    if steps == [] then s == t
    else Enabled(c, s, steps[0]) && Orderly(c, s, steps[0]) && Leads(c, Apply(c, s, steps[0]), steps[1..], t)
  }

  ghost predicate CanReach(c: Config, s: State, t: State) {
    exists steps :: Leads(c, s, steps, t)
  }

  lemma {:induction false} LeadsOn(c: Config, s: State, first: seq<Step>, t: State, then_: seq<Step>, u: State)
    requires Leads(c, s, first, t) && Leads(c, t, then_, u)
    ensures Leads(c, s, first + then_, u)
    decreases |first|
  {
    if first == [] {
      assert first + then_ == then_;
    } else {
      LeadsOn(c, Apply(c, s, first[0]), first[1..], t, then_, u);
      assert (first + then_)[1..] == first[1..] + then_;
    }
  }

  lemma ReachOn(c: Config, s: State, t: State, u: State)
    requires CanReach(c, s, t) && CanReach(c, t, u)
    ensures CanReach(c, s, u)
  {
    var first :| Leads(c, s, first, t);
    var then_ :| Leads(c, t, then_, u);
    LeadsOn(c, s, first, t, then_, u);
  }

  lemma Stay(c: Config, s: State)
    ensures CanReach(c, s, s)
  {
    assert Leads(c, s, [], s);
  }

  lemma ReachByStep(c: Config, s: State, t: State, step: Step)
    requires CanReach(c, s, t) && Enabled(c, t, step) && Orderly(c, t, step)
    ensures CanReach(c, s, Apply(c, t, step))
  {
    var u := Apply(c, t, step);
    assert [step][1..] == [];
    assert Leads(c, u, [], u);
    assert Leads(c, t, [step], u);
    ReachOn(c, s, t, u);
  }

  lemma {:induction false} ReachKeepsInv(c: Config, s: State, steps: seq<Step>, t: State)
    requires Inv(c, s) && Leads(c, s, steps, t) && 0 < c.maxRetries
    ensures Inv(c, t)
    decreases |steps|
  {
    if steps != [] {
      StepKeepsInv(c, s, steps[0]);
      ReachKeepsInv(c, Apply(c, s, steps[0]), steps[1..], t);
    }
  }

  /** A number beyond those in use: a new id, or a later time. */
  lemma {:induction false} Beyond(used: set<int>) returns (n: nat)
    ensures forall u :: u in used ==> u < n
    decreases |used|
  {
    if u :| u in used {
      var m := Beyond(used - {u});
      n := if u < m then m else u + 1;
      assert used == (used - {u}) + {u};
    } else {
      n := 0;
    }
  }

  /** Rows keep their places, and the table its ids. */
  predicate SamePlaces(s: State, t: State) {
    t.rows.Keys == s.rows.Keys && forall r :: r in s.rows ==> PlaceOf(r, t.rows[r]) == PlaceOf(r, s.rows[r])
  }

  /** A worker leases a row that is due, or a failed one. */
  predicate Leasable(c: Config, s: State, id: nat) {
    && id in s.rows
    && (s.rows[id].status == Failed || Eligible(c, s, id, s.rows[id].nextAttemptAt))
  }

  function Lease(s: State, id: nat, job: nat): Step
    requires id in s.rows
  {
    if s.rows[id].status == Failed then Resend(id, job) else Acquire(id, job, s.rows[id].nextAttemptAt)
  }

  /** A leasable row can be sent. */
  lemma SendRow(c: Config, s: State, id: nat) returns (t: State, job: nat)
    requires Leasable(c, s, id)
    ensures CanReach(c, s, t) && SamePlaces(s, t) && t.sent == s.sent + [PlaceOf(id, s.rows[id])]
    ensures job !in s.jobs && t.jobs.Keys == s.jobs.Keys + {job} && forall j :: j in s.jobs ==> t.jobs[j] == s.jobs[j]
    ensures t.jobs[job].id == id && t.jobs[job].sent
    ensures t.rows == s.rows[id := s.rows[id].(status := Processing)]
  {
    job := Beyond(s.jobs.Keys);
    Stay(c, s);
    var lease := Lease(s, id, job);
    ReachByStep(c, s, s, lease);
    var leased := Apply(c, s, lease);
    assert leased.jobs[job].id == id && !leased.jobs[job].sent;
    assert leased.rows == s.rows[id := s.rows[id].(status := Processing)];
    ReachByStep(c, s, leased, Send(job));
    t := Apply(c, leased, Send(job));
  }

  /** A leasable row can be sent and published. */
  lemma PublishRow(c: Config, s: State, id: nat) returns (t: State)
    requires Leasable(c, s, id)
    ensures CanReach(c, s, t) && SamePlaces(s, t) && t.sent == s.sent + [PlaceOf(id, s.rows[id])]
    ensures t.jobs == s.jobs && t.rows == s.rows[id := s.rows[id].(status := Published)]
  {
    var sent, job := SendRow(c, s, id);
    ReachByStep(c, s, sent, Mark(job));
    t := Apply(c, sent, Mark(job));
    assert t.jobs == s.jobs;
    assert t.rows == s.rows[id := s.rows[id].(status := Published)];
  }

  ghost predicate Disorders(c: Config, s: State) {
    exists t :: CanReach(c, s, t) && !SentInOrder(c, t.sent)
  }

  lemma LateSend(c: Config, sent: seq<Place>, late: Place, q: Place)
    requires q in sent && late == sent[|sent| - 1] && Earlier(late, q) && q.topic in c.sequenced
    ensures !SentInOrder(c, sent)
  {
    var i :| 0 <= i < |sent| && sent[i] == q;
    assert i < |sent| - 1;
  }

  /** A row with only settled rows ahead can be sent. */
  lemma SendLate(c: Config, s: State, u: State, id: nat, q: Place)
    requires CanReach(c, s, u) && Leasable(c, u, id) && q in u.sent
    requires q.topic in c.sequenced && Earlier(PlaceOf(id, u.rows[id]), q)
    ensures Disorders(c, s)
  {
    var t, job := SendRow(c, u, id);
    ReachOn(c, s, u, t);
    LateSend(c, t.sent, PlaceOf(id, u.rows[id]), q);
  }

  /** A held row that was not sent by its worker can be sent as it is. */
  lemma SendHeld(c: Config, s: State, b: nat) returns (t: State)
    requires b in s.rows && Held(c, s, b) && s.rows[b].topic in c.sequenced
    requires forall j :: j in s.jobs && s.jobs[j].id == b ==> !s.jobs[j].sent
    ensures CanReach(c, s, t) && SamePlaces(s, t) && t.sent == s.sent + [PlaceOf(b, s.rows[b])]
    ensures forall r :: r in s.rows && r != b ==> t.rows[r] == s.rows[r]
  {
    Stay(c, s);
    if s.rows[b].status == Failed {
      var u, job := SendRow(c, s, b);
      t := u;
    } else if HasLiveJob(s, b) {
      var j :| j in s.jobs && s.jobs[j].id == b;
      ReachByStep(c, s, s, Send(j));
      t := Apply(c, s, Send(j));
    } else {
      ReachByStep(c, s, s, Expire(b, 0));
      var expired := Apply(c, s, Expire(b, 0));
      var u, job := SendRow(c, expired, b);
      t := u;
      ReachOn(c, s, expired, t);
    }
  }

  /** The rows ahead of a new row that is keyed ahead of a held row or a send are settled. */
  lemma NewRowIsFirst(c: Config, s: State, step: Step, q: Place)
    requires Inv(c, s) && Enabled(c, s, step) && step.Enqueue? && step.topic in c.sequenced
    requires Earlier(Place(step.topic, step.aggregate, step.createdAt, step.id), q)
    requires q in s.sent || (q.id in s.rows && q == PlaceOf(q.id, s.rows[q.id]) && Held(c, s, q.id))
    ensures FirstUnsettled(Apply(c, s, step), step.id)
  {
    var t := Apply(c, s, step);
    forall r | r in t.rows && Earlier(PlaceOf(r, t.rows[r]), PlaceOf(step.id, t.rows[step.id])) ensures Settled(t.rows[r]) {
      assert r != step.id && Earlier(PlaceOf(r, s.rows[r]), q);
    }
  }

  lemma AheadOfSend(c: Config, s: State, step: Step, q: Place)
    requires Inv(c, s) && Enabled(c, s, step) && step.Enqueue? && step.topic in c.sequenced && 0 < c.maxRetries
    requires Earlier(Place(step.topic, step.aggregate, step.createdAt, step.id), q) && q in s.sent
    ensures Disorders(c, Apply(c, s, step))
  {
    var t := Apply(c, s, step);
    NewRowIsFirst(c, s, step, q);
    Stay(c, t);
    SendLate(c, t, t, step.id, q);
  }

  /** A row keyed ahead of a held row, or of a send, can be sent after it. */
  lemma LateKeyIsHarmful(c: Config, s: State, step: Step)
    requires Inv(c, s) && Enabled(c, s, step) && step.Enqueue? && !KeyedLater(c, s, step) && 0 < c.maxRetries
    ensures Disorders(c, Apply(c, s, step))
  {
    var p := Place(step.topic, step.aggregate, step.createdAt, step.id);
    if q :| q in s.sent && Earlier(p, q) {
      AheadOfSend(c, s, step, q);
    } else {
      var b :| b in s.rows && Held(c, s, b) && Earlier(p, PlaceOf(b, s.rows[b]));
      var pb := PlaceOf(b, s.rows[b]);
      if j :| j in s.jobs && s.jobs[j].id == b && s.jobs[j].sent {
        AheadOfSend(c, s, step, pb);
      } else {
        AheadOfHeld(c, s, step, b);
      }
    }
  }

  lemma AheadOfHeld(c: Config, s: State, step: Step, b: nat)
    requires Inv(c, s) && Enabled(c, s, step) && step.Enqueue? && step.topic in c.sequenced && 0 < c.maxRetries
    requires b in s.rows && Held(c, s, b)
    requires Earlier(Place(step.topic, step.aggregate, step.createdAt, step.id), PlaceOf(b, s.rows[b]))
    requires forall j :: j in s.jobs && s.jobs[j].id == b ==> !s.jobs[j].sent
    ensures Disorders(c, Apply(c, s, step))
  {
    var t, pb := Apply(c, s, step), PlaceOf(b, s.rows[b]);
    NewRowIsFirst(c, s, step, pb);
    assert t.jobs == s.jobs && t.rows[b] == s.rows[b];
    assert HasLiveJob(s, b) <==> HasLiveJob(t, b);
    var u := SendHeld(c, t, b);
    assert u.sent[|t.sent|] == pb;
    forall r | r in u.rows && Earlier(PlaceOf(r, u.rows[r]), PlaceOf(step.id, u.rows[step.id])) ensures Settled(u.rows[r]) {
      assert Earlier(PlaceOf(r, t.rows[r]), PlaceOf(step.id, t.rows[step.id]));
      assert r != b;
    }
    SendLate(c, t, u, step.id, pb);
  }

  // ---- A lease that expires under a live worker ------------------------------------------------------------

  /** The unsettled rows behind a row of its topic and aggregate. */
  function Behind(s: State, id: nat): set<nat>
    requires id in s.rows
  {
    set r | r in s.rows && !Settled(s.rows[r]) && Earlier(PlaceOf(id, s.rows[id]), PlaceOf(r, s.rows[r]))
  }

  lemma {:induction false} FirstOf(s: State, id: nat, rows: set<nat>) returns (m: nat)
    requires id in s.rows && rows != {} && rows <= Behind(s, id)
    ensures m in rows && forall r :: r in rows ==> !Earlier(PlaceOf(r, s.rows[r]), PlaceOf(m, s.rows[m]))
    decreases |rows|
  {
    var u :| u in rows;
    if rows == {u} {
      m := u;
    } else {
      var rest := rows - {u};
      assert rows == rest + {u};
      var n := FirstOf(s, id, rest);
      m := if Earlier(PlaceOf(u, s.rows[u]), PlaceOf(n, s.rows[n])) then u else n;
    }
  }

  /** Ahead of a row in work under the invariant everything is settled, and behind it nothing is held or sent. */
  ghost predicate AloneInWork(c: Config, s: State, id: nat) {
    && id in s.rows && s.rows[id].topic in c.sequenced
    && (forall r :: r in s.rows && Earlier(PlaceOf(r, s.rows[r]), PlaceOf(id, s.rows[id])) ==> Settled(s.rows[r]))
    && (forall r :: r in Behind(s, id) ==> !Held(c, s, r) && RetryMatchesStatus(c, s.rows[r]))
    && (forall q :: q in s.sent ==> !Earlier(PlaceOf(id, s.rows[id]), q))
  }

  /** Behind a settled row some row can be leased next, a new one if there is no other. */
  lemma NextBehind(c: Config, s: State, id: nat) returns (t: State, b: nat)
    requires AloneInWork(c, s, id) && Settled(s.rows[id]) && 0 < c.maxRetries
    ensures CanReach(c, s, t) && t.sent == s.sent && t.jobs == s.jobs && s.rows.Keys <= t.rows.Keys
    ensures b != id && (forall r :: r in s.rows && r != b ==> t.rows[r] == s.rows[r])
    ensures forall r :: r in t.rows && r !in s.rows ==> r == b
    ensures Leasable(c, t, b) && Earlier(PlaceOf(id, t.rows[id]), PlaceOf(b, t.rows[b]))
  {
    if Behind(s, id) == {} {
      t, b := NewBehind(c, s, id);
    } else {
      b := FirstOf(s, id, Behind(s, id));
      t := OldBehind(c, s, id, b);
    }
  }

  lemma OldBehind(c: Config, s: State, id: nat, b: nat) returns (t: State)
    requires AloneInWork(c, s, id) && Settled(s.rows[id])
    requires b in Behind(s, id) && forall r :: r in Behind(s, id) ==> !Earlier(PlaceOf(r, s.rows[r]), PlaceOf(b, s.rows[b]))
    ensures CanReach(c, s, t) && t.sent == s.sent && t.jobs == s.jobs && SamePlaces(s, t)
    ensures b != id && (forall r :: r in s.rows && r != b ==> t.rows[r] == s.rows[r]) && Leasable(c, t, b)
  {
    Stay(c, s);
    assert FirstUnsettled(s, b) by {
      forall r | r in s.rows && Earlier(PlaceOf(r, s.rows[r]), PlaceOf(b, s.rows[b])) ensures Settled(s.rows[r]) {
        var pr, p := PlaceOf(r, s.rows[r]), PlaceOf(id, s.rows[id]);
        assert r == id || Earlier(pr, p) || Earlier(p, pr);
      }
    }
    if s.rows[b].status == Pending {
      t := s;
    } else {
      ReachByStep(c, s, s, Expire(b, 0));
      t := Apply(c, s, Expire(b, 0));
      assert FirstUnsettled(t, b) by {
        forall r | r in t.rows && Earlier(PlaceOf(r, t.rows[r]), PlaceOf(b, t.rows[b])) ensures Settled(t.rows[r]) {
          assert Earlier(PlaceOf(r, s.rows[r]), PlaceOf(b, s.rows[b]));
        }
      }
    }
  }

  function IdsInUse(s: State): set<nat> {
    s.rows.Keys + (set p | p in s.sent :: p.id) + (set j | j in s.jobs :: s.jobs[j].id)
  }

  function TimesInUse(s: State): set<int> {
    (set r | r in s.rows :: s.rows[r].createdAt) + (set p | p in s.sent :: p.createdAt)
  }

  lemma NewBehind(c: Config, s: State, id: nat) returns (t: State, b: nat)
    requires AloneInWork(c, s, id) && Settled(s.rows[id]) && 0 < c.maxRetries && Behind(s, id) == {}
    ensures CanReach(c, s, t) && t.sent == s.sent && t.jobs == s.jobs && b !in s.rows && b in t.rows
    ensures t.rows == s.rows[b := t.rows[b]]
    ensures Leasable(c, t, b) && Earlier(PlaceOf(id, t.rows[id]), PlaceOf(b, t.rows[b]))
  {
    b := Beyond(IdsInUse(s));
    var at := Beyond(TimesInUse(s));
    var row := s.rows[id];
    var step := Enqueue(b, row.topic, row.aggregate, at, 0);
    assert b !in IdsInUse(s);
    forall r | r in s.rows ensures s.rows[r].createdAt < at {
      assert s.rows[r].createdAt in TimesInUse(s);
    }
    forall q | q in s.sent ensures q.createdAt < at && q.id != b {
      assert q.createdAt in TimesInUse(s) && q.id in IdsInUse(s);
    }
    forall j | j in s.jobs ensures s.jobs[j].id != b {
      assert s.jobs[j].id in IdsInUse(s);
    }
    Stay(c, s);
    ReachByStep(c, s, s, step);
    t := Apply(c, s, step);
    assert FirstUnsettled(t, b) by {
      forall r | r in t.rows && Earlier(PlaceOf(r, t.rows[r]), PlaceOf(b, t.rows[b])) ensures Settled(t.rows[r]) {
        var pr, p := PlaceOf(r, s.rows[r]), PlaceOf(id, row);
        assert r == id || Earlier(pr, p) || Earlier(p, pr);
        assert r !in Behind(s, id);
      }
    }
  }

  lemma OutOfOrder(c: Config, sent: seq<Place>, pa: Place, pb: Place)
    requires Earlier(pa, pb) && pb.topic in c.sequenced
    ensures !SentInOrder(c, sent + [pa] + [pb] + [pa])
  {
    var all := sent + [pa] + [pb] + [pa];
    assert all[|sent| + 1] == pb && all[|sent| + 2] == pa;
  }

  /** A worker that lost its row fails late: the row is requeued behind its back, and sent again. */
  lemma LateFailure(c: Config, s: State, a: nat, job: nat) returns (t: State)
    requires a in s.rows && job in s.jobs && s.jobs[job].id == a
    requires forall r :: r in s.rows && Earlier(PlaceOf(r, s.rows[r]), PlaceOf(a, s.rows[a])) ==> Settled(s.rows[r])
    ensures CanReach(c, s, t) && t.sent == s.sent + [PlaceOf(a, s.rows[a])]
  {
    Stay(c, s);
    ReachByStep(c, s, s, Fail(job, 0));
    var failed := Apply(c, s, Fail(job, 0));
    assert FirstUnsettled(failed, a) by {
      forall r | r in failed.rows && Earlier(PlaceOf(r, failed.rows[r]), PlaceOf(a, failed.rows[a]))
        ensures Settled(failed.rows[r])
      {
        assert Earlier(PlaceOf(r, s.rows[r]), PlaceOf(a, s.rows[a]));
      }
    }
    assert s.jobs[job].manual || c.maxRetries <= s.jobs[job].retryCount + 1 ==> failed.rows[a].status == Failed;
    var u, k := SendRow(c, failed, a);
    ReachOn(c, s, failed, u);
    t := u;
  }

  lemma ExpiryLeavesAlone(c: Config, s: State, step: Step)
    requires Inv(c, s) && Enabled(c, s, step) && step.Expire? && !Fenced(c, s, step)
    ensures AloneInWork(c, Apply(c, s, step), step.id) && Leasable(c, Apply(c, s, step), step.id)
  {
    var id, t := step.id, Apply(c, s, step);
    var j :| j in s.jobs && s.jobs[j].id == id;
    OwnedRowIsHeld(c, s, j);
    forall r | r in t.rows && Earlier(PlaceOf(r, t.rows[r]), PlaceOf(id, t.rows[id])) ensures Settled(t.rows[r]) {
      assert Earlier(PlaceOf(r, s.rows[r]), PlaceOf(id, s.rows[id]));
    }
    forall r | r in Behind(t, id) ensures !Held(c, t, r) && RetryMatchesStatus(c, t.rows[r]) {
      assert Earlier(PlaceOf(id, s.rows[id]), PlaceOf(r, s.rows[r]));
      assert HasLiveJob(t, r) <==> HasLiveJob(s, r);
      assert !Held(c, s, r);
    }
  }

  lemma PublishingKeepsAlone(c: Config, s: State, id: nat, t: State)
    requires AloneInWork(c, s, id) && t.jobs == s.jobs && t.rows == s.rows[id := s.rows[id].(status := Published)]
    requires t.sent == s.sent + [PlaceOf(id, s.rows[id])]
    ensures AloneInWork(c, t, id)
  {
    forall r | r in t.rows && Earlier(PlaceOf(r, t.rows[r]), PlaceOf(id, t.rows[id])) ensures Settled(t.rows[r]) {
      assert Earlier(PlaceOf(r, s.rows[r]), PlaceOf(id, s.rows[id]));
    }
    forall r | r in Behind(t, id) ensures !Held(c, t, r) && RetryMatchesStatus(c, t.rows[r]) {
      assert r in Behind(s, id);
      assert HasLiveJob(t, r) <==> HasLiveJob(s, r);
    }
  }

  /** After the expiry another worker publishes the row and sends an event behind it. */
  lemma OvertakenRow(c: Config, s: State, a: nat, job: nat) returns (t: State, pb: Place)
    requires AloneInWork(c, s, a) && Leasable(c, s, a) && job in s.jobs && s.jobs[job].id == a && 0 < c.maxRetries
    ensures CanReach(c, s, t) && job in t.jobs && t.jobs[job].id == a
    ensures Earlier(PlaceOf(a, s.rows[a]), pb) && t.sent == s.sent + [PlaceOf(a, s.rows[a])] + [pb]
    ensures a in t.rows && PlaceOf(a, t.rows[a]) == PlaceOf(a, s.rows[a])
    ensures forall r :: r in t.rows && Earlier(PlaceOf(r, t.rows[r]), PlaceOf(a, t.rows[a])) ==> Settled(t.rows[r])
  {
    var s1 := PublishRow(c, s, a);
    PublishingKeepsAlone(c, s, a, s1);
    var s2, b := NextBehind(c, s1, a);
    ReachOn(c, s, s1, s2);
    var s3, k := SendRow(c, s2, b);
    ReachOn(c, s, s2, s3);
    t, pb := s3, PlaceOf(b, s2.rows[b]);
    forall r | r in t.rows && Earlier(PlaceOf(r, t.rows[r]), PlaceOf(a, t.rows[a])) ensures Settled(t.rows[r]) {
      assert r != b && r in s1.rows && t.rows[r] == s1.rows[r];
    }
  }

  /**
   If the lease of a live worker expires, another worker may publish the row and an event behind it before the first
   one fails late and the row is sent again.
   */
  lemma LiveExpiryIsHarmful(c: Config, s: State, step: Step)
    requires Inv(c, s) && Enabled(c, s, step) && step.Expire? && !Fenced(c, s, step) && 0 < c.maxRetries
    ensures Disorders(c, Apply(c, s, step))
  {
    var a, s0 := step.id, Apply(c, s, step);
    var job :| job in s.jobs && s.jobs[job].id == a;
    ExpiryLeavesAlone(c, s, step);
    var t, pb := OvertakenRow(c, s0, a, job);
    var u := LateFailure(c, t, a, job);
    ReachOn(c, s0, t, u);
    OutOfOrder(c, s0.sent, PlaceOf(a, s0.rows[a]), pb);
  }

  /**
   A step is orderly exactly if no continuation by orderly steps sends out of order: whatever the state the rows and
   workers are in, each of the two conditions forbids harmful steps and nothing else.
   */
  lemma OrderlyExactly(c: Config, s: State, step: Step)
    requires Inv(c, s) && Enabled(c, s, step) && 0 < c.maxRetries
    ensures Orderly(c, s, step) <==> !Disorders(c, Apply(c, s, step))
  {
    if Orderly(c, s, step) {
      StepKeepsInv(c, s, step);
      forall t | CanReach(c, Apply(c, s, step), t) ensures SentInOrder(c, t.sent) {
        var steps :| Leads(c, Apply(c, s, step), steps, t);
        ReachKeepsInv(c, Apply(c, s, step), steps, t);
      }
    } else if !Fenced(c, s, step) {
      LiveExpiryIsHarmful(c, s, step);
    } else {
      LateKeyIsHarmful(c, s, step);
    }
  }

  // ---- A run of the whole system ---------------------------------------------------------------------------

  lemma RunOn(c: Config, states: seq<State>, steps: seq<Step>, step: Step, next: State)
    requires Run(c, states, steps) && Enabled(c, states[|steps|], step) && Apply(c, states[|steps|], step) == next
    ensures Run(c, states + [next], steps + [step])
  {
    var longer, more := states + [next], steps + [step];
    forall k | 0 <= k < |more| ensures StepAt(c, longer, more, k) {
      if k < |steps| { assert StepAt(c, states, steps, k); }
    }
  }

  /** Two events of one order, created at 0 and 1. */
  function Two(topic: string, first: Status, second: Status, jobs: map<nat, Job>, sent: seq<Place>): State {
    State(map[0 := Row(topic, "order", 0, first, 0, 0), 1 := Row(topic, "order", 1, second, 0, 0)], jobs, sent)
  }

  function Leased(id: nat): Job {
    Job(id, 0, false, false)
  }

  predicate Moves(c: Config, s: State, step: Step, t: State) {
    Enabled(c, s, step) && Apply(c, s, step) == t
  }

  lemma LeaseFirst(c: Config, topic: string, jobs: map<nat, Job>, job: nat)
    requires 0 < c.maxRetries && job !in jobs
    ensures Moves(c, Two(topic, Pending, Pending, jobs, []), Acquire(0, job, 0),
                  Two(topic, Processing, Pending, jobs[job := Leased(0)], []))
  {
    var s := Two(topic, Pending, Pending, jobs, []);
    assert Apply(c, s, Acquire(0, job, 0)).rows == Two(topic, Processing, Pending, jobs, []).rows;
  }

  lemma LeaseSecond(c: Config, topic: string, jobs: map<nat, Job>, sent: seq<Place>, job: nat)
    requires 0 < c.maxRetries && job !in jobs
    ensures Moves(c, Two(topic, Published, Pending, jobs, sent), Acquire(1, job, 0),
                  Two(topic, Published, Processing, jobs[job := Leased(1)], sent))
  {
    var s := Two(topic, Published, Pending, jobs, sent);
    assert Apply(c, s, Acquire(1, job, 0)).rows == Two(topic, Published, Processing, jobs, sent).rows;
  }

  lemma ExpireFirst(c: Config, topic: string, jobs: map<nat, Job>)
    requires 0 < c.maxRetries
    ensures Moves(c, Two(topic, Processing, Pending, jobs, []), Expire(0, 0), Two(topic, Pending, Pending, jobs, []))
  {
    var s := Two(topic, Processing, Pending, jobs, []);
    assert Apply(c, s, Expire(0, 0)).rows == Two(topic, Pending, Pending, jobs, []).rows;
  }

  lemma MarkFirst(c: Config, topic: string, jobs: map<nat, Job>, sent: seq<Place>, job: nat)
    requires job in jobs && jobs[job].id == 0 && jobs[job].sent
    ensures Moves(c, Two(topic, Processing, Pending, jobs, sent), Mark(job), Two(topic, Published, Pending, jobs - {job}, sent))
  {
    var s := Two(topic, Processing, Pending, jobs, sent);
    assert Apply(c, s, Mark(job)).rows == Two(topic, Published, Pending, jobs, sent).rows;
  }

  lemma BothEnqueued(c: Config, topic: string) returns (states: seq<State>, steps: seq<Step>)
    requires 0 < c.maxRetries
    ensures |steps| == 2 && Run(c, states, steps) && OrderlyRun(c, states, steps)
    ensures states[2] == Two(topic, Pending, Pending, map[], [])
  {
    var e0, e1 := Enqueue(0, topic, "order", 0, 0), Enqueue(1, topic, "order", 1, 0);
    var s1 := Apply(c, EMPTY, e0);
    RunOn(c, [EMPTY], [], e0, s1);
    assert [EMPTY] + [s1] == [EMPTY, s1] && [] + [e0] == [e0];
    assert !Held(c, s1, 0);
    RunOn(c, [EMPTY, s1], [e0], e1, Two(topic, Pending, Pending, map[], []));
    states, steps := [EMPTY, s1] + [Two(topic, Pending, Pending, map[], [])], [e0] + [e1];
  }

  /** The lease of the first event expires under its worker, and a second worker leases it. */
  lemma LeaseLost(c: Config, topic: string) returns (states: seq<State>, steps: seq<Step>)
    requires topic in c.sequenced && 0 < c.maxRetries
    ensures |steps| == 5 && Run(c, states, steps) && steps[3] == Expire(0, 0)
    ensures forall k :: 0 <= k < 5 && k != 3 ==> Orderly(c, states[k], steps[k])
    ensures states[5] == Two(topic, Processing, Pending, map[0 := Leased(0), 1 := Leased(0)], [])
  {
    var one: map<nat, Job> := map[0 := Leased(0)];
    states, steps := BothEnqueued(c, topic);
    LeaseFirst(c, topic, map[], 0);
    RunOn(c, states, steps, Acquire(0, 0, 0), Two(topic, Processing, Pending, one, []));
    states, steps := states + [Two(topic, Processing, Pending, one, [])], steps + [Acquire(0, 0, 0)];
    ExpireFirst(c, topic, one);
    RunOn(c, states, steps, Expire(0, 0), Two(topic, Pending, Pending, one, []));
    states, steps := states + [Two(topic, Pending, Pending, one, [])], steps + [Expire(0, 0)];
    LeaseFirst(c, topic, one, 1);
    RunOn(c, states, steps, Acquire(0, 1, 0), Two(topic, Processing, Pending, one[1 := Leased(0)], []));
    states := states + [Two(topic, Processing, Pending, one[1 := Leased(0)], [])];
    steps := steps + [Acquire(0, 1, 0)];
  }

  /** The second worker publishes the first event. */
  lemma FirstPublished(c: Config, topic: string) returns (states: seq<State>, steps: seq<Step>)
    requires topic in c.sequenced && 0 < c.maxRetries
    ensures |steps| == 7 && Run(c, states, steps) && steps[3] == Expire(0, 0)
    ensures forall k :: 0 <= k < 7 && k != 3 ==> Orderly(c, states[k], steps[k])
    ensures states[7] == Two(topic, Published, Pending, map[0 := Leased(0)], [Place(topic, "order", 0, 0)])
  {
    states, steps := LeaseLost(c, topic);
    var jobs, sent := map[0 := Leased(0), 1 := Leased(0).(sent := true)], [Place(topic, "order", 0, 0)];
    RunOn(c, states, steps, Send(1), Two(topic, Processing, Pending, jobs, sent));
    states, steps := states + [Two(topic, Processing, Pending, jobs, sent)], steps + [Send(1)];
    MarkFirst(c, topic, jobs, sent, 1);
    assert jobs - {1} == map[0 := Leased(0)];
    RunOn(c, states, steps, Mark(1), Two(topic, Published, Pending, jobs - {1}, sent));
    states, steps := states + [Two(topic, Published, Pending, jobs - {1}, sent)], steps + [Mark(1)];
  }

  /** From the empty table: one lease that expires under its worker, and the first event is sent after the second. */
  lemma LostLeaseReorders(c: Config, topic: string) returns (states: seq<State>, steps: seq<Step>)
    requires topic in c.sequenced && 0 < c.maxRetries
    ensures Run(c, states, steps) && !SentInOrder(c, states[|steps|].sent)
    ensures 3 < |steps| && steps[3] == Expire(0, 0)
    ensures forall k :: 0 <= k < |steps| && k != 3 ==> Orderly(c, states[k], steps[k])
  {
    states, steps := FirstPublished(c, topic);
    var p0, p1 := Place(topic, "order", 0, 0), Place(topic, "order", 1, 1);
    var leased, sent := map[0 := Leased(0), 1 := Leased(1)], map[0 := Leased(0), 1 := Leased(1).(sent := true)];
    LeaseSecond(c, topic, map[0 := Leased(0)], [p0], 1);
    RunOn(c, states, steps, Acquire(1, 1, 0), Two(topic, Published, Processing, leased, [p0]));
    states, steps := states + [Two(topic, Published, Processing, leased, [p0])], steps + [Acquire(1, 1, 0)];
    RunOn(c, states, steps, Send(1), Two(topic, Published, Processing, sent, [p0] + [p1]));
    states, steps := states + [Two(topic, Published, Processing, sent, [p0] + [p1])], steps + [Send(1)];
    var last := Apply(c, states[9], Send(0));
    RunOn(c, states, steps, Send(0), last);
    states, steps := states + [last], steps + [Send(0)];
    OutOfOrder(c, [], p0, p1);
    assert last.sent == [] + [p0] + [p1] + [p0];
  }
}
