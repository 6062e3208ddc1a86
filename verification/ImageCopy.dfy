/**
 Copying catalogue images into the target bucket and inserting their upload rows.

 A process reads the rows it is about to write, looks up all objects, copies the missing ones and verifies each copy,
 and inserts the rows in one transaction. It may die at any moment, and may be started again. `RunIsSafe` says what
 every run keeps, `FinishedRunsAgree` that every run that finishes leaves the same target, and `OnlyCopyableFinishes`
 with `CopyableIsNeverStuck` which targets a run can finish on.
 */
module ImageCopy {
  import opened ConcurrentMap

  /** What a HEAD request tells about an object; an absent checksum or etag is empty. */
  datatype Print = Print(length: int, checksum: string, etag: string)

  predicate Matches(left: Print, right: Print) {
    && left.length == right.length
    && (if left.checksum != "" && right.checksum != "" then left.checksum == right.checksum
        else left.etag != "" && right.etag != "" && left.etag == right.etag)
  }

  /** Equal lengths, and one known and equal identity: the checksum, or the etag where a checksum is unknown. */
  predicate SameObject(source: Print, target: Print) {
    && source.length == target.length
    && (|| (source.checksum != "" && source.checksum == target.checksum)
        || ((source.checksum == "" || target.checksum == "") && source.etag != "" && source.etag == target.etag))
  }

  /** The comparison as the code makes it comes to this, and does not depend on which object is the source. */
  lemma MatchesExactly(left: Print, right: Print)
    ensures Matches(left, right) <==> SameObject(left, right)
    ensures Matches(left, right) <==> Matches(right, left)
  {
  }

  datatype Image = Image(fileId: string, key: string, row: string)

  /** The plan, the source bucket, and the print an object has after the store copied it. */
  datatype Setup = Setup(images: seq<Image>, source: map<string, Print>, copied: Print -> Print, concurrency: nat)

  datatype World = World(objects: map<string, Print>, rows: map<string, string>)

  datatype Phase =
    | Idle
    | Heading(pool: Pool, missing: set<nat>)
    | Copying(pool: Pool, copies: seq<nat>)
    | Inserting
    | Done
    | Rejected

  datatype State = State(world: World, phase: Phase)

  predicate DistinctFiles(images: seq<Image>) {
    forall i, j :: 0 <= i < j < |images| ==> images[i].fileId != images[j].fileId
  }

  // ---- The checks ------------------------------------------------------------------------------------------

  /** No upload row differs from the planned one. */
  predicate RowsFit(setup: Setup, rows: map<string, string>) {
    forall i :: 0 <= i < |setup.images| && setup.images[i].fileId in rows
      ==> rows[setup.images[i].fileId] == setup.images[i].row
  }

  predicate ObjectFits(setup: Setup, w: World, i: nat)
    requires i < |setup.images|
  {
    var key := setup.images[i].key;
    key in setup.source && (key in w.objects ==> Matches(setup.source[key], w.objects[key]))
  }

  /** The object of image `i` is in the target and matches its source. */
  predicate Verified(setup: Setup, w: World, i: nat)
    requires i < |setup.images|
  {
    var key := setup.images[i].key;
    key in setup.source && key in w.objects && Matches(setup.source[key], w.objects[key])
  }

  predicate AllVerified(setup: Setup, w: World) {
    forall i :: 0 <= i < |setup.images| ==> Verified(setup, w, i)
  }

  function Selected(missing: set<nat>, n: nat): seq<nat> {
    if n == 0 then [] else Selected(missing, n - 1) + (if n - 1 in missing then [n - 1] else [])
  }

  function PlannedRows(images: seq<Image>): map<string, string> {
    if images == [] then map[]
    else PlannedRows(images[..|images| - 1])[images[|images| - 1].fileId := images[|images| - 1].row]
  }

  /** Rows are inserted only where none is. */
  function Inserted(setup: Setup, rows: map<string, string>): map<string, string> {
    PlannedRows(setup.images) + rows
  }

  function CopiedObject(setup: Setup, w: World, key: string): World
    requires key in setup.source
  {
    w.(objects := w.objects[key := setup.copied(setup.source[key])])
  }

  // ---- Steps -----------------------------------------------------------------------------------------------

  datatype Step =
    | Start
    | TakeItem(w: nat)
    | Head(w: nat)
    | StartCopies
    | Copy(w: nat)
    | Verify(w: nat)
    | Fail(w: nat)
    | StartInsert
    | Insert
    | Die

  predicate Pooled(phase: Phase) {
    phase.Heading? || phase.Copying?
  }

  /** The image a busy worker has in hand. */
  function ImageOf(phase: Phase, w: nat): nat
    requires Pooled(phase) && IsBusy(phase.pool, w)
  {
    var item := phase.pool.workers[w].item;
    if phase.Heading? then item else if item < |phase.copies| then phase.copies[item] else 0
  }

  predicate Busy(setup: Setup, s: State, w: nat) {
    Pooled(s.phase) && IsBusy(s.phase.pool, w) && ImageOf(s.phase, w) < |setup.images|
  }

  predicate Enabled(setup: Setup, s: State, step: Step) {
    match step
    case Start => s.phase == Idle
    case TakeItem(w) => Pooled(s.phase) && CanTake(s.phase.pool, w)
    case Head(w) => s.phase.Heading? && Busy(setup, s, w)
    case StartCopies => s.phase.Heading? && AllFinished(s.phase.pool) && UsableConcurrency(setup.concurrency)
    case Copy(w) =>
      s.phase.Copying? && Busy(setup, s, w) && s.phase.pool.workers[w].stage == 0
      && setup.images[ImageOf(s.phase, w)].key in setup.source
    case Verify(w) => s.phase.Copying? && Busy(setup, s, w) && s.phase.pool.workers[w].stage == 1
    case Fail(w) => Busy(setup, s, w)
    case StartInsert => s.phase.Copying? && AllFinished(s.phase.pool)
    case Insert => s.phase.Inserting?
    case Die => true
  }

  function WithPool(phase: Phase, pool: Pool): Phase
    requires Pooled(phase)
  {
    if phase.Heading? then Heading(pool, phase.missing) else Copying(pool, phase.copies)
  }

  function Started(setup: Setup, w: World): Phase {
    if RowsFit(setup, w.rows) && UsableConcurrency(setup.concurrency)
    then Heading(NewPool(|setup.images|, setup.concurrency), {})
    else Rejected
  }

  function Headed(setup: Setup, s: State, w: nat): Phase
    requires Enabled(setup, s, Head(w))
  {
    var i := ImageOf(s.phase, w);
    if !ObjectFits(setup, s.world, i) then Heading(Break(s.phase.pool, w), s.phase.missing)
    else Heading(Complete(s.phase.pool, w),
                 if setup.images[i].key in s.world.objects then s.phase.missing else s.phase.missing + {i})
  }

  function Apply(setup: Setup, s: State, step: Step): State
    requires Enabled(setup, s, step)
  {
    match step
    case Start => s.(phase := Started(setup, s.world))
    case TakeItem(w) => s.(phase := WithPool(s.phase, Take(s.phase.pool, w)))
    case Head(w) => s.(phase := Headed(setup, s, w))
    case StartCopies =>
      var copies := Selected(s.phase.missing, |setup.images|);
      s.(phase := Copying(NewPool(|copies|, setup.concurrency), copies))
    case Copy(w) =>
      State(CopiedObject(setup, s.world, setup.images[ImageOf(s.phase, w)].key),
            Copying(Advance(s.phase.pool, w), s.phase.copies))
    case Verify(w) =>
      var verified := Verified(setup, s.world, ImageOf(s.phase, w));
      s.(phase := Copying(if verified then Complete(s.phase.pool, w) else Break(s.phase.pool, w), s.phase.copies))
    case Fail(w) => s.(phase := WithPool(s.phase, Break(s.phase.pool, w)))
    case StartInsert => s.(phase := Inserting)
    case Insert =>
      if RowsFit(setup, Inserted(setup, s.world.rows))
      then State(s.world.(rows := Inserted(setup, s.world.rows)), Done)
      else s.(phase := Rejected)
    case Die => s.(phase := Idle)
  }

  // ---- What every step keeps -------------------------------------------------------------------------------

  predicate Planned(setup: Setup, key: string) {
    exists i :: 0 <= i < |setup.images| && setup.images[i].key == key
  }

  /** The objects are those of `before` and copies of planned ones that were missing. */
  predicate ObjectsGrow(setup: Setup, before: World, w: World) {
    && (forall key :: key in before.objects ==> key in w.objects && w.objects[key] == before.objects[key])
    && (forall key :: key in w.objects && key !in before.objects
          ==> Planned(setup, key) && key in setup.source && w.objects[key] == setup.copied(setup.source[key]))
  }

  /** The rows are those of `before`, or all planned rows were added and all their objects are verified. */
  predicate RowsFollow(setup: Setup, before: World, w: World) {
    w.rows == before.rows || (w.rows == Inserted(setup, before.rows) && RowsFit(setup, before.rows) && AllVerified(setup, w))
  }

  predicate HeadKnown(setup: Setup, w: World, missing: set<nat>, i: nat) {
    i < |setup.images| && ObjectFits(setup, w, i) && (i in missing <==> setup.images[i].key !in w.objects)
  }

  predicate HeadsKnown(setup: Setup, w: World, pool: Pool, missing: set<nat>) {
    && Sound(pool) && pool.size == |setup.images| && missing <= pool.done
    && forall i :: i in pool.done ==> HeadKnown(setup, w, missing, i)
  }

  predicate CopiesKnown(setup: Setup, before: World, w: World, pool: Pool, copies: seq<nat>) {
    && Sound(pool) && pool.size == |copies|
    && (forall k :: 0 <= k < |copies| ==> MayCopy(setup, before, copies[k]))
    && (forall i: nat :: i < |setup.images| && i !in copies ==> Verified(setup, w, i))
    && (forall k :: k in pool.done ==> k < |copies| && Verified(setup, w, copies[k]))
    && (forall v :: 0 <= v < |pool.workers| ==> CopyWritten(setup, w, copies, pool.workers[v]))
  }

  /** A worker past the copy of its image has written the object. */
  predicate CopyWritten(setup: Setup, w: World, copies: seq<nat>, worker: Worker) {
    (worker.Busy? && worker.item < |copies| && copies[worker.item] < |setup.images| && 0 < worker.stage)
    ==> worker.stage == 1 && setup.images[copies[worker.item]].key in w.objects
  }

  predicate MayCopy(setup: Setup, before: World, i: nat) {
    i < |setup.images| && setup.images[i].key in setup.source && setup.images[i].key !in before.objects
  }

  predicate PhaseKnows(setup: Setup, before: World, s: State) {
    match s.phase
    case Idle => true
    case Rejected => true
    case Heading(pool, missing) => RowsFit(setup, s.world.rows) && HeadsKnown(setup, s.world, pool, missing)
    case Copying(pool, copies) => RowsFit(setup, s.world.rows) && CopiesKnown(setup, before, s.world, pool, copies)
    case Inserting => RowsFit(setup, s.world.rows) && AllVerified(setup, s.world)
    case Done => s.world.rows == Inserted(setup, before.rows) && RowsFit(setup, before.rows) && AllVerified(setup, s.world)
  }

  predicate Inv(setup: Setup, before: World, s: State) {
    && DistinctFiles(setup.images) && (s.phase != Idle && s.phase != Rejected ==> UsableConcurrency(setup.concurrency))
    && ObjectsGrow(setup, before, s.world) && RowsFollow(setup, before, s.world) && PhaseKnows(setup, before, s)
  }

  lemma CopyKeepsVerified(setup: Setup, before: World, w: World, i: nat, j: nat)
    requires ObjectsGrow(setup, before, w) && MayCopy(setup, before, i) && j < |setup.images|
    ensures ObjectsGrow(setup, before, CopiedObject(setup, w, setup.images[i].key))
    ensures Verified(setup, w, j) ==> Verified(setup, CopiedObject(setup, w, setup.images[i].key), j)
  {
    assert Planned(setup, setup.images[i].key);
  }

  lemma CopyKeepsInv(setup: Setup, before: World, s: State, w: nat)
    requires Inv(setup, before, s) && Enabled(setup, s, Copy(w))
    ensures Inv(setup, before, Apply(setup, s, Copy(w)))
  {
    var copies, item := s.phase.copies, s.phase.pool.workers[w].item;
    AdvanceKeepsSound(s.phase.pool, w);
    assert item < |copies| && MayCopy(setup, before, copies[item]);
    forall j: nat | j < |setup.images| && Verified(setup, s.world, j)
      ensures Verified(setup, Apply(setup, s, Copy(w)).world, j)
    {
      CopyKeepsVerified(setup, before, s.world, copies[item], j);
    }
    CopyKeepsVerified(setup, before, s.world, copies[item], copies[item]);
    var after := Apply(setup, s, Copy(w));
    forall v | 0 <= v < |after.phase.pool.workers|
      ensures CopyWritten(setup, after.world, copies, after.phase.pool.workers[v])
    {
      assert CopyWritten(setup, s.world, copies, s.phase.pool.workers[v]);
    }
  }

  lemma TakeKeepsInv(setup: Setup, before: World, s: State, w: nat)
    requires Inv(setup, before, s) && Enabled(setup, s, TakeItem(w))
    ensures Inv(setup, before, Apply(setup, s, TakeItem(w)))
  {
    TakeKeepsSound(s.phase.pool, w);
  }

  lemma BreakKeepsInv(setup: Setup, before: World, s: State, w: nat)
    requires Inv(setup, before, s) && Busy(setup, s, w)
    ensures Inv(setup, before, s.(phase := WithPool(s.phase, Break(s.phase.pool, w))))
  {
    AdvanceKeepsSound(s.phase.pool, w);
  }

  lemma HeadKeepsInv(setup: Setup, before: World, s: State, w: nat)
    requires Inv(setup, before, s) && Enabled(setup, s, Head(w))
    ensures Inv(setup, before, Apply(setup, s, Head(w)))
  {
    var i := ImageOf(s.phase, w);
    BreakKeepsInv(setup, before, s, w);
    CompleteKeepsSound(s.phase.pool, w);
    var after := Apply(setup, s, Head(w)).phase;
    if ObjectFits(setup, s.world, i) {
      forall j | j in after.pool.done ensures HeadKnown(setup, s.world, after.missing, j) {
        if j != i {
          assert HeadKnown(setup, s.world, s.phase.missing, j);
        }
      }
    }
  }

  lemma VerifyKeepsInv(setup: Setup, before: World, s: State, w: nat)
    requires Inv(setup, before, s) && Enabled(setup, s, Verify(w))
    ensures Inv(setup, before, Apply(setup, s, Verify(w)))
  {
    BreakKeepsInv(setup, before, s, w);
    CompleteKeepsSound(s.phase.pool, w);
  }

  lemma {:induction false} SelectedExactly(missing: set<nat>, n: nat)
    ensures forall i: nat :: i in Selected(missing, n) <==> i < n && i in missing
  {
    if n > 0 {
      SelectedExactly(missing, n - 1);
    }
  }

  lemma StartCopiesKeepsInv(setup: Setup, before: World, s: State)
    requires Inv(setup, before, s) && Enabled(setup, s, StartCopies)
    ensures Inv(setup, before, Apply(setup, s, StartCopies))
  {
    var missing, copies := s.phase.missing, Selected(s.phase.missing, |setup.images|);
    FinishedPoolIsDone(s.phase.pool);
    SelectedExactly(missing, |setup.images|);
    forall i: nat | i < |setup.images| ensures HeadKnown(setup, s.world, missing, i) {
      assert i in s.phase.pool.done;
    }
    forall k | 0 <= k < |copies| ensures MayCopy(setup, before, copies[k]) {
      assert copies[k] in copies;
      assert HeadKnown(setup, s.world, missing, copies[k]);
    }
    forall i: nat | i < |setup.images| && i !in copies ensures Verified(setup, s.world, i) {
      assert HeadKnown(setup, s.world, missing, i);
    }
  }

  lemma StartInsertKeepsInv(setup: Setup, before: World, s: State)
    requires Inv(setup, before, s) && Enabled(setup, s, StartInsert)
    ensures Inv(setup, before, Apply(setup, s, StartInsert))
  {
    FinishedPoolIsDone(s.phase.pool);
    forall i | 0 <= i < |setup.images| ensures Verified(setup, s.world, i) {
      if i in s.phase.copies {
        var k :| 0 <= k < |s.phase.copies| && s.phase.copies[k] == i;
        assert k in s.phase.pool.done;
      }
    }
  }

  lemma {:induction false} PlannedRowsExactly(images: seq<Image>)
    requires DistinctFiles(images)
    ensures forall i :: 0 <= i < |images|
              ==> images[i].fileId in PlannedRows(images) && PlannedRows(images)[images[i].fileId] == images[i].row
    ensures forall id :: id in PlannedRows(images) ==> exists i :: 0 <= i < |images| && images[i].fileId == id
  {
    if images != [] {
      var n := |images| - 1;
      PlannedRowsExactly(images[..n]);
      forall i | 0 <= i < |images|
        ensures images[i].fileId in PlannedRows(images) && PlannedRows(images)[images[i].fileId] == images[i].row
      {
        if i < n {
          assert images[..n][i] == images[i];
        }
      }
      forall id | id in PlannedRows(images) ensures exists i :: 0 <= i < |images| && images[i].fileId == id {
        if id != images[n].fileId {
          var i :| 0 <= i < n && images[..n][i].fileId == id;
          assert images[i].fileId == id;
        }
      }
    }
  }

  /** The insert transaction commits exactly if the rows that were there fit. */
  lemma InsertFits(setup: Setup, rows: map<string, string>)
    requires DistinctFiles(setup.images)
    ensures RowsFit(setup, Inserted(setup, rows)) <==> RowsFit(setup, rows)
    ensures RowsFit(setup, rows) ==> Inserted(setup, Inserted(setup, rows)) == Inserted(setup, rows)
  {
    PlannedRowsExactly(setup.images);
    forall i | 0 <= i < |setup.images| && setup.images[i].fileId in rows
      ensures Inserted(setup, rows)[setup.images[i].fileId] == rows[setup.images[i].fileId]
    {
    }
  }

  lemma InsertKeepsInv(setup: Setup, before: World, s: State)
    requires Inv(setup, before, s) && Enabled(setup, s, Insert)
    ensures Inv(setup, before, Apply(setup, s, Insert))
  {
    InsertFits(setup, s.world.rows);
    InsertFits(setup, before.rows);
    forall i | 0 <= i < |setup.images| ensures Verified(setup, Apply(setup, s, Insert).world, i) {
      assert Verified(setup, s.world, i);
    }
  }

  lemma StepKeepsInv(setup: Setup, before: World, s: State, step: Step)
    requires Inv(setup, before, s) && Enabled(setup, s, step)
    ensures Inv(setup, before, Apply(setup, s, step))
  {
    match step
    case TakeItem(w) => TakeKeepsInv(setup, before, s, w);
    case Head(w) => HeadKeepsInv(setup, before, s, w);
    case StartCopies => StartCopiesKeepsInv(setup, before, s);
    case Copy(w) => CopyKeepsInv(setup, before, s, w);
    case Verify(w) => VerifyKeepsInv(setup, before, s, w);
    case Fail(w) => BreakKeepsInv(setup, before, s, w);
    case StartInsert => StartInsertKeepsInv(setup, before, s);
    case Insert => InsertKeepsInv(setup, before, s);
    case Start => {}
    case Die => {}
  }

  // ---- Whole runs ------------------------------------------------------------------------------------------

  predicate StepAt(setup: Setup, states: seq<State>, steps: seq<Step>, k: nat)
    requires |states| == |steps| + 1 && k < |steps|
  {
    Enabled(setup, states[k], steps[k]) && states[k + 1] == Apply(setup, states[k], steps[k])
  }

  /** Any number of processes, one after the other, each of them dying at any moment or finishing. */
  predicate Run(setup: Setup, before: World, states: seq<State>, steps: seq<Step>) {
    && DistinctFiles(setup.images) && |states| == |steps| + 1 && states[0] == State(before, Idle)
    && forall k :: 0 <= k < |steps| ==> StepAt(setup, states, steps, k)
  }

  lemma {:induction false} RunKeepsInv(setup: Setup, before: World, states: seq<State>, steps: seq<Step>, n: nat)
    requires Run(setup, before, states, steps) && n <= |steps|
    ensures Inv(setup, before, states[n])
  {
    if n > 0 {
      RunKeepsInv(setup, before, states, steps, n - 1);
      assert StepAt(setup, states, steps, n - 1);
      StepKeepsInv(setup, before, states[n - 1], steps[n - 1]);
    }
  }

  predicate ObjectInPlace(setup: Setup, w: World, key: string) {
    key in setup.source && key in w.objects && SameObject(setup.source[key], w.objects[key])
  }

  /** The row `id` is the planned row of an image whose object is in the target and matches its source. */
  predicate RowHasObject(setup: Setup, w: World, id: string) {
    exists i :: 0 <= i < |setup.images| && setup.images[i].fileId == id && ObjectInPlace(setup, w, setup.images[i].key)
                && id in w.rows && w.rows[id] == setup.images[i].row
  }

  /** At every moment: no object and no row was overwritten, and every new row has its matching object. */
  lemma RunIsSafe(setup: Setup, before: World, states: seq<State>, steps: seq<Step>, n: nat)
    requires Run(setup, before, states, steps) && n <= |steps|
    ensures forall key :: key in before.objects
              ==> key in states[n].world.objects && states[n].world.objects[key] == before.objects[key]
    ensures forall id :: id in before.rows ==> id in states[n].world.rows && states[n].world.rows[id] == before.rows[id]
    ensures forall id :: id in states[n].world.rows && id !in before.rows ==> RowHasObject(setup, states[n].world, id)
  {
    RunKeepsInv(setup, before, states, steps, n);
    PlannedRowsExactly(setup.images);
    var w := states[n].world;
    forall id | id in w.rows && id !in before.rows ensures RowHasObject(setup, w, id) {
      var i :| 0 <= i < |setup.images| && setup.images[i].fileId == id;
      assert Verified(setup, w, i) && w.rows[id] == setup.images[i].row;
    }
  }

  /** In every phase of a process each item is started once, in list order, and is done when the phase ends. */
  lemma RunStartsItemsOnce(setup: Setup, before: World, states: seq<State>, steps: seq<Step>, n: nat)
    requires Run(setup, before, states, steps) && n <= |steps| && Pooled(states[n].phase)
    ensures forall k :: 0 <= k < |states[n].phase.pool.started| ==> states[n].phase.pool.started[k] == k
    ensures AllFinished(states[n].phase.pool) ==> |states[n].phase.pool.started| == states[n].phase.pool.size
    ensures AllFinished(states[n].phase.pool) ==> forall i: nat | i < |states[n].phase.pool.started| :: i in states[n].phase.pool.done
  {
    RunKeepsInv(setup, before, states, steps, n);
    if AllFinished(states[n].phase.pool) {
      FinishedPoolIsDone(states[n].phase.pool);
    }
  }

  /** A process turns back at once exactly if a row it would insert is there with other values, or its concurrency is unusable. */
  lemma StartRejectsExactly(setup: Setup, s: State)
    requires s.phase == Idle
    ensures Apply(setup, s, Start).phase == Rejected <==>
      || (exists image :: image in setup.images && image.fileId in s.world.rows && s.world.rows[image.fileId] != image.row)
      || setup.concurrency < 1 || 64 < setup.concurrency
  {
    if !RowsFit(setup, s.world.rows) {
      var i :| 0 <= i < |setup.images| && setup.images[i].fileId in s.world.rows
               && s.world.rows[setup.images[i].fileId] != setup.images[i].row;
      assert setup.images[i] in setup.images;
    }
  }

  /** As many workers as the concurrency allows and the items keep busy. */
  predicate PoolIsSized(setup: Setup, s: State) {
    Pooled(s.phase) ==>
      && 1 <= setup.concurrency <= 64
      && |s.phase.pool.workers| == if setup.concurrency < s.phase.pool.size then setup.concurrency else s.phase.pool.size
  }

  /** At no moment of any run are more items in hand than the concurrency says. */
  lemma {:induction false} RunRespectsConcurrency(setup: Setup, before: World, states: seq<State>, steps: seq<Step>, n: nat)
    requires Run(setup, before, states, steps) && n <= |steps|
    ensures PoolIsSized(setup, states[n])
  {
    if n > 0 {
      RunRespectsConcurrency(setup, before, states, steps, n - 1);
      assert StepAt(setup, states, steps, n - 1);
    }
  }

  // ---- Where runs end --------------------------------------------------------------------------------------

  function PlannedKeys(setup: Setup): set<string> {
    set i | 0 <= i < |setup.images| :: setup.images[i].key
  }

  /** The target after every image is in place: what was there, the copies of the missing objects, the planned rows. */
  ghost predicate IsFinal(setup: Setup, before: World, w: World) {
    && w.rows == Inserted(setup, before.rows)
    && w.objects.Keys == before.objects.Keys + PlannedKeys(setup)
    && forall key :: key in w.objects ==>
         (key in before.objects ==> w.objects[key] == before.objects[key])
         && (key !in before.objects ==> key in setup.source && w.objects[key] == setup.copied(setup.source[key]))
  }

  /** Every run that finishes, however often it was interrupted before, leaves the same target. */
  lemma FinishedRunsAgree(setup: Setup, before: World, states: seq<State>, steps: seq<Step>, n: nat,
                          others: seq<State>, otherSteps: seq<Step>, m: nat)
    requires Run(setup, before, states, steps) && n <= |steps| && states[n].phase == Done
    requires Run(setup, before, others, otherSteps) && m <= |otherSteps| && others[m].phase == Done
    ensures IsFinal(setup, before, states[n].world) && states[n].world == others[m].world
  {
    RunKeepsInv(setup, before, states, steps, n);
    RunKeepsInv(setup, before, others, otherSteps, m);
    DoneIsFinal(setup, before, states[n]);
    DoneIsFinal(setup, before, others[m]);
    assert states[n].world.objects.Keys == others[m].world.objects.Keys;
    assert states[n].world.objects == others[m].world.objects;
  }

  lemma DoneIsFinal(setup: Setup, before: World, s: State)
    requires Inv(setup, before, s) && s.phase == Done
    ensures IsFinal(setup, before, s.world)
  {
    forall key ensures key in s.world.objects <==> key in before.objects.Keys + PlannedKeys(setup) {
      assert Planned(setup, key) <==> key in PlannedKeys(setup);
      if key in PlannedKeys(setup) {
        var i :| 0 <= i < |setup.images| && setup.images[i].key == key;
        assert Verified(setup, s.world, i);
      }
    }
  }

  /** What must hold of the target before any process starts, for a run to finish. */
  predicate Copyable(setup: Setup, w: World) {
    && UsableConcurrency(setup.concurrency) && RowsFit(setup, w.rows)
    && forall i :: 0 <= i < |setup.images| ==> ImageCopyable(setup, w, i)
  }

  predicate ImageCopyable(setup: Setup, w: World, i: nat)
    requires i < |setup.images|
  {
    var key := setup.images[i].key;
    && key in setup.source
    && SameObject(setup.source[key], if key in w.objects then w.objects[key] else setup.copied(setup.source[key]))
  }

  /** A run can finish only on a target where every object fits or can be copied, and every row fits. */
  lemma OnlyCopyableFinishes(setup: Setup, before: World, states: seq<State>, steps: seq<Step>, n: nat)
    requires Run(setup, before, states, steps) && n <= |steps| && states[n].phase == Done
    ensures Copyable(setup, before)
  {
    RunKeepsInv(setup, before, states, steps, n);
    forall i | 0 <= i < |setup.images| ensures ImageCopyable(setup, before, i) {
      assert Verified(setup, states[n].world, i);
    }
  }

  /** Interruptions leave a copyable target copyable. */
  lemma CopyableStays(setup: Setup, before: World, s: State)
    requires Inv(setup, before, s) && Copyable(setup, before)
    ensures Copyable(setup, s.world)
  {
    InsertFits(setup, before.rows);
    forall i | 0 <= i < |setup.images| ensures ImageCopyable(setup, s.world, i) {
      assert ImageCopyable(setup, before, i);
    }
  }

  predicate IsFault(step: Step) {
    step.Fail? || step.Die?
  }

  /** On a copyable target no check ever fails: only outside faults break a worker. */
  predicate Clean(s: State) {
    s.phase != Rejected && (Pooled(s.phase) ==> !HasFailed(s.phase.pool))
  }

  lemma CopyableHeadIsClean(setup: Setup, before: World, s: State, w: nat)
    requires Inv(setup, before, s) && Copyable(setup, before) && Enabled(setup, s, Head(w)) && Clean(s)
    ensures ObjectFits(setup, s.world, ImageOf(s.phase, w)) && Clean(Apply(setup, s, Head(w)))
  {
    CopyableStays(setup, before, s);
    assert ImageCopyable(setup, s.world, ImageOf(s.phase, w));
  }

  lemma CopyableVerifyIsClean(setup: Setup, before: World, s: State, w: nat)
    requires Inv(setup, before, s) && Copyable(setup, before) && Enabled(setup, s, Verify(w)) && Clean(s)
    ensures Verified(setup, s.world, ImageOf(s.phase, w)) && Clean(Apply(setup, s, Verify(w)))
  {
    CopyableStays(setup, before, s);
    assert CopyWritten(setup, s.world, s.phase.copies, s.phase.pool.workers[w]);
    assert s.phase.pool.workers[w].item < |s.phase.copies|;
    assert ImageCopyable(setup, s.world, ImageOf(s.phase, w));
  }

  function Rank(phase: Phase): nat {
    match phase
    case Idle => 4
    case Heading(_, _) => 3
    case Copying(_, _) => 2
    case Inserting => 1
    case Done => 0
    case Rejected => 0
  }

  function WorkLeft(phase: Phase): nat {
    if Pooled(phase) then Work(phase.pool) else 0
  }

  /** On a copyable target every step that is no fault is clean and brings the end nearer. */
  lemma CopyableStepProgresses(setup: Setup, before: World, s: State, step: Step)
    requires Inv(setup, before, s) && Copyable(setup, before) && Clean(s) && Enabled(setup, s, step) && !IsFault(step)
    ensures Clean(Apply(setup, s, step))
    ensures Rank(Apply(setup, s, step).phase) < Rank(s.phase)
            || (Rank(Apply(setup, s, step).phase) == Rank(s.phase)
                && WorkLeft(Apply(setup, s, step).phase) < WorkLeft(s.phase))
  {
    match step
    case Start => CopyableStays(setup, before, s);
    case TakeItem(w) => MovesLeaveLess(s.phase.pool, w);
    case Head(w) => CopyableHeadIsClean(setup, before, s, w); MovesLeaveLess(s.phase.pool, w);
    case StartCopies => {}
    case Copy(w) => MovesLeaveLess(s.phase.pool, w);
    case Verify(w) => CopyableVerifyIsClean(setup, before, s, w); MovesLeaveLess(s.phase.pool, w);
    case StartInsert => {}
    case Insert => InsertFits(setup, s.world.rows);
  }

  /** On a copyable target a process that has not finished can go on. */
  lemma CopyableIsNeverStuck(setup: Setup, before: World, s: State) returns (step: Step)
    requires Inv(setup, before, s) && Copyable(setup, before) && Clean(s) && s.phase != Done
    ensures Enabled(setup, s, step) && !IsFault(step)
  {
    if s.phase == Idle {
      step := Start;
    } else if s.phase == Inserting {
      step := Insert;
    } else if AllFinished(s.phase.pool) {
      step := if s.phase.Heading? then StartCopies else StartInsert;
    } else {
      UnfinishedPoolCanMove(s.phase.pool);
      var w: nat :| HasWork(s.phase.pool, w);
      if CanTake(s.phase.pool, w) {
        step := TakeItem(w);
      } else {
        step := NextOnItem(setup, before, s, w);
      }
    }
  }

  lemma NextOnItem(setup: Setup, before: World, s: State, w: nat) returns (step: Step)
    requires Inv(setup, before, s) && Pooled(s.phase) && IsBusy(s.phase.pool, w)
    ensures Enabled(setup, s, step) && !IsFault(step)
  {
    var worker := s.phase.pool.workers[w];
    assert Holding(worker) && worker.item < s.phase.pool.cursor;
    if s.phase.Heading? {
      step := Head(w);
    } else {
      assert MayCopy(setup, before, s.phase.copies[worker.item]);
      assert CopyWritten(setup, s.world, s.phase.copies, worker);
      step := if worker.stage == 0 then Copy(w) else Verify(w);
    }
  }

  predicate Path(setup: Setup, states: seq<State>, steps: seq<Step>) {
    && |states| == |steps| + 1 && (forall k :: 0 <= k < |steps| ==> StepAt(setup, states, steps, k))
    && forall k :: 0 <= k < |steps| ==> !IsFault(steps[k])
  }

  lemma PrependStep(setup: Setup, s: State, step: Step, states: seq<State>, steps: seq<Step>)
    requires Path(setup, states, steps) && Enabled(setup, s, step) && !IsFault(step) && states[0] == Apply(setup, s, step)
    ensures Path(setup, [s] + states, [step] + steps)
  {
    forall k: nat | k < |steps| + 1 ensures StepAt(setup, [s] + states, [step] + steps, k) {
      if k > 0 {
        assert StepAt(setup, states, steps, k - 1);
      }
    }
  }

  /** Wherever a run stands, without further faults the process at work or the next one reaches the final target. */
  lemma {:induction false} RerunFinishes(setup: Setup, before: World, s: State)
      returns (states: seq<State>, steps: seq<Step>)
    requires Inv(setup, before, s) && Copyable(setup, before) && Clean(s)
    ensures Path(setup, states, steps) && states[0] == s && states[|steps|].phase == Done
    ensures IsFinal(setup, before, states[|steps|].world)
    decreases Rank(s.phase), WorkLeft(s.phase)
  {
    if s.phase == Done {
      states, steps := [s], [];
      DoneIsFinal(setup, before, s);
    } else {
      var step := CopyableIsNeverStuck(setup, before, s);
      StepKeepsInv(setup, before, s, step);
      CopyableStepProgresses(setup, before, s, step);
      var rest, more := RerunFinishes(setup, before, Apply(setup, s, step));
      PrependStep(setup, s, step, rest, more);
      states, steps := [s] + rest, [step] + more;
    }
  }

  /** At whatever moment a process dies, also after a worker failed or it was rejected, a rerun reaches the final target. */
  lemma DeathIsRepaired(setup: Setup, before: World, s: State) returns (states: seq<State>, steps: seq<Step>)
    requires Inv(setup, before, s) && Copyable(setup, before)
    ensures Enabled(setup, s, Die) && Apply(setup, s, Die).world == s.world
    ensures Path(setup, states, steps) && states[0] == Apply(setup, s, Die) && states[|steps|].phase == Done
    ensures IsFinal(setup, before, states[|steps|].world)
  {
    StepKeepsInv(setup, before, s, Die);
    states, steps := RerunFinishes(setup, before, Apply(setup, s, Die));
  }
}
