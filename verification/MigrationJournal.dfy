/**
 The migration journal of a database: entries join it as branches are merged, and the migrator applies the entries later
 than everything applied before it.

 `RunKeepsInv` follows any interleaving of both. `UnexecutedIsPendingOrLate` says which entries never run,
 `SkippedExactly` which of them the status reports as skipped, and `LateTwinIsNotReported` that the status misses an
 entry that joined late under the mark of an applied one.
 */
module MigrationJournal {
  import opened Wrappers
  import opened CanonicalJson

  datatype Entry = Entry(when: int, tag: string)

  // ---- The status ------------------------------------------------------------------------------------------

  function Latest(applied: seq<int>): (last: Option<int>)
    ensures last.None? <==> applied == []
    ensures last.Some? ==> last.value in applied && forall w :: w in applied ==> w <= last.value
  {
    if applied == [] then None
    else
      var rest := Latest(applied[1..]);
      assert forall w :: w in applied <==> w == applied[0] || w in applied[1..];
      if rest.Some? && applied[0] < rest.value then rest else Some(applied[0])
  }

  predicate IsPending(applied: seq<int>, e: Entry) {
    Latest(applied).None? || Latest(applied).value < e.when
  }

  predicate IsSkipped(applied: seq<int>, e: Entry) {
    Latest(applied).Some? && e.when <= Latest(applied).value && e.when !in applied
  }

  predicate IsApplied(applied: seq<int>, e: Entry) {
    e.when in applied
  }

  function Pending(entries: seq<Entry>, applied: seq<int>): seq<Entry> {
    if entries == [] then []
    else if IsPending(applied, entries[0]) then [entries[0]] + Pending(entries[1..], applied)
    else Pending(entries[1..], applied)
  }

  function Skipped(entries: seq<Entry>, applied: seq<int>): seq<Entry> {
    if entries == [] then []
    else if IsSkipped(applied, entries[0]) then [entries[0]] + Skipped(entries[1..], applied)
    else Skipped(entries[1..], applied)
  }

  lemma {:induction false} StatusMembers(entries: seq<Entry>, applied: seq<int>)
    ensures forall e :: e in Pending(entries, applied) <==> e in entries && IsPending(applied, e)
    ensures forall e :: e in Skipped(entries, applied) <==> e in entries && IsSkipped(applied, e)
  {
    if entries != [] {
      StatusMembers(entries[1..], applied);
    }
  }

  /** Every entry of the journal is exactly one of applied, pending and skipped. */
  lemma StatusPartitions(entries: seq<Entry>, applied: seq<int>, e: Entry)
    requires e in entries
    ensures IsApplied(applied, e) || e in Pending(entries, applied) || e in Skipped(entries, applied)
    ensures !(IsApplied(applied, e) && e in Pending(entries, applied))
    ensures !(IsApplied(applied, e) && e in Skipped(entries, applied))
    ensures !(e in Pending(entries, applied) && e in Skipped(entries, applied))
  {
    StatusMembers(entries, applied);
  }

  // ---- The journal over time -------------------------------------------------------------------------------

  /** The history of marks when an entry joined. */
  datatype State = State(entries: seq<Entry>, applied: seq<int>, executed: set<Entry>, joined: map<Entry, seq<int>>)

  datatype Step = Join(e: Entry) | Migrate

  function WhensOf(entries: seq<Entry>): seq<int> {
    if entries == [] then [] else [entries[0].when] + WhensOf(entries[1..])
  }

  predicate Enabled(s: State, step: Step) {
    step.Join? ==> step.e !in s.entries
  }

  /** The migrator compares every entry with the latest mark from before it started. */
  function Apply(s: State, step: Step): State {
    match step
    case Join(e) => s.(entries := s.entries + [e], joined := s.joined[e := s.applied])
    case Migrate =>
      var due := Pending(s.entries, s.applied);
      s.(applied := s.applied + WhensOf(due), executed := s.executed + set e | e in due)
  }

  /** An entry joined late if something later, or as late, had been applied by then. */
  predicate JoinedLate(s: State, e: Entry)
    requires e in s.joined
  {
    !IsPending(s.joined[e], e)
  }

  predicate EntryKnown(s: State, e: Entry) {
    && e in s.joined && (forall w :: w in s.joined[e] ==> w in s.applied)
    && (e in s.executed ==> e.when in s.applied && !JoinedLate(s, e))
    && (e !in s.executed ==> IsPending(s.applied, e) || JoinedLate(s, e))
    && (JoinedLate(s, e) && e.when in s.applied ==> e.when in s.joined[e])
  }

  predicate Inv(s: State) {
    && (forall e :: e in s.entries ==> EntryKnown(s, e))
    && (forall e :: e in s.executed ==> e in s.entries)
    && (forall e :: e in s.joined ==> e in s.entries)
  }

  lemma {:induction false} WhensOfExactly(entries: seq<Entry>)
    ensures forall w :: w in WhensOf(entries) <==> exists e :: e in entries && e.when == w
  {
    if entries != [] {
      WhensOfExactly(entries[1..]);
      assert forall w :: w in WhensOf(entries) <==> w == entries[0].when || w in WhensOf(entries[1..]);
      forall w | w in WhensOf(entries) ensures exists e :: e in entries && e.when == w {
        if w == entries[0].when {
          assert entries[0] in entries;
        } else {
          var e :| e in entries[1..] && e.when == w;
          assert e in entries;
        }
      }
    }
  }

  /** The migrator leaves nothing pending and touches no mark at or below the latest one it found. */
  lemma MigrateDoesItsWork(s: State)
    ensures var after := Apply(s, Migrate);
            && Pending(after.entries, after.applied) == []
            && (forall e :: e in s.entries && IsPending(s.applied, e) ==> e in after.executed && e.when in after.applied)
            && (forall w :: w in after.applied && w !in s.applied ==> Latest(s.applied).None? || Latest(s.applied).value < w)
            && Skipped(after.entries, after.applied) == Skipped(s.entries, s.applied)
  {
    var due := Pending(s.entries, s.applied);
    var after := Apply(s, Migrate);
    WhensOfExactly(due);
    StatusMembers(s.entries, s.applied);
    forall e | e in s.entries ensures !IsPending(after.applied, e) && (IsSkipped(after.applied, e) <==> IsSkipped(s.applied, e)) {
      if IsPending(s.applied, e) {
        assert e in due && e.when in after.applied;
      } else {
        assert Latest(s.applied).value in after.applied;
      }
    }
    NothingPending(s.entries, after.applied);
    SameSkipped(s.entries, s.applied, after.applied);
  }

  lemma {:induction false} NothingPending(entries: seq<Entry>, applied: seq<int>)
    requires forall e :: e in entries ==> !IsPending(applied, e)
    ensures Pending(entries, applied) == []
  {
    if entries != [] {
      NothingPending(entries[1..], applied);
    }
  }

  lemma {:induction false} SameSkipped(entries: seq<Entry>, before: seq<int>, after: seq<int>)
    requires forall e :: e in entries ==> (IsSkipped(before, e) <==> IsSkipped(after, e))
    ensures Skipped(entries, before) == Skipped(entries, after)
  {
    if entries != [] {
      SameSkipped(entries[1..], before, after);
    }
  }

  lemma JoinKeepsInv(s: State, e: Entry)
    requires Inv(s) && Enabled(s, Join(e))
    ensures Inv(Apply(s, Join(e)))
  {
    var after := Apply(s, Join(e));
    forall other | other in after.entries ensures EntryKnown(after, other) {
      if other != e {
        assert EntryKnown(s, other);
      }
    }
  }

  lemma MigrateKeepsInv(s: State)
    requires Inv(s)
    ensures Inv(Apply(s, Migrate))
  {
    var after := Apply(s, Migrate);
    MigrateDoesItsWork(s);
    StatusMembers(s.entries, s.applied);
    forall e | e in after.entries ensures EntryKnown(after, e) {
      assert EntryKnown(s, e);
      LaterMarksOnly(s, e);
    }
  }

  /** What the migrator adds lies above every entry that is not pending. */
  lemma LaterMarksOnly(s: State, e: Entry)
    requires e in s.entries && EntryKnown(s, e)
    ensures IsPending(s.applied, e) ==> !JoinedLate(s, e)
    ensures !IsPending(s.applied, e) && e.when in Apply(s, Migrate).applied ==> e.when in s.applied
  {
    MigrateDoesItsWork(s);
    if JoinedLate(s, e) {
      assert Latest(s.joined[e]).value in s.applied;
    }
  }

  // ---- Whole runs ------------------------------------------------------------------------------------------

  const EMPTY: State := State([], [], {}, map[])

  predicate StepAt(states: seq<State>, steps: seq<Step>, k: nat)
    requires |states| == |steps| + 1 && k < |steps|
  {
    Enabled(states[k], steps[k]) && states[k + 1] == Apply(states[k], steps[k])
  }

  predicate Run(states: seq<State>, steps: seq<Step>) {
    |states| == |steps| + 1 && states[0] == EMPTY && forall k :: 0 <= k < |steps| ==> StepAt(states, steps, k)
  }

  lemma {:induction false} RunKeepsInv(states: seq<State>, steps: seq<Step>, n: nat)
    requires Run(states, steps) && n <= |steps|
    ensures Inv(states[n])
  {
    if n > 0 {
      RunKeepsInv(states, steps, n - 1);
      assert StepAt(states, steps, n - 1);
      match steps[n - 1]
      case Join(e) => JoinKeepsInv(states[n - 1], e);
      case Migrate => MigrateKeepsInv(states[n - 1]);
    }
  }

  /** An entry was executed, or waits, or joined late and will never run. */
  lemma UnexecutedIsPendingOrLate(states: seq<State>, steps: seq<Step>, n: nat, e: Entry)
    requires Run(states, steps) && n <= |steps| && e in states[n].entries
    ensures e in states[n].joined
    ensures e !in states[n].executed <==> IsPending(states[n].applied, e) || JoinedLate(states[n], e)
  {
    RunKeepsInv(states, steps, n);
    assert EntryKnown(states[n], e);
    if IsPending(states[n].applied, e) {
      assert e.when !in states[n].applied;
    }
  }

  /** The status reports an entry as skipped exactly if it joined late under a mark no applied entry carried then. */
  lemma SkippedExactly(states: seq<State>, steps: seq<Step>, n: nat, e: Entry)
    requires Run(states, steps) && n <= |steps| && e in states[n].entries
    ensures e in states[n].joined
    ensures e in Skipped(states[n].entries, states[n].applied)
            <==> JoinedLate(states[n], e) && e.when !in states[n].joined[e]
  {
    RunKeepsInv(states, steps, n);
    StatusMembers(states[n].entries, states[n].applied);
    var s := states[n];
    assert EntryKnown(s, e);
    if JoinedLate(s, e) {
      assert Latest(s.joined[e]).value in s.applied;
    }
    assert e.when in s.joined[e] ==> e.when in s.applied;
  }

  /** The missing entries are reported in full exactly if no late entry carries the mark of an applied one. */
  lemma StatusIsCompleteExactly(states: seq<State>, steps: seq<Step>, n: nat)
    requires Run(states, steps) && n <= |steps| && forall e :: e in states[n].entries ==> e in states[n].joined
    ensures (forall e :: e in states[n].entries && e !in states[n].executed
               ==> e in Pending(states[n].entries, states[n].applied) || e in Skipped(states[n].entries, states[n].applied))
            <==> (forall e :: e in states[n].entries && JoinedLate(states[n], e) ==> e.when !in states[n].joined[e])
  {
    var s := states[n];
    StatusMembers(s.entries, s.applied);
    forall e | e in s.entries
      ensures e in Skipped(s.entries, s.applied) <==> JoinedLate(s, e) && e.when !in s.joined[e]
      ensures e !in s.executed <==> IsPending(s.applied, e) || JoinedLate(s, e)
      ensures JoinedLate(s, e) ==> !IsPending(s.applied, e)
    {
      SkippedExactly(states, steps, n, e);
      UnexecutedIsPendingOrLate(states, steps, n, e);
      LateIsNotPending(states, steps, n, e);
    }
  }

  lemma LateIsNotPending(states: seq<State>, steps: seq<Step>, n: nat, e: Entry)
    requires Run(states, steps) && n <= |steps| && e in states[n].entries
    ensures e in states[n].joined && (JoinedLate(states[n], e) ==> !IsPending(states[n].applied, e))
  {
    RunKeepsInv(states, steps, n);
    assert EntryKnown(states[n], e);
    LaterMarksOnly(states[n], e);
  }

  /** A skipped entry is skipped, and not executed, for good. */
  lemma {:induction false} SkippedForever(states: seq<State>, steps: seq<Step>, n: nat, m: nat, e: Entry)
    requires Run(states, steps) && n <= m <= |steps|
    requires e in Skipped(states[n].entries, states[n].applied)
    ensures e in Skipped(states[m].entries, states[m].applied) && e !in states[m].executed
    decreases m
  {
    StatusMembers(states[n].entries, states[n].applied);
    if n < m {
      SkippedForever(states, steps, n, m - 1, e);
      assert StepAt(states, steps, m - 1);
      MigrateDoesItsWork(states[m - 1]);
      StatusMembers(states[m - 1].entries, states[m - 1].applied);
      StatusMembers(states[m].entries, states[m].applied);
    } else {
      RunKeepsInv(states, steps, n);
      assert EntryKnown(states[n], e);
    }
  }

  lemma OneEntry(e: Entry, applied: seq<int>)
    ensures Pending([e], applied) == (if IsPending(applied, e) then [e] else [])
    ensures Skipped([e], applied) == (if IsSkipped(applied, e) then [e] else [])
    ensures WhensOf([e]) == [e.when]
  {
    assert [e][1..] == [];
  }

  /** Two entries with one mark, the first of them applied, leave nothing to report. */
  lemma TwinsAreDone(a: Entry, b: Entry)
    requires a.when == b.when
    ensures Pending([a, b], [a.when]) == [] && Skipped([a, b], [a.when]) == []
  {
    OneEntry(b, [a.when]);
    assert [a, b][1..] == [b] && [a.when][1..] == [] && Latest([a.when]) == Some(a.when);
    assert a.when in [a.when];
  }

  /** A late entry under the mark of an applied one is neither executed nor pending nor reported. */
  lemma LateTwinIsNotReported(w: int, a: string, b: string) returns (states: seq<State>, steps: seq<Step>)
    requires a != b
    ensures Run(states, steps) && steps == [Join(Entry(w, a)), Migrate, Join(Entry(w, b)), Migrate]
    ensures Entry(w, b) in states[4].entries && Entry(w, b) !in states[4].executed
    ensures Pending(states[4].entries, states[4].applied) == [] && Skipped(states[4].entries, states[4].applied) == []
  {
    var first, twin := Entry(w, a), Entry(w, b);
    steps := [Join(first), Migrate, Join(twin), Migrate];
    var s1 := Apply(EMPTY, Join(first));
    OneEntry(first, []);
    assert s1.entries == [first] && Pending(s1.entries, s1.applied) == [first];
    var s2 := Apply(s1, Migrate);
    assert s2.applied == [w] && s2.executed == {first};
    var s3 := Apply(s2, Join(twin));
    TwinsAreDone(first, twin);
    assert s3.entries == [first, twin] && Pending(s3.entries, s3.applied) == [];
    var s4 := Apply(s3, Migrate);
    assert s4.applied == [w] && s4.executed == {first} && s4.entries == [first, twin];
    states := [EMPTY, s1, s2, s3, s4];
    forall k: nat | k < 4 ensures StepAt(states, steps, k) {
      assert k == 0 || k == 1 || k == 2 || k == 3;
    }
  }

  // ---- Versions across tenants -----------------------------------------------------------------------------

  predicate Ascending(ws: seq<int>) {
    forall i, j :: 0 <= i < j < |ws| ==> ws[i] < ws[j]
  }

  /** Insertion into an ascending list without repetition. */
  function Insert(w: int, ws: seq<int>): seq<int> {
    if ws == [] then [w]
    else if w < ws[0] then [w] + ws
    else if w == ws[0] then ws
    else [ws[0]] + Insert(w, ws[1..])
  }

  function Sorted(ws: seq<int>): seq<int> {
    if ws == [] then [] else Insert(ws[0], Sorted(ws[1..]))
  }

  lemma {:induction false} InsertKeeps(w: int, ws: seq<int>)
    requires Ascending(ws)
    ensures Ascending(Insert(w, ws)) && forall v :: v in Insert(w, ws) <==> v == w || v in ws
  {
    if ws != [] && ws[0] < w {
      InsertKeeps(w, ws[1..]);
      var rest := Insert(w, ws[1..]);
      forall j | 0 <= j < |rest| ensures ws[0] < rest[j] {
        assert rest[j] in rest;
      }
    }
  }

  lemma {:induction false} SortedKeeps(ws: seq<int>)
    ensures Ascending(Sorted(ws)) && forall v :: v in Sorted(ws) <==> v in ws
  {
    if ws != [] {
      SortedKeeps(ws[1..]);
      InsertKeeps(ws[0], Sorted(ws[1..]));
    }
  }

  lemma {:induction false} SameMembersSameList(xs: seq<int>, ys: seq<int>)
    requires Ascending(xs) && Ascending(ys) && forall v :: v in xs <==> v in ys
    ensures xs == ys
  {
    assert ys != [] ==> ys[0] in ys;
    if xs != [] {
      assert xs[0] in xs && xs[0] in ys;
      assert ys[0] in ys && ys[0] in xs;
      assert xs[0] == ys[0];
      forall v ensures v in xs[1..] <==> v in ys[1..] {
        assert v in xs <==> v == xs[0] || v in xs[1..];
        assert v in ys <==> v == ys[0] || v in ys[1..];
      }
      SameMembersSameList(xs[1..], ys[1..]);
    }
  }

  /** A mark in digits: marks are whole milliseconds. */
  function Decimal(n: int): Text {
    if n < 0 then [MINUS] + Digits(-n) else Digits(n)
  }

  lemma DecimalUnique(m: int, n: int, x: Text, y: Text)
    requires Stops(x) && Stops(y) && Decimal(m) + x == Decimal(n) + y
    ensures m == n && x == y
  {
    var s, t := Decimal(m), Decimal(n);
    NumberEnds(s, t, x, y);
    assert m < 0 <==> s[0] == MINUS;
    assert n < 0 <==> t[0] == MINUS;
    if m < 0 {
      assert Digits(-m) == s[1..] && Digits(-n) == t[1..];
      DigitsInjective(-m, -n);
    } else {
      DigitsInjective(m, n);
    }
  }

  function Joined(ws: seq<int>): Text {
    if ws == [] then []
    else if |ws| == 1 then Decimal(ws[0])
    else Decimal(ws[0]) + ([COMMA] + Joined(ws[1..]))
  }

  /** The text two databases are compared by. */
  function VersionKey(applied: seq<int>): Text {
    Joined(Sorted(applied))
  }

  function AfterFirst(ws: seq<int>): Text
    requires ws != []
  {
    if |ws| == 1 then [] else [COMMA] + Joined(ws[1..])
  }

  lemma {:induction false} JoinedUnique(xs: seq<int>, ys: seq<int>)
    requires Joined(xs) == Joined(ys)
    ensures xs == ys
    decreases |xs|
  {
    if xs != [] && ys != [] {
      assert Joined(xs) == Decimal(xs[0]) + AfterFirst(xs) && Joined(ys) == Decimal(ys[0]) + AfterFirst(ys);
      DecimalUnique(xs[0], ys[0], AfterFirst(xs), AfterFirst(ys));
      if |xs| > 1 && |ys| > 1 {
        assert AfterFirst(xs)[1..] == Joined(xs[1..]) && AfterFirst(ys)[1..] == Joined(ys[1..]);
        JoinedUnique(xs[1..], ys[1..]);
      }
      assert xs == [xs[0]] + xs[1..] && ys == [ys[0]] + ys[1..];
    }
  }

  predicate SameStatus(left: seq<int>, right: seq<int>, entries: seq<Entry>) {
    Pending(entries, left) == Pending(entries, right) && Skipped(entries, left) == Skipped(entries, right)
  }

  /** Two databases are reported equal exactly if they hold the same marks; then every journal has the same status on both. */
  lemma EqualVersionsAgree(left: seq<int>, right: seq<int>, entries: seq<Entry>)
    ensures VersionKey(left) == VersionKey(right) <==> (forall w :: w in left <==> w in right)
    ensures VersionKey(left) == VersionKey(right) ==> SameStatus(left, right, entries)
  {
    SortedKeeps(left);
    SortedKeeps(right);
    if VersionKey(left) == VersionKey(right) {
      JoinedUnique(Sorted(left), Sorted(right));
      assert forall w :: w in left <==> w in Sorted(left);
      SameMarksSameStatus(left, right, entries);
    } else if forall w :: w in left <==> w in right {
      SameMembersSameList(Sorted(left), Sorted(right));
    }
  }

  lemma SameMarksSameLatest(left: seq<int>, right: seq<int>)
    requires forall w :: w in left <==> w in right
    ensures Latest(left) == Latest(right)
  {
    if left != [] {
      var w := Latest(left).value;
      assert w in left && w in right;
    }
    if right != [] {
      var w := Latest(right).value;
      assert w in right && w in left;
    }
  }

  lemma {:induction false} SameMarksSameStatus(left: seq<int>, right: seq<int>, entries: seq<Entry>)
    requires forall w :: w in left <==> w in right
    ensures SameStatus(left, right, entries)
  {
    SameMarksSameLatest(left, right);
    if entries != [] {
      SameMarksSameStatus(left, right, entries[1..]);
    }
  }
}
