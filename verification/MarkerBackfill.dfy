/**
 Moving the markers of the old outbox to the shared one before the old table is dropped.

 Readers decide whether a fact was recorded by looking for a row in either table; afterwards they look in the shared
 table only. The contracts of `SharedOutbox.BackfillCore`, `BackfillFailedIntents` and `BackfillRejectedMandates` say
 that every such decision stays the same, that no row becomes pending, and that a second run adds nothing.
 */
module MarkerBackfill {
  import opened Wrappers

  datatype Status = Pending | Processing | Published | Failed | Discarded

  /** `payloadKey` is the `idempotencyKey` of the payload. */
  datatype LegacyRow = LegacyRow(topic: string, eventType: string, aggregateId: string, idempotencyKey: string,
                                 payloadKey: Option<string>, createdAt: int, publishedAt: Option<int>)

  datatype SharedRow = SharedRow(topic: string, eventType: string, aggregateId: string, idempotencyKey: Option<string>,
                                 status: Status, createdAt: int, publishedAt: int)

  datatype Report = Report(legacyRows: nat, alreadyPresent: nat, missing: int, inserted: Option<nat>)

  const FULFILLMENT_TOPIC := "fulfillments.events.v1"
  const FULFILLMENT_SHIPPED := "FulfillmentShipped"
  const PAYMENT_TOPIC := "payments.events.v1"
  const INTENT_FAILED := "payment.intent.failed"
  const MANDATE_REJECTED := "mandate.rejected"
  const FULLY_SHIPPED := ":fully-shipped"

  predicate EndsWith(text: string, suffix: string) {
    |suffix| <= |text| && text[|text| - |suffix|..] == suffix
  }

  lemma EndsWithExactly(text: string, suffix: string)
    ensures EndsWith(text, suffix) <==> exists head :: text == head + suffix
  {
    if EndsWith(text, suffix) {
      assert text == text[..|text| - |suffix|] + suffix;
    }
  }

  function Marker(topic: string, key: Option<string>, row: LegacyRow): SharedRow {
    SharedRow(topic, row.eventType, row.aggregateId, key, Published, row.createdAt,
              if row.publishedAt.Some? then row.publishedAt.value else row.createdAt)
  }

  // ---- What readers look for -------------------------------------------------------------------------------

  predicate HasKey(shared: seq<SharedRow>, topic: string, eventType: string, key: string) {
    exists r :: r in shared && r.topic == topic && r.eventType == eventType && r.idempotencyKey == Some(key)
  }

  predicate HasTypedKey(shared: seq<SharedRow>, eventType: string, key: string) {
    exists r :: r in shared && r.eventType == eventType && r.idempotencyKey == Some(key)
  }

  predicate HasAggregate(shared: seq<SharedRow>, eventType: string, aggregateId: string) {
    exists r :: r in shared && r.eventType == eventType && r.aggregateId == aggregateId
  }

  predicate ShippedMarker(row: LegacyRow) {
    row.topic == FULFILLMENT_TOPIC && row.eventType == FULFILLMENT_SHIPPED && EndsWith(row.idempotencyKey, FULLY_SHIPPED)
  }

  predicate LegacyShipped(legacy: seq<LegacyRow>, key: string) {
    exists r :: r in legacy && r.topic == FULFILLMENT_TOPIC && r.eventType == FULFILLMENT_SHIPPED && r.idempotencyKey == key
  }

  predicate LegacyFailed(legacy: seq<LegacyRow>, aggregateId: string) {
    exists r :: r in legacy && r.eventType == INTENT_FAILED && r.aggregateId == aggregateId
  }

  predicate LegacyRejected(legacy: seq<LegacyRow>, key: string) {
    exists r :: r in legacy && r.eventType == MANDATE_REJECTED && r.payloadKey == Some(key)
  }

  function PendingRows(shared: seq<SharedRow>): seq<SharedRow> {
    if shared == [] then []
    else
      var last := shared[|shared| - 1];
      if last.status == Pending then PendingRows(shared[..|shared| - 1]) + [last] else PendingRows(shared[..|shared| - 1])
  }

  // ---- Inserting -------------------------------------------------------------------------------------------

  /** The unique constraint; rows without a key never conflict. */
  predicate Conflicts(shared: seq<SharedRow>, row: SharedRow) {
    row.idempotencyKey.Some? && HasKey(shared, row.topic, row.eventType, row.idempotencyKey.value)
  }

  /** INSERT ... ON CONFLICT DO NOTHING, row by row. */
  function InsertAll(shared: seq<SharedRow>, rows: seq<SharedRow>): (after: seq<SharedRow>)
    ensures shared <= after
  {
    if rows == [] then shared
    else
      var before := InsertAll(shared, rows[..|rows| - 1]);
      var row := rows[|rows| - 1];
      if Conflicts(before, row) then before else before + [row]
  }

  lemma FoundAfterAppend(shared: seq<SharedRow>, row: SharedRow, topic: string, eventType: string, key: string)
    ensures HasKey(shared + [row], topic, eventType, key)
            <==> HasKey(shared, topic, eventType, key)
                 || (row.topic == topic && row.eventType == eventType && row.idempotencyKey == Some(key))
  {
    if HasKey(shared, topic, eventType, key) {
      var r :| r in shared && r.topic == topic && r.eventType == eventType && r.idempotencyKey == Some(key);
      assert r in shared + [row];
    }
    assert row in shared + [row];
  }

  lemma {:induction false} PendingAfterPublished(shared: seq<SharedRow>, added: seq<SharedRow>)
    requires forall r :: r in added ==> r.status == Published
    ensures PendingRows(shared + added) == PendingRows(shared)
  {
    if added == [] {
      assert shared + added == shared;
    } else {
      var n := |added| - 1;
      assert (shared + added)[..|shared| + n] == shared + added[..n];
      PendingAfterPublished(shared, added[..n]);
    }
  }

  lemma {:induction false} InsertAllKeepsPending(shared: seq<SharedRow>, rows: seq<SharedRow>)
    requires forall r :: r in rows ==> r.status == Published
    ensures PendingRows(InsertAll(shared, rows)) == PendingRows(shared)
  {
    if rows != [] {
      var n := |rows| - 1;
      var before := InsertAll(shared, rows[..n]);
      InsertAllKeepsPending(shared, rows[..n]);
      PendingAfterPublished(before, [rows[n]]);
    }
  }

  // ---- Core: shipped markers -------------------------------------------------------------------------------

  function ShippedRows(legacy: seq<LegacyRow>): seq<LegacyRow> {
    if legacy == [] then []
    else
      var last := legacy[|legacy| - 1];
      if ShippedMarker(last) then ShippedRows(legacy[..|legacy| - 1]) + [last] else ShippedRows(legacy[..|legacy| - 1])
  }

  function ShippedMarkers(rows: seq<LegacyRow>): seq<SharedRow> {
    if rows == [] then []
    else
      var last := rows[|rows| - 1];
      ShippedMarkers(rows[..|rows| - 1]) + [Marker(last.topic, Some(last.idempotencyKey), last)]
  }

  predicate HasLegacyKey(rows: seq<LegacyRow>, key: string) {
    exists r :: r in rows && r.idempotencyKey == key
  }

  predicate AllShipped(rows: seq<LegacyRow>) {
    forall r :: r in rows ==> ShippedMarker(r)
  }

  lemma {:induction false} ShippedRowsExactly(legacy: seq<LegacyRow>)
    ensures forall r :: r in ShippedRows(legacy) <==> r in legacy && ShippedMarker(r)
  {
    if legacy != [] {
      var n := |legacy| - 1;
      ShippedRowsExactly(legacy[..n]);
      assert legacy == legacy[..n] + [legacy[n]];
    }
  }

  lemma HasLegacyKeyLast(rest: seq<LegacyRow>, last: LegacyRow, key: string)
    ensures HasLegacyKey(rest + [last], key) <==> HasLegacyKey(rest, key) || last.idempotencyKey == key
  {
    if HasLegacyKey(rest, key) {
      var r :| r in rest && r.idempotencyKey == key;
      assert r in rest + [last];
    }
    assert last in rest + [last];
  }

  /** Inserting the markers makes exactly their keys found. */
  lemma {:induction false} InsertedMarkersAreFound(shared: seq<SharedRow>, rows: seq<LegacyRow>, key: string)
    requires AllShipped(rows)
    ensures HasKey(InsertAll(shared, ShippedMarkers(rows)), FULFILLMENT_TOPIC, FULFILLMENT_SHIPPED, key)
            <==> HasKey(shared, FULFILLMENT_TOPIC, FULFILLMENT_SHIPPED, key) || HasLegacyKey(rows, key)
  {
    if rows != [] {
      var rest, last := rows[..|rows| - 1], rows[|rows| - 1];
      assert rows == rest + [last];
      InsertedMarkersAreFound(shared, rest, key);
      HasLegacyKeyLast(rest, last, key);
      InsertLastMarker(shared, rest, last);
      FoundAfterAppend(InsertAll(shared, ShippedMarkers(rest)), Marker(last.topic, Some(last.idempotencyKey), last),
                       FULFILLMENT_TOPIC, FULFILLMENT_SHIPPED, key);
    }
  }

  lemma InsertLastMarker(shared: seq<SharedRow>, rest: seq<LegacyRow>, last: LegacyRow)
    ensures var before := InsertAll(shared, ShippedMarkers(rest));
            var row := Marker(last.topic, Some(last.idempotencyKey), last);
            InsertAll(shared, ShippedMarkers(rest + [last])) == if Conflicts(before, row) then before else before + [row]
  {
    assert (rest + [last])[..|rest|] == rest;
    var rows := ShippedMarkers(rest + [last]);
    assert rows[..|rows| - 1] == ShippedMarkers(rest);
  }

  lemma {:induction false} MarkersArePublished(rows: seq<LegacyRow>)
    ensures forall m :: m in ShippedMarkers(rows) ==> m.status == Published
  {
    if rows != [] {
      MarkersArePublished(rows[..|rows| - 1]);
    }
  }

  /** The shared table after the core markers were moved. */
  function WithShipped(shared: seq<SharedRow>, legacy: seq<LegacyRow>): seq<SharedRow> {
    InsertAll(shared, ShippedMarkers(ShippedRows(legacy)))
  }

  /** The reader's decision on a fully shipped order. */
  lemma ShippedDecisionStays(legacy: seq<LegacyRow>, shared: seq<SharedRow>, key: string)
    requires EndsWith(key, FULLY_SHIPPED)
    ensures HasKey(WithShipped(shared, legacy), FULFILLMENT_TOPIC, FULFILLMENT_SHIPPED, key)
            <==> LegacyShipped(legacy, key) || HasKey(shared, FULFILLMENT_TOPIC, FULFILLMENT_SHIPPED, key)
  {
    ShippedRowsExactly(legacy);
    InsertedMarkersAreFound(shared, ShippedRows(legacy), key);
    if LegacyShipped(legacy, key) {
      var r :| r in legacy && r.topic == FULFILLMENT_TOPIC && r.eventType == FULFILLMENT_SHIPPED && r.idempotencyKey == key;
      assert r in ShippedRows(legacy);
    }
  }

  /** Rows whose markers are all there insert nothing. */
  lemma {:induction false} NothingToInsert(shared: seq<SharedRow>, rows: seq<LegacyRow>)
    requires AllShipped(rows)
    requires forall r :: r in rows ==> HasKey(shared, FULFILLMENT_TOPIC, FULFILLMENT_SHIPPED, r.idempotencyKey)
    ensures InsertAll(shared, ShippedMarkers(rows)) == shared
  {
    if rows != [] {
      var rest, last := rows[..|rows| - 1], rows[|rows| - 1];
      assert rows == rest + [last];
      NothingToInsert(shared, rest);
      InsertLastMarker(shared, rest, last);
    }
  }

  /** A second run adds nothing, and no run makes a row pending. */
  lemma ShippedRunsAreSafe(legacy: seq<LegacyRow>, shared: seq<SharedRow>)
    ensures WithShipped(WithShipped(shared, legacy), legacy) == WithShipped(shared, legacy)
    ensures PendingRows(WithShipped(shared, legacy)) == PendingRows(shared)
  {
    var rows := ShippedRows(legacy);
    var after := WithShipped(shared, legacy);
    ShippedRowsExactly(legacy);
    MarkersArePublished(rows);
    InsertAllKeepsPending(shared, ShippedMarkers(rows));
    forall r | r in rows ensures HasKey(after, FULFILLMENT_TOPIC, FULFILLMENT_SHIPPED, r.idempotencyKey) {
      InsertedMarkersAreFound(shared, rows, r.idempotencyKey);
    }
    NothingToInsert(after, rows);
  }

  // ---- How many shipped markers are inserted ---------------------------------------------------------------

  /** The rows the dry run counts as missing. */
  function Unfound(shared: seq<SharedRow>, rows: seq<LegacyRow>): (unfound: seq<LegacyRow>)
    ensures |unfound| <= |rows|
  {
    if rows == [] then []
    else
      var rest, last := Unfound(shared, rows[..|rows| - 1]), rows[|rows| - 1];
      if HasKey(shared, last.topic, last.eventType, last.idempotencyKey) then rest else rest + [last]
  }

  predicate DistinctKeys(rows: seq<LegacyRow>) {
    forall i, j :: 0 <= i < j < |rows| ==> rows[i].idempotencyKey != rows[j].idempotencyKey
  }

  function KeysOf(rows: seq<LegacyRow>): set<string> {
    set r | r in rows :: r.idempotencyKey
  }

  lemma KeysOfLast(rest: seq<LegacyRow>, last: LegacyRow)
    ensures KeysOf(rest + [last]) == KeysOf(rest) + {last.idempotencyKey}
    ensures DistinctKeys(rest + [last]) <==> DistinctKeys(rest) && last.idempotencyKey !in KeysOf(rest)
  {
    assert last in rest + [last];
    forall r | r in rest ensures r in rest + [last] {
    }
    if DistinctKeys(rest + [last]) {
      forall i, j | 0 <= i < j < |rest| ensures rest[i].idempotencyKey != rest[j].idempotencyKey {
        assert (rest + [last])[i] == rest[i] && (rest + [last])[j] == rest[j];
      }
      forall r | r in rest ensures r.idempotencyKey != last.idempotencyKey {
        var i :| 0 <= i < |rest| && rest[i] == r;
        assert (rest + [last])[i] == r && (rest + [last])[|rest|] == last;
      }
    }
  }

  lemma {:induction false} CountKeys(rows: seq<LegacyRow>)
    ensures |KeysOf(rows)| <= |rows|
    ensures |KeysOf(rows)| == |rows| <==> DistinctKeys(rows)
  {
    if rows == [] {
      assert KeysOf(rows) == {};
    } else {
      var rest, last := rows[..|rows| - 1], rows[|rows| - 1];
      assert rows == rest + [last];
      CountKeys(rest);
      KeysOfLast(rest, last);
      assert last.idempotencyKey in KeysOf(rest) ==> KeysOf(rows) == KeysOf(rest);
    }
  }

  lemma {:induction false} UnfoundKeys(shared: seq<SharedRow>, rows: seq<LegacyRow>, key: string)
    requires AllShipped(rows)
    ensures key in KeysOf(Unfound(shared, rows))
            <==> HasLegacyKey(rows, key) && !HasKey(shared, FULFILLMENT_TOPIC, FULFILLMENT_SHIPPED, key)
  {
    if rows == [] {
      assert KeysOf(Unfound(shared, rows)) == {} && !HasLegacyKey(rows, key);
    } else {
      var rest, last := rows[..|rows| - 1], rows[|rows| - 1];
      assert rows == rest + [last] && last in rows && ShippedMarker(last);
      UnfoundKeys(shared, rest, key);
      HasLegacyKeyLast(rest, last, key);
      KeysOfLast(Unfound(shared, rest), last);
    }
  }

  lemma SameOrOneMore(keys: set<string>, key: string)
    ensures |keys + {key}| == if key in keys then |keys| else |keys| + 1
  {
    if key in keys {
      assert keys + {key} == keys;
    }
  }

  /** One row is inserted for every key that was not there. */
  lemma {:induction false} InsertedCount(shared: seq<SharedRow>, rows: seq<LegacyRow>)
    requires AllShipped(rows)
    ensures |InsertAll(shared, ShippedMarkers(rows))| == |shared| + |KeysOf(Unfound(shared, rows))|
  {
    if rows == [] {
      assert KeysOf(Unfound(shared, rows)) == {};
    } else {
      var rest, last := rows[..|rows| - 1], rows[|rows| - 1];
      assert rows == rest + [last];
      InsertedCount(shared, rest);
      InsertedOneMore(shared, rest, last);
    }
  }

  lemma InsertedOneMore(shared: seq<SharedRow>, rest: seq<LegacyRow>, last: LegacyRow)
    requires AllShipped(rest) && ShippedMarker(last)
    ensures |InsertAll(shared, ShippedMarkers(rest + [last]))| - |InsertAll(shared, ShippedMarkers(rest))|
            == |KeysOf(Unfound(shared, rest + [last]))| - |KeysOf(Unfound(shared, rest))|
  {
    var unfound, key := Unfound(shared, rest), last.idempotencyKey;
    InsertLastMarker(shared, rest, last);
    InsertedMarkersAreFound(shared, rest, key);
    UnfoundKeys(shared, rest, key);
    assert (rest + [last])[..|rest|] == rest;
    KeysOfLast(unfound, last);
    SameOrOneMore(KeysOf(unfound), key);
  }

  /** The dry run's count of missing rows is what gets inserted exactly if the missing rows have distinct keys. */
  lemma MissingIsInsertedExactly(legacy: seq<LegacyRow>, shared: seq<SharedRow>)
    ensures |WithShipped(shared, legacy)| - |shared| == |Unfound(shared, ShippedRows(legacy))|
            <==> DistinctKeys(Unfound(shared, ShippedRows(legacy)))
  {
    ShippedRowsExactly(legacy);
    InsertedCount(shared, ShippedRows(legacy));
    CountKeys(Unfound(shared, ShippedRows(legacy)));
  }

  // ---- DISTINCT ON ... ORDER BY created_at -----------------------------------------------------------------

  /** The earliest row of every group, the groups in the order they first appear. */
  function EarliestOf(keyBy: LegacyRow -> string, rows: seq<LegacyRow>): seq<LegacyRow> {
    if rows == [] then [] else Earlier(keyBy, EarliestOf(keyBy, rows[..|rows| - 1]), rows[|rows| - 1])
  }

  function Earlier(keyBy: LegacyRow -> string, kept: seq<LegacyRow>, row: LegacyRow): seq<LegacyRow> {
    if kept == [] then [row]
    else if keyBy(kept[0]) == keyBy(row) then [if row.createdAt < kept[0].createdAt then row else kept[0]] + kept[1..]
    else [kept[0]] + Earlier(keyBy, kept[1..], row)
  }

  predicate HasGroup(keyBy: LegacyRow -> string, rows: seq<LegacyRow>, group: string) {
    exists r :: r in rows && keyBy(r) == group
  }

  predicate DistinctGroups(keyBy: LegacyRow -> string, rows: seq<LegacyRow>) {
    rows == [] || (!HasGroup(keyBy, rows[1..], keyBy(rows[0])) && DistinctGroups(keyBy, rows[1..]))
  }

  lemma HasGroupHead(keyBy: LegacyRow -> string, rows: seq<LegacyRow>, group: string)
    requires rows != []
    ensures HasGroup(keyBy, rows, group) <==> keyBy(rows[0]) == group || HasGroup(keyBy, rows[1..], group)
  {
    assert rows[0] in rows;
    if HasGroup(keyBy, rows[1..], group) {
      var r :| r in rows[1..] && keyBy(r) == group;
      assert r in rows;
    }
  }

  lemma {:induction false} EarlierGroups(keyBy: LegacyRow -> string, kept: seq<LegacyRow>, row: LegacyRow, group: string)
    ensures HasGroup(keyBy, Earlier(keyBy, kept, row), group) <==> HasGroup(keyBy, kept, group) || keyBy(row) == group
  {
    HasGroupHead(keyBy, Earlier(keyBy, kept, row), group);
    if kept != [] {
      HasGroupHead(keyBy, kept, group);
      if keyBy(kept[0]) != keyBy(row) {
        EarlierGroups(keyBy, kept[1..], row, group);
      }
    }
  }

  lemma {:induction false} EarlierDistinct(keyBy: LegacyRow -> string, kept: seq<LegacyRow>, row: LegacyRow)
    requires DistinctGroups(keyBy, kept)
    ensures DistinctGroups(keyBy, Earlier(keyBy, kept, row))
  {
    if kept != [] && keyBy(kept[0]) != keyBy(row) {
      EarlierDistinct(keyBy, kept[1..], row);
      EarlierGroups(keyBy, kept[1..], row, keyBy(kept[0]));
    }
  }

  /** No row of a group is earlier than the kept one. */
  ghost predicate EarliestAmong(keyBy: LegacyRow -> string, kept: seq<LegacyRow>, rows: seq<LegacyRow>) {
    forall r, s :: r in kept && s in rows && keyBy(r) == keyBy(s) ==> r.createdAt <= s.createdAt
  }

  lemma {:induction false} EarlierStaysEarliest(keyBy: LegacyRow -> string, kept: seq<LegacyRow>, rows: seq<LegacyRow>,
                                                row: LegacyRow)
    requires EarliestAmong(keyBy, kept, rows) && DistinctGroups(keyBy, kept)
    requires HasGroup(keyBy, rows, keyBy(row)) ==> HasGroup(keyBy, kept, keyBy(row))
    ensures EarliestAmong(keyBy, Earlier(keyBy, kept, row), rows + [row])
  {
    if kept != [] {
      HasGroupHead(keyBy, kept, keyBy(row));
      assert kept == [kept[0]] + kept[1..];
      if keyBy(kept[0]) != keyBy(row) {
        EarlierStaysEarliest(keyBy, kept[1..], rows, row);
      } else {
        forall r | r in kept[1..] ensures keyBy(r) != keyBy(row) {
        }
      }
    }
  }

  /** Exactly one row of every group is kept, the earliest. */
  lemma {:induction false} EarliestKeepsGroups(keyBy: LegacyRow -> string, rows: seq<LegacyRow>, group: string)
    ensures DistinctGroups(keyBy, EarliestOf(keyBy, rows)) && EarliestAmong(keyBy, EarliestOf(keyBy, rows), rows)
    ensures HasGroup(keyBy, EarliestOf(keyBy, rows), group) <==> HasGroup(keyBy, rows, group)
  {
    if rows != [] {
      var rest, last := rows[..|rows| - 1], rows[|rows| - 1];
      EarliestKeepsGroups(keyBy, rest, keyBy(last));
      EarlierStaysEarliest(keyBy, EarliestOf(keyBy, rest), rest, last);
      EarliestKeepsGroups(keyBy, rest, group);
      EarlierDistinct(keyBy, EarliestOf(keyBy, rest), last);
      EarlierGroups(keyBy, EarliestOf(keyBy, rest), last, group);
      HasGroupLast(keyBy, rows, group);
      assert rows == rest + [last];
    }
  }

  lemma HasGroupLast(keyBy: LegacyRow -> string, rows: seq<LegacyRow>, group: string)
    requires rows != []
    ensures HasGroup(keyBy, rows, group) <==> HasGroup(keyBy, rows[..|rows| - 1], group) || keyBy(rows[|rows| - 1]) == group
  {
    assert rows == rows[..|rows| - 1] + [rows[|rows| - 1]];
    if HasGroup(keyBy, rows[..|rows| - 1], group) {
      var r :| r in rows[..|rows| - 1] && keyBy(r) == group;
      assert r in rows;
    }
    assert rows[|rows| - 1] in rows;
  }

  function GroupsOf(keyBy: LegacyRow -> string, rows: seq<LegacyRow>): set<string> {
    set r | r in rows :: keyBy(r)
  }

  lemma {:induction false} CountGroups(keyBy: LegacyRow -> string, rows: seq<LegacyRow>)
    requires DistinctGroups(keyBy, rows)
    ensures |GroupsOf(keyBy, rows)| == |rows|
  {
    if rows == [] {
      assert GroupsOf(keyBy, rows) == {};
    } else {
      CountGroups(keyBy, rows[1..]);
      assert GroupsOf(keyBy, rows) == {keyBy(rows[0])} + GroupsOf(keyBy, rows[1..]) by {
        forall r ensures r in rows <==> r == rows[0] || r in rows[1..] {
        }
      }
      assert keyBy(rows[0]) !in GroupsOf(keyBy, rows[1..]);
    }
  }

  lemma EarliestCount(keyBy: LegacyRow -> string, rows: seq<LegacyRow>)
    ensures |EarliestOf(keyBy, rows)| == |GroupsOf(keyBy, rows)|
  {
    forall group ensures group in GroupsOf(keyBy, EarliestOf(keyBy, rows)) <==> group in GroupsOf(keyBy, rows) {
      EarliestKeepsGroups(keyBy, rows, group);
    }
    EarliestKeepsGroups(keyBy, rows, "");
    CountGroups(keyBy, EarliestOf(keyBy, rows));
    assert GroupsOf(keyBy, EarliestOf(keyBy, rows)) == GroupsOf(keyBy, rows);
  }

  // ---- Wallet: failed intents ------------------------------------------------------------------------------

  function AggregateOf(row: LegacyRow): string {
    row.aggregateId
  }

  /** The failed intents of the old table that no shared row stands for. */
  function UnfoundFailed(shared: seq<SharedRow>, legacy: seq<LegacyRow>): seq<LegacyRow> {
    if legacy == [] then []
    else
      var rest, last := UnfoundFailed(shared, legacy[..|legacy| - 1]), legacy[|legacy| - 1];
      if last.eventType == INTENT_FAILED && !HasAggregate(shared, INTENT_FAILED, last.aggregateId) then rest + [last] else rest
  }

  function MarkersOf(topic: string, rows: seq<LegacyRow>, keyed: bool): seq<SharedRow> {
    if rows == [] then []
    else
      var last := rows[|rows| - 1];
      MarkersOf(topic, rows[..|rows| - 1], keyed) + [Marker(topic, if keyed then last.payloadKey else None, last)]
  }

  function WithFailed(shared: seq<SharedRow>, legacy: seq<LegacyRow>): seq<SharedRow> {
    shared + MarkersOf(PAYMENT_TOPIC, EarliestOf(AggregateOf, UnfoundFailed(shared, legacy)), false)
  }

  predicate IsFailed(row: LegacyRow) {
    row.eventType == INTENT_FAILED
  }

  lemma {:induction false} UnfoundFailedExactly(shared: seq<SharedRow>, legacy: seq<LegacyRow>)
    ensures forall r :: r in UnfoundFailed(shared, legacy)
              <==> r in legacy && IsFailed(r) && !HasAggregate(shared, INTENT_FAILED, r.aggregateId)
  {
    if legacy != [] {
      var rest, last := legacy[..|legacy| - 1], legacy[|legacy| - 1];
      assert legacy == rest + [last];
      UnfoundFailedExactly(shared, rest);
    }
  }

  lemma {:induction false} EarliestMembers(keyBy: LegacyRow -> string, rows: seq<LegacyRow>)
    ensures forall r :: r in EarliestOf(keyBy, rows) ==> r in rows
  {
    if rows != [] {
      var rest, last := rows[..|rows| - 1], rows[|rows| - 1];
      EarliestMembers(keyBy, rest);
      EarlierMembers(keyBy, EarliestOf(keyBy, rest), last);
      assert rows == rest + [last];
    }
  }

  lemma {:induction false} EarlierMembers(keyBy: LegacyRow -> string, kept: seq<LegacyRow>, row: LegacyRow)
    ensures forall r :: r in Earlier(keyBy, kept, row) ==> r in kept || r == row
  {
    if kept != [] && keyBy(kept[0]) != keyBy(row) {
      EarlierMembers(keyBy, kept[1..], row);
    }
  }

  lemma {:induction false} MarkersMembers(topic: string, rows: seq<LegacyRow>, keyed: bool)
    ensures |MarkersOf(topic, rows, keyed)| == |rows|
    ensures forall m :: m in MarkersOf(topic, rows, keyed) ==> m.status == Published && m.topic == topic
  {
    if rows != [] {
      MarkersMembers(topic, rows[..|rows| - 1], keyed);
    }
  }

  lemma AggregateAfterAppend(shared: seq<SharedRow>, row: SharedRow, aggregateId: string)
    ensures HasAggregate(shared + [row], INTENT_FAILED, aggregateId)
            <==> HasAggregate(shared, INTENT_FAILED, aggregateId)
                 || (row.eventType == INTENT_FAILED && row.aggregateId == aggregateId)
  {
    if HasAggregate(shared, INTENT_FAILED, aggregateId) {
      var r :| r in shared && r.eventType == INTENT_FAILED && r.aggregateId == aggregateId;
      assert r in shared + [row];
    }
    assert row in shared + [row];
  }

  lemma {:induction false} AppendedAggregates(shared: seq<SharedRow>, rows: seq<LegacyRow>, aggregateId: string)
    requires forall r :: r in rows ==> IsFailed(r)
    ensures HasAggregate(shared + MarkersOf(PAYMENT_TOPIC, rows, false), INTENT_FAILED, aggregateId)
            <==> HasAggregate(shared, INTENT_FAILED, aggregateId) || HasGroup(AggregateOf, rows, aggregateId)
  {
    if rows == [] {
      assert shared + [] == shared;
    } else {
      var rest, last := rows[..|rows| - 1], rows[|rows| - 1];
      var marker := Marker(PAYMENT_TOPIC, None, last);
      AppendedAggregates(shared, rest, aggregateId);
      AggregateAfterAppend(shared + MarkersOf(PAYMENT_TOPIC, rest, false), marker, aggregateId);
      assert shared + MarkersOf(PAYMENT_TOPIC, rows, false) == shared + MarkersOf(PAYMENT_TOPIC, rest, false) + [marker];
      HasGroupLast(AggregateOf, rows, aggregateId);
      assert IsFailed(last);
    }
  }

  /** The reader's decision on a failed intent. */
  lemma FailedDecisionStays(legacy: seq<LegacyRow>, shared: seq<SharedRow>, aggregateId: string)
    ensures HasAggregate(WithFailed(shared, legacy), INTENT_FAILED, aggregateId)
            <==> LegacyFailed(legacy, aggregateId) || HasAggregate(shared, INTENT_FAILED, aggregateId)
  {
    var rows := UnfoundFailed(shared, legacy);
    UnfoundFailedExactly(shared, legacy);
    EarliestMembers(AggregateOf, rows);
    EarliestKeepsGroups(AggregateOf, rows, aggregateId);
    AppendedAggregates(shared, EarliestOf(AggregateOf, rows), aggregateId);
    if LegacyFailed(legacy, aggregateId) && !HasAggregate(shared, INTENT_FAILED, aggregateId) {
      var r :| r in legacy && r.eventType == INTENT_FAILED && r.aggregateId == aggregateId;
      assert r in rows && AggregateOf(r) == aggregateId;
    }
  }

  lemma {:induction false} AllFound(shared: seq<SharedRow>, legacy: seq<LegacyRow>)
    requires forall r :: r in legacy && IsFailed(r) ==> HasAggregate(shared, INTENT_FAILED, r.aggregateId)
    ensures UnfoundFailed(shared, legacy) == []
  {
    if legacy != [] {
      assert legacy[|legacy| - 1] in legacy;
      AllFound(shared, legacy[..|legacy| - 1]);
    }
  }

  /** A second run adds nothing, although the rows have no key, and no run makes a row pending. */
  lemma FailedRunsAreSafe(legacy: seq<LegacyRow>, shared: seq<SharedRow>)
    ensures WithFailed(WithFailed(shared, legacy), legacy) == WithFailed(shared, legacy)
    ensures PendingRows(WithFailed(shared, legacy)) == PendingRows(shared)
  {
    var after := WithFailed(shared, legacy);
    forall r | r in legacy && IsFailed(r) ensures HasAggregate(after, INTENT_FAILED, r.aggregateId) {
      FailedDecisionStays(legacy, shared, r.aggregateId);
      assert LegacyFailed(legacy, r.aggregateId);
    }
    AllFound(after, legacy);
    assert after + [] == after;
    var added := MarkersOf(PAYMENT_TOPIC, EarliestOf(AggregateOf, UnfoundFailed(shared, legacy)), false);
    MarkersMembers(PAYMENT_TOPIC, EarliestOf(AggregateOf, UnfoundFailed(shared, legacy)), false);
    PendingAfterPublished(shared, added);
  }

  function FailedAggregates(legacy: seq<LegacyRow>): set<string> {
    set r | r in legacy && IsFailed(r) :: r.aggregateId
  }

  function PresentAggregates(shared: seq<SharedRow>, legacy: seq<LegacyRow>): set<string> {
    set a | a in FailedAggregates(legacy) && HasAggregate(shared, INTENT_FAILED, a)
  }

  /** The dry run's count of missing failed intents is what gets inserted. */
  lemma MissingFailedAreInserted(legacy: seq<LegacyRow>, shared: seq<SharedRow>)
    ensures |FailedAggregates(legacy)| - |PresentAggregates(shared, legacy)| == |WithFailed(shared, legacy)| - |shared|
  {
    var rows := UnfoundFailed(shared, legacy);
    UnfoundFailedExactly(shared, legacy);
    MarkersMembers(PAYMENT_TOPIC, EarliestOf(AggregateOf, rows), false);
    EarliestCount(AggregateOf, rows);
    var all, present := FailedAggregates(legacy), PresentAggregates(shared, legacy);
    assert GroupsOf(AggregateOf, rows) == all - present by {
      forall a ensures a in GroupsOf(AggregateOf, rows) <==> a in all - present {
        if a in all - present {
          var r :| r in legacy && IsFailed(r) && r.aggregateId == a;
          assert r in rows && AggregateOf(r) == a;
        }
      }
    }
    assert present <= all && |all - present| == |all| - |present|;
  }

  // ---- Wallet: rejected mandates ---------------------------------------------------------------------------

  predicate IsRejected(row: LegacyRow) {
    row.eventType == MANDATE_REJECTED && row.payloadKey.Some?
  }

  function RejectedRows(legacy: seq<LegacyRow>): seq<LegacyRow> {
    if legacy == [] then []
    else
      var rest, last := RejectedRows(legacy[..|legacy| - 1]), legacy[|legacy| - 1];
      if IsRejected(last) then rest + [last] else rest
  }

  function PayloadKeyOf(row: LegacyRow): string {
    if row.payloadKey.Some? then row.payloadKey.value else ""
  }

  function WithRejected(shared: seq<SharedRow>, legacy: seq<LegacyRow>): seq<SharedRow> {
    InsertAll(shared, MarkersOf(PAYMENT_TOPIC, EarliestOf(PayloadKeyOf, RejectedRows(legacy)), true))
  }

  lemma {:induction false} RejectedRowsExactly(legacy: seq<LegacyRow>)
    ensures forall r :: r in RejectedRows(legacy) <==> r in legacy && IsRejected(r)
  {
    if legacy != [] {
      var rest, last := legacy[..|legacy| - 1], legacy[|legacy| - 1];
      assert legacy == rest + [last];
      RejectedRowsExactly(rest);
    }
  }

  lemma TypedKeyAfterAppend(shared: seq<SharedRow>, row: SharedRow, key: string)
    ensures HasTypedKey(shared + [row], MANDATE_REJECTED, key)
            <==> HasTypedKey(shared, MANDATE_REJECTED, key)
                 || (row.eventType == MANDATE_REJECTED && row.idempotencyKey == Some(key))
  {
    if HasTypedKey(shared, MANDATE_REJECTED, key) {
      var r :| r in shared && r.eventType == MANDATE_REJECTED && r.idempotencyKey == Some(key);
      assert r in shared + [row];
    }
    assert row in shared + [row];
  }

  lemma {:induction false} InsertedKeysAreFound(shared: seq<SharedRow>, rows: seq<LegacyRow>, key: string)
    requires forall r :: r in rows ==> IsRejected(r)
    ensures HasTypedKey(InsertAll(shared, MarkersOf(PAYMENT_TOPIC, rows, true)), MANDATE_REJECTED, key)
            <==> HasTypedKey(shared, MANDATE_REJECTED, key) || HasGroup(PayloadKeyOf, rows, key)
    ensures HasGroup(PayloadKeyOf, rows, key)
            ==> HasKey(InsertAll(shared, MarkersOf(PAYMENT_TOPIC, rows, true)), PAYMENT_TOPIC, MANDATE_REJECTED, key)
  {
    if rows != [] {
      var rest, last := rows[..|rows| - 1], rows[|rows| - 1];
      var before, marker := InsertAll(shared, MarkersOf(PAYMENT_TOPIC, rest, true)), Marker(PAYMENT_TOPIC, last.payloadKey, last);
      assert IsRejected(last);
      InsertedKeysAreFound(shared, rest, key);
      HasGroupLast(PayloadKeyOf, rows, key);
      TypedKeyAfterAppend(before, marker, key);
      FoundAfterAppend(before, marker, PAYMENT_TOPIC, MANDATE_REJECTED, key);
      var all := MarkersOf(PAYMENT_TOPIC, rows, true);
      assert all[..|all| - 1] == MarkersOf(PAYMENT_TOPIC, rest, true);
    }
  }

  /** The reader's decision on a rejected mandate. */
  lemma RejectedDecisionStays(legacy: seq<LegacyRow>, shared: seq<SharedRow>, key: string)
    ensures HasTypedKey(WithRejected(shared, legacy), MANDATE_REJECTED, key)
            <==> LegacyRejected(legacy, key) || HasTypedKey(shared, MANDATE_REJECTED, key)
  {
    var rows := RejectedRows(legacy);
    RejectedRowsExactly(legacy);
    EarliestMembers(PayloadKeyOf, rows);
    EarliestKeepsGroups(PayloadKeyOf, rows, key);
    InsertedKeysAreFound(shared, EarliestOf(PayloadKeyOf, rows), key);
    if LegacyRejected(legacy, key) {
      var r :| r in legacy && r.eventType == MANDATE_REJECTED && r.payloadKey == Some(key);
      assert r in rows && PayloadKeyOf(r) == key;
    }
  }

  lemma {:induction false} NothingRejectedToInsert(shared: seq<SharedRow>, rows: seq<LegacyRow>)
    requires forall r :: r in rows ==> IsRejected(r) && HasKey(shared, PAYMENT_TOPIC, MANDATE_REJECTED, r.payloadKey.value)
    ensures InsertAll(shared, MarkersOf(PAYMENT_TOPIC, rows, true)) == shared
  {
    if rows != [] {
      var rest, last := rows[..|rows| - 1], rows[|rows| - 1];
      assert last in rows;
      NothingRejectedToInsert(shared, rest);
      var all := MarkersOf(PAYMENT_TOPIC, rows, true);
      assert all[..|all| - 1] == MarkersOf(PAYMENT_TOPIC, rest, true);
    }
  }

  lemma RejectedRunsAreSafe(legacy: seq<LegacyRow>, shared: seq<SharedRow>)
    ensures WithRejected(WithRejected(shared, legacy), legacy) == WithRejected(shared, legacy)
    ensures PendingRows(WithRejected(shared, legacy)) == PendingRows(shared)
  {
    var rows := EarliestOf(PayloadKeyOf, RejectedRows(legacy));
    var after := WithRejected(shared, legacy);
    RejectedRowsExactly(legacy);
    EarliestMembers(PayloadKeyOf, RejectedRows(legacy));
    forall r | r in rows ensures HasKey(after, PAYMENT_TOPIC, MANDATE_REJECTED, r.payloadKey.value) {
      assert PayloadKeyOf(r) == r.payloadKey.value && HasGroup(PayloadKeyOf, rows, r.payloadKey.value);
      InsertedKeysAreFound(shared, rows, r.payloadKey.value);
    }
    NothingRejectedToInsert(after, rows);
    MarkersMembers(PAYMENT_TOPIC, rows, true);
    InsertAllKeepsPending(shared, MarkersOf(PAYMENT_TOPIC, rows, true));
  }

  /** The rejected mandates the dry run reports as missing. */
  function MissingRejected(shared: seq<SharedRow>, rows: seq<LegacyRow>): (missing: seq<LegacyRow>)
    ensures |missing| <= |rows|
    ensures forall r :: r in missing <==> r in rows && !HasTypedKey(shared, MANDATE_REJECTED, PayloadKeyOf(r))
  {
    if rows == [] then []
    else
      assert rows == [rows[0]] + rows[1..];
      (if HasTypedKey(shared, MANDATE_REJECTED, PayloadKeyOf(rows[0])) then [] else [rows[0]])
        + MissingRejected(shared, rows[1..])
  }

  /** Nothing is reported as missing exactly if the shared table answers for every rejected mandate already. */
  lemma NothingMissingExactly(legacy: seq<LegacyRow>, shared: seq<SharedRow>)
    ensures MissingRejected(shared, RejectedRows(legacy)) == [] <==>
            forall key :: LegacyRejected(legacy, key) ==> HasTypedKey(shared, MANDATE_REJECTED, key)
  {
    var rows := RejectedRows(legacy);
    var missing := MissingRejected(shared, rows);
    RejectedRowsExactly(legacy);
    if missing == [] {
      forall key | LegacyRejected(legacy, key) ensures HasTypedKey(shared, MANDATE_REJECTED, key) {
        var r :| r in legacy && r.eventType == MANDATE_REJECTED && r.payloadKey == Some(key);
        assert r in rows && r !in missing && PayloadKeyOf(r) == key;
      }
    } else {
      var r := missing[0];
      assert r in missing && r in rows;
      assert LegacyRejected(legacy, PayloadKeyOf(r));
    }
  }

  // ---- What the inserted rows are --------------------------------------------------------------------------

  /** A published row with the event and the times of a legacy row, its creation standing in for a missing publication. */
  predicate StandsFor(r: SharedRow, l: LegacyRow, topic: string, key: Option<string>) {
    && r.topic == topic && r.eventType == l.eventType && r.aggregateId == l.aggregateId && r.idempotencyKey == key
    && r.status == Published && r.createdAt == l.createdAt
    && (l.publishedAt == Some(r.publishedAt) || (l.publishedAt == None && r.publishedAt == l.createdAt))
  }

  /** A fully shipped marker of the old table, by the texts readers look for. */
  predicate IsShipped(l: LegacyRow) {
    l.topic == "fulfillments.events.v1" && l.eventType == "FulfillmentShipped" && EndsWith(l.idempotencyKey, ":fully-shipped")
  }

  ghost predicate StandsForShipped(r: SharedRow, legacy: seq<LegacyRow>) {
    exists l :: l in legacy && IsShipped(l) && StandsFor(r, l, "fulfillments.events.v1", Some(l.idempotencyKey))
  }

  /** The earliest failed intent of an aggregate. */
  ghost predicate StandsForFailed(r: SharedRow, legacy: seq<LegacyRow>) {
    exists l :: && l in legacy && l.eventType == "payment.intent.failed" && StandsFor(r, l, "payments.events.v1", None)
                && forall m :: m in legacy && m.eventType == "payment.intent.failed" && m.aggregateId == l.aggregateId ==>
                     l.createdAt <= m.createdAt
  }

  /** The earliest rejected mandate of a payload key. */
  ghost predicate StandsForRejected(r: SharedRow, legacy: seq<LegacyRow>) {
    exists l :: && l in legacy && l.eventType == "mandate.rejected" && l.payloadKey.Some?
                && StandsFor(r, l, "payments.events.v1", l.payloadKey)
                && forall m :: m in legacy && m.eventType == "mandate.rejected" && m.payloadKey == l.payloadKey ==>
                     l.createdAt <= m.createdAt
  }

  lemma {:induction false} InsertedFromRows(shared: seq<SharedRow>, rows: seq<SharedRow>)
    ensures forall r :: r in InsertAll(shared, rows)[|shared|..] ==> r in rows
  {
    if rows != [] {
      var n := |rows| - 1;
      var before := InsertAll(shared, rows[..n]);
      InsertedFromRows(shared, rows[..n]);
      assert rows == rows[..n] + [rows[n]];
      assert (before + [rows[n]])[|shared|..] == before[|shared|..] + [rows[n]];
    }
  }

  lemma {:induction false} MarkersStand(topic: string, rows: seq<LegacyRow>, keyed: bool)
    ensures forall m :: m in MarkersOf(topic, rows, keyed) ==>
              exists l :: l in rows && StandsFor(m, l, topic, if keyed then l.payloadKey else None)
  {
    if rows != [] {
      var rest, last := rows[..|rows| - 1], rows[|rows| - 1];
      MarkersStand(topic, rest, keyed);
      assert rows == rest + [last];
      assert StandsFor(Marker(topic, if keyed then last.payloadKey else None, last), last, topic,
                       if keyed then last.payloadKey else None);
    }
  }

  lemma {:induction false} ShippedMarkersStand(rows: seq<LegacyRow>)
    ensures forall m :: m in ShippedMarkers(rows) ==>
              exists l :: l in rows && StandsFor(m, l, l.topic, Some(l.idempotencyKey))
  {
    if rows != [] {
      var rest, last := rows[..|rows| - 1], rows[|rows| - 1];
      ShippedMarkersStand(rest);
      assert rows == rest + [last];
      assert StandsFor(Marker(last.topic, Some(last.idempotencyKey), last), last, last.topic, Some(last.idempotencyKey));
    }
  }

  lemma ShippedRowsStand(legacy: seq<LegacyRow>, shared: seq<SharedRow>)
    ensures forall r :: r in WithShipped(shared, legacy)[|shared|..] ==> StandsForShipped(r, legacy)
  {
    ShippedRowsExactly(legacy);
    InsertedFromRows(shared, ShippedMarkers(ShippedRows(legacy)));
    ShippedMarkersStand(ShippedRows(legacy));
    forall r | r in WithShipped(shared, legacy)[|shared|..] ensures StandsForShipped(r, legacy) {
      var l :| l in ShippedRows(legacy) && StandsFor(r, l, l.topic, Some(l.idempotencyKey));
      assert IsShipped(l);
    }
  }

  lemma FailedRowsStand(legacy: seq<LegacyRow>, shared: seq<SharedRow>)
    ensures forall r :: r in WithFailed(shared, legacy)[|shared|..] ==> StandsForFailed(r, legacy)
  {
    var rows := UnfoundFailed(shared, legacy);
    UnfoundFailedExactly(shared, legacy);
    EarliestMembers(AggregateOf, rows);
    EarliestKeepsGroups(AggregateOf, rows, "");
    MarkersStand(PAYMENT_TOPIC, EarliestOf(AggregateOf, rows), false);
    forall r | r in WithFailed(shared, legacy)[|shared|..] ensures StandsForFailed(r, legacy) {
      var l :| l in EarliestOf(AggregateOf, rows) && StandsFor(r, l, PAYMENT_TOPIC, None);
      forall m | m in legacy && m.eventType == "payment.intent.failed" && m.aggregateId == l.aggregateId
        ensures l.createdAt <= m.createdAt
      {
        assert IsFailed(m) && m in rows && AggregateOf(m) == AggregateOf(l);
      }
    }
  }

  lemma RejectedRowsStand(legacy: seq<LegacyRow>, shared: seq<SharedRow>)
    ensures forall r :: r in WithRejected(shared, legacy)[|shared|..] ==> StandsForRejected(r, legacy)
  {
    var rows := RejectedRows(legacy);
    var markers := MarkersOf(PAYMENT_TOPIC, EarliestOf(PayloadKeyOf, rows), true);
    RejectedRowsExactly(legacy);
    EarliestMembers(PayloadKeyOf, rows);
    EarliestKeepsGroups(PayloadKeyOf, rows, "");
    MarkersStand(PAYMENT_TOPIC, EarliestOf(PayloadKeyOf, rows), true);
    InsertedFromRows(shared, markers);
    forall r | r in WithRejected(shared, legacy)[|shared|..] ensures StandsForRejected(r, legacy) {
      var l :| l in EarliestOf(PayloadKeyOf, rows) && StandsFor(r, l, PAYMENT_TOPIC, l.payloadKey);
      assert IsRejected(l);
      forall m | m in legacy && m.eventType == "mandate.rejected" && m.payloadKey == l.payloadKey
        ensures l.createdAt <= m.createdAt
      {
        assert IsRejected(m) && m in rows && PayloadKeyOf(m) == PayloadKeyOf(l);
      }
    }
  }

  /** The positions of the shipped markers in the old table, and of those the shared table has. */
  function ShippedAt(legacy: seq<LegacyRow>): set<int> {
    set i | 0 <= i < |legacy| && IsShipped(legacy[i])
  }

  predicate KeyIsShared(shared: seq<SharedRow>, l: LegacyRow) {
    exists r :: r in shared && r.topic == l.topic && r.eventType == l.eventType && r.idempotencyKey == Some(l.idempotencyKey)
  }

  function PresentAt(shared: seq<SharedRow>, legacy: seq<LegacyRow>): set<int> {
    set i | 0 <= i < |legacy| && IsShipped(legacy[i]) && KeyIsShared(shared, legacy[i])
  }

  lemma OnePositionMore(shared: seq<SharedRow>, rest: seq<LegacyRow>, last: LegacyRow)
    ensures |ShippedAt(rest + [last])| == |ShippedAt(rest)| + if IsShipped(last) then 1 else 0
    ensures |PresentAt(shared, rest + [last])|
            == |PresentAt(shared, rest)| + if IsShipped(last) && KeyIsShared(shared, last) then 1 else 0
  {
    assert ShippedAt(rest + [last]) == ShippedAt(rest) + if IsShipped(last) then {|rest|} else {};
    assert PresentAt(shared, rest + [last])
        == PresentAt(shared, rest) + if IsShipped(last) && KeyIsShared(shared, last) then {|rest|} else {};
  }

  lemma OneRowMore(shared: seq<SharedRow>, rest: seq<LegacyRow>, last: LegacyRow)
    ensures ShippedRows(rest + [last]) == ShippedRows(rest) + if IsShipped(last) then [last] else []
    ensures |Unfound(shared, ShippedRows(rest + [last]))|
            == |Unfound(shared, ShippedRows(rest))| + if IsShipped(last) && !KeyIsShared(shared, last) then 1 else 0
  {
    assert (rest + [last])[..|rest|] == rest;
    assert IsShipped(last) <==> ShippedMarker(last);
    var rows := ShippedRows(rest + [last]);
    assert IsShipped(last) ==> rows[..|rows| - 1] == ShippedRows(rest);
  }

  /** The report counts rows, not keys. */
  lemma {:induction false} ShippedCounts(shared: seq<SharedRow>, legacy: seq<LegacyRow>)
    ensures |ShippedRows(legacy)| == |ShippedAt(legacy)|
    ensures |ShippedRows(legacy)| - |Unfound(shared, ShippedRows(legacy))| == |PresentAt(shared, legacy)|
  {
    if legacy == [] {
      assert ShippedAt(legacy) == {} && PresentAt(shared, legacy) == {};
    } else {
      var rest, last := legacy[..|legacy| - 1], legacy[|legacy| - 1];
      assert legacy == rest + [last];
      ShippedCounts(shared, rest);
      OnePositionMore(shared, rest, last);
      OneRowMore(shared, rest, last);
    }
  }

  // ---- The backfills ---------------------------------------------------------------------------------------

  class SharedOutbox {
    var rows: seq<SharedRow>

    constructor (rows: seq<SharedRow>)
      ensures this.rows == rows
    {
      this.rows := rows;
    }

    method BackfillCore(legacy: seq<LegacyRow>, execute: bool) returns (report: Report)
      modifies this
      ensures rows == if execute then WithShipped(old(rows), legacy) else old(rows)
      ensures execute ==> forall key :: EndsWith(key, FULLY_SHIPPED) ==>
                (HasKey(rows, FULFILLMENT_TOPIC, FULFILLMENT_SHIPPED, key)
                 <==> LegacyShipped(legacy, key) || HasKey(old(rows), FULFILLMENT_TOPIC, FULFILLMENT_SHIPPED, key))
      ensures old(rows) <= rows && PendingRows(rows) == PendingRows(old(rows))
      ensures forall r :: r in rows[|old(rows)|..] ==> StandsForShipped(r, legacy)
      ensures report.legacyRows == |ShippedAt(legacy)| && report.alreadyPresent == |PresentAt(old(rows), legacy)|
      ensures report.missing == report.legacyRows - report.alreadyPresent == |Unfound(old(rows), ShippedRows(legacy))|
      ensures report.inserted == if execute then Some(|rows| - |old(rows)|) else None
    {
      ShippedRowsStand(legacy, rows);
      ShippedCounts(rows, legacy);
      var shipped := ShippedRows(legacy);
      var unfound := Unfound(rows, shipped);
      report := Report(|shipped|, |shipped| - |unfound|, |unfound|, None);
      ShippedRunsAreSafe(legacy, rows);
      if execute {
        forall key | EndsWith(key, FULLY_SHIPPED) { ShippedDecisionStays(legacy, rows, key); }
        var after := WithShipped(rows, legacy);
        report := report.(inserted := Some(|after| - |rows|));
        rows := after;
      }
    }

    method BackfillFailedIntents(legacy: seq<LegacyRow>, execute: bool) returns (report: Report)
      modifies this
      ensures rows == if execute then WithFailed(old(rows), legacy) else old(rows)
      ensures execute ==> forall a ::
                (HasAggregate(rows, INTENT_FAILED, a)
                 <==> LegacyFailed(legacy, a) || HasAggregate(old(rows), INTENT_FAILED, a))
      ensures old(rows) <= rows && PendingRows(rows) == PendingRows(old(rows))
      ensures forall r :: r in rows[|old(rows)|..] ==> StandsForFailed(r, legacy)
      ensures report.inserted == if execute then Some(|rows| - |old(rows)|) else None
      ensures report.missing == report.legacyRows - report.alreadyPresent == |WithFailed(old(rows), legacy)| - |old(rows)|
      ensures report.legacyRows == |set l | l in legacy && l.eventType == "payment.intent.failed" :: l.aggregateId|
      ensures report.alreadyPresent == |set l | l in legacy && l.eventType == "payment.intent.failed"
                                                && HasAggregate(old(rows), INTENT_FAILED, l.aggregateId) :: l.aggregateId|
    {
      FailedRowsStand(legacy, rows);
      assert FailedAggregates(legacy) == set l | l in legacy && l.eventType == "payment.intent.failed" :: l.aggregateId;
      assert PresentAggregates(rows, legacy) == set l | l in legacy && l.eventType == "payment.intent.failed"
                                                && HasAggregate(rows, INTENT_FAILED, l.aggregateId) :: l.aggregateId;
      var all, present := FailedAggregates(legacy), PresentAggregates(rows, legacy);
      report := Report(|all|, |present|, |all| - |present|, None);
      MissingFailedAreInserted(legacy, rows);
      FailedRunsAreSafe(legacy, rows);
      if execute {
        forall a { FailedDecisionStays(legacy, rows, a); }
        var after := WithFailed(rows, legacy);
        report := report.(inserted := Some(|after| - |rows|));
        rows := after;
      }
    }

    /** The counts of the dry run. */
    method CountRejected(legacy: seq<LegacyRow>) returns (report: Report)
      ensures report.legacyRows == |RejectedRows(legacy)| && report.alreadyPresent == report.legacyRows - report.missing
      ensures report.missing == |MissingRejected(rows, RejectedRows(legacy))| && report.inserted == None
      ensures report.missing == 0 <==>
                forall key :: LegacyRejected(legacy, key) ==> HasTypedKey(rows, MANDATE_REJECTED, key)
    {
      var rejected := RejectedRows(legacy);
      var missing := MissingRejected(rows, rejected);
      report := Report(|rejected|, |rejected| - |missing|, |missing|, None);
      NothingMissingExactly(legacy, rows);
    }

    method BackfillRejectedMandates(legacy: seq<LegacyRow>, execute: bool) returns (report: Report)
      modifies this
      ensures rows == if execute then WithRejected(old(rows), legacy) else old(rows)
      ensures execute ==> forall key ::
                (HasTypedKey(rows, MANDATE_REJECTED, key)
                 <==> LegacyRejected(legacy, key) || HasTypedKey(old(rows), MANDATE_REJECTED, key))
      ensures old(rows) <= rows && PendingRows(rows) == PendingRows(old(rows))
      ensures report.legacyRows == |RejectedRows(legacy)| && report.alreadyPresent == report.legacyRows - report.missing
      ensures report.missing == |MissingRejected(old(rows), RejectedRows(legacy))|
      ensures report.missing == 0 <==>
                forall key :: LegacyRejected(legacy, key) ==> HasTypedKey(old(rows), MANDATE_REJECTED, key)
      ensures forall r :: r in rows[|old(rows)|..] ==> StandsForRejected(r, legacy)
      ensures report.inserted == if execute then Some(|rows| - |old(rows)|) else None
    {
      RejectedRowsStand(legacy, rows);
      report := CountRejected(legacy);
      RejectedRunsAreSafe(legacy, rows);
      if execute {
        forall key { RejectedDecisionStays(legacy, rows, key); }
        var after := WithRejected(rows, legacy);
        report := report.(inserted := Some(|after| - |rows|));
        rows := after;
      }
    }
  }
}
