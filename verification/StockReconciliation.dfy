/**
 The stock ledger, the movement events it is derived from, and the two drift reports that gate the cutover.

 `StockBooks` is the ledger writer: one call posts one movement and projects it. `FindLedgerDrift` is the report.
 The results: the books never drift however they are run, the report is empty exactly when ledger and events agree
 at every slot of the affected pairs, movements conserve each SKU's total, and deleting fulfilment reservations
 cannot create a shortfall.
 */
module StockReconciliation {
  import opened Wrappers

  type Id(==) = string

  /** A place an event can name. The location is missing once its row was deleted (ON DELETE SET NULL). */
  datatype Side = Side(warehouse: Option<Id>, location: Option<Id>, state: Id)

  datatype Event = Event(sku: Id, from: Option<Side>, to: Option<Side>, quantity: nat, posted: bool, voided: bool,
                         key: Option<Id>)

  /** The grain of the report: one side of one SKU. */
  datatype Slot = Slot(sku: Id, side: Side)

  /** The primary key of a ledger row: no column may be missing. */
  datatype LedgerKey = LedgerKey(sku: Id, warehouse: Id, location: Id, state: Id)

  type Ledger = map<LedgerKey, nat>

  datatype Pair = Pair(warehouse: Id, sku: Id)

  datatype LedgerDrift = LedgerDrift(slot: Slot, eventDerived: int, ledger: int, delta: int)

  function SlotOf(k: LedgerKey): Slot {
    Slot(k.sku, Side(Some(k.warehouse), Some(k.location), k.state))
  }

  /** The ledger quantity the report sees at a slot; a slot with a missing column joins no ledger row. */
  function LedgerAt(ledger: Ledger, s: Slot): nat {
    if s.side.warehouse.None? || s.side.location.None? then 0
    else
      var k := LedgerKey(s.sku, s.side.warehouse.value, s.side.location.value, s.side.state);
      if k in ledger then ledger[k] else 0
  }

  predicate Counts(e: Event) {
    e.posted && !e.voided
  }

  /** What one event adds to a slot. */
  function Contribution(e: Event, s: Slot): int {
    if !Counts(e) || e.sku != s.sku then 0
    else (if e.to == Some(s.side) then e.quantity else 0) - (if e.from == Some(s.side) then e.quantity else 0)
  }

  function Derived(events: seq<Event>, s: Slot): int {
    if events == [] then 0 else Derived(events[..|events| - 1], s) + Contribution(events[|events| - 1], s)
  }

  // ---- Writing ---------------------------------------------------------------------------------------------

  ghost predicate Agree(ledger: Ledger, events: seq<Event>) {
    forall s: Slot :: Derived(events, s) == LedgerAt(ledger, s)
  }

  // ---- Sums over ledger rows -------------------------------------------------------------------------------

  ghost function Sum<K(!new)>(m: map<K, nat>, keys: set<K>): nat
    requires keys <= m.Keys
  {
    if keys == {} then 0 else var k :| k in keys; m[k] + Sum(m, keys - {k})
  }

  lemma {:induction false} SumWithout<K(!new)>(m: map<K, nat>, keys: set<K>, k: K)
    requires keys <= m.Keys && k in keys
    ensures Sum(m, keys) == m[k] + Sum(m, keys - {k})
    decreases |keys|
  {
    var j :| j in keys && Sum(m, keys) == m[j] + Sum(m, keys - {j});
    if j != k {
      SumWithout(m, keys - {j}, k);
      SumWithout(m, keys - {k}, j);
      assert keys - {j} - {k} == keys - {k} - {j};
    }
  }

  /** Fewer rows sum to no more. */
  lemma {:induction false} SumOfFewer<K(!new)>(m: map<K, nat>, fewer: set<K>, keys: set<K>)
    requires fewer <= keys <= m.Keys
    ensures Sum(m, fewer) <= Sum(m, keys)
    decreases |keys|
  {
    if fewer != keys {
      assert !(keys <= fewer);
      var k :| k in keys && k !in fewer;
      SumWithout(m, keys, k);
      SumOfFewer(m, fewer, keys - {k});
    }
  }

  lemma {:induction false} SumFrame<K(!new)>(a: map<K, nat>, b: map<K, nat>, keys: set<K>)
    requires keys <= a.Keys && keys <= b.Keys
    requires forall k :: k in keys ==> a[k] == b[k]
    ensures Sum(a, keys) == Sum(b, keys)
    decreases |keys|
  {
    if keys != {} {
      var k :| k in keys && Sum(a, keys) == a[k] + Sum(a, keys - {k});
      SumFrame(a, b, keys - {k});
      SumWithout(b, keys, k);
    }
  }

  ghost function SkuStock(ledger: Ledger, sku: Id): nat {
    Sum(ledger, set k | k in ledger && k.sku == sku)
  }

  lemma SkuStockUpdate(ledger: Ledger, k: LedgerKey, qty: nat, sku: Id)
    ensures SkuStock(ledger[k := qty], sku) == SkuStock(ledger, sku)
              + (if k.sku == sku then qty - (if k in ledger then ledger[k] else 0) else 0)
  {
    var after := ledger[k := qty];
    var old_, new_ := set j | j in ledger && j.sku == sku, set j | j in after && j.sku == sku;
    if k.sku != sku {
      assert old_ == new_;
      SumFrame(ledger, after, old_);
    } else {
      SumWithout(after, new_, k);
      assert new_ - {k} == old_ - {k};
      SumFrame(ledger, after, old_ - {k});
      if k in ledger { SumWithout(ledger, old_, k); } else { assert old_ - {k} == old_; }
    }
  }

  // ---- The derived quantity as a query ---------------------------------------------------------------------

  /** The quantities of the events, by position. */
  function QuantitiesOf(events: seq<Event>): map<int, nat> {
    map i | 0 <= i < |events| :: events[i].quantity
  }

  /** The posted events nobody voided that move a SKU into a place, or out of it. */
  function Into(events: seq<Event>, s: Slot): (rows: set<int>)
    ensures rows <= QuantitiesOf(events).Keys
    ensures forall i :: i in rows <==> 0 <= i < |events| && events[i].posted && !events[i].voided
                                       && events[i].sku == s.sku && events[i].to == Some(s.side)
  {
    set i | 0 <= i < |events| && Counts(events[i]) && events[i].sku == s.sku && events[i].to == Some(s.side)
  }

  function OutOf(events: seq<Event>, s: Slot): (rows: set<int>)
    ensures rows <= QuantitiesOf(events).Keys
    ensures forall i :: i in rows <==> 0 <= i < |events| && events[i].posted && !events[i].voided
                                       && events[i].sku == s.sku && events[i].from == Some(s.side)
  {
    set i | 0 <= i < |events| && Counts(events[i]) && events[i].sku == s.sku && events[i].from == Some(s.side)
  }

  lemma SumOneMore(events: seq<Event>, e: Event, rows: set<int>, selected: bool)
    requires rows <= QuantitiesOf(events).Keys
    ensures rows <= QuantitiesOf(events + [e]).Keys
    ensures Sum(QuantitiesOf(events + [e]), rows + (if selected then {|events|} else {}))
            == Sum(QuantitiesOf(events), rows) + (if selected then e.quantity else 0)
  {
    SumFrame(QuantitiesOf(events), QuantitiesOf(events + [e]), rows);
    if selected {
      SumWithout(QuantitiesOf(events + [e]), rows + {|events|}, |events|);
      assert rows + {|events|} - {|events|} == rows;
    } else {
      assert rows + {} == rows;
    }
  }

  lemma RowsOneMore(events: seq<Event>, e: Event, s: Slot)
    ensures Into(events + [e], s) == Into(events, s)
              + (if e.posted && !e.voided && e.sku == s.sku && e.to == Some(s.side) then {|events|} else {})
    ensures OutOf(events + [e], s) == OutOf(events, s)
              + (if e.posted && !e.voided && e.sku == s.sku && e.from == Some(s.side) then {|events|} else {})
  {
  }

  /** The fold over the events is the query's: what moved in less what moved out, over posted events nobody voided. */
  lemma {:induction false} DerivedIsTheQuery(events: seq<Event>, s: Slot)
    ensures Derived(events, s) == Sum(QuantitiesOf(events), Into(events, s)) - Sum(QuantitiesOf(events), OutOf(events, s))
  {
    if events == [] {
      assert Into(events, s) == {} && OutOf(events, s) == {};
    } else {
      var rest, last := events[..|events| - 1], events[|events| - 1];
      assert events == rest + [last];
      DerivedIsTheQuery(rest, s);
      RowsOneMore(rest, last, s);
      var counts := last.posted && !last.voided && last.sku == s.sku;
      SumOneMore(rest, last, Into(rest, s), counts && last.to == Some(s.side));
      SumOneMore(rest, last, OutOf(rest, s), counts && last.from == Some(s.side));
    }
  }

  predicate Complete(side: Side) {
    side.warehouse.Some? && side.location.Some?
  }

  function KeyOf(sku: Id, side: Side): LedgerKey
    requires Complete(side)
  {
    LedgerKey(sku, side.warehouse.value, side.location.value, side.state)
  }

  /** What a movement changes in a SKU's total: nothing when both sides are present. */
  function Moved(other: Id, sku: Id, from: Option<Side>, to: Option<Side>, quantity: nat): int {
    if other == sku then (if to.Some? then quantity else 0) - (if from.Some? then quantity else 0) else 0
  }

  /** A posted movement, a replay of one posted before, or a refused one. */
  datatype Outcome = Posted | Replayed | Refused

  /** Some event carries this idempotency key. */
  predicate KeyUsed(events: seq<Event>, key: Option<Id>) {
    key.Some? && exists e :: e in events && e.key == key
  }

  predicate KeysUnique(events: seq<Event>) {
    forall i, j :: 0 <= i < j < |events| && events[i].key.Some? ==> events[i].key != events[j].key
  }

  /** The books can take this movement: the source row holds enough, and no column is missing. */
  predicate CanMove(ledger: Ledger, sku: Id, from: Option<Side>, to: Option<Side>, quantity: nat) {
    && (from.Some? ==> Complete(from.value) && KeyOf(sku, from.value) in ledger && ledger[KeyOf(sku, from.value)] >= quantity)
    && (to.Some? ==> Complete(to.value))
  }

  class StockBooks {
    var events: seq<Event>
    var ledger: Ledger

    constructor ()
      ensures events == [] && ledger == map[] && Agree(ledger, events)
    {
      events, ledger := [], map[];
    }

    /**
     Post one movement and project it: take from the source row if it holds enough, then add to the destination.
     A movement whose key was posted before is a replay, and one the custody guards do not permit, or the source
     cannot cover, is refused; both leave the books as they were.
     */
    method Post(sku: Id, from: Option<Side>, to: Option<Side>, quantity: nat, key: Option<Id>, permitted: bool)
      returns (outcome: Outcome)
      requires Agree(ledger, events) && KeysUnique(events)
      modifies this
      ensures Agree(ledger, events) && KeysUnique(events)
      ensures outcome == Replayed <==> KeyUsed(old(events), key)
      ensures outcome == Posted <==>
                !KeyUsed(old(events), key) && permitted && CanMove(old(ledger), sku, from, to, quantity)
      ensures outcome == Posted ==> events == old(events) + [Event(sku, from, to, quantity, true, false, key)]
      ensures outcome != Posted ==> events == old(events) && ledger == old(ledger)
      ensures outcome == Posted ==>
                forall other :: SkuStock(ledger, other) == old(SkuStock(ledger, other)) + Moved(other, sku, from, to, quantity)
    {
      if KeyUsed(events, key) { return Replayed; }
      if !permitted { return Refused; }
      var ok := Project(sku, from, to, quantity);
      if !ok { return Refused; }
      ghost var e := Event(sku, from, to, quantity, true, false, key);
      events := events + [Event(sku, from, to, quantity, true, false, key)];
      assert events[..|events| - 1] == old(events);
      forall s: Slot ensures Derived(events, s) == LedgerAt(ledger, s) {
        assert Derived(events, s) == Derived(old(events), s) + Contribution(e, s);
        assert Derived(old(events), s) == LedgerAt(old(ledger), s);
      }
      return Posted;
    }

    /** The change of the ledger rows. */
    method Project(sku: Id, from: Option<Side>, to: Option<Side>, quantity: nat) returns (ok: bool)
      modifies `ledger
      ensures ok <==> CanMove(old(ledger), sku, from, to, quantity)
      ensures !ok ==> ledger == old(ledger)
      ensures ok ==> forall s: Slot :: LedgerAt(ledger, s) == LedgerAt(old(ledger), s)
                       + (if s.sku != sku then 0
                          else (if to == Some(s.side) then quantity else 0) - (if from == Some(s.side) then quantity else 0))
      ensures ok ==>
                forall other :: SkuStock(ledger, other) == old(SkuStock(ledger, other)) + Moved(other, sku, from, to, quantity)
    {
      var before := ledger;
      if from.Some? {
        if !Complete(from.value) { return false; }
        var k := KeyOf(sku, from.value);
        if k !in ledger || ledger[k] < quantity { return false; }
        forall other { SkuStockUpdate(ledger, k, ledger[k] - quantity, other); }
        ledger := ledger[k := ledger[k] - quantity];
      }
      if to.Some? {
        if !Complete(to.value) {
          ledger := before;
          return false;
        }
        var k := KeyOf(sku, to.value);
        var raised := (if k in ledger then ledger[k] else 0) + quantity;
        forall other { SkuStockUpdate(ledger, k, raised, other); }
        ledger := ledger[k := raised];
      }
      return true;
    }
  }

  // ---- The ledger report -----------------------------------------------------------------------------------

  predicate InPair(s: Slot, p: Pair) {
    s.sku == p.sku && s.side.warehouse == Some(p.warehouse)
  }

  function Sides(e: Event): set<Slot> {
    (if e.to.Some? then {Slot(e.sku, e.to.value)} else {}) + (if e.from.Some? then {Slot(e.sku, e.from.value)} else {})
  }

  function Touched(events: seq<Event>): set<Slot> {
    if events == [] then {} else Touched(events[..|events| - 1]) + Sides(events[|events| - 1])
  }

  lemma {:induction false} UntouchedIsZero(events: seq<Event>, s: Slot)
    requires s !in Touched(events)
    ensures Derived(events, s) == 0
  {
    if events != [] {
      var e := events[|events| - 1];
      UntouchedIsZero(events[..|events| - 1], s);
      assert s !in Sides(e);
      assert e.to == Some(s.side) && e.sku == s.sku ==> s in Sides(e);
      assert e.from == Some(s.side) && e.sku == s.sku ==> s in Sides(e);
    }
  }

  /** The places on either side of the outer join. */
  function Joined(ledger: Ledger, events: seq<Event>): set<Slot> {
    Touched(events) + set k | k in ledger :: SlotOf(k)
  }

  lemma UnjoinedIsZero(ledger: Ledger, events: seq<Event>, s: Slot)
    requires s !in Joined(ledger, events)
    ensures Derived(events, s) == LedgerAt(ledger, s) == 0
  {
    UntouchedIsZero(events, s);
    if s.side.warehouse.Some? && s.side.location.Some? {
      assert SlotOf(LedgerKey(s.sku, s.side.warehouse.value, s.side.location.value, s.side.state)) == s;
    }
  }

  /** The rows the drift query returns for one pair: the full outer join of derived groups and ledger rows. */
  function DriftRows(ledger: Ledger, events: seq<Event>, p: Pair): set<LedgerDrift> {
    set s | s in Joined(ledger, events) && InPair(s, p) && Derived(events, s) != LedgerAt(ledger, s) ::
      LedgerDrift(s, Derived(events, s), LedgerAt(ledger, s), LedgerAt(ledger, s) - Derived(events, s))
  }

  /** At every location and in every state of the pair. */
  ghost predicate PairAgrees(ledger: Ledger, events: seq<Event>, p: Pair) {
    forall s: Slot :: s.sku == p.sku && s.side.warehouse == Some(p.warehouse) ==> Derived(events, s) == LedgerAt(ledger, s)
  }

  lemma NoRowsMeansAgreement(ledger: Ledger, events: seq<Event>, p: Pair)
    ensures DriftRows(ledger, events, p) == {} <==> PairAgrees(ledger, events, p)
  {
    forall s: Slot | InPair(s, p) && DriftRows(ledger, events, p) == {}
      ensures Derived(events, s) == LedgerAt(ledger, s)
    {
      if s in Joined(ledger, events) {
        var d := LedgerDrift(s, Derived(events, s), LedgerAt(ledger, s), LedgerAt(ledger, s) - Derived(events, s));
        assert Derived(events, s) != LedgerAt(ledger, s) ==> d in DriftRows(ledger, events, p);
      } else {
        UnjoinedIsZero(ledger, events, s);
      }
    }
  }

  /** The drift of a place: it names a place of the pair, its two quantities, which differ, and the difference. */
  predicate DriftOf(ledger: Ledger, events: seq<Event>, p: Pair, d: LedgerDrift) {
    && d.slot.sku == p.sku && d.slot.side.warehouse == Some(p.warehouse)
    && d.eventDerived == Derived(events, d.slot) && d.ledger == LedgerAt(ledger, d.slot)
    && d.delta == d.ledger - d.eventDerived != 0
  }

  lemma DriftRowsExactly(ledger: Ledger, events: seq<Event>, p: Pair, d: LedgerDrift)
    ensures d in DriftRows(ledger, events, p) <==> DriftOf(ledger, events, p, d)
  {
    if d.slot !in Joined(ledger, events) {
      UnjoinedIsZero(ledger, events, d.slot);
    }
  }

  method FindLedgerDrift(ledger: Ledger, events: seq<Event>, affected: seq<Pair>) returns (drifts: seq<LedgerDrift>)
    ensures drifts == [] <==> forall p :: p in affected ==> PairAgrees(ledger, events, p)
    ensures forall d :: d in drifts <==> exists p :: p in affected && DriftOf(ledger, events, p, d)
  {
    drifts := ListDrifts(ledger, events, affected);
    forall d ensures d in drifts <==> exists p :: p in affected && DriftOf(ledger, events, p, d) {
      forall p { DriftRowsExactly(ledger, events, p, d); }
    }
  }

  /** The loop over the affected pairs. */
  method ListDrifts(ledger: Ledger, events: seq<Event>, affected: seq<Pair>) returns (drifts: seq<LedgerDrift>)
    ensures drifts == [] <==> forall p :: p in affected ==> PairAgrees(ledger, events, p)
    ensures forall d :: d in drifts <==> exists p :: p in affected && d in DriftRows(ledger, events, p)
  {
    drifts := [];
    for i := 0 to |affected|
      invariant drifts == [] <==> forall j :: 0 <= j < i ==> PairAgrees(ledger, events, affected[j])
      invariant forall d :: d in drifts <==> exists j :: 0 <= j < i && d in DriftRows(ledger, events, affected[j])
    {
      var rows := DriftRows(ledger, events, affected[i]);
      NoRowsMeansAgreement(ledger, events, affected[i]);
      var listed := ListRows(rows);
      drifts := drifts + listed;
      assert affected[i] in affected;
    }
  }

  /** The result set of a query, in some order. */
  method ListRows(rows: set<LedgerDrift>) returns (listed: seq<LedgerDrift>)
    ensures forall d :: d in listed <==> d in rows
    ensures listed == [] <==> rows == {}
  {
    listed := [];
    var left := rows;
    while left != {}
      invariant left <= rows
      invariant forall d :: d in listed <==> d in rows - left
      invariant listed == [] <==> left == rows
    {
      var d :| d in left;
      listed := listed + [d];
      left := left - {d};
    }
  }

  /** Books that agree are reported clean for whatever pairs the audit recorded. */
  lemma AgreeingBooksAreClean(ledger: Ledger, events: seq<Event>, affected: seq<Pair>)
    requires Agree(ledger, events)
    ensures forall p :: p in affected ==> DriftRows(ledger, events, p) == {}
  {
    forall p | p in affected ensures DriftRows(ledger, events, p) == {} {
      NoRowsMeansAgreement(ledger, events, p);
    }
  }

  // ---- The reservation report ------------------------------------------------------------------------------

  const ON_HAND: Id := "ON_HAND"

  datatype Reservation = Reservation(warehouse: Id, sku: Id, quantity: nat, confirmed: bool, forFulfillment: bool)

  datatype ReservationDrift = ReservationDrift(pair: Pair, onHand: int, confirmed: int, shortfall: int)

  function OnHandKeys(ledger: Ledger, p: Pair): (keys: set<LedgerKey>)
    ensures keys <= ledger.Keys
  {
    set k | k in ledger && k.warehouse == p.warehouse && k.sku == p.sku && k.state == ON_HAND
  }

  ghost function OnHand(ledger: Ledger, p: Pair): nat {
    Sum(ledger, OnHandKeys(ledger, p))
  }

  /** The reservation rows by id. */
  type Reservations = map<nat, Reservation>

  function Quantities(reservations: Reservations): map<nat, nat> {
    map id | id in reservations :: reservations[id].quantity
  }

  function ConfirmedIds(reservations: Reservations, p: Pair): (ids: set<nat>)
    ensures ids <= Quantities(reservations).Keys
  {
    set id | id in reservations && reservations[id].confirmed
             && reservations[id].warehouse == p.warehouse && reservations[id].sku == p.sku
  }

  ghost function Confirmed(reservations: Reservations, p: Pair): nat {
    Sum(Quantities(reservations), ConfirmedIds(reservations, p))
  }

  function WithoutFulfillment(reservations: Reservations): Reservations {
    map id | id in reservations && !reservations[id].forFulfillment :: reservations[id]
  }

  ghost predicate Short(ledger: Ledger, reservations: Reservations, p: Pair) {
    Confirmed(reservations, p) > OnHand(ledger, p)
  }

  lemma DeletionLowersConfirmed(reservations: Reservations, p: Pair)
    ensures Confirmed(WithoutFulfillment(reservations), p) <= Confirmed(reservations, p)
  {
    var kept := WithoutFulfillment(reservations);
    SumFrame(Quantities(kept), Quantities(reservations), ConfirmedIds(kept, p));
    SumOfFewer(Quantities(reservations), ConfirmedIds(kept, p), ConfirmedIds(reservations, p));
  }

  /** Deleting fulfilment reservations can only lift shortfalls, never create one. */
  lemma DeletionCreatesNoShortfall(ledger: Ledger, reservations: Reservations, affected: seq<Pair>)
    ensures forall p :: p in affected && Short(ledger, WithoutFulfillment(reservations), p) ==> Short(ledger, reservations, p)
  {
    forall p | p in affected && Short(ledger, WithoutFulfillment(reservations), p)
      ensures Short(ledger, reservations, p)
    {
      DeletionLowersConfirmed(reservations, p);
    }
  }

  /** A summing query over some rows of a table. */
  method QuerySum<K(==, !new)>(quantities: map<K, nat>, rows: set<K>) returns (total: nat)
    requires rows <= quantities.Keys
    ensures total == Sum(quantities, rows)
  {
    total := 0;
    var left := rows;
    while left != {}
      invariant left <= rows
      invariant total + Sum(quantities, left) == Sum(quantities, rows)
    {
      var k :| k in left;
      SumWithout(quantities, left, k);
      total := total + quantities[k];
      left := left - {k};
    }
  }

  /** The two sums of the report, over the rows as they stand. */
  ghost predicate Figures(ledger: Ledger, reservations: Reservations, p: Pair, onHand: int, confirmed: int) {
    var quantities := map id: nat | id in reservations :: reservations[id].quantity;
    var stocked := set k | k in ledger && k.warehouse == p.warehouse && k.sku == p.sku && k.state == "ON_HAND";
    var reserved := set id: nat | && id in reservations && reservations[id].confirmed
                             && reservations[id].warehouse == p.warehouse && reservations[id].sku == p.sku;
    onHand == Sum(ledger, stocked) && confirmed == Sum(quantities, reserved)
  }

  lemma FiguresAreTheSums(ledger: Ledger, reservations: Reservations, p: Pair)
    ensures Figures(ledger, reservations, p, OnHand(ledger, p), Confirmed(reservations, p))
  {
    assert Quantities(reservations) == map id: nat | id in reservations :: reservations[id].quantity;
    assert OnHandKeys(ledger, p) == set k | k in ledger && k.warehouse == p.warehouse && k.sku == p.sku && k.state == "ON_HAND";
    assert ConfirmedIds(reservations, p) == set id: nat | && id in reservations && reservations[id].confirmed
                             && reservations[id].warehouse == p.warehouse && reservations[id].sku == p.sku;
  }

  /** The reservation report: one entry per affected pair whose confirmed reservations exceed the stock on hand. */
  method FindReservationDrift(ledger: Ledger, reservations: Reservations, affected: seq<Pair>)
    returns (drifts: seq<ReservationDrift>)
    ensures drifts == [] <==> forall p :: p in affected ==> !Short(ledger, reservations, p)
    ensures forall d :: d in drifts ==>
      d.pair in affected && Short(ledger, reservations, d.pair)
      && d.onHand == OnHand(ledger, d.pair) && d.confirmed == Confirmed(reservations, d.pair)
      && d.shortfall == d.confirmed - d.onHand > 0 && Figures(ledger, reservations, d.pair, d.onHand, d.confirmed)
    ensures forall p :: p in affected && Short(ledger, reservations, p) ==> exists d :: d in drifts && d.pair == p
  {
    drifts := [];
    for i := 0 to |affected|
      invariant drifts == [] <==> forall j :: 0 <= j < i ==> !Short(ledger, reservations, affected[j])
      invariant forall d :: d in drifts ==>
        d.pair in affected && Short(ledger, reservations, d.pair)
        && d.onHand == OnHand(ledger, d.pair) && d.confirmed == Confirmed(reservations, d.pair)
        && d.shortfall == d.confirmed - d.onHand > 0 && Figures(ledger, reservations, d.pair, d.onHand, d.confirmed)
      invariant forall j :: 0 <= j < i && Short(ledger, reservations, affected[j]) ==>
        exists d :: d in drifts && d.pair == affected[j]
    {
      var p := affected[i];
      FiguresAreTheSums(ledger, reservations, p);
      var onHand := QuerySum(ledger, OnHandKeys(ledger, p));
      var confirmed := QuerySum(Quantities(reservations), ConfirmedIds(reservations, p));
      if confirmed > onHand {
        var d := ReservationDrift(p, onHand, confirmed, confirmed - onHand);
        ghost var before := drifts;
        drifts := drifts + [d];
        assert d in drifts;
        assert forall e :: e in before ==> e in drifts;
      }
    }
  }
}
