/**
 Filling the display numbers of past orders page by page, over a set of pending orders that shrinks as it is filled.

 `SalesOrders.Backfill` is the batching loop. Its contract gives the examined orders, the totals and the table, in both
 modes, when the rows come in one fixed order. `DateOrderedPaging` treats the query as it is, ordered by date alone.
 */
module DisplayNumberBackfill {
  import opened Sequences
  import opened Wrappers

  datatype Order = Order(id: string, date: int, medusa: bool, channelOrderId: string, displayNo: Option<string>)

  /** The display numbers the shop knows, by channel order. */
  type Known = map<string, string>

  predicate Pending(o: Order) {
    o.medusa && o.displayNo.None?
  }

  predicate DistinctIds(orders: seq<Order>) {
    forall i, j :: 0 <= i < j < |orders| ==> orders[i].id != orders[j].id
  }

  function PendingOf(orders: seq<Order>): seq<Order> {
    if orders == [] then []
    else if Pending(orders[0]) then [orders[0]] + PendingOf(orders[1..])
    else PendingOf(orders[1..])
  }

  function Matched(known: Known, orders: seq<Order>): (matched: seq<Order>)
    ensures |matched| <= |orders|
  {
    if orders == [] then []
    else if orders[0].channelOrderId in known then [orders[0]] + Matched(known, orders[1..])
    else Matched(known, orders[1..])
  }

  function Unmatched(known: Known, orders: seq<Order>): seq<Order> {
    if orders == [] then []
    else if orders[0].channelOrderId in known then Unmatched(known, orders[1..])
    else [orders[0]] + Unmatched(known, orders[1..])
  }

  function IdsOf(orders: seq<Order>): set<string> {
    set o | o in orders :: o.id
  }

  predicate Fills(known: Known, ids: set<string>, o: Order) {
    o.id in ids && Pending(o) && o.channelOrderId in known
  }

  function FilledOrder(known: Known, ids: set<string>, o: Order): Order {
    if Fills(known, ids, o) then o.(displayNo := Some(known[o.channelOrderId])) else o
  }

  /** The table after the update of the orders with these ids. */
  function Filled(known: Known, ids: set<string>, orders: seq<Order>): (filled: seq<Order>)
    ensures |filled| == |orders|
  {
    if orders == [] then [] else [FilledOrder(known, ids, orders[0])] + Filled(known, ids, orders[1..])
  }

  // ---- What the loop relies on -----------------------------------------------------------------------------

  lemma {:induction false} Partition(known: Known, orders: seq<Order>)
    ensures |Matched(known, orders)| + |Unmatched(known, orders)| == |orders|
  {
    if orders != [] {
      Partition(known, orders[1..]);
    }
  }

  lemma {:induction false} UnmatchedOfBoth(known: Known, left: seq<Order>, right: seq<Order>)
    ensures Unmatched(known, left + right) == Unmatched(known, left) + Unmatched(known, right)
    ensures Matched(known, left + right) == Matched(known, left) + Matched(known, right)
  {
    if left == [] {
      assert left + right == right;
    } else {
      UnmatchedOfBoth(known, left[1..], right);
      assert (left + right)[1..] == left[1..] + right;
      Regroup([left[0]], Unmatched(known, left[1..]), Unmatched(known, right));
      Regroup([left[0]], Matched(known, left[1..]), Matched(known, right));
    }
  }

  lemma {:induction false} PendingMembers(orders: seq<Order>)
    requires DistinctIds(orders)
    ensures DistinctIds(PendingOf(orders))
    ensures forall o :: o in PendingOf(orders) <==> o in orders && Pending(o)
  {
    if orders != [] {
      PendingMembers(orders[1..]);
      var rest := PendingOf(orders[1..]);
      forall i | 0 <= i < |rest| ensures rest[i].id != orders[0].id {
        assert rest[i] in orders[1..];
      }
    }
  }

  /** The orders still pending after the update: those without a number, and those not among the ids. */
  function StillPending(known: Known, ids: set<string>, orders: seq<Order>): seq<Order> {
    if orders == [] then []
    else if orders[0].id in ids && orders[0].channelOrderId in known then StillPending(known, ids, orders[1..])
    else [orders[0]] + StillPending(known, ids, orders[1..])
  }

  lemma {:induction false} PendingAfterFill(known: Known, ids: set<string>, orders: seq<Order>)
    ensures PendingOf(Filled(known, ids, orders)) == StillPending(known, ids, PendingOf(orders))
  {
    if orders != [] {
      PendingAfterFill(known, ids, orders[1..]);
      assert Filled(known, ids, orders)[1..] == Filled(known, ids, orders[1..]);
      var head, rest := orders[0], PendingOf(orders[1..]);
      if Pending(head) {
        assert ([head] + rest)[1..] == rest;
      } else {
        assert PendingOf(orders) == rest;
      }
    }
  }

  lemma {:induction false} NoneOfTheIds(known: Known, ids: set<string>, orders: seq<Order>)
    requires forall o :: o in orders ==> o.id !in ids
    ensures StillPending(known, ids, orders) == orders
  {
    if orders != [] {
      NoneOfTheIds(known, ids, orders[1..]);
    }
  }

  lemma {:induction false} AllOfTheIds(known: Known, ids: set<string>, examined: seq<Order>, rest: seq<Order>)
    requires forall o :: o in examined ==> o.id in ids
    requires forall o :: o in rest ==> o.id !in ids
    ensures StillPending(known, ids, examined + rest) == Unmatched(known, examined) + rest
  {
    if examined == [] {
      assert examined + rest == rest;
      NoneOfTheIds(known, ids, rest);
    } else {
      assert (examined + rest)[1..] == examined[1..] + rest;
      AllOfTheIds(known, ids, examined[1..], rest);
      Regroup([examined[0]], Unmatched(known, examined[1..]), rest);
    }
  }

  /** Once the first `k` pending orders are filled where possible, their unmatched ones stay in front of the rest. */
  lemma ExaminedStayInFront(known: Known, orders: seq<Order>, k: nat)
    requires DistinctIds(orders) && k <= |PendingOf(orders)|
    ensures PendingOf(Filled(known, IdsOf(PendingOf(orders)[..k]), orders))
            == Unmatched(known, PendingOf(orders)[..k]) + PendingOf(orders)[k..]
  {
    var pending := PendingOf(orders);
    var ids := IdsOf(pending[..k]);
    PendingMembers(orders);
    PendingAfterFill(known, ids, orders);
    forall o | o in pending[k..] ensures o.id !in ids {
      var j :| 0 <= j < |pending[k..]| && pending[k..][j] == o;
      assert pending[k + j] == o;
    }
    AllOfTheIds(known, ids, pending[..k], pending[k..]);
    assert pending == pending[..k] + pending[k..];
  }

  lemma {:induction false} FilledAt(known: Known, ids: set<string>, orders: seq<Order>, i: nat)
    requires i < |orders|
    ensures Filled(known, ids, orders)[i] == FilledOrder(known, ids, orders[i])
  {
    if 0 < i {
      FilledAt(known, ids, orders[1..], i - 1);
    }
  }

  lemma {:induction false} FillTwice(known: Known, ids: set<string>, more: set<string>, orders: seq<Order>)
    ensures Filled(known, more, Filled(known, ids, orders)) == Filled(known, ids + more, orders)
  {
    if orders != [] {
      FillTwice(known, ids, more, orders[1..]);
      assert Filled(known, ids, orders)[1..] == Filled(known, ids, orders[1..]);
    }
  }

  lemma {:induction false} SameFill(known: Known, ids: set<string>, others: set<string>, orders: seq<Order>)
    requires forall o :: o in orders ==> (Fills(known, ids, o) <==> Fills(known, others, o))
    ensures Filled(known, ids, orders) == Filled(known, others, orders)
  {
    if orders != [] {
      SameFill(known, ids, others, orders[1..]);
    }
  }

  lemma {:induction false} NothingToFill(known: Known, ids: set<string>, orders: seq<Order>)
    requires forall o :: o in orders ==> !Fills(known, ids, o)
    ensures Filled(known, ids, orders) == orders
  {
    if orders != [] {
      NothingToFill(known, ids, orders[1..]);
    }
  }

  lemma FillKeepsIds(known: Known, ids: set<string>, orders: seq<Order>)
    requires DistinctIds(orders)
    ensures DistinctIds(Filled(known, ids, orders))
  {
    forall i | 0 <= i < |orders| ensures Filled(known, ids, orders)[i].id == orders[i].id {
      FilledAt(known, ids, orders, i);
    }
  }

  lemma IdsOfBoth(left: seq<Order>, right: seq<Order>)
    ensures IdsOf(left + right) == IdsOf(left) + IdsOf(right)
  {
  }

  /** Of a page, only the orders with a number change. */
  lemma OnlyMatchedFill(known: Known, page: seq<Order>, orders: seq<Order>)
    requires DistinctIds(orders) && forall o :: o in page ==> o in orders
    ensures Filled(known, IdsOf(Matched(known, page)), orders) == Filled(known, IdsOf(page), orders)
  {
    MatchedMembers(known, page);
    forall o | o in orders ensures Fills(known, IdsOf(Matched(known, page)), o) <==> Fills(known, IdsOf(page), o) {
      if Fills(known, IdsOf(page), o) {
        var other :| other in page && other.id == o.id;
        SameIdSameOrder(orders, o, other);
        assert other in Matched(known, page);
      }
    }
    SameFill(known, IdsOf(Matched(known, page)), IdsOf(page), orders);
  }

  lemma SameIdSameOrder(orders: seq<Order>, o: Order, other: Order)
    requires DistinctIds(orders) && o in orders && other in orders && o.id == other.id
    ensures o == other
  {
    var i :| 0 <= i < |orders| && orders[i] == o;
    var j :| 0 <= j < |orders| && orders[j] == other;
    assert i < j || j < i || i == j;
  }

  lemma {:induction false} MatchedMembers(known: Known, orders: seq<Order>)
    ensures forall o :: o in Matched(known, orders) <==> o in orders && o.channelOrderId in known
  {
    if orders != [] {
      MatchedMembers(known, orders[1..]);
    }
  }

  // ---- The loop --------------------------------------------------------------------------------------------

  /** Where the loop stands after examining the first `k` pending orders of `orders`. */
  ghost predicate Examined(known: Known, apply: bool, orders: seq<Order>, k: nat, now: seq<Order>, offset: nat, filled: nat,
                           unmatched: nat)
  {
    && k <= |PendingOf(orders)|
    && now == (if apply then Filled(known, IdsOf(PendingOf(orders)[..k]), orders) else orders)
    && offset == (if apply then |Unmatched(known, PendingOf(orders)[..k])| else k)
    && filled == |Matched(known, PendingOf(orders)[..k])| && unmatched == |Unmatched(known, PendingOf(orders)[..k])|
  }

  lemma NextPage(known: Known, apply: bool, orders: seq<Order>, k: nat, now: seq<Order>, offset: nat, filled: nat,
                 unmatched: nat)
    requires DistinctIds(orders) && Examined(known, apply, orders, k, now, offset, filled, unmatched)
    ensures offset <= |PendingOf(now)| && PendingOf(now)[offset..] == PendingOf(orders)[k..] && DistinctIds(now)
  {
    ExaminedStayInFront(known, orders, k);
    FillKeepsIds(known, IdsOf(PendingOf(orders)[..k]), orders);
    var left := Unmatched(known, PendingOf(orders)[..k]);
    assert (left + PendingOf(orders)[k..])[|left|..] == PendingOf(orders)[k..];
  }

  lemma AfterPage(known: Known, apply: bool, orders: seq<Order>, k: nat, now: seq<Order>, offset: nat, filled: nat,
                  unmatched: nat, page: seq<Order>, after: seq<Order>)
    requires Examined(known, apply, orders, k, now, offset, filled, unmatched)
    requires k + |page| <= |PendingOf(orders)| && page == PendingOf(orders)[k..k + |page|]
    requires after == if apply then Filled(known, IdsOf(page), now) else now
    ensures |Matched(known, page)| <= |page|
    ensures Examined(known, apply, orders, k + |page|, after,
                     offset + (if apply then |page| - |Matched(known, page)| else |page|),
                     filled + |Matched(known, page)|, unmatched + (|page| - |Matched(known, page)|))
  {
    var before := PendingOf(orders)[..k];
    assert PendingOf(orders)[..k + |page|] == before + page;
    UnmatchedOfBoth(known, before, page);
    Partition(known, page);
    IdsOfBoth(before, page);
    FillTwice(known, IdsOf(before), IdsOf(page), orders);
  }

  /** LIMIT and OFFSET. */
  function Page(orders: seq<Order>, offset: nat, limit: nat): seq<Order> {
    if |orders| <= offset then []
    else if limit < |orders| - offset then orders[offset..offset + limit] else orders[offset..]
  }

  /** The next page holds the next pending orders, and a short one the last. */
  lemma NextPageIsNext(known: Known, apply: bool, orders: seq<Order>, k: nat, now: seq<Order>, offset: nat, filled: nat,
                       unmatched: nat, batch: nat)
    requires DistinctIds(orders) && Examined(known, apply, orders, k, now, offset, filled, unmatched) && 0 < batch
    ensures var page := Page(PendingOf(now), offset, batch);
            && k + |page| <= |PendingOf(orders)| && page == PendingOf(orders)[k..k + |page|]
            && (|page| < batch ==> k + |page| == |PendingOf(orders)|)
  {
    NextPage(known, apply, orders, k, now, offset, filled, unmatched);
    var page, rest := Page(PendingOf(now), offset, batch), PendingOf(orders)[k..];
    assert page == rest[..|page|];
    assert rest[..|page|] == PendingOf(orders)[k..k + |page|];
  }

  /** Filling the matched orders of a page is filling the page. */
  lemma PageFill(known: Known, now: seq<Order>, offset: nat, batch: nat)
    requires DistinctIds(now) && offset <= |PendingOf(now)|
    ensures var page := Page(PendingOf(now), offset, batch);
            Filled(known, IdsOf(Matched(known, page)), now) == Filled(known, IdsOf(page), now)
  {
    var page := Page(PendingOf(now), offset, batch);
    PagedOrdersAreThere(now, offset, page);
    OnlyMatchedFill(known, page, now);
  }

  lemma PageIsDone(known: Known, apply: bool, orders: seq<Order>, k: nat, now: seq<Order>, offset: nat, filled: nat,
                   unmatched: nat, batch: nat, page: seq<Order>, after: seq<Order>)
    requires DistinctIds(orders) && Examined(known, apply, orders, k, now, offset, filled, unmatched) && 0 < batch
    requires page == Page(PendingOf(now), offset, batch)
    requires after == if apply then Filled(known, IdsOf(Matched(known, page)), now) else now
    ensures |Matched(known, page)| <= |page|
    ensures Examined(known, apply, orders, k + |page|, after,
                     offset + (if apply then |page| - |Matched(known, page)| else |page|),
                     filled + |Matched(known, page)|, unmatched + (|page| - |Matched(known, page)|))
  {
    NextPage(known, apply, orders, k, now, offset, filled, unmatched);
    PageFill(known, now, offset, batch);
    NextPageIsNext(known, apply, orders, k, now, offset, filled, unmatched, batch);
    AfterPage(known, apply, orders, k, now, offset, filled, unmatched, page, after);
  }

  lemma NothingExamined(known: Known, apply: bool, orders: seq<Order>)
    ensures Examined(known, apply, orders, 0, orders, 0, 0, 0)
  {
    NothingToFill(known, {}, orders);
    assert PendingOf(orders)[..0] == [] && IdsOf([]) == {};
  }

  /** The fate of one order when the pending ones are filled where possible. */
  lemma FilledExactly(known: Known, orders: seq<Order>, i: nat)
    requires DistinctIds(orders) && i < |orders|
    ensures |Filled(known, IdsOf(PendingOf(orders)), orders)| == |orders|
    ensures Filled(known, IdsOf(PendingOf(orders)), orders)[i]
            == if orders[i].medusa && orders[i].displayNo == None && orders[i].channelOrderId in known
               then orders[i].(displayNo := Some(known[orders[i].channelOrderId])) else orders[i]
  {
    FilledAt(known, IdsOf(PendingOf(orders)), orders, i);
    PendingMembers(orders);
    assert orders[i] in orders;
  }

  lemma AllExamined(known: Known, apply: bool, orders: seq<Order>, now: seq<Order>, offset: nat, filled: nat, unmatched: nat)
    requires Examined(known, apply, orders, |PendingOf(orders)|, now, offset, filled, unmatched)
    ensures filled == |Matched(known, PendingOf(orders))| && unmatched == |Unmatched(known, PendingOf(orders))|
    ensures filled + unmatched == |PendingOf(orders)|
    ensures now == if apply then Filled(known, IdsOf(PendingOf(orders)), orders) else orders
  {
    assert PendingOf(orders)[..|PendingOf(orders)|] == PendingOf(orders);
    Partition(known, PendingOf(orders));
  }

  class SalesOrders {
    /** The orders, in the fixed row order the page queries follow. */
    var orders: seq<Order>

    constructor (orders: seq<Order>)
      ensures this.orders == orders
    {
      this.orders := orders;
    }

    /** The update of a page; a dry run only counts. */
    method Update(known: Known, page: seq<Order>, apply: bool) returns (updates: nat)
      modifies this
      ensures orders == if apply then Filled(known, IdsOf(Matched(known, page)), old(orders)) else old(orders)
      ensures updates == |Matched(known, page)|
    {
      var matched := Matched(known, page);
      if apply && matched != [] {
        orders := Filled(known, IdsOf(matched), orders);
      } else if apply {
        NothingToFill(known, IdsOf(matched), orders);
      }
      updates := |matched|;
    }

    /** One page: query, match, update, and move the offset past the orders that stay pending. */
    method BackfillPage(known: Known, apply: bool, batch: nat, offset: nat, matched: nat, missed: nat,
                        ghost initial: seq<Order>, ghost k: nat)
      returns (page: seq<Order>, done: nat, filled: nat, unmatched: nat)
      requires 0 < batch && DistinctIds(initial) && Examined(known, apply, initial, k, orders, offset, matched, missed)
      modifies this
      ensures k + |page| <= |PendingOf(initial)| && page == PendingOf(initial)[k..k + |page|]
      ensures |page| < batch ==> k + |page| == |PendingOf(initial)|
      ensures Examined(known, apply, initial, k + |page|, orders, done, filled, unmatched)
    {
      page := Page(PendingOf(orders), offset, batch);
      NextPageIsNext(known, apply, initial, k, orders, offset, matched, missed, batch);
      ghost var before := orders;
      var updates := Update(known, page, apply);
      PageIsDone(known, apply, initial, k, before, offset, matched, missed, batch, page, orders);
      unmatched := missed + (|page| - updates);
      filled := matched + updates;
      done := offset + (if apply then |page| - updates else |page|);
    }

    /**
     The orders examined are the pending ones, each once and in order; the totals are the same in both modes; applying
     fills exactly the pending orders with a known number, and a dry run changes nothing.
     */
    method Backfill(known: Known, apply: bool, batch: nat) returns (filled: nat, unmatched: nat, examined: seq<Order>)
      requires 0 < batch && DistinctIds(orders)
      modifies this
      ensures examined == PendingOf(old(orders))
      ensures filled == |Matched(known, PendingOf(old(orders)))|
      ensures unmatched == |Unmatched(known, PendingOf(old(orders)))|
      ensures filled + unmatched == |PendingOf(old(orders))|
      ensures orders == if apply then Filled(known, IdsOf(PendingOf(old(orders))), old(orders)) else old(orders)
      ensures |orders| == |old(orders)| && forall i :: 0 <= i < |orders| ==>
                var o := old(orders)[i];
                orders[i] == if apply && o.medusa && o.displayNo == None && o.channelOrderId in known
                             then o.(displayNo := Some(known[o.channelOrderId])) else o
    {
      forall i | 0 <= i < |orders| { FilledExactly(known, orders, i); }
      var done: nat := 0;
      filled, unmatched, examined := 0, 0, [];
      ghost var initial := orders;
      NothingExamined(known, apply, orders);
      while true
        invariant Examined(known, apply, initial, |examined|, orders, done, filled, unmatched)
        invariant examined <= PendingOf(initial)
        decreases |PendingOf(initial)| - |examined|
      {
        var page: seq<Order>;
        page, done, filled, unmatched := BackfillPage(known, apply, batch, done, filled, unmatched, initial, |examined|);
        LongerPrefix(PendingOf(initial), examined, page);
        assert |examined + page| == |examined| + |page|;
        examined := examined + page;
        if |page| < batch {
          break;
        }
      }
      AllExamined(known, apply, initial, orders, done, filled, unmatched);
    }
  }

  lemma PagedOrdersAreThere(orders: seq<Order>, offset: nat, page: seq<Order>)
    requires DistinctIds(orders) && offset <= |PendingOf(orders)| && page <= PendingOf(orders)[offset..]
    ensures forall o :: o in page ==> o in orders
  {
    PendingMembers(orders);
    forall o | o in page ensures o in orders {
      var i :| 0 <= i < |page| && page[i] == o;
      assert PendingOf(orders)[offset + i] == o;
    }
  }

  /** A second applying run finds nothing it could fill. */
  lemma SecondRunIsIdle(known: Known, orders: seq<Order>)
    requires DistinctIds(orders)
    ensures var after := Filled(known, IdsOf(PendingOf(orders)), orders);
            PendingOf(after) == Unmatched(known, PendingOf(orders)) && Matched(known, PendingOf(after)) == []
            && Filled(known, IdsOf(PendingOf(after)), after) == after
  {
    var pending := PendingOf(orders);
    var after := Filled(known, IdsOf(pending), orders);
    ExaminedStayInFront(known, orders, |pending|);
    assert pending[..|pending|] == pending;
    NoneLeft(known, pending);
    FillKeepsIds(known, IdsOf(pending), orders);
    assert PendingOf(after) == Unmatched(known, pending) + pending[|pending|..] == Unmatched(known, pending);
    NothingFits(known, after);
  }

  lemma NothingFits(known: Known, orders: seq<Order>)
    requires DistinctIds(orders) && Matched(known, PendingOf(orders)) == []
    ensures Filled(known, IdsOf(PendingOf(orders)), orders) == orders
  {
    PendingMembers(orders);
    MatchedMembers(known, PendingOf(orders));
    NothingToFill(known, IdsOf(PendingOf(orders)), orders);
  }

  lemma {:induction false} NoneLeft(known: Known, orders: seq<Order>)
    ensures Matched(known, Unmatched(known, orders)) == []
  {
    if orders != [] {
      var rest := Unmatched(known, orders[1..]);
      NoneLeft(known, orders[1..]);
      assert ([orders[0]] + rest)[1..] == rest;
    }
  }
}
