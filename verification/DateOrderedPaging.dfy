/**
 The batching loop of `DisplayNumberBackfill` when its page query is ordered by date alone: each query may list orders
 of one date in any order, and may list them differently each time.

 `BackfillByDate` is the loop; `Run` is what it may do. `EveryRunExaminesOnceExactly` says for which pending orders every
 run examines each of them once: no orders of one date may lie on both sides of a page end unless all orders of that date
 leave the pending set when they are examined.
 */
module DateOrderedPaging {
  import opened Sequences
  import opened DisplayNumberBackfill

  predicate Sorted(orders: seq<Order>) {
    forall i, j :: 0 <= i < j < |orders| ==> orders[i].date <= orders[j].date
  }

  /** What a query ordered by date may return before its offset and limit. */
  predicate Listing(pending: multiset<Order>, listing: seq<Order>) {
    multiset(listing) == pending && Sorted(listing)
  }

  /** An examined order that a later query still lists: any in a dry run, one without a known number otherwise. */
  predicate Stays(known: Known, apply: bool, o: Order) {
    !apply || o.channelOrderId !in known
  }

  function Staying(known: Known, apply: bool, orders: seq<Order>): seq<Order> {
    if orders == [] then []
    else if Stays(known, apply, orders[0]) then [orders[0]] + Staying(known, apply, orders[1..])
    else Staying(known, apply, orders[1..])
  }

  function Leaving(known: Known, apply: bool, orders: seq<Order>): seq<Order> {
    if orders == [] then []
    else if Stays(known, apply, orders[0]) then Leaving(known, apply, orders[1..])
    else [orders[0]] + Leaving(known, apply, orders[1..])
  }

  /** The pending orders once those of `examined` that can be filled are filled. */
  function PendingAfter(known: Known, apply: bool, pending: multiset<Order>, examined: seq<Order>): multiset<Order> {
    pending - multiset(Leaving(known, apply, examined))
  }

  /** One turn of the loop after the orders of `examined`: some listing, cut by offset and limit. */
  ghost predicate Turn(known: Known, apply: bool, batch: nat, pending: multiset<Order>, examined: seq<Order>,
                       page: seq<Order>)
  {
    exists listing :: && Listing(PendingAfter(known, apply, pending, examined), listing)
                      && page == Page(listing, |Staying(known, apply, examined)|, batch)
  }

  /** The pages of a run of the loop from where the orders of `examined` were examined to its end. */
  ghost predicate Run(known: Known, apply: bool, batch: nat, pending: multiset<Order>, examined: seq<Order>,
                      pages: seq<seq<Order>>)
    decreases |pages|
  {
    && pages != []
    && Turn(known, apply, batch, pending, examined, pages[0])
    && if |pages[0]| < batch then |pages| == 1
       else Run(known, apply, batch, pending, examined + pages[0], pages[1..])
  }

  function Concat(pages: seq<seq<Order>>): seq<Order> {
    if pages == [] then [] else pages[0] + Concat(pages[1..])
  }

  /** Whether a page ends at this place: the multiples of the batch size. */
  predicate PageEnd(k: nat, batch: nat)
    requires 0 < batch
  {
    if k < batch then k == 0 else PageEnd(k - batch, batch)
  }

  lemma {:induction false} PageEndIsMultiple(k: nat, batch: nat) returns (n: nat)
    requires 0 < batch && PageEnd(k, batch)
    ensures k == n * batch
    decreases k
  {
    if k == 0 {
      n := 0;
    } else {
      var m := PageEndIsMultiple(k - batch, batch);
      n := m + 1;
    }
  }

  lemma {:induction false} MultipleIsPageEnd(n: nat, batch: nat)
    requires 0 < batch
    ensures 0 <= n * batch && PageEnd(n * batch, batch)
  {
    if n != 0 {
      MultipleIsPageEnd(n - 1, batch);
      assert n * batch == (n - 1) * batch + batch;
    }
  }

  /** Page ends inside orders of one date are harmless if all orders of that date leave when they are examined. */
  ghost predicate TiesAreHarmless(known: Known, apply: bool, batch: nat, orders: seq<Order>)
    requires 0 < batch
  {
    forall k: nat, i: nat ::
      (0 < k < |orders| && PageEnd(k, batch) && orders[k - 1].date == orders[k].date
       && i < |orders| && orders[i].date == orders[k].date)
      ==> !Stays(known, apply, orders[i])
  }

  // ---- Multisets and listings ------------------------------------------------------------------------------

  lemma MultisetOfHead<T>(head: T, rest: seq<T>)
    ensures multiset([head] + rest) == multiset{head} + multiset(rest)
  {
  }

  lemma {:induction false} StayingAndLeaving(known: Known, apply: bool, orders: seq<Order>)
    ensures multiset(Staying(known, apply, orders)) + multiset(Leaving(known, apply, orders)) == multiset(orders)
    ensures |Staying(known, apply, orders)| + |Leaving(known, apply, orders)| == |orders|
  {
    if orders != [] {
      var head, rest := orders[0], orders[1..];
      StayingAndLeaving(known, apply, rest);
      assert orders == [head] + rest;
      MultisetOfHead(head, rest);
      if Stays(known, apply, head) {
        MultisetOfHead(head, Staying(known, apply, rest));
      } else {
        MultisetOfHead(head, Leaving(known, apply, rest));
      }
    }
  }

  lemma {:induction false} StayingMembers(known: Known, apply: bool, orders: seq<Order>)
    ensures forall o :: o in Staying(known, apply, orders) <==> o in orders && Stays(known, apply, o)
  {
    if orders != [] {
      StayingMembers(known, apply, orders[1..]);
    }
  }

  lemma {:induction false} StayingOfBoth(known: Known, apply: bool, left: seq<Order>, right: seq<Order>)
    ensures Staying(known, apply, left + right) == Staying(known, apply, left) + Staying(known, apply, right)
    ensures Leaving(known, apply, left + right) == Leaving(known, apply, left) + Leaving(known, apply, right)
  {
    if left == [] {
      assert left + right == right;
    } else {
      StayingOfBoth(known, apply, left[1..], right);
      assert (left + right)[0] == left[0] && (left + right)[1..] == left[1..] + right;
      Regroup([left[0]], Staying(known, apply, left[1..]), Staying(known, apply, right));
      Regroup([left[0]], Leaving(known, apply, left[1..]), Leaving(known, apply, right));
    }
  }

  lemma {:induction false} StayingIsSorted(known: Known, apply: bool, orders: seq<Order>)
    requires Sorted(orders)
    ensures Sorted(Staying(known, apply, orders))
  {
    if orders != [] {
      StayingIsSorted(known, apply, orders[1..]);
      var rest := Staying(known, apply, orders[1..]);
      forall i | 0 <= i < |rest| ensures orders[0].date <= rest[i].date {
        StayingMembers(known, apply, orders[1..]);
        assert rest[i] in orders[1..];
      }
    }
  }

  lemma SameMembers(a: seq<Order>, b: seq<Order>, o: Order)
    requires multiset(a) == multiset(b)
    ensures o in a <==> o in b
  {
    assert o in a <==> o in multiset(a);
  }

  /** Some order of another listing of the same orders is the last one, and has the date of the last one there. */
  lemma LastIsThere(a: seq<Order>, b: seq<Order>) returns (i: nat)
    requires Sorted(a) && Sorted(b) && multiset(a) == multiset(b) && a != [] && |a| == |b|
    ensures i < |b| && b[i] == a[|a| - 1] && b[i].date == b[|b| - 1].date
  {
    var n := |a| - 1;
    SameMembers(a, b, a[n]);
    SameMembers(a, b, b[n]);
    i :| 0 <= i <= n && b[i] == a[n];
    var j :| 0 <= j <= n && a[j] == b[n];
    assert b[i].date <= b[n].date && a[j].date <= a[n].date;
  }

  /** The orders but the last, after the i-th took the place of the last. */
  function WithoutOne(orders: seq<Order>, i: nat): (rest: seq<Order>)
    requires i < |orders|
    ensures |rest| == |orders| - 1
    ensures multiset(rest) == multiset(orders) - multiset{orders[i]}
  {
    var n := |orders| - 1;
    var swapped := orders[i := orders[n]][n := orders[i]];
    assert multiset(swapped) == multiset(orders);
    MultisetOfInit(swapped);
    swapped[..n]
  }

  lemma DatesStay(orders: seq<Order>, i: nat)
    requires Sorted(orders) && i < |orders| && orders[i].date == orders[|orders| - 1].date
    ensures forall k :: 0 <= k < |orders| - 1 ==> WithoutOne(orders, i)[k].date == orders[k].date
    ensures Sorted(WithoutOne(orders, i))
  {
  }

  /** Two listings of the same orders have the same dates, place by place. */
  lemma {:induction false} DatesAgree(a: seq<Order>, b: seq<Order>)
    requires Sorted(a) && Sorted(b) && multiset(a) == multiset(b)
    ensures |a| == |b| && forall i :: 0 <= i < |a| ==> a[i].date == b[i].date
    decreases |a|
  {
    assert |a| == |multiset(a)| == |multiset(b)| == |b|;
    if a != [] {
      var n := |a| - 1;
      var i := LastIsThere(a, b);
      DatesStay(b, i);
      MultisetOfInit(a);
      DatesAgree(a[..n], WithoutOne(b, i));
      assert forall k :: 0 <= k < n ==> a[..n][k].date == a[k].date;
    }
  }

  lemma StraightIsSorted(early: seq<Order>, late: seq<Order>)
    requires Sorted(early) && Sorted(late)
    requires forall x, y :: x in early && y in late ==> x.date <= y.date
    ensures Sorted(early + late)
  {
    var straight := early + late;
    forall i, j | 0 <= i < j < |straight| ensures straight[i].date <= straight[j].date {
      if i < |early| && |early| <= j { assert straight[i] in early && straight[j] in late; }
    }
  }

  /** The place of an order in a listing of earlier and later orders. */
  lemma PlaceTells(early: seq<Order>, late: seq<Order>, listing: seq<Order>, i: nat)
    requires Sorted(early) && Sorted(late) && Listing(multiset(early) + multiset(late), listing)
    requires forall x, y :: x in early && y in late ==> x.date < y.date
    requires i < |listing|
    ensures |listing| == |early| + |late|
    ensures if i < |early| then listing[i] in early && listing[i] !in late else listing[i] in late && listing[i] !in early
  {
    var straight := early + late;
    StraightIsSorted(early, late);
    assert multiset(straight) == multiset(listing);
    DatesAgree(listing, straight);
    assert listing[i] in multiset(straight);
    assert listing[i] in early || listing[i] in late;
    assert straight[i].date == listing[i].date;
    assert if i < |early| then straight[i] in early else straight[i] in late;
  }

  /** A listing of earlier and later orders lists the earlier ones first. */
  lemma EarlierFirst(early: seq<Order>, late: seq<Order>, listing: seq<Order>)
    requires Sorted(early) && Sorted(late) && Listing(multiset(early) + multiset(late), listing)
    requires forall x, y :: x in early && y in late ==> x.date < y.date
    ensures |listing| == |early| + |late|
    ensures multiset(listing[..|early|]) == multiset(early) && multiset(listing[|early|..]) == multiset(late)
  {
    assert |listing| == |multiset(listing)| == |early| + |late|;
    var n := |early|;
    var front, back := listing[..n], listing[n..];
    assert listing == front + back;
    forall i | 0 <= i < |listing| {
      PlaceTells(early, late, listing, i);
    }
    forall o ensures multiset(front)[o] == multiset(early)[o] && multiset(back)[o] == multiset(late)[o] {
      SplitCounts(early, late, front, back, o);
    }
  }

  lemma SplitCounts(early: seq<Order>, late: seq<Order>, front: seq<Order>, back: seq<Order>, o: Order)
    requires multiset(front) + multiset(back) == multiset(early) + multiset(late)
    requires forall i :: 0 <= i < |front| ==> front[i] in early && front[i] !in late
    requires forall i :: 0 <= i < |back| ==> back[i] in late && back[i] !in early
    ensures multiset(front)[o] == multiset(early)[o] && multiset(back)[o] == multiset(late)[o]
  {
    assert (multiset(front) + multiset(back))[o] == (multiset(early) + multiset(late))[o];
    assert o in multiset(front) ==> o in front;
    assert o in multiset(back) ==> o in back;
    assert o in multiset(early) <==> o in early;
    assert o in multiset(late) <==> o in late;
  }

  lemma LastStaysLast(front: seq<Order>, last: Order, init: seq<Order>, o: Order)
    requires Sorted(front) && multiset(front) == multiset(init + [o])
    requires o.date <= last.date && forall x :: x in init ==> x.date <= last.date
    ensures Sorted(front + [last])
    ensures multiset(front + [last]) == multiset(init + [last]) + multiset{o}
  {
    forall x | x in front ensures x.date <= last.date {
      SameMembers(front, init + [o], x);
    }
  }

  /** A later order goes behind all that are not later. */
  lemma {:induction false} InsertByDate(o: Order, orders: seq<Order>) returns (r: seq<Order>)
    requires Sorted(orders)
    ensures Sorted(r) && multiset(r) == multiset(orders) + multiset{o}
    decreases |orders|
  {
    if orders == [] || orders[|orders| - 1].date <= o.date {
      r := orders + [o];
    } else {
      var n := |orders| - 1;
      var front := InsertByDate(o, orders[..n]);
      LastStaysLast(front, orders[n], orders[..n], o);
      r := front + [orders[n]];
      assert orders == orders[..n] + [orders[n]];
    }
  }

  lemma {:induction false} SomeListing(pending: multiset<Order>) returns (listing: seq<Order>)
    ensures Listing(pending, listing)
    decreases |pending|
  {
    if pending == multiset{} {
      listing := [];
    } else {
      var o :| o in pending;
      var rest := SomeListing(pending - multiset{o});
      listing := InsertByDate(o, rest);
      assert pending - multiset{o} + multiset{o} == pending;
    }
  }

  // ---- Runs, page by page ----------------------------------------------------------------------------------

  lemma RunOfFullPage(known: Known, apply: bool, batch: nat, pending: multiset<Order>, examined: seq<Order>,
                      page: seq<Order>, rest: seq<seq<Order>>)
    requires Turn(known, apply, batch, pending, examined, page) && |page| == batch
    requires Run(known, apply, batch, pending, examined + page, rest)
    ensures Run(known, apply, batch, pending, examined, [page] + rest)
    ensures Concat([page] + rest) == page + Concat(rest)
  {
    assert ([page] + rest)[1..] == rest;
  }

  lemma RunOfShortPage(known: Known, apply: bool, batch: nat, pending: multiset<Order>, examined: seq<Order>,
                       page: seq<Order>)
    requires Turn(known, apply, batch, pending, examined, page) && |page| < batch
    ensures Run(known, apply, batch, pending, examined, [page])
    ensures Concat([page]) == page
  {
    assert Concat([]) == [];
  }

  /** The first page of a run and the rest. */
  lemma RunTaken(known: Known, apply: bool, batch: nat, pending: multiset<Order>, examined: seq<Order>,
                 pages: seq<seq<Order>>)
      returns (page: seq<Order>, rest: seq<seq<Order>>)
    requires Run(known, apply, batch, pending, examined, pages)
    ensures Turn(known, apply, batch, pending, examined, page)
    ensures if |page| < batch then Concat(pages) == page
            else |rest| < |pages| && Run(known, apply, batch, pending, examined + page, rest)
                 && Concat(pages) == page + Concat(rest)
  {
    page, rest := pages[0], pages[1..];
    assert |page| < batch ==> rest == [] && page + Concat(rest) == page;
  }

  // ---- How far a run gets ----------------------------------------------------------------------------------

  predicate Fits(known: Known, apply: bool, pending: multiset<Order>, examined: seq<Order>) {
    multiset(Leaving(known, apply, examined)) <= pending && |examined| <= |pending|
  }

  lemma PageIsPart(listing: seq<Order>, offset: nat, batch: nat)
    ensures multiset(Page(listing, offset, batch)) <= multiset(listing)
    ensures offset <= |listing| ==>
      |Page(listing, offset, batch)| == if batch < |listing| - offset then batch else |listing| - offset
  {
    var page := Page(listing, offset, batch);
    if offset < |listing| {
      assert page == listing[offset..offset + |page|];
      assert listing == listing[..offset] + page + listing[offset + |page|..];
    }
  }

  /** A turn examines a full page, or as many orders as the examined ones leave of the pending. */
  lemma PageSize(known: Known, apply: bool, batch: nat, pending: multiset<Order>, examined: seq<Order>, page: seq<Order>)
    requires Fits(known, apply, pending, examined) && Turn(known, apply, batch, pending, examined, page)
    ensures |page| == if batch < |pending| - |examined| then batch else |pending| - |examined|
    ensures Fits(known, apply, pending, examined + page)
  {
    var left := PendingAfter(known, apply, pending, examined);
    var listing :| Listing(left, listing) && page == Page(listing, |Staying(known, apply, examined)|, batch);
    StayingAndLeaving(known, apply, examined);
    StayingAndLeaving(known, apply, page);
    StayingOfBoth(known, apply, examined, page);
    assert |listing| == |multiset(listing)| == |left| == |pending| - |Leaving(known, apply, examined)|;
    PageIsPart(listing, |Staying(known, apply, examined)|, batch);
    assert multiset(Leaving(known, apply, page)) <= multiset(page) <= left;
    assert multiset(Leaving(known, apply, examined) + Leaving(known, apply, page))
        == multiset(Leaving(known, apply, examined)) + multiset(Leaving(known, apply, page));
  }

  /** Every run examines as many orders as are pending, counting repetitions. */
  lemma {:induction false} RunExaminesAsMany(known: Known, apply: bool, batch: nat, pending: multiset<Order>,
                                             examined: seq<Order>, pages: seq<seq<Order>>)
    requires Fits(known, apply, pending, examined) && Run(known, apply, batch, pending, examined, pages)
    ensures |examined| + |Concat(pages)| == |pending|
    decreases |pages|
  {
    var page, rest := RunTaken(known, apply, batch, pending, examined, pages);
    PageSize(known, apply, batch, pending, examined, page);
    if |page| == batch {
      RunExaminesAsMany(known, apply, batch, pending, examined + page, rest);
    }
  }

  /** A turn can be continued to a run. */
  lemma {:induction false} RunAfter(known: Known, apply: bool, batch: nat, pending: multiset<Order>, examined: seq<Order>,
                                    page: seq<Order>)
      returns (pages: seq<seq<Order>>)
    requires 0 < batch && Fits(known, apply, pending, examined) && Turn(known, apply, batch, pending, examined, page)
    ensures Run(known, apply, batch, pending, examined, pages) && page <= Concat(pages)
    decreases |pending| - |examined|, 0
  {
    PageSize(known, apply, batch, pending, examined, page);
    if |page| < batch {
      RunOfShortPage(known, apply, batch, pending, examined, page);
      pages := [page];
    } else {
      var rest := SomeRun(known, apply, batch, pending, examined + page);
      RunOfFullPage(known, apply, batch, pending, examined, page, rest);
      pages := [page] + rest;
    }
  }

  lemma {:induction false} SomeRun(known: Known, apply: bool, batch: nat, pending: multiset<Order>, examined: seq<Order>)
      returns (pages: seq<seq<Order>>)
    requires 0 < batch && Fits(known, apply, pending, examined)
    ensures Run(known, apply, batch, pending, examined, pages)
    decreases |pending| - |examined|, 1
  {
    var listing := SomeListing(PendingAfter(known, apply, pending, examined));
    var page := Page(listing, |Staying(known, apply, examined)|, batch);
    assert Turn(known, apply, batch, pending, examined, page);
    PageSize(known, apply, batch, pending, examined, page);
    pages := RunAfter(known, apply, batch, pending, examined, page);
  }

  // ---- Runs that examine every order once ------------------------------------------------------------------

  /** No order that stays stands before the k-th place with the date of one behind it. */
  ghost predicate Clear(known: Known, apply: bool, listing: seq<Order>, k: nat) {
    forall i, j :: 0 <= i < k <= j < |listing| && Stays(known, apply, listing[i]) ==> listing[i].date < listing[j].date
  }

  /** After the first k orders of a listing, the pending ones are those of them that stay, and the rest. */
  lemma PendingBehind(known: Known, apply: bool, pending: multiset<Order>, q: seq<Order>, k: nat)
    requires multiset(q) == pending && k <= |q|
    ensures PendingAfter(known, apply, pending, q[..k]) == multiset(Staying(known, apply, q[..k])) + multiset(q[k..])
    ensures Fits(known, apply, pending, q[..k])
  {
    StayingAndLeaving(known, apply, q[..k]);
    assert q == q[..k] + q[k..];
    assert |pending| == |q|;
  }

  /** What a query lists after the first k orders of a listing: those of them that stay, then the rest anew. */
  lemma ListedAnew(known: Known, apply: bool, pending: multiset<Order>, q: seq<Order>, k: nat, listing: seq<Order>)
    requires Listing(pending, q) && k <= |q| && Clear(known, apply, q, k)
    requires Listing(PendingAfter(known, apply, pending, q[..k]), listing)
    ensures var n := |Staying(known, apply, q[..k])|;
            n <= |listing| && |listing| - n == |q| - k && Listing(pending, q[..k] + listing[n..])
  {
    var early, late := Staying(known, apply, q[..k]), q[k..];
    PendingBehind(known, apply, pending, q, k);
    StayingIsSorted(known, apply, q[..k]);
    StayingMembers(known, apply, q[..k]);
    EarlierFirst(early, late, listing);
    NextIsListing(q, k, listing[|early|..]);
  }

  lemma PageIsNext(examined: seq<Order>, listing: seq<Order>, n: nat, batch: nat)
    requires n <= |listing|
    ensures var page, next := Page(listing, n, batch), examined + listing[n..];
            |page| <= batch && examined + page <= next && (|page| < batch ==> examined + page == next)
  {
    PageIsPart(listing, n, batch);
    var page := Page(listing, n, batch);
    assert page == listing[n..][..|page|];
  }

  lemma NextTurn(known: Known, apply: bool, batch: nat, pending: multiset<Order>, q: seq<Order>, examined: seq<Order>,
                 page: seq<Order>)
      returns (next: seq<Order>)
    requires Listing(pending, q) && examined <= q && Clear(known, apply, q, |examined|)
    requires Turn(known, apply, batch, pending, examined, page)
    ensures Listing(pending, next) && examined + page <= next
    ensures |page| <= batch && (|page| < batch ==> examined + page == next)
  {
    assert examined == q[..|examined|];
    var n := |Staying(known, apply, examined)|;
    var listing :| Listing(PendingAfter(known, apply, pending, examined), listing) && page == Page(listing, n, batch);
    ListedAnew(known, apply, pending, q, |examined|, listing);
    next := examined + listing[n..];
    PageIsNext(examined, listing, n, batch);
  }

  /** The orders behind the k-th place may be listed anew. */
  lemma NextIsListing(q: seq<Order>, k: nat, tail: seq<Order>)
    requires Sorted(q) && k <= |q| && Sorted(tail) && multiset(tail) == multiset(q[k..])
    ensures Listing(multiset(q), q[..k] + tail)
  {
    assert q == q[..k] + q[k..];
    forall x, y | x in q[..k] && y in tail ensures x.date <= y.date {
      SameMembers(tail, q[k..], y);
    }
    StraightIsSorted(q[..k], tail);
  }

  lemma TieLeaves(known: Known, apply: bool, batch: nat, orders: seq<Order>, k: nat, o: Order)
    requires 0 < batch && 0 < k < |orders| && PageEnd(k, batch) && orders[k - 1].date == orders[k].date == o.date
    requires TiesAreHarmless(known, apply, batch, orders) && o in orders
    ensures !Stays(known, apply, o)
  {
    var m: nat :| m < |orders| && orders[m] == o;
  }

  lemma PageEndIsClear(known: Known, apply: bool, batch: nat, orders: seq<Order>, next: seq<Order>, k: nat)
    requires 0 < batch && Sorted(orders) && Listing(multiset(orders), next) && 0 < k && PageEnd(k, batch)
    requires TiesAreHarmless(known, apply, batch, orders)
    ensures Clear(known, apply, next, k)
  {
    DatesAgree(next, orders);
    forall i, j | 0 <= i < k <= j < |next| && Stays(known, apply, next[i]) ensures next[i].date < next[j].date {
      assert next[i].date <= next[k - 1].date <= next[k].date <= next[j].date;
      SameMembers(next, orders, next[i]);
      if next[i].date == next[j].date {
        TieLeaves(known, apply, batch, orders, k, next[i]);
      }
    }
  }

  /** Where a run stands that has examined each order once so far: the examined orders start some listing. */
  ghost predicate Standing(known: Known, apply: bool, batch: nat, orders: seq<Order>, q: seq<Order>, examined: seq<Order>)
    requires 0 < batch
  {
    && Listing(multiset(orders), q) && examined <= q
    && PageEnd(|examined|, batch) && Clear(known, apply, q, |examined|)
  }

  lemma NextStanding(known: Known, apply: bool, batch: nat, orders: seq<Order>, q: seq<Order>, examined: seq<Order>,
                     page: seq<Order>)
      returns (next: seq<Order>)
    requires 0 < batch && Sorted(orders) && TiesAreHarmless(known, apply, batch, orders)
    requires Standing(known, apply, batch, orders, q, examined)
    requires Turn(known, apply, batch, multiset(orders), examined, page)
    ensures |page| < batch ==> multiset(examined + page) == multiset(orders)
    ensures |page| >= batch ==> Standing(known, apply, batch, orders, next, examined + page)
  {
    next := NextTurn(known, apply, batch, multiset(orders), q, examined, page);
    if |page| == batch {
      PageEndIsClear(known, apply, batch, orders, next, |examined + page|);
    }
  }

  lemma {:induction false} RunExaminesOnce(known: Known, apply: bool, batch: nat, orders: seq<Order>, q: seq<Order>,
                                           examined: seq<Order>, pages: seq<seq<Order>>)
    requires 0 < batch && Sorted(orders) && TiesAreHarmless(known, apply, batch, orders)
    requires Standing(known, apply, batch, orders, q, examined)
    requires Run(known, apply, batch, multiset(orders), examined, pages)
    ensures multiset(examined + Concat(pages)) == multiset(orders)
    decreases |pages|
  {
    var page, rest := RunTaken(known, apply, batch, multiset(orders), examined, pages);
    var next := NextStanding(known, apply, batch, orders, q, examined, page);
    if |page| >= batch {
      RunExaminesOnce(known, apply, batch, orders, next, examined + page, rest);
      Regroup(examined, page, Concat(rest));
    }
  }

  // ---- Runs that miss an order -----------------------------------------------------------------------------

  /** The queries may follow one listing throughout. */
  lemma OwnListing(known: Known, apply: bool, pending: multiset<Order>, q: seq<Order>, k: nat)
    requires Listing(pending, q) && k <= |q|
    ensures Listing(PendingAfter(known, apply, pending, q[..k]), Staying(known, apply, q[..k]) + q[k..])
  {
    PendingBehind(known, apply, pending, q, k);
    StayingIsSorted(known, apply, q[..k]);
    StayingMembers(known, apply, q[..k]);
    StraightIsSorted(Staying(known, apply, q[..k]), q[k..]);
  }

  lemma OwnPage(early: seq<Order>, late: seq<Order>, batch: nat)
    requires batch <= |late|
    ensures Page(early + late, |early|, batch) == late[..batch]
  {
  }

  lemma OwnTurn(known: Known, apply: bool, batch: nat, pending: multiset<Order>, q: seq<Order>, k: nat)
    requires Listing(pending, q) && k + batch <= |q|
    ensures Turn(known, apply, batch, pending, q[..k], q[k..k + batch])
  {
    OwnListing(known, apply, pending, q, k);
    OwnPage(Staying(known, apply, q[..k]), q[k..], batch);
    assert q[k..][..batch] == q[k..k + batch];
  }

  /** Every page of the listing is what some turn may examine after the orders before it. */
  ghost predicate OwnTurns(known: Known, apply: bool, batch: nat, pending: multiset<Order>, q: seq<Order>) {
    forall j: nat :: j + batch <= |q| ==> Turn(known, apply, batch, pending, q[..j], q[j..j + batch])
  }

  lemma {:induction false} FollowListing(known: Known, apply: bool, batch: nat, pending: multiset<Order>, q: seq<Order>,
                                         k: nat, pages: seq<seq<Order>>)
      returns (all: seq<seq<Order>>)
    requires 0 < batch && OwnTurns(known, apply, batch, pending, q) && k <= |q| && PageEnd(k, batch)
    requires Run(known, apply, batch, pending, q[..k], pages)
    ensures Run(known, apply, batch, pending, [], all) && Concat(all) == q[..k] + Concat(pages)
    decreases k
  {
    if k == 0 {
      assert q[..0] == [];
      all := pages;
    } else {
      var j: nat := k - batch;
      var page := q[j..k];
      assert Turn(known, apply, batch, pending, q[..j], page);
      assert q[..j] + page == q[..k];
      RunOfFullPage(known, apply, batch, pending, q[..j], page, pages);
      all := FollowListing(known, apply, batch, pending, q, j, [page] + pages);
      Regroup(q[..j], page, Concat(pages));
    }
  }

  /** Neighbours of one date may be listed either way, so that a page repeats the order before it. */
  lemma PageRepeats(early: seq<Order>, late: seq<Order>, batch: nat) returns (listing: seq<Order>)
    requires Sorted(early + late) && early != [] && late != [] && early[|early| - 1].date == late[0].date && 0 < batch
    ensures Listing(multiset(early + late), listing)
    ensures var page := Page(listing, |early|, batch); page != [] && page[0] == early[|early| - 1]
  {
    var straight, s := early + late, |early|;
    listing := straight[s - 1 := straight[s]][s := straight[s - 1]];
    assert forall i :: 0 <= i < |straight| ==> listing[i].date == straight[i].date;
  }

  lemma LastStays(known: Known, apply: bool, q: seq<Order>, k: nat)
    requires 0 < k <= |q| && Stays(known, apply, q[k - 1])
    ensures var early := Staying(known, apply, q[..k]); early != [] && early[|early| - 1] == q[k - 1]
  {
    var last := [q[k - 1]];
    assert q[..k] == q[..k - 1] + last;
    StayingOfBoth(known, apply, q[..k - 1], last);
    assert Staying(known, apply, last) == last;
  }

  /** An order that stays and has the date of the one behind it may be listed behind that one next time. */
  lemma ListedAgain(known: Known, apply: bool, batch: nat, pending: multiset<Order>, q: seq<Order>, k: nat)
      returns (page: seq<Order>)
    requires 0 < batch && Listing(pending, q) && 0 < k < |q|
    requires q[k - 1].date == q[k].date && Stays(known, apply, q[k - 1])
    ensures Turn(known, apply, batch, pending, q[..k], page) && page != [] && page[0] == q[k - 1]
  {
    OwnListing(known, apply, pending, q, k);
    LastStays(known, apply, q, k);
    var early := Staying(known, apply, q[..k]);
    var listing := PageRepeats(early, q[k..], batch);
    page := Page(listing, |early|, batch);
  }

  lemma DistinctOnce(orders: seq<Order>, o: Order)
    requires DistinctIds(orders)
    ensures multiset(orders)[o] <= 1
  {
    if o in orders {
      var i :| 0 <= i < |orders| && orders[i] == o;
      assert orders == orders[..i] + [o] + orders[i + 1..];
      assert o !in orders[..i] && o !in orders[i + 1..];
    }
  }

  lemma TwiceCounts(s: seq<Order>, k: nat)
    requires 0 < k < |s| && s[k - 1] == s[k]
    ensures 2 <= multiset(s)[s[k]]
  {
    assert s == s[..k - 1] + [s[k - 1]] + [s[k]] + s[k + 1..];
  }

  /** A harmful tie lets a run examine an order twice, and so miss another. */
  lemma {:induction false} HarmfulTieRepeats(known: Known, apply: bool, batch: nat, orders: seq<Order>, k: nat, i: nat)
      returns (pages: seq<seq<Order>>)
    requires 0 < batch && DistinctIds(orders) && Sorted(orders)
    requires 0 < k < |orders| && PageEnd(k, batch) && orders[k - 1].date == orders[k].date
    requires i < |orders| && orders[i].date == orders[k].date && Stays(known, apply, orders[i])
    ensures Run(known, apply, batch, multiset(orders), [], pages) && multiset(Concat(pages)) != multiset(orders)
  {
    var pending := multiset(orders);
    var q := ExchangedOrders(orders, i, k - 1);
    var page := ListedAgain(known, apply, batch, pending, q, k);
    PendingBehind(known, apply, pending, q, k);
    var rest := RunAfter(known, apply, batch, pending, q[..k], page);
    forall j: nat | j + batch <= |q| {
      OwnTurn(known, apply, batch, pending, q, j);
    }
    pages := FollowListing(known, apply, batch, pending, q, k, rest);
    ExaminedTwice(orders, q, k, Concat(rest));
  }

  lemma ExaminedTwice(orders: seq<Order>, q: seq<Order>, k: nat, rest: seq<Order>)
    requires DistinctIds(orders) && 0 < k <= |q| && rest != [] && rest[0] == q[k - 1]
    ensures multiset(q[..k] + rest) != multiset(orders)
  {
    var all := q[..k] + rest;
    assert all[k - 1] == q[k - 1] && all[k] == rest[0];
    TwiceCounts(all, k);
    DistinctOnce(orders, q[k - 1]);
  }

  /** Two orders of one date may change places in a listing. */
  lemma ExchangedOrders(orders: seq<Order>, i: nat, j: nat) returns (q: seq<Order>)
    requires Sorted(orders) && i < |orders| && j < |orders| && orders[i].date == orders[j].date
    ensures Listing(multiset(orders), q) && |q| == |orders| && q[j] == orders[i]
    ensures forall m :: 0 <= m < |orders| ==> q[m].date == orders[m].date
  {
    q := orders[i := orders[j]][j := orders[i]];
    assert multiset(q) == multiset(orders);
  }

  ghost predicate EveryRunExaminesOnce(known: Known, apply: bool, batch: nat, orders: seq<Order>) {
    forall pages :: Run(known, apply, batch, multiset(orders), [], pages) ==> multiset(Concat(pages)) == multiset(orders)
  }

  lemma HarmlessTies(known: Known, apply: bool, batch: nat, orders: seq<Order>)
    requires 0 < batch && Sorted(orders) && TiesAreHarmless(known, apply, batch, orders)
    ensures EveryRunExaminesOnce(known, apply, batch, orders)
  {
    forall pages | Run(known, apply, batch, multiset(orders), [], pages)
      ensures multiset(Concat(pages)) == multiset(orders)
    {
      RunExaminesOnce(known, apply, batch, orders, orders, [], pages);
      assert [] + Concat(pages) == Concat(pages);
    }
  }

  /**
   Every run of the loop examines each pending order once, whatever the queries list, exactly if no page end lies inside
   orders of one date, or all orders of such a date leave the pending set when they are examined.
   */
  lemma EveryRunExaminesOnceExactly(known: Known, apply: bool, batch: nat, orders: seq<Order>)
    requires 0 < batch && DistinctIds(orders) && Sorted(orders)
    ensures EveryRunExaminesOnce(known, apply, batch, orders) <==> TiesAreHarmless(known, apply, batch, orders)
  {
    if TiesAreHarmless(known, apply, batch, orders) {
      HarmlessTies(known, apply, batch, orders);
    } else {
      var k: nat, i: nat :| (0 < k < |orders| && PageEnd(k, batch) && orders[k - 1].date == orders[k].date
                             && i < |orders| && orders[i].date == orders[k].date) && Stays(known, apply, orders[i]);
      var pages := HarmfulTieRepeats(known, apply, batch, orders, k, i);
    }
  }

  /** In a dry run every tie across a page end is harmful. */
  lemma DryRunTies(known: Known, batch: nat, orders: seq<Order>)
    requires 0 < batch
    ensures TiesAreHarmless(known, false, batch, orders) <==>
            forall k: nat :: 0 < k < |orders| && PageEnd(k, batch) ==> orders[k - 1].date != orders[k].date
  {
    if TiesAreHarmless(known, false, batch, orders) {
      forall k: nat | 0 < k < |orders| && PageEnd(k, batch) ensures orders[k - 1].date != orders[k].date {
        assert Stays(known, false, orders[k]);
      }
    }
  }

  lemma OneDateIsListed(left: seq<Order>, right: seq<Order>)
    requires forall o :: o in left || o in right ==> o.date == 0
    ensures Listing(multiset(left + right), left + right) && Listing(multiset(left + right), right + left)
  {
    assert multiset(right + left) == multiset(left + right);
    forall i | 0 <= i < |left + right| ensures (left + right)[i].date == 0 && (right + left)[i].date == 0 {
      assert (left + right)[i] in left || (left + right)[i] in right;
      assert (right + left)[i] in left || (right + left)[i] in right;
    }
  }

  lemma {:induction false} AllStay(known: Known, orders: seq<Order>)
    requires forall o :: o in orders ==> o.channelOrderId !in known
    ensures Staying(known, true, orders) == orders && Leaving(known, true, orders) == []
  {
    if orders != [] {
      AllStay(known, orders[1..]);
    }
  }

  /** While nothing examined leaves, any listing of the pending orders will do. */
  lemma TurnOf(known: Known, apply: bool, batch: nat, pending: multiset<Order>, examined: seq<Order>, listing: seq<Order>)
    requires Leaving(known, apply, examined) == [] && Staying(known, apply, examined) == examined
    requires Listing(pending, listing)
    ensures Turn(known, apply, batch, pending, examined, Page(listing, |examined|, batch))
  {
    assert pending - multiset([]) == pending;
  }

  lemma TiedTurns(known: Known, without: seq<Order>, numbered: seq<Order>)
    requires 0 < |without| == |numbered|
    requires forall o :: o in without || o in numbered ==> o.date == 0
    requires forall o :: o in without ==> o.channelOrderId !in known
    ensures var batch, pending := |without|, multiset(without + numbered);
            && Turn(known, true, batch, pending, [], without) && Turn(known, true, batch, pending, without, without)
            && Turn(known, true, batch, pending, without + without, [])
  {
    var batch, pending := |without|, multiset(without + numbered);
    OneDateIsListed(without, numbered);
    AllStay(known, without);
    AllStay(known, without + without);
    assert Page(without + numbered, 0, batch) == without;
    TurnOf(known, true, batch, pending, [], without + numbered);
    OwnPage(numbered, without, batch);
    assert without[..batch] == without;
    TurnOf(known, true, batch, pending, without, numbered + without);
    TurnOf(known, true, batch, pending, without + without, without + numbered);
  }

  /**
   A run of the loop that hides orders: with a batch of orders without a number and a batch with one, all of one date,
   the second page may repeat the first, and the third is empty.
   */
  lemma TiedDatesHideOrders(known: Known, without: seq<Order>, numbered: seq<Order>)
    requires 0 < |without| == |numbered|
    requires forall o :: o in without || o in numbered ==> o.date == 0
    requires forall o :: o in without ==> o.channelOrderId !in known
    requires forall o :: o in numbered ==> o.channelOrderId in known
    ensures Run(known, true, |without|, multiset(without + numbered), [], [without, without, []])
    ensures forall o :: o in numbered ==> o !in Concat([without, without, []])
  {
    var batch, pending := |without|, multiset(without + numbered);
    TiedTurns(known, without, numbered);
    RunOfShortPage(known, true, batch, pending, without + without, []);
    RunOfFullPage(known, true, batch, pending, without, without, [[]]);
    assert [without] + [[]] == [without, []];
    assert [] + without == without;
    RunOfFullPage(known, true, batch, pending, [], without, [without, []]);
    assert [without] + [without, []] == [without, without, []];
  }

  // ---- The loop --------------------------------------------------------------------------------------------

  lemma {:induction false} LeavingIsMatched(known: Known, apply: bool, orders: seq<Order>)
    ensures Leaving(known, apply, orders) == if apply then Matched(known, orders) else []
    ensures Staying(known, apply, orders) == if apply then Unmatched(known, orders) else orders
  {
    if orders != [] {
      LeavingIsMatched(known, apply, orders[1..]);
    }
  }

  lemma {:induction false} MatchedCounts(known: Known, orders: seq<Order>, o: Order)
    ensures multiset(Matched(known, orders))[o] == if o.channelOrderId in known then multiset(orders)[o] else 0
    ensures multiset(Unmatched(known, orders))[o] == if o.channelOrderId in known then 0 else multiset(orders)[o]
  {
    if orders != [] {
      MatchedCounts(known, orders[1..], o);
      assert orders == [orders[0]] + orders[1..];
    }
  }

  lemma {:induction false} StillPendingCounts(known: Known, ids: set<string>, orders: seq<Order>, o: Order)
    ensures multiset(StillPending(known, ids, orders))[o]
         == if o.id in ids && o.channelOrderId in known then 0 else multiset(orders)[o]
  {
    if orders != [] {
      StillPendingCounts(known, ids, orders[1..], o);
      assert orders == [orders[0]] + orders[1..];
    }
  }

  /** The update of a page takes its matched orders out of the pending ones. */
  lemma PendingAfterPage(known: Known, orders: seq<Order>, page: seq<Order>)
    requires DistinctIds(orders) && multiset(page) <= multiset(PendingOf(orders))
    ensures multiset(PendingOf(Filled(known, IdsOf(Matched(known, page)), orders)))
         == multiset(PendingOf(orders)) - multiset(Matched(known, page))
  {
    var pending, ids := PendingOf(orders), IdsOf(Matched(known, page));
    PendingMembers(orders);
    PendingAfterFill(known, ids, orders);
    MatchedMembers(known, page);
    forall o ensures multiset(StillPending(known, ids, pending))[o]
                  == (multiset(pending) - multiset(Matched(known, page)))[o]
    {
      StillPendingCounts(known, ids, pending, o);
      MatchedCounts(known, page, o);
      DistinctOnce(pending, o);
      PageHasIt(known, pending, page, o);
    }
  }

  /** Of pending orders with distinct ids, a page has the order with some id or none with that id. */
  lemma PageHasIt(known: Known, pending: seq<Order>, page: seq<Order>, o: Order)
    requires DistinctIds(pending) && multiset(page) <= multiset(pending)
    ensures o in pending && o.id in IdsOf(Matched(known, page)) ==> 0 < multiset(page)[o]
    ensures o in pending <==> 0 < multiset(pending)[o]
  {
    MatchedMembers(known, page);
    assert o in multiset(pending) <==> o in pending;
    if o in pending && o.id in IdsOf(Matched(known, page)) {
      var other :| other in Matched(known, page) && other.id == o.id;
      assert other in multiset(page) && other in multiset(pending);
      SameIdSameOrder(pending, o, other);
    }
  }

  /** Totals depend only on which orders are examined. */
  lemma SameTotals(known: Known, a: seq<Order>, b: seq<Order>)
    requires multiset(a) == multiset(b)
    ensures |Matched(known, a)| == |Matched(known, b)| && |Unmatched(known, a)| == |Unmatched(known, b)|
    ensures IdsOf(Matched(known, a)) == IdsOf(Matched(known, b))
  {
    forall o ensures multiset(Matched(known, a))[o] == multiset(Matched(known, b))[o]
                  && multiset(Unmatched(known, a))[o] == multiset(Unmatched(known, b))[o]
    {
      MatchedCounts(known, a, o);
      MatchedCounts(known, b, o);
    }
    assert multiset(Matched(known, a)) == multiset(Matched(known, b));
    assert multiset(Unmatched(known, a)) == multiset(Unmatched(known, b));
    assert |multiset(Matched(known, a))| == |multiset(Matched(known, b))|;
    assert |multiset(Unmatched(known, a))| == |multiset(Unmatched(known, b))|;
    forall o ensures o in Matched(known, a) <==> o in Matched(known, b) {
      SameMembers(Matched(known, a), Matched(known, b), o);
    }
  }

  lemma {:induction false} ConcatOfMore(pages: seq<seq<Order>>, page: seq<Order>)
    ensures Concat(pages + [page]) == Concat(pages) + page
  {
    if pages == [] {
      assert [] + [page] == [page] && [page][1..] == [];
      assert Concat([]) == [];
    } else {
      assert (pages + [page])[1..] == pages[1..] + [page];
      ConcatOfMore(pages[1..], page);
      Regroup(pages[0], Concat(pages[1..]), page);
    }
  }

  /** Where the table and the counters stand after the orders of `examined`. */
  ghost predicate Stands(known: Known, apply: bool, initial: seq<Order>, examined: seq<Order>, now: seq<Order>,
                         offset: nat, filled: nat, unmatched: nat)
  {
    && DistinctIds(now)
    && now == (if apply then Filled(known, IdsOf(Matched(known, examined)), initial) else initial)
    && multiset(PendingOf(now)) == PendingAfter(known, apply, multiset(PendingOf(initial)), examined)
    && Fits(known, apply, multiset(PendingOf(initial)), examined)
    && offset == |Staying(known, apply, examined)|
    && filled == |Matched(known, examined)| && unmatched == |Unmatched(known, examined)|
  }

  lemma NothingExaminedYet(known: Known, apply: bool, initial: seq<Order>)
    requires DistinctIds(initial)
    ensures Stands(known, apply, initial, [], initial, 0, 0, 0)
  {
    NothingToFill(known, {}, initial);
    assert IdsOf(Matched(known, [])) == {};
    assert multiset(PendingOf(initial)) - multiset([]) == multiset(PendingOf(initial));
  }

  lemma TableAfterPage(known: Known, initial: seq<Order>, examined: seq<Order>, now: seq<Order>, page: seq<Order>)
    requires DistinctIds(now) && now == Filled(known, IdsOf(Matched(known, examined)), initial)
    requires multiset(page) <= multiset(PendingOf(now))
    ensures var after := Filled(known, IdsOf(Matched(known, page)), now);
            && DistinctIds(after) && after == Filled(known, IdsOf(Matched(known, examined + page)), initial)
            && multiset(PendingOf(after)) == multiset(PendingOf(now)) - multiset(Matched(known, page))
  {
    UnmatchedOfBoth(known, examined, page);
    FillKeepsIds(known, IdsOf(Matched(known, page)), now);
    PendingAfterPage(known, now, page);
    IdsOfBoth(Matched(known, examined), Matched(known, page));
    FillTwice(known, IdsOf(Matched(known, examined)), IdsOf(Matched(known, page)), initial);
  }

  lemma PendingAfterBoth(known: Known, apply: bool, pending: multiset<Order>, examined: seq<Order>, page: seq<Order>)
    ensures PendingAfter(known, apply, pending, examined + page)
         == PendingAfter(known, apply, pending, examined) - multiset(Leaving(known, apply, page))
  {
    StayingOfBoth(known, apply, examined, page);
  }

  lemma PageKeepsStanding(known: Known, apply: bool, batch: nat, initial: seq<Order>, examined: seq<Order>,
                          now: seq<Order>, offset: nat, filled: nat, unmatched: nat, listing: seq<Order>, after: seq<Order>)
    requires Stands(known, apply, initial, examined, now, offset, filled, unmatched)
    requires Listing(multiset(PendingOf(now)), listing)
    requires after == if apply then Filled(known, IdsOf(Matched(known, Page(listing, offset, batch))), now) else now
    ensures var page := Page(listing, offset, batch);
            && Turn(known, apply, batch, multiset(PendingOf(initial)), examined, page)
            && Stands(known, apply, initial, examined + page, after,
                      offset + (if apply then |page| - |Matched(known, page)| else |page|),
                      filled + |Matched(known, page)|, unmatched + (|page| - |Matched(known, page)|))
  {
    var pending, page := multiset(PendingOf(initial)), Page(listing, offset, batch);
    assert Turn(known, apply, batch, pending, examined, page);
    PageSize(known, apply, batch, pending, examined, page);
    PageIsPart(listing, offset, batch);
    Partition(known, page);
    UnmatchedOfBoth(known, examined, page);
    StayingOfBoth(known, apply, examined, page);
    LeavingIsMatched(known, apply, page);
    PendingAfterBoth(known, apply, pending, examined, page);
    if apply {
      TableAfterPage(known, initial, examined, now, page);
    } else {
      assert multiset(PendingOf(now)) - multiset([]) == multiset(PendingOf(now));
    }
  }

  /** What completes the pages so far completes the whole run. */
  ghost predicate Leads(known: Known, apply: bool, batch: nat, pending: multiset<Order>, pages: seq<seq<Order>>) {
    forall rest :: Run(known, apply, batch, pending, Concat(pages), rest) ==>
      Run(known, apply, batch, pending, [], pages + rest)
  }

  lemma LeadsFromNothing(known: Known, apply: bool, batch: nat, pending: multiset<Order>)
    ensures Leads(known, apply, batch, pending, [])
  {
    forall rest | Run(known, apply, batch, pending, Concat([]), rest)
      ensures Run(known, apply, batch, pending, [], [] + rest)
    {
      assert [] + rest == rest;
    }
  }

  lemma LeadsWithPage(known: Known, apply: bool, batch: nat, pending: multiset<Order>, pages: seq<seq<Order>>,
                      page: seq<Order>)
    requires Leads(known, apply, batch, pending, pages)
    requires Turn(known, apply, batch, pending, Concat(pages), page)
    ensures |page| == batch ==> Leads(known, apply, batch, pending, pages + [page])
    ensures |page| < batch ==> Run(known, apply, batch, pending, [], pages + [page])
  {
    ConcatOfMore(pages, page);
    if |page| < batch {
      RunOfShortPage(known, apply, batch, pending, Concat(pages), page);
    } else if |page| == batch {
      forall rest | Run(known, apply, batch, pending, Concat(pages + [page]), rest)
        ensures Run(known, apply, batch, pending, [], (pages + [page]) + rest)
      {
        RunOfFullPage(known, apply, batch, pending, Concat(pages), page, rest);
        Regroup(pages, [page], rest);
      }
    }
  }

  /** One page by the given listing. */
  method BackfillPageByDate(table: SalesOrders, known: Known, apply: bool, batch: nat, listing: seq<Order>,
                            offset: nat, matched: nat, missed: nat, ghost initial: seq<Order>, ghost examined: seq<Order>)
    returns (page: seq<Order>, done: nat, filled: nat, unmatched: nat)
    requires Stands(known, apply, initial, examined, table.orders, offset, matched, missed)
    requires Listing(multiset(PendingOf(table.orders)), listing)
    modifies table
    ensures Turn(known, apply, batch, multiset(PendingOf(initial)), examined, page)
    ensures Stands(known, apply, initial, examined + page, table.orders, done, filled, unmatched)
  {
    ghost var before := table.orders;
    page := Page(listing, offset, batch);
    var updates := table.Update(known, page, apply);
    PageKeepsStanding(known, apply, batch, initial, examined, before, offset, matched, missed, listing, table.orders);
    unmatched := missed + (|page| - updates);
    filled := matched + updates;
    done := offset + (if apply then |page| - updates else |page|);
  }

  /**
   The loop as it is written; `listings` holds the database's answers, by turn. Filled and unmatched always add up to
   the pending orders, and exactly the examined orders with a known number are filled.
   */
  method BackfillByDate(table: SalesOrders, known: Known, apply: bool, batch: nat,
                        listings: (nat, multiset<Order>) -> seq<Order>)
    returns (filled: nat, unmatched: nat, pages: seq<seq<Order>>)
    requires 0 < batch && DistinctIds(table.orders)
    requires forall turn: nat, m :: Listing(m, listings(turn, m))
    modifies table
    ensures Run(known, apply, batch, multiset(PendingOf(old(table.orders))), [], pages)
    ensures filled == |Matched(known, Concat(pages))| && unmatched == |Unmatched(known, Concat(pages))|
    ensures filled + unmatched == |PendingOf(old(table.orders))|
    ensures table.orders == if apply then Filled(known, IdsOf(Matched(known, Concat(pages))), old(table.orders))
                            else old(table.orders)
  {
    ghost var initial := table.orders;
    ghost var pending := multiset(PendingOf(initial));
    var done: nat := 0;
    filled, unmatched, pages := 0, 0, [];
    NothingExaminedYet(known, apply, initial);
    LeadsFromNothing(known, apply, batch, pending);
    while true
      invariant Stands(known, apply, initial, Concat(pages), table.orders, done, filled, unmatched)
      invariant Leads(known, apply, batch, pending, pages)
      decreases |pending| - |Concat(pages)|
    {
      var listing := listings(|pages|, multiset(PendingOf(table.orders)));
      var page: seq<Order>;
      ghost var before := pages;
      page, done, filled, unmatched :=
        BackfillPageByDate(table, known, apply, batch, listing, done, filled, unmatched, initial, Concat(pages));
      PageSize(known, apply, batch, pending, Concat(pages), page);
      ConcatOfMore(pages, page);
      LeadsWithPage(known, apply, batch, pending, pages, page);
      pages := pages + [page];
      if |page| < batch {
        break;
      }
    }
    RunExaminesAsMany(known, apply, batch, pending, [], pages);
    Partition(known, Concat(pages));
  }

  /** With harmless ties the totals and the table are those of the loop over a fixed row order, in both modes. */
  lemma HarmlessTotals(known: Known, apply: bool, batch: nat, orders: seq<Order>, pages: seq<seq<Order>>)
    requires 0 < batch && Sorted(orders) && TiesAreHarmless(known, apply, batch, orders)
    requires Run(known, apply, batch, multiset(orders), [], pages)
    ensures multiset(Concat(pages)) == multiset(orders)
    ensures |Matched(known, Concat(pages))| == |Matched(known, orders)|
    ensures |Unmatched(known, Concat(pages))| == |Unmatched(known, orders)|
    ensures IdsOf(Matched(known, Concat(pages))) == IdsOf(Matched(known, orders))
  {
    HarmlessTies(known, apply, batch, orders);
    SameTotals(known, Concat(pages), orders);
  }
}
