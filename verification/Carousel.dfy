/**
 The page arithmetic of the product carousel.

 Cards of equal pitch stand in `rows` rows and move `step` columns a page; `columns` of them are visible. The dots count
 pages by a formula, the scroll position is read back by comparing card offsets. `DotsCountPagesExactly` says when the two
 agree, `ScrollReadsBack` that scrolling to a page is read as that page.
 */
module Carousel {
  import opened Wrappers

  // ---- The source's functions ------------------------------------------------------------------------------

  /** The offsets of the cards that start a page. */
  function PageStarts(offsets: seq<int>, columns: nat): seq<int>
    requires 0 < columns
  {
    if offsets == [] then []
    else
      var n := |offsets| - 1;
      PageStarts(offsets[..n], columns) + (if n % columns == 0 then [offsets[n]] else [])
  }

  function Min(a: int, b: int): int {
    if a < b then a else b
  }

  function Max(a: int, b: int): int {
    if a < b then b else a
  }

  function Clamped(starts: seq<int>, limit: int): (r: seq<int>)
    ensures |r| == |starts| && forall k :: 0 <= k < |r| ==> r[k] == Min(starts[k], limit)
  {
    if starts == [] then [] else Clamped(starts[..|starts| - 1], limit) + [Min(starts[|starts| - 1], limit)]
  }

  /** The first occurrence of every value. */
  function Distinct(values: seq<int>): seq<int> {
    if values == [] then []
    else
      var before, last := Distinct(values[..|values| - 1]), values[|values| - 1];
      if last in before then before else before + [last]
  }

  /** The scroll positions of the pages, for measured card offsets. */
  function StartsOf(offsets: seq<int>, columns: nat, scrollable: int): seq<int>
    requires 0 < columns
  {
    Distinct(Clamped(PageStarts(offsets, columns), Max(0, scrollable)))
  }

  function Distance(a: int, b: int): nat {
    if a < b then b - a else a - b
  }

  /** The page nearest to a scroll position, the first of equally near ones; the last page once the end is reached. */
  ghost predicate IsActivePage(scrollLeft: int, starts: seq<int>, scrollable: int, page: nat) {
    if starts == [] then page == 0
    else if scrollLeft >= scrollable - 2 then page == |starts| - 1
    else
      && page < |starts|
      && (forall k :: 0 <= k < |starts| ==> Distance(starts[page], scrollLeft) <= Distance(starts[k], scrollLeft))
      && (forall k :: 0 <= k < page ==> Distance(starts[page], scrollLeft) < Distance(starts[k], scrollLeft))
  }

  method ActivePageOf(scrollLeft: int, starts: seq<int>, scrollable: int) returns (page: nat)
    ensures IsActivePage(scrollLeft, starts, scrollable, page)
  {
    if |starts| == 0 {
      return 0;
    }
    if scrollLeft >= scrollable - 2 {
      return |starts| - 1;
    }
    var best: nat := 0;
    for i := 0 to |starts|
      invariant best < |starts| && (i == 0 ==> best == 0) && (0 < i ==> best < i)
      invariant forall k :: 0 <= k < i ==> Distance(starts[best], scrollLeft) <= Distance(starts[k], scrollLeft)
      invariant forall k :: 0 <= k < best ==> Distance(starts[best], scrollLeft) < Distance(starts[k], scrollLeft)
    {
      if Distance(starts[i], scrollLeft) < Distance(starts[best], scrollLeft) {
        best := i;
      }
    }
    return best;
  }

  // ---- A carousel of equal cards ---------------------------------------------------------------------------

  /** `rows` counts the rows in use, `pitch` the pixels from one column to the next. */
  datatype Layout = Layout(cards: nat, rows: nat, columns: nat, step: nat, pitch: nat)

  predicate Usable(l: Layout) {
    0 < l.rows && 0 < l.columns && 0 < l.step && 3 <= l.pitch
  }

  /** Rows apply once there are more cards than rows. */
  function RowsInUse(useRows: bool, cards: nat, rows: nat): nat {
    if useRows && cards > rows then rows else 1
  }

  function Ceil(n: nat, d: nat): nat
    requires 0 < d
  {
    (n + d - 1) / d
  }

  function TotalColumns(l: Layout): nat
    requires Usable(l)
  {
    Ceil(l.cards, l.rows)
  }

  /** How many columns are out of view. */
  function Hidden(l: Layout): nat
    requires Usable(l)
  {
    Max(0, TotalColumns(l) - l.columns)
  }

  function DotCount(l: Layout): nat
    requires Usable(l)
  {
    if l.cards > 0 then Ceil(Hidden(l), l.step) + 1 else 0
  }

  /** Cards fill the columns one after the other. */
  function Offsets(l: Layout): seq<int>
    requires Usable(l)
  {
    seq(l.cards, i requires 0 <= i < l.cards => l.pitch * (i / l.rows))
  }

  function Scrollable(l: Layout): int
    requires Usable(l)
  {
    l.pitch * (TotalColumns(l) - l.columns)
  }

  function Pages(l: Layout): seq<int>
    requires Usable(l)
  {
    Positive(l.step, l.rows);
    StartsOf(Offsets(l), l.step * l.rows, Scrollable(l))
  }

  // ---- Arithmetic ------------------------------------------------------------------------------------------

  lemma Positive(a: nat, b: nat)
    requires 0 < a && 0 < b
    ensures 0 < a * b
  {
  }

  lemma MulMono(a: nat, b: nat, c: nat)
    requires a <= b
    ensures a * c <= b * c
    ensures a < b && 0 < c ==> a * c + c <= b * c
  {
    if a < b {
      assert (b - a) * c >= c || c == 0 by {
        if 0 < c { MulAtLeast(b - a, c); }
      }
      assert b * c == a * c + (b - a) * c;
    }
  }

  lemma MulAtLeast(n: nat, c: nat)
    requires 0 < n
    ensures n * c >= c
  {
    assert n * c == (n - 1) * c + c;
  }

  lemma DivModBounds(n: nat, d: nat)
    requires 0 < d
    ensures n == n / d * d + n % d && n % d < d
  {
  }

  /** The ceiling is the least number of `d`s that reaches `n`. */
  lemma CeilReaches(n: nat, d: nat)
    requires 0 < d
    ensures n <= Ceil(n, d) * d < n + d
  {
    DivModBounds(n + d - 1, d);
  }

  lemma CeilDecides(n: nat, d: nat, k: nat)
    requires 0 < d
    ensures k * d < n <==> k < Ceil(n, d)
  {
    CeilReaches(n, d);
    if k < Ceil(n, d) {
      MulMono(k, Ceil(n, d), d);
    } else {
      MulMono(Ceil(n, d), k, d);
    }
  }

  // ---- The page starts -------------------------------------------------------------------------------------

  lemma CeilStep(n: nat, d: nat)
    requires 0 < d
    ensures Ceil(n + 1, d) == Ceil(n, d) + (if n % d == 0 then 1 else 0)
    ensures n % d == 0 ==> Ceil(n, d) * d == n
  {
    DivModBounds(n, d);
    CeilReaches(n, d);
    CeilReaches(n + 1, d);
    SameCeil(n, d);
  }

  /** A full number of `d`s needs one more for the next, and the rest is shared. */
  lemma SameCeil(n: nat, d: nat)
    requires 0 < d
    ensures Ceil(n, d) == n / d + (if n % d == 0 then 0 else 1)
    ensures Ceil(n + 1, d) == n / d + 1
  {
    DivModBounds(n, d);
    var q, r := n / d, n % d;
    QuotientOf(n + d - 1, d, if r == 0 then q else q + 1, if r == 0 then d - 1 else r - 1);
    QuotientOf(n + d, d, q + 1, r);
  }

  lemma QuotientOf(n: nat, d: nat, q: nat, r: nat)
    requires 0 < d && n == q * d + r && r < d
    ensures n / d == q
  {
    DivModBounds(n, d);
    if n / d < q {
      MulMono(n / d, q, d);
    } else if q < n / d {
      MulMono(q, n / d, d);
    }
  }

  lemma {:induction false} PageStartsAt(offsets: seq<int>, columns: nat, k: nat)
    requires 0 < columns
    ensures |PageStarts(offsets, columns)| == Ceil(|offsets|, columns)
    ensures k < Ceil(|offsets|, columns)
            ==> k * columns < |offsets| && PageStarts(offsets, columns)[k] == offsets[k * columns]
  {
    CeilDecides(|offsets|, columns, k);
    if offsets == [] {
      CeilReaches(0, columns);
      CeilDecides(0, columns, 0);
    } else {
      var n := |offsets| - 1;
      PageStartsAt(offsets[..n], columns, k);
      CeilStep(n, columns);
    }
  }

  /** As many pages start by the cards as by the columns. */
  lemma SameCount(cards: nat, rows: nat, step: nat)
    requires 0 < rows && 0 < step
    ensures 0 < step * rows && Ceil(cards, step * rows) == Ceil(Ceil(cards, rows), step)
  {
    Positive(step, rows);
    var k, m := Ceil(cards, step * rows), Ceil(Ceil(cards, rows), step);
    StartsAgree(cards, rows, step, k);
    StartsAgree(cards, rows, step, m);
  }

  lemma StartsAgree(cards: nat, rows: nat, step: nat, k: nat)
    requires 0 < rows && 0 < step && 0 < step * rows
    ensures k < Ceil(cards, step * rows) <==> k < Ceil(Ceil(cards, rows), step)
  {
    CeilDecides(cards, step * rows, k);
    CeilDecides(Ceil(cards, rows), step, k);
    CeilDecides(cards, rows, k * step);
    assert k * (step * rows) == k * step * rows;
  }

  /** The number of the first page whose start is clamped to the end. */
  function FirstClamped(l: Layout): nat
    requires Usable(l)
  {
    Ceil(Hidden(l), l.step)
  }

  function PageCount(l: Layout): nat
    requires Usable(l)
  {
    Ceil(TotalColumns(l), l.step)
  }

  /** The clamped starts, before repeated ones are dropped. */
  function Raw(l: Layout): seq<int>
    requires Usable(l)
  {
    Positive(l.step, l.rows);
    Clamped(PageStarts(Offsets(l), l.step * l.rows), Max(0, Scrollable(l)))
  }

  lemma ScrollableIsHidden(l: Layout)
    requires Usable(l)
    ensures Max(0, Scrollable(l)) == l.pitch * Hidden(l) && Scrollable(l) <= l.pitch * Hidden(l)
    ensures 0 < Hidden(l) ==> Scrollable(l) == l.pitch * Hidden(l)
  {
    var spare := TotalColumns(l) - l.columns;
    if 0 < spare {
      Positive(l.pitch, spare);
    } else {
      NonPositive(l.pitch, spare);
    }
  }

  lemma NonPositive(a: nat, b: int)
    requires b <= 0
    ensures a * b <= 0
  {
  }

  lemma OffsetOfStart(l: Layout, k: nat)
    requires Usable(l) && k * (l.step * l.rows) < l.cards
    ensures Offsets(l)[k * (l.step * l.rows)] == l.pitch * (k * l.step)
  {
    assert k * (l.step * l.rows) == k * l.step * l.rows;
    QuotientOf(k * l.step * l.rows, l.rows, k * l.step, 0);
  }

  lemma RawAt(l: Layout, k: nat)
    requires Usable(l)
    ensures |Raw(l)| == PageCount(l)
    ensures k < PageCount(l) ==> Raw(l)[k] == Min(l.pitch * (k * l.step), l.pitch * Hidden(l))
  {
    var columns, offsets := l.step * l.rows, Offsets(l);
    SameCount(l.cards, l.rows, l.step);
    PageStartsAt(offsets, columns, k);
    ScrollableIsHidden(l);
    if k < PageCount(l) {
      OffsetOfStart(l, k);
    }
  }

  /** The starts rise until the first clamped one and stay there. */
  lemma RawRises(l: Layout, j: nat, k: nat)
    requires Usable(l) && j < k < PageCount(l) && |Raw(l)| == PageCount(l)
    ensures k <= FirstClamped(l) ==> Raw(l)[j] + 3 <= Raw(l)[k]
    ensures FirstClamped(l) <= j ==> Raw(l)[j] == Raw(l)[k] == l.pitch * Hidden(l)
  {
    RawAt(l, j);
    RawAt(l, k);
    CeilDecides(Hidden(l), l.step, j);
    CeilDecides(Hidden(l), l.step, k);
    MulMono(j, k, l.step);
    Scaled(l.pitch, j * l.step, k * l.step);
    Scaled(l.pitch, j * l.step, Hidden(l));
    if FirstClamped(l) <= j {
      Scaled(l.pitch, Hidden(l), k * l.step);
      Scaled(l.pitch, Hidden(l), j * l.step);
    }
  }

  lemma Scaled(pitch: nat, a: nat, b: nat)
    ensures a < b ==> pitch * a + pitch <= pitch * b
    ensures a <= b ==> pitch * a <= pitch * b
  {
    if a <= b {
      MulMono(a, b, pitch);
      assert pitch * a == a * pitch && pitch * b == b * pitch;
      if a < b && pitch > 0 {
        assert a * pitch + pitch <= b * pitch;
      }
    }
  }

  /** Values that rise up to `top` and stay there are distinct up to `top`. */
  predicate RisesTo(values: seq<int>, top: nat) {
    && (forall j, k :: 0 <= j < k < |values| && k <= top ==> values[j] < values[k])
    && (forall k :: top <= k < |values| ==> values[k] == values[top])
  }

  lemma {:induction false} DistinctOfRising(values: seq<int>, top: nat)
    requires RisesTo(values, top)
    ensures Distinct(values) == values[..if |values| <= top then |values| else top + 1]
  {
    if values != [] {
      var n := |values| - 1;
      var before := values[..n];
      DistinctOfRising(before, top);
      if n <= top {
        forall v | v in Distinct(before) ensures v != values[n] {
          var j :| 0 <= j < n && before[j] == v;
          assert values[j] < values[n];
        }
      } else {
        assert before[top] in before[..top + 1];
      }
    }
  }

  lemma PagesAre(l: Layout)
    requires Usable(l)
    ensures |Raw(l)| == PageCount(l) && RisesTo(Raw(l), FirstClamped(l))
    ensures Pages(l) == Raw(l)[..if PageCount(l) <= FirstClamped(l) then PageCount(l) else FirstClamped(l) + 1]
  {
    RawAt(l, 0);
    forall j, k | 0 <= j < k < |Raw(l)| && k <= FirstClamped(l) ensures Raw(l)[j] < Raw(l)[k] {
      RawRises(l, j, k);
    }
    forall k | FirstClamped(l) <= k < |Raw(l)| ensures Raw(l)[k] == Raw(l)[FirstClamped(l)] {
      if FirstClamped(l) < k {
        RawRises(l, FirstClamped(l), k);
      }
    }
    DistinctOfRising(Raw(l), FirstClamped(l));
  }

  // ---- Dots and pages --------------------------------------------------------------------------------------

  /** There are as many dots as pages exactly if some page start reaches the end of the scroll range. */
  lemma DotsCountPagesExactly(l: Layout)
    requires Usable(l)
    ensures DotCount(l) == |Pages(l)| <==> l.cards == 0 || Ceil(Hidden(l), l.step) * l.step < TotalColumns(l)
  {
    PagesAre(l);
    CeilDecides(TotalColumns(l), l.step, FirstClamped(l));
    CeilReaches(l.cards, l.rows);
    if l.cards == 0 {
      CeilDecides(0, l.rows, 0);
      CeilDecides(0, l.step, 0);
    }
  }

  /** In particular when a page moves no further than the columns in view. */
  lemma DotsCountPages(l: Layout)
    requires Usable(l) && l.step <= l.columns
    ensures DotCount(l) == |Pages(l)|
  {
    DotsCountPagesExactly(l);
    CeilReaches(Hidden(l), l.step);
    CeilReaches(l.cards, l.rows);
    if 0 < l.cards && Hidden(l) == 0 {
      CeilDecides(0, l.step, 0);
      CeilDecides(l.cards, l.rows, 0);
    }
  }

  /** What the owner of the carousel chooses; a page moves by one column if nothing else is said. */
  datatype Options = Options(useRows: bool, rows: nat, columns: nat, slideGroup: Option<nat>)

  function LayoutOf(o: Options, cards: nat, pitch: nat): Layout {
    Layout(cards, RowsInUse(o.useRows, cards, o.rows), o.columns, if o.slideGroup.Some? then o.slideGroup.value else 1, pitch)
  }

  /** A page starts its step of columns after the one before it, and never past the last columns in view. */
  lemma PageStartsAtColumn(l: Layout, k: nat)
    requires Usable(l) && k < |Pages(l)|
    ensures Pages(l)[k] == Min(l.pitch * (k * l.step), l.pitch * Hidden(l))
  {
    PagesAre(l);
    RawAt(l, k);
  }

  lemma OneByOne(n: nat)
    ensures Ceil(n, 1) == n && n / 1 == n
  {
  }

  /** The columns the cards take up. */
  function ColumnsTaken(o: Options, cards: nat): nat
    requires 0 < o.rows
  {
    if o.useRows && o.rows < cards then Ceil(cards, o.rows) else cards
  }

  /**
   With more cards than rows, and rows asked for, cards stand in that many rows; otherwise each has a column of its own.
   A page moves by the slide group, or by one column if nothing is said.
   */
  lemma OptionsPlaceCards(o: Options, cards: nat, pitch: nat)
    requires 0 < o.rows && 0 < o.columns && 3 <= pitch && (o.slideGroup.Some? ==> 0 < o.slideGroup.value)
    ensures var l := LayoutOf(o, cards, pitch);
            && Usable(l) && TotalColumns(l) == ColumnsTaken(o, cards)
            && Hidden(l) == (if o.columns < ColumnsTaken(o, cards) then ColumnsTaken(o, cards) - o.columns else 0)
            && l.step == (if o.slideGroup == None then 1 else o.slideGroup.value)
    ensures forall i :: 0 <= i < cards ==>
              Offsets(LayoutOf(o, cards, pitch))[i] == pitch * (if o.useRows && o.rows < cards then i / o.rows else i)
  {
    OneByOne(cards);
    forall i: nat { OneByOne(i); }
  }

  /** If nothing is said of the slide group, there is one dot, and one more for every column out of view. */
  lemma OptionsDots(o: Options, cards: nat, pitch: nat)
    requires 0 < o.rows && 0 < o.columns && 3 <= pitch && o.slideGroup == None && 0 < cards
    ensures DotCount(LayoutOf(o, cards, pitch))
            == 1 + if o.columns < ColumnsTaken(o, cards) then ColumnsTaken(o, cards) - o.columns else 0
  {
    OptionsPlaceCards(o, cards, pitch);
    OneByOne(Hidden(LayoutOf(o, cards, pitch)));
  }

  /** For every number of cards, with rows or without, dots and pages agree if a page moves at most the columns in view. */
  lemma OptionsDotsCountPages(o: Options, cards: nat, pitch: nat)
    requires 0 < o.rows && 0 < o.columns && 3 <= pitch
    requires o.slideGroup.Some? ==> 0 < o.slideGroup.value <= o.columns
    ensures Usable(LayoutOf(o, cards, pitch))
    ensures DotCount(LayoutOf(o, cards, pitch)) == |Pages(LayoutOf(o, cards, pitch))|
  {
    DotsCountPages(LayoutOf(o, cards, pitch));
  }

  /** Six cards in one row, one in view, and pages of three: three dots for two pages. */
  lemma TooManyDots(pitch: nat)
    requires 3 <= pitch
    ensures var l := Layout(6, 1, 1, 3, pitch); Usable(l) && DotCount(l) == 3 && |Pages(l)| == 2
  {
    var l := Layout(6, 1, 1, 3, pitch);
    assert TotalColumns(l) == 6 && Hidden(l) == 5 && FirstClamped(l) == 2 && PageCount(l) == 2;
    PagesAre(l);
  }

  lemma PagesRise(l: Layout, j: nat, k: nat)
    requires Usable(l) && j < k < |Pages(l)|
    ensures Pages(l)[j] + 3 <= Pages(l)[k] <= l.pitch * Hidden(l)
  {
    PagesAre(l);
    RawRises(l, j, k);
    RawAt(l, k);
  }

  /** Scrolling to the start of a page is read back as that page. */
  lemma ScrollReadsBack(l: Layout, i: nat, page: nat)
    requires Usable(l) && i < |Pages(l)|
    requires IsActivePage(Pages(l)[i], Pages(l), Scrollable(l), page)
    ensures page == i
  {
    var starts, last := Pages(l), |Pages(l)| - 1;
    ScrollableIsHidden(l);
    if i < last {
      PagesRise(l, i, last);
      HiddenBeforeLast(l, i);
    }
    if starts[i] < Scrollable(l) - 2 {
      assert Distance(starts[i], starts[i]) == 0;
      if page < i {
        PagesRise(l, page, i);
      } else if i < page {
        PagesRise(l, i, page);
      }
    }
  }

  lemma HiddenBeforeLast(l: Layout, i: nat)
    requires Usable(l) && i + 1 < |Pages(l)|
    ensures 0 < Hidden(l)
  {
    PagesAre(l);
    CeilDecides(Hidden(l), l.step, 0);
  }

  /** The page after moving on: one further, or the last. */
  function NextTarget(l: Layout, page: nat): nat
    requires Usable(l)
  {
    Max(0, Min(page + 1, |Pages(l)| - 1))
  }

  lemma NextTargetIsAPage(l: Layout, page: nat)
    requires Usable(l) && page < |Pages(l)|
    ensures NextTarget(l, page) == if page + 1 < |Pages(l)| then page + 1 else page
  {
  }

  /** A walk that reads the page, moves on, and reads again. */
  ghost predicate Walk(l: Layout, pages: seq<nat>)
    requires Usable(l)
  {
    && 0 < |Pages(l)| && 0 < |pages| && pages[0] == 0
    && forall k :: 0 <= k < |pages| - 1
         ==> NextTarget(l, pages[k]) < |Pages(l)|
             && IsActivePage(Pages(l)[NextTarget(l, pages[k])], Pages(l), Scrollable(l), pages[k + 1])
  }

  /** Moving on visits the pages one by one, and stays on the last. */
  lemma {:induction false} WalkVisitsEveryPage(l: Layout, pages: seq<nat>, k: nat)
    requires Usable(l) && Walk(l, pages) && k < |pages|
    ensures pages[k] == if k < |Pages(l)| then k else |Pages(l)| - 1
  {
    if 0 < k {
      WalkVisitsEveryPage(l, pages, k - 1);
      ScrollReadsBack(l, NextTarget(l, pages[k - 1]), pages[k]);
    }
  }
}
