/**
 Applying a reviewed CSV of refund kinds.

 The whole file is checked before anything is written; then the kinds are written in one transaction, and only where no
 kind is known. `UneditedFileFillsCandidates` follows a file from its writer through the parser to the table.
 */
module RefundKindBackfill {
  import opened Wrappers
  import opened Csv

  datatype Kind = ItemCancel | Return | PriceAdjustment | SubscriptionFee | PaymentError

  function KindName(k: Kind): string {
    match k
    case ItemCancel => "ITEM_CANCEL"
    case Return => "RETURN"
    case PriceAdjustment => "PRICE_ADJUSTMENT"
    case SubscriptionFee => "SUBSCRIPTION_FEE"
    case PaymentError => "PAYMENT_ERROR"
  }

  function KindOf(name: string): (k: Option<Kind>)
    ensures k.Some? ==> KindName(k.value) == name
    ensures k.None? ==> forall kind :: KindName(kind) != name
  {
    if name == "ITEM_CANCEL" then Some(ItemCancel)
    else if name == "RETURN" then Some(Return)
    else if name == "PRICE_ADJUSTMENT" then Some(PriceAdjustment)
    else if name == "SUBSCRIPTION_FEE" then Some(SubscriptionFee)
    else if name == "PAYMENT_ERROR" then Some(PaymentError)
    else None
  }

  /** White space and line terminators, as String.prototype.trim takes them. */
  predicate IsSpace(c: char) {
    || c in ['\t', '\n', '\r', ' '] || c == 11 as char || c == 12 as char || c == 0xA0 as char || c == 0x1680 as char
    || 0x2000 as char <= c <= 0x200A as char || c == 0x2028 as char || c == 0x2029 as char || c == 0x202F as char
    || c == 0x205F as char || c == 0x3000 as char || c == 0xFEFF as char
  }

  function Trim(s: string): string
    decreases |s|
  {
    if s == "" then ""
    else if IsSpace(s[0]) then Trim(s[1..])
    else if IsSpace(s[|s| - 1]) then Trim(s[..|s| - 1])
    else s
  }

  /** The first position of a cell, or -1. */
  function IndexOf(cells: Cells, value: string): (i: int)
    ensures -1 <= i < |cells| && (0 <= i ==> cells[i] == value) && (i < 0 ==> value !in cells)
    ensures forall j :: 0 <= j < i ==> cells[j] != value
  {
    if cells == [] then -1
    else if cells[0] == value then 0
    else var i := IndexOf(cells[1..], value); if i < 0 then -1 else i + 1
  }

  /** A missing cell reads as empty. */
  function CellOf(row: Cells, column: nat): string {
    if column < |row| then row[column] else ""
  }

  datatype Assignment = Assignment(id: string, kind: Kind)

  datatype FileError = NoColumns | UnknownKind(name: string)

  predicate Skipped(row: Cells, idColumn: nat, kindColumn: nat) {
    CellOf(row, idColumn) == "" || Trim(CellOf(row, kindColumn)) == ""
  }

  /** The assignments of the rows, in order, or the first unknown kind. */
  function Checked(rows: seq<Cells>, idColumn: nat, kindColumn: nat): Result<seq<Assignment>, FileError> {
    if rows == [] then Ok([])
    else
      var before := Checked(rows[..|rows| - 1], idColumn, kindColumn);
      var row := rows[|rows| - 1];
      if before.Err? || Skipped(row, idColumn, kindColumn) then before
      else
        var name := Trim(CellOf(row, kindColumn));
        match KindOf(name)
        case None => Err(UnknownKind(name))
        case Some(kind) => Ok(before.value + [Assignment(CellOf(row, idColumn), kind)])
  }

  function Assignments(text: string): Result<seq<Assignment>, FileError> {
    var rows := Parsed(text);
    if rows == [] then Err(NoColumns)
    else
      var idColumn, kindColumn := IndexOf(rows[0], "id"), IndexOf(rows[0], "candidate");
      if idColumn < 0 || kindColumn < 0 then Err(NoColumns) else Checked(rows[1..], idColumn, kindColumn)
  }

  /** The first assignment of a refund counts. */
  function FirstKind(todo: seq<Assignment>, id: string): Option<Kind> {
    if todo == [] then None
    else if todo[0].id == id then Some(todo[0].kind)
    else FirstKind(todo[1..], id)
  }

  function Assigned(kinds: map<string, Option<Kind>>, todo: seq<Assignment>): map<string, Option<Kind>> {
    map id | id in kinds :: if kinds[id].None? then FirstKind(todo, id) else kinds[id]
  }

  function Changed(before: map<string, Option<Kind>>, after: map<string, Option<Kind>>): set<string> {
    set id | id in before && id in after && before[id] != after[id]
  }

  lemma {:induction false} FirstKindOfBoth(todo: seq<Assignment>, last: Assignment, id: string)
    ensures FirstKind(todo + [last], id)
            == if FirstKind(todo, id).Some? then FirstKind(todo, id) else if last.id == id then Some(last.kind) else None
  {
    if todo == [] {
      assert todo + [last] == [last];
    } else {
      FirstKindOfBoth(todo[1..], last, id);
      assert (todo + [last])[1..] == todo[1..] + [last];
    }
  }

  /** One more update fills its refund if nothing before it did. */
  lemma AssignedStep(kinds: map<string, Option<Kind>>, todo: seq<Assignment>, last: Assignment)
    ensures var now := Assigned(kinds, todo);
            Assigned(kinds, todo + [last])
            == if last.id in now && now[last.id].None? then now[last.id := Some(last.kind)] else now
    ensures var now := Assigned(kinds, todo);
            Changed(kinds, Assigned(kinds, todo + [last]))
            == Changed(kinds, now) + (if last.id in now && now[last.id].None? then {last.id} else {})
  {
    forall id { FirstKindOfBoth(todo, last, id); }
  }

  class Refunds {
    var kinds: map<string, Option<Kind>>

    constructor (kinds: map<string, Option<Kind>>)
      ensures this.kinds == kinds
    {
      this.kinds := kinds;
    }

    /** UPDATE ... WHERE id = ... AND kind IS NULL, and the number of rows it changed. */
    method Fill(a: Assignment) returns (count: nat)
      modifies this
      ensures kinds == if a.id in old(kinds) && old(kinds)[a.id].None? then old(kinds)[a.id := Some(a.kind)] else old(kinds)
      ensures count == if a.id in old(kinds) && old(kinds)[a.id].None? then 1 else 0
    {
      count := 0;
      if a.id in kinds && kinds[a.id].None? {
        kinds, count := kinds[a.id := Some(a.kind)], 1;
      }
    }

    /** The transaction: all updates, one after the other. */
    method FillAll(todo: seq<Assignment>) returns (applied: nat)
      modifies this
      ensures kinds == Assigned(old(kinds), todo) && applied == |Changed(old(kinds), kinds)|
    {
      applied := 0;
      var n := 0;
      assert Assigned(kinds, []) == kinds && Changed(kinds, kinds) == {};
      while n < |todo|
        invariant n <= |todo| && kinds == Assigned(old(kinds), todo[..n])
        invariant applied == |Changed(old(kinds), kinds)|
      {
        assert todo[..n + 1] == todo[..n] + [todo[n]];
        AssignedStep(old(kinds), todo[..n], todo[n]);
        assert todo[n].id in kinds && kinds[todo[n].id].None? ==> todo[n].id !in Changed(old(kinds), kinds);
        var count := Fill(todo[n]);
        applied := applied + count;
        n := n + 1;
      }
      assert todo[..n] == todo;
    }

    /**
     A file that is not sound from end to end changes nothing. A sound one fills the refunds without a kind, each with
     its first assignment, and overwrites none; `applied` counts the refunds that changed.
     */
    method ApplyFromCsv(text: string) returns (r: Result<nat, FileError>)
      modifies this
      ensures r.Err? <==> Assignments(text).Err?
      ensures r.Err? ==> r.error == Assignments(text).error && kinds == old(kinds)
      ensures r.Ok? ==> kinds == Assigned(old(kinds), Assignments(text).value)
                        && r.value == |Changed(old(kinds), kinds)|
    {
      var parsed := ParseCsv(text);
      if parsed == [] {
        return Err(NoColumns);
      }
      var idColumn, kindColumn := IndexOf(parsed[0], "id"), IndexOf(parsed[0], "candidate");
      if idColumn < 0 || kindColumn < 0 {
        return Err(NoColumns);
      }
      var checked := CheckRows(parsed[1..], idColumn, kindColumn);
      match checked {
        case Err(error) => return Err(error);
        case Ok(todo) =>
          var applied := FillAll(todo);
          return Ok(applied);
      }
    }
  }

  method CheckRows(rows: seq<Cells>, idColumn: nat, kindColumn: nat) returns (r: Result<seq<Assignment>, FileError>)
    ensures r == Checked(rows, idColumn, kindColumn)
  {
    var todo: seq<Assignment>, n := [], 0;
    while n < |rows|
      invariant n <= |rows| && Checked(rows[..n], idColumn, kindColumn) == Ok(todo)
    {
      var row := rows[n];
      assert rows[..n + 1][..n] == rows[..n];
      if !Skipped(row, idColumn, kindColumn) {
        var kind := KindOf(Trim(CellOf(row, kindColumn)));
        if kind.None? {
          FirstErrorStays(rows, n + 1, idColumn, kindColumn);
          return Err(UnknownKind(Trim(CellOf(row, kindColumn))));
        }
        todo := todo + [Assignment(CellOf(row, idColumn), kind.value)];
      }
      n := n + 1;
    }
    assert rows[..n] == rows;
    return Ok(todo);
  }

  lemma {:induction false} FirstErrorStays(rows: seq<Cells>, n: nat, idColumn: nat, kindColumn: nat)
    requires n <= |rows| && Checked(rows[..n], idColumn, kindColumn).Err?
    ensures Checked(rows, idColumn, kindColumn) == Checked(rows[..n], idColumn, kindColumn)
    decreases |rows|
  {
    if n < |rows| {
      assert rows[..|rows| - 1][..n] == rows[..n];
      FirstErrorStays(rows[..|rows| - 1], n, idColumn, kindColumn);
    } else {
      assert rows[..n] == rows;
    }
  }

  // ---- From the writer to the table ------------------------------------------------------------------------

  datatype Candidate = Candidate(id: string, amount: string, createdAt: string, reasonCode: string, reasonMessage: string,
                                 kind: Kind)

  const CSV_HEADER: Cells := ["id", "amount", "created_at", "reason_code", "reason_message", "candidate"]

  function CellsOf(c: Candidate): Cells {
    [c.id, c.amount, c.createdAt, c.reasonCode, c.reasonMessage, KindName(c.kind)]
  }

  function CandidateRows(candidates: seq<Candidate>): seq<Cells> {
    seq(|candidates|, i requires 0 <= i < |candidates| => CellsOf(candidates[i]))
  }

  function AssignmentsOf(candidates: seq<Candidate>): seq<Assignment> {
    if candidates == [] then []
    else
      var last := candidates[|candidates| - 1];
      AssignmentsOf(candidates[..|candidates| - 1]) + [Assignment(last.id, last.kind)]
  }

  /** Rows too short for an id or a kind are skipped, like rows whose kind was removed. */
  lemma ShortRowsAreSkipped(rows: seq<Cells>, row: Cells, idColumn: nat, kindColumn: nat)
    requires |row| <= idColumn || |row| <= kindColumn
    ensures Checked(rows + [row], idColumn, kindColumn) == Checked(rows, idColumn, kindColumn)
  {
    assert (rows + [row])[..|rows|] == rows;
  }

  // ---- What an editor may leave in the column of kinds -----------------------------------------------------

  /** The white space and line ends of ECMA-262, sections 12.2 and 12.3. */
  const WHITE_SPACE: set<int> := {9, 10, 11, 12, 13, 32, 160, 5760, 8192, 8193, 8194, 8195, 8196, 8197, 8198, 8199, 8200,
                                  8201, 8202, 8232, 8233, 8239, 8287, 12288, 65279}

  lemma SpaceExactly(c: char)
    ensures IsSpace(c) <==> c as int in WHITE_SPACE
  {
  }

  predicate AllSpace(text: string) {
    forall i :: 0 <= i < |text| ==> IsSpace(text[i])
  }

  /** The name of a kind, with white space around it. */
  ghost predicate Says(mark: string, kind: Kind) {
    exists before, after :: AllSpace(before) && AllSpace(after) && mark == before + KindName(kind) + after
  }

  predicate Bare(text: string) {
    text == "" || (!IsSpace(text[0]) && !IsSpace(text[|text| - 1]))
  }

  lemma {:induction false} TrimDropsSpace(before: string, core: string, after: string)
    requires AllSpace(before) && AllSpace(after) && Bare(core)
    ensures Trim(before + core + after) == core
    decreases |before| + |after|
  {
    var text := before + core + after;
    if before != "" {
      assert text[0] == before[0] && text[1..] == before[1..] + core + after;
      TrimDropsSpace(before[1..], core, after);
    } else if after != "" {
      assert text[|text| - 1] == after[|after| - 1] && text[..|text| - 1] == before + core + after[..|after| - 1];
      TrimDropsSpace(before, core, after[..|after| - 1]);
      if core == "" && |after| > 1 {
        assert text[1..] == before + core + after[1..];
        TrimDropsSpace(before, core, after[1..]);
      }
    } else {
      assert text == core;
    }
  }

  lemma SpaceInFront(c: char, text: string, before: string, core: string, after: string)
    requires IsSpace(c) && AllSpace(before) && text == before + core + after
    ensures AllSpace([c] + before) && [c] + text == [c] + before + core + after
  {
    assert [c] + (before + core + after) == [c] + before + core + after;
  }

  lemma SpaceBehind(c: char, text: string, before: string, core: string, after: string)
    requires IsSpace(c) && AllSpace(after) && text == before + core + after
    ensures AllSpace(after + [c]) && text + [c] == before + core + (after + [c])
  {
    assert before + core + after + [c] == before + core + (after + [c]);
  }

  /** A text is its trimmed self with white space around it. */
  lemma {:induction false} TrimLeavesCore(text: string) returns (before: string, after: string)
    ensures AllSpace(before) && AllSpace(after) && Bare(Trim(text)) && text == before + Trim(text) + after
    decreases |text|
  {
    before, after := "", "";
    if text != "" {
      if IsSpace(text[0]) {
        before, after := TrimLeavesCore(text[1..]);
        SpaceInFront(text[0], text[1..], before, Trim(text), after);
        before := [text[0]] + before;
      } else if IsSpace(text[|text| - 1]) {
        before, after := TrimLeavesCore(text[..|text| - 1]);
        SpaceBehind(text[|text| - 1], text[..|text| - 1], before, Trim(text), after);
        after := after + [text[|text| - 1]];
      }
    }
  }

  lemma MarkReads(mark: string)
    ensures AllSpace(mark) <==> Trim(mark) == ""
    ensures forall kind :: Says(mark, kind) <==> KindOf(Trim(mark)) == Some(kind)
  {
    if AllSpace(mark) {
      assert mark == mark + "" + "";
      TrimDropsSpace(mark, "", "");
    }
    var before, after := TrimLeavesCore(mark);
    assert Trim(mark) == "" ==> mark == before + after;
    forall kind ensures Says(mark, kind) <==> KindOf(Trim(mark)) == Some(kind) {
      KindNameIsBare(kind);
      if Says(mark, kind) {
        var left, right :| AllSpace(left) && AllSpace(right) && mark == left + KindName(kind) + right;
        TrimDropsSpace(left, KindName(kind), right);
      }
    }
  }

  lemma KindNameIsBare(k: Kind)
    ensures Bare(KindName(k)) && KindName(k) != "" && KindOf(KindName(k)) == Some(k)
  {
    assert KindName(k)[0] == FirstLetter(k);
    NamesDiffer(k, KindOf(KindName(k)).value);
  }

  lemma KindNameIsTrimmed(k: Kind)
    ensures Trim(KindName(k)) == KindName(k) && KindName(k) != "" && KindOf(KindName(k)) == Some(k)
  {
    KindNameIsBare(k);
    assert "" + KindName(k) + "" == KindName(k);
    TrimDropsSpace("", KindName(k), "");
  }

  lemma NamesDiffer(k: Kind, other: Kind)
    ensures KindName(k) == KindName(other) ==> k == other
  {
    assert FirstLetter(k) == FirstLetter(other) ==> k == other || |KindName(k)| != |KindName(other)|;
  }

  function FirstLetter(k: Kind): (c: char)
    ensures c == KindName(k)[0]
  {
    match k
    case ItemCancel => 'I'
    case Return => 'R'
    case PriceAdjustment => 'P'
    case SubscriptionFee => 'S'
    case PaymentError => 'P'
  }

  /** A row of the reviewed file: a candidate, and what its editor left in its column. */
  datatype Review = Review(c: Candidate, mark: string)

  function ReviewedCells(r: Review): Cells {
    [r.c.id, r.c.amount, r.c.createdAt, r.c.reasonCode, r.c.reasonMessage, r.mark]
  }

  function ReviewedRows(reviews: seq<Review>): seq<Cells> {
    seq(|reviews|, i requires 0 <= i < |reviews| => ReviewedCells(reviews[i]))
  }

  /** What a mark says: a kind, or nothing where the column was emptied. */
  ghost predicate Marks(mark: string, kind: Option<Kind>) {
    if kind.None? then AllSpace(mark) else Says(mark, kind.value)
  }

  ghost predicate Decides(reviews: seq<Review>, kinds: seq<Option<Kind>>) {
    |kinds| == |reviews| && forall i :: 0 <= i < |reviews| ==> Marks(reviews[i].mark, kinds[i])
  }

  function Decided(reviews: seq<Review>, kinds: seq<Option<Kind>>): seq<Assignment>
    requires |kinds| == |reviews|
  {
    if reviews == [] then []
    else
      var n := |reviews| - 1;
      Decided(reviews[..n], kinds[..n]) + (if kinds[n].None? then [] else [Assignment(reviews[n].c.id, kinds[n].value)])
  }

  lemma ReviewedStep(reviews: seq<Review>)
    requires reviews != []
    ensures ReviewedRows(reviews) == ReviewedRows(reviews[..|reviews| - 1]) + [ReviewedCells(reviews[|reviews| - 1])]
  {
  }

  lemma ReviewIsChecked(rows: seq<Cells>, r: Review)
    requires r.c.id != "" && Checked(rows, 0, 5).Ok?
    ensures AllSpace(r.mark) ==> Checked(rows + [ReviewedCells(r)], 0, 5) == Checked(rows, 0, 5)
    ensures forall kind :: Says(r.mark, kind) ==>
              Checked(rows + [ReviewedCells(r)], 0, 5) == Ok(Checked(rows, 0, 5).value + [Assignment(r.c.id, kind)])
    ensures !AllSpace(r.mark) && (forall kind :: !Says(r.mark, kind)) ==>
              Checked(rows + [ReviewedCells(r)], 0, 5) == Err(UnknownKind(Trim(r.mark)))
  {
    var row := ReviewedCells(r);
    assert (rows + [row])[..|rows|] == rows;
    MarkReads(r.mark);
    assert CellOf(row, 0) == r.c.id && CellOf(row, 5) == r.mark;
    if AllSpace(r.mark) {
      KindNamesAreNotEmpty();
    } else if KindOf(Trim(r.mark)).Some? {
      assert Says(r.mark, KindOf(Trim(r.mark)).value);
    }
  }

  lemma KindNamesAreNotEmpty()
    ensures KindOf("").None?
  {
    if KindOf("").Some? {
      KindNameIsBare(KindOf("").value);
    }
  }

  lemma MarkedReview(rows: seq<Cells>, r: Review, kind: Option<Kind>)
    requires r.c.id != "" && Checked(rows, 0, 5).Ok? && Marks(r.mark, kind)
    ensures Checked(rows + [ReviewedCells(r)], 0, 5)
            == Ok(Checked(rows, 0, 5).value + (if kind.None? then [] else [Assignment(r.c.id, kind.value)]))
  {
    ReviewIsChecked(rows, r);
    if kind.None? {
      assert Checked(rows, 0, 5).value + [] == Checked(rows, 0, 5).value;
    }
  }

  lemma {:induction false} ReviewsAreChecked(reviews: seq<Review>, kinds: seq<Option<Kind>>)
    requires Decides(reviews, kinds) && forall r :: r in reviews ==> r.c.id != ""
    ensures Checked(ReviewedRows(reviews), 0, 5) == Ok(Decided(reviews, kinds))
  {
    if reviews != [] {
      var n := |reviews| - 1;
      assert Decides(reviews[..n], kinds[..n]) && reviews[n] in reviews;
      ReviewsAreChecked(reviews[..n], kinds[..n]);
      ReviewedStep(reviews);
      MarkedReview(ReviewedRows(reviews[..n]), reviews[n], kinds[n]);
    }
  }

  lemma ReviewedRowsAreNonBlank(reviews: seq<Review>)
    requires forall r :: r in reviews ==> r.c.id != ""
    ensures forall row :: row in [CSV_HEADER] + ReviewedRows(reviews) ==> NonBlank(row)
  {
    forall row | row in [CSV_HEADER] + ReviewedRows(reviews) ensures NonBlank(row) {
      if row in ReviewedRows(reviews) {
        var i :| 0 <= i < |reviews| && row == ReviewedCells(reviews[i]);
        assert row[0] in row;
      } else {
        assert CSV_HEADER[0] in CSV_HEADER;
      }
    }
  }

  lemma ReviewedFileIsChecked(reviews: seq<Review>, text: string)
    requires IsFileOf(text, [CSV_HEADER] + ReviewedRows(reviews)) && forall r :: r in reviews ==> r.c.id != ""
    ensures Assignments(text) == Checked(ReviewedRows(reviews), 0, 5)
  {
    var rows := [CSV_HEADER] + ReviewedRows(reviews);
    ReviewedRowsAreNonBlank(reviews);
    ParseUndoesSave(text, rows);
    HeaderColumns();
    assert rows[1..] == ReviewedRows(reviews);
  }

  /**
   A reviewed file, whatever its reasons contain and whatever quotes and line ends the editor's program wrote, assigns
   the kinds the editor left or put in, and skips the rows whose kind was removed.
   */
  lemma ReviewedFileAssigns(reviews: seq<Review>, kinds: seq<Option<Kind>>, text: string)
    requires IsFileOf(text, [CSV_HEADER] + ReviewedRows(reviews)) && forall r :: r in reviews ==> r.c.id != ""
    requires Decides(reviews, kinds)
    ensures Assignments(text) == Ok(Decided(reviews, kinds))
  {
    ReviewedFileIsChecked(reviews, text);
    ReviewsAreChecked(reviews, kinds);
  }

  lemma UnknownMark(reviews: seq<Review>, n: nat, kinds: seq<Option<Kind>>)
    requires n < |reviews| && Decides(reviews[..n], kinds) && forall r :: r in reviews ==> r.c.id != ""
    requires !AllSpace(reviews[n].mark) && forall kind :: !Says(reviews[n].mark, kind)
    ensures Checked(ReviewedRows(reviews), 0, 5) == Err(UnknownKind(Trim(reviews[n].mark)))
  {
    UnknownMarkAtEnd(reviews, n, kinds);
    ReviewedPrefix(reviews, n + 1);
    FirstErrorStays(ReviewedRows(reviews), n + 1, 0, 5);
  }

  lemma UnknownMarkAtEnd(reviews: seq<Review>, n: nat, kinds: seq<Option<Kind>>)
    requires n < |reviews| && Decides(reviews[..n], kinds) && forall r :: r in reviews ==> r.c.id != ""
    requires !AllSpace(reviews[n].mark) && forall kind :: !Says(reviews[n].mark, kind)
    ensures Checked(ReviewedRows(reviews[..n + 1]), 0, 5) == Err(UnknownKind(Trim(reviews[n].mark)))
  {
    ReviewsAreChecked(reviews[..n], kinds);
    ReviewIsChecked(ReviewedRows(reviews[..n]), reviews[n]);
    ReviewedStep(reviews[..n + 1]);
    assert reviews[..n + 1][..n] == reviews[..n];
  }

  lemma ReviewedPrefix(reviews: seq<Review>, n: nat)
    requires n <= |reviews|
    ensures ReviewedRows(reviews)[..n] == ReviewedRows(reviews[..n])
  {
  }

  /** One mark that is neither empty nor a kind makes the whole file unsound: the first such one is reported. */
  lemma UnknownMarkFails(reviews: seq<Review>, n: nat, kinds: seq<Option<Kind>>, text: string)
    requires IsFileOf(text, [CSV_HEADER] + ReviewedRows(reviews)) && forall r :: r in reviews ==> r.c.id != ""
    requires n < |reviews| && Decides(reviews[..n], kinds)
    requires !AllSpace(reviews[n].mark) && forall kind :: !Says(reviews[n].mark, kind)
    ensures Assignments(text) == Err(UnknownKind(Trim(reviews[n].mark)))
  {
    ReviewedFileIsChecked(reviews, text);
    UnknownMark(reviews, n, kinds);
  }

  function Unedited(candidates: seq<Candidate>): seq<Review> {
    seq(|candidates|, i requires 0 <= i < |candidates| => Review(candidates[i], KindName(candidates[i].kind)))
  }

  function KindsOf(candidates: seq<Candidate>): seq<Option<Kind>> {
    seq(|candidates|, i requires 0 <= i < |candidates| => Some(candidates[i].kind))
  }

  lemma {:induction false} UneditedDecides(candidates: seq<Candidate>)
    ensures Decided(Unedited(candidates), KindsOf(candidates)) == AssignmentsOf(candidates)
  {
    if candidates != [] {
      var n := |candidates| - 1;
      UneditedDecides(candidates[..n]);
      assert Unedited(candidates)[..n] == Unedited(candidates[..n]) && KindsOf(candidates)[..n] == KindsOf(candidates[..n]);
    }
  }

  lemma UneditedMarks(candidates: seq<Candidate>)
    ensures Decides(Unedited(candidates), KindsOf(candidates))
  {
    forall i | 0 <= i < |candidates| ensures Marks(KindName(candidates[i].kind), Some(candidates[i].kind)) {
      var name := KindName(candidates[i].kind);
      assert AllSpace("") && name == "" + name + "";
    }
  }

  lemma UneditedRows(candidates: seq<Candidate>)
    ensures ReviewedRows(Unedited(candidates)) == CandidateRows(candidates)
  {
  }

  /** A file nobody edited, as written or as another program saved it, assigns every candidate its kind. */
  lemma UneditedFileFillsCandidates(candidates: seq<Candidate>, text: string)
    requires forall c :: c in candidates ==> c.id != ""
    requires IsFileOf(text, [CSV_HEADER] + CandidateRows(candidates))
    ensures Assignments(text) == Ok(AssignmentsOf(candidates))
    ensures Assignments(Written([CSV_HEADER] + CandidateRows(candidates))) == Ok(AssignmentsOf(candidates))
  {
    UneditedMarks(candidates);
    UneditedRows(candidates);
    UneditedDecides(candidates);
    ReviewedFileAssigns(Unedited(candidates), KindsOf(candidates), text);
    WrittenIsFile([CSV_HEADER] + CandidateRows(candidates));
    ReviewedFileAssigns(Unedited(candidates), KindsOf(candidates), Written([CSV_HEADER] + CandidateRows(candidates)));
  }

  lemma HeaderColumns()
    ensures IndexOf(CSV_HEADER, "id") == 0 && IndexOf(CSV_HEADER, "candidate") == 5
  {
    assert CSV_HEADER[0] == "id" && CSV_HEADER[5] == "candidate";
    assert |CSV_HEADER[0]| == 2 && |CSV_HEADER[1]| == 6 && |CSV_HEADER[2]| == 10 && |CSV_HEADER[3]| == 11
        && |CSV_HEADER[4]| == 14 && |CSV_HEADER[5]| == 9;
  }
}
