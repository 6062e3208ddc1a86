/**
 The guarded cutover cleanup: an audit is taken and sealed; later, in one transaction, the live state must still be
 the audited one, then the twelve delete steps run, and the result is checked, committed, or rolled back.

 `CutoverDatabase.Cleanup` is the transaction. Its contract says when it succeeds, that a failure or a dry run leaves
 the data as it was, and that a committed run leaves exactly the rows the predicates do not select.
 */
module FulfillmentCleanup {
  import opened Wrappers
  import opened CanonicalJson
  import opened AuditArtifact
  import opened CleanupSchema
  import Stock = StockReconciliation

  // ---- The audited state -----------------------------------------------------------------------------------

  /** What the audit reads besides the data modelled here; `rest` holds the sections nothing below inspects. */
  datatype Observation = Observation(journals: nat, shipEvents: nat, invalidCreatedAt: nat, v2Rows: nat, rest: Json)

  datatype AuditState = AuditState(counts: seq<nat>, closure: seq<EdgeCount>, seen: Observation)

  datatype Fingerprint = Fingerprint(rows: nat, digest: Text)

  datatype Section =
    | ProtectedTable(name: string, appendOnly: bool)
    | UnrelatedOutboxEvents
    | NonFulfillmentReservations

  const PROTECTED: seq<Section> := [
    ProtectedTable("sales_orders", false), ProtectedTable("sales_order_lines", false), ProtectedTable("skus", false),
    ProtectedTable("warehouses", false), ProtectedTable("locations", false), ProtectedTable("stock_journals", false),
    ProtectedTable("stock_events", false), ProtectedTable("stock_ledgers", false), ProtectedTable("audit_logs", true),
    ProtectedTable("order_events", true), UnrelatedOutboxEvents, NonFulfillmentReservations
  ]

  predicate InSection(section: Section, auditedAt: int, id: RowId, row: Row) {
    match section
    case ProtectedTable(name, appendOnly) =>
      id.table == Other(name) && (appendOnly ==> row.columns.Dated? && row.columns.createdAt <= auditedAt)
    case UnrelatedOutboxEvents => id.table == OutboxEvents && !Covered(id, row)
    case NonFulfillmentReservations => id.table == StockReservations && !Covered(id, row)
  }

  function SectionRows(section: Section, auditedAt: int, db: Db): Db {
    map id | id in db && InSection(section, auditedAt, id, db[id]) :: db[id]
  }

  /** The parts of the surroundings that stay abstract. */
  datatype Env = Env(
    crypto: Crypto,
    schema: Schema,
    observe: Db -> Observation,
    digest: Db -> Text,
    ledger: Db -> Stock.Ledger,
    events: Db -> seq<Stock.Event>,
    affected: Db -> seq<Stock.Pair>,
    readBody: Json -> AuditBody,
    allowlist: Json,
    identity: Json,
    lockFree: bool,
    production: bool)

  function FingerprintOf(env: Env, section: Section, auditedAt: int, db: Db): Fingerprint {
    var rows := SectionRows(section, auditedAt, db);
    Fingerprint(|rows|, env.digest(rows))
  }

  function ProtectedFingerprints(env: Env, auditedAt: int, db: Db): seq<Fingerprint> {
    seq(|PROTECTED|, i requires 0 <= i < |PROTECTED| => FingerprintOf(env, PROTECTED[i], auditedAt, db))
  }

  function Counts(db: Db): seq<nat> {
    seq(|CLEANUP_TABLES|, i requires 0 <= i < |CLEANUP_TABLES| => |CoveredIn(db, CLEANUP_TABLES[i])|)
  }

  function CollectAuditState(env: Env, db: Db): AuditState {
    AuditState(Counts(db), ForeignKeyClosure(db, env.schema), env.observe(db))
  }

  datatype Blocker = ShipEvidence | UncoveredReference(edge: EdgeCount) | InvalidTombstones | V2RowsExist

  function UncoveredEdges(closure: seq<EdgeCount>): seq<Blocker> {
    if closure == [] then []
    else (if closure[0].uncovered > 0 then [UncoveredReference(closure[0])] else []) + UncoveredEdges(closure[1..])
  }

  function CollectBlockers(s: AuditState): seq<Blocker> {
    (if s.seen.journals > 0 || s.seen.shipEvents > 0 then [ShipEvidence] else [])
      + UncoveredEdges(s.closure)
      + (if s.seen.invalidCreatedAt > 0 then [InvalidTombstones] else [])
      + (if s.seen.v2Rows > 0 then [V2RowsExist] else [])
  }

  lemma {:induction false} NoUncoveredEdges(closure: seq<EdgeCount>)
    ensures UncoveredEdges(closure) == [] <==> ClosureIsCovered(closure)
  {
    if closure != [] {
      NoUncoveredEdges(closure[1..]);
      assert closure == [closure[0]] + closure[1..];
    }
  }

  /** An audit has no blockers exactly if nothing was shipped, every reference is covered and no row is out of place. */
  lemma NoBlockersExactly(s: AuditState)
    ensures CollectBlockers(s) == [] <==>
      && s.seen.journals == 0 && s.seen.shipEvents == 0 && ClosureIsCovered(s.closure)
      && s.seen.invalidCreatedAt == 0 && s.seen.v2Rows == 0
  {
    NoUncoveredEdges(s.closure);
    assert |CollectBlockers(s)| >= |UncoveredEdges(s.closure)|;
  }

  // ---- The state as JSON -----------------------------------------------------------------------------------

  function EdgeOf(constraint: Json, referencing: Json, uncovered: Json): Json {
    Obj([Field(Ascii("constraint"), constraint), Field(Ascii("referencingRows"), referencing),
         Field(Ascii("uncoveredReferencingRows"), uncovered)])
  }

  function EvidenceOf(journals: Json, events: Json): Json {
    Obj([Field(Ascii("journals"), journals), Field(Ascii("events"), events)])
  }

  function StateOf(counts: Json, stock: Json, evidence: Json, closure: Json, replay: Json, v2: Json): Json {
    Obj([Field(Ascii("counts"), counts), Field(Ascii("affectedStock"), stock), Field(Ascii("shipEvidence"), evidence),
         Field(Ascii("foreignKeyClosure"), closure), Field(Ascii("replaySafety"), replay), Field(Ascii("v2Rows"), v2)])
  }

  function Numbers(ns: seq<nat>): seq<Json> {
    seq(|ns|, i requires 0 <= i < |ns| => Count(ns[i]))
  }

  function EdgeJson(e: EdgeCount): Json {
    EdgeOf(Str(Ascii(e.constraint)), Count(e.referencing), Count(e.uncovered))
  }

  function EdgesJson(closure: seq<EdgeCount>): seq<Json> {
    seq(|closure|, i requires 0 <= i < |closure| => EdgeJson(closure[i]))
  }

  function EvidenceJson(o: Observation): Json {
    EvidenceOf(Count(o.journals), Count(o.shipEvents))
  }

  function StateJson(s: AuditState): Json {
    StateOf(Arr(Numbers(s.counts)), s.seen.rest, EvidenceJson(s.seen), Arr(EdgesJson(s.closure)),
            Count(s.seen.invalidCreatedAt), Count(s.seen.v2Rows))
  }

  lemma Letters()
    ensures Ascii("counts")[0] == 0x63 && Ascii("affectedStock")[0] == 0x61 && Ascii("shipEvidence")[0] == 0x73
    ensures Ascii("foreignKeyClosure")[0] == 0x66 && Ascii("replaySafety")[0] == 0x72 && Ascii("v2Rows")[0] == 0x76
    ensures Ascii("constraint")[0] == 0x63 && Ascii("referencingRows")[0] == 0x72
    ensures Ascii("uncoveredReferencingRows")[0] == 0x75
    ensures Ascii("journals")[0] == 0x6A && Ascii("events")[0] == 0x65
  {
  }

  predicate Sound(v: Json) {
    WellFormed(v) && Plain(v)
  }

  lemma ObjectIsSound(fs: seq<Field>)
    requires Distinct(Keys(fs)) && forall i :: 0 <= i < |fs| ==> Sound(fs[i].value)
    ensures Sound(Obj(fs))
  {
  }

  lemma FirstLettersTell(keys: seq<Text>)
    requires forall i :: 0 <= i < |keys| ==> keys[i] != []
    requires forall i, j :: 0 <= i < j < |keys| ==> keys[i][0] != keys[j][0]
    ensures Distinct(keys)
  {
  }

  lemma EdgeOfIsSound(constraint: Json, referencing: Json, uncovered: Json)
    requires Sound(constraint) && Sound(referencing) && Sound(uncovered)
    ensures Sound(EdgeOf(constraint, referencing, uncovered))
  {
    Letters();
    var fs := EdgeOf(constraint, referencing, uncovered).fields;
    assert Keys(fs)[0][0] == 0x63 && Keys(fs)[1][0] == 0x72 && Keys(fs)[2][0] == 0x75;
    FirstLettersTell(Keys(fs));
    ObjectIsSound(fs);
  }

  lemma EvidenceOfIsSound(journals: Json, events: Json)
    requires Sound(journals) && Sound(events)
    ensures Sound(EvidenceOf(journals, events))
  {
    Letters();
    var fs := EvidenceOf(journals, events).fields;
    assert Keys(fs)[0][0] == 0x6A && Keys(fs)[1][0] == 0x65;
  }

  lemma StateKeysDiffer(counts: Json, stock: Json, evidence: Json, closure: Json, replay: Json, v2: Json)
    ensures Distinct(Keys(StateOf(counts, stock, evidence, closure, replay, v2).fields))
  {
    Letters();
    var keys := Keys(StateOf(counts, stock, evidence, closure, replay, v2).fields);
    assert keys[0][0] == 0x63 && keys[1][0] == 0x61 && keys[2][0] == 0x73;
    assert keys[3][0] == 0x66 && keys[4][0] == 0x72 && keys[5][0] == 0x76;
    FirstLettersTell(keys);
  }

  lemma StateOfIsSound(counts: Json, stock: Json, evidence: Json, closure: Json, replay: Json, v2: Json)
    requires Sound(counts) && Sound(stock) && Sound(evidence) && Sound(closure) && Sound(replay) && Sound(v2)
    ensures Sound(StateOf(counts, stock, evidence, closure, replay, v2))
  {
    StateKeysDiffer(counts, stock, evidence, closure, replay, v2);
    var fs := StateOf(counts, stock, evidence, closure, replay, v2).fields;
    ObjectIsSound(fs);
  }

  lemma CountIsSound(n: nat)
    ensures Sound(Count(n))
  {
  }

  lemma ArraysAreSound(s: AuditState)
    ensures Sound(Arr(Numbers(s.counts))) && Sound(Arr(EdgesJson(s.closure)))
  {
    forall n | n in s.counts { CountIsSound(n); }
    forall e | e in s.closure ensures Sound(EdgeJson(e)) {
      CountIsSound(e.referencing);
      CountIsSound(e.uncovered);
      EdgeOfIsSound(Str(Ascii(e.constraint)), Count(e.referencing), Count(e.uncovered));
    }
  }

  lemma StateJsonIsSound(s: AuditState)
    requires Sound(s.seen.rest)
    ensures Sound(StateJson(s))
  {
    ArraysAreSound(s);
    CountIsSound(s.seen.journals);
    CountIsSound(s.seen.shipEvents);
    CountIsSound(s.seen.invalidCreatedAt);
    CountIsSound(s.seen.v2Rows);
    EvidenceOfIsSound(Count(s.seen.journals), Count(s.seen.shipEvents));
    StateOfIsSound(Arr(Numbers(s.counts)), s.seen.rest, EvidenceJson(s.seen), Arr(EdgesJson(s.closure)),
                   Count(s.seen.invalidCreatedAt), Count(s.seen.v2Rows));
  }

  /** Objects with the same keys in the same order are equal field by field. */
  lemma FieldByField(fs: seq<Field>, gs: seq<Field>, i: nat)
    requires Distinct(Keys(fs)) && Keys(fs) == Keys(gs) && i < |fs|
    requires EqualUpToKeyOrder(Obj(fs), Obj(gs))
    ensures |gs| == |fs| && EqualUpToKeyOrder(fs[i].value, gs[i].value)
  {
    assert |Keys(fs)| == |fs| && |Keys(gs)| == |gs|;
    var k := Keys(fs)[i];
    assert k in Keys(fs) && k == Keys(gs)[i];
    var m, n := IndexOfKey(fs, k), IndexOfKey(gs, k);
    assert Keys(fs)[m] == k && Keys(gs)[n] == k;
    assert m == i && n == i;
  }

  lemma StateOfFields(a: seq<Json>, b: seq<Json>)
    requires |a| == |b| == 6 && Sound(StateOf(a[0], a[1], a[2], a[3], a[4], a[5]))
    requires EqualUpToKeyOrder(StateOf(a[0], a[1], a[2], a[3], a[4], a[5]), StateOf(b[0], b[1], b[2], b[3], b[4], b[5]))
    ensures forall i :: 0 <= i < 6 ==> EqualUpToKeyOrder(a[i], b[i])
  {
    var fs := StateOf(a[0], a[1], a[2], a[3], a[4], a[5]).fields;
    var gs := StateOf(b[0], b[1], b[2], b[3], b[4], b[5]).fields;
    assert Keys(fs) == Keys(gs);
    forall i: nat | i < 6 ensures EqualUpToKeyOrder(a[i], b[i]) {
      FieldByField(fs, gs, i);
      assert fs[i].value == a[i] && gs[i].value == b[i];
    }
  }

  lemma CountsRead(m: nat, n: nat)
    requires EqualUpToKeyOrder(Count(m), Count(n))
    ensures m == n
  {
    CountInjective(m, n);
  }

  lemma EqualEdges(a: EdgeCount, b: EdgeCount)
    requires Sound(EdgeJson(a)) && EqualUpToKeyOrder(EdgeJson(a), EdgeJson(b))
    ensures a.uncovered == b.uncovered
  {
    var fs, gs := EdgeJson(a).fields, EdgeJson(b).fields;
    assert Keys(fs) == Keys(gs);
    FieldByField(fs, gs, 2);
    CountsRead(a.uncovered, b.uncovered);
  }

  lemma CountsEqual(a: seq<nat>, b: seq<nat>)
    requires EqualUpToKeyOrder(Arr(Numbers(a)), Arr(Numbers(b)))
    ensures a == b
  {
    assert |Numbers(a)| == |a| && |Numbers(b)| == |b|;
    forall i | 0 <= i < |a| ensures a[i] == b[i] {
      assert EqualUpToKeyOrder(Numbers(a)[i], Numbers(b)[i]);
      CountsRead(a[i], b[i]);
    }
  }

  lemma EvidenceEqual(a: Observation, b: Observation)
    requires Sound(EvidenceJson(a)) && EqualUpToKeyOrder(EvidenceJson(a), EvidenceJson(b))
    ensures a.journals == b.journals && a.shipEvents == b.shipEvents
  {
    var fs, gs := EvidenceJson(a).fields, EvidenceJson(b).fields;
    assert Keys(fs) == Keys(gs);
    FieldByField(fs, gs, 0);
    FieldByField(fs, gs, 1);
    CountsRead(a.journals, b.journals);
    CountsRead(a.shipEvents, b.shipEvents);
  }

  lemma ClosuresEqual(a: seq<EdgeCount>, b: seq<EdgeCount>)
    requires Sound(Arr(EdgesJson(a))) && EqualUpToKeyOrder(Arr(EdgesJson(a)), Arr(EdgesJson(b)))
    ensures ClosureIsCovered(a) <==> ClosureIsCovered(b)
  {
    var xs, ys := EdgesJson(a), EdgesJson(b);
    assert |a| == |xs| == |ys| == |b|;
    forall i | 0 <= i < |a| ensures a[i].uncovered == b[i].uncovered {
      assert EqualUpToKeyOrder(xs[i], ys[i]);
      EqualEdges(a[i], b[i]);
    }
    assert forall e :: e in a <==> exists i :: 0 <= i < |a| && a[i] == e;
    assert forall e :: e in b <==> exists i :: 0 <= i < |b| && b[i] == e;
  }

  /** Equal state texts mean equal evidence, counts and uncovered references. */
  lemma EqualStates(s: AuditState, t: AuditState)
    requires Sound(s.seen.rest) && Sound(t.seen.rest)
    requires Print(StateJson(s)) == Print(StateJson(t))
    ensures ClosureIsCovered(s.closure) <==> ClosureIsCovered(t.closure)
    ensures s.seen.journals == t.seen.journals && s.seen.shipEvents == t.seen.shipEvents
    ensures s.seen.invalidCreatedAt == t.seen.invalidCreatedAt && s.seen.v2Rows == t.seen.v2Rows
    ensures s.counts == t.counts
  {
    StateJsonIsSound(s);
    StateJsonIsSound(t);
    CanonicalTextIdentifiesJson(StateJson(s), StateJson(t));
    EqualStateJson(s, t);
  }

  lemma EqualStateJson(s: AuditState, t: AuditState)
    requires Sound(s.seen.rest) && EqualUpToKeyOrder(StateJson(s), StateJson(t))
    ensures ClosureIsCovered(s.closure) <==> ClosureIsCovered(t.closure)
    ensures s.seen.journals == t.seen.journals && s.seen.shipEvents == t.seen.shipEvents
    ensures s.seen.invalidCreatedAt == t.seen.invalidCreatedAt && s.seen.v2Rows == t.seen.v2Rows
    ensures s.counts == t.counts
  {
    StateJsonIsSound(s);
    ArraysAreSound(s);
    var a := [Arr(Numbers(s.counts)), s.seen.rest, EvidenceJson(s.seen), Arr(EdgesJson(s.closure)),
              Count(s.seen.invalidCreatedAt), Count(s.seen.v2Rows)];
    var b := [Arr(Numbers(t.counts)), t.seen.rest, EvidenceJson(t.seen), Arr(EdgesJson(t.closure)),
              Count(t.seen.invalidCreatedAt), Count(t.seen.v2Rows)];
    StateOfFields(a, b);
    assert EqualUpToKeyOrder(a[0], b[0]) && EqualUpToKeyOrder(a[2], b[2]) && EqualUpToKeyOrder(a[3], b[3]);
    assert EqualUpToKeyOrder(a[4], b[4]) && EqualUpToKeyOrder(a[5], b[5]);
    CountsEqual(s.counts, t.counts);
    CountIsSound(s.seen.journals);
    CountIsSound(s.seen.shipEvents);
    EvidenceOfIsSound(Count(s.seen.journals), Count(s.seen.shipEvents));
    EvidenceEqual(s.seen, t.seen);
    ClosuresEqual(s.closure, t.closure);
    CountsRead(s.seen.invalidCreatedAt, t.seen.invalidCreatedAt);
    CountsRead(s.seen.v2Rows, t.seen.v2Rows);
  }

  // ---- The audit -------------------------------------------------------------------------------------------

  datatype Mode = Legacy | Maintenance | V2

  datatype AuditBody = AuditBody(
    generatedAt: int,
    database: Json,
    workflowMode: Mode,
    cutoverAt: int,
    allowlist: Json,
    auditStateHash: Text,
    affected: seq<Stock.Pair>,
    protectedFingerprints: seq<Fingerprint>,
    blockers: seq<Blocker>)

  function Audit(env: Env, db: Db, auditedAt: int, mode: Mode, cutoverAt: int): AuditBody {
    var state := CollectAuditState(env, db);
    AuditBody(auditedAt, env.identity, mode, cutoverAt, env.allowlist, Sha256(env.crypto, StateJson(state)),
              env.affected(db), ProtectedFingerprints(env, auditedAt, db), CollectBlockers(state))
  }

  // ---- Reconciliation --------------------------------------------------------------------------------------

  const STOCK_LEDGERS: Table := Other("stock_ledgers")
  const STOCK_EVENTS: Table := Other("stock_events")

  function RowsOf(db: Db, t: Table): Db {
    map id | id in db && id.table == t :: db[id]
  }

  function LedgerOf(env: Env, db: Db): Stock.Ledger {
    env.ledger(RowsOf(db, STOCK_LEDGERS))
  }

  function EventsOf(env: Env, db: Db): seq<Stock.Event> {
    env.events(RowsOf(db, STOCK_EVENTS))
  }

  function ReservationOf(c: Columns): Stock.Reservation
    requires c.ReservationColumns?
  {
    Stock.Reservation(c.warehouse, c.sku, c.quantity, c.confirmed, CleanupPredicate(StockReservations, c))
  }

  function ReservationsOf(db: Db): Stock.Reservations {
    map id | id in db && id.table == StockReservations && db[id].columns.ReservationColumns?
      :: id.key := ReservationOf(db[id].columns)
  }

  /** Neither drift report has an entry for the affected pairs. */
  ghost predicate Reconciled(env: Env, affected: seq<Stock.Pair>, db: Db) {
    forall p :: p in affected ==>
      !Stock.Short(LedgerOf(env, db), ReservationsOf(db), p) && Stock.PairAgrees(LedgerOf(env, db), EventsOf(env, db), p)
  }

  lemma RemainingStock(env: Env, db: Db)
    ensures LedgerOf(env, Remaining(db)) == LedgerOf(env, db) && EventsOf(env, Remaining(db)) == EventsOf(env, db)
    ensures ReservationsOf(Remaining(db)) == Stock.WithoutFulfillment(ReservationsOf(db))
  {
    assert RowsOf(Remaining(db), STOCK_LEDGERS) == RowsOf(db, STOCK_LEDGERS);
    assert RowsOf(Remaining(db), STOCK_EVENTS) == RowsOf(db, STOCK_EVENTS);
  }

  /** Stock that reconciled before the deletes reconciles after them. */
  lemma ReconciliationSurvivesDeletes(env: Env, affected: seq<Stock.Pair>, db: Db)
    requires Reconciled(env, affected, db)
    ensures Reconciled(env, affected, Remaining(db))
  {
    RemainingStock(env, db);
    Stock.DeletionCreatesNoShortfall(LedgerOf(env, db), ReservationsOf(db), affected);
  }

  // ---- The cleanup transaction -----------------------------------------------------------------------------

  datatype Options = Options(
    artifact: Artifact,
    snapshotId: Option<string>,
    execute: bool,
    workflowMode: Mode,
    cutoverAt: int,
    signingKey: Option<SigningKey>,
    failAfter: Option<Table>)

  const SNAPSHOT_ID_PLACEHOLDER := "__PLATFORM_SNAPSHOT_ID_REQUIRED_BEFORE_CLEANUP__"

  datatype CleanupError =
    | Integrity(e: SealError)
    | AllowlistChanged
    | SigningRequired
    | NotInMaintenance
    | AuditedOutsideMaintenance
    | CutoverMoved
    | SnapshotIdMissing
    | Blocked
    | LockHeld
    | WrongDatabase
    | StateMoved
    | EvidenceAppeared
    | ProtectedDataMoved
    | StatementFailed(t: Table)
    | InjectedFailure(t: Table)
    | ProtectedDataChanged
    | RowsRemain
    | ReconciliationFailed

  /** The checks before the transaction, in their order. */
  function Preflight(env: Env, o: Options): Option<CleanupError> {
    var body := env.readBody(o.artifact.body);
    match AssertIntegrity(env.crypto, o.artifact, o.signingKey)
    case Err(e) => Some(Integrity(e))
    case Ok(_) =>
      if Print(body.allowlist) != Print(env.allowlist) then Some(AllowlistChanged)
      else if (o.execute || env.production) && (o.artifact.signature.None? || NoKey(o.signingKey))
      then Some(SigningRequired)
      else if o.workflowMode != Maintenance then Some(NotInMaintenance)
      else if body.workflowMode != Maintenance then Some(AuditedOutsideMaintenance)
      else if o.cutoverAt != body.cutoverAt then Some(CutoverMoved)
      else if o.snapshotId.None? || o.snapshotId.value in {"", SNAPSHOT_ID_PLACEHOLDER} then Some(SnapshotIdMissing)
      else if body.blockers != [] then Some(Blocked)
      else None
  }

  /** The checks inside the transaction that come before the first delete. */
  function LiveCheck(env: Env, o: Options, db: Db): Option<CleanupError> {
    var body := env.readBody(o.artifact.body);
    var current := CollectAuditState(env, db);
    if !env.lockFree then Some(LockHeld)
    else if Print(body.database) != Print(env.identity) then Some(WrongDatabase)
    else if !SafeEqualHex(body.auditStateHash, Sha256(env.crypto, StateJson(current))) then Some(StateMoved)
    else if current.seen.journals > 0 || current.seen.shipEvents > 0 then Some(EvidenceAppeared)
    else if body.protectedFingerprints != ProtectedFingerprints(env, body.generatedAt, db) then Some(ProtectedDataMoved)
    else None
  }

  /** What the artifact and the options must be, one by one. */
  ghost predicate Acceptable(env: Env, o: Options) {
    var body := env.readBody(o.artifact.body);
    && AssertIntegrity(env.crypto, o.artifact, o.signingKey).Ok?
    && Print(body.allowlist) == Print(env.allowlist)
    && (o.execute || env.production ==> o.artifact.signature.Some? && o.signingKey.Some? && o.signingKey.value != [])
    && o.workflowMode == Maintenance && body.workflowMode == Maintenance
    && o.cutoverAt == body.cutoverAt
    && o.snapshotId.Some? && o.snapshotId.value != ""
    && o.snapshotId.value != "__PLATFORM_SNAPSHOT_ID_REQUIRED_BEFORE_CLEANUP__"
    && body.blockers == []
  }

  /** What must still be as it was audited, one by one. */
  ghost predicate Unmoved(env: Env, o: Options, db: Db) {
    var body := env.readBody(o.artifact.body);
    && env.lockFree
    && Print(body.database) == Print(env.identity)
    && body.auditStateHash == env.crypto.digest(Print(StateJson(CollectAuditState(env, db))))
    && env.observe(db).journals == 0 && env.observe(db).shipEvents == 0
    && body.protectedFingerprints == ProtectedFingerprints(env, body.generatedAt, db)
  }

  /** The two checks let pass exactly what is acceptable and unmoved. */
  lemma ChecksPassExactly(env: Env, o: Options, db: Db)
    requires HexOutputs(env.crypto)
    ensures Preflight(env, o).None? <==> Acceptable(env, o)
    ensures LiveCheck(env, o, db).None? <==> Unmoved(env, o, db)
  {
  }

  /** What a reported failure says about the options and the data; the checks after the deletes are the last three. */
  ghost predicate Blames(env: Env, o: Options, db: Db, e: CleanupError) {
    var body := env.readBody(o.artifact.body);
    match e
    case Integrity(_) => AssertIntegrity(env.crypto, o.artifact, o.signingKey).Err?
    case AllowlistChanged => Print(body.allowlist) != Print(env.allowlist)
    case SigningRequired =>
      (o.execute || env.production) && (o.artifact.signature.None? || o.signingKey.None? || o.signingKey.value == [])
    case NotInMaintenance => o.workflowMode != Maintenance
    case AuditedOutsideMaintenance => body.workflowMode != Maintenance
    case CutoverMoved => o.cutoverAt != body.cutoverAt
    case SnapshotIdMissing => o.snapshotId.None? || o.snapshotId.value in {"", SNAPSHOT_ID_PLACEHOLDER}
    case Blocked => body.blockers != []
    case LockHeld => !env.lockFree
    case WrongDatabase => Print(body.database) != Print(env.identity)
    case StateMoved => body.auditStateHash != env.crypto.digest(Print(StateJson(CollectAuditState(env, db))))
    case EvidenceAppeared => env.observe(db).journals > 0 || env.observe(db).shipEvents > 0
    case ProtectedDataMoved => body.protectedFingerprints != ProtectedFingerprints(env, body.generatedAt, db)
    case StatementFailed(_) => DeleteFrom(env.schema, o.failAfter, db, 0) == Err(e)
    case InjectedFailure(t) => o.failAfter == Some(t) && DeleteFrom(env.schema, o.failAfter, db, 0) == Err(e)
    case ProtectedDataChanged => false
    case RowsRemain => false
    case ReconciliationFailed => !Reconciled(env, body.affected, Remaining(db))
  }

  lemma PreflightBlamesRightly(env: Env, o: Options, db: Db)
    requires Preflight(env, o).Some?
    ensures Blames(env, o, db, Preflight(env, o).value)
  {
  }

  lemma LiveCheckBlamesRightly(env: Env, o: Options, db: Db)
    requires HexOutputs(env.crypto) && LiveCheck(env, o, db).Some?
    ensures Blames(env, o, db, LiveCheck(env, o, db).value)
  {
  }

  /** The delete steps from the i-th on, stopping at the first failure. */
  function DeleteFrom(schema: Schema, failAfter: Option<Table>, db: Db, i: nat): Result<Db, CleanupError>
    requires i <= |CLEANUP_TABLES|
    decreases |CLEANUP_TABLES| - i
  {
    if i == |CLEANUP_TABLES| then Ok(db)
    else
      var t := CLEANUP_TABLES[i];
      match Delete(db, schema, CoveredIn(db, t))
      case None => Err(StatementFailed(t))
      case Some(after) =>
        if failAfter == Some(t) then Err(InjectedFailure(t)) else DeleteFrom(schema, failAfter, after, i + 1)
  }

  /** The rows the steps from the i-th on delete by themselves, cascades not counted. */
  function DeletedCounts(schema: Schema, db: Db, i: nat): seq<nat>
    requires i <= |CLEANUP_TABLES|
    decreases |CLEANUP_TABLES| - i
  {
    if i == |CLEANUP_TABLES| then []
    else
      var roots := CoveredIn(db, CLEANUP_TABLES[i]);
      match Delete(db, schema, roots)
      case None => []
      case Some(after) => [|roots|] + DeletedCounts(schema, after, i + 1)
  }

  lemma {:induction false} FailureIsNamed(schema: Schema, failAfter: Option<Table>, db: Db, i: nat)
    requires i <= |CLEANUP_TABLES| && DeleteFrom(schema, failAfter, db, i).Err?
    ensures match DeleteFrom(schema, failAfter, db, i).error
            case StatementFailed(t) => t in CLEANUP_TABLES
            case InjectedFailure(t) => failAfter == Some(t) && t in CLEANUP_TABLES
            case _ => false
    decreases |CLEANUP_TABLES| - i
  {
    var t := CLEANUP_TABLES[i];
    var outcome := Delete(db, schema, CoveredIn(db, t));
    if outcome.Some? && failAfter != Some(t) {
      FailureIsNamed(schema, failAfter, outcome.value, i + 1);
    }
  }

  /** The options carry an artifact sealed over `body`, whatever was done to its body since. */
  ghost predicate SealedOver(env: Env, o: Options, body: Json, key: Option<SigningKey>) {
    && WellFormed(body) && Plain(body) && SupportedSchema(body)
    && WellFormed(o.artifact.body)
    && Seal(env.crypto, body, key) == Ok(o.artifact.(body := body))
  }

  ghost predicate HonestBody(env: Env, body: AuditBody, audited: Db) {
    body == Audit(env, audited, body.generatedAt, body.workflowMode, body.cutoverAt)
  }

  /** The texts whose digests the cleanup compares do not collide. */
  ghost predicate NoCollisions(env: Env, o: Options, body: Json, audited: Db, db: Db) {
    && !Collide(env.crypto, Print(body), Print(o.artifact.body))
    && !Collide(env.crypto, Print(StateJson(CollectAuditState(env, audited))), Print(StateJson(CollectAuditState(env, db))))
  }

  /** The artifact was sealed over the audit of some earlier data. */
  ghost predicate FromAudit(env: Env, o: Options, db: Db) {
    exists body, key, audited ::
      && SealedOver(env, o, body, key) && HonestBody(env, env.readBody(body), audited)
      && NoCollisions(env, o, body, audited, db)
  }

  /** Values that print alike, such as 0 and -0, read alike. */
  ghost predicate ReadsAlike(env: Env) {
    forall a: Json, b: Json :: Same(a, b) ==> env.readBody(a) == env.readBody(b)
  }

  ghost predicate SaneEnv(env: Env) {
    && HexOutputs(env.crypto) && ReadsAlike(env) && KeptSourcesListed(env.schema)
    && (forall db: Db :: WellFormed(env.observe(db).rest) && Plain(env.observe(db).rest))
  }

  /** An accepted artifact still says what the audit said. */
  lemma AcceptedBodyIsHonest(env: Env, o: Options, body: Json, key: Option<SigningKey>)
    requires SaneEnv(env) && SealedOver(env, o, body, key) && Acceptable(env, o)
    requires !Collide(env.crypto, Print(body), Print(o.artifact.body))
    ensures env.readBody(o.artifact.body) == env.readBody(body)
  {
    var sealed := o.artifact.(body := body);
    assert sealed.(body := o.artifact.body) == o.artifact;
    IntegrityAcceptsExactlyTheSealedBody(env.crypto, body, key, sealed, o.artifact.body, o.signingKey);
  }

  /** A state that has not moved since an audit without blockers has none either. */
  lemma UnmovedStateHasNoBlockers(env: Env, o: Options, audited: Db, db: Db)
    requires SaneEnv(env) && HonestBody(env, env.readBody(o.artifact.body), audited)
    requires Acceptable(env, o) && Unmoved(env, o, db)
    requires !Collide(env.crypto, Print(StateJson(CollectAuditState(env, audited))),
                      Print(StateJson(CollectAuditState(env, db))))
    ensures CollectBlockers(CollectAuditState(env, db)) == []
  {
    var then_, now := CollectAuditState(env, audited), CollectAuditState(env, db);
    EqualStates(then_, now);
    NoBlockersExactly(then_);
    NoBlockersExactly(now);
  }

  /**
   Passing every check before the first delete already means that no kept row refers to a row to delete, that no
   tombstone is invalid, and that no row of the new workflow exists.
   */
  lemma AcceptedMeansNoneUncovered(env: Env, o: Options, db: Db)
    requires SaneEnv(env) && FromAudit(env, o, db) && Intact(db) && Declared(db, env.schema)
    requires Acceptable(env, o) && Unmoved(env, o, db)
    ensures NoneUncovered(db) && env.observe(db).invalidCreatedAt == 0 && env.observe(db).v2Rows == 0
  {
    var body, key, audited :| && SealedOver(env, o, body, key) && HonestBody(env, env.readBody(body), audited)
                              && NoCollisions(env, o, body, audited, db);
    AcceptedBodyIsHonest(env, o, body, key);
    UnmovedStateHasNoBlockers(env, o, audited, db);
    NoBlockersExactly(CollectAuditState(env, db));
    ClosureFindsEveryUncoveredRow(db, env.schema);
  }

  lemma CoveredRowsAreSelected(db: Db, id: RowId)
    requires id in db && Covered(id, db[id])
    ensures exists t :: t in CLEANUP_TABLES && id in CoveredIn(db, t)
  {
    CoveredTablesAreCleanupTables(id, db[id]);
    assert id in CoveredIn(db, id.table);
  }

  lemma EmptiedTablesHoldNothingCovered(db: Db)
    requires forall j :: 0 <= j < |CLEANUP_TABLES| ==> CoveredIn(db, CLEANUP_TABLES[j]) == {}
    ensures forall id :: id in db ==> !Covered(id, db[id])
  {
    forall id | id in db && Covered(id, db[id])
      ensures false
    {
      CoveredRowsAreSelected(db, id);
    }
  }

  /** Kept rows survive every delete sequence unchanged, and nothing else does. */
  lemma {:induction false} DeletesLeaveRemaining(start: Db, db: Db, schema: Schema, failAfter: Option<Table>, i: nat)
    requires i <= |CLEANUP_TABLES| && NoneUncovered(start) && Intact(start)
    requires OnlyCoveredGone(start, db) && Intact(db)
    requires forall j :: 0 <= j < i ==> CoveredIn(db, CLEANUP_TABLES[j]) == {}
    requires DeleteFrom(schema, failAfter, db, i).Ok?
    ensures DeleteFrom(schema, failAfter, db, i).value == Remaining(start) && Intact(Remaining(start))
    decreases |CLEANUP_TABLES| - i
  {
    if i == |CLEANUP_TABLES| {
      EmptiedTablesHoldNothingCovered(db);
      assert db == Remaining(start);
    } else {
      var t := CLEANUP_TABLES[i];
      DeleteTouchesOnlyCovered(start, db, schema, t);
      var after := Delete(db, schema, CoveredIn(db, t)).value;
      forall j | 0 <= j < i + 1 ensures CoveredIn(after, CLEANUP_TABLES[j]) == {} {
        if j < i {
          assert CoveredIn(after, CLEANUP_TABLES[j]) <= CoveredIn(db, CLEANUP_TABLES[j]);
        }
      }
      DeletesLeaveRemaining(start, after, schema, failAfter, i + 1);
    }
  }

  // ---- When the delete statements succeed ------------------------------------------------------------------

  /** Every foreign key between cleanup tables starts in a table that is deleted no later than its target. */
  predicate ChildrenFirst(schema: Schema) {
    forall fk, i, j ::
      (fk in schema && 0 <= i < |CLEANUP_TABLES| && 0 <= j < |CLEANUP_TABLES|
       && CLEANUP_TABLES[i] == fk.source && CLEANUP_TABLES[j] == fk.target) ==> i <= j
  }

  predicate DeletedBefore(i: nat, id: RowId, row: Row)
    requires i <= |CLEANUP_TABLES|
  {
    Covered(id, row) && exists j :: 0 <= j < i && CLEANUP_TABLES[j] == id.table
  }

  /** The rows before the i-th step, if every step deletes what it selects and nothing else. */
  function After(start: Db, i: nat): Db
    requires i <= |CLEANUP_TABLES|
  {
    map id | id in start && !DeletedBefore(i, id, start[id]) :: start[id]
  }

  lemma TablesDiffer(i: nat, j: nat)
    requires i < |CLEANUP_TABLES| && j < |CLEANUP_TABLES| && CLEANUP_TABLES[i] == CLEANUP_TABLES[j]
    ensures i == j
  {
  }

  /** Whatever refers to a row of the i-th selection is in that selection. */
  lemma OnlySelectedRefer(start: Db, schema: Schema, i: nat, id: RowId, name: string)
    requires NoneUncovered(start) && Declared(start, schema) && ChildrenFirst(schema) && i < |CLEANUP_TABLES|
    requires id in After(start, i) && name in start[id].refs && start[id].refs[name] in CoveredIn(After(start, i), CLEANUP_TABLES[i])
    ensures id in CoveredIn(After(start, i), CLEANUP_TABLES[i])
  {
    var target := start[id].refs[name];
    assert Covered(target, start[target]) && Covered(id, start[id]);
    CoveredTablesAreCleanupTables(id, start[id]);
    var j :| 0 <= j < |CLEANUP_TABLES| && CLEANUP_TABLES[j] == id.table;
    var fk :| fk in schema && Declares(fk, name, id.table, target.table);
    assert j <= i;
    assert !DeletedBefore(i, id, start[id]);
  }

  lemma StepDeletesSelection(start: Db, schema: Schema, i: nat)
    requires NoneUncovered(start) && Intact(start) && Declared(start, schema) && ChildrenFirst(schema)
    requires i < |CLEANUP_TABLES|
    ensures Delete(After(start, i), schema, CoveredIn(After(start, i), CLEANUP_TABLES[i])) == Some(After(start, i + 1))
  {
    var db := After(start, i);
    var roots := CoveredIn(db, CLEANUP_TABLES[i]);
    forall id, name | id in db && name in db[id].refs && db[id].refs[name] in roots ensures id in roots {
      OnlySelectedRefer(start, schema, i, id, name);
    }
    NothingElseGoes(db, schema, roots);
    WithoutSelection(start, i);
    AfterIsIntact(start, schema, i + 1);
  }

  lemma AfterOneMore(start: Db, i: nat, id: RowId)
    requires i < |CLEANUP_TABLES| && id in start
    ensures id in After(start, i + 1) <==> id in After(start, i) && id !in CoveredIn(After(start, i), CLEANUP_TABLES[i])
  {
    assert DeletedBefore(i + 1, id, start[id])
           <==> DeletedBefore(i, id, start[id]) || (Covered(id, start[id]) && CLEANUP_TABLES[i] == id.table);
  }

  lemma WithoutSelection(start: Db, i: nat)
    requires i < |CLEANUP_TABLES|
    ensures var db := After(start, i);
            After(start, i + 1) == map id | id in db && id !in CoveredIn(db, CLEANUP_TABLES[i]) :: db[id]
  {
    forall id | id in start { AfterOneMore(start, i, id); }
  }

  lemma NothingElseGoes(db: Db, schema: Schema, roots: set<RowId>)
    requires roots <= db.Keys
    requires forall id, name :: id in db && name in db[id].refs && db[id].refs[name] in roots ==> id in roots
    ensures CascadeClosure(db, schema, roots) == roots && !Restricted(db, schema, roots, roots)
    ensures AfterDelete(db, schema, roots) == map id | id in db && id !in roots :: db[id]
  {
    assert CascadeOnce(db, schema, roots) == roots;
    forall id | id in db && id !in roots ensures Detached(schema, id, db[id], roots) == db[id] {
      assert Detached(schema, id, db[id], roots).refs == db[id].refs;
    }
  }

  lemma ReferringRowWentBefore(start: Db, schema: Schema, i: nat, id: RowId, name: string)
    requires NoneUncovered(start) && Intact(start) && Declared(start, schema) && ChildrenFirst(schema)
    requires i <= |CLEANUP_TABLES| && id in start && name in start[id].refs
    requires DeletedBefore(i, start[id].refs[name], start[start[id].refs[name]])
    ensures DeletedBefore(i, id, start[id])
  {
    var target := start[id].refs[name];
    var k :| 0 <= k < i && CLEANUP_TABLES[k] == target.table;
    CoveredTablesAreCleanupTables(id, start[id]);
    var j :| 0 <= j < |CLEANUP_TABLES| && CLEANUP_TABLES[j] == id.table;
    var fk :| fk in schema && Declares(fk, name, id.table, target.table);
    assert j <= k;
  }

  lemma AfterIsIntact(start: Db, schema: Schema, i: nat)
    requires NoneUncovered(start) && Intact(start) && Declared(start, schema) && ChildrenFirst(schema)
    requires i <= |CLEANUP_TABLES|
    ensures Intact(After(start, i))
  {
    forall id, name | id in After(start, i) && name in start[id].refs ensures start[id].refs[name] in After(start, i) {
      if DeletedBefore(i, start[id].refs[name], start[start[id].refs[name]]) {
        ReferringRowWentBefore(start, schema, i, id, name);
      }
    }
  }

  lemma AllStepsLeaveRemaining(start: Db)
    ensures After(start, |CLEANUP_TABLES|) == Remaining(start)
  {
    forall id | id in start && Covered(id, start[id]) ensures DeletedBefore(|CLEANUP_TABLES|, id, start[id]) {
      CoveredTablesAreCleanupTables(id, start[id]);
    }
  }

  lemma SelectionIsWhole(start: Db, i: nat)
    requires i < |CLEANUP_TABLES|
    ensures CoveredIn(After(start, i), CLEANUP_TABLES[i]) == CoveredIn(start, CLEANUP_TABLES[i])
  {
    forall id | id in CoveredIn(start, CLEANUP_TABLES[i]) ensures id in After(start, i) {
      if DeletedBefore(i, id, start[id]) {
        var j :| 0 <= j < i && CLEANUP_TABLES[j] == id.table;
        TablesDiffer(i, j);
      }
    }
  }

  /** The steps from the i-th on, when children go first: only an injected failure stops them. */
  lemma {:induction false} OrderedDeletes(start: Db, schema: Schema, failAfter: Option<Table>, i: nat)
    requires NoneUncovered(start) && Intact(start) && Declared(start, schema) && ChildrenFirst(schema)
    requires i <= |CLEANUP_TABLES|
    ensures DeleteFrom(schema, failAfter, After(start, i), i)
            == if failAfter.Some? && failAfter.value in CLEANUP_TABLES[i..] then Err(InjectedFailure(failAfter.value))
               else Ok(Remaining(start))
    ensures DeletedCounts(schema, After(start, i), i) == Counts(start)[i..]
    decreases |CLEANUP_TABLES| - i
  {
    if i == |CLEANUP_TABLES| {
      AllStepsLeaveRemaining(start);
    } else {
      StepDeletesSelection(start, schema, i);
      SelectionIsWhole(start, i);
      OrderedDeletes(start, schema, failAfter, i + 1);
      assert CLEANUP_TABLES[i..] == [CLEANUP_TABLES[i]] + CLEANUP_TABLES[i + 1..];
      assert Counts(start)[i..] == [Counts(start)[i]] + Counts(start)[i + 1..];
    }
  }

  /**
   When children go first and no kept row refers to a covered one, the delete statements cannot fail, and they report
   the counts of the audit.
   */
  lemma OrderedDeletesSucceed(start: Db, schema: Schema, failAfter: Option<Table>)
    requires NoneUncovered(start) && Intact(start) && Declared(start, schema) && ChildrenFirst(schema)
    ensures DeleteFrom(schema, failAfter, start, 0)
            == if failAfter.Some? && failAfter.value in CLEANUP_TABLES then Err(InjectedFailure(failAfter.value))
               else Ok(Remaining(start))
    ensures DeletedCounts(schema, start, 0) == Counts(start)
  {
    assert After(start, 0) == start && CLEANUP_TABLES[0..] == CLEANUP_TABLES && Counts(start)[0..] == Counts(start);
    OrderedDeletes(start, schema, failAfter, 0);
  }

  /** The check after the deletes cannot fire: protected sections hold kept rows only. */
  lemma ProtectedSectionsAreKept(env: Env, auditedAt: int, db: Db)
    ensures ProtectedFingerprints(env, auditedAt, Remaining(db)) == ProtectedFingerprints(env, auditedAt, db)
  {
    forall i | 0 <= i < |PROTECTED|
      ensures SectionRows(PROTECTED[i], auditedAt, Remaining(db)) == SectionRows(PROTECTED[i], auditedAt, db)
    {
    }
  }

  /** The rows the cutover must not change: those of ten tables, of two of them only the older ones, and what it keeps of two more. */
  predicate IsProtected(auditedAt: int, id: RowId, row: Row) {
    || id.table in [Other("sales_orders"), Other("sales_order_lines"), Other("skus"), Other("warehouses"), Other("locations"),
                    Other("stock_journals"), Other("stock_events"), Other("stock_ledgers")]
    || (id.table in [Other("audit_logs"), Other("order_events")] && row.columns.Dated? && row.columns.createdAt <= auditedAt)
    || (id.table in [OutboxEvents, StockReservations] && !Covered(id, row))
  }

  predicate InSome(auditedAt: int, id: RowId, row: Row) {
    exists k :: 0 <= k < |PROTECTED| && InSection(PROTECTED[k], auditedAt, id, row)
  }

  lemma SectionOfTable(k: nat, auditedAt: int, id: RowId, row: Row)
    requires k < |PROTECTED|
    ensures InSection(PROTECTED[k], auditedAt, id, row) ==> IsProtected(auditedAt, id, row)
  {
    assert k == 0 || k == 1 || k == 2 || k == 3 || k == 4 || k == 5 || k == 6 || k == 7 || k == 8 || k == 9 || k == 10 || k == 11;
  }

  lemma ProtectedIsInSection(auditedAt: int, id: RowId, row: Row)
    requires IsProtected(auditedAt, id, row)
    ensures InSome(auditedAt, id, row)
  {
    assert InSection(PROTECTED[0], auditedAt, id, row) || InSection(PROTECTED[1], auditedAt, id, row)
        || InSection(PROTECTED[2], auditedAt, id, row) || InSection(PROTECTED[3], auditedAt, id, row)
        || InSection(PROTECTED[4], auditedAt, id, row) || InSection(PROTECTED[5], auditedAt, id, row)
        || InSection(PROTECTED[6], auditedAt, id, row) || InSection(PROTECTED[7], auditedAt, id, row)
        || InSection(PROTECTED[8], auditedAt, id, row) || InSection(PROTECTED[9], auditedAt, id, row)
        || InSection(PROTECTED[10], auditedAt, id, row) || InSection(PROTECTED[11], auditedAt, id, row);
  }

  /** The sections cover exactly the protected rows. */
  lemma SectionsProtectExactly(auditedAt: int, id: RowId, row: Row)
    ensures InSome(auditedAt, id, row) <==> IsProtected(auditedAt, id, row)
  {
    if InSome(auditedAt, id, row) {
      var k :| 0 <= k < |PROTECTED| && InSection(PROTECTED[k], auditedAt, id, row);
      SectionOfTable(k, auditedAt, id, row);
    } else if IsProtected(auditedAt, id, row) {
      ProtectedIsInSection(auditedAt, id, row);
    }
  }

  /** Two states of a section have the same digest although they differ. */
  ghost predicate SectionsCollide(env: Env, auditedAt: int, before: Db, after: Db) {
    exists k :: && 0 <= k < |PROTECTED|
                && SectionRows(PROTECTED[k], auditedAt, before) != SectionRows(PROTECTED[k], auditedAt, after)
                && env.digest(SectionRows(PROTECTED[k], auditedAt, before)) == env.digest(SectionRows(PROTECTED[k], auditedAt, after))
  }

  /** The protected rows of the one are those of the other, unchanged. */
  ghost predicate SameProtected(auditedAt: int, before: Db, after: Db) {
    && (forall id :: id in before && IsProtected(auditedAt, id, before[id]) ==> id in after && after[id] == before[id])
    && (forall id :: id in after && IsProtected(auditedAt, id, after[id]) ==> id in before && before[id] == after[id])
  }

  lemma SectionRowsAgree(env: Env, auditedAt: int, before: Db, after: Db, id: RowId)
    requires ProtectedFingerprints(env, auditedAt, before) == ProtectedFingerprints(env, auditedAt, after)
    requires !SectionsCollide(env, auditedAt, before, after) && id in before && IsProtected(auditedAt, id, before[id])
    ensures id in after && after[id] == before[id]
  {
    SectionsProtectExactly(auditedAt, id, before[id]);
    var k :| 0 <= k < |PROTECTED| && InSection(PROTECTED[k], auditedAt, id, before[id]);
    assert ProtectedFingerprints(env, auditedAt, before)[k] == ProtectedFingerprints(env, auditedAt, after)[k];
    assert id in SectionRows(PROTECTED[k], auditedAt, before);
    assert SectionRows(PROTECTED[k], auditedAt, before) == SectionRows(PROTECTED[k], auditedAt, after);
    assert SectionRows(PROTECTED[k], auditedAt, before)[id] == before[id];
    assert SectionRows(PROTECTED[k], auditedAt, after)[id] == after[id];
  }

  /** Equal fingerprints mean unchanged protected rows, unless two states of a section have one digest. */
  lemma FingerprintsProtect(env: Env, auditedAt: int, before: Db, after: Db)
    requires ProtectedFingerprints(env, auditedAt, before) == ProtectedFingerprints(env, auditedAt, after)
    requires !SectionsCollide(env, auditedAt, before, after)
    ensures SameProtected(auditedAt, before, after)
  {
    forall id | id in before && IsProtected(auditedAt, id, before[id]) ensures id in after && after[id] == before[id] {
      SectionRowsAgree(env, auditedAt, before, after, id);
    }
    assert !SectionsCollide(env, auditedAt, after, before);
    forall id | id in after && IsProtected(auditedAt, id, after[id]) ensures id in before && before[id] == after[id] {
      SectionRowsAgree(env, auditedAt, after, before, id);
    }
  }

  lemma ProtectedIsNotCovered(auditedAt: int, id: RowId, row: Row)
    requires IsProtected(auditedAt, id, row)
    ensures !Covered(id, row)
  {
    if Covered(id, row) {
      CoveredExactly(id, row);
    }
  }

  lemma ProtectedRowsAreKept(auditedAt: int, audited: Db, db: Db)
    requires SameProtected(auditedAt, audited, db)
    ensures SameProtected(auditedAt, audited, Remaining(db))
  {
    forall id | id in db && IsProtected(auditedAt, id, db[id]) ensures id in Remaining(db) && Remaining(db)[id] == db[id] {
      ProtectedIsNotCovered(auditedAt, id, db[id]);
    }
  }

  /** After a committed cleanup every protected row is as it was audited, and none has appeared. */
  lemma ProtectedRowsAreAsAudited(env: Env, o: Options, body: Json, key: Option<SigningKey>, audited: Db, db: Db)
    requires SaneEnv(env) && SealedOver(env, o, body, key) && HonestBody(env, env.readBody(body), audited)
    requires NoCollisions(env, o, body, audited, db) && Acceptable(env, o) && Unmoved(env, o, db)
    requires !SectionsCollide(env, env.readBody(body).generatedAt, audited, db)
    ensures SameProtected(env.readBody(body).generatedAt, audited, Remaining(db))
  {
    var auditedAt := env.readBody(body).generatedAt;
    AcceptedBodyIsHonest(env, o, body, key);
    assert ProtectedFingerprints(env, auditedAt, audited) == ProtectedFingerprints(env, auditedAt, db);
    FingerprintsProtect(env, auditedAt, audited, db);
    ProtectedRowsAreKept(auditedAt, audited, db);
  }

  lemma NothingCoveredRemains(db: Db)
    ensures forall n :: n in Counts(Remaining(db)) ==> n == 0
  {
    forall i | 0 <= i < |CLEANUP_TABLES| ensures CoveredIn(Remaining(db), CLEANUP_TABLES[i]) == {} {
    }
  }

  /** When a cleanup succeeds: the checks, the delete statements and the reconciliation, and nothing else. */
  ghost predicate Succeeds(env: Env, o: Options, db: Db) {
    && Acceptable(env, o)
    && Unmoved(env, o, db)
    && DeleteFrom(env.schema, o.failAfter, db, 0).Ok?
    && Reconciled(env, env.readBody(o.artifact.body).affected, Remaining(db))
  }

  /** Past the checks, the deletes of a cleanup that do not fail leave the kept rows, and nothing the last checks mind. */
  lemma AuditedDeletes(env: Env, o: Options, db: Db, auditedAt: int)
    requires SaneEnv(env) && FromAudit(env, o, db) && Intact(db) && Declared(db, env.schema)
    requires Acceptable(env, o) && Unmoved(env, o, db)
    ensures DeleteFrom(env.schema, o.failAfter, db, 0).Ok? ==>
              DeleteFrom(env.schema, o.failAfter, db, 0).value == Remaining(db) && Intact(Remaining(db))
    ensures ProtectedFingerprints(env, auditedAt, Remaining(db)) == ProtectedFingerprints(env, auditedAt, db)
    ensures forall n :: n in Counts(Remaining(db)) ==> n == 0
    ensures NoneUncovered(db) && env.observe(db).invalidCreatedAt == 0 && env.observe(db).v2Rows == 0
  {
    AcceptedMeansNoneUncovered(env, o, db);
    if DeleteFrom(env.schema, o.failAfter, db, 0).Ok? {
      DeletesLeaveRemaining(db, db, env.schema, o.failAfter, 0);
    }
    ProtectedSectionsAreKept(env, auditedAt, db);
    NothingCoveredRemains(db);
  }

  lemma DeletedStep(schema: Schema, db: Db, i: nat, deleted: seq<nat>)
    requires i < |CLEANUP_TABLES| && Delete(db, schema, CoveredIn(db, CLEANUP_TABLES[i])).Some?
    ensures deleted + DeletedCounts(schema, db, i)
            == (deleted + [|CoveredIn(db, CLEANUP_TABLES[i])|])
                 + DeletedCounts(schema, Delete(db, schema, CoveredIn(db, CLEANUP_TABLES[i])).value, i + 1)
  {
  }

  class CutoverDatabase {
    var rows: Db

    constructor (initial: Db)
      ensures rows == initial
    {
      rows := initial;
    }

    /** The twelve delete steps, one statement each. On failure the caller rolls back. */
    method RunDeletes(schema: Schema, failAfter: Option<Table>) returns (failure: Option<CleanupError>, deleted: seq<nat>)
      modifies this
      ensures failure.None? <==> DeleteFrom(schema, failAfter, old(rows), 0).Ok?
      ensures failure.None? ==> rows == DeleteFrom(schema, failAfter, old(rows), 0).value
      ensures failure.Some? ==> DeleteFrom(schema, failAfter, old(rows), 0) == Err(failure.value)
      ensures failure.None? ==> deleted == DeletedCounts(schema, old(rows), 0)
    {
      deleted := [];
      for i := 0 to |CLEANUP_TABLES|
        invariant DeleteFrom(schema, failAfter, rows, i) == DeleteFrom(schema, failAfter, old(rows), 0)
        invariant deleted + DeletedCounts(schema, rows, i) == DeletedCounts(schema, old(rows), 0)
      {
        var t := CLEANUP_TABLES[i];
        var outcome := Delete(rows, schema, CoveredIn(rows, t));
        if outcome.None? {
          return Some(StatementFailed(t)), deleted;
        }
        DeletedStep(schema, rows, i, deleted);
        deleted := deleted + [|CoveredIn(rows, t)|];
        if failAfter == Some(t) {
          return Some(InjectedFailure(t)), deleted;
        }
        rows := outcome.value;
      }
      return None, deleted;
    }

    /** The checks before the first delete. */
    method CheckStart(env: Env, o: Options) returns (failure: Option<CleanupError>)
      requires HexOutputs(env.crypto)
      ensures failure.None? <==> Acceptable(env, o) && Unmoved(env, o, rows)
      ensures failure.Some? ==> Blames(env, o, rows, failure.value)
      ensures Preflight(env, o).Some? ==> failure == Preflight(env, o)
      ensures Preflight(env, o).None? ==> failure == LiveCheck(env, o, rows)
    {
      ChecksPassExactly(env, o, rows);
      failure := Preflight(env, o);
      if failure.Some? {
        PreflightBlamesRightly(env, o, rows);
        return;
      }
      failure := LiveCheck(env, o, rows);
      if failure.Some? {
        LiveCheckBlamesRightly(env, o, rows);
      }
    }

    /** The checks after the deletes. */
    method CheckResult(env: Env, auditedAt: int, before: seq<Fingerprint>, affected: seq<Stock.Pair>)
      returns (failure: Option<CleanupError>)
      ensures failure.None? <==> && ProtectedFingerprints(env, auditedAt, rows) == before
                                 && (forall n :: n in Counts(rows) ==> n == 0)
                                 && Reconciled(env, affected, rows)
      ensures failure == Some(ProtectedDataChanged) <==> ProtectedFingerprints(env, auditedAt, rows) != before
      ensures failure == Some(RowsRemain) ==> exists n :: n in Counts(rows) && n != 0
      ensures failure.Some? ==> failure.value in {ProtectedDataChanged, RowsRemain, ReconciliationFailed}
      ensures failure == Some(ReconciliationFailed) ==> !Reconciled(env, affected, rows)
    {
      if ProtectedFingerprints(env, auditedAt, rows) != before {
        return Some(ProtectedDataChanged);
      }
      var counts := Counts(rows);
      if exists n :: n in counts && n != 0 {
        return Some(RowsRemain);
      }
      var shortfalls := Stock.FindReservationDrift(LedgerOf(env, rows), ReservationsOf(rows), affected);
      var drifts := Stock.FindLedgerDrift(LedgerOf(env, rows), EventsOf(env, rows), affected);
      return if shortfalls != [] || drifts != [] then Some(ReconciliationFailed) else None;
    }

    /** The deletes and the checks after them; `rows` is then what a commit would keep. */
    method DeleteAndCheck(env: Env, o: Options) returns (failure: Option<CleanupError>, deleted: seq<nat>)
      requires SaneEnv(env) && Intact(rows) && Declared(rows, env.schema) && Acceptable(env, o) && Unmoved(env, o, rows)
      modifies this
      ensures FromAudit(env, o, old(rows)) ==> (failure.None? <==> Succeeds(env, o, old(rows)))
      ensures FromAudit(env, o, old(rows)) && failure.None? ==> rows == Remaining(old(rows)) && Intact(rows)
      ensures FromAudit(env, o, old(rows)) && failure.Some? ==> Blames(env, o, old(rows), failure.value)
      ensures FromAudit(env, o, old(rows)) ==>
                NoneUncovered(old(rows)) && env.observe(old(rows)).invalidCreatedAt == 0 && env.observe(old(rows)).v2Rows == 0
      ensures failure.None? ==> deleted == DeletedCounts(env.schema, old(rows), 0)
    {
      var body := env.readBody(o.artifact.body);
      var before := ProtectedFingerprints(env, body.generatedAt, rows);
      ghost var start := rows;
      if FromAudit(env, o, start) {
        AuditedDeletes(env, o, start, body.generatedAt);
      }
      failure, deleted := RunDeletes(env.schema, o.failAfter);
      if failure.Some? {
        FailureIsNamed(env.schema, o.failAfter, start, 0);
        return;
      }
      failure := CheckResult(env, body.generatedAt, before, body.affected);
    }

    /** The transaction. A failure or a dry run rolls back to the state before the first delete. */
    method Cleanup(env: Env, o: Options) returns (r: Result<seq<nat>, CleanupError>)
      requires SaneEnv(env) && Intact(rows) && Declared(rows, env.schema)
      modifies this
      ensures r.Err? || !o.execute ==> rows == old(rows)
      ensures FromAudit(env, o, old(rows)) ==> (r.Ok? <==> Succeeds(env, o, old(rows)))
      ensures FromAudit(env, o, old(rows)) && r.Ok? && o.execute ==> rows == Remaining(old(rows)) && Intact(rows)
      ensures FromAudit(env, o, old(rows)) && r.Err? ==> Blames(env, o, old(rows), r.error)
      ensures r.Ok? ==> Acceptable(env, o) && Unmoved(env, o, old(rows))
      ensures FromAudit(env, o, old(rows)) && r.Ok? ==>
                NoneUncovered(old(rows)) && env.observe(old(rows)).invalidCreatedAt == 0 && env.observe(old(rows)).v2Rows == 0
      ensures r.Ok? ==> r.value == if o.execute then DeletedCounts(env.schema, old(rows), 0) else []
      ensures Preflight(env, o).Some? ==> r == Err(Preflight(env, o).value)
      ensures Preflight(env, o).None? && LiveCheck(env, o, old(rows)).Some? ==> r == Err(LiveCheck(env, o, old(rows)).value)
    {
      var failure := CheckStart(env, o);
      if failure.Some? { return Err(failure.value); }
      ChecksPassExactly(env, o, rows);
      var begin := rows;
      var deleted: seq<nat>;
      failure, deleted := DeleteAndCheck(env, o);
      if failure.Some? || !o.execute {
        rows := begin;
      }
      return if failure.Some? then Err(failure.value) else if o.execute then Ok(deleted) else Ok([]);
    }
  }

  /** An execution succeeds exactly when the dry run does and the artifact can be checked as signed. */
  lemma ExecutionSucceedsWhenDryRunDoes(env: Env, o: Options, db: Db)
    ensures Succeeds(env, o.(execute := true), db) <==>
            Succeeds(env, o.(execute := false), db) && o.artifact.signature.Some? && !NoKey(o.signingKey)
  {
    assert Unmoved(env, o.(execute := false), db) == Unmoved(env, o.(execute := true), db);
  }

  /** Deletes cannot spoil the reconciliation: stock that was in order cannot make a cleanup fail. */
  lemma ReconciledStockPasses(env: Env, o: Options, db: Db)
    requires Acceptable(env, o) && Unmoved(env, o, db)
    requires Reconciled(env, env.readBody(o.artifact.body).affected, db)
    ensures Succeeds(env, o, db) <==> DeleteFrom(env.schema, o.failAfter, db, 0).Ok?
  {
    ReconciliationSurvivesDeletes(env, env.readBody(o.artifact.body).affected, db);
  }

  /** Rows appended after the audit do not move the fingerprint of an append-only section. */
  lemma AppendsAreTolerated(env: Env, name: string, auditedAt: int, db: Db, id: RowId, row: Row)
    requires id !in db && row.columns.Dated? && row.columns.createdAt > auditedAt
    ensures FingerprintOf(env, ProtectedTable(name, true), auditedAt, db[id := row])
         == FingerprintOf(env, ProtectedTable(name, true), auditedAt, db)
  {
    assert SectionRows(ProtectedTable(name, true), auditedAt, db[id := row])
        == SectionRows(ProtectedTable(name, true), auditedAt, db);
  }

  // ---- The assumptions can be met --------------------------------------------------------------------------

  lemma UnreferencedRowsCanGo(db: Db, roots: set<RowId>)
    requires roots <= db.Keys && forall id :: id in db ==> db[id].refs == map[]
    ensures Delete(db, [], roots).Some? && forall id :: id in Delete(db, [], roots).value ==> id in db
    ensures forall id :: id in Delete(db, [], roots).value ==> Delete(db, [], roots).value[id].refs == map[]
  {
    assert CascadeOnce(db, [], roots) == roots;
  }

  lemma {:induction false} UnreferencedDeletesRun(db: Db, i: nat)
    requires i <= |CLEANUP_TABLES| && forall id :: id in db ==> db[id].refs == map[]
    ensures DeleteFrom([], None, db, i).Ok?
    decreases |CLEANUP_TABLES| - i
  {
    if i < |CLEANUP_TABLES| {
      var roots := CoveredIn(db, CLEANUP_TABLES[i]);
      UnreferencedRowsCanGo(db, roots);
      UnreferencedDeletesRun(Delete(db, [], roots).value, i + 1);
    }
  }

  const SAMPLE_BODY: Json := Obj([Field(SCHEMA_VERSION_KEY, Str(AUDIT_SCHEMA_VERSION))])
  const SAMPLE_KEY: SigningKey := seq(MINIMUM_KEY_BYTES, i => 1)

  /** Surroundings without foreign keys and stock whose audit artifact reads as the audit of `db`. */
  function SampleEnv(crypto: Crypto, db: Db): Env {
    var blank := AuditBody(0, Null, Maintenance, 0, Null, [], [], [], []);
    var env := Env(crypto, [], _ => Observation(0, 0, 0, 0, Null), _ => [], _ => map[], _ => [], _ => [], _ => blank,
                   Null, Null, true, true);
    var body := Audit(env, db, 0, Maintenance, 0);
    env.(readBody := _ => body)
  }

  function SampleOptions(crypto: Crypto): Options {
    var hash := Sha256(crypto, SAMPLE_BODY);
    Options(Artifact(SAMPLE_BODY, hash, Some(crypto.hmac(SAMPLE_KEY, hash))), Some("snapshot"), true, Maintenance, 0,
            Some(SAMPLE_KEY), None)
  }

  lemma SampleIsIntact(crypto: Crypto, db: Db)
    requires HexOutputs(crypto)
    ensures AssertIntegrity(crypto, SampleOptions(crypto).artifact, Some(SAMPLE_KEY)).Ok?
  {
    SampleBodyIsPlain();
  }

  lemma SampleIsAcceptable(crypto: Crypto, db: Db)
    requires HexOutputs(crypto)
    ensures Acceptable(SampleEnv(crypto, db), SampleOptions(crypto))
  {
    SampleIsIntact(crypto, db);
    assert CollectBlockers(CollectAuditState(SampleEnv(crypto, db), db)) == [];
  }

  lemma SampleIsUnmoved(crypto: Crypto, db: Db)
    requires HexOutputs(crypto)
    ensures Unmoved(SampleEnv(crypto, db), SampleOptions(crypto), db)
  {
  }

  lemma SampleRunsThrough(crypto: Crypto, db: Db)
    requires HexOutputs(crypto) && forall id :: id in db ==> db[id].refs == map[]
    ensures Succeeds(SampleEnv(crypto, db), SampleOptions(crypto), db)
  {
    SampleIsAcceptable(crypto, db);
    SampleIsUnmoved(crypto, db);
    UnreferencedDeletesRun(db, 0);
  }

  lemma SampleBodyIsPlain()
    ensures WellFormed(SAMPLE_BODY) && Plain(SAMPLE_BODY) && SupportedSchema(SAMPLE_BODY)
  {
    var f := Field(SCHEMA_VERSION_KEY, Str(AUDIT_SCHEMA_VERSION));
    assert SAMPLE_BODY.fields == [f] && Keys(SAMPLE_BODY.fields) == [SCHEMA_VERSION_KEY];
    assert Keys(SAMPLE_BODY.fields)[0] == SCHEMA_VERSION_KEY;
  }

  lemma SampleIsAudited(crypto: Crypto, db: Db)
    ensures FromAudit(SampleEnv(crypto, db), SampleOptions(crypto), db)
  {
    var env, o := SampleEnv(crypto, db), SampleOptions(crypto);
    SampleBodyIsPlain();
    assert o.artifact.(body := SAMPLE_BODY) == o.artifact;
    assert Seal(env.crypto, SAMPLE_BODY, Some(SAMPLE_KEY)) == Ok(o.artifact);
    assert SealedOver(env, o, SAMPLE_BODY, Some(SAMPLE_KEY));
    assert HonestBody(env, env.readBody(SAMPLE_BODY), db);
    assert NoCollisions(env, o, SAMPLE_BODY, db, db);
  }

  lemma SampleEnvIsSane(crypto: Crypto, db: Db)
    requires HexOutputs(crypto)
    ensures SaneEnv(SampleEnv(crypto, db))
  {
    var env := SampleEnv(crypto, db);
    assert env.schema == [] && env.crypto == crypto;
    assert forall d: Db :: env.observe(d).rest == Null;
  }

  /** For every database of unrelated rows there are surroundings in which its cleanup commits. */
  lemma CleanupCanCommit(crypto: Crypto, db: Db)
    requires HexOutputs(crypto) && forall id :: id in db ==> db[id].refs == map[]
    ensures exists env: Env, o: Options :: && env.crypto == crypto && o.execute && SaneEnv(env) && Intact(db) && Declared(db, env.schema)
                             && FromAudit(env, o, db) && Succeeds(env, o, db)
  {
    var env, o := SampleEnv(crypto, db), SampleOptions(crypto);
    SampleRunsThrough(crypto, db);
    SampleIsAudited(crypto, db);
    SampleEnvIsSane(crypto, db);
  }
}
