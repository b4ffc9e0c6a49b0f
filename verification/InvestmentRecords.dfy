/** The investment store: current records, replaced revisions, and the state of the source. Instants are integers. */
module InvestmentRecords {
  import opened Common
  import opened Sorting

  datatype Provider = Clal | BestInvest | Hapoalim

  function ProviderName(p: Provider): string {
    match p
    case Clal => "clal"
    case BestInvest => "hachshara_best_invest"
    case Hapoalim => "hapoalim"
  }

  datatype Kind = Products | Valuations | Activities | Tracks | Executions

  datatype Coverage = Unavailable | Covered(level: int)

  /** `id` stands for the report's place in the order of ids. */
  datatype Report = Report(id: int, body: int)

  /** What an archived valuation preserves of its source. */
  datatype Archive = Archive(entryId: string, amount: int, observedAt: int, sha: string)

  /** Rows of all kinds; `content` stands for all fields the store only copies. */
  datatype Record =
    | Product(id: string, provider: Provider, encodedId: string, currency: string, current: Option<string>,
              valuations: Coverage, reports: Option<seq<Report>>, content: int)
    | Valuation(id: string, productId: string, currency: string, asOf: Option<string>, amount: int, archive: Option<Archive>,
                observedAt: int)
    | Other(kind: Kind, id: string, productId: string, content: int, observedAt: int)

  function KindOf(r: Record): Kind {
    match r
    case Product(_, _, _, _, _, _, _, _) => Products
    case Valuation(_, _, _, _, _, _, _) => Valuations
    case Other(kind, _, _, _, _) => kind
  }

  type Key = (Kind, string)

  function KeyOf(r: Record): Key {
    (KindOf(r), r.id)
  }

  /** Financial content: everything but the observation time. */
  function Content(r: Record): Record {
    match r
    case Product(_, _, _, _, _, _, _, _) => r
    case Valuation(id, productId, currency, asOf, amount, archive, _) => Valuation(id, productId, currency, asOf, amount, archive, 0)
    case Other(kind, id, productId, content, _) => Other(kind, id, productId, content, 0)
  }

  // ---------------------------------------------------------------- merging

  predicate ReportLeq(a: Report, b: Report) {
    a.id < b.id || (a.id == b.id && a.body <= b.body)
  }

  /** `Map.set`: a known id keeps its place. */
  function SetReport(reports: seq<Report>, r: Report): seq<Report> {
    if reports == [] then [r]
    else if reports[0].id == r.id then [r] + reports[1..]
    else [reports[0]] + SetReport(reports[1..], r)
  }

  function SetReports(reports: seq<Report>, more: seq<Report>): seq<Report>
    decreases |more|
  {
    if more == [] then reports else SetReports(SetReport(reports, more[0]), more[1..])
  }

  function MergedReports(previous: Option<seq<Report>>, incoming: Option<seq<Report>>): Option<seq<Report>> {
    if previous.None? && incoming.None? then None
    else Some(Sort(SetReports(SetReports([], previous.GetOr([])), incoming.GetOr([])), ReportLeq))
  }

  /** The row that replaces a stored one. */
  function Merged(provider: Provider, previous: Record, row: Record): (m: Record)
    ensures KeyOf(m) == KeyOf(row)
  {
    if !row.Product? || !previous.Product? then row
    else
      var product :=
        if provider.Hapoalim? then
          row.(current := row.current.Or(previous.current), valuations := if row.valuations.Unavailable? then previous.valuations else row.valuations)
        else row;
      product.(reports := MergedReports(previous.reports, product.reports))
  }

  // ---------------------------------------------------------------- the store

  datatype Outcome = Inserted | Updated | Unchanged

  datatype Revision = Revision(key: Key, replacedAt: int, record: Record)

  datatype SourceStatus = NeverSynced | Healthy | PartlySynced | Failing

  datatype Source = Source(status: SourceStatus, lastAttemptAt: Option<int>, lastSuccessAt: Option<int>, inventoryComplete: bool)

  /** `lastApplied` is the observation applied last, kept for one provider only. */
  datatype Store = Store(
    records: map<Key, Record>, revisions: seq<Revision>, source: Source, lastApplied: Option<int>, evidence: map<string, string>)

  const EMPTY := Store(map[], [], Source(NeverSynced, None, None, false), None, map[])

  /** One record written at `at`; also the row actually stored. */
  function Upsert(provider: Provider, s: Store, row: Record, at: int): (Store, Outcome, Record) {
    var key := KeyOf(row);
    if key !in s.records then (s.(records := s.records[key := row]), Inserted, row)
    else
      var previous := s.records[key];
      var merged := Merged(provider, previous, row);
      var written := s.(records := s.records[key := merged]);
      if Content(previous) == Content(merged) then (written, Unchanged, merged)
      else (written.(revisions := s.revisions + [Revision(key, at, previous)]), Updated, merged)
  }

  datatype Summary = Summary(applied: bool, inserted: nat, updated: nat, kept: nat)

  const NOTHING := Summary(false, 0, 0, 0)

  function Counted(s: Summary, o: Outcome): Summary {
    match o
    case Inserted => s.(inserted := s.inserted + 1)
    case Updated => s.(updated := s.updated + 1)
    case Unchanged => s.(kept := s.kept + 1)
  }

  /** Rows written in order: the store, the counts, and the rows stored. */
  function UpsertAll(provider: Provider, s: Store, rows: seq<Record>, at: int, summary: Summary): (Store, Summary, seq<Record>)
    decreases |rows|
  {
    if rows == [] then (s, summary, [])
    else
      var first := Upsert(provider, s, rows[0], at);
      var rest := UpsertAll(provider, first.0, rows[1..], at, Counted(summary, first.1));
      (rest.0, rest.1, [first.2] + rest.2)
  }

  // ---------------------------------------------------------------- failures

  function RecordFailure(s: Store, status: SourceStatus, at: int): Store {
    if s.source.lastAttemptAt.Some? && at < s.source.lastAttemptAt.value then s
    else s.(source := s.source.(status := status, lastAttemptAt := Some(at), inventoryComplete := false))
  }

  // ---------------------------------------------------------------- snapshots

  /** `othersValid` says that activities, tracks and executions carry the identities of known products. */
  datatype Snapshot = Snapshot(
    observedAt: int, complete: bool, inventoryComplete: bool,
    products: seq<Record>, valuations: seq<Record>, others: seq<Record>, othersValid: bool)

  function ValuationId(productId: string, asOf: Option<string>): string {
    productId + ":" + ("valuation" + ":" + asOf.GetOr("undated"))
  }

  function ArchiveId(entryId: string): string {
    "sure" + ":" + ("entry" + ":" + entryId)
  }

  function ProductId(provider: Provider, encodedId: string): string {
    ProviderName(provider) + ":" + encodedId
  }

  predicate DistinctIds(rows: seq<Record>) {
    forall i, j :: 0 <= i < j < |rows| ==> rows[i].id != rows[j].id
  }

  predicate ValidProduct(p: Record, provider: Provider, snapshot: Snapshot) {
    && p.Product? && p.provider == provider && ':' !in p.encodedId && p.id == ProductId(provider, p.encodedId)
    && (!p.valuations.Unavailable? ==> exists v :: v in snapshot.valuations && v.Valuation? && v.productId == p.id)
    && (p.current.Some? ==> exists v :: v in snapshot.valuations && v.Valuation? && v.productId == p.id && v.id == p.current.value)
  }

  predicate ValidValuation(v: Record, provider: Provider, snapshot: Snapshot) {
    && v.Valuation? && (v.asOf.Some? ==> ':' !in v.asOf.value)
    && (exists p :: p in snapshot.products && p.Product? && p.id == v.productId && p.currency == v.currency)
    && if v.archive.None? then v.id == ValuationId(v.productId, v.asOf)
       else
         && provider.Hapoalim? && v.id == ArchiveId(v.archive.value.entryId) && v.asOf.Some?
         && v.amount == v.archive.value.amount && v.observedAt == v.archive.value.observedAt
         && forall p :: p in snapshot.products && p.Product? && p.id == v.productId ==> p.current != Some(v.id)
  }

  predicate ValidReports(reports: Option<seq<Report>>) {
    reports.Some? ==> forall i, j :: 0 <= i < j < |reports.value| ==> reports.value[i].id != reports.value[j].id
  }

  predicate ValidOther(r: Record) {
    r.Other? && (r.kind.Activities? || r.kind.Tracks? || r.kind.Executions?)
  }

  /** `validateRelations`, together with what the schema guarantees. */
  predicate ValidRelations(snapshot: Snapshot, provider: Provider) {
    && DistinctIds(snapshot.products) && DistinctIds(snapshot.valuations)
    && (forall p :: p in snapshot.products ==> ValidProduct(p, provider, snapshot) && ValidReports(p.reports))
    && (forall v :: v in snapshot.valuations ==> ValidValuation(v, provider, snapshot))
    && snapshot.othersValid && (forall r :: r in snapshot.others ==> ValidOther(r))
  }

  function Rows(snapshot: Snapshot): seq<Record> {
    snapshot.products + (snapshot.valuations + snapshot.others)
  }

  datatype Reply = Applied(summary: Summary) | Rejected

  predicate HasCurrent(p: Record) {
    p.Product? && p.current.Some?
  }

  predicate AllCurrent(products: seq<Record>) {
    products != [] && forall p :: p in products ==> HasCurrent(p)
  }

  predicate CurrentValuesComplete(snapshot: Snapshot, provider: Provider) {
    !provider.Hapoalim? || (snapshot.inventoryComplete && AllCurrent(snapshot.products))
  }

  predicate Before(at: int, other: Option<int>) {
    other.Some? && at < other.value
  }

  /** The source after a snapshot was applied. */
  function AppliedSource(source: Source, snapshot: Snapshot, provider: Provider): Source {
    var done := CurrentValuesComplete(snapshot, provider);
    Source(if done then Healthy else PartlySynced, Some(snapshot.observedAt),
           if done then Some(snapshot.observedAt) else source.lastSuccessAt, snapshot.inventoryComplete)
  }

  predicate Incomplete(provider: Provider, snapshot: Snapshot) {
    !snapshot.complete || (!snapshot.inventoryComplete && !provider.Hapoalim?)
  }

  /** One provider's observations are skipped when a later one was applied, attempted or successful. */
  predicate Outdated(provider: Provider, s: Store, snapshot: Snapshot) {
    && provider.Hapoalim?
    && (Before(snapshot.observedAt, s.lastApplied) || Before(snapshot.observedAt, s.source.lastAttemptAt)
        || Before(snapshot.observedAt, s.source.lastSuccessAt))
  }

  /** The other providers' observations must not predate the last success. */
  predicate Regresses(provider: Provider, s: Store, snapshot: Snapshot) {
    !provider.Hapoalim? && Before(snapshot.observedAt, s.source.lastSuccessAt)
  }

  /** The transaction of an accepted snapshot. */
  function Write(provider: Provider, s: Store, snapshot: Snapshot): (Store, Summary, seq<Record>) {
    var written := UpsertAll(provider, s, Rows(snapshot), snapshot.observedAt, Summary(true, 0, 0, 0));
    (written.0.(source := AppliedSource(s.source, snapshot, provider),
                lastApplied := if provider.Hapoalim? then Some(snapshot.observedAt) else s.lastApplied),
     written.1, written.2)
  }

  /** The store, the reply, and the rows stored. */
  function ApplySnapshot(provider: Provider, s: Store, snapshot: Snapshot): (Store, Reply, seq<Record>) {
    if Incomplete(provider, snapshot) then (RecordFailure(s, PartlySynced, snapshot.observedAt), Applied(NOTHING), [])
    else if !ValidRelations(snapshot, provider) then (s, Rejected, [])
    else if Outdated(provider, s, snapshot) then (s, Applied(NOTHING), [])
    else if Regresses(provider, s, snapshot) then (s, Rejected, [])
    else var written := Write(provider, s, snapshot); (written.0, Applied(written.1), written.2)
  }

  // ---------------------------------------------------------------- archive

  /** A stored record is never replaced by the archive; a conflict is an error. */
  function Append(provider: Provider, s: Store, row: Record, at: int): Option<(Store, Outcome, seq<Record>)> {
    var key := KeyOf(row);
    if key !in s.records then
      var u := Upsert(provider, s, row, at);
      Some((u.0, u.1, [u.2]))
    else
      var previous := s.records[key];
      var agrees := if row.Product? then previous.Product? && previous.provider == provider && previous.currency == row.currency
                    else Content(previous) == Content(row);
      if agrees then Some((s, Unchanged, [])) else None
  }

  function AppendAll(provider: Provider, s: Store, rows: seq<Record>, at: int, summary: Summary): Option<(Store, Summary, seq<Record>)>
    decreases |rows|
  {
    if rows == [] then Some((s, summary, []))
    else
      match Append(provider, s, rows[0], at)
      case None => None
      case Some(first) =>
        match AppendAll(provider, first.0, rows[1..], at, Counted(summary, first.1))
        case None => None
        case Some(rest) => Some((rest.0, rest.1, first.2 + rest.2))
  }

  /** A seed is one product without a current value and archived valuations only, all from one source text. */
  predicate ValidSeed(snapshot: Snapshot, provider: Provider, sha: string, evidence: string) {
    && provider.Hapoalim? && snapshot.others == [] && |snapshot.products| == 1 && snapshot.valuations != []
    && snapshot.products[0].Product? && snapshot.products[0].current.None?
    && (forall v :: v in snapshot.valuations ==> v.Valuation? && v.archive.Some? && v.archive.value.sha == sha)
    && ValidRelations(snapshot, provider) && evidence != ""
  }

  function SeedArchive(provider: Provider, s: Store, snapshot: Snapshot, sha: string, evidence: string): (Store, Reply, seq<Record>) {
    if !ValidSeed(snapshot, provider, sha, evidence) || (sha in s.evidence && s.evidence[sha] != evidence) then (s, Rejected, [])
    else
      match AppendAll(provider, s.(evidence := s.evidence[sha := evidence]), snapshot.products + snapshot.valuations, snapshot.observedAt,
                      Summary(true, 0, 0, 0))
      case None => (s, Rejected, [])
      case Some(done) => (done.0, Applied(done.1), done.2)
  }

  // ---------------------------------------------------------------- runs

  datatype Op =
    | Apply(snapshot: Snapshot)
    | Fail(status: SourceStatus, at: int)
    | Seed(snapshot: Snapshot, sha: string, evidence: string)

  /** The store after one call, and the rows it stored, in order. */
  function Perform(provider: Provider, s: Store, op: Op): (Store, seq<Record>) {
    match op
    case Apply(snapshot) => var r := ApplySnapshot(provider, s, snapshot); (r.0, r.2)
    case Fail(status, at) => (RecordFailure(s, status, at), [])
    case Seed(snapshot, sha, evidence) => var r := SeedArchive(provider, s, snapshot, sha, evidence); (r.0, r.2)
  }

  function PerformAll(provider: Provider, s: Store, ops: seq<Op>): (Store, seq<Record>)
    decreases |ops|
  {
    if ops == [] then (s, [])
    else
      var first := Perform(provider, s, ops[0]);
      var rest := PerformAll(provider, first.0, ops[1..]);
      (rest.0, first.1 + rest.1)
  }
}
