/** The indicator store (app/services/ioc_service.py): upsert, re-run, and the two batch
    imports, whose items run inside savepoints. Classification, enrichment and the clock
    are parameters; so is where an upsert fails. */
module IocStore {
  import opened Wrappers
  import opened Harvest
  import opened Scoring
  import opened Text
  import Indicators

  datatype Row = Row(ioctype: string, value: string, defanged: string, source: string, score: int, level: ThreatLevel,
                     sightings: nat, tags: set<string>, description: string)

  /** The rows, by id, and for each the stored engine record. */
  datatype Store = Store(rows: seq<Row>, records: map<nat, ScoreResult>)

  const EMPTY: Store := Store([], map[])

  /** Where an upsert is interrupted by an exception, if at all: before anything is
      written, after the row is, or after the engine record is. */
  datatype Failure = NoFailure | BeforeRow | AfterRow | AfterRecord

  /** One submission, with the signals it will have for a given number of sightings. */
  datatype Submission = Submission(raw: string, source: string, tags: set<string>, description: string,
                                   signals: nat -> Signals, failure: Failure)

  // -------------------------------------------------------------------- an upsert

  /** The row of a type and value, found as the database finds it. */
  function FindRow(rows: seq<Row>, p: Parsed): (r: Option<nat>)
    ensures r.Some? ==> r.value < |rows| && rows[r.value].ioctype == p.ioctype && rows[r.value].value == p.value
  {
    if rows == [] then None
    else
      var n := |rows| - 1;
      if rows[n].ioctype == p.ioctype && rows[n].value == p.value then Some(n) else FindRow(rows[..n], p)
  }

  function NewRow(p: Parsed, sub: Submission, score: ScoreResult): Row {
    Row(p.ioctype, p.value, Indicators.Defanged(p.value), sub.source, score.score, score.level, 1, sub.tags,
        sub.description)
  }

  function UpdatedRow(r: Row, sub: Submission, score: ScoreResult): Row {
    r.(score := score.score, level := score.level, sightings := r.sightings + 1, tags := r.tags + sub.tags,
       description := if sub.description != "" && r.description == "" then sub.description else r.description)
  }

  /** The score a submission will give to an indicator. */
  function ScoreOf(s: Store, p: Parsed, sub: Submission): ScoreResult {
    match FindRow(s.rows, p)
    case None => ComputeThreatScore(sub.signals(1))
    case Some(i) => ComputeThreatScore(sub.signals(s.rows[i].sightings + 1))
  }

  /** The store after the row is written, and the row's id. */
  function WithRow(s: Store, p: Parsed, sub: Submission): (r: (Store, nat))
    ensures r.1 < |r.0.rows|
  {
    var score := ScoreOf(s, p, sub);
    match FindRow(s.rows, p)
    case None => (s.(rows := s.rows + [NewRow(p, sub, score)]), |s.rows|)
    case Some(i) => (s.(rows := s.rows[i := UpdatedRow(s.rows[i], sub, score)]), i)
  }

  /** The store a complete upsert leaves. */
  function Upserted(s: Store, p: Parsed, sub: Submission): Store {
    var (s1, i) := WithRow(s, p, sub);
    s1.(records := s1.records[i := ScoreOf(s, p, sub)])
  }

  /** What an upsert leaves behind outside a savepoint, complete or not. */
  function Attempted(classify: Classifier, s: Store, sub: Submission): Store {
    if classify(sub.raw).None? || sub.failure == BeforeRow then s
    else if sub.failure == AfterRow then WithRow(s, classify(sub.raw).value, sub).0
    else Upserted(s, classify(sub.raw).value, sub)
  }

  predicate Succeeds(classify: Classifier, sub: Submission) {
    classify(sub.raw).Some? && sub.failure == NoFailure
  }

  /** The outcome of one item in a savepoint: all of it or nothing. */
  function Guarded(classify: Classifier, s: Store, sub: Submission): Store {
    if Succeeds(classify, sub) then Upserted(s, classify(sub.raw).value, sub) else s
  }

  function AllGuarded(classify: Classifier, s: Store, subs: seq<Submission>): Store {
    if subs == [] then s
    else Guarded(classify, AllGuarded(classify, s, subs[..|subs| - 1]), subs[|subs| - 1])
  }

  function Successes(classify: Classifier, subs: seq<Submission>): nat {
    if subs == [] then 0
    else Successes(classify, subs[..|subs| - 1]) + if Succeeds(classify, subs[|subs| - 1]) then 1 else 0
  }

  datatype Item = Imported(defanged: string, ioctype: string, score: int) | NotImported(value: string)

  /** What a batch reports for one item, given the store before it. */
  function ItemFor(classify: Classifier, s: Store, sub: Submission): Item {
    if !Succeeds(classify, sub) then NotImported(sub.raw)
    else
      var p := classify(sub.raw).value;
      Imported(Indicators.Defanged(p.value), p.ioctype, ScoreOf(s, p, sub).score)
  }

  /** What a batch reports, item by item. */
  function ItemsFor(classify: Classifier, s: Store, subs: seq<Submission>): seq<Item> {
    if subs == [] then []
    else
      var init := subs[..|subs| - 1];
      ItemsFor(classify, s, init) + [ItemFor(classify, AllGuarded(classify, s, init), subs[|subs| - 1])]
  }

  datatype Report = Report(extracted: nat, imported: nat, failed: int, items: seq<Item>)

  class IocService {
    var rows: seq<Row>
    var records: map<nat, ScoreResult>

    function View(): Store
      reads this
    {
      Store(rows, records)
    }

    constructor ()
      ensures View() == EMPTY
    {
      rows, records := [], map[];
    }

    /** Either the complete effect, or a failure that leaves behind what was written before it. */
    method Upsert(classify: Classifier, sub: Submission) returns (id: Option<nat>)
      modifies this
      ensures id.Some? <==> Succeeds(classify, sub)
      ensures id.Some? ==>
        && View() == Upserted(old(View()), classify(sub.raw).value, sub)
        && id.value == WithRow(old(View()), classify(sub.raw).value, sub).1 < |rows|
      ensures View() == Attempted(classify, old(View()), sub)
    {
      var parsed := classify(sub.raw);
      if parsed.None? || sub.failure == BeforeRow {
        return None;
      }
      var p := parsed.value;
      var found := FindRow(rows, p);
      var sightings := if found.Some? then rows[found.value].sightings + 1 else 1;
      var score := ComputeThreatScore(sub.signals(sightings));
      var i: nat;
      if found.None? {
        i := |rows|;
        rows := rows + [NewRow(p, sub, score)];
      } else {
        i := found.value;
        rows := rows[i := UpdatedRow(rows[i], sub, score)];
      }
      if sub.failure == AfterRow {
        return None;
      }
      records := records[i := score];
      if sub.failure == AfterRecord {
        return None;
      }
      return Some(i);
    }

    /** An upsert inside a savepoint: a failed one is rolled back as a whole. */
    method UpsertNested(classify: Classifier, sub: Submission) returns (id: Option<nat>)
      modifies this
      ensures id.Some? <==> Succeeds(classify, sub)
      ensures View() == Guarded(classify, old(View()), sub)
      ensures id.Some? ==> id.value == WithRow(old(View()), classify(sub.raw).value, sub).1 < |rows|
    {
      var savedRows, savedRecords := rows, records;
      id := Upsert(classify, sub);
      if id.None? {
        rows, records := savedRows, savedRecords;
      }
    }

    method IngestFromCollector(classify: Classifier, subs: seq<Submission>) returns (ingested: nat, skipped: nat)
      modifies this
      ensures View() == AllGuarded(classify, old(View()), subs)
      ensures ingested == Successes(classify, subs) && ingested + skipped == |subs|
    {
      ingested, skipped := 0, 0;
      for k := 0 to |subs|
        invariant View() == AllGuarded(classify, old(View()), subs[..k])
        invariant ingested == Successes(classify, subs[..k]) && ingested + skipped == k
      {
        assert subs[..k + 1][..k] == subs[..k];
        var id := UpsertNested(classify, subs[k]);
        if id.Some? {
          ingested := ingested + 1;
        } else {
          skipped := skipped + 1;
        }
      }
      assert subs[..|subs|] == subs;
    }

    /** `subs` are the extracted values with the import's settings. */
    method BulkImport(classify: Classifier, subs: seq<Submission>) returns (r: Report)
      requires Consistent(View())
      modifies this
      ensures View() == AllGuarded(classify, old(View()), subs)
      ensures r.extracted == |subs| == |r.items| && r.imported == Successes(classify, subs)
      ensures r.extracted == r.imported + r.failed && 0 <= r.failed
      ensures r.items == ItemsFor(classify, old(View()), subs)
    {
      var items: seq<Item> := [];
      var imported := 0;
      for k := 0 to |subs|
        invariant View() == AllGuarded(classify, old(View()), subs[..k])
        invariant |items| == k && imported == Successes(classify, subs[..k]) <= k
        invariant Consistent(View())
        invariant items == ItemsFor(classify, old(View()), subs[..k])
      {
        assert subs[..k + 1][..k] == subs[..k];
        var item := ImportOne(classify, subs[k]);
        items := items + [item];
        if item.Imported? {
          imported := imported + 1;
        }
      }
      assert subs[..|subs|] == subs;
      r := Report(|subs|, imported, |subs| - imported, items);
    }

    method ImportOne(classify: Classifier, sub: Submission) returns (item: Item)
      requires Consistent(View())
      modifies this
      ensures View() == Guarded(classify, old(View()), sub) && Consistent(View())
      ensures item == ItemFor(classify, old(View()), sub)
      ensures item.Imported? <==> Succeeds(classify, sub)
    {
      ghost var before := View();
      var id := UpsertNested(classify, sub);
      if id.Some? {
        ItemIsRow(classify, before, sub);
        item := Imported(rows[id.value].defanged, rows[id.value].ioctype, rows[id.value].score);
      } else {
        item := NotImported(sub.raw);
      }
    }

    /** Re-enrich and re-score an existing indicator, by submitting its stored value. */
    method RerunEnrichment(classify: Classifier, id: nat, signals: nat -> Signals, failure: Failure)
      returns (r: Option<nat>)
      requires id < |rows|
      modifies this
      ensures r.Some? <==> Succeeds(classify, Rerun(old(rows)[id], signals, failure))
      ensures View() == Attempted(classify, old(View()), Rerun(old(rows)[id], signals, failure))
    {
      r := Upsert(classify, Rerun(rows[id], signals, failure));
    }

    /** The stored score breakdown: in a consistent store every indicator has one, and it
        explains the indicator's score. */
    method Explain(id: nat) returns (r: Option<ScoreResult>)
      ensures r.None? <==> id !in records
      ensures r.Some? ==> r.value == records[id]
      ensures Consistent(View()) && id < |rows| ==>
        r.Some? && Explains(r.value) && r.value.score == rows[id].score && r.value.level == rows[id].level
    {
      assert id < |rows| && Consistent(View()) ==> Explained(rows[id], records, id);
      if id !in records {
        return None;
      }
      return Some(records[id]);
    }
  }

  function Rerun(row: Row, signals: nat -> Signals, failure: Failure): Submission {
    Submission(row.value, row.source, {}, "", signals, failure)
  }

  // ------------------------------------------------------------------ the lookups

  lemma {:induction false} RowNotFound(rows: seq<Row>, p: Parsed)
    ensures FindRow(rows, p).None? <==> forall i | 0 <= i < |rows| ::
        !(rows[i].ioctype == p.ioctype && rows[i].value == p.value)
  {
    if rows != [] {
      var n := |rows| - 1;
      RowNotFound(rows[..n], p);
      assert forall i | 0 <= i < n :: rows[..n][i] == rows[i];
    }
  }

  // -------------------------------------------------------------- the invariants

  function TotalSightings(rows: seq<Row>): nat {
    if rows == [] then 0 else TotalSightings(rows[..|rows| - 1]) + rows[|rows| - 1].sightings
  }

  lemma {:induction false} SightingsOfUpdate(rows: seq<Row>, i: nat, r: Row)
    requires i < |rows|
    ensures TotalSightings(rows[i := r]) + rows[i].sightings == TotalSightings(rows) + r.sightings
  {
    var n := |rows| - 1;
    if i == n {
      assert rows[i := r][..n] == rows[..n];
    } else {
      assert rows[i := r][..n] == rows[..n][i := r];
      SightingsOfUpdate(rows[..n], i, r);
    }
  }

  predicate SameIndicator(r: Row, q: Row) {
    r.ioctype == q.ioctype && r.value == q.value
  }

  ghost predicate Unique(rows: seq<Row>) {
    forall i, j | 0 <= i < j < |rows| :: !SameIndicator(rows[i], rows[j])
  }

  /** The level is that of the score, the stored explanation is for that score, and the
      display form is that of the value. */
  ghost predicate Explained(r: Row, records: map<nat, ScoreResult>, i: nat) {
    && r.defanged == Indicators.Defanged(r.value)
    && r.level == LevelForScore(r.score)
    && i in records && Explains(records[i]) && records[i].score == r.score && records[i].level == r.level
  }

  /** Type and value are unique, and every row is explained. */
  ghost predicate Consistent(s: Store) {
    && Unique(s.rows)
    && forall i | 0 <= i < |s.rows| :: Explained(s.rows[i], s.records, i)
  }

  lemma UniqueAppend(rows: seq<Row>, p: Parsed, r: Row)
    requires Unique(rows) && FindRow(rows, p).None? && r.ioctype == p.ioctype && r.value == p.value
    ensures Unique(rows + [r])
  {
    RowNotFound(rows, p);
  }

  lemma {:induction false} AppendKeeps(s: Store, p: Parsed, sub: Submission, score: ScoreResult)
    requires Consistent(s) && FindRow(s.rows, p).None? && Explains(score)
    ensures var rows := s.rows + [NewRow(p, sub, score)];
      && Consistent(Store(rows, s.records[|s.rows| := score]))
      && TotalSightings(rows) == TotalSightings(s.rows) + 1
  {
    UniqueAppend(s.rows, p, NewRow(p, sub, score));
    assert (s.rows + [NewRow(p, sub, score)])[..|s.rows|] == s.rows;
  }

  lemma {:induction false} UpdateKeeps(s: Store, i: nat, sub: Submission, score: ScoreResult)
    requires Consistent(s) && i < |s.rows| && Explains(score)
    ensures var rows := s.rows[i := UpdatedRow(s.rows[i], sub, score)];
      && Consistent(Store(rows, s.records[i := score]))
      && TotalSightings(rows) == TotalSightings(s.rows) + 1
  {
    SightingsOfUpdate(s.rows, i, UpdatedRow(s.rows[i], sub, score));
  }

  lemma {:induction false} ScoreExplained(s: Store, p: Parsed, sub: Submission)
    ensures Explains(ScoreOf(s, p, sub))
  {
    match FindRow(s.rows, p)
    case None => ContributionsExplainScore(sub.signals(1));
    case Some(i) => ContributionsExplainScore(sub.signals(s.rows[i].sightings + 1));
  }

  /** A complete upsert keeps the store consistent and adds one sighting. */
  lemma {:induction false} UpsertKeeps(s: Store, p: Parsed, sub: Submission)
    requires Consistent(s)
    ensures Consistent(Upserted(s, p, sub))
    ensures TotalSightings(Upserted(s, p, sub).rows) == TotalSightings(s.rows) + 1
  {
    ScoreExplained(s, p, sub);
    match FindRow(s.rows, p) {
      case None => AppendKeeps(s, p, sub, ScoreOf(s, p, sub));
      case Some(i) => UpdateKeeps(s, i, sub, ScoreOf(s, p, sub));
    }
  }

  lemma {:induction false} ImportedRow(s: Store, p: Parsed, sub: Submission)
    requires Consistent(s)
    ensures var (s1, i) := WithRow(s, p, sub);
      && s1.rows[i].defanged == Indicators.Defanged(p.value) && s1.rows[i].ioctype == p.ioctype
      && s1.rows[i].score == ScoreOf(s, p, sub).score
  {
  }

  lemma {:induction false} ItemIsRow(classify: Classifier, s: Store, sub: Submission)
    requires Consistent(s) && Succeeds(classify, sub)
    ensures var (s1, i) := WithRow(s, classify(sub.raw).value, sub);
      ItemFor(classify, s, sub) == Imported(s1.rows[i].defanged, s1.rows[i].ioctype, s1.rows[i].score)
    ensures Consistent(Guarded(classify, s, sub))
  {
    ImportedRow(s, classify(sub.raw).value, sub);
    UpsertKeeps(s, classify(sub.raw).value, sub);
  }

  /** The upserts a deployment makes: single ones and re-runs, each its own transaction,
      and batches of guarded items. */
  datatype Op =
    | Single(sub: Submission)
    | Again(id: nat, signals: nat -> Signals, failure: Failure)
    | Batch(subs: seq<Submission>)

  /** The submissions an operation makes. */
  function Submitted(s: Store, op: Op): seq<Submission> {
    match op
    case Single(sub) => [sub]
    case Again(id, signals, failure) => if id < |s.rows| then [Rerun(s.rows[id], signals, failure)] else []
    case Batch(subs) => subs
  }

  function StoreAfter(classify: Classifier, run: seq<Op>): Store {
    if run == [] then EMPTY
    else
      var s := StoreAfter(classify, run[..|run| - 1]);
      AllGuarded(classify, s, Submitted(s, run[|run| - 1]))
  }

  function SuccessesOf(classify: Classifier, run: seq<Op>): nat {
    if run == [] then 0
    else
      var init := run[..|run| - 1];
      SuccessesOf(classify, init) + Successes(classify, Submitted(StoreAfter(classify, init), run[|run| - 1]))
  }

  lemma {:induction false} BatchKeeps(classify: Classifier, s: Store, subs: seq<Submission>)
    requires Consistent(s)
    ensures Consistent(AllGuarded(classify, s, subs))
    ensures TotalSightings(AllGuarded(classify, s, subs).rows) == TotalSightings(s.rows) + Successes(classify, subs)
  {
    if subs != [] {
      var n := |subs| - 1;
      BatchKeeps(classify, s, subs[..n]);
      if Succeeds(classify, subs[n]) {
        UpsertKeeps(AllGuarded(classify, s, subs[..n]), classify(subs[n].raw).value, subs[n]);
      }
    }
  }

  /** From an empty store, over any mix of operations with any failures, the store stays
      consistent and the sightings add up to the number of successful upserts. */
  lemma {:induction false} SightingsConserved(classify: Classifier, run: seq<Op>)
    ensures Consistent(StoreAfter(classify, run))
    ensures TotalSightings(StoreAfter(classify, run).rows) == SuccessesOf(classify, run)
  {
    if run != [] {
      var init := run[..|run| - 1];
      SightingsConserved(classify, init);
      var s := StoreAfter(classify, init);
      BatchKeeps(classify, s, Submitted(s, run[|run| - 1]));
    }
  }

  // -------------------------------------------- the table as a function of the history

  /** The submission is written, as the indicator `p`. */
  predicate Hits(classify: Classifier, sub: Submission, p: Parsed) {
    classify(sub.raw) == Some(p) && sub.failure == NoFailure
  }

  /** How often the indicator was seen. */
  function SeenOf(classify: Classifier, subs: seq<Submission>, p: Parsed): nat {
    if subs == [] then 0
    else SeenOf(classify, subs[..|subs| - 1], p) + if Hits(classify, subs[|subs| - 1], p) then 1 else 0
  }

  /** Every tag it was ever submitted with. */
  ghost function TagsOf(classify: Classifier, subs: seq<Submission>, p: Parsed): set<string> {
    set k, t | 0 <= k < |subs| && Hits(classify, subs[k], p) && t in subs[k].tags :: t
  }

  /** The first description it was submitted with. */
  function DescriptionOf(classify: Classifier, subs: seq<Submission>, p: Parsed): string {
    if subs == [] then ""
    else if Hits(classify, subs[0], p) && subs[0].description != "" then subs[0].description
    else DescriptionOf(classify, subs[1..], p)
  }

  /** The source that submitted it first. */
  function SourceOf(classify: Classifier, subs: seq<Submission>, p: Parsed): string {
    if subs == [] then ""
    else if Hits(classify, subs[0], p) then subs[0].source
    else SourceOf(classify, subs[1..], p)
  }

  /** The result of scoring the latest submission for as many sightings as there were by then. */
  function ScoredAs(classify: Classifier, subs: seq<Submission>, p: Parsed): Option<ScoreResult> {
    if subs == [] then None
    else if Hits(classify, subs[|subs| - 1], p) then
      Some(ComputeThreatScore(subs[|subs| - 1].signals(SeenOf(classify, subs, p))))
    else ScoredAs(classify, subs[..|subs| - 1], p)
  }

  /** What a row and its engine record owe to the history. */
  ghost predicate Tells(classify: Classifier, subs: seq<Submission>, r: Row, record: ScoreResult) {
    var p := Parsed(r.ioctype, r.value);
    && r.sightings == SeenOf(classify, subs, p)
    && r.tags == TagsOf(classify, subs, p)
    && r.description == DescriptionOf(classify, subs, p)
    && r.source == SourceOf(classify, subs, p)
    && ScoredAs(classify, subs, p) == Some(record)
    && r.score == record.score && r.level == record.level
  }

  /** There is one row for every indicator ever written, and none for any other. */
  ghost predicate RowsSeen(classify: Classifier, subs: seq<Submission>, rows: seq<Row>) {
    forall p :: FindRow(rows, p).Some? <==> SeenOf(classify, subs, p) > 0
  }

  ghost predicate TableTells(classify: Classifier, subs: seq<Submission>, s: Store) {
    && RowsSeen(classify, subs, s.rows)
    && forall i | 0 <= i < |s.rows| :: i in s.records && Tells(classify, subs, s.rows[i], s.records[i])
  }

  lemma {:induction false} TextsAppend(classify: Classifier, subs: seq<Submission>, x: Submission, p: Parsed)
    ensures DescriptionOf(classify, subs + [x], p) ==
      if DescriptionOf(classify, subs, p) == "" && Hits(classify, x, p) then x.description
      else DescriptionOf(classify, subs, p)
    ensures SourceOf(classify, subs + [x], p) ==
      if SeenOf(classify, subs, p) == 0 && Hits(classify, x, p) then x.source else SourceOf(classify, subs, p)
  {
    if subs == [] {
      assert [x][1..] == [];
    } else {
      SeenFront(classify, subs, p);
      assert (subs + [x])[1..] == subs[1..] + [x];
      TextsAppend(classify, subs[1..], x, p);
    }
  }

  lemma {:induction false} SeenFront(classify: Classifier, subs: seq<Submission>, p: Parsed)
    requires subs != []
    ensures SeenOf(classify, subs, p) ==
      SeenOf(classify, subs[1..], p) + if Hits(classify, subs[0], p) then 1 else 0
  {
    if |subs| == 1 {
      assert subs[1..] == [] && subs[..0] == [];
    } else {
      var n := |subs| - 1;
      assert subs[..n][1..] == subs[1..][..n - 1] && subs[1..][n - 1] == subs[n];
      SeenFront(classify, subs[..n], p);
    }
  }

  /** What one more submission adds to the history of an indicator. */
  lemma {:induction false} HistoryAppend(classify: Classifier, subs: seq<Submission>, x: Submission, p: Parsed)
    ensures var all := subs + [x];
      && SeenOf(classify, all, p) == SeenOf(classify, subs, p) + (if Hits(classify, x, p) then 1 else 0)
      && TagsOf(classify, all, p) == TagsOf(classify, subs, p) + (if Hits(classify, x, p) then x.tags else {})
      && (!Hits(classify, x, p) ==>
        && DescriptionOf(classify, all, p) == DescriptionOf(classify, subs, p)
        && SourceOf(classify, all, p) == SourceOf(classify, subs, p)
        && ScoredAs(classify, all, p) == ScoredAs(classify, subs, p))
  {
    var all := subs + [x];
    assert all[..|subs|] == subs && all[|subs|] == x;
    TextsAppend(classify, subs, x, p);
    forall t ensures t in TagsOf(classify, all, p)
        <==> t in TagsOf(classify, subs, p) || (Hits(classify, x, p) && t in x.tags)
    {
      if t in TagsOf(classify, subs, p) {
        var k :| 0 <= k < |subs| && Hits(classify, subs[k], p) && t in subs[k].tags;
        assert all[k] == subs[k];
      }
      if t in TagsOf(classify, all, p) {
        var k :| 0 <= k < |all| && Hits(classify, all[k], p) && t in all[k].tags;
        assert k < |subs| ==> all[k] == subs[k];
      }
    }
  }

  lemma {:induction false} NeverSeen(classify: Classifier, subs: seq<Submission>, p: Parsed)
    requires SeenOf(classify, subs, p) == 0
    ensures TagsOf(classify, subs, p) == {} && DescriptionOf(classify, subs, p) == ""
  {
    if subs != [] {
      var n := |subs| - 1;
      assert subs[..n] + [subs[n]] == subs;
      NeverSeen(classify, subs[..n], p);
      HistoryAppend(classify, subs[..n], subs[n], p);
    }
  }

  /** A written row tells the history up to its submission: a new one ... */
  lemma {:induction false} NewRowTells(classify: Classifier, subs: seq<Submission>, x: Submission, p: Parsed,
          score: ScoreResult)
    requires SeenOf(classify, subs, p) == 0 && Hits(classify, x, p)
    requires score == ComputeThreatScore(x.signals(1))
    ensures Tells(classify, subs + [x], NewRow(p, x, score), score)
  {
    HistoryAppend(classify, subs, x, p);
    TextsAppend(classify, subs, x, p);
    NeverSeen(classify, subs, p);
    assert (subs + [x])[|subs|] == x;
  }

  /** ... and an updated one. */
  lemma {:induction false} UpdatedRowTells(classify: Classifier, subs: seq<Submission>, x: Submission, r: Row,
          record: ScoreResult, score: ScoreResult)
    requires Tells(classify, subs, r, record) && Hits(classify, x, Parsed(r.ioctype, r.value)) && r.sightings > 0
    requires score == ComputeThreatScore(x.signals(r.sightings + 1))
    ensures Tells(classify, subs + [x], UpdatedRow(r, x, score), score)
  {
    var p := Parsed(r.ioctype, r.value);
    HistoryAppend(classify, subs, x, p);
    TextsAppend(classify, subs, x, p);
    assert (subs + [x])[|subs|] == x;
  }

  lemma {:induction false} WrittenTells(classify: Classifier, subs: seq<Submission>, x: Submission, p: Parsed, s: Store)
    requires TableTells(classify, subs, s) && Hits(classify, x, p)
    ensures var (s1, i) := WithRow(s, p, x);
      Tells(classify, subs + [x], s1.rows[i], ScoreOf(s, p, x))
  {
    match FindRow(s.rows, p)
    case None => NewRowTells(classify, subs, x, p, ScoreOf(s, p, x));
    case Some(i) =>
      assert Tells(classify, subs, s.rows[i], s.records[i]) && SeenOf(classify, subs, p) > 0;
      UpdatedRowTells(classify, subs, x, s.rows[i], s.records[i], ScoreOf(s, p, x));
  }

  /** The rows that are not written tell it still. */
  lemma {:induction false} OtherTells(classify: Classifier, subs: seq<Submission>, x: Submission, r: Row,
          record: ScoreResult)
    requires Tells(classify, subs, r, record) && !Hits(classify, x, Parsed(r.ioctype, r.value))
    ensures Tells(classify, subs + [x], r, record)
  {
    HistoryAppend(classify, subs, x, Parsed(r.ioctype, r.value));
  }

  lemma FoundAppended(rows: seq<Row>, r: Row, q: Parsed)
    ensures FindRow(rows + [r], q).Some? <==> FindRow(rows, q).Some? || q == Parsed(r.ioctype, r.value)
  {
    assert (rows + [r])[..|rows|] == rows;
  }

  lemma {:induction false} FoundUpdated(rows: seq<Row>, i: nat, r: Row, q: Parsed)
    requires i < |rows| && SameIndicator(rows[i], r)
    ensures FindRow(rows[i := r], q) == FindRow(rows, q)
  {
    var n := |rows| - 1;
    if i == n {
      assert rows[i := r][..n] == rows[..n];
    } else {
      assert rows[i := r][..n] == rows[..n][i := r];
      FoundUpdated(rows[..n], i, r, q);
    }
  }

  lemma {:induction false} WrittenRowFound(s: Store, p: Parsed, sub: Submission, q: Parsed)
    ensures FindRow(Upserted(s, p, sub).rows, q).Some? <==> FindRow(s.rows, q).Some? || q == p
  {
    var score := ScoreOf(s, p, sub);
    match FindRow(s.rows, p)
    case None => FoundAppended(s.rows, NewRow(p, sub, score), q);
    case Some(i) => FoundUpdated(s.rows, i, UpdatedRow(s.rows[i], sub, score), q);
  }

  lemma {:induction false} RowsSeenStep(classify: Classifier, subs: seq<Submission>, x: Submission, s: Store)
    requires RowsSeen(classify, subs, s.rows)
    ensures RowsSeen(classify, subs + [x], Guarded(classify, s, x).rows)
  {
    forall q ensures FindRow(Guarded(classify, s, x).rows, q).Some? <==> SeenOf(classify, subs + [x], q) > 0 {
      HistoryAppend(classify, subs, x, q);
      if Succeeds(classify, x) {
        WrittenRowFound(s, classify(x.raw).value, x, q);
      }
    }
  }

  /** From an empty store, the whole table and every engine record are determined by the
      submissions that went through: which rows there are, how often each was seen, the
      union of its tags, its first description and source, and the score of its latest
      submission for that number of sightings. */
  lemma {:induction false} TableIsHistory(classify: Classifier, subs: seq<Submission>)
    ensures TableTells(classify, subs, AllGuarded(classify, EMPTY, subs))
  {
    if subs != [] {
      var n := |subs| - 1;
      var init, x := subs[..n], subs[n];
      assert init + [x] == subs;
      var s := AllGuarded(classify, EMPTY, init);
      TableIsHistory(classify, init);
      BatchKeeps(classify, EMPTY, init);
      RowsSeenStep(classify, init, x, s);
      var s' := Guarded(classify, s, x);
      forall j | 0 <= j < |s'.rows|
        ensures j in s'.records && Tells(classify, subs, s'.rows[j], s'.records[j])
      {
        if Succeeds(classify, x) {
          var p := classify(x.raw).value;
          var i := WithRow(s, p, x).1;
          if j == i {
            WrittenTells(classify, init, x, p, s);
          } else {
            RowNotFound(s.rows, p);
            assert s'.rows[j] == s.rows[j] && s'.records[j] == s.records[j];
            assert FindRow(s.rows, p).Some? ==> s.rows[i].ioctype == p.ioctype && s.rows[i].value == p.value;
            OtherTells(classify, init, x, s.rows[j], s.records[j]);
          }
        } else {
          OtherTells(classify, init, x, s.rows[j], s.records[j]);
        }
      }
    }
  }

  /** Every submission of a run, in order. */
  function History(classify: Classifier, run: seq<Op>): seq<Submission> {
    if run == [] then []
    else
      var init := run[..|run| - 1];
      History(classify, init) + Submitted(StoreAfter(classify, init), run[|run| - 1])
  }

  lemma {:induction false} GuardedAppend(classify: Classifier, s: Store, a: seq<Submission>, b: seq<Submission>)
    ensures AllGuarded(classify, s, a + b) == AllGuarded(classify, AllGuarded(classify, s, a), b)
  {
    if b == [] {
      assert a + b == a;
    } else {
      var n := |b| - 1;
      assert (a + b)[..|a + b| - 1] == a + b[..n];
      GuardedAppend(classify, s, a, b[..n]);
    }
  }

  /** The same for any run of single upserts, re-runs and batches. */
  lemma {:induction false} RunIsHistory(classify: Classifier, run: seq<Op>)
    ensures StoreAfter(classify, run) == AllGuarded(classify, EMPTY, History(classify, run))
    ensures TableTells(classify, History(classify, run), StoreAfter(classify, run))
  {
    if run != [] {
      var init := run[..|run| - 1];
      RunIsHistory(classify, init);
      GuardedAppend(classify, EMPTY, History(classify, init), Submitted(StoreAfter(classify, init), run[|run| - 1]));
    }
    TableIsHistory(classify, History(classify, run));
  }

  /** A row keeps its place, its indicator, its source and its description, if it has one,
      and it loses no tag. */
  ghost predicate Grown(rows: seq<Row>, rows': seq<Row>) {
    |rows| <= |rows'| && forall i | 0 <= i < |rows| ::
      && SameIndicator(rows[i], rows'[i]) && rows[i].source == rows'[i].source
      && rows[i].tags <= rows'[i].tags && rows[i].sightings <= rows'[i].sightings
      && (rows[i].description == "" || rows[i].description == rows'[i].description)
  }

  lemma {:induction false} RowsGrow(classify: Classifier, s: Store, subs: seq<Submission>)
    ensures Grown(s.rows, AllGuarded(classify, s, subs).rows)
  {
    if subs != [] {
      RowsGrow(classify, s, subs[..|subs| - 1]);
    }
  }

  /** A re-run updates the row it was asked for exactly when classification still
      reads the stored value as that row's type and value; otherwise it writes another. */
  lemma {:induction false} RerunHitsItsRow(classify: Classifier, s: Store, id: nat, signals: nat -> Signals)
    requires Consistent(s) && id < |s.rows| && classify(s.rows[id].value).Some?
    ensures WithRow(s, classify(s.rows[id].value).value, Rerun(s.rows[id], signals, NoFailure)).1 == id
       <==> classify(s.rows[id].value).value == Parsed(s.rows[id].ioctype, s.rows[id].value)
  {
    RowNotFound(s.rows, classify(s.rows[id].value).value);
  }

  /** Classification begins by refanging, so it sees nothing else of what was submitted. */
  ghost predicate Refangs(classify: Classifier) {
    forall raw, other | Indicators.Refanged(raw) == Indicators.Refanged(other) :: classify(raw) == classify(other)
  }

  /** It does so whenever refanging leaves the stored value as it is: when that value is
      trimmed and holds none of the refang tokens. Then it need only have been classified
      unchanged, as a URL is. */
  lemma {:induction false} RerunOfPlainValue(classify: Classifier, s: Store, id: nat, signals: nat -> Signals,
          raw: string)
    requires Consistent(s) && id < |s.rows| && Refangs(classify)
    requires classify(raw) == Some(Parsed(s.rows[id].ioctype, s.rows[id].value))
        && s.rows[id].value == Indicators.Refanged(raw)
    requires Trimmed(s.rows[id].value) && Indicators.NoToken(s.rows[id].value)
    ensures classify(s.rows[id].value).Some?
    ensures WithRow(s, classify(s.rows[id].value).value, Rerun(s.rows[id], signals, NoFailure)).1 == id
  {
    Indicators.RefangFixedIff(s.rows[id].value);
    assert classify(s.rows[id].value) == classify(raw);
    RerunHitsItsRow(classify, s, id, signals);
  }

  /** For a URL, which is stored as refanging leaves it, that condition is exact. */
  lemma {:induction false} RerunOfUrlIff(classify: Classifier, s: Store, id: nat, signals: nat -> Signals)
    requires Consistent(s) && id < |s.rows| && s.rows[id].ioctype == "url"
    requires classify(s.rows[id].value) == Some(Parsed("url", Indicators.Refanged(s.rows[id].value)))
    ensures WithRow(s, classify(s.rows[id].value).value, Rerun(s.rows[id], signals, NoFailure)).1 == id
       <==> Trimmed(s.rows[id].value) && Indicators.NoToken(s.rows[id].value)
  {
    Indicators.RefangFixedIff(s.rows[id].value);
    RerunHitsItsRow(classify, s, id, signals);
  }

  lemma {:induction false} OneRow(classify: Classifier, value: string, sub: Submission)
    requires sub.failure == NoFailure && classify(sub.raw) == Some(Parsed("url", value))
    ensures var s := Guarded(classify, EMPTY, sub);
      |s.rows| == 1 && s.rows[0].value == value && s.rows[0].ioctype == "url"
  {
  }

  lemma {:induction false} SecondRow(classify: Classifier, s: Store, other: string, signals: nat -> Signals)
    requires |s.rows| == 1 && classify(s.rows[0].value) == Some(Parsed("url", other)) && other != s.rows[0].value
    ensures |Guarded(classify, s, Rerun(s.rows[0], signals, NoFailure)).rows| == 2
  {
    RowNotFound(s.rows, Parsed("url", other));
  }

  /** It can miss its row otherwise: this URL is stored with a token that refanging left,
      and submitting the stored value again makes a second row. */
  lemma {:induction false} RerunMissesItsRow(classify: Classifier, u: string, nested: string, token: string,
          sub: Submission, signals: nat -> Signals)
    requires u == "http://a.com/" && nested == "[[.]]" && token == "[.]" && sub.raw == u + nested
        && sub.failure == NoFailure
    requires classify(u + nested) == Some(Parsed("url", Indicators.Refanged(u + nested)))
    requires classify(u + token) == Some(Parsed("url", Indicators.Refanged(u + token)))
    ensures var s := Guarded(classify, EMPTY, sub);
      && |s.rows| == 1 && s.rows[0].value == u + token
      && |Guarded(classify, s, Rerun(s.rows[0], signals, NoFailure)).rows| == 2
  {
    var dot :| dot == ".";
    Indicators.RefangTwice(u, nested, token, dot);
    OneRow(classify, u + token, sub);
    SecondRow(classify, Guarded(classify, EMPTY, sub), u + dot, signals);
  }
}
