/**
 * One cycle of the background import job (internal/jobs/import.go): take
 * the oldest pending import, resolve its vendor and parser, open the
 * stored file, and create a transaction for every row the parser yields.
 * The first row that fails fails the whole import; rows created before
 * it stay. The database tables and the stored files form the `World` a
 * cycle transforms.
 */
module ImportJob {
  import opened Wrappers
  import opened Text
  import opened Uuids
  import opened Dates
  import opened Transactions
  import opened Vendors
  import opened Imports
  import opened TxStore
  import opened IngParsing

  /** The `imports`, `vendors` and `transactions` tables, and the stored files as the CSV reader sees them. */
  datatype World = World(
    imports: seq<ImportRecord>,
    vendors: seq<Vendor>,
    files: map<string, seq<ReadOutcome>>,
    store: Store)

  /**
   * What encoding/csv yields for a file: a header has at least one field
   * and every later record has as many (a record of another width comes
   * back as a read error).
   */
  predicate ReaderOutput(stream: seq<ReadOutcome>) {
    |stream| > 0 && stream[0].Record? ==> |stream[0].fields| >= 1 && SameWidth(|stream[0].fields|, stream[1..])
  }

  predicate FilesReadable(w: World) {
    forall path :: path in w.files ==> ReaderOutput(w.files[path])
  }

  /**
   * `OldestPending`: the pending import with the earliest creation time
   * (`ORDER BY created_at ASC LIMIT 1`), the first in table order on a tie.
   */
  function OldestPending(imports: seq<ImportRecord>): (r: Option<nat>)
    ensures r.None? <==> forall j :: 0 <= j < |imports| ==> imports[j].status != Pending
    ensures r.Some? ==> r.value < |imports| && imports[r.value].status == Pending
    ensures r.Some? ==> forall j :: 0 <= j < |imports| && imports[j].status == Pending ==>
      Instant(imports[r.value].createdAt) <= Instant(imports[j].createdAt)
    ensures r.Some? ==> forall j :: 0 <= j < r.value && imports[j].status == Pending ==>
      Instant(imports[r.value].createdAt) < Instant(imports[j].createdAt)
  {
    if |imports| == 0 then None
    else
      var n := |imports| - 1;
      var prev := OldestPending(imports[..n]);
      assert forall j :: 0 <= j < n ==> imports[..n][j] == imports[j];
      if imports[n].status != Pending then prev
      else if prev.Some? && Instant(imports[prev.value].createdAt) <= Instant(imports[n].createdAt) then prev
      else Some(n)
  }

  /** `FetchById`: the vendor with the ID; `None` stands for `ErrVendorNotFound`. */
  function FetchById(vendors: seq<Vendor>, id: Uuid): (r: Option<Vendor>)
    ensures r.Some? ==> r.value in vendors && r.value.id == id
    ensures r.None? <==> forall i :: 0 <= i < |vendors| ==> vendors[i].id != id
  {
    if |vendors| == 0 then None
    else if vendors[0].id == id then Some(vendors[0])
    else
      var r := FetchById(vendors[1..], id);
      assert forall i :: 1 <= i < |vendors| ==> vendors[1..][i - 1] == vendors[i];
      r
  }

  /**
   * `UpdateState`: every row with the record's ID takes the record's
   * status, message, counters and update time; nothing else changes.
   */
  function UpdateState(imports: seq<ImportRecord>, rec: ImportRecord): (r: seq<ImportRecord>)
    ensures |r| == |imports|
    ensures forall i :: 0 <= i < |imports| && imports[i].id != rec.id ==> r[i] == imports[i]
    ensures forall i :: 0 <= i < |imports| && imports[i].id == rec.id ==>
      && SameIdentity(r[i], imports[i]) && SameCounters(r[i], rec)
      && r[i].status == rec.status && r[i].statusMsg == rec.statusMsg && r[i].updatedAt == rec.updatedAt
    ensures forall i :: 0 <= i < |imports| && SameIdentity(rec, imports[i]) ==> r[i] == rec
  {
    seq(|imports|, i requires 0 <= i < |imports| =>
      if imports[i].id == rec.id then
        imports[i].(status := rec.status, statusMsg := rec.statusMsg, duplicates := rec.duplicates,
                    totalRows := rec.totalRows, imported := rec.imported, failed := rec.failed,
                    updatedAt := rec.updatedAt)
      else imports[i])
  }

  /** The text of a `transaction` package error. */
  function TxErrorText(e: TxError): string {
    match e
    case ErrDuplicateTransaction => "duplicate transaction"
    case ErrInvalidAmount => "invalid amount"
    case ErrUnsupportedDirection => "unsupported direction"
    case ErrNoTransactionFound => "no transaction found with the given ID"
  }

  /** `os.Open` of a path that is not there. */
  function OpenErrorText(path: string): string {
    "open " + path + ": no such file or directory"
  }

  function ReadErrorText(e: ReadError): string {
    match e
    case Eof => "EOF"
    case CsvError(m) => m
  }

  /** The status message `handleError` stores: the error behind a fixed prefix. */
  function FailureMessage(err: string): (m: string)
    ensures |m| == |"error processing import: "| + |err| && EndsWith(m, err)
    ensures m[..|"error processing import: "|] == "error processing import: "
  {
    var m := "error processing import: " + err;
    assert m[|m| - |err|..] == err;
    m
  }

  /** Vendor, parser, file and header: what the cycle resolves before the first row. */
  function Prepare(w: World, imp: ImportRecord): (r: Result<(Vendor, RowSource), string>)
    requires FilesReadable(w)
    ensures FetchById(w.vendors, imp.vendorId).None? ==> r == Err("vendor not found")
    ensures r.Ok? <==>
      && FetchById(w.vendors, imp.vendorId).Some? && FetchById(w.vendors, imp.vendorId).value.name == VendorIng
      && imp.path in w.files && |w.files[imp.path]| > 0 && w.files[imp.path][0].Record?
    ensures FetchById(w.vendors, imp.vendorId).Some? && FetchById(w.vendors, imp.vendorId).value.name != VendorIng ==>
      r.Err? && EndsWith(r.error, FetchById(w.vendors, imp.vendorId).value.name)
    ensures FetchById(w.vendors, imp.vendorId).Some? && FetchById(w.vendors, imp.vendorId).value.name == VendorIng ==>
      && (imp.path !in w.files ==> r == Err(OpenErrorText(imp.path)))
      && (imp.path in w.files && |w.files[imp.path]| == 0 ==> r == Err("EOF"))
      && (imp.path in w.files && |w.files[imp.path]| > 0 && w.files[imp.path][0].ReadFailure? ==>
            r == Err(w.files[imp.path][0].message))
    ensures r.Ok? ==>
      && r.value.0 == FetchById(w.vendors, imp.vendorId).value
      && r.value.1 == ParseAll(NewIngParser(), w.files[imp.path]).value
      && WellFormed(r.value.1)
  {
    match FetchById(w.vendors, imp.vendorId)
    case None => Err("vendor not found")
    case Some(v) =>
      match CreateCsvParser(v.name)
      case Err(msg) => Err(msg)
      case Ok(p) =>
        if imp.path !in w.files then Err(OpenErrorText(imp.path))
        else
          var stream := w.files[imp.path];
          match ParseAll(p, stream)
          case Err(e) => Err(ReadErrorText(e))
          case Ok(src) =>
            ParseAllWellFormed(p, stream);
            Ok((v, src))
  }

  /**
   * What the rows of one import share: the hash, the float64 product by
   * 100, the ID source, the clock, the vendor, the import, and the
   * database's failures: `faults(n)` is the error, other than the
   * duplicate key, that the insert of row `n` meets, if it meets one.
   */
  datatype Job = Job(
    hash: Hasher, times100: Scaler, newId: int -> Uuid, now: Date, vendor: Vendor, importId: Uuid,
    faults: int -> Option<string>)

  /** `transaction.NewTransaction` for a yielded row: the source is the vendor's name, the row number the iterator's key. */
  function BuildTx(job: Job, y: Yield): (r: Result<Transaction, TxError>)
    ensures r.Ok? <==> ValidAmount(y.1.amount)
    ensures r.Err? ==> r.error == ErrInvalidAmount
    ensures r.Ok? ==>
      && r.value.rowNumber == y.0 && r.value.importId == job.importId && r.value.source == job.vendor.name
      && r.value.description == y.1.description && r.value.note == y.1.note
      && r.value.direction == y.1.direction && r.value.date == y.1.date && r.value.id == job.newId(y.0)
  {
    NewTransaction(job.hash, job.times100, job.newId(y.0), job.now, y.1.description, y.1.note, job.vendor.name,
                   y.1.direction, y.1.amount, y.1.date, y.0, job.importId)
  }

  /** The transactions the loop builds, one per yielded row, before any is inserted. */
  function Built(job: Job, ys: seq<Yield>): (bs: seq<Result<Transaction, TxError>>)
    ensures |bs| == |ys|
    ensures forall i :: 0 <= i < |ys| ==> bs[i] == BuildTx(job, ys[i])
  {
    seq(|ys|, i requires 0 <= i < |ys| => BuildTx(job, ys[i]))
  }

  /**
   * The loop body for one built row: a construction error, or the
   * insert and its error. The database's own failure for the row is
   * looked up by its row number.
   */
  function Insert(st: Store, b: Result<Transaction, TxError>, faults: int -> Option<string>): (a: (Store, Option<string>))
    ensures a.1.None? <==> b.Ok? && faults(b.value.rowNumber).None? && !HasChecksum(st, b.value.checksum)
    ensures a.1.None? ==> a.0.rows == st.rows + [b.value]
    ensures a.1.Some? ==> a.0 == st
    ensures b.Err? ==> a.1 == Some(TxErrorText(b.error))
    ensures b.Ok? && faults(b.value.rowNumber).Some? ==>
      a.1 == Some(CreateErrorText(WriteFailed(faults(b.value.rowNumber).value)))
    ensures b.Ok? && faults(b.value.rowNumber).None? && HasChecksum(st, b.value.checksum) ==>
      a.1 == Some("duplicate transaction")
    ensures Grows(st, a.0)
    ensures UniqueChecksums(st) ==> UniqueChecksums(a.0)
  {
    match b
    case Err(e) =>
      assert st.rows[..|st.rows|] == st.rows;
      (st, Some(TxErrorText(e)))
    case Ok(t) =>
      var q := Create(st, t, faults(t.rowNumber));
      if q.1.None? then
        assert q.0.rows[..|st.rows|] == st.rows;
        (q.0, None)
      else
        assert st.rows[..|st.rows|] == st.rows;
        (st, Some(CreateErrorText(q.1.value)))
  }

  /**
   * Reference definition of the loop: insert the built rows in order and
   * stop at the first one that fails. `ReplayShape` states what the table
   * gains.
   */
  function Replay(st: Store, bs: seq<Result<Transaction, TxError>>, faults: int -> Option<string>): (r: (Store, Option<string>))
    ensures Grows(st, r.0)
    ensures UniqueChecksums(st) ==> UniqueChecksums(r.0)
    decreases |bs|
  {
    if |bs| == 0 then
      assert st.rows[..|st.rows|] == st.rows;
      (st, None)
    else
      var a := Insert(st, bs[0], faults);
      if a.1.Some? then a
      else
        var r := Replay(a.0, bs[1..], faults);
        GrowsTransitive(st, a.0, r.0);
        r
  }

  /**
   * What the reference loop did to the table: it appended the built rows
   * in order, one per row, up to the first that failed, and then stopped
   * with that row's failure. With no failure every row was appended.
   */
  predicate Shape(st: Store, bs: seq<Result<Transaction, TxError>>, faults: int -> Option<string>, r: (Store, Option<string>)) {
    && |st.rows| <= |r.0.rows| && |r.0.rows| - |st.rows| <= |bs|
    && (r.1.None? ==> |r.0.rows| == |st.rows| + |bs|)
    && (r.1.Some? ==> |r.0.rows| - |st.rows| < |bs| && Insert(r.0, bs[|r.0.rows| - |st.rows|], faults) == r)
    && (forall i :: 0 <= i < |r.0.rows| - |st.rows| ==> bs[i] == Ok(r.0.rows[|st.rows| + i]))
  }

  /** The reference loop over any rows has that shape. */
  lemma {:induction false} ReplayShape(st: Store, bs: seq<Result<Transaction, TxError>>, faults: int -> Option<string>)
    ensures Shape(st, bs, faults, Replay(st, bs, faults))
    decreases |bs|
  {
    if |bs| == 0 || Insert(st, bs[0], faults).1.Some? {
      ShapeStops(st, bs, faults);
    } else {
      var mid := Insert(st, bs[0], faults).0;
      ReplayShape(mid, bs[1..], faults);
      ShapeStep(st, bs, faults, mid);
    }
  }

  /** A loop that stops at once appends nothing. */
  lemma ShapeStops(st: Store, bs: seq<Result<Transaction, TxError>>, faults: int -> Option<string>)
    requires |bs| == 0 || Insert(st, bs[0], faults).1.Some?
    ensures Shape(st, bs, faults, Replay(st, bs, faults))
  {
  }

  /** The first row appended, followed by the shape of the rest, is the shape of the whole. */
  lemma ShapeStep(st: Store, bs: seq<Result<Transaction, TxError>>, faults: int -> Option<string>, mid: Store)
    requires |bs| > 0 && Insert(st, bs[0], faults).1.None? && mid == Insert(st, bs[0], faults).0
    requires Shape(mid, bs[1..], faults, Replay(mid, bs[1..], faults))
    ensures Shape(st, bs, faults, Replay(st, bs, faults))
  {
    ReplayStep(st, bs, faults);
    ShapeCons(st, mid, bs, faults, Replay(mid, bs[1..], faults));
  }

  /** The shape of the rest, after one appended row, extends to the whole. */
  lemma ShapeCons(st: Store, mid: Store, bs: seq<Result<Transaction, TxError>>, faults: int -> Option<string>, r: (Store, Option<string>))
    requires |bs| > 0 && bs[0].Ok? && mid.rows == st.rows + [bs[0].value]
    requires Grows(mid, r.0) && Shape(mid, bs[1..], faults, r)
    ensures Shape(st, bs, faults, r)
  {
    ReplayExtend(st, mid, r.0, bs);
    if r.1.Some? {
      assert bs[1..][|r.0.rows| - |mid.rows|] == bs[|r.0.rows| - |st.rows|];
    }
  }

  /** The row inserted first and the rows the rest of the loop inserts line up with the built rows. */
  lemma ReplayExtend(st: Store, mid: Store, st': Store, bs: seq<Result<Transaction, TxError>>)
    requires |bs| > 0 && bs[0].Ok? && mid.rows == st.rows + [bs[0].value] && Grows(mid, st')
    requires |st'.rows| - |mid.rows| < |bs|
    requires forall i :: 0 <= i < |st'.rows| - |mid.rows| ==> bs[1..][i] == Ok(st'.rows[|mid.rows| + i])
    ensures forall i :: 0 <= i < |st'.rows| - |st.rows| ==> bs[i] == Ok(st'.rows[|st.rows| + i])
  {
    assert st'.rows[|st.rows|] == st'.rows[..|mid.rows|][|st.rows|];
    assert forall i :: 1 <= i < |bs| ==> bs[1..][i - 1] == bs[i];
  }

  /** One step of the reference loop. */
  lemma ReplayStep(st: Store, bs: seq<Result<Transaction, TxError>>, faults: int -> Option<string>)
    requires |bs| > 0
    ensures var a := Insert(st, bs[0], faults);
      Replay(st, bs, faults) == (if a.1.Some? then a else Replay(a.0, bs[1..], faults))
  {
  }

  /** The loop's state: the table, and the error that stopped it. */
  datatype Cursor = Cursor(store: Store, failure: Option<string>)

  /** One pass of the loop body: build the row, insert it, and remember the error. */
  function Advance(job: Job, c: Cursor, y: Yield): (r: (Cursor, bool))
    ensures (r.0.store, r.0.failure) == Insert(c.store, BuildTx(job, y), job.faults)
    ensures r.1 <==> r.0.failure.None?
  {
    var a := Insert(c.store, BuildTx(job, y), job.faults);
    (Cursor(a.0, a.1), a.1.None?)
  }

  /** The loop body as the consumer of the row sequence: `false` breaks out of the loop. */
  function Consume(job: Job): (f: (Cursor, int, TransactionData) -> (Cursor, bool))
    ensures forall c, row, td :: f(c, row, td) == Advance(job, c, (row, td))
  {
    (c: Cursor, row: int, td: TransactionData) => Advance(job, c, (row, td))
  }

  /** The built rows of a decoded record followed by the rest. */
  lemma BuiltDecodableCons(job: Job, ds: seq<Option<TransactionData>>, k: nat)
    requires k < |ds| && ds[k].Some?
    ensures var bs := Built(job, Decodable(ds, k, |ds|));
      |bs| > 0 && bs[0] == BuildTx(job, (k + 1, ds[k].value)) && bs[1..] == Built(job, Decodable(ds, k + 1, |ds|))
  {
    var ys := Decodable(ds, k + 1, |ds|);
    assert Decodable(ds, k, |ds|) == [(k + 1, ds[k].value)] + ys;
    BuiltCons(job, (k + 1, ds[k].value), ys);
  }

  lemma BuiltCons(job: Job, y: Yield, ys: seq<Yield>)
    ensures var bs := Built(job, [y] + ys);
      |bs| > 0 && bs[0] == BuildTx(job, y) && bs[1..] == Built(job, ys)
  {
    var bs := Built(job, [y] + ys);
    var tail := Built(job, ys);
    forall i | 0 <= i < |ys|
      ensures bs[1..][i] == tail[i]
    {
      assert ([y] + ys)[i + 1] == ys[i];
    }
  }

  /** Driving the row sequence with `Consume` does what the reference loop does over the decodable rows. */
  lemma {:induction false} DriveReplays(ds: seq<Option<TransactionData>>, k: nat, job: Job, st: Store)
    requires k <= |ds|
    ensures var r := Drive(ds, k, Consume(job), Cursor(st, None));
      (r.state.store, r.state.failure) == Replay(st, Built(job, Decodable(ds, k, |ds|)), job.faults)
    decreases |ds| - k, 1
  {
    var f := Consume(job);
    if k == |ds| {
      assert Built(job, Decodable(ds, k, |ds|)) == [];
    } else if ds[k].None? {
      DriveReplays(ds, k + 1, job, st);
      assert Decodable(ds, k, |ds|) == Decodable(ds, k + 1, |ds|) by {
        assert Decodable(ds, k, |ds|) == [] + Decodable(ds, k + 1, |ds|);
      }
      assert Drive(ds, k, f, Cursor(st, None)) == Drive(ds, k + 1, f, Cursor(st, None));
    } else {
      DriveReplaysDecoded(ds, k, job, st);
    }
  }

  /** The step of `DriveReplays` at a decoded record. */
  lemma {:induction false} DriveReplaysDecoded(ds: seq<Option<TransactionData>>, k: nat, job: Job, st: Store)
    requires k < |ds| && ds[k].Some?
    ensures var r := Drive(ds, k, Consume(job), Cursor(st, None));
      (r.state.store, r.state.failure) == Replay(st, Built(job, Decodable(ds, k, |ds|)), job.faults)
    decreases |ds| - k, 0
  {
    var a := Insert(st, BuildTx(job, (k + 1, ds[k].value)), job.faults);
    if a.1.None? {
      DriveReplays(ds, k + 1, job, a.0);
      DecodedContinues(ds, k, job, st, a.0);
    } else {
      DecodedStops(ds, k, job, st);
    }
  }

  /** The decoded record failed: both loops stop with its error and the table unchanged by it. */
  lemma DecodedStops(ds: seq<Option<TransactionData>>, k: nat, job: Job, st: Store)
    requires k < |ds| && ds[k].Some?
    requires Insert(st, BuildTx(job, (k + 1, ds[k].value)), job.faults).1.Some?
    ensures var r := Drive(ds, k, Consume(job), Cursor(st, None));
      (r.state.store, r.state.failure) == Replay(st, Built(job, Decodable(ds, k, |ds|)), job.faults)
  {
    var f := Consume(job);
    var bs := Built(job, Decodable(ds, k, |ds|));
    BuiltDecodableCons(job, ds, k);
    var a := Insert(st, bs[0], job.faults);
    assert f(Cursor(st, None), k + 1, ds[k].value) == (Cursor(a.0, a.1), false);
    DriveStep(ds, k, f, Cursor(st, None));
    ReplayStep(st, bs, job.faults);
  }

  /** The decoded record was inserted: both loops go on with the grown table. */
  lemma DecodedContinues(ds: seq<Option<TransactionData>>, k: nat, job: Job, st: Store, st': Store)
    requires k < |ds| && ds[k].Some?
    requires Insert(st, BuildTx(job, (k + 1, ds[k].value)), job.faults) == (st', None)
    requires var r := Drive(ds, k + 1, Consume(job), Cursor(st', None));
      (r.state.store, r.state.failure) == Replay(st', Built(job, Decodable(ds, k + 1, |ds|)), job.faults)
    ensures var r := Drive(ds, k, Consume(job), Cursor(st, None));
      (r.state.store, r.state.failure) == Replay(st, Built(job, Decodable(ds, k, |ds|)), job.faults)
  {
    var f := Consume(job);
    var bs := Built(job, Decodable(ds, k, |ds|));
    BuiltDecodableCons(job, ds, k);
    assert f(Cursor(st, None), k + 1, ds[k].value) == (Cursor(st', None), true);
    DriveStep(ds, k, f, Cursor(st, None));
    ReplayStep(st, bs, job.faults);
  }

  /** The state the cycle leaves the import in: completed with zero counters, or failed with the error. */
  function Final(imp: ImportRecord, now: Date, err: Option<string>): (rec: ImportRecord)
    ensures SameIdentity(rec, imp) && rec.updatedAt == now
    ensures err.None? ==>
      && rec.status == Completed && rec.statusMsg == imp.statusMsg
      && rec.duplicates == 0 && rec.totalRows == 0 && rec.imported == 0 && rec.failed == 0
    ensures err.Some? ==> rec.status == Failed && rec.statusMsg == FailureMessage(err.value) && SameCounters(rec, imp)
  {
    match err
    case None => MarkCompleted(imp, now, 0, 0, 0, 0)
    case Some(e) => MarkFailed(imp, now, FailureMessage(e))
  }

  /**
   * `ImportJob.process`. `pendingFault` is an error of the pending-import
   * query other than "no rows"; `hash`, `times100`, `newId`, `now` and
   * `parseFloat` stand for SHA-256, float64 multiplication by 100,
   * `uuid.New()`, the clock and `fmt.Sscanf`, and `faults` for the
   * database's failures on the inserts, by row number. The result is the
   * new world and the error the cycle returns.
   */
  function Process(
    w: World, pendingFault: Option<string>, hash: Hasher, times100: Scaler, newId: int -> Uuid, now: Date, parseFloat: FloatParser,
    faults: int -> Option<string>): (r: (World, Option<string>))
    requires FilesReadable(w)
    ensures pendingFault.Some? ==> r == (w, pendingFault)
    ensures pendingFault.None? && OldestPending(w.imports).None? ==> r == (w, None)
    ensures r.0.vendors == w.vendors && r.0.files == w.files && |r.0.imports| == |w.imports|
    ensures Grows(w.store, r.0.store)
    ensures UniqueChecksums(w.store) ==> UniqueChecksums(r.0.store)
    ensures pendingFault.None? && OldestPending(w.imports).Some? ==>
      var i := OldestPending(w.imports).value;
      && r == Cycle(w, w.imports[i], hash, times100, newId, now, parseFloat, faults)
      && r.0.imports[i] == Final(w.imports[i], now, r.1)
  {
    if pendingFault.Some? then (w, pendingFault)
    else match OldestPending(w.imports)
      case None => (w, None)
      case Some(i) => Cycle(w, w.imports[i], hash, times100, newId, now, parseFloat, faults)
  }

  /**
   * Everything after the pending import is found: a failure before the
   * first row leaves the table alone; otherwise the rows are inserted as
   * the reference loop does. Either way the import gets its final state.
   */
  function Cycle(
    w: World, imp: ImportRecord, hash: Hasher, times100: Scaler, newId: int -> Uuid, now: Date, parseFloat: FloatParser,
    faults: int -> Option<string>): (r: (World, Option<string>))
    requires FilesReadable(w)
    ensures r.0.vendors == w.vendors && r.0.files == w.files
    ensures r.0.imports == UpdateState(w.imports, Final(imp, now, r.1))
    ensures Grows(w.store, r.0.store)
    ensures UniqueChecksums(w.store) ==> UniqueChecksums(r.0.store)
    ensures Prepare(w, imp).Err? ==> r.0.store == w.store && r.1 == Some(Prepare(w, imp).error)
    ensures Prepare(w, imp).Ok? ==>
      var job := Job(hash, times100, newId, now, Prepare(w, imp).value.0, imp.id, faults);
      var src := Prepare(w, imp).value.1;
      (r.0.store, r.1) == Replay(w.store, Built(job, Decodable(DecodeAll(src, parseFloat), 0, |src.rows|)), faults)
  {
    match Prepare(w, imp)
    case Err(msg) =>
      (w.(imports := UpdateState(w.imports, Final(imp, now, Some(msg)))), Some(msg))
    case Ok(prepared) =>
      var job := Job(hash, times100, newId, now, prepared.0, imp.id, faults);
      var src := prepared.1;
      var run := Iterate(src, parseFloat, Consume(job), Cursor(w.store, None));
      DriveReplays(DecodeAll(src, parseFloat), 0, job, w.store);
      (w.(store := run.state.store, imports := UpdateState(w.imports, Final(imp, now, run.state.failure))),
       run.state.failure)
  }

  /**
   * Processing an import a second time, with the table the first run
   * left: its rows (for a job, `Built(job, ys)`) are rebuilt with the same
   * checksums, so the rerun fails at once on the first and creates
   * nothing. The error is "duplicate transaction", unless the database
   * fails that insert for another reason on the rerun.
   */
  lemma RerunIsDuplicate(st: Store, bs: seq<Result<Transaction, TxError>>, faults: int -> Option<string>, faults': int -> Option<string>)
    requires |bs| > 0 && Replay(st, bs, faults).1.None?
    ensures bs[0].Ok?
    ensures var st' := Replay(st, bs, faults).0;
      var n := bs[0].value.rowNumber;
      Replay(st', bs, faults') ==
        (st', Some(CreateErrorText(if faults'(n).Some? then WriteFailed(faults'(n).value) else Duplicate)))
  {
    var st' := Replay(st, bs, faults).0;
    ReplayShape(st, bs, faults);
    assert bs[0] == Ok(st'.rows[|st.rows|]);
    assert HasChecksum(st', bs[0].value.checksum);
  }

  /**
   * The cycle never moves an import to `in_progress`: the one it picks
   * goes straight from pending to completed or failed.
   */
  lemma NeverMarksInProgress(
    w: World, pendingFault: Option<string>, hash: Hasher, times100: Scaler, newId: int -> Uuid, now: Date,
    parseFloat: FloatParser, faults: int -> Option<string>, j: nat)
    requires FilesReadable(w) && j < |w.imports|
    ensures Process(w, pendingFault, hash, times100, newId, now, parseFloat, faults).0.imports[j].status == InProgress ==>
      w.imports[j].status == InProgress
  {
    var r := Process(w, pendingFault, hash, times100, newId, now, parseFloat, faults);
    if pendingFault.None? && OldestPending(w.imports).Some? {
      var imp := w.imports[OldestPending(w.imports).value];
      if w.imports[j].id == imp.id {
        assert r.0.imports[j].status == Completed || r.0.imports[j].status == Failed;
      }
    }
  }
}
