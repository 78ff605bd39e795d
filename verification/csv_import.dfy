/**
 * The synchronous CSV import with a summary
 * (internal/app/transactions/from_csv.go): every data row is read,
 * decoded by the vendor's row parser, turned into a transaction and
 * inserted, and the outcome of each row is counted.
 *
 * The decoding of a record does not depend on the table, so it is done
 * first (`Classify`) and the read loop (`Loop`) works on the resulting
 * steps.
 */
module CsvImport {
  import opened Wrappers
  import opened Format
  import opened Uuids
  import opened Dates
  import opened Transactions
  import opened Mapper
  import opened TxStore
  import opened IngParsing

  /** One entry of `RowErrors`. */
  datatype RowError = RowError(row: int, message: string)

  /** `contracts.ImportSummary`. */
  datatype ImportSummary = ImportSummary(
    totalRows: int,
    imported: int,
    duplicates: int,
    failed: int,
    rowErrors: seq<RowError>)

  const EmptySummary: ImportSummary := ImportSummary(0, 0, 0, 0, [])

  /**
   * Why `Handle` returned an error. `NilTransaction` is the run-time panic
   * of the store dereferencing the nil transaction it is handed; the
   * request ends there and no summary is returned.
   */
  datatype HandleError =
    | CsvEmpty
    | ReadingHeader(cause: string)
    | ParsingHeader(cause: string)
    | Canceled
    | NilTransaction

  /** The error text; the context error is the one `context.Canceled` prints. */
  function HandleErrorText(e: HandleError): string {
    match e
    case CsvEmpty => "csv is empty, expected header row"
    case ReadingHeader(c) => "reading header row: " + c
    case ParsingHeader(c) => "parsing header row: " + c
    case Canceled => "context canceled"
    case NilTransaction => "runtime error: invalid memory address or nil pointer dereference"
  }

  /**
   * The handler's `CsvParser`: `ParseHeader` may fail with a message;
   * `ParseRow` is given the header it was set up with.
   */
  datatype RowParser = RowParser(
    parseHeader: seq<string> -> Option<string>,
    parseRow: (seq<string>, seq<string>, int, Uuid) -> Result<TransactionData, string>)

  /**
   * What one run draws from outside the file: SHA-256, the float64
   * product by 100, `uuid.New()` per row number, the clock,
   * `canceled(k)` for whether the context is done at the check before the
   * `k`-th data read, and `faults(k)` for the error other than the
   * duplicate key that the database raises on the insert of the `k`-th
   * data record, if it raises one.
   */
  datatype Runtime = Runtime(
    hash: Hasher,
    times100: Scaler,
    newId: int -> Uuid,
    now: Date,
    canceled: nat -> bool,
    faults: nat -> Option<string>)

  /** The counters agree with the error list, and no row is counted twice. */
  predicate Consistent(s: ImportSummary) {
    && s.failed == |s.rowErrors|
    && 0 <= s.duplicates <= s.failed
    && 0 <= s.imported
    && s.imported + s.duplicates <= s.totalRows
  }

  /** Row errors carry row numbers in `[2, last]`, strictly increasing. */
  predicate RowsOrdered(errs: seq<RowError>, last: int) {
    && (forall i :: 0 <= i < |errs| ==> 2 <= errs[i].row <= last)
    && (forall i, j :: 0 <= i < j < |errs| ==> errs[i].row < errs[j].row)
  }

  /** `addRowError`: one more failure, and one error entry carrying the row. */
  function AddRowError(s: ImportSummary, row: int, message: string): (r: ImportSummary)
    ensures r.failed == s.failed + 1 && r.rowErrors == s.rowErrors + [RowError(row, message)]
    ensures r.totalRows == s.totalRows && r.imported == s.imported && r.duplicates == s.duplicates
  {
    s.(failed := s.failed + 1, rowErrors := s.rowErrors + [RowError(row, message)])
  }

  /** A record that is a single empty field: a blank line, skipped without counting. */
  predicate BlankRecord(fields: seq<string>) {
    |fields| == 1 && fields[0] == ""
  }

  /** The row number of the record at index `k` after the header: the header is row 1. */
  function RowNumber(k: nat): int {
    k + 2
  }

  /** The inputs of one run once the header is read. */
  datatype Env = Env(
    parser: RowParser,
    header: seq<string>,
    rows: seq<ReadOutcome>,
    importId: Uuid,
    rt: Runtime)

  /**
   * The decoded row at index `k`, if it gets that far: a record that is
   * not blank, at least as wide as the header, and accepted by `ParseRow`.
   */
  function Parsed(env: Env, k: nat): (r: Option<TransactionData>)
    requires k < |env.rows|
    ensures r.Some? <==>
      && env.rows[k].Record? && !BlankRecord(env.rows[k].fields) && |env.rows[k].fields| >= |env.header|
      && env.parser.parseRow(env.header, env.rows[k].fields, RowNumber(k), env.importId).Ok?
  {
    match env.rows[k]
    case ReadFailure(_) => None
    case Record(fields) =>
      if BlankRecord(fields) || |fields| < |env.header| then None
      else match env.parser.parseRow(env.header, fields, RowNumber(k), env.importId)
        case Ok(td) => Some(td)
        case Err(_) => None
  }

  /** The record at index `k` decodes, but `domain.NewTransaction` refuses its amount. */
  predicate AmountRejected(env: Env, k: nat) {
    k < |env.rows| && Parsed(env, k).Some? && !ValidAmount(Parsed(env, k).value.amount)
  }

  /** The transaction built from the decoded row at index `k`, with a fresh ID and the clock. */
  function TxAt(env: Env, k: nat): (t: Transaction)
    requires k < |env.rows| && Parsed(env, k).Some? && ValidAmount(Parsed(env, k).value.amount)
    ensures t.rowNumber == RowNumber(k) && t.importId == env.importId && t.id == env.rt.newId(RowNumber(k))
    ensures t.checksum == Checksum(env.rt.hash, t)
  {
    var td := Parsed(env, k).value;
    NewTransaction(env.rt.hash, env.rt.times100, env.rt.newId(RowNumber(k)), env.rt.now, td.description,
                   td.note, td.source, td.direction, td.amount, td.date, RowNumber(k), env.importId).value
  }

  /** What the loop learns about one record before it touches the table. */
  datatype Step =
    | ReadError(message: string)
    | BlankLine
    | ShortRow(columns: nat)
    | ParseFailure(message: string)
    | RejectedAmount(amount: Float)
    | Decoded(tx: Transaction)

  /** Whether the record counts in `TotalRows`. */
  predicate Counted(c: Step) {
    !c.ReadError? && !c.BlankLine?
  }

  /**
   * The checks of one record in the handler's order: read error, blank
   * line, width, `ParseRow`, and the amount guard of `NewTransaction`.
   */
  function Classify(env: Env, k: nat): (c: Step)
    requires k < |env.rows|
    ensures c.ReadError? <==> env.rows[k].ReadFailure?
    ensures c.ReadError? ==> c.message == env.rows[k].message
    ensures c.BlankLine? <==> env.rows[k].Record? && BlankRecord(env.rows[k].fields)
    ensures c.ShortRow? <==>
      env.rows[k].Record? && !BlankRecord(env.rows[k].fields) && |env.rows[k].fields| < |env.header|
    ensures c.ShortRow? ==> c.columns == |env.rows[k].fields|
    ensures c.ParseFailure? ==>
      env.parser.parseRow(env.header, env.rows[k].fields, RowNumber(k), env.importId) == Err(c.message)
    ensures c.RejectedAmount? <==> AmountRejected(env, k)
    ensures c.Decoded? <==> Parsed(env, k).Some? && ValidAmount(Parsed(env, k).value.amount)
    ensures c.Decoded? ==> c.tx == TxAt(env, k)
  {
    match env.rows[k]
    case ReadFailure(msg) => ReadError(msg)
    case Record(fields) =>
      if BlankRecord(fields) then BlankLine
      else if |fields| < |env.header| then ShortRow(|fields|)
      else match env.parser.parseRow(env.header, fields, RowNumber(k), env.importId)
        case Err(e) => ParseFailure(e)
        case Ok(td) => if ValidAmount(td.amount) then Decoded(TxAt(env, k)) else RejectedAmount(td.amount)
  }

  /** All records classified. */
  function Steps(env: Env): (r: seq<Step>)
    ensures |r| == |env.rows|
    ensures forall k :: 0 <= k < |r| ==> r[k] == Classify(env, k)
  {
    seq(|env.rows|, k requires 0 <= k < |env.rows| => Classify(env, k))
  }

  /**
   * The read loop's inputs: the classified records, the header width, the
   * context and the database's failures by record index, and whether the
   * handler is the corrected one, which reports `ParseRow` failures and
   * refused amounts as row errors.
   */
  datatype Pass = Pass(
    steps: seq<Step>, width: nat, canceled: nat -> bool, faults: nat -> Option<string>, corrected: bool)

  /**
   * The handler as written does not look at `NewTransaction`'s error: it
   * hands the nil transaction to the store, which panics.
   */
  predicate Aborts(p: Pass, k: nat)
    requires k < |p.steps|
  {
    !p.corrected && p.steps[k].RejectedAmount?
  }

  /**
   * Every decoded row in `[lo, hi)` has its checksum in `st`, or its
   * insert met a database failure.
   */
  predicate Covered(steps: seq<Step>, faults: nat -> Option<string>, st: Store, lo: nat, hi: nat)
    requires lo <= hi <= |steps|
  {
    forall k :: lo <= k < hi && steps[k].Decoded? ==> HasChecksum(st, steps[k].tx.checksum) || faults(k).Some?
  }

  /** The loop's result: the summary, the error if any, the table, and how many records were read. */
  datatype Outcome = Outcome(summary: ImportSummary, err: Option<HandleError>, store: Store, processed: nat)

  /** The row error of a record with fewer fields than the header. */
  function ShortRowMessage(columns: nat, expected: nat): string {
    "row has " + FormatInt(columns, 0) + " columns, expected at least " + FormatInt(expected, 0)
  }

  /** The row error of a failed insert. */
  function SaveMessage(e: CreateError): string {
    "saving transaction: " + CreateErrorText(e)
  }

  /** The corrected handler's row error for an amount `NewTransaction` refuses. */
  const RejectedAmountMessage: string := "creating transaction: invalid amount"

  /**
   * Inserting the transaction of row `row` through the newer tree's store:
   * it is either imported or failed, and a duplicate is failed and
   * counted as a duplicate too. `fault` is the database's own failure.
   */
  function Save(s: ImportSummary, row: int, st: Store, tx: Transaction, fault: Option<string>): (r: (ImportSummary, Store))
    ensures r.0.totalRows == s.totalRows && Grows(st, r.1)
    ensures r.0.imported + r.0.failed == s.imported + s.failed + 1
    ensures r.0.imported == s.imported || r.0.imported == s.imported + 1
    ensures r.0.imported == s.imported + 1 <==> fault.None? && !HasChecksum(st, tx.checksum)
    ensures r.0.imported == s.imported + 1 ==>
      r.0.rowErrors == s.rowErrors && r.0.duplicates == s.duplicates
      && r.1.rows == st.rows + [FromDomainTransaction(tx)]
    ensures r.0.imported == s.imported ==>
      && r.1 == st
      && r.0.rowErrors == s.rowErrors + [RowError(row, SaveMessage(
           if fault.Some? then WriteFailed(fault.value) else Duplicate))]
      && r.0.duplicates == s.duplicates + (if fault.None? then 1 else 0)
    ensures fault.None? ==> HasChecksum(r.1, tx.checksum)
    ensures UniqueChecksums(st) ==> UniqueChecksums(r.1)
  {
    var (st', e) := CreateMapped(st, tx, fault);
    match e
    case None =>
      assert st'.rows[..|st.rows|] == st.rows;
      assert st'.rows[|st.rows|].checksum == tx.checksum;
      (s.(imported := s.imported + 1), st')
    case Some(Duplicate) => (AddRowError(s.(duplicates := s.duplicates + 1), row, SaveMessage(Duplicate)), st')
    case Some(err) => (AddRowError(s, row, SaveMessage(err)), st')
  }

  /**
   * What one record does to the summary and the table. As written, a
   * `ParseRow` failure is counted in `TotalRows` and nowhere else; a
   * refused amount never gets here, because `Loop` stops at it.
   */
  function Row(p: Pass, k: nat, s: ImportSummary, st: Store): (r: (ImportSummary, Store))
    requires k < |p.steps|
    ensures Consistent(s) ==> Consistent(r.0)
    ensures r.0.rowErrors == s.rowErrors
      || (|r.0.rowErrors| == |s.rowErrors| + 1 && r.0.rowErrors[..|s.rowErrors|] == s.rowErrors
          && r.0.rowErrors[|s.rowErrors|].row == RowNumber(k))
    ensures r.0.totalRows == s.totalRows + (if Counted(p.steps[k]) then 1 else 0)
    ensures Grows(st, r.1)
  {
    var row := RowNumber(k);
    var s1 := s.(totalRows := s.totalRows + 1);
    match p.steps[k]
    case ReadError(msg) => (AddRowError(s, row, "reading row: " + msg), st)
    case BlankLine => (s, st)
    case ShortRow(n) => (AddRowError(s1, row, ShortRowMessage(n, p.width)), st)
    case ParseFailure(e) =>
      if p.corrected then (AddRowError(s1, row, "parsing row: " + e), st) else (s1, st)
    case RejectedAmount(_) =>
      if p.corrected then (AddRowError(s1, row, RejectedAmountMessage), st) else (s1, st)
    case Decoded(tx) => Save(s1, row, st, tx, p.faults(k))
  }

  /**
   * The table side of one record: only a decoded row reaches `Create`.
   * Afterwards its checksum is stored unless the database failed, and it
   * is imported exactly when the database did not fail and did not hold
   * the checksum before.
   */
  lemma RowStore(p: Pass, k: nat, s: ImportSummary, st: Store)
    requires k < |p.steps|
    ensures var r := Row(p, k, s, st);
      && (UniqueChecksums(st) ==> UniqueChecksums(r.1))
      && (!p.steps[k].Decoded? ==> r.1 == st && r.0.imported == s.imported && r.0.duplicates == s.duplicates)
      && (p.steps[k].Decoded? ==> HasChecksum(r.1, p.steps[k].tx.checksum) || p.faults(k).Some?)
      && (p.steps[k].Decoded? ==> r.0.imported == s.imported || r.0.imported == s.imported + 1)
      && (p.steps[k].Decoded? ==>
            (r.0.imported == s.imported + 1 <==> p.faults(k).None? && !HasChecksum(st, p.steps[k].tx.checksum)))
  {
  }

  /** A decoded record's checksum is stored once its row is handled, unless the database failed. */
  lemma RowSettles(p: Pass, k: nat, s: ImportSummary, st: Store)
    requires k < |p.steps| && p.steps[k].Decoded?
    ensures HasChecksum(Row(p, k, s, st).1, p.steps[k].tx.checksum) || p.faults(k).Some?
  {
    RowStore(p, k, s, st);
  }

  /** How far imported plus failed runs ahead of the counted rows. */
  function Slack(s: ImportSummary): int {
    s.imported + s.failed - s.totalRows
  }

  /** In the corrected handler, a counted row is imported or failed, and a read error is failed. */
  lemma RowAccounting(p: Pass, k: nat, s: ImportSummary, st: Store)
    requires k < |p.steps| && p.corrected
    ensures Slack(Row(p, k, s, st).0) == Slack(s) + (if p.steps[k].ReadError? then 1 else 0)
  {
  }

  /**
   * The read loop from record `k` on: the context is checked before every
   * read, EOF ends the loop, and every record goes through `Row`. As
   * written, a refused amount ends the run with the store's panic.
   */
  function Loop(p: Pass, k: nat, s: ImportSummary, st: Store): (r: Outcome)
    requires k <= |p.steps|
    ensures k <= r.processed <= |p.steps|
    ensures r.err.None? || r.err == Some(Canceled) || r.err == Some(NilTransaction)
    ensures r.err.None? ==> r.processed == |p.steps| && !p.canceled(|p.steps|)
    ensures r.err == Some(Canceled) ==> p.canceled(r.processed)
    ensures r.err == Some(NilTransaction) ==> k < r.processed && Aborts(p, r.processed - 1)
    decreases |p.steps| - k
  {
    if p.canceled(k) then Outcome(s, Some(Canceled), st, k)
    else if k == |p.steps| then Outcome(s, None, st, k)
    else if Aborts(p, k) then Outcome(s.(totalRows := s.totalRows + 1), Some(NilTransaction), st, k + 1)
    else
      var q := Row(p, k, s, st);
      Loop(p, k + 1, q.0, q.1)
  }

  /** A live context, a record left, and no abort: the loop handles it and goes on from the next. */
  lemma LoopStep(p: Pass, k: nat, s: ImportSummary, st: Store)
    requires k < |p.steps| && !p.canceled(k) && !Aborts(p, k)
    ensures var q := Row(p, k, s, st); Loop(p, k, s, st) == Loop(p, k + 1, q.0, q.1)
  {
  }

  /**
   * The loop keeps the summary's counters consistent and its row errors
   * in row order, each naming a row it read.
   */
  lemma {:induction false} LoopKeepsOrder(p: Pass, k: nat, s: ImportSummary, st: Store)
    requires k <= |p.steps|
    requires Consistent(s) && RowsOrdered(s.rowErrors, RowNumber(k) - 1)
    ensures var r := Loop(p, k, s, st);
      Consistent(r.summary) && RowsOrdered(r.summary.rowErrors, RowNumber(r.processed) - 1)
    decreases |p.steps| - k
  {
    if p.canceled(k) || k == |p.steps| || Aborts(p, k) {
      KeepsOrderStops(p, k, s, st);
    } else {
      var q := Row(p, k, s, st);
      RowKeepsOrder(p, k, s, st);
      LoopKeepsOrder(p, k + 1, q.0, q.1);
      KeepsOrderStep(p, k, s, st, q.0, q.1);
    }
  }

  /** Where the loop stops at once, the summary keeps its order. */
  lemma KeepsOrderStops(p: Pass, k: nat, s: ImportSummary, st: Store)
    requires k <= |p.steps| && (p.canceled(k) || k == |p.steps| || Aborts(p, k))
    requires Consistent(s) && RowsOrdered(s.rowErrors, RowNumber(k) - 1)
    ensures var r := Loop(p, k, s, st);
      Consistent(r.summary) && RowsOrdered(r.summary.rowErrors, RowNumber(r.processed) - 1)
  {
    LoopStops(p, k, s, st);
    if !p.canceled(k) && k < |p.steps| {
      RowsOrderedExtend(s.rowErrors, s.rowErrors, RowNumber(k));
    }
  }

  /** One row keeps the summary consistent and its errors ordered up to that row. */
  lemma RowKeepsOrder(p: Pass, k: nat, s: ImportSummary, st: Store)
    requires k < |p.steps|
    requires Consistent(s) && RowsOrdered(s.rowErrors, RowNumber(k) - 1)
    ensures var q := Row(p, k, s, st); Consistent(q.0) && RowsOrdered(q.0.rowErrors, RowNumber(k + 1) - 1)
  {
    RowsOrderedExtend(s.rowErrors, Row(p, k, s, st).0.rowErrors, RowNumber(k));
  }

  /** Order kept by the rest of the loop is kept from record `k`. */
  lemma KeepsOrderStep(p: Pass, k: nat, s: ImportSummary, st: Store, s': ImportSummary, st': Store)
    requires k < |p.steps| && !p.canceled(k) && !Aborts(p, k)
    requires s' == Row(p, k, s, st).0 && st' == Row(p, k, s, st).1
    requires var r := Loop(p, k + 1, s', st');
      Consistent(r.summary) && RowsOrdered(r.summary.rowErrors, RowNumber(r.processed) - 1)
    ensures var r := Loop(p, k, s, st);
      Consistent(r.summary) && RowsOrdered(r.summary.rowErrors, RowNumber(r.processed) - 1)
  {
    LoopStep(p, k, s, st);
  }


  /** Appending an error for the next row keeps the error list ordered. */
  lemma RowsOrderedExtend(errs: seq<RowError>, errs': seq<RowError>, row: int)
    requires RowsOrdered(errs, row - 1) && row >= 2
    requires errs' == errs
      || (|errs'| == |errs| + 1 && errs'[..|errs|] == errs && errs'[|errs|].row == row)
    ensures RowsOrdered(errs', row)
  {
    if errs' != errs {
      assert forall i :: 0 <= i < |errs| ==> errs'[i] == errs[i];
    }
  }

  /** Reference count: the steps in `[lo, hi)` that count in `TotalRows`. */
  function CountedSteps(steps: seq<Step>, lo: nat, hi: nat): nat
    requires lo <= hi <= |steps|
    decreases hi - lo
  {
    if lo == hi then 0 else (if Counted(steps[lo]) then 1 else 0) + CountedSteps(steps, lo + 1, hi)
  }

  /** Reference count: the read errors in `[lo, hi)`. */
  function ReadErrors(steps: seq<Step>, lo: nat, hi: nat): nat
    requires lo <= hi <= |steps|
    decreases hi - lo
  {
    if lo == hi then 0 else (if steps[lo].ReadError? then 1 else 0) + ReadErrors(steps, lo + 1, hi)
  }

  /** Every read happened after a check that found the context live. */
  lemma {:induction false} LoopChecksContext(p: Pass, k: nat, s: ImportSummary, st: Store, j: nat)
    requires k <= |p.steps|
    requires k <= j < Loop(p, k, s, st).processed
    ensures !p.canceled(j)
    decreases |p.steps| - k
  {
    if p.canceled(k) || k == |p.steps| || Aborts(p, k) {
      LoopStops(p, k, s, st);
    } else {
      LoopStep(p, k, s, st);
      var q := Row(p, k, s, st);
      if j > k {
        LoopChecksContext(p, k + 1, q.0, q.1, j);
      }
    }
  }

  /** From record `k` on, the context stays live at every read and no record aborts the run. */
  predicate Clear(p: Pass, k: nat)
    requires k <= |p.steps|
  {
    forall j :: k <= j < |p.steps| ==> !p.canceled(j) && !Aborts(p, j)
  }

  /** `Clear` from `k` is the record at `k` being clear and `Clear` from the next one. */
  lemma ClearStep(p: Pass, k: nat)
    requires k < |p.steps|
    ensures Clear(p, k) <==> !p.canceled(k) && !Aborts(p, k) && Clear(p, k + 1)
  {
  }

  /**
   * The loop ends without error exactly when the context stays live up to
   * and including the check before EOF and no record aborts the run.
   */
  lemma {:induction false} LoopCompletes(p: Pass, k: nat, s: ImportSummary, st: Store)
    requires k <= |p.steps|
    ensures Loop(p, k, s, st).err.None? <==> !p.canceled(|p.steps|) && Clear(p, k)
    decreases |p.steps| - k
  {
    if p.canceled(k) || k == |p.steps| || Aborts(p, k) {
      CompletesStops(p, k, s, st);
    } else {
      var q := Row(p, k, s, st);
      LoopCompletes(p, k + 1, q.0, q.1);
      CompletesStep(p, k, s, st, q.0, q.1);
    }
  }

  /** Where the loop stops at once, it completes exactly at EOF with a live context. */
  lemma CompletesStops(p: Pass, k: nat, s: ImportSummary, st: Store)
    requires k <= |p.steps| && (p.canceled(k) || k == |p.steps| || Aborts(p, k))
    ensures Loop(p, k, s, st).err.None? <==> !p.canceled(|p.steps|) && Clear(p, k)
  {
    LoopStops(p, k, s, st);
    if k < |p.steps| {
      ClearStep(p, k);
    }
  }

  /** Completion of the rest of the loop carries back to record `k`. */
  lemma CompletesStep(p: Pass, k: nat, s: ImportSummary, st: Store, s': ImportSummary, st': Store)
    requires k < |p.steps| && !p.canceled(k) && !Aborts(p, k)
    requires s' == Row(p, k, s, st).0 && st' == Row(p, k, s, st).1
    requires Loop(p, k + 1, s', st').err.None? <==> !p.canceled(|p.steps|) && Clear(p, k + 1)
    ensures Loop(p, k, s, st).err.None? <==> !p.canceled(|p.steps|) && Clear(p, k)
  {
    LoopStep(p, k, s, st);
    ClearStep(p, k);
  }


  /** `TotalRows` counts exactly the counted records read, and the table keeps unique checksums. */
  lemma {:induction false} LoopCounts(p: Pass, k: nat, s: ImportSummary, st: Store)
    requires k <= |p.steps|
    ensures var r := Loop(p, k, s, st);
      && r.summary.totalRows == s.totalRows + CountedSteps(p.steps, k, r.processed)
      && (UniqueChecksums(st) ==> UniqueChecksums(r.store))
    decreases |p.steps| - k
  {
    if p.canceled(k) || k == |p.steps| || Aborts(p, k) {
      CountsStops(p, k, s, st);
    } else {
      var q := Row(p, k, s, st);
      LoopCounts(p, k + 1, q.0, q.1);
      CountsStep(p, k, s, st, q.0, q.1);
    }
  }

  /** Where the loop stops at once, the counts hold for the records it read. */
  lemma CountsStops(p: Pass, k: nat, s: ImportSummary, st: Store)
    requires k <= |p.steps| && (p.canceled(k) || k == |p.steps| || Aborts(p, k))
    ensures var r := Loop(p, k, s, st);
      && r.summary.totalRows == s.totalRows + CountedSteps(p.steps, k, r.processed)
      && (UniqueChecksums(st) ==> UniqueChecksums(r.store))
  {
    LoopStops(p, k, s, st);
    if !p.canceled(k) && k < |p.steps| {
      assert CountedSteps(p.steps, k + 1, k + 1) == 0;
    }
  }

  /** The counts of the rest of the loop carry back to record `k`. */
  lemma CountsStep(p: Pass, k: nat, s: ImportSummary, st: Store, s': ImportSummary, st': Store)
    requires k < |p.steps| && !p.canceled(k) && !Aborts(p, k)
    requires s' == Row(p, k, s, st).0 && st' == Row(p, k, s, st).1
    requires var r := Loop(p, k + 1, s', st');
      && r.summary.totalRows == s'.totalRows + CountedSteps(p.steps, k + 1, r.processed)
      && (UniqueChecksums(st') ==> UniqueChecksums(r.store))
    ensures var r := Loop(p, k, s, st);
      && r.summary.totalRows == s.totalRows + CountedSteps(p.steps, k, r.processed)
      && (UniqueChecksums(st) ==> UniqueChecksums(r.store))
  {
    LoopStep(p, k, s, st);
    RowStore(p, k, s, st);
  }


  /**
   * In the corrected handler, imported plus failed exceeds the counted
   * rows by exactly the read errors.
   */
  lemma {:induction false} LoopAccounting(p: Pass, k: nat, s: ImportSummary, st: Store)
    requires k <= |p.steps| && p.corrected
    ensures var r := Loop(p, k, s, st); Slack(r.summary) == Slack(s) + ReadErrors(p.steps, k, r.processed)
    decreases |p.steps| - k
  {
    if p.canceled(k) || k == |p.steps| {
      AccountingStops(p, k, s, st);
    } else {
      var q := Row(p, k, s, st);
      LoopAccounting(p, k + 1, q.0, q.1);
      AccountingAdvance(p, k, s, st, q.0, q.1);
    }
  }

  /** Where the corrected loop stops at once, its slack is unchanged. */
  lemma AccountingStops(p: Pass, k: nat, s: ImportSummary, st: Store)
    requires k <= |p.steps| && p.corrected && (p.canceled(k) || k == |p.steps|)
    ensures var r := Loop(p, k, s, st); Slack(r.summary) == Slack(s) + ReadErrors(p.steps, k, r.processed)
  {
    LoopStops(p, k, s, st);
  }

  /** The slack of the rest of the corrected loop carries back to record `k`. */
  lemma AccountingAdvance(p: Pass, k: nat, s: ImportSummary, st: Store, s': ImportSummary, st': Store)
    requires k < |p.steps| && !p.canceled(k) && p.corrected
    requires s' == Row(p, k, s, st).0 && st' == Row(p, k, s, st).1
    requires var r := Loop(p, k + 1, s', st'); Slack(r.summary) == Slack(s') + ReadErrors(p.steps, k + 1, r.processed)
    ensures var r := Loop(p, k, s, st); Slack(r.summary) == Slack(s) + ReadErrors(p.steps, k, r.processed)
  {
    LoopStep(p, k, s, st);
    RowAccounting(p, k, s, st);
    var r := Loop(p, k + 1, s', st');
    AccountingStep(p.steps, k, r.processed, Slack(s), Slack(s'), Slack(r.summary));
  }


  /** The slack grows by one at a read error and stays put otherwise, record by record. */
  lemma AccountingStep(steps: seq<Step>, k: nat, hi: nat, before: int, mid: int, after: int)
    requires k < hi <= |steps|
    requires mid == before + (if steps[k].ReadError? then 1 else 0)
    requires after == mid + ReadErrors(steps, k + 1, hi)
    ensures after == before + ReadErrors(steps, k, hi)
  {
  }

  /**
   * After the loop every decoded row it read has its checksum in the
   * table, or met a database failure, and the table only grew.
   */
  lemma {:induction false} LoopSettles(p: Pass, k: nat, s: ImportSummary, st: Store)
    requires k <= |p.steps|
    ensures var r := Loop(p, k, s, st); Grows(st, r.store) && Covered(p.steps, p.faults, r.store, k, r.processed)
    decreases |p.steps| - k
  {
    if p.canceled(k) || k == |p.steps| || Aborts(p, k) {
      SettlesStops(p, k, s, st);
    } else {
      var q := Row(p, k, s, st);
      LoopSettles(p, k + 1, q.0, q.1);
      SettlesAdvance(p, k, s, st, q.0, q.1);
    }
  }

  /** Where the loop stops at once, nothing needs storing. */
  lemma SettlesStops(p: Pass, k: nat, s: ImportSummary, st: Store)
    requires k <= |p.steps| && (p.canceled(k) || k == |p.steps| || Aborts(p, k))
    ensures var r := Loop(p, k, s, st); Grows(st, r.store) && Covered(p.steps, p.faults, r.store, k, r.processed)
  {
    LoopStops(p, k, s, st);
    assert st.rows[..|st.rows|] == st.rows;
  }

  /** What the rest of the loop stores, together with record `k`, covers the range from `k`. */
  lemma SettlesAdvance(p: Pass, k: nat, s: ImportSummary, st: Store, s': ImportSummary, st': Store)
    requires k < |p.steps| && !p.canceled(k) && !Aborts(p, k)
    requires s' == Row(p, k, s, st).0 && st' == Row(p, k, s, st).1
    requires var r := Loop(p, k + 1, s', st');
      Grows(st', r.store) && Covered(p.steps, p.faults, r.store, k + 1, r.processed)
    ensures var r := Loop(p, k, s, st); Grows(st, r.store) && Covered(p.steps, p.faults, r.store, k, r.processed)
  {
    LoopStep(p, k, s, st);
    if p.steps[k].Decoded? {
      RowSettles(p, k, s, st);
    }
    var r := Loop(p, k + 1, s', st');
    GrowsTransitive(st, st', r.store);
    SettlesStep(p.steps, p.faults, k, st', r.store, r.processed);
  }


  /** The record at `k` joins the covered range once the rest of the loop has run. */
  lemma SettlesStep(steps: seq<Step>, faults: nat -> Option<string>, k: nat, mid: Store, st: Store, hi: nat)
    requires k < hi <= |steps|
    requires Grows(mid, st) && Covered(steps, faults, st, k + 1, hi)
    requires steps[k].Decoded? ==> HasChecksum(mid, steps[k].tx.checksum) || faults(k).Some?
    ensures Covered(steps, faults, st, k, hi)
  {
    if steps[k].Decoded? && faults(k).None? {
      GrowsKeepsChecksum(mid, st, steps[k].tx.checksum);
    }
    CoveredExtend(steps, faults, st, k, hi);
  }

  /** A covered record at `lo` extends the covered range down to it. */
  lemma CoveredExtend(steps: seq<Step>, faults: nat -> Option<string>, st: Store, lo: nat, hi: nat)
    requires lo < hi <= |steps| && Covered(steps, faults, st, lo + 1, hi)
    requires steps[lo].Decoded? ==> HasChecksum(st, steps[lo].tx.checksum) || faults(lo).Some?
    ensures Covered(steps, faults, st, lo, hi)
  {
  }

  /** Reference count: the decoded records in `[lo, hi)` whose checksum `st` does not hold. */
  function Unstored(steps: seq<Step>, st: Store, lo: nat, hi: nat): nat
    requires lo <= hi <= |steps|
    decreases hi - lo
  {
    if lo == hi then 0
    else (if steps[lo].Decoded? && !HasChecksum(st, steps[lo].tx.checksum) then 1 else 0) + Unstored(steps, st, lo + 1, hi)
  }

  /** Reference count: the decoded records in `[lo, hi)` whose insert met a database failure. */
  function Faulted(steps: seq<Step>, faults: nat -> Option<string>, lo: nat, hi: nat): nat
    requires lo <= hi <= |steps|
    decreases hi - lo
  {
    if lo == hi then 0
    else (if steps[lo].Decoded? && faults(lo).Some? then 1 else 0) + Faulted(steps, faults, lo + 1, hi)
  }

  /** A grown table leaves no more decoded records unstored. */
  lemma {:induction false} UnstoredShrinks(steps: seq<Step>, st: Store, st': Store, lo: nat, hi: nat)
    requires lo <= hi <= |steps| && Grows(st, st')
    ensures Unstored(steps, st', lo, hi) <= Unstored(steps, st, lo, hi)
    decreases hi - lo
  {
    if lo < hi {
      if steps[lo].Decoded? && HasChecksum(st, steps[lo].tx.checksum) {
        GrowsKeepsChecksum(st, st', steps[lo].tx.checksum);
      }
      UnstoredShrinks(steps, st, st', lo + 1, hi);
    }
  }

  /** One record imports at most one row, and only a decoded one the table does not hold yet. */
  lemma RowImports(p: Pass, k: nat, s: ImportSummary, st: Store)
    requires k < |p.steps|
    ensures Row(p, k, s, st).0.imported
      <= s.imported + (if p.steps[k].Decoded? && !HasChecksum(st, p.steps[k].tx.checksum) then 1 else 0)
  {
    RowStore(p, k, s, st);
  }

  /** The loop imports at most the decoded records whose checksum the table does not hold at the start. */
  lemma {:induction false} LoopImportsAtMostUnstored(p: Pass, k: nat, s: ImportSummary, st: Store)
    requires k <= |p.steps|
    ensures Loop(p, k, s, st).summary.imported <= s.imported + Unstored(p.steps, st, k, |p.steps|)
    decreases |p.steps| - k
  {
    if !p.canceled(k) && k < |p.steps| && !Aborts(p, k) {
      var q := Row(p, k, s, st);
      LoopImportsAtMostUnstored(p, k + 1, q.0, q.1);
      ImportsStep(p, k, s, st, q.0, q.1);
    } else {
      LoopStops(p, k, s, st);
    }
  }

  /** Where the loop stops at once, the summary keeps its imports and the table is untouched. */
  lemma LoopStops(p: Pass, k: nat, s: ImportSummary, st: Store)
    requires k <= |p.steps|
    requires p.canceled(k) || k == |p.steps| || Aborts(p, k)
    ensures var r := Loop(p, k, s, st);
      && r.store == st && r.summary.imported == s.imported
      && r.summary == (if p.canceled(k) || k == |p.steps| then s else s.(totalRows := s.totalRows + 1))
      && r.processed == (if p.canceled(k) || k == |p.steps| then k else k + 1)
      && (r.err.None? <==> !p.canceled(k) && k == |p.steps|)
  {
  }

  /** The bound on imports carries from the rest of the loop back to record `k`. */
  lemma ImportsStep(p: Pass, k: nat, s: ImportSummary, st: Store, s': ImportSummary, st': Store)
    requires k < |p.steps| && !p.canceled(k) && !Aborts(p, k)
    requires s' == Row(p, k, s, st).0 && st' == Row(p, k, s, st).1
    requires Loop(p, k + 1, s', st').summary.imported <= s'.imported + Unstored(p.steps, st', k + 1, |p.steps|)
    ensures Loop(p, k, s, st).summary.imported <= s.imported + Unstored(p.steps, st, k, |p.steps|)
  {
    LoopStep(p, k, s, st);
    RowImports(p, k, s, st);
    UnstoredShrinks(p.steps, st, st', k + 1, |p.steps|);
    UnstoredStep(p.steps, st, k, s.imported, s'.imported);
  }

  /** One record imports at most what it adds to the unstored count. */
  lemma UnstoredStep(steps: seq<Step>, st: Store, k: nat, before: int, mid: int)
    requires k < |steps|
    requires mid <= before + (if steps[k].Decoded? && !HasChecksum(st, steps[k].tx.checksum) then 1 else 0)
    ensures mid + Unstored(steps, st, k + 1, |steps|) <= before + Unstored(steps, st, k, |steps|)
  {
  }

  /** Two classifications of one file that decode the same records to the same checksums. */
  predicate SameDecoded(a: seq<Step>, b: seq<Step>) {
    && |a| == |b|
    && forall k :: 0 <= k < |a| ==>
         (a[k].Decoded? <==> b[k].Decoded?) && (a[k].Decoded? ==> a[k].tx.checksum == b[k].tx.checksum)
  }

  /**
   * Over a table covering one classification, the records a second
   * classification of the same file leaves unstored are among those whose
   * insert met a database failure.
   */
  lemma {:induction false} UnstoredAtMostFaulted(
    a: seq<Step>, b: seq<Step>, faults: nat -> Option<string>, st: Store, lo: nat, hi: nat)
    requires SameDecoded(a, b) && lo <= hi <= |a|
    requires Covered(a, faults, st, lo, hi)
    ensures Unstored(b, st, lo, hi) <= Faulted(a, faults, lo, hi)
    decreases hi - lo
  {
    if lo < hi {
      UnstoredAtMostFaulted(a, b, faults, st, lo + 1, hi);
    }
  }

  /** Without database failures nothing is faulted. */
  lemma {:induction false} FaultedNone(steps: seq<Step>, faults: nat -> Option<string>, lo: nat, hi: nat)
    requires lo <= hi <= |steps|
    requires forall k :: faults(k).None?
    ensures Faulted(steps, faults, lo, hi) == 0
    decreases hi - lo
  {
    if lo < hi {
      FaultedNone(steps, faults, lo + 1, hi);
    }
  }

  /** Reference count on the reader's output: records in `[lo, hi)` that are not blank lines. */
  function NonBlankRecords(rows: seq<ReadOutcome>, lo: nat, hi: nat): nat
    requires lo <= hi <= |rows|
    decreases hi - lo
  {
    if lo == hi then 0
    else (if rows[lo].Record? && !BlankRecord(rows[lo].fields) then 1 else 0) + NonBlankRecords(rows, lo + 1, hi)
  }

  /** Reference count on the reader's output: read failures in `[lo, hi)`. */
  function ReadFailures(rows: seq<ReadOutcome>, lo: nat, hi: nat): nat
    requires lo <= hi <= |rows|
    decreases hi - lo
  {
    if lo == hi then 0 else (if rows[lo].ReadFailure? then 1 else 0) + ReadFailures(rows, lo + 1, hi)
  }

  /** The steps in `[lo, hi)` count and fail exactly where the reader's outcomes do. */
  predicate StepsMatch(steps: seq<Step>, rows: seq<ReadOutcome>, lo: nat, hi: nat)
    requires lo <= hi <= |steps| == |rows|
  {
    forall k :: lo <= k < hi ==>
      && (Counted(steps[k]) <==> rows[k].Record? && !BlankRecord(rows[k].fields))
      && (steps[k].ReadError? <==> rows[k].ReadFailure?)
  }

  lemma {:induction false} CountsAgree(steps: seq<Step>, rows: seq<ReadOutcome>, lo: nat, hi: nat)
    requires lo <= hi <= |steps| == |rows| && StepsMatch(steps, rows, lo, hi)
    ensures CountedSteps(steps, lo, hi) == NonBlankRecords(rows, lo, hi)
    ensures ReadErrors(steps, lo, hi) == ReadFailures(rows, lo, hi)
    decreases hi - lo
  {
    if lo < hi {
      CountsAgree(steps, rows, lo + 1, hi);
    }
  }

  /** The step counts agree with the counts on the reader's output. */
  lemma StepCountsAgree(env: Env, lo: nat, hi: nat)
    requires lo <= hi <= |env.rows|
    ensures CountedSteps(Steps(env), lo, hi) == NonBlankRecords(env.rows, lo, hi)
    ensures ReadErrors(Steps(env), lo, hi) == ReadFailures(env.rows, lo, hi)
  {
    var steps := Steps(env);
    forall k | lo <= k < hi
      ensures (Counted(steps[k]) <==> env.rows[k].Record? && !BlankRecord(env.rows[k].fields))
      ensures (steps[k].ReadError? <==> env.rows[k].ReadFailure?)
    {
      assert steps[k] == Classify(env, k);
    }
    CountsAgree(steps, env.rows, lo, hi);
  }

  /** The loop's inputs once the header row `header` has been read from `stream`. */
  function EnvOf(parser: RowParser, header: seq<string>, stream: seq<ReadOutcome>, importId: Uuid, rt: Runtime): (env: Env)
    requires |stream| > 0
    ensures env.rows == stream[1..] && env.header == header && env.parser == parser && env.importId == importId
    ensures env.rt == rt
  {
    Env(parser, header, stream[1..], importId, rt)
  }

  /** The read loop's inputs for the same run. */
  function PassOf(env: Env, corrected: bool): (p: Pass)
    ensures p.steps == Steps(env) && p.width == |env.header| && p.corrected == corrected
    ensures p.canceled == env.rt.canceled && p.faults == env.rt.faults
  {
    Pass(Steps(env), |env.header|, env.rt.canceled, env.rt.faults, corrected)
  }

  /** The header step and then the loop, as written or corrected. */
  function Run(
    parser: RowParser, stream: seq<ReadOutcome>, importId: Uuid, rt: Runtime, st: Store, corrected: bool): (r: Outcome)
    ensures |stream| == 0 ==> r.err == Some(CsvEmpty) && r.summary == EmptySummary && r.store == st
    ensures |stream| > 0 && stream[0].ReadFailure? ==>
      r.err == Some(ReadingHeader(stream[0].message)) && r.summary == EmptySummary && r.store == st
    ensures |stream| > 0 && stream[0].Record? && parser.parseHeader(stream[0].fields).Some? ==>
      r.err == Some(ParsingHeader(parser.parseHeader(stream[0].fields).value))
      && r.summary == EmptySummary && r.store == st
    ensures r.err.None? ==>
      |stream| > 0 && stream[0].Record? && parser.parseHeader(stream[0].fields).None?
      && r.processed == |stream| - 1 && !rt.canceled(|stream| - 1)
    ensures r.err == Some(Canceled) ==> |stream| > 0 && r.processed < |stream| && rt.canceled(r.processed)
    ensures r.err == Some(NilTransaction) ==>
      && !corrected && |stream| > 0 && stream[0].Record? && 0 < r.processed < |stream|
      && AmountRejected(EnvOf(parser, stream[0].fields, stream, importId, rt), r.processed - 1)
    ensures Consistent(r.summary)
    ensures RowsOrdered(r.summary.rowErrors, RowNumber(r.processed) - 1)
    ensures UniqueChecksums(st) ==> UniqueChecksums(r.store)
    ensures |stream| > 0 && r.processed < |stream| ==>
      r.summary.totalRows == NonBlankRecords(stream[1..], 0, r.processed)
    ensures corrected && r.err.None? ==>
      Slack(r.summary) == ReadFailures(stream[1..], 0, |stream| - 1)
  {
    if |stream| == 0 then Outcome(EmptySummary, Some(CsvEmpty), st, 0)
    else match stream[0]
      case ReadFailure(msg) => Outcome(EmptySummary, Some(ReadingHeader(msg)), st, 0)
      case Record(header) =>
        match parser.parseHeader(header)
        case Some(e) => Outcome(EmptySummary, Some(ParsingHeader(e)), st, 0)
        case None =>
          var env := EnvOf(parser, header, stream, importId, rt);
          LoopEnds(env, corrected, st);
          LoopTotals(env, corrected, st);
          if corrected then LoopSlack(env, st); Loop(PassOf(env, corrected), 0, EmptySummary, st)
          else Loop(PassOf(env, corrected), 0, EmptySummary, st)
  }

  /** How the loop over the records after the header can end, as `Run` reports it. */
  lemma LoopEnds(env: Env, corrected: bool, st: Store)
    ensures var r := Loop(PassOf(env, corrected), 0, EmptySummary, st);
      && (r.err.None? ==> r.processed == |env.rows| && !env.rt.canceled(|env.rows|))
      && (r.err == Some(Canceled) ==> r.processed <= |env.rows| && env.rt.canceled(r.processed))
      && (r.err == Some(NilTransaction) ==> !corrected && 0 < r.processed <= |env.rows| && AmountRejected(env, r.processed - 1))
      && (r.err.None? || r.err == Some(Canceled) || r.err == Some(NilTransaction))
  {
    var p := PassOf(env, corrected);
    var r := Loop(p, 0, EmptySummary, st);
    if r.err == Some(NilTransaction) {
      assert p.steps[r.processed - 1] == Classify(env, r.processed - 1);
    }
  }

  /** What `Run` learns about the summary and the table from the loop over the records. */
  lemma LoopTotals(env: Env, corrected: bool, st: Store)
    ensures var r := Loop(PassOf(env, corrected), 0, EmptySummary, st);
      && (UniqueChecksums(st) ==> UniqueChecksums(r.store))
      && Consistent(r.summary) && RowsOrdered(r.summary.rowErrors, RowNumber(r.processed) - 1)
      && r.summary.totalRows == NonBlankRecords(env.rows, 0, r.processed)
  {
    var p := PassOf(env, corrected);
    LoopKeepsOrder(p, 0, EmptySummary, st);
    LoopCounts(p, 0, EmptySummary, st);
    StepCountsAgree(env, 0, Loop(p, 0, EmptySummary, st).processed);
  }

  /** In the corrected handler, the loop's failures beyond the counted rows are the read failures. */
  lemma LoopSlack(env: Env, st: Store)
    ensures var r := Loop(PassOf(env, true), 0, EmptySummary, st);
      r.err.None? ==> Slack(r.summary) == ReadFailures(env.rows, 0, |env.rows|)
  {
    var p := PassOf(env, true);
    LoopAccounting(p, 0, EmptySummary, st);
    StepCountsAgree(env, 0, Loop(p, 0, EmptySummary, st).processed);
  }


  /**
   * `FromCsvHandler.Handle` as written: a `ParseRow` failure leaves no
   * trace but `TotalRows`, and a row whose amount `NewTransaction` refuses
   * ends the request in the store's panic. `stream` is what the CSV
   * reader yields, header first.
   */
  function Handle(parser: RowParser, stream: seq<ReadOutcome>, importId: Uuid, rt: Runtime, st: Store): (r: Outcome)
    ensures |stream| == 0 ==> r.err == Some(CsvEmpty) && r.summary == EmptySummary
    ensures r.err.None? || r.err == Some(Canceled) ==>
      |stream| > 0 && r.processed < |stream| && r.summary.totalRows == NonBlankRecords(stream[1..], 0, r.processed)
    ensures r.err == Some(NilTransaction) ==>
      |stream| > 0 && stream[0].Record? && 0 < r.processed < |stream|
      && AmountRejected(EnvOf(parser, stream[0].fields, stream, importId, rt), r.processed - 1)
    ensures Consistent(r.summary)
    ensures RowsOrdered(r.summary.rowErrors, RowNumber(r.processed) - 1)
  {
    Run(parser, stream, importId, rt, st, false)
  }

  /**
   * A run of the handler as written that ends without error met no row
   * whose amount `NewTransaction` refuses: any such row aborts it.
   */
  lemma CompletedRunHasValidAmounts(parser: RowParser, stream: seq<ReadOutcome>, importId: Uuid, rt: Runtime, st: Store)
    requires Handle(parser, stream, importId, rt, st).err.None?
    ensures |stream| > 0 && stream[0].Record?
    ensures forall j :: 0 <= j < |stream| - 1 ==> !AmountRejected(EnvOf(parser, stream[0].fields, stream, importId, rt), j)
  {
    var env := EnvOf(parser, stream[0].fields, stream, importId, rt);
    var p := PassOf(env, false);
    HandleIsLoop(parser, stream, importId, rt, st);
    LoopCompletes(p, 0, EmptySummary, st);
    forall j | 0 <= j < |stream| - 1
      ensures !AmountRejected(env, j)
    {
      assert !Aborts(p, j) by { assert Clear(p, 0); }
      assert p.steps[j] == Classify(env, j);
    }
  }

  /**
   * The handler with a row error for every `ParseRow` failure and every
   * refused amount, as the commented-out tests of the handler
   * expect: it never panics, every counted row ends up imported or
   * failed, and the failures beyond that are the read errors.
   */
  function HandleCorrected(parser: RowParser, stream: seq<ReadOutcome>, importId: Uuid, rt: Runtime, st: Store): (r: Outcome)
    ensures r.err != Some(NilTransaction)
    ensures Consistent(r.summary)
    ensures r.err.None? ==>
      |stream| > 0
      && r.summary.imported + r.summary.failed == r.summary.totalRows + ReadFailures(stream[1..], 0, |stream| - 1)
  {
    Run(parser, stream, importId, rt, st, true)
  }

  /** A context that is never canceled. */
  function Never(k: nat): bool {
    false
  }

  /** The run-time inputs with a context that is never canceled. */
  function Live(hash: Hasher, times100: Scaler, newId: int -> Uuid, now: Date, faults: nat -> Option<string>): (rt: Runtime)
    ensures forall k :: !rt.canceled(k)
    ensures rt.hash == hash && rt.times100 == times100 && rt.newId == newId && rt.now == now && rt.faults == faults
  {
    Runtime(hash, times100, newId, now, Never, faults)
  }

  /** A row parser that rejects every row, as for an unparseable amount. */
  function RejectingParser(): (p: RowParser)
    ensures p.parseHeader(["Amount"]).None?
    ensures forall h, f, n, id :: p.parseRow(h, f, n, id) == Err("invalid amount")
  {
    RowParser(h => None, (h, f, n, id) => Err("invalid amount"))
  }

  /**
   * As written, a row that `ParseRow` rejects is counted and then lost:
   * one such row gives one counted row, nothing imported and no failure.
   * The corrected handler turns it into exactly one row error.
   */
  lemma ParseFailureLeavesNoTrace(importId: Uuid, rt: Runtime, st: Store)
    requires !rt.canceled(0) && !rt.canceled(1)
    ensures var stream := [Record(["Amount"]), Record(["x"])];
      && var r := Handle(RejectingParser(), stream, importId, rt, st);
      && r.err.None?
      && r.summary.totalRows == 1 && r.summary.imported == 0 && r.summary.failed == 0
      && r.summary.imported + r.summary.failed < r.summary.totalRows
      && HandleCorrected(RejectingParser(), stream, importId, rt, st).summary
           == ImportSummary(1, 0, 0, 1, [RowError(2, "parsing row: invalid amount")])
  {
    RejectedRowRun(importId, rt, st, false);
    RejectedRowRun(importId, rt, st, true);
  }

  /** The run over one header and one rejected row, as written or corrected. */
  lemma RejectedRowRun(importId: Uuid, rt: Runtime, st: Store, corrected: bool)
    requires !rt.canceled(0) && !rt.canceled(1)
    ensures var stream := [Record(["Amount"]), Record(["x"])];
      && var r := Run(RejectingParser(), stream, importId, rt, st, corrected);
      && r.err.None?
      && r.summary == if corrected then AddRowError(ImportSummary(1, 0, 0, 0, []), 2, "parsing row: invalid amount")
                      else ImportSummary(1, 0, 0, 0, [])
  {
    var stream := [Record(["Amount"]), Record(["x"])];
    var env := EnvOf(RejectingParser(), ["Amount"], stream, importId, rt);
    assert Parsed(env, 0).None?;
    assert Classify(env, 0) == ParseFailure("invalid amount");
    var one := ImportSummary(1, 0, 0, 0, []);
    var p := PassOf(env, corrected);
    assert p.steps[0] == ParseFailure("invalid amount");
    assert "parsing row: " + "invalid amount" == "parsing row: invalid amount";
    var q := Row(p, 0, EmptySummary, st);
    assert q == (if corrected then AddRowError(one, 2, "parsing row: invalid amount") else one, st);
    assert Loop(p, 0, EmptySummary, st) == Loop(p, 1, q.0, q.1);
  }

  /**
   * A row parser that accepts every row with the amount `-5`, as the ING
   * parser does for an `Amount (EUR)` of `-5,00`: `fmt.Sscanf("%f")`
   * accepts a sign.
   */
  function NegativeAmountParser(date: Date): (p: RowParser)
    ensures p.parseHeader(["Amount"]).None?
    ensures forall h, f, n, id :: p.parseRow(h, f, n, id).Ok? && !ValidAmount(p.parseRow(h, f, n, id).value.amount)
  {
    RowParser(h => None, (h, f, n, id) => Ok(TransactionData("", "", "ING", CashOut, Finite(-5.0), date)))
  }

  /**
   * As written, a row whose amount `NewTransaction` refuses makes the
   * handler pass a nil transaction to the store: the run aborts with the
   * panic and no summary, instead of recording an "invalid amount" row
   * error. The corrected handler records that error and goes on.
   */
  lemma RejectedAmountAborts(importId: Uuid, rt: Runtime, st: Store, date: Date)
    requires !rt.canceled(0) && !rt.canceled(1)
    ensures var stream := [Record(["Amount"]), Record(["-5,00"])];
      && var r := Handle(NegativeAmountParser(date), stream, importId, rt, st);
      && r.err == Some(NilTransaction) && r.store == st
      && var c := HandleCorrected(NegativeAmountParser(date), stream, importId, rt, st);
      && c.err.None? && c.store == st
      && c.summary == ImportSummary(1, 0, 0, 1, [RowError(2, RejectedAmountMessage)])
  {
    var stream := [Record(["Amount"]), Record(["-5,00"])];
    var env := EnvOf(NegativeAmountParser(date), ["Amount"], stream, importId, rt);
    assert AmountRejected(env, 0);
    var p := PassOf(env, false);
    assert p.steps[0].RejectedAmount?;
    var c := PassOf(env, true);
    assert c.steps[0].RejectedAmount?;
    var q := Row(c, 0, EmptySummary, st);
    assert q == (AddRowError(ImportSummary(1, 0, 0, 0, []), 2, RejectedAmountMessage), st);
    assert Loop(c, 0, EmptySummary, st) == Loop(c, 1, q.0, q.1);
  }

  /**
   * The inserts of a run that met a database failure: decoded records
   * whose `Create` failed with an error other than the duplicate key.
   */
  function FaultedInserts(parser: RowParser, stream: seq<ReadOutcome>, importId: Uuid, rt: Runtime): nat {
    if |stream| > 0 && stream[0].Record? then
      var env := EnvOf(parser, stream[0].fields, stream, importId, rt);
      Faulted(Steps(env), rt.faults, 0, |env.rows|)
    else 0
  }

  /**
   * Importing the same file into the same import a second time, after a
   * run that read it to the end, imports at most the rows whose insert
   * failed in the first run for a reason other than the duplicate key,
   * whatever fresh IDs, clock, context and database failures the second
   * run meets. Every other decoded row's checksum is already stored. With
   * no such failure in the first run, the second imports nothing.
   */
  lemma ReimportImportsOnlyFailedRows(
    parser: RowParser, stream: seq<ReadOutcome>, importId: Uuid, rt: Runtime, rt': Runtime, st: Store)
    requires rt'.hash == rt.hash && rt'.times100 == rt.times100
    requires Handle(parser, stream, importId, rt, st).err.None?
    ensures var st1 := Handle(parser, stream, importId, rt, st).store;
      var imported := Handle(parser, stream, importId, rt', st1).summary.imported;
      && imported <= FaultedInserts(parser, stream, importId, rt)
      && ((forall k :: rt.faults(k).None?) ==> imported == 0)
  {
    var header := stream[0].fields;
    var env := EnvOf(parser, header, stream, importId, rt);
    var env' := EnvOf(parser, header, stream, importId, rt');
    var p := PassOf(env, false);
    var p' := PassOf(env', false);
    HandleIsLoop(parser, stream, importId, rt, st);
    LoopSettles(p, 0, EmptySummary, st);
    var st1 := Loop(p, 0, EmptySummary, st).store;
    assert Covered(p.steps, rt.faults, st1, 0, |p.steps|);
    HandleIsLoop(parser, stream, importId, rt', st1);
    forall k | 0 <= k < |p.steps|
      ensures (p.steps[k].Decoded? <==> p'.steps[k].Decoded?)
      ensures p.steps[k].Decoded? ==> p.steps[k].tx.checksum == p'.steps[k].tx.checksum
    {
      SameRowSameChecksum(env, env', k);
    }
    assert SameDecoded(p.steps, p'.steps);
    LoopImportsAtMostUnstored(p', 0, EmptySummary, st1);
    UnstoredAtMostFaulted(p.steps, p'.steps, rt.faults, st1, 0, |p.steps|);
    if forall k :: rt.faults(k).None? {
      FaultedNone(p.steps, rt.faults, 0, |p.steps|);
    }
  }

  /** Past a good header, the handler is the read loop over the classified records. */
  lemma HandleIsLoop(parser: RowParser, stream: seq<ReadOutcome>, importId: Uuid, rt: Runtime, st: Store)
    requires |stream| > 0 && stream[0].Record? && parser.parseHeader(stream[0].fields).None?
    ensures var env := EnvOf(parser, stream[0].fields, stream, importId, rt);
      Handle(parser, stream, importId, rt, st) == Loop(PassOf(env, false), 0, EmptySummary, st)
  {
  }

  /**
   * A record classifies the same way, with the same checksum, whatever
   * fresh IDs, clock, context and database failures the run draws.
   */
  lemma SameRowSameChecksum(env: Env, env': Env, k: nat)
    requires env' == env.(rt := env'.rt) && env'.rt.hash == env.rt.hash && env'.rt.times100 == env.rt.times100
    requires k < |env.rows|
    ensures Classify(env', k).Decoded? <==> Classify(env, k).Decoded?
    ensures Classify(env, k).Decoded? ==> Classify(env', k).tx.checksum == Classify(env, k).tx.checksum
  {
    if Classify(env, k).Decoded? {
      assert Parsed(env', k) == Parsed(env, k);
      assert Payload(TxAt(env', k)) == Payload(TxAt(env, k));
    }
  }
}
