/**
 * The ING statement parser (internal/parser/ing.go, and its copy
 * internal/app/vendors/parser_ing.go) and the vendor-to-parser factory
 * (internal/parser/factory.go).
 *
 * The CSV tokeniser is not modelled: its output is a sequence of read
 * outcomes, each a record or a read failure, and the end of the sequence
 * is `io.EOF`. Decimal parsing (`fmt.Sscanf` with `%f`) is the parameter
 * `parseFloat`.
 */
module IngParsing {
  import opened Wrappers
  import opened Text
  import opened Dates
  import opened Uuids
  import opened Transactions
  import opened Vendors

  /** Trimmed column title to column index. */
  type HeaderMap = map<string, int>

  /** `fmt.Sscanf(s, "%f", &amount)`: the value read, or `None` on a scan error. */
  type FloatParser = string -> Option<Float>

  const ColumnDate: string := "Date"
  const ColumnDescription: string := "Name / Description"
  const ColumnNotes: string := "Notifications"
  const ColumnAmount: string := "Amount (EUR)"
  const ColumnDirection: string := "Debit/credit"

  /** The bank's fixed source label. */
  const SourceIng: string := "ING"

  /** `TransactionData`: one decoded statement line. */
  datatype TransactionData = TransactionData(
    description: string,
    note: string,
    source: string,
    direction: Direction,
    amount: Float,
    date: Date)

  datatype ParseError =
    | HeaderNotInitialized
    | InvalidAmount(amountText: string)
    | InvalidDirection(raw: string)
    | InvalidDate(dateText: string)

  /** One outcome of `csv.Reader.Read`; the end of the stream stands for `io.EOF`. */
  datatype ReadOutcome = Record(fields: seq<string>) | ReadFailure(message: string)

  /** Why no rows could be produced at all. */
  datatype ReadError = Eof | CsvError(message: string)

  /**
   * `m` maps every key of `keys` to the index of its last occurrence:
   * every key is present, each maps to a position holding it, and no
   * later position holds it.
   */
  predicate LastIndices(keys: seq<string>, m: HeaderMap) {
    && (forall i :: 0 <= i < |keys| ==> keys[i] in m)
    && (forall k :: k in m ==> 0 <= m[k] < |keys| && keys[m[k]] == k)
    && (forall k, j :: k in m && m[k] < j < |keys| ==> keys[j] != k)
  }

  /** Each key mapped to the index of its last occurrence in `keys`. */
  function LastIndexMap(keys: seq<string>): (m: HeaderMap)
    ensures LastIndices(keys, m)
  {
    if |keys| == 0 then map[]
    else
      var n := |keys| - 1;
      var prev := LastIndexMap(keys[..n]);
      LastIndicesExtend(keys, prev);
      prev[keys[n] := n]
  }

  /** Recording the last key at its own index extends the map from the prefix to the whole sequence. */
  lemma LastIndicesExtend(keys: seq<string>, prev: HeaderMap)
    requires |keys| > 0 && LastIndices(keys[..|keys| - 1], prev)
    ensures LastIndices(keys, prev[keys[|keys| - 1] := |keys| - 1])
  {
    var n := |keys| - 1;
    assert forall i :: 0 <= i < n ==> keys[..n][i] == keys[i];
  }

  /** The header titles with surrounding white space removed. */
  function Titles(headers: seq<string>): (ts: seq<string>)
    ensures |ts| == |headers|
    ensures forall i :: 0 <= i < |headers| ==> ts[i] == TrimSpace(headers[i])
  {
    seq(|headers|, i requires 0 <= i < |headers| => TrimSpace(headers[i]))
  }

  /**
   * `parseHeader` / `SetHeader`: each trimmed title maps to the index of
   * its last occurrence.
   */
  function HeaderMapOf(headers: seq<string>): (m: HeaderMap)
    ensures forall i :: 0 <= i < |headers| ==> TrimSpace(headers[i]) in m
    ensures forall k :: k in m ==> 0 <= m[k] < |headers| && TrimSpace(headers[m[k]]) == k
    ensures forall k, j :: k in m && m[k] < j < |headers| ==> TrimSpace(headers[j]) != k
  {
    LastIndexMap(Titles(headers))
  }

  /** Every index in a header map built from `headers` is a valid index of a row as wide as the header. */
  lemma HeaderMapFits(headers: seq<string>, record: seq<string>)
    requires |record| >= |headers| >= 1
    ensures RowFits(HeaderMapOf(headers), record)
  {
  }

  /** A title the header does not have is read from column 0, as a Go map yields 0 for a missing key. */
  function Column(m: HeaderMap, title: string): (i: int)
    ensures title in m ==> i == m[title]
    ensures title !in m ==> i == 0
  {
    if title in m then m[title] else 0
  }

  /** The record is wide enough for every column `ParseRow` may read (otherwise Go panics). */
  predicate RowFits(m: HeaderMap, record: seq<string>) {
    |m| == 0 || (|record| > 0 && forall k :: k in m ==> 0 <= m[k] < |record|)
  }

  /** The direction token: "Debit" is money out, "Credit" money in, compared ignoring case. */
  function DirectionOf(raw: string): (d: Option<Direction>)
    ensures d == Some(CashOut) <==> EqualFold(raw, "Debit")
    ensures d == Some(CashIn) <==> EqualFold(raw, "Credit")
    ensures d.None? <==> !EqualFold(raw, "Debit") && !EqualFold(raw, "Credit")
  {
    if EqualFold(raw, "Debit") then Some(CashOut)
    else if EqualFold(raw, "Credit") then Some(CashIn)
    else None
  }

  /** The amount text as scanned: every ',' replaced by '.'. */
  function AmountText(m: HeaderMap, record: seq<string>): (s: string)
    requires |m| > 0 && RowFits(m, record)
    ensures ',' !in s
  {
    ReplaceChar(record[Column(m, ColumnAmount)], ',', '.')
  }

  /**
   * `ParseRow`. The row number and import ID are accepted and ignored.
   * Checks run in the order amount, direction, date; the first failure is reported.
   */
  function ParseRow(m: HeaderMap, record: seq<string>, rowNumber: int, importId: Uuid, parseFloat: FloatParser): (r: Result<TransactionData, ParseError>)
    requires RowFits(m, record)
    ensures r == Err(HeaderNotInitialized) <==> |m| == 0
    ensures |m| > 0 ==>
      var amount := parseFloat(AmountText(m, record));
      var direction := DirectionOf(record[Column(m, ColumnDirection)]);
      var date := ParseYYYYMMDD(record[Column(m, ColumnDate)]);
      && (r.Ok? <==> amount.Some? && direction.Some? && date.Some?)
      && (r.Err? && r.error.InvalidAmount? <==> amount.None?)
      && (r.Err? && r.error.InvalidDirection? <==> amount.Some? && direction.None?)
      && (r.Err? && r.error.InvalidDate? <==> amount.Some? && direction.Some? && date.None?)
      && (r.Ok? ==>
            && r.value.description == record[Column(m, ColumnDescription)]
            && r.value.note == record[Column(m, ColumnNotes)]
            && r.value.source == SourceIng
            && Some(r.value.amount) == amount
            && Some(r.value.direction) == direction
            && Some(r.value.date) == date)
  {
    if |m| == 0 then Err(HeaderNotInitialized)
    else
      var dateText := record[Column(m, ColumnDate)];
      var desc := record[Column(m, ColumnDescription)];
      var note := record[Column(m, ColumnNotes)];
      var amountText := AmountText(m, record);
      var raw := record[Column(m, ColumnDirection)];
      match parseFloat(amountText)
      case None => Err(InvalidAmount(amountText))
      case Some(amount) =>
        match DirectionOf(raw)
        case None => Err(InvalidDirection(raw))
        case Some(direction) =>
          match ParseYYYYMMDD(dateText)
          case None => Err(InvalidDate(dateText))
          case Some(date) => Ok(TransactionData(desc, note, SourceIng, direction, amount, date))
  }

  /** The two direction tokens never both match, so the order of the two tests does not matter. */
  lemma DirectionTokensDisjoint(raw: string)
    ensures !(EqualFold(raw, "Debit") && EqualFold(raw, "Credit"))
    ensures EqualFold("DEBIT", "Debit") && EqualFold("credit", "Credit")
  {
  }

  /** Whatever the record holds in other places, a decoded row always carries the source "ING". */
  lemma ParseRowIgnoresRowAndImport(m: HeaderMap, record: seq<string>, row1: int, row2: int, id1: Uuid, id2: Uuid, parseFloat: FloatParser)
    requires RowFits(m, record)
    ensures ParseRow(m, record, row1, id1, parseFloat) == ParseRow(m, record, row2, id2, parseFloat)
    ensures ParseRow(m, record, row1, id1, parseFloat).Ok? ==> ParseRow(m, record, row1, id1, parseFloat).value.source == "ING"
  {
  }

  /** `IngParser` of internal/parser: just the header map. */
  datatype IngParser = IngParser(headerToColumn: HeaderMap)

  /** The parser a successful `ParseAll` hands out: its header map and the records after the header. */
  datatype RowSource = RowSource(columns: HeaderMap, width: nat, rows: seq<ReadOutcome>)

  /** encoding/csv rejects a record whose field count differs from the header's with a read error. */
  predicate SameWidth(width: nat, rows: seq<ReadOutcome>) {
    forall j :: 0 <= j < |rows| && rows[j].Record? ==> |rows[j].fields| == width
  }

  /**
   * `ParseAll`: read the header (its read error, or EOF, is returned) and
   * build the header map; `parseHeader` never fails.
   */
  function ParseAll(p: IngParser, stream: seq<ReadOutcome>): (r: Result<RowSource, ReadError>)
    ensures |stream| == 0 ==> r == Err(Eof)
    ensures |stream| > 0 && stream[0].ReadFailure? ==> r == Err(CsvError(stream[0].message))
    ensures r.Ok? <==> |stream| > 0 && stream[0].Record?
    ensures r.Ok? ==>
      r.value.columns == HeaderMapOf(stream[0].fields) && r.value.rows == stream[1..] && r.value.width == |stream[0].fields|
  {
    if |stream| == 0 then Err(Eof)
    else match stream[0]
      case ReadFailure(msg) => Err(CsvError(msg))
      case Record(header) => Ok(RowSource(HeaderMapOf(header), |header|, stream[1..]))
  }

  predicate WellFormed(src: RowSource) {
    src.width >= 1 && SameWidth(src.width, src.rows)
    && forall key :: key in src.columns ==> 0 <= src.columns[key] < src.width
  }

  /** What the sequence makes of the record at index `k`: a read failure or a `ParseRow` error gives nothing. */
  function Decode(src: RowSource, k: nat, parseFloat: FloatParser): (r: Option<TransactionData>)
    requires WellFormed(src) && k < |src.rows|
    ensures r.Some? <==> src.rows[k].Record? && ParseRow(src.columns, src.rows[k].fields, k + 1, Nil, parseFloat).Ok?
    ensures r.Some? ==> ParseRow(src.columns, src.rows[k].fields, k + 1, Nil, parseFloat) == Ok(r.value)
  {
    match src.rows[k]
    case ReadFailure(_) => None
    case Record(f) =>
      match ParseRow(src.columns, f, k + 1, Nil, parseFloat)
      case Err(_) => None
      case Ok(td) => Some(td)
  }

  /** The decode result of every record after the header, by index. */
  function DecodeAll(src: RowSource, parseFloat: FloatParser): (ds: seq<Option<TransactionData>>)
    requires WellFormed(src)
    ensures |ds| == |src.rows|
    ensures forall k :: 0 <= k < |ds| ==> ds[k] == Decode(src, k, parseFloat)
  {
    seq(|src.rows|, k requires 0 <= k < |src.rows| => Decode(src, k, parseFloat))
  }

  /** A decoded row and its row number. */
  type Yield = (int, TransactionData)

  /** Reference definition: every decoded record with index in `[lo, hi)`, numbered from 1, in order. */
  function Decodable(ds: seq<Option<TransactionData>>, lo: nat, hi: nat): seq<Yield>
    requires lo <= hi <= |ds|
    decreases hi - lo
  {
    if lo == hi then []
    else (if ds[lo].Some? then [(lo + 1, ds[lo].value)] else []) + Decodable(ds, lo + 1, hi)
  }

  /** The result of running the sequence against a consumer. */
  datatype Run<S> = Run(state: S, consumed: nat, yielded: seq<Yield>, stopped: bool)

  predicate StrictlyIncreasing(ys: seq<Yield>) {
    forall i, j :: 0 <= i < j < |ys| ==> ys[i].0 < ys[j].0
  }

  /** Each row number is larger than the one before it. */
  predicate StepIncreasing(ys: seq<Yield>) {
    forall i :: 0 < i < |ys| ==> ys[i - 1].0 < ys[i].0
  }

  lemma {:induction false} StepIncreasingIsStrict(ys: seq<Yield>)
    requires StepIncreasing(ys)
    ensures StrictlyIncreasing(ys)
  {
    if |ys| > 1 {
      var tail := ys[1..];
      assert StepIncreasing(tail) by {
        forall i | 0 < i < |tail|
          ensures tail[i - 1].0 < tail[i].0
        {
          assert tail[i - 1] == ys[i] && tail[i] == ys[i + 1];
        }
      }
      StepIncreasingIsStrict(tail);
      forall i, j | 0 <= i < j < |ys|
        ensures ys[i].0 < ys[j].0
      {
        if i > 0 {
          assert ys[i] == tail[i - 1] && ys[j] == tail[j - 1];
        } else if j > 1 {
          assert ys[1] == tail[0] && ys[j] == tail[j - 1];
        }
      }
    }
  }

  /** The row number of the last yield, or 0 when nothing was yielded. */
  function LastRow(ys: seq<Yield>): int {
    if |ys| == 0 then 0 else ys[|ys| - 1].0
  }

  /**
   * The range-over-func body of `ParseAll` from record `k` on: failed
   * reads and undecodable rows are skipped (their row number is used
   * up), decoded rows are handed to the consumer `step`, and a `false`
   * from the consumer ends the iteration before the next read.
   */
  function Drive<S>(ds: seq<Option<TransactionData>>, k: nat, step: (S, int, TransactionData) -> (S, bool), s: S): (r: Run<S>)
    requires k <= |ds|
    ensures k <= r.consumed <= |ds|
    ensures !r.stopped ==> r.consumed == |ds|
    ensures r.stopped ==> LastRow(r.yielded) == r.consumed
    ensures forall i :: 0 <= i < |r.yielded| ==>
      k + 1 <= r.yielded[i].0 <= r.consumed && ds[r.yielded[i].0 - 1] == Some(r.yielded[i].1)
    ensures StepIncreasing(r.yielded)
    decreases |ds| - k
  {
    if k == |ds| then Run(s, k, [], false)
    else if ds[k].None? then Drive(ds, k + 1, step, s)
    else
      var (s', more) := step(s, k + 1, ds[k].value);
      if !more then Run(s', k + 1, [(k + 1, ds[k].value)], true)
      else
        var rest := Drive(ds, k + 1, step, s');
        PrependYield(ds, k, rest.yielded, rest.consumed);
        Run(rest.state, rest.consumed, [(k + 1, ds[k].value)] + rest.yielded, rest.stopped)
  }

  /** Putting the row decoded at index `k` in front of the yields from `k + 1` on keeps them ordered and valid. */
  lemma PrependYield(ds: seq<Option<TransactionData>>, k: nat, rest: seq<Yield>, consumed: nat)
    requires k < |ds| && ds[k].Some? && k + 1 <= consumed <= |ds|
    requires forall i :: 0 <= i < |rest| ==>
      k + 2 <= rest[i].0 <= consumed && ds[rest[i].0 - 1] == Some(rest[i].1)
    requires StepIncreasing(rest)
    ensures var ys := [(k + 1, ds[k].value)] + rest;
      && (forall i :: 0 <= i < |ys| ==> k + 1 <= ys[i].0 <= consumed && ds[ys[i].0 - 1] == Some(ys[i].1))
      && StepIncreasing(ys)
      && (|rest| > 0 ==> LastRow(ys) == LastRow(rest))
  {
    var ys := [(k + 1, ds[k].value)] + rest;
    forall i | 1 <= i < |ys|
      ensures ys[i] == rest[i - 1]
    {
    }
  }

  /** One step of `Drive` at a decoded record: the consumer's state goes on to the rest, unless it stopped. */
  lemma DriveStep<S>(ds: seq<Option<TransactionData>>, k: nat, step: (S, int, TransactionData) -> (S, bool), s: S)
    requires k < |ds| && ds[k].Some?
    ensures var q := step(s, k + 1, ds[k].value);
      Drive(ds, k, step, s).state == (if q.1 then Drive(ds, k + 1, step, q.0).state else q.0)
  {
  }

  /**
   * The rows handed to the consumer are exactly the decoded records up
   * to where it stopped, in file order: none skipped, none repeated.
   */
  lemma {:induction false} DriveYieldsDecodable<S>(ds: seq<Option<TransactionData>>, k: nat, step: (S, int, TransactionData) -> (S, bool), s: S)
    requires k <= |ds|
    ensures var r := Drive(ds, k, step, s);
      r.yielded == Decodable(ds, k, r.consumed)
    decreases |ds| - k
  {
    if k < |ds| {
      if ds[k].None? {
        DriveYieldsDecodable(ds, k + 1, step, s);
      } else {
        var (s', more) := step(s, k + 1, ds[k].value);
        if more {
          DriveYieldsDecodable(ds, k + 1, step, s');
        }
      }
    }
  }

  lemma {:induction false} NeverStops<S>(ds: seq<Option<TransactionData>>, k: nat, step: (S, int, TransactionData) -> (S, bool), s: S)
    requires k <= |ds|
    requires forall x, row, td :: step(x, row, td).1
    ensures !Drive(ds, k, step, s).stopped
    decreases |ds| - k
  {
    if k < |ds| {
      if ds[k].None? {
        NeverStops(ds, k + 1, step, s);
      } else {
        NeverStops(ds, k + 1, step, step(s, k + 1, ds[k].value).0);
      }
    }
  }

  /** A consumer that never stops sees every decodable record of the file. */
  lemma DriveToEnd<S>(ds: seq<Option<TransactionData>>, step: (S, int, TransactionData) -> (S, bool), s: S)
    requires forall x, row, td :: step(x, row, td).1
    ensures var r := Drive(ds, 0, step, s);
      !r.stopped && r.yielded == Decodable(ds, 0, |ds|)
  {
    DriveYieldsDecodable(ds, 0, step, s);
    NeverStops(ds, 0, step, s);
  }

  /** The whole sequence of a successful `ParseAll`, run against a consumer. */
  function Iterate<S>(src: RowSource, parseFloat: FloatParser, step: (S, int, TransactionData) -> (S, bool), s: S): (r: Run<S>)
    requires WellFormed(src)
    ensures r.consumed <= |src.rows|
    ensures forall i :: 0 <= i < |r.yielded| ==>
      var row := r.yielded[i].0;
      1 <= row <= |src.rows| && src.rows[row - 1].Record?
      && ParseRow(src.columns, src.rows[row - 1].fields, row, Nil, parseFloat) == Ok(r.yielded[i].1)
    ensures StrictlyIncreasing(r.yielded)
    ensures r.yielded == Decodable(DecodeAll(src, parseFloat), 0, r.consumed)
  {
    var ds := DecodeAll(src, parseFloat);
    DriveYieldsDecodable(ds, 0, step, s);
    StepIncreasingIsStrict(Drive(ds, 0, step, s).yielded);
    Drive(ds, 0, step, s)
  }

  /** A sequence produced by `ParseAll` over a stream of same-width records is well formed. */
  lemma ParseAllWellFormed(p: IngParser, stream: seq<ReadOutcome>)
    requires |stream| > 0 && stream[0].Record? && |stream[0].fields| >= 1
    requires SameWidth(|stream[0].fields|, stream[1..])
    ensures ParseAll(p, stream).Ok? && WellFormed(ParseAll(p, stream).value)
  {
  }

  /** `NewIngParser` of internal/parser: an empty header map. */
  function NewIngParser(): (p: IngParser)
    ensures |p.headerToColumn| == 0
  {
    IngParser(map[])
  }

  /** `CreateCsvParser`: the ING parser for "ING", otherwise an error naming the vendor. */
  function CreateCsvParser(id: VendorName): (r: Result<IngParser, string>)
    ensures r.Ok? <==> id == VendorIng
    ensures r.Ok? ==> |r.value.headerToColumn| == 0
    ensures r.Err? ==> EndsWith(r.error, id) && |r.error| > |id|
  {
    if id == VendorIng then Ok(NewIngParser())
    else Err("unsupported vendor ID: " + id)
  }

  /**
   * The factory's answer identifies the vendor: two vendor IDs get the
   * same parser or the same error exactly when they are the same ID, and
   * a success is always a fresh ING parser.
   */
  lemma CreateCsvParserIdentifiesVendor(a: VendorName, b: VendorName)
    ensures CreateCsvParser(a) == CreateCsvParser(b) <==> a == b
    ensures CreateCsvParser(a).Ok? ==> CreateCsvParser(a).value == NewIngParser()
  {
  }

  /** The ING parser of internal/app/vendors, with its fixed title/field tables. */
  datatype VendorIngParser = VendorIngParser(
    headerToField: map<string, Field>,
    headerToColumn: HeaderMap,
    fieldToHeader: map<Field, string>)

  const IngHeaderToField: map<string, Field> := map[
    ColumnDate := FieldDate,
    ColumnDescription := FieldDescription,
    ColumnNotes := FieldNote,
    ColumnAmount := FieldAmount,
    ColumnDirection := FieldDirection]

  const IngFieldToHeader: map<Field, string> := map[
    FieldDate := ColumnDate,
    FieldDescription := ColumnDescription,
    FieldNote := ColumnNotes,
    FieldAmount := ColumnAmount,
    FieldDirection := ColumnDirection]

  /** `NewIngParser` of internal/app/vendors. */
  function NewVendorIngParser(): (p: VendorIngParser)
    ensures |p.headerToColumn| == 0
    ensures p.headerToField == IngHeaderToField && p.fieldToHeader == IngFieldToHeader
  {
    VendorIngParser(IngHeaderToField, map[], IngFieldToHeader)
  }

  /** The two tables are inverse to each other over the five ING columns; source has no column. */
  lemma FieldTablesInverse()
    ensures forall h :: h in IngHeaderToField ==>
      IngHeaderToField[h] in IngFieldToHeader && IngFieldToHeader[IngHeaderToField[h]] == h
    ensures forall f :: f in IngFieldToHeader ==>
      IngFieldToHeader[f] in IngHeaderToField && IngHeaderToField[IngFieldToHeader[f]] == f
    ensures |IngFieldToHeader.Keys| == 5 && FieldSource !in IngFieldToHeader
  {
    assert ColumnAmount[0] != ColumnDirection[0];
    assert IngHeaderToField.Keys == {ColumnDate, ColumnDescription, ColumnNotes, ColumnAmount, ColumnDirection};
    forall h | h in IngHeaderToField
      ensures IngHeaderToField[h] in IngFieldToHeader && IngFieldToHeader[IngHeaderToField[h]] == h
    {
      assert h == ColumnDate || h == ColumnDescription || h == ColumnNotes || h == ColumnAmount || h == ColumnDirection;
    }
    assert IngFieldToHeader.Keys == {FieldDate, FieldDescription, FieldNote, FieldAmount, FieldDirection};
  }

  /** `SetHeader`: replaces the header map, keeping the title tables. */
  function SetHeader(p: VendorIngParser, headers: seq<string>): (q: VendorIngParser)
    ensures q.headerToColumn == HeaderMapOf(headers)
    ensures q.headerToField == p.headerToField && q.fieldToHeader == p.fieldToHeader
  {
    p.(headerToColumn := HeaderMapOf(headers))
  }
}
