/**
 * The transaction factory and its checksum (internal/transaction and its
 * copy internal/domain). A transaction's checksum is the lowercase hex
 * form of SHA-256 over a payload of eight text fields joined with the
 * ASCII Unit Separator. SHA-256 itself is a parameter `hash`: nothing is
 * assumed about it beyond its 32-byte output, so every statement about
 * distinct checksums is made about distinct payloads instead.
 */
module Transactions {
  import opened Wrappers
  import opened Text
  import opened Format
  import opened Uuids
  import opened Dates

  /** A float64 as the guard sees it: NaN, the two infinities, or a finite value. */
  datatype Float = NaN | PosInf | NegInf | Finite(value: real)

  /** `CashFlowDirection` is any string; only these two are produced by the parsers. */
  type Direction = string

  const CashIn: Direction := "in"
  const CashOut: Direction := "out"

  /** A SHA-256 digest (section 6.2 of FIPS 180-4): 32 bytes. */
  type Digest = s: seq<Byte> | |s| == 32
    witness [0, 0, 0, 0, 0, 0, 0, 0, 0, 0, 0, 0, 0, 0, 0, 0, 0, 0, 0, 0, 0, 0, 0, 0, 0, 0, 0, 0, 0, 0, 0, 0]

  /** SHA-256 of the UTF-8 bytes of a string, supplied by the caller. */
  type Hasher = string -> Digest

  /** The package's sentinel errors. */
  datatype TxError =
    | ErrDuplicateTransaction
    | ErrInvalidAmount
    | ErrUnsupportedDirection
    | ErrNoTransactionFound

  /** The stored transaction, with all fourteen columns. */
  datatype Transaction = Transaction(
    id: Uuid,
    description: string,
    note: string,
    source: string,
    amountCents: int,
    direction: Direction,
    date: Date,
    checksum: string,
    createdAt: Date,
    updatedAt: Date,
    tag: string,
    rowNumber: int,
    ignored: bool,
    importId: Uuid)

  /** The guard of `NewTransaction`: not NaN, not infinite, not negative. */
  predicate ValidAmount(amount: Float) {
    amount.Finite? && amount.value >= 0.0
  }

  /**
   * `amount * 100` evaluated in float64: the exact product rounded to a
   * float64. IEEE 754 rounding is not modelled; the caller supplies it.
   */
  type Scaler = real -> real

  /** Go's conversion of a float to an integer: the fraction is cut off toward zero. */
  function Truncate(x: real): (n: int)
    ensures x >= 0.0 ==> n >= 0 && n as real <= x < n as real + 1.0
    ensures x < 0.0 ==> n <= 0 && n as real - 1.0 < x <= n as real
  {
    if x >= 0.0 then x.Floor else -((-x).Floor)
  }

  /** `int64(amount * 100)`: the float64 product with its fraction cut off. */
  function Cents(times100: Scaler, amount: real): (c: int)
    ensures times100(amount) >= 0.0 ==> c >= 0 && c as real <= times100(amount) < c as real + 1.0
    ensures times100(amount) < 0.0 ==> c <= 0 && c as real - 1.0 < times100(amount) <= c as real
  {
    Truncate(times100(amount))
  }

  /**
   * The float64 `f == m·ulp` nearest to `x`, where `x` lies in the binade
   * `[2^52·ulp, 2^53·ulp)` whose spacing is `ulp`: `m` is a 53-bit
   * significand and `x` is less than half an ulp away.
   */
  predicate NearestFloat64(x: real, f: real, m: int, ulp: real) {
    && ulp > 0.0 && 4503599627370496.0 * ulp <= x < 9007199254740992.0 * ulp
    && 4503599627370496 <= m < 9007199254740992 && f == m as real * ulp
    && -(ulp / 2.0) < x - f < ulp / 2.0
  }

  /** The float64 that `0.29` parses to: 5224175567749775·2^-54. */
  const Float029: real := 5224175567749775.0 / 18014398509481984.0

  /** The float64 product `Float029 * 100`: 8162774324609023·2^-48, one ulp below 29. */
  const Product029: real := 8162774324609023.0 / 281474976710656.0

  /** Both constants are the correctly rounded float64 values they stand for. */
  lemma Float029Rounding()
    ensures NearestFloat64(0.29, Float029, 5224175567749775, 1.0 / 18014398509481984.0)
    ensures NearestFloat64(Float029 * 100.0, Product029, 8162774324609023, 1.0 / 281474976710656.0)
    ensures Product029 < 29.0
  {
  }

  /**
   * An amount of `0,29` is stored as 28 cents: the float64 product lies
   * just below 29 and the conversion cuts it down, although the amount
   * has exactly 29 cents. Rounding to the nearest cent gives 29.
   */
  lemma PointTwentyNineLosesACent(times100: Scaler)
    requires times100(Float029) == Product029
    ensures Cents(times100, Float029) == 28
    ensures CentsRounded(times100, Float029) == 29
  {
    Float029Rounding();
  }

  /**
   * The evidently intended conversion: the float64 product rounded to the
   * nearest whole cent (`math.Round(amount * 100)`), so a product within
   * half a cent of a whole number of cents gives exactly that number.
   */
  function CentsRounded(times100: Scaler, amount: real): (c: int)
    ensures c as real - 0.5 <= times100(amount) < c as real + 0.5
  {
    (times100(amount) + 0.5).Floor
  }

  /** A product within half a cent of `n` whole cents rounds to exactly `n`. */
  lemma CentsRoundedRecovers(times100: Scaler, amount: real, n: int)
    requires n as real - 0.5 <= times100(amount) < n as real + 0.5
    ensures CentsRounded(times100, amount) == n
  {
  }

  /** The eight payload fields, in payload order. */
  function PayloadFields(t: Transaction): (fs: seq<string>)
    ensures |fs| == 8
  {
    [ TrimSpace(t.description), TrimSpace(t.note), TrimSpace(t.source), t.direction,
      FormatInt(t.amountCents, 0), FormatYYYYMMDD(t.date), FormatInt(t.rowNumber, 0),
      UuidString(t.importId) ]
  }

  /** The text that is hashed: the payload fields joined with U+001F. */
  function Payload(t: Transaction): string {
    Join(PayloadFields(t), UnitSeparator)
  }

  /** `generateChecksum`: hex of the SHA-256 digest of the payload. */
  function Checksum(hash: Hasher, t: Transaction): (c: string)
    ensures |c| == 64
    ensures forall i :: 0 <= i < |c| ==> IsHexDigit(c[i])
    ensures HexDecode(c) == hash(Payload(t))
  {
    var c := HexEncode(hash(Payload(t)));
    HexRoundTrip(hash(Payload(t)));
    c
  }

  /**
   * `NewTransaction`. The fresh UUID, the clock reading and the float64
   * product by 100 are parameters.
   * The only check is the amount guard; the direction is never examined.
   */
  function NewTransaction(
    hash: Hasher, times100: Scaler, id: Uuid, now: Date,
    desc: string, note: string, source: string, direction: Direction,
    amount: Float, date: Date, rowNumber: int, importId: Uuid): (r: Result<Transaction, TxError>)
    ensures r.Err? <==> !ValidAmount(amount)
    ensures r.Err? ==> r.error == ErrInvalidAmount
    ensures r.Ok? ==>
      var t := r.value;
      && t.id == id && t.description == desc && t.note == note && t.source == source
      && t.direction == direction && t.date == date && t.rowNumber == rowNumber
      && t.importId == importId && t.createdAt == now && t.updatedAt == now
      && t.tag == "" && !t.ignored
      && t.amountCents == Truncate(times100(amount.value))
      && t.checksum == Checksum(hash, t)
  {
    if !ValidAmount(amount) then Err(ErrInvalidAmount)
    else
      var t := Transaction(id, desc, note, source, Cents(times100, amount.value), direction, date,
                           "", now, now, "", rowNumber, false, importId);
      Ok(t.(checksum := Checksum(hash, t)))
  }

  /** The free-text fields that reach the payload contain no separator. */
  predicate HashableText(t: Transaction) {
    SeparatorFree(t.description) && SeparatorFree(t.note) && SeparatorFree(t.source)
    && SeparatorFree(t.direction)
  }

  /**
   * What the payload is a function of: the trimmed texts, the direction,
   * the cents, the calendar day, the row number and the import.
   */
  predicate SamePayloadKey(a: Transaction, b: Transaction) {
    && TrimSpace(a.description) == TrimSpace(b.description)
    && TrimSpace(a.note) == TrimSpace(b.note)
    && TrimSpace(a.source) == TrimSpace(b.source)
    && a.direction == b.direction
    && a.amountCents == b.amountCents
    && SameDay(a.date, b.date)
    && a.rowNumber == b.rowNumber
    && a.importId == b.importId
  }

  /** Text made of digits, hex digits and '-' never contains the separator. */
  lemma NumericTextSeparatorFree(s: string)
    requires forall i :: 0 <= i < |s| ==> IsHexDigit(s[i]) || s[i] == '-'
    ensures SeparatorFree(s)
  {
    forall i | 0 <= i < |s|
      ensures s[i] != UnitSeparator
    {
      assert IsHexDigit(s[i]) || s[i] == '-';
    }
  }

  /** Eight separator-free fields, stated per index. */
  lemma EightSeparatorFree(f0: string, f1: string, f2: string, f3: string, f4: string, f5: string, f6: string, f7: string)
    requires SeparatorFree(f0) && SeparatorFree(f1) && SeparatorFree(f2) && SeparatorFree(f3)
    requires SeparatorFree(f4) && SeparatorFree(f5) && SeparatorFree(f6) && SeparatorFree(f7)
    ensures var fs := [f0, f1, f2, f3, f4, f5, f6, f7];
      forall i :: 0 <= i < 8 ==> UnitSeparator !in fs[i]
  {
  }

  /** The generated fields (cents, date, row number, import ID) never contain the separator. */
  lemma GeneratedFieldsSeparatorFree(t: Transaction)
    ensures SeparatorFree(FormatInt(t.amountCents, 0)) && SeparatorFree(FormatYYYYMMDD(t.date))
    ensures SeparatorFree(FormatInt(t.rowNumber, 0)) && SeparatorFree(UuidString(t.importId))
  {
    NumericTextSeparatorFree(FormatInt(t.amountCents, 0));
    NumericTextSeparatorFree(FormatYYYYMMDD(t.date));
    NumericTextSeparatorFree(FormatInt(t.rowNumber, 0));
    NumericTextSeparatorFree(UuidString(t.importId));
  }

  /** Every payload field of a transaction with separator-free text is separator-free. */
  lemma PayloadFieldsSeparatorFree(t: Transaction)
    requires HashableText(t)
    ensures forall i :: 0 <= i < 8 ==> UnitSeparator !in PayloadFields(t)[i]
  {
    var d, n, src := TrimSpace(t.description), TrimSpace(t.note), TrimSpace(t.source);
    var c, dt, row, imp := FormatInt(t.amountCents, 0), FormatYYYYMMDD(t.date), FormatInt(t.rowNumber, 0), UuidString(t.importId);
    assert SeparatorFree(d) && SeparatorFree(n) && SeparatorFree(src) by {
      TrimSpaceSeparatorFree(t.description);
      TrimSpaceSeparatorFree(t.note);
      TrimSpaceSeparatorFree(t.source);
    }
    assert SeparatorFree(c) && SeparatorFree(dt) && SeparatorFree(row) && SeparatorFree(imp) by {
      GeneratedFieldsSeparatorFree(t);
    }
    EightSeparatorFree(d, n, src, t.direction, c, dt, row, imp);
    assert PayloadFields(t) == [d, n, src, t.direction, c, dt, row, imp];
  }

  /** The payload depends on nothing but its key: not on ID, timestamps, tag, ignored or time of day. */
  lemma PayloadDeterminedByKey(hash: Hasher, a: Transaction, b: Transaction)
    requires SamePayloadKey(a, b)
    ensures Payload(a) == Payload(b)
    ensures Checksum(hash, a) == Checksum(hash, b)
  {
    FormatYYYYMMDDInjective(a.date, b.date);
    assert PayloadFields(a) == PayloadFields(b);
  }

  /**
   * The U+001F join is injective on separator-free fields, so two
   * transactions have the same payload exactly when their keys agree.
   */
  lemma PayloadInjective(a: Transaction, b: Transaction)
    requires HashableText(a) && HashableText(b)
    ensures Payload(a) == Payload(b) <==> SamePayloadKey(a, b)
  {
    var fa, fb := PayloadFields(a), PayloadFields(b);
    if Payload(a) == Payload(b) {
      PayloadFieldsSeparatorFree(a);
      PayloadFieldsSeparatorFree(b);
      JoinInjective(fa, fb, UnitSeparator);
      assert fa[4] == fb[4] && fa[5] == fb[5] && fa[6] == fb[6] && fa[7] == fb[7];
      FormatIntInjective(a.amountCents, b.amountCents, 0);
      FormatYYYYMMDDInjective(a.date, b.date);
      FormatIntInjective(a.rowNumber, b.rowNumber, 0);
      UuidStringInjective(a.importId, b.importId);
    } else {
      FormatYYYYMMDDInjective(a.date, b.date);
    }
  }

  /**
   * Rows of different imports, or different rows of one import, never
   * share a payload: re-importing a file under a new import does not collide.
   */
  lemma DistinctRowsDistinctPayloads(a: Transaction, b: Transaction)
    requires HashableText(a) && HashableText(b)
    requires a.importId != b.importId || a.rowNumber != b.rowNumber
    ensures Payload(a) != Payload(b)
  {
    PayloadInjective(a, b);
  }

  /** Leading and trailing white space on description, note or source leaves the checksum unchanged. */
  lemma ChecksumIgnoresPadding(
    hash: Hasher, t: Transaction,
    dl: string, dr: string, nl: string, nr: string, sl: string, sr: string)
    requires AllSpace(dl) && AllSpace(dr) && AllSpace(nl) && AllSpace(nr)
    requires AllSpace(sl) && AllSpace(sr)
    ensures var u := t.(description := dl + t.description + dr, note := nl + t.note + nr,
                        source := sl + t.source + sr);
      Checksum(hash, u) == Checksum(hash, t)
  {
    var u := t.(description := dl + t.description + dr, note := nl + t.note + nr,
                source := sl + t.source + sr);
    TrimSpacePadding(dl, t.description, dr);
    TrimSpacePadding(nl, t.note, nr);
    TrimSpacePadding(sl, t.source, sr);
    PayloadDeterminedByKey(hash, u, t);
  }

  /** Two calls with the same inputs (apart from the fresh ID and clock) produce the same checksum. */
  lemma NewTransactionDeterministic(
    hash: Hasher, times100: Scaler, id1: Uuid, now1: Date, id2: Uuid, now2: Date,
    desc: string, note: string, source: string, direction: Direction,
    amount: Float, date: Date, rowNumber: int, importId: Uuid)
    requires ValidAmount(amount)
    ensures
      var r1 := NewTransaction(hash, times100, id1, now1, desc, note, source, direction, amount, date, rowNumber, importId);
      var r2 := NewTransaction(hash, times100, id2, now2, desc, note, source, direction, amount, date, rowNumber, importId);
      r1.Ok? && r2.Ok? && r1.value.checksum == r2.value.checksum
  {
    var r1 := NewTransaction(hash, times100, id1, now1, desc, note, source, direction, amount, date, rowNumber, importId);
    var r2 := NewTransaction(hash, times100, id2, now2, desc, note, source, direction, amount, date, rowNumber, importId);
    PayloadDeterminedByKey(hash, r1.value, r2.value);
  }
}
