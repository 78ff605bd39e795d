/**
 * The transactions table as the core uses it: insert with a unique
 * checksum (internal/storage/sqlx_transaction_store.go), the untagged
 * query of the tagger, and the tag update. Rows are kept in insertion
 * order.
 */
module TxStore {
  import opened Wrappers
  import opened Text
  import opened Uuids
  import opened Dates
  import opened Transactions
  import opened Mapper

  /** The table rows, in insertion order. */
  datatype Store = Store(rows: seq<Transaction>)

  /**
   * Why an insert failed: the unique checksum key, or any other error the
   * database driver reports, whose text is the cause.
   */
  datatype CreateError = Duplicate | WriteFailed(cause: string)

  /** The error text `Create` returns: the sentinel, or the driver error behind the store's prefix. */
  function CreateErrorText(e: CreateError): (s: string)
    ensures e.Duplicate? <==> s == "duplicate transaction"
    ensures e.WriteFailed? ==> EndsWith(s, e.cause) && |s| > |e.cause|
  {
    match e
    case Duplicate => "duplicate transaction"
    case WriteFailed(c) =>
      var s := "sqlx_transaction_store: failed to save transaction: " + c;
      assert s[|s| - |c|..] == c;
      s
  }

  /** The `transactions_checksum_key` constraint. */
  predicate UniqueChecksums(st: Store) {
    forall i, j :: 0 <= i < j < |st.rows| ==> st.rows[i].checksum != st.rows[j].checksum
  }

  predicate HasChecksum(st: Store, c: string) {
    exists i :: 0 <= i < |st.rows| && st.rows[i].checksum == c
  }

  /**
   * `Create` of the older tree, inserting all fourteen columns. `fault` is
   * the error the database raises for this one statement other than the
   * unique-key violation (a lost connection, say), if it raises one; the
   * statement then fails before the key is checked. Otherwise a row with
   * the same checksum makes it `ErrDuplicateTransaction`, and a new
   * checksum is appended.
   */
  function Create(st: Store, t: Transaction, fault: Option<string>): (r: (Store, Option<CreateError>))
    ensures fault.Some? ==> r == (st, Some(WriteFailed(fault.value)))
    ensures fault.None? && HasChecksum(st, t.checksum) ==> r == (st, Some(Duplicate))
    ensures r.1.None? <==> fault.None? && !HasChecksum(st, t.checksum)
    ensures r.1.None? ==> r.0 == Store(st.rows + [t])
    ensures UniqueChecksums(st) ==> UniqueChecksums(r.0)
  {
    if fault.Some? then (st, Some(WriteFailed(fault.value)))
    else if HasChecksum(st, t.checksum) then (st, Some(Duplicate))
    else (Store(st.rows + [t]), None)
  }

  /**
   * `Create` of the newer tree: the transaction goes through
   * `fromDomainTransaction` first, so only its eleven mapped columns are
   * stored; the checksum and the error behaviour are the same.
   */
  function CreateMapped(st: Store, t: Transaction, fault: Option<string>): (r: (Store, Option<CreateError>))
    ensures r.1 == Create(st, t, fault).1
    ensures r.1.None? ==> r.0 == Store(st.rows + [FromDomainTransaction(t)]) && r.0.rows[|st.rows|].checksum == t.checksum
    ensures r.1.Some? ==> r.0 == st
    ensures UniqueChecksums(st) ==> UniqueChecksums(r.0)
  {
    Create(st, FromDomainTransaction(t), fault)
  }

  /**
   * Inserting the same transaction again right after it succeeded leaves
   * the table as it is: a duplicate, unless the database fails the second
   * statement for another reason.
   */
  lemma CreateTwiceIsDuplicate(st: Store, t: Transaction, fault: Option<string>, fault': Option<string>)
    requires Create(st, t, fault).1.None?
    ensures var st' := Create(st, t, fault).0;
      Create(st', t, fault') == (st', Some(if fault'.Some? then WriteFailed(fault'.value) else Duplicate))
  {
    var st' := Create(st, t, fault).0;
    assert st'.rows[|st.rows|] == t;
  }

  /** `tag IS NULL OR tag = ''`. */
  predicate Untagged(t: Transaction) {
    t.tag == ""
  }

  /**
   * The index `FetchUntagged(1, 1)` returns: an untagged row with the
   * latest date (`ORDER BY date DESC LIMIT 1`), the earliest such row on a tie.
   */
  function NewestUntagged(rows: seq<Transaction>): (r: Option<nat>)
    ensures r.None? <==> forall j :: 0 <= j < |rows| ==> !Untagged(rows[j])
    ensures r.Some? ==> r.value < |rows| && Untagged(rows[r.value])
    ensures r.Some? ==> forall j :: 0 <= j < |rows| && Untagged(rows[j]) ==>
      Instant(rows[j].date) <= Instant(rows[r.value].date)
  {
    if |rows| == 0 then None
    else
      var n := |rows| - 1;
      var prev := NewestUntagged(rows[..n]);
      assert forall j :: 0 <= j < n ==> rows[..n][j] == rows[j];
      if !Untagged(rows[n]) then prev
      else if prev.Some? && Instant(rows[n].date) <= Instant(rows[prev.value].date) then prev
      else Some(n)
  }

  /** `FetchUntagged(ctx, 1, 1)` on the table: at most one row. */
  function FetchNewestUntagged(st: Store): (r: seq<Transaction>)
    ensures |r| <= 1
    ensures |r| == 0 <==> forall j :: 0 <= j < |st.rows| ==> !Untagged(st.rows[j])
    ensures |r| == 1 ==> Untagged(r[0]) && r[0] in st.rows
  {
    match NewestUntagged(st.rows)
    case None => []
    case Some(i) => [st.rows[i]]
  }

  /** `Tag`: `UPDATE … SET tag, updated_at WHERE id = …`, a no-op for an unknown ID. */
  function Tag(st: Store, id: Uuid, tag: string, now: Date): (st': Store)
    ensures |st'.rows| == |st.rows|
    ensures forall i :: 0 <= i < |st.rows| ==>
      st'.rows[i] == (if st.rows[i].id == id then st.rows[i].(tag := tag, updatedAt := now) else st.rows[i])
  {
    Store(seq(|st.rows|, i requires 0 <= i < |st.rows| =>
            if st.rows[i].id == id then st.rows[i].(tag := tag, updatedAt := now) else st.rows[i]))
  }

  /** Tagging never changes a checksum, so it keeps the unique-checksum constraint. */
  lemma TagKeepsChecksums(st: Store, id: Uuid, tag: string, now: Date)
    requires UniqueChecksums(st)
    ensures UniqueChecksums(Tag(st, id, tag, now))
    ensures forall i :: 0 <= i < |st.rows| ==> Tag(st, id, tag, now).rows[i].checksum == st.rows[i].checksum
  {
  }

  /** `st'` is `st` with rows appended. */
  predicate Grows(st: Store, st': Store) {
    |st.rows| <= |st'.rows| && st'.rows[..|st.rows|] == st.rows
  }

  /** A grown table still holds every checksum it held. */
  lemma GrowsKeepsChecksum(st: Store, st': Store, c: string)
    requires Grows(st, st') && HasChecksum(st, c)
    ensures HasChecksum(st', c)
  {
    var i :| 0 <= i < |st.rows| && st.rows[i].checksum == c;
    assert st'.rows[..|st.rows|][i] == st'.rows[i];
  }

  lemma GrowsTransitive(a: Store, b: Store, c: Store)
    requires Grows(a, b) && Grows(b, c)
    ensures Grows(a, c)
  {
    assert c.rows[..|a.rows|] == c.rows[..|b.rows|][..|a.rows|];
  }
}
