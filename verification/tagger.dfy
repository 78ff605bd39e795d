/**
 * One tick of the tagging job (internal/jobs/tagger.go): poll for the
 * newest untagged transaction, back off exponentially while there is
 * none, and fall back to the tag "unk" when the tagging agent fails so
 * that one transaction cannot block the queue. Intervals are
 * `time.Duration` values: nanoseconds in a signed 64-bit integer.
 */
module Tagger {
  import opened Wrappers
  import opened Uuids
  import opened Dates
  import opened Transactions
  import opened TxStore

  const Minute: int := 60_000_000_000
  const Int64Bound: int := 0x8000_0000_0000_0000

  /** Two's-complement wrap-around of a 64-bit signed integer. */
  function Int64(x: int): (r: int)
    ensures -Int64Bound <= r < Int64Bound
    ensures -Int64Bound <= x < Int64Bound ==> r == x
  {
    (x + Int64Bound) % (2 * Int64Bound) - Int64Bound
  }

  /** `interval *= 2`, then the cap at one minute. */
  function Backoff(interval: int): (r: int)
    ensures r <= Minute
    ensures 0 < interval < Int64Bound / 2 ==> r == Min(2 * interval, Minute)
    ensures 0 < interval < Int64Bound / 2 ==> 0 < r
  {
    var doubled := Int64(interval * 2);
    if doubled > Minute then Minute else doubled
  }

  function Min(a: int, b: int): int {
    if a <= b then a else b
  }

  function Max(a: int, b: int): int {
    if a <= b then b else a
  }

  function Pow2(k: nat): (p: nat)
    ensures p >= 1
  {
    if k == 0 then 1 else 2 * Pow2(k - 1)
  }

  /** What one tick did with the transaction it picked up. */
  datatype Handled = Idle | AgentTagged(id: Uuid) | FallbackTagged(id: Uuid)

  /**
   * One tick. `fetchFault` is an error of `FetchUntagged` (its nil slice
   * counts as an empty poll), `agentOk` the outcome of `RunTagAgent`,
   * whose own tag write is outside this model, and `tagFault` an error
   * of the fallback `Tag`, which is ignored.
   */
  function Tick(interval: int, df: int, st: Store, fetchFault: bool, agentOk: bool, tagFault: bool, now: Date): (r: (int, Store, Handled))
    ensures fetchFault || |FetchNewestUntagged(st)| == 0 ==> r == (Backoff(interval), st, Idle)
    ensures !fetchFault && |FetchNewestUntagged(st)| == 1 ==>
      var t := FetchNewestUntagged(st)[0];
      && r.0 == df
      && Untagged(t) && t in st.rows
      && (agentOk ==> r.1 == st && r.2 == AgentTagged(t.id))
      && (!agentOk ==> r.2 == FallbackTagged(t.id) && r.1 == (if tagFault then st else Tag(st, t.id, "unk", now)))
  {
    var untagged := if fetchFault then [] else FetchNewestUntagged(st);
    if |untagged| == 0 then (Backoff(interval), st, Idle)
    else
      var t := untagged[0];
      if agentOk then (df, st, AgentTagged(t.id))
      else (df, if tagFault then st else Tag(st, t.id, "unk", now), FallbackTagged(t.id))
  }

  /** The interval after `k` empty polls in a row, starting from `df`. */
  function Backoffs(df: int, k: nat): int {
    if k == 0 then df else Backoff(Backoffs(df, k - 1))
  }

  /**
   * After k ≥ 1 empty polls the interval is df·2^k capped at one minute,
   * for every default that does not itself overflow when doubled.
   */
  lemma {:induction false} BackoffsClosedForm(df: int, k: nat)
    requires 0 < df < Int64Bound / 2 && k >= 1
    ensures Backoffs(df, k) == Min(df * Pow2(k), Minute)
  {
    if k > 1 {
      BackoffsClosedForm(df, k - 1);
      var prev := Backoffs(df, k - 1);
      assert 0 < prev <= Minute;
      assert df * Pow2(k) == 2 * (df * Pow2(k - 1));
    }
  }

  /** The interval never exceeds the larger of the default and one minute, and stays positive. */
  lemma BackoffsBounded(df: int, k: nat)
    requires 0 < df < Int64Bound / 2
    ensures 0 < Backoffs(df, k) <= Max(df, Minute)
  {
    if k >= 1 {
      BackoffsClosedForm(df, k);
      assert df * Pow2(k) >= df;
    }
  }

  /**
   * Every tick keeps the interval within (0, max(df, one minute)], so the
   * ticker is never reset to a non-positive duration.
   */
  lemma TickKeepsInterval(interval: int, df: int, st: Store, fetchFault: bool, agentOk: bool, tagFault: bool, now: Date)
    requires 0 < df < Int64Bound / 2 && 0 < interval <= Max(df, Minute)
    ensures var r := Tick(interval, df, st, fetchFault, agentOk, tagFault, now);
      0 < r.0 <= Max(df, Minute)
  {
  }

  /** The number of untagged rows. */
  function UntaggedCount(rows: seq<Transaction>): (n: nat)
    ensures n <= |rows|
  {
    if |rows| == 0 then 0 else (if Untagged(rows[0]) then 1 else 0) + UntaggedCount(rows[1..])
  }

  /** Tagging untagged rows with a non-empty tag: the count drops by at least one when the ID names one. */
  lemma {:induction false} TagShrinksUntagged(rows: seq<Transaction>, id: Uuid, tag: string, now: Date)
    requires tag != ""
    ensures var rows' := Tag(Store(rows), id, tag, now).rows;
      && UntaggedCount(rows') <= UntaggedCount(rows)
      && ((exists i :: 0 <= i < |rows| && rows[i].id == id && Untagged(rows[i])) ==> UntaggedCount(rows') < UntaggedCount(rows))
  {
    if |rows| > 0 {
      var rows' := Tag(Store(rows), id, tag, now).rows;
      TagShrinksUntagged(rows[1..], id, tag, now);
      assert rows'[1..] == Tag(Store(rows[1..]), id, tag, now).rows;
      if exists i :: 0 <= i < |rows| && rows[i].id == id && Untagged(rows[i]) {
        var i :| 0 <= i < |rows| && rows[i].id == id && Untagged(rows[i]);
        if i > 0 {
          assert rows[1..][i - 1] == rows[i];
        }
      }
    }
  }

  /**
   * A tick that hands a transaction to a failing agent makes progress: the
   * fallback tag leaves one untagged transaction fewer, so the next poll
   * does not see the same row again.
   */
  lemma FallbackMakesProgress(interval: int, df: int, st: Store, now: Date)
    requires !(forall j :: 0 <= j < |st.rows| ==> !Untagged(st.rows[j]))
    ensures var r := Tick(interval, df, st, false, false, false, now);
      UntaggedCount(r.1.rows) < UntaggedCount(st.rows)
  {
    var t := FetchNewestUntagged(st)[0];
    var i :| 0 <= i < |st.rows| && st.rows[i] == t;
    TagShrinksUntagged(st.rows, t.id, "unk", now);
    assert Tag(Store(st.rows), t.id, "unk", now).rows == Tag(st, t.id, "unk", now).rows;
  }
}
