/**
 * Import records: one uploaded statement file waiting for, or done with,
 * processing (internal/importer/import.go, and internal/domain/import.go
 * whose `Import` carries the whole vendor instead of its ID).
 */
module Imports {
  import opened Uuids
  import opened Dates
  import opened Vendors

  datatype ImportStatus = Pending | InProgress | Completed | Failed

  /** The text stored in the `status` column. */
  function StatusText(s: ImportStatus): string {
    match s
    case Pending => "pending"
    case InProgress => "in_progress"
    case Completed => "completed"
    case Failed => "failed"
  }

  /** The status column determines the status. */
  lemma StatusTextInjective(a: ImportStatus, b: ImportStatus)
    ensures StatusText(a) == StatusText(b) <==> a == b
  {
    if a != b {
      assert StatusText(a)[0] != StatusText(b)[0] || |StatusText(a)| != |StatusText(b)|;
    }
  }

  /** `importer.Import`, field for field the same as the `imports` row (`ImportRecord`). */
  datatype ImportRecord = ImportRecord(
    id: Uuid,
    createdAt: Date,
    updatedAt: Date,
    vendorId: Uuid,
    path: string,
    status: ImportStatus,
    statusMsg: string,
    duplicates: int,
    totalRows: int,
    imported: int,
    failed: int)

  /** `domain.Import`: the same, holding the vendor itself. */
  datatype Import = Import(
    id: Uuid,
    createdAt: Date,
    updatedAt: Date,
    vendor: Vendor,
    path: string,
    status: ImportStatus,
    statusMsg: string,
    duplicates: int,
    totalRows: int,
    imported: int,
    failed: int)

  /** A freshly created import: pending, no message, all counters zero. */
  predicate IsFresh(imp: ImportRecord) {
    imp.status == Pending && imp.statusMsg == ""
    && imp.duplicates == 0 && imp.totalRows == 0 && imp.imported == 0 && imp.failed == 0
  }

  /** The fields no transition may touch. */
  predicate SameIdentity(a: ImportRecord, b: ImportRecord) {
    a.id == b.id && a.createdAt == b.createdAt && a.vendorId == b.vendorId && a.path == b.path
  }

  predicate SameCounters(a: ImportRecord, b: ImportRecord) {
    a.duplicates == b.duplicates && a.totalRows == b.totalRows
    && a.imported == b.imported && a.failed == b.failed
  }

  /** `importer.NewImport`: the fresh UUID and the clock reading are parameters. */
  function NewImportRecord(id: Uuid, now: Date, v: Vendor, path: string): (imp: ImportRecord)
    ensures IsFresh(imp)
    ensures imp.id == id && imp.vendorId == v.id && imp.path == path
    ensures imp.createdAt == now && imp.updatedAt == now
  {
    ImportRecord(id, now, now, v.id, path, Pending, "", 0, 0, 0, 0)
  }

  /** `domain.NewImport`: as above, keeping the vendor as passed. */
  function NewImport(id: Uuid, now: Date, v: Vendor, path: string): (imp: Import)
    ensures imp.status == Pending && imp.statusMsg == ""
    ensures imp.duplicates == 0 && imp.totalRows == 0 && imp.imported == 0 && imp.failed == 0
    ensures imp.id == id && imp.vendor == v && imp.path == path
    ensures imp.createdAt == now && imp.updatedAt == now
  {
    Import(id, now, now, v, path, Pending, "", 0, 0, 0, 0)
  }

  /** `MarkInProgress`: only the status and the update time change. */
  function MarkInProgress(imp: ImportRecord, now: Date): (r: ImportRecord)
    ensures r.status == InProgress && r.updatedAt == now
    ensures SameIdentity(r, imp) && SameCounters(r, imp) && r.statusMsg == imp.statusMsg
  {
    imp.(status := InProgress, updatedAt := now)
  }

  /**
   * `MarkCompleted(duplicates, totalRows, imported, failed)`: completed, the
   * four counters taken from the arguments in that order, message untouched.
   */
  function MarkCompleted(imp: ImportRecord, now: Date, duplicates: int, totalRows: int, imported: int, failed: int): (r: ImportRecord)
    ensures r.status == Completed && r.updatedAt == now
    ensures r.duplicates == duplicates && r.totalRows == totalRows
    ensures r.imported == imported && r.failed == failed
    ensures SameIdentity(r, imp) && r.statusMsg == imp.statusMsg
  {
    imp.(status := Completed, updatedAt := now, duplicates := duplicates, totalRows := totalRows,
         imported := imported, failed := failed)
  }

  /** `MarkFailed(msg)`: failed with the message, counters untouched. */
  function MarkFailed(imp: ImportRecord, now: Date, msg: string): (r: ImportRecord)
    ensures r.status == Failed && r.updatedAt == now && r.statusMsg == msg
    ensures SameIdentity(r, imp) && SameCounters(r, imp)
  {
    imp.(status := Failed, updatedAt := now, statusMsg := msg)
  }

  /**
   * None of the transitions reads the current status: applied to two
   * imports that differ only in status they give the same result, so even
   * a completed or failed import can be moved to any other status.
   */
  lemma MarksIgnoreStatus(imp: ImportRecord, s: ImportStatus, now: Date, msg: string, d: int, t: int, i: int, f: int)
    ensures MarkInProgress(imp.(status := s), now) == MarkInProgress(imp, now)
    ensures MarkCompleted(imp.(status := s), now, d, t, i, f) == MarkCompleted(imp, now, d, t, i, f)
    ensures MarkFailed(imp.(status := s), now, msg) == MarkFailed(imp, now, msg)
  {
  }
}
