/**
 * The storage mappers between domain values and table rows
 * (internal/infra/storage/mapper.go). Domain and row types have the
 * same fields, so both sides use one datatype; the mappers decide which
 * fields are carried over.
 */
module Mapper {
  import opened Uuids
  import opened Dates
  import opened Transactions
  import opened Vendors
  import opened Imports

  /** `toDomainTransaction`: copies all fourteen columns. */
  function ToDomainTransaction(rec: Transaction): (t: Transaction)
    ensures t.id == rec.id && t.description == rec.description && t.note == rec.note
    ensures t.source == rec.source && t.amountCents == rec.amountCents && t.direction == rec.direction
    ensures t.date == rec.date && t.checksum == rec.checksum && t.createdAt == rec.createdAt
    ensures t.updatedAt == rec.updatedAt && t.tag == rec.tag && t.ignored == rec.ignored
    ensures t.rowNumber == rec.rowNumber && t.importId == rec.importId
  {
    Transaction(rec.id, rec.description, rec.note, rec.source, rec.amountCents, rec.direction,
                rec.date, rec.checksum, rec.createdAt, rec.updatedAt, rec.tag, rec.rowNumber,
                rec.ignored, rec.importId)
  }

  /**
   * `fromDomainTransaction` as written: eleven columns are copied;
   * row number, ignored and import ID are left at their zero values.
   */
  function FromDomainTransaction(t: Transaction): (rec: Transaction)
    ensures rec.id == t.id && rec.description == t.description && rec.note == t.note
    ensures rec.source == t.source && rec.amountCents == t.amountCents && rec.direction == t.direction
    ensures rec.date == t.date && rec.checksum == t.checksum && rec.createdAt == t.createdAt
    ensures rec.updatedAt == t.updatedAt && rec.tag == t.tag
    ensures rec.rowNumber == 0 && !rec.ignored && rec.importId == Nil
  {
    Transaction(t.id, t.description, t.note, t.source, t.amountCents, t.direction,
                t.date, t.checksum, t.createdAt, t.updatedAt, t.tag, 0, false, Nil)
  }

  /** Domain to row and back keeps every field except the three the row mapper drops. */
  lemma TransactionRoundTrip(t: Transaction)
    ensures ToDomainTransaction(FromDomainTransaction(t)) == t.(rowNumber := 0, ignored := false, importId := Nil)
    ensures ToDomainTransaction(FromDomainTransaction(t)) == t <==> t.rowNumber == 0 && !t.ignored && t.importId == Nil
  {
  }

  /**
   * The stored row no longer matches its own checksum: whenever the row
   * number or the import ID was set, the payload recomputed from the row
   * differs from the payload the stored checksum was computed over.
   */
  lemma StoredRowLosesPayload(t: Transaction)
    requires HashableText(t)
    requires t.rowNumber != 0 || t.importId != Nil
    ensures Payload(FromDomainTransaction(t)) != Payload(t)
  {
    PayloadInjective(FromDomainTransaction(t), t);
  }

  /** `fromDomainTransaction` with all fourteen columns, as the row type provides. */
  function FromDomainTransactionFull(t: Transaction): (rec: Transaction)
    ensures rec.rowNumber == t.rowNumber && rec.ignored == t.ignored && rec.importId == t.importId
    ensures rec.checksum == t.checksum && rec.id == t.id
  {
    Transaction(t.id, t.description, t.note, t.source, t.amountCents, t.direction,
                t.date, t.checksum, t.createdAt, t.updatedAt, t.tag, t.rowNumber,
                t.ignored, t.importId)
  }

  /** With all columns carried, the two mappers are mutual inverses and the payload survives storage. */
  lemma TransactionRoundTripFull(t: Transaction, rec: Transaction)
    ensures ToDomainTransaction(FromDomainTransactionFull(t)) == t
    ensures FromDomainTransactionFull(ToDomainTransaction(rec)) == rec
    ensures Payload(FromDomainTransactionFull(t)) == Payload(t)
  {
  }

  /** `toDomainImport`: the row with its vendor ID replaced by the fetched vendor. */
  function ToDomainImport(rec: ImportRecord, v: Vendor): (im: Import)
    ensures im.vendor == v && im.id == rec.id && im.path == rec.path && im.status == rec.status
    ensures im.statusMsg == rec.statusMsg && im.createdAt == rec.createdAt && im.updatedAt == rec.updatedAt
    ensures im.duplicates == rec.duplicates && im.totalRows == rec.totalRows
    ensures im.imported == rec.imported && im.failed == rec.failed
  {
    Import(rec.id, rec.createdAt, rec.updatedAt, v, rec.path, rec.status, rec.statusMsg,
           rec.duplicates, rec.totalRows, rec.imported, rec.failed)
  }

  /** `fromDomainImport`: the import with its vendor replaced by the vendor's ID. */
  function FromDomainImport(im: Import): (rec: ImportRecord)
    ensures rec.vendorId == im.vendor.id && rec.id == im.id && rec.path == im.path
    ensures rec.status == im.status && rec.statusMsg == im.statusMsg
    ensures rec.createdAt == im.createdAt && rec.updatedAt == im.updatedAt
    ensures rec.duplicates == im.duplicates && rec.totalRows == im.totalRows
    ensures rec.imported == im.imported && rec.failed == im.failed
  {
    ImportRecord(im.id, im.createdAt, im.updatedAt, im.vendor.id, im.path, im.status, im.statusMsg,
                 im.duplicates, im.totalRows, im.imported, im.failed)
  }

  /** Import mappers are inverse to each other, given the matching vendor. */
  lemma ImportRoundTrip(im: Import, rec: ImportRecord, v: Vendor)
    ensures ToDomainImport(FromDomainImport(im), im.vendor) == im
    ensures v.id == rec.vendorId ==> FromDomainImport(ToDomainImport(rec, v)) == rec
  {
  }

  /** `toDomainVendor`. */
  function ToDomainVendor(rec: Vendor): (v: Vendor)
    ensures v.id == rec.id && v.name == rec.name && v.createdAt == rec.createdAt && v.updatedAt == rec.updatedAt
  {
    Vendor(rec.id, rec.name, rec.createdAt, rec.updatedAt)
  }

  /** `fromDomainVendor`. */
  function FromDomainVendor(v: Vendor): (rec: Vendor)
    ensures rec.id == v.id && rec.name == v.name && rec.createdAt == v.createdAt && rec.updatedAt == v.updatedAt
  {
    Vendor(v.id, v.name, v.createdAt, v.updatedAt)
  }

  /** Vendor conversion is the identity both ways. */
  lemma VendorRoundTrip(v: Vendor, rec: Vendor)
    ensures ToDomainVendor(FromDomainVendor(v)) == v
    ensures FromDomainVendor(ToDomainVendor(rec)) == rec
  {
  }
}
