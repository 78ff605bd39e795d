/**
 * The two upload handlers that turn an uploaded statement into a pending
 * import: internal/importer/from_csv.go and internal/app/imports/from_csv.go.
 * Both look the vendor up by name, write the file, create the import, and
 * remove the file again when the import cannot be created. The stores,
 * the disk and the clock are outcomes passed in; each handler returns
 * its result and the trace of effects it performed, in order.
 */
module Uploads {
  import opened Wrappers
  import opened Uuids
  import opened Dates
  import opened Vendors
  import opened Imports
  import Mapper

  /** One call into a collaborator; `I` is the import type the handler creates. */
  datatype Effect<I> = FetchVendor(name: string) | WriteFile | CreateImport(created: I) | RemoveFile(path: string)

  /** The stage of an effect: lookup, write, create, cleanup. */
  function Stage<I>(e: Effect<I>): nat {
    match e
    case FetchVendor(_) => 0
    case WriteFile => 1
    case CreateImport(_) => 2
    case RemoveFile(_) => 3
  }

  /** Each effect comes strictly after the one before it in stage order. */
  predicate InStageOrder<I>(trace: seq<Effect<I>>) {
    forall i, j :: 0 <= i < j < |trace| ==> Stage(trace[i]) < Stage(trace[j])
  }

  /** The collaborators' answers for one request. */
  datatype Outcomes = Outcomes(
    lookup: Result<Vendor, string>,
    write: Result<string, string>,
    createError: Option<string>)

  /** The control flow both handlers share, over any way of building the import. */
  function Upload<I>(name: string, o: Outcomes, build: (Vendor, string) -> I, idOf: I -> Uuid): (r: (Result<Uuid, string>, seq<Effect<I>>))
    ensures 1 <= |r.1| <= 4 && r.1[0] == FetchVendor(name) && InStageOrder(r.1)
    ensures r.0.Ok? <==> o.lookup.Ok? && o.write.Ok? && o.createError.None?
    ensures o.lookup.Err? ==> r == (Err(o.lookup.error), [FetchVendor(name)])
    ensures o.lookup.Ok? && o.write.Err? ==> r == (Err(o.write.error), [FetchVendor(name), WriteFile])
    ensures o.lookup.Ok? && o.write.Ok? ==>
      |r.1| >= 3 && r.1[1] == WriteFile && r.1[2] == CreateImport(build(o.lookup.value, o.write.value))
    ensures r.1[|r.1| - 1].RemoveFile? <==> o.lookup.Ok? && o.write.Ok? && o.createError.Some?
    ensures r.1[|r.1| - 1].RemoveFile? ==> r.1[|r.1| - 1].path == o.write.value && r.0 == Err(o.createError.value)
    ensures r.0.Ok? ==>
      && r.1[|r.1| - 1] == CreateImport(build(o.lookup.value, o.write.value))
      && r.0.value == idOf(build(o.lookup.value, o.write.value))
  {
    match o.lookup
    case Err(e) => (Err(e), [FetchVendor(name)])
    case Ok(v) =>
      match o.write
      case Err(e) => (Err(e), [FetchVendor(name), WriteFile])
      case Ok(path) =>
        var imp := build(v, path);
        match o.createError
        case Some(e) => (Err(e), [FetchVendor(name), WriteFile, CreateImport(imp), RemoveFile(path)])
        case None => (Ok(idOf(imp)), [FetchVendor(name), WriteFile, CreateImport(imp)])
  }

  /**
   * `FromCsvHandler.Handle` of internal/importer: the import holds the
   * vendor's ID. `id` and `now` are the fresh UUID and clock reading
   * `NewImport` draws.
   */
  function ImporterHandle(name: string, o: Outcomes, id: Uuid, now: Date): (r: (Result<Uuid, string>, seq<Effect<ImportRecord>>))
    ensures r.0.Ok? ==> o.lookup.Ok? && o.write.Ok? && |r.1| >= 3
    ensures r.0.Ok? ==>
      var last := r.1[|r.1| - 1];
      && r.0.value == id && last.CreateImport? && last.created.id == id && IsFresh(last.created)
      && last.created.vendorId == o.lookup.value.id && last.created.path == o.write.value
  {
    Upload(name, o, (v: Vendor, path: string) => NewImportRecord(id, now, v, path), (imp: ImportRecord) => imp.id)
  }

  /**
   * `ImportFromCsvHandler.Handle` of internal/app/imports: the import
   * holds the whole vendor.
   */
  function AppHandle(name: string, o: Outcomes, id: Uuid, now: Date): (r: (Result<Uuid, string>, seq<Effect<Import>>))
    ensures r.0.Ok? ==> o.lookup.Ok? && o.write.Ok? && |r.1| >= 3
    ensures r.0.Ok? ==>
      var last := r.1[|r.1| - 1];
      && r.0.value == id && last.CreateImport? && last.created.id == id
      && last.created.status == Pending && last.created.statusMsg == ""
      && last.created.vendor == o.lookup.value && last.created.path == o.write.value
  {
    Upload(name, o, (v: Vendor, path: string) => NewImport(id, now, v, path), (imp: Import) => imp.id)
  }

  /** An effect of the domain tree as it reaches the database: the import stored as its row. */
  function AsRow(e: Effect<Import>): Effect<ImportRecord> {
    match e
    case FetchVendor(n) => FetchVendor(n)
    case WriteFile => WriteFile
    case CreateImport(imp) => CreateImport(Mapper.FromDomainImport(imp))
    case RemoveFile(p) => RemoveFile(p)
  }

  /**
   * The two handlers agree: for the same outcomes, the same fresh ID and
   * clock, they return the same result and perform the same effects once
   * the domain import is mapped to its row.
   */
  lemma HandlersAgree(name: string, o: Outcomes, id: Uuid, now: Date)
    ensures AppHandle(name, o, id, now).0 == ImporterHandle(name, o, id, now).0
    ensures var app := AppHandle(name, o, id, now).1;
      var importer := ImporterHandle(name, o, id, now).1;
      |app| == |importer| && forall i :: 0 <= i < |app| ==> AsRow(app[i]) == importer[i]
  {
    if o.lookup.Ok? && o.write.Ok? {
      var v := o.lookup.value;
      var path := o.write.value;
      assert Mapper.FromDomainImport(NewImport(id, now, v, path)) == NewImportRecord(id, now, v, path);
    }
  }

  /**
   * No orphan is left behind by the handler itself: a written file either
   * belongs to a created import or has its removal requested, and only a
   * write that happened is ever removed.
   */
  lemma NoOrphanedFile<I>(name: string, o: Outcomes, build: (Vendor, string) -> I, idOf: I -> Uuid)
    ensures var r := Upload(name, o, build, idOf);
      && (WriteFile in r.1 && o.write.Ok? ==> r.0.Ok? || RemoveFile(o.write.value) in r.1)
      && (forall p :: RemoveFile(p) in r.1 ==> o.write == Ok(p) && WriteFile in r.1)
  {
  }
}
