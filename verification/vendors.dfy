/**
 * Vendors: the banks whose statements can be imported (internal/vendor
 * and its copy internal/domain/vendor.go). A vendor is only created for
 * a name on the supported list, compared by exact string equality.
 */
module Vendors {
  import opened Wrappers
  import opened Uuids
  import opened Dates

  /** `VendorID` is the vendor's name, a plain string. */
  type VendorName = string

  const VendorIng: VendorName := "ING"

  /** `SupportedVendors`: the one supported bank. */
  const SupportedVendors: seq<VendorName> := [VendorIng]

  datatype Vendor = Vendor(id: Uuid, name: VendorName, createdAt: Date, updatedAt: Date)

  datatype VendorError =
    | ErrUnsupportedVendor
    | ErrVendorAlreadyExists
    | ErrVendorNotFound
    | ErrVendorFieldNotFound
    | ErrUnsupportedVendorField

  /** The transaction fields a vendor's columns map onto (`domain.Field`). */
  datatype Field = FieldDescription | FieldNote | FieldSource | FieldAmount | FieldDate | FieldDirection

  /** The text value of each field constant. */
  function FieldName(f: Field): (s: string)
    ensures |s| >= 4
  {
    match f
    case FieldDescription => "description"
    case FieldNote => "note"
    case FieldSource => "source"
    case FieldAmount => "amount"
    case FieldDate => "date"
    case FieldDirection => "direction"
  }

  /** `SupportedVendorFields`, in declaration order. */
  const SupportedVendorFields: seq<Field> :=
    [FieldDescription, FieldNote, FieldSource, FieldAmount, FieldDate, FieldDirection]

  /** Distinct field constants have distinct text, and every field is on the list once. */
  lemma FieldNamesDistinct(f: Field, g: Field)
    ensures FieldName(f) == FieldName(g) <==> f == g
    ensures f in SupportedVendorFields
  {
    if f != g {
      assert FieldName(f)[0] != FieldName(g)[0] || FieldName(f)[1] != FieldName(g)[1];
    }
  }

  /**
   * `NewVendor`: the fresh UUID and the clock reading are parameters.
   * Succeeds exactly for a supported name, which it stores unchanged.
   */
  function NewVendor(id: Uuid, now: Date, name: VendorName): (r: Result<Vendor, VendorError>)
    ensures r.Ok? <==> name in SupportedVendors
    ensures r.Err? ==> r.error == ErrUnsupportedVendor
    ensures r.Ok? ==>
      r.value.name == name && r.value.id == id && r.value.createdAt == now && r.value.updatedAt == now
  {
    if name !in SupportedVendors then Err(ErrUnsupportedVendor)
    else Ok(Vendor(id, name, now, now))
  }

  /** Only the exact name "ING" is accepted: "ing", "Ing" or " ING" are rejected. */
  lemma NewVendorOnlyIng(id: Uuid, now: Date, name: VendorName)
    ensures NewVendor(id, now, name).Ok? <==> name == "ING"
    ensures NewVendor(id, now, "ing").Err? && NewVendor(id, now, " ING").Err?
  {
    assert "ing" != "ING" by { assert "ing"[0] != "ING"[0]; }
    assert " ING" != "ING" by { assert |" ING"| != |"ING"|; }
  }
}
