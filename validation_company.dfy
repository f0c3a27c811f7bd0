/** The company payload schema, whole (`companySchema`) and partial (`companySchema.partial()`). */
module CompanySchema {
  import opened Base
  import opened Schema

  const NameMax: nat := 100
  const DocumentMax: nat := 20
  const PhoneMax: nat := 20
  const AddressMax: nat := 200

  datatype CompanyPayload = CompanyPayload(name: Json, document: Json, phone: Json, address: Json)

  datatype CompanyInput = CompanyInput(
    name: string,
    document: Nullable<string>,
    phone: Nullable<string>,
    address: Nullable<string>)
  {
    /** What the schema promises of a parsed company. */
    predicate Valid()
    {
      && 1 <= |name| <= NameMax
      && FitsIn(document, DocumentMax)
      && FitsIn(phone, PhoneMax)
      && FitsIn(address, AddressMax)
    }
  }

  /** The fields a partial payload supplies; `Undefined` marks a field that was left out. */
  datatype CompanyPatch = CompanyPatch(
    name: Nullable<string>,
    document: Nullable<string>,
    phone: Nullable<string>,
    address: Nullable<string>)

  function Parse(p: CompanyPayload): (r: Option<CompanyInput>)
    ensures r.Some? ==> r.value.Valid()
  {
    match (RequiredString(p.name, 1, NameMax), NullableString(p.document, DocumentMax),
           NullableString(p.phone, PhoneMax), NullableString(p.address, AddressMax))
    case (Some(name), Some(document), Some(phone), Some(address)) =>
      Some(CompanyInput(name, document, phone, address))
    case _ => None
  }

  function ParsePartial(p: CompanyPayload): (r: Option<CompanyPatch>)
    ensures r.Some? ==>
      && (r.value.name.Value? ==> 1 <= |r.value.name.value| <= NameMax)
      && !r.value.name.Null?
      && FitsIn(r.value.document, DocumentMax)
      && FitsIn(r.value.phone, PhoneMax)
      && FitsIn(r.value.address, AddressMax)
    ensures r.Some? ==>
      && p.name == EncodeString(r.value.name)
      && p.document == EncodeString(r.value.document)
      && p.phone == EncodeString(r.value.phone)
      && p.address == EncodeString(r.value.address)
  {
    match (PartialOf(p.name, RequiredString(p.name, 1, NameMax)), NullableString(p.document, DocumentMax),
           NullableString(p.phone, PhoneMax), NullableString(p.address, AddressMax))
    case (Some(name), Some(document), Some(phone), Some(address)) =>
      Some(CompanyPatch(name, document, phone, address))
    case _ => None
  }

  function Encode(v: CompanyInput): CompanyPayload
  {
    CompanyPayload(JString(v.name), EncodeString(v.document), EncodeString(v.phone), EncodeString(v.address))
  }

  /**
   * A payload is accepted exactly when all four field constraints hold: a name of 1 to
   * 100 characters, and a document and phone (at most 20) and address (at most 200) that
   * are each absent, null or short enough.
   */
  lemma ParseAccepts(p: CompanyPayload)
    ensures Parse(p).Some? <==>
      && (p.name.JString? && 1 <= |p.name.s| <= NameMax)
      && (p.document.JUndefined? || p.document.JNull? || (p.document.JString? && |p.document.s| <= DocumentMax))
      && (p.phone.JUndefined? || p.phone.JNull? || (p.phone.JString? && |p.phone.s| <= PhoneMax))
      && (p.address.JUndefined? || p.address.JNull? || (p.address.JString? && |p.address.s| <= AddressMax))
  {
  }

  /**
   * A partial payload is accepted exactly when every field that is present passes its own
   * rule: a present name must have 1 to 100 characters (null is refused), and document,
   * phone and address are absent, null or short enough.
   */
  lemma ParsePartialAccepts(p: CompanyPayload)
    ensures ParsePartial(p).Some? <==>
      && (p.name.JUndefined? || (p.name.JString? && 1 <= |p.name.s| <= NameMax))
      && (p.document.JUndefined? || p.document.JNull? || (p.document.JString? && |p.document.s| <= DocumentMax))
      && (p.phone.JUndefined? || p.phone.JNull? || (p.phone.JString? && |p.phone.s| <= PhoneMax))
      && (p.address.JUndefined? || p.address.JNull? || (p.address.JString? && |p.address.s| <= AddressMax))
  {
  }

  /** Every valid company is accepted back from its own encoding, and nothing else is lost. */
  lemma ParseEncode(v: CompanyInput)
    requires v.Valid()
    ensures Parse(Encode(v)) == Some(v)
  {
  }

  lemma EncodeParse(p: CompanyPayload)
    requires Parse(p).Some?
    ensures Encode(Parse(p).value) == p
  {
  }

  /** Whatever the full schema accepts, the partial schema accepts with the same values. */
  lemma PartialAcceptsFull(p: CompanyPayload)
    requires Parse(p).Some?
    ensures ParsePartial(p) == Some(CompanyPatch(Value(Parse(p).value.name), Parse(p).value.document,
                                                  Parse(p).value.phone, Parse(p).value.address))
  {
  }
}
