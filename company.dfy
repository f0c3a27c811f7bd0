/**
 * Company onboarding and settings: creating a company and attaching the creating user to
 * it in one transaction, and updating the fields a partial payload supplies.
 */
module Companies {
  import opened Base
  import opened Entities
  import opened Store
  import CompanySchema

  const CreateFailed := "Failed to create company. Please try again."
  const UpdateFailed := "Failed to update company. Please try again."

  /** The onboarding request: the company fields, untyped, and the id of the user creating it. */
  datatype CreateCompanyInput = CreateCompanyInput(payload: CompanySchema.CompanyPayload, userId: string)

  /** The row the create writes: the validated fields, absent or null optionals stored as null. */
  function NewCompany(id: string, v: CompanySchema.CompanyInput): Company
  {
    Company(id, v.name, Stored(v.document), Stored(v.phone), Stored(v.address))
  }

  lemma AddCompanyKeepsDistinct(companies: seq<Company>, c: Company)
    requires DistinctCompanyIds(companies)
    requires forall k :: 0 <= k < |companies| ==> companies[k].id != c.id
    ensures DistinctCompanyIds(companies + [c])
  {
  }

  /** Changing fields of a row other than its id and email keeps the user keys unique. */
  lemma UserUpdateKeepsDistinct(users: seq<User>, i: nat, u: User)
    requires DistinctUsers(users) && i < |users|
    requires u.id == users[i].id && u.email == users[i].email
    ensures DistinctUsers(users[i := u])
  {
  }

  /**
   * `createCompany`. A payload the schema rejects, a generated id already taken, or a user
   * id with no row all give the generic failure and change nothing (the transaction rolls
   * back). Otherwise the company is added and that user, and only that user, now belongs
   * to it. `companyId` stands for the id the database generates.
   */
  method CreateCompany(db: Database, input: CreateCompanyInput, companyId: string) returns (r: Result<Company>)
    requires db.Valid()
    modifies db
    ensures db.Valid()
    ensures db.products == old(db.products) && db.movements == old(db.movements) && db.openings == old(db.openings)
    ensures !r.Ok? ==> r == Err(CreateFailed) && db.companies == old(db.companies) && db.users == old(db.users)
    ensures r.Ok? <==>
      && CompanySchema.Parse(input.payload).Some?
      && FindCompany(old(db.companies), companyId).None?
      && FindUserById(old(db.users), input.userId).Some?
    ensures r.Ok? ==>
      var i := FindUserById(old(db.users), input.userId).value;
      && r.value == NewCompany(companyId, CompanySchema.Parse(input.payload).value)
      && db.companies == old(db.companies) + [r.value]
      && db.users == old(db.users)[i := old(db.users)[i].(companyId := Some(companyId))]
  {
    var validated := CompanySchema.Parse(input.payload);
    if validated.None? {
      return Err(CreateFailed);
    }
    if FindCompany(db.companies, companyId).Some? {
      return Err(CreateFailed);
    }
    var company := NewCompany(companyId, validated.value);
    var found := FindUserById(db.users, input.userId);
    if found.None? {
      return Err(CreateFailed);
    }
    var i := found.value;
    AddCompanyKeepsDistinct(db.companies, company);
    UserUpdateKeepsDistinct(db.users, i, db.users[i].(companyId := Some(companyId)));
    db.companies := db.companies + [company];
    db.users := db.users[i := db.users[i].(companyId := Some(companyId))];
    r := Ok(company);
  }

  /** The row after `updateCompany`: supplied fields take their values, null clears an optional one, the rest stay. */
  function ApplyCompanyPatch(c: Company, w: CompanySchema.CompanyPatch): (r: Company)
    ensures r.id == c.id
    ensures r.name == if w.name.Value? then w.name.value else c.name
    ensures w.document.Undefined? ==> r.document == c.document
    ensures !w.document.Undefined? ==> r.document == Stored(w.document)
    ensures w.phone.Undefined? ==> r.phone == c.phone
    ensures !w.phone.Undefined? ==> r.phone == Stored(w.phone)
    ensures w.address.Undefined? ==> r.address == c.address
    ensures !w.address.Undefined? ==> r.address == Stored(w.address)
    ensures (&& w.name.Undefined? && w.document.Undefined? && w.phone.Undefined?
             && w.address.Undefined?) ==> r == c
  {
    c.(name := if w.name.Value? then w.name.value else c.name,
       document := Patched(c.document, w.document),
       phone := Patched(c.phone, w.phone),
       address := Patched(c.address, w.address))
  }

  /** Applying the same settings twice is the same as applying them once. */
  lemma ApplyCompanyPatchIdempotent(c: Company, w: CompanySchema.CompanyPatch)
    ensures ApplyCompanyPatch(ApplyCompanyPatch(c, w), w) == ApplyCompanyPatch(c, w)
  {
  }

  /**
   * In payload terms, `updateCompany` changes exactly the fields the request carries: a
   * field left out keeps its column, a null clears an optional one, a string replaces it.
   */
  lemma SettingsFromPayload(c: Company, p: CompanySchema.CompanyPayload)
    requires CompanySchema.ParsePartial(p).Some?
    ensures var r := ApplyCompanyPatch(c, CompanySchema.ParsePartial(p).value);
      && r.id == c.id
      && r.name == (if p.name.JUndefined? then c.name else p.name.s)
      && r.document == (if p.document.JUndefined? then c.document else if p.document.JNull? then None else Some(p.document.s))
      && r.phone == (if p.phone.JUndefined? then c.phone else if p.phone.JNull? then None else Some(p.phone.s))
      && r.address == (if p.address.JUndefined? then c.address else if p.address.JNull? then None else Some(p.address.s))
  {
  }

  /**
   * Submitting a valid company with every field present (null counts as present) as
   * settings makes the row carry exactly those values; a field left out keeps its column.
   */
  lemma FullPatchOverwrites(c: Company, p: CompanySchema.CompanyPayload)
    requires CompanySchema.Parse(p).Some?
    requires !p.document.JUndefined? && !p.phone.JUndefined? && !p.address.JUndefined?
    ensures ApplyCompanyPatch(c, CompanySchema.ParsePartial(p).value) == NewCompany(c.id, CompanySchema.Parse(p).value)
  {
    CompanySchema.PartialAcceptsFull(p);
  }

  /**
   * `updateCompany`. A payload the partial schema rejects, or a company id with no row
   * (the update throws), gives the generic failure and changes nothing; otherwise only
   * that company's row changes, as `ApplyCompanyPatch` says.
   */
  method UpdateCompany(db: Database, companyId: string, data: CompanySchema.CompanyPayload) returns (r: Result<Company>)
    requires db.Valid()
    modifies db
    ensures db.Valid()
    ensures db.users == old(db.users) && db.products == old(db.products) && db.movements == old(db.movements)
    ensures db.openings == old(db.openings)
    ensures !r.Ok? ==> r == Err(UpdateFailed) && db.companies == old(db.companies)
    ensures r.Ok? <==> CompanySchema.ParsePartial(data).Some? && FindCompany(old(db.companies), companyId).Some?
    ensures r.Ok? ==>
      var i := FindCompany(old(db.companies), companyId).value;
      && r.value == ApplyCompanyPatch(old(db.companies)[i], CompanySchema.ParsePartial(data).value)
      && db.companies == old(db.companies)[i := r.value]
  {
    var validated := CompanySchema.ParsePartial(data);
    if validated.None? {
      return Err(UpdateFailed);
    }
    var found := FindCompany(db.companies, companyId);
    if found.None? {
      return Err(UpdateFailed);
    }
    var i := found.value;
    var company := ApplyCompanyPatch(db.companies[i], validated.value);
    db.companies := db.companies[i := company];
    r := Ok(company);
  }
}
