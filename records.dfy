/** The three record kinds of the relationship store (people, families and
    relationships), the data their `add` operations receive, the partial
    updates the document store merges into them, and the records `add`
    stamps from the data.

    JavaScript treats an absent field, `undefined`, `null` and `''` alike
    wherever the source tests a field for truth or writes `x || ''`; the model
    stores such text fields as `""` and such numeric fields as `0`, so that
    `x || ''` is a plain copy. */
module Records {

  /** A document id. Each collection hands out 0, 1, 2, ... in order. */
  type Id = nat

  /** Timestamps (`createdAt`, `updatedAt`, `deletedAt`) are opaque values
      supplied by the caller. */
  type Timestamp = int

  datatype Option<T> = None | Some(value: T)

  /** Errors: an update of a document id the store does not hold (the
      document store rejects it), and reading `.name` of a family the cache
      does not hold (a JavaScript TypeError). */
  datatype Error = NotFound | MissingFamily

  datatype Result<T> = Success(value: T) | Failure(error: Error)

  /** The outcome of an operation that returns nothing on success. */
  datatype Outcome = Done | Fail(error: Error)

  /** The contact, address and "other" text fields of a person, which
      `addPerson` copies with a `|| ''` default. Grouped so that a person
      record has a handful of components. */
  datatype Contact = Contact(
    mobilePhone: string,
    homePhone: string,
    workPhone: string,
    email: string,
    address: string,
    city: string,
    state: string,
    zipCode: string,
    anniversaryDate: string,
    notes: string)

  datatype Person = Person(
    id: Id,
    firstName: string,
    lastName: string,
    birthMonth: string,        // an English month name, "" when absent
    birthDay: int,             // 0 when absent
    birthYear: int,            // 0 when absent
    contact: Contact,
    createdAt: Timestamp,
    createdBy: string,
    isActive: bool,
    deletedAt: Option<Timestamp>,
    updatedAt: Option<Timestamp>)

  datatype Family = Family(
    id: Id,
    name: string,
    description: string,
    familyType: string,        // nuclear, extended, ancestral, mixed
    generationLevel: int,
    createdAt: Timestamp,
    createdBy: string,
    isActive: bool,
    deletedAt: Option<Timestamp>,
    updatedAt: Option<Timestamp>)

  datatype Relationship = Relationship(
    id: Id,
    personId: Id,
    familyId: Id,
    role: string,              // parent, child, spouse, adult_child, guardian, ...
    relationshipToOthers: string,
    startDate: Option<string>,
    endDate: Option<string>,
    createdAt: Timestamp,
    createdBy: string,
    isActive: bool,
    deletedAt: Option<Timestamp>,
    updatedAt: Option<Timestamp>)

  /** The argument of `addPerson`. */
  datatype PersonInput = PersonInput(
    firstName: string,
    lastName: string,
    birthMonth: string,
    birthDay: int,
    birthYear: int,
    contact: Contact,
    createdBy: string)

  /** The argument of `createFamily`. */
  datatype FamilyInput = FamilyInput(
    name: string,
    description: string,
    familyType: string,
    generationLevel: int,
    createdBy: string)

  /** The argument of `addRelationship`. */
  datatype RelationshipInput = RelationshipInput(
    personId: Id,
    familyId: Id,
    role: string,
    relationshipToOthers: string,
    startDate: string,
    endDate: string,
    createdBy: string)

  /** The `add` input a stored record carries: its data without the id and
      the metadata `add` sets; a null date reads back as missing. */
  function PersonInputOf(p: Person): PersonInput
  {
    PersonInput(p.firstName, p.lastName, p.birthMonth, p.birthDay, p.birthYear, p.contact, p.createdBy)
  }

  function FamilyInputOf(f: Family): FamilyInput
  {
    FamilyInput(f.name, f.description, f.familyType, f.generationLevel, f.createdBy)
  }

  function DateText(d: Option<string>): string
  {
    if d.Some? then d.value else ""
  }

  function RelationshipInputOf(r: Relationship): RelationshipInput
  {
    RelationshipInput(r.personId, r.familyId, r.role, r.relationshipToOthers, DateText(r.startDate),
      DateText(r.endDate), r.createdBy)
  }

  /** The person record `addPerson` stores: the data with `isActive` set and
      the creation time stamped. */
  function NewPerson(id: Id, data: PersonInput, now: Timestamp): (p: Person)
    ensures p.id == id && p.isActive && p.createdAt == now && p.deletedAt.None? && p.updatedAt.None?
    ensures PersonInputOf(p) == data
  {
    Person(id, data.firstName, data.lastName, data.birthMonth, data.birthDay, data.birthYear,
      data.contact, now, data.createdBy, true, None, None)
  }

  /** The family record `createFamily` stores; a missing family type becomes
      "nuclear". */
  function NewFamily(id: Id, data: FamilyInput, now: Timestamp): (f: Family)
    ensures f.id == id && f.isActive && f.createdAt == now && f.deletedAt.None? && f.updatedAt.None?
    ensures f.familyType != ""
    ensures FamilyInputOf(f) == data.(familyType := if data.familyType == "" then "nuclear" else data.familyType)
  {
    Family(id, data.name, data.description,
      if data.familyType == "" then "nuclear" else data.familyType,
      data.generationLevel, now, data.createdBy, true, None, None)
  }

  /** The relationship record `addRelationship` stores; missing start and end
      dates become null. */
  function NewRelationship(id: Id, data: RelationshipInput, now: Timestamp): (r: Relationship)
    ensures r.id == id && r.isActive && r.createdAt == now && r.deletedAt.None? && r.updatedAt.None?
    ensures r.startDate != Some("") && r.endDate != Some("")
    ensures RelationshipInputOf(r) == data
  {
    Relationship(id, data.personId, data.familyId, data.role, data.relationshipToOthers,
      if data.startDate == "" then None else Some(data.startDate),
      if data.endDate == "" then None else Some(data.endDate),
      now, data.createdBy, true, None, None)
  }

  /** `n` consecutive records stored from `inputs`, the first under id `base`. */
  function NewPeople(base: Id, inputs: seq<PersonInput>, now: Timestamp): (r: seq<Person>)
    ensures |r| == |inputs|
    ensures forall i :: 0 <= i < |inputs| ==> r[i] == NewPerson(base + i, inputs[i], now)
  {
    seq(|inputs|, i requires 0 <= i < |inputs| => NewPerson(base + i, inputs[i], now))
  }

  function NewFamilies(base: Id, inputs: seq<FamilyInput>, now: Timestamp): (r: seq<Family>)
    ensures |r| == |inputs|
    ensures forall i :: 0 <= i < |inputs| ==> r[i] == NewFamily(base + i, inputs[i], now)
  {
    seq(|inputs|, i requires 0 <= i < |inputs| => NewFamily(base + i, inputs[i], now))
  }

  function NewRelationships(base: Id, inputs: seq<RelationshipInput>, now: Timestamp): (r: seq<Relationship>)
    ensures |r| == |inputs|
    ensures forall i :: 0 <= i < |inputs| ==> r[i] == NewRelationship(base + i, inputs[i], now)
  {
    seq(|inputs|, i requires 0 <= i < |inputs| => NewRelationship(base + i, inputs[i], now))
  }

  /** One more record stored after a run: it gets the next id, `id`. */
  lemma NewPeopleSnoc(base: Id, inputs: seq<PersonInput>, x: PersonInput, id: Id, now: Timestamp)
    requires id == base + |inputs|
    ensures NewPeople(base, inputs + [x], now) == NewPeople(base, inputs, now) + [NewPerson(id, x, now)]
  {
  }

  lemma NewFamiliesSnoc(base: Id, inputs: seq<FamilyInput>, x: FamilyInput, id: Id, now: Timestamp)
    requires id == base + |inputs|
    ensures NewFamilies(base, inputs + [x], now) == NewFamilies(base, inputs, now) + [NewFamily(id, x, now)]
  {
  }

  lemma NewRelationshipsSnoc(base: Id, inputs: seq<RelationshipInput>, x: RelationshipInput, id: Id,
                             now: Timestamp)
    requires id == base + |inputs|
    ensures NewRelationships(base, inputs + [x], now)
         == NewRelationships(base, inputs, now) + [NewRelationship(id, x, now)]
  {
  }

  /** Records stored from two runs of inputs, the second run starting at id
      `mid`, where the first ends. */
  lemma NewFamiliesAppend(base: Id, xs: seq<FamilyInput>, ys: seq<FamilyInput>, mid: Id, now: Timestamp)
    requires mid == base + |xs|
    ensures NewFamilies(base, xs + ys, now) == NewFamilies(base, xs, now) + NewFamilies(mid, ys, now)
  {
    var l, r := NewFamilies(base, xs + ys, now), NewFamilies(base, xs, now) + NewFamilies(mid, ys, now);
    forall i | 0 <= i < |l| ensures l[i] == r[i] {
      if i >= |xs| {
        assert (xs + ys)[i] == ys[i - |xs|];
        assert mid + (i - |xs|) == base + i;
      }
    }
  }

  lemma NewRelationshipsAppend(base: Id, xs: seq<RelationshipInput>, ys: seq<RelationshipInput>, mid: Id,
                               now: Timestamp)
    requires mid == base + |xs|
    ensures NewRelationships(base, xs + ys, now)
         == NewRelationships(base, xs, now) + NewRelationships(mid, ys, now)
  {
    var l, r := NewRelationships(base, xs + ys, now),
                NewRelationships(base, xs, now) + NewRelationships(mid, ys, now);
    forall i | 0 <= i < |l| ensures l[i] == r[i] {
      if i >= |xs| {
        assert (xs + ys)[i] == ys[i - |xs|];
        assert mid + (i - |xs|) == base + i;
      }
    }
  }

  /** One field of a partial update of a person (`updatePerson`'s `updateData`).
      The document id is not a field and cannot be updated. */
  datatype PersonField =
    | FirstName(string) | LastName(string)
    | BirthMonth(string) | BirthDay(int) | BirthYear(int)
    | ContactField(ContactKey, string)
    | PersonCreatedAt(Timestamp) | PersonCreatedBy(string)
    | PersonIsActive(bool) | PersonDeletedAt(Timestamp) | PersonUpdatedAt(Timestamp)

  /** The names of the fields of `Contact`. */
  datatype ContactKey =
    | MobilePhone | HomePhone | WorkPhone | Email | Address | City | State | ZipCode
    | AnniversaryDate | Notes

  datatype FamilyField =
    | Name(string) | Description(string) | FamilyType(string) | GenerationLevel(int)
    | FamilyCreatedAt(Timestamp) | FamilyCreatedBy(string)
    | FamilyIsActive(bool) | FamilyDeletedAt(Timestamp) | FamilyUpdatedAt(Timestamp)

  datatype RelationshipField =
    | PersonId(Id) | FamilyId(Id) | Role(string) | RelationshipToOthers(string)
    | StartDate(Option<string>) | EndDate(Option<string>)
    | RelationshipCreatedAt(Timestamp) | RelationshipCreatedBy(string)
    | RelationshipIsActive(bool) | RelationshipDeletedAt(Timestamp) | RelationshipUpdatedAt(Timestamp)

  function SetContactField(c: Contact, k: ContactKey, v: string): Contact
  {
    match k
    case MobilePhone => c.(mobilePhone := v)
    case HomePhone => c.(homePhone := v)
    case WorkPhone => c.(workPhone := v)
    case Email => c.(email := v)
    case Address => c.(address := v)
    case City => c.(city := v)
    case State => c.(state := v)
    case ZipCode => c.(zipCode := v)
    case AnniversaryDate => c.(anniversaryDate := v)
    case Notes => c.(notes := v)
  }

  function SetPersonField(p: Person, f: PersonField): Person
  {
    match f
    case FirstName(v) => p.(firstName := v)
    case LastName(v) => p.(lastName := v)
    case BirthMonth(v) => p.(birthMonth := v)
    case BirthDay(v) => p.(birthDay := v)
    case BirthYear(v) => p.(birthYear := v)
    case ContactField(k, v) => p.(contact := SetContactField(p.contact, k, v))
    case PersonCreatedAt(v) => p.(createdAt := v)
    case PersonCreatedBy(v) => p.(createdBy := v)
    case PersonIsActive(v) => p.(isActive := v)
    case PersonDeletedAt(v) => p.(deletedAt := Some(v))
    case PersonUpdatedAt(v) => p.(updatedAt := Some(v))
  }

  function SetFamilyField(f: Family, x: FamilyField): Family
  {
    match x
    case Name(v) => f.(name := v)
    case Description(v) => f.(description := v)
    case FamilyType(v) => f.(familyType := v)
    case GenerationLevel(v) => f.(generationLevel := v)
    case FamilyCreatedAt(v) => f.(createdAt := v)
    case FamilyCreatedBy(v) => f.(createdBy := v)
    case FamilyIsActive(v) => f.(isActive := v)
    case FamilyDeletedAt(v) => f.(deletedAt := Some(v))
    case FamilyUpdatedAt(v) => f.(updatedAt := Some(v))
  }

  function SetRelationshipField(r: Relationship, x: RelationshipField): Relationship
  {
    match x
    case PersonId(v) => r.(personId := v)
    case FamilyId(v) => r.(familyId := v)
    case Role(v) => r.(role := v)
    case RelationshipToOthers(v) => r.(relationshipToOthers := v)
    case StartDate(v) => r.(startDate := v)
    case EndDate(v) => r.(endDate := v)
    case RelationshipCreatedAt(v) => r.(createdAt := v)
    case RelationshipCreatedBy(v) => r.(createdBy := v)
    case RelationshipIsActive(v) => r.(isActive := v)
    case RelationshipDeletedAt(v) => r.(deletedAt := Some(v))
    case RelationshipUpdatedAt(v) => r.(updatedAt := Some(v))
  }

  /** `updateDoc`'s merge: the fields of the patch overwrite the stored ones,
      later fields winning; every other field, the id included, is kept. */
  function MergePerson(p: Person, patch: seq<PersonField>): (r: Person)
    ensures r.id == p.id
    decreases patch
  {
    if patch == [] then p else MergePerson(SetPersonField(p, patch[0]), patch[1..])
  }

  function MergeFamily(f: Family, patch: seq<FamilyField>): (r: Family)
    ensures r.id == f.id
    decreases patch
  {
    if patch == [] then f else MergeFamily(SetFamilyField(f, patch[0]), patch[1..])
  }

  function MergeRelationship(r: Relationship, patch: seq<RelationshipField>): (r': Relationship)
    ensures r'.id == r.id
    decreases patch
  {
    if patch == [] then r else MergeRelationship(SetRelationshipField(r, patch[0]), patch[1..])
  }

  /** A field appended to a patch is applied last, after the whole patch:
      the time stamp every update adds wins over any `updatedAt` in the patch. */
  lemma {:induction false} MergePersonSnoc(p: Person, patch: seq<PersonField>, f: PersonField)
    ensures MergePerson(p, patch + [f]) == SetPersonField(MergePerson(p, patch), f)
    decreases patch
  {
    if patch == [] {
      assert [f][1..] == [];
    } else {
      assert (patch + [f])[1..] == patch[1..] + [f];
      MergePersonSnoc(SetPersonField(p, patch[0]), patch[1..], f);
    }
  }

  lemma {:induction false} MergeFamilySnoc(p: Family, patch: seq<FamilyField>, f: FamilyField)
    ensures MergeFamily(p, patch + [f]) == SetFamilyField(MergeFamily(p, patch), f)
    decreases patch
  {
    if patch == [] {
      assert [f][1..] == [];
    } else {
      assert (patch + [f])[1..] == patch[1..] + [f];
      MergeFamilySnoc(SetFamilyField(p, patch[0]), patch[1..], f);
    }
  }

  lemma {:induction false} MergeRelationshipSnoc(p: Relationship, patch: seq<RelationshipField>, f: RelationshipField)
    ensures MergeRelationship(p, patch + [f]) == SetRelationshipField(MergeRelationship(p, patch), f)
    decreases patch
  {
    if patch == [] {
      assert [f][1..] == [];
    } else {
      assert (patch + [f])[1..] == patch[1..] + [f];
      MergeRelationshipSnoc(SetRelationshipField(p, patch[0]), patch[1..], f);
    }
  }

  /** The soft delete of a person (`deletePerson` through `updatePerson`):
      inactive, deletion and update times stamped, every other field kept. */
  lemma SoftDeletePerson(p: Person, now: Timestamp)
    ensures MergePerson(p, [PersonIsActive(false), PersonDeletedAt(now), PersonUpdatedAt(now)])
         == p.(isActive := false, deletedAt := Some(now), updatedAt := Some(now))
  {
    var p1 := p.(isActive := false);
    var p2 := p1.(deletedAt := Some(now));
    MergePersonThree(p, PersonIsActive(false), PersonDeletedAt(now), PersonUpdatedAt(now));
    SetPersonIsActive(p, false);
    SetPersonDeletedAt(p1, now);
    SetPersonUpdatedAt(p2, now);
  }

  lemma SetPersonIsActive(p: Person, v: bool)
    ensures SetPersonField(p, PersonIsActive(v)) == p.(isActive := v)
  {
  }

  lemma SetPersonDeletedAt(p: Person, t: Timestamp)
    ensures SetPersonField(p, PersonDeletedAt(t)) == p.(deletedAt := Some(t))
  {
  }

  lemma SetPersonUpdatedAt(p: Person, t: Timestamp)
    ensures SetPersonField(p, PersonUpdatedAt(t)) == p.(updatedAt := Some(t))
  {
  }

  /** A three-field patch applies its fields one after the other. */
  lemma MergePersonThree(p: Person, a: PersonField, b: PersonField, c: PersonField)
    ensures MergePerson(p, [a, b, c]) == SetPersonField(SetPersonField(SetPersonField(p, a), b), c)
  {
    var p1 := SetPersonField(p, a);
    var p2 := SetPersonField(p1, b);
    assert [a, b, c][1..] == [b, c];
    assert [b, c][1..] == [c];
    assert MergePerson(p2, [c]) == MergePerson(SetPersonField(p2, c), []);
  }

  lemma SoftDeleteFamily(f: Family, now: Timestamp)
    ensures MergeFamily(f, [FamilyIsActive(false), FamilyDeletedAt(now), FamilyUpdatedAt(now)])
         == f.(isActive := false, deletedAt := Some(now), updatedAt := Some(now))
  {
    var patch := [FamilyIsActive(false), FamilyDeletedAt(now), FamilyUpdatedAt(now)];
    var f1 := f.(isActive := false);
    var f2 := f1.(deletedAt := Some(now));
    var f3 := f2.(updatedAt := Some(now));
    assert patch[1..] == [FamilyDeletedAt(now), FamilyUpdatedAt(now)];
    assert patch[1..][1..] == [FamilyUpdatedAt(now)];
    assert MergeFamily(f2, [FamilyUpdatedAt(now)]) == MergeFamily(f3, []) == f3;
    assert MergeFamily(f1, patch[1..]) == MergeFamily(f2, [FamilyUpdatedAt(now)]);
    assert MergeFamily(f, patch) == MergeFamily(f1, patch[1..]);
  }

  /** `removeRelationship` merges only `isActive` and `deletedAt`; unlike the
      other deletes it does not stamp `updatedAt`. */
  lemma SoftDeleteRelationship(r: Relationship, now: Timestamp)
    ensures MergeRelationship(r, [RelationshipIsActive(false), RelationshipDeletedAt(now)])
         == r.(isActive := false, deletedAt := Some(now))
  {
    var patch := [RelationshipIsActive(false), RelationshipDeletedAt(now)];
    var r1 := r.(isActive := false);
    var r2 := r1.(deletedAt := Some(now));
    assert patch[1..] == [RelationshipDeletedAt(now)];
    assert MergeRelationship(r1, [RelationshipDeletedAt(now)]) == MergeRelationship(r2, []) == r2;
    assert MergeRelationship(r, patch) == MergeRelationship(r1, patch[1..]);
  }
}
