/** The store's query methods (`getPerson`, `getFamily`,
    `getPersonRelationships`, `getFamilyMembers`, `getPersonFamilies`,
    `suggestRelationships`, `groupMembersByRole`) as functions of the cached
    arrays they read. */
module Queries {
  import opened Records
  import opened Seqs
  import opened Text

  /** `getPerson(id)`: the first cached person with that id. */
  function FindPerson(people: seq<Person>, id: Id): (r: Option<Person>)
    ensures r.None? <==> forall i :: 0 <= i < |people| ==> people[i].id != id
    ensures r.Some? ==> exists i :: 0 <= i < |people| && people[i] == r.value && r.value.id == id
                                 && forall j :: 0 <= j < i ==> people[j].id != id
  {
    var i := FindIndex(people, (p: Person) => p.id == id);
    if i < 0 then None else Some(people[i])
  }

  /** `getFamily(id)`: the first cached family with that id. */
  function FindFamily(families: seq<Family>, id: Id): (r: Option<Family>)
    ensures r.None? <==> forall i :: 0 <= i < |families| ==> families[i].id != id
    ensures r.Some? ==> exists i :: 0 <= i < |families| && families[i] == r.value && r.value.id == id
                                  && forall j :: 0 <= j < i ==> families[j].id != id
  {
    var i := FindIndex(families, (f: Family) => f.id == id);
    if i < 0 then None else Some(families[i])
  }

  /** The two ends of a relationship: the person and the family it links. */
  datatype End = PersonEnd | FamilyEnd

  function EndId(x: Relationship, end: End): Id
  {
    match end
    case PersonEnd => x.personId
    case FamilyEnd => x.familyId
  }

  /** The active relationships whose given end is `id`, in cache order:
      `getPersonRelationships(id)` for the person end, and the relationships
      `getFamilyMembers(id)` lists for the family end. */
  function ActiveRelationships(rels: seq<Relationship>, end: End, id: Id): (r: seq<Relationship>)
    ensures forall x {:trigger x in r} {:trigger x in rels} ::
      x in r <==> x in rels && EndId(x, end) == id && x.isActive
    ensures forall i :: 0 <= i < |r| ==> r[i] in rels
  {
    Filter(rels, (x: Relationship) => EndId(x, end) == id && x.isActive)
  }

  /** The cached relationships of a family, active or not: the ones
      `deleteFamily` soft-deletes. */
  function CachedOfFamily(rels: seq<Relationship>, familyId: Id): (r: seq<Relationship>)
    ensures forall x {:trigger x in r} {:trigger x in rels} :: x in r <==> x in rels && x.familyId == familyId
  {
    Filter(rels, (x: Relationship) => x.familyId == familyId)
  }

  /** An entry of `getFamilyMembers`: the member (undefined when the cache
      lacks the person), the role, the label and the relationship itself. */
  datatype FamilyMember = FamilyMember(person: Option<Person>, role: string, relationshipToOthers: string,
                                       relationship: Relationship)

  /** An entry of `getPersonFamilies`. */
  datatype PersonFamily = PersonFamily(family: Option<Family>, role: string, relationshipToOthers: string,
                                       relationship: Relationship)

  function MemberEntry(people: seq<Person>, rel: Relationship): FamilyMember
  {
    FamilyMember(FindPerson(people, rel.personId), rel.role, rel.relationshipToOthers, rel)
  }

  function FamilyEntry(families: seq<Family>, rel: Relationship): PersonFamily
  {
    PersonFamily(FindFamily(families, rel.familyId), rel.role, rel.relationshipToOthers, rel)
  }

  /** `getFamilyMembers(id)`: one entry per active relationship of the family. */
  function FamilyMembers(rels: seq<Relationship>, people: seq<Person>, familyId: Id): (r: seq<FamilyMember>)
    ensures |r| == |ActiveRelationships(rels, FamilyEnd, familyId)|
    ensures forall i :: 0 <= i < |r| ==> r[i] == MemberEntry(people, ActiveRelationships(rels, FamilyEnd, familyId)[i])
  {
    MapSeq(ActiveRelationships(rels, FamilyEnd, familyId), (rel: Relationship) => MemberEntry(people, rel))
  }

  /** `getPersonFamilies(id)`: one entry per active relationship of the person. */
  function PersonFamilies(rels: seq<Relationship>, families: seq<Family>, personId: Id): (r: seq<PersonFamily>)
    ensures |r| == |ActiveRelationships(rels, PersonEnd, personId)|
    ensures forall i :: 0 <= i < |r| ==> r[i] == FamilyEntry(families, ActiveRelationships(rels, PersonEnd, personId)[i])
  {
    MapSeq(ActiveRelationships(rels, PersonEnd, personId), (rel: Relationship) => FamilyEntry(families, rel))
  }

  /** A relationship is listed among a family's members exactly when it is a
      cached, active relationship of that family; the entry names the person
      the cache holds under the relationship's person id. */
  lemma InFamilyMembers(rels: seq<Relationship>, people: seq<Person>, familyId: Id, r: Relationship)
    ensures (exists e :: e in FamilyMembers(rels, people, familyId) && e.relationship == r)
        <==> r in rels && r.familyId == familyId && r.isActive
    ensures forall e :: e in FamilyMembers(rels, people, familyId) ==>
      e.person == FindPerson(people, e.relationship.personId) && e.role == e.relationship.role
  {
    var fr := ActiveRelationships(rels, FamilyEnd, familyId);
    var fm := FamilyMembers(rels, people, familyId);
    if r in fr {
      var i :| 0 <= i < |fr| && fr[i] == r;
      assert fm[i] in fm && fm[i].relationship == r;
    }
    if e :| e in fm && e.relationship == r {
      var i :| 0 <= i < |fm| && fm[i] == e;
      assert fr[i] in fr;
    }
  }

  /** A relationship is listed among a person's families exactly when it is a
      cached, active relationship of that person. */
  lemma InPersonFamilies(rels: seq<Relationship>, families: seq<Family>, personId: Id, r: Relationship)
    ensures (exists e :: e in PersonFamilies(rels, families, personId) && e.relationship == r)
        <==> r in rels && r.personId == personId && r.isActive
    ensures forall e :: e in PersonFamilies(rels, families, personId) ==>
      e.family == FindFamily(families, e.relationship.familyId) && e.role == e.relationship.role
  {
    var pr := ActiveRelationships(rels, PersonEnd, personId);
    var pf := PersonFamilies(rels, families, personId);
    if r in pr {
      var i :| 0 <= i < |pr| && pr[i] == r;
      assert pf[i] in pf && pf[i].relationship == r;
    }
    if e :| e in pf && e.relationship == r {
      var i :| 0 <= i < |pf| && pf[i] == e;
      assert pr[i] in pr;
    }
  }

  /** Join consistency: relationship `r` lists person `p` among the members of
      family `f` exactly when it lists family `f` among the families of `p`. */
  lemma JoinConsistency(rels: seq<Relationship>, people: seq<Person>, families: seq<Family>,
                        r: Relationship, p: Id, f: Id)
    ensures (exists e :: e in FamilyMembers(rels, people, f) && e.relationship == r && r.personId == p)
        <==> (exists e :: e in PersonFamilies(rels, families, p) && e.relationship == r && r.familyId == f)
  {
    InFamilyMembers(rels, people, f, r);
    InPersonFamilies(rels, families, p, r);
  }

  /** One suggestion of `suggestRelationships`. */
  datatype Suggestion =
    | CreateFamilySuggestion(title: string, description: string, people: seq<Person>)
    | CreateNuclearFamilySuggestion(title: string, description: string, person: Person)

  /** The suggestion's `type` field. */
  function SuggestionType(s: Suggestion): string
  {
    match s
    case CreateFamilySuggestion(_, _, _) => "create_family"
    case CreateNuclearFamilySuggestion(_, _, _) => "create_nuclear_family"
  }

  /** The other active cached people sharing `person`'s last name. */
  function SameLastNamePeople(people: seq<Person>, personId: Id, lastName: string): (r: seq<Person>)
    ensures forall q {:trigger q in r} {:trigger q in people} ::
      q in r <==> q in people && q.id != personId && q.lastName == lastName && q.isActive
  {
    Filter(people, (q: Person) => q.id != personId && q.lastName == lastName && q.isActive)
  }

  function FamilyTitle(lastName: string): string
  {
    "Create " + lastName + " Family"
  }

  function FamilyDescription(count: nat, lastName: string): string
  {
    "Create a family with " + NatToString(count) + " " + lastName + " members"
  }

  function NuclearTitle(firstName: string): string
  {
    "Create Nuclear Family for " + firstName
  }

  const NUCLEAR_DESCRIPTION := "Start a nuclear family where this person can be a parent or child"

  /** The `create_family` suggestion: present exactly when someone else active
      shares the person's last name, and then listing the person first. */
  function FamilySuggestion(people: seq<Person>, person: Person, personId: Id): (r: seq<Suggestion>)
    ensures |r| <= 1
    ensures |r| == 1 <==> exists q :: q in people && q.id != personId && q.lastName == person.lastName && q.isActive
    ensures forall i :: 0 <= i < |r| ==>
      r[i].CreateFamilySuggestion? && r[i].people == [person] + SameLastNamePeople(people, personId, person.lastName)
  {
    var same := SameLastNamePeople(people, personId, person.lastName);
    assert |same| > 0 <==> exists q :: q in people && q.id != personId && q.lastName == person.lastName && q.isActive by {
      if |same| > 0 {
        assert same[0] in same;
      }
    }
    if |same| > 0 then
      [CreateFamilySuggestion(FamilyTitle(person.lastName), FamilyDescription(|same| + 1, person.lastName),
         [person] + same)]
    else []
  }

  /** The `create_nuclear_family` suggestion: present exactly when the person
      has no active relationship. */
  function NuclearSuggestion(rels: seq<Relationship>, families: seq<Family>, person: Person, personId: Id)
    : (r: seq<Suggestion>)
    ensures |r| <= 1
    ensures |r| == 1 <==> forall x :: x in rels ==> !(x.personId == personId && x.isActive)
    ensures forall i :: 0 <= i < |r| ==> r[i].CreateNuclearFamilySuggestion? && r[i].person == person
  {
    var pr := ActiveRelationships(rels, PersonEnd, personId);
    assert |pr| == 0 <==> forall x :: x in rels ==> !(x.personId == personId && x.isActive) by {
      if |pr| > 0 {
        assert pr[0] in pr;
      }
    }
    if |PersonFamilies(rels, families, personId)| == 0 then
      [CreateNuclearFamilySuggestion(NuclearTitle(person.firstName), NUCLEAR_DESCRIPTION, person)]
    else []
  }

  /** At most one suggestion of each kind, the family one first. */
  lemma SuggestionsShape(a: seq<Suggestion>, b: seq<Suggestion>)
    requires |a| <= 1 && |b| <= 1
    requires forall i :: 0 <= i < |a| ==> a[i].CreateFamilySuggestion?
    requires forall i :: 0 <= i < |b| ==> b[i].CreateNuclearFamilySuggestion?
    ensures (exists i :: 0 <= i < |a + b| && (a + b)[i].CreateFamilySuggestion?) <==> |a| == 1
    ensures (exists i :: 0 <= i < |a + b| && (a + b)[i].CreateNuclearFamilySuggestion?) <==> |b| == 1
    ensures forall i :: 0 <= i < |a + b| && (a + b)[i].CreateFamilySuggestion? ==> i == 0 && (a + b)[i] == a[0]
    ensures forall i :: 0 <= i < |a + b| && (a + b)[i].CreateNuclearFamilySuggestion? ==>
      (a + b)[i] == b[0]
  {
    if |a| == 1 {
      assert (a + b)[0] == a[0];
    }
    if |b| == 1 {
      assert (a + b)[|a|] == b[0];
    }
  }

  /** `suggestRelationships(id)`: nothing for an unknown person; otherwise a
      family of everyone sharing the last name when there is anyone else, then
      a nuclear family when the person has no active relationship. */
  function SuggestRelationships(people: seq<Person>, families: seq<Family>, rels: seq<Relationship>,
                                personId: Id): (r: seq<Suggestion>)
    ensures FindPerson(people, personId).None? ==> r == []
    ensures |r| <= 2
    ensures FindPerson(people, personId).Some? ==>
      var person := FindPerson(people, personId).value;
      && ((exists i :: 0 <= i < |r| && r[i].CreateFamilySuggestion?)
          <==> exists q :: q in people && q.id != personId && q.lastName == person.lastName && q.isActive)
      && ((exists i :: 0 <= i < |r| && r[i].CreateNuclearFamilySuggestion?)
          <==> forall x :: x in rels ==> !(x.personId == personId && x.isActive))
      && (forall i :: 0 <= i < |r| && r[i].CreateFamilySuggestion? ==>
            i == 0 && r[i].people == [person] + SameLastNamePeople(people, personId, person.lastName))
      && (forall i :: 0 <= i < |r| && r[i].CreateNuclearFamilySuggestion? ==> r[i].person == person)
  {
    match FindPerson(people, personId)
    case None => []
    case Some(person) =>
      var byName := FamilySuggestion(people, person, personId);
      var nuclear := NuclearSuggestion(rels, families, person, personId);
      SuggestionsShape(byName, nuclear);
      byName + nuclear
  }

  function MemberRole(m: FamilyMember): string
  {
    m.role
  }

  /** `groupMembersByRole(members)`: the members bucketed by role, each bucket
      in member order, and the roles in order of first appearance (the order
      `Object.entries` lists them in). */
  method GroupMembersByRole(members: seq<FamilyMember>) returns (roles: seq<string>, grouped: map<string, seq<FamilyMember>>)
    ensures roles == Distinct(MapSeq(members, MemberRole))
    ensures forall k :: k in grouped <==> k in roles
    ensures forall k :: k in grouped ==> grouped[k] == Bucket(members, MemberRole, k) && grouped[k] != []
    ensures forall k, m {:trigger m in grouped[k]} :: k in grouped ==> (m in grouped[k] <==> m in members && m.role == k)
  {
    roles, grouped := GroupBy(members, MemberRole);
  }
}
