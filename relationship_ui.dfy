/** The decision logic of the relationship views: which people and families
    the two searchable grids show, and the number of families the migration
    dialog announces before the migration runs. */
module RelationshipUi {
  import opened Records
  import opened Seqs
  import opened Text
  import opened Queries
  import opened MigrationRules

  /** The people grid's filter controls: the search box text, the role
      selected ("" for any role) and the family selected (None for any). */
  datatype PeopleFilter = PeopleFilter(search: string, role: string, family: Option<Id>)

  /** The families grid's filter controls: the search box text and the family
      type selected ("" for any type). */
  datatype FamiliesFilter = FamiliesFilter(search: string, familyType: string)

  /** `field.toLowerCase().includes(term)`. */
  predicate FieldMatches(field: string, term: string)
  {
    Contains(ToLower(field), term)
  }

  /** `rels.some(rel => rel.role === role)`. */
  predicate SomeHasRole(rels: seq<Relationship>, role: string)
  {
    exists x :: x in rels && x.role == role
  }

  /** `rels.some(rel => rel.familyId === familyId)`. */
  predicate SomeInFamily(rels: seq<Relationship>, familyId: Id)
  {
    exists x :: x in rels && x.familyId == familyId
  }

  /** The closure `filterPeople` hands to `filter`, over the relationship
      cache `rels`: the search term is lower-cased once, and the role and
      family tests go through the person's active relationships. */
  predicate KeepPerson(rels: seq<Relationship>, f: PeopleFilter, p: Person)
  {
    var term := ToLower(f.search);
    && p.isActive
    && (term == "" || FieldMatches(p.firstName, term) || FieldMatches(p.lastName, term))
    && (f.role == "" || SomeHasRole(ActiveRelationships(rels, PersonEnd, p.id), f.role))
    && (f.family.None? || SomeInFamily(ActiveRelationships(rels, PersonEnd, p.id), f.family.value))
  }

  /** Which people the grid shows, stated on the relationship cache itself:
      an active person whose first or last name contains the search text
      ignoring case, who, when a role is selected, holds that role in some
      active relationship, and who, when a family is selected, belongs to
      it through some active relationship. */
  predicate PersonSelected(rels: seq<Relationship>, f: PeopleFilter, p: Person)
  {
    && p.isActive
    && (f.search == "" || FieldMatches(p.firstName, ToLower(f.search)) || FieldMatches(p.lastName, ToLower(f.search)))
    && (f.role != "" ==> exists x :: x in rels && x.isActive && x.personId == p.id && x.role == f.role)
    && (f.family.Some? ==>
          exists x :: x in rels && x.isActive && x.personId == p.id && x.familyId == f.family.value)
  }

  /** The closure keeps a person exactly when the person is selected. */
  lemma KeepPersonMeaning(rels: seq<Relationship>, f: PeopleFilter, p: Person)
    ensures KeepPerson(rels, f, p) <==> PersonSelected(rels, f, p)
  {
    var mine := ActiveRelationships(rels, PersonEnd, p.id);
    assert SomeHasRole(mine, f.role)
       <==> exists x :: x in rels && x.isActive && x.personId == p.id && x.role == f.role;
    assert f.family.Some? ==>
      (SomeInFamily(mine, f.family.value)
       <==> exists x :: x in rels && x.isActive && x.personId == p.id && x.familyId == f.family.value);
    assert (ToLower(f.search) == "") == (f.search == "");
  }

  /** `filterPeople` over the person cache `people`: the selected people, in
      cache order. */
  function FilterPeople(people: seq<Person>, rels: seq<Relationship>, f: PeopleFilter): (r: seq<Person>)
    ensures forall p {:trigger p in r} :: p in r <==> p in people && PersonSelected(rels, f, p)
    ensures forall i :: 0 <= i < |r| ==> r[i] in people
    ensures |r| <= |people|
  {
    var r := Filter(people, p => KeepPerson(rels, f, p));
    assert forall p :: KeepPerson(rels, f, p) <==> PersonSelected(rels, f, p) by {
      forall p ensures KeepPerson(rels, f, p) <==> PersonSelected(rels, f, p) {
        KeepPersonMeaning(rels, f, p);
      }
    }
    r
  }

  /** The search is case-insensitive: typing the search text in any case
      keeps the same people. */
  lemma PeopleSearchIgnoresCase(rels: seq<Relationship>, f: PeopleFilter, p: Person)
    ensures KeepPerson(rels, f, p) <==> KeepPerson(rels, f.(search := ToLower(f.search)), p)
  {
    ToLowerIdempotent(f.search);
  }

  /** The closure `filterFamilies` hands to `filter`. */
  predicate KeepFamily(f: FamiliesFilter, fam: Family)
  {
    var term := ToLower(f.search);
    && fam.isActive
    && (term == "" || FieldMatches(fam.name, term) || (fam.description != "" && FieldMatches(fam.description, term)))
    && (f.familyType == "" || fam.familyType == f.familyType)
  }

  /** Which families the grid shows: active, with the search text in the name
      or the description ignoring case, and of the selected type, if any. */
  predicate FamilySelected(f: FamiliesFilter, fam: Family)
  {
    && fam.isActive
    && (f.search == "" || FieldMatches(fam.name, ToLower(f.search)) || FieldMatches(fam.description, ToLower(f.search)))
    && (f.familyType != "" ==> fam.familyType == f.familyType)
  }

  /** The closure keeps a family exactly when the family is selected. */
  lemma KeepFamilyMeaning(f: FamiliesFilter, fam: Family)
    ensures KeepFamily(f, fam) <==> FamilySelected(f, fam)
  {
    assert (ToLower(f.search) == "") == (f.search == "");
    if f.search != "" {
      DescriptionGuardRedundant(fam.description, ToLower(f.search));
    }
  }

  /** `filterFamilies` over the family cache: the active families whose name
      or description contains the search text ignoring case and whose type
      is the one selected, if any, in cache order. */
  function FilterFamilies(families: seq<Family>, f: FamiliesFilter): (r: seq<Family>)
    ensures forall fam {:trigger fam in r} :: fam in r <==>
      && fam in families
      && fam.isActive
      && (f.search == "" || FieldMatches(fam.name, ToLower(f.search)) || FieldMatches(fam.description, ToLower(f.search)))
      && (f.familyType != "" ==> fam.familyType == f.familyType)
    ensures forall i :: 0 <= i < |r| ==> r[i] in families
    ensures |r| <= |families|
  {
    assert forall fam :: KeepFamily(f, fam) <==> FamilySelected(f, fam) by {
      forall fam ensures KeepFamily(f, fam) <==> FamilySelected(f, fam) {
        KeepFamilyMeaning(f, fam);
      }
    }
    Filter(families, fam => KeepFamily(f, fam))
  }

  /** The `family.description &&` guard changes nothing: an empty description
      contains no non-empty term. */
  lemma DescriptionGuardRedundant(description: string, term: string)
    requires term != ""
    ensures (description != "" && FieldMatches(description, term)) <==> FieldMatches(description, term)
  {
    if description == "" {
      assert ToLower(description) == "";
      EmptyContainsOnlyEmpty(term);
    }
  }

  /** The family search is case-insensitive too. */
  lemma FamiliesSearchIgnoresCase(f: FamiliesFilter, fam: Family)
    ensures KeepFamily(f, fam) <==> KeepFamily(f.(search := ToLower(f.search)), fam)
  {
    ToLowerIdempotent(f.search);
  }

  /** The keys among `keys` whose group of unassigned members `u` is big. */
  function BigKeySet(u: seq<LegacyMember>, keys: seq<string>): set<string>
  {
    set k | k in keys && IsBigGroup(u, k)
  }

  /** One more key adds itself to the set when its group is big. */
  lemma BigKeySetSnoc(u: seq<LegacyMember>, keys: seq<string>, k: string)
    ensures BigKeySet(u, keys + [k]) == BigKeySet(u, keys) + (if IsBigGroup(u, k) then {k} else {})
  {
    assert forall x :: x in keys + [k] <==> x in keys || x == k;
  }

  /** Distinct keys with a big group, counted one by one, are as many as the
      set of such keys. */
  lemma {:induction false} BigKeysCount(u: seq<LegacyMember>, keys: seq<string>)
    requires NoDuplicates(keys)
    ensures |BigKeys(u, keys)| == |BigKeySet(u, keys)|
  {
    if keys != [] {
      var n := |keys| - 1;
      var init, last := keys[..n], keys[n];
      assert keys == init + [last];
      NoDuplicatesSnoc(init, last);
      BigKeysCount(u, init);
      BigKeySetSnoc(u, init, last);
    }
  }

  /** The count over all the last names is the size of the families plan
      beyond the branches, and the number of last names with a big group. */
  lemma EstimateDone(ms: seq<LegacyMember>, bs: seq<LegacyBranch>, keys: seq<string>, bigGroups: nat)
    requires keys == LastNameKeys(ms)
    requires bigGroups == |BigKeys(Unassigned(ms), keys[..|keys|])|
    ensures |bs| + bigGroups == |FamilyPlan(ms, bs)|
    ensures bigGroups == |BigKeySet(Unassigned(ms), LastNameKeys(ms))|
  {
    assert keys[..|keys|] == keys;
    BigKeysCount(Unassigned(ms), keys);
  }

  /** `estimateFamiliesFromMigration`, with the two legacy lists as optional
      arguments: 0 when either is missing; otherwise one family per branch
      plus one per last name shared by at least two unassigned members, which
      is exactly the number of families the migration creates. */
  method EstimateFamiliesFromMigration(branches: Option<seq<LegacyBranch>>, members: Option<seq<LegacyMember>>)
    returns (n: nat)
    ensures branches.None? || members.None? ==> n == 0
    ensures branches.Some? && members.Some? ==>
      n == |branches.value| + |BigKeySet(Unassigned(members.value), LastNameKeys(members.value))|
    ensures branches.Some? && members.Some? ==> n == |FamilyPlan(members.value, branches.value)|
  {
    if branches.None? || members.None? {
      return 0;
    }
    var bs, ms := branches.value, members.value;
    var unassigned := Filter(ms, IsUnassigned);
    var keys, lastNameGroups := GroupBy(unassigned, LastNameOf);
    var bigGroups := 0;
    for i := 0 to |keys|
      invariant bigGroups == |BigKeys(unassigned, keys[..i])|
    {
      assert keys[i] in keys;
      KeyStep(unassigned, keys, i);
      if |lastNameGroups[keys[i]]| >= 2 {
        bigGroups := bigGroups + 1;
      }
    }
    EstimateDone(ms, bs, keys, bigGroups);
    n := |bs| + bigGroups;
  }
}
