/** The store object `FamilyRelationshipSystem`: its three cached arrays
    (`people`, `families`, `relationships`), the operations that add, update
    and soft-delete records in the document store behind it, the loads that
    refresh the caches, and the migration from the branch-based system.

    The document store is modelled by three more fields, one sequence per
    collection, in which a record's id is its index; `add` appends under the
    next id and an update of an id the collection does not hold fails with
    `NotFound`. The source's `new Date()` is the `now` parameter of each
    operation. */
module RelationshipSystem {
  import opened Records
  import opened Seqs
  import opened Queries
  import opened MigrationRules

  predicate ActivePerson(p: Person)
  {
    p.isActive
  }

  predicate ActiveFamily(f: Family)
  {
    f.isActive
  }

  predicate ActiveRelationship(r: Relationship)
  {
    r.isActive
  }

  function RelationshipIdOf(r: Relationship): Id
  {
    r.id
  }

  /** A relationship as `removeRelationship` leaves it: the store's merge of
      its patch `{ isActive: false, deletedAt: now }`. */
  function Removed(r: Relationship, now: Timestamp): (r': Relationship)
    ensures r' == MergeRelationship(r, [RelationshipIsActive(false), RelationshipDeletedAt(now)])
    ensures !r'.isActive && r'.deletedAt == Some(now) && r'.id == r.id
  {
    SoftDeleteRelationship(r, now);
    r.(isActive := false, deletedAt := Some(now))
  }

  /** Removing a relationship twice at the same instant removes it once. */
  lemma RemovedIdempotent(r: Relationship, now: Timestamp)
    ensures Removed(Removed(r, now), now) == Removed(r, now)
    ensures !Removed(r, now).isActive && Removed(r, now).id == r.id
  {
  }

  /** The ids `deleteFamily` removes: those of the cached relationships of the
      family, active or not, in cache order. */
  function CascadeIds(rels: seq<Relationship>, familyId: Id): (ids: seq<Id>)
    ensures forall r {:trigger r in rels} :: r in rels && r.familyId == familyId ==> r.id in ids
    ensures |ids| == |CachedOfFamily(rels, familyId)|
    ensures forall i :: 0 <= i < |ids| ==>
      && CascadeSource(rels, familyId, i) in rels
      && CascadeSource(rels, familyId, i).familyId == familyId
      && CascadeSource(rels, familyId, i).id == ids[i]
  {
    var c := CachedOfFamily(rels, familyId);
    var ids := MapSeq(c, RelationshipIdOf);
    assert forall r :: r in c ==> r.id in ids by {
      forall r | r in c ensures r.id in ids {
        var i :| 0 <= i < |c| && c[i] == r;
        assert ids[i] == r.id;
      }
    }
    assert forall i :: 0 <= i < |ids| ==> c[i] in c && ids[i] == c[i].id;
    ids
  }

  /** The cached relationship the i-th cascade id comes from. */
  function CascadeSource(rels: seq<Relationship>, familyId: Id, i: nat): (r: Relationship)
    requires i < |CachedOfFamily(rels, familyId)|
    ensures r in rels && r.familyId == familyId
  {
    CachedOfFamily(rels, familyId)[i]
  }

  /** What one more member adds to the shapes of pass 1. */
  lemma PeopleStep(ms: seq<LegacyMember>, i: nat, base: Id, id: Id)
    requires i < |ms| && id == base + i
    ensures MapSeq(ms[..i + 1], LegacyPersonInput) == MapSeq(ms[..i], LegacyPersonInput) + [LegacyPersonInput(ms[i])]
    ensures LegacyIdMap(ms[..i + 1], base) == LegacyIdMap(ms[..i], base)[ms[i].id := id]
  {
    assert ms[..i + 1] == ms[..i] + [ms[i]];
    assert ms[..i + 1][..i] == ms[..i];
    MapSeqSnoc(ms[..i], ms[i], LegacyPersonInput);
  }

  /** What one more branch adds to the shapes of pass 2. */
  lemma BranchStep(ms: seq<LegacyMember>, bs: seq<LegacyBranch>, j: nat)
    requires j < |bs|
    ensures MapSeq(bs[..j + 1], BranchFamilyInput) == MapSeq(bs[..j], BranchFamilyInput) + [BranchFamilyInput(bs[j])]
    ensures BranchGroups(ms, bs[..j + 1])
         == BranchGroups(ms, bs[..j]) + [FamilyGroup(BranchMembers(ms, bs[j].name), BranchPass)]
  {
    assert bs[..j + 1] == bs[..j] + [bs[j]];
    MapSeqSnoc(bs[..j], bs[j], BranchFamilyInput);
    BranchGroupsSnoc(ms, bs[..j], bs[j]);
  }

  /** What one more branch adds to the names of pass 2's family id map. */
  lemma BranchNameStep(bs: seq<LegacyBranch>, j: nat)
    requires j < |bs|
    ensures Elements(MapSeq(bs[..j + 1], BranchName)) == Elements(MapSeq(bs[..j], BranchName)) + {bs[j].name}
  {
    assert bs[..j + 1] == bs[..j] + [bs[j]];
    MapSeqSnoc(bs[..j], bs[j], BranchName);
    ElementsSnoc(MapSeq(bs[..j], BranchName), bs[j].name);
  }

  /** A last name whose group is too small adds no family to pass 3. */
  lemma SmallGroupSkipped(u: seq<LegacyMember>, keys: seq<string>, i: nat)
    requires i < |keys| && !IsBigGroup(u, keys[i])
    ensures BigKeys(u, keys[..i + 1]) == BigKeys(u, keys[..i])
  {
    KeyStep(u, keys, i);
  }

  /** One member stored by pass 1: the stored people and the id map grow by
      that member. */
  lemma PersonStored(ms: seq<LegacyMember>, i: nat, now: Timestamp, p0: seq<Person>, before: seq<Person>,
                     after: seq<Person>, idMap: map<LegacyId, Id>, p: Person)
    requires i < |ms|
    requires before == p0 + NewPeople(|p0|, MapSeq(ms[..i], LegacyPersonInput), now)
    requires idMap == LegacyIdMap(ms[..i], |p0|)
    requires p == NewPerson(|before|, LegacyPersonInput(ms[i]), now)
    requires after == before + [p]
    ensures after == p0 + NewPeople(|p0|, MapSeq(ms[..i + 1], LegacyPersonInput), now)
    ensures idMap[ms[i].id := p.id] == LegacyIdMap(ms[..i + 1], |p0|)
  {
    var xs := MapSeq(ms[..i], LegacyPersonInput);
    PeopleStep(ms, i, |p0|, |before|);
    NewPeopleSnoc(|p0|, xs, LegacyPersonInput(ms[i]), |before|, now);
    StoredAppend(p0, NewPeople(|p0|, xs, now), [p], NewPeople(|p0|, MapSeq(ms[..i + 1], LegacyPersonInput), now),
      before, after);
  }

  /** One branch stored by pass 2: its family and its relationships extend
      the stored runs by the next step of the plan. */
  lemma BranchStored(ms: seq<LegacyMember>, bs: seq<LegacyBranch>, j: nat, idMap: map<LegacyId, Id>,
                     currentYear: int, now: Timestamp, f0: seq<Family>, r0: seq<Relationship>,
                     fams: seq<Family>, rels: seq<Relationship>, fams': seq<Family>, rels': seq<Relationship>)
    requires j < |bs|
    requires fams == f0 + NewFamilies(|f0|, MapSeq(bs[..j], BranchFamilyInput), now)
    requires rels == r0 + NewRelationships(|r0|,
      Flatten(GroupBlocks(BranchGroups(ms, bs[..j]), idMap, |f0|, currentYear)), now)
    requires fams' == fams + [NewFamily(|fams|, BranchFamilyInput(bs[j]), now)]
    requires rels' == rels + NewRelationships(|rels|,
      MemberRelationships(BranchMembers(ms, bs[j].name), idMap, |fams|, BranchPass, currentYear), now)
    ensures fams' == f0 + NewFamilies(|f0|, MapSeq(bs[..j + 1], BranchFamilyInput), now)
    ensures rels' == r0 + NewRelationships(|r0|,
      Flatten(GroupBlocks(BranchGroups(ms, bs[..j + 1]), idMap, |f0|, currentYear)), now)
  {
    var xs := MapSeq(bs[..j], BranchFamilyInput);
    var gs := BranchGroups(ms, bs[..j]);
    var g := FamilyGroup(BranchMembers(ms, bs[j].name), BranchPass);
    var planned := Flatten(GroupBlocks(gs, idMap, |f0|, currentYear));
    var block := MemberRelationships(g.members, idMap, |fams|, BranchPass, currentYear);
    BranchStep(ms, bs, j);
    NewFamiliesSnoc(|f0|, xs, BranchFamilyInput(bs[j]), |fams|, now);
    StoredAppend(f0, NewFamilies(|f0|, xs, now), [NewFamily(|fams|, BranchFamilyInput(bs[j]), now)],
      NewFamilies(|f0|, MapSeq(bs[..j + 1], BranchFamilyInput), now), fams, fams');
    FlattenGroupBlocksSnoc(gs, g, idMap, |f0|, |fams|, currentYear);
    NewRelationshipsAppend(|r0|, planned, block, |rels|, now);
    StoredAppend(r0, NewRelationships(|r0|, planned, now), NewRelationships(|rels|, block, now),
      NewRelationships(|r0|, Flatten(GroupBlocks(BranchGroups(ms, bs[..j + 1]), idMap, |f0|, currentYear)), now),
      rels, rels');
  }

  /** One big last-name group stored by pass 3: its family and its
      relationships extend the stored runs by the next step of the plan. */
  lemma AutoFamilyStored(ms: seq<LegacyMember>, keys: seq<string>, i: nat, idMap: map<LegacyId, Id>,
                         currentYear: int, now: Timestamp, f0: seq<Family>, r0: seq<Relationship>,
                         fams: seq<Family>, rels: seq<Relationship>, fams': seq<Family>, rels': seq<Relationship>)
    requires i < |keys|
    requires fams == f0 + NewFamilies(|f0|, MapSeq(BigKeys(Unassigned(ms), keys[..i]), AutoFamilyInput), now)
    requires rels == r0 + NewRelationships(|r0|,
      Flatten(GroupBlocks(KeyGroups(ms, BigKeys(Unassigned(ms), keys[..i])), idMap, |f0|, currentYear)), now)
    requires IsBigGroup(Unassigned(ms), keys[i])
    requires fams' == fams + [NewFamily(|fams|, AutoFamilyInput(keys[i]), now)]
    requires rels' == rels + NewRelationships(|rels|,
      MemberRelationships(LastNameGroup(ms, keys[i]), idMap, |fams|, GroupingPass, currentYear), now)
    ensures fams' == f0 + NewFamilies(|f0|, MapSeq(BigKeys(Unassigned(ms), keys[..i + 1]), AutoFamilyInput), now)
    ensures rels' == r0 + NewRelationships(|r0|,
      Flatten(GroupBlocks(KeyGroups(ms, BigKeys(Unassigned(ms), keys[..i + 1])), idMap, |f0|, currentYear)), now)
  {
    var made := BigKeys(Unassigned(ms), keys[..i]);
    var xs := MapSeq(made, AutoFamilyInput);
    var gs := KeyGroups(ms, made);
    var g := FamilyGroup(LastNameGroup(ms, keys[i]), GroupingPass);
    var planned := Flatten(GroupBlocks(gs, idMap, |f0|, currentYear));
    var block := MemberRelationships(g.members, idMap, |fams|, GroupingPass, currentYear);
    KeyStep(Unassigned(ms), keys, i);
    MapSeqSnoc(made, keys[i], AutoFamilyInput);
    NewFamiliesSnoc(|f0|, xs, AutoFamilyInput(keys[i]), |fams|, now);
    StoredAppend(f0, NewFamilies(|f0|, xs, now), [NewFamily(|fams|, AutoFamilyInput(keys[i]), now)],
      NewFamilies(|f0|, MapSeq(BigKeys(Unassigned(ms), keys[..i + 1]), AutoFamilyInput), now), fams, fams');
    KeyGroupsSnoc(ms, made, keys[i]);
    FlattenGroupBlocksSnoc(gs, g, idMap, |f0|, |fams|, currentYear);
    NewRelationshipsAppend(|r0|, planned, block, |rels|, now);
    StoredAppend(r0, NewRelationships(|r0|, planned, now), NewRelationships(|rels|, block, now),
      NewRelationships(|r0|, Flatten(GroupBlocks(KeyGroups(ms, BigKeys(Unassigned(ms), keys[..i + 1])), idMap,
                                                 |f0|, currentYear)), now),
      rels, rels');
  }

  /** Pass 2 over all the branches stores the branch families of the plan. */
  lemma BranchesDone(ms: seq<LegacyMember>, bs: seq<LegacyBranch>, idMap: map<LegacyId, Id>, currentYear: int,
                     now: Timestamp, f0: seq<Family>, r0: seq<Relationship>, fams: seq<Family>,
                     rels: seq<Relationship>)
    requires fams == f0 + NewFamilies(|f0|, MapSeq(bs[..|bs|], BranchFamilyInput), now)
    requires rels == r0 + NewRelationships(|r0|,
      Flatten(GroupBlocks(BranchGroups(ms, bs[..|bs|]), idMap, |f0|, currentYear)), now)
    ensures fams == f0 + NewFamilies(|f0|, MapSeq(bs, BranchFamilyInput), now)
    ensures rels == r0 + NewRelationships(|r0|, Flatten(GroupBlocks(BranchGroups(ms, bs), idMap, |f0|, currentYear)), now)
    ensures Elements(MapSeq(bs[..|bs|], BranchName)) == Elements(MapSeq(bs, BranchName))
  {
    assert bs[..|bs|] == bs;
  }

  /** Pass 3 over all the last names stores the auto families of the plan. */
  lemma LastNamesDone(ms: seq<LegacyMember>, keys: seq<string>, idMap: map<LegacyId, Id>, currentYear: int,
                      now: Timestamp, f0: seq<Family>, r0: seq<Relationship>, fams: seq<Family>,
                      rels: seq<Relationship>)
    requires keys == LastNameKeys(ms)
    requires fams == f0 + NewFamilies(|f0|, MapSeq(BigKeys(Unassigned(ms), keys[..|keys|]), AutoFamilyInput), now)
    requires rels == r0 + NewRelationships(|r0|,
      Flatten(GroupBlocks(KeyGroups(ms, BigKeys(Unassigned(ms), keys[..|keys|])), idMap, |f0|, currentYear)), now)
    ensures fams == f0 + NewFamilies(|f0|, AutoFamilies(Unassigned(ms), LastNameKeys(ms)), now)
    ensures rels == r0 + NewRelationships(|r0|, Flatten(GroupBlocks(AutoGroups(ms), idMap, |f0|, currentYear)), now)
  {
    assert keys[..|keys|] == keys;
  }

  /** Passes 2 and 3 together store exactly the families and relationships
      of the migration plan. */
  lemma PassesStored(ms: seq<LegacyMember>, bs: seq<LegacyBranch>, personBase: Id, currentYear: int,
                     now: Timestamp, f0: seq<Family>, f1: seq<Family>, f2: seq<Family>,
                     r0: seq<Relationship>, r1: seq<Relationship>, r2: seq<Relationship>)
    requires f1 == f0 + NewFamilies(|f0|, MapSeq(bs, BranchFamilyInput), now)
    requires f2 == f1 + NewFamilies(|f1|, AutoFamilies(Unassigned(ms), LastNameKeys(ms)), now)
    requires r1 == r0 + NewRelationships(|r0|,
      Flatten(GroupBlocks(BranchGroups(ms, bs), LegacyIdMap(ms, personBase), |f0|, currentYear)), now)
    requires r2 == r1 + NewRelationships(|r1|,
      Flatten(GroupBlocks(AutoGroups(ms), LegacyIdMap(ms, personBase), |f1|, currentYear)), now)
    ensures f2 == f0 + NewFamilies(|f0|, FamilyPlan(ms, bs), now)
    ensures r2 == r0 + NewRelationships(|r0|, RelationshipPlan(ms, bs, personBase, |f0|, currentYear), now)
  {
    var idMap := LegacyIdMap(ms, personBase);
    var branchFams := MapSeq(bs, BranchFamilyInput);
    var autoFams := AutoFamilies(Unassigned(ms), LastNameKeys(ms));
    var branchRels := Flatten(GroupBlocks(BranchGroups(ms, bs), idMap, |f0|, currentYear));
    var autoRels := Flatten(GroupBlocks(AutoGroups(ms), idMap, |f1|, currentYear));
    NewFamiliesAppend(|f0|, branchFams, autoFams, |f1|, now);
    StoredAppend(f0, NewFamilies(|f0|, branchFams, now), NewFamilies(|f1|, autoFams, now),
      NewFamilies(|f0|, FamilyPlan(ms, bs), now), f1, f2);
    GroupBlocksAppend(BranchGroups(ms, bs), AutoGroups(ms), idMap, |f0|, |f1|, currentYear);
    NewRelationshipsAppend(|r0|, branchRels, autoRels, |r1|, now);
    StoredAppend(r0, NewRelationships(|r0|, branchRels, now), NewRelationships(|r1|, autoRels, now),
      NewRelationships(|r0|, RelationshipPlan(ms, bs, personBase, |f0|, currentYear), now), r1, r2);
  }

  class FamilyRelationshipSystem {
    /** The caches the query methods read, filled by the loads. */
    var people: seq<Person>
    var families: seq<Family>
    var relationships: seq<Relationship>

    /** The document store's three collections, indexed by document id. */
    var peopleDb: seq<Person>
    var familiesDb: seq<Family>
    var relationshipsDb: seq<Relationship>

    /** Every stored record carries its own document id, and every cached
        record's id is one the store holds. */
    ghost predicate Valid()
      reads this
    {
      && (forall k :: 0 <= k < |peopleDb| ==> peopleDb[k].id == k)
      && (forall k :: 0 <= k < |familiesDb| ==> familiesDb[k].id == k)
      && (forall k :: 0 <= k < |relationshipsDb| ==> relationshipsDb[k].id == k)
      && (forall p {:trigger p in people} :: p in people ==> p.id < |peopleDb|)
      && (forall f {:trigger f in families} :: f in families ==> f.id < |familiesDb|)
      && (forall r {:trigger r in relationships} :: r in relationships ==> r.id < |relationshipsDb|)
    }

    /** A store over existing collections, with empty caches. */
    constructor (storedPeople: seq<Person>, storedFamilies: seq<Family>, storedRelationships: seq<Relationship>)
      requires forall k :: 0 <= k < |storedPeople| ==> storedPeople[k].id == k
      requires forall k :: 0 <= k < |storedFamilies| ==> storedFamilies[k].id == k
      requires forall k :: 0 <= k < |storedRelationships| ==> storedRelationships[k].id == k
      ensures Valid()
      ensures people == [] && families == [] && relationships == []
      ensures peopleDb == storedPeople && familiesDb == storedFamilies && relationshipsDb == storedRelationships
    {
      people, families, relationships := [], [], [];
      peopleDb, familiesDb, relationshipsDb := storedPeople, storedFamilies, storedRelationships;
    }

    /** `addPerson`: stores a new active person under the next id and returns
        it; the cache is left alone until the next load. */
    method AddPerson(data: PersonInput, now: Timestamp) returns (p: Person)
      requires Valid()
      modifies this
      ensures Valid()
      ensures p == NewPerson(|old(peopleDb)|, data, now)
      ensures peopleDb == old(peopleDb) + [p]
      ensures familiesDb == old(familiesDb) && relationshipsDb == old(relationshipsDb)
      ensures people == old(people) && families == old(families) && relationships == old(relationships)
    {
      p := NewPerson(|peopleDb|, data, now);
      peopleDb := peopleDb + [p];
    }

    /** `updatePerson`: merges the patch, then the update time, into the
        stored person. */
    method UpdatePerson(id: Id, patch: seq<PersonField>, now: Timestamp) returns (o: Outcome)
      requires Valid()
      modifies this
      ensures Valid()
      ensures o == Done <==> id < |old(peopleDb)|
      ensures o.Fail? ==> o.error == NotFound && peopleDb == old(peopleDb)
      ensures o == Done ==>
        && peopleDb == old(peopleDb)[id := MergePerson(old(peopleDb)[id], patch + [PersonUpdatedAt(now)])]
        && peopleDb[id].updatedAt == Some(now)
      ensures familiesDb == old(familiesDb) && relationshipsDb == old(relationshipsDb)
      ensures people == old(people) && families == old(families) && relationships == old(relationships)
    {
      if id < |peopleDb| {
        var p := peopleDb[id];
        MergePersonSnoc(p, patch, PersonUpdatedAt(now));
        peopleDb := peopleDb[id := MergePerson(p, patch + [PersonUpdatedAt(now)])];
        o := Done;
      } else {
        o := Fail(NotFound);
      }
    }

    /** `deletePerson`: a soft delete through `updatePerson`, so the person
        is marked inactive and stamped with both the deletion and the update
        time; nothing else changes. */
    method DeletePerson(id: Id, now: Timestamp) returns (o: Outcome)
      requires Valid()
      modifies this
      ensures Valid()
      ensures o == Done <==> id < |old(peopleDb)|
      ensures o.Fail? ==> o.error == NotFound && peopleDb == old(peopleDb)
      ensures o == Done ==>
        peopleDb == old(peopleDb)[id := old(peopleDb)[id].(isActive := false, deletedAt := Some(now),
                                                           updatedAt := Some(now))]
      ensures familiesDb == old(familiesDb) && relationshipsDb == old(relationshipsDb)
      ensures people == old(people) && families == old(families) && relationships == old(relationships)
    {
      if id < |peopleDb| {
        SoftDeletePerson(peopleDb[id], now);
      }
      o := UpdatePerson(id, [PersonIsActive(false), PersonDeletedAt(now)], now);
    }

    /** `createFamily`: stores a new active family under the next id. */
    method CreateFamily(data: FamilyInput, now: Timestamp) returns (f: Family)
      requires Valid()
      modifies this
      ensures Valid()
      ensures f == NewFamily(|old(familiesDb)|, data, now)
      ensures familiesDb == old(familiesDb) + [f]
      ensures peopleDb == old(peopleDb) && relationshipsDb == old(relationshipsDb)
      ensures people == old(people) && families == old(families) && relationships == old(relationships)
    {
      f := NewFamily(|familiesDb|, data, now);
      familiesDb := familiesDb + [f];
    }

    /** `updateFamily`: merges the patch, then the update time. */
    method UpdateFamily(id: Id, patch: seq<FamilyField>, now: Timestamp) returns (o: Outcome)
      requires Valid()
      modifies this
      ensures Valid()
      ensures o == Done <==> id < |old(familiesDb)|
      ensures o.Fail? ==> o.error == NotFound && familiesDb == old(familiesDb)
      ensures o == Done ==>
        && familiesDb == old(familiesDb)[id := MergeFamily(old(familiesDb)[id], patch + [FamilyUpdatedAt(now)])]
        && familiesDb[id].updatedAt == Some(now)
      ensures peopleDb == old(peopleDb) && relationshipsDb == old(relationshipsDb)
      ensures people == old(people) && families == old(families) && relationships == old(relationships)
    {
      if id < |familiesDb| {
        var f := familiesDb[id];
        MergeFamilySnoc(f, patch, FamilyUpdatedAt(now));
        familiesDb := familiesDb[id := MergeFamily(f, patch + [FamilyUpdatedAt(now)])];
        o := Done;
      } else {
        o := Fail(NotFound);
      }
    }

    /** `deleteFamily`: soft-deletes the family through `updateFamily`, then
        removes every cached relationship of the family, active or not. When
        the family update fails nothing is removed. */
    method DeleteFamily(familyId: Id, now: Timestamp) returns (o: Outcome)
      requires Valid()
      modifies this
      ensures Valid()
      ensures o == Done <==> familyId < |old(familiesDb)|
      ensures o.Fail? ==> o.error == NotFound && familiesDb == old(familiesDb) && relationshipsDb == old(relationshipsDb)
      ensures o == Done ==>
        familiesDb == old(familiesDb)[familyId := old(familiesDb)[familyId].(isActive := false,
                                               deletedAt := Some(now), updatedAt := Some(now))]
      ensures o == Done ==>
        && |relationshipsDb| == |old(relationshipsDb)|
        && forall k :: 0 <= k < |relationshipsDb| ==>
             relationshipsDb[k] == if k in CascadeIds(old(relationships), familyId)
                                   then Removed(old(relationshipsDb)[k], now) else old(relationshipsDb)[k]
      ensures o == Done ==> forall r :: r in old(relationships) && r.familyId == familyId ==>
        !relationshipsDb[r.id].isActive
      ensures peopleDb == old(peopleDb)
      ensures people == old(people) && families == old(families) && relationships == old(relationships)
    {
      if familyId < |familiesDb| {
        SoftDeleteFamily(familiesDb[familyId], now);
      }
      o := UpdateFamily(familyId, [FamilyIsActive(false), FamilyDeletedAt(now)], now);
      if o.Fail? {
        return;
      }
      var ids := CascadeIds(relationships, familyId);
      forall i | 0 <= i < |ids| ensures ids[i] < |relationshipsDb| {
        assert CascadeSource(relationships, familyId, i) in relationships;
      }
      RemoveRelationships(ids, now);
      forall r | r in old(relationships) && r.familyId == familyId
        ensures !relationshipsDb[r.id].isActive
      {
        assert r.id in ids;
      }
    }

    /** The loop of `deleteFamily`: `removeRelationship` for each id in turn.
        Every id is one the store holds, so no removal fails. */
    method RemoveRelationships(ids: seq<Id>, now: Timestamp)
      requires Valid()
      requires forall i :: 0 <= i < |ids| ==> ids[i] < |relationshipsDb|
      modifies this
      ensures Valid()
      ensures |relationshipsDb| == |old(relationshipsDb)|
      ensures forall k :: 0 <= k < |relationshipsDb| ==>
        relationshipsDb[k] == if k in ids then Removed(old(relationshipsDb)[k], now) else old(relationshipsDb)[k]
      ensures peopleDb == old(peopleDb) && familiesDb == old(familiesDb)
      ensures people == old(people) && families == old(families) && relationships == old(relationships)
    {
      for i := 0 to |ids|
        invariant Valid()
        invariant |relationshipsDb| == |old(relationshipsDb)|
        invariant forall k :: 0 <= k < |relationshipsDb| ==>
          relationshipsDb[k] == if k in ids[..i] then Removed(old(relationshipsDb)[k], now) else old(relationshipsDb)[k]
        invariant peopleDb == old(peopleDb) && familiesDb == old(familiesDb)
        invariant people == old(people) && families == old(families) && relationships == old(relationships)
      {
        assert ids[..i + 1] == ids[..i] + [ids[i]];
        RemovedIdempotent(old(relationshipsDb)[ids[i]], now);
        var removed := RemoveRelationship(ids[i], now);
      }
      assert ids[..|ids|] == ids;
    }

    /** `addRelationship`: stores a new active relationship under the next id. */
    method AddRelationship(data: RelationshipInput, now: Timestamp) returns (r: Relationship)
      requires Valid()
      modifies this
      ensures Valid()
      ensures r == NewRelationship(|old(relationshipsDb)|, data, now)
      ensures relationshipsDb == old(relationshipsDb) + [r]
      ensures peopleDb == old(peopleDb) && familiesDb == old(familiesDb)
      ensures people == old(people) && families == old(families) && relationships == old(relationships)
    {
      r := NewRelationship(|relationshipsDb|, data, now);
      relationshipsDb := relationshipsDb + [r];
    }

    /** `updateRelationship`: merges the patch, then the update time. */
    method UpdateRelationship(id: Id, patch: seq<RelationshipField>, now: Timestamp) returns (o: Outcome)
      requires Valid()
      modifies this
      ensures Valid()
      ensures o == Done <==> id < |old(relationshipsDb)|
      ensures o.Fail? ==> o.error == NotFound && relationshipsDb == old(relationshipsDb)
      ensures o == Done ==>
        && relationshipsDb == old(relationshipsDb)[id := MergeRelationship(old(relationshipsDb)[id],
                                                                          patch + [RelationshipUpdatedAt(now)])]
        && relationshipsDb[id].updatedAt == Some(now)
      ensures peopleDb == old(peopleDb) && familiesDb == old(familiesDb)
      ensures people == old(people) && families == old(families) && relationships == old(relationships)
    {
      if id < |relationshipsDb| {
        var r := relationshipsDb[id];
        MergeRelationshipSnoc(r, patch, RelationshipUpdatedAt(now));
        relationshipsDb := relationshipsDb[id := MergeRelationship(r, patch + [RelationshipUpdatedAt(now)])];
        o := Done;
      } else {
        o := Fail(NotFound);
      }
    }

    /** `removeRelationship`: marks the relationship inactive and stamps the
        deletion time, without an update time. */
    method RemoveRelationship(id: Id, now: Timestamp) returns (o: Outcome)
      requires Valid()
      modifies this
      ensures Valid()
      ensures o == Done <==> id < |old(relationshipsDb)|
      ensures o.Fail? ==> o.error == NotFound && relationshipsDb == old(relationshipsDb)
      ensures o == Done ==> relationshipsDb == old(relationshipsDb)[id := Removed(old(relationshipsDb)[id], now)]
      ensures peopleDb == old(peopleDb) && familiesDb == old(familiesDb)
      ensures people == old(people) && families == old(families) && relationships == old(relationships)
    {
      if id < |relationshipsDb| {
        var r := relationshipsDb[id];
        SoftDeleteRelationship(r, now);
        relationshipsDb := relationshipsDb[id := MergeRelationship(r, [RelationshipIsActive(false),
                                                                      RelationshipDeletedAt(now)])];
        o := Done;
      } else {
        o := Fail(NotFound);
      }
    }

    /** `loadPeople`: the cache becomes the active stored people, in id order. */
    method LoadPeople()
      requires Valid()
      modifies this
      ensures Valid()
      ensures people == Filter(peopleDb, ActivePerson)
      ensures forall p {:trigger p in people} :: p in people <==> p in peopleDb && p.isActive
      ensures peopleDb == old(peopleDb) && familiesDb == old(familiesDb) && relationshipsDb == old(relationshipsDb)
      ensures families == old(families) && relationships == old(relationships)
    {
      people := Filter(peopleDb, ActivePerson);
    }

    /** `loadFamilies`: the cache becomes the active stored families. */
    method LoadFamilies()
      requires Valid()
      modifies this
      ensures Valid()
      ensures families == Filter(familiesDb, ActiveFamily)
      ensures forall f {:trigger f in families} :: f in families <==> f in familiesDb && f.isActive
      ensures peopleDb == old(peopleDb) && familiesDb == old(familiesDb) && relationshipsDb == old(relationshipsDb)
      ensures people == old(people) && relationships == old(relationships)
    {
      families := Filter(familiesDb, ActiveFamily);
    }

    /** `loadRelationships`: the cache becomes the active stored relationships. */
    method LoadRelationships()
      requires Valid()
      modifies this
      ensures Valid()
      ensures relationships == Filter(relationshipsDb, ActiveRelationship)
      ensures forall r {:trigger r in relationships} :: r in relationships <==> r in relationshipsDb && r.isActive
      ensures peopleDb == old(peopleDb) && familiesDb == old(familiesDb) && relationshipsDb == old(relationshipsDb)
      ensures people == old(people) && families == old(families)
    {
      relationships := Filter(relationshipsDb, ActiveRelationship);
    }

    /** `loadAllData`: all three loads. */
    method LoadAllData()
      requires Valid()
      modifies this
      ensures Valid()
      ensures people == Filter(peopleDb, ActivePerson)
      ensures families == Filter(familiesDb, ActiveFamily)
      ensures relationships == Filter(relationshipsDb, ActiveRelationship)
      ensures peopleDb == old(peopleDb) && familiesDb == old(familiesDb) && relationshipsDb == old(relationshipsDb)
    {
      LoadPeople();
      LoadFamilies();
      LoadRelationships();
    }

    /** Pass 1 of `migrateFromOldSystem`: one person per legacy member, in
        member order, and the map from legacy ids to the new ids. */
    method MigratePeople(ms: seq<LegacyMember>, now: Timestamp) returns (idMap: map<LegacyId, Id>)
      requires Valid()
      modifies this
      ensures Valid()
      ensures idMap == LegacyIdMap(ms, |old(peopleDb)|)
      ensures peopleDb == old(peopleDb) + NewPeople(|old(peopleDb)|, MapSeq(ms, LegacyPersonInput), now)
      ensures familiesDb == old(familiesDb) && relationshipsDb == old(relationshipsDb)
      ensures people == old(people) && families == old(families) && relationships == old(relationships)
    {
      ghost var p0 := peopleDb;
      idMap := map[];
      for i := 0 to |ms|
        invariant Valid()
        invariant idMap == LegacyIdMap(ms[..i], |p0|)
        invariant peopleDb == p0 + NewPeople(|p0|, MapSeq(ms[..i], LegacyPersonInput), now)
        invariant familiesDb == old(familiesDb) && relationshipsDb == old(relationshipsDb)
        invariant people == old(people) && families == old(families) && relationships == old(relationships)
      {
        ghost var before := peopleDb;
        var p := AddPerson(LegacyPersonInput(ms[i]), now);
        PersonStored(ms, i, now, p0, before, peopleDb, idMap, p);
        idMap := idMap[ms[i].id := p.id];
      }
      assert ms[..|ms|] == ms;
    }

    /** The inner loop of passes 2 and 3: a relationship to family
        `familyId` for each member whose legacy id the id map knows, in
        member order. */
    method AddMemberRelationships(members: seq<LegacyMember>, idMap: map<LegacyId, Id>, familyId: Id,
                                  pass: Pass, currentYear: int, now: Timestamp)
      requires Valid()
      modifies this
      ensures Valid()
      ensures relationshipsDb == old(relationshipsDb)
        + NewRelationships(|old(relationshipsDb)|, MemberRelationships(members, idMap, familyId, pass, currentYear), now)
      ensures peopleDb == old(peopleDb) && familiesDb == old(familiesDb)
      ensures people == old(people) && families == old(families) && relationships == old(relationships)
    {
      ghost var base := |relationshipsDb|;
      for k := 0 to |members|
        invariant Valid()
        invariant relationshipsDb == old(relationshipsDb)
          + NewRelationships(base, MemberRelationships(members[..k], idMap, familyId, pass, currentYear), now)
        invariant peopleDb == old(peopleDb) && familiesDb == old(familiesDb)
        invariant people == old(people) && families == old(families) && relationships == old(relationships)
      {
        ghost var done := MemberRelationships(members[..k], idMap, familyId, pass, currentYear);
        assert members[..k + 1][..k] == members[..k];
        assert members[..k + 1][k] == members[k];
        if members[k].id in idMap {
          var d := MemberRelationship(members[k], idMap, familyId, pass, currentYear);
          NewRelationshipsSnoc(base, done, d, |relationshipsDb|, now);
          var r := AddRelationship(d, now);
        }
      }
      assert members[..|members|] == members;
    }

    /** One step of pass 2: the family of branch `b` and a relationship to it
        per member of the branch. */
    method MigrateBranch(ms: seq<LegacyMember>, b: LegacyBranch, idMap: map<LegacyId, Id>, currentYear: int,
                         now: Timestamp) returns (familyId: Id)
      requires Valid()
      modifies this
      ensures Valid()
      ensures familyId == |old(familiesDb)|
      ensures familiesDb == old(familiesDb) + [NewFamily(familyId, BranchFamilyInput(b), now)]
      ensures relationshipsDb == old(relationshipsDb) + NewRelationships(|old(relationshipsDb)|,
        MemberRelationships(BranchMembers(ms, b.name), idMap, familyId, BranchPass, currentYear), now)
      ensures peopleDb == old(peopleDb)
      ensures people == old(people) && families == old(families) && relationships == old(relationships)
    {
      var f := CreateFamily(BranchFamilyInput(b), now);
      var members := BranchMembers(ms, b.name);
      AddMemberRelationships(members, idMap, f.id, BranchPass, currentYear, now);
      familyId := f.id;
    }

    /** The store after pass 3 has handled the first `i` last names of
        `keys`: the families and relationships of the big groups among them,
        after `f0` and `r0`. */
    ghost predicate LastNamesStored(ms: seq<LegacyMember>, keys: seq<string>, i: nat, idMap: map<LegacyId, Id>,
                                    currentYear: int, now: Timestamp, f0: seq<Family>, r0: seq<Relationship>)
      requires i <= |keys|
      reads this
    {
      && familiesDb == f0 + NewFamilies(|f0|, MapSeq(BigKeys(Unassigned(ms), keys[..i]), AutoFamilyInput), now)
      && relationshipsDb == r0 + NewRelationships(|r0|,
        Flatten(GroupBlocks(KeyGroups(ms, BigKeys(Unassigned(ms), keys[..i])), idMap, |f0|, currentYear)), now)
    }

    /** One step of pass 3, for the i-th last name: a family and its
        relationships when the group has at least two members, nothing
        otherwise. The stored runs grow by that step of the plan. */
    method MigrateLastName(ms: seq<LegacyMember>, keys: seq<string>, groups: map<string, seq<LegacyMember>>, i: nat,
                           idMap: map<LegacyId, Id>, currentYear: int, now: Timestamp,
                           ghost f0: seq<Family>, ghost r0: seq<Relationship>)
      requires Valid()
      requires i < |keys| && keys[i] in groups && groups[keys[i]] == LastNameGroup(ms, keys[i])
      requires LastNamesStored(ms, keys, i, idMap, currentYear, now, f0, r0)
      modifies this
      ensures Valid()
      ensures LastNamesStored(ms, keys, i + 1, idMap, currentYear, now, f0, r0)
      ensures peopleDb == old(peopleDb)
      ensures people == old(people) && families == old(families) && relationships == old(relationships)
    {
      var lastName := keys[i];
      var members := groups[lastName];
      if |members| >= 2 {
        ghost var fams, rels := familiesDb, relationshipsDb;
        var f := CreateFamily(AutoFamilyInput(lastName), now);
        AddMemberRelationships(members, idMap, f.id, GroupingPass, currentYear, now);
        AutoFamilyStored(ms, keys, i, idMap, currentYear, now, f0, r0, fams, rels, familiesDb, relationshipsDb);
      } else {
        SmallGroupSkipped(Unassigned(ms), keys, i);
      }
    }

    /** Pass 2: a family per legacy branch, in branch order, each with a
        relationship per member of the branch; and the map from branch names
        to the new family ids. */
    method MigrateBranches(ms: seq<LegacyMember>, bs: seq<LegacyBranch>, idMap: map<LegacyId, Id>,
                           currentYear: int, now: Timestamp) returns (familyIdMap: map<string, Id>)
      requires Valid()
      modifies this
      ensures Valid()
      ensures familiesDb == old(familiesDb) + NewFamilies(|old(familiesDb)|, MapSeq(bs, BranchFamilyInput), now)
      ensures relationshipsDb == old(relationshipsDb) + NewRelationships(|old(relationshipsDb)|,
        Flatten(GroupBlocks(BranchGroups(ms, bs), idMap, |old(familiesDb)|, currentYear)), now)
      ensures familyIdMap.Keys == Elements(MapSeq(bs, BranchName))
      ensures peopleDb == old(peopleDb)
      ensures people == old(people) && families == old(families) && relationships == old(relationships)
    {
      ghost var f0, r0 := familiesDb, relationshipsDb;
      familyIdMap := map[];
      for j := 0 to |bs|
        invariant Valid()
        invariant familiesDb == f0 + NewFamilies(|f0|, MapSeq(bs[..j], BranchFamilyInput), now)
        invariant relationshipsDb == r0
          + NewRelationships(|r0|, Flatten(GroupBlocks(BranchGroups(ms, bs[..j]), idMap, |f0|, currentYear)), now)
        invariant familyIdMap.Keys == Elements(MapSeq(bs[..j], BranchName))
        invariant peopleDb == old(peopleDb)
        invariant people == old(people) && families == old(families) && relationships == old(relationships)
      {
        ghost var fams, rels := familiesDb, relationshipsDb;
        BranchNameStep(bs, j);
        var familyId := MigrateBranch(ms, bs[j], idMap, currentYear, now);
        BranchStored(ms, bs, j, idMap, currentYear, now, f0, r0, fams, rels, familiesDb, relationshipsDb);
        KeysSnoc(familyIdMap, Elements(MapSeq(bs[..j], BranchName)), bs[j].name, familyId,
          Elements(MapSeq(bs[..j + 1], BranchName)));
        familyIdMap := familyIdMap[bs[j].name := familyId];
      }
      BranchesDone(ms, bs, idMap, currentYear, now, f0, r0, familiesDb, relationshipsDb);
    }

    /** Pass 3: the unassigned members grouped by last name, in order of
        first occurrence; a family for each group of at least two, each with
        a relationship per member of the group. */
    method MigrateUnassigned(ms: seq<LegacyMember>, idMap: map<LegacyId, Id>, currentYear: int, now: Timestamp)
      requires Valid()
      modifies this
      ensures Valid()
      ensures familiesDb == old(familiesDb)
        + NewFamilies(|old(familiesDb)|, AutoFamilies(Unassigned(ms), LastNameKeys(ms)), now)
      ensures relationshipsDb == old(relationshipsDb) + NewRelationships(|old(relationshipsDb)|,
        Flatten(GroupBlocks(AutoGroups(ms), idMap, |old(familiesDb)|, currentYear)), now)
      ensures peopleDb == old(peopleDb)
      ensures people == old(people) && families == old(families) && relationships == old(relationships)
    {
      ghost var f0, r0 := familiesDb, relationshipsDb;
      var unassigned := Unassigned(ms);
      var keys, lastNameGroups := GroupBy(unassigned, LastNameOf);
      for i := 0 to |keys|
        invariant Valid()
        invariant LastNamesStored(ms, keys, i, idMap, currentYear, now, f0, r0)
        invariant peopleDb == old(peopleDb)
        invariant people == old(people) && families == old(families) && relationships == old(relationships)
      {
        assert keys[i] in keys;
        MigrateLastName(ms, keys, lastNameGroups, i, idMap, currentYear, now, f0, r0);
      }
      LastNamesDone(ms, keys, idMap, currentYear, now, f0, r0, familiesDb, relationshipsDb);
    }

    /** `migrateFromOldSystem`: people, then branch families, then auto
        families, then a reload. The store gains exactly the records the
        migration plan names, in order; the counts returned are the sizes of
        the two id maps and of the reloaded relationship cache. */
    method MigrateFromOldSystem(ms: seq<LegacyMember>, bs: seq<LegacyBranch>, currentYear: int, now: Timestamp)
      returns (peopleCreated: nat, familiesCreated: nat, relationshipsCreated: nat)
      requires Valid()
      modifies this
      ensures Valid()
      ensures peopleDb == old(peopleDb) + NewPeople(|old(peopleDb)|, MapSeq(ms, LegacyPersonInput), now)
      ensures familiesDb == old(familiesDb) + NewFamilies(|old(familiesDb)|, FamilyPlan(ms, bs), now)
      ensures relationshipsDb == old(relationshipsDb) + NewRelationships(|old(relationshipsDb)|,
        RelationshipPlan(ms, bs, |old(peopleDb)|, |old(familiesDb)|, currentYear), now)
      ensures people == Filter(peopleDb, ActivePerson)
      ensures families == Filter(familiesDb, ActiveFamily)
      ensures relationships == Filter(relationshipsDb, ActiveRelationship)
      ensures peopleCreated == |LegacyIdMap(ms, |old(peopleDb)|)|
      ensures familiesCreated == |Elements(MapSeq(bs, BranchName))|
      ensures relationshipsCreated == |relationships|
    {
      ghost var pb, f0, r0 := |peopleDb|, familiesDb, relationshipsDb;
      var idMap := MigratePeople(ms, now);
      var familyIdMap := MigrateBranches(ms, bs, idMap, currentYear, now);
      ghost var f1, r1 := familiesDb, relationshipsDb;
      MigrateUnassigned(ms, idMap, currentYear, now);
      PassesStored(ms, bs, pb, currentYear, now, f0, f1, familiesDb, r0, r1, relationshipsDb);
      LoadAllData();
      assert |familyIdMap| == |familyIdMap.Keys|;
      peopleCreated, familiesCreated, relationshipsCreated := |idMap|, |familyIdMap|, |relationships|;
    }
  }
}
