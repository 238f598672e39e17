/** The rules of the migration from the branch-based family tree to the
    relationship store: the helper functions that convert a branch type and
    infer a role, and, as pure functions of the legacy data, the records each
    of the migration's three passes asks the store to create. The store's
    migration method (module RelationshipSystem) is proved to create exactly
    these records, and the estimate the page shows before migrating (module
    RelationshipUi) is proved to count exactly these families. */
module MigrationRules {
  import opened Records
  import opened Text
  import opened Seqs

  /** The id of a member of the legacy system. */
  type LegacyId = string

  /** A member of the legacy system. `familyBranch` is the name of the branch the
      member belongs to, `None` when the field is absent; `relationship` is a
      free-text label such as "Father", `""` when absent. The legacy record's
      own e-mail address, if any, is not part of the data the migration reads. */
  datatype LegacyMember = LegacyMember(
    id: LegacyId,
    firstName: string,
    lastName: string,
    birthMonth: string,
    birthDay: int,
    birthYear: int,            // 0 when absent
    contact: Contact,
    familyBranch: Option<string>,
    relationship: string)

  /** A branch of the legacy system. */
  datatype LegacyBranch = LegacyBranch(
    name: string,
    description: string,
    branchType: string,        // "" when absent
    generationLevel: int)      // 0 when absent

  const MIGRATION_CREATOR := "migration_from_old_system"
  const AUTO_GROUPING_CREATOR := "migration_auto_grouping"

  /** The age assumed for a member without a birth year. */
  const DEFAULT_AGE := 25

  /** The family type of a converted branch; unknown or missing branch types
      become "nuclear". */
  function ConvertBranchTypeToFamilyType(branchType: string): (t: string)
    ensures t == "nuclear" || t == "extended" || t == "ancestral"
    ensures t == "ancestral" <==> branchType == "ancestral_branch"
    ensures t == "extended" <==> branchType == "grandparent_branch" || branchType == "extended_family"
  {
    if branchType == "nuclear_family" then "nuclear"
    else if branchType == "grandparent_branch" then "extended"
    else if branchType == "ancestral_branch" then "ancestral"
    else if branchType == "extended_family" then "extended"
    else "nuclear"
  }

  /** A member's age in `currentYear`, the default age when the birth year is
      missing. */
  function CalculateAge(birthYear: int, currentYear: int): (age: int)
    ensures birthYear == 0 ==> age == DEFAULT_AGE
    ensures birthYear != 0 ==> birthYear + age == currentYear
  {
    if birthYear == 0 then DEFAULT_AGE else currentYear - birthYear
  }

  /** The role guessed from the age alone. */
  function InferRoleFromAge(m: LegacyMember, currentYear: int): (role: string)
    ensures role == "parent" || role == "adult_child" || role == "child"
    ensures role == "parent" <==> CalculateAge(m.birthYear, currentYear) >= 50
    ensures role == "adult_child" <==> 18 <= CalculateAge(m.birthYear, currentYear) < 50
  {
    var age := CalculateAge(m.birthYear, currentYear);
    if age >= 50 then "parent"
    else if age >= 18 then "adult_child"
    else "child"
  }

  /** A member without a birth year is taken to be an adult child, whatever
      the current year. */
  lemma MissingBirthYearIsAdultChild(m: LegacyMember, currentYear: int)
    requires m.birthYear == 0
    ensures InferRoleFromAge(m, currentYear) == "adult_child"
  {
  }

  predicate NamesParent(s: string)
  {
    Contains(s, "parent") || Contains(s, "father") || Contains(s, "mother")
  }

  predicate NamesChild(s: string)
  {
    Contains(s, "child") || Contains(s, "son") || Contains(s, "daughter")
  }

  predicate NamesSpouse(s: string)
  {
    Contains(s, "spouse") || Contains(s, "husband") || Contains(s, "wife")
  }

  /** The role guessed from the legacy relationship label, searched
      case-insensitively for parent words, then child words, then spouse words;
      a label that names none of them, or no label, falls back to the age. */
  function InferRoleFromOldData(m: LegacyMember, currentYear: int): (role: string)
    ensures var rel := ToLower(m.relationship);
      && (NamesParent(rel) ==> role == "parent")
      && (!NamesParent(rel) && NamesChild(rel) ==> role == "child")
      && (!NamesParent(rel) && !NamesChild(rel) && NamesSpouse(rel) ==> role == "spouse")
      && (!NamesParent(rel) && !NamesChild(rel) && !NamesSpouse(rel) ==>
            role == InferRoleFromAge(m, currentYear))
  {
    if m.relationship != "" && NamesParent(ToLower(m.relationship)) then "parent"
    else if m.relationship != "" && NamesChild(ToLower(m.relationship)) then "child"
    else if m.relationship != "" && NamesSpouse(ToLower(m.relationship)) then "spouse"
    else InferRoleFromAge(m, currentYear)
  }

  /** A member labelled "Father" becomes a parent at any age: the label wins
      over the age rule. */
  lemma FatherIsParentAtAnyAge(m: LegacyMember, currentYear: int)
    requires m.relationship == "Father"
    ensures InferRoleFromOldData(m, currentYear) == "parent"
  {
    assert ToLower(m.relationship) == "father";
    assert Contains("father", "father");
  }

  /** Without a label the role is the age rule's. */
  lemma {:induction false} EmptyLabelUsesAge(m: LegacyMember, currentYear: int)
    requires m.relationship == ""
    ensures InferRoleFromOldData(m, currentYear) == InferRoleFromAge(m, currentYear)
  {
  }

  /** The person data pass 1 hands to `addPerson` for a legacy member. */
  function LegacyPersonInput(m: LegacyMember): (d: PersonInput)
    ensures d.firstName == m.firstName && d.lastName == m.lastName
    ensures d.birthMonth == m.birthMonth && d.birthDay == m.birthDay && d.birthYear == m.birthYear
    ensures d.contact == m.contact.(email := "")
    ensures d.createdBy == MIGRATION_CREATOR
  {
    PersonInput(m.firstName, m.lastName, m.birthMonth, m.birthDay, m.birthYear,
      m.contact.(email := ""), MIGRATION_CREATOR)
  }

  function LegacyIdOf(m: LegacyMember): LegacyId
  {
    m.id
  }

  /** The map pass 1 builds from legacy ids to the ids of the people it adds,
      the first of which gets id `base`; a legacy id that occurs twice maps to
      the person added for its last occurrence. */
  function LegacyIdMap(ms: seq<LegacyMember>, base: Id): (idMap: map<LegacyId, Id>)
    ensures forall m {:trigger m in ms} :: m in ms ==> m.id in idMap
    ensures forall k :: k in idMap ==> base <= idMap[k] < base + |ms|
  {
    if ms == [] then map[]
    else
      var n := |ms| - 1;
      assert forall m :: m in ms ==> m in ms[..n] || m == ms[n];
      LegacyIdMap(ms[..n], base)[ms[n].id := base + n]
  }

  /** Each legacy id maps to the person added for a member with that id, the
      last such member. */
  lemma {:induction false} LegacyIdMapPointsBack(ms: seq<LegacyMember>, base: Id, k: LegacyId)
    requires k in LegacyIdMap(ms, base)
    ensures ms[LegacyIdMap(ms, base)[k] - base].id == k
    ensures forall i :: LegacyIdMap(ms, base)[k] - base < i < |ms| ==> ms[i].id != k
  {
    var n := |ms| - 1;
    if ms[n].id != k {
      LegacyIdMapPointsBack(ms[..n], base, k);
    }
  }

  /** The id map is keyed by exactly the legacy ids of the members. */
  lemma {:induction false} LegacyIdMapKeys(ms: seq<LegacyMember>, base: Id)
    ensures LegacyIdMap(ms, base).Keys == Elements(MapSeq(ms, LegacyIdOf))
  {
    if ms != [] {
      var init := ms[..|ms| - 1];
      assert MapSeq(ms, LegacyIdOf) == MapSeq(init, LegacyIdOf) + [ms[|ms| - 1].id];
      LegacyIdMapKeys(init, base);
    }
  }

  /** `peopleCreated`, the size of the id map, is the number of distinct legacy
      ids: at most the number of members, and exactly that number when the
      legacy ids are distinct. */
  lemma PeopleCreatedCount(ms: seq<LegacyMember>, base: Id)
    ensures |LegacyIdMap(ms, base)| <= |ms|
    ensures |LegacyIdMap(ms, base)| == |ms| <==> NoDuplicates(MapSeq(ms, LegacyIdOf))
  {
    var ids := MapSeq(ms, LegacyIdOf);
    DistinctCount(ids);
    LegacyIdMapKeys(ms, base);
    assert |LegacyIdMap(ms, base)| == |LegacyIdMap(ms, base).Keys|;
  }

  /** The family data pass 2 hands to `createFamily` for a branch. */
  function BranchFamilyInput(b: LegacyBranch): (d: FamilyInput)
    ensures d.name == b.name && d.description == b.description
    ensures d.familyType == ConvertBranchTypeToFamilyType(b.branchType)
    ensures d.generationLevel == b.generationLevel && d.createdBy == MIGRATION_CREATOR
  {
    FamilyInput(b.name, b.description, ConvertBranchTypeToFamilyType(b.branchType),
      b.generationLevel, MIGRATION_CREATOR)
  }

  function BranchName(b: LegacyBranch): string
  {
    b.name
  }

  /** The members whose `familyBranch` is exactly `name`, in input order. */
  function BranchMembers(ms: seq<LegacyMember>, name: string): (r: seq<LegacyMember>)
    ensures forall m {:trigger m in r} :: m in r <==> m in ms && m.familyBranch == Some(name)
    ensures forall i :: 0 <= i < |r| ==> r[i] in ms
  {
    if ms == [] then []
    else
      var init, last := ms[..|ms| - 1], ms[|ms| - 1];
      assert forall m :: m in ms <==> m in init || m == last;
      BranchMembers(init, name) + (if last.familyBranch == Some(name) then [last] else [])
  }

  /** `!m.familyBranch || m.familyBranch.trim() === ''`: a member belongs to
      no branch when its branch name is missing, or empty once trimmed. */
  predicate IsUnassigned(m: LegacyMember)
  {
    m.familyBranch.None? || Trim(m.familyBranch.value) == ""
  }

  /** The members pass 3 groups: those with a missing, empty or blank branch
      name, in input order. */
  function Unassigned(ms: seq<LegacyMember>): (r: seq<LegacyMember>)
    ensures forall m {:trigger m in r} :: m in r <==> m in ms && (m.familyBranch.None? || IsBlank(m.familyBranch.value))
    ensures |r| <= |ms|
  {
    Filter(ms, IsUnassigned)
  }

  /** A member listed under a branch is also left for pass 3 exactly when the
      branch's name is blank: passes 2 and 3 share a member only through a
      branch whose name is empty or white space. */
  lemma BranchMembersUnassignedIffBlank(ms: seq<LegacyMember>, name: string)
    ensures forall m :: m in BranchMembers(ms, name) ==> (m in Unassigned(ms) <==> IsBlank(name))
  {
  }

  function LastNameOf(m: LegacyMember): string
  {
    m.lastName
  }

  /** The last names of the unassigned members, in order of first occurrence:
      the keys of pass 3's `lastNameGroups`. */
  function LastNameKeys(ms: seq<LegacyMember>): seq<string>
  {
    Distinct(MapSeq(Unassigned(ms), LastNameOf))
  }

  /** The unassigned members with last name `k`, in input order. */
  function LastNameGroup(ms: seq<LegacyMember>, k: string): seq<LegacyMember>
  {
    Bucket(Unassigned(ms), LastNameOf, k)
  }

  /** The family pass 3 creates for a group of unassigned members sharing a
      last name. */
  function AutoFamilyInput(lastName: string): (d: FamilyInput)
    ensures d.name == lastName + " Family"
    ensures d.description == "Auto-created family for unassigned " + lastName + " members"
    ensures d.familyType == "nuclear" && d.generationLevel == 2 && d.createdBy == AUTO_GROUPING_CREATOR
  {
    FamilyInput(lastName + " Family", "Auto-created family for unassigned " + lastName + " members",
      "nuclear", 2, AUTO_GROUPING_CREATOR)
  }

  /** Different last names give differently named families. */
  lemma AutoFamilyInputInjective(k1: string, k2: string)
    requires AutoFamilyInput(k1) == AutoFamilyInput(k2)
    ensures k1 == k2
  {
    var n1, n2 := k1 + " Family", k2 + " Family";
    assert |k1| == |k2|;
    forall i | 0 <= i < |k1| ensures k1[i] == k2[i] {
      assert n1[i] == k1[i] && n2[i] == k2[i];
    }
  }

  /** A last-name group big enough for a family of its own. */
  predicate IsBigGroup(u: seq<LegacyMember>, k: string)
  {
    |Bucket(u, LastNameOf, k)| >= 2
  }

  /** The keys, in key order, whose group of unassigned members `u` has at
      least two members: the groups pass 3 turns into families. */
  function BigKeys(u: seq<LegacyMember>, keys: seq<string>): (r: seq<string>)
    ensures |r| <= |keys|
    ensures forall k :: k in r <==> k in keys && IsBigGroup(u, k)
  {
    if keys == [] then []
    else
      var init, last := keys[..|keys| - 1], keys[|keys| - 1];
      assert forall k :: k in keys <==> k in init || k == last;
      BigKeys(u, init) + (if IsBigGroup(u, last) then [last] else [])
  }

  /** What one more last name adds to the keys pass 3 turns into families. */
  lemma KeyStep(u: seq<LegacyMember>, keys: seq<string>, i: nat)
    requires i < |keys|
    ensures BigKeys(u, keys[..i + 1]) == BigKeys(u, keys[..i]) + (if IsBigGroup(u, keys[i]) then [keys[i]] else [])
  {
    assert keys[..i + 1][..i] == keys[..i];
    assert keys[..i + 1][i] == keys[i];
  }

  /** The families pass 3 creates, in key order. */
  function AutoFamilies(u: seq<LegacyMember>, keys: seq<string>): seq<FamilyInput>
  {
    MapSeq(BigKeys(u, keys), AutoFamilyInput)
  }

  /** A last name gets an auto family exactly when it is a key and its group
      has at least two members; a singleton group gets none. */
  lemma AutoFamiliesMembership(u: seq<LegacyMember>, keys: seq<string>, k: string)
    ensures AutoFamilyInput(k) in AutoFamilies(u, keys) <==> k in keys && IsBigGroup(u, k)
  {
    var bk := BigKeys(u, keys);
    if AutoFamilyInput(k) in AutoFamilies(u, keys) {
      var i :| 0 <= i < |bk| && AutoFamilies(u, keys)[i] == AutoFamilyInput(k);
      AutoFamilyInputInjective(k, bk[i]);
    }
    if k in keys && IsBigGroup(u, k) {
      var i :| 0 <= i < |bk| && bk[i] == k;
      assert AutoFamilies(u, keys)[i] == AutoFamilyInput(k);
    }
  }

  /** Every family the migration creates, in creation order: one per branch,
      then the auto families. */
  function FamilyPlan(ms: seq<LegacyMember>, bs: seq<LegacyBranch>): (r: seq<FamilyInput>)
    ensures |r| == |bs| + |BigKeys(Unassigned(ms), LastNameKeys(ms))|
  {
    MapSeq(bs, BranchFamilyInput) + AutoFamilies(Unassigned(ms), LastNameKeys(ms))
  }

  /** The j-th family the migration creates: a branch's family for the first
      `|bs|`, then one per big last-name group, in key order. */
  lemma FamilyPlanAt(ms: seq<LegacyMember>, bs: seq<LegacyBranch>, j: nat)
    requires j < |FamilyPlan(ms, bs)|
    ensures j < |bs| ==> FamilyPlan(ms, bs)[j] == BranchFamilyInput(bs[j])
    ensures |bs| <= j ==>
      FamilyPlan(ms, bs)[j] == AutoFamilyInput(BigKeys(Unassigned(ms), LastNameKeys(ms))[j - |bs|])
  {
  }

  /** `familiesCreated`, the number of distinct branch names: auto families are
      not counted, and branches sharing a name count once. */
  lemma FamiliesCreatedCount(bs: seq<LegacyBranch>)
    ensures |Elements(MapSeq(bs, BranchName))| <= |bs|
    ensures |Elements(MapSeq(bs, BranchName))| == |bs| <==> NoDuplicates(MapSeq(bs, BranchName))
  {
    DistinctCount(MapSeq(bs, BranchName));
  }

  /** Which pass creates a relationship: pass 2 (a branch member) or pass 3
      (a member of a last-name group). */
  datatype Pass = BranchPass | GroupingPass

  /** The relationship data a pass hands to `addRelationship` for member `m`
      of the family with id `familyId`. */
  function MemberRelationship(m: LegacyMember, idMap: map<LegacyId, Id>, familyId: Id, pass: Pass,
                              currentYear: int): (d: RelationshipInput)
    requires m.id in idMap
    ensures d.personId == idMap[m.id] && d.familyId == familyId && d.startDate == "" && d.endDate == ""
    ensures d.role == "parent" || d.role == "child" || d.role == "adult_child" || (pass.BranchPass? && d.role == "spouse")
    ensures pass.BranchPass? ==>
      && d.role == InferRoleFromOldData(m, currentYear) && d.relationshipToOthers == m.relationship
      && d.createdBy == MIGRATION_CREATOR
    ensures pass.GroupingPass? ==>
      && d.role == InferRoleFromAge(m, currentYear) && d.relationshipToOthers == "" && d.createdBy == AUTO_GROUPING_CREATOR
  {
    match pass
    case BranchPass =>
      RelationshipInput(idMap[m.id], familyId, InferRoleFromOldData(m, currentYear), m.relationship,
        "", "", MIGRATION_CREATOR)
    case GroupingPass =>
      RelationshipInput(idMap[m.id], familyId, InferRoleFromAge(m, currentYear), "",
        "", "", AUTO_GROUPING_CREATOR)
  }

  /** The relationships a pass creates for the members of one family: one per
      member whose legacy id the id map knows, in member order. */
  function MemberRelationships(members: seq<LegacyMember>, idMap: map<LegacyId, Id>, familyId: Id,
                               pass: Pass, currentYear: int): (r: seq<RelationshipInput>)
    ensures |r| <= |members|
    ensures forall i :: 0 <= i < |r| ==> r[i].familyId == familyId
  {
    if members == [] then []
    else
      var init, last := members[..|members| - 1], members[|members| - 1];
      var prefix := MemberRelationships(init, idMap, familyId, pass, currentYear);
      if last.id in idMap then prefix + [MemberRelationship(last, idMap, familyId, pass, currentYear)]
      else prefix
  }

  /** Each relationship a pass creates for a family is built from one of the
      family's members. */
  lemma {:induction false} MemberRelationshipsProvenance(members: seq<LegacyMember>, idMap: map<LegacyId, Id>,
      familyId: Id, pass: Pass, currentYear: int, d: RelationshipInput)
    requires d in MemberRelationships(members, idMap, familyId, pass, currentYear)
    ensures exists m ::
      m in members && m.id in idMap && d == MemberRelationship(m, idMap, familyId, pass, currentYear)
  {
    var init, last := members[..|members| - 1], members[|members| - 1];
    assert last in members;
    if d in MemberRelationships(init, idMap, familyId, pass, currentYear) {
      MemberRelationshipsProvenance(init, idMap, familyId, pass, currentYear, d);
      var m :| m in init && m.id in idMap && d == MemberRelationship(m, idMap, familyId, pass, currentYear);
      assert m in members;
    }
  }

  /** `rels` holds exactly one relationship per member of `members`, in member
      order, each made by `pass` for family `familyId`. */
  ghost predicate OnePerMember(rels: seq<RelationshipInput>, members: seq<LegacyMember>, idMap: map<LegacyId, Id>,
                               familyId: Id, pass: Pass, currentYear: int)
  {
    && |rels| == |members|
    && forall i :: 0 <= i < |members| ==>
         members[i].id in idMap && rels[i] == MemberRelationship(members[i], idMap, familyId, pass, currentYear)
  }

  /** When every member's legacy id is mapped (as it is in the migration,
      whose pass 1 maps every member) each member gets exactly one
      relationship, in member order. */
  lemma {:induction false} MemberRelationshipsAllMapped(members: seq<LegacyMember>, idMap: map<LegacyId, Id>,
                                                        familyId: Id, pass: Pass, currentYear: int)
    requires forall i :: 0 <= i < |members| ==> members[i].id in idMap
    ensures OnePerMember(MemberRelationships(members, idMap, familyId, pass, currentYear), members, idMap,
                         familyId, pass, currentYear)
  {
    if members != [] {
      var n := |members| - 1;
      var init, last := members[..n], members[n];
      assert forall i :: 0 <= i < n ==> init[i] == members[i];
      MemberRelationshipsAllMapped(init, idMap, familyId, pass, currentYear);
      var prefix := MemberRelationships(init, idMap, familyId, pass, currentYear);
      var r := prefix + [MemberRelationship(last, idMap, familyId, pass, currentYear)];
      assert MemberRelationships(members, idMap, familyId, pass, currentYear) == r;
      forall i | 0 <= i < |members|
        ensures r[i] == MemberRelationship(members[i], idMap, familyId, pass, currentYear)
      {
        if i < n {
          assert r[i] == prefix[i];
        }
      }
    }
  }

  /** The members of one family the migration creates, and the pass that
      creates their relationships. */
  datatype FamilyGroup = FamilyGroup(members: seq<LegacyMember>, pass: Pass)

  /** Every member of every group is one of the legacy members `ms`. */
  ghost predicate GroupsWithin(gs: seq<FamilyGroup>, ms: seq<LegacyMember>)
  {
    forall j, i :: 0 <= j < |gs| && 0 <= i < |gs[j].members| ==> gs[j].members[i] in ms
  }

  lemma GroupsWithinAppend(gs: seq<FamilyGroup>, hs: seq<FamilyGroup>, ms: seq<LegacyMember>)
    requires GroupsWithin(gs, ms) && GroupsWithin(hs, ms)
    ensures GroupsWithin(gs + hs, ms)
  {
    forall j, i | 0 <= j < |gs + hs| && 0 <= i < |(gs + hs)[j].members| ensures (gs + hs)[j].members[i] in ms {
      if j >= |gs| {
        assert (gs + hs)[j] == hs[j - |gs|];
      }
    }
  }

  /** The groups of the branch families, in branch order. */
  function BranchGroups(ms: seq<LegacyMember>, bs: seq<LegacyBranch>): (gs: seq<FamilyGroup>)
    ensures |gs| == |bs|
    ensures forall j :: 0 <= j < |bs| ==> gs[j] == FamilyGroup(BranchMembers(ms, bs[j].name), BranchPass)
  {
    seq(|bs|, j requires 0 <= j < |bs| => FamilyGroup(BranchMembers(ms, bs[j].name), BranchPass))
  }

  /** The groups pass 3 makes of the unassigned members with the last names
      `keys`, one per key, in key order. */
  function KeyGroups(ms: seq<LegacyMember>, keys: seq<string>): (gs: seq<FamilyGroup>)
    ensures |gs| == |keys|
    ensures forall i :: 0 <= i < |keys| ==> gs[i] == FamilyGroup(LastNameGroup(ms, keys[i]), GroupingPass)
  {
    seq(|keys|, i requires 0 <= i < |keys| => FamilyGroup(LastNameGroup(ms, keys[i]), GroupingPass))
  }

  /** One more key adds its group at the end: the shape of one step of pass 3. */
  lemma KeyGroupsSnoc(ms: seq<LegacyMember>, keys: seq<string>, k: string)
    ensures KeyGroups(ms, keys + [k]) == KeyGroups(ms, keys) + [FamilyGroup(LastNameGroup(ms, k), GroupingPass)]
  {
  }

  /** The groups of the auto families, in key order. */
  function AutoGroups(ms: seq<LegacyMember>): (gs: seq<FamilyGroup>)
    ensures |gs| == |BigKeys(Unassigned(ms), LastNameKeys(ms))|
    ensures forall i :: 0 <= i < |gs| ==>
      gs[i] == FamilyGroup(LastNameGroup(ms, BigKeys(Unassigned(ms), LastNameKeys(ms))[i]), GroupingPass)
  {
    KeyGroups(ms, BigKeys(Unassigned(ms), LastNameKeys(ms)))
  }

  /** One more branch adds its group at the end: the shape of one step of
      pass 2. */
  lemma BranchGroupsSnoc(ms: seq<LegacyMember>, bs: seq<LegacyBranch>, b: LegacyBranch)
    ensures BranchGroups(ms, bs + [b]) == BranchGroups(ms, bs) + [FamilyGroup(BranchMembers(ms, b.name), BranchPass)]
  {
  }

  /** The groups of the families the migration creates, family by family in
      creation order: each branch's members (pass 2), then each last-name
      group of at least two unassigned members (pass 3). */
  function PlanGroups(ms: seq<LegacyMember>, bs: seq<LegacyBranch>): (gs: seq<FamilyGroup>)
    ensures |gs| == |FamilyPlan(ms, bs)|
    ensures GroupsWithin(gs, ms)
  {
    BranchGroupsWithin(ms, bs);
    KeyGroupsWithin(ms, BigKeys(Unassigned(ms), LastNameKeys(ms)));
    GroupsWithinAppend(BranchGroups(ms, bs), AutoGroups(ms), ms);
    BranchGroups(ms, bs) + AutoGroups(ms)
  }

  /** Each branch group holds legacy members only. */
  lemma BranchGroupsWithin(ms: seq<LegacyMember>, bs: seq<LegacyBranch>)
    ensures GroupsWithin(BranchGroups(ms, bs), ms)
  {
  }

  /** Each last-name group holds legacy members only. */
  lemma KeyGroupsWithin(ms: seq<LegacyMember>, keys: seq<string>)
    ensures GroupsWithin(KeyGroups(ms, keys), ms)
  {
  }

  lemma PlanGroupAt(ms: seq<LegacyMember>, bs: seq<LegacyBranch>, j: nat)
    requires j < |FamilyPlan(ms, bs)|
    ensures j < |bs| ==> PlanGroups(ms, bs)[j] == FamilyGroup(BranchMembers(ms, bs[j].name), BranchPass)
    ensures |bs| <= j ==>
      PlanGroups(ms, bs)[j] == FamilyGroup(LastNameGroup(ms, BigKeys(Unassigned(ms), LastNameKeys(ms))[j - |bs|]),
                                           GroupingPass)
  {
    if |bs| <= j {
      assert PlanGroups(ms, bs)[j] == AutoGroups(ms)[j - |bs|];
    }
  }

  /** The relationships of a run of families, one block per family, in order. */
  function Flatten(blocks: seq<seq<RelationshipInput>>): seq<RelationshipInput>
  {
    if blocks == [] then []
    else
      var n := |blocks| - 1;
      Flatten(blocks[..n]) + blocks[n]
  }

  lemma {:induction false} FlattenMembership(blocks: seq<seq<RelationshipInput>>, d: RelationshipInput)
    ensures d in Flatten(blocks) <==> exists j :: 0 <= j < |blocks| && d in blocks[j]
  {
    if blocks != [] {
      var n := |blocks| - 1;
      FlattenMembership(blocks[..n], d);
      if d in Flatten(blocks[..n]) {
        var j :| 0 <= j < n && d in blocks[..n][j];
        assert blocks[..n][j] == blocks[j];
      }
      forall j | 0 <= j < n && d in blocks[j] ensures d in Flatten(blocks[..n]) {
        assert blocks[..n][j] == blocks[j];
      }
    }
  }

  /** Flattening one more block appends it: the shape of one family's step in
      the migration loops. */
  lemma FlattenSnoc(blocks: seq<seq<RelationshipInput>>, block: seq<RelationshipInput>)
    ensures Flatten(blocks + [block]) == Flatten(blocks) + block
  {
    assert (blocks + [block])[..|blocks|] == blocks;
  }

  lemma {:induction false} FlattenAppend(xs: seq<seq<RelationshipInput>>, ys: seq<seq<RelationshipInput>>)
    ensures Flatten(xs + ys) == Flatten(xs) + Flatten(ys)
  {
    if ys == [] {
      assert xs + ys == xs;
    } else {
      var n := |ys| - 1;
      var init, last := ys[..n], ys[n];
      assert ys == init + [last];
      assert xs + ys == (xs + init) + [last];
      FlattenSnoc(xs + init, last);
      FlattenSnoc(init, last);
      FlattenAppend(xs, init);
    }
  }

  /** Block j of `blocks` holds relationships of family `familyBase + j` only. */
  ghost predicate BlocksTargetRun(blocks: seq<seq<RelationshipInput>>, familyBase: Id)
  {
    forall j, i :: 0 <= j < |blocks| && 0 <= i < |blocks[j]| ==> blocks[j][i].familyId == familyBase + j
  }

  /** The relationships the migration creates, family by family: family
      `familyBase + j` gets the relationships of the members of `groups[j]`,
      made by that group's pass. */
  function GroupBlocks(groups: seq<FamilyGroup>, idMap: map<LegacyId, Id>, familyBase: Id, currentYear: int)
    : (blocks: seq<seq<RelationshipInput>>)
    ensures |blocks| == |groups|
    ensures forall j :: 0 <= j < |groups| ==>
      blocks[j] == MemberRelationships(groups[j].members, idMap, familyBase + j, groups[j].pass, currentYear)
    ensures BlocksTargetRun(blocks, familyBase)
  {
    seq(|groups|, j requires 0 <= j < |groups| =>
      MemberRelationships(groups[j].members, idMap, familyBase + j, groups[j].pass, currentYear))
  }

  /** One more group adds its members' relationships at the end, pointing at
      the next family of the run, `familyId`. */
  lemma FlattenGroupBlocksSnoc(groups: seq<FamilyGroup>, g: FamilyGroup, idMap: map<LegacyId, Id>,
                               familyBase: Id, familyId: Id, currentYear: int)
    requires familyId == familyBase + |groups|
    ensures Flatten(GroupBlocks(groups + [g], idMap, familyBase, currentYear))
         == Flatten(GroupBlocks(groups, idMap, familyBase, currentYear))
          + MemberRelationships(g.members, idMap, familyId, g.pass, currentYear)
  {
    var blocks := GroupBlocks(groups, idMap, familyBase, currentYear);
    var block := MemberRelationships(g.members, idMap, familyId, g.pass, currentYear);
    assert GroupBlocks(groups + [g], idMap, familyBase, currentYear) == blocks + [block];
    FlattenSnoc(blocks, block);
  }

  /** The relationships of two runs of families, the second starting at
      family `mid`, where the first ends, are those of the joined run. */
  lemma GroupBlocksAppend(gs: seq<FamilyGroup>, hs: seq<FamilyGroup>, idMap: map<LegacyId, Id>,
                          familyBase: Id, mid: Id, currentYear: int)
    requires mid == familyBase + |gs|
    ensures Flatten(GroupBlocks(gs + hs, idMap, familyBase, currentYear))
         == Flatten(GroupBlocks(gs, idMap, familyBase, currentYear))
          + Flatten(GroupBlocks(hs, idMap, mid, currentYear))
  {
    var a := GroupBlocks(gs, idMap, familyBase, currentYear);
    var b := GroupBlocks(hs, idMap, mid, currentYear);
    var c := GroupBlocks(gs + hs, idMap, familyBase, currentYear);
    assert c == a + b by {
      forall j | 0 <= j < |c| ensures c[j] == (a + b)[j] {
        if j >= |gs| {
          assert (gs + hs)[j] == hs[j - |gs|];
          assert mid + (j - |gs|) == familyBase + j;
        }
      }
    }
    FlattenAppend(a, b);
  }

  /** Every relationship the migration creates, in creation order, when the
      first new person gets id `personBase` and the first new family
      `familyBase`: pass 2's, then pass 3's. */
  function RelationshipPlan(ms: seq<LegacyMember>, bs: seq<LegacyBranch>, personBase: Id, familyBase: Id,
                            currentYear: int): seq<RelationshipInput>
  {
    Flatten(GroupBlocks(PlanGroups(ms, bs), LegacyIdMap(ms, personBase), familyBase, currentYear))
  }

  /** Every relationship of a run of families is built from a member of one of
      its groups, by that group's pass, and points at that group's family. */
  lemma GroupBlocksProvenance(groups: seq<FamilyGroup>, idMap: map<LegacyId, Id>, familyBase: Id,
                              currentYear: int, d: RelationshipInput)
    requires d in Flatten(GroupBlocks(groups, idMap, familyBase, currentYear))
    ensures exists j, m ::
      0 <= j < |groups| && m in groups[j].members && m.id in idMap
      && d == MemberRelationship(m, idMap, familyBase + j, groups[j].pass, currentYear)
  {
    var blocks := GroupBlocks(groups, idMap, familyBase, currentYear);
    FlattenMembership(blocks, d);
    var j :| 0 <= j < |blocks| && d in blocks[j];
    MemberRelationshipsProvenance(groups[j].members, idMap, familyBase + j, groups[j].pass, currentYear, d);
  }

  /** Pass 3 leaves an unassigned member who is alone in its last-name group
      out of every auto family, so it gets no auto relationship either. */
  lemma SingletonNotAutoGrouped(ms: seq<LegacyMember>, bs: seq<LegacyBranch>, j: nat, m: LegacyMember)
    requires |bs| <= j < |FamilyPlan(ms, bs)|
    requires m in Unassigned(ms) && |LastNameGroup(ms, m.lastName)| < 2
    ensures m !in PlanGroups(ms, bs)[j].members
  {
    PlanGroupAt(ms, bs, j);
    var bk := BigKeys(Unassigned(ms), LastNameKeys(ms));
    assert bk[j - |bs|] in bk;
  }

  /** Every relationship the migration creates has no start or end date, a
      role the inference rules can give, and one of the two migration
      creators. */
  lemma RelationshipPlanShape(ms: seq<LegacyMember>, bs: seq<LegacyBranch>, personBase: Id, familyBase: Id,
                              currentYear: int)
    ensures forall d :: d in RelationshipPlan(ms, bs, personBase, familyBase, currentYear) ==>
      && d.startDate == "" && d.endDate == ""
      && (d.role == "parent" || d.role == "child" || d.role == "adult_child" || d.role == "spouse")
      && (d.createdBy == MIGRATION_CREATOR || d.createdBy == AUTO_GROUPING_CREATOR)
  {
    var groups := PlanGroups(ms, bs);
    var idMap := LegacyIdMap(ms, personBase);
    forall d | d in RelationshipPlan(ms, bs, personBase, familyBase, currentYear)
      ensures d.startDate == "" && d.endDate == ""
      ensures d.role == "parent" || d.role == "child" || d.role == "adult_child" || d.role == "spouse"
      ensures d.createdBy == MIGRATION_CREATOR || d.createdBy == AUTO_GROUPING_CREATOR
    {
      GroupBlocksProvenance(groups, idMap, familyBase, currentYear, d);
    }
  }

  /** Referential integrity: every relationship the migration creates points at
      a person and a family the same migration creates. */
  lemma RelationshipPlanTargetsNewRecords(ms: seq<LegacyMember>, bs: seq<LegacyBranch>, personBase: Id,
                                          familyBase: Id, currentYear: int)
    ensures forall d :: d in RelationshipPlan(ms, bs, personBase, familyBase, currentYear) ==>
      && personBase <= d.personId < personBase + |ms|
      && familyBase <= d.familyId < familyBase + |FamilyPlan(ms, bs)|
  {
    var groups := PlanGroups(ms, bs);
    var idMap := LegacyIdMap(ms, personBase);
    forall d | d in Flatten(GroupBlocks(groups, idMap, familyBase, currentYear))
      ensures personBase <= d.personId < personBase + |ms|
      ensures familyBase <= d.familyId < familyBase + |groups|
    {
      GroupBlocksProvenance(groups, idMap, familyBase, currentYear, d);
    }
  }

  /** The relationships among `rels` that point at family `familyId`. */
  function OfFamily(rels: seq<RelationshipInput>, familyId: Id): seq<RelationshipInput>
  {
    if rels == [] then []
    else
      var init, last := rels[..|rels| - 1], rels[|rels| - 1];
      OfFamily(init, familyId) + (if last.familyId == familyId then [last] else [])
  }

  lemma {:induction false} OfFamilyAppend(xs: seq<RelationshipInput>, ys: seq<RelationshipInput>, familyId: Id)
    ensures OfFamily(xs + ys, familyId) == OfFamily(xs, familyId) + OfFamily(ys, familyId)
  {
    if ys == [] {
      assert xs + ys == xs;
    } else {
      var init, last := ys[..|ys| - 1], ys[|ys| - 1];
      assert (xs + ys)[..|xs + ys| - 1] == xs + init;
      OfFamilyAppend(xs, init, familyId);
    }
  }

  lemma {:induction false} OfFamilyAll(rels: seq<RelationshipInput>, familyId: Id)
    requires forall i :: 0 <= i < |rels| ==> rels[i].familyId == familyId
    ensures OfFamily(rels, familyId) == rels
  {
    if rels != [] {
      var init, last := rels[..|rels| - 1], rels[|rels| - 1];
      assert rels == init + [last];
      assert forall i :: 0 <= i < |init| ==> init[i] == rels[i];
      OfFamilyAll(init, familyId);
    }
  }

  lemma {:induction false} OfFamilyNone(rels: seq<RelationshipInput>, familyId: Id)
    requires forall i :: 0 <= i < |rels| ==> rels[i].familyId != familyId
    ensures OfFamily(rels, familyId) == []
  {
    if rels != [] {
      var init, last := rels[..|rels| - 1], rels[|rels| - 1];
      assert rels == init + [last];
      assert forall i :: 0 <= i < |init| ==> init[i] == rels[i];
      OfFamilyNone(init, familyId);
    }
  }

  /** In a run of blocks, family `familyBase + j` gets exactly block j, and a
      family outside the run gets nothing. */
  lemma {:induction false} OfFamilyFlatten(blocks: seq<seq<RelationshipInput>>, familyBase: Id, target: Id)
    requires BlocksTargetRun(blocks, familyBase)
    ensures familyBase <= target < familyBase + |blocks| ==>
      OfFamily(Flatten(blocks), target) == blocks[target - familyBase]
    ensures !(familyBase <= target < familyBase + |blocks|) ==> OfFamily(Flatten(blocks), target) == []
  {
    if blocks != [] {
      var n := |blocks| - 1;
      assert BlocksTargetRun(blocks[..n], familyBase) by {
        forall j, i | 0 <= j < n && 0 <= i < |blocks[..n][j]| ensures blocks[..n][j][i].familyId == familyBase + j {
          assert blocks[..n][j] == blocks[j];
        }
      }
      OfFamilyFlatten(blocks[..n], familyBase, target);
      OfFamilyAppend(Flatten(blocks[..n]), blocks[n], target);
      if target == familyBase + n {
        OfFamilyAll(blocks[n], target);
      } else {
        OfFamilyNone(blocks[n], target);
        if familyBase <= target < familyBase + n {
          assert blocks[..n][target - familyBase] == blocks[target - familyBase];
        }
      }
    }
  }

  lemma OfFamilyFlattenAt(blocks: seq<seq<RelationshipInput>>, familyBase: Id, j: nat)
    requires BlocksTargetRun(blocks, familyBase) && j < |blocks|
    ensures OfFamily(Flatten(blocks), familyBase + j) == blocks[j]
  {
    OfFamilyFlatten(blocks, familyBase, familyBase + j);
    assert familyBase + j - familyBase == j;
  }

  /** In a run of families, family `familyBase + j` gets one relationship
      per member of `groups[j]`, in member order, when the id map knows every
      member. */
  lemma GroupBlocksOfFamily(groups: seq<FamilyGroup>, idMap: map<LegacyId, Id>, familyBase: Id,
                            currentYear: int, j: nat)
    requires j < |groups|
    requires forall i :: 0 <= i < |groups[j].members| ==> groups[j].members[i].id in idMap
    ensures OnePerMember(OfFamily(Flatten(GroupBlocks(groups, idMap, familyBase, currentYear)), familyBase + j),
                         groups[j].members, idMap, familyBase + j, groups[j].pass, currentYear)
  {
    var blocks := GroupBlocks(groups, idMap, familyBase, currentYear);
    var members, pass := groups[j].members, groups[j].pass;
    MemberRelationshipsAllMapped(members, idMap, familyBase + j, pass, currentYear);
    assert blocks[j] == MemberRelationships(members, idMap, familyBase + j, pass, currentYear);
    OnePerMemberOfBlock(blocks, familyBase, j, members, idMap, pass, currentYear);
  }

  /** A family of a run gets exactly its block's relationships, so whatever
      holds of the block holds of the family's relationships. */
  lemma OnePerMemberOfBlock(blocks: seq<seq<RelationshipInput>>, familyBase: Id, j: nat,
                            members: seq<LegacyMember>, idMap: map<LegacyId, Id>, pass: Pass, currentYear: int)
    requires BlocksTargetRun(blocks, familyBase) && j < |blocks|
    requires OnePerMember(blocks[j], members, idMap, familyBase + j, pass, currentYear)
    ensures OnePerMember(OfFamily(Flatten(blocks), familyBase + j), members, idMap, familyBase + j, pass, currentYear)
  {
    OfFamilyFlattenAt(blocks, familyBase, j);
  }

  /** The migration's relationships of its family `familyBase + j`: one per
      member of the family's group, in member order, made by the group's pass. */
  lemma PlanOfFamily(ms: seq<LegacyMember>, bs: seq<LegacyBranch>, personBase: Id, familyBase: Id,
                     currentYear: int, j: nat)
    requires j < |FamilyPlan(ms, bs)|
    ensures OnePerMember(OfFamily(RelationshipPlan(ms, bs, personBase, familyBase, currentYear), familyBase + j),
                         PlanGroups(ms, bs)[j].members, LegacyIdMap(ms, personBase), familyBase + j,
                         PlanGroups(ms, bs)[j].pass, currentYear)
  {
    var groups := PlanGroups(ms, bs);
    var idMap := LegacyIdMap(ms, personBase);
    GroupBlocksOfFamily(groups, idMap, familyBase, currentYear, j);
  }

  /** Pass 2: the family of branch j gets one relationship per member of the
      branch, in member order, with the role inferred from the member's label
      and the label copied. */
  lemma MigratedBranchFamily(ms: seq<LegacyMember>, bs: seq<LegacyBranch>, personBase: Id, familyBase: Id,
                             currentYear: int, j: nat)
    requires j < |bs|
    ensures FamilyPlan(ms, bs)[j] == BranchFamilyInput(bs[j])
    ensures OnePerMember(OfFamily(RelationshipPlan(ms, bs, personBase, familyBase, currentYear), familyBase + j),
                         BranchMembers(ms, bs[j].name), LegacyIdMap(ms, personBase), familyBase + j,
                         BranchPass, currentYear)
  {
    PlanOfFamily(ms, bs, personBase, familyBase, currentYear, j);
    PlanGroupAt(ms, bs, j);
    FamilyPlanAt(ms, bs, j);
  }

  /** Pass 3: the family after the branch families and `i` auto families is
      named after the i-th last name with a group of at least two unassigned
      members, and gets one age-inferred relationship per member of that
      group, in member order. */
  lemma MigratedAutoFamily(ms: seq<LegacyMember>, bs: seq<LegacyBranch>, personBase: Id, familyBase: Id,
                           currentYear: int, j: nat)
    requires |bs| <= j < |FamilyPlan(ms, bs)|
    ensures var lastName := BigKeys(Unassigned(ms), LastNameKeys(ms))[j - |bs|];
      && FamilyPlan(ms, bs)[j] == AutoFamilyInput(lastName)
      && |LastNameGroup(ms, lastName)| >= 2
      && OnePerMember(OfFamily(RelationshipPlan(ms, bs, personBase, familyBase, currentYear), familyBase + j),
                      LastNameGroup(ms, lastName), LegacyIdMap(ms, personBase), familyBase + j,
                      GroupingPass, currentYear)
  {
    var bk := BigKeys(Unassigned(ms), LastNameKeys(ms));
    assert bk[j - |bs|] in bk;
    PlanOfFamily(ms, bs, personBase, familyBase, currentYear, j);
    PlanGroupAt(ms, bs, j);
    FamilyPlanAt(ms, bs, j);
  }
}
