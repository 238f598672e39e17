# Family relationship store, modelled in Dafny

The system keeps a family tree as three collections in a document store:
people, families and relationships. A relationship links one person to one
family with a role such as "parent" or "child". The store object
`FamilyRelationshipSystem` (relationship-system.js) does the following:

- adds, updates and soft-deletes records;
- caches the active records of each collection;
- answers queries over those caches: members of a family, families of a
  person, suggestions and upcoming birthdays;
- migrates an older, branch-based tree. Every legacy member becomes a person
  and every legacy branch becomes a family with one relationship per branch
  member. Members without a branch are grouped by last name, and each group
  of two or more becomes an auto-created family.

The relationship views (relationship-ui.js) add two things:

- the filters of the people and family grids;
- the number of families the migration dialog announces before the
  migration runs.

The project has these modules, with one file each:

| module | file | contents |
|---|---|---|
| `Text` | text.dfy | lower-casing, substring search, number formatting, joining |
| `Seqs` | seqs.dfy | `filter`, `map`, `find`, `indexOf`, the group-by-key loop and the sort, generically |
| `Calendar` | calendar.dfy | the JavaScript `Date(year, month, day)` normalisation as day numbers |
| `Records` | records.dfy | the three record kinds, their `add` inputs, partial updates and merges |
| `Queries` | queries.dfy | the query methods, as functions of the cached arrays |
| `MigrationRules` | migration_rules.dfy | the migration helpers, plus the records the migration must create, as pure functions of the legacy data |
| `Birthdays` | birthdays.dfy | `getMonthIndex`, `getNextBirthday`, `getUpcomingBirthdays` |
| `RelationshipSystem` | relationship_system.dfy | the store class with its caches, its backing collections, its operations and the migration |
| `RelationshipUi` | relationship_ui.dfy | the two grid filters and the migration estimate |

The central result is on
`RelationshipSystem.FamilyRelationshipSystem.MigrateFromOldSystem`. It proves
that the migration's three loops store exactly the records of the migration
plan, in order:

- `MapSeq(ms, LegacyPersonInput)`, one person per legacy member;
- `FamilyPlan`, one family per branch, then one per big last-name group;
- `RelationshipPlan`, one relationship per mapped member of each of those
  families.

The lemmas in `MigrationRules` then prove three things about that plan:

- what each family receives (`MigratedBranchFamily`, `MigratedAutoFamily`);
- that every relationship points at a person and a family the same run
  creates (`RelationshipPlanTargetsNewRecords`);
- that singletons are left out (`SingletonNotAutoGrouped`).

`RelationshipUi.EstimateFamiliesFromMigration` is proved to return exactly
`|FamilyPlan|`. So the dialog's estimate equals the number of families the
migration creates.

Modelling conventions:

- **Document ids.** A record's id is its index in its collection, and `add`
  appends under the next index. An update of an id the collection lacks
  fails with `NotFound`.
- **Absent fields.** JavaScript's absent, `undefined` and empty fields are
  `""` or `0` in the model, so the source's `x || ''` defaults are copies.
  A legacy member's `familyBranch` is an `Option`, so a missing branch is
  told apart from an empty one. The other places where the code treats
  `undefined` differently from `""` are listed under "## Left out".
- **The clock.** The current time is the `now` parameter of every operation
  that stamps a record. The current year is the `currentYear` parameter. The
  birthday code's `new Date()` is a `Now` value: the local date plus the
  milliseconds since its midnight.

Two points where the model follows the code closely:

- **`deletePerson` and `deleteFamily`.** The code sends both through
  `updatePerson` and `updateFamily`, so they stamp `updatedAt` as well as
  `deletedAt`. `removeRelationship` calls the store directly and stamps only
  `deletedAt`.
- **`getNextBirthday`.** The code compares the birthday's local midnight
  with the current instant, so after midnight it misses a birthday that falls
  today (see Findings). The birthday dialog shows "Today!" when `daysUntil`
  is 0 (relationship-ui.js:616), and only a comparison by calendar day can
  produce 0 after midnight, so the day-granular rule is the intended one.
  `getUpcomingBirthdays` is modelled as written, on the instant comparison.
  The day-granular rule is modelled beside it, as a second rule for the same
  loop. The two lists are proved to differ exactly by the people whose
  birthday is today, read after midnight.

## Model

| member | source | states |
|---|---|---|
| Text.ToLowerChar | relationship-ui.js:161 | upper-case ASCII letters map to lower case, every other character is unchanged |
| Text.ToLower | relationship-ui.js:161 | same length as the input, lower-cased character by character |
| Text.ToLowerIdempotent | relationship-ui.js:161-171 | lower-casing twice is lower-casing once |
| Text.TrimStart | relationship-system.js:351 | what remains is a suffix of the input that starts with no white space, and everything cut off is white space |
| Text.TrimEnd | relationship-system.js:351 | what remains is a prefix of the input that ends with no white space, and everything cut off is white space |
| Text.Trim | relationship-system.js:351 | `trim()`: no longer than the input, and neither starts nor ends with white space |
| Text.IsBlank | relationship-system.js:351 | `trim() === ''` holds exactly when the trimmed text is empty, which is exactly when every character is white space |
| Text.ContainsEmpty | relationship-ui.js:169-171 | every string contains the empty term, so `!searchTerm \|\|` agrees with `includes` |
| Text.Contains | relationship-ui.js:169-171 | a found term is no longer than the text, and every string contains itself |
| Text.EmptyContainsOnlyEmpty | relationship-ui.js:205 | the empty string contains no non-empty term |
| Text.DigitChar | relationship-system.js:268 | a digit below 10 prints as a character '0'..'9' |
| Text.NatToString | relationship-system.js:268 | the decimal text of a count is non-empty and made of digits |
| Text.NatToStringValue | relationship-system.js:268 | the decimal text reads back as the count, with no leading zero |
| Text.Join | relationship-system.js:571 | joining no parts gives "", and joining one part gives that part |
| Text.JoinSnoc | relationship-system.js:571 | joining one more part appends the separator and that part |
| Seqs.MapSeq | relationship-system.js:229-234 | `map`: same length, and element i is the image of input i |
| Seqs.MapSeqSnoc | relationship-system.js:239-244 | mapping one more element appends its image |
| Seqs.ElementsSnoc | relationship-system.js:330 | one more element adds it to the element set |
| Seqs.KeysSnoc | relationship-system.js:330 | `set(k, v)` adds k to the map's keys |
| Seqs.Filter | relationship-system.js:224 | `filter`: an element is kept exactly when it occurs in the input and passes the test, and the result is no longer than the input |
| Seqs.FilterSnoc | relationship-system.js:224 | filtering one more element appends it exactly when it passes |
| Seqs.FilterAppend | relationship-system.js:224 | filtering distributes over concatenation |
| Seqs.FilterNone | relationship-system.js:224 | when nothing passes, the result is empty |
| Seqs.FilterMultiset | relationship-system.js:224 | the result is a sub-multiset of the input |
| Seqs.IndexOf | relationship-system.js:600 | `indexOf`: the first position of the element, or -1 exactly when it is absent |
| Seqs.FindIndex | relationship-system.js:216 | the position `find` stops at: the first element passing the test, or -1 when none does |
| Seqs.Distinct | relationship-system.js:364 | the keys in order of first occurrence: holds exactly the input's keys, without duplicates |
| Seqs.DistinctSnoc | relationship-system.js:357-359 | a new key joins the end of the key order, and a known key changes nothing |
| Seqs.NoDuplicatesCardinality | relationship-system.js:395 | a duplicate-free sequence has as many distinct elements as entries |
| Seqs.DistinctCount | relationship-system.js:395 | the number of distinct values is at most the length, and equal to it exactly when there are no duplicates |
| Seqs.NoDuplicatesSnoc | relationship-system.js:357-359 | one more element keeps a sequence duplicate-free exactly when it is new |
| Seqs.Bucket | relationship-system.js:509-515 | the bucket of a key holds exactly the entries with that key |
| Seqs.BucketSnoc | relationship-system.js:514 | one more entry joins the end of its own key's bucket only |
| Seqs.BucketOfAbsentKey | relationship-system.js:511-513 | a key that never occurs has an empty bucket |
| Seqs.GroupsOfBuckets | relationship-system.js:355-361 | the grouping loop's dictionary holds exactly the keys that occur, each with its non-empty bucket |
| Seqs.GroupsOfSnoc | relationship-system.js:357-360 | one loop step pushes the entry onto its key's list, creating the list first when the key is new |
| Seqs.GroupBy | relationship-system.js:355-361 | the loop's keys are the distinct keys in first-occurrence order, and each maps to its non-empty bucket |
| Seqs.InsertMultiset | relationship-system.js:576 | inserting x adds exactly one x |
| Seqs.InsertShiftsRight | relationship-system.js:576 | entries after the insertion point move one place right |
| Seqs.InsertKeepsLeft | relationship-system.js:576 | entries before the insertion point stay put |
| Seqs.InsertOrder | relationship-system.js:576 | a sequence with x placed between the smaller-or-equal and the greater keys is sorted |
| Seqs.InsertSorted | relationship-system.js:576 | one insertion step keeps the order and adds the element |
| Seqs.SortBy | relationship-system.js:576 | `sort` by a numeric key: the result is sorted and is a permutation of the input |
| Calendar.DayNumberCarries | relationship-system.js:586-589 | `Date(y, m, d)` carries twelve months into a year and one more day into the next day number |
| Calendar.YearStep | relationship-system.js:586-589 | the first day of the next year comes one year length later |
| Calendar.MonthsTileTheYear | relationship-system.js:586-589 | the months follow each other without gaps and fill exactly one year |
| Calendar.DateWithinItsYear | relationship-system.js:586-589 | a valid date's day number lies within its year |
| Calendar.DayUpTo31WithinYear | relationship-system.js:586-589 | `Date(y, m, d)` with d in 1..31 stays within year y even when the day overflows the month |
| Calendar.SameDayNextYear | relationship-system.js:589 | the same month and day one year later is 365 or 366 days on |
| Calendar.SameDayNextYearAnyMonth | relationship-system.js:589 | the same holds for any month index, including ones `Date` carries into another year |
| Calendar.NextAnniversary | relationship-system.js:586-590 | this year's date when not yet past, else next year's date, lies 0 to 365 days ahead |
| Calendar.MonthMinusOne | relationship-system.js:584-586 | month index -1 is December of the year before, which lies before today |
| Records.NewPerson | relationship-system.js:43-67 | `addPerson` stores an active record with the new id and the creation time, no deletion or update time, and the input's data unchanged |
| Records.NewFamily | relationship-system.js:88-97 | `createFamily` stores an active record with the new id and the creation time, never an empty family type, and the input's data with a missing type read as "nuclear" |
| Records.NewRelationship | relationship-system.js:123-134 | `addRelationship` stores an active record with the new id and the creation time, a missing date as null (never as ""), and the input's data unchanged |
| Records.NewPeople | relationship-system.js:43-71 | a run of `addPerson` calls stores one record per input, with consecutive ids from the base |
| Records.NewFamilies | relationship-system.js:87-101 | a run of `createFamily` calls stores one record per input, with consecutive ids from the base |
| Records.NewRelationships | relationship-system.js:122-138 | a run of `addRelationship` calls stores one record per input, with consecutive ids from the base |
| Records.NewPeopleSnoc | relationship-system.js:69-70 | one more `addPerson` appends its record under the next id |
| Records.NewFamiliesSnoc | relationship-system.js:99-100 | one more `createFamily` appends its record under the next id |
| Records.NewRelationshipsSnoc | relationship-system.js:136-137 | one more `addRelationship` appends its record under the next id |
| Records.NewFamiliesAppend | relationship-system.js:320-388 | two runs of `createFamily` are one run, the second starting where the first ends |
| Records.NewRelationshipsAppend | relationship-system.js:336-386 | two runs of `addRelationship` are one run, the second starting where the first ends |
| Records.MergePerson | relationship-system.js:76 | merging a patch never changes the record's id |
| Records.MergeFamily | relationship-system.js:106 | merging a patch never changes the record's id |
| Records.MergeRelationship | relationship-system.js:143 | merging a patch never changes the record's id |
| Records.MergePersonSnoc | relationship-system.js:75-76 | the patch fields are applied left to right, so a later field wins |
| Records.MergeFamilySnoc | relationship-system.js:105-106 | the patch fields are applied left to right, so a later field wins |
| Records.MergeRelationshipSnoc | relationship-system.js:142-143 | the patch fields are applied left to right, so a later field wins |
| Records.SetPersonIsActive | relationship-system.js:81 | the `isActive` field sets that field only |
| Records.SetPersonDeletedAt | relationship-system.js:81 | the `deletedAt` field sets that field only |
| Records.SetPersonUpdatedAt | relationship-system.js:75 | the `updatedAt` field sets that field only |
| Records.MergePersonThree | relationship-system.js:75-81 | a three-field patch applies its fields in order |
| Records.SoftDeletePerson | relationship-system.js:79-82 | the `deletePerson` patch marks the person inactive and stamps its deletion and update times, and changes nothing else |
| Records.SoftDeleteFamily | relationship-system.js:109-111 | the `deleteFamily` patch marks the family inactive and stamps its deletion and update times, and changes nothing else |
| Records.SoftDeleteRelationship | relationship-system.js:146-151 | the `removeRelationship` patch marks the relationship inactive and stamps its deletion time, and changes nothing else |
| Queries.FindPerson | relationship-system.js:215-217 | `getPerson`: none exactly when no cached person has the id, else the first one that does |
| Queries.FindFamily | relationship-system.js:219-221 | `getFamily`: none exactly when no cached family has the id, else the first one that does |
| Queries.ActiveRelationships | relationship-system.js:223-228 | exactly the cached, active relationships whose person (`getPersonRelationships`) or family (`getFamilyMembers`) is the given id |
| Queries.CachedOfFamily | relationship-system.js:113 | exactly the cached relationships of the family, active or not |
| Queries.FamilyMembers | relationship-system.js:227-235 | `getFamilyMembers`: one entry per active relationship of the family, in cache order |
| Queries.PersonFamilies | relationship-system.js:237-245 | `getPersonFamilies`: one entry per active relationship of the person, in cache order |
| Queries.InFamilyMembers | relationship-system.js:227-235 | a relationship is listed exactly when it is cached, active and of the family; each entry carries the person found under its person id, or none, and its role |
| Queries.InPersonFamilies | relationship-system.js:237-245 | a relationship is listed exactly when it is cached, active and of the person; each entry carries the family found under its family id, or none, and its role |
| Queries.JoinConsistency | relationship-system.js:223-245 | a relationship lists p among family f's members exactly when it lists f among p's families |
| Queries.SameLastNamePeople | relationship-system.js:258-262 | exactly the other active cached people with the same last name |
| Queries.FamilySuggestion | relationship-system.js:264-271 | at most one `create_family` suggestion; present exactly when someone else active shares the last name; lists the person first, then those people |
| Queries.NuclearSuggestion | relationship-system.js:274-281 | at most one `create_nuclear_family` suggestion; present exactly when the person has no active relationship |
| Queries.SuggestionsShape | relationship-system.js:254-283 | in the combined list each kind appears exactly when its part is present, and the family suggestion comes first |
| Queries.SuggestRelationships | relationship-system.js:250-284 | nothing for an unknown person, else at most two suggestions, each present exactly when its condition holds, with the contents above |
| Queries.GroupMembersByRole | relationship-system.js:508-517 | roles in first-appearance order; each role maps to the non-empty list of members with that role, in member order, and no other roles appear |
| MigrationRules.ConvertBranchTypeToFamilyType | relationship-system.js:404-412 | the four known branch types map as the table says, and anything else becomes "nuclear" |
| MigrationRules.CalculateAge | relationship-system.js:440-443 | a missing birth year gives 25, else birth year plus age is the current year |
| MigrationRules.InferRoleFromAge | relationship-system.js:433-438 | "parent" exactly from age 50, "adult_child" exactly for 18..49, else "child" |
| MigrationRules.MissingBirthYearIsAdultChild | relationship-system.js:433-443 | without a birth year the age rule always says "adult_child" |
| MigrationRules.InferRoleFromOldData | relationship-system.js:414-431 | parent words win over child words, which win over spouse words, searched case-insensitively; otherwise the age rule decides |
| MigrationRules.FatherIsParentAtAnyAge | relationship-system.js:416-419 | the label "Father" gives "parent" whatever the age |
| MigrationRules.EmptyLabelUsesAge | relationship-system.js:416 | without a label the age rule decides |
| MigrationRules.LegacyPersonInput | relationship-system.js:296-312 | pass 1 copies the names, birth date and contact fields (not the e-mail) and marks the migration as creator |
| MigrationRules.LegacyIdMap | relationship-system.js:293-315 | every member's legacy id is mapped, always to one of the ids just created |
| MigrationRules.LegacyIdMapPointsBack | relationship-system.js:314 | a legacy id maps to the person created for its last occurrence |
| MigrationRules.LegacyIdMapKeys | relationship-system.js:314 | the map's keys are exactly the legacy ids |
| MigrationRules.PeopleCreatedCount | relationship-system.js:395 | `peopleCreated` is at most the member count, and equal to it exactly when the legacy ids are distinct |
| MigrationRules.BranchFamilyInput | relationship-system.js:322-328 | a branch's family takes its name, description, converted type and generation level |
| MigrationRules.Unassigned | relationship-system.js:351 | exactly the members whose branch name is missing, empty or all white space |
| MigrationRules.BranchMembersUnassignedIffBlank | relationship-system.js:333-351 | a branch member is also left for pass 3 exactly when the branch's name is blank |
| MigrationRules.BranchMembers | relationship-system.js:333 | exactly the members whose branch name equals the branch's |
| MigrationRules.AutoFamilyInput | relationship-system.js:366-372 | an auto family is named "<last name> Family", is "nuclear", has generation 2 and has the auto-grouping creator |
| MigrationRules.AutoFamilyInputInjective | relationship-system.js:367 | different last names give different auto families |
| MigrationRules.BigKeys | relationship-system.js:364-365 | exactly the last names whose group has at least two members, in key order |
| MigrationRules.KeyStep | relationship-system.js:364-365 | one more last name adds itself exactly when its group is big |
| MigrationRules.AutoFamiliesMembership | relationship-system.js:363-388 | a last name gets an auto family exactly when its group of unassigned members has at least two members |
| MigrationRules.FamilyPlan | relationship-system.js:317-388 | the migration creates one family per branch plus one per big last-name group |
| MigrationRules.FamilyPlanAt | relationship-system.js:317-388 | family j is branch j's, then the auto family of the (j - branches)-th big last name |
| MigrationRules.FamiliesCreatedCount | relationship-system.js:396 | `familiesCreated` counts distinct branch names only: at most the branch count, and equal to it exactly when the names are distinct |
| MigrationRules.MemberRelationship | relationship-system.js:337-345 | a member's relationship points at its new person id and the family, without dates; pass 2 takes the label-inferred role, the label and the migration creator, pass 3 the age role, no label and the auto-grouping creator |
| MigrationRules.MemberRelationships | relationship-system.js:336-347 | at most one relationship per member, each pointing at the given family |
| MigrationRules.MemberRelationshipsProvenance | relationship-system.js:336-347 | each relationship is built from one of the family's mapped members |
| MigrationRules.MemberRelationshipsAllMapped | relationship-system.js:336-347 | when every member is mapped, each member gets exactly one relationship, in member order |
| MigrationRules.GroupsWithinAppend | relationship-system.js:317-388 | groups drawn from the legacy members stay so when joined |
| MigrationRules.BranchGroups | relationship-system.js:320-333 | one group per branch, holding the branch's members |
| MigrationRules.KeyGroups | relationship-system.js:364-375 | one group per last name, holding its unassigned members |
| MigrationRules.KeyGroupsSnoc | relationship-system.js:364-375 | one more last name appends its group |
| MigrationRules.AutoGroups | relationship-system.js:363-388 | one group per big last name, in key order |
| MigrationRules.BranchGroupsSnoc | relationship-system.js:320-333 | one more branch appends its group |
| MigrationRules.PlanGroups | relationship-system.js:317-388 | one group per created family, every member taken from the legacy data |
| MigrationRules.BranchGroupsWithin | relationship-system.js:333 | branch groups hold legacy members only |
| MigrationRules.KeyGroupsWithin | relationship-system.js:351-361 | last-name groups hold legacy members only |
| MigrationRules.PlanGroupAt | relationship-system.js:317-388 | group j is branch j's members, then the j-th big last-name group |
| MigrationRules.FlattenMembership | relationship-system.js:336-386 | a relationship is created exactly when some family's block holds it |
| MigrationRules.FlattenSnoc | relationship-system.js:336-386 | one more family's block is appended |
| MigrationRules.FlattenAppend | relationship-system.js:336-386 | flattening distributes over concatenation |
| MigrationRules.GroupBlocks | relationship-system.js:336-386 | family (base + j) gets the relationships of group j's members, made by that group's pass |
| MigrationRules.FlattenGroupBlocksSnoc | relationship-system.js:336-386 | one more group appends its relationships, pointing at the next family id |
| MigrationRules.GroupBlocksAppend | relationship-system.js:336-386 | two runs of families join into one run of relationships |
| MigrationRules.GroupBlocksProvenance | relationship-system.js:336-386 | every relationship comes from a member of some group and points at that group's family |
| MigrationRules.SingletonNotAutoGrouped | relationship-system.js:365 | a member alone in its last-name group is in no auto family |
| MigrationRules.RelationshipPlanShape | relationship-system.js:336-386 | every created relationship has no dates, one of the four inferable roles and one of the two migration creators |
| MigrationRules.RelationshipPlanTargetsNewRecords | relationship-system.js:337-341 | every created relationship points at a person and a family the same migration creates |
| MigrationRules.OfFamilyAppend | relationship-system.js:113 | selecting one family's relationships distributes over concatenation |
| MigrationRules.OfFamilyAll | relationship-system.js:113 | relationships all of the family are all selected |
| MigrationRules.OfFamilyNone | relationship-system.js:113 | relationships of other families are not selected |
| MigrationRules.OfFamilyFlatten | relationship-system.js:336-386 | a family in the run gets exactly its block, and a family outside gets nothing |
| MigrationRules.OfFamilyFlattenAt | relationship-system.js:336-386 | family (base + j) gets block j |
| MigrationRules.GroupBlocksOfFamily | relationship-system.js:336-386 | family (base + j) gets one relationship per member of group j, in member order |
| MigrationRules.OnePerMemberOfBlock | relationship-system.js:336-386 | a family's relationships are its block's |
| MigrationRules.PlanOfFamily | relationship-system.js:317-388 | each created family gets one relationship per member of its group, by the group's pass |
| MigrationRules.MigratedBranchFamily | relationship-system.js:320-348 | branch j's family is built from the branch and gets one label-inferred relationship per branch member |
| MigrationRules.MigratedAutoFamily | relationship-system.js:363-388 | each auto family is named after a last name with at least two unassigned members and gets one age-inferred relationship per member |
| Birthdays.GetMonthIndex | relationship-system.js:595-601 | -1 exactly for a non-month, else the index of that month name |
| Birthdays.MonthNamesDistinct | relationship-system.js:596-599 | the twelve month names are distinct |
| Birthdays.MonthIndexOfName | relationship-system.js:595-601 | each month name maps back to its own index |
| Birthdays.DaysCeil | relationship-system.js:560 | `Math.ceil` of a millisecond count in days: the least whole number of days covering it |
| Birthdays.DaysUntil | relationship-system.js:560 | the rounded-up days until a local midnight are the day-number difference, at any time of day |
| Birthdays.NextBirthday | relationship-system.js:579-593 | the day-granular next birthday: the far-future date without month and day, else this year's or next year's birthday |
| Birthdays.NextBirthdayAsWritten | relationship-system.js:579-593 | `getNextBirthday` as written: the far-future date without month and day, else this year's or next year's birthday |
| Birthdays.NextBirthdayIsNextOccurrence | relationship-system.js:579-593 | this year's birthday when not before today, else next year's; 0 to 365 days ahead either way |
| Birthdays.UnknownMonthMeansDecember | relationship-system.js:584-590 | an unknown month name means December of the previous year, so next year's date is this December's |
| Birthdays.AsWrittenDiffersOnlyOnTheDay | relationship-system.js:582-590 | the as-written and day-granular definitions differ exactly for a birthday falling today, read after midnight |
| Birthdays.BirthdayTodayIsMissed | relationship-system.js:582-590 | as written, a birthday falling today is 365 or 366 days away instead of 0 |
| Birthdays.FamilyNames | relationship-system.js:571 | fails with the missing-family error exactly when an entry's family is missing from the cache; otherwise the cached families' names joined with ", ", so "" for a person with no family and a single family's name alone |
| Birthdays.FamilyNamesSnoc | relationship-system.js:571 | one more cached family appends ", " and its name; a missing one, or an earlier failure, makes the whole join fail |
| Birthdays.UpcomingEntry | relationship-system.js:559-572 | an entry carries the person, the rule's next birthday, the days until it, the age and the joined names of the person's families, and fails exactly when a family name is missing |
| Birthdays.UpcomingEntriesMeaning | relationship-system.js:556-574 | under either rule, fails exactly when an in-window person's entry fails, else lists exactly the in-window people's entries |
| Birthdays.UpcomingEntriesInOrder | relationship-system.js:556-574 | on success, exactly one entry per in-window person, in input order: entry i is the entry of the i-th in-window person |
| Birthdays.UpcomingEntriesInWindow | relationship-system.js:557-562 | every listed entry is of an active person, 0 to `daysAhead` days away |
| Birthdays.BirthdayTodayIsListed | relationship-system.js:552-577 | with the day-granular rule, an active person whose birthday is today is listed at 0 days |
| Birthdays.RulesAgreeOffTheDay | relationship-system.js:559-562 | except for a birthday today read after midnight, both rules give the same window test and the same entry |
| Birthdays.RulesOnTheDay | relationship-system.js:559-562 | for a birthday today read after midnight, the day-granular rule gives 0 days and the as-written rule at least 365 |
| Birthdays.WindowAsWritten | relationship-system.js:557-562 | for a window under a year, as written a person is in the window exactly when the day-granular rule admits them and their birthday is not today after midnight |
| Birthdays.UpcomingAsWrittenDropsToday | relationship-system.js:552-577 | for a window under a year, the as-written loop's result is the day-granular loop's result over everyone whose birthday is not today after midnight |
| Birthdays.BirthdayTodayIsLeftOut | relationship-system.js:552-577 | as written, a person whose birthday is today, read after midnight, is in no entry of a window under a year |
| Birthdays.FailurePersists | relationship-system.js:556-574 | an error thrown in a prefix of the loop is the loop's error |
| Birthdays.GetUpcomingBirthdays | relationship-system.js:552-577 | with a window of 30 days unless given, the as-written loop's entries, sorted by days until, as a permutation of that loop's list; or that loop's error |
| RelationshipSystem.Removed | relationship-system.js:146-151 | `removeRelationship` leaves the store's merge of its patch: inactive, deletion time stamped, same id |
| RelationshipSystem.CascadeSource | relationship-system.js:113 | the i-th relationship `deleteFamily` removes is a cached relationship of that family |
| RelationshipSystem.RemovedIdempotent | relationship-system.js:146-151 | removing twice at the same time is removing once, and leaves the relationship inactive with its id |
| RelationshipSystem.CascadeIds | relationship-system.js:113-116 | the ids `deleteFamily` removes are those of the family's cached relationships, each from a cached relationship of the family |
| RelationshipSystem.PeopleStep | relationship-system.js:295-315 | one more member appends its person data, and maps its legacy id to the next id |
| RelationshipSystem.BranchStep | relationship-system.js:320-333 | one more branch appends its family data and its group |
| RelationshipSystem.BranchNameStep | relationship-system.js:330 | one more branch adds its name to the family id map's keys |
| RelationshipSystem.SmallGroupSkipped | relationship-system.js:365 | a last name with too small a group adds no family |
| RelationshipSystem.PersonStored | relationship-system.js:295-315 | one pass-1 step extends the stored people and the id map by that member |
| RelationshipSystem.BranchStored | relationship-system.js:320-348 | one pass-2 step extends the stored families and relationships by that branch's plan step |
| RelationshipSystem.AutoFamilyStored | relationship-system.js:364-388 | one pass-3 step extends the stored families and relationships by that last name's plan step |
| RelationshipSystem.BranchesDone | relationship-system.js:320-348 | proof step: the pass-2 loop invariant at its last branch is the branch part of the plan |
| RelationshipSystem.LastNamesDone | relationship-system.js:363-388 | proof step: the pass-3 loop invariant at its last last name is the auto part of the plan |
| RelationshipSystem.PassesStored | relationship-system.js:317-388 | passes 2 and 3 together store exactly the plan's families and relationships |
| RelationshipSystem.FamilyRelationshipSystem.constructor | relationship-system.js:22-38 | the caches start empty over the given collections |
| RelationshipSystem.FamilyRelationshipSystem.AddPerson | relationship-system.js:43-72 | appends the new active person under the next id, returns it, and changes nothing else |
| RelationshipSystem.FamilyRelationshipSystem.UpdatePerson | relationship-system.js:74-77 | fails with `NotFound` exactly for an unknown id, else merges the patch and stamps the update time; the cache is not refreshed |
| RelationshipSystem.FamilyRelationshipSystem.DeletePerson | relationship-system.js:79-82 | fails exactly for an unknown id, else marks the person inactive with deletion and update times, and changes nothing else |
| RelationshipSystem.FamilyRelationshipSystem.CreateFamily | relationship-system.js:87-102 | appends the new active family under the next id, with "nuclear" as the default type |
| RelationshipSystem.FamilyRelationshipSystem.UpdateFamily | relationship-system.js:104-107 | fails exactly for an unknown id, else merges the patch and stamps the update time |
| RelationshipSystem.FamilyRelationshipSystem.DeleteFamily | relationship-system.js:109-117 | fails exactly for an unknown id, changing nothing; else soft-deletes the family and removes exactly the family's cached relationships |
| RelationshipSystem.FamilyRelationshipSystem.RemoveRelationships | relationship-system.js:114-116 | removes exactly the listed relationships and leaves the others |
| RelationshipSystem.FamilyRelationshipSystem.AddRelationship | relationship-system.js:122-139 | appends the new active relationship under the next id; missing dates become null |
| RelationshipSystem.FamilyRelationshipSystem.UpdateRelationship | relationship-system.js:141-144 | fails exactly for an unknown id, else merges the patch and stamps the update time |
| RelationshipSystem.FamilyRelationshipSystem.RemoveRelationship | relationship-system.js:146-151 | fails exactly for an unknown id, else marks it inactive with a deletion time and no update time |
| RelationshipSystem.FamilyRelationshipSystem.LoadPeople | relationship-system.js:164-178 | the people cache becomes exactly the active stored people |
| RelationshipSystem.FamilyRelationshipSystem.LoadFamilies | relationship-system.js:180-194 | the family cache becomes exactly the active stored families |
| RelationshipSystem.FamilyRelationshipSystem.LoadRelationships | relationship-system.js:196-210 | the relationship cache becomes exactly the active stored relationships |
| RelationshipSystem.FamilyRelationshipSystem.LoadAllData | relationship-system.js:156-162 | all three caches are reloaded |
| RelationshipSystem.FamilyRelationshipSystem.MigratePeople | relationship-system.js:292-315 | pass 1 stores one person per member in order and returns the legacy id map |
| RelationshipSystem.FamilyRelationshipSystem.AddMemberRelationships | relationship-system.js:336-347 | stores one relationship per mapped member, in member order |
| RelationshipSystem.FamilyRelationshipSystem.MigrateBranch | relationship-system.js:320-347 | stores branch b's family under the next id, and its members' relationships to it |
| RelationshipSystem.FamilyRelationshipSystem.MigrateLastName | relationship-system.js:364-388 | one pass-3 step stores the next step of the auto part of the plan, or nothing for a small group |
| RelationshipSystem.FamilyRelationshipSystem.MigrateBranches | relationship-system.js:317-348 | pass 2 stores the branch part of the plan; the family id map's keys are the branch names |
| RelationshipSystem.FamilyRelationshipSystem.MigrateUnassigned | relationship-system.js:350-389 | pass 3 stores the auto part of the plan |
| RelationshipSystem.FamilyRelationshipSystem.MigrateFromOldSystem | relationship-system.js:289-399 | the store gains exactly the planned people, families and relationships, in order; the caches are reloaded; the counts are the id map sizes and the reloaded relationship count |
| RelationshipUi.KeepPersonMeaning | relationship-ui.js:165-188 | the people filter's test holds exactly when the person is selected, stated on the relationship cache |
| RelationshipUi.FilterPeople | relationship-ui.js:160-188 | exactly the selected people of the cache: active, matching the search ignoring case, and with the selected role and family through an active relationship |
| RelationshipUi.PeopleSearchIgnoresCase | relationship-ui.js:161 | typing the search in any case selects the same people |
| RelationshipUi.KeepFamilyMeaning | relationship-ui.js:200-208 | the families filter's test holds exactly when the family is selected |
| RelationshipUi.FilterFamilies | relationship-ui.js:196-210 | exactly the active families whose name or description contains the search ignoring case, and of the selected type |
| RelationshipUi.DescriptionGuardRedundant | relationship-ui.js:205 | the empty-description guard changes no outcome for a non-empty term |
| RelationshipUi.FamiliesSearchIgnoresCase | relationship-ui.js:197 | typing the search in any case selects the same families |
| RelationshipUi.BigKeySetSnoc | relationship-ui.js:587 | one more last name adds itself to the set of big groups exactly when its group is big |
| RelationshipUi.BigKeysCount | relationship-ui.js:587 | counting the distinct big last names one by one gives the size of their set |
| RelationshipUi.EstimateDone | relationship-ui.js:587-589 | the count of big groups plus the branches is the size of the migration's family plan |
| RelationshipUi.EstimateFamiliesFromMigration | relationship-ui.js:572-590 | 0 when either legacy list is missing, else branches plus big last-name groups: exactly the number of families the migration creates |

## Left out

- Document store I/O and the network are not modelled.
  - Each collection is a sequence held by the store object, and every call
    completes.
  - A failing write beyond an unknown id is not modelled, so neither is a
    migration that stops half way.
- The loads' `catch` blocks are not modelled: the model's loads never fail.
  In the source, a failed load logs and leaves the cache as it was.
- Concurrency is not modelled. `loadAllData` runs its three loads with
  `Promise.all`; the model runs them in sequence. They touch disjoint
  fields, so the result is the same.
- Logging (`console.log`, `console.error`) is not modelled.
- The clock is a parameter.
  - Each operation receives one `now`, so a record's timestamps within one
    call are equal.
  - The whole migration runs at one `now` and one `currentYear`.
  - Time zones and daylight-saving days are not modelled: a day is always
    86 400 000 ms.
- Document ids are consecutive numbers, not the random strings the document
  store generates. The migration's `if (newPersonId)` test is membership in
  the id map, because a generated id is never falsy.
- Query results come back in id order; the document store's own result
  order is not modelled.
- `toLowerCase` is modelled for ASCII letters only, with no Unicode case
  mapping.
- `Object.entries` and `Object.values` are modelled as listing keys in
  insertion order. JavaScript lists integer-like keys first, in numeric
  order, so the creation order of auto families differs when a last name
  is an integer literal. The estimate's count does not depend on the order.
- MigrationRules.LastNameKeys: last names that are names of
  `Object.prototype` members (`constructor`, `toString`, ...) are not
  modelled. For them, `lastNameGroups[lastName]` is already truthy, and the
  source's `push` would throw.
- MigrationRules.LastNameKeys: a legacy member without a last name is not
  told apart from one whose last name is `""`. The source keys such a
  member under the string "undefined", so the two kinds form separate
  groups there and one group in the model. A group of members without a
  last name is named "undefined Family" by the source, where the model
  gives " Family" (`MigrationRules.AutoFamilyInput`).
- MigrationRules.FamilyPlan: the count of auto families shares that
  difference when both kinds occur among the unassigned members. Two groups
  of two or more give the source one family more than the plan; two single
  members give the plan one family the source does not create.
- RelationshipUi.EstimateFamiliesFromMigration: its estimate groups last
  names the same way as pass 3, so it still equals the source migration's
  count, but both can then differ from `|FamilyPlan|` by one.
- MigrationRules.BranchMembers: a legacy branch without a name is modelled
  with the name `""`. The source's test `m.familyBranch === oldBranch.name`
  then matches the members without a branch (`undefined === undefined`),
  while the model matches the members whose branch is `""`.
- Queries.SameLastNamePeople: a person without a last name is not told
  apart from one whose last name is `""`. The source's `===` matches
  `undefined` only with `undefined`, so it does not suggest the two to each
  other; the model does.
- RelationshipUi.KeepPersonMeaning: a person without a first or last name
  is modelled with `""`, and the model treats the name as empty. With a
  search term set, the source's `person.firstName.toLowerCase()` throws a
  `TypeError` for a missing first name, and `person.lastName.toLowerCase()`
  does so for a missing last name when the first name does not match.
- RelationshipUi.FilterPeople: the same `TypeError` escapes the source's
  `filter`, so with a search term set and a person missing a name the grid
  is not filtered. The model returns the selected people instead.
- MigrationRules.ConvertBranchTypeToFamilyType: branch types that are names
  of `Object.prototype` members (`constructor`, `toString`, `valueOf`,
  `__proto__`, ...) are not modelled. For them, `typeMap[branchType]` is the
  inherited function or object, which is truthy, so the source stores it as
  the family type. The contract's "one of three strings" holds for every
  other branch type.
- Queries.GroupMembersByRole: roles that are names of `Object.prototype`
  members are not modelled. For them, `grouped[member.role]` is already
  truthy, and the source's `push` would throw. The roles are listed in
  order of first appearance, but JavaScript lists integer-like keys first,
  in numeric order, so that order differs when a role is an integer
  literal.
- Rendering is not modelled: HTML strings, the DOM and every `render*`,
  `formatFamilyType`, `getFamilyTypeColor` and `getFamilyTypeIcon` method.
- The filter controls' values and `window.familyBranches` /
  `window.familyMembers` are parameters. The family control's value is
  modelled as the selected family id, and absent globals as `None`.
- Partial updates are lists of field assignments. Writing `id`, or any
  field the record kinds do not have, is not modelled. The source's
  mutation of the caller's `updateData` object is not modelled either.
- Birthdays.GetUpcomingBirthdays: its contract does not state that entries
  with equal `daysUntil` keep their loop order (JavaScript's `sort` is
  stable). The insertion sort happens to keep that order, but the model
  does not prove it.
- Seqs.SortBy: stability is not stated, for the same reason.
- The `daysUntilBirthday` badge on person cards (relationship-ui.js:103)
  lies outside the modelled UI functions.

## Findings

| source | as written | input that shows it | evidently intended | confidence | as-written member | corrected member |
|---|---|---|---|---|---|---|
| relationship-system.js:582-590 | `getNextBirthday` compares the birthday's local midnight with `new Date()`, the current instant. After 00:00 a birthday falling today counts as past and moves to next year. `getUpcomingBirthdays` then reports it 365 or 366 days away, and the dialog's "Today!" label (relationship-ui.js:616) is unreachable after midnight: it shows only for a read at exactly 00:00:00.000. | birthMonth "October", birthDay 14, read at 09:00 on 14 October 2026: the next birthday given is 14 October 2027 | the occurrence on or after today, at day granularity: 14 October 2026, 0 days away, listed as "Today!" | not executed; proved by `Birthdays.BirthdayTodayIsMissed` and `Birthdays.BirthdayTodayIsLeftOut` | `Birthdays.NextBirthdayAsWritten` | `Birthdays.NextBirthday` |
