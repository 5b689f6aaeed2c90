# A model of the community directory service

This project models, in Dafny, the parts of a membership backend (FastAPI over Postgres) that carry
state, ordering or arithmetic, and proves what they keep over every input and every run. Tables are
maps and sequences; the uniqueness, check and row-lock rules of the schema are part of the model;
answers of the outside world (Drive downloads, deletions in the object store, row writes that fail,
clocks, refused `ALTER TABLE` statements) are parameters. Code that updates fields or loops in the
original is a class or a method with loops here, tied to a specification function; the theorems are
about that function and its runs.

| file | what it models |
|---|---|
| `IdCodec.dfy`, `Decimal.dfy` | group IDs and member IDs: zero-padded, variable-width decimal codes |
| `MemberGroups.dfy`, `MemberGroupProofs.dfy`, `MemberGroupRuns.dfy`, `MemberGroupService.dfy` | members of several groups: three redundant records, add, remove with promotion, ordered selection, bulk detachment |
| `MemberNumbers.dfy`, `MemberAdditions.dfy`, `MemberRemovals.dfy`, `MemberSelections.dfy`, `HeldNumbers.dfy`, `GroupCodes.dfy`, `NumberReturns.dfy`, `NumberWitnesses.dfy` | the numbers of those members: what runs mint, when an addition, removal, selection or detachment is refused and what it leaves, which group codes keep numbers apart, which numbers are never minted again and which can return |
| `AllocationProtocol.dfy` | concurrent counter allocation as interleaved transactions |
| `GroupIdAllocator.dfy` | district group IDs from a counter initialised by the stored maximum |
| `RegistrationSync.dfy` | the row loop of the registration sheet import in its two modes |
| `HeaderText.dfy`, `HeaderMatcher.dfy` | header normalisation and the longest-alias matcher |
| `SheetColumns.dfy`, `ColumnPlanner.dfy`, `Text.dfy` | column names from headers and the plan of new columns |
| `Dates.dfy` | the date parser and printer, and the date a profile stores |
| `PhotoMigration.dfy`, `PhotoOutcomes.dfy`, `PhotoRuns.dfy`, `PhotoSources.dfy` | copying photos from Drive into object storage, slot by slot, among uploads, removals and sheet edits |
| `OtpLogin.dfy` | one-time login codes over time |
| `CityCodes.dfy`, `CityRows.dfy`, `PrimaryDistricts.dfy` | the city part of the geographic seed data |
| `TranslationCache.dfy` | the bounded translation cache |
| `Common.dfy` | options, results, filters |

## What the code does where its description says otherwise

- In a group without a counter row the first number minted through an addition is never 001: the
  membership row is flushed before the counter is initialised from the row count
  (`app/services/member_group_service.py:102-115`, `app/services/group_id_service.py:367-407`). Groups
  created by the API get a counter at 0 and do start with 001 (`app/api/v1/groups.py:308`); the migration
  that introduced the counters creates their table empty beside existing numbers
  (`migrations/versions/b2c3d4e5f6a7_multi_group_hierarchical_id_system.py:36`).
- An addition can be refused for a number that is already shown, and every retry meets the same number.
  `MemberAdditions.AdditionSucceedsIff` is the exact condition, `NumberWitnesses.AdditionConflicts` an
  instance. So can a removal that promotes another group, and with it a detachment
  (`MemberRemovals.RemovalSucceedsIff`, `MemberRemovals.DetachRefusedIff`, instance
  `NumberWitnesses.RemovalConflicts`).
- `HeldNumbers.NothingConflicts` names the invariant under which no operation is ever refused: member IDs
  of different groups are never one text, every number held is counted by its group, and nobody else holds
  it; tables without numbers satisfy the last two (`HeldNumbers.NothingHeldYet`). Codes meet the first
  exactly when none equals another or extends it by digits that do not start with 0
  (`GroupCodes.CodesApartIff`); distinct codes of groups up to the hundredth do (`GroupCodes.HundredApart`),
  and so do MP09001, of the earlier three-digit form, and MP0902 (`GroupCodes.EarlierCodeBeside`). Distinct
  codes of any form will do while no sequence passes 1000 (`GroupCodes.ThousandApart`,
  `HeldNumbers.NothingConflictsWithin`); past both, group 10 and group 101 meet
  (`GroupCodes.CrowdedConflicts`).
- A number held before its group had a counter row, or ahead of that counter, can be minted again once it
  is freed, and only such a number (`NumberReturns.NumberReturnsIff`, instance
  `NumberWitnesses.FreedNumberReturns`). Under the invariant above no number held at any time is ever
  minted again (`HeldNumbers.HeldNeverMintedAgain`).
- Secondary additions mint numbers too, and a promotion reuses the number the member already holds in
  the promoted group instead of minting a fresh one (`MemberNumbers.PromotionMintsIff`).
- `assign_member_id` breaks the agreement of the records exactly for a member whose legacy pointer to
  another group has not been materialised (`MemberNumbers.AssignSoundIff`, instance
  `NumberWitnesses.AssignmentSplitsRecords`). No caller in the repository passes such a member: additions
  and removals materialise the pointer first, and `app/api/v1/members.py:715` passes the pointer's own
  group. `detach_group` does not see such pointers (`MemberGroupRuns.DetachLeavesOnlyLegacyPointers`,
  instance `NumberWitnesses.PointerOutlivesDetachment`).
- Member IDs are unique text exactly while group sequences stay up to 100 or the member sequences in use
  lie among a thousand consecutive ones, 1 to 1000 for example (`IdCodec.DecodeUpToIff`); past both,
  groups 10 and 101 meet (`IdCodec.MemberIdCollisionFamily`). The shape test recognises a group's own
  numbers, and no others, exactly up to group 99 (`IdCodec.ShapesApartIff`).
- A group ID, deleted or not, is issued in some later run exactly when its district has no counter row or a
  counter below its sequence (`GroupIdAllocator.IssuedAgainIff`). Before the first claim a deleted ID can
  therefore return, a district's only ID at once
  (`GroupIdAllocator.DeletedBeforeFirstClaimReturns`); a counter that lags stays safe exactly when no
  stored ID lies ahead of it (`GroupIdAllocator.ClaimsStayFreshIff`).
- A dry run and a write of the sheet import count differently exactly when a user without a member
  record is reached by two accepted rows (`RegistrationSync.DryRunSimulatesWrite`, instance
  `RegistrationSync.LinkedThenUpdated`).
- A system column is written by a run exactly when it is missing from the table and some header asks for
  it early enough (`ColumnPlanner.SystemTargetedIff`); the next run no longer writes it
  (`ColumnPlanner.TargetSurvives`). While the system columns exist none is ever written
  (`ColumnPlanner.SystemColumnsAreSafe`). Headers "1 Photo" and "Col 1 Photo" share a column
  (`SheetColumns.SameNameIff`).
- Printing a date is idempotent exactly when its year is not 10 to 99 (`Dates.FormatIdempotentIff`,
  instance `Dates.YearFiftyChanges`).
- If the storage loses its public URL between runs, a replaced photo leaves the serving column naming
  the old object (`PhotoRuns.ServingFollowsKeyIff`, instance `PhotoRuns.StaleServingUrl`).
- A stored object under a slot's migration prefix is taken over as if it were the linked file
  (`app/services/drive_photo_migration.py:398-417`), whatever file it came from: the recorded source is the
  source of the recorded bytes exactly when the run did not take over an object of another file
  (`PhotoSources.ReportedIsTracedIff`, instance `PhotoSources.LeftoverIsAdopted`).
- Removing a photo keeps its Drive link, so the next run over the slot brings one back exactly when there
  is such a link and an object is left or the file downloads (`PhotoSources.RemovalUndoneIff`).
- The cache drops the entry just written when it is new, the cache is full and the clock has fallen
  behind every entry (`TranslationCache.WrittenIsKeptIff`, instance `TranslationCache.SteppedBackClockLoses`).

## Model

| member | source | states |
|---|---|---|
| IdCodec.MemberIdsInjectiveInGroup | app/services/group_id_service.py:410-412 | within one group two member IDs are equal iff their sequences are, at any width |
| IdCodec.GroupIdsInjective | app/services/group_id_service.py:359-361 | for prefixes of equal length a group ID determines prefix and sequence |
| IdCodec.MemberIdDecodesUniquely | app/services/group_id_service.py:359-412 | a member ID determines prefix, group sequence and member sequence whenever the two member sequences differ by less than 1000 or both group sequences are at most 100 |
| IdCodec.DecodeUpToIff | app/services/group_id_service.py:359-412 | all IDs of groups up to a bound and member sequences of a range are different iff the bound is at most 100 or the range, starting at 999 or below, has at most 1000 sequences |
| IdCodec.MemberIdCollisionFamily | app/services/group_id_service.py:359-412 | with both bounds dropped, every member ID of group 10b+d is also the ID of a member of group b |
| IdCodec.OwnNumberMatches | app/services/group_id_service.py:473-479 | every formatted member ID has the shape of its own group |
| IdCodec.ShapeIff | app/services/group_id_service.py:473-479 | a text has the shape of a group iff it is the group ID followed by digits only, at least three of them |
| IdCodec.MatchesExactlyItsOwnGroup | app/services/group_id_service.py:473-479 | with two-digit group sequences the shape test accepts the owning group and no other |
| IdCodec.MatchesAForeignGroup | app/services/group_id_service.py:473-479 | past that bound it accepts numbers of a different group |
| IdCodec.ShapesApartIff | app/services/group_id_service.py:473-479 | among groups up to a bound the shape test recognises each member ID for its own group only iff the bound is at most 99 |
| IdCodec.IdsMeet | app/services/group_id_service.py:410-412 | member IDs of two groups are one text only if one group ID is the other with digits after it, not starting with 0, and the shorter one's sequence is more than a thousand times those digits |
| IdCodec.ExtensionMeets | app/services/group_id_service.py:410-412 | and then they do meet: the first ID of the longer group is one of the shorter |
| MemberGroupService.MembershipSession.GetGroupMemberCount | app/services/group_id_service.py:367-379 | the number of mirror rows of the group, or of its membership rows when it has no mirror row |
| MemberGroupService.MembershipSession.NextGroupMemberId | app/services/group_id_service.py:382-407 | a group without a code is refused and keeps its counter; otherwise the counter moves to one past its last or initial value and the ID carries that value |
| MemberGroupService.MembershipSession.ChooseNumber | app/services/group_id_service.py:499-529 | a number already held in the group is reused, mirror before row before visible number; otherwise exactly one is minted |
| MemberGroupService.MembershipSession.WriteRecords | app/services/group_id_service.py:531-592 | the three writes: visible number and pointer when primary, membership row, mirror row |
| MemberGroupService.MembershipSession.AssignMemberId | app/services/group_id_service.py:489-605 | ends as the specification of an assignment, or restores everything when a unique number is violated |
| MemberGroupService.MembershipSession.EnsureLegacyMembership | app/services/member_group_service.py:39-61 | a pointer without rows becomes a primary membership, anything else stays |
| MemberGroupService.MembershipSession.AddMembership | app/services/member_group_service.py:64-115 | ends as the specification of an addition and keeps the three records in agreement |
| MemberGroupService.MembershipSession.RemoveMembership | app/services/member_group_service.py:118-178 | ends as the specification of a removal with promotion and keeps the three records in agreement |
| MemberGroupService.MembershipSession.SyncMemberships | app/services/member_group_service.py:181-224 | ends as the specification of an ordered selection, all or nothing, and keeps the records in agreement |
| MemberGroupService.MembershipSession.DetachGroup | app/services/member_group_service.py:227-237 | ends as the specification of a detachment and keeps the records in agreement |
| MemberGroupProofs.WriteNumberKeeps | app/services/group_id_service.py:531-592 | writing a number for a materialised member leaves its rows, mirror and visible number in agreement |
| MemberGroupProofs.AssignKeeps | app/services/group_id_service.py:489-605 | an assignment to a materialised member keeps validity and writes one settled number in all records |
| MemberGroupProofs.AddKeeps | app/services/member_group_service.py:64-115 | an addition keeps validity and touches no other member; a new group goes last and, unless first, leaves primary group and visible number alone |
| MemberGroupProofs.RemoveKeeps | app/services/member_group_service.py:118-178 | a removal keeps validity and the order of the remaining groups; a secondary one changes nothing visible, a primary one hands over to the next group |
| MemberGroupRuns.SyncKeeps | app/services/member_group_service.py:181-224 | the groups by ascending priority are the surviving old ones in their old order, then the live new ones in caller order without duplicates |
| MemberGroupRuns.SyncManagedLeavesOthers | app/services/member_group_service.py:207-224 | with a managed group no membership of any other group is added, removed or reordered |
| MemberSelections.SelectionIff | app/services/member_group_service.py:181-224 | on any valid store a selection is refused as empty iff nothing is selected, in a conflict iff one of its removals or additions is refused at its turn, as not managed iff otherwise a selected group the member does not have is not the caller's; in all other cases it is accepted |
| MemberSelections.SelectionAccepted | app/services/member_group_service.py:181-224 | where every number is accounted for a selection is accepted iff something is selected and every selected group the member does not have is the caller's to add; it is never refused in a conflict |
| MemberSelections.SelectedGroups | app/services/member_group_service.py:203-224 | after an accepted selection the member has, of the groups it had, those selected or not the caller's to drop, and of the others those selected that are stored and not deleted |
| MemberSelections.FirstSelection | app/services/member_group_service.py:181-224 | an instance: one group selected for a member without groups is accepted |
| MemberSelections.DedupInOrder | app/services/member_group_service.py:194-197 | the selection is walked in the order in which its groups are first named |
| MemberSelections.RemoveAllIff | app/services/member_group_service.py:207-212 | the removals of a selection all succeed unless, after some prefix that went through, the next one is refused |
| MemberSelections.AddAllIff | app/services/member_group_service.py:214-224 | the additions end at the first one that is refused or not the caller's, and are all done iff there is none |
| MemberGroupRuns.DetachKeeps | app/services/member_group_service.py:227-237 | no row of the group is left, members that had it lose only it, members outside it are unchanged |
| MemberGroupRuns.DetachLeavesOnlyLegacyPointers | app/services/member_group_service.py:227-237 | a pointer to the group survives iff it had never been materialised |
| NumberWitnesses.PointerOutlivesDetachment | app/services/member_group_service.py:227-237 | an instance: the detachment empties the only member with a row and leaves the pointer of the other |
| MemberGroupRuns.StepKeepsValid | app/services/member_group_service.py:64-237 | every operation, successful or aborted, leads from a valid store to a valid store |
| MemberGroupRuns.RunKeepsValid | app/services/member_group_service.py:64-237 | every store reached by any sequence of operations is valid |
| MemberGroupRuns.RecordsAgree | app/models/member_group.py:25-102 | in a valid store priorities are distinct and at least 1, the priority-1 row is the pointer's and carries the visible number if it has one, at most one mirror row is primary and for the pointer's group, every mirror row repeats the number of a membership row |
| MemberNumbers.RunMintsIncrease | app/services/group_id_service.py:382-407 | over every run the sequences minted for a group strictly increase and lie above an existing counter, so no sequence of a group is minted twice in it |
| MemberNumbers.MintedNumbersDiffer | app/services/group_id_service.py:359-412 | two numbers minted in a run are different texts unless the codes are equal, or one extends the other and the shorter one's sequence is more than a thousand times the extra digits |
| MemberNumbers.AssignSoundIff | app/services/group_id_service.py:489-605 | on a valid store an assignment leaves a valid store iff the member is materialised for the group |
| NumberWitnesses.AssignmentSplitsRecords | app/services/group_id_service.py:489-605 | an instance: a number assigned for one group beside an unmaterialised pointer to another leaves the row in the one and the pointer at the other |
| MemberNumbers.PromotionMintsIff | app/services/member_group_service.py:156-178 | a promotion mints iff the promoted row has no number, and otherwise the number already held becomes visible |
| MemberAdditions.AdditionSucceedsIff | app/services/member_group_service.py:92-115 | adding a group the member lacks always succeeds without a code; with one it succeeds iff nobody else shows the settled number where it would be written (visibly for a first group, in a mirror row of the group for a member with a user), and ends in a conflict otherwise |
| MemberAdditions.SilentAdditionIs | app/services/member_group_service.py:89-115 | a new group without a code adds a last row without a number and sets the pointer, clearing the visible number, iff it is the first |
| MemberSelections.AddEndsIff | app/services/member_group_service.py:72-115 | every addition, of a new group, a held one or the pointer's, ends done or in a conflict, the latter iff somebody else shows the number it settles on where it would be written |
| MemberSelections.LateNumberIff | app/services/member_group_service.py:81-87 | adding a group whose membership has no number yet gives it one, or is refused iff somebody else shows that number where it would be written |
| MemberSelections.LateMemberIs | app/services/member_group_service.py:81-87 | that number goes into the row, the mirror row and, for the primary group, the visible number; nothing else of the member changes |
| MemberSelections.HeldAgain | app/services/member_group_service.py:81-87 | adding a group whose membership has its number, or that issues none, changes nothing but materialises a pointer |
| MemberRemovals.RemovalSucceedsIff | app/services/member_group_service.py:118-178 | a removal is refused iff it promotes a group with a code and somebody else shows the number the promotion settles on, visibly or, for a member with a user, in a mirror row of that group; every other removal succeeds |
| MemberRemovals.SecondaryRemovalIs | app/services/member_group_service.py:139-154 | removing a secondary group takes its row and mirror row; the other rows, mirror rows, priorities and numbers stay as they were |
| MemberRemovals.OnlyRemovalIs | app/services/member_group_service.py:156-167 | removing the only group leaves the member without groups, pointer and number |
| MemberRemovals.SilentRemovalIs | app/services/member_group_service.py:169-178 | handing over to a group without a code makes its row the primary one and clears the visible number |
| MemberRemovals.HandOverIs | app/services/member_group_service.py:169-178 | handing over to a group with a code writes that group's number into its row, its mirror row and the visible number, and leaves the remaining rows as they were |
| MemberRemovals.DetachRefusedIff | app/services/member_group_service.py:227-237 | a detachment is refused iff, after the members before it, one member's removal is |
| NumberWitnesses.RemovalConflicts | app/services/member_group_service.py:156-178 | an instance: the promoted group's first number is shown by a member whose legacy pointer was never counted, which blocks the removal and the detachment |
| NumberWitnesses.AdditionConflicts | app/services/group_id_service.py:367-407 | an instance: one mirror row stands for two members, and the next addition is refused |
| HeldNumbers.NothingConflicts | app/services/member_group_service.py:64-237 | where no member ID of one group is one of another, every number held is counted by its group and held by one member, no operation ends in a conflict, and that stays so |
| HeldNumbers.NothingConflictsWithin | app/services/member_group_service.py:64-237 | the same for sequences up to a limit, as long as the counters, or the members of groups without one, leave room for what the operation can mint |
| HeldNumbers.RunKeepsAccounted | app/services/member_group_service.py:64-237 | every run keeps every held number counted by its group and held by one member |
| HeldNumbers.RunKeepsAccountedTo | app/services/member_group_service.py:64-237 | so does every run that has room below a limit up to which the codes are apart |
| HeldNumbers.HeldNeverMintedAgain | app/services/group_id_service.py:382-407 | from such tables, a number held at any time of a run, visibly, in a membership row or in a mirror row, is minted by no later operation for any group |
| HeldNumbers.HeldNeverMintedWithin | app/services/group_id_service.py:382-407 | the same for runs that have room below a limit up to which the codes are apart |
| GroupCodes.ApartToIff | app/services/group_id_service.py:359-412 | member IDs up to a sequence are apart iff the codes are distinct and none extends another by digits whose thousandfold is below that sequence |
| GroupCodes.CodesApartIff | app/services/group_id_service.py:359-412 | member IDs of different groups are never one text iff no code equals another or extends it by digits not starting with 0 |
| GroupCodes.ThousandApart | app/services/group_id_service.py:359-412 | distinct codes of any form are apart up to sequence 1000 |
| GroupCodes.HundredApart | app/services/group_id_service.py:359-412 | distinct codes of groups up to the hundredth, with prefixes of one width, are apart at every sequence |
| GroupCodes.EarlierCodeBeside | app/models/group.py:37-42 | an instance: a three-digit code and a two-digit one of the same district are apart |
| GroupCodes.CrowdedConflicts | app/services/group_id_service.py:359-412 | an instance past both bounds: group 10 with counter 1000 is refused the number that group 101 shows |
| NumberReturns.NumberReturnsIff | app/services/group_id_service.py:382-407 | some run can mint a sequence of the group iff it lies above the counter or, without a counter row, is at least 2; stated for tables with at least one member |
| NumberWitnesses.FreedNumberReturns | app/services/group_id_service.py:367-407 | an instance: two members holding 001 and 002 without a counter row leave, and the next member gets 002 |
| AllocationProtocol.RunKeeps | app/services/group_id_service.py:382-407 | every interleaving keeps row ownership exclusive and claims contiguous with the committed counters |
| AllocationProtocol.CommitRecords | app/services/group_id_service.py:382-407 | a commit puts exactly the transaction's rows into the table and its claims at the end of the log; other rows and transactions stay |
| AllocationProtocol.IncrementClaims | app/services/group_id_service.py:406-407 | an increment moves the transaction's row by one and claims that number; nobody else sees it yet |
| AllocationProtocol.AbortForgets | app/services/group_id_service.py:382-407 | an aborted transaction leaves no trace |
| AllocationProtocol.AllocatesNext | app/services/group_id_service.py:389-407 | an undisturbed allocation on a counter row hands out and commits the next number |
| AllocationProtocol.AllocatesFirst | app/services/group_id_service.py:397-407 | the first allocation of a counter inserts its row and hands out the number after the initial value |
| AllocationProtocol.CommittedClaimsConsecutive | app/services/group_id_service.py:382-407 | committed allocations of a counter are consecutive numbers in commit order ending at the committed value |
| AllocationProtocol.CommittedClaimsDistinct | app/services/group_id_service.py:324-350 | no two committed allocations are equal, and later commits on a counter have larger numbers |
| AllocationProtocol.CommittedNeverDecreases | app/services/group_id_service.py:382-407 | a committed counter never disappears and never decreases |
| GroupIdAllocator.MaxStored | app/services/group_id_service.py:310-321 | an upper bound of the stored sequences of a prefix that is itself stored, or 0 |
| GroupIdAllocator.NextIdIsFresh | app/services/group_id_service.py:324-350 | the claimed ID differs from every stored group ID of any district if no counter is behind |
| GroupIdAllocator.RunStaysFresh | app/services/group_id_service.py:324-350 | no run of creations and deletions puts a counter behind, so every later claim is fresh |
| GroupIdAllocator.IssuedIncrease | app/services/group_id_service.py:324-350 | sequences issued for a district strictly increase and lie above an existing counter |
| GroupIdAllocator.IssuedIdsDiffer | app/services/group_id_service.py:324-350 | no two IDs issued in a run are equal, within a district or across districts |
| GroupIdAllocator.ClaimsStayFreshIff | app/services/group_id_service.py:324-350 | all future claims on a counter are fresh iff no stored ID of the district is ahead of it |
| GroupIdAllocator.IssuedAgainIff | app/services/group_id_service.py:310-350 | an ID, deleted or not, is issued in some later run, in which creations that meet a stored ID fail, iff its sequence is at least 1 and its district has no counter row or a counter below it |
| GroupIdAllocator.DeletedBeforeFirstClaimReturns | app/services/group_id_service.py:310-350 | an instance: a district's only ID, deleted before the counter row exists, is the next one issued |
| GroupIdAllocator.GroupIds.NextDistrictGroupId | app/services/group_id_service.py:324-350 | claims the next sequence of the district and returns an unstored ID if no counter is behind |
| GroupIdAllocator.GroupIds.NextSequence | app/services/group_id_service.py:259-307 | the per-city sequence exceeds both the counter and every sequence the city stores, and skips nothing else |
| RegistrationSync.Process | app/services/registration_sync_service.py:1167-1288 | the outcome of one accepted row equals what the rows above it and the initial tables determine, in both modes |
| RegistrationSync.Run | app/services/registration_sync_service.py:1105-1288 | every row gets the one outcome its mode prescribes, the five counters count the outcomes, a dry run leaves the tables alone, a write adds exactly one member record per inserted or linked row |
| RegistrationSync.MatchNames | app/services/registration_sync_service.py:1167-1200 | read off the two lookup tables: a row names two users iff number and email are known to different ones, nobody iff neither is known, and otherwise the one user either leads to |
| RegistrationSync.DryOutcomeIff | app/services/registration_sync_service.py:1109-1260 | each dry-run action as an iff: skipped for repeating an accepted row, failed for being invalid or naming two users, inserted for naming nobody, updated or linked by whether the one user named has a member record |
| RegistrationSync.WriteOutcomeIff | app/services/registration_sync_service.py:1109-1288 | the same for a write: a failing row write fails the row, and a user without a record is linked by the first row whose write succeeds and updated by later ones |
| RegistrationSync.TwoMembersFail | app/services/registration_sync_service.py:1172-1195 | an instance: a number and an email of two members fail the row in both modes |
| RegistrationSync.AcceptedKeys | app/services/registration_sync_service.py:1128-1165 | no phone key and no email key is accepted twice |
| RegistrationSync.CountsPartition | app/services/registration_sync_service.py:1105-1288 | the five counters sum to the number of rows |
| RegistrationSync.ModesTurn | app/services/registration_sync_service.py:1197-1288 | the modes differ only in links turned into updates, and only if a memberless user is reached twice |
| RegistrationSync.DryRunSimulatesWrite | app/services/registration_sync_service.py:1105-1288 | if no row write fails: equal inserted, skipped and failed counts, equal linked plus updated, linked(write) at most linked(dry) and equal iff no memberless user is reached by two accepted rows |
| RegistrationSync.LinkedThenUpdated | app/services/registration_sync_service.py:1197-1288 | an instance: a user reached by phone on one row and by email on the next is linked twice in the dry run and once in the write |
| RegistrationSync.NoUserLinkedTwice | app/services/registration_sync_service.py:1240-1280 | whatever fails, a row of a write links only a user that has no member record, and no two rows link the same user |
| RegistrationSync.RerunOnlyUpdates | app/services/registration_sync_service.py:1197-1276 | after a write without failures the same sheet only updates: it inserts and links nothing in either mode |
| HeaderText.SlugIsWords | app/services/registration_sync_service.py:526-535 | substituting symbol runs, collapsing and stripping yields exactly the header's words joined by the separator |
| HeaderText.WholeWordPrefix | app/services/registration_sync_service.py:565-565 | equality or starting with alias plus space is the word-list prefix relation |
| HeaderMatcher.BuildColumnIndex | app/services/registration_sync_service.py:538-554 | per field exactly the non-blank normalised aliases, each once, longest first |
| HeaderMatcher.MatchField | app/services/registration_sync_service.py:557-569 | the early-exit scan returns the first field owning the longest matching alias, and none iff no alias matches |
| HeaderMatcher.LongestAliasWins | app/services/registration_sync_service.py:557-569 | in words: the matched field owns an alias beginning the header that every other such alias begins; none iff there is no such alias |
| HeaderMatcher.OrderIndependent | app/services/registration_sync_service.py:557-569 | if no alias belongs to two fields, reordering the alias table never changes a match |
| HeaderMatcher.SharedAliasGoesToFirst | app/services/registration_sync_service.py:557-569 | if two neighbouring fields of a table share the longest matching alias, swapping them swaps the match, so the condition is needed |
| HeaderMatcher.FirstOwnerWins | app/services/registration_sync_service.py:557-569 | of the fields owning the longest matching alias the one listed first is matched |
| HeaderMatcher.FieldOf | app/services/registration_sync_service.py:538-569 | indexing a table and matching a header against it: a field owning an alias that every other matching alias begins, or none iff no alias begins the header |
| SheetColumns.ColumnNameSafe | app/services/sheet_columns.py:104-119 | a header with a letter or digit gets a valid identifier of at most 63 characters that is its own name, any other gets none |
| SheetColumns.SameWordsSameName | app/services/sheet_columns.py:104-119 | headers differing only in case and punctuation have one name |
| SheetColumns.SameNameIff | app/services/sheet_columns.py:104-119 | uncut names are equal iff the words are, up to "col" before a leading digit |
| ColumnPlanner.Column.Fit | app/services/sheet_columns.py:97-101 | the stored value is a prefix that respects the length limit, and the whole value when it already fits |
| ColumnPlanner.PlanSheetColumns | app/services/sheet_columns.py:122-245 | adds exactly the first hundred accepted missing names in header order and maps exactly the headers whose name has a target |
| ColumnPlanner.MappedIff | app/services/sheet_columns.py:189-243 | a header is mapped iff no registration field claims it and its name is a text column that is not a system column, or a column added by the run; the mapping carries that column and its length |
| ColumnPlanner.AddedFor | app/services/sheet_columns.py:189-218 | every added column is missing, accepted by the database and the name of a header no registration field claims |
| ColumnPlanner.NewColumnsAreSafe | app/services/sheet_columns.py:166-218 | new names are at most 100, distinct, valid identifiers of at most 63 characters, and no columns yet |
| ColumnPlanner.HeadersShareTarget | app/services/sheet_columns.py:172-187 | headers with one normalised name are mapped to one column or not at all |
| ColumnPlanner.SystemTargetedIffCreated | app/services/sheet_columns.py:189-243 | only text columns that are not system columns, or columns this run added, are targeted |
| ColumnPlanner.SystemTargetedIff | app/services/sheet_columns.py:172-243 | a system column is targeted iff some cell asks for one that is no column, is not refused and is among the first hundred such names |
| ColumnPlanner.SystemColumnsAreSafe | app/services/sheet_columns.py:172-243 | while the system columns exist no header is mapped to one |
| ColumnPlanner.DryRunForetellsApply | app/services/sheet_columns.py:186-218 | a dry run reports the columns an apply run adds iff none of them is refused |
| ColumnPlanner.RunAddsTheNext | app/services/sheet_columns.py:186-218 | after a run the pending names are the old ones without the hundred just added |
| ColumnPlanner.RunsReachFixedPoint | app/services/sheet_columns.py:186-218 | k runs leave the pending names without the first 100k; then a run adds nothing and changes nothing |
| ColumnPlanner.TargetSurvives | app/services/sheet_columns.py:189-243 | the next run maps a header to the same column, unless it is a system column just created |
| Dates.PrintedReads | app/utils/helpers.py:10-63 | what a printed date reads back as, for every calendar year |
| Dates.DayMonthReads | app/utils/helpers.py:25-49 | a date written day, month, year with any of the three separators is read as such when that order is asked for or its day is above 12, and as its swap otherwise |
| Dates.MonthDayReads | app/utils/helpers.py:25-49 | a date written month, day, year is read as such when that order is asked for or its day is above 12, and as its swap otherwise |
| Dates.TimeIgnored | app/utils/helpers.py:25-25 | whatever follows a blank or a time mark plays no part in the reading |
| Dates.RoundTripIff | app/utils/helpers.py:10-63 | reading the dd/mm/yyyy print in the default order gives the date back iff the year is at least 1000 |
| Dates.OrderOnlyOrders | app/utils/helpers.py:30-49 | the day/month order never decides whether a text is a date, and the two readings differ at most by a swap |
| Dates.FormatIdempotentIff | app/utils/helpers.py:52-63 | printing is idempotent on a text iff it means no date of the years 10 to 99 |
| Dates.YearFiftyChanges | app/utils/helpers.py:52-63 | an instance: 0050-01-01 prints as one date and its print as another |
| Dates.StoredDateReads | app/services/registration_sync_service.py:961-985 | whichever order a cell was read in, the stored value re-reads as the date parsed iff its year is at least 1000; unreadable text is kept |
| PhotoMigration.PrefixesSeparate | app/services/drive_photo_migration.py:499-505 | no object key carries the migration prefixes of two slots |
| PhotoMigration.BelongsSeparate | app/services/member_photo_service.py:39-42 | no object key belongs to two slots, whether the migration or the upload API wrote it |
| PhotoMigration.PlacesApart | app/services/member_photo_service.py:39-42 | an uploaded key never carries its slot's migration prefix, so the migration never takes an uploaded object for one of its own |
| PhotoRuns.StoredElsewhere | app/services/drive_photo_migration.py:481-497 | storing a photo and discarding the superseded object, uploaded or migrated, deleted or not, touches no object of another slot |
| PhotoMigration.DrivePhotoMigration.Finish | app/services/drive_photo_migration.py:556-587 | records key and source always, the serving URL in its three places only when there is one |
| PhotoMigration.DrivePhotoMigration.MigrateOne | app/services/drive_photo_migration.py:325-479 | a dry run changes nothing and reports the decision; an apply run ends as the specification of one slot |
| PhotoOutcomes.OutcomeIff | app/services/drive_photo_migration.py:348-479 | each status as an iff on the slot's fields, storage and the download: skipped, already migrated, migrated, replaced, failed or nothing at all |
| PhotoOutcomes.DownloadedIs | app/services/drive_photo_migration.py:429-479 | a wanted photo that downloads ends under the slot's key with its bytes, recorded with the link it came from; a superseded object is gone iff it could be deleted; every other object stays |
| PhotoOutcomes.ReusedIs | app/services/drive_photo_migration.py:361-418 | an object that is there is used again: a recorded one changes nothing, a listed one is recorded with the link |
| PhotoOutcomes.ServedIn | app/services/drive_photo_migration.py:556-587 | a serving URL goes into the serving column, the profile entry and, for a member's photo, the photo column; without one the three stay |
| PhotoOutcomes.DownloadServed | app/services/drive_photo_migration.py:465-472 | a download is served from its own key iff the storage has public URLs |
| PhotoOutcomes.ReusedServed | app/services/drive_photo_migration.py:401-412 | a listed object keeps the serving URL on record if only the key was lost, and otherwise gets its own |
| PhotoOutcomes.KeyIs | app/services/drive_photo_migration.py:499-505 | the key is the slot's prefix and the lower-case extension of the file, or img when it has none |
| PhotoOutcomes.FirstPhotoIsCopied | app/services/drive_photo_migration.py:420-479 | an instance: a Drive link never copied before, over an empty storage, is downloaded, stored and recorded |
| PhotoMigration.DrivePhotoMigration.MigrateMember | app/services/drive_photo_migration.py:289-301 | both slots of a member, in order, each outcome reported and counted |
| PhotoMigration.DrivePhotoMigration.Run | app/services/drive_photo_migration.py:262-319 | the whole loop ends as the specification of a run, and each counter counts its outcomes |
| PhotoRuns.MigrateFrame | app/services/drive_photo_migration.py:325-496 | migrating a slot keeps every recorded key one of its slot's own, uploaded ones included, and touches no record or object of another slot |
| PhotoRuns.UploadKeeps | app/services/member_photo_service.py:103-149 | an upload leaves its own object recorded and present and touches no other slot |
| PhotoRuns.RemovalKeeps | app/services/member_photo_service.py:151-158 | a removal touches no other slot |
| PhotoRuns.RunIsSlotwise | app/services/drive_photo_migration.py:289-301 | a run does to each slot what it would do to that slot alone; order does not matter |
| PhotoRuns.PointerIntegrity | app/services/drive_photo_migration.py:325-496 | a slot reported migrated, replaced or already migrated records the reported key with its object in storage; a failed or skipped slot is unchanged |
| PhotoRuns.PresentForever | app/services/drive_photo_migration.py:325-496 | a recorded object that is present stays recorded and present through every later run, sheet edit and upload, until the photo is removed |
| PhotoRuns.ReportedStaysPresent | app/services/drive_photo_migration.py:325-496 | over any sequence of runs, edits, uploads and removals, a slot reported migrated, replaced or already migrated at any point records a present object at the end unless its photo was removed since |
| PhotoRuns.DryRunForetells | app/services/drive_photo_migration.py:352-479 | the dry run predicts every outcome of the apply run up to failed downloads |
| PhotoRuns.SecondRunIsIdle | app/services/drive_photo_migration.py:352-479 | a second apply over unchanged links reports already migrated under the same key, changes nothing and uploads nothing for every slot not failed before |
| PhotoRuns.CountersSum | app/services/drive_photo_migration.py:289-301 | the status counters sum to the number of outcomes |
| PhotoRuns.ServingFollowsKeyIff | app/services/drive_photo_migration.py:556-587 | after a download the serving column names the new object iff there are public URLs, nothing was served, or the key is unchanged |
| PhotoRuns.StaleServingUrl | app/services/drive_photo_migration.py:556-587 | an instance: replaced without public URLs, the photo has its new key, the old object is gone and the serving column still names it |
| PhotoSources.ReportedIsTracedIff | app/services/drive_photo_migration.py:352-479 | a slot reported migrated, replaced or already migrated holds the bytes of the file it records as its source iff the run did not take over a stored object of another file, slots left alone being in order before |
| PhotoSources.LeftoverIsAdopted | app/services/drive_photo_migration.py:398-417 | an instance: an object that outlived the removal of its photo is recorded as a copy of the newly linked file |
| PhotoSources.UploadIsReplaced | app/services/drive_photo_migration.py:352-479 | an uploaded photo whose link comes to name another Drive file is replaced, its object deleted, every other slot left as it is |
| PhotoSources.RemovalUndoneIff | app/services/member_photo_service.py:151-179 | after a removal the next run over the slot records a present object iff the slot has a Drive link from an earlier migration and an object is left under its prefix or the file downloads |
| OtpLogin.OtpService.RequestOtp | app/services/auth_service.py:408-475 | unknown or inactive accounts, the hourly limit, supersession of older codes, and the new code |
| OtpLogin.IssuedIff | app/services/auth_service.py:415-475 | each answer to a request as an iff over the run: a code is issued iff the account is active, fewer than permitted were issued to the number in the last hour and the message goes out |
| OtpLogin.RequestWrites | app/services/auth_service.py:439-460 | an issued code is stored with its full lifetime and every open unexpired code of the number ends; any other answer writes nothing |
| OtpLogin.OtpService.FindNewest | app/services/auth_service.py:487-498 | an unverified code of the number none of whose unverified codes is newer, or none iff there is none |
| OtpLogin.OtpService.VerifyOtpLogin | app/services/auth_service.py:477-541 | wrong guess, expired code, inactive owner and login, on a newest unverified code |
| OtpLogin.OneLiveCode | app/services/auth_service.py:439-460 | at every time at most one code of a number is both unverified and unexpired, and it is the newest |
| OtpLogin.OnlyNewestLogsIn | app/services/auth_service.py:477-541 | a login uses the code issued last for the number, with the right guess, within its lifetime, not locked |
| OtpLogin.LogsInIff | app/services/auth_service.py:477-541 | in every legal run a verification logs in with a code iff it picks that code, which is the last one issued for the number and not used before, the guess is right, its full lifetime has not passed, its wrong guesses are none or fewer than permitted and its owner is active |
| OtpLogin.RightGuessLogsIn | app/services/auth_service.py:487-541 | so the right guess at the newest open code, in its lifetime, after fewer wrong guesses than permitted and with an active owner, logs in, whichever code the query could have returned |
| OtpLogin.RefusedIff | app/services/auth_service.py:500-525 | each answer of a picked code as an iff: a wrong guess first, then its expiry, then its owner |
| OtpLogin.NoCodeIff | app/services/auth_service.py:487-498 | a verification finds no code iff every code of the number has been used |
| OtpLogin.VerifyWrites | app/services/auth_service.py:500-527 | a wrong guess adds one attempt, and from the last permitted one on the end of the code; a login adds its time; nothing else is written |
| OtpLogin.EachCodeLogsInOnce | app/services/auth_service.py:487-527 | no code logs in twice |
| OtpLogin.AttemptsAreWrongs | app/services/auth_service.py:500-504 | the attempts column counts exactly the wrong guesses at that code |
| OtpLogin.LockedOutForGood | app/services/auth_service.py:500-521 | a code with the maximum of wrong guesses never logs in afterwards, although later guesses rewrite its expiry |
| OtpLogin.HourlyLimit | app/services/auth_service.py:424-460 | every closed hour, wherever it starts, holds at most the permitted number of codes of a phone |
| CityCodes.NextFree | scripts/fetch_lgd_data.py:271-272 | the search ends at the first number not taken |
| CityCodes.AssignKnown | scripts/fetch_lgd_data.py:250-257 | pinned codes win and other listed cities keep their code, in whatever order the dictionaries are walked |
| CityCodes.CollectUsed | scripts/fetch_lgd_data.py:259-261 | per state exactly the numbers of the codes given |
| CityCodes.BuildCityRows | scripts/fetch_lgd_data.py:250-291 | each row in LGD order carries its city's final code, and the count is that of the cities that had none |
| CityCodes.NewCitiesInOrder | scripts/fetch_lgd_data.py:263-276 | each new city gets the smallest positive number not held in its state by a known city or a new one with a lower LGD code, its state being that of the row it is numbered on |
| CityCodes.CodesAssigned | scripts/fetch_lgd_data.py:250-289 | exactly the listed cities have codes: pinned, kept, or smallest free in ascending LGD order |
| CityRows.StateIsLast | scripts/fetch_lgd_data.py:250-250 | a body with a code counts for the state on its last row |
| CityRows.FirstStateIsFirst | scripts/fetch_lgd_data.py:266-275 | a new body is numbered in the state on its first row |
| CityRows.NumberedOnRows | scripts/fetch_lgd_data.py:259-276 | on the rows alone: a new city gets two digits of the smallest positive number that no city with a code and no new city of lower LGD code holds in its state |
| CityRows.SecondGetsTwo | scripts/fetch_lgd_data.py:259-276 | an instance: beside a known city 01 of its state a new city gets 02 |
| CityCodes.DistinctIffKnownDistinct | scripts/fetch_lgd_data.py:250-276 | numbers are pairwise distinct per state in the output iff they were among the known codes, even for bodies listed under two states |
| CityRows.CitiesOfStateDiffer | scripts/fetch_lgd_data.py:250-276 | where every body is listed under one state, any two cities of a state end with different numbers iff those with codes before the run had different ones |
| CityRows.DistinctOnRowsIff | scripts/fetch_lgd_data.py:250-276 | the same for bodies listed under several states, each counted by its last row if it has a code and by its first if not |
| CityCodes.RerunIsStable | scripts/fetch_lgd_data.py:250-291 | running again on the output changes no code and numbers no new city |
| PrimaryDistricts.CountVotes | scripts/fetch_lgd_data.py:192-200 | per body and named district the number of its villages and the name on the last of its rows |
| PrimaryDistricts.VotesAre | scripts/fetch_lgd_data.py:192-199 | the votes of a district are the number of rows that name it for the body |
| PrimaryDistricts.LastNameIs | scripts/fetch_lgd_data.py:200-200 | a district goes by the name on the last row that names it for the body |
| PrimaryDistricts.PrimaryDistricts | scripts/fetch_lgd_data.py:185-205 | every body with a village in a named district gets the district with most villages, ties to the lowest code, and its last name |
| PrimaryDistricts.PrimaryIs | scripts/fetch_lgd_data.py:201-204 | the primary district is on at least as many rows of the body as any other and on more than any with a lower code, and carries the name on the last of them |
| PrimaryDistricts.PrimaryUnique | scripts/fetch_lgd_data.py:201-204 | the choice is determined up to the spelling of the code's number |
| TranslationCache.Cache.Get | app/services/translate_service.py:46-51 | nothing iff no entry has the key; with one entry per key, that entry's value |
| TranslationCache.ReadsLastWrite | app/services/translate_service.py:46-57 | with increasing times a read finds the last value written for the key while it is among the most recent keys that fit, and nothing otherwise |
| TranslationCache.Cache.Set | app/services/translate_service.py:53-57 | assigns in place or at the end, then cleans up |
| TranslationCache.Cache.Cleanup | app/services/translate_service.py:36-44 | removes the surplus entries that come first in the stable order by time |
| TranslationCache.RefinesHistory | app/services/translate_service.py:30-57 | with increasing times the cache holds exactly the most recently written keys that fit, each with its last value |
| TranslationCache.WrittenIsKeptIff | app/services/translate_service.py:36-57 | for any clock: never above capacity, and the entry just written is missing iff it was new, the cache full and every entry later |
| TranslationCache.SteppedBackClockLoses | app/services/translate_service.py:36-57 | an instance: an earlier clock loses the entry just written to a full cache |

## Left out

- MemberNumbers.RunMintsIncrease: says nothing about numbers stored before the run; those are the subject of HeldNumbers.HeldNeverMintedAgain and NumberReturns.NumberReturnsIff.
- HeldNumbers.NothingConflictsWithin: the room it asks for is an upper bound of what the operation can mint, one per group and step, not the exact number.
- MemberGroupService.MembershipSession.GetGroupMemberCount: mirror rows of users without a member record are not counted, because the model keeps both junction tables beside the member.
- AllocationProtocol.CommittedClaimsDistinct: an initialising insert may use any value, because the count or maximum it reads depends on rows outside the counter tables; deadlocks and lock timeouts appear as aborts.
- RegistrationSync.Run: row parsing, the SQL that finds existing users and the merge of field values are not modelled; a row is its validity and its two keys, and a failing row write is a parameter. The per-row `_detect_day_first` verdict is not modelled.
- HeaderText.SlugIsWords: covers ASCII letters and digits; other characters count as symbols, so the few non-ASCII characters whose lower case is ASCII are not captured.
- Dates.RoundTripIff: dates given as date or datetime objects and the further text formats of the import (`DAY_FIRST_FORMATS` and its twin) are parameters; digits and white space are ASCII; `%Y` is taken as unpadded, as the C library prints it.
- PhotoRuns.PointerIntegrity: writing an object always succeeds, because a failing write aborts the run or the request; `media` rows and the paging of pending members are not modelled.
- PhotoSources.ReportedIsTracedIff: within one run a Drive file's bytes do not change; kept slots whose photo was uploaded are outside it, their source not being a Drive file.
- PhotoRuns.SecondRunIsIdle: link classification is a datatype, not the URL patterns; the serving URL of an object is never a Drive link.
- OtpLogin.OneLiveCode: requests and verifications follow one another with a clock that does not go back; races between them are not modelled, the creation time is the request time, and a guess matches when it equals the code.
- CityCodes.BuildCityRows: the state and district rows are plain copies and not modelled.
- PrimaryDistricts.PrimaryDistricts: which of two spellings of one district number wins a full tie is not stated.
- TranslationCache.RefinesHistory: needs strictly increasing times, because equal times are broken by dictionary order; the lock is not modelled since every operation holds it throughout.
- `joined_at`, `created_at` and the other columns that no branch reads, audit rows, logging, messages and HTTP plumbing.
- Per-row SAVEPOINT behaviour beyond "a failed write changes nothing".
- Comparison keys for phone numbers, placeholder and truncation helpers: each is a single expression that no other modelled code depends on.
- Search, ranking, geography lookups, payments, roles, token signing and password hashing.
