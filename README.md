# Mission and crew coordination, modelled in Dafny

This project models the core of a squad game backend and its web client.
Brawlers (users) create missions. Each mission has one chief, a crew bounded
by a capacity, and a status: Open, InProgress, Completed or Failed. Crew
members join, leave or are kicked. The chief moves the mission through its
stages. Brawlers earn achievements when their join or success counters cross
a threshold. Each mission has a chat and a system log. Invitations and
notifications are fanned out to the interested users.

There are two backend revisions, and both are modelled, selected by
`Domain.Config.revision`:
- the earlier revision (`server/src/...`) reads the crew bound from the
  `MAX_CREW_PER_MISSION` environment variable and announces joins from its
  HTTP router;
- the later revision (`src/...`) uses the mission's own `max_crew`, logs
  and broadcasts system messages from its use cases, and adds invitations.

The crew repository comes in two variants, also selected by `Config`:
- `NonAtomic` (`src/.../crew_operation.rs`) runs two separate statements;
- `Transactional` (`src/.../crew_participation.rs`) runs one transaction.

The model has these layers:

- **Store.** `Domain.Store` is the database as a value: missions, brawlers,
  crew rows, achievements, earned achievements, messages and invites.
  `Domain.Wf` holds the table keys, for example no duplicate
  (mission, brawler) crew row.
- **Database.** `Db.Database` is a class with one field per table. Each of
  its methods updates those fields in place. Each method is proved equal to
  a specification function over `Store`; these functions live in
  `CrewTable`, `MissionTable`, `AchievementTable`, `MessageLog` and
  `InviteTable`.
- **Use cases.** Each use case is a specification function that returns
  the new store, the result and the effects. An effect is a notification,
  a chat-channel publish or a room publish. Each use case is also an
  imperative method over a `Database`, proved equal to its function.
  Lemmas state the properties of the functions.
- **Failures.** Database and lookup failures come from the caller
  (`Domain.Faults`). Reads and single writes fail by kind of call, and a
  second read of the same kind within one use case has a kind of its own
  (`CrewSnapshot`, `BrawlerReread`). Inserts into `brawler_achievements`
  and `mission_messages` fail row by row, so a loop of inserts can fail
  part-way. The failure granularity that remains is listed under
  "## Left out".
- **Fan-out registries.** These are classes over channels that keep their
  full send history (`Realtime`).
- **Client.** Pure helpers are functions. Angular components and services
  that mutate their fields are classes.

## Model

| member | source | states |
|---|---|---|
| Domain.EnvMaxCrew | server/src/application/use_cases/crew_operation.rs:51-53 | the crew bound is read from the environment: Ok exactly when the variable is present and parses as an i64 |
| Text.ParseInt | server/src/application/use_cases/crew_operation.rs:51-53 | `str::parse` for a signed type: a value in range on success, and `Empty` exactly for the empty string |
| Text.ParseIntValue | server/src/application/use_cases/crew_operation.rs:51-53 | a sign and digits parse to the value they spell when it is in range, and otherwise to the overflow of that sign |
| Text.OverflowBeforeInvalidDigit | server/src/application/use_cases/crew_operation.rs:51-53 | the scan is left to right: digits too large for the type report the overflow even when a non-digit follows |
| Text.I64OverflowWins | server/src/application/use_cases/crew_operation.rs:51-53 | "9223372036854775808x" as an i64 is `PosOverflow`, not `InvalidDigit` |
| Text.ParseFormatRoundTrip | server/src/application/use_cases/crew_operation.rs:51-53 | formatting an in-range integer and parsing it back gives the same integer |
| Viewing.GetOne | server/src/infrastructure/database/repositories/mission_viewing.rs:48-93 | succeeds exactly when the read does not fail and the mission exists, and returns that mission's row |
| Viewing.CrewCount | server/src/infrastructure/database/repositories/mission_viewing.rs:31-46 | fails only when the read fails; the count is the number of crew rows of the mission |
| Viewing.GetCrew | server/src/infrastructure/database/repositories/mission_viewing.rs:208-244 | fails only when the read fails; returns the ids of the mission's crew who are brawlers |
| Viewing.FindBrawler | src/infrastructure/database/repositories/brawlers.rs:81-90 | succeeds exactly when the brawler exists and the read does not fail, and returns that brawler |
| CrewTable.IsMember | src/infrastructure/database/repositories/crew_operation.rs:67-78 | when the read succeeds, true exactly when the (mission, brawler) row exists |
| CrewTable.Join | src/infrastructure/database/repositories/crew_operation.rs:26-55 | success adds exactly the one row and raises the joiner's join count by one; a duplicate row changes nothing; the separate-statement variant reports "Already joined" for a duplicate and keeps the row when the counter update fails; the transactional variant is all or nothing; keys stay well formed |
| CrewTable.Leave | src/infrastructure/database/repositories/crew_operation.rs:57-64 | on success, the crew is the old crew with the row removed and nothing else is kept out; on failure nothing changes; keys stay well formed |
| CrewTable.Without | src/infrastructure/database/repositories/crew_operation.rs:59-62 | the delete keeps exactly the rows other than the given one |
| CrewTable.JoinThenLeave | src/infrastructure/database/repositories/crew_participation.rs:25-51 | after a successful join the row exists, and leaving again restores the crew table |
| MissionTable.AddMission | server/src/infrastructure/database/repositories/mission_management.rs:32-39 | success inserts an Open, undeleted mission under a fresh id and returns that id; failure changes nothing |
| MissionTable.EditMission | server/src/infrastructure/database/repositories/mission_management.rs:41-53 | succeeds exactly when the row is the chief's, undeleted and Open; only that row changes; otherwise NotFound and nothing changes |
| MissionTable.EditFrame | server/src/infrastructure/database/repositories/mission_management.rs:43-51 | an edit touches no other mission, and never the edited mission's status, chief or deletion mark |
| MissionTable.RemoveMission | server/src/infrastructure/database/repositories/mission_management.rs:86-99 | soft delete: when the filters match, only the deletion mark changes; when they do not, the statement still succeeds and nothing changes; no key is ever removed |
| MissionTable.RemoveIdempotent | server/src/infrastructure/database/repositories/mission_management.rs:89-96 | removing twice leaves the store as removing once |
| MissionTable.WriteStatus | src/application/use_cases/mission_operation.rs:127-130 | the status write succeeds exactly when the mission exists and is the chief's, and changes only that mission's status |
| MissionTable.TransferOwnership | server/src/infrastructure/database/repositories/mission_management.rs:55-84 | the transaction commits exactly when the old chief's re-insert does not collide; on commit the new chief's row is deleted, the old chief's row is added and the chief is swapped; any error rolls everything back |
| MissionTable.TransferFromChief | server/src/infrastructure/database/repositories/mission_management.rs:58-81 | a transfer from the real chief makes the new chief the chief and the old chief a crew member |
| MissionTable.TransferDuplicateRollsBack | server/src/infrastructure/database/repositories/mission_management.rs:66-71 | when the old chief already has a crew row, the insert fails and the whole transaction is rolled back |
| MissionTable.TransferPartialCommit | server/src/infrastructure/database/repositories/mission_management.rs:74-78 | when the caller is not the chief, the chief update matches nothing, yet the transaction commits the crew changes |
| AchievementTable.Candidates | server/src/infrastructure/database/repositories/achievements.rs:64-67 | the candidates are exactly the achievements of the condition type whose threshold is at most the current value |
| AchievementTable.CandidatesMonotone | server/src/infrastructure/database/repositories/achievements.rs:64-67 | a larger current value never loses a candidate |
| AchievementTable.Unearned | server/src/infrastructure/database/repositories/achievements.rs:73-83 | the candidates whose insert adds a row are exactly those the brawler has not earned |
| AchievementTable.AwardAllCovers | server/src/infrastructure/database/repositories/achievements.rs:71-84 | after the loop every candidate is earned |
| AchievementTable.AwardAllFrame | server/src/infrastructure/database/repositories/achievements.rs:71-84 | the loop deletes and alters no earned row, and adds rows only for this brawler and a candidate |
| AchievementTable.AwardAllNames | server/src/infrastructure/database/repositories/achievements.rs:81-83 | the returned names are, in order, those of the candidates that were newly inserted |
| AchievementTable.AwardAllNoop | server/src/infrastructure/database/repositories/achievements.rs:73-79 | when every candidate is already earned, nothing is inserted and no name is returned |
| AchievementTable.FirstFailing | server/src/infrastructure/database/repositories/achievements.rs:71-79 | the loop stops at the first candidate whose insert fails: every earlier insert succeeds and that one fails |
| AchievementTable.CheckAndAward | server/src/infrastructure/database/repositories/achievements.rs:60-87 | succeeds exactly when the read succeeds and no candidate's insert fails; only the earned table changes, and not at all when the read fails |
| AchievementTable.CheckAndAwardFrame | server/src/infrastructure/database/repositories/achievements.rs:71-79 | whatever the outcome, no earned row is deleted or changed and every added row is this brawler's for a candidate |
| AchievementTable.CheckAndAwardPartial | server/src/infrastructure/database/repositories/achievements.rs:71-79 | when an insert fails after a successful read, the rows of the candidates before it stay inserted, and it and the later candidates gain no row |
| AchievementTable.CheckAndAwardSpec | server/src/infrastructure/database/repositories/achievements.rs:60-87 | on success every candidate is earned, no earned row is deleted or altered, other brawlers are untouched, and the names are those of the newly inserted rows |
| AchievementTable.CheckAndAwardNoFaults | server/src/infrastructure/database/repositories/achievements.rs:60-87 | when nothing fails the loop runs over every candidate: the table gains the pass's rows and the names are returned |
| AchievementTable.CheckAndAwardIdempotent | server/src/infrastructure/database/repositories/achievements.rs:73-79 | a second run with the same inputs awards nothing and changes nothing |
| AchievementTable.AwardAchievement | server/src/infrastructure/database/repositories/achievements.rs:46-58 | fails exactly when the insert of that pair fails; on success the pair is earned; existing rows are kept unchanged (on conflict do nothing) and no other row appears |
| AchievementTable.AwardAchievementIdempotent | server/src/infrastructure/database/repositories/achievements.rs:49-55 | awarding again leaves the store unchanged |
| AchievementTable.GetByBrawlerId | server/src/infrastructure/database/repositories/achievements.rs:31-44 | left join: one entry per achievement in table order, paired with the brawler's earned row exactly when there is one |
| MessageLog.Create | server/src/infrastructure/database/repositories/mission_messages.rs:30-38 | fails exactly when the insert of that row fails; success appends exactly the message to the log; failure changes nothing |
| MessageLog.MissionRows | server/src/infrastructure/database/repositories/mission_messages.rs:54-56 | exactly the mission's rows, with their ids, in id order |
| MessageLog.InsertByTimeSpec | server/src/infrastructure/database/repositories/mission_messages.rs:57 | inserting into an ascending list keeps it ascending by creation time and adds exactly the one row |
| MessageLog.SortByTimeSpec | server/src/infrastructure/database/repositories/mission_messages.rs:57 | the sort is ascending by creation time and a permutation of its input |
| MessageLog.PageSpec | server/src/infrastructure/database/repositories/mission_messages.rs:54-58 | the page holds at most 100 rows, all of the mission, ascending by time, drawn from the mission's rows, and all of them when there are at most 100 |
| MessageLog.PageOldest | server/src/infrastructure/database/repositories/mission_messages.rs:57-58 | a row left off the page is no older than any row on it |
| MessageLog.ViewOf | server/src/infrastructure/database/repositories/mission_messages.rs:45-55 | the view keeps every column of the row (id, mission, content, type, author, created_at); display name and avatar come from the author's brawler row, and both are null for a system message or an unknown author |
| MessageLog.GetByMissionId | server/src/infrastructure/database/repositories/mission_messages.rs:40-66 | fails only when the read fails; otherwise the views of the page's rows, in page order |
| MessageLog.CreateThenRead | server/src/infrastructure/database/repositories/mission_messages.rs:30-66 | a created message appears on its mission's page when that mission has at most 100 messages |
| InviteTable.Create | src/infrastructure/database/repositories/mission_invites.rs:31-37 | success appends one invite under a fresh id and returns it; failure changes nothing |
| InviteTable.Lookup | src/infrastructure/database/repositories/mission_invites.rs:39-46 | the invite found has the id, and none is found exactly when no invite has it |
| InviteTable.FindById | src/infrastructure/database/repositories/mission_invites.rs:39-46 | fails only when the read fails, and otherwise returns the lookup |
| InviteTable.LookupUnique | src/infrastructure/database/repositories/mission_invites.rs:42-44 | with unique ids the lookup returns exactly the invite carrying the id |
| InviteTable.PendingOf | src/infrastructure/database/repositories/mission_invites.rs:50-53 | exactly the user's pending invites |
| InviteTable.FindInvitesByUser | src/infrastructure/database/repositories/mission_invites.rs:48-55 | on success, exactly the user's pending invites |
| InviteTable.OfMission | src/infrastructure/database/repositories/mission_invites.rs:77-79 | exactly the mission's invites, whatever their status |
| InviteTable.FindInvitesByMission | src/infrastructure/database/repositories/mission_invites.rs:75-81 | on success, exactly the mission's invites |
| InviteTable.SetStatus | src/infrastructure/database/repositories/mission_invites.rs:85-87 | the invites with the id get the status and every other invite is unchanged, in place |
| InviteTable.UpdateStatus | src/infrastructure/database/repositories/mission_invites.rs:83-90 | succeeds exactly when the invite exists and the write does not fail, returns the updated row, and changes only its status |
| InviteTable.UpdateThenFind | src/infrastructure/database/repositories/mission_invites.rs:83-90 | reading the invite after an update returns the updated row |
| InviteTable.HasPending | src/infrastructure/database/repositories/mission_invites.rs:94-99 | true exactly when a pending invite for the mission and user exists |
| InviteTable.CheckExists | src/infrastructure/database/repositories/mission_invites.rs:92-103 | on success, true exactly when a pending invite for the mission and user exists |
| InviteTable.CreateThenCheck | src/infrastructure/database/repositories/mission_invites.rs:31-46 | after creating a pending invite, the existence check is true and the invite is found by its id |
| InviteTable.DetailsOf | src/infrastructure/database/repositories/mission_invites.rs:59-69 | every detail row is a pending invite of the user whose mission and chief exist (the inner joins), carrying the mission's name and the chief's display name; every such invite has its row |
| InviteTable.FindInviteDetailsByUser | src/infrastructure/database/repositories/mission_invites.rs:57-73 | on success, exactly the user's pending invites that survive the inner joins, each with the mission's name and the chief's display name |
| Db.Database.CrewJoin | src/infrastructure/database/repositories/crew_operation.rs:26-55 | the in-place insert and counter update leave the tables as `CrewTable.Join` |
| Db.Database.CrewLeave | src/infrastructure/database/repositories/crew_operation.rs:57-64 | the in-place delete leaves the tables as `CrewTable.Leave` |
| Db.Database.CheckAndAward | server/src/infrastructure/database/repositories/achievements.rs:60-87 | the loop over candidates inserts and collects names as `AchievementTable.CheckAndAward`, returning at the first failing insert with the earlier rows kept |
| Db.Database.AwardAchievement | server/src/infrastructure/database/repositories/achievements.rs:46-58 | the insert leaves the tables as `AchievementTable.AwardAchievement` |
| Db.Database.CreateMessage | server/src/infrastructure/database/repositories/mission_messages.rs:30-38 | the append leaves the tables as `MessageLog.Create` |
| Db.Database.CreateInvite | src/infrastructure/database/repositories/mission_invites.rs:31-37 | the insert leaves the tables as `InviteTable.Create` |
| Db.Database.UpdateInviteStatus | src/infrastructure/database/repositories/mission_invites.rs:83-90 | the update leaves the tables as `InviteTable.UpdateStatus` |
| Db.Database.AddMission | server/src/infrastructure/database/repositories/mission_management.rs:32-39 | the insert leaves the tables as `MissionTable.AddMission` |
| Db.Database.EditMission | server/src/infrastructure/database/repositories/mission_management.rs:41-53 | the conditional update leaves the tables as `MissionTable.EditMission` |
| Db.Database.RemoveMission | server/src/infrastructure/database/repositories/mission_management.rs:86-99 | the soft delete leaves the tables as `MissionTable.RemoveMission` |
| Db.Database.WriteStatus | src/application/use_cases/mission_operation.rs:127-130 | the status write leaves the tables as `MissionTable.WriteStatus` |
| Db.Database.TransferOwnership | server/src/infrastructure/database/repositories/mission_management.rs:55-84 | the three statements of the transaction leave the tables as `MissionTable.TransferOwnership`, rolled back on error |
| SystemLog.Log | src/application/use_cases/crew_operation.rs:65-87 | a system line is persisted unless the insert fails, and is published to the mission's channel in either case; nothing else changes |
| SystemLog.EarnedLines | src/application/use_cases/crew_operation.rs:152-154 | one "<name> earned achievement: <achievement>" line per awarded name, in order |
| SystemLog.PersistedSpec | src/application/use_cases/crew_operation.rs:72-78 | the persisted lines are exactly those whose insert succeeds, in the order of the list (a subsequence); all of them when no insert fails |
| SystemLog.LogAllSpec | src/application/use_cases/crew_operation.rs:150-154 | logging a list of lines publishes each of them in order, changes only the message log, and persists, in order, each line whose own insert succeeds |
| SystemLog.LogTo | src/application/use_cases/crew_operation.rs:65-87 | the method persists and publishes as `SystemLog.Log` |
| SystemLog.LogAllTo | src/application/use_cases/crew_operation.rs:152-154 | the loop persists and publishes as `SystemLog.LogAll` |
| CrewOperation.JoinOkIff | src/application/use_cases/crew_operation.rs:89-131 | a join succeeds exactly when the bound is readable, the mission exists, the joiner is not its chief and not yet a member, the status is joinable, the crew is below the bound, and the writes do not fail |
| CrewOperation.JoinByChief | src/application/use_cases/crew_operation.rs:93-97 | the chief is refused first, whatever the status or crew size, and nothing changes |
| CrewOperation.JoinByMember | src/application/use_cases/crew_operation.rs:99-106 | an existing member gets "Already joined" before any status or capacity check, and nothing changes |
| CrewOperation.JoinRefusals | src/application/use_cases/crew_operation.rs:113-124 | a status that is not joinable gives "Mission is not joinable", and a full crew gives "Mission is full"; nothing changes |
| CrewOperation.JoinOk | src/application/use_cases/crew_operation.rs:126-161 | a successful join adds exactly the one row and raises the join count; the crew stays within the bound; the chief is notified first and everything after is a chat publish; keys stay well formed |
| CrewOperation.JoinOkShape | src/application/use_cases/crew_operation.rs:126-163 | a successful join is the committed insert, then the chief's notification, then the best-effort steps |
| CrewOperation.AfterJoinFrame | src/application/use_cases/crew_operation.rs:146-161 | the steps after the commit touch neither crew, missions nor brawlers and only append publishes; the earlier revision appends nothing |
| CrewOperation.AchievementFrameWf | src/application/use_cases/crew_operation.rs:146-161 | the steps after the commit keep the store well formed |
| CrewOperation.AfterJoinLater | src/application/use_cases/crew_operation.rs:139-161 | after the commit the later revision publishes its lines in order and persists, in order, those whose insert succeeds |
| CrewOperation.JoinLaterMessages | src/application/use_cases/crew_operation.rs:146-161 | the later revision logs one line per newly earned achievement (none when the award pass fails), then "<name> joined the mission", or "A new member joined the mission" when the brawler cannot be read; each is published, and persisted when its own insert succeeds |
| CrewOperation.JoinEarlierQuiet | server/src/application/use_cases/crew_operation.rs:98-116 | the earlier revision only notifies the chief, and logs no message |
| CrewOperation.JoinErr | src/application/use_cases/crew_operation.rs:89-131 | a failed join has no effects and changes nothing, except the row the separate-statement repository keeps when its counter update fails |
| CrewOperation.LeaveDelegates | src/application/use_cases/crew_operation.rs:166-184 | leave returns the repository's result and crew table; the later revision publishes one line on success only; the earlier revision adds nothing |
| CrewOperation.KickByNonChief | src/application/use_cases/crew_operation.rs:187-191 | anyone but the chief gets "Only the Chief can kick members" and nothing changes |
| CrewOperation.KickOk | src/application/use_cases/crew_operation.rs:186-218 | a successful kick was by the chief and removes only the target's row; the target is notified first; the earlier revision has no further effect |
| CrewOperation.AfterJoinTo | src/application/use_cases/crew_operation.rs:146-161 | the best-effort steps in place, as `CrewOperation.AfterJoin` |
| CrewOperation.Join | src/application/use_cases/crew_operation.rs:89-164 | the join in place, equal to `CrewOperation.JoinSpec` |
| CrewOperation.Leave | src/application/use_cases/crew_operation.rs:166-184 | the leave in place, equal to `CrewOperation.LeaveSpec` |
| CrewOperation.Kick | src/application/use_cases/crew_operation.rs:186-218 | the kick in place, equal to `CrewOperation.KickSpec` |
| MissionOperation.Notices | src/application/use_cases/mission_operation.rs:67-76 | one status notification per crew member, in crew order, each addressed to that member |
| MissionOperation.NoticesRecipients | src/application/use_cases/mission_operation.rs:67-76 | every notice is a status update about the mission addressed to a crew member, and every crew member gets one |
| MissionOperation.NotifyCrew | src/application/use_cases/mission_operation.rs:65-78 | fails exactly when the crew read fails |
| MissionOperation.InProgressGuard | src/application/use_cases/mission_operation.rs:104-125 | a start that breaks the guard (status Open or Failed, crew above 0 and below the bound, caller is chief) is refused with nothing changed; a crew exactly at the bound is refused |
| MissionOperation.InProgressOk | src/application/use_cases/mission_operation.rs:104-142 | a successful start sets only the status to InProgress, notifies the crew and, in the later revision, publishes "Mission started: <name>" |
| MissionOperation.ErrorAfterWrite | src/application/use_cases/mission_operation.rs:127-165 | when the crew read of `notify_crew` fails after the status write, `in_progress`, `to_failed` and `to_completed` (whose own crew read before the write succeeded) report an error while the new status stays written, and `to_completed` awards nothing |
| MissionOperation.FinishGuard | src/application/use_cases/mission_operation.rs:146-150 | completing or failing a mission that is not InProgress, or as someone other than the chief, is refused with nothing changed |
| MissionOperation.AwardOneFrame | src/application/use_cases/mission_operation.rs:171-180 | one award step only adds earned rows for that brawler |
| MissionOperation.AwardPassFrame | src/application/use_cases/mission_operation.rs:170-193 | the award pass over chief and crew only adds earned rows for those brawlers |
| MissionOperation.AnnounceShape | src/application/use_cases/mission_operation.rs:160-167 | the announcement notifies the crew, then in the later revision publishes the status line; it changes only the message log |
| MissionOperation.ToCompletedOk | src/application/use_cases/mission_operation.rs:143-196 | a successful completion sets only the status to Completed, keeps every earned row, notifies the crew and then only appends publishes |
| MissionOperation.ToCompletedUnfold | src/application/use_cases/mission_operation.rs:143-196 | completion is the status write, then the announcement, then the award pass over the chief and the crew read before the write |
| MissionOperation.ToFailedOk | src/application/use_cases/mission_operation.rs:198-221 | a successful failure sets only the status to Failed, notifies the crew and, in the later revision, publishes "Mission failed: <name>" |
| MissionOperation.NotifyCrewTo | src/application/use_cases/mission_operation.rs:65-78 | the loop over the crew yields `MissionOperation.NotifyCrew` |
| MissionOperation.AnnounceTo | src/application/use_cases/mission_operation.rs:160-167 | the announcement in place, as `MissionOperation.Announce`; on error nothing changes |
| MissionOperation.AwardOneTo | src/application/use_cases/mission_operation.rs:171-180 | one award step in place, as `MissionOperation.AwardOne` |
| MissionOperation.ToInProgress | src/application/use_cases/mission_operation.rs:104-142 | the start in place, equal to `MissionOperation.InProgressSpec` |
| MissionOperation.ToCompleted | src/application/use_cases/mission_operation.rs:143-196 | the completion in place, with its loops, equal to `MissionOperation.ToCompletedSpec`, including the error after the Completed write |
| MissionOperation.ToFailed | src/application/use_cases/mission_operation.rs:198-221 | the failure in place, equal to `MissionOperation.ToFailedSpec` |
| MissionInvites.InviteOkIff | src/application/use_cases/mission_invites.rs:65-89 | an invite succeeds exactly when the reads and the write do not fail, the swapped membership check is false and no pending invite exists; success appends one pending invite and publishes "<username> was invited to the mission" when the user can be read; failure changes nothing |
| MissionInvites.InviteLetsMemberIn | src/application/use_cases/mission_invites.rs:69-71 | as written, a crew member of the mission can still be invited |
| MissionInvites.InviteIntendedRefusesMember | src/application/use_cases/mission_invites.rs:69-71 | with the membership arguments in order, a crew member is refused and nothing changes; for anyone else the result is as written |
| MissionInvites.InviteIntendedOk | src/application/use_cases/mission_invites.rs:65-89 | with the arguments in order, a successful invite is for a non-member with no pending invite |
| MissionInvites.AcceptRefusals | src/application/use_cases/mission_invites.rs:91-105 | a missing invite, another user's invite, an invite that is not pending, and a full mission are each refused, in that order, with nothing changed |
| MissionInvites.AcceptCommitted | src/application/use_cases/mission_invites.rs:107-114 | once the guards pass and the join commits, the user is in the crew and the invite is accepted |
| MissionInvites.AcceptOk | src/application/use_cases/mission_invites.rs:91-137 | a successful accept was the user's pending invite; the user joins the crew, the invite becomes accepted, "<username> joined the mission via invite" is logged and published |
| MissionInvites.AcceptFinish | src/application/use_cases/mission_invites.rs:116-135 | the steps after the status update change only achievements and the message log |
| MissionInvites.AcceptErrorAfterCommit | src/application/use_cases/mission_invites.rs:123-131 | when only the insert of the system line fails, the call reports an error although the join and the status update stay committed, and no line is logged or broadcast |
| MissionInvites.AcceptErrorAfterAward | src/application/use_cases/mission_invites.rs:116-124 | when only the second lookup of the invitee fails, the call reports an error after the join, the status update and the award pass have all been committed |
| MissionInvites.DeclineOkIff | src/application/use_cases/mission_invites.rs:139-149 | a decline succeeds exactly when the invite exists, is the user's, and the read and write do not fail; it then only marks the invite rejected, whatever its status |
| MissionInvites.GetMyPendingInvites | src/application/use_cases/mission_invites.rs:151-153 | every returned row is a pending invite of the user for an existing mission, with its name; every pending invite whose mission and chief rows exist is returned |
| MissionInvites.IssueTo | src/application/use_cases/mission_invites.rs:77-86 | the create and announcement in place, as `MissionInvites.Issue` |
| MissionInvites.SendInvite | src/application/use_cases/mission_invites.rs:65-89 | the invite in place, equal to `MissionInvites.InviteSpec` |
| MissionInvites.Accept | src/application/use_cases/mission_invites.rs:91-137 | the accept in place, equal to `MissionInvites.AcceptSpec` |
| MissionInvites.Decline | src/application/use_cases/mission_invites.rs:139-149 | the decline in place, equal to `MissionInvites.DeclineSpec` |
| MissionManagement.AddValidation | src/application/use_cases/mission_management.rs:36-57 | an add succeeds exactly when the trimmed name is at least 3 bytes, the capacity is within 2..10 and the write does not fail; the name check comes first; success stores an Open mission under a fresh id |
| MissionManagement.ThreeLetterNameAccepted | src/application/use_cases/mission_management.rs:37-41 | "abc" is accepted while the message says at least 4 characters, and "  ab  " is refused |
| MissionManagement.EditName | src/application/use_cases/mission_management.rs:65-75 | an absent or blank name means no change, a trimmed name under 3 bytes is an error, otherwise the trimmed name |
| MissionManagement.EditNameIdempotent | src/application/use_cases/mission_management.rs:65-75 | normalising an already normalised name changes nothing |
| MissionManagement.EditValidation | src/application/use_cases/mission_management.rs:59-107 | a refused edit changes nothing; a successful edit stores the trimmed name or keeps the old one, and a capacity within 2..10 that is not below the crew count |
| MissionManagement.EditBelowCrewCount | src/application/use_cases/mission_management.rs:84-96 | a capacity below the crew count is refused; when the count cannot be read it is taken as 0 and the edit goes through |
| MissionManagement.RemoveSpec | src/application/use_cases/mission_management.rs:111-116 | remove reports the repository's result, only marks the chief's Open mission deleted, and never removes a key |
| MissionManagement.Add | src/application/use_cases/mission_management.rs:36-57 | the add in place, equal to `MissionManagement.AddSpec` |
| MissionManagement.Edit | src/application/use_cases/mission_management.rs:59-107 | the edit in place, equal to `MissionManagement.EditSpec` |
| MissionManagement.Remove | src/application/use_cases/mission_management.rs:111-116 | the remove in place, equal to `MissionManagement.RemoveSpec` |
| MissionChat.GetMessages | src/application/use_cases/mission_chat.rs:24-26 | fails only when the read fails; otherwise the repository's page returned unchanged: entry i is the view of the page's row i, all of that mission |
| MissionChat.SendOkIff | src/application/use_cases/mission_chat.rs:28-54 | a send succeeds exactly when the insert of its row does not fail; it appends exactly the chat row and, in the later revision only, publishes the chat event; failure changes nothing |
| MissionChat.Send | src/application/use_cases/mission_chat.rs:28-54 | the send in place, equal to `MissionChat.SendSpec` |
| AchievementsView.ToView | src/application/use_cases/achievements.rs:26-35 | the view keeps the achievement's fields, is earned exactly when a row is paired, and carries that row's date |
| AchievementsView.Views | src/application/use_cases/achievements.rs:26-35 | one view per pair, in order |
| AchievementsView.MyAchievementsSpec | src/application/use_cases/achievements.rs:23-38 | fails only when the read fails; otherwise one view per achievement, earned exactly when the brawler has earned it, with the earned date |
| Realtime.MissionRealtime.constructor | src/application/services/mission_realtime.rs:26-30 | the registry starts empty |
| Realtime.MissionRealtime.GetChannel | src/application/services/mission_realtime.rs:32-43 | returns the registered channel, or registers and returns a new empty channel of capacity 100; no entry is removed or replaced |
| Realtime.MissionRealtime.Subscribe | src/application/services/mission_realtime.rs:45-47 | a receiver on the mission's channel, created if need be, that has received nothing yet |
| Realtime.MissionRealtime.Broadcast | src/application/services/mission_realtime.rs:49-53 | creates the channel if absent; every live receiver of this mission gets the message at the end, and receivers of other missions get nothing |
| Realtime.MissionRooms.constructor | src/infrastructure/services/mission_websocket_service.rs:11-15 | the room registry starts empty |
| Realtime.MissionRooms.GetOrCreateRoom | src/infrastructure/services/mission_websocket_service.rs:17-26 | returns the registered room, or registers and returns a new empty room of capacity 100 |
| Realtime.MissionRooms.Broadcast | src/infrastructure/services/mission_websocket_service.rs:28-33 | sends into the mission's room when it exists, never creates a room, and leaves every other room unchanged |
| Realtime.NotificationHub.constructor | server/src/infrastructure/services/notification_service.rs:13-15 | the hub wraps the given global sender |
| Realtime.NotificationHub.Send | server/src/infrastructure/services/notification_service.rs:20-24 | always Ok; the notification goes unchanged onto the one global channel |
| Sse.Translate | src/infrastructure/http/routers/notifications.rs:45-63 | a data event exactly for a received notification that is broadcast or addressed to the user, carrying it; "ignore" for other users' notifications; "missed message" for a lag |
| Sse.TranslateAll | src/infrastructure/http/routers/notifications.rs:45-63 | one event per stream item, in order |
| Sse.StreamShape | src/infrastructure/http/routers/notifications.rs:35-65 | the stream is the welcome event addressed to the user, followed by the translation of each item |
| Sse.ForwardsDeliverable | src/infrastructure/http/routers/notifications.rs:45-63 | the notifications the translated stream carries are exactly the deliverable ones, in order |
| Sse.StreamForwards | src/infrastructure/http/routers/notifications.rs:43-65 | after the welcome event, the stream forwards exactly the notifications for the user, in order |
| Sse.OthersIgnored | src/infrastructure/http/routers/notifications.rs:53-56 | a notification addressed to another user becomes the "ignore" comment |
| CrewRouter.JoinStatusIff | server/src/infrastructure/http/routers/crew_operation.rs:100-111 | 409 exactly for text containing "Already joined" or "Mission is full", 400 exactly for the not-joinable or chief texts otherwise, 500 for anything else |
| CrewRouter.JoinStatusByKind | server/src/infrastructure/http/routers/crew_operation.rs:99-111 | each join refusal gets its status from its own text |
| CrewRouter.AlreadyJoinedStatus | server/src/infrastructure/http/routers/crew_operation.rs:101-102 | "Already joined" maps to 409 |
| CrewRouter.MissionFullStatus | server/src/infrastructure/http/routers/crew_operation.rs:103-104 | "Mission is full" maps to 409 |
| CrewRouter.NotJoinableStatus | server/src/infrastructure/http/routers/crew_operation.rs:105-106 | "Mission is not joinable" maps to 400 |
| CrewRouter.ChiefStatus | server/src/infrastructure/http/routers/crew_operation.rs:107-108 | the chief's refusal maps to 400 |
| CrewRouter.OtherRefusalStatus | server/src/infrastructure/http/routers/crew_operation.rs:109-111 | a missing mission or a missing environment variable maps to 500 |
| CrewRouter.KickStatus | server/src/infrastructure/http/routers/crew_operation.rs:186-190 | 403 exactly for text containing "Only the Chief can kick members", otherwise 500 |
| CrewRouter.KickStatuses | server/src/infrastructure/http/routers/crew_operation.rs:184-191 | the chief-only refusal gets 403, a missing mission 500 |
| CrewRouter.DisplayName | server/src/infrastructure/http/routers/crew_operation.rs:80-83 | the brawler's display name, or "Unknown" when the lookup fails |
| CrewRouter.BroadcastSystemMessage | server/src/infrastructure/http/routers/crew_operation.rs:37-59 | the text is persisted and then published to the room; when the insert of that line fails nothing happens at all |
| CrewRouter.JoinRouteShape | server/src/infrastructure/http/routers/crew_operation.rs:77-115 | a successful join answers 200 after announcing "<name> joined the mission"; a failed join answers its mapped status and the error text, with no announcement |
| CrewRouter.JoinAnnouncementPersisted | server/src/infrastructure/http/routers/crew_operation.rs:85-90 | every room announcement of the join route was persisted to the log first |
| CrewRouter.BroadcastSystemMessageTo | server/src/infrastructure/http/routers/crew_operation.rs:37-59 | persists and publishes in place, as `CrewRouter.BroadcastSystemMessage` |
| CrewRouter.Join | server/src/infrastructure/http/routers/crew_operation.rs:61-116 | the join route in place, equal to `CrewRouter.JoinRoute` |
| CrewRouter.Leave | server/src/infrastructure/http/routers/crew_operation.rs:118-160 | the leave route in place, equal to `CrewRouter.LeaveRoute` |
| CrewRouter.Kick | server/src/infrastructure/http/routers/crew_operation.rs:167-194 | the kick route in place, equal to `CrewRouter.KickRoute` |
| Auth.FindPrefixed | src/infrastructure/http/middlewares/auth.rs:22-23 | the first query parameter starting with "token=", or none when no parameter does |
| Auth.Authenticate | src/infrastructure/http/middlewares/auth.rs:10-43 | accepts exactly when a token is found, verifies, and its subject parses as an i32; the request then carries that id; every refusal is 401 |
| Auth.Refusals | src/infrastructure/http/middlewares/auth.rs:28-38 | no token, a token that does not verify, and a subject that is not an i32 are each 401 |
| Auth.HeaderWins | src/infrastructure/http/middlewares/auth.rs:11-26 | when an Authorization header is present the query is never consulted, and a header without "Bearer " gives no token |
| Auth.BearerToken | src/infrastructure/http/middlewares/auth.rs:11-16 | "Bearer <t>" yields the token t |
| Auth.RepeatedPrefix | src/infrastructure/http/middlewares/auth.rs:24 | every leading "token=" is stripped: "token=token=x" yields "x" |
| Text.TrimStartMatchesRepeats | src/infrastructure/http/middlewares/auth.rs:24 | `trim_start_matches` removes whole copies of the pattern only: the input is `Copies(s, pat)` copies followed by the result |
| Auth.FirstTokenParameter | src/infrastructure/http/middlewares/auth.rs:21-25 | with two token parameters, the first wins |
| Base64Image.CleanIdempotent | server/src/domain/value_objects/base64_img.rs:12 | the cleaned text has no whitespace, and cleaning again changes nothing |
| Base64Image.CleanBlank | server/src/domain/value_objects/base64_img.rs:12-15 | an all-whitespace input cleans to the empty text |
| Base64Image.NewOkIff | server/src/domain/value_objects/base64_img.rs:11-41 | construction succeeds exactly when the cleaned text is non-empty, decodes, and its detected type is png, jpeg, jpg or webp; the value is the data URI of that type and the cleaned text |
| Base64Image.NewErrors | server/src/domain/value_objects/base64_img.rs:13-37 | empty data, undecodable data (the unpadded decoder's error and the byte length), an unknown type (at most 10 leading bytes) and an unsupported type are each reported as such |
| Base64Image.Head | server/src/domain/value_objects/base64_img.rs:36 | the first min(len, 10) bytes |
| Base64Image.BlankRefused | server/src/domain/value_objects/base64_img.rs:12-15 | whitespace-only data is refused as empty |
| Base64Image.PaddedFirst | server/src/domain/value_objects/base64_img.rs:16-25 | when the padded decoder succeeds the unpadded one is never consulted |
| Base64Image.WhitespaceIgnored | server/src/domain/value_objects/base64_img.rs:12 | inserting a whitespace character anywhere does not change the outcome |
| Base64Image.NewOfClean | server/src/domain/value_objects/base64_img.rs:12 | constructing from the cleaned text gives the same outcome |
| Base64Image.FrameParse | server/src/domain/value_objects/base64_img.rs:39 | the data URI parses back into its type and payload |
| Base64Image.NewRoundTrip | server/src/domain/value_objects/base64_img.rs:11-41 | the stored data URI parses back into an allowed detected type and the cleaned input |
| Cloudinary.SignedKeys | server/src/infrastructure/cloudinary/mod.rs:22-33 | the signed parameters are the timestamp and exactly the options that are present, never signature, api_key, resource_type or file |
| Cloudinary.CollectKeys | server/src/infrastructure/cloudinary/mod.rs:36 | the collected keys are the map's keys, each once |
| Cloudinary.SortSpec | server/src/infrastructure/cloudinary/mod.rs:37 | the sort is ascending in byte order and a permutation of its input |
| Cloudinary.OrderIndependent | server/src/infrastructure/cloudinary/mod.rs:35-37 | sorting gives one order whatever order the hash map yields its keys in |
| Cloudinary.AllOptionsParams | server/src/infrastructure/cloudinary/mod.rs:22-33 | with every option present, the signed parameters are exactly folder, public_id, timestamp and transformation |
| Cloudinary.SignKeys | server/src/infrastructure/cloudinary/mod.rs:40-47 | the loop builds "key=value" parts and form fields in key order |
| Cloudinary.FormBuilder | server/src/infrastructure/cloudinary/mod.rs:18-65 | the form built in place equals `Cloudinary.FormSpec` |
| Cloudinary.FormShape | server/src/infrastructure/cloudinary/mod.rs:18-65 | the form is the sorted signed parameters, then the signature of their joined string plus the secret, then api_key, then resource_type "image" |
| Cloudinary.TimestampOnly | server/src/infrastructure/cloudinary/mod.rs:49 | with no options the string to sign is "timestamp=<seconds>" followed by the secret |
| Cloudinary.AllOptions | server/src/infrastructure/cloudinary/mod.rs:39-49 | with every option the string to sign is folder, public_id, timestamp, transformation in that order, joined by "&", followed by the secret |
| PasswordValidator.Validate | client/src/app/_helpers/password-validator/password-validator.ts:3-14 | null exactly when every rule passes; "required" exactly when the value is falsy; "invalidLength" exactly when a present value is outside the inclusive bounds |
| PasswordValidator.FirstFailureReported | client/src/app/_helpers/password-validator/password-validator.ts:6-11 | the reported rule is broken and every rule checked before it holds |
| PasswordValidator.NullIffNoRuleBroken | client/src/app/_helpers/password-validator.ts/password-validator.ts.ts:6-12 | null exactly when no rule is broken |
| PasswordValidator.LengthBoundsInclusive | client/src/app/_helpers/password-validator.ts/password-validator.ts.ts:7 | a password of exactly the minimum or maximum length passes the length rule |
| PasswordValidator.SampleAccepted | client/src/app/_helpers/password-validator/password-validator.ts:8-12 | "Abcdef1!" passes 8..16, and "abcdef1!" fails on the upper-case rule |
| PasswordValidator.MatchErrors | client/src/app/_helpers/password-validator/password-validator.ts:22-33 | a mismatch adds "mismatch" beside the existing keys; a match removes it and turns an emptied object into null |
| PasswordValidator.MatchErrorsIdempotent | client/src/app/_helpers/password-validator/password-validator.ts:22-33 | running the matcher twice on the same values gives what one run gives |
| PasswordValidator.MatchUndoesMismatch | client/src/app/_helpers/password-validator/password-validator.ts:22-33 | fixing a mismatch restores exactly the errors present before it |
| PasswordValidator.MatchValidator | client/src/app/_helpers/password-validator/password-validator.ts:16-37 | always returns null; with both controls present it sets the confirm control's errors as `MatchErrors` says and changes nothing else |
| PasswordValidator.MatchValidatorStub | client/src/app/_helpers/password-validator.ts/password-validator.ts.ts:16-20 | always returns null |
| NewMissionDialog.Initial | client/src/app/_dialogs/new-mission/new-mission.ts:18-23 | the form starts from the dialog data, with '' for the texts and 5 for a falsy capacity |
| NewMissionDialog.TrimmedOrAbsent | client/src/app/_dialogs/new-mission/new-mission.ts:38-39 | absent when the text is absent or trims to empty, otherwise the trimmed text |
| NewMissionDialog.TrimmedOrAbsentIdempotent | client/src/app/_dialogs/new-mission/new-mission.ts:38-39 | trimming an already trimmed optional text changes nothing |
| NewMissionDialog.Clean | client/src/app/_dialogs/new-mission/new-mission.ts:31-42 | the capacity is 5 when falsy and clamped into 2..10; the name is trimmed, with "untitled" for an empty result; description and category are trimmed or absent |
| NewMissionDialog.CleanIdempotent | client/src/app/_dialogs/new-mission/new-mission.ts:31-42 | cleaning a cleaned value changes nothing |
| NewMissionDialog.EmptyFormSubmitted | client/src/app/_dialogs/new-mission/new-mission.ts:18-42 | the untouched empty form becomes an untitled mission of capacity 5 with no description or category |
| PassportStats.Xp | client/src/app/_services/passport-service.ts:34-38 | 0 without a passport, otherwise 500 per success plus 100 per join, missing counts taken as 0 |
| PassportStats.Level | client/src/app/_services/passport-service.ts:40 | the level is floor(xp / 1000) + 1, at least 1 for non-negative xp |
| PassportStats.LevelAtLeastOne | client/src/app/_services/passport-service.ts:40 | non-negative counts give a level of at least 1 |
| PassportStats.Monotone | client/src/app/_services/passport-service.ts:37-40 | raising either counter never lowers xp or level |
| PassportStats.Sample | client/src/app/_services/passport-service.ts:34-40 | 2 successes and 3 joins give 1300 xp and level 2; no counts give level 1 |
| Leaderboard.RankTitle | client/src/app/leaderboard/leaderboard.ts:31-37 | Challenger from 50, Grandmaster from 20, Master from 10, Diamond from 5, otherwise Platinum, each exactly on its band |
| Leaderboard.Tier | client/src/app/leaderboard/leaderboard.ts:31-37 | the band index of a mission count, exactly on the same thresholds |
| Leaderboard.RankTitleIsTier | client/src/app/leaderboard/leaderboard.ts:31-37 | the title is the band's title |
| Leaderboard.RankMonotone | client/src/app/leaderboard/leaderboard.ts:31-37 | more missions never give a lower band |
| Leaderboard.SuccessRate | client/src/app/leaderboard/leaderboard.ts:39-42 | "0%" when join is 0, otherwise the rounded percentage followed by "%" |
| Leaderboard.RoundDiv | client/src/app/leaderboard/leaderboard.ts:41 | rounding to nearest with halves up, as `Math.round` of the exact quotient |
| Leaderboard.RateInRange | client/src/app/leaderboard/leaderboard.ts:41 | with 0 <= success <= join the rate lies in 0..100 |
| Leaderboard.RateSamples | client/src/app/leaderboard/leaderboard.ts:41 | 1 of 3 rounds to 33, 2 of 3 to 67, 1 of 2 to 50 |
| Home.RankTitle | client/src/app/home/home.ts:80-86 | the same titles as the leaderboard |
| Home.JsRem | client/src/app/home/home.ts:72 | JavaScript's remainder, truncating toward zero |
| Home.StackedCardImage | client/src/app/home/home.ts:65-73 | the (index mod 4)-th card for a non-negative index; undefined for a negative index that is not a multiple of 4 |
| Home.StackedCardPeriodic | client/src/app/home/home.ts:72 | the card of index i + 4 is the card of index i |
| Home.MissionImage | client/src/app/home/home.ts:75-78 | the mission's image when truthy, otherwise the first card |
| MissionChatView.Filtered | client/src/app/_components/mission-chat/mission-chat.component.ts:33-37 | 'all' returns every message; 'activity' keeps the system messages and 'chat' the chat messages |
| MissionChatView.FilteredKeepsType | client/src/app/_components/mission-chat/mission-chat.component.ts:35-36 | a filtered list holds only the filter's type, keeps every message of that type with its multiplicity, and preserves order |
| MissionChatView.Normalise | client/src/app/_components/mission-chat/mission-chat.component.ts:80-82 | a non-empty timestamp not ending in 'Z' gets 'Z' appended; others are kept |
| MissionChatView.NormaliseIdempotent | client/src/app/_components/mission-chat/mission-chat.component.ts:80-82 | fixing a fixed timestamp changes nothing |
| MissionChatView.NormaliseAll | client/src/app/_components/mission-chat/mission-chat.component.ts:79-83 | every message's timestamp is fixed and nothing else changes |
| MissionChatView.NormaliseAllIdempotent | client/src/app/_components/mission-chat/mission-chat.component.ts:79-83 | fixing a fixed list changes nothing |
| MissionChatView.ChatComponent.constructor | client/src/app/_components/mission-chat/mission-chat.component.ts:30-31 | no messages, an empty input and the 'all' filter |
| MissionChatView.ChatComponent.FilteredMessages | client/src/app/_components/mission-chat/mission-chat.component.ts:33-37 | an order-preserving subsequence of the messages, all of them under 'all' |
| MissionChatView.ChatComponent.LoadMessages | client/src/app/_components/mission-chat/mission-chat.component.ts:72-91 | the loop leaves the fetched messages with fixed timestamps; a failed fetch keeps the list |
| MissionChatView.ChatComponent.Receive | client/src/app/_components/mission-chat/mission-chat.component.ts:48-52 | an incoming message is appended at the end |
| MissionChatView.ChatComponent.SendMessage | client/src/app/_components/mission-chat/mission-chat.component.ts:93-101 | a blank input sends nothing; otherwise the untrimmed text is sent and the input cleared |
| InviteMemberDialog.NonMembers | client/src/app/_dialogs/invite-member/invite-member.component.ts:44 | exactly the users who are not members, in order |
| InviteMemberDialog.Search | client/src/app/_dialogs/invite-member/invite-member.component.ts:52-59 | an empty term shows every user; otherwise exactly the users whose lower-cased name contains the lower-cased term, in order |
| InviteMemberDialog.SearchCaseInsensitive | client/src/app/_dialogs/invite-member/invite-member.component.ts:54-55 | lower-casing the term first changes nothing |
| InviteMemberDialog.SearchExcludes | client/src/app/_dialogs/invite-member/invite-member.component.ts:52-59 | searching a list that holds no current member shows no current member |
| InviteMemberDialog.InviteMember.constructor | client/src/app/_dialogs/invite-member/invite-member.component.ts:29-38 | the members become a set; no users, no search and nobody invited, so no current member is listed (`NoMemberOffered`) |
| InviteMemberDialog.InviteMember.Init | client/src/app/_dialogs/invite-member/invite-member.component.ts:40-50 | loaded users are the non-members and all are shown; a failed load changes nothing; afterwards no current member is listed |
| InviteMemberDialog.InviteMember.OnSearchChange | client/src/app/_dialogs/invite-member/invite-member.component.ts:52-59 | the shown users become the search result over the loaded users, and still no current member is listed |
| InviteMemberDialog.InviteMember.Invite | client/src/app/_dialogs/invite-member/invite-member.component.ts:61-69 | the user is marked invited only when the call succeeds |
| InviteService.WithoutId | client/src/app/_services/invite.service.ts:22 | every invite but those with the id, in order |
| InviteService.WithoutIdIdempotent | client/src/app/_services/invite.service.ts:22 | removing twice is removing once |
| InviteService.Service.constructor | client/src/app/_services/invite.service.ts:19-38 | the list starts empty |
| InviteService.Service.Accept | client/src/app/_services/invite.service.ts:19-24 | returns the server's reply; on success the invite is removed, on failure the list is kept |
| InviteService.Service.Decline | client/src/app/_services/invite.service.ts:26-31 | returns the server's reply; on success the invite is removed, on failure the list is kept |
| InviteService.Service.GetMyInvites | client/src/app/_services/invite.service.ts:33-38 | on success the list becomes the server's data, which is returned |
| NotificationsPage.SetProcessing | client/src/app/notifications/notifications.ts:64-71 | only the given id changes, added when true and removed when false |
| NotificationsPage.MarkUnmark | client/src/app/notifications/notifications.ts:64-71 | marking then unmarking an id restores the set |
| NotificationsPage.Page.constructor | client/src/app/notifications/notifications.ts:30-62 | nothing is processing |
| NotificationsPage.Page.Mark | client/src/app/notifications/notifications.ts:64-71 | the set changes as `NotificationsPage.SetProcessing` |
| NotificationsPage.Page.Accept | client/src/app/notifications/notifications.ts:30-43 | the service is called exactly when the id is not processing; afterwards the id is not processing, and the list changes only on success |
| NotificationsPage.Page.Decline | client/src/app/notifications/notifications.ts:45-58 | the service is called exactly when the id is not processing and the user confirms; afterwards the id is not processing, and the list changes only on success |
| MissionManagerPage.FindIndex | client/src/app/missions/mission-manager/mission-manager.ts:99 | the first index carrying the id, or -1 when there is none |
| MissionManagerPage.AfterEdit | client/src/app/missions/mission-manager/mission-manager.ts:99-104 | only the first entry with the id is merged with the edit; nothing changes when the id is absent |
| MissionManagerPage.WithoutMission | client/src/app/missions/mission-manager/mission-manager.ts:117-120 | exactly the missions without the id, in order |
| MissionManagerPage.Created | client/src/app/missions/mission-manager/mission-manager.ts:62-79 | a created mission is Open, with no crew and a capacity defaulting to 5 |
| MissionManagerPage.CreatedFromDialogInRange | client/src/app/missions/mission-manager/mission-manager.ts:62-79 | a mission created from the dialog's cleaned form has a capacity within 2..10 |
| MissionManagerPage.Manager.constructor | client/src/app/missions/mission-manager/mission-manager.ts:32-36 | the loaded missions and no join alert |
| MissionManagerPage.Manager.OnNotification | client/src/app/missions/mission-manager/mission-manager.ts:32-36 | a JoinMission notification with a mission id adds that id; any other notification changes nothing |
| MissionManagerPage.Manager.NavigateToMission | client/src/app/missions/mission-manager/mission-manager.ts:44-47 | the id's join alert is cleared |
| MissionManagerPage.Manager.ClearJoinAlert | client/src/app/missions/mission-manager/mission-manager.ts:53-55 | the id's join alert is cleared |
| MissionManagerPage.Manager.OpenDialog | client/src/app/missions/mission-manager/mission-manager.ts:57-82 | a created mission is appended at the end; a closed dialog or failed call changes nothing |
| MissionManagerPage.Manager.OpenEditDialog | client/src/app/missions/mission-manager/mission-manager.ts:85-110 | a successful edit merges into the matching entry only |
| MissionManagerPage.Manager.DeleteMission | client/src/app/missions/mission-manager/mission-manager.ts:113-124 | a confirmed, successful delete removes exactly the missions with the id, keeping the order of the rest |

## Left out

- Concurrency is not modelled: tokio tasks, the `Mutex`/`RwLock` around the registries, and races between concurrent joins. Every operation runs alone on the store. The composite key of the crew table is the store's guard against duplicates.
- The tokio broadcast ring buffer of 100 slots and its lag are not modelled. A receiver is taken to keep up. A lag shows up only as the `Missed` item of the event stream (`Sse.Translate`).
- The WebSocket and SSE plumbing is not modelled: socket split and select, keep-alive, and the `routes()` builders.
- JWT verification, argon2, SHA-1, the `infer` magic-byte detector and the two base64 decoders are parameters of the model: functions the caller supplies.
- The Cloudinary HTTP upload (`upload`) is not modelled. It is a network call. Only its signed form (`form_builder`) is.
- Environment and configuration loading is a parameter (`Domain.Config`). A missing `MAX_CREW_PER_MISSION` makes `.expect` panic in the source. The model turns that panic into an error result (`EnvMissing`).
- Clocks are parameters: `now` stands for every timestamp, `Utc::now()` and the insert's default time alike. The RFC 3339 text of a timestamp is not modelled.
- The raw SQL reads of the mission-viewing and brawler repositories are abstract reads over the store: `get_one`, `crew_counting` as the number of crew rows, and `get_crew`. Their joins, popularity ordering and summaries are not modelled.
- The status-write statements (`to_progress`, `to_completed`, `to_failed`) of the mission-operation repository are not part of this model. They are assumed to set the status of the chief's mission and to fail when no such row exists (`MissionTable.WriteStatus`).
- CrewOperation.JoinOk: the cast `crew_count as i32` is taken as exact. Crew counts are far below 2^31.
- Integer widths of ids and counters are not modelled: they are unbounded integers. The one exception is parsing: an id and the crew bound must parse as i32 and i64.
- Text lengths follow the source language. Rust's `len()` is modelled as the UTF-8 byte length (`Text.Utf8Len`) and JavaScript's `length` as UTF-16 code units (`Text.Utf16Len`). Rust's `trim` and `is_whitespace` use the Unicode white-space set. JavaScript's `trim` uses the ECMAScript white-space and line-terminator set.
- InviteMemberDialog.Search: `toLowerCase` is modelled on ASCII letters only. Full Unicode case mapping is not modelled.
- Leaderboard.SuccessRate: floating point is not modelled. `Math.round((success / join) * 100)` is modelled as exact rational rounding of 100·success/join, halves up. Its text is that of an integer, so NaN and infinity are not modelled.
- The random card images of the home page and the DOM directives are not modelled.
- Client HTTP services, `localStorage`, timers, guards and interceptors are not modelled. Each call's reply is a parameter of the component method that makes it.
- NotificationsPage.Page.Accept: the interleaving of two pending `await`s on the same page is not modelled. Each call runs to completion.
- Failures of reads and single-row writes are per kind of call, not per call. The completion award pass, for example, reads each brawler with `find_by_id` and each one's candidates, and one kind of failure fails all of those reads together. Only the reads repeated inside one use case on purpose have kinds of their own: `to_completed`'s crew snapshot and `accept`'s second brawler lookup. Two inserts of identical rows (the same line at the same time, or the same award key) fail together.
- CrewRouter.BroadcastSystemMessage: the room frame is the JSON object with `user_id` null, `content`, `type` "system" and `created_at`. `RoomPublish` carries only the content. `user_id` and `type` are the same in every frame, and `created_at` is the clock's RFC 3339 text, which is not modelled.
- Logging (`println!`, `info!`, `console.error`) and `alert` are not modelled.
- Counter increments on completion are not modelled, because the source shows none. `to_completed` only reads `mission_success_count`.

## Findings

| source | as written | input that shows it | evidently intended | confidence | as-written member | corrected member |
|---|---|---|---|---|---|---|
| src/application/use_cases/mission_invites.rs:69 | `is_member(user_id, mission_id)` passes the user id where the mission id is expected, and the reverse | mission 7 with brawler 3 in its crew, and no crew row (3, 7): inviting brawler 3 to mission 7 succeeds | `is_member(mission_id, user_id)`, which refuses to invite a crew member | high (not executed) | MissionInvites.InviteLetsMemberIn | MissionInvites.InviteIntendedRefusesMember |
