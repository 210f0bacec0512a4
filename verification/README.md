# Verified model of the chat system's stateful core

This project models, in Dafny, the parts of the chat server, its desktop client and its streaming edge that
hold state several tables or several machines must agree on, and proves what every run of their operations
keeps. Each database transaction, locked section or store action is one step with one clock reading.

| component | modules |
|---|---|
| account numbers: segments, pool, draw selections, premium numbers | `Decimal`, `PremiumNumbers`, `AccountPool`, `AccountPoolRuns`, `AccountReservations`, `AccountPremiums`, `AccountDraws`, `AccountChanges`, `AccountStore` |
| login lockout and daily caps | `Windows`, `LoginThrottle`, `LoginLocks`, `IpThrottle`, `IpLimits` |
| friendships | `Friendship`, `FriendshipChanges` |
| groups, channels, conversation access, succession | `GroupTables`, `ChannelOrder`, `GroupAccess`, `GroupCounts`, `Succession`, `GroupChanges`, `GroupStore` |
| message log, retention sweep, paging queries | `Paging`, `MessageLog`, `MessageQueries`, `MessageChanges`, `MessageStore` |
| reactions | `Reactions`, `ReactionStore` |
| client archive: rows, export and import, paging | `ArchiveRows`, `ArchiveTransfer`, `ArchiveRuns`, `ArchiveOrder`, `ArchivePaging`, `ArchiveStore` |
| client message store | `ChatState`, `ChatMerge`, `ChatLists`, `ChatArchive`, `ChatAuthority`, `ChatChanges`, `ChatStore` |
| catch-up after a reconnect | `CatchUp`, `CatchUpOrder`, `SyncEngine` |
| HLS playlists and segment names | `Playlist` |

Each stateful component comes in two layers. A value layer gives the tables as a datatype, each operation as a
function on it, and the runs as sequences of events; the invariants are lemmas over all runs. A class layer
holds the same tables as fields and has the operations as methods, in the source's order of statements and
with its loops; every method is proved to take the tables exactly where the function says. Where a method requires an
invariant of its tables, that invariant is a unique key of the database or is proved for every reachable state.

What an operation does is also said apart from the function that computes it: the lemmas named `...ChangeExactly`,
`...Exactly` and `...Shows` take any event and say, row by row and in the state's own terms, what is there afterwards.
An operation that did nothing, or less, would keep most invariants; it would not meet these.

## Where the code and its descriptions part

The model follows the code. These are the places where a comment, a name or an obvious expectation says
something else, with the lemma that says so.

- The reservation sweep releases numbers by number, not by selection, so it can free a number a newer
  selection holds (`server/internal/auth/cleanup.go:95-107`). When it does so is `SweepKeepsLiveIff`; three full
  draws that meet in one number already lead there: `SweepCanPromiseTwice`.
- The premium grant clears the lock of the granted number for good; when the owner is granted another one, the
  first goes back to the ordinary draw, although the comment says it stays locked
  (`server/internal/admin/handler.go:276-281`): `RegrantFreesThePremium`.
- `formatInt` of the least 64-bit integer is `-`, because negating it gives it back: `FormatInt`.
- The lockout is described as five failures in fifteen minutes; eight wrong passwords can get through in one
  window, and never more: `AtMostEightPerWindow`, `EightAreReached`.
- The daily cap is described as an absolute number a day; one action less than twice the limit can get through in
  24 hours, for every limit from 1 on, and never more: `FewerThanTwiceTheLimit`, `TwiceLessOneIsReached`.
- Removing or blocking a friend also deletes a block the other side had set: `BlockEndsExactly`. The repository's
  request function does not look for blocks at all, so the handler's gate is what keeps the table in shape:
  `UngatedRequestIff`.
- An ownership transfer on departure, and the archiving of a group nobody is left in, remove a member without
  lowering the stored count (`DepartureLosesCount`). The count is therefore the number of members plus the owners
  lost this way, and right exactly when there was none: `CountsAreExactIff`; a run after which a group of one
  counts two: `CountGoesWrong`. Archiving also keeps the conversation rows, so the access invariant is about
  groups not archived.
- Deleting a group leaves its former members readers of its conversations, although the comment says nobody is left
  there (`server/internal/group/repo.go:338-343`): `DeleteKeepsReaders`.
- A retention sweep that deletes nothing leaves pointers dangling that an earlier deletion orphaned:
  `SweepLeavesDangling`.
- A pull is said to come oldest first, but the handler treats cursor 0 as no cursor and answers newest first. It
  comes oldest first exactly when it had a cursor, its own or 200 below the head, or brought at most one message:
  `PulledInOrderIff`. A first pull of a conversation with at most 200 messages so far therefore shows the log
  upside down until a window is fetched: `FirstRoundOrder`, `FirstRoundInOrderIff`.
- A live push raises the cursor past messages not pulled yet, and no later pull fetches them: `LivePushGap`,
  `HeldInTheEndIff`.
- Merging keeps the copy already listed and so does not apply edits: `MergeIsUnion`.
- The authority window is decided by the date an edit carries or a listed copy has, not by the archived date:
  `ReplacementRefusedIff`, `RemovalKeepsRowIff`. A fetched window or an appended message rewrites an archived body
  however old it is: `HorizonForever` says what is left.
- Deleting a message listed under two conversations takes the archive row the other one still needs:
  `ArchivedStepIff`. With conversations fixed per message, as the server keeps them, it cannot happen:
  `ReachableStores`.
- Archive paging can skip a row when two rows of a conversation share a seq: `CompleteIff`.

## Model

| member | source | states |
|---|---|---|
| `AccountPoolRuns.ClaimsAlwaysAgree` | server/internal/auth/account_no_handler.go:279-343 | from any agreeing state, after any interleaving of draws, refreshes, registrations, grants, releases, sweeps and segment openings, a pool row is claimed by u only if u's account number is that row, every user whose number has a row claims it, and numbers are unique |
| `AccountPoolRuns.OneOwnerOneNumber` | server/internal/auth/handler.go:598-650 | from the seeded database, two claimed rows have the same owner exactly when they are the same row, and the owner's user record says that number |
| `AccountReservations.LiveAlwaysSound` | server/internal/auth/account_no_handler.go:46-79 | over runs without the release-by-number sweep, two unexpired selections never share a number and each of their numbers is unclaimed, unlocked and reserved at least until the selection expires |
| `AccountReservations.HeldIsNotDrawn` | server/internal/auth/account_no_handler.go:193-236 | no draw can pick a number of a live selection |
| `AccountReservations.SweepKeepsLiveIff` | server/internal/auth/cleanup.go:95-107 | the sweep keeps live selections sound exactly when no expired selection lists a number a live one holds |
| `AccountReservations.SweepCanPromiseTwice` | server/internal/auth/cleanup.go:95-121 | for any three full draws of segment 1 of which the second and third meet only in numbers of the first, there is a run, sweep included, after which two unexpired selections list the second and the third draw; with a number common to all three it is promised twice |
| `AccountReservations.HolderCanRegister` | server/internal/auth/account_no_handler.go:279-343 | whoever holds a live selection succeeds in registering with any number it lists |
| `AccountPremiums.LockedExactly` | server/internal/auth/account_no.go:98-206 | in every reachable state a row is locked exactly when its number is premium and no administrator granted or released it |
| `AccountPremiums.DrawnNumbers` | server/internal/auth/account_no_handler.go:193-236 | a drawn number has at least six digits, is in nobody's use, and if premium was granted or released before |
| `AccountPremiums.RegrantFreesThePremium` | server/internal/admin/handler.go:300-363 | after two successful grants to one user the first premium number is free for any draw |
| `AccountPremiums.PopulateCovers` | server/internal/auth/account_no.go:98-206 | filling a segment leaves each of its numbers in the pool or in use, adds only unclaimed rows flagged by the rule, changes no old row, and a second filling does nothing |
| `AccountDraws.DrawPastSome` | server/internal/auth/account_no_handler.go:193-236 | the draws of the runs are exactly the answers of the query for some set of rows locked by others: as many of the remaining candidates as there are, up to the limit |
| `AccountDraws.CapacityStock` | server/internal/auth/account_no_handler.go:241-273 | below 200 free numbers the segment after the highest is opened, and exactly its ordinary numbers nobody uses become free; from 200 on nothing changes |
| `AccountDraws.NoStockIff` | server/internal/auth/account_no_handler.go:193-273 | in every reachable state an undisturbed draw comes back empty exactly when no number was free and every ordinary number of the next segment is in use |
| `AccountDraws.AtMostThreeBatches` | server/internal/auth/account_no_handler.go:95-171 | over any run a selection gets another batch at most three times in its life, and its counter is the number of times it did |
| `AccountChanges.RegisterSucceedsIff` | server/internal/auth/account_no_handler.go:279-343 | in a sound state registering succeeds exactly for a number listed in an unexpired selection made from the same address |
| `AccountChanges.GrantSucceedsIff` | server/internal/admin/handler.go:300-363 | in every reachable state a grant succeeds exactly when the number is a locked pool row and the recipient number is positive and in use |
| `AccountChanges.OwnersChangeExactly` | server/internal/auth/handler.go:598-650 | a user has a number after any event exactly if the event gave it, or the user had it and was neither purged nor given another |
| `AccountChanges.SelectionsChangeExactly` | server/internal/auth/account_no_handler.go:46-171 | a selection is there after any event exactly if the event drew or renewed it so, or it was there and was not renewed, used or swept as expired |
| `AccountChanges.ReservationsChangeExactly` | server/internal/auth/account_no_handler.go:193-236 | after any event a pool row drawn by it is reserved for ten minutes, one given back is not, and any other keeps what it had |
| `AccountStore.Store.constructor` | migrations/000019_account_no_pool.up.sql:1-60 | the seeded tables: segment 1 open, pool and selections empty, the given users |
| `AccountStore.Store.ReserveRandomFromPool` | server/internal/auth/account_no_handler.go:193-236 | from the lowest open segment with stock, picks as many eligible rows as the limit allows among those not locked by others, all if there are fewer, and reserves exactly those for ten minutes |
| `AccountStore.Store.DrawAccountNumbers` | server/internal/auth/account_no_handler.go:46-79 | after topping up capacity, the draw, its selection and the stock and token-clash outcomes; undisturbed, with a fresh token and ten eligible rows, it is done with exactly ten numbers |
| `AccountStore.Store.RefreshAccountNumbers` | server/internal/auth/account_no_handler.go:95-171 | the refusals in order; a permitted refresh returns the old batch, excludes it, reserves the new one, counts itself and renews the expiry; undisturbed and with ten other eligible rows it gives exactly ten |
| `AccountStore.Store.ValidateAndConsumeSelection` | server/internal/auth/account_no_handler.go:279-343 | which of the error outcomes applies, nothing changed on error, and on success the row claimed, its siblings freed and the selection gone |
| `AccountStore.Store.RegisterAccount` | server/internal/auth/handler.go:598-650 | user insert and claim in one transaction: both happen or neither |
| `AccountStore.Store.GrantPremiumNumber` | server/internal/admin/handler.go:300-363 | every refusal changes nothing; success swaps the user's number for the premium one, unlocks it and frees the old row |
| `AccountStore.Store.ReleasePremiumNumber` | server/internal/admin/handler.go:379-398 | unlocks exactly a locked unclaimed row and reports whether there was one |
| `AccountStore.Store.Sweep` | server/internal/auth/cleanup.go:56-138 | the sweep's statements on these tables in order: purge of users, release by expired selections, stale reservations |
| `AccountStore.Store.Flush` | server/internal/auth/account_no.go:98-206 | a batch inserts its missing rows, flagged by the rule or the trigger, and no existing row changes |
| `AccountStore.Store.PopulateSegment` | server/internal/auth/account_no.go:98-206 | the batched loop fills the pool with exactly the missing numbers of the range, whatever the batch boundaries |
| `AccountStore.Store.EnsureSegmentCapacity` | server/internal/auth/account_no_handler.go:241-273 | opens and fills the next segment exactly when fewer than 200 numbers are free |
| `PremiumNumbers.HasSameTail` | server/internal/auth/account_no.go:38-49 | true exactly when the string has n characters and its last n are equal |
| `PremiumNumbers.IsLockedPattern` | server/internal/auth/account_no.go:27-33 | for every integer, the digit test is an arithmetic condition; for n from 0 on: at least 100000 and the last four digits a multiple of 1111 |
| `PremiumNumbers.SegmentsPartition` | server/internal/auth/account_no_handler.go:257-272 | segments are contiguous and disjoint and cover every number from 100000 up |
| `PremiumNumbers.TenLockedPerSegment` | server/internal/auth/account_no.go:27-49 | every segment holds exactly ten premium numbers |
| `PremiumNumbers.TriggerMatchesRule` | migrations/000023_premium_lock_trigger.up.sql:16-41 | the database trigger and the Go rule agree on a number of four digits or more exactly when it is a pool number or not a repdigit tail |
| `Decimal.ParsePositiveInt` | server/internal/auth/account_no_handler.go:362-377 | empty, non-digit and overflow errors in the source's order, otherwise the value; no intermediate value leaves 64 bits |
| `Decimal.FormatInt` | server/internal/auth/account_no_handler.go:379-400 | the decimal numeral for every 64-bit integer but the least, for which it is a dash; the 20-byte buffer suffices |
| `Decimal.ParseOfFormat` | server/internal/auth/account_no_handler.go:362-400 | parsing the numeral of n gives n for every n up to 2^53 |
| `Decimal.FormatOfParse` | server/internal/auth/account_no_handler.go:362-400 | printing the value of an accepted string gives the string without leading zeros |
| `Decimal.NumeralInjective` | server/internal/auth/account_no_handler.go:379-400 | different integers have different numerals |
| `LoginThrottle.AtMostEightPerWindow` | server/internal/auth/throttle.go:171-215 | in any run without a success for the key, every 15-minute window contains at most 8 checked wrong passwords |
| `LoginThrottle.AtMostEightPerClosedWindow` | server/internal/auth/handler.go:746-772 | with strictly increasing times the bound holds for windows closed at both ends |
| `LoginThrottle.EightAreReached` | server/internal/auth/throttle.go:192-207 | a run in which 8 wrong passwords get through in one window |
| `LoginThrottle.SweepsChangeNoAnswer` | server/internal/auth/throttle.go:151-167 | dropping all garbage sweeps from a run leaves every answer the same |
| `LoginLocks.SuccessForgets` | server/internal/auth/handler.go:746-772 | after a checked success, all later logins of the key are answered as if it had never failed, whatever came before |
| `LoginLocks.FiveCheckedAfterSuccess` | server/internal/auth/throttle.go:192-215 | the next five attempts after a success are checked, whatever their outcomes and however sweeps and other keys interleave |
| `LoginLocks.FiveLock` | server/internal/auth/throttle.go:171-208 | five failures within one window from a clear key lock it until exactly 15 minutes after the fifth, and the remaining time is what the answer says |
| `LoginLocks.KeysAreCanonical` | server/internal/auth/throttle.go:217-232 | a key has no spaces, tabs or ASCII capitals |
| `LoginLocks.CanonicalIsKey` | server/internal/auth/throttle.go:217-232 | a login without them is its own key |
| `LoginThrottle.NormalizeLoginKey` | server/internal/auth/throttle.go:217-232 | spaces and tabs dropped, ASCII letters lowered |
| `LoginThrottle.LoginGuard.IsLoginLocked` | server/internal/auth/throttle.go:171-190 | the answer and remaining time, and the expired bucket it deletes on the way |
| `LoginThrottle.LoginGuard.RecordLoginFailure` | server/internal/auth/throttle.go:192-208 | the bucket opened, counted up or locked |
| `LoginThrottle.LoginGuard.RecordLoginSuccess` | server/internal/auth/throttle.go:210-215 | the key's bucket removed, no other |
| `LoginThrottle.LoginGuard.LogIn` | server/internal/auth/handler.go:746-772 | the lockout gate around the password check: refused and unchanged while locked; a checked success leaves no bucket for the key, a failure leaves one, other outcomes only drop an expired one, and other keys keep theirs |
| `LoginThrottle.LoginGuard.SweepStale` | server/internal/auth/throttle.go:151-167 | keeps exactly the buckets still locked or still inside their window |
| `IpThrottle.FewerThanTwiceTheLimit` | server/internal/auth/throttle.go:66-83 | any 24-hour window, both ends included, admits at most 2 x limit - 1 actions per address and action, and none for limit 0, whatever else happens |
| `IpThrottle.TwiceLessOneIsReached` | server/internal/auth/throttle.go:66-83 | for every limit from 1 on, a run that lets 2 x limit - 1 actions through in 24 hours |
| `IpThrottle.SweepsChangeNoAnswer` | server/internal/auth/throttle.go:42-64 | garbage sweeps anywhere in a run change no answer |
| `IpLimits.CountsUp` | server/internal/auth/throttle.go:66-83 | the action that opens a bucket and the later ones within a day are answered with counts 1, 2, 3 and so on, and refused exactly past the limit |
| `IpThrottle.DailyCap.HitIPDailyCap` | server/internal/auth/throttle.go:66-83 | the count and verdict of a hit and the new bucket |
| `IpThrottle.DailyCap.SweepStale` | server/internal/auth/throttle.go:42-64 | drops exactly the expired buckets and the addresses left without any |
| `Friendship.AlwaysWellShaped` | server/internal/friend/repo.go:48-192 | every pair stays in one of the seven status shapes over every run |
| `Friendship.ReachableTables` | server/internal/friend/repo.go:237-310 | friendship is symmetric, no request is pending both ways, a block stands alone, nobody is related to themselves |
| `Friendship.UngatedRequestIff` | server/internal/friend/handler.go:89-95 | a request made without the handler's block check keeps every pair in shape exactly when its target has not blocked the sender |
| `FriendshipChanges.FriendsAfterRun` | server/internal/friend/repo.go:48-310 | after any run from the empty table two users are friends exactly if some event was an accept of a pending request or a request that met the opposite pending one, and no later event removed or blocked |
| `FriendshipChanges.FriendsExactly` | server/internal/friend/repo.go:48-164 | the same for one event in any well-shaped table |
| `FriendshipChanges.PendingExactly` | server/internal/friend/repo.go:48-192 | a request is pending after an event exactly if the event made it, or it was and was not answered, withdrawn or cleared away |
| `FriendshipChanges.RejectedExactly` | server/internal/friend/repo.go:166-179 | a rejection with its date stands exactly if the event was it, or it stood and was neither asked over after seven days, nor overtaken by friendship, removal or block |
| `FriendshipChanges.BlockedExactly` | server/internal/friend/repo.go:280-312 | a block is there exactly if the event set it, or it was and the event is none of those that end it |
| `FriendshipChanges.DatesExactly` | server/internal/friend/repo.go:48-179 | a row keeps its date except when the request starts anew or is rejected |
| `FriendshipChanges.SentIffChanged` | server/internal/friend/handler.go:69-112 | a request is answered with Ok exactly when it changed the table |
| `Friendship.BlockEndsExactly` | server/internal/friend/repo.go:280-310 | a block survives an event exactly when it is not the blocker's unblock, either side's removal or the other side's block |
| `Friendship.NoNewRequestForAWeek` | server/internal/friend/repo.go:166-179 | after a rejection the sender has no pending request for 7 days unless Remove, Block or Unblock touches the pair |
| `Friendship.RequestAfterCooldown` | server/internal/friend/repo.go:48-135 | over a rejected row a request succeeds exactly from the seventh day on, and is pending or, with an opposite request waiting, accepted |
| `Friendship.FriendTable.SendRequest` | server/internal/friend/repo.go:48-135 | the new rows and outcome for any two rows, blocked ones included: auto-accept, cooldown and the overwriting of a block |
| `Friendship.FriendTable.HandleSendRequest` | server/internal/friend/handler.go:69-112 | the block gate before the request: a blocked pair changes nothing |
| `Friendship.FriendTable.AcceptRequest` | server/internal/friend/repo.go:137-164 | Ok exactly for a pending incoming request; then both directed rows are accepted, existing rows keep their dates and every other row is unchanged; else nothing changes |
| `Friendship.FriendTable.RejectRequest` | server/internal/friend/repo.go:166-179 | a pending incoming request rejected and its date renewed, else not found |
| `Friendship.FriendTable.CancelOutgoing` | server/internal/friend/repo.go:181-192 | a pending own request deleted, else not found |
| `Friendship.FriendTable.HandleRejectOrCancel` | server/internal/friend/handler.go:203-224 | rejects an incoming request, else cancels the outgoing one |
| `Friendship.FriendTable.RemoveFriend` | server/internal/friend/repo.go:237-250 | both rows gone, whatever they were |
| `Friendship.FriendTable.BlockUser` | server/internal/friend/repo.go:280-303 | own row blocked, reverse row gone |
| `Friendship.FriendTable.UnblockUser` | server/internal/friend/repo.go:305-312 | a blocked own row gone, any other kept |
| `Friendship.FriendTable.AreFriends` | server/internal/friend/repo.go:348-360 | true exactly when the directed row is accepted |
| `Friendship.FriendTable.IsBlockedEither` | server/internal/friend/repo.go:314-324 | true exactly when either row is a block |
| `GroupAccess.AlwaysSound` | server/internal/group/repo.go:67-142 | over every run of the group and channel operations, invite rotation included, the three membership tables stay in agreement for every group not archived, with one owner, a channel and bounded counts |
| `GroupAccess.ReachableGroups` | server/internal/group/repo.go:186-283 | from the empty database: members = readers of the group conversation = readers of each channel's; exactly one owner, the one on the row; members <= stored count <= maximum |
| `GroupAccess.DeleteKeepsReaders` | server/internal/group/repo.go:344-353 | deleting a group takes all its members and no reader of its conversations; for a group not archived those readers are exactly its former members |
| `GroupCounts.CountsAreExactIff` | server/internal/group/repo.go:545-603 | in every reachable state the stored count is the number of members plus the departures at which the owner of the group was a member, so it is exact exactly when there was none |
| `GroupCounts.CountGoesWrong` | server/internal/group/repo.go:545-603 | a run from the empty database after which a group of one member counts two |
| `GroupCounts.DepartureLosesCount` | server/internal/group/repo.go:545-603 | handing on or archiving a group widens the gap between stored count and members by one exactly when the leaving user was a member, and no other group's gap changes |
| `GroupChanges.MembersChangeExactly` | server/internal/group/repo.go:67-603 | every member row after any event: who comes in and as what, who goes, whose role changes, and nothing else |
| `GroupChanges.GroupsChangeExactly` | server/internal/group/repo.go:67-603 | every group row after any event: owner, stored count, archive flag and invite code |
| `GroupChanges.ReadersChangeExactly` | server/internal/group/repo.go:67-603 | a user reads a conversation after any event exactly if the event opened it to them, or they did and the event did not close it |
| `GroupChanges.ChannelsChangeExactly` | server/internal/channel/repo.go:43-245 | a channel is there after any event exactly if the event made it, or it was and was neither deleted, which takes a sibling, nor went with its group |
| `GroupChanges.PositionsChangeExactly` | server/internal/channel/repo.go:43-86 | only a reordering moves a channel; a new one gets 0 or the position of its event |
| `GroupChanges.EachAsAlone` | server/internal/group/repo.go:517-603 | in a departure every owned group ends as if it were handed on alone, in whatever order the loop takes them |
| `Succession.Departure` | server/internal/group/repo.go:517-603 | every owned group gets as owner its best-ranked remaining member (admins first, then seniority, then id) with the departed gone, or is archived and empty; all other groups are untouched |
| `Succession.DepartureIdempotent` | server/internal/group/repo.go:517-543 | a repeat call, in any order of groups, changes nothing |
| `ChannelOrder.ReorderLists` | server/internal/channel/repo.go:139-219 | afterwards the listing is the requested valid ids once each, then the rest in their old order, at positions 0, 1, 2, ...; other groups unchanged |
| `ChannelOrder.RequestedOrder` | server/internal/channel/repo.go:160-190 | requested channels keep the order in which the request first mentions them |
| `ChannelOrder.CreateAppends` | server/internal/channel/repo.go:50-64 | a new channel comes last in the listing |
| `GroupStore.Store.CreateGroup` | server/internal/group/repo.go:67-142 | group, owner row, default channel and conversation rows appear together, or a taken code changes nothing |
| `GroupStore.Store.JoinByInvite` | server/internal/group/repo.go:186-239 | unknown code, full group, existing member, or the member added to all three tables and the count |
| `GroupStore.Store.LeaveGroup` | server/internal/group/repo.go:241-284 | the owner and non-members are refused and nothing changes; else the user is no member and no reader of the group conversation or any of its channels', the count is one lower, and every other row is as it was |
| `GroupStore.Store.KickMember` | server/internal/group/repo.go:449-502 | the same for a kick, with the new invite code; its refusals, a taken code among them, change nothing |
| `GroupStore.Store.RotateInviteCode` | server/internal/group/repo.go:401-415 | the new code on that group alone; unknown group and taken code change nothing |
| `GroupStore.Store.TransferOwner` | server/internal/group/repo.go:359-399 | roles and owner swapped, or nothing changed when the target is no member |
| `GroupStore.Store.SetRole` | server/internal/group/repo.go:430-447 | the role set, the owner excepted |
| `GroupStore.Store.TransferOneGroup` | server/internal/group/repo.go:545-603 | one group handed to the best-ranked remaining member or archived |
| `GroupStore.Store.TransferOwnershipForLeavingUser` | server/internal/group/repo.go:517-543 | the loop over the owned groups, in some order, is the succession specification |
| `GroupStore.Store.RemoveGroup` | server/internal/group/repo.go:344-353 | the group, its members and its channels gone, conversations kept, or not found |
| `GroupStore.Store.CreateChannel` | server/internal/channel/repo.go:43-86 | the channel at the next position, its conversation open to exactly the group's members |
| `GroupStore.Store.DeleteChannel` | server/internal/channel/repo.go:221-245 | unknown and last channel refused, else the row gone |
| `GroupStore.Store.ListByGroup` | server/internal/channel/repo.go:88-105 | the channels by position, then id |
| `GroupStore.Store.ReorderChannels` | server/internal/channel/repo.go:139-219 | the two position loops compute the reorder specification |
| `MessageLog.NeverIssuedTwice` | server/internal/message/repo.go:126-162 | no run, deletions and sweeps included, hands out a (conversation, seq) twice |
| `MessageLog.ReachableLogs` | server/internal/message/repo.go:126-162 | in every reachable state rows are ordered by id and, within a conversation, by seq below the counter; pins point to rows; a last-message pointer is the newest survivor or dangles |
| `MessageLog.SweepRepairs` | server/internal/message/cleanup.go:58-104 | a sweep removes exactly the unpinned rows past the cutoff, keeps counters and pins, and if it removed any leaves every pointer at the newest survivor |
| `MessageLog.SweepLeavesDangling` | server/internal/message/cleanup.go:79-104 | after a sweep a pointer dangles exactly when one did before and there was nothing to sweep |
| `MessageLog.NewestSurvives` | server/internal/message/repo.go:200-209 | a pointer whose row survives a deletion still points to the newest row |
| `MessageChanges.RowsChangeExactly` | server/internal/message/repo.go:126-209 | a row is there after any event exactly if the event inserted it with the next id and seq and the given text and time, or it was and was neither deleted nor swept as old and unpinned |
| `MessageChanges.CountersChangeExactly` | server/internal/message/repo.go:126-162 | counters start at 0 and grow by one an insert; nothing else moves them |
| `MessageChanges.PinsChangeExactly` | server/internal/message/repo.go:359-384 | a pin is there exactly if the event set it on a live message, or it was and was neither lifted nor deleted with its message |
| `MessageChanges.PointersChangeExactly` | server/internal/message/repo.go:126-162 | outside sweeps a pointer moves only to the row an insert puts into its conversation |
| `MessageQueries.PagesAfterListAll` | server/internal/message/repo.go:474-498 | following ListAfter page by page, with any limit, lists each survivor above the cursor once, oldest first |
| `MessageQueries.PagesBeforeListAll` | server/internal/message/repo.go:534-561 | following ListRecent page by page, with any limit, lists each survivor once, newest first |
| `MessageQueries.AroundIsContiguous` | server/internal/message/repo.go:502-531 | ListAround is one unbroken stretch of the surviving log, no longer than twice the window, with the target in it |
| `MessageChanges.PageUp` | server/internal/message/repo.go:474-498 | a page upwards is the first survivors above the cursor in ascending order, as many as the limit in force or all |
| `MessageChanges.PageDown` | server/internal/message/repo.go:534-561 | a page downwards is the last survivors below the cursor, newest first, as many as the limit in force or all |
| `MessageChanges.AroundIsTwoPages` | server/internal/message/repo.go:502-531 | the window around a seq is the page before it turned round and the page from it on |
| `MessageQueries.NewestIsHighest` | server/internal/message/cleanup.go:89-97 | the repaired pointer is a row exactly when no row of the conversation has a higher seq |
| `MessageQueries.Clamp` | server/internal/message/repo.go:474-477 | the page size in force is the requested one from 1 to the cap and the default otherwise |
| `MessageStore.Store.EnsureConversation` | server/internal/message/repo.go:23-49 | creates the counter at 0 and the pointer, and resets neither |
| `MessageStore.Store.Insert` | server/internal/message/repo.go:126-162 | counter, row and pointer change together; without a counter nothing changes |
| `MessageStore.Store.Delete` | server/internal/message/repo.go:200-209 | the row and its pins gone, or not found |
| `MessageStore.Store.Pin` | server/internal/message/repo.go:359-371 | pinned, already pinned, or no such message |
| `MessageStore.Store.Unpin` | server/internal/message/repo.go:373-384 | unpinned, or there was no pin |
| `MessageStore.Store.SweepRetention` | server/internal/message/cleanup.go:58-104 | the delete and the conditional repair, with the row count |
| `MessageStore.Store.ListAfter` | server/internal/message/repo.go:474-498 | a forward scan that stops at the limit yields the query's answer |
| `MessageStore.Store.ListRecent` | server/internal/message/repo.go:534-561 | a backward scan that stops at the limit yields the query's answer |
| `MessageStore.Store.ListAround` | server/internal/message/repo.go:502-531 | the two half-windows joined in ascending order |
| `CatchUp.CatchUpProgress` | client/src/sync/engine.ts:31-43 | from a non-zero cursor, after n rounds the client holds exactly what it held and the first 200n missing messages, once each, and its cursor is the last of them |
| `CatchUp.CatchUpTerminates` | client/src/sync/engine.ts:31-43 | with k missing messages round n + 1 is productive exactly when 200n < k; once it is not, everything missing is held, each id once, and further rounds change nothing |
| `CatchUp.FirstRound` | client/src/sync/engine.ts:36-40 | from cursor 0 one round fetches every survivor among the newest 200 seqs |
| `CatchUp.LastNeverFalls` | client/src/sync/engine.ts:31-43 | no number of rounds lowers the cursor |
| `CatchUp.CursorNeverFalls` | client/src/sync/seqStore.ts:46-53 | no run of the store's actions lowers a cursor |
| `CatchUp.PulledRows` | server/internal/message/handler.go:580-592 | whichever query the handler picks, a pull returns only rows of the conversation above the cursor |
| `CatchUp.AppendAllEffect` | client/src/store/chatStore.ts:177-190 | appending a page adds just its ids, each once, and raises the cursor to its highest seq, in whatever order the page comes |
| `CatchUp.SkippedStaysOut` | client/src/sync/engine.ts:31-43 | a message at or below the cursor and not held is never pulled by any number of rounds |
| `CatchUp.HeldInTheEndIff` | client/src/sync/engine.ts:31-43 | from a non-zero cursor a surviving message is held after enough rounds exactly when it was held before or lies above the cursor |
| `CatchUp.LivePushGap` | client/src/store/chatStore.ts:178 | after a live push, what lies between the old cursor and the pushed seq is never pulled |
| `CatchUpOrder.CatchUpShows` | client/src/sync/engine.ts:31-43 | if none of the missing messages was held, after n rounds the list is the old one followed by the first 200n of them in log order |
| `CatchUpOrder.FirstRoundOrder` | server/internal/message/handler.go:580-592 | with no cursor the list after the first round is the log above head minus 200, oldest first, when the head exceeds 200, and otherwise the whole log in reverse |
| `CatchUpOrder.PulledInOrderIff` | server/internal/message/handler.go:580-592 | a pull comes oldest first exactly when its cursor is not 0 or it brings at most one message |
| `CatchUpOrder.FirstRoundInOrderIff` | client/src/sync/engine.ts:31-43 | an empty list is shown oldest first after a round exactly when there was a cursor, the head exceeds 200, or at most one message came |
| `CatchUpOrder.OpenedWindow` | client/src/store/chatStore.ts:147-156 | showing the newest window of a conversation shows the log's tail, oldest first |
| `SyncEngine.SyncAllEach` | client/src/sync/engine.ts:29-43 | a sync over several conversations leaves each as its own round would, and the others as they were |
| `SyncEngine.Engine.SyncAllConversations` | client/src/sync/engine.ts:21-52 | the pull loop, deciding by the cursors read at its start, performs one round per conversation |
| `ChatMerge.MergeIsUnion` | client/src/store/chatStore.ts:161-175 | a merge is sorted by seq, has no id twice, has the union of the ids, keeps every copy it had and takes others from the batch |
| `ChatMerge.MergeOrderFree` | client/src/store/chatStore.ts:161-175 | agreeing batches with unique seqs merge to one and the same list in any order and any multiplicity |
| `ChatMerge.MergeAllElements` | client/src/store/chatStore.ts:161-175 | after merging agreeing batches the list holds exactly their messages and the old ones, strictly ascending in seq |
| `ChatMerge.SortSorts` | client/src/store/chatStore.ts:172 | the sort permutes, orders by seq and keeps the order of equal seqs |
| `ChatMerge.SortIsUnique` | client/src/store/chatStore.ts:172 | any sorted list with the same messages per seq in the same order is that one |
| `ChatChanges.MergeShows` | client/src/store/chatStore.ts:161-175 | the merge action itself shows a list sorted by seq with the union of the ids, each once, keeps the copies it had, caches the last 50, and leaves other conversations alone |
| `ChatChanges.MergingIsOrderFree` | client/src/store/chatStore.ts:161-175 | a run of merge actions with agreeing batches leaves one and the same list in any order and multiplicity: all their messages and the old ones, strictly by seq |
| `ChatChanges.SetShows` | client/src/store/chatStore.ts:147-156 | a fetched window is shown turned round |
| `ChatChanges.AppendShows` | client/src/store/chatStore.ts:177-190 | a new message goes to the end of its list; a known one changes no list |
| `ChatChanges.ReplaceShows` | client/src/store/chatStore.ts:192-217 | an edit takes the place of the first listed copy unless its date is past the window; nothing else in the list changes |
| `ChatChanges.ReactShows` | client/src/store/chatStore.ts:257-266 | a reaction update changes the reactions of the first listed copy and nothing else |
| `ChatChanges.RemoveShows` | client/src/store/chatStore.ts:232-255 | a deletion takes out the listed copy and leaves the others in order |
| `ChatChanges.OthersShow` | client/src/store/chatStore.ts:147-266 | no action touches the list or cache of another conversation |
| `ChatChanges.HydrateShows` | client/src/store/chatStore.ts:326-330 | hydrating brings back only what memory lacks; a restart loses memory alone |
| `ChatChanges.CursorsChangeExactly` | client/src/store/chatStore.ts:177-190 | only an append moves a cursor, to its seq if that is higher |
| `ChatChanges.ArchiveChangesExactly` | client/src/store/chatStore.ts:147-255 | after any action whose batch repeats no id, what it writes has its new body and the fixed part it first had, what a deletion in the window erases is gone, every other entry is as it was |
| `ChatLists.AlwaysNoRepeats` | client/src/store/chatStore.ts:147-255 | if fetched windows repeat no message, no list in memory or cache ever does |
| `ChatArchive.CacheAlwaysAgrees` | client/src/store/chatStore.ts:326-330 | over every run of the store's actions, restarts included, a loaded conversation's cache is the last 50 entries of its list |
| `ChatArchive.ArchivedStepIff` | client/src/store/chatStore.ts:219-243 | an action keeps every listed message archived exactly when it is not a deletion whose archive row another conversation's list still needs |
| `ChatArchive.ReachableStores` | client/src/store/chatStore.ts:147-255 | from the empty store, if a message's conversation, sender, type, seq and date never change, every message in memory or cache has its archive row with that fixed part, and caches agree |
| `ChatAuthority.HorizonHolds` | client/src/store/chatStore.ts:62-67 | no edit, recall or deletion changes or deletes the archive row of a message older than 30 days, if that message's copies and the event's carry the row's date |
| `ChatAuthority.DeletionSticks` | client/src/store/chatStore.ts:219-243 | a deletion inside the window leaves the message neither archived nor listed, and hydrating after a restart does not bring it back |
| `ChatAuthority.HorizonForever` | client/src/store/chatStore.ts:192-243 | nor does any later run whose copies of that message carry its date: the row stays, its fixed part stays, and its body changes only if the run fetches the message again |
| `ChatAuthority.AlwaysDated` | client/src/store/chatStore.ts:147-255 | a run whose copies of a message carry one date leaves no other date for it in any list, cache or archive row |
| `ChatAuthority.ReplacementRefusedIff` | client/src/store/chatStore.ts:192-204 | a replacement that would change the archived body is refused exactly when the date it carries is past the window |
| `ChatAuthority.RemovalKeepsRowIff` | client/src/store/chatStore.ts:232-255 | in any store a deletion leaves an archive row exactly when it is another message's, the message is not listed in that conversation, or the listed copy's date is past the window |
| `ChatStore.Store.SetMessages` | client/src/store/chatStore.ts:147-156 | list, cache and archive after a fetched window |
| `ChatStore.Store.MergeMessages` | client/src/store/chatStore.ts:161-175 | the dedupe loop archives and adds exactly the unseen messages, then sorts: the list is sorted by seq, has the union of the ids and keeps every copy it had |
| `ChatStore.Store.AppendMessage` | client/src/store/chatStore.ts:177-190 | cursor, archive, list and cache after an append, the list unchanged for a known id |
| `ChatStore.Store.ReplaceMessage` | client/src/store/chatStore.ts:192-217 | the gate, the archive write and the in-place replacement |
| `ChatStore.Store.RemoveMessage` | client/src/store/chatStore.ts:232-255 | the lookup, the archive decision and the filtered list |
| `ChatStore.Store.ApplyReactionUpdate` | client/src/store/chatStore.ts:257-266 | only the one message's reactions change, in list and cache |
| `ChatStore.Store.HydrateFromCache` | client/src/store/chatStore.ts:326-330 | cached lists come back for conversations not in memory |
| `ArchiveRows.ReadAfterStore` | client/electron/archive.ts:231-251 | a row read back says what was stored; the message comes back identical exactly when its body is present and its mentions and edit count are not the empty list and zero |
| `ArchiveRows.UpsertIsPut` | client/electron/archive.ts:149-170 | through encryption and JSON, an upsert keeps an existing row's fixed columns and replaces its body, whatever the nonce |
| `ArchiveRows.SameEntrySameColumns` | client/electron/archive.ts:231-251 | rows the archive writes are determined by what they say: same entry, same columns and same plaintext |
| `ArchiveRows.RecallMeaning` | client/electron/archive.ts:256-265 | recalling empties one entry's body and flags it; its fixed part, its other details and every other entry stay |
| `ArchiveTransfer.PutsEffect` | client/electron/archive.ts:399-415 | after importing any file: which ids exist, and for each the fixed part it had or the file's first and the body of the file's last |
| `ArchiveTransfer.ExportThenImport` | client/electron/archive.ts:353-415 | importing an export into an empty archive gives back every entry and no other |
| `ArchiveRuns.ExportThenImportColumns` | client/electron/archive.ts:353-415 | for any archive a run of upserts, recalls, removals and imports leaves: every stored column comes back, empty mentions and zero edit counts included; only the encryption differs |
| `ArchiveRuns.ExportThenReimportColumns` | client/electron/archive.ts:353-415 | and importing the export into its own archive changes no column and no plaintext |
| `ArchiveRuns.AlwaysCanonical` | client/electron/archive.ts:231-415 | over every run the archive holds only rows of the form the upsert and the recall write |
| `ArchiveTransfer.ExportThenReimport` | client/electron/archive.ts:353-415 | importing an export into its own archive changes no entry |
| `ArchiveTransfer.ImportTwice` | client/electron/archive.ts:399-415 | importing any file twice equals importing it once |
| `ArchivePaging.PagesListAll` | client/electron/archive.ts:278-314 | with unique seqs, following queryByConv with any limit returns every row of the conversation once, newest first |
| `ArchivePaging.PagesEnd` | client/electron/archive.ts:278-314 | paging ends after at most one page per row and an empty one, unique seqs or not |
| `ArchivePaging.CompleteIff` | client/electron/archive.ts:172-181 | paging is complete for every limit and every order of ties exactly when seqs are unique |
| `ArchivePaging.Clamp` | client/electron/archive.ts:282 | the page size in force is between 1 and 500: the requested one in that range, 1 below it and 500 above it |
| `ArchiveStore.Archive.AppendMessage` | client/electron/archive.ts:231-251 | the table after an upsert |
| `ArchiveStore.Archive.MarkRecalled` | client/electron/archive.ts:256-265 | the body overwritten by an empty object and the flag set, nothing else |
| `ArchiveStore.Archive.Remove` | client/electron/archive.ts:271-274 | the row gone |
| `ArchiveStore.Archive.QueryByConv` | client/electron/archive.ts:278-314 | the answer is a page of the newest eligible rows, each decrypted |
| `ArchiveStore.Archive.MaxSeq` | client/electron/archive.ts:319-323 | the highest seq held, attained by a row, or 0 when there is none |
| `ArchiveStore.Archive.ExportAll` | client/electron/archive.ts:353-393 | every row once, decrypted, by conversation and then seq, and as many as reported |
| `ArchiveStore.Archive.ImportMessages` | client/electron/archive.ts:399-415 | the loop of upserts is the import specification; a file without a message list changes nothing |
| `Reactions.ToggleTracksServer` | client/src/components/ChatView.tsx:652-670 | if the chips showed the server's summary, then after the optimistic toggle they show the summary of the server's rows after the request it sends |
| `Reactions.RequestFlips` | client/src/components/ChatView.tsx:652-670 | the request flips the user's own reaction on the server and no other row |
| `Reactions.ToggleTwice` | client/src/components/ChatView.tsx:652-670 | two toggles restore the reactions, up to order |
| `Reactions.CountIsUsers` | server/internal/message/repo.go:315-345 | a summary entry's count is its number of distinct users and is positive |
| `Reactions.SummariesAgree` | server/internal/message/repo.go:238-345 | any two summaries of one table hold the same entries, so the single and the batched query agree on every message |
| `ReactionStore.Store.AddReaction` | server/internal/message/repo.go:292-301 | the row present afterwards, and whether it was new |
| `ReactionStore.Store.RemoveReaction` | server/internal/message/repo.go:303-311 | the row gone afterwards, and whether it was there |
| `ReactionStore.Store.SummariseReactions` | server/internal/message/repo.go:315-345 | the tally loop yields the message's summary: one exact entry for each emoji, in the order in which the rows first show it |
| `ReactionStore.FirstSeenSorted` | server/internal/message/repo.go:317-322 | rows sorted by emoji, in whatever order of texts, give a summary sorted the same way |
| `ReactionStore.Store.AttachReactions` | server/internal/message/repo.go:238-289 | the batched tally yields the summary of every listed message for any order of rows and of the map |
| `Playlist.RewritePlaylist` | deploy/server02/njs/hls.js:133-145 | the in-place loop rewrites each line by the line rule |
| `Playlist.RewriteKeepsLines` | deploy/server02/njs/hls.js:133-145 | for a query string without line feed: the line count stays, blank and # lines are untouched, a URI gets `&` if it has a question mark and `?` if not, then the query, then its line ending; a clean query keeps line endings and kinds |
| `Playlist.QueryIsAdded` | deploy/server02/njs/hls.js:133-145 | a URI keeps its path, and its query gains the added parameters at the end or is them |
| `Playlist.StripUndoes` | deploy/server02/njs/hls.js:133-145 | stripping the added characters from the URI lines recovers the playlist |
| `Playlist.StripUndoesIff` | deploy/server02/njs/hls.js:133-145 | it does for every playlist exactly when the query string has no line feed and does not end in a carriage return |
| `Playlist.BaseKeyRecoversIff` | deploy/server02/njs/hls.js:152-158 | the base key of key-N is the key exactly when the key is not empty and has no line terminator |

## Left out

- Interleavings inside a transaction (row locks, read-committed anomalies): a transaction is one step; which rows a
  draw skips because others hold them locked is a parameter.
- The randomness of the draw: any choice of eligible rows from the lowest segment with stock is allowed; tokens and
  invite codes are parameters, and a clash is an outcome.
- AccountStore.Store.RegisterAccount: usernames, emails and passwords, and the refusals of a taken username or email.
- AccountStore.Store.Sweep: the purge of expired verification tokens; which unverified users it drops is a parameter.
- The log lines and the count check of `verifyLockedCount` (`server/internal/auth/account_no.go:218-242`).
- LoginThrottle: the password check itself; its outcome is a parameter. Bytes are modelled as characters.
- IpThrottle: `peekIPDailyCap` and `rollbackIPDailyCap`, which nothing calls in the modelled flows.
- GroupStore.Store: group names, avatars, notification modes and renaming, which no membership rule reads.
- GroupStore.Store.TransferOwnershipForLeavingUser: one transaction per group; the model runs them back to back.
- MessageStore.Store.Insert: sender, type, mentions and replies; the body is one opaque value, and edits and recalls,
  which change only it, are not operations of the log.
- MessageStore.Store.Pin: the handler's cap on pins per conversation.
- MessageLog: removal of conversation rows; the counter row is never deleted by the code.
- CatchUp: the `inflight` promise that coalesces concurrent triggers, network errors, and changes of the server's
  tables between the rounds of one catch-up.
- ChatState: pins, mute flags, read receipts, unread marks and the sidebar state; storage quota errors, and a client
  without an archive.
- ArchiveRows: AES-GCM and JSON are pairs of functions assumed inverse; nonces are parameters and their uniqueness is
  not modelled. JSON numbers are integers.
- ArchiveStore.Archive.ExportAll: the file on disk; texts are compared character by character.
- ArchivePaging.Clamp: limits that are not whole numbers.
- ReactionStore.Store: creation times and the database's collation of emoji; the rows of a query are a parameter.
- Playlist: token verification and the HTTP handlers around it.
