# YouTube likes listener — like detection and notification, modelled in Dafny

The backend watches the YouTube "liked videos" list of every active user.
The first time it sees a user's list, it records that list as the user's
baseline. On later polls it reports the likes missing from the baseline and
adds them to it. One polling cycle runs every active user through this
tracker. It filters each user's new likes: Shorts (at most 60 s) and videos
over 6 minutes are dropped. It drops likes that already have a download
record, then reports the rest per user and stores each one as a pending
download. Notifications go to each user's device over Firebase Cloud
Messaging. A device token the transport rejects as unregistered or invalid
deactivates the user. Sign-in creates or reactivates a user profile from a
verified Google identity token.

The model is a set of pure functions over an immutable `Store`. The store
holds the user references, one optional-field profile document per user,
and the download records. Each outside effect is a parameter:

- the listing fetch (`Fetch`): a refresh failure, an API failure, or the listed items;
- the transport's answer (`SendOutcome`);
- whether a write, scan or read is accepted (a `bool`, or a `string -> bool` per user);
- which store call of a turn throws (`UserRun.fault`);
- the clock (`now`).

Modules, one file each:

- `Wrappers`: `Option` and `Result`.
- `Seqs`: the order-preserving filter, the subsequence relation, and distinctness.
- `Strings`: `includes`, decimal digits, and the backslash-n unescape.
- `Types`: `User`, `Download`, `DownloadStatus` and `LikedVideo`.
- `Config`: environment settings and their validation.
- `Videos`: ISO 8601 durations, the Short and too-long classes, the video filter, the item conversion and chunking.
- `Store`: the Firestore-backed store operations.
- `Baseline`: the per-user tracker `checkNewLikesForUser`.
- `Polling`: the cycle `checkAllUsersForNewLikes`.
- `Notify`: the FCM service.
- `Auth`: the sign-in service.

## Model

| member | source | states |
|---|---|---|
| Strings.IndexOfFrom | services/YouTubeService.ts:276 | the position found is the first occurrence of the pattern at or after the start; no position means no occurrence at all (the search behind `includes`) |
| Strings.ContainsWhenMatched | services/FCMService.ts:91-93 | a message that holds a marker anywhere is found to contain it |
| Strings.NatToString | services/FCMService.ts:61 | `toString` of a count gives a non-empty digit string with no leading zero whose decimal value is the count |
| Strings.DigitRunOfDigits | services/YouTubeService.ts:44 | the `\d+` run read at a position is exactly the digits placed there, whatever follows that is not a digit |
| Strings.OrElse | services/AuthService.ts:61-63 | JavaScript's `\|\|` on strings: a non-empty value is used, the fallback otherwise (a missing value is read as empty) |
| Strings.UnescapeNewlines | common/config.ts:25 | replacing every backslash-n leaves no backslash-n in the result and never lengthens the text |
| Strings.UnescapeSplit | common/config.ts:25 | each backslash-n becomes exactly one newline, and the text on either side is unescaped as it would be alone; with `UnescapeIdentity` this fixes the result for every input |
| Strings.UnescapeIdentity | common/config.ts:25 | a value without backslash-n escapes passes through the replacement unchanged |
| Types.ParseStatus | common/types.ts:19 | a stored status name parses only to the status of that name |
| Types.StatusRoundTrip | common/types.ts:19 | parsing a status's name gives the status back, and exactly the four names parse |
| Types.VideoIds | services/FCMService.ts:53 | the id list has one entry per video, in order |
| Types.VideoIdsSuffix | services/YouTubeService.ts:262 | the ids of the videos from position k on are the id list from position k on |
| Config.LoadSettings | common/config.ts:23-40 | the project id is never empty (it defaults to `airtel-migration`), the private key holds no backslash-n escape, and the YouTube and Google client credentials are the same variables |
| Config.PrivateKeyUnescaped | common/config.ts:25 | the loaded key has no escapes left, and an unescaped key is loaded verbatim |
| Config.PrivateKeyEscapes | common/config.ts:25 | a stored key with a backslash-n loads with a real newline in its place and each side unescaped |
| Config.MissingOf | common/config.ts:53-56 | a name is reported exactly when its value is empty, in declaration order, and the report is empty exactly when every value is set |
| Config.ValidateConfig | common/config.ts:43-59 | validation fails exactly when some required value is empty, with the prefix and the missing names joined by a comma and a space |
| Config.MissingInDeclarationOrder | common/config.ts:44-51 | the missing names are a subsequence of the six required names in declaration order |
| Config.ProjectIdNeverMissing | common/config.ts:24 | `FIREBASE_PROJECT_ID` is never reported missing, because of its default |
| Videos.ParseDuration | services/YouTubeService.ts:43-52 | a duration without `PT` reads as 0 seconds |
| Videos.ParseFormatted | services/YouTubeService.ts:43-52 | `PT[hH][mM][sS]` after any text without `PT` reads as 3600h + 60m + s, with an absent group counting 0 |
| Videos.IsYouTubeShort | services/YouTubeService.ts:57-60 | a Short is a video whose parsed duration is at most 60 s |
| Videos.IsVideoTooLong | services/YouTubeService.ts:65-68 | an over-long video is one whose parsed duration exceeds 360 s |
| Videos.Keep | services/YouTubeService.ts:116-130 | the filter's test: not flagged as a Short, and no non-empty duration that is too long |
| Videos.ClassesDisjoint | services/YouTubeService.ts:57-68 | no duration is both a Short and too long, and an unreadable duration counts as a Short |
| Videos.FilterValidVideos | services/YouTubeService.ts:115-131 | a video is kept exactly when it is not a Short and has no duration or one of at most 360 s; kept videos keep their multiplicity and order |
| Videos.ToLikedVideo | services/YouTubeService.ts:220-233 | the video keeps the item's id, always has a title, and is a Short exactly when it has a duration of at most 60 s |
| Videos.ToLikedVideos | services/YouTubeService.ts:221-235 | one converted video per item, in order |
| Videos.ChunkArray | services/YouTubeService.ts:379-385 | the chunks concatenate back to the input, none is empty, none is longer than the size, and all but the last are full |
| Store.ReadUser | services/DatabaseService.ts:53-61 | the user read from a profile is active unless the stored flag is exactly false, and never carries the initialisation flag or the baseline |
| Store.Merge | services/DatabaseService.ts:72-79 | the merge-write: supplied fields win, the others are kept, and the sync time is the supplied one or now |
| Store.MergeLaws | services/DatabaseService.ts:72-79 | writing the same patch twice stores the same as writing it once, and an empty patch only refreshes the sync time |
| Store.GetUser | services/DatabaseService.ts:45-66 | a user is found exactly when the profile document exists, and is read from that document |
| Store.CreateOrUpdateUser | services/DatabaseService.ts:68-85 | each supplied field overwrites, each other field is kept, the sync time is the supplied one or now, and only this user's document changes |
| Store.ActiveIds | services/DatabaseService.ts:87-121 | the listed ids are exactly the referenced users with an active profile, in listing order, without repeats |
| Store.GetAllActiveUsers | services/DatabaseService.ts:87-121 | the active users are those ids in order, each equal to what `getUser` reads, active and without a baseline |
| Store.ActiveUserListed | services/DatabaseService.ts:96-112 | every referenced user with an active profile is listed |
| Store.ListedUserActive | services/DatabaseService.ts:96-112 | every listed user is referenced, has an active profile and is read from it |
| Store.UpdateUserSyncTimestamp | services/DatabaseService.ts:123-132 | the update fails exactly when the document is missing; otherwise only the sync time changes |
| Store.FindDownload | services/DatabaseService.ts:137-146 | the index found is the first record for this user and video; no index means no such record |
| Store.GetDownload | services/DatabaseService.ts:135-161 | a record is returned exactly when one exists for the pair, and it is a stored record for that pair |
| Store.CreateDownload | services/DatabaseService.ts:163-174 | the record is appended and is then found by `getDownload` |
| Store.UpdateDownloadStatus | services/DatabaseService.ts:176-204 | a failed query, or a failed update of a found record, throws 'Impossible de mettre à jour le status'; otherwise only the first matching record changes: it gets the status, and the path when a non-empty one is given; without a match nothing changes |
| Store.UpdateThenGet | services/DatabaseService.ts:176-204 | after a status update the record read back carries the new status |
| Store.GetStats | services/DatabaseService.ts:234-264 | the counts are the references, the active users and the records; a failed read gives zeros |
| Baseline.RefreshFailureDeactivates | services/YouTubeService.ts:159-162 | every credential refresh failure carries the marker that deactivates the user |
| Baseline.OnFetchFailure | services/YouTubeService.ts:272-285 | a failed fetch reports nothing and changes the store only by deactivating the user, and only on a credential failure; a rejected deactivation write escapes the handler and the check throws the save error |
| Baseline.SeedBaseline | services/YouTubeService.ts:238-253 | the first listing becomes the baseline and the user is marked initialised; every other field of the user is kept, the sync time becomes now, and nothing is reported; a rejected write reports nothing and writes nothing |
| Baseline.NewLikes | services/YouTubeService.ts:256-258 | the new likes are exactly the listed videos whose id is not in the baseline, in order and with multiplicity |
| Baseline.DiffBaseline | services/YouTubeService.ts:256-270 | the report is the new likes; when there are any, the baseline grows by their ids in order, every other field of the user is kept and the sync time becomes now; otherwise nothing is written |
| Baseline.CheckNewLikesForUser | services/YouTubeService.ts:190-286 | no token, an empty listing or a failure reports nothing; a first listing seeds the baseline; later listings are diffed; only this user's profile can change; it throws exactly when a credential failure's deactivation write is rejected |
| Baseline.KnownListingReportsNothing | services/YouTubeService.ts:256-267 | a listing whose every id is in the baseline reports nothing and writes nothing |
| Baseline.SeedThenRecheck | services/YouTubeService.ts:238-270 | after seeding, checking the same listing for the user together with the stored flag and baseline (which no store read returns; see Polling.CheckAllNeverReports for the code as written) reports and writes nothing |
| Baseline.DiffThenRecheck | services/YouTubeService.ts:256-267 | after a diff the extended baseline makes the same listing report nothing |
| Baseline.NewLikesAfterPrefix | services/YouTubeService.ts:256-258 | when the known videos form a prefix of the listing, the new likes are the rest of it |
| Baseline.NewLikesOfFive | services/YouTubeService.ts:256-258 | listing A..E against baseline A, B, C reports D and E |
| Baseline.GrowingSnapshot | services/YouTubeService.ts:256-270 | a diff of A..E against A, B, C reports the videos D and E |
| Baseline.GrowingSnapshotBaseline | services/YouTubeService.ts:260-266 | after that diff the stored baseline is A..E |
| Baseline.ShrinkingSnapshot | services/YouTubeService.ts:256-267 | an unliked video is never reported, and a shrinking listing writes nothing |
| Polling.Dedup | services/YouTubeService.ts:310-322 | the unique likes are exactly the diff's likes that pass the filter and have no record for the user, in diff order |
| Polling.Record | services/YouTubeService.ts:324-341 | a non-empty batch gets a map entry; records are created for a prefix of it, all of it and then the sync update without a fault |
| Polling.AfterDiff | services/YouTubeService.ts:308-341 | a non-empty diff is filtered and de-duplicated, its entry is the unique likes, and the records and sync follow unless a store call throws |
| Polling.ProcessUser | services/YouTubeService.ts:303-346 | a turn with no new likes changes nothing more; a non-empty diff goes on to filtering, de-duplication, record creation and the sync-time update; a tracker that throws is caught and the turn changes nothing |
| Polling.ProcessUserRecords | services/YouTubeService.ts:328-337 | a turn only appends pending records, one for each of a prefix of the reported likes |
| Polling.ProcessUserFrame | services/YouTubeService.ts:303-346 | a turn changes no other user's profile, and a well-formed store stays well-formed |
| Polling.ProcessUserReports | services/YouTubeService.ts:308-341 | the reported likes are new likes that pass the filter and have no record; without a store fault they are exactly those, and the sync time is updated exactly when the diff is non-empty |
| Polling.MapSetGet | services/YouTubeService.ts:325 | `Map.set` makes the key read back the value, leaves other keys alone, and adds an entry only for a new key |
| Polling.PollUsers | services/YouTubeService.ts:303-346 | the loop checks every user it is given |
| Polling.CheckAllUsersForNewLikes | services/YouTubeService.ts:291-359 | the cycle fails exactly when the active-user scan fails; otherwise it counts every active user |
| Polling.PollReports | services/YouTubeService.ts:303-346 | a cycle only appends records, and everything reported passes the filter and had no record when the cycle began |
| Polling.PollTotals | services/YouTubeService.ts:324-326 | the total is the sum of the reported lists, there is one entry per user, and no entry is empty |
| Polling.PollRecords | services/YouTubeService.ts:324-337 | without store faults, the records created are exactly one pending record per reported like, in report order |
| Polling.PollOnePerPair | services/YouTubeService.ts:312-337 | a store holding at most one record per user and video keeps that property through a cycle |
| Polling.ProcessUserOnePerPair | services/YouTubeService.ts:312-337 | one turn keeps at most one record per user and video |
| Polling.NoBaselineNoReport | services/YouTubeService.ts:238-253 | a user without a baseline is never reported and gets no record |
| Polling.CheckAllNeverReports | services/YouTubeService.ts:297-354 | because listed users never carry a baseline, a successful cycle reports nothing and creates no record |
| Polling.FailedFetchNoReport | services/YouTubeService.ts:272-285 | a user whose fetch fails is not reported and gets no record |
| Polling.OneNewLikeTurn | services/YouTubeService.ts:256-341 | baseline V1 with listing V1, V2 and a 2-minute V2 reports V2 and records it as pending |
| Polling.ThreeUserCycle | services/YouTubeService.ts:303-354 | a seeding user, a user with one new like and a user whose fetch times out give one reported like, for the second user only |
| Notify.BuildMessage | services/FCMService.ts:53-68 | the data message carries the token, the type, the title, the ids in order, the count as `toString` writes it, and a body quoting the single title or starting with that count |
| Notify.MarkUserAsInactive | services/FCMService.ts:185-195 | an accepted write sets only the active flag to false; a rejected one is swallowed and changes nothing |
| Notify.SendNotificationToUser | services/FCMService.ts:37-105 | a failed user read sends nothing, writes nothing and reports the read error; otherwise a message is sent exactly when the user exists, is active and has a token; success means delivery; a rejection reports the error and deactivates the user only for the two invalid-token markers |
| Notify.InvalidTokenStopsSends | services/FCMService.ts:87-96 | after an invalid-token rejection the user is no longer sent anything |
| Notify.OtherRejectionKeepsUser | services/FCMService.ts:87-104 | any other rejection leaves the store and the user's reachability unchanged |
| Notify.SendNotificationsToUsers | services/FCMService.ts:110-134 | one result per map entry, in order, for that entry's user and videos |
| Notify.BatchSuccesses | services/FCMService.ts:110-134 | the successes are at most the entries, and each one was a delivery |
| Notify.DispatchFrame | services/FCMService.ts:37-105 | one dispatch touches no download record and no other user's profile |
| Notify.DispatchLocal | services/FCMService.ts:37-105 | one dispatch depends only on its own user's profile: stores that agree on it give the same result and agree on it afterwards |
| Notify.BatchFrame | services/FCMService.ts:110-134 | a batch touches no download record and no profile of a user outside its map |
| Notify.BatchEntry | services/FCMService.ts:110-134 | with distinct users (the keys of a `Map`), each entry gets the result of its own dispatch against the starting store, and its user ends with that dispatch's profile |
| Notify.BatchDispatches | services/FCMService.ts:110-134 | a batch is its dispatches taken one by one: per-entry result and profile as above, success exactly for a delivered send to a readable reachable user, records and every other user unchanged |
| Notify.SendWithRetry | services/FCMService.ts:286-308 | at most `maxRetries` attempts, stopping at the first delivery; every earlier attempt failed; the i-th wait is `retryDelay * i`; after exhaustion the last error is raised |
| Notify.SendWithDefaultRetry | services/FCMService.ts:286-289 | with the configured 3 retries and 1000 ms delay, a failed send waits 1000 then 2000 ms and raises the third error |
| Notify.MarkedIds | services/FCMService.ts:255-261 | the users the clean-up marks are exactly the listed ones with a rejected token whose write is accepted |
| Notify.MarkInvalid | services/FCMService.ts:255-266 | the clean-up loop writes only profiles, never the download records |
| Notify.MarkInvalidProfiles | services/FCMService.ts:255-266 | the loop deactivates exactly the marked users, keeping their other fields, and leaves every other profile as it was |
| Notify.CleanupInvalidTokens | services/FCMService.ts:250-274 | the count is the number of active users with a token the validator rejects; a failed scan gives 0 and writes nothing |
| Notify.CleanupWrites | services/FCMService.ts:255-266 | clean-up deactivates exactly the counted users whose write is accepted, keeps their other fields, and touches no one else |
| Notify.CleanupLeavesValidTokens | services/FCMService.ts:250-274 | after a clean-up with accepted writes, no active user holds a rejected token |
| Notify.CleanupTwiceCountsZero | services/FCMService.ts:250-274 | a second clean-up right after one with accepted writes counts nothing |
| Notify.GetFCMStats | services/FCMService.ts:218-245 | the sent counters are 0, the token count is at most the number of active users, and a failed scan gives 0 |
| Notify.ActiveTokensReachable | services/FCMService.ts:227-228 | the token count is the number of listed users a notification would be sent to |
| Notify.CleanedCount | services/FCMService.ts:250-274 | the clean-up count is the number of listed active users with a rejected token |
| Notify.MarkedIffStale | services/FCMService.ts:255-261 | with accepted writes, a listed user is deactivated exactly when it is active with a rejected token |
| Notify.CleanupReachable | services/FCMService.ts:250-274 | after clean-up a user is reachable exactly when it was reachable and its token was not rejected |
| Notify.CleanupLowersTokenCount | services/FCMService.ts:218-274 | the token count after clean-up plus the clean-up count equals the token count before |
| Auth.HasYouTubePermissions | services/AuthService.ts:88-103 | permission holds exactly when the sign-in provider is Google or the identities hold a truthy Google entry |
| Auth.SyncPatch | services/AuthService.ts:59-66 | the sync write always activates the user, keeps the stored sync time (the epoch for a new user), and never touches the credential, flag or baseline |
| Auth.SyncUserWithDatabase | services/AuthService.ts:52-83 | the stored user is the token owner, active, with each string from the token, else the stored one, else empty; a failed first read or write changes nothing, a failed read-back keeps the write, and every failure becomes the sync error |
| Auth.VerifyAndSyncUser | services/AuthService.ts:171-207 | success exactly when the token verifies, carries Google permissions and every store call of the sync succeeds, with the distinct error for each failure and no write before the permission check |
| Auth.FailedRereadKeepsWrite | services/AuthService.ts:69-81 | when only the read-back fails, the sign-in is refused but the user is already written and active |
| Auth.DeactivateUser | services/AuthService.ts:113-124 | an accepted write sets only the active flag to false; a rejected one raises the deactivation error |
| Auth.UpdateFCMToken | services/AuthService.ts:129-140 | an accepted write replaces only the device token; a rejected one raises the update error |
| Auth.IsUserActiveAndValid | services/AuthService.ts:145-153 | true only for an existing active user with a device token; a failed read answers false |
| Auth.ValidIffReachable | services/AuthService.ts:145-153 | a user is valid exactly when a notification would be sent to it |
| Auth.SyncReactivates | services/AuthService.ts:52-83 | a sync after a deactivation puts the user back among the active users |
| Auth.DeactivateThenSync | services/AuthService.ts:59-66 | a sync after a deactivation gives the same user as without it, except for the sync time the deactivation wrote |
| Auth.SyncIdempotent | services/AuthService.ts:52-83 | a second identical sync changes nothing |
| Auth.TokenUpdateThenSync | services/AuthService.ts:129-153 | a new device token makes an active user valid, and a later sync without a token keeps it |

## Left out

- Network calls, timeouts, delays, logging and `JSON.stringify` are left out. Outside results are parameters, and the message carries the id list itself rather than its JSON text.
- `getVideoDetails` is modelled only through `Videos.ChunkArray` and `Videos.ToLikedVideo`; its batched API calls are I/O.
- `validateVideo`, `getAPIQuotaStats`, `getDownloadsByStatus`, `getUserRecord`, `sendTestNotification` and `initializeFirebase` are left out. Each is a thin wrapper around an external call, a constant, or a query with no logic of its own.
- `verifyFirebaseToken` and `validateFCMToken` are inputs: the decoded token (or none), and an `isValid` predicate on tokens.
- `common/responseHelpers.ts` is not part of this model. It only formats HTTP replies.
- Store reads that throw are modelled where the code catches them: the active-user scan of the polling cycle, of `getFCMStats` and of `cleanupInvalidTokens`; `getStats`; `isUserActiveAndValid`; the user read of `sendNotificationToUser`; the two reads of `syncUserWithDatabase`; and the per-user store faults of the polling loop. `getUser` and `getDownload` on their own are total.
- Store.CreateDownload, Store.CreateOrUpdateUser: total on their own; a rejected write is modelled at each caller that can see it (the per-user faults of the polling loop, the sync's write, `deactivateUser`, `updateFCMToken`, `markUserAsInactive`, the tracker's writes), not as an error result of the store function.
- Query order: `getDownload` and `updateDownloadStatus` take the first matching record with `limit(1)`. The model orders records by creation, while the store orders them by their random document ids, so when two records share a user and video the one chosen may differ.
- Polling.CheckAllUsersForNewLikes: uses one `now` for the whole cycle, where the code reads the clock at every record and sync update.
- Notify.SendNotificationsToUsers: does not model the outer `catch`, because `sendNotificationToUser` catches every failure itself and never throws.
- Videos.ParseDuration: reads digit groups as unbounded naturals; it does not model the precision loss of `parseInt` on numbers beyond 2^53.
- Videos.ChunkArray: requires a positive size. The only caller passes 50, and a size of 0 would loop forever.
- An unparseable duration: the code reads it as 0 seconds, which makes the video a Short that is filtered out. The model follows the code.
- The sync-time update: the code updates it exactly when the diff is non-empty, even when every like is then filtered out or already recorded. The model follows the code.
- The baseline under the orchestrator: `getAllActiveUsers` never reads `isInitialized` or `baselineVideoIds`. Every user it lists is therefore re-seeded on each cycle, and the cycle never reports a like. The model keeps this as written and proves it as `Polling.CheckAllNeverReports`. The tracker's own behaviour with a baseline is proved separately in `Baseline`.
