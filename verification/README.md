# ssoossh, modelled in Dafny

ssoossh gives hosts short-lived SSH certificates, and its NSS daemon serves the
directory's users and groups to a host through systemd's userdb interface. This
project models the parts of it whose correctness is not visible in one function
and proves what they promise. `dafny verify dfyconfig.toml` checks all of it.

**The daemon's cache** (`Types`, `Store`, `Negative`, `Contradictions`,
`Coherence`, `Invariant`, `Guarantees`, `Runs`, `Offline`, `Disagreement`,
`Displacement`, `Lifetimes`, `Refetching`, `Daemon`). A user record and a group
record both say who is in a group, and each is cached on its own. `Coherence`
gives every operation as a function from state to state; `Daemon.Service` is the
daemon as the source writes it, with tables changed in place and loops, and each
of its methods is proved to do what the function says and to keep the invariant.
A run is any sequence of lookups, background refreshes and invalidations, with
whatever the server, the clock and the host files say at each step. The
invariant (`Invariant.Inv`) is: every entry carries its own record's name and
id, names and ids are unique, nothing cached has a remembered miss under either
of its keys, a pair awaiting confirmation has left its group's list stale, and
misses and pairs stay within their bounds.

**The policy** (`LocalFiles`, `Policy`, `Passwd`): what the host lets through of
a record, which group names it lists, and what the name and path rules are for.

**The HTTPS client** (`Upstream`): when a lookup may be sent, what each status
means, how long each attempt gets, and the doubling backoff.

**The refresh queue** (`Refresher`), **the varlink framing** (`Varlink`), **the
principals map file** (`PrincipalsMap`, `PrincipalsMapFormat`,
`PrincipalsMapFlow`, `PrincipalsMapLines`), **the "did you mean" hint**
(`EditDistance`) and **the macOS policy property list** (`Plist`, `PlistTree`).
`Text` holds the string functions they share.

Main results:

- On every run a user's fetches turn a fresh group stale at most once, plus once
  for each eviction, departure, new joining or change of the group
  (`Disagreement.DisagreementCostsOneRefetch`). While the server keeps
  disagreeing with itself about a pair the turns are accounted for exactly
  (`Displacement.TurnsAreAccountedFor`): one, plus one for each time a confirmed
  list had been displaced from the cache when its next copy came. A confirmation
  is always about the list that is cached
  (`Disagreement.ConfirmationsAreOfTheCachedList`).
- On every run hits and misses are disjoint, a forgotten record is not
  resurrected, and every answer is the present policy's reading of the record
  asked for (`Runs`); a record and a miss last exactly as long as configured
  (`Lifetimes`); a mark, a contradiction and an invalidation each make the next
  lookup ask the server (`Refetching`).
- Losing the server loses no record, and the ways an entry leaves are exactly
  named (`Offline`).
- What is written to a principals map reads back if and only if no name in it is
  empty, and writing succeeds exactly for the strings that can be spelled
  (`PrincipalsMapFormat.Format`); what each line of a hand-written one means, and
  which are refused (`PrincipalsMapLines`).
- The table of the hint computes the length of the shortest edit script
  (`EditDistance.DistanceIsTheShortestScript`), the chunked reader sees what a
  reader of the whole stream sees (`Varlink.Decoder.Next`), the XML reader and
  the binary filter agree (`PlistTree.XmlAgreesWithBinary`), and the refresh
  queue loses, repeats and overtakes nothing (`Refresher.NothingIsLost`).

Five promises hold only under a condition. Each has an input that breaks it and
the exact condition:

- A lasting disagreement costs one extra group fetch as long as nothing displaces
  the group's list. `Displacement.PassingLocalGroupTurnsTwice` is a run of a
  fresh daemon that costs two: a local group of that name comes and goes. Without
  displacement there is at most one turn
  (`Displacement.UndisplacedDisagreementTurnsOnce`), an event is followed by
  another turn on some such run if and only if it displaced the list
  (`Displacement.TurnsAgainExactlyWhen`), and a run that ends with the pair held
  turns more than once if and only if it renews the pair often enough
  (`Displacement.TurnsTwiceExactlyWhen`). What displaces a list is read off the
  event (`Displacement.ListLeavesExactlyWhen`).
- What the attempts of one lookup are given sums to no more than its timeout
  exactly for the configurations in which attempts that fail at once, a pause
  apart, stay within it (`Upstream.AllotmentsFitExactlyWhen`). The defaults do
  not: 8.9 s of 5 s (`Upstream.EarlyFailuresAreAllottedTwice`). Attempts that use
  up their time always fit (`Upstream.ExhaustedAttemptsFitTheTimeout`).
- The backoff is `min(offline_timeout * 2^(k-1), 1h)` on every run of failures
  exactly when `offline_timeout` is at most an hour
  (`Upstream.CapHoldsExactlyWhen`): the first wait is not capped
  (`Upstream.FirstWaitIsNotCapped`).
- Every group name listed for a user leads to its own gid exactly when the local
  group file's names do; a name listed under two gids breaks it
  (`Policy.ListedNamesLeadHome`, `Policy.TwiceListedNameLeadsAstray`).
- An integer outside 64 bits is an error in an XML property list and skipped in a
  binary one; otherwise the two readings agree (`PlistTree.XmlAgreesWithBinary`).

## Model

| member | source | states |
|---|---|---|
| `Store.MemoryTable.Lookup` | nssd/cache/memory.go:32-47 | by name or by id, the one row of the table that carries it, or none |
| `Store.MemoryTable.Insert` | nssd/cache/memory.go:50-61 | the table becomes the relation with every row of that name or id replaced by the entry; the two maps stay inverse |
| `Store.MemoryTable.Remove` | nssd/cache/memory.go:72-77 | exactly the named row and its index entry go |
| `Store.MemoryTable.Mark` | nssd/cache/memory.go:143-158 | exactly the selected rows become stale, and their number is returned |
| `Store.FindIsTheRow` | nssd/cache/memory.go:39-47 | in a unique table a key finds a row if and only if it is the row's name or id |
| `Store.PutStaysUnique` | nssd/cache/memory.go:50-61 | a put keeps names and ids unique |
| `Store.PutReplacesRows` | nssd/cache/sqlite.go:139-151 | on rows, a put is the delete by name or id and the insert the SQLite store makes |
| `Store.PerformRefinesRows` | nssd/cache/sqlite.go:139-229 | each put, delete and mark of the table is the same operation on the SQLite store's rows |
| `Store.EveryHistoryRefinesRows` | nssd/cache/sqlite.go:139-229 | after any sequence of operations the two stores hold the same rows, and the table is unique |
| `Negative.AddIsBounded` | nssd/cache/negative.go:46-61 | adding keeps the 10000 cap, remembers the key for exactly the ttl and invents no other miss |
| `Negative.FullCacheKeepsTheUnexpired` | nssd/cache/negative.go:46-61 | remembering a miss in a full cache keeps another one if and only if it is unexpired and some miss has expired |
| `Negative.NegativeCache.Has` | nssd/cache/negative.go:31-43 | true exactly until expiry; an expired miss is dropped on the way |
| `Negative.NegativeCache.Remember` | nssd/cache/negative.go:46-61 | prunes when full, clears when pruning freed nothing, then adds |
| `Negative.NegativeCache.Forget` | nssd/cache/negative.go:64-68 | exactly that key goes |
| `Negative.NegativeCache.Clear` | nssd/cache/negative.go:71-75 | nothing is left |
| `Contradictions.OldestIsOne` | nssd/userdb/contradictions.go:88-102 | a non-empty table has exactly one least recently marked pair |
| `Contradictions.MarkStaysOrdered` | nssd/userdb/contradictions.go:65-83 | marking keeps the marks distinct and at most the counter |
| `Contradictions.MarkStaysBounded` | nssd/userdb/contradictions.go:65-83 | the size after a mark: unchanged for a held pair or a full table, else one more |
| `Contradictions.MarkEvictsTheOldest` | nssd/userdb/contradictions.go:65-102 | another pair goes if and only if a new pair enters a full table and it is the least recently marked; otherwise it is untouched |
| `Contradictions.MarkAwaits` | nssd/userdb/contradictions.go:61-83 | a pair just marked is held and awaits confirmation, confirmed before or not |
| `Contradictions.CopySettlesThreeWays` | nssd/userdb/contradictions.go:125-152 | a copy clears a pair it answers, confirms an awaiting one, and keeps a confirmed one just while the list stays; pairs of other groups are untouched |
| `Contradictions.EveryHistoryIsOrdered` | nssd/userdb/contradictions.go:54-152 | over every history the table stays ordered and within its cap, each pair's number is that of its last marking, and it is confirmed exactly when a copy of its group came since |
| `Contradictions.ContradictionTable.IsSuppressed` | nssd/userdb/contradictions.go:54-59 | true exactly for a held and confirmed pair |
| `Contradictions.ContradictionTable.MarkPair` | nssd/userdb/contradictions.go:65-83 | the pair is held unconfirmed as the latest; the nested maps keep representing the pairs and `n` their number |
| `Contradictions.ContradictionTable.EvictOldest` | nssd/userdb/contradictions.go:88-102 | the scan over both levels drops exactly the least recently marked pair |
| `Contradictions.ContradictionTable.Remove` | nssd/userdb/contradictions.go:113-123 | exactly that pair goes, and no empty inner map stays |
| `Contradictions.ContradictionTable.SettlePair` | nssd/userdb/contradictions.go:142-151 | one pair against a fresh list: cleared, confirmed or kept |
| `Contradictions.ContradictionTable.GroupStored` | nssd/userdb/contradictions.go:131-152 | deleting while going through them, all pairs of the group are settled and no other pair changes |
| `LocalFiles.LineLists` | nssd/policy/files.go:124-141 | a line lists its name, compat signs dropped, with the id of its third field, if any; comments and blank lines list nothing |
| `LocalFiles.IdsRead` | nssd/policy/files.go:132-133 | a decimal is an id if and only if it fits 32 bits |
| `LocalFiles.ParseLocalDB` | nssd/policy/files.go:119-144 | the database answers every name and every id as the first line listing it does |
| `LocalFiles.ListedIndexes` | nssd/policy/files.go:129-141 | one more line keeps that so |
| `LocalFiles.NamesOnceIsConsistent` | nssd/policy/files.go:119-144 | in a file listing each name at most once, a listed id's name leads back to the id |
| `Policy.Memberships` | nssd/policy/policy.go:328-347 | the names listed and the server names kept, in order and without repeats |
| `Policy.ListedNamesAreKept` | nssd/policy/policy.go:328-373 | each listed name appears once, and exactly the names some membership stands under are listed |
| `Policy.MembershipsAreListed` | nssd/policy/policy.go:351-373 | an in-range membership is listed under its gid's local name, or under its own when neither its gid nor its name is local |
| `Policy.ListedNamesLeadHome` | nssd/policy/policy.go:351-373 | every listed name leads files-first to its own gid if and only if the group file's servable names do |
| `Policy.ListedNamesResolve` | nssd/policy/policy.go:328-373 | with each name at most once in the file, a listed name is valid, unfiltered, and leads to the in-range gid of a membership it was listed for |
| `Policy.TwiceListedNameLeadsAstray` | nssd/policy/policy.go:351-373 | a file listing one name under two gids breaks the promise |
| `Policy.ExpandTemplate` | nssd/policy/policy.go:514-540 | the index loop computes the left-to-right expansion |
| `Policy.TextStandsForItself` | nssd/policy/policy.go:518-523 | text without a percent sign is copied |
| `Policy.SequencesAreReplaced` | nssd/policy/policy.go:524-537 | each sequence becomes the name, the uid, the home, a percent sign, or stays as written |
| `Policy.SubstituteLength` | nssd/policy/policy.go:518-539 | the home goes in exactly as often as the scan meets `%h` |
| `Policy.ShortcutFollowsTheScan` | nssd/policy/policy.go:515-517 | deleting `%%` and looking for `%h` finds one exactly when the scan meets one |
| `Policy.ShortcutIsExact` | nssd/policy/policy.go:514-540 | the shortcut is true exactly when the expansion depends on the home; without a home such a template, and only such a one, expands to nothing |
| `Policy.FirstValidPath` | nssd/policy/policy.go:502-507 | the first usable candidate, or none when there is none |
| `Policy.UserIsServedExactlyWhen` | nssd/policy/policy.go:212-309 | a record is served if and only if name, uid, gid, group file, `require_groups` and some home all pass, with the override applied first |
| `Policy.ServedUserListsItsGroups` | nssd/policy/policy.go:237-271 | a served user's groups are exactly the names its memberships stand under here, each once |
| `Policy.HomeAndShellComeFrom` | nssd/policy/policy.go:496-574 | the home is the first usable of template, own and fallback; an active shell the first acceptable of the global and the own one, or else the fallback |
| `Policy.ServedUserIsSafe` | nssd/policy/policy.go:212-282 | under a validated range a served user never has id 0 or a local account's name or uid, is locked exactly when not active, and its names lead to its own gids |
| `Policy.UntouchedRecordIsServedAsSent` | nssd/policy/policy.go:212-282 | a record no override touches is served with the ids and paths the server sent |
| `Policy.OverridesWin` | nssd/policy/policy.go:221-262 | the host override's ids, home and shell replace the server's, and the global override settings replace both where usable |
| `Policy.Members` | nssd/policy/policy.go:470-478 | exactly the member names the policy serves, in order |
| `Policy.ServedMembersAreServable` | nssd/policy/policy.go:446-480 | each member is listed once, and if and only if the record names it and it may be served |
| `Policy.ServedGroupListsItsMembers` | nssd/policy/policy.go:446-480 | a served group has exactly the members the policy lets through, each once, or none where members are ignored |
| `Policy.GroupIsServedExactlyWhen` | nssd/policy/policy.go:446-480 | a group is served if and only if its name is valid, unfiltered and not local, its gid in range and not local, and the local users can be read where members are wanted |
| `Policy.ServedGroupIsSafe` | nssd/policy/policy.go:446-490 | a served group has its own name and gid, never gid 0 or a local group's, and only members the policy lets through |
| `Passwd.ValidPathIsClean` | nssd/config/config.go:506-511 | a path is usable if and only if it is rooted, its own cleaned form, and free of colons and control characters |
| `Passwd.NamesAreNotNumbers` | internal/posixname/posixname.go:35-68 | a served name is no number's text, with or without a sign, and one plain path component without colon or control character |
| `Passwd.ServedUserMakesOneLine` | nssd/config/config.go:503-511 | a served user makes a passwd line of exactly its seven fields, with no character that would break it |
| `Invariant.StoreUserKeepsInv` | nssd/userdb/users.go:253-289 | storing a user, its memberships' stubs and the marks keep the invariant |
| `Invariant.ForgetUserKeepsInv` | nssd/userdb/users.go:233-245 | so does forgetting one, by name or by uid |
| `Invariant.StoreGroupKeepsInv` | nssd/userdb/groups.go:250-277 | so does storing a group |
| `Invariant.ForgetGroupKeepsInv` | nssd/userdb/groups.go:235-244 | so does forgetting one |
| `Invariant.InvalidateKeepsInv` | nssd/userdb/admin.go:59-75 | so does an invalidation |
| `Invariant.ResolveUserKeepsInv` | nssd/userdb/users.go:87-121 | so does every path of a user lookup |
| `Invariant.ResolveGroupKeepsInv` | nssd/userdb/groups.go:106-138 | so does every path of a group lookup |
| `Guarantees.StoredUserIsCoherent` | nssd/userdb/users.go:253-349 | after a user is stored, each served non-primary group's list names it, is truncated, is stale or is a confirmed pair with no new joining; each left group released it |
| `Guarantees.ForgottenUserIsReleased` | nssd/userdb/users.go:233-245 | after a user is forgotten every group it was in no longer names it or is stale, and holds no pair for it |
| `Guarantees.StoredGroupIsCoherent` | nssd/userdb/groups.go:250-335 | each user a list gained or lost agrees with it or is stale, and only users that disagree are touched |
| `Guarantees.StoredUserMarksOnlyContradicted` | nssd/userdb/users.go:325-378 | a list goes stale at a user's fetch only for lacking a user whose record has the group, or naming one whose record left it |
| `Guarantees.StubsKeepLists` | nssd/userdb/users.go:433-445 | filling in memberships never replaces one member list by another |
| `Runs.RunKeepsInv` | nssd/userdb/users.go:87-289 | the invariant holds after every run |
| `Runs.CachesAreDisjoint` | nssd/userdb/users.go:233-289 | in every reachable state nothing cached has a remembered miss under its name or id, and both bounds hold |
| `Runs.UnaskedServerDoesNotMatter` | nssd/userdb/users.go:87-121 | when no fetch is due the outcome does not depend on the server: a remembered miss or a refused key is no record, and otherwise the cached entry answers and queues a refresh when due |
| `Runs.AskedServerDecides` | nssd/userdb/users.go:87-135 | when one is due the answer decides; without one the cached entry does while it may be served |
| `Runs.UnaskedServerDoesNotMatterToGroups` | nssd/userdb/groups.go:106-138 | the same of groups; the cached entry answers, and only a full one queues a refresh |
| `Runs.AskedServerDecidesGroups` | nssd/userdb/groups.go:106-138 | the same of groups; a stub never stands in for members |
| `Runs.LookupServesTheAskedUser` | nssd/userdb/users.go:87-228 | on all paths the user served is the present policy's reading of a record with the asked name or uid |
| `Runs.LookupServesTheAskedGroup` | nssd/userdb/groups.go:106-232 | the same of groups; members come only from a full record |
| `Runs.StoredUserIsFound` | nssd/userdb/users.go:270-279 | a stored user is found under its name and its uid with its ttl, and neither is a miss |
| `Runs.StoredGroupIsFound` | nssd/userdb/groups.go:263-272 | the same of groups |
| `Runs.FreshnessOnlyAges` | nssd/cache/cache.go:146-164 | time moves an entry only from fresh to refreshing to expired, and it is expired if and only if marked or past its time |
| `Runs.UncachedUserNeedsAnAnswer` | nssd/userdb/users.go:87-121 | a user not cached is served only from an accepted answer |
| `Runs.UncachedGroupNeedsAnAnswer` | nssd/userdb/groups.go:106-138 | the same of groups |
| `Runs.ForgottenUserIsNotResurrected` | nssd/userdb/users.go:230-245 | on every run after a user was forgotten, neither its name nor its uid is answered from the cache until an answer for it is stored |
| `Runs.ForgottenGroupIsNotResurrected` | nssd/userdb/groups.go:235-244 | the same of groups, which a user's membership may also bring back |
| `Lifetimes.StoredUserAnswersUntilExpiry` | nssd/cache/cache.go:146-158 | after any run that leaves it alone and until it expires, a stored user answers lookups unasked, and queues a refresh exactly from the nowait percentage of its lifetime on |
| `Lifetimes.StoredGroupAnswersUntilExpiry` | nssd/cache/cache.go:146-158 | the same of groups |
| `Lifetimes.StoredUserIsServedOffline` | nssd/cache/cache.go:162-164 | after any such run, past its expiry and without the server, it is served for exactly the offline expiry since its fetch, or for ever when that is off |
| `Lifetimes.UserStaysAlong` | nssd/userdb/users.go:253-398 | only storing its name or uid, forgetting or marking it, or storing a list that disagrees with its record touches a cached user |
| `Lifetimes.GroupStaysAlong` | nssd/userdb/users.go:253-398 | only displacing, storing or marking it, or a user's record that disagrees with its list touches a cached group |
| `Lifetimes.ForgottenKeyIsAMiss` | nssd/userdb/users.go:233-245 | after any run up to now that leaves the miss alone, a forgotten user key is a miss exactly until the negative ttl has passed, without the server being asked |
| `Lifetimes.ForgottenGroupKeyIsAMiss` | nssd/userdb/groups.go:235-248 | the same of group keys |
| `Refetching.ColdUserIsAskedExactlyWhen` | nssd/policy/policy.go:119-152 | a user neither cached nor missed is asked of the server if and only if its name is valid, unfiltered and not local, or its uid in range and not local; otherwise it is no record |
| `Refetching.ColdGroupIsAskedExactlyWhen` | nssd/policy/policy.go:155-185 | the same of groups |
| `Refetching.StaleUserIsRefetched` | nssd/cache/cache.go:146-149 | in every reachable state the next lookup of a marked user, by name or uid, asks the server and does what it says |
| `Refetching.StaleGroupIsRefetched` | nssd/cache/cache.go:146-149 | the same of groups, with or without members |
| `Refetching.AskedAnswerIsServed` | nssd/userdb/users.go:194-228 | an accepted answer to such a lookup is stored and served |
| `Refetching.AskedGroupIsServed` | nssd/userdb/groups.go:200-232 | the same of groups |
| `Refetching.RefusedAnswerForgets` | nssd/userdb/users.go:194-245 | any answer but an acceptable record, a refused name or none leaves nothing under the key, which is a miss for exactly the negative ttl |
| `Refetching.RefusedGroupAnswerForgets` | nssd/userdb/groups.go:200-248 | the same of groups |
| `Refetching.ContradictedGroupHeals` | docs/proposals/nss-directory/3-nss-daemon.md:430-440 | after a user's fetch the next lookup of a complete list that lacks it, unconfirmed, is answered by the server's list, which replaces it |
| `Refetching.ContradictedUserHeals` | docs/proposals/nss-directory/3-nss-daemon.md:463-466 | after a group's copy the next lookup of a user it gained or lost, whose record says otherwise, is answered by the server |
| `Refetching.InvalidationForgetsMisses` | nssd/userdb/admin.go:64-73 | an invalidation leaves a miss if and only if it names another key |
| `Refetching.InvalidatedUserIsAsked` | nssd/userdb/admin.go:55-75 | right after it the next lookup of a selected name asks the server, whether the name was cached, missed or neither |
| `Refetching.InvalidatedGroupIsAsked` | nssd/userdb/admin.go:55-75 | the same of groups |
| `Refetching.FilledInStubIsFresh` | nssd/userdb/users.go:281-287 | a membership no other one moves is cached as a fresh stub, unless the group's list was there |
| `Refetching.StubAnswersWithoutMembers` | nssd/userdb/groups.go:106-185 | until it expires a stub answers for its name and gid without members and unasked; a caller that needs members asks the server |
| `Offline.SilentRunOnlyMarks` | nssd/userdb/users.go:194-213 | a run in which the server says nothing about any record removes and changes no entry beyond marking it stale |
| `Offline.SilenceKeepsServingUsers` | nssd/userdb/users.go:87-121 | after any such run, with any number of invalidations, every cached user that passes the policy is still served by name when offline expiry is off |
| `Offline.SilenceKeepsServingGroups` | nssd/userdb/groups.go:106-138 | the same of groups |
| `Offline.ErrorsForgetNothing` | nssd/upstream/upstream.go:306-338 | whatever statuses, silences and retries a fetch meets, without a record or an authoritative miss nothing cached changes |
| `Offline.UserLeavesExactlyWhen` | nssd/userdb/users.go:194-289 | a cached user leaves if and only if an answer for its name or uid was a miss, wrong or refused, or another name is stored with its uid |
| `Offline.GroupLeavesExactlyWhen` | nssd/userdb/groups.go:200-277 | a cached group leaves if and only if on such an answer, or when its gid goes to another name by a stored group or by memberships that do not give it one again |
| `Offline.StubsMoveGids` | nssd/userdb/users.go:433-445 | filling in memberships in turn leaves each name with the gid it was given last, unless another name took it since |
| `Disagreement.StoredUserPays` | nssd/userdb/users.go:325-378 | one fetch: a turn from fresh to stale is paid for by the pair not having been held, or by an eviction, a departure or a joining |
| `Disagreement.RoomMeansNoEviction` | nssd/userdb/contradictions.go:65-83 | with room for the record's groups under the cap nothing is evicted |
| `Disagreement.DisagreementCostsOneRefetch` | docs/proposals/nss-directory/3-nss-daemon.md:443-462 | on every run the number of turns is at most one plus the evictions, departures, joinings and clearings of the pair |
| `Disagreement.OnlyGroupCopiesConfirm` | nssd/userdb/contradictions.go:131-152 | nothing but a fresh copy of its group confirms a pair |
| `Disagreement.OnlyGroupCopiesReplace` | nssd/userdb/users.go:433-445 | nothing but a fresh copy replaces a group's list |
| `Disagreement.ConfirmationsAreOfTheCachedList` | nssd/userdb/contradictions.go:131-152 | on every run a confirmed pair's cached list is complete and lacks the user |
| `Disagreement.LastingDisagreementTurnsOnce` | docs/proposals/nss-directory/3-nss-daemon.md:443-462 | while the server keeps sending the same disagreement, on every run the group turns stale at most once, plus once for each renewal: a copy that found the confirmed list gone from the cache |
| `Disagreement.ConfirmedPairIsForgottenExactlyWhen` | nssd/userdb/contradictions.go:131-152 | meanwhile an event forgets the confirmed pair if and only if it is such a copy |
| `Disagreement.ForgottenPairTurnsAgain` | nssd/userdb/users.go:325-378 | a fetch of a user whose pair is not held turns a fresh complete list lacking it, if the list stays |
| `Displacement.ListLeavesExactlyWhen` | nssd/userdb/users.go:433-445 | a cached member list is gone after an event if and only if an answer for it was a miss, wrong or refused, its gid is stored under another name, or a stored user's memberships move its gid |
| `Displacement.UndisplacedRenewsNothing` | nssd/userdb/groups.go:273-276 | a run without displacement renews no pair |
| `Displacement.UndisplacedDisagreementTurnsOnce` | docs/proposals/nss-directory/3-nss-daemon.md:443-462 | on every run with a lasting disagreement and no displacement the group turns stale at most once |
| `Displacement.TurnsAgainExactlyWhen` | nssd/userdb/groups.go:273-276 | with the pair confirmed, some run after an event, itself without displacement, turns the group again if and only if the event displaced the list |
| `Displacement.QuietMeansStale` | nssd/userdb/users.go:357-378 | a fetch that takes the pair in without a turn found the group stale already |
| `Displacement.TurnsAreAccountedFor` | nssd/userdb/contradictions.go:54-152 | on every run with a lasting disagreement, turns, quiet takings and the pair's absence at the end equal its absence at the start and the renewals |
| `Displacement.TurnsTwiceExactlyWhen` | nssd/userdb/contradictions.go:54-152 | a run that ends with the pair held and has no quiet taking turns the group more than once if and only if it renews the pair, or renews it twice when it was held at the start |
| `Displacement.RefusalTurnsTwice` | nssd/userdb/groups.go:218-231 | user, group, group refused, group, user: from any state with the list cached and the pair not held this run turns the group twice |
| `Displacement.PassingLocalGroupTurnsTwice` | docs/proposals/nss-directory/3-nss-daemon.md:443-462 | a concrete such run of a fresh daemon, in which a local group of that name comes and goes |
| `Daemon.Service.StaleGroupIf` | nssd/userdb/users.go:357-378 | reports a contradiction and marks the group exactly then |
| `Daemon.Service.StaleUserIf` | nssd/userdb/users.go:385-398 | marks a cached user exactly when its memberships say otherwise |
| `Daemon.Service.StaleGroupsForUser` | nssd/userdb/users.go:325-349 | both loops together weigh the served memberships and release the left ones |
| `Daemon.Service.StoreGroupStub` | nssd/userdb/users.go:433-445 | a stub goes in unless a full entry of that gid is there, and both its misses go |
| `Daemon.Service.StoreStubs` | nssd/userdb/users.go:281-287 | stubs for exactly the memberships the policy lets through, in order |
| `Daemon.Service.StoreUser` | nssd/userdb/users.go:253-289 | changes the tables as the function says and keeps the invariant |
| `Daemon.Service.ForgetUser` | nssd/userdb/users.go:233-245 | likewise |
| `Daemon.MembersEqual` | nssd/userdb/groups.go:293-306 | two lists are the same exactly when they name the same members, whatever the order and repeats |
| `Daemon.Service.StaleUsersForGroup` | nssd/userdb/groups.go:315-335 | one loop over the members gained and one over those lost mark exactly the users that disagree |
| `Daemon.Service.ReplaceGroup` | nssd/userdb/groups.go:250-273 | caches the group, forgets its misses and returns the list it replaced |
| `Daemon.Service.StoreGroup` | nssd/userdb/groups.go:250-277 | changes the tables as the function says and keeps the invariant |
| `Daemon.Service.ForgetGroup` | nssd/userdb/groups.go:235-244 | likewise |
| `Daemon.Service.LoadUser` | nssd/userdb/users.go:194-228 | stores an accepted answer, forgets on a miss, a wrong record or a refusal, leaves the cache alone otherwise |
| `Daemon.Service.LoadGroup` | nssd/userdb/groups.go:200-232 | the same of groups |
| `Daemon.Service.ResolveUser` | nssd/userdb/users.go:87-135 | the gate, the miss, the cache, the login refresh, the fetch and the offline fallback, in that order, give the outcome and state of the function |
| `Daemon.Service.ResolveGroup` | nssd/userdb/groups.go:106-138 | the same of groups, where a stub does not answer a caller that needs members |
| `Daemon.Service.MarkEntries` | nssd/cache/memory.go:128-139 | marks exactly the selected users and groups and counts them |
| `Daemon.Service.Invalidate` | nssd/userdb/admin.go:59-75 | marks without deleting, forgets the matching misses, and returns how many entries it marked |
| `Daemon.Service.Handle` | nssd/userdb/users.go:87-135 | an event of a run makes the daemon do what the run's step function says |
| `Daemon.Service.HandleAll` | nssd/userdb/users.go:87-135 | so does a list of events, and every theorem about runs is one about the daemon |
| `Upstream.FirstReplyDecides` | nssd/upstream/upstream.go:296-338 | the first answer a server gives decides a lookup; one that never gets an answer has failed |
| `Upstream.MissIsAuthoritative` | internal/api/nss.go:83-94 | a record is an answer, a miss is 404 with `nss_not_found` and nothing else; 400, 401 and 429 each mean their own verdict and only they do |
| `Upstream.Client.Reset` | nssd/upstream/upstream.go:264-271 | back to the initial state |
| `Upstream.Client.Gate` | nssd/upstream/upstream.go:377-402 | a new key lifts the latch; a lookup passes exactly when not latched and not before the retry time |
| `Upstream.Client.Fail` | nssd/upstream/upstream.go:529-545 | doubles a backoff in force up to an hour, else begins with the configured one; a caller that left changes nothing |
| `Upstream.CallsEndAtTheDecidingOne` | nssd/upstream/upstream.go:296-338 | every attempt up to the one that decides is a call, and no other is made |
| `Upstream.Client.Do` | nssd/upstream/upstream.go:278-338 | one lookup: not sent when held back, else exactly those calls, at most retries + 1, each given its allotment, and the verdict's effect on the state |
| `Upstream.AttemptLeavesRoom` | nssd/upstream/upstream.go:364-372 | no attempt outlives the lookup, one that is not the last leaves at least as long behind, and ends a second before a deadline of two seconds or more |
| `Upstream.ExhaustedAttemptsFitTheTimeout` | nssd/upstream/upstream.go:296-338 | attempts that use up their time are together given no more than the timeout |
| `Upstream.EarliestIsWorst` | nssd/upstream/upstream.go:296-372 | no schedule of attempts a pause apart is given more than immediate failures are |
| `Upstream.AllotmentsFitExactlyWhen` | nssd/upstream/upstream.go:296-372 | on every schedule, of any number of attempts, the allotments sum to no more than the timeout if and only if the configuration's immediate failures do |
| `Upstream.ShortAttemptsFit` | nssd/upstream/upstream.go:364-372 | they do without retries, or with an answer deadline of at most two pauses |
| `Upstream.EarlyFailuresAreAllottedTwice` | nssd/config/config.go:191-197 | with the default times and three retries they sum to 8.9 s of 5 s |
| `Upstream.NothingIsSentEarly` | nssd/upstream/upstream.go:377-402 | on every run, after a failure or a 429 nothing is sent before the retry time unless reset |
| `Upstream.NothingIsSentLatched` | nssd/upstream/upstream.go:377-402 | on every run, after a refused key nothing is sent until a reset or a new key |
| `Upstream.WaitEndsOnTime` | nssd/upstream/upstream.go:387-401 | however many lookups were held back, the next is sent if and only if the time to try again has come |
| `Upstream.LatchLiftsWithAKey` | nssd/upstream/upstream.go:382-395 | while latched, the next lookup is sent if and only if it brings a new key |
| `Upstream.ResetOpens` | nssd/upstream/upstream.go:264-271 | after a reset every lookup is sent |
| `Upstream.OutcomeHoldsLookups` | nssd/upstream/upstream.go:492-545 | which retry time each failed or limited lookup sets, what a refused key does, and that an answer lets the next lookup through at any time |
| `Upstream.BackoffIsDoubled` | nssd/upstream/upstream.go:529-545 | on every run of failures the wait after the k-th is the timeout doubled k - 1 times, at most an hour |
| `Upstream.CapHoldsExactlyWhen` | nssd/upstream/upstream.go:529-545 | on every run of failures the wait is the doubled timeout, at most an hour, if and only if the configured timeout is within the hour |
| `Upstream.FirstWaitIsNotCapped` | nssd/upstream/upstream.go:529-545 | a single failure waits the whole configured timeout |
| `Refresher.StepKeepsValid` | nssd/cache/refresher.go:43-83 | in every interleaving pending is the queued keys and the one taken, none twice |
| `Refresher.NothingIsLost` | nssd/cache/refresher.go:43-83 | what was waiting and accepted is what began and still waits, in the same order |
| `Refresher.RequestIsHonoured` | nssd/cache/refresher.go:43-56 | a key queued or found pending waits until a run for it begins |
| `Refresher.QueueDrains` | nssd/cache/refresher.go:66-83 | left to itself the loop runs every queued key in order and ends idle with nothing pending |
| `Refresher.StopKeepsTheKey` | nssd/cache/refresher.go:66-75 | stopping keeps the key in hand and all queued ones pending |
| `Refresher.StoppedLoopRunsNothing` | nssd/cache/refresher.go:66-75 | a stopped loop begins nothing more, whatever is asked of it |
| `Refresher.Queue.Enqueue` | nssd/cache/refresher.go:43-56 | queued exactly when not pending and there is room; otherwise nothing changes |
| `Refresher.Queue.TakeNext` | nssd/cache/refresher.go:66-71 | the first key is taken and stays pending |
| `Refresher.Queue.BeginRun` | nssd/cache/refresher.go:72-80 | after the wait the key leaves pending before its run begins; an aborted wait ends the loop |
| `Varlink.Reader.ReadSlice` | internal/varlink/codec.go:145-173 | any chunking a buffered reader may make of the stream |
| `Varlink.Decoder.Next` | internal/varlink/codec.go:145-173 | for every chunking the result is that of looking at the whole stream, and a message uses up exactly itself and its NUL |
| `Varlink.NulDecides` | internal/varlink/codec.go:151-161 | a stream whose first NUL ends a message gives that message, or too large beyond the limit |
| `Varlink.ExcessDecides` | internal/varlink/codec.go:151-163 | beyond the limit without a NUL is too large whatever follows |
| `Varlink.EndDecides` | internal/varlink/codec.go:162-171 | without a NUL and within the limit: end of file, truncation or a read error |
| `Varlink.FramingRoundTrips` | internal/varlink/codec.go:50-68 | framed NUL-free messages read back as that list and then end of file, or truncation when cut |
| `Varlink.AcceptedMessagesArrive` | internal/varlink/codec.go:50-68 | exactly the messages the encoder accepts arrive, in order |
| `PrincipalsMap.CutComment` | internal/principalsmap/principalsmap.go:255-268 | the flag loop cuts where the quoting scan meets the first unquoted comment |
| `PrincipalsMap.CutKey` | internal/principalsmap/principalsmap.go:236-249 | the flag loop splits at the first unquoted colon |
| `PrincipalsMap.Parse` | internal/principalsmap/principalsmap.go:72-103 | the loop over lines reads what the line-by-line function reads, errors included |
| `PrincipalsMap.ParsedMapIsSound` | internal/principalsmap/principalsmap.go:72-231 | no map that was read holds an empty account name or principal |
| `PrincipalsMap.Allowed` | internal/principalsmap/principalsmap.go:297-308 | true if and only if the account is listed and one of the principals is in its list |
| `PrincipalsMapFormat.QuoteForWritable` | internal/principalsmap/write.go:137-159 | a string can be spelled if and only if it has no line break, no backslash and not both quotes |
| `PrincipalsMapFormat.BareIsPlainScalar` | internal/principalsmap/write.go:137-186 | a string is written without quotes if and only if it is a plain scalar |
| `PrincipalsMapFormat.WrittenValue` | internal/principalsmap/write.go:137-186 | a spelled value is trimmed, starts no list item and unquotes to itself |
| `PrincipalsMapFormat.AccountLineReads` | internal/principalsmap/principalsmap.go:121-203 | a written account line opens that account |
| `PrincipalsMapFormat.ItemLineReads` | internal/principalsmap/principalsmap.go:106-174 | a written item line appends that principal |
| `PrincipalsMapFormat.WrittenMapReadsBack` | internal/principalsmap/write.go:22-48 | the lines written for a map without empty names parse to the map |
| `PrincipalsMapFormat.Format` | internal/principalsmap/write.go:22-48 | succeeds if and only if every string can be spelled, and then reads back as the map if and only if no name or principal is empty |
| `PrincipalsMapFormat.FormatIsDeterministic` | internal/principalsmap/write.go:22-48 | a map has one written form |
| `PrincipalsMapFormat.ReadMapSurvivesRewriting` | internal/principalsmap/write.go:22-48 | a map read from any file, if it can be written, reads back unchanged |
| `PrincipalsMapLines.QuotedIsKeyText` | internal/principalsmap/principalsmap.go:236-249 | a name in quotes it does not hold, needed or not, may stand before the colon, whatever colons and hashes it holds |
| `PrincipalsMapLines.AccountLineMeans` | internal/principalsmap/principalsmap.go:121-203 | any account line, however spelled: it opens, closes empty or closes with an inline list, and is an error for a bad or repeated name or any other value |
| `PrincipalsMapLines.IndentedAccountIsRefused` | internal/principalsmap/principalsmap.go:121-157 | the same line indented by any blanks or tabs is an error |
| `PrincipalsMapLines.TabIsRefused` | internal/principalsmap/principalsmap.go:145-157 | a line indented with a tab is an error, whatever it holds |
| `PrincipalsMapLines.WindowsFileReadsAlike` | internal/principalsmap/principalsmap.go:81-81 | a file reads the same with either kind of line end |
| `PrincipalsMapLines.ItemLineMeans` | internal/principalsmap/principalsmap.go:106-174 | any item line: it appends its principal to the open account, and is an error for a spoiled value or without an account |
| `PrincipalsMapLines.StrayDashIsRefused` | internal/principalsmap/principalsmap.go:160-174 | a dash without its blank is an error, whatever follows |
| `PrincipalsMapLines.QuotedValueReads` | internal/principalsmap/principalsmap.go:274-291 | quotes are stripped exactly when nothing inside escapes or closes them; an unclosed quote is an error |
| `PrincipalsMapLines.CommentIsIgnored` | internal/principalsmap/principalsmap.go:255-268 | on any line whose quotes are closed a comment after a blank changes nothing, and a line that is only a comment is skipped |
| `PrincipalsMapLines.QuotedHashIsKept` | internal/principalsmap/principalsmap.go:255-268 | nothing inside an item's quotes starts a comment |
| `PrincipalsMapLines.JoinedHashIsKept` | internal/principalsmap/principalsmap.go:255-268 | a hash that follows no blank starts no comment: an unquoted item holding one is that principal |
| `PrincipalsMapLines.InlineAccountReads` | internal/principalsmap/principalsmap.go:179-231 | an account with an inline list, however spelled and spaced, takes exactly its principals when none holds a comma |
| `PrincipalsMapFlow.FlowListReadsBack` | internal/principalsmap/principalsmap.go:206-231 | an inline list, however spelled and spaced, reads back as its principals if and only if none holds a comma; a quoted one with a comma is an error |
| `PrincipalsMapFlow.QuotedCommaIsRefused` | internal/principalsmap/principalsmap.go:216-230 | a comma inside quotes is refused, never read as two principals |
| `PrincipalsMapFlow.EmptyListReads` | internal/principalsmap/principalsmap.go:206-214 | brackets with nothing but blanks between them are an empty list |
| `EditDistance.Compute` | client/config/unknownkeys.go:96-114 | the two-row table gives the Levenshtein recurrence |
| `EditDistance.EditMovesByOne` | client/config/unknownkeys.go:96-114 | one insertion, deletion or substitution changes the distance to any string by at most one |
| `EditDistance.ShortestScript` | client/config/unknownkeys.go:96-114 | a script of exactly that many edits exists |
| `EditDistance.DistanceIsTheShortestScript` | client/config/unknownkeys.go:96-114 | the distance is the least length of any edit script |
| `EditDistance.Closest` | client/config/unknownkeys.go:79-93 | the nearest known setting within two edits, the first by name among equals, or nothing |
| `Plist.Decoder.SkipToEnd` | client/config/plist.go:231-246 | discards through the end of the element it is in, or fails at the end of input |
| `Plist.Decoder.ReadCharData` | client/config/plist.go:143-157 | all text up to the next end token, be it the element's own or a nested one's |
| `Plist.Decoder.NextStartElement` | client/config/plist.go:129-139 | the next start token, past any text and any end token, or an error at the end of input |
| `Plist.Decoder.ReadArrayOfStrings` | client/config/plist.go:199-225 | the string items of an array, other items skipped whole |
| `Plist.Decoder.ReadScalarValue` | client/config/plist.go:164-194 | the value of an element of an accepted type, a skip for others, an error for a malformed integer |
| `Plist.Decoder.Parse` | client/config/plist.go:28-109 | the loop over entries gives the settings the recursive reading gives |
| `PlistTree.SkipPassesNode` | client/config/plist.go:231-246 | skipping passes over a subtree of any depth and stays at its own depth |
| `PlistTree.SkipConsumesOneElement` | client/config/plist.go:231-246 | it consumes exactly one element |
| `PlistTree.ArrayItemsRead` | client/config/plist.go:199-225 | an array's items read as the strings among its decoded values |
| `PlistTree.ValueReads` | client/config/plist.go:164-194 | an element reads as the accepted part of its decoded value, except an integer outside 64 bits |
| `PlistTree.FilterBinary` | client/config/plist.go:259-314 | strings, booleans and arrays are kept, integers exactly when they fit 64 bits, nothing else |
| `PlistTree.StrayElementIsRefused` | client/config/plist.go:83-86 | any element but a key where a key belongs is an error, wherever in the dictionary |
| `PlistTree.XmlAgreesWithBinary` | client/config/plist.go:28-314 | for every property list with distinct keys the XML reading is the filtered decoded form if every integer fits 64 bits, and an error otherwise |
| `Plist.IntegerReadsBack` | client/config/plist.go:170-179 | an integer in decimal reads back, with either sign |
| `PlistTree.WrittenDecodes` | client/config/plist.go:164-194 | a tree written as XML decodes to itself |
| `PlistTree.WrittenPlistReads` | client/config/plist.go:28-109 | the XML of any dictionary of distinct keys reads as the settings its values give, and as an error exactly when an integer does not fit |

## Left out

- Goroutine interleavings of the daemon and its singleflight: every lookup, fetch and refresh is one atomic step with one reading of the clock; only the refresh queue is modelled step by step.
- Failures of the store and cached data that cannot be decoded: the tables always answer, as the memory store does.
- SQLite, JSON, HTTP, TLS, sockets and the property list decoders themselves: records, rows, replies and tokens arrive decoded; the SQLite store appears as the relation the memory store refines.
- The varlink method layer over a lookup (parameters, filters, the answer to a request with both a name and an id, membership enumeration): it adds only flat branches.
- What a lookup does with its refresh request: `Coherence.ResolveUser` and `Coherence.ResolveGroup` say whether one is queued, and the queue is modelled on its own.
- The background sweep, the debounced refresh of one user, the rate limiter and the cap on lookups at once: lookups of the client do not overlap in the model.
- UTF-8 validity, the sanitising of the real name, and names counted in bytes rather than characters.
- Reading the header `Retry-After` (section 10.2.3 of RFC 9110): the parsed delay is a parameter.
- Watching and re-reading the host files, and the override file's own parsing: each event carries what the files say then.
- Integer limits: the 64-bit counter of marks and durations are unbounded integers.
- The difference between a missing and an empty list of principals: both are the empty list.
- Error wording, logging, status counters and findings.
- Replacing the principals map on disk, and the one-megabyte line limit of the local file scanner.
- The rest of the repository (certificate signing, approval, the CLI, the server and its frontend): not part of this model.
