/** How long a stored record answers and a forgotten key is missed, over every run
    that leaves the entry alone. */
module Lifetimes {
  import opened Types
  import opened Store
  import opened Contradictions
  import Negative
  import opened Policy
  import opened Coherence
  import opened Invariant
  import opened Guarantees
  import opened Runs
  import opened Disagreement
  import opened Displacement

  /* Events that leave an entry alone */

  predicate Selects(sel: Selector, name: string) {
    sel.name == "" || sel.name == name
  }

  /** The event stores a user under this name or uid, forgets it, marks it, or stores a
      changed list that disagrees with its record. */
  ghost predicate TouchesUser(s: State, f: Effect, n: string)
    requires n in s.users
  {
    match f
    case StoresUser(r) => r.name == n || r.uid == s.users[n].id
    case ForgetsUser(ref) => Matches(ref, n, s.users[n].id)
    case StoresGroup(g) => HasMembership(s.users[n].data.groups, g.name) != (n in g.members)
    case MarksEntries(sel) => sel.users && Selects(sel, n)
    case _ => false
  }

  /** The event displaces the group, stores it, marks it, stores a user whose record
      disagrees with its list, or forgets a user the list names. */
  ghost predicate TouchesGroup(s: State, cfg: Settings, host: Host, f: Effect, n: string)
    requires Full(s.groups, n)
  {
    Displaces(s.groups, cfg, host, f, n) ||
    match f
    case StoresUser(r) => HasMembership(r.groups, n) != (r.name in s.groups[n].data.value.members)
    case ForgetsUser(ref) => Find(s.users, ref).Some? && Find(s.users, ref).value.name in s.groups[n].data.value.members
    case StoresGroup(g) => g.name == n
    case MarksEntries(sel) => sel.groups && Selects(sel, n)
    case _ => false
  }

  lemma MarkStaleSpares<D>(t: Table<D>, sel: Selector, n: string)
    requires n in t && !Selects(sel, n)
    ensures n in MarkStale(t, sel.name) && MarkStale(t, sel.name)[n] == t[n]
  {
  }

  lemma UserStays(s: State, cfg: Settings, e: Event, f: Effect, n: string)
    requires Inv(s) && n in s.users && !TouchesUser(s, f, n)
    ensures var q := Enact(s, cfg, e, f); n in q.users && q.users[n] == s.users[n]
  {
    match f {
      case StoresUser(r) => UsersAfter(s, cfg, e, f);
      case ForgetsUser(ref) =>
        UsersAfter(s, cfg, e, f);
        FoundRowLeaves(s.users, ref, n);
      case StoresGroup(g) =>
        if Full(s.groups, g.name) {
          StoredGroupIsCoherent(s, cfg, g, e.now, n);
        }
      case MarksEntries(sel) =>
        if sel.users {
          MarkStaleSpares(s.users, sel, n);
        }
      case _ =>
    }
  }

  lemma GroupStays(s: State, cfg: Settings, e: Event, f: Effect, n: string)
    requires Inv(s) && Full(s.groups, n) && !s.groups[n].stale && !TouchesGroup(s, cfg, e.host, f, n)
    ensures var q := Enact(s, cfg, e, f); n in q.groups && q.groups[n] == s.groups[n]
  {
    ListLeavesExactlyWhen(s, cfg, e, f, n);
    GroupsAfter(s, cfg, e, f);
    match f {
      case StoresUser(r) => AgreeingUserSpares(s, cfg, e, r, n);
      case ForgetsUser(ref) => UnlistedUserSpares(s, cfg, e, ref, n);
      case StoresGroup(g) =>
      case ForgetsGroup(ref) => FoundRowLeaves(s.groups, ref, n);
      case MarksEntries(sel) =>
        if sel.groups {
          MarkStaleSpares(s.groups, sel, n);
        }
      case _ =>
    }
  }

  lemma AgreeingUserSpares(s: State, cfg: Settings, e: Event, r: UserRecord, n: string)
    requires Inv(s) && Full(s.groups, n) && !s.groups[n].stale
    requires HasMembership(r.groups, n) == (r.name in s.groups[n].data.value.members)
    requires Full(StoreUser(s, cfg, e.host, r, e.now).groups, n)
    ensures StoreUser(s, cfg, e.host, r, e.now).groups[n] == s.groups[n]
  {
    var q, stubbed := StoreUser(s, cfg, e.host, r, e.now), Stubbed(s, cfg, e.host, r, e.now);
    GroupsAfter(s, cfg, e, StoresUser(r));
    assert MarksAtMost(stubbed, q.groups, n);
    StubsKeepLists(Stubs(s.groups, s.negative - {UserKey(ByName(r.name)), UserKey(ById(r.uid))}),
                   ServedMemberships(cfg, e.host, r.groups), cfg.ttlGroup, e.now, n);
    if IsStale(q.groups, n) {
      StoredUserMarksOnlyContradicted(s, cfg, e.host, r, e.now, n);
    }
  }

  lemma UnlistedUserSpares(s: State, cfg: Settings, e: Event, ref: Ref, n: string)
    requires Inv(s) && Full(s.groups, n) && !s.groups[n].stale
    requires Find(s.users, ref).Some? ==> Find(s.users, ref).value.name !in s.groups[n].data.value.members
    ensures var q := ForgetUser(s, cfg, ref, e.now); n in q.groups && q.groups[n] == s.groups[n]
  {
    var q, found := ForgetUser(s, cfg, ref, e.now), Find(s.users, ref);
    GroupsAfter(s, cfg, e, ForgetsUser(ref));
    assert MarksAtMost(s.groups, q.groups, n);
    if found.Some? && !cfg.policy.ignoreGroupMembers && IsStale(q.groups, n) {
      LeaveMarksOnlyContradicted(Lists(s.groups, s.pairs), found.value.name, [], found.value.data.groups, n);
    }
  }

  /** No event of the run touches the user while it is cached. */
  ghost predicate LeavesUserAlone(s: State, cfg: Settings, es: seq<Event>, n: string)
    decreases |es|
  {
    es == [] ||
    ((n in s.users ==> !TouchesUser(s, EffectOf(s, cfg, es[0]), n)) &&
      LeavesUserAlone(Apply(s, cfg, es[0]), cfg, es[1..], n))
  }

  /** No event of the run touches the group while its list is cached. */
  ghost predicate LeavesGroupAlone(s: State, cfg: Settings, es: seq<Event>, n: string)
    decreases |es|
  {
    es == [] ||
    ((Full(s.groups, n) ==> !TouchesGroup(s, cfg, es[0].host, EffectOf(s, cfg, es[0]), n)) &&
     LeavesGroupAlone(Apply(s, cfg, es[0]), cfg, es[1..], n))
  }

  lemma UserStaysThrough(s: State, cfg: Settings, e: Event, n: string)
    requires Inv(s) && n in s.users && !TouchesUser(s, EffectOf(s, cfg, e), n)
    ensures n in Apply(s, cfg, e).users && Apply(s, cfg, e).users[n] == s.users[n]
  {
    hide Apply, EffectOf, Enact;
    ApplyIsItsEffect(s, cfg, e);
    AskingKeepsInv(s, cfg, e);
    UserStays(Asking(s, cfg, e), cfg, e, EffectOf(s, cfg, e), n);
  }

  lemma GroupStaysThrough(s: State, cfg: Settings, e: Event, n: string)
    requires Inv(s) && Full(s.groups, n) && !s.groups[n].stale && !TouchesGroup(s, cfg, e.host, EffectOf(s, cfg, e), n)
    ensures n in Apply(s, cfg, e).groups && Apply(s, cfg, e).groups[n] == s.groups[n]
  {
    hide Apply, EffectOf, Enact, Displaces;
    ApplyIsItsEffect(s, cfg, e);
    AskingKeepsInv(s, cfg, e);
    GroupStays(Asking(s, cfg, e), cfg, e, EffectOf(s, cfg, e), n);
  }

  lemma {:induction false} UserStaysAlong(s: State, cfg: Settings, es: seq<Event>, n: string)
    requires Inv(s) && n in s.users && LeavesUserAlone(s, cfg, es, n)
    ensures var q := Run(s, cfg, es); Inv(q) && n in q.users && q.users[n] == s.users[n]
    decreases |es|
  {
    hide Apply, EffectOf, Inv, TouchesUser;
    if es != [] {
      ApplyKeepsInv(s, cfg, es[0]);
      UserStaysThrough(s, cfg, es[0], n);
      UserStaysAlong(Apply(s, cfg, es[0]), cfg, es[1..], n);
    }
  }

  lemma {:induction false} GroupStaysAlong(s: State, cfg: Settings, es: seq<Event>, n: string)
    requires Inv(s) && Full(s.groups, n) && !s.groups[n].stale && LeavesGroupAlone(s, cfg, es, n)
    ensures var q := Run(s, cfg, es); Inv(q) && Full(q.groups, n) && q.groups[n] == s.groups[n]
    decreases |es|
  {
    hide Apply, EffectOf, Inv, TouchesGroup;
    if es != [] {
      ApplyKeepsInv(s, cfg, es[0]);
      GroupStaysThrough(s, cfg, es[0], n);
      GroupStaysAlong(Apply(s, cfg, es[0]), cfg, es[1..], n);
    }
  }

  lemma CachedUserIsFound(s: State, ref: Ref, n: string)
    requires Inv(s) && n in s.users && Matches(ref, n, s.users[n].id)
    ensures Find(s.users, ref) == Some(s.users[n]) && UserKey(ref) !in s.negative
  {
    hide GroupsOk, GroupsHit, PairsOk;
    FindIsTheRow(s.users, ref, n);
    assert UserHit(s.users, s.negative, n) && OwnRow(s.users, n, n);
  }

  lemma CachedGroupIsFound(s: State, ref: Ref, n: string)
    requires Inv(s) && n in s.groups && Matches(ref, n, s.groups[n].id)
    ensures Find(s.groups, ref) == Some(s.groups[n]) && GroupKey(ref) !in s.negative
  {
    hide UsersOk, UsersHit, PairsOk;
    FindIsTheRow(s.groups, ref, n);
    assert GroupHit(s.groups, s.negative, n) && OwnRow(s.groups, n, n);
  }

  /** A run that follows a store and leaves the user alone still finds it. */
  lemma StoredUserStays(
    s: State, cfg: Settings, host: Host, r: UserRecord, at: Time, es: seq<Event>, ref: Ref)
    requires Inv(s) && r.name != "" && Matches(ref, r.name, r.uid)
    requires LeavesUserAlone(StoreUser(s, cfg, host, r, at), cfg, es, r.name)
    ensures var q := Run(StoreUser(s, cfg, host, r, at), cfg, es);
      Find(q.users, ref) == Some(UserEntry(cfg, r, at)) && UserKey(ref) !in q.negative
  {
    StoreUserKeepsInv(s, cfg, host, r, at);
    StoredUserIsFound(s, cfg, host, r, at, ByName(r.name));
    hide StoreUser, Inv, LeavesUserAlone;
    UserStaysAlong(StoreUser(s, cfg, host, r, at), cfg, es, r.name);
    CachedUserIsFound(Run(StoreUser(s, cfg, host, r, at), cfg, es), ref, r.name);
  }

  lemma StoredGroupStays(s: State, cfg: Settings, r: GroupRecord, at: Time, es: seq<Event>, ref: Ref)
    requires Inv(s) && r.name != "" && Matches(ref, r.name, r.gid)
    requires LeavesGroupAlone(StoreGroup(s, cfg, r, at), cfg, es, r.name)
    ensures var q := Run(StoreGroup(s, cfg, r, at), cfg, es);
      Find(q.groups, ref) == Some(GroupEntry(cfg, r, at)) && GroupKey(ref) !in q.negative
  {
    StoreGroupKeepsInv(s, cfg, r, at);
    StoredGroupIsFound(s, cfg, r, at, ByName(r.name));
    hide StoreGroup, Inv, LeavesGroupAlone;
    GroupStaysAlong(StoreGroup(s, cfg, r, at), cfg, es, r.name);
    CachedGroupIsFound(Run(StoreGroup(s, cfg, r, at), cfg, es), ref, r.name);
  }

  /* Until the entry expires, and after */

  /** After any run that leaves it alone, and until it expires, a stored user answers
      every lookup of its name or uid without the server being asked, and from
      the nowait percentage of its lifetime on each such lookup queues a refresh. */
  lemma StoredUserAnswersUntilExpiry(
    s: State, cfg: Settings, stored: Host, r: UserRecord, at: Time, es: seq<Event>,
    host: Host, ref: Ref, sshd: bool, a: Answer<UserRecord>, now: Time)
    requires Inv(s) && r.name != "" && Matches(ref, r.name, r.uid)
    requires LeavesUserAlone(StoreUser(s, cfg, stored, r, at), cfg, es, r.name)
    requires UserKeyAllowed(cfg.policy, host, ref) && ServeUser(cfg.policy, host, r).Some?
    requires at <= now < at + cfg.ttlUser && (sshd ==> now - at <= cfg.loginSoftTtl)
    ensures var q := Run(StoreUser(s, cfg, stored, r, at), cfg, es);
      ResolveUser(q, cfg, host, ref, sshd, a, now) ==
        (q, Served(ServeUser(cfg.policy, host, r).value),
         cfg.nowaitPercentage > 0 && cfg.ttlUser * cfg.nowaitPercentage < 100 * (now - at + 1))
  {
    hide StoreUser, ServeUser, UserKeyAllowed, LoadUser, Find, Inv, EntryFreshness, ResolveUser, LeavesUserAlone;
    StoredUserStays(s, cfg, stored, r, at, es, ref);
    FreshUntilExpiry(cfg, UserEntry(cfg, r, at), cfg.ttlUser, now);
    FreshUserAnswers(Run(StoreUser(s, cfg, stored, r, at), cfg, es), cfg, host, ref, sshd, a, now,
      UserEntry(cfg, r, at));
  }

  /** The same of groups. */
  lemma StoredGroupAnswersUntilExpiry(
    s: State, cfg: Settings, r: GroupRecord, at: Time, es: seq<Event>,
    host: Host, ref: Ref, needMembers: bool, a: Answer<GroupRecord>, now: Time)
    requires Inv(s) && r.name != "" && Matches(ref, r.name, r.gid)
    requires LeavesGroupAlone(StoreGroup(s, cfg, r, at), cfg, es, r.name)
    requires GroupKeyAllowed(cfg.policy, host, ref) && ServeGroup(cfg.policy, host, r).Some?
    requires at <= now < at + cfg.ttlGroup
    ensures var q := Run(StoreGroup(s, cfg, r, at), cfg, es);
      ResolveGroup(q, cfg, host, ref, needMembers, a, now) ==
        (q, Served(ServeGroup(cfg.policy, host, r).value),
         cfg.nowaitPercentage > 0 && cfg.ttlGroup * cfg.nowaitPercentage < 100 * (now - at + 1))
  {
    hide StoreGroup, ServeGroup, GroupKeyAllowed, LoadGroup, Find, Inv, EntryFreshness, ResolveGroup, LeavesGroupAlone;
    StoredGroupStays(s, cfg, r, at, es, ref);
    FreshUntilExpiry(cfg, GroupEntry(cfg, r, at), cfg.ttlGroup, now);
    FreshGroupAnswers(Run(StoreGroup(s, cfg, r, at), cfg, es), cfg, host, ref, needMembers, a, now,
      GroupEntry(cfg, r, at));
  }

  /** After its expiry, with the server silent, it is served for exactly the offline
      expiry since its fetch, or for ever when that is off. */
  lemma StoredUserIsServedOffline(
    s: State, cfg: Settings, stored: Host, r: UserRecord, at: Time, es: seq<Event>, host: Host, ref: Ref,
    sshd: bool, now: Time)
    requires Inv(s) && r.name != "" && Matches(ref, r.name, r.uid)
    requires LeavesUserAlone(StoreUser(s, cfg, stored, r, at), cfg, es, r.name)
    requires UserKeyAllowed(cfg.policy, host, ref) && ServeUser(cfg.policy, host, r).Some? && at + cfg.ttlUser <= now
    ensures ResolveUser(Run(StoreUser(s, cfg, stored, r, at), cfg, es), cfg, host, ref, sshd, Unavailable, now).1 ==
      if cfg.expireOffline <= 0 || now < at + cfg.expireOffline then Served(ServeUser(cfg.policy, host, r).value)
      else NotAvailable
  {
    hide StoreUser, ServeUser, UserKeyAllowed, LoadUser, Find, Inv, ResolveUser, LeavesUserAlone;
    StoredUserStays(s, cfg, stored, r, at, es, ref);
    AskedServerDecides(Run(StoreUser(s, cfg, stored, r, at), cfg, es), cfg, host, ref, sshd, Unavailable, now);
  }

  lemma FreshUserAnswers(
    s: State, cfg: Settings, host: Host, ref: Ref, sshd: bool, a: Answer<UserRecord>, now: Time,
    e: Entry<UserRecord>)
    requires Find(s.users, ref) == Some(e) && UserKey(ref) !in s.negative && UserKeyAllowed(cfg.policy, host, ref)
    requires !EntryFreshness(cfg, e, now).Expired? && (sshd ==> now - e.fetchedAt <= cfg.loginSoftTtl)
    ensures ResolveUser(s, cfg, host, ref, sshd, a, now) ==
      (s, FromUserEntry(cfg.policy, host, e), EntryFreshness(cfg, e, now).Refresh?)
  {
    hide LoadUser, UserKeyAllowed, EntryFreshness, FromUserEntry, Find;
  }

  lemma FreshGroupAnswers(
    s: State, cfg: Settings, host: Host, ref: Ref, needMembers: bool, a: Answer<GroupRecord>, now: Time,
    e: Entry<Option<GroupRecord>>)
    requires Find(s.groups, ref) == Some(e) && GroupKey(ref) !in s.negative && GroupKeyAllowed(cfg.policy, host, ref)
    requires !EntryFreshness(cfg, e, now).Expired? && e.data.Some?
    ensures ResolveGroup(s, cfg, host, ref, needMembers, a, now) ==
      (s, FromGroupEntry(cfg.policy, host, e), EntryFreshness(cfg, e, now).Refresh?)
  {
    hide LoadGroup, GroupKeyAllowed, EntryFreshness, FromGroupEntry, Find;
  }

  lemma FreshUntilExpiry<D>(cfg: Settings, e: Entry<D>, ttl: Time, now: Time)
    requires !e.stale && e.expiresAt == e.fetchedAt + ttl && e.fetchedAt <= now < e.expiresAt
    ensures EntryFreshness(cfg, e, now) ==
      if cfg.nowaitPercentage > 0 && ttl * cfg.nowaitPercentage < 100 * (now - e.fetchedAt + 1) then Refresh else Fresh
  {
    if cfg.nowaitPercentage > 0 {
      PercentagePassed(ttl, cfg.nowaitPercentage, now - e.fetchedAt);
    }
  }

  lemma PercentagePassed(ttl: Time, p: int, age: Time)
    requires ttl >= 0 && p > 0 && age >= 0
    ensures Quotient(ttl * p, 100) <= age <==> ttl * p < 100 * (age + 1)
  {
    assert ttl * p >= 0;
  }

  /* How long a forgotten key is missed */

  /** The event stores a record the key finds, a served membership that the group key
      finds, forgets the key again, clears it, or remembers another miss when there is no
      room. */
  predicate TouchesMiss(s: State, cfg: Settings, host: Host, f: Effect, key: Key) {
    match f
    case NoEffect => false
    case StoresUser(r) =>
      if key.UserKey? then Matches(key.ref, r.name, r.uid)
      else exists m | m in r.groups :: StubAllowed(cfg.policy, host, m) && Matches(key.ref, m.name, m.gid)
    case StoresGroup(g) => key.GroupKey? && Matches(key.ref, g.name, g.gid)
    case ForgetsUser(ref) => key == UserKey(ref) || |s.negative| >= Negative.MAX_NEGATIVE
    case ForgetsGroup(ref) => key == GroupKey(ref) || |s.negative| >= Negative.MAX_NEGATIVE
    case MarksEntries(sel) =>
      || sel.name == "" || (sel.users && key == UserKey(ByName(sel.name)))
      || (sel.groups && key == GroupKey(ByName(sel.name)))
  }

  ghost predicate LeavesMissAlone(s: State, cfg: Settings, es: seq<Event>, key: Key)
    decreases |es|
  {
    es == [] ||
      (!TouchesMiss(s, cfg, es[0].host, EffectOf(s, cfg, es[0]), key) &&
       LeavesMissAlone(Apply(s, cfg, es[0]), cfg, es[1..], key))
  }

  /** The miss is held with its expiry, or was dropped once that had passed. */
  predicate MissedUntil(m: Negative.Misses, key: Key, expiry: Time, now: Time) {
    if key in m then m[key] == expiry else expiry <= now
  }

  lemma {:induction false} StubsKeepMisses(
    b: Stubs, ms: seq<Membership>, ttl: Time, at: Time, key: Key, expiry: Time, now: Time)
    requires MissedUntil(b.negative, key, expiry, now)
    requires key.GroupKey? ==> forall m | m in ms :: !Matches(key.ref, m.name, m.gid)
    ensures MissedUntil(StubAll(b, ms, ttl, at).negative, key, expiry, now)
    decreases |ms|
  {
    if ms != [] {
      StubsKeepMisses(StubOne(b, ms[0], ttl, at), ms[1..], ttl, at, key, expiry, now);
    }
  }

  lemma MissStays(s: State, cfg: Settings, e: Event, f: Effect, key: Key, expiry: Time, now: Time)
    requires !TouchesMiss(s, cfg, e.host, f, key) && MissedUntil(s.negative, key, expiry, now)
    ensures MissedUntil(Enact(s, cfg, e, f).negative, key, expiry, now)
  {
    hide StaleGroups, Settle, StaleUsers, Find, MarkStale;
    if f.StoresUser? {
      ServedAreNamed(cfg, e.host, f.user.groups);
      StubsKeepMisses(Stubs(s.groups, s.negative - {UserKey(ByName(f.user.name)), UserKey(ById(f.user.uid))}),
                      ServedMemberships(cfg, e.host, f.user.groups), cfg.ttlGroup, e.now, key, expiry, now);
    }
  }

  lemma FewerMissesAreTouchedLess(s: State, q: State, cfg: Settings, host: Host, f: Effect, key: Key)
    requires |q.negative| <= |s.negative| && !TouchesMiss(s, cfg, host, f, key)
    ensures !TouchesMiss(q, cfg, host, f, key)
  {
    hide StubAllowed, Matches;
  }

  lemma AskingKeepsMiss(s: State, cfg: Settings, e: Event, key: Key, expiry: Time, now: Time)
    requires MissedUntil(s.negative, key, expiry, now) && e.now <= now
    ensures MissedUntil(Asking(s, cfg, e).negative, key, expiry, now)
  {
    hide UserKeyAllowed, GroupKeyAllowed;
  }

  lemma MissStaysThrough(s: State, cfg: Settings, e: Event, key: Key, expiry: Time, now: Time)
    requires !TouchesMiss(s, cfg, e.host, EffectOf(s, cfg, e), key) && MissedUntil(s.negative, key, expiry, now)
    requires e.now <= now
    ensures MissedUntil(Apply(s, cfg, e).negative, key, expiry, now)
  {
    hide *;
    ApplyIsItsEffect(s, cfg, e);
    AskedMissesLess(s, cfg, e);
    AskingKeepsMiss(s, cfg, e, key, expiry, now);
    FewerMissesAreTouchedLess(s, Asking(s, cfg, e), cfg, e.host, EffectOf(s, cfg, e), key);
    MissStays(Asking(s, cfg, e), cfg, e, EffectOf(s, cfg, e), key, expiry, now);
  }

  lemma {:induction false} MissStaysAlong(s: State, cfg: Settings, es: seq<Event>, key: Key, expiry: Time, now: Time)
    requires LeavesMissAlone(s, cfg, es, key) && MissedUntil(s.negative, key, expiry, now)
    requires forall i :: 0 <= i < |es| ==> es[i].now <= now
    ensures MissedUntil(Run(s, cfg, es).negative, key, expiry, now)
    decreases |es|
  {
    hide Apply, EffectOf, TouchesMiss;
    if es != [] {
      MissStaysThrough(s, cfg, es[0], key, expiry, now);
      MissStaysAlong(Apply(s, cfg, es[0]), cfg, es[1..], key, expiry, now);
    }
  }

  lemma AskedMissesLess(s: State, cfg: Settings, e: Event)
    ensures |Asking(s, cfg, e).negative| <= |s.negative|
  {
    hide UserKeyAllowed, GroupKeyAllowed, Negative.Asked;
    match e.step {
      case LookupUser(ref, _, _) => AskedIsSmaller(s.negative, UserKey(ref), e.now);
      case LookupGroup(ref, _, _) => AskedIsSmaller(s.negative, GroupKey(ref), e.now);
      case _ =>
    }
  }

  lemma AskedIsSmaller(m: Negative.Misses, key: Key, now: Time)
    ensures |Negative.Asked(m, key, now)| <= |m|
  {
    assert (m - {key}).Keys == m.Keys - {key};
    assert |m - {key}| == |(m - {key}).Keys|;
  }

  /** After any run up to now that leaves it alone, a forgotten user key is a miss exactly
      until the negative timeout has passed, and while it is one asking for it
      neither asks the server nor finds anything. */
  lemma ForgottenKeyIsAMiss(
    s: State, cfg: Settings, ref: Ref, at: Time, es: seq<Event>, host: Host, sshd: bool, a: Answer<UserRecord>,
    now: Time)
    requires LeavesMissAlone(ForgetUser(s, cfg, ref, at), cfg, es, UserKey(ref))
    requires forall i :: 0 <= i < |es| ==> es[i].now <= now
    ensures var q := Run(ForgetUser(s, cfg, ref, at), cfg, es);
      && (Negative.Remembers(q.negative, UserKey(ref), now) <==> now < at + cfg.ttlNegative)
      && (now < at + cfg.ttlNegative ==>
            !FetchesUser(q, cfg, host, ref, sshd, now) && ResolveUser(q, cfg, host, ref, sshd, a, now).1 == NoRecord)
  {
    hide LeavesMissAlone, ResolveUser, StaleGroups, Find;
    var forgot := ForgetUser(s, cfg, ref, at);
    assert MissedUntil(forgot.negative, UserKey(ref), at + cfg.ttlNegative, now);
    hide ForgetUser;
    MissStaysAlong(forgot, cfg, es, UserKey(ref), at + cfg.ttlNegative, now);
    if now < at + cfg.ttlNegative {
      UnaskedServerDoesNotMatter(Run(forgot, cfg, es), cfg, host, ref, sshd, a, a, now);
    }
  }

  /** And so is a forgotten group key. */
  lemma ForgottenGroupKeyIsAMiss(
    s: State, cfg: Settings, ref: Ref, at: Time, es: seq<Event>, host: Host, needMembers: bool,
    a: Answer<GroupRecord>, now: Time)
    requires LeavesMissAlone(ForgetGroup(s, cfg, ref, at), cfg, es, GroupKey(ref))
    requires forall i :: 0 <= i < |es| ==> es[i].now <= now
    ensures var q := Run(ForgetGroup(s, cfg, ref, at), cfg, es);
      && (Negative.Remembers(q.negative, GroupKey(ref), now) <==> now < at + cfg.ttlNegative)
      && (now < at + cfg.ttlNegative ==>
            !FetchesGroup(q, cfg, host, ref, needMembers, now) &&
              ResolveGroup(q, cfg, host, ref, needMembers, a, now).1 == NoRecord)
  {
    hide LeavesMissAlone, ResolveGroup, Find;
    var forgot := ForgetGroup(s, cfg, ref, at);
    assert MissedUntil(forgot.negative, GroupKey(ref), at + cfg.ttlNegative, now);
    hide ForgetGroup;
    MissStaysAlong(forgot, cfg, es, GroupKey(ref), at + cfg.ttlNegative, now);
    if now < at + cfg.ttlNegative {
      UnaskedServerDoesNotMatterToGroups(Run(forgot, cfg, es), cfg, host, ref, needMembers, a, a, now);
    }
  }
}
