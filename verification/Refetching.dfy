/** What a mark is for: the next lookup of a marked entry, of a contradicted one and
    of an invalidated name asks the server, and the server's answer is served. */
module Refetching {
  import opened Types
  import opened Store
  import opened Contradictions
  import Negative
  import opened Policy
  import opened Coherence
  import opened Invariant
  import opened Guarantees
  import opened Runs
  import opened Displacement
  import opened Lifetimes
  import LocalFiles

  /* Cold lookups */

  /** The local file could be read and lists neither the name nor the id, an id lies in the
      configured range, and a name is valid and not filtered. */
  predicate Foreign(cfg: Config, db: Option<LocalFiles.LocalDB>, filter: seq<string>, ref: Ref) {
    && db.Some?
    && match ref
       case ByName(name) => ValidName(name) && name !in filter && name !in db.value.names
       case ById(id) => id !in db.value.ids && cfg.minId <= id && (cfg.maxId == 0 || id <= cfg.maxId)
  }

  /** A user neither cached nor missed is asked of the server exactly when it is foreign
      to this host; otherwise it is no record, whatever the server would say. */
  lemma ColdUserIsAskedExactlyWhen(s: State, cfg: Settings, host: Host, ref: Ref, sshd: bool, now: Time)
    requires Find(s.users, ref) == None && !Negative.Remembers(s.negative, UserKey(ref), now)
    ensures if Foreign(cfg.policy, host.passwd, cfg.policy.filterUsers, ref)
      then AsksForUser(s, cfg, host, ref, sshd, now)
      else forall a :: ResolveUser(s, cfg, host, ref, sshd, a, now) == (s, NoRecord, false)
  {
    hide AsksForUser, LoadUser;
    if Foreign(cfg.policy, host.passwd, cfg.policy.filterUsers, ref) {
      DueFetchAsksForUser(s, cfg, host, ref, sshd, now);
    }
  }

  lemma ColdGroupIsAskedExactlyWhen(s: State, cfg: Settings, host: Host, ref: Ref, needMembers: bool, now: Time)
    requires Find(s.groups, ref) == None && !Negative.Remembers(s.negative, GroupKey(ref), now)
    ensures if Foreign(cfg.policy, host.group, cfg.policy.filterGroups, ref)
      then AsksForGroup(s, cfg, host, ref, needMembers, now)
      else forall a :: ResolveGroup(s, cfg, host, ref, needMembers, a, now) == (s, NoRecord, false)
  {
    hide AsksForGroup, LoadGroup;
    if Foreign(cfg.policy, host.group, cfg.policy.filterGroups, ref) {
      DueFetchAsksForGroup(s, cfg, host, ref, needMembers, now);
    }
  }

  /* Marked entries */

  /** The server is asked, and what it says is what the lookup answers and does. */
  ghost predicate AsksForUser(s: State, cfg: Settings, host: Host, ref: Ref, sshd: bool, now: Time) {
    forall a: Answer<UserRecord> | !a.Unavailable? ::
      ResolveUser(s, cfg, host, ref, sshd, a, now) ==
        var asked := s.(negative := Negative.Asked(s.negative, UserKey(ref), now));
        var (loaded, o) := LoadUser(asked, cfg, host, ref, a, now);
        (loaded, o, false)
  }

  ghost predicate AsksForGroup(s: State, cfg: Settings, host: Host, ref: Ref, needMembers: bool, now: Time) {
    forall a: Answer<GroupRecord> | !a.Unavailable? ::
      ResolveGroup(s, cfg, host, ref, needMembers, a, now) ==
        var asked := s.(negative := Negative.Asked(s.negative, GroupKey(ref), now));
        var (loaded, o) := LoadGroup(asked, cfg, host, ref, a, now);
        (loaded, o, false)
  }

  lemma DueFetchAsksForUser(s: State, cfg: Settings, host: Host, ref: Ref, sshd: bool, now: Time)
    requires FetchesUser(s, cfg, host, ref, sshd, now)
    ensures AsksForUser(s, cfg, host, ref, sshd, now)
  {
    hide StoreUser, ForgetUser, ServeUser, FromUserEntry, EntryFreshness, ServableOffline, UserKeyAllowed, Find;
  }

  lemma DueFetchAsksForGroup(s: State, cfg: Settings, host: Host, ref: Ref, needMembers: bool, now: Time)
    requires FetchesGroup(s, cfg, host, ref, needMembers, now)
    ensures AsksForGroup(s, cfg, host, ref, needMembers, now)
  {
    hide StoreGroup, ForgetGroup, ServeGroup, FromGroupEntry, EntryFreshness, ServableOffline, GroupKeyAllowed, Find;
  }

  /** A marked user, in every state a run can reach, is fetched at its next lookup by
      name or by uid. */
  lemma StaleUserIsRefetched(s: State, cfg: Settings, n: string, host: Host, ref: Ref, sshd: bool, now: Time)
    requires Inv(s) && n in s.users && s.users[n].stale && Matches(ref, n, s.users[n].id)
    requires UserKeyAllowed(cfg.policy, host, ref)
    ensures AsksForUser(s, cfg, host, ref, sshd, now)
  {
    hide AsksForUser, UserKeyAllowed, Inv, Find;
    CachedUserIsFound(s, ref, n);
    DueFetchAsksForUser(s, cfg, host, ref, sshd, now);
  }

  /** And so is a marked group, with or without its members. */
  lemma StaleGroupIsRefetched(s: State, cfg: Settings, n: string, host: Host, ref: Ref, needMembers: bool, now: Time)
    requires Inv(s) && n in s.groups && s.groups[n].stale && Matches(ref, n, s.groups[n].id)
    requires GroupKeyAllowed(cfg.policy, host, ref)
    ensures AsksForGroup(s, cfg, host, ref, needMembers, now)
  {
    hide AsksForGroup, GroupKeyAllowed, Inv, Find;
    CachedGroupIsFound(s, ref, n);
    DueFetchAsksForGroup(s, cfg, host, ref, needMembers, now);
  }

  /** An accepted answer to such a lookup is stored and served. */
  lemma AskedAnswerIsServed(s: State, cfg: Settings, host: Host, ref: Ref, sshd: bool, r: UserRecord, now: Time)
    requires AsksForUser(s, cfg, host, ref, sshd, now) && AcceptsUser(cfg, host, ref, Found(r))
    ensures var (q, o, queued) := ResolveUser(s, cfg, host, ref, sshd, Found(r), now);
      o == Served(ServeUser(cfg.policy, host, r).value) && r.name in q.users &&
        q.users[r.name] == UserEntry(cfg, r, now)
  {
    hide ResolveUser, ServeUser, StaleGroups, StubAll;
    var found: Answer<UserRecord> := Found(r);
    assert !found.Unavailable?;
  }

  lemma AskedGroupIsServed(s: State, cfg: Settings, host: Host, ref: Ref, needMembers: bool, r: GroupRecord, now: Time)
    requires AsksForGroup(s, cfg, host, ref, needMembers, now) && AcceptsGroup(cfg, host, ref, Found(r))
    ensures var (q, o, queued) := ResolveGroup(s, cfg, host, ref, needMembers, Found(r), now);
      o == Served(ServeGroup(cfg.policy, host, r).value) && r.name in q.groups &&
        q.groups[r.name] == GroupEntry(cfg, r, now)
  {
    hide ResolveGroup, ServeGroup, Settle, StaleUsers;
    var found: Answer<GroupRecord> := Found(r);
    assert !found.Unavailable?;
  }

  lemma FoundRowIsGone<D>(t: Table<D>, ref: Ref)
    requires Unique(t)
    ensures Find(WithoutFound(t, ref), ref) == None
  {
    var q := WithoutFound(t, ref);
    forall n | n in q ensures n in t && !Matches(ref, n, q[n].id) {
      FoundRowLeaves(t, ref, n);
    }
  }

  lemma ForgottenUserKey(s: State, cfg: Settings, ref: Ref, now: Time, later: Time)
    requires UsersOk(s.users)
    ensures var q := ForgetUser(s, cfg, ref, now);
      && Find(q.users, ref) == None
      && (Negative.Remembers(q.negative, UserKey(ref), later) <==> later < now + cfg.ttlNegative)
  {
    FoundRowIsGone(s.users, ref);
    hide Find, StaleGroups, Negative.Room;
  }

  lemma ForgottenGroupKey(s: State, cfg: Settings, ref: Ref, now: Time, later: Time)
    requires GroupsOk(s.groups)
    ensures var q := ForgetGroup(s, cfg, ref, now);
      && Find(q.groups, ref) == None
      && (Negative.Remembers(q.negative, GroupKey(ref), later) <==> later < now + cfg.ttlNegative)
  {
    FoundRowIsGone(s.groups, ref);
    hide Find, Negative.Room;
  }

  /** Any answer but a record for the key, a refused name or none at all leaves nothing
      under the key, which is a miss from then on for the negative timeout. */
  lemma RefusedAnswerForgets(
    s: State, cfg: Settings, host: Host, ref: Ref, sshd: bool, a: Answer<UserRecord>, now: Time, later: Time)
    requires Inv(s) && AsksForUser(s, cfg, host, ref, sshd, now)
    requires !AcceptsUser(cfg, host, ref, a) && !a.Unavailable? && !a.Invalid?
    ensures var (q, o, _) := ResolveUser(s, cfg, host, ref, sshd, a, now);
      && o == NoRecord && Find(q.users, ref) == None
      && (Negative.Remembers(q.negative, UserKey(ref), later) <==> later < now + cfg.ttlNegative)
  {
    hide ResolveUser, AcceptsUser, ForgetUser, StoreUser, ServeUser, Find, Negative.Asked, UsersOk, UsersHit, PairsOk;
    ForgottenUserKey(s.(negative := Negative.Asked(s.negative, UserKey(ref), now)), cfg, ref, now, later);
  }

  lemma RefusedGroupAnswerForgets(
    s: State, cfg: Settings, host: Host, ref: Ref, needMembers: bool, a: Answer<GroupRecord>, now: Time, later: Time)
    requires Inv(s) && AsksForGroup(s, cfg, host, ref, needMembers, now)
    requires !AcceptsGroup(cfg, host, ref, a) && !a.Unavailable? && !a.Invalid?
    ensures var (q, o, _) := ResolveGroup(s, cfg, host, ref, needMembers, a, now);
      && o == NoRecord && Find(q.groups, ref) == None
      && (Negative.Remembers(q.negative, GroupKey(ref), later) <==> later < now + cfg.ttlNegative)
  {
    hide ResolveGroup, AcceptsGroup, ForgetGroup, StoreGroup, ServeGroup, Find, Negative.Asked;
    hide GroupsOk, GroupsHit, PairsOk;
    ForgottenGroupKey(s.(negative := Negative.Asked(s.negative, GroupKey(ref), now)), cfg, ref, now, later);
  }

  /* A transient disagreement heals */

  /** After a user's fetch, the next lookup of a group whose complete list lacks it, and
      which the server has not confirmed, asks the server, whose list replaces it. */
  lemma ContradictedGroupHeals(
    s: State, cfg: Settings, stored: Host, r: UserRecord, at: Time, m: Membership,
    host: Host, needMembers: bool, g: GroupRecord, now: Time)
    requires Inv(s) && r.name != "" && !cfg.policy.ignoreGroupMembers
    requires m in r.groups && StubAllowed(cfg.policy, stored, m) && m.gid != r.gid
    requires Contradicts(s.groups, m.name, r.name, false) && !Suppressed(s.pairs, At(m.name, r.name))
    requires Full(StoreUser(s, cfg, stored, r, at).groups, m.name)
    requires GroupKeyAllowed(cfg.policy, host, ByName(m.name)) && AcceptsGroup(cfg, host, ByName(m.name), Found(g))
    ensures var q := StoreUser(s, cfg, stored, r, at);
      var (q, o, _) := ResolveGroup(q, cfg, host, ByName(m.name), needMembers, Found(g), now);
      o == Served(ServeGroup(cfg.policy, host, g).value) && m.name in q.groups &&
        q.groups[m.name] == GroupEntry(cfg, g, now)
  {
    var q := StoreUser(s, cfg, stored, r, at);
    StoredUserIsCoherent(s, cfg, stored, r, at, m);
    var fetch := Event(RefreshUser(ByName(r.name), Found(r)), stored, at);
    Disagreement.OnlyGroupCopiesReplace(s, cfg, fetch, StoresUser(r), m.name);
    assert q.groups[m.name].stale;
    StoreUserKeepsInv(s, cfg, stored, r, at);
    hide StoreUser, Inv, AsksForGroup, AcceptsGroup, GroupKeyAllowed, ResolveGroup;
    StaleGroupIsRefetched(q, cfg, m.name, host, ByName(m.name), needMembers, now);
    AskedGroupIsServed(q, cfg, host, ByName(m.name), needMembers, g, now);
    assert Matches(ByName(m.name), g.name, g.gid) by {
      assert AcceptsGroup(cfg, host, ByName(m.name), Found(g));
    }
  }

  /** After a group's copy, the next lookup of a user it gained or lost, whose record says
      otherwise, asks the server. */
  lemma ContradictedUserHeals(
    s: State, cfg: Settings, g: GroupRecord, at: Time, n: string, host: Host, sshd: bool, r: UserRecord, now: Time)
    requires Inv(s) && g.name != "" && n in s.users && Full(s.groups, g.name)
    requires (n in s.groups[g.name].data.value.members) != (n in g.members)
    requires HasMembership(s.users[n].data.groups, g.name) != (n in g.members)
    requires UserKeyAllowed(cfg.policy, host, ByName(n)) && AcceptsUser(cfg, host, ByName(n), Found(r))
    ensures ResolveUser(StoreGroup(s, cfg, g, at), cfg, host, ByName(n), sshd, Found(r), now).1 ==
      Served(ServeUser(cfg.policy, host, r).value)
  {
    var q := StoreGroup(s, cfg, g, at);
    StoredGroupIsCoherent(s, cfg, g, at, n);
    StoreGroupKeepsInv(s, cfg, g, at);
    hide StoreGroup, Inv, AsksForUser, AcceptsUser, UserKeyAllowed, ResolveUser;
    StaleUserIsRefetched(q, cfg, n, host, ByName(n), sshd, now);
    AskedAnswerIsServed(q, cfg, host, ByName(n), sshd, r, now);
  }

  /* Invalidation */

  /** An invalidation forgets all misses, or exactly those of the name it selects. */
  lemma InvalidationForgetsMisses(s: State, sel: Selector, k: Key)
    ensures k in Invalidate(s, sel).negative <==>
      && k in s.negative && sel.name != ""
      && !(sel.users && k == UserKey(ByName(sel.name))) && !(sel.groups && k == GroupKey(ByName(sel.name)))
    ensures k in Invalidate(s, sel).negative ==> Invalidate(s, sel).negative[k] == s.negative[k]
  {
  }

  /** Right after it the next lookup of a selected name asks the server, whether the name
      was cached, missed or neither. */
  lemma InvalidatedUserIsAsked(s: State, cfg: Settings, sel: Selector, n: string, host: Host, sshd: bool, now: Time)
    requires Inv(s) && sel.users && Selects(sel, n) && UserKeyAllowed(cfg.policy, host, ByName(n))
    ensures AsksForUser(Invalidate(s, sel), cfg, host, ByName(n), sshd, now)
  {
    var q := Invalidate(s, sel);
    InvalidationForgetsMisses(s, sel, UserKey(ByName(n)));
    InvalidateKeepsInv(s, sel);
    hide AsksForUser, UserKeyAllowed, Inv;
    if n in s.users {
      StaleUserIsRefetched(q, cfg, n, host, ByName(n), sshd, now);
    } else {
      DueFetchAsksForUser(q, cfg, host, ByName(n), sshd, now);
    }
  }

  lemma InvalidatedGroupIsAsked(
    s: State, cfg: Settings, sel: Selector, n: string, host: Host, needMembers: bool, now: Time)
    requires Inv(s) && sel.groups && Selects(sel, n) && GroupKeyAllowed(cfg.policy, host, ByName(n))
    ensures AsksForGroup(Invalidate(s, sel), cfg, host, ByName(n), needMembers, now)
  {
    var q := Invalidate(s, sel);
    InvalidationForgetsMisses(s, sel, GroupKey(ByName(n)));
    InvalidateKeepsInv(s, sel);
    hide AsksForGroup, GroupKeyAllowed, Inv;
    if n in s.groups {
      StaleGroupIsRefetched(q, cfg, n, host, ByName(n), needMembers, now);
    } else {
      DueFetchAsksForGroup(q, cfg, host, ByName(n), needMembers, now);
    }
  }

  /* Stubs */

  /** The entry a membership fills in for its group. */
  function Stub(m: Membership, cfg: Settings, at: Time): Entry<Option<GroupRecord>> {
    Entry(m.name, m.gid, None, at, at + cfg.ttlGroup, false)
  }

  /** A membership no other one of the record moves is filled in, unless the group's list
      was there. */
  lemma {:induction false} StubsFillIn(b: Stubs, ms: seq<Membership>, cfg: Settings, at: Time, m: Membership)
    requires forall x | x in ms :: !Moves(x, m.name, m.gid)
    requires !Full(b.groups, m.name) && (m in ms || (m.name in b.groups && b.groups[m.name] == Stub(m, cfg, at)))
    ensures var q := StubAll(b, ms, cfg.ttlGroup, at).groups; m.name in q && q[m.name] == Stub(m, cfg, at)
    decreases |ms|
  {
    if ms != [] {
      assert !Moves(ms[0], m.name, m.gid);
      StubsFillIn(StubOne(b, ms[0], cfg.ttlGroup, at), ms[1..], cfg, at, m);
    }
  }

  /** No stub is marked by the fetch that fills it in. */
  lemma FilledInStubIsFresh(s: State, cfg: Settings, host: Host, r: UserRecord, at: Time, m: Membership)
    requires Inv(s) && m in r.groups && StubAllowed(cfg.policy, host, m) && !Full(s.groups, m.name)
    requires forall x | x in r.groups :: !Moves(x, m.name, m.gid)
    ensures var q := StoreUser(s, cfg, host, r, at); m.name in q.groups && q.groups[m.name] == Stub(m, cfg, at)
  {
    var served, prev := ServedMemberships(cfg, host, r.groups), PreviousGroups(s.users, r.name);
    var stubbed, q := Stubbed(s, cfg, host, r, at), StoreUser(s, cfg, host, r, at);
    var l, weighed := Lists(stubbed, s.pairs), Weigh(Lists(stubbed, s.pairs), r.name, r.gid, prev, served);
    ServedAreNamed(cfg, host, r.groups);
    StubsFillIn(Stubs(s.groups, s.negative - {UserKey(ByName(r.name)), UserKey(ById(r.uid))}), served, cfg, at, m);
    Disagreement.StubbedIsFine(s, cfg, host, r, at);
    hide Inv, StubAll, ServedMemberships;
    StaleGroupsOnlyMarks(l, cfg.policy.ignoreGroupMembers, r.name, r.gid, served, r.groups, prev);
    WeighOnlyMarks(l, r.name, r.gid, prev, served);
    assert MarksAtMost(stubbed, q.groups, m.name) && MarksAtMost(stubbed, weighed.groups, m.name);
    if IsStale(weighed.groups, m.name) {
      WeighMarksOnlyContradicted(l, r.name, r.gid, prev, served, m.name);
    } else if prev.Some? && !cfg.policy.ignoreGroupMembers && IsStale(q.groups, m.name) {
      OnlyMarksKeepsGroups(stubbed, weighed.groups, map[]);
      LeaveMarksOnlyContradicted(weighed, r.name, r.groups, prev.value, m.name);
    }
  }

  /** Until it expires a stub answers for its group's name and gid, without members and
      without the server; a caller that needs members asks for them. */
  lemma StubAnswersWithoutMembers(
    s: State, cfg: Settings, m: Membership, at: Time, host: Host, ref: Ref, needMembers: bool,
    a: Answer<GroupRecord>, now: Time)
    requires Inv(s) && m.name in s.groups && s.groups[m.name] == Stub(m, cfg, at) && now < at + cfg.ttlGroup
    requires Matches(ref, m.name, m.gid) && GroupKeyAllowed(cfg.policy, host, ref) && StubAllowed(cfg.policy, host, m)
    ensures if needMembers then AsksForGroup(s, cfg, host, ref, true, now)
      else ResolveGroup(s, cfg, host, ref, false, a, now) == (s, Served(Group(m.name, m.gid, [])), false)
  {
    hide AsksForGroup, GroupKeyAllowed, Inv, StubAllowed;
    CachedGroupIsFound(s, ref, m.name);
    if needMembers {
      DueFetchAsksForGroup(s, cfg, host, ref, true, now);
    } else {
      hide LoadGroup, Find;
    }
  }
}
