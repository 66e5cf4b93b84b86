/** What every operation of the daemon keeps. */
module Invariant {
  import opened Types
  import opened Store
  import opened Contradictions
  import Negative
  import opened Policy
  import opened Coherence

  /* The tables: every entry carries its record's own name and id */

  ghost predicate UserRow(users: Users, n: string) {
    n in users ==> n != "" && users[n].data.name == n && users[n].data.uid == users[n].id
  }

  ghost predicate GroupRow(groups: Groups, n: string) {
    n in groups ==>
      n != "" && (groups[n].data.Some? ==> groups[n].data.value.name == n && groups[n].data.value.gid == groups[n].id)
  }

  ghost predicate UsersOk(users: Users) {
    Unique(users) && forall n :: UserRow(users, n)
  }

  ghost predicate GroupsOk(groups: Groups) {
    Unique(groups) && forall n :: GroupRow(groups, n)
  }

  /* Hits and misses: nothing cached is remembered as missing */

  ghost predicate UserHit(users: Users, negative: Negative.Misses, n: string) {
    n in users ==> UserKey(ByName(n)) !in negative && UserKey(ById(users[n].id)) !in negative
  }

  ghost predicate GroupHit(groups: Groups, negative: Negative.Misses, n: string) {
    n in groups ==> GroupKey(ByName(n)) !in negative && GroupKey(ById(groups[n].id)) !in negative
  }

  ghost predicate UsersHit(users: Users, negative: Negative.Misses) {
    forall n :: UserHit(users, negative, n)
  }

  ghost predicate GroupsHit(groups: Groups, negative: Negative.Misses) {
    forall n :: GroupHit(groups, negative, n)
  }

  /* Contradictions: a pair awaiting its group's next copy has marked the group */

  ghost predicate AwaitsStale(l: Lists, k: Pair) {
    Awaiting(l.pairs, k) && Full(l.groups, k.group) ==> l.groups[k.group].stale
  }

  ghost predicate PairsOk(l: Lists) {
    Ordered(l.pairs) && |l.pairs.held| <= MAX_CONTRADICTIONS && forall k :: AwaitsStale(l, k)
  }

  ghost predicate Inv(s: State) {
    && UsersOk(s.users) && GroupsOk(s.groups)
    && UsersHit(s.users, s.negative) && GroupsHit(s.groups, s.negative)
    && PairsOk(Lists(s.groups, s.pairs))
    && |s.negative| <= Negative.MAX_NEGATIVE
  }

  /** The empty state the daemon starts in. */
  const EMPTY := State(map[], map[], map[], Pairs(map[], 0))

  lemma EmptyIsFine()
    ensures Inv(EMPTY)
  {
  }

  /* Operations that only mark group entries */

  ghost predicate MarksAtMost<D>(t: Table<D>, q: Table<D>, n: string) {
    && (n in q <==> n in t)
    && (n in t ==> q[n] == t[n] || q[n] == Marked(t[n]))
  }

  /** The same entries, some of them newly stale. */
  ghost predicate OnlyMarks<D>(t: Table<D>, q: Table<D>) {
    forall n :: MarksAtMost(t, q, n)
  }

  lemma OnlyMarksTwice<D>(t: Table<D>, q: Table<D>, r: Table<D>)
    requires OnlyMarks(t, q) && OnlyMarks(q, r)
    ensures OnlyMarks(t, r)
  {
    forall n ensures MarksAtMost(t, r, n) {
      assert MarksAtMost(t, q, n) && MarksAtMost(q, r, n);
    }
  }

  lemma OnlyMarksIsUnique<D>(t: Table<D>, q: Table<D>)
    requires Unique(t) && OnlyMarks(t, q)
    ensures Unique(q)
  {
    forall m, n ensures OwnRow(q, m, n) {
      assert OwnRow(t, m, n) && MarksAtMost(t, q, m) && MarksAtMost(t, q, n);
    }
  }

  lemma OnlyMarksKeepsUsers(t: Users, q: Users, negative: Negative.Misses)
    requires OnlyMarks(t, q) && UsersOk(t)
    ensures UsersOk(q)
    ensures UsersHit(t, negative) ==> UsersHit(q, negative)
  {
    OnlyMarksIsUnique(t, q);
    forall n ensures UserRow(q, n) && (UserHit(t, negative, n) ==> UserHit(q, negative, n)) {
      assert UserRow(t, n) && MarksAtMost(t, q, n);
    }
  }

  lemma OnlyMarksKeepsGroups(t: Groups, q: Groups, negative: Negative.Misses)
    requires OnlyMarks(t, q) && GroupsOk(t)
    ensures GroupsOk(q)
    ensures GroupsHit(t, negative) ==> GroupsHit(q, negative)
  {
    OnlyMarksIsUnique(t, q);
    forall n ensures GroupRow(q, n) && (GroupHit(t, negative, n) ==> GroupHit(q, negative, n)) {
      assert GroupRow(t, n) && MarksAtMost(t, q, n);
    }
  }

  lemma MarkStaleOnlyMarks<D>(t: Table<D>, name: string)
    ensures OnlyMarks(t, MarkStale(t, name))
  {
  }

  lemma {:induction false} WeighOnlyMarks(
    l: Lists, user: string, primary: Uint32, prev: Option<seq<Membership>>, served: seq<Membership>)
    ensures OnlyMarks(l.groups, Weigh(l, user, primary, prev, served).groups)
    decreases |served|
  {
    if served != [] {
      var next := WeighOne(l, user, primary, prev, served[0]);
      MarkStaleOnlyMarks(l.groups, served[0].name);
      WeighOnlyMarks(next, user, primary, prev, served[1..]);
      OnlyMarksTwice(l.groups, next.groups, Weigh(l, user, primary, prev, served).groups);
    }
  }

  lemma {:induction false} LeaveOnlyMarks(l: Lists, user: string, current: seq<Membership>, prev: seq<Membership>)
    ensures OnlyMarks(l.groups, Leave(l, user, current, prev).groups)
    decreases |prev|
  {
    if prev != [] {
      var next := LeaveOne(l, user, current, prev[0]);
      MarkStaleOnlyMarks(l.groups, prev[0].name);
      LeaveOnlyMarks(next, user, current, prev[1..]);
      OnlyMarksTwice(l.groups, next.groups, Leave(l, user, current, prev).groups);
    }
  }

  lemma StaleGroupsOnlyMarks(l: Lists, ignore: bool, user: string, primary: Uint32,
                             served: seq<Membership>, current: seq<Membership>, prev: Option<seq<Membership>>)
    ensures OnlyMarks(l.groups, StaleGroups(l, ignore, user, primary, served, current, prev).groups)
  {
    var weighed := Weigh(l, user, primary, prev, served);
    WeighOnlyMarks(l, user, primary, prev, served);
    if prev.Some? {
      LeaveOnlyMarks(weighed, user, current, prev.value);
      OnlyMarksTwice(l.groups, weighed.groups, Leave(weighed, user, current, prev.value).groups);
    }
  }

  /* Pairs */

  /** Marking entries and dropping pairs keeps awaiting pairs' groups stale. */
  lemma StillAwaitsStale(l: Lists, q: Lists)
    requires PairsOk(l) && Ordered(q.pairs) && |q.pairs.held| <= MAX_CONTRADICTIONS
    requires OnlyMarks(l.groups, q.groups)
    requires forall k | Awaiting(q.pairs, k) :: Awaiting(l.pairs, k)
    ensures PairsOk(q)
  {
    forall k ensures AwaitsStale(q, k) {
      assert AwaitsStale(l, k) && MarksAtMost(l.groups, q.groups, k.group);
    }
  }

  lemma WeighOneKeepsPairs(l: Lists, user: string, primary: Uint32, prev: Option<seq<Membership>>, m: Membership)
    requires PairsOk(l)
    ensures PairsOk(WeighOne(l, user, primary, prev, m))
  {
    var k, q := At(m.name, user), WeighOne(l, user, primary, prev, m);
    MarkStaysOrdered(l.pairs, k, MAX_CONTRADICTIONS);
    MarkStaysBounded(l.pairs, k, MAX_CONTRADICTIONS);
    MarkStaleOnlyMarks(l.groups, m.name);
    forall j ensures AwaitsStale(q, j) {
      assert AwaitsStale(l, j) && MarksAtMost(l.groups, MarkStale(l.groups, m.name), j.group);
    }
  }

  lemma {:induction false} WeighKeepsPairs(
    l: Lists, user: string, primary: Uint32, prev: Option<seq<Membership>>, served: seq<Membership>)
    requires PairsOk(l)
    ensures PairsOk(Weigh(l, user, primary, prev, served))
    decreases |served|
  {
    if served != [] {
      WeighOneKeepsPairs(l, user, primary, prev, served[0]);
      WeighKeepsPairs(WeighOne(l, user, primary, prev, served[0]), user, primary, prev, served[1..]);
    }
  }

  lemma LeaveOneKeepsPairs(l: Lists, user: string, current: seq<Membership>, m: Membership)
    requires PairsOk(l)
    ensures PairsOk(LeaveOne(l, user, current, m))
  {
    OpKeepsOrder(l.pairs, ForgetOp(At(m.name, user)), MAX_CONTRADICTIONS);
    MarkStaleOnlyMarks(l.groups, m.name);
    var q := LeaveOne(l, user, current, m);
    if q != l {
      StillAwaitsStale(l, q);
    }
  }

  lemma {:induction false} LeaveKeepsPairs(l: Lists, user: string, current: seq<Membership>, prev: seq<Membership>)
    requires PairsOk(l)
    ensures PairsOk(Leave(l, user, current, prev))
    decreases |prev|
  {
    if prev != [] {
      LeaveOneKeepsPairs(l, user, current, prev[0]);
      LeaveKeepsPairs(LeaveOne(l, user, current, prev[0]), user, current, prev[1..]);
    }
  }

  lemma StaleGroupsKeepsPairs(l: Lists, ignore: bool, user: string, primary: Uint32,
                              served: seq<Membership>, current: seq<Membership>, prev: Option<seq<Membership>>)
    requires PairsOk(l)
    ensures PairsOk(StaleGroups(l, ignore, user, primary, served, current, prev))
  {
    WeighKeepsPairs(l, user, primary, prev, served);
    if prev.Some? {
      LeaveKeepsPairs(Weigh(l, user, primary, prev, served), user, current, prev.value);
    }
  }

  /* Group entries put in place */

  /** Putting an entry keeps the tables, and the hits once its keys are cleared. */
  lemma PutKeepsGroups(groups: Groups, negative: Negative.Misses, e: Entry<Option<GroupRecord>>)
    requires GroupsOk(groups) && GroupsHit(groups, negative)
    requires e.name != "" && (e.data.Some? ==> e.data.value.name == e.name && e.data.value.gid == e.id)
    ensures GroupsOk(Put(groups, e))
    ensures GroupsHit(Put(groups, e), negative - {GroupKey(ByName(e.name)), GroupKey(ById(e.id))})
  {
    PutStaysUnique(groups, e);
    var q, left := Put(groups, e), negative - {GroupKey(ByName(e.name)), GroupKey(ById(e.id))};
    forall n ensures GroupRow(q, n) && GroupHit(q, left, n) {
      assert GroupRow(groups, n) && GroupHit(groups, negative, n);
    }
  }

  lemma PutKeepsUsers(users: Users, negative: Negative.Misses, e: Entry<UserRecord>)
    requires UsersOk(users) && UsersHit(users, negative)
    requires e.name != "" && e.data.name == e.name && e.data.uid == e.id
    ensures UsersOk(Put(users, e))
    ensures UsersHit(Put(users, e), negative - {UserKey(ByName(e.name)), UserKey(ById(e.id))})
  {
    PutStaysUnique(users, e);
    var q, left := Put(users, e), negative - {UserKey(ByName(e.name)), UserKey(ById(e.id))};
    forall n ensures UserRow(q, n) && UserHit(q, left, n) {
      assert UserRow(users, n) && UserHit(users, negative, n);
    }
  }

  /** A stub in place of an entry leaves no awaiting pair without its mark. */
  lemma PutStubKeepsPairs(l: Lists, e: Entry<Option<GroupRecord>>)
    requires PairsOk(l) && e.data.None?
    ensures PairsOk(l.(groups := Put(l.groups, e)))
  {
    var q := l.(groups := Put(l.groups, e));
    forall k ensures AwaitsStale(q, k) {
      assert AwaitsStale(l, k);
    }
  }

  ghost predicate FewerMisses(m: Negative.Misses, q: Negative.Misses) {
    q.Keys <= m.Keys
  }

  lemma FewerMissesFit(m: Negative.Misses, q: Negative.Misses)
    requires FewerMisses(m, q)
    ensures |q| <= |m|
  {
    assert |q.Keys| + |m.Keys - q.Keys| == |m.Keys| by {
      assert m.Keys == q.Keys + (m.Keys - q.Keys);
    }
  }

  lemma FewerMissesKeepHits(users: Users, groups: Groups, m: Negative.Misses, q: Negative.Misses)
    requires FewerMisses(m, q)
    ensures UsersHit(users, m) ==> UsersHit(users, q)
    ensures GroupsHit(groups, m) ==> GroupsHit(groups, q)
  {
    forall n ensures (UserHit(users, m, n) ==> UserHit(users, q, n)) &&
      (GroupHit(groups, m, n) ==> GroupHit(groups, q, n)) {
    }
  }

  ghost predicate Named(ms: seq<Membership>) {
    forall i :: 0 <= i < |ms| ==> ms[i].name != ""
  }

  lemma {:induction false} StubsKeep(b: Stubs, pairs: Pairs, ms: seq<Membership>, ttl: Time, now: Time)
    requires GroupsOk(b.groups) && GroupsHit(b.groups, b.negative) && PairsOk(Lists(b.groups, pairs))
    requires Named(ms)
    ensures var q := StubAll(b, ms, ttl, now);
      && GroupsOk(q.groups) && GroupsHit(q.groups, q.negative) && PairsOk(Lists(q.groups, pairs))
      && FewerMisses(b.negative, q.negative)
    decreases |ms|
  {
    if ms != [] {
      var m := ms[0];
      var e: Entry<Option<GroupRecord>> := Entry(m.name, m.gid, None, now, now + ttl, false);
      PutKeepsGroups(b.groups, b.negative, e);
      PutStubKeepsPairs(Lists(b.groups, pairs), e);
      StubsKeep(StubOne(b, m, ttl, now), pairs, ms[1..], ttl, now);
    }
  }

  lemma {:induction false} ServedAreNamed(cfg: Settings, host: Host, ms: seq<Membership>)
    ensures forall m | m in ServedMemberships(cfg, host, ms) ::
      m in ms && StubAllowed(cfg.policy, host, m) && m.name != ""
    ensures forall m | m in ms && StubAllowed(cfg.policy, host, m) :: m in ServedMemberships(cfg, host, ms)
  {
    if ms != [] {
      ServedAreNamed(cfg, host, ms[1..]);
      assert ms == [ms[0]] + ms[1..];
    }
  }

  /* The operations */

  lemma StoreUserKeepsInv(s: State, cfg: Settings, host: Host, r: UserRecord, now: Time)
    requires Inv(s) && r.name != ""
    ensures Inv(StoreUser(s, cfg, host, r, now))
  {
    var served := ServedMemberships(cfg, host, r.groups);
    var left := s.negative - {UserKey(ByName(r.name)), UserKey(ById(r.uid))};
    var stubs := StubAll(Stubs(s.groups, left), served, cfg.ttlGroup, now);
    var prev := PreviousGroups(s.users, r.name);
    ServedAreNamed(cfg, host, r.groups);
    FewerMissesKeepHits(s.users, s.groups, s.negative, left);
    StubsKeep(Stubs(s.groups, left), s.pairs, served, cfg.ttlGroup, now);
    PutKeepsUsers(s.users, s.negative, UserEntry(cfg, r, now));
    FewerMissesKeepHits(Put(s.users, UserEntry(cfg, r, now)), stubs.groups, left, stubs.negative);
    FewerMissesFit(s.negative, stubs.negative);
    var l := Lists(stubs.groups, s.pairs);
    var ignore := cfg.policy.ignoreGroupMembers;
    StaleGroupsOnlyMarks(l, ignore, r.name, r.gid, served, r.groups, prev);
    StaleGroupsKeepsPairs(l, ignore, r.name, r.gid, served, r.groups, prev);
    OnlyMarksKeepsGroups(stubs.groups, StaleGroups(l, ignore, r.name, r.gid, served, r.groups, prev).groups,
      stubs.negative);
  }

  /** Remembering a miss is safe once nothing cached answers the key. */
  lemma MissIsSafe(users: Users, groups: Groups, m: Negative.Misses, key: Key, now: Time, ttl: Time)
    requires UsersHit(users, m) && GroupsHit(groups, m) && |m| <= Negative.MAX_NEGATIVE
    requires forall n | n in users :: key != UserKey(ByName(n)) && key != UserKey(ById(users[n].id))
    requires forall n | n in groups :: key != GroupKey(ByName(n)) && key != GroupKey(ById(groups[n].id))
    ensures var q := Negative.Add(m, key, now, ttl);
      UsersHit(users, q) && GroupsHit(groups, q) && |q| <= Negative.MAX_NEGATIVE
  {
    Negative.AddIsBounded(m, key, now, ttl);
    var q := Negative.Add(m, key, now, ttl);
    forall n ensures UserHit(users, q, n) && GroupHit(groups, q, n) {
      assert UserHit(users, m, n) && GroupHit(groups, m, n);
    }
  }

  /** Once the row a key finds is deleted, no row answers the key. */
  lemma DeletedIsGone<D>(t: Table<D>, ref: Ref, n: string)
    requires Unique(t)
    requires n in t && !(Find(t, ref).Some? && n == Find(t, ref).value.name)
    ensures ref != ByName(n) && ref != ById(t[n].id)
  {
    FindIsTheRow(t, ref, n);
    assert OwnRow(t, n, n);
  }

  lemma DeleteKeeps(users: Users, groups: Groups, negative: Negative.Misses, pairs: Pairs, user: string, group: string)
    requires UsersOk(users) && UsersHit(users, negative)
    requires GroupsOk(groups) && GroupsHit(groups, negative) && PairsOk(Lists(groups, pairs))
    ensures UsersOk(Delete(users, user)) && UsersHit(Delete(users, user), negative)
    ensures GroupsOk(Delete(groups, group)) && GroupsHit(Delete(groups, group), negative)
    ensures PairsOk(Lists(Delete(groups, group), pairs))
  {
    var u, g := Delete(users, user), Delete(groups, group);
    StaysUnique(users, u);
    StaysUnique(groups, g);
    forall n ensures UserRow(u, n) && UserHit(u, negative, n) && GroupRow(g, n) && GroupHit(g, negative, n) {
      assert UserRow(users, n) && UserHit(users, negative, n) && GroupRow(groups, n) && GroupHit(groups, negative, n);
    }
    var l, q := Lists(groups, pairs), Lists(g, pairs);
    forall k ensures AwaitsStale(q, k) {
      assert AwaitsStale(l, k);
    }
  }

  lemma ForgetUserKeepsInv(s: State, cfg: Settings, ref: Ref, now: Time)
    requires Inv(s)
    ensures Inv(ForgetUser(s, cfg, ref, now))
  {
    var found := Find(s.users, ref);
    var name := if found.Some? then found.value.name else "";
    var users := Delete(s.users, name);
    assert UserRow(s.users, "");
    forall n | n in users ensures ref != ByName(n) && ref != ById(users[n].id) {
      DeletedIsGone(s.users, ref, n);
    }
    hide UsersOk, GroupsOk, UsersHit, GroupsHit, PairsOk, StaleGroups, Negative.Add;
    DeleteKeeps(s.users, s.groups, s.negative, s.pairs, name, "");
    MissIsSafe(users, s.groups, s.negative, UserKey(ref), now, cfg.ttlNegative);
    if found.Some? {
      var prev := Some(found.value.data.groups);
      var l, ignore := Lists(s.groups, s.pairs), cfg.policy.ignoreGroupMembers;
      StaleGroupsOnlyMarks(l, ignore, name, 0, [], [], prev);
      StaleGroupsKeepsPairs(l, ignore, name, 0, [], [], prev);
      OnlyMarksKeepsGroups(s.groups, StaleGroups(l, ignore, name, 0, [], [], prev).groups,
                           Negative.Add(s.negative, UserKey(ref), now, cfg.ttlNegative));
    } else {
      assert users == s.users;
    }
  }

  lemma ForgetGroupKeepsInv(s: State, cfg: Settings, ref: Ref, now: Time)
    requires Inv(s)
    ensures Inv(ForgetGroup(s, cfg, ref, now))
  {
    var found := Find(s.groups, ref);
    var name := if found.Some? then found.value.name else "";
    var groups := Delete(s.groups, name);
    assert GroupRow(s.groups, "");
    forall n | n in groups ensures ref != ByName(n) && ref != ById(groups[n].id) {
      DeletedIsGone(s.groups, ref, n);
    }
    DeleteKeeps(s.users, s.groups, s.negative, s.pairs, "", name);
    MissIsSafe(s.users, groups, s.negative, GroupKey(ref), now, cfg.ttlNegative);
    if found.None? {
      assert groups == s.groups;
    }
  }

  /** A fresh copy of a group leaves none of its pairs awaiting. */
  lemma SettleKeepsPairs(l: Lists, e: Entry<Option<GroupRecord>>, members: seq<string>, truncated: bool, changed: bool)
    requires PairsOk(l)
    ensures PairsOk(Lists(Put(l.groups, e), Settle(l.pairs, e.name, members, truncated, changed)))
  {
    SettleShrinks(l.pairs, e.name, members, truncated, changed);
    var q := Lists(Put(l.groups, e), Settle(l.pairs, e.name, members, truncated, changed));
    forall k ensures AwaitsStale(q, k) {
      assert AwaitsStale(l, k);
    }
  }

  lemma StaleUsersOnlyMarks(users: Users, prev: seq<string>, r: GroupRecord)
    ensures OnlyMarks(users, StaleUsers(users, prev, r))
  {
    hide Disagrees;
  }

  lemma StoreGroupKeepsInv(s: State, cfg: Settings, r: GroupRecord, now: Time)
    requires Inv(s) && r.name != ""
    ensures Inv(StoreGroup(s, cfg, r, now))
  {
    var e, prev := GroupEntry(cfg, r, now), PreviousMembers(s.groups, r.name);
    var left := s.negative - {GroupKey(ByName(r.name)), GroupKey(ById(r.gid))};
    hide UsersOk, GroupsOk, UsersHit, GroupsHit, PairsOk, Put, Settle, StaleUsers, Changed;
    PutKeepsGroups(s.groups, s.negative, e);
    SettleKeepsPairs(Lists(s.groups, s.pairs), e, r.members, r.truncated, Changed(prev, r));
    FewerMissesFit(s.negative, left);
    FewerMissesKeepHits(s.users, s.groups, s.negative, left);
    if prev.Some? {
      StaleUsersOnlyMarks(s.users, prev.value, r);
      OnlyMarksKeepsUsers(s.users, StaleUsers(s.users, prev.value, r), left);
    }
  }

  lemma InvalidateKeepsInv(s: State, sel: Selector)
    requires Inv(s)
    ensures Inv(Invalidate(s, sel))
  {
    var q := Invalidate(s, sel);
    MarkStaleOnlyMarks(s.users, sel.name);
    MarkStaleOnlyMarks(s.groups, sel.name);
    assert OnlyMarks(s.users, q.users) && OnlyMarks(s.groups, q.groups);
    FewerMissesFit(s.negative, q.negative);
    FewerMissesKeepHits(s.users, s.groups, s.negative, q.negative);
    OnlyMarksKeepsUsers(s.users, q.users, q.negative);
    OnlyMarksKeepsGroups(s.groups, q.groups, q.negative);
    StillAwaitsStale(Lists(s.groups, s.pairs), Lists(q.groups, q.pairs));
  }

  lemma AskedKeepsInv(s: State, key: Key, now: Time)
    requires Inv(s)
    ensures Inv(s.(negative := Negative.Asked(s.negative, key, now)))
  {
    var q := Negative.Asked(s.negative, key, now);
    FewerMissesFit(s.negative, q);
    FewerMissesKeepHits(s.users, s.groups, s.negative, q);
  }

  lemma LoadUserKeepsInv(s: State, cfg: Settings, host: Host, ref: Ref, a: Answer<UserRecord>, now: Time)
    requires Inv(s)
    ensures Inv(LoadUser(s, cfg, host, ref, a, now).0)
  {
    if AcceptsUser(cfg, host, ref, a) {
      StoreUserKeepsInv(s, cfg, host, a.record, now);
    } else {
      ForgetUserKeepsInv(s, cfg, ref, now);
    }
  }

  lemma LoadGroupKeepsInv(s: State, cfg: Settings, host: Host, ref: Ref, a: Answer<GroupRecord>, now: Time)
    requires Inv(s)
    ensures Inv(LoadGroup(s, cfg, host, ref, a, now).0)
  {
    if AcceptsGroup(cfg, host, ref, a) {
      StoreGroupKeepsInv(s, cfg, a.record, now);
    } else {
      ForgetGroupKeepsInv(s, cfg, ref, now);
    }
  }

  lemma ResolveUserKeepsInv(s: State, cfg: Settings, host: Host, ref: Ref, sshd: bool, a: Answer<UserRecord>, now: Time)
    requires Inv(s)
    ensures Inv(ResolveUser(s, cfg, host, ref, sshd, a, now).0)
  {
    AskedKeepsInv(s, UserKey(ref), now);
    LoadUserKeepsInv(s.(negative := Negative.Asked(s.negative, UserKey(ref), now)), cfg, host, ref, a, now);
  }

  lemma ResolveGroupKeepsInv(
    s: State, cfg: Settings, host: Host, ref: Ref, needMembers: bool, a: Answer<GroupRecord>, now: Time)
    requires Inv(s)
    ensures Inv(ResolveGroup(s, cfg, host, ref, needMembers, a, now).0)
  {
    AskedKeepsInv(s, GroupKey(ref), now);
    LoadGroupKeepsInv(s.(negative := Negative.Asked(s.negative, GroupKey(ref), now)), cfg, host, ref, a, now);
  }
}
