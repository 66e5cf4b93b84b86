/** What storing and forgetting a record guarantee about the cached records on
    the other side of its memberships. */
module Guarantees {
  import opened Types
  import opened Store
  import opened Contradictions
  import opened Policy
  import opened Coherence
  import opened Invariant

  /** The group's cached list names the user, is truncated, is due a refetch, or
      lacks the user with the server's confirmation and no change on the user's
      side. `pairs` are those held before the record arrived. */
  ghost predicate Reconciled(groups: Groups, user: string, group: string, prev: Option<seq<Membership>>, pairs: Pairs) {
    Full(groups, group) ==>
      || user in groups[group].data.value.members
      || groups[group].data.value.truncated
      || groups[group].stale
      || (prev.Some? && HasMembership(prev.value, group) && Suppressed(pairs, At(group, user)))
  }

  /** The group's cached list no longer names the user, or is due a refetch. */
  ghost predicate Released(groups: Groups, user: string, group: string) {
    Full(groups, group) ==> user !in groups[group].data.value.members || groups[group].stale
  }

  lemma MarksKeepReconciled(
    t: Groups, q: Groups, user: string, group: string, prev: Option<seq<Membership>>, pairs: Pairs)
    requires OnlyMarks(t, q)
    ensures Reconciled(t, user, group, prev, pairs) ==> Reconciled(q, user, group, prev, pairs)
    ensures Released(t, user, group) ==> Released(q, user, group)
  {
    assert MarksAtMost(t, q, group);
  }

  lemma WeighOneReconciles(l: Lists, user: string, primary: Uint32, prev: Option<seq<Membership>>, m: Membership)
    requires m.gid != primary
    ensures Reconciled(WeighOne(l, user, primary, prev, m).groups, user, m.name, prev, l.pairs)
  {
  }

  /** Weighing never confirms a pair. */
  lemma WeighOneConfirmsNothing(
    l: Lists, user: string, primary: Uint32, prev: Option<seq<Membership>>, m: Membership, k: Pair)
    ensures Suppressed(WeighOne(l, user, primary, prev, m).pairs, k) ==> Suppressed(l.pairs, k)
  {
  }

  lemma {:induction false} WeighReconciles(
    l: Lists, user: string, primary: Uint32, prev: Option<seq<Membership>>, served: seq<Membership>, i: nat)
    requires i < |served| && served[i].gid != primary
    ensures Reconciled(Weigh(l, user, primary, prev, served).groups, user, served[i].name, prev, l.pairs)
    decreases |served|
  {
    var next := WeighOne(l, user, primary, prev, served[0]);
    if i == 0 {
      WeighOneReconciles(l, user, primary, prev, served[0]);
      WeighOnlyMarks(next, user, primary, prev, served[1..]);
      MarksKeepReconciled(next.groups, Weigh(l, user, primary, prev, served).groups, user, served[0].name, prev,
        l.pairs);
    } else {
      WeighReconciles(next, user, primary, prev, served[1..], i - 1);
      WeighOneConfirmsNothing(l, user, primary, prev, served[0], At(served[i].name, user));
    }
  }

  lemma {:induction false} LeaveReleases(
    l: Lists, user: string, current: seq<Membership>, prev: seq<Membership>, i: nat)
    requires i < |prev| && !HasMembership(current, prev[i].name)
    ensures var q := Leave(l, user, current, prev);
      Released(q.groups, user, prev[i].name) && At(prev[i].name, user) !in q.pairs.held
    decreases |prev|
  {
    var next := LeaveOne(l, user, current, prev[0]);
    if i == 0 {
      assert Released(next.groups, user, prev[0].name);
      LeaveOnlyMarks(next, user, current, prev[1..]);
      MarksKeepReconciled(next.groups, Leave(l, user, current, prev).groups, user, prev[0].name, None, l.pairs);
      LeaveForgets(next, user, current, prev[1..], At(prev[0].name, user));
    } else {
      LeaveReleases(next, user, current, prev[1..], i - 1);
    }
  }

  lemma {:induction false} LeaveForgets(
    l: Lists, user: string, current: seq<Membership>, prev: seq<Membership>, k: Pair)
    requires k !in l.pairs.held
    ensures k !in Leave(l, user, current, prev).pairs.held
    decreases |prev|
  {
    if prev != [] {
      LeaveForgets(LeaveOne(l, user, current, prev[0]), user, current, prev[1..], k);
    }
  }

  lemma {:induction false} ServedIndex(cfg: Settings, host: Host, ms: seq<Membership>, m: Membership) returns (i: nat)
    requires m in ms && StubAllowed(cfg.policy, host, m)
    ensures i < |ServedMemberships(cfg, host, ms)| && ServedMemberships(cfg, host, ms)[i] == m
  {
    ServedAreNamed(cfg, host, ms);
    assert m in ServedMemberships(cfg, host, ms);
    i :| 0 <= i < |ServedMemberships(cfg, host, ms)| && ServedMemberships(cfg, host, ms)[i] == m;
  }

  /** After a user is stored, every served non-primary group is reconciled with
      it, and every group it left has released it and holds no pair for it. */
  lemma StoredUserIsCoherent(s: State, cfg: Settings, host: Host, r: UserRecord, now: Time, m: Membership)
    requires !cfg.policy.ignoreGroupMembers
    ensures var q, prev := StoreUser(s, cfg, host, r, now), PreviousGroups(s.users, r.name);
      && (m in r.groups && StubAllowed(cfg.policy, host, m) && m.gid != r.gid ==>
            Reconciled(q.groups, r.name, m.name, prev, s.pairs))
      && (prev.Some? && m in prev.value && !HasMembership(r.groups, m.name) ==>
            Released(q.groups, r.name, m.name) && At(m.name, r.name) !in q.pairs.held)
  {
    var served, prev := ServedMemberships(cfg, host, r.groups), PreviousGroups(s.users, r.name);
    var stubs := StubAll(Stubs(s.groups, s.negative - {UserKey(ByName(r.name)), UserKey(ById(r.uid))}), served,
      cfg.ttlGroup, now);
    var l := Lists(stubs.groups, s.pairs);
    var weighed := Weigh(l, r.name, r.gid, prev, served);
    if m in r.groups && StubAllowed(cfg.policy, host, m) && m.gid != r.gid {
      var i := ServedIndex(cfg, host, r.groups, m);
      WeighReconciles(l, r.name, r.gid, prev, served, i);
      if prev.Some? {
        LeaveOnlyMarks(weighed, r.name, r.groups, prev.value);
        MarksKeepReconciled(weighed.groups, Leave(weighed, r.name, r.groups, prev.value).groups, r.name, m.name, prev,
          s.pairs);
      }
    }
    if prev.Some? && m in prev.value && !HasMembership(r.groups, m.name) {
      var i :| 0 <= i < |prev.value| && prev.value[i] == m;
      LeaveReleases(weighed, r.name, r.groups, prev.value, i);
    }
  }

  /** After a cached user is forgotten, every group it was in has released it. */
  lemma ForgottenUserIsReleased(s: State, cfg: Settings, ref: Ref, now: Time, m: Membership)
    requires Inv(s) && !cfg.policy.ignoreGroupMembers
    requires Find(s.users, ref).Some? && m in Find(s.users, ref).value.data.groups
    ensures var q, name := ForgetUser(s, cfg, ref, now), Find(s.users, ref).value.name;
      name !in q.users && Released(q.groups, name, m.name) && At(m.name, name) !in q.pairs.held
  {
    var e := Find(s.users, ref).value;
    var l := Lists(s.groups, s.pairs);
    var i :| 0 <= i < |e.data.groups| && e.data.groups[i] == m;
    LeaveReleases(Weigh(l, e.name, 0, Some(e.data.groups), []), e.name, [], e.data.groups, i);
  }

  /** After a group is stored over a cached list, every cached user the list
      gained or lost agrees with it or is due a refetch; no other user changes. */
  lemma StoredGroupIsCoherent(s: State, cfg: Settings, r: GroupRecord, now: Time, n: string)
    requires Inv(s) && n in s.users && Full(s.groups, r.name)
    ensures var q, prev := StoreGroup(s, cfg, r, now), s.groups[r.name].data.value.members;
      && n in q.users && q.users[n].data == s.users[n].data
      && (n !in prev && n in r.members ==> q.users[n].stale || HasMembership(q.users[n].data.groups, r.name))
      && (n in prev && n !in r.members ==> q.users[n].stale || !HasMembership(q.users[n].data.groups, r.name))
      && (q.users[n] != s.users[n] ==>
        (n in prev) != (n in r.members) && (n in r.members) != HasMembership(s.users[n].data.groups, r.name))
  {
    assert OwnRow(s.users, n, n);
  }

  /* Nothing is marked without a reason */

  predicate IsStale(groups: Groups, g: string) {
    g in groups && groups[g].stale
  }

  /** Stubs never replace one member list by another. */
  lemma {:induction false} StubsKeepLists(b: Stubs, ms: seq<Membership>, ttl: Time, now: Time, g: string)
    requires Full(StubAll(b, ms, ttl, now).groups, g)
    ensures Full(b.groups, g) && StubAll(b, ms, ttl, now).groups[g] == b.groups[g]
    decreases |ms|
  {
    if ms != [] {
      StubsKeepLists(StubOne(b, ms[0], ttl, now), ms[1..], ttl, now, g);
    }
  }

  lemma {:induction false} WeighMarksOnlyContradicted(
    l: Lists, user: string, primary: Uint32, prev: Option<seq<Membership>>, served: seq<Membership>, g: string)
    requires Named(served)
    requires !IsStale(l.groups, g) && IsStale(Weigh(l, user, primary, prev, served).groups, g)
    ensures Contradicts(l.groups, g, user, false)
    ensures exists i :: 0 <= i < |served| && served[i].name == g && served[i].gid != primary
    decreases |served|
  {
    if served != [] {
      var next := WeighOne(l, user, primary, prev, served[0]);
      WeighOnlyMarks(next, user, primary, prev, served[1..]);
      assert MarksAtMost(next.groups, Weigh(l, user, primary, prev, served).groups, g);
      if IsStale(next.groups, g) {
        assert served[0].name == g && served[0].gid != primary;
      } else {
        WeighMarksOnlyContradicted(next, user, primary, prev, served[1..], g);
        var i :| 0 <= i < |served[1..]| && served[1..][i].name == g && served[1..][i].gid != primary;
        assert served[i + 1].name == g && served[i + 1].gid != primary;
      }
    }
  }

  lemma {:induction false} LeaveMarksOnlyContradicted(
    l: Lists, user: string, current: seq<Membership>, prev: seq<Membership>, g: string)
    requires forall n :: GroupRow(l.groups, n)
    requires !IsStale(l.groups, g) && IsStale(Leave(l, user, current, prev).groups, g)
    ensures Contradicts(l.groups, g, user, true) && HasMembership(prev, g) && !HasMembership(current, g)
    decreases |prev|
  {
    if prev != [] {
      var next := LeaveOne(l, user, current, prev[0]);
      LeaveOnlyMarks(next, user, current, prev[1..]);
      assert MarksAtMost(next.groups, Leave(l, user, current, prev).groups, g);
      assert GroupRow(l.groups, prev[0].name);
      if IsStale(next.groups, g) {
        assert prev[0].name == g;
      } else {
        MarkStaleOnlyMarks(l.groups, prev[0].name);
        forall n ensures GroupRow(next.groups, n) {
          assert GroupRow(l.groups, n) && MarksAtMost(l.groups, MarkStale(l.groups, prev[0].name), n);
        }
        LeaveMarksOnlyContradicted(next, user, current, prev[1..], g);
        var i :| 0 <= i < |prev[1..]| && prev[1..][i].name == g;
        assert prev[i + 1].name == g;
      }
    }
  }

  /** A list goes stale at a user's fetch only for lacking the user although its
      record is in the group, or naming it although its record left. */
  lemma StoredUserMarksOnlyContradicted(s: State, cfg: Settings, host: Host, r: UserRecord, now: Time, g: string)
    requires Inv(s)
    requires var q := StoreUser(s, cfg, host, r, now);
      !IsStale(s.groups, g) && Full(q.groups, g) && IsStale(q.groups, g)
    ensures
      || (Contradicts(s.groups, g, r.name, false) &&
          exists m :: m in r.groups && m.name == g && m.gid != r.gid && StubAllowed(cfg.policy, host, m))
      || (Contradicts(s.groups, g, r.name, true) && !HasMembership(r.groups, g) &&
          r.name in s.users && HasMembership(s.users[r.name].data.groups, g))
  {
    var served, prev := ServedMemberships(cfg, host, r.groups), PreviousGroups(s.users, r.name);
    var left := s.negative - {UserKey(ByName(r.name)), UserKey(ById(r.uid))};
    var stubs := StubAll(Stubs(s.groups, left), served, cfg.ttlGroup, now);
    var l := Lists(stubs.groups, s.pairs);
    var weighed := Weigh(l, r.name, r.gid, prev, served);
    ServedAreNamed(cfg, host, r.groups);
    StubsKeep(Stubs(s.groups, left), s.pairs, served, cfg.ttlGroup, now) by {
      FewerMissesKeepHits(s.users, s.groups, s.negative, left);
    }
    WeighOnlyMarks(l, r.name, r.gid, prev, served);
    assert MarksAtMost(l.groups, weighed.groups, g);
    if prev.Some? {
      LeaveOnlyMarks(weighed, r.name, r.groups, prev.value);
      assert MarksAtMost(weighed.groups, Leave(weighed, r.name, r.groups, prev.value).groups, g);
    }
    StubsKeepLists(Stubs(s.groups, left), served, cfg.ttlGroup, now, g);
    if IsStale(weighed.groups, g) {
      WeighMarksOnlyContradicted(l, r.name, r.gid, prev, served, g);
      var i :| 0 <= i < |served| && served[i].name == g && served[i].gid != r.gid;
      assert served[i] in served;
    } else {
      OnlyMarksKeepsGroups(l.groups, weighed.groups, left);
      LeaveMarksOnlyContradicted(weighed, r.name, r.groups, prev.value, g);
    }
  }
}
