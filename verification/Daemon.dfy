/** The daemon as it runs: a user table, a group table, the misses and the
    contradictions, changed step by step. Every operation does what the
    coherence functions say and keeps the invariant. */
module Daemon {
  import opened Types
  import opened Store
  import opened Contradictions
  import opened Negative
  import opened Policy
  import opened Coherence
  import opened Invariant
  import opened Runs

  lemma SameSetsSameMembers(a: seq<string>, b: seq<string>)
    ensures SameMembers(a, b) <==> (set m | m in a) == (set m | m in b)
  {
    var x, y := set m | m in a, set m | m in b;
    if x == y {
      forall m ensures m in a <==> m in b {
        assert (m in a <==> m in x) && (m in b <==> m in y);
      }
    }
  }

  lemma SameSizeSubset(x: set<string>, y: set<string>)
    requires x <= y
    ensures |x| == |y| <==> x == y
  {
    assert y == x + (y - x);
  }

  /** Compares two member lists as the sets they stand for. */
  method MembersEqual(a: seq<string>, b: seq<string>) returns (same: bool)
    ensures same == SameMembers(a, b)
  {
    hide SameMembers;
    SameSetsSameMembers(a, b);
    var listed: set<string> := {};
    for i := 0 to |a|
      invariant listed == set m | m in a[..i]
    {
      listed := listed + {a[i]};
    }
    assert a[..|a|] == a && b[..|b|] == b;
    var seen: set<string> := {};
    for i := 0 to |b|
      invariant seen == (set m | m in b[..i]) && seen <= listed
    {
      if b[i] !in listed {
        assert b[i] in set m | m in b;
        return false;
      }
      seen := seen + {b[i]};
    }
    SameSizeSubset(seen, listed);
    return |seen| == |listed|;
  }

  /* Going through the members a list gained and then those it lost */

  ghost predicate ComparedRow(was: Users, now: Users, seen: seq<string>, prev: seq<string>, r: GroupRecord, n: string) {
    && (n in now <==> n in was)
    && (n in was ==> now[n] == if n in seen && Disagrees(was[n], prev, r) then Marked(was[n]) else was[n])
  }

  /** The users seen so far are marked where they disagree; the rest wait. */
  ghost predicate Compared(was: Users, now: Users, seen: seq<string>, prev: seq<string>, r: GroupRecord) {
    forall n :: ComparedRow(was, now, seen, prev, r, n)
  }

  lemma ComparedNext(
    was: Users, now: Users, next: Users, seen: seq<string>, prev: seq<string>, r: GroupRecord, m: string)
    requires UsersOk(was) && Compared(was, now, seen, prev, r)
    requires next ==
      if m in now && (m in prev) != (m in r.members) &&
        HasMembership(now[m].data.groups, r.name) != (m in r.members) && !now[m].stale
      then MarkStale(now, m) else now
    ensures Compared(was, next, seen + [m], prev, r)
  {
    assert UserRow(was, "") && ComparedRow(was, now, seen, prev, r, "") && ComparedRow(was, now, seen, prev, r, m) &&
      OwnRow(was, m, m);
    forall n ensures ComparedRow(was, next, seen + [m], prev, r, n) {
      assert ComparedRow(was, now, seen, prev, r, n);
    }
  }

  lemma ComparedAll(was: Users, now: Users, prev: seq<string>, r: GroupRecord)
    requires UsersOk(was) && Compared(was, now, r.members + prev, prev, r)
    ensures now == StaleUsers(was, prev, r)
  {
    OwnNames(was);
    forall n ensures n in now <==> n in was {
      assert ComparedRow(was, now, r.members + prev, prev, r, n);
    }
    forall n | n in was ensures now[n] == StaleUsers(was, prev, r)[n] {
      assert ComparedRow(was, now, r.members + prev, prev, r, n);
    }
  }

  lemma UnansweredChangesNothing(s: State, cfg: Settings, host: Host, ref: Ref, a: Answer<UserRecord>, now: Time)
    ensures LoadUser(s, cfg, host, ref, a, now).1 == NotAvailable ==> LoadUser(s, cfg, host, ref, a, now).0 == s
  {
  }

  class Service {
    const cfg: Settings
    const users: MemoryTable<UserRecord>
    const groups: MemoryTable<Option<GroupRecord>>
    const negative: NegativeCache
    const contradictions: ContradictionTable

    ghost function Contents(): State
      reads users, groups, negative, contradictions
    {
      State(users.entries, groups.entries, negative.entries, contradictions.pairs)
    }

    ghost function ListSide(): Lists
      reads groups, contradictions
    {
      Lists(groups.entries, contradictions.pairs)
    }

    /** The parts are sound, whatever they hold. */
    ghost predicate Sound()
      reads users, groups, contradictions
    {
      && users.Valid() && groups.Valid() && contradictions.Valid()
      && contradictions.max == MAX_CONTRADICTIONS && negative.ttl == cfg.ttlNegative
      && (users as object) != (groups as object)
    }

    ghost predicate Valid()
      reads users, groups, negative, contradictions
    {
      Sound() && Inv(Contents())
    }

    constructor (cfg: Settings)
      ensures Valid() && Contents() == EMPTY && this.cfg == cfg
      ensures fresh(users) && fresh(groups) && fresh(negative) && fresh(contradictions)
    {
      this.cfg := cfg;
      users := new MemoryTable();
      groups := new MemoryTable();
      negative := new NegativeCache(cfg.ttlNegative);
      contradictions := new ContradictionTable(MAX_CONTRADICTIONS);
      new;
      EmptyIsFine();
    }

    /* Member lists against a user's record */

    method StaleGroupIf(group: string, user: string, listed: bool) returns (contradicted: bool)
      requires Sound()
      modifies groups
      ensures Sound() && groups.entries == StaleIf(old(groups.entries), group, user, listed)
      ensures contradicted == Contradicts(old(groups.entries), group, user, listed)
    {
      var e := groups.Lookup(ByName(group));
      if e.None? || e.value.data.None? {
        return false;
      }
      var g := e.value.data.value;
      if (user in g.members) != listed || (!listed && g.truncated) {
        return false;
      }
      if !e.value.stale {
        var _ := groups.Mark(group);
      }
      return true;
    }

    method StaleUserIf(user: string, group: string, member: bool)
      requires Sound()
      modifies users
      ensures Sound()
      ensures users.entries ==
        if user in old(users.entries) && HasMembership(old(users.entries)[user].data.groups, group) != member
           && !old(users.entries)[user].stale
        then MarkStale(old(users.entries), user) else old(users.entries)
    {
      var e := users.Lookup(ByName(user));
      if e.None? || e.value.stale || HasMembership(e.value.data.groups, group) == member {
        return;
      }
      var _ := users.Mark(user);
    }

    method WeighMembership(user: string, primary: Uint32, prev: Option<seq<Membership>>, m: Membership)
      requires Sound()
      modifies groups, contradictions
      ensures Sound() && ListSide() == WeighOne(old(ListSide()), user, primary, prev, m)
    {
      if m.gid == primary {
        return;
      }
      if !Joined(prev, m.name) {
        var confirmed := contradictions.IsSuppressed(m.name, user);
        if confirmed {
          return;
        }
      }
      var contradicted := StaleGroupIf(m.name, user, false);
      if contradicted {
        contradictions.MarkPair(m.name, user);
      }
    }

    method StaleGroupsForUser(
      user: string, primary: Uint32, served: seq<Membership>, current: seq<Membership>,
      prev: Option<seq<Membership>>)
      requires Sound()
      modifies groups, contradictions
      ensures Sound()
      ensures ListSide() ==
        StaleGroups(old(ListSide()), cfg.policy.ignoreGroupMembers, user, primary, served, current, prev)
    {
      if cfg.policy.ignoreGroupMembers {
        return;
      }
      ghost var before := ListSide();
      for i := 0 to |served|
        invariant Sound()
        invariant Weigh(ListSide(), user, primary, prev, served[i..]) == Weigh(before, user, primary, prev, served)
      {
        assert served[i..][0] == served[i] && served[i..][1..] == served[i + 1..];
        WeighMembership(user, primary, prev, served[i]);
      }
      if prev.None? {
        return;
      }
      ghost var weighed := ListSide();
      for i := 0 to |prev.value|
        invariant Sound()
        invariant Leave(ListSide(), user, current, prev.value[i..]) == Leave(weighed, user, current, prev.value)
      {
        var m := prev.value[i];
        assert prev.value[i..][0] == m && prev.value[i..][1..] == prev.value[i + 1..];
        if !HasMembership(current, m.name) {
          contradictions.Remove(m.name, user);
          var _ := StaleGroupIf(m.name, user, true);
        }
      }
    }

    /* Users */

    method ForgetMisses(byName: Key, byId: Key)
      modifies negative
      ensures negative.entries == old(negative.entries) - {byName, byId}
    {
      negative.Forget(byName);
      negative.Forget(byId);
      assert {byName} + {byId} == {byName, byId};
    }

    method StoreGroupStub(m: Membership, now: Time)
      requires Sound()
      modifies groups, negative
      ensures Sound()
      ensures Stubs(groups.entries, negative.entries) ==
        StubOne(old(Stubs(groups.entries, negative.entries)), m, cfg.ttlGroup, now)
    {
      var e := groups.Lookup(ByName(m.name));
      if e.Some? && e.value.data.Some? && e.value.id == m.gid {
        return;
      }
      groups.Insert(Entry(m.name, m.gid, None, now, now + cfg.ttlGroup, false));
      ForgetMisses(GroupKey(ByName(m.name)), GroupKey(ById(m.gid)));
    }

    /** Caches the memberships the policy lets through and returns them. */
    method StoreStubs(host: Host, ms: seq<Membership>, now: Time) returns (served: seq<Membership>)
      requires Sound()
      modifies groups, negative
      ensures Sound() && served == ServedMemberships(cfg, host, ms)
      ensures Stubs(groups.entries, negative.entries) ==
        StubAll(old(Stubs(groups.entries, negative.entries)), served, cfg.ttlGroup, now)
    {
      ghost var before := Stubs(groups.entries, negative.entries);
      ghost var all := ServedMemberships(cfg, host, ms);
      served := [];
      for i := 0 to |ms|
        invariant Sound()
        invariant served + ServedMemberships(cfg, host, ms[i..]) == all
        invariant StubAll(Stubs(groups.entries, negative.entries), ServedMemberships(cfg, host, ms[i..]),
          cfg.ttlGroup, now)
               == StubAll(before, all, cfg.ttlGroup, now)
      {
        ghost var rest := ServedMemberships(cfg, host, ms[i + 1..]);
        assert ms[i..][0] == ms[i] && ms[i..][1..] == ms[i + 1..];
        if StubAllowed(cfg.policy, host, ms[i]) {
          assert ([ms[i]] + rest)[1..] == rest;
          StoreGroupStub(ms[i], now);
          served := served + [ms[i]];
        } else {
          assert [] + rest == rest;
        }
      }
    }

    method StoreUser(host: Host, r: UserRecord, now: Time)
      requires Valid() && r.name != ""
      modifies users, groups, negative, contradictions
      ensures Valid() && Contents() == Coherence.StoreUser(old(Contents()), cfg, host, r, now)
    {
      hide Inv, Inverse, Ordered, Represents, Put, StubAll, StaleGroups, ServedMemberships;
      StoreUserKeepsInv(Contents(), cfg, host, r, now);
      var e := users.Lookup(ByName(r.name));
      users.Insert(UserEntry(cfg, r, now));
      ForgetMisses(UserKey(ByName(r.name)), UserKey(ById(r.uid)));
      var served := StoreStubs(host, r.groups, now);
      StaleGroupsForUser(r.name, r.gid, served, r.groups, if e.Some? then Some(e.value.data.groups) else None);
    }

    method ForgetUser(ref: Ref, now: Time)
      requires Valid()
      modifies users, groups, negative, contradictions
      ensures Valid() && Contents() == Coherence.ForgetUser(old(Contents()), cfg, ref, now)
    {
      hide Inv;
      ForgetUserKeepsInv(Contents(), cfg, ref, now);
      negative.Remember(UserKey(ref), now);
      var e := users.Lookup(ref);
      if e.Some? {
        users.Remove(e.value.name);
        StaleGroupsForUser(e.value.name, 0, [], [], Some(e.value.data.groups));
      }
    }

    /* Groups */

    /** Marks each cached user the change of members contradicts. */
    method StaleUsersForGroup(prev: seq<string>, r: GroupRecord)
      requires Sound() && UsersOk(users.entries)
      modifies users
      ensures Sound() && users.entries == StaleUsers(old(users.entries), prev, r)
    {
      ghost var was := users.entries;
      for i := 0 to |r.members|
        invariant Sound() && Compared(was, users.entries, r.members[..i], prev, r)
      {
        var m := r.members[i];
        ghost var at := users.entries;
        if m !in prev {
          StaleUserIf(m, r.name, true);
        }
        ComparedNext(was, at, users.entries, r.members[..i], prev, r, m);
        assert r.members[..i + 1] == r.members[..i] + [m];
      }
      assert r.members[..|r.members|] == r.members + prev[..0];
      for i := 0 to |prev|
        invariant Sound() && Compared(was, users.entries, r.members + prev[..i], prev, r)
      {
        var m := prev[i];
        ghost var at := users.entries;
        if m !in r.members {
          StaleUserIf(m, r.name, false);
        }
        ComparedNext(was, at, users.entries, r.members + prev[..i], prev, r, m);
        assert r.members + prev[..i + 1] == r.members + prev[..i] + [m];
      }
      assert prev[..|prev|] == prev;
      ComparedAll(was, users.entries, prev, r);
    }

    method ComparePrevious(prev: Option<seq<string>>, r: GroupRecord) returns (changed: bool)
      requires Sound() && UsersOk(users.entries)
      modifies users
      ensures Sound() && changed == Changed(prev, r)
      ensures users.entries == if prev.Some? then StaleUsers(old(users.entries), prev.value, r) else old(users.entries)
    {
      if prev.None? {
        return true;
      }
      StaleUsersForGroup(prev.value, r);
      var same := MembersEqual(prev.value, r.members);
      return !same;
    }

    /** Caches a group and returns the member list it replaced, if there was one. */
    method ReplaceGroup(r: GroupRecord, now: Time) returns (prev: Option<seq<string>>)
      requires Sound()
      modifies groups, negative
      ensures Sound() && prev == PreviousMembers(old(groups.entries), r.name)
      ensures groups.entries == Put(old(groups.entries), GroupEntry(cfg, r, now))
      ensures negative.entries == old(negative.entries) - {GroupKey(ByName(r.name)), GroupKey(ById(r.gid))}
    {
      var e := groups.Lookup(ByName(r.name));
      groups.Insert(GroupEntry(cfg, r, now));
      ForgetMisses(GroupKey(ByName(r.name)), GroupKey(ById(r.gid)));
      return if e.Some? && e.value.data.Some? then Some(e.value.data.value.members) else None;
    }

    method StoreGroup(r: GroupRecord, now: Time)
      requires Valid() && r.name != ""
      modifies users, groups, negative, contradictions
      ensures Valid() && Contents() == Coherence.StoreGroup(old(Contents()), cfg, r, now)
    {
      assert UsersOk(users.entries);
      hide Inv, Inverse, Ordered, Represents, Put, StaleUsers, Settle, UsersOk, Changed, GroupEntry, PreviousMembers;
      StoreGroupKeepsInv(Contents(), cfg, r, now);
      var prev := ReplaceGroup(r, now);
      var changed := ComparePrevious(prev, r);
      contradictions.GroupStored(r.name, r.members, r.truncated, changed);
    }

    method ForgetGroup(ref: Ref, now: Time)
      requires Valid()
      modifies groups, negative
      ensures Valid() && Contents() == Coherence.ForgetGroup(old(Contents()), cfg, ref, now)
    {
      hide Inv, Inverse, Ordered, Represents, Negative.Add;
      ForgetGroupKeepsInv(Contents(), cfg, ref, now);
      negative.Remember(GroupKey(ref), now);
      var e := groups.Lookup(ref);
      if e.Some? {
        groups.Remove(e.value.name);
      }
    }

    /* Fetches and lookups. `a` is the server's answer, if it is asked. */

    method LoadUser(host: Host, ref: Ref, a: Answer<UserRecord>, now: Time) returns (o: Outcome<User>)
      requires Valid()
      modifies users, groups, negative, contradictions
      ensures Valid() && (Contents(), o) == Coherence.LoadUser(old(Contents()), cfg, host, ref, a, now)
    {
      match a {
        case Unavailable => return NotAvailable;
        case Invalid => return NoRecord;
        case NotFound =>
          ForgetUser(ref, now);
          return NoRecord;
        case Nothing =>
          ForgetUser(ref, now);
          return NoRecord;
        case Found(r) =>
          var u := ServeUser(cfg.policy, host, r);
          if !Matches(ref, r.name, r.uid) || u.None? {
            ForgetUser(ref, now);
            return NoRecord;
          }
          StoreUser(host, r, now);
          return Served(u.value);
      }
    }

    method LoadGroup(host: Host, ref: Ref, a: Answer<GroupRecord>, now: Time) returns (o: Outcome<Group>)
      requires Valid()
      modifies users, groups, negative, contradictions
      ensures Valid() && (Contents(), o) == Coherence.LoadGroup(old(Contents()), cfg, host, ref, a, now)
    {
      match a {
        case Unavailable => return NotAvailable;
        case Invalid => return NoRecord;
        case NotFound =>
          ForgetGroup(ref, now);
          return NoRecord;
        case Nothing =>
          ForgetGroup(ref, now);
          return NoRecord;
        case Found(r) =>
          var g := ServeGroup(cfg.policy, host, r);
          if !Matches(ref, r.name, r.gid) || g.None? {
            ForgetGroup(ref, now);
            return NoRecord;
          }
          StoreGroup(r, now);
          return Served(g.value);
      }
    }

    method ResolveUser(
      host: Host, ref: Ref, sshd: bool, a: Answer<UserRecord>, now: Time) returns (o: Outcome<User>, queued: bool)
      requires Valid()
      modifies users, groups, negative, contradictions
      ensures Valid() && (Contents(), o, queued) == Coherence.ResolveUser(old(Contents()), cfg, host, ref, sshd, a, now)
    {
      hide Inv, Inverse, Ordered, Represents, Coherence.LoadUser, ServeUser;
      if !UserKeyAllowed(cfg.policy, host, ref) {
        return NoRecord, false;
      }
      AskedKeepsInv(Contents(), UserKey(ref), now);
      var missed := negative.Has(UserKey(ref), now);
      if missed {
        return NoRecord, false;
      }
      var e := users.Lookup(ref);
      if e.Some? {
        var age := EntryFreshness(cfg, e.value, now);
        if !age.Expired? {
          if sshd && now - e.value.fetchedAt > cfg.loginSoftTtl {
            UnansweredChangesNothing(Contents(), cfg, host, ref, a, now);
            o := LoadUser(host, ref, a, now);
            if o != NotAvailable {
              return o, false;
            }
          }
          return FromUserEntry(cfg.policy, host, e.value), age.Refresh?;
        }
      }
      o := LoadUser(host, ref, a, now);
      queued := false;
      if o == NotAvailable && e.Some? && ServableOffline(cfg, e.value, now) {
        o := FromUserEntry(cfg.policy, host, e.value);
      }
    }

    method ResolveGroup(
      host: Host, ref: Ref, needMembers: bool, a: Answer<GroupRecord>, now: Time)
      returns (o: Outcome<Group>, queued: bool)
      requires Valid()
      modifies users, groups, negative, contradictions
      ensures Valid() &&
        (Contents(), o, queued) == Coherence.ResolveGroup(old(Contents()), cfg, host, ref, needMembers, a, now)
    {
      hide Inv, Inverse, Ordered, Represents, Coherence.LoadGroup, ServeGroup;
      if !GroupKeyAllowed(cfg.policy, host, ref) {
        return NoRecord, false;
      }
      AskedKeepsInv(Contents(), GroupKey(ref), now);
      var missed := negative.Has(GroupKey(ref), now);
      if missed {
        return NoRecord, false;
      }
      var e := groups.Lookup(ref);
      if e.Some? && needMembers && e.value.data.None? {
        e := None;
      }
      if e.Some? {
        var age := EntryFreshness(cfg, e.value, now);
        if !age.Expired? {
          return FromGroupEntry(cfg.policy, host, e.value), age.Refresh? && e.value.data.Some?;
        }
      }
      o := LoadGroup(host, ref, a, now);
      queued := false;
      if o == NotAvailable && e.Some? && ServableOffline(cfg, e.value, now) {
        o := FromGroupEntry(cfg.policy, host, e.value);
      }
    }

    /** Marks the entries a selector means, and counts them. */
    method MarkEntries(sel: Selector) returns (n: nat)
      requires Sound()
      modifies users, groups
      ensures Sound()
      ensures users.entries == if sel.users then MarkStale(old(users.entries), sel.name) else old(users.entries)
      ensures groups.entries == if sel.groups then MarkStale(old(groups.entries), sel.name) else old(groups.entries)
      ensures n == (if sel.users then |Selected(old(users.entries), sel.name)| else 0) +
                   (if sel.groups then |Selected(old(groups.entries), sel.name)| else 0)
    {
      hide Inverse, Ordered, Represents, MarkStale, Selected;
      n := 0;
      if sel.users {
        n := users.Mark(sel.name);
      }
      if sel.groups {
        var g := groups.Mark(sel.name);
        n := n + g;
      }
    }

    method Invalidate(sel: Selector) returns (n: nat)
      requires Valid()
      modifies users, groups, negative
      ensures Valid() && Contents() == Coherence.Invalidate(old(Contents()), sel)
      ensures n == (if sel.users then |Selected(old(users.entries), sel.name)| else 0) +
                   (if sel.groups then |Selected(old(groups.entries), sel.name)| else 0)
    {
      hide Inv, Inverse, Ordered, Represents, MarkStale, Selected;
      InvalidateKeepsInv(Contents(), sel);
      n := MarkEntries(sel);
      if sel.name == "" {
        negative.Clear();
        return;
      }
      if sel.users {
        negative.Forget(UserKey(ByName(sel.name)));
      }
      if sel.groups {
        negative.Forget(GroupKey(ByName(sel.name)));
      }
    }

    /* Whole runs */

    /** What one event of a run makes the daemon do. */
    method Handle(e: Event)
      requires Valid()
      modifies users, groups, negative, contradictions
      ensures Valid() && Contents() == Apply(old(Contents()), cfg, e)
    {
      hide Inv, Sound, Coherence.ResolveUser, Coherence.ResolveGroup, Coherence.LoadUser, Coherence.LoadGroup;
      match e.step {
        case LookupUser(ref, sshd, a) =>
          var _, _ := ResolveUser(e.host, ref, sshd, a, e.now);
        case LookupGroup(ref, needMembers, a) =>
          var _, _ := ResolveGroup(e.host, ref, needMembers, a, e.now);
        case RefreshUser(ref, a) =>
          var _ := LoadUser(e.host, ref, a, e.now);
        case RefreshGroup(ref, a) =>
          var _ := LoadGroup(e.host, ref, a, e.now);
        case Invalidation(sel) =>
          var _ := Invalidate(sel);
      }
    }

    /** So every theorem about runs is one about the daemon. */
    method HandleAll(es: seq<Event>)
      requires Valid()
      modifies users, groups, negative, contradictions
      ensures Valid() && Contents() == Run(old(Contents()), cfg, es)
    {
      hide Valid, Apply;
      for i := 0 to |es|
        invariant Valid() && Run(Contents(), cfg, es[i..]) == Run(old(Contents()), cfg, es)
      {
        assert es[i..][0] == es[i] && es[i..][1..] == es[i + 1..];
        Handle(es[i]);
      }
    }
  }
}
