/** When a lasting disagreement costs more than one refetch: a confirmed list that
    leaves the cache and comes back is weighed anew. */
module Displacement {
  import opened Types
  import opened Store
  import opened Contradictions
  import opened LocalFiles
  import opened Text
  import opened Policy
  import opened Coherence
  import opened Invariant
  import opened Guarantees
  import opened Runs
  import opened Disagreement

  /* What puts a member list out of the cache */

  /** The membership gives the group another gid, or its gid to another name. */
  predicate Moves(m: Membership, n: string, gid: Uint32) {
    (m.name == n) != (m.gid == gid)
  }

  /** An answer for the group's name or gid is a miss, wrong or refused; another name
      is stored with its gid; or a stored user's memberships move its gid. */
  ghost predicate Displaces(groups: Groups, cfg: Settings, host: Host, f: Effect, n: string)
    requires n in groups
  {
    match f
    case ForgetsGroup(ref) => Matches(ref, n, groups[n].id)
    case StoresGroup(r) => r.name != n && r.gid == groups[n].id
    case StoresUser(r) => exists m :: m in ServedMemberships(cfg, host, r.groups) && Moves(m, n, groups[n].id)
    case _ => false
  }

  lemma StubKeepsList(b: Stubs, m: Membership, ttl: Time, now: Time, n: string)
    requires Unique(b.groups) && Full(b.groups, n)
    ensures Unique(StubOne(b, m, ttl, now).groups)
    ensures Full(StubOne(b, m, ttl, now).groups, n) <==> !Moves(m, n, b.groups[n].id)
    ensures !Moves(m, n, b.groups[n].id) ==> StubOne(b, m, ttl, now).groups[n] == b.groups[n]
  {
    assert OwnRow(b.groups, n, m.name) && OwnRow(b.groups, m.name, n);
    PutStaysUnique(b.groups, Entry(m.name, m.gid, None, now, now + ttl, false));
  }

  lemma {:induction false} StubsKeepList(b: Stubs, ms: seq<Membership>, ttl: Time, now: Time, n: string)
    requires Unique(b.groups) && Full(b.groups, n)
    ensures Full(StubAll(b, ms, ttl, now).groups, n) <==> forall m | m in ms :: !Moves(m, n, b.groups[n].id)
    decreases |ms|
  {
    if ms != [] {
      var next := StubOne(b, ms[0], ttl, now);
      assert ms == [ms[0]] + ms[1..];
      StubKeepsList(b, ms[0], ttl, now, n);
      hide StubOne, Put;
      if Full(next.groups, n) {
        StubsKeepList(next, ms[1..], ttl, now, n);
      } else if Full(StubAll(b, ms, ttl, now).groups, n) {
        StubsKeepLists(next, ms[1..], ttl, now, n);
      }
    }
  }

  lemma StubbedKeepsList(s: State, cfg: Settings, e: Event, r: UserRecord, n: string)
    requires GroupsOk(s.groups) && Full(s.groups, n)
    ensures Full(Stubbed(s, cfg, e.host, r, e.now), n) <==>
      forall m | m in ServedMemberships(cfg, e.host, r.groups) :: !Moves(m, n, s.groups[n].id)
  {
    StubsKeepList(Stubs(s.groups, s.negative - {UserKey(ByName(r.name)), UserKey(ById(r.uid))}),
                  ServedMemberships(cfg, e.host, r.groups), cfg.ttlGroup, e.now, n);
  }

  lemma MarkedIsListed(t: Groups, q: Groups, n: string)
    requires OnlyMarks(t, q)
    ensures Full(q, n) <==> Full(t, n)
  {
    assert MarksAtMost(t, q, n);
  }

  /** A cached list is gone after an event if and only if the event displaces it. */
  lemma ListLeavesExactlyWhen(s: State, cfg: Settings, e: Event, f: Effect, n: string)
    requires Inv(s) && Full(s.groups, n)
    ensures !Full(Enact(s, cfg, e, f).groups, n) <==> Displaces(s.groups, cfg, e.host, f, n)
  {
    hide Enact, UsersOk, UsersHit, GroupsHit, PairsOk;
    var q := Enact(s, cfg, e, f);
    GroupsAfter(s, cfg, e, f);
    hide OnlyMarks, WithoutFound, Stubbed;
    match f {
      case StoresUser(r) =>
        MarkedIsListed(Stubbed(s, cfg, e.host, r, e.now), q.groups, n);
        StubbedKeepsList(s, cfg, e, r, n);
      case ForgetsGroup(ref) => FoundRowLeaves(s.groups, ref, n);
      case StoresGroup(r) =>
      case _ => MarkedIsListed(s.groups, q.groups, n);
    }
  }

  /* Runs without displacement */

  /** No event of the run displaces the group's list while it is cached. */
  ghost predicate Undisplaced(s: State, cfg: Settings, es: seq<Event>, n: string)
    decreases |es|
  {
    es == [] ||
    ((Full(s.groups, n) ==> !Displaces(s.groups, cfg, es[0].host, EffectOf(s, cfg, es[0]), n)) &&
     Undisplaced(Apply(s, cfg, es[0]), cfg, es[1..], n))
  }

  /** A pair held confirmed has its group's list cached. */
  ghost predicate Backed(s: State, k: Pair) {
    Suppressed(s.pairs, k) ==> Full(s.groups, k.group)
  }

  lemma CopyIsCached(s: State, cfg: Settings, r: GroupRecord, now: Time)
    ensures var q := StoreGroup(s, cfg, r, now); Full(q.groups, r.name) && q.groups[r.name] == GroupEntry(cfg, r, now)
  {
  }

  lemma UndisplacedStaysBacked(s: State, cfg: Settings, e: Event, k: Pair)
    requires Inv(s) && Backed(s, k)
    requires Full(s.groups, k.group) ==> !Displaces(s.groups, cfg, e.host, EffectOf(s, cfg, e), k.group)
    ensures Backed(Apply(s, cfg, e), k)
  {
    hide Apply, EffectOf, Displaces;
    var asking, f := Asking(s, cfg, e), EffectOf(s, cfg, e);
    ApplyIsItsEffect(s, cfg, e);
    AskingKeepsInv(s, cfg, e);
    if f.StoresGroup? && f.group.name == k.group {
      CopyIsCached(asking, cfg, f.group, e.now);
    } else if Suppressed(Apply(s, cfg, e).pairs, k) {
      hide Enact, Inv;
      OnlyGroupCopiesConfirm(asking, cfg, e, f, k);
      ListLeavesExactlyWhen(asking, cfg, e, f, k.group);
    }
  }

  lemma {:induction false} UndisplacedRenewsNothing(s: State, cfg: Settings, es: seq<Event>, k: Pair)
    requires Inv(s) && Backed(s, k) && Undisplaced(s, cfg, es, k.group)
    ensures RenewalsAlong(s, cfg, es, k) == 0
    decreases |es|
  {
    hide Apply, EffectOf, Inv, Displaces;
    if es != [] {
      UndisplacedStaysBacked(s, cfg, es[0], k);
      ApplyKeepsInv(s, cfg, es[0]);
      UndisplacedRenewsNothing(Apply(s, cfg, es[0]), cfg, es[1..], k);
    }
  }

  /** On every run on which the server keeps disagreeing with itself and nothing
      displaces the group's list, the user's fetches turn it at most once. */
  lemma UndisplacedDisagreementTurnsOnce(s: State, cfg: Settings, es: seq<Event>, k: Pair, members: seq<string>)
    requires Inv(s) && Backed(s, k) && Steady(s, cfg, es, k, members) && Undisplaced(s, cfg, es, k.group)
    ensures TurnsAlong(s, cfg, es, k) <= Debt(s, k, members) <= 1
  {
    LastingDisagreementTurnsOnce(s, cfg, es, k, members);
    UndisplacedRenewsNothing(s, cfg, es, k);
  }

  /* Displacement, a fresh copy, a fetch of the user: one more turn */

  /** While its group has no list, weighing leaves a pair as it is or evicts it. */
  lemma {:induction false} WeighLeavesAlone(
    l: Lists, user: string, primary: Uint32, prev: Option<seq<Membership>>, served: seq<Membership>, k: Pair)
    requires !Full(l.groups, k.group)
    ensures var q := Weigh(l, user, primary, prev, served).pairs;
      k in q.held ==> k in l.pairs.held && q.held[k] == l.pairs.held[k]
    decreases |served|
  {
    if served != [] {
      WeighLeavesAlone(WeighOne(l, user, primary, prev, served[0]), user, primary, prev, served[1..], k);
    }
  }

  lemma {:induction false} LeaveLeavesAlone(
    l: Lists, user: string, current: seq<Membership>, prev: seq<Membership>, k: Pair)
    ensures var q := Leave(l, user, current, prev).pairs;
      k in q.held ==> k in l.pairs.held && q.held[k] == l.pairs.held[k]
    decreases |prev|
  {
    if prev != [] {
      LeaveLeavesAlone(LeaveOne(l, user, current, prev[0]), user, current, prev[1..], k);
    }
  }

  /** A user's fetch that finds or leaves no list of the group touches no pair of it. */
  lemma UnlistedPairStays(s: State, cfg: Settings, e: Event, r: UserRecord, k: Pair)
    requires !Full(Stubbed(s, cfg, e.host, r, e.now), k.group)
    ensures var q := StoreUser(s, cfg, e.host, r, e.now).pairs;
      k in q.held ==> k in s.pairs.held && q.held[k] == s.pairs.held[k]
  {
    var prev := PreviousGroups(s.users, r.name);
    WeighLeavesAlone(Lists(Stubbed(s, cfg, e.host, r, e.now), s.pairs), r.name, r.gid, prev,
                     ServedMemberships(cfg, e.host, r.groups), k);
    if prev.Some? {
      LeaveLeavesAlone(Weighed(s, cfg, e.host, r, e.now), r.name, r.groups, prev.value, k);
    }
  }

  /** A displaced list leaves its confirmed pair held and confirmed. */
  lemma DisplacedPairStaysConfirmed(s: State, cfg: Settings, e: Event, f: Effect, k: Pair, members: seq<string>)
    requires Inv(s) && SteadyEffect(s, cfg, e, f, k, members)
    requires Suppressed(s.pairs, k) && Full(s.groups, k.group) && !Outdated(s.groups, k.group, members)
    requires Displaces(s.groups, cfg, e.host, f, k.group)
    ensures var q := Enact(s, cfg, e, f); Suppressed(q.pairs, k) && !Full(q.groups, k.group)
  {
    ListLeavesExactlyWhen(s, cfg, e, f, k.group);
    ConfirmedPairIsForgottenExactlyWhen(s, cfg, e, f, k, members);
    if f.StoresUser? {
      GroupsAfter(s, cfg, e, f);
      assert MarksAtMost(Stubbed(s, cfg, e.host, f.user, e.now), Enact(s, cfg, e, f).groups, k.group);
      UnlistedPairStays(s, cfg, e, f.user, k);
      hide StoreUser;
    }
  }

  /** The server's two records disagree about the pair, and this host serves both:
      the user's puts it in the group, not as its primary one, and the group's
      complete list lacks it. */
  ghost predicate Disputed(cfg: Settings, host: Host, r: UserRecord, g: GroupRecord) {
    && !cfg.policy.ignoreGroupMembers && ServeUser(cfg.policy, host, r).Some? && ServeGroup(cfg.policy, host, g).Some?
    && Membership(g.gid, g.name) in r.groups && g.gid != r.gid && !g.truncated && r.name !in g.members
    && forall m | m in r.groups :: !Moves(m, g.name, g.gid)
  }

  function UserFetch(host: Host, r: UserRecord, now: Time): Event {
    Event(RefreshUser(ByName(r.name), Found(r)), host, now)
  }

  function GroupFetch(host: Host, g: GroupRecord, now: Time): Event {
    Event(RefreshGroup(ByName(g.name), Found(g)), host, now)
  }

  lemma FetchEffects(s: State, cfg: Settings, host: Host, r: UserRecord, g: GroupRecord, now: Time)
    requires Disputed(cfg, host, r, g)
    ensures EffectOf(s, cfg, UserFetch(host, r, now)) == StoresUser(r)
    ensures EffectOf(s, cfg, GroupFetch(host, g, now)) == StoresGroup(g)
    ensures StubAllowed(cfg.policy, host, Membership(g.gid, g.name)) && r.name != "" && HasMembership(r.groups, g.name)
  {
    UserIsServedExactlyWhen(cfg.policy, host, r);
    var i :| 0 <= i < |r.groups| && r.groups[i] == Membership(g.gid, g.name);
    assert r.groups[i].name == g.name;
  }

  /** The list is cached, fresh, as the server sends it. */
  ghost predicate Listed(s: State, g: GroupRecord) {
    g.name in s.groups && s.groups[g.name].data == Some(g) && !s.groups[g.name].stale
  }

  ghost predicate Member(s: State, k: Pair) {
    k.user in s.users && HasMembership(s.users[k.user].data.groups, k.group)
  }

  lemma {:induction false} ServedFit(cfg: Settings, host: Host, ms: seq<Membership>)
    ensures |ServedMemberships(cfg, host, ms)| <= |ms|
  {
    if ms != [] {
      ServedFit(cfg, host, ms[1..]);
    }
  }

  /** A fetch of the user turns a fresh list when the pair is not held. */
  lemma UnheldFetchTurns(s: State, cfg: Settings, host: Host, r: UserRecord, g: GroupRecord, now: Time)
    requires Inv(s) && Disputed(cfg, host, r, g) && Listed(s, g) && At(g.name, r.name) !in s.pairs.held
    ensures var e := UserFetch(host, r, now);
      EventTurns(s, cfg, e, At(g.name, r.name)) && !Displaces(s.groups, cfg, host, EffectOf(s, cfg, e), g.name)
  {
    var e := UserFetch(host, r, now);
    FetchEffects(s, cfg, host, r, g, now);
    assert GroupRow(s.groups, g.name);
    ServedAreNamed(cfg, host, r.groups);
    ListLeavesExactlyWhen(s, cfg, e, StoresUser(r), g.name);
    ForgottenPairTurnsAgain(s, cfg, e, r, Membership(g.gid, g.name));
    ApplyIsItsEffect(s, cfg, e);
    hide Apply, Enact, EffectOf, Disputed;
  }

  /** A copy settles the pair: an unconfirmed one is confirmed, and a confirmed one
      kept unless the list changed. */
  lemma CopySettles(s: State, cfg: Settings, g: GroupRecord, now: Time, k: Pair)
    requires Inv(s) && k.group == g.name && !g.truncated && k.user !in g.members
    ensures var q := StoreGroup(s, cfg, g, now);
      && Listed(q, g) && (Member(s, k) ==> Member(q, k)) && |q.pairs.held| <= |s.pairs.held|
      && (k in q.pairs.held <==>
            k in s.pairs.held && !(s.pairs.held[k].confirmed && Changed(PreviousMembers(s.groups, g.name), g)))
      && (k in q.pairs.held ==> Suppressed(q.pairs, k))
  {
    hide UsersHit, GroupsHit, GroupsOk, SameMembers;
    SettleShrinks(s.pairs, g.name, g.members, g.truncated, Changed(PreviousMembers(s.groups, g.name), g));
  }

  lemma GroupFetchStores(s: State, cfg: Settings, host: Host, r: UserRecord, g: GroupRecord, now: Time)
    requires Disputed(cfg, host, r, g)
    ensures Apply(s, cfg, GroupFetch(host, g, now)) == StoreGroup(s, cfg, g, now)
    ensures EffectOf(s, cfg, GroupFetch(host, g, now)) == StoresGroup(g)
    ensures !g.truncated && r.name !in g.members
  {
    FetchEffects(s, cfg, host, r, g, now);
    ApplyIsItsEffect(s, cfg, GroupFetch(host, g, now));
    hide Apply, EffectOf, StoreGroup;
  }

  /** A copy over no list forgets the confirmed pair and caches the list. */
  lemma CopyOverNoListForgets(s: State, cfg: Settings, host: Host, r: UserRecord, g: GroupRecord, now: Time)
    requires Inv(s) && Disputed(cfg, host, r, g)
    requires Suppressed(s.pairs, At(g.name, r.name)) && !Full(s.groups, g.name)
    ensures var q := Apply(s, cfg, GroupFetch(host, g, now));
      Listed(q, g) && At(g.name, r.name) !in q.pairs.held && |q.pairs.held| <= |s.pairs.held|
    ensures Renews(s, EffectOf(s, cfg, GroupFetch(host, g, now)), At(g.name, r.name))
    ensures Member(s, At(g.name, r.name)) ==> Member(Apply(s, cfg, GroupFetch(host, g, now)), At(g.name, r.name))
  {
    hide Apply, EffectOf, Disputed, Inv, StoreGroup;
    GroupFetchStores(s, cfg, host, r, g, now);
    CopySettles(s, cfg, g, now, At(g.name, r.name));
  }

  /* Following runs event by event */

  lemma FirstEvent(s: State, cfg: Settings, e: Event, es: seq<Event>, k: Pair, members: seq<string>)
    ensures var all, next := [e] + es, Apply(s, cfg, e);
      && Run(s, cfg, all) == Run(next, cfg, es)
      && (Steady(s, cfg, all, k, members) <==>
            SteadyEffect(Asking(s, cfg, e), cfg, e, EffectOf(s, cfg, e), k, members) &&
              Steady(next, cfg, es, k, members))
      && TurnsAlong(s, cfg, all, k) == One(EventTurns(s, cfg, e, k)) + TurnsAlong(next, cfg, es, k)
      && RenewalsAlong(s, cfg, all, k) == One(Renews(s, EffectOf(s, cfg, e), k)) + RenewalsAlong(next, cfg, es, k)
      && (Undisplaced(s, cfg, all, k.group) <==>
            (Full(s.groups, k.group) ==> !Displaces(s.groups, cfg, e.host, EffectOf(s, cfg, e), k.group)) &&
            Undisplaced(next, cfg, es, k.group))
  {
    hide Apply, EffectOf, SteadyEffect, EventTurns, Renews, Displaces;
    var all := [e] + es;
    assert all[0] == e && all[1..] == es;
  }

  /** A fetch of the member's unchanged record is steady while there is room. */
  lemma UserFetchIsSteady(
    s: State, cfg: Settings, host: Host, r: UserRecord, g: GroupRecord, now: Time, members: seq<string>)
    requires Inv(s) && Disputed(cfg, host, r, g) && Member(s, At(g.name, r.name))
    requires |s.pairs.held| + |r.groups| <= MAX_CONTRADICTIONS
    ensures var e := UserFetch(host, r, now);
      SteadyEffect(Asking(s, cfg, e), cfg, e, EffectOf(s, cfg, e), At(g.name, r.name), members)
  {
    FetchEffects(s, cfg, host, r, g, now);
    hide Disputed, EffectOf;
    StubbedIsFine(s, cfg, host, r, now);
    ServedFit(cfg, host, r.groups);
    RoomMeansNoEviction(Lists(Stubbed(s, cfg, host, r, now), s.pairs), r.name, r.gid, PreviousGroups(s.users, r.name),
                        ServedMemberships(cfg, host, r.groups), At(g.name, r.name));
  }

  lemma GroupFetchIsSteady(
    s: State, cfg: Settings, host: Host, r: UserRecord, g: GroupRecord, now: Time, members: seq<string>)
    requires Disputed(cfg, host, r, g) && Member(s, At(g.name, r.name)) && SameMembers(g.members, members)
    ensures var e := GroupFetch(host, g, now);
      SteadyEffect(Asking(s, cfg, e), cfg, e, EffectOf(s, cfg, e), At(g.name, r.name), members)
  {
    FetchEffects(s, cfg, host, r, g, now);
    hide EffectOf;
  }

  /** From a confirmed pair without its list, the next copy of the group and the
      next fetch of the user make a steady run with a turn, and displace nothing. */
  lemma UnlistedPairTurns(
    s: State, cfg: Settings, host: Host, r: UserRecord, g: GroupRecord, now: Time, members: seq<string>)
    requires Inv(s) && Disputed(cfg, host, r, g) && SameMembers(g.members, members) && Member(s, At(g.name, r.name))
    requires Suppressed(s.pairs, At(g.name, r.name)) && !Full(s.groups, g.name)
    requires |s.pairs.held| + |r.groups| <= MAX_CONTRADICTIONS
    ensures var es, k := [GroupFetch(host, g, now)] + ([UserFetch(host, r, now)] + []), At(g.name, r.name);
      && Steady(s, cfg, es, k, members) && Undisplaced(s, cfg, es, k.group)
      && TurnsAlong(s, cfg, es, k) == 1 && RenewalsAlong(s, cfg, es, k) == 1
  {
    hide Apply, EffectOf, SteadyEffect, Displaces, Disputed, Inv, SameMembers;
    var a, b, k := GroupFetch(host, g, now), UserFetch(host, r, now), At(g.name, r.name);
    var q := Apply(s, cfg, a);
    var done := Apply(q, cfg, b);
    CopyOverNoListForgets(s, cfg, host, r, g, now);
    ApplyKeepsInv(s, cfg, a);
    UnheldFetchTurns(q, cfg, host, r, g, now);
    GroupFetchIsSteady(s, cfg, host, r, g, now, members);
    UserFetchIsSteady(q, cfg, host, r, g, now, members);
    FetchEffects(s, cfg, host, r, g, now);
    FetchEffects(q, cfg, host, r, g, now);
    FirstEvent(s, cfg, a, [b] + [], k, members);
    FirstEvent(q, cfg, b, [], k, members);
    assert Steady(done, cfg, [], k, members) && Undisplaced(done, cfg, [], k.group);
  }

  /** With the pair confirmed and the server's list cached, one steady event decides:
      some steady run after it, itself without displacement, turns the group
      again if and only if the event displaced the list. */
  lemma TurnsAgainExactlyWhen(
    s: State, cfg: Settings, e: Event, k: Pair, members: seq<string>, host: Host, r: UserRecord, g: GroupRecord,
    now: Time)
    requires Inv(s) && Disputed(cfg, host, r, g) && k == At(g.name, r.name) && SameMembers(g.members, members)
    requires Suppressed(s.pairs, k) && Full(s.groups, k.group) && !Outdated(s.groups, k.group, members)
    requires SteadyEffect(Asking(s, cfg, e), cfg, e, EffectOf(s, cfg, e), k, members)
    requires Member(Apply(s, cfg, e), k) && |Apply(s, cfg, e).pairs.held| + |r.groups| <= MAX_CONTRADICTIONS
    ensures Displaces(s.groups, cfg, e.host, EffectOf(s, cfg, e), k.group) <==>
      exists es :: Steady(Apply(s, cfg, e), cfg, es, k, members) && Undisplaced(Apply(s, cfg, e), cfg, es, k.group) &&
                   TurnsAlong(Apply(s, cfg, e), cfg, es, k) > 0
  {
    hide Apply, EffectOf, SteadyEffect, Displaces, Disputed, Inv, SameMembers, Enact;
    var asking, f, next := Asking(s, cfg, e), EffectOf(s, cfg, e), Apply(s, cfg, e);
    ApplyIsItsEffect(s, cfg, e);
    AskingKeepsInv(s, cfg, e);
    ApplyKeepsInv(s, cfg, e);
    if Displaces(s.groups, cfg, e.host, f, k.group) {
      DisplacedPairStaysConfirmed(asking, cfg, e, f, k, members);
      UnlistedPairTurns(next, cfg, host, r, g, now, members);
    } else {
      UndisplacedStaysBacked(s, cfg, e, k);
      SteadyEventPays(s, cfg, e, k, members);
      forall es | Steady(next, cfg, es, k, members) && Undisplaced(next, cfg, es, k.group)
        ensures TurnsAlong(next, cfg, es, k) == 0
      {
        UndisplacedDisagreementTurnsOnce(next, cfg, es, k, members);
      }
    }
  }

  /* The exact account of every steady run */

  /** A fetch of the user takes the pair in without turning the group. */
  ghost predicate Quiet(s: State, q: State, f: Effect, k: Pair) {
    f.StoresUser? && f.user.name == k.user && k !in s.pairs.held && k in q.pairs.held &&
      !TurnsStale(s.groups, q.groups, k)
  }

  ghost function QuietAlong(s: State, cfg: Settings, es: seq<Event>, k: Pair): nat
    decreases |es|
  {
    if es == [] then 0
    else
      var next := Apply(s, cfg, es[0]);
      One(Quiet(s, next, EffectOf(s, cfg, es[0]), k)) + QuietAlong(next, cfg, es[1..], k)
  }

  /** Only a list that lacks the user takes its pair in. */
  lemma {:induction false} WeighTakesContradicted(
    l: Lists, user: string, primary: Uint32, prev: Option<seq<Membership>>, served: seq<Membership>, k: Pair)
    requires k !in l.pairs.held && k in Weigh(l, user, primary, prev, served).pairs.held
    requires Named(served)
    ensures Contradicts(l.groups, k.group, user, false) && k.user == user
    decreases |served|
  {
    if served != [] {
      var next := WeighOne(l, user, primary, prev, served[0]);
      if k !in next.pairs.held {
        MarkStaleOnlyMarks(l.groups, served[0].name);
        assert MarksAtMost(l.groups, MarkStale(l.groups, served[0].name), k.group);
        WeighTakesContradicted(next, user, primary, prev, served[1..], k);
      }
    }
  }

  lemma UserTakesThePair(s: State, cfg: Settings, e: Event, r: UserRecord, k: Pair)
    requires Inv(s) && k !in s.pairs.held && k in StoreUser(s, cfg, e.host, r, e.now).pairs.held
    ensures r.name == k.user && Contradicts(s.groups, k.group, k.user, false)
    ensures Full(Stubbed(s, cfg, e.host, r, e.now), k.group)
  {
    var prev, served := PreviousGroups(s.users, r.name), ServedMemberships(cfg, e.host, r.groups);
    StubbedIsFine(s, cfg, e.host, r, e.now);
    hide Inv;
    if prev.Some? {
      LeaveLeavesAlone(Weighed(s, cfg, e.host, r, e.now), r.name, r.groups, prev.value, k);
    }
    WeighTakesContradicted(Lists(Stubbed(s, cfg, e.host, r, e.now), s.pairs), r.name, r.gid, prev, served, k);
    StubsKeepLists(Stubs(s.groups, s.negative - {UserKey(ByName(r.name)), UserKey(ById(r.uid))}),
                   served, cfg.ttlGroup, e.now, k.group);
  }

  /** A pair is taken in by a fetch of its own user that finds a list lacking it. */
  lemma OnlyItsUserTakesThePair(s: State, cfg: Settings, e: Event, f: Effect, k: Pair)
    requires Inv(s) && k !in s.pairs.held && k in Enact(s, cfg, e, f).pairs.held
    ensures f.StoresUser? && f.user.name == k.user && Contradicts(s.groups, k.group, k.user, false)
    ensures Full(Stubbed(s, cfg, e.host, f.user, e.now), k.group)
  {
    hide Inv, StoreUser, Stubbed;
    match f {
      case StoresUser(r) => UserTakesThePair(s, cfg, e, r, k);
      case ForgetsUser(ref) =>
        var found := Find(s.users, ref);
        if found.Some? {
          LeaveLeavesAlone(Lists(s.groups, s.pairs), found.value.name, [], found.value.data.groups, k);
        }
      case _ =>
    }
  }

  /** A fetch that takes the pair in without a turn found the group stale already. */
  lemma QuietMeansStale(s: State, cfg: Settings, e: Event, r: UserRecord, k: Pair)
    requires Inv(s) && Quiet(s, Enact(s, cfg, e, StoresUser(r)), StoresUser(r), k)
    ensures Contradicts(s.groups, k.group, k.user, false) && s.groups[k.group].stale
  {
    var f, q := StoresUser(r), Enact(s, cfg, e, StoresUser(r));
    OnlyItsUserTakesThePair(s, cfg, e, f, k);
    OnlyGroupCopiesConfirm(s, cfg, e, f, k);
    GroupsAfter(s, cfg, e, f);
    assert MarksAtMost(Stubbed(s, cfg, e.host, r, e.now), q.groups, k.group);
    EnactKeepsPairs(s, cfg, e, r);
    assert AwaitsStale(Lists(q.groups, q.pairs), k);
    hide Enact, Stubbed, Inv;
  }

  lemma EnactKeepsPairs(s: State, cfg: Settings, e: Event, r: UserRecord)
    requires Inv(s)
    ensures var q := Enact(s, cfg, e, StoresUser(r)); PairsOk(Lists(q.groups, q.pairs))
  {
    StubbedIsFine(s, cfg, e.host, r, e.now);
    StaleGroupsKeepsPairs(Lists(Stubbed(s, cfg, e.host, r, e.now), s.pairs), cfg.policy.ignoreGroupMembers,
                          r.name, r.gid,
                          ServedMemberships(cfg, e.host, r.groups), r.groups, PreviousGroups(s.users, r.name));
  }

  lemma SteadyEffectAccounts(s: State, cfg: Settings, e: Event, f: Effect, k: Pair, members: seq<string>)
    requires Inv(s) && SteadyEffect(s, cfg, e, f, k, members) && !Outdated(s.groups, k.group, members)
    ensures var q := Enact(s, cfg, e, f);
      && One(Turns(s, q, f, k)) + One(Quiet(s, q, f, k)) + Unheld(q.pairs, k) ==
        Unheld(s.pairs, k) + One(Renews(s, f, k))
      && !Outdated(q.groups, k.group, members)
  {
    if f.StoresGroup? && f.group.name == k.group {
      CopySettles(s, cfg, f.group, e.now, k);
      if Full(s.groups, k.group) {
        assert SameMembers(s.groups[k.group].data.value.members, f.group.members);
      }
      hide StoreGroup;
    } else {
      var q := Enact(s, cfg, e, f);
      EffectPays(s, cfg, e, f, k);
      SteadyCostsNothing(s, cfg, e, f, k, members);
      hide Enact, Costs, Inv, SteadyEffect, TurnsStale, SameMembers;
      if k !in s.pairs.held && k in q.pairs.held {
        OnlyItsUserTakesThePair(s, cfg, e, f, k);
      }
      if Full(q.groups, k.group) {
        OnlyGroupCopiesReplace(s, cfg, e, f, k.group);
      }
    }
  }

  lemma AskingTouchesNothing(s: State, cfg: Settings, e: Event)
    ensures var q := Asking(s, cfg, e); q.users == s.users && q.groups == s.groups && q.pairs == s.pairs
  {
  }

  lemma SteadyEventAccounts(s: State, cfg: Settings, e: Event, k: Pair, members: seq<string>)
    requires Inv(s) && SteadyEffect(Asking(s, cfg, e), cfg, e, EffectOf(s, cfg, e), k, members)
    requires !Outdated(s.groups, k.group, members)
    ensures var q, f := Apply(s, cfg, e), EffectOf(s, cfg, e);
      && One(EventTurns(s, cfg, e, k)) + One(Quiet(s, q, f, k)) + Unheld(q.pairs, k) ==
        Unheld(s.pairs, k) + One(Renews(s, f, k))
      && !Outdated(q.groups, k.group, members)
  {
    ApplyIsItsEffect(s, cfg, e);
    AskingKeepsInv(s, cfg, e);
    AskingTouchesNothing(s, cfg, e);
    hide Apply, EffectOf, Enact, SteadyEffect, TurnsStale, Inv, SameMembers, Asking;
    SteadyEffectAccounts(Asking(s, cfg, e), cfg, e, EffectOf(s, cfg, e), k, members);
  }

  /** On every steady run the turns are exactly what the pair was lacking at the start
      plus the renewals, less what it lacks at the end and the fetches that took
      it in over a list already stale. So each renewal adds a turn unless the
      group went stale for another reason or the user was not fetched again. */
  lemma {:induction false} TurnsAreAccountedFor(s: State, cfg: Settings, es: seq<Event>, k: Pair, members: seq<string>)
    requires Inv(s) && Steady(s, cfg, es, k, members) && !Outdated(s.groups, k.group, members)
    ensures TurnsAlong(s, cfg, es, k) + QuietAlong(s, cfg, es, k) + Unheld(Run(s, cfg, es).pairs, k)
         == Unheld(s.pairs, k) + RenewalsAlong(s, cfg, es, k)
    decreases |es|
  {
    hide Apply, EffectOf, SteadyEffect, Inv, EventTurns, Renews, Outdated, Quiet;
    if es != [] {
      SteadyEventAccounts(s, cfg, es[0], k, members);
      ApplyKeepsInv(s, cfg, es[0]);
      TurnsAreAccountedFor(Apply(s, cfg, es[0]), cfg, es[1..], k, members);
    }
  }

  /** So a steady run that ends with the pair held, and on which the group went stale
      for no other reason, turns it more than once if and only if it renews a
      pair, or, when the pair was held at the start, renews it twice. */
  lemma TurnsTwiceExactlyWhen(s: State, cfg: Settings, es: seq<Event>, k: Pair, members: seq<string>)
    requires Inv(s) && Steady(s, cfg, es, k, members) && !Outdated(s.groups, k.group, members)
    requires QuietAlong(s, cfg, es, k) == 0 && k in Run(s, cfg, es).pairs.held
    ensures TurnsAlong(s, cfg, es, k) > 1 <==> RenewalsAlong(s, cfg, es, k) > One(k in s.pairs.held)
  {
    hide Steady, TurnsAlong, QuietAlong, RenewalsAlong, Run, Inv;
    TurnsAreAccountedFor(s, cfg, es, k, members);
  }

  /* A run on which the group turns twice */

  lemma {:induction false} WeighGrows(
    l: Lists, user: string, primary: Uint32, prev: Option<seq<Membership>>, served: seq<Membership>)
    requires PairsOk(l)
    ensures |Weigh(l, user, primary, prev, served).pairs.held| <= |l.pairs.held| + |served|
    decreases |served|
  {
    if served != [] {
      MarkStaysBounded(l.pairs, At(served[0].name, user), MAX_CONTRADICTIONS);
      WeighOneKeepsPairs(l, user, primary, prev, served[0]);
      WeighGrows(WeighOne(l, user, primary, prev, served[0]), user, primary, prev, served[1..]);
    }
  }

  lemma {:induction false} LeaveShrinks(l: Lists, user: string, current: seq<Membership>, prev: seq<Membership>)
    ensures |Leave(l, user, current, prev).pairs.held| <= |l.pairs.held|
    decreases |prev|
  {
    if prev != [] {
      var k := At(prev[0].name, user);
      Shrinks(l.pairs.held, {k} * l.pairs.held.Keys);
      assert l.pairs.held - {k} == l.pairs.held - ({k} * l.pairs.held.Keys);
      LeaveShrinks(LeaveOne(l, user, current, prev[0]), user, current, prev[1..]);
    }
  }

  lemma StoredUserAddsPairs(s: State, cfg: Settings, host: Host, r: UserRecord, now: Time)
    requires Inv(s)
    ensures |StoreUser(s, cfg, host, r, now).pairs.held| <= |s.pairs.held| + |r.groups|
  {
    var l, prev := Lists(Stubbed(s, cfg, host, r, now), s.pairs), PreviousGroups(s.users, r.name);
    StubbedIsFine(s, cfg, host, r, now);
    ServedFit(cfg, host, r.groups);
    WeighGrows(l, r.name, r.gid, prev, ServedMemberships(cfg, host, r.groups));
    if prev.Some? {
      LeaveShrinks(Weighed(s, cfg, host, r, now), r.name, r.groups, prev.value);
    }
  }

  /** The turning fetch takes the pair in, unconfirmed, and keeps the list's contents. */
  lemma TurningFetch(s: State, cfg: Settings, host: Host, r: UserRecord, g: GroupRecord, now: Time)
    requires Inv(s) && Disputed(cfg, host, r, g) && Listed(s, g) && Member(s, At(g.name, r.name))
    requires At(g.name, r.name) !in s.pairs.held && |s.pairs.held| + |r.groups| <= MAX_CONTRADICTIONS
    ensures var q, k := Apply(s, cfg, UserFetch(host, r, now)), At(g.name, r.name);
      && EventTurns(s, cfg, UserFetch(host, r, now), k) && Member(q, k) && k in q.pairs.held
      && Full(q.groups, g.name) && q.groups[g.name].data == Some(g) && |q.pairs.held| <= |s.pairs.held| + |r.groups|
  {
    var e, k := UserFetch(host, r, now), At(g.name, r.name);
    hide Apply, EffectOf, Disputed, Inv, SteadyEffect, Costs, StoreUser;
    UnheldFetchTurns(s, cfg, host, r, g, now);
    UserFetchIsSteady(s, cfg, host, r, g, now, g.members);
    FetchEffects(s, cfg, host, r, g, now);
    ApplyIsItsEffect(s, cfg, e);
    EventPays(s, cfg, e, k);
    SteadyCostsNothing(s, cfg, e, StoresUser(r), k, g.members);
    OnlyGroupCopiesReplace(s, cfg, e, StoresUser(r), g.name);
    StoredUserAddsPairs(s, cfg, host, r, now);
    UsersAfter(s, cfg, e, StoresUser(r));
  }

  /** A copy over the same list confirms a held pair. */
  lemma ConfirmingCopy(s: State, cfg: Settings, host: Host, r: UserRecord, g: GroupRecord, now: Time)
    requires Inv(s) && Disputed(cfg, host, r, g) && Member(s, At(g.name, r.name)) && At(g.name, r.name) in s.pairs.held
    requires Full(s.groups, g.name) && s.groups[g.name].data == Some(g)
    ensures var q, k := Apply(s, cfg, GroupFetch(host, g, now)), At(g.name, r.name);
      Listed(q, g) && Suppressed(q.pairs, k) && Member(q, k) && |q.pairs.held| <= |s.pairs.held|
  {
    hide Apply, EffectOf, Disputed, Inv, StoreGroup;
    GroupFetchStores(s, cfg, host, r, g, now);
    CopySettles(s, cfg, g, now, At(g.name, r.name));
  }

  /** A host that refuses the group forgets its list and nothing else. */
  lemma RefusedCopy(s: State, cfg: Settings, host: Host, g: GroupRecord, now: Time, k: Pair)
    requires Inv(s) && ServeGroup(cfg.policy, host, g).None? && Listed(s, g) && Member(s, k) && k.group == g.name
    ensures var e := GroupFetch(host, g, now);
      && EffectOf(s, cfg, e) == ForgetsGroup(ByName(g.name)) && Asking(s, cfg, e) == s
      && Apply(s, cfg, e).pairs == s.pairs && Member(Apply(s, cfg, e), k) && !Full(Apply(s, cfg, e).groups, g.name)
  {
    ApplyIsItsEffect(s, cfg, GroupFetch(host, g, now));
    assert OwnRow(s.groups, g.name, g.name);
    hide Apply;
  }

  lemma OnlyUserFetchesTurn(s: State, cfg: Settings, e: Event, k: Pair)
    ensures EventTurns(s, cfg, e, k) ==> EffectOf(s, cfg, e).StoresUser?
  {
    hide Apply, EffectOf;
  }

  /** The user, the group, the group refused, the group, the user. */
  function Twice(open: Host, closed: Host, r: UserRecord, g: GroupRecord, now: Time): seq<Event> {
    [UserFetch(open, r, now)] + ([GroupFetch(open, g, now)] + ([GroupFetch(closed, g, now)] +
    ([GroupFetch(open, g, now)] + ([UserFetch(open, r, now)] + []))))
  }

  /** From any state with the list cached and the pair not held, and with room for the
      pairs, this steady run turns the group twice. */
  lemma RefusalTurnsTwice(s: State, cfg: Settings, open: Host, closed: Host, r: UserRecord, g: GroupRecord, now: Time)
    requires Inv(s) && Disputed(cfg, open, r, g) && ServeGroup(cfg.policy, closed, g).None?
    requires Listed(s, g) && Member(s, At(g.name, r.name)) && At(g.name, r.name) !in s.pairs.held
    requires |s.pairs.held| + 2 * |r.groups| <= MAX_CONTRADICTIONS
    ensures var es, k := Twice(open, closed, r, g, now), At(g.name, r.name);
      Steady(s, cfg, es, k, g.members) && TurnsAlong(s, cfg, es, k) == 2 && RenewalsAlong(s, cfg, es, k) == 1
  {
    var k := At(g.name, r.name);
    var a, b, c := UserFetch(open, r, now), GroupFetch(open, g, now), GroupFetch(closed, g, now);
    var s1 := Apply(s, cfg, a);
    var s2 := Apply(s1, cfg, b);
    var s3 := Apply(s2, cfg, c);
    hide Apply, EffectOf, Disputed, Inv, ServeGroup, EventTurns;
    UserFetchIsSteady(s, cfg, open, r, g, now, g.members);
    TurningFetch(s, cfg, open, r, g, now);
    ApplyKeepsInv(s, cfg, a);
    ConfirmingCopy(s1, cfg, open, r, g, now);
    GroupFetchIsSteady(s1, cfg, open, r, g, now, g.members);
    ApplyKeepsInv(s1, cfg, b);
    RefusedCopy(s2, cfg, closed, g, now, k);
    ApplyKeepsInv(s2, cfg, c);
    UnlistedPairTurns(s3, cfg, open, r, g, now, g.members);
    assert SteadyEffect(s2, cfg, c, ForgetsGroup(ByName(g.name)), k, g.members);
    FetchEffects(s, cfg, open, r, g, now);
    FetchEffects(s1, cfg, open, r, g, now);
    OnlyUserFetchesTurn(s1, cfg, b, k);
    OnlyUserFetchesTurn(s2, cfg, c, k);
    hide SteadyEffect;
    var last := [b] + ([a] + []);
    FirstEvent(s, cfg, a, [b] + ([c] + last), k, g.members);
    FirstEvent(s1, cfg, b, [c] + last, k, g.members);
    FirstEvent(s2, cfg, c, last, k, g.members);
  }

  /** A fresh daemon that has fetched the user and then the group. */
  lemma FirstFetches(cfg: Settings, host: Host, r: UserRecord, g: GroupRecord, now: Time)
    requires Disputed(cfg, host, r, g)
    ensures var s, k := Run(EMPTY, cfg, [UserFetch(host, r, now)] + ([GroupFetch(host, g, now)] + [])),
      At(g.name, r.name);
      Inv(s) && Listed(s, g) && Member(s, k) && k !in s.pairs.held && |s.pairs.held| <= |r.groups|
  {
    var a, b, k := UserFetch(host, r, now), GroupFetch(host, g, now), At(g.name, r.name);
    var s1 := Apply(EMPTY, cfg, a);
    EmptyIsFine();
    FetchEffects(EMPTY, cfg, host, r, g, now);
    ApplyIsItsEffect(EMPTY, cfg, a);
    ApplyKeepsInv(EMPTY, cfg, a);
    FirstUserFetch(cfg, a, r, k);
    ApplyKeepsInv(s1, cfg, b);
    FirstGroupFetch(s1, cfg, host, r, g, now);
    hide Apply, EffectOf, Disputed, Inv;
    FirstEvent(EMPTY, cfg, a, [b] + [], k, g.members);
    FirstEvent(s1, cfg, b, [], k, g.members);
  }

  lemma FirstUserFetch(cfg: Settings, e: Event, r: UserRecord, k: Pair)
    requires Inv(EMPTY) && k.user == r.name && HasMembership(r.groups, k.group)
    ensures var q := StoreUser(EMPTY, cfg, e.host, r, e.now);
      Member(q, k) && k !in q.pairs.held && |q.pairs.held| <= |r.groups|
  {
    if Full(Stubbed(EMPTY, cfg, e.host, r, e.now), k.group) {
      StubsKeepLists(Stubs(EMPTY.groups, EMPTY.negative - {UserKey(ByName(r.name)), UserKey(ById(r.uid))}),
                     ServedMemberships(cfg, e.host, r.groups), cfg.ttlGroup, e.now, k.group);
    }
    UnlistedPairStays(EMPTY, cfg, e, r, k);
    StoredUserAddsPairs(EMPTY, cfg, e.host, r, e.now);
    UsersAfter(EMPTY, cfg, e, StoresUser(r));
    hide StoreUser, Inv, Stubbed;
  }

  lemma FirstGroupFetch(s: State, cfg: Settings, host: Host, r: UserRecord, g: GroupRecord, now: Time)
    requires Inv(s) && Disputed(cfg, host, r, g) && Member(s, At(g.name, r.name)) && At(g.name, r.name) !in s.pairs.held
    ensures var q, k := Apply(s, cfg, GroupFetch(host, g, now)), At(g.name, r.name);
      Listed(q, g) && k !in q.pairs.held && Member(q, k) && |q.pairs.held| <= |s.pairs.held|
  {
    hide Apply, EffectOf, Disputed, Inv, StoreGroup;
    GroupFetchStores(s, cfg, host, r, g, now);
    CopySettles(s, cfg, g, now, At(g.name, r.name));
  }

  const SETTINGS := Settings(
    Config(1000, 0, [], [], [], 0, false, "", "", "", "/bin/sh", "/usr/sbin/nologin", [], []),
    5400, 5400, 15, 60, 50, 0)

  /** A host without local users or groups, and the same with a local group "g". */
  const OPEN := Host(Some(LocalDB(map[], map[])), Some(LocalDB(map[], map[])), Some([]), map[])
  const CLOSED := OPEN.(group := Some(LocalDB(map["g" := Some(50)], map[50 := "g"])))

  const USER := UserRecord("u", 1001, 2001, [Membership(3001, "g")], Some("/"), None, STATUS_ACTIVE)
  const GROUP := GroupRecord("g", 3001, [], false)

  lemma OneLetterNames()
    ensures ValidName("u") && ValidName("g") && ValidPath("/")
  {
    assert !IsDigit("u"[0]) && !IsDigit("g"[0]);
  }

  lemma ExampleIsDisputed()
    ensures Disputed(SETTINGS, OPEN, USER, GROUP) && ServeGroup(SETTINGS.policy, CLOSED, GROUP).None?
  {
    OneLetterNames();
    hide ValidName, ValidPath, Expand;
    UserIsServedExactlyWhen(SETTINGS.policy, OPEN, USER);
    assert HomeCandidates(SETTINGS.policy, "u", 1001, "/", "/")[1] == "/";
    assert USER.groups[0] == Membership(3001, "g");
  }

  /** The failing run: after a fresh daemon's first two fetches the server goes on
      sending the same two records, a local group of that name comes and goes,
      and the user's fetches turn the group twice. */
  lemma PassingLocalGroupTurnsTwice()
    ensures var s, es, k := Run(EMPTY, SETTINGS, [UserFetch(OPEN, USER, 0)] + ([GroupFetch(OPEN, GROUP, 0)] + [])),
                            Twice(OPEN, CLOSED, USER, GROUP, 0), At("g", "u");
      Steady(s, SETTINGS, es, k, []) && TurnsAlong(s, SETTINGS, es, k) == 2
  {
    ExampleIsDisputed();
    hide Disputed, ServeGroup, Twice, Steady, TurnsAlong, Run, Inv;
    FirstFetches(SETTINGS, OPEN, USER, GROUP, 0);
    RefusalTurnsTwice(Run(EMPTY, SETTINGS, [UserFetch(OPEN, USER, 0)] + ([GroupFetch(OPEN, GROUP, 0)] + [])),
                      SETTINGS, OPEN, CLOSED, USER, GROUP, 0);
  }
}
