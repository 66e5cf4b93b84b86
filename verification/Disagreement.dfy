/** What a lasting disagreement costs: how often a user's fetches can turn a
    group's cached list from fresh to stale because the list lacks the user. */
module Disagreement {
  import opened Types
  import opened Store
  import opened Contradictions
  import opened Policy
  import opened Coherence
  import opened Invariant
  import opened Guarantees
  import opened Runs

  /** The pair's group was fresh, its list lacking the pair's user, and is stale now. */
  ghost predicate TurnsStale(before: Groups, after: Groups, k: Pair) {
    && Full(before, k.group) && !before[k.group].stale && k.user !in before[k.group].data.value.members
    && Full(after, k.group) && after[k.group].stale
  }

  function One(b: bool): nat {
    if b then 1 else 0
  }

  function Unheld(pairs: Pairs, k: Pair): nat {
    One(k !in pairs.held)
  }

  /* Weighing one record */

  /** How many times weighing the memberships evicts the pair. */
  ghost function Evictions(
    l: Lists, user: string, primary: Uint32, prev: Option<seq<Membership>>, served: seq<Membership>, k: Pair): nat
    decreases |served|
  {
    if served == [] then 0
    else
      var next := WeighOne(l, user, primary, prev, served[0]);
      One(k in l.pairs.held && k !in next.pairs.held) + Evictions(next, user, primary, prev, served[1..], k)
  }

  lemma {:induction false} WeighHolds(
    l: Lists, user: string, primary: Uint32, prev: Option<seq<Membership>>, served: seq<Membership>, k: Pair)
    ensures Unheld(Weigh(l, user, primary, prev, served).pairs, k) <=
      Unheld(l.pairs, k) + Evictions(l, user, primary, prev, served, k)
    decreases |served|
  {
    if served != [] {
      WeighHolds(WeighOne(l, user, primary, prev, served[0]), user, primary, prev, served[1..], k);
    }
  }

  /** A turn takes the pair into the table, unless the user has just joined. */
  lemma WeighOnePays(l: Lists, user: string, primary: Uint32, prev: Option<seq<Membership>>, m: Membership, k: Pair)
    requires PairsOk(l) && m.name != "" && k.user == user
    ensures var next := WeighOne(l, user, primary, prev, m);
      TurnsStale(l.groups, next.groups, k) ==> k in next.pairs.held && (k !in l.pairs.held || Joined(prev, k.group))
  {
    assert AwaitsStale(l, k);
  }

  lemma {:induction false} WeighPays(
    l: Lists, user: string, primary: Uint32, prev: Option<seq<Membership>>, served: seq<Membership>, k: Pair)
    requires PairsOk(l) && k.user == user && Named(served)
    ensures var q := Weigh(l, user, primary, prev, served);
      One(TurnsStale(l.groups, q.groups, k)) + Unheld(q.pairs, k)
        <= Unheld(l.pairs, k) + Evictions(l, user, primary, prev, served, k) + One(Joined(prev, k.group))
    decreases |served|
  {
    if served != [] {
      var next, q := WeighOne(l, user, primary, prev, served[0]), Weigh(l, user, primary, prev, served);
      MarkStaleOnlyMarks(l.groups, served[0].name);
      WeighOneKeepsPairs(l, user, primary, prev, served[0]);
      WeighOnlyMarks(next, user, primary, prev, served[1..]);
      assert MarksAtMost(l.groups, MarkStale(l.groups, served[0].name), k.group) &&
        MarksAtMost(next.groups, q.groups, k.group);
      WeighOnePays(l, user, primary, prev, served[0], k);
      WeighHolds(next, user, primary, prev, served[1..], k);
      WeighPays(next, user, primary, prev, served[1..], k);
    }
  }

  /** Below the cap nothing is evicted. */
  lemma {:induction false} RoomMeansNoEviction(
    l: Lists, user: string, primary: Uint32, prev: Option<seq<Membership>>, served: seq<Membership>, k: Pair)
    requires PairsOk(l) && |l.pairs.held| + |served| <= MAX_CONTRADICTIONS
    ensures Evictions(l, user, primary, prev, served, k) == 0
    decreases |served|
  {
    if served != [] {
      var m := served[0];
      MarkStaysBounded(l.pairs, At(m.name, user), MAX_CONTRADICTIONS);
      WeighOneKeepsPairs(l, user, primary, prev, m);
      RoomMeansNoEviction(WeighOne(l, user, primary, prev, m), user, primary, prev, served[1..], k);
    }
  }

  /* Leaving groups */

  lemma {:induction false} LeaveDropsOnlyLeft(
    l: Lists, user: string, current: seq<Membership>, prev: seq<Membership>, k: Pair)
    requires k in l.pairs.held && k !in Leave(l, user, current, prev).pairs.held
    ensures k.user == user && HasMembership(prev, k.group) && !HasMembership(current, k.group)
    decreases |prev|
  {
    if prev != [] {
      var next := LeaveOne(l, user, current, prev[0]);
      if k in next.pairs.held {
        LeaveDropsOnlyLeft(next, user, current, prev[1..], k);
        var i :| 0 <= i < |prev[1..]| && prev[1..][i].name == k.group;
        assert prev[i + 1].name == k.group;
      } else {
        assert prev[0].name == k.group;
      }
    }
  }

  /* One event */

  /** The group side a stored user's memberships are weighed against. */
  ghost function Weighed(s: State, cfg: Settings, host: Host, r: UserRecord, now: Time): Lists {
    Weigh(Lists(Stubbed(s, cfg, host, r, now), s.pairs), r.name, r.gid, PreviousGroups(s.users, r.name),
          ServedMemberships(cfg, host, r.groups))
  }

  /** How many times storing the user evicts the pair to make room for others. */
  ghost function Evicted(s: State, cfg: Settings, host: Host, r: UserRecord, now: Time, k: Pair): nat {
    if cfg.policy.ignoreGroupMembers then 0
    else Evictions(Lists(Stubbed(s, cfg, host, r, now), s.pairs), r.name, r.gid, PreviousGroups(s.users, r.name),
                   ServedMemberships(cfg, host, r.groups), k)
  }

  ghost predicate Leaves(s: State, r: UserRecord, k: Pair) {
    r.name == k.user && !HasMembership(r.groups, k.group) &&
    var prev := PreviousGroups(s.users, r.name); prev.Some? && HasMembership(prev.value, k.group)
  }

  lemma StoredUserPays(s: State, cfg: Settings, host: Host, r: UserRecord, now: Time, k: Pair)
    requires Inv(s)
    ensures var q := StoreUser(s, cfg, host, r, now);
      One(r.name == k.user && TurnsStale(s.groups, q.groups, k)) + Unheld(q.pairs, k)
        <= Unheld(s.pairs, k) + Evicted(s, cfg, host, r, now, k) + One(Leaves(s, r, k))
           + One(r.name == k.user && Joined(PreviousGroups(s.users, r.name), k.group))
  {
    var served, prev := ServedMemberships(cfg, host, r.groups), PreviousGroups(s.users, r.name);
    var l, weighed, q := Lists(Stubbed(s, cfg, host, r, now), s.pairs), Weighed(s, cfg, host, r, now),
      StoreUser(s, cfg, host, r, now);
    StubbedIsFine(s, cfg, host, r, now);
    WeighHolds(l, r.name, r.gid, prev, served, k);
    if r.name == k.user {
      WeighPays(l, r.name, r.gid, prev, served, k);
    }
    if prev.Some? && !cfg.policy.ignoreGroupMembers {
      if k in weighed.pairs.held && k !in q.pairs.held {
        LeaveDropsOnlyLeft(weighed, r.name, r.groups, prev.value, k);
      }
      LeaveForgetsOnly(weighed, r.name, r.groups, prev.value, k);
    }
    if r.name == k.user && TurnsStale(s.groups, q.groups, k) {
      TurnHappensInWeighing(s, cfg, host, r, now, k);
    }
  }

  lemma LeaveForgetsOnly(l: Lists, user: string, current: seq<Membership>, prev: seq<Membership>, k: Pair)
    ensures k !in l.pairs.held ==> k !in Leave(l, user, current, prev).pairs.held
  {
    if k !in l.pairs.held {
      LeaveForgets(l, user, current, prev, k);
    }
  }

  lemma StubbedIsFine(s: State, cfg: Settings, host: Host, r: UserRecord, now: Time)
    requires Inv(s)
    ensures GroupsOk(Stubbed(s, cfg, host, r, now)) && PairsOk(Lists(Stubbed(s, cfg, host, r, now), s.pairs))
    ensures Named(ServedMemberships(cfg, host, r.groups))
  {
    var left := s.negative - {UserKey(ByName(r.name)), UserKey(ById(r.uid))};
    ServedAreNamed(cfg, host, r.groups);
    FewerMissesKeepHits(s.users, s.groups, s.negative, left);
    StubsKeep(Stubs(s.groups, left), s.pairs, ServedMemberships(cfg, host, r.groups), cfg.ttlGroup, now);
  }

  lemma TurnHappensInWeighing(s: State, cfg: Settings, host: Host, r: UserRecord, now: Time, k: Pair)
    requires Inv(s) && r.name == k.user && TurnsStale(s.groups, StoreUser(s, cfg, host, r, now).groups, k)
    ensures !cfg.policy.ignoreGroupMembers
    ensures TurnsStale(Stubbed(s, cfg, host, r, now), Weighed(s, cfg, host, r, now).groups, k)
  {
    var g, prev := k.group, PreviousGroups(s.users, r.name);
    var l, weighed, q := Lists(Stubbed(s, cfg, host, r, now), s.pairs), Weighed(s, cfg, host, r, now),
      StoreUser(s, cfg, host, r, now);
    var served := ServedMemberships(cfg, host, r.groups);
    StubbedIsFine(s, cfg, host, r, now);
    StaleGroupsOnlyMarks(l, cfg.policy.ignoreGroupMembers, r.name, r.gid, served, r.groups, prev);
    WeighOnlyMarks(l, r.name, r.gid, prev, served);
    assert MarksAtMost(l.groups, q.groups, g) && MarksAtMost(l.groups, weighed.groups, g);
    StubsKeepLists(Stubs(s.groups, s.negative - {UserKey(ByName(r.name)), UserKey(ById(r.uid))}), served,
      cfg.ttlGroup, now, g);
    if prev.Some? && !cfg.policy.ignoreGroupMembers && !IsStale(weighed.groups, g) {
      OnlyMarksKeepsGroups(l.groups, weighed.groups, map[]);
      LeaveMarksOnlyContradicted(weighed, r.name, r.groups, prev.value, g);
    }
  }

  lemma ForgottenUserPays(s: State, cfg: Settings, ref: Ref, now: Time, k: Pair)
    ensures var q, found := ForgetUser(s, cfg, ref, now), Find(s.users, ref);
      Unheld(q.pairs, k) <= Unheld(s.pairs, k)
        + One(found.Some? && found.value.name == k.user && HasMembership(found.value.data.groups, k.group))
  {
    var found := Find(s.users, ref);
    if found.Some? && !cfg.policy.ignoreGroupMembers {
      var l, prev := Lists(s.groups, s.pairs), found.value.data.groups;
      var weighed := Weigh(l, found.value.name, 0, Some(prev), []);
      if k in weighed.pairs.held && k !in Leave(weighed, found.value.name, [], prev).pairs.held {
        LeaveDropsOnlyLeft(weighed, found.value.name, [], prev, k);
      }
    }
  }

  /** What can make the pair count again: it is evicted, its user's record leaves
      the group or is forgotten, a fresh copy of the group clears it, or the user
      joins anew. */
  ghost function Costs(s: State, cfg: Settings, e: Event, f: Effect, k: Pair): nat {
    match f
    case StoresUser(r) =>
      Evicted(s, cfg, e.host, r, e.now, k) + One(Leaves(s, r, k)) +
      One(r.name == k.user && Joined(PreviousGroups(s.users, r.name), k.group))
    case ForgetsUser(ref) =>
      var found := Find(s.users, ref);
      One(found.Some? && found.value.name == k.user && HasMembership(found.value.data.groups, k.group))
    case StoresGroup(r) =>
      One(k in s.pairs.held && k.group == r.name &&
          Clears(s.pairs.held[k], k.user, r.members, r.truncated, Changed(PreviousMembers(s.groups, r.name), r)))
    case _ => 0
  }

  /** The event is a fetch of the pair's user that turned the group. */
  ghost predicate Turns(s: State, q: State, f: Effect, k: Pair) {
    f.StoresUser? && f.user.name == k.user && TurnsStale(s.groups, q.groups, k)
  }

  lemma EffectPays(s: State, cfg: Settings, e: Event, f: Effect, k: Pair)
    requires Inv(s)
    ensures var q := Enact(s, cfg, e, f);
      One(Turns(s, q, f, k)) + Unheld(q.pairs, k) <= Unheld(s.pairs, k) + Costs(s, cfg, e, f, k)
  {
    match f {
      case StoresUser(r) => StoredUserPays(s, cfg, e.host, r, e.now, k);
      case ForgetsUser(ref) => ForgottenUserPays(s, cfg, ref, e.now, k);
      case _ =>
    }
  }

  /** The cost of one event of a run. Only an expired miss is dropped before its
      effect, which neither the tables nor the pairs notice. */
  ghost function EventCosts(s: State, cfg: Settings, e: Event, k: Pair): nat {
    Costs(Asking(s, cfg, e), cfg, e, EffectOf(s, cfg, e), k)
  }

  ghost predicate EventTurns(s: State, cfg: Settings, e: Event, k: Pair) {
    Turns(s, Apply(s, cfg, e), EffectOf(s, cfg, e), k)
  }

  lemma EventPays(s: State, cfg: Settings, e: Event, k: Pair)
    requires Inv(s)
    ensures One(EventTurns(s, cfg, e, k)) + Unheld(Apply(s, cfg, e).pairs, k) <=
      Unheld(s.pairs, k) + EventCosts(s, cfg, e, k)
  {
    hide Apply, EffectOf, Enact, Costs;
    ApplyIsItsEffect(s, cfg, e);
    AskingKeepsInv(s, cfg, e);
    EffectPays(Asking(s, cfg, e), cfg, e, EffectOf(s, cfg, e), k);
  }

  lemma AskingKeepsInv(s: State, cfg: Settings, e: Event)
    requires Inv(s)
    ensures Inv(Asking(s, cfg, e))
  {
    match e.step {
      case LookupUser(ref, _, _) => AskedKeepsInv(s, UserKey(ref), e.now);
      case LookupGroup(ref, _, _) => AskedKeepsInv(s, GroupKey(ref), e.now);
      case _ =>
    }
  }

  /* Whole runs */

  ghost function TurnsAlong(s: State, cfg: Settings, es: seq<Event>, k: Pair): nat
    decreases |es|
  {
    if es == [] then 0
    else One(EventTurns(s, cfg, es[0], k)) + TurnsAlong(Apply(s, cfg, es[0]), cfg, es[1..], k)
  }

  ghost function CostsAlong(s: State, cfg: Settings, es: seq<Event>, k: Pair): nat
    decreases |es|
  {
    if es == [] then 0
    else EventCosts(s, cfg, es[0], k) + CostsAlong(Apply(s, cfg, es[0]), cfg, es[1..], k)
  }

  /** On every run, a user's fetches turn a group that lacks the user from fresh
      to stale at most once, plus once for each time the pair was evicted, was
      cleared by the group's own change, or the user left or joined the group. */
  lemma {:induction false} DisagreementCostsOneRefetch(s: State, cfg: Settings, es: seq<Event>, k: Pair)
    requires Inv(s)
    ensures TurnsAlong(s, cfg, es, k) + Unheld(Run(s, cfg, es).pairs, k) <=
      Unheld(s.pairs, k) + CostsAlong(s, cfg, es, k)
    ensures TurnsAlong(s, cfg, es, k) <= 1 + CostsAlong(s, cfg, es, k)
    decreases |es|
  {
    hide Apply, EventTurns, EventCosts;
    if es != [] {
      EventPays(s, cfg, es[0], k);
      ApplyKeepsInv(s, cfg, es[0]);
      DisagreementCostsOneRefetch(Apply(s, cfg, es[0]), cfg, es[1..], k);
    }
  }

  /* What holding a pair confirmed means */

  lemma {:induction false} WeighConfirmsNothing(
    l: Lists, user: string, primary: Uint32, prev: Option<seq<Membership>>, served: seq<Membership>, k: Pair)
    ensures Suppressed(Weigh(l, user, primary, prev, served).pairs, k) ==> Suppressed(l.pairs, k)
    decreases |served|
  {
    if served != [] {
      WeighOneConfirmsNothing(l, user, primary, prev, served[0], k);
      WeighConfirmsNothing(WeighOne(l, user, primary, prev, served[0]), user, primary, prev, served[1..], k);
    }
  }

  lemma {:induction false} LeaveConfirmsNothing(
    l: Lists, user: string, current: seq<Membership>, prev: seq<Membership>, k: Pair)
    ensures Suppressed(Leave(l, user, current, prev).pairs, k) ==> Suppressed(l.pairs, k)
    decreases |prev|
  {
    if prev != [] {
      LeaveConfirmsNothing(LeaveOne(l, user, current, prev[0]), user, current, prev[1..], k);
    }
  }

  /** Only a fresh copy of the group confirms a pair. */
  lemma OnlyGroupCopiesConfirm(s: State, cfg: Settings, e: Event, f: Effect, k: Pair)
    requires !(f.StoresGroup? && f.group.name == k.group)
    ensures Suppressed(Enact(s, cfg, e, f).pairs, k) ==> Suppressed(s.pairs, k)
  {
    match f {
      case StoresUser(r) =>
        var prev, weighed := PreviousGroups(s.users, r.name), Weighed(s, cfg, e.host, r, e.now);
        WeighConfirmsNothing(Lists(Stubbed(s, cfg, e.host, r, e.now), s.pairs), r.name, r.gid, prev,
                             ServedMemberships(cfg, e.host, r.groups), k);
        if prev.Some? {
          LeaveConfirmsNothing(weighed, r.name, r.groups, prev.value, k);
        }
      case ForgetsUser(ref) =>
        var found := Find(s.users, ref);
        if found.Some? {
          LeaveConfirmsNothing(Lists(s.groups, s.pairs), found.value.name, [], found.value.data.groups, k);
        }
      case _ =>
    }
  }

  /** Only a fresh copy of the group replaces its list. */
  lemma OnlyGroupCopiesReplace(s: State, cfg: Settings, e: Event, f: Effect, g: string)
    requires !(f.StoresGroup? && f.group.name == g) && Full(Enact(s, cfg, e, f).groups, g)
    ensures Full(s.groups, g) && Enact(s, cfg, e, f).groups[g].data == s.groups[g].data
  {
    hide Enact;
    var q := Enact(s, cfg, e, f);
    GroupsAfter(s, cfg, e, f);
    match f {
      case StoresUser(r) =>
        assert MarksAtMost(Stubbed(s, cfg, e.host, r, e.now), q.groups, g);
        StubsKeepLists(Stubs(s.groups, s.negative - {UserKey(ByName(r.name)), UserKey(ById(r.uid))}),
                       ServedMemberships(cfg, e.host, r.groups), cfg.ttlGroup, e.now, g);
      case StoresGroup(r) =>
      case ForgetsGroup(ref) =>
      case _ =>
        assert MarksAtMost(s.groups, q.groups, g);
    }
  }

  /** While a pair is held confirmed, the group's cached list, if there is one, is
      complete and lacks the user: the silence is about a real disagreement. */
  ghost predicate Confirmed(s: State, k: Pair) {
    Suppressed(s.pairs, k) && Full(s.groups, k.group) ==> Contradicts(s.groups, k.group, k.user, false)
  }

  lemma EffectKeepsConfirmed(s: State, cfg: Settings, e: Event, f: Effect, k: Pair)
    requires Confirmed(s, k)
    ensures Confirmed(Enact(s, cfg, e, f), k)
  {
    var q := Enact(s, cfg, e, f);
    if Suppressed(q.pairs, k) && Full(q.groups, k.group) && !(f.StoresGroup? && f.group.name == k.group) {
      hide Enact;
      OnlyGroupCopiesConfirm(s, cfg, e, f, k);
      OnlyGroupCopiesReplace(s, cfg, e, f, k.group);
    }
  }

  /** On every run, from a fresh daemon on: no list is spared its refetch by a
      confirmation of some other list. */
  lemma {:induction false} ConfirmationsAreOfTheCachedList(s: State, cfg: Settings, es: seq<Event>, k: Pair)
    requires s == EMPTY || Confirmed(s, k)
    ensures Confirmed(Run(s, cfg, es), k)
    decreases |es|
  {
    hide Apply, Enact;
    if es != [] {
      ApplyIsItsEffect(s, cfg, es[0]);
      EffectKeepsConfirmed(Asking(s, cfg, es[0]), cfg, es[0], EffectOf(s, cfg, es[0]), k);
      ConfirmationsAreOfTheCachedList(Apply(s, cfg, es[0]), cfg, es[1..], k);
    }
  }

  /* A server that keeps sending the same two records */

  /** The user stays cached with a record that has the group, every copy of the
      group has the same complete list without the user, and the pair is not
      evicted. Anything else may happen. */
  ghost predicate SteadyEffect(s: State, cfg: Settings, e: Event, f: Effect, k: Pair, members: seq<string>) {
    && k.user in s.users && HasMembership(s.users[k.user].data.groups, k.group)
    && match f
       case StoresUser(r) => Evicted(s, cfg, e.host, r, e.now, k) == 0 &&
         (r.name == k.user ==> HasMembership(r.groups, k.group))
       case ForgetsUser(ref) => !Matches(ref, k.user, s.users[k.user].id)
       case StoresGroup(r) => r.name == k.group ==>
         !r.truncated && k.user !in r.members && SameMembers(r.members, members)
       case _ => true
  }

  ghost predicate Steady(s: State, cfg: Settings, es: seq<Event>, k: Pair, members: seq<string>)
    decreases |es|
  {
    es == [] ||
    (SteadyEffect(Asking(s, cfg, es[0]), cfg, es[0], EffectOf(s, cfg, es[0]), k, members) &&
     Steady(Apply(s, cfg, es[0]), cfg, es[1..], k, members))
  }

  /** A copy of the group arrives with no list cached to compare it with, and so
      counts as a change, while the pair is held confirmed. */
  ghost predicate Renews(s: State, f: Effect, k: Pair) {
    f.StoresGroup? && f.group.name == k.group && !Full(s.groups, k.group) && Suppressed(s.pairs, k)
  }

  ghost function RenewalsAlong(s: State, cfg: Settings, es: seq<Event>, k: Pair): nat
    decreases |es|
  {
    if es == [] then 0
    else One(Renews(s, EffectOf(s, cfg, es[0]), k)) + RenewalsAlong(Apply(s, cfg, es[0]), cfg, es[1..], k)
  }

  /** The cached list is not yet the one the server keeps sending. */
  ghost predicate Outdated(groups: Groups, group: string, members: seq<string>) {
    Full(groups, group) && !SameMembers(groups[group].data.value.members, members)
  }

  /** Turns still to come: none once the server's own list stands confirmed. */
  ghost function Debt(s: State, k: Pair, members: seq<string>): nat {
    if Suppressed(s.pairs, k) then One(Outdated(s.groups, k.group, members)) else Unheld(s.pairs, k)
  }

  lemma SteadyCostsNothing(s: State, cfg: Settings, e: Event, f: Effect, k: Pair, members: seq<string>)
    requires Inv(s) && SteadyEffect(s, cfg, e, f, k, members)
    requires !(f.StoresGroup? && f.group.name == k.group)
    ensures Costs(s, cfg, e, f, k) == 0
  {
    if f.ForgetsUser? && Find(s.users, f.ref).Some? {
      FoundIsARow(s.users, f.ref);
    }
  }

  lemma SteadyEffectPays(s: State, cfg: Settings, e: Event, f: Effect, k: Pair, members: seq<string>)
    requires Inv(s) && SteadyEffect(s, cfg, e, f, k, members)
    ensures var q := Enact(s, cfg, e, f);
      One(Turns(s, q, f, k)) + Debt(q, k, members) <= Debt(s, k, members) + One(Renews(s, f, k))
  {
    if f.StoresGroup? && f.group.name == k.group {
      SteadyCopyPays(s, cfg, f.group, e.now, k, members);
    } else {
      hide SteadyEffect, SameMembers;
      EffectPays(s, cfg, e, f, k);
      SteadyCostsNothing(s, cfg, e, f, k, members);
      hide Enact, Costs;
      OnlyGroupCopiesConfirm(s, cfg, e, f, k);
      if Full(Enact(s, cfg, e, f).groups, k.group) {
        OnlyGroupCopiesReplace(s, cfg, e, f, k.group);
      }
    }
  }

  lemma SteadyCopyPays(s: State, cfg: Settings, r: GroupRecord, now: Time, k: Pair, members: seq<string>)
    requires r.name == k.group && !r.truncated && k.user !in r.members && SameMembers(r.members, members)
    ensures var q := StoreGroup(s, cfg, r, now);
      Debt(q, k, members) <= Debt(s, k, members) + One(!Full(s.groups, k.group) && Suppressed(s.pairs, k))
  {
    var q := StoreGroup(s, cfg, r, now);
    assert q.groups[k.group].data == Some(r);
    if k in s.pairs.held && k !in q.pairs.held && Full(s.groups, k.group) {
      var prev := s.groups[k.group].data.value.members;
      assert Suppressed(s.pairs, k) && !SameMembers(prev, r.members);
      assert !SameMembers(prev, members);
    }
  }

  lemma SteadyEventPays(s: State, cfg: Settings, e: Event, k: Pair, members: seq<string>)
    requires Inv(s) && SteadyEffect(Asking(s, cfg, e), cfg, e, EffectOf(s, cfg, e), k, members)
    ensures One(EventTurns(s, cfg, e, k)) + Debt(Apply(s, cfg, e), k, members)
         <= Debt(s, k, members) + One(Renews(s, EffectOf(s, cfg, e), k))
  {
    hide Apply, EffectOf, Enact, SteadyEffect, SameMembers, TurnsStale;
    ApplyIsItsEffect(s, cfg, e);
    AskingKeepsInv(s, cfg, e);
    SteadyEffectPays(Asking(s, cfg, e), cfg, e, EffectOf(s, cfg, e), k, members);
  }

  /** While the server keeps sending the user with the group and the group's
      complete list without the user, however the fetches are ordered and
      whatever else the daemon does, the user's fetches turn the group stale at
      most once, plus once for each time the confirmed list had been displaced
      from the cache when its next copy came. */
  lemma {:induction false} LastingDisagreementTurnsOnce(
    s: State, cfg: Settings, es: seq<Event>, k: Pair, members: seq<string>)
    requires Inv(s) && Steady(s, cfg, es, k, members)
    ensures TurnsAlong(s, cfg, es, k) <= Debt(s, k, members) + RenewalsAlong(s, cfg, es, k)
    ensures TurnsAlong(s, cfg, es, k) <= 1 + RenewalsAlong(s, cfg, es, k)
    decreases |es|
  {
    hide Apply, EffectOf, SteadyEffect, Inv, EventTurns, Renews, Outdated;
    if es != [] {
      SteadyEventPays(s, cfg, es[0], k, members);
      ApplyKeepsInv(s, cfg, es[0]);
      LastingDisagreementTurnsOnce(Apply(s, cfg, es[0]), cfg, es[1..], k, members);
    }
  }

  /** With the server's list cached or displaced, a steady event makes the daemon
      forget a confirmed pair if and only if it is such a copy. */
  lemma ConfirmedPairIsForgottenExactlyWhen(s: State, cfg: Settings, e: Event, f: Effect, k: Pair, members: seq<string>)
    requires Inv(s) && SteadyEffect(s, cfg, e, f, k, members)
    requires Suppressed(s.pairs, k) && !Outdated(s.groups, k.group, members)
    ensures k !in Enact(s, cfg, e, f).pairs.held <==> Renews(s, f, k)
  {
    if !(f.StoresGroup? && f.group.name == k.group) {
      EffectPays(s, cfg, e, f, k);
      SteadyCostsNothing(s, cfg, e, f, k, members);
      hide Enact, Costs;
    } else if Full(s.groups, k.group) {
      assert SameMembers(s.groups[k.group].data.value.members, f.group.members);
    }
  }

  /** And then the disagreement is weighed anew: a fetch of the user turns a fresh
      complete list that lacks it, if the list stays, whenever the pair is not held. */
  lemma ForgottenPairTurnsAgain(s: State, cfg: Settings, e: Event, r: UserRecord, m: Membership)
    requires Inv(s) && !cfg.policy.ignoreGroupMembers
    requires m in r.groups && StubAllowed(cfg.policy, e.host, m) && m.gid != r.gid
    requires Contradicts(s.groups, m.name, r.name, false) && !s.groups[m.name].stale &&
      At(m.name, r.name) !in s.pairs.held
    requires Full(Enact(s, cfg, e, StoresUser(r)).groups, m.name)
    ensures Turns(s, Enact(s, cfg, e, StoresUser(r)), StoresUser(r), At(m.name, r.name))
  {
    StoredUserIsCoherent(s, cfg, e.host, r, e.now, m);
    OnlyGroupCopiesReplace(s, cfg, e, StoresUser(r), m.name);
    hide StoreUser;
  }
}
