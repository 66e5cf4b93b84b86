/** Whole runs of the daemon: lookups, background refreshes and invalidations in
    any order, at any times, with the host files as they are at each of them.
    A fetch whose caller stopped waiting is a lookup that finds the server
    unavailable and a refresh that ends later. */
module Runs {
  import opened Types
  import opened Store
  import opened Contradictions
  import Negative
  import opened Policy
  import opened Coherence
  import opened Invariant

  datatype Step =
    | LookupUser(ref: Ref, sshd: bool, user: Answer<UserRecord>)
    | LookupGroup(ref: Ref, needMembers: bool, group: Answer<GroupRecord>)
    | RefreshUser(ref: Ref, user: Answer<UserRecord>)
    | RefreshGroup(ref: Ref, group: Answer<GroupRecord>)
    | Invalidation(sel: Selector)

  datatype Event = Event(step: Step, host: Host, now: Time)

  ghost function Apply(s: State, cfg: Settings, e: Event): State {
    match e.step
    case LookupUser(ref, sshd, a) => ResolveUser(s, cfg, e.host, ref, sshd, a, e.now).0
    case LookupGroup(ref, needMembers, a) => ResolveGroup(s, cfg, e.host, ref, needMembers, a, e.now).0
    case RefreshUser(ref, a) => LoadUser(s, cfg, e.host, ref, a, e.now).0
    case RefreshGroup(ref, a) => LoadGroup(s, cfg, e.host, ref, a, e.now).0
    case Invalidation(sel) => Invalidate(s, sel)
  }

  ghost function Run(s: State, cfg: Settings, es: seq<Event>): State
    decreases |es|
  {
    if es == [] then s else Run(Apply(s, cfg, es[0]), cfg, es[1..])
  }

  lemma ApplyKeepsInv(s: State, cfg: Settings, e: Event)
    requires Inv(s)
    ensures Inv(Apply(s, cfg, e))
  {
    match e.step {
      case LookupUser(ref, sshd, a) => ResolveUserKeepsInv(s, cfg, e.host, ref, sshd, a, e.now);
      case LookupGroup(ref, needMembers, a) => ResolveGroupKeepsInv(s, cfg, e.host, ref, needMembers, a, e.now);
      case RefreshUser(ref, a) => LoadUserKeepsInv(s, cfg, e.host, ref, a, e.now);
      case RefreshGroup(ref, a) => LoadGroupKeepsInv(s, cfg, e.host, ref, a, e.now);
      case Invalidation(sel) => InvalidateKeepsInv(s, sel);
    }
  }

  lemma {:induction false} RunKeepsInv(s: State, cfg: Settings, es: seq<Event>)
    requires Inv(s)
    ensures Inv(Run(s, cfg, es))
    decreases |es|
  {
    if es != [] {
      ApplyKeepsInv(s, cfg, es[0]);
      RunKeepsInv(Apply(s, cfg, es[0]), cfg, es[1..]);
    }
  }

  /** In every reachable state no cached user or group has a remembered miss
      under its name or its id, and misses and pairs stay within their bounds. */
  lemma CachesAreDisjoint(cfg: Settings, es: seq<Event>, n: string)
    ensures var s := Run(EMPTY, cfg, es);
      && (n in s.users ==> UserKey(ByName(n)) !in s.negative && UserKey(ById(s.users[n].id)) !in s.negative)
      && (n in s.groups ==> GroupKey(ByName(n)) !in s.negative && GroupKey(ById(s.groups[n].id)) !in s.negative)
      && |s.negative| <= Negative.MAX_NEGATIVE && |s.pairs.held| <= MAX_CONTRADICTIONS
  {
    EmptyIsFine();
    RunKeepsInv(EMPTY, cfg, es);
    var s := Run(EMPTY, cfg, es);
    assert UserHit(s.users, s.negative, n) && GroupHit(s.groups, s.negative, n);
  }

  /* What an event does, apart from dropping an expired miss */

  datatype Effect =
    | NoEffect
    | StoresUser(user: UserRecord)
    | ForgetsUser(ref: Ref)
    | StoresGroup(group: GroupRecord)
    | ForgetsGroup(ref: Ref)
    | MarksEntries(sel: Selector)

  ghost predicate FetchesUser(s: State, cfg: Settings, host: Host, ref: Ref, sshd: bool, now: Time) {
    && UserKeyAllowed(cfg.policy, host, ref)
    && !Negative.Remembers(s.negative, UserKey(ref), now)
    && var e := Find(s.users, ref);
       e.None? || EntryFreshness(cfg, e.value, now).Expired? || (sshd && now - e.value.fetchedAt > cfg.loginSoftTtl)
  }

  ghost predicate FetchesGroup(s: State, cfg: Settings, host: Host, ref: Ref, needMembers: bool, now: Time) {
    && GroupKeyAllowed(cfg.policy, host, ref)
    && !Negative.Remembers(s.negative, GroupKey(ref), now)
    && var e := Find(s.groups, ref);
       e.None? || (needMembers && e.value.data.None?) || EntryFreshness(cfg, e.value, now).Expired?
  }

  /** An answer is stored, forgotten about, or (no answer, or a refused name) left alone. */
  function UserEffect(cfg: Settings, host: Host, ref: Ref, a: Answer<UserRecord>): Effect {
    if a.Unavailable? || a.Invalid? then NoEffect
    else if AcceptsUser(cfg, host, ref, a) then StoresUser(a.record)
    else ForgetsUser(ref)
  }

  function GroupEffect(cfg: Settings, host: Host, ref: Ref, a: Answer<GroupRecord>): Effect {
    if a.Unavailable? || a.Invalid? then NoEffect
    else if AcceptsGroup(cfg, host, ref, a) then StoresGroup(a.record)
    else ForgetsGroup(ref)
  }

  ghost function EffectOf(s: State, cfg: Settings, e: Event): Effect {
    match e.step
    case LookupUser(ref, sshd, a) =>
      if FetchesUser(s, cfg, e.host, ref, sshd, e.now) then UserEffect(cfg, e.host, ref, a) else NoEffect
    case LookupGroup(ref, needMembers, a) =>
      if FetchesGroup(s, cfg, e.host, ref, needMembers, e.now) then GroupEffect(cfg, e.host, ref, a) else NoEffect
    case RefreshUser(ref, a) => UserEffect(cfg, e.host, ref, a)
    case RefreshGroup(ref, a) => GroupEffect(cfg, e.host, ref, a)
    case Invalidation(sel) => MarksEntries(sel)
  }

  ghost function Enact(s: State, cfg: Settings, e: Event, f: Effect): State {
    match f
    case NoEffect => s
    case StoresUser(r) => StoreUser(s, cfg, e.host, r, e.now)
    case ForgetsUser(ref) => ForgetUser(s, cfg, ref, e.now)
    case StoresGroup(r) => StoreGroup(s, cfg, r, e.now)
    case ForgetsGroup(ref) => ForgetGroup(s, cfg, ref, e.now)
    case MarksEntries(sel) => Invalidate(s, sel)
  }

  /** The state the effect starts from: a lookup first drops its key's expired miss. */
  ghost function Asking(s: State, cfg: Settings, e: Event): State {
    match e.step
    case LookupUser(ref, _, _) =>
      if !UserKeyAllowed(cfg.policy, e.host, ref) then s
      else s.(negative := Negative.Asked(s.negative, UserKey(ref), e.now))
    case LookupGroup(ref, _, _) =>
      if !GroupKeyAllowed(cfg.policy, e.host, ref) then s
      else s.(negative := Negative.Asked(s.negative, GroupKey(ref), e.now))
    case _ => s
  }

  lemma ApplyIsItsEffect(s: State, cfg: Settings, e: Event)
    ensures Apply(s, cfg, e) == Enact(Asking(s, cfg, e), cfg, e, EffectOf(s, cfg, e))
  {
    hide AcceptsUser, AcceptsGroup, StoreUser, StoreGroup, ForgetUser, ForgetGroup, ResolveUser, ResolveGroup;
    match e.step {
      case LookupUser(ref, sshd, a) => LookupUserEffect(s, cfg, e.host, ref, sshd, a, e.now);
      case LookupGroup(ref, needMembers, a) => LookupGroupEffect(s, cfg, e.host, ref, needMembers, a, e.now);
      case RefreshUser(ref, a) =>
      case RefreshGroup(ref, a) =>
      case Invalidation(sel) =>
    }
  }

  lemma LookupUserEffect(s: State, cfg: Settings, host: Host, ref: Ref, sshd: bool, a: Answer<UserRecord>, now: Time)
    ensures ResolveUser(s, cfg, host, ref, sshd, a, now).0 ==
      if !UserKeyAllowed(cfg.policy, host, ref) then s
      else
        var asked := s.(negative := Negative.Asked(s.negative, UserKey(ref), now));
        if FetchesUser(s, cfg, host, ref, sshd, now) then LoadUser(asked, cfg, host, ref, a, now).0 else asked
  {
  }

  lemma LookupGroupEffect(
    s: State, cfg: Settings, host: Host, ref: Ref, needMembers: bool, a: Answer<GroupRecord>, now: Time)
    ensures ResolveGroup(s, cfg, host, ref, needMembers, a, now).0 ==
      if !GroupKeyAllowed(cfg.policy, host, ref) then s
      else
        var asked := s.(negative := Negative.Asked(s.negative, GroupKey(ref), now));
        if FetchesGroup(s, cfg, host, ref, needMembers, now) then LoadGroup(asked, cfg, host, ref, a, now).0 else asked
  {
  }

  /* The two tables after an effect */

  ghost function WithoutFound<D>(t: Table<D>, ref: Ref): Table<D> {
    if Find(t, ref).Some? then Delete(t, Find(t, ref).value.name) else t
  }

  lemma FoundRowLeaves<D>(t: Table<D>, ref: Ref, n: string)
    requires Unique(t) && n in t
    ensures n !in WithoutFound(t, ref) <==> Matches(ref, n, t[n].id)
    ensures n in WithoutFound(t, ref) ==> WithoutFound(t, ref)[n] == t[n]
  {
    FindIsTheRow(t, ref, n);
    assert OwnRow(t, n, n);
    if Find(t, ref).Some? {
      FoundIsARow(t, ref);
    }
  }

  /** The group table with a stored user's memberships filled in. */
  ghost function Stubbed(s: State, cfg: Settings, host: Host, r: UserRecord, now: Time): Groups {
    StubAll(Stubs(s.groups, s.negative - {UserKey(ByName(r.name)), UserKey(ById(r.uid))}),
            ServedMemberships(cfg, host, r.groups), cfg.ttlGroup, now).groups
  }

  lemma UsersAfter(s: State, cfg: Settings, e: Event, f: Effect)
    ensures var q := Enact(s, cfg, e, f);
      match f
      case StoresUser(r) => q.users == Put(s.users, UserEntry(cfg, r, e.now))
      case ForgetsUser(ref) => q.users == WithoutFound(s.users, ref)
      case _ => OnlyMarks(s.users, q.users)
  {
    hide StaleGroups, StubAll, Put, Settle, StaleUsers, MarkStale, Changed, OnlyMarks;
    match f {
      case StoresGroup(g) =>
        OnlyMarksSelf(s.users);
        if Full(s.groups, g.name) {
          StaleUsersOnlyMarks(s.users, PreviousMembers(s.groups, g.name).value, g);
        }
      case MarksEntries(sel) =>
        OnlyMarksSelf(s.users);
        MarkStaleOnlyMarks(s.users, sel.name);
      case _ => OnlyMarksSelf(s.users);
    }
  }

  lemma OnlyMarksSelf<D>(t: Table<D>)
    ensures OnlyMarks(t, t)
  {
  }

  lemma GroupsAfter(s: State, cfg: Settings, e: Event, f: Effect)
    ensures var q := Enact(s, cfg, e, f);
      match f
      case StoresUser(r) => OnlyMarks(Stubbed(s, cfg, e.host, r, e.now), q.groups)
      case StoresGroup(r) => q.groups == Put(s.groups, GroupEntry(cfg, r, e.now))
      case ForgetsGroup(ref) => q.groups == WithoutFound(s.groups, ref)
      case _ => OnlyMarks(s.groups, q.groups)
  {
    match f {
      case StoresUser(r) =>
        StaleGroupsOnlyMarks(Lists(Stubbed(s, cfg, e.host, r, e.now), s.pairs), cfg.policy.ignoreGroupMembers,
                             r.name, r.gid,
                             ServedMemberships(cfg, e.host, r.groups), r.groups, PreviousGroups(s.users, r.name));
      case ForgetsUser(ref) =>
        var found := Find(s.users, ref);
        if found.Some? {
          StaleGroupsOnlyMarks(Lists(s.groups, s.pairs), cfg.policy.ignoreGroupMembers, found.value.name, 0, [], [],
            Some(found.value.data.groups));
        }
      case MarksEntries(sel) => MarkStaleOnlyMarks(s.groups, sel.name);
      case _ =>
    }
  }

  /* What a lookup answers */

  /** The server is asked only when it must be: otherwise the outcome and the
      state are the same whatever it would have said; a remembered miss or a
      refused key is no record, and otherwise the cached entry answers. */
  lemma UnaskedServerDoesNotMatter(
    s: State, cfg: Settings, host: Host, ref: Ref, sshd: bool, a: Answer<UserRecord>, b: Answer<UserRecord>,
    now: Time)
    requires !FetchesUser(s, cfg, host, ref, sshd, now)
    ensures ResolveUser(s, cfg, host, ref, sshd, a, now) == ResolveUser(s, cfg, host, ref, sshd, b, now)
    ensures var (_, o, queued) := ResolveUser(s, cfg, host, ref, sshd, a, now);
      if !UserKeyAllowed(cfg.policy, host, ref) || Negative.Remembers(s.negative, UserKey(ref), now)
      then o == NoRecord && !queued
      else var e := Find(s.users, ref).value;
        o == FromUserEntry(cfg.policy, host, e) && (queued <==> EntryFreshness(cfg, e, now).Refresh?)
  {
    hide LoadUser, FromUserEntry;
  }

  /** When it is asked, its answer decides; without one the cached entry does, if
      it may still be served: always unless expired, then for as long as the
      offline expiry allows. */
  lemma AskedServerDecides(s: State, cfg: Settings, host: Host, ref: Ref, sshd: bool, a: Answer<UserRecord>, now: Time)
    requires FetchesUser(s, cfg, host, ref, sshd, now)
    ensures var o, e := ResolveUser(s, cfg, host, ref, sshd, a, now).1, Find(s.users, ref);
      if AcceptsUser(cfg, host, ref, a) then o == Served(ServeUser(cfg.policy, host, a.record).value)
      else if !a.Unavailable? then o == NoRecord
      else if e.Some? && (!EntryFreshness(cfg, e.value, now).Expired? || ServableOffline(cfg, e.value, now))
      then o == FromUserEntry(cfg.policy, host, e.value)
      else o == NotAvailable
  {
    hide StoreUser, ForgetUser, ServeUser, FromUserEntry, EntryFreshness, ServableOffline;
  }

  /** The same two of groups; a stub does not answer a caller that needs members,
      and does not queue a refresh. */
  lemma UnaskedServerDoesNotMatterToGroups(
    s: State, cfg: Settings, host: Host, ref: Ref, needMembers: bool, a: Answer<GroupRecord>,
    b: Answer<GroupRecord>, now: Time)
    requires !FetchesGroup(s, cfg, host, ref, needMembers, now)
    ensures ResolveGroup(s, cfg, host, ref, needMembers, a, now) == ResolveGroup(s, cfg, host, ref, needMembers, b, now)
    ensures var (_, o, queued) := ResolveGroup(s, cfg, host, ref, needMembers, a, now);
      if !GroupKeyAllowed(cfg.policy, host, ref) || Negative.Remembers(s.negative, GroupKey(ref), now)
      then o == NoRecord && !queued
      else var e := Find(s.groups, ref).value;
        o == FromGroupEntry(cfg.policy, host, e) && (queued <==> e.data.Some? && EntryFreshness(cfg, e, now).Refresh?)
  {
    hide LoadGroup, FromGroupEntry;
  }

  lemma AskedServerDecidesGroups(
    s: State, cfg: Settings, host: Host, ref: Ref, needMembers: bool, a: Answer<GroupRecord>, now: Time)
    requires FetchesGroup(s, cfg, host, ref, needMembers, now)
    ensures var o, e := ResolveGroup(s, cfg, host, ref, needMembers, a, now).1, Find(s.groups, ref);
      if AcceptsGroup(cfg, host, ref, a) then o == Served(ServeGroup(cfg.policy, host, a.record).value)
      else if !a.Unavailable? then o == NoRecord
      else if e.Some? && (needMembers ==> e.value.data.Some?) && ServableOffline(cfg, e.value, now)
      then o == FromGroupEntry(cfg.policy, host, e.value)
      else o == NotAvailable
  {
    hide StoreGroup, ForgetGroup, FromGroupEntry, ServeGroup;
  }

  /** Whatever path answered, the user served is the policy's present reading of
      a record that carries the asked name or the asked server uid: the server's
      answer just now, or the cached entry. */
  lemma LookupServesTheAskedUser(
    s: State, cfg: Settings, host: Host, ref: Ref, sshd: bool, a: Answer<UserRecord>, now: Time)
    requires Inv(s) && ResolveUser(s, cfg, host, ref, sshd, a, now).1.Served?
    ensures exists r ::
      && (a == Found(r) || (Find(s.users, ref).Some? && Find(s.users, ref).value.data == r))
      && Matches(ref, r.name, r.uid)
      && ServeUser(cfg.policy, host, r) == Some(ResolveUser(s, cfg, host, ref, sshd, a, now).1.value)
    ensures UserKeyAllowed(cfg.policy, host, ref)
  {
    hide StoreUser, ForgetUser, ServeUser;
    var found := Find(s.users, ref);
    if found.Some? {
      FoundIsARow(s.users, ref);
      assert UserRow(s.users, found.value.name);
    }
    if AcceptsUser(cfg, host, ref, a) &&
      ResolveUser(s, cfg, host, ref, sshd, a, now).1 == Served(ServeUser(cfg.policy, host, a.record).value) {
      assert Matches(ref, a.record.name, a.record.uid);
    } else {
      assert Matches(ref, found.value.data.name, found.value.data.uid);
    }
  }

  lemma GroupOutcomeComesFrom(
    s: State, cfg: Settings, host: Host, ref: Ref, needMembers: bool, a: Answer<GroupRecord>, now: Time)
    requires ResolveGroup(s, cfg, host, ref, needMembers, a, now).1.Served?
    ensures var o, found := ResolveGroup(s, cfg, host, ref, needMembers, a, now).1, Find(s.groups, ref);
      || (AcceptsGroup(cfg, host, ref, a) && o == Served(ServeGroup(cfg.policy, host, a.record).value))
      || (found.Some? && (needMembers ==> found.value.data.Some?) && o == FromGroupEntry(cfg.policy, host, found.value))
  {
    hide StoreGroup, ForgetGroup, ServeGroup, FromGroupEntry, EntryFreshness;
  }

  /** The same of groups, whose name and gid no override changes; a caller that
      needs members is answered from a full record. */
  lemma LookupServesTheAskedGroup(
    s: State, cfg: Settings, host: Host, ref: Ref, needMembers: bool, a: Answer<GroupRecord>, now: Time)
    requires Inv(s) && ResolveGroup(s, cfg, host, ref, needMembers, a, now).1.Served?
    ensures var g := ResolveGroup(s, cfg, host, ref, needMembers, a, now).1.value;
      && Matches(ref, g.name, g.gid) && StubAllowed(cfg.policy, host, Membership(g.gid, g.name))
      && (g.members != [] || needMembers ==> exists r ::
            && (a == Found(r) || (Find(s.groups, ref).Some? && Find(s.groups, ref).value.data == Some(r)))
            && ServeGroup(cfg.policy, host, r) == Some(g))
  {
    GroupOutcomeComesFrom(s, cfg, host, ref, needMembers, a, now);
    hide ResolveGroup, StubAllowed;
    var found := Find(s.groups, ref);
    if found.Some? {
      FoundIsARow(s.groups, ref);
      assert GroupRow(s.groups, found.value.name);
    }
  }

  /* What was stored is found */

  lemma StoredUserIsFound(s: State, cfg: Settings, host: Host, r: UserRecord, now: Time, ref: Ref)
    requires Inv(s) && r.name != "" && Matches(ref, r.name, r.uid)
    ensures var q := StoreUser(s, cfg, host, r, now);
      && Find(q.users, ref) == Some(Entry(r.name, r.uid, r, now, now + cfg.ttlUser, false))
      && UserKey(ref) !in q.negative
  {
    hide StubAll, StaleGroups, ServedMemberships, GroupsOk, GroupsHit, PairsOk;
    StoreUserKeepsInv(s, cfg, host, r, now);
    var q := StoreUser(s, cfg, host, r, now);
    assert q.users[r.name] == UserEntry(cfg, r, now);
    FindIsTheRow(q.users, ref, r.name);
    assert UserHit(q.users, q.negative, r.name);
  }

  lemma StoredGroupIsFound(s: State, cfg: Settings, r: GroupRecord, now: Time, ref: Ref)
    requires Inv(s) && r.name != "" && Matches(ref, r.name, r.gid)
    ensures var q := StoreGroup(s, cfg, r, now);
      && Find(q.groups, ref) == Some(Entry(r.name, r.gid, Some(r), now, now + cfg.ttlGroup, false))
      && GroupKey(ref) !in q.negative
  {
    StoreGroupKeepsInv(s, cfg, r, now);
    var q := StoreGroup(s, cfg, r, now);
    assert q.groups[r.name] == GroupEntry(cfg, r, now);
    FindIsTheRow(q.groups, ref, r.name);
    assert GroupHit(q.groups, q.negative, r.name);
  }

  /** Age only moves an entry on, from fresh to refreshing to expired, and a mark or its
      expiry, and nothing else, ends it. */
  lemma FreshnessOnlyAges<D>(cfg: Settings, e: Entry<D>, now: Time, later: Time)
    requires now <= later
    ensures EntryFreshness(cfg, e, now).Expired? ==> EntryFreshness(cfg, e, later).Expired?
    ensures EntryFreshness(cfg, e, later).Fresh? ==> EntryFreshness(cfg, e, now).Fresh?
    ensures ServableOffline(cfg, e, later) ==> ServableOffline(cfg, e, now)
    ensures EntryFreshness(cfg, e, now).Expired? <==> e.stale || e.expiresAt <= now
  {
  }

  /* Nothing forgotten comes back by itself */

  predicate StoresUserFor(f: Effect, ref: Ref) {
    f.StoresUser? && Matches(ref, f.user.name, f.user.uid)
  }

  ghost predicate NeverStoresUser(s: State, cfg: Settings, es: seq<Event>, ref: Ref)
    decreases |es|
  {
    es == [] ||
    (!StoresUserFor(EffectOf(s, cfg, es[0]), ref) && NeverStoresUser(Apply(s, cfg, es[0]), cfg, es[1..], ref))
  }

  ghost predicate Answers<D>(t: Table<D>, ref: Ref, n: string) {
    n in t && Matches(ref, n, t[n].id)
  }

  lemma NothingIsFound<D>(t: Table<D>, ref: Ref)
    requires forall n :: !Answers(t, ref, n)
    ensures Find(t, ref) == None
  {
    forall n | n in t ensures !Matches(ref, n, t[n].id) {
      assert !Answers(t, ref, n);
    }
  }

  lemma MarksAnswerNothing<D>(t: Table<D>, q: Table<D>, ref: Ref)
    requires OnlyMarks(t, q) && forall n :: !Answers(t, ref, n)
    ensures forall n :: !Answers(q, ref, n)
  {
    forall n ensures !Answers(q, ref, n) {
      assert MarksAtMost(t, q, n) && !Answers(t, ref, n);
    }
  }

  lemma PutAnswersNothing<D>(t: Table<D>, e: Entry<D>, ref: Ref)
    requires (forall n :: !Answers(t, ref, n)) && !Matches(ref, e.name, e.id)
    ensures forall n :: !Answers(Put(t, e), ref, n)
  {
    var q := Put(t, e);
    forall n ensures !Answers(q, ref, n) {
      assert !Answers(t, ref, n);
    }
  }

  lemma DeleteAnswersNothing<D>(t: Table<D>, asked: Ref, ref: Ref)
    requires forall n :: !Answers(t, ref, n)
    ensures forall n :: !Answers(WithoutFound(t, asked), ref, n)
  {
    var q := WithoutFound(t, asked);
    forall n ensures !Answers(q, ref, n) {
      assert !Answers(t, ref, n);
    }
  }

  lemma MissingUserStaysMissing(s: State, cfg: Settings, e: Event, ref: Ref)
    requires forall n :: !Answers(s.users, ref, n)
    requires !StoresUserFor(EffectOf(s, cfg, e), ref)
    ensures forall n :: !Answers(Apply(s, cfg, e).users, ref, n)
  {
    hide Apply, EffectOf, Enact;
    ApplyIsItsEffect(s, cfg, e);
    var f := EffectOf(s, cfg, e);
    UsersAfter(Asking(s, cfg, e), cfg, e, f);
    match f {
      case StoresUser(r) => PutAnswersNothing(s.users, UserEntry(cfg, r, e.now), ref);
      case ForgetsUser(asked) => DeleteAnswersNothing(s.users, asked, ref);
      case _ => MarksAnswerNothing(s.users, Apply(s, cfg, e).users, ref);
    }
  }

  lemma {:induction false} MissingUserStaysMissingAlong(s: State, cfg: Settings, es: seq<Event>, ref: Ref)
    requires Inv(s) && (forall n :: !Answers(s.users, ref, n))
    requires NeverStoresUser(s, cfg, es, ref)
    ensures forall n :: !Answers(Run(s, cfg, es).users, ref, n)
    decreases |es|
  {
    if es != [] {
      ApplyKeepsInv(s, cfg, es[0]);
      MissingUserStaysMissing(s, cfg, es[0], ref);
      MissingUserStaysMissingAlong(Apply(s, cfg, es[0]), cfg, es[1..], ref);
    }
  }

  lemma ForgottenUserAnswersNothing(s: State, cfg: Settings, asked: Ref, now: Time, ref: Ref)
    requires Inv(s) && Find(s.users, asked).Some?
    requires var e := Find(s.users, asked).value; ref == ByName(e.name) || ref == ById(e.id)
    ensures forall n :: !Answers(ForgetUser(s, cfg, asked, now).users, ref, n)
  {
    var e, q := Find(s.users, asked).value, ForgetUser(s, cfg, asked, now);
    FoundIsARow(s.users, asked);
    forall n ensures !Answers(q.users, ref, n) {
      assert OwnRow(s.users, n, e.name);
    }
  }

  lemma UncachedUserNeedsAnAnswer(
    s: State, cfg: Settings, host: Host, ref: Ref, sshd: bool, a: Answer<UserRecord>, now: Time)
    requires Find(s.users, ref) == None
    ensures ResolveUser(s, cfg, host, ref, sshd, a, now).1.Served? ==> AcceptsUser(cfg, host, ref, a)
  {
    hide StoreUser, ForgetUser, ServeUser;
  }

  lemma UncachedGroupNeedsAnAnswer(
    s: State, cfg: Settings, host: Host, ref: Ref, needMembers: bool, a: Answer<GroupRecord>, now: Time)
    requires Find(s.groups, ref) == None
    ensures ResolveGroup(s, cfg, host, ref, needMembers, a, now).1.Served? ==> AcceptsGroup(cfg, host, ref, a)
  {
    hide StoreGroup, ForgetGroup, ServeGroup;
  }

  /** Once the server said a user is gone, no later lookup by its name or its id
      is answered from the cache, in any run, until an answer for that name or
      id is stored again: only such an answer itself can be served. */
  lemma ForgottenUserIsNotResurrected(
    s: State, cfg: Settings, asked: Ref, at: Time, es: seq<Event>, ref: Ref,
    host: Host, sshd: bool, a: Answer<UserRecord>, now: Time)
    requires Inv(s) && Find(s.users, asked).Some?
    requires var e := Find(s.users, asked).value; ref == ByName(e.name) || ref == ById(e.id)
    requires NeverStoresUser(ForgetUser(s, cfg, asked, at), cfg, es, ref)
    ensures var q := Run(ForgetUser(s, cfg, asked, at), cfg, es);
      && Find(q.users, ref) == None
      && (ResolveUser(q, cfg, host, ref, sshd, a, now).1.Served? ==> AcceptsUser(cfg, host, ref, a))
  {
    hide Apply, ForgetUser, ResolveUser, StoresUserFor;
    var dropped := ForgetUser(s, cfg, asked, at);
    var q := Run(dropped, cfg, es);
    ForgetUserKeepsInv(s, cfg, asked, at);
    ForgottenUserAnswersNothing(s, cfg, asked, at, ref);
    MissingUserStaysMissingAlong(dropped, cfg, es, ref);
    NothingIsFound(q.users, ref);
    UncachedUserNeedsAnAnswer(q, cfg, host, ref, sshd, a, now);
  }

  /** A group comes back with a group answer or with a user's membership. */
  ghost predicate StoresGroupFor(f: Effect, cfg: Settings, host: Host, ref: Ref) {
    || (f.StoresGroup? && Matches(ref, f.group.name, f.group.gid))
    || (f.StoresUser? && exists m ::
          m in f.user.groups && StubAllowed(cfg.policy, host, m) && Matches(ref, m.name, m.gid))
  }

  ghost predicate NeverStoresGroup(s: State, cfg: Settings, es: seq<Event>, ref: Ref)
    decreases |es|
  {
    es == [] ||
    (!StoresGroupFor(EffectOf(s, cfg, es[0]), cfg, es[0].host, ref) &&
      NeverStoresGroup(Apply(s, cfg, es[0]), cfg, es[1..], ref))
  }

  lemma {:induction false} StubsAnswerNothing(b: Stubs, ms: seq<Membership>, ttl: Time, now: Time, ref: Ref)
    requires forall n :: !Answers(b.groups, ref, n)
    requires forall m | m in ms :: !Matches(ref, m.name, m.gid)
    ensures forall n :: !Answers(StubAll(b, ms, ttl, now).groups, ref, n)
    decreases |ms|
  {
    if ms != [] {
      var next := StubOne(b, ms[0], ttl, now);
      forall n ensures !Answers(next.groups, ref, n) {
        assert !Answers(b.groups, ref, n) && !Matches(ref, ms[0].name, ms[0].gid);
      }
      StubsAnswerNothing(next, ms[1..], ttl, now, ref);
    }
  }

  lemma MissingGroupStaysMissing(s: State, cfg: Settings, e: Event, ref: Ref)
    requires forall n :: !Answers(s.groups, ref, n)
    requires !StoresGroupFor(EffectOf(s, cfg, e), cfg, e.host, ref)
    ensures forall n :: !Answers(Apply(s, cfg, e).groups, ref, n)
  {
    hide Apply, EffectOf, Enact;
    ApplyIsItsEffect(s, cfg, e);
    var asking, f := Asking(s, cfg, e), EffectOf(s, cfg, e);
    GroupsAfter(asking, cfg, e, f);
    match f {
      case StoresUser(r) =>
        ServedAreNamed(cfg, e.host, r.groups);
        StubsAnswerNothing(Stubs(s.groups, asking.negative - {UserKey(ByName(r.name)), UserKey(ById(r.uid))}),
                           ServedMemberships(cfg, e.host, r.groups), cfg.ttlGroup, e.now, ref);
        MarksAnswerNothing(Stubbed(asking, cfg, e.host, r, e.now), Apply(s, cfg, e).groups, ref);
      case StoresGroup(r) => PutAnswersNothing(s.groups, GroupEntry(cfg, r, e.now), ref);
      case ForgetsGroup(asked) => DeleteAnswersNothing(s.groups, asked, ref);
      case _ => MarksAnswerNothing(s.groups, Apply(s, cfg, e).groups, ref);
    }
  }

  lemma {:induction false} MissingGroupStaysMissingAlong(s: State, cfg: Settings, es: seq<Event>, ref: Ref)
    requires Inv(s) && (forall n :: !Answers(s.groups, ref, n))
    requires NeverStoresGroup(s, cfg, es, ref)
    ensures forall n :: !Answers(Run(s, cfg, es).groups, ref, n)
    decreases |es|
  {
    if es != [] {
      ApplyKeepsInv(s, cfg, es[0]);
      MissingGroupStaysMissing(s, cfg, es[0], ref);
      MissingGroupStaysMissingAlong(Apply(s, cfg, es[0]), cfg, es[1..], ref);
    }
  }

  /** The same of groups, which a user's membership may also bring back. */
  lemma ForgottenGroupIsNotResurrected(
    s: State, cfg: Settings, asked: Ref, at: Time, es: seq<Event>, ref: Ref,
    host: Host, needMembers: bool, a: Answer<GroupRecord>, now: Time)
    requires Inv(s) && Find(s.groups, asked).Some?
    requires var e := Find(s.groups, asked).value; ref == ByName(e.name) || ref == ById(e.id)
    requires NeverStoresGroup(ForgetGroup(s, cfg, asked, at), cfg, es, ref)
    ensures var q := Run(ForgetGroup(s, cfg, asked, at), cfg, es);
      && Find(q.groups, ref) == None
      && (ResolveGroup(q, cfg, host, ref, needMembers, a, now).1.Served? ==> AcceptsGroup(cfg, host, ref, a))
  {
    hide Apply, ResolveGroup, StoresGroupFor;
    var e, dropped := Find(s.groups, asked).value, ForgetGroup(s, cfg, asked, at);
    var q := Run(dropped, cfg, es);
    ForgetGroupKeepsInv(s, cfg, asked, at);
    FoundIsARow(s.groups, asked);
    forall n ensures !Answers(dropped.groups, ref, n) {
      assert OwnRow(s.groups, n, e.name);
    }
    MissingGroupStaysMissingAlong(dropped, cfg, es, ref);
    NothingIsFound(q.groups, ref);
    UncachedGroupNeedsAnAnswer(q, cfg, host, ref, needMembers, a, now);
  }
}
