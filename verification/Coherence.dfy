/** The daemon's state and what each operation does to it, as functions: storing
    and forgetting users and groups, keeping the two sides of a membership
    coherent, and answering lookups. */
module Coherence {
  import opened Types
  import opened Store
  import opened Contradictions
  import Negative
  import opened Policy

  const MAX_CONTRADICTIONS := 4096

  /** A group entry filled from a user's memberships has no record. */
  type Users = Table<UserRecord>
  type Groups = Table<Option<GroupRecord>>

  datatype State = State(users: Users, groups: Groups, negative: Negative.Misses, pairs: Pairs)

  /** The group side of the state, which a user's memberships are weighed against. */
  datatype Lists = Lists(groups: Groups, pairs: Pairs)

  datatype Settings = Settings(
    policy: Config, ttlUser: Time, ttlGroup: Time, ttlNegative: Time,
    loginSoftTtl: Time, nowaitPercentage: int, expireOffline: Time)

  /** What the server said to one fetch. `Nothing` is an answer without a record. */
  datatype Answer<+R> = Found(record: R) | Nothing | NotFound | Invalid | Unavailable

  datatype Outcome<+T> = Served(value: T) | NoRecord | NotAvailable

  /* Member lists against a user's record */

  predicate Full(groups: Groups, group: string) {
    group in groups && groups[group].data.Some?
  }

  /** The cached list names the user (`listed`) or lacks it although complete. */
  predicate Contradicts(groups: Groups, group: string, user: string, listed: bool) {
    Full(groups, group) &&
    var g := groups[group].data.value;
    (user in g.members) == listed && (listed || !g.truncated)
  }

  function StaleIf(groups: Groups, group: string, user: string, listed: bool): Groups {
    if Contradicts(groups, group, user, listed) && !groups[group].stale then MarkStale(groups, group) else groups
  }

  /** One served membership of a fresh record. `prev` are the memberships of the
      entry the record replaced. */
  ghost function WeighOne(
    l: Lists, user: string, primary: Uint32, prev: Option<seq<Membership>>, m: Membership): Lists {
    var k := At(m.name, user);
    if m.gid == primary then l
    else if !Joined(prev, m.name) && Suppressed(l.pairs, k) then l
    else if Contradicts(l.groups, m.name, user, false) then
      Lists(StaleIf(l.groups, m.name, user, false), Mark(l.pairs, k, MAX_CONTRADICTIONS))
    else l
  }

  predicate Joined(prev: Option<seq<Membership>>, group: string) {
    prev.None? || !HasMembership(prev.value, group)
  }

  ghost function Weigh(
    l: Lists, user: string, primary: Uint32, prev: Option<seq<Membership>>, served: seq<Membership>): Lists
    decreases |served|
  {
    if served == [] then l
    else Weigh(WeighOne(l, user, primary, prev, served[0]), user, primary, prev, served[1..])
  }

  /** One membership of the replaced entry. */
  function LeaveOne(l: Lists, user: string, current: seq<Membership>, m: Membership): Lists {
    if HasMembership(current, m.name) then l
    else Lists(StaleIf(l.groups, m.name, user, true), Forget(l.pairs, At(m.name, user)))
  }

  function Leave(l: Lists, user: string, current: seq<Membership>, prev: seq<Membership>): Lists
    decreases |prev|
  {
    if prev == [] then l
    else Leave(LeaveOne(l, user, current, prev[0]), user, current, prev[1..])
  }

  ghost function StaleGroups(l: Lists, ignore: bool, user: string, primary: Uint32,
                             served: seq<Membership>, current: seq<Membership>, prev: Option<seq<Membership>>): Lists {
    if ignore then l
    else
      var weighed := Weigh(l, user, primary, prev, served);
      if prev.None? then weighed else Leave(weighed, user, current, prev.value)
  }

  function PreviousGroups(users: Users, name: string): Option<seq<Membership>> {
    if name in users then Some(users[name].data.groups) else None
  }

  /* Storing and forgetting users */

  function ServedMemberships(cfg: Settings, host: Host, ms: seq<Membership>): seq<Membership> {
    if ms == [] then []
    else
      (if StubAllowed(cfg.policy, host, ms[0]) then [ms[0]] else []) + ServedMemberships(cfg, host, ms[1..])
  }

  datatype Stubs = Stubs(groups: Groups, negative: Negative.Misses)

  function StubOne(b: Stubs, m: Membership, ttl: Time, now: Time): Stubs {
    if Full(b.groups, m.name) && b.groups[m.name].id == m.gid then b
    else Stubs(Put(b.groups, Entry(m.name, m.gid, None, now, now + ttl, false)),
               b.negative - {GroupKey(ByName(m.name)), GroupKey(ById(m.gid))})
  }

  function StubAll(b: Stubs, ms: seq<Membership>, ttl: Time, now: Time): Stubs
    decreases |ms|
  {
    if ms == [] then b else StubAll(StubOne(b, ms[0], ttl, now), ms[1..], ttl, now)
  }

  function UserEntry(cfg: Settings, r: UserRecord, now: Time): Entry<UserRecord> {
    Entry(r.name, r.uid, r, now, now + cfg.ttlUser, false)
  }

  ghost function StoreUser(s: State, cfg: Settings, host: Host, r: UserRecord, now: Time): State {
    var served := ServedMemberships(cfg, host, r.groups);
    var stubs := StubAll(
      Stubs(s.groups, s.negative - {UserKey(ByName(r.name)), UserKey(ById(r.uid))}), served, cfg.ttlGroup, now);
    var lists := StaleGroups(Lists(stubs.groups, s.pairs), cfg.policy.ignoreGroupMembers, r.name, r.gid,
                             served, r.groups, PreviousGroups(s.users, r.name));
    State(Put(s.users, UserEntry(cfg, r, now)), lists.groups, stubs.negative, lists.pairs)
  }

  ghost function ForgetUser(s: State, cfg: Settings, ref: Ref, now: Time): State {
    var negative := Negative.Add(s.negative, UserKey(ref), now, cfg.ttlNegative);
    match Find(s.users, ref)
    case None => s.(negative := negative)
    case Some(e) =>
      var lists := StaleGroups(Lists(s.groups, s.pairs), cfg.policy.ignoreGroupMembers, e.name, 0, [], [],
        Some(e.data.groups));
      State(Delete(s.users, e.name), lists.groups, negative, lists.pairs)
  }

  /* Storing and forgetting groups */

  /** Whether a user's cached memberships disagree with a changed member list. */
  predicate Disagrees(e: Entry<UserRecord>, prev: seq<string>, r: GroupRecord) {
    || (e.name !in prev && e.name in r.members && !HasMembership(e.data.groups, r.name))
    || (e.name in prev && e.name !in r.members && HasMembership(e.data.groups, r.name))
  }

  function StaleUsers(users: Users, prev: seq<string>, r: GroupRecord): Users {
    map n | n in users :: if Disagrees(users[n], prev, r) then Marked(users[n]) else users[n]
  }

  ghost predicate SameMembers(a: seq<string>, b: seq<string>) {
    forall m :: m in a <==> m in b
  }

  function PreviousMembers(groups: Groups, name: string): Option<seq<string>> {
    if Full(groups, name) then Some(groups[name].data.value.members) else None
  }

  ghost predicate Changed(prev: Option<seq<string>>, r: GroupRecord) {
    prev.None? || !SameMembers(prev.value, r.members)
  }

  function GroupEntry(cfg: Settings, r: GroupRecord, now: Time): Entry<Option<GroupRecord>> {
    Entry(r.name, r.gid, Some(r), now, now + cfg.ttlGroup, false)
  }

  ghost function StoreGroup(s: State, cfg: Settings, r: GroupRecord, now: Time): State {
    var prev := PreviousMembers(s.groups, r.name);
    State(
      if prev.Some? then StaleUsers(s.users, prev.value, r) else s.users,
      Put(s.groups, GroupEntry(cfg, r, now)),
      s.negative - {GroupKey(ByName(r.name)), GroupKey(ById(r.gid))},
      Settle(s.pairs, r.name, r.members, r.truncated, Changed(prev, r)))
  }

  ghost function ForgetGroup(s: State, cfg: Settings, ref: Ref, now: Time): State {
    var negative := Negative.Add(s.negative, GroupKey(ref), now, cfg.ttlNegative);
    match Find(s.groups, ref)
    case None => s.(negative := negative)
    case Some(e) => s.(groups := Delete(s.groups, e.name), negative := negative)
  }

  /* One fetch: the server's answer, checked, judged and stored */

  predicate Matches(ref: Ref, name: string, id: Uint32) {
    match ref
    case ByName(n) => n == name
    case ById(i) => i == id
  }

  /** The answer is a record for the key that the policy lets through. */
  predicate AcceptsUser(cfg: Settings, host: Host, ref: Ref, a: Answer<UserRecord>) {
    a.Found? && Matches(ref, a.record.name, a.record.uid) && ServeUser(cfg.policy, host, a.record).Some?
  }

  predicate AcceptsGroup(cfg: Settings, host: Host, ref: Ref, a: Answer<GroupRecord>) {
    a.Found? && Matches(ref, a.record.name, a.record.gid) && ServeGroup(cfg.policy, host, a.record).Some?
  }

  ghost function LoadUser(
    s: State, cfg: Settings, host: Host, ref: Ref, a: Answer<UserRecord>, now: Time): (State, Outcome<User>) {
    if a.Unavailable? then (s, NotAvailable)
    else if a.Invalid? then (s, NoRecord)
    else if AcceptsUser(cfg, host, ref, a) then
      (StoreUser(s, cfg, host, a.record, now), Served(ServeUser(cfg.policy, host, a.record).value))
    else (ForgetUser(s, cfg, ref, now), NoRecord)
  }

  ghost function LoadGroup(
    s: State, cfg: Settings, host: Host, ref: Ref, a: Answer<GroupRecord>, now: Time): (State, Outcome<Group>) {
    if a.Unavailable? then (s, NotAvailable)
    else if a.Invalid? then (s, NoRecord)
    else if AcceptsGroup(cfg, host, ref, a) then
      (StoreGroup(s, cfg, a.record, now), Served(ServeGroup(cfg.policy, host, a.record).value))
    else (ForgetGroup(s, cfg, ref, now), NoRecord)
  }

  /* Lookups */

  datatype Freshness = Fresh | Refresh | Expired

  /** Integer division that truncates toward zero. */
  function Quotient(a: int, b: int): int
    requires b > 0
  {
    if a >= 0 then a / b else -(-a / b)
  }

  function EntryFreshness<D>(cfg: Settings, e: Entry<D>, now: Time): Freshness {
    if e.stale || !(now < e.expiresAt) then Expired
    else if cfg.nowaitPercentage <= 0 then Fresh
    else if now < e.fetchedAt + Quotient((e.expiresAt - e.fetchedAt) * cfg.nowaitPercentage, 100) then Fresh
    else Refresh
  }

  function ServableOffline<D>(cfg: Settings, e: Entry<D>, now: Time): bool {
    cfg.expireOffline <= 0 || now - e.fetchedAt < cfg.expireOffline
  }

  predicate UserKeyAllowed(cfg: Config, host: Host, ref: Ref) {
    match ref
    case ByName(name) => UserNameAllowed(cfg, host, name)
    case ById(id) => UidAllowed(cfg, host, id)
  }

  predicate GroupKeyAllowed(cfg: Config, host: Host, ref: Ref) {
    match ref
    case ByName(name) => GroupNameAllowed(cfg, host, name)
    case ById(id) => GidAllowed(cfg, host, id)
  }

  /** A cached user, judged again by the policy of the moment. */
  function FromUserEntry(cfg: Config, host: Host, e: Entry<UserRecord>): Outcome<User> {
    var u := ServeUser(cfg, host, e.data);
    if u.Some? then Served(u.value) else NoRecord
  }

  function FromGroupEntry(cfg: Config, host: Host, e: Entry<Option<GroupRecord>>): Outcome<Group> {
    match e.data
    case None => if StubAllowed(cfg, host, Membership(e.id, e.name)) then Served(Group(e.name, e.id, [])) else NoRecord
    case Some(r) =>
      var g := ServeGroup(cfg, host, r);
      if g.Some? then Served(g.value) else NoRecord
  }

  /** The state after a lookup, its outcome, and whether it queued a refresh.
      `a` is what the fetch gives if one is made and ends in time. */
  ghost function ResolveUser(
    s: State, cfg: Settings, host: Host, ref: Ref, sshd: bool, a: Answer<UserRecord>, now: Time)
    : (State, Outcome<User>, bool)
  {
    if !UserKeyAllowed(cfg.policy, host, ref) then (s, NoRecord, false)
    else
      var asked := s.(negative := Negative.Asked(s.negative, UserKey(ref), now));
      if Negative.Remembers(s.negative, UserKey(ref), now) then (asked, NoRecord, false)
      else
        var (loaded, fetched) := LoadUser(asked, cfg, host, ref, a, now);
        match Find(s.users, ref)
        case None => (loaded, fetched, false)
        case Some(e) =>
          var age := EntryFreshness(cfg, e, now);
          if age.Expired? then
            var unserved := fetched == NotAvailable && ServableOffline(cfg, e, now);
            (loaded, if unserved then FromUserEntry(cfg.policy, host, e) else fetched, false)
          else if sshd && now - e.fetchedAt > cfg.loginSoftTtl && fetched != NotAvailable then (loaded, fetched, false)
          else (asked, FromUserEntry(cfg.policy, host, e), age.Refresh?)
  }

  ghost function ResolveGroup(
    s: State, cfg: Settings, host: Host, ref: Ref, needMembers: bool, a: Answer<GroupRecord>, now: Time)
    : (State, Outcome<Group>, bool)
  {
    if !GroupKeyAllowed(cfg.policy, host, ref) then (s, NoRecord, false)
    else
      var asked := s.(negative := Negative.Asked(s.negative, GroupKey(ref), now));
      if Negative.Remembers(s.negative, GroupKey(ref), now) then (asked, NoRecord, false)
      else
        var (loaded, fetched) := LoadGroup(asked, cfg, host, ref, a, now);
        match Find(s.groups, ref)
        case None => (loaded, fetched, false)
        case Some(e) =>
          if needMembers && e.data.None? then (loaded, fetched, false)
          else
            var age := EntryFreshness(cfg, e, now);
            if age.Expired? then
              var unserved := fetched == NotAvailable && ServableOffline(cfg, e, now);
              (loaded, if unserved then FromGroupEntry(cfg.policy, host, e) else fetched, false)
            else (asked, FromGroupEntry(cfg.policy, host, e), age.Refresh? && e.data.Some?)
  }

  /* The administrator's invalidation */

  /** The misses an invalidation leaves: none at all, or all but the named ones. */
  function StillMissed(m: Negative.Misses, sel: Selector): Negative.Misses {
    if sel.name == "" then map[]
    else
      var m := if sel.users then m - {UserKey(ByName(sel.name))} else m;
      if sel.groups then m - {GroupKey(ByName(sel.name))} else m
  }

  function Invalidate(s: State, sel: Selector): State {
    State(
      if sel.users then MarkStale(s.users, sel.name) else s.users,
      if sel.groups then MarkStale(s.groups, sel.name) else s.groups,
      StillMissed(s.negative, sel),
      s.pairs)
  }
}
