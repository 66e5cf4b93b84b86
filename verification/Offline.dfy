/** Losing the server loses no record: what a run without answers keeps serving,
    and the only ways an entry ever leaves the cache. */
module Offline {
  import opened Types
  import opened Store
  import opened Policy
  import opened Coherence
  import opened Invariant
  import opened Runs
  import Upstream

  /** An event in which the server says nothing about any record: it cannot be
      reached, errs, or refuses the question. */
  predicate Silent(e: Event) {
    match e.step
    case LookupUser(_, _, a) => a.Unavailable? || a.Invalid?
    case LookupGroup(_, _, a) => a.Unavailable? || a.Invalid?
    case RefreshUser(_, a) => a.Unavailable? || a.Invalid?
    case RefreshGroup(_, a) => a.Unavailable? || a.Invalid?
    case Invalidation(_) => true
  }

  lemma SilentOnlyMarks(s: State, cfg: Settings, e: Event)
    requires Silent(e)
    ensures OnlyMarks(s.users, Apply(s, cfg, e).users) && OnlyMarks(s.groups, Apply(s, cfg, e).groups)
  {
    hide Apply, Enact, FetchesUser, FetchesGroup;
    ApplyIsItsEffect(s, cfg, e);
    UsersAfter(Asking(s, cfg, e), cfg, e, EffectOf(s, cfg, e));
    GroupsAfter(Asking(s, cfg, e), cfg, e, EffectOf(s, cfg, e));
  }

  lemma {:induction false} SilentRunOnlyMarks(s: State, cfg: Settings, es: seq<Event>)
    requires forall i :: 0 <= i < |es| ==> Silent(es[i])
    ensures OnlyMarks(s.users, Run(s, cfg, es).users) && OnlyMarks(s.groups, Run(s, cfg, es).groups)
    decreases |es|
  {
    hide Apply;
    if es != [] {
      var next := Apply(s, cfg, es[0]);
      SilentOnlyMarks(s, cfg, es[0]);
      SilentRunOnlyMarks(next, cfg, es[1..]);
      OnlyMarksTwice(s.users, next.users, Run(s, cfg, es).users);
      OnlyMarksTwice(s.groups, next.groups, Run(s, cfg, es).groups);
    }
  }

  lemma OfflineLookupServesUser(s: State, cfg: Settings, n: string, host: Host, sshd: bool, now: Time)
    requires Inv(s) && cfg.expireOffline <= 0
    requires n in s.users && ServeUser(cfg.policy, host, s.users[n].data).Some?
    ensures ResolveUser(s, cfg, host, ByName(n), sshd, Unavailable, now).1 ==
      Served(ServeUser(cfg.policy, host, s.users[n].data).value)
  {
    assert UserRow(s.users, n) && UserHit(s.users, s.negative, n);
    assert UserNameAllowed(cfg.policy, host, n);
    hide ServeUser;
  }

  lemma OfflineLookupServesGroup(s: State, cfg: Settings, n: string, host: Host, needMembers: bool, now: Time)
    requires Inv(s) && cfg.expireOffline <= 0
    requires n in s.groups && (needMembers ==> s.groups[n].data.Some?)
    requires FromGroupEntry(cfg.policy, host, s.groups[n]).Served?
    ensures ResolveGroup(s, cfg, host, ByName(n), needMembers, Unavailable, now).1 ==
      FromGroupEntry(cfg.policy, host, s.groups[n])
  {
    assert OwnRow(s.groups, n, n) && GroupRow(s.groups, n) && GroupHit(s.groups, s.negative, n);
    assert GroupNameAllowed(cfg.policy, host, n);
    hide FromGroupEntry;
  }

  /** However long the server stays silent and however often the cache is
      invalidated meanwhile, every user that was cached is still served by name,
      by the policy of that moment, when the offline expiry is off. */
  lemma SilenceKeepsServingUsers(s: State, cfg: Settings, es: seq<Event>, n: string, host: Host, sshd: bool, now: Time)
    requires Inv(s) && cfg.expireOffline <= 0 && forall i :: 0 <= i < |es| ==> Silent(es[i])
    requires n in s.users && ServeUser(cfg.policy, host, s.users[n].data).Some?
    ensures ResolveUser(Run(s, cfg, es), cfg, host, ByName(n), sshd, Unavailable, now).1
         == Served(ServeUser(cfg.policy, host, s.users[n].data).value)
  {
    hide Apply, ServeUser, ResolveUser;
    var q := Run(s, cfg, es);
    SilentRunOnlyMarks(s, cfg, es);
    RunKeepsInv(s, cfg, es);
    assert MarksAtMost(s.users, q.users, n);
    OfflineLookupServesUser(q, cfg, n, host, sshd, now);
  }

  /** And so is every group, with its members when they were cached. */
  lemma SilenceKeepsServingGroups(
    s: State, cfg: Settings, es: seq<Event>, n: string, host: Host, needMembers: bool, now: Time)
    requires Inv(s) && cfg.expireOffline <= 0 && forall i :: 0 <= i < |es| ==> Silent(es[i])
    requires n in s.groups && (needMembers ==> s.groups[n].data.Some?)
    requires FromGroupEntry(cfg.policy, host, s.groups[n]).Served?
    ensures ResolveGroup(Run(s, cfg, es), cfg, host, ByName(n), needMembers, Unavailable, now).1
         == FromGroupEntry(cfg.policy, host, s.groups[n])
  {
    hide Apply, ResolveGroup, StubAllowed, ServeGroup;
    var q := Run(s, cfg, es);
    SilentRunOnlyMarks(s, cfg, es);
    RunKeepsInv(s, cfg, es);
    assert MarksAtMost(s.groups, q.groups, n);
    OfflineLookupServesGroup(q, cfg, n, host, needMembers, now);
  }

  /* What the client's verdicts mean to the cache */

  /** What a fetch brings the daemon; no verdict means the gate let nothing out. */
  function AnswerOf<R>(v: Option<Upstream.Verdict>, record: Option<R>): Answer<R> {
    match v
    case Some(Answered) => if record.Some? then Found(record.value) else Nothing
    case Some(Missing) => NotFound
    case Some(Refused) => Invalid
    case _ => Unavailable
  }

  /** A server said who the key names, or that it names no one. */
  predicate Authoritative(t: Upstream.Attempt) {
    t.outcome.Replied? && Upstream.Classify(t.outcome.reply) in {Upstream.Answered, Upstream.Missing}
  }

  lemma ErrorsAreNoAnswer<R>(tries: seq<Upstream.Attempt>, record: Option<R>)
    requires tries != [] && forall j :: 0 <= j < |tries| ==> !Authoritative(tries[j])
    ensures var a := AnswerOf(Some(Upstream.Conclude(tries, 0)), record); a.Invalid? || a.Unavailable?
  {
    Upstream.FirstReplyDecides(tries, 0);
    if j: nat :| Upstream.FirstReply(tries, 0, j) {
      assert !Authoritative(tries[j]);
    }
  }

  lemma NoAnswerKeepsUsers(s: State, cfg: Settings, host: Host, ref: Ref, sshd: bool, a: Answer<UserRecord>, now: Time)
    requires a.Invalid? || a.Unavailable?
    ensures LoadUser(s, cfg, host, ref, a, now).0 == s
    ensures var q := ResolveUser(s, cfg, host, ref, sshd, a, now).0;
      q.users == s.users && q.groups == s.groups && q.pairs == s.pairs
  {
    hide StoreUser, ForgetUser, Find, FromUserEntry;
  }

  lemma NoAnswerKeepsGroups(
    s: State, cfg: Settings, host: Host, ref: Ref, needMembers: bool, a: Answer<GroupRecord>, now: Time)
    requires a.Invalid? || a.Unavailable?
    ensures LoadGroup(s, cfg, host, ref, a, now).0 == s
    ensures var q := ResolveGroup(s, cfg, host, ref, needMembers, a, now).0;
      q.users == s.users && q.groups == s.groups && q.pairs == s.pairs
  {
    hide StoreGroup, ForgetGroup, Find, FromGroupEntry;
  }

  /** Whatever statuses, silences and retries a fetch goes through, unless a server
      answers with a record or with the code of an authoritative miss, neither the
      lookup nor a refresh changes a cached user, group or contradiction. */
  lemma ErrorsForgetNothing(
    s: State, cfg: Settings, host: Host, ref: Ref, tries: seq<Upstream.Attempt>,
    user: Option<UserRecord>, group: Option<GroupRecord>, sshd: bool, needMembers: bool, now: Time)
    requires tries != [] && forall j :: 0 <= j < |tries| ==> !Authoritative(tries[j])
    ensures var v := Some(Upstream.Conclude(tries, 0));
      && LoadUser(s, cfg, host, ref, AnswerOf(v, user), now).0 == s
      && LoadGroup(s, cfg, host, ref, AnswerOf(v, group), now).0 == s
    ensures var q := ResolveUser(s, cfg, host, ref, sshd, AnswerOf(Some(Upstream.Conclude(tries, 0)), user), now).0;
      q.users == s.users && q.groups == s.groups && q.pairs == s.pairs
    ensures var v := Some(Upstream.Conclude(tries, 0));
      var q := ResolveGroup(s, cfg, host, ref, needMembers, AnswerOf(v, group), now).0;
      q.users == s.users && q.groups == s.groups && q.pairs == s.pairs
  {
    hide ResolveUser, ResolveGroup, LoadUser, LoadGroup, AnswerOf, Upstream.Conclude;
    var v := Some(Upstream.Conclude(tries, 0));
    ErrorsAreNoAnswer(tries, user);
    ErrorsAreNoAnswer(tries, group);
    NoAnswerKeepsUsers(s, cfg, host, ref, sshd, AnswerOf(v, user), now);
    NoAnswerKeepsGroups(s, cfg, host, ref, needMembers, AnswerOf(v, group), now);
  }

  /* How an entry leaves the cache */

  /** A cached user leaves exactly when an answer for its name or its uid was an
      authoritative miss, the wrong record or refused by policy, or when a user
      of another name is stored with its uid. */
  lemma UserLeavesExactlyWhen(s: State, cfg: Settings, e: Event, n: string)
    requires Inv(s) && n in s.users
    ensures var f := EffectOf(s, cfg, e);
      n !in Apply(s, cfg, e).users <==>
        || (f.ForgetsUser? && Matches(f.ref, n, s.users[n].id))
        || (f.StoresUser? && f.user.name != n && f.user.uid == s.users[n].id)
  {
    hide Apply, EffectOf, Enact, GroupsOk, UsersHit, GroupsHit, PairsOk;
    ApplyIsItsEffect(s, cfg, e);
    var f := EffectOf(s, cfg, e);
    UsersAfter(Asking(s, cfg, e), cfg, e, f);
    hide Find, WithoutFound;
    match f {
      case StoresUser(r) =>
      case ForgetsUser(ref) => FoundRowLeaves(s.users, ref, n);
      case _ =>
        assert MarksAtMost(s.users, Apply(s, cfg, e).users, n);
    }
  }

  function GidOf(groups: Groups, n: string): Option<Uint32> {
    if n in groups then Some(groups[n].id) else None
  }

  /** The gid a name is left with when memberships are taken in turn: each gives its
      own name its gid, and takes that gid from any other. */
  function GidAfter(ms: seq<Membership>, n: string, gid: Option<Uint32>): Option<Uint32> {
    if ms == [] then gid
    else GidAfter(ms[1..], n, if ms[0].name == n then Some(ms[0].gid) else if gid == Some(ms[0].gid) then None else gid)
  }

  lemma {:induction false} StubsMoveGids(b: Stubs, ms: seq<Membership>, ttl: Time, now: Time, n: string)
    requires Unique(b.groups)
    ensures GidOf(StubAll(b, ms, ttl, now).groups, n) == GidAfter(ms, n, GidOf(b.groups, n))
    decreases |ms|
  {
    if ms != [] {
      assert OwnRow(b.groups, n, ms[0].name) && OwnRow(b.groups, ms[0].name, n);
      PutStaysUnique(b.groups, Entry(ms[0].name, ms[0].gid, None, now, now + ttl, false));
      StubsMoveGids(StubOne(b, ms[0], ttl, now), ms[1..], ttl, now, n);
    }
  }

  /** A cached group leaves exactly when an answer for its name or gid was a miss,
      wrong or refused, or its gid goes to another name, by a stored group or by
      a stored user's memberships, none of which gives it one again. */
  lemma GroupLeavesExactlyWhen(s: State, cfg: Settings, e: Event, n: string)
    requires Inv(s) && n in s.groups
    ensures var f := EffectOf(s, cfg, e);
      n !in Apply(s, cfg, e).groups <==>
      || (f.ForgetsGroup? && Matches(f.ref, n, s.groups[n].id))
      || (f.StoresGroup? && f.group.name != n && f.group.gid == s.groups[n].id)
      || (f.StoresUser? && GidAfter(ServedMemberships(cfg, e.host, f.user.groups), n, Some(s.groups[n].id)) == None)
  {
    hide Apply, EffectOf, Enact, UsersOk, UsersHit, GroupsHit, PairsOk;
    ApplyIsItsEffect(s, cfg, e);
    var asking, f := Asking(s, cfg, e), EffectOf(s, cfg, e);
    GroupsAfter(asking, cfg, e, f);
    hide Find, WithoutFound;
    match f {
      case StoresUser(r) =>
        assert MarksAtMost(Stubbed(asking, cfg, e.host, r, e.now), Apply(s, cfg, e).groups, n);
        StubsMoveGids(Stubs(s.groups, asking.negative - {UserKey(ByName(r.name)), UserKey(ById(r.uid))}),
                      ServedMemberships(cfg, e.host, r.groups), cfg.ttlGroup, e.now, n);
      case StoresGroup(r) =>
      case ForgetsGroup(ref) => FoundRowLeaves(s.groups, ref, n);
      case _ =>
        assert MarksAtMost(s.groups, Apply(s, cfg, e).groups, n);
    }
  }
}
