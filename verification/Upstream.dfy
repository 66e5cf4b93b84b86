/** The client's side of the HTTPS lookups: when one may be sent, how often it is
    tried, and what its outcome does to the lookups after it. Lookups do not
    overlap: each ends before the next begins. */
module Upstream {
  import opened Types

  const SECOND: Time := 1_000_000_000
  const MAX_BACKOFF: Time := 3600 * SECOND
  const RETRY_RESERVE: Time := SECOND
  const PAUSE: Time := 200_000_000

  datatype Config = Config(timeout: Time, offlineTimeout: Time, retries: nat, answerDeadline: Time)

  const DEFAULTS := Config(5 * SECOND, 60 * SECOND, 3, 5 * SECOND / 2)

  function Min(a: Time, b: Time): Time {
    if a < b then a else b
  }

  function Max(a: Time, b: Time): Time {
    if a < b then b else a
  }

  /* Outcomes of one lookup */

  /** A server's answer: a record, or a status with its error code. */
  datatype Reply = Record | Status(code: nat, errorCode: string, retryAfter: Time)

  datatype Verdict = Answered | Missing | Refused | KeyRefused | Limited(retryAfter: Time) | Failed

  const NOT_FOUND_CODE := "nss_not_found"

  function Classify(r: Reply): Verdict {
    match r
    case Record => Answered
    case Status(code, errorCode, retryAfter) =>
      if code == 404 && errorCode == NOT_FOUND_CODE then Missing
      else if code == 400 then Refused
      else if code == 401 then KeyRefused
      else if code == 429 then Limited(retryAfter)
      else Failed
  }

  /** One attempt: no client could be built, a server answered, or nothing came
      back, after which the lookup may have run out of time or been interrupted. */
  datatype Outcome = NoClient | Replied(reply: Reply) | Silence(over: bool)

  datatype Attempt = Attempt(start: Time, outcome: Outcome)

  /** The verdict of a lookup whose attempts go as `tries` says. */
  function Conclude(tries: seq<Attempt>, i: nat): Verdict
    requires i < |tries|
    decreases |tries| - i
  {
    match tries[i].outcome
    case NoClient => Failed
    case Replied(r) => Classify(r)
    case Silence(over) => if over || i == |tries| - 1 then Failed else Conclude(tries, i + 1)
  }

  /** How many calls that lookup makes; without a client none is made. */
  function Calls(tries: seq<Attempt>, i: nat): nat
    requires i < |tries|
    decreases |tries| - i
  {
    match tries[i].outcome
    case NoClient => 0
    case Replied(_) => 1
    case Silence(over) => if over || i == |tries| - 1 then 1 else 1 + Calls(tries, i + 1)
  }

  /** Every attempt up to the one that decides is a call, and no other is made. */
  lemma {:induction false} CallsEndAtTheDecidingOne(tries: seq<Attempt>, i: nat, j: nat)
    requires i <= j < |tries| && forall k :: i <= k < j ==> tries[k].outcome == Silence(false)
    requires tries[j].outcome != Silence(false) || j == |tries| - 1
    ensures Calls(tries, i) == j - i + if tries[j].outcome.NoClient? then 0 else 1
    decreases j - i
  {
    if i < j {
      CallsEndAtTheDecidingOne(tries, i + 1, j);
    }
  }

  /** The attempts from `i` on were met with silence until the one at `j` got an answer. */
  ghost predicate FirstReply(tries: seq<Attempt>, i: nat, j: nat) {
    && i <= j < |tries| && tries[j].outcome.Replied?
    && forall k :: i <= k < j ==> tries[k].outcome == Silence(false)
  }

  /** The first answer a server gives decides a lookup, whatever would have
      followed it, and a lookup that never gets one has failed. */
  lemma {:induction false} FirstReplyDecides(tries: seq<Attempt>, i: nat)
    requires i < |tries|
    ensures forall j: nat :: FirstReply(tries, i, j) ==> Conclude(tries, i) == Classify(tries[j].outcome.reply)
    ensures (forall j: nat :: !FirstReply(tries, i, j)) ==> Conclude(tries, i) == Failed
    decreases |tries| - i
  {
    if tries[i].outcome == Silence(false) && i < |tries| - 1 {
      var next := i + 1;
      FirstReplyDecides(tries, next);
      assert forall j: nat :: FirstReply(tries, next, j) ==> FirstReply(tries, i, j);
    } else if tries[i].outcome.Replied? {
      assert FirstReply(tries, i, i);
    }
  }

  /** The first answer is a status with this code. */
  ghost predicate AnsweredWith(tries: seq<Attempt>, i: nat, code: nat) {
    exists j: nat :: FirstReply(tries, i, j) && tries[j].outcome.reply.Status? && tries[j].outcome.reply.code == code
  }

  /** A miss is only what a server answered as one: 404 with the code that says
      so. A refused name, a refused key and a limit each take their own status. */
  lemma MissIsAuthoritative(tries: seq<Attempt>, i: nat)
    requires i < |tries|
    ensures Conclude(tries, i) == Missing <==>
      exists j: nat :: FirstReply(tries, i, j) && tries[j].outcome.reply.Status? &&
        tries[j].outcome.reply.code == 404 && tries[j].outcome.reply.errorCode == NOT_FOUND_CODE
    ensures Conclude(tries, i) == Answered <==>
      exists j: nat :: FirstReply(tries, i, j) && tries[j].outcome.reply.Record?
    ensures Conclude(tries, i) == Refused <==> AnsweredWith(tries, i, 400)
    ensures Conclude(tries, i) == KeyRefused <==> AnsweredWith(tries, i, 401)
    ensures Conclude(tries, i).Limited? <==> AnsweredWith(tries, i, 429)
    ensures forall j: nat :: FirstReply(tries, i, j) && Conclude(tries, i).Limited? ==>
      Conclude(tries, i).retryAfter == tries[j].outcome.reply.retryAfter
  {
    FirstReplyDecides(tries, i);
    hide Conclude;
  }

  /* The state between lookups */

  datatype Mode = Unknown | Online | Offline | Unauthorized | RateLimited

  /** `retryAt` is None when nothing holds lookups back. */
  datatype Link = Link(mode: Mode, backoff: Time, retryAt: Option<Time>)

  const FRESH := Link(Unknown, 0, None)

  /** A key file that changed and could be read lifts the latch. */
  function Unlatched(l: Link, newKey: bool): Link {
    if newKey && l.mode.Unauthorized? then l.(mode := Unknown, retryAt := None) else l
  }

  predicate Passes(l: Link, now: Time) {
    !l.mode.Unauthorized? && (l.retryAt.None? || l.retryAt.value <= now)
  }

  function Settle(l: Link, cfg: Config, v: Verdict, gone: bool, now: Time): Link {
    match v
    case Answered | Missing | Refused => Link(Online, 0, None)
    case KeyRefused => l.(mode := Unauthorized)
    case Limited(retryAfter) =>
      l.(mode := RateLimited, retryAt := Some(now + if retryAfter <= 0 then cfg.offlineTimeout else retryAfter))
    case Failed =>
      if gone then l
      else
        var backoff := if l.mode.Offline? then Min(2 * l.backoff, MAX_BACKOFF) else cfg.offlineTimeout;
        Link(Offline, backoff, Some(now + backoff))
  }

  class Client {
    const cfg: Config
    var mode: Mode
    var backoff: Time
    var retryAt: Option<Time>

    ghost function State(): Link
      reads this
    {
      Link(mode, backoff, retryAt)
    }

    constructor (cfg: Config)
      ensures State() == FRESH && this.cfg == cfg
    {
      this.cfg, mode, backoff, retryAt := cfg, Unknown, 0, None;
    }

    method Reset()
      modifies this
      ensures State() == FRESH
    {
      mode, backoff, retryAt := Unknown, 0, None;
    }

    method Gate(newKey: bool, now: Time) returns (open: bool)
      modifies this`mode, this`retryAt
      ensures State() == Unlatched(old(State()), newKey) && open == Passes(State(), now)
    {
      if newKey && mode.Unauthorized? {
        mode, retryAt := Unknown, None;
      }
      if mode.Unauthorized? {
        return false;
      }
      return !(retryAt.Some? && now < retryAt.value);
    }

    method Fail(gone: bool, now: Time)
      modifies this
      ensures State() == Settle(old(State()), cfg, Failed, gone, now)
    {
      if gone {
        return;
      }
      backoff := if mode.Offline? then Min(2 * backoff, MAX_BACKOFF) else cfg.offlineTimeout;
      mode, retryAt := Offline, Some(now + backoff);
    }

    /** One lookup, begun at `now` and ended at `end`; None when it was not sent.
        `allotted` is the time each attempt was given. */
    method Do(newKey: bool, now: Time, tries: seq<Attempt>, gone: bool, end: Time)
      returns (v: Option<Verdict>, allotted: seq<Time>)
      requires |tries| == cfg.retries + 1
      modifies this
      ensures var l := Unlatched(old(State()), newKey);
        if !Passes(l, now) then v == None && State() == l && allotted == []
        else v == Some(Conclude(tries, 0)) && State() == Settle(l, cfg, v.value, gone, end)
      ensures |allotted| == if v.None? then 0 else Calls(tries, 0)
      ensures |allotted| <= cfg.retries + 1
      ensures forall i :: 0 <= i < |allotted| ==> allotted[i] == Allotment(cfg, now, tries, i)
    {
      allotted := [];
      var open := Gate(newKey, now);
      if !open {
        return None, [];
      }
      var i := 0;
      while true
        invariant i <= cfg.retries && Conclude(tries, 0) == Conclude(tries, i) && Calls(tries, 0) == i + Calls(tries, i)
        invariant |allotted| == i && State() == Unlatched(old(State()), newKey)
        invariant forall j :: 0 <= j < |allotted| ==> allotted[j] == Allotment(cfg, now, tries, j)
        decreases cfg.retries - i
      {
        if tries[i].outcome.NoClient? {
          Fail(gone, end);
          return Some(Failed), allotted;
        }
        allotted := allotted +
          [AttemptTimeout(now + cfg.timeout - tries[i].start, cfg.answerDeadline, i == cfg.retries)];
        if tries[i].outcome.Replied? {
          v := Some(Classify(tries[i].outcome.reply));
          match v.value {
            case Answered => mode, backoff, retryAt := Online, 0, None;
            case Missing => mode, backoff, retryAt := Online, 0, None;
            case Refused => mode, backoff, retryAt := Online, 0, None;
            case KeyRefused => mode := Unauthorized;
            case Limited(retryAfter) =>
              mode, retryAt := RateLimited, Some(end + if retryAfter <= 0 then cfg.offlineTimeout else retryAfter);
            case Failed => Fail(gone, end);
          }
          return;
        }
        if tries[i].outcome.over || i == cfg.retries {
          Fail(gone, end);
          return Some(Failed), allotted;
        }
        i := i + 1;
      }
    }
  }

  /* How long each attempt is given */

  function AttemptTimeout(left: Time, answerDeadline: Time, last: bool): Time {
    if last || left <= 0 then left
    else if answerDeadline <= 0 then left / 2
    else Min(left / 2, Max(answerDeadline - RETRY_RESERVE, answerDeadline / 2))
  }

  function Allotment(cfg: Config, began: Time, tries: seq<Attempt>, i: nat): Time
    requires i < |tries|
  {
    AttemptTimeout(began + cfg.timeout - tries[i].start, cfg.answerDeadline, i == cfg.retries)
  }

  function Sum(cfg: Config, began: Time, tries: seq<Attempt>, n: nat): Time
    requires n <= |tries|
  {
    if n == 0 then 0 else Sum(cfg, began, tries, n - 1) + Allotment(cfg, began, tries, n - 1)
  }

  /** An attempt that is not the last leaves at least as long behind as it takes,
      none outlives the lookup, and with an answer deadline of two seconds or more
      one that is not the last ends a second before the deadline. */
  lemma AttemptLeavesRoom(left: Time, answerDeadline: Time, last: bool)
    requires left >= 0
    ensures var a := AttemptTimeout(left, answerDeadline, last);
      && 0 <= a <= left
      && (!last ==> a <= left - a)
      && (!last && answerDeadline >= 2 * SECOND ==> a <= answerDeadline - RETRY_RESERVE)
      && (!last && 0 < answerDeadline < 2 * SECOND ==> a <= answerDeadline / 2)
  {
  }

  /** An attempt runs out its time before the next one starts. */
  ghost predicate RunsOut(cfg: Config, began: Time, tries: seq<Attempt>, n: nat)
    requires n <= |tries|
  {
    && (n > 0 ==> began <= tries[0].start)
    && forall i :: 0 <= i < n ==>
         tries[i].start <= began + cfg.timeout &&
         (i + 1 < n ==> tries[i].start + Allotment(cfg, began, tries, i) <= tries[i + 1].start)
  }

  /** Attempts that all run out their time are together given no more than the
      lookup's timeout. */
  lemma {:induction false} ExhaustedAttemptsFitTheTimeout(cfg: Config, began: Time, tries: seq<Attempt>, n: nat)
    requires n <= |tries| && cfg.timeout >= 0 && RunsOut(cfg, began, tries, n)
    ensures Sum(cfg, began, tries, n) <= cfg.timeout
    ensures n > 0 ==> Sum(cfg, began, tries, n) <= tries[n - 1].start + Allotment(cfg, began, tries, n - 1) - began
  {
    if n > 0 {
      AttemptLeavesRoom(began + cfg.timeout - tries[n - 1].start, cfg.answerDeadline, n - 1 == cfg.retries);
      ExhaustedAttemptsFitTheTimeout(cfg, began, tries, n - 1);
    }
  }

  /** `n` pauses, and how many attempts can start a pause apart within `t`. */
  function Pauses(n: int): Time {
    n * 200_000_000
  }

  function Starts(t: Time): nat
    requires t >= 0
  {
    t / 200_000_000 + 1
  }

  /** What `retryPause` and the lookup's own deadline leave: the first `n` attempts
      start in turn, a pause apart, before the lookup's time is over. */
  ghost predicate Spaced(cfg: Config, began: Time, tries: seq<Attempt>, n: nat)
    requires n <= |tries|
  {
    && (n > 0 ==> began <= tries[0].start)
    && (forall i :: 0 < i < n ==> tries[i - 1].start + PAUSE <= tries[i].start)
    && (forall i :: 0 <= i < n ==> tries[i].start <= began + cfg.timeout)
  }

  /** What `n` attempts that are not the last are given when each fails at once. */
  function Worst(cfg: Config, n: nat): Time {
    if n == 0 then 0
    else Worst(cfg, n - 1) + AttemptTimeout(cfg.timeout - Pauses(n - 1), cfg.answerDeadline, false)
  }

  /** Immediate failures stay within the timeout: those before the last attempt are
      together given no more than the pauses after them take, or, where the
      pauses never let the last one start, no more than the timeout. */
  predicate FailuresFit(cfg: Config)
    requires cfg.timeout >= 0
  {
    if Pauses(cfg.retries) <= cfg.timeout then Worst(cfg, cfg.retries) <= Pauses(cfg.retries)
    else Worst(cfg, Starts(cfg.timeout)) <= cfg.timeout
  }

  lemma AttemptTimeoutGrows(left: Time, more: Time, answerDeadline: Time, last: bool)
    requires left <= more
    ensures AttemptTimeout(left, answerDeadline, last) <= AttemptTimeout(more, answerDeadline, last)
  {
  }

  lemma {:induction false} SpacedIsLate(cfg: Config, began: Time, tries: seq<Attempt>, n: nat, i: nat)
    requires i < n <= |tries| && Spaced(cfg, began, tries, n)
    ensures began + Pauses(i) <= tries[i].start
  {
    if i > 0 {
      SpacedIsLate(cfg, began, tries, n, i - 1);
      assert tries[i - 1].start + PAUSE <= tries[i].start;
    }
  }

  /** No schedule gives its first `n` attempts more than immediate failures would. */
  lemma {:induction false} EarliestIsWorst(cfg: Config, began: Time, tries: seq<Attempt>, n: nat)
    requires n <= |tries| == cfg.retries + 1 && Spaced(cfg, began, tries, n)
    ensures n <= cfg.retries ==> Sum(cfg, began, tries, n) <= Worst(cfg, n)
    ensures n == cfg.retries + 1 ==> Sum(cfg, began, tries, n) <= Worst(cfg, n - 1) + cfg.timeout - Pauses(n - 1)
  {
    if n > 0 {
      EarliestIsWorst(cfg, began, tries, n - 1);
      SpacedIsLate(cfg, began, tries, n, n - 1);
      AttemptTimeoutGrows(began + cfg.timeout - tries[n - 1].start, cfg.timeout - Pauses(n - 1),
                          cfg.answerDeadline, n - 1 == cfg.retries);
    }
  }

  /** As long as attempts can start, more of them are given more. */
  lemma {:induction false} WorstGrows(cfg: Config, m: nat, n: nat)
    requires m <= n && (n > 0 ==> Pauses(n - 1) <= cfg.timeout)
    ensures Worst(cfg, m) <= Worst(cfg, n)
    decreases n
  {
    if m < n {
      AttemptLeavesRoom(cfg.timeout - Pauses(n - 1), cfg.answerDeadline, false);
      WorstGrows(cfg, m, n - 1);
    }
  }

  /** The schedule of immediate failures. */
  function Hurried(cfg: Config): (tries: seq<Attempt>)
    ensures |tries| == cfg.retries + 1
  {
    seq(cfg.retries + 1, i => Attempt(Pauses(i), Silence(false)))
  }

  lemma {:induction false} HurriedSum(cfg: Config, n: nat)
    requires n <= cfg.retries
    ensures Sum(cfg, 0, Hurried(cfg), n) == Worst(cfg, n)
  {
    if n > 0 {
      HurriedSum(cfg, n - 1);
    }
  }

  lemma HurriedIsSpaced(cfg: Config, n: nat)
    requires n <= cfg.retries + 1 && cfg.timeout >= 0 && (n > 0 ==> Pauses(n - 1) <= cfg.timeout)
    ensures Spaced(cfg, 0, Hurried(cfg), n)
  {
    var tries := Hurried(cfg);
    forall i | 0 < i < n ensures tries[i - 1].start + PAUSE <= tries[i].start {
      assert tries[i - 1].start == Pauses(i - 1) && tries[i].start == Pauses(i);
    }
    forall i | 0 <= i < n ensures tries[i].start <= cfg.timeout {
      assert tries[i].start == Pauses(i) <= Pauses(n - 1);
    }
  }

  /** However many attempts start and whenever each fails, what a lookup's attempts
      are given never sums past its timeout, exactly for the configurations in
      which immediate failures stay within it. */
  lemma AllotmentsFitExactlyWhen(cfg: Config)
    requires cfg.timeout >= 0
    ensures (forall began: Time, tries: seq<Attempt>, n: nat |
               n <= |tries| == cfg.retries + 1 && Spaced(cfg, began, tries, n) ::
               Sum(cfg, began, tries, n) <= cfg.timeout)
      <==> FailuresFit(cfg)
  {
    if FailuresFit(cfg) {
      forall began: Time, tries: seq<Attempt>, n: nat | n <= |tries| == cfg.retries + 1 && Spaced(cfg, began, tries, n)
        ensures Sum(cfg, began, tries, n) <= cfg.timeout
      {
        FittingAllotments(cfg, began, tries, n);
      }
    } else {
      var n := if Pauses(cfg.retries) <= cfg.timeout then cfg.retries + 1 else Starts(cfg.timeout);
      HurriedIsSpaced(cfg, n);
      HurriedSum(cfg, if n == cfg.retries + 1 then n - 1 else n);
      assert Sum(cfg, 0, Hurried(cfg), n) > cfg.timeout;
    }
  }

  lemma FittingAllotments(cfg: Config, began: Time, tries: seq<Attempt>, n: nat)
    requires cfg.timeout >= 0 && FailuresFit(cfg)
    requires n <= |tries| == cfg.retries + 1 && Spaced(cfg, began, tries, n)
    ensures Sum(cfg, began, tries, n) <= cfg.timeout
  {
    EarliestIsWorst(cfg, began, tries, n);
    if n > 0 {
      SpacedIsLate(cfg, began, tries, n, n - 1);
      assert n <= Starts(cfg.timeout);
      hide Spaced, Sum, Worst;
      if Pauses(cfg.retries) > cfg.timeout {
        WorstGrows(cfg, n, Starts(cfg.timeout));
      } else if n <= cfg.retries {
        WorstGrows(cfg, n, cfg.retries);
      }
    }
  }

  /** The default configuration is not one of them: with three retries, attempts that
      fail at once are given 1.5 s three times and then 4.4 s of a 5 s timeout. */
  lemma EarlyFailuresAreAllottedTwice()
    ensures var cfg := DEFAULTS;
      Spaced(cfg, 0, Hurried(cfg), 4) && Sum(cfg, 0, Hurried(cfg), 4) == 89 * SECOND / 10 > cfg.timeout &&
        !FailuresFit(cfg)
  {
    var cfg := DEFAULTS;
    HurriedIsSpaced(cfg, 4);
    HurriedSum(cfg, 3);
    assert Worst(cfg, 1) == 3 * SECOND / 2;
    assert Worst(cfg, 2) == 3 * SECOND;
    assert Worst(cfg, 3) == 9 * SECOND / 2;
  }

  lemma {:induction false} ShortAttempts(cfg: Config, n: nat)
    requires 0 < cfg.answerDeadline <= 2 * PAUSE
    ensures Worst(cfg, n) <= Pauses(n)
  {
    if n > 0 {
      ShortAttempts(cfg, n - 1);
    }
  }

  /** Without retries, or with an answer deadline of at most two pauses, they fit. */
  lemma ShortAttemptsFit(cfg: Config)
    requires cfg.timeout >= 0 && (cfg.retries == 0 || 0 < cfg.answerDeadline <= 2 * PAUSE)
    ensures FailuresFit(cfg)
  {
    if cfg.retries > 0 {
      var k := Starts(cfg.timeout) - 1;
      ShortAttempts(cfg, cfg.retries);
      ShortAttempts(cfg, k);
      AttemptLeavesRoom(cfg.timeout - Pauses(k), cfg.answerDeadline, false);
    }
  }

  /* Runs of lookups */

  datatype Event =
    | Lookup(at: Time, newKey: bool, verdict: Verdict, gone: bool, end: Time)
    | Resetting(at: Time)

  predicate Sent(l: Link, e: Event) {
    e.Lookup? && Passes(Unlatched(l, e.newKey), e.at)
  }

  function Step(l: Link, cfg: Config, e: Event): Link {
    match e
    case Resetting(_) => FRESH
    case Lookup(at, newKey, v, gone, end) =>
      if Sent(l, e) then Settle(Unlatched(l, newKey), cfg, v, gone, end) else Unlatched(l, newKey)
  }

  function Run(l: Link, cfg: Config, es: seq<Event>): Link
    decreases |es|
  {
    if es == [] then l else Run(Step(l, cfg, es[0]), cfg, es[1..])
  }

  ghost predicate Chronological(es: seq<Event>) {
    forall i, j :: 0 <= i < j < |es| ==> es[i].at <= es[j].at
  }

  ghost predicate NoReset(es: seq<Event>) {
    forall i :: 0 <= i < |es| ==> es[i].Lookup?
  }

  predicate HeldUntil(l: Link, t: Time) {
    (l.mode.Offline? || l.mode.RateLimited?) && l.retryAt == Some(t)
  }

  /** After a failure or a 429 has set the time to try again, no lookup is sent
      before it on any run, unless the state was reset in between. */
  lemma {:induction false} NothingIsSentEarly(l: Link, cfg: Config, es: seq<Event>, t: Time)
    requires HeldUntil(l, t) && es != [] && Chronological(es) && NoReset(es[..|es| - 1])
    requires Sent(Run(l, cfg, es[..|es| - 1]), es[|es| - 1])
    ensures t <= es[|es| - 1].at
    decreases |es|
  {
    var n := |es| - 1;
    if n > 0 {
      var rest := es[1..];
      assert es[..n][0] == es[0] && es[..n][1..] == rest[..n - 1];
      if es[0].at < t {
        var before, after := es[..n], rest[..n - 1];
        assert forall i :: 0 <= i < |after| ==> after[i] == before[i + 1];
        assert before[0].Lookup?;
        NothingIsSentEarly(l, cfg, rest, t);
      }
    }
  }

  /** No lookup of the run was sent, and nothing was reset. */
  ghost predicate NoneSent(l: Link, cfg: Config, es: seq<Event>)
    decreases |es|
  {
    es == [] || (es[0].Lookup? && !Sent(l, es[0]) && NoneSent(Step(l, cfg, es[0]), cfg, es[1..]))
  }

  lemma {:induction false} HeldLinkStays(l: Link, cfg: Config, es: seq<Event>)
    requires NoneSent(l, cfg, es) && (l.mode.Offline? || l.mode.RateLimited? || l.mode.Unauthorized?)
    ensures Run(l, cfg, es) == l
    decreases |es|
  {
    if es != [] {
      assert Step(l, cfg, es[0]) == l;
      HeldLinkStays(l, cfg, es[1..]);
    }
  }

  /** And every wait ends: however many lookups were held back meanwhile, the next one
      is sent if and only if the time to try again has come. */
  lemma WaitEndsOnTime(l: Link, cfg: Config, es: seq<Event>, t: Time, e: Event)
    requires HeldUntil(l, t) && NoneSent(l, cfg, es) && e.Lookup?
    ensures Sent(Run(l, cfg, es), e) <==> t <= e.at
  {
    HeldLinkStays(l, cfg, es);
  }

  /** So does the latch: the next lookup is sent if and only if it brings a new key. */
  lemma LatchLiftsWithAKey(l: Link, cfg: Config, es: seq<Event>, e: Event)
    requires l.mode.Unauthorized? && NoneSent(l, cfg, es) && e.Lookup?
    ensures Sent(Run(l, cfg, es), e) <==> e.newKey
  {
    HeldLinkStays(l, cfg, es);
  }

  /** A fresh link, and one just reset, lets every lookup through. */
  lemma ResetOpens(l: Link, cfg: Config, at: Time, e: Event)
    requires e.Lookup?
    ensures Sent(FRESH, e) && Sent(Step(l, cfg, Resetting(at)), e)
  {
  }

  /** Once the fleet key was refused no lookup is sent until a reset or a new key. */
  lemma {:induction false} NothingIsSentLatched(l: Link, cfg: Config, es: seq<Event>)
    requires l.mode.Unauthorized? && es != [] && NoReset(es)
    requires forall i :: 0 <= i < |es| ==> !es[i].newKey
    ensures !Sent(Run(l, cfg, es[..|es| - 1]), es[|es| - 1])
    decreases |es|
  {
    var n := |es| - 1;
    if n > 0 {
      assert es[..n][0] == es[0] && es[..n][1..] == es[1..][..n - 1];
      assert Step(l, cfg, es[0]) == l;
      NothingIsSentLatched(l, cfg, es[1..]);
    }
  }

  /** What a sent lookup's failure, limit or refusal sets up for those two, and
      that an answer lets the next lookup through whenever it comes. */
  lemma OutcomeHoldsLookups(l: Link, cfg: Config, e: Event)
    requires Sent(l, e)
    ensures var q := Step(l, cfg, e);
      && (e.verdict == Failed && !e.gone ==> HeldUntil(q, e.end + q.backoff))
      && (e.verdict.Limited? ==>
        HeldUntil(q, e.end + if e.verdict.retryAfter <= 0 then cfg.offlineTimeout else e.verdict.retryAfter))
      && (e.verdict == KeyRefused ==> q.mode == Unauthorized)
      && (e.verdict == Failed && e.gone ==> q == Unlatched(l, e.newKey))
      && (e.verdict in {Answered, Missing, Refused} ==>
            q.backoff == 0 && forall next: Event :: next.Lookup? ==> Sent(q, next))
  {
  }

  /* The doubling backoff */

  function Power(k: nat): nat {
    if k == 0 then 1 else 2 * Power(k - 1)
  }

  /** Only failures: each lookup is held back by the gate, cut short by its
      caller, or sent and failed. */
  ghost predicate OnlyFailures(es: seq<Event>) {
    forall i :: 0 <= i < |es| ==> es[i].Lookup? && es[i].verdict == Failed
  }

  /** How many lookups were sent and failed on their own account. */
  function Failures(l: Link, cfg: Config, es: seq<Event>): nat
    decreases |es|
  {
    if es == [] then 0
    else (if Sent(l, es[0]) && es[0].verdict == Failed && !es[0].gone then 1 else 0) +
         Failures(Step(l, cfg, es[0]), cfg, es[1..])
  }

  /** The wait after k failures in a row: the first is the configured one, as it is. */
  function BackoffAfter(cfg: Config, k: nat): Time
    requires k >= 1
  {
    if k == 1 then cfg.offlineTimeout else Min(cfg.offlineTimeout * Power(k - 1), MAX_BACKOFF)
  }

  /** The link after k failures, from one that was not backing off. */
  predicate BackedOff(l: Link, cfg: Config, k: nat) {
    if k == 0 then !l.mode.Offline? && !l.mode.Unauthorized? else l.mode.Offline? && l.backoff == BackoffAfter(cfg, k)
  }

  lemma BackoffDoubles(cfg: Config, k: nat)
    requires k >= 1 && cfg.offlineTimeout >= 0
    ensures BackoffAfter(cfg, k + 1) == Min(2 * BackoffAfter(cfg, k), MAX_BACKOFF)
  {
    assert Power(k) == 2 * Power(k - 1);
    assert cfg.offlineTimeout * Power(k) == 2 * (cfg.offlineTimeout * Power(k - 1));
  }

  /** On every run of nothing but failures, the wait after the k-th is the
      configured timeout doubled k - 1 times, at most an hour. */
  lemma {:induction false} BackoffIsDoubled(l: Link, cfg: Config, es: seq<Event>, k: nat)
    requires cfg.offlineTimeout >= 0 && BackedOff(l, cfg, k) && OnlyFailures(es)
    ensures BackedOff(Run(l, cfg, es), cfg, k + Failures(l, cfg, es))
    decreases |es|
  {
    if es != [] {
      assert es[0].Lookup? && es[0].verdict == Failed;
      var failed := Sent(l, es[0]) && !es[0].gone;
      if failed && k >= 1 {
        BackoffDoubles(cfg, k);
      }
      BackoffIsDoubled(Step(l, cfg, es[0]), cfg, es[1..], if failed then k + 1 else k);
    }
  }

  /** The wait after any run of failures, as the doubling formula has it. */
  ghost predicate Doubled(cfg: Config, es: seq<Event>) {
    var k := Failures(FRESH, cfg, es);
    k >= 1 ==> Run(FRESH, cfg, es).backoff == Min(cfg.offlineTimeout * Power(k - 1), MAX_BACKOFF)
  }

  /** On every run of failures the wait is the configured timeout doubled with each,
      at most an hour, exactly for the configurations whose timeout is itself
      within the hour. */
  lemma CapHoldsExactlyWhen(cfg: Config)
    requires cfg.offlineTimeout >= 0
    ensures (forall es :: OnlyFailures(es) ==> Doubled(cfg, es)) <==> cfg.offlineTimeout <= MAX_BACKOFF
  {
    if cfg.offlineTimeout <= MAX_BACKOFF {
      forall es | OnlyFailures(es) ensures Doubled(cfg, es) {
        BackoffIsDoubled(FRESH, cfg, es, 0);
      }
    } else {
      FirstWaitIsNotCapped(cfg);
      assert !Doubled(cfg, [ONE_FAILURE]);
    }
  }

  const ONE_FAILURE := Lookup(0, false, Failed, false, 0)

  /** The run that breaks the cap otherwise: a single failure waits the whole
      configured timeout. */
  lemma FirstWaitIsNotCapped(cfg: Config)
    ensures OnlyFailures([ONE_FAILURE]) && Failures(FRESH, cfg, [ONE_FAILURE]) == 1
    ensures Run(FRESH, cfg, [ONE_FAILURE]).backoff == cfg.offlineTimeout == cfg.offlineTimeout * Power(0)
  {
    var none: seq<Event> := [];
    assert [ONE_FAILURE][1..] == none && Power(0) == 1;
    assert Run(FRESH, cfg, [ONE_FAILURE]) == Run(Step(FRESH, cfg, ONE_FAILURE), cfg, none);
  }
}
