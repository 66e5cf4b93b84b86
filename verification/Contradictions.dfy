/** Which (group, user) disagreements marked a group stale, and which of them
    the server went on to confirm. */
module Contradictions {

  datatype Pair = At(group: string, user: string)

  /** `mark` is the number of the marking that last touched the pair. */
  datatype Contradiction = Contradiction(confirmed: bool, mark: nat)

  datatype Pairs = Pairs(held: map<Pair, Contradiction>, marks: nat)

  /** `j` was not marked in the future, nor at the same time as another pair `k`. */
  ghost predicate Apart(p: Pairs, j: Pair, k: Pair) {
    j in p.held ==> p.held[j].mark <= p.marks && (k in p.held && j != k ==> p.held[j].mark != p.held[k].mark)
  }

  ghost predicate Ordered(p: Pairs) {
    forall j, k :: Apart(p, j, k)
  }

  predicate Suppressed(p: Pairs, k: Pair) {
    k in p.held && p.held[k].confirmed
  }

  predicate Awaiting(p: Pairs, k: Pair) {
    k in p.held && !p.held[k].confirmed
  }

  ghost function Oldest(held: map<Pair, Contradiction>): set<Pair> {
    set k | k in held && forall j | j in held :: held[k].mark <= held[j].mark
  }

  ghost function Mark(p: Pairs, k: Pair, max: nat): Pairs {
    var kept := if k !in p.held && |p.held| >= max then p.held - Oldest(p.held) else p.held;
    Pairs(kept[k := Contradiction(false, p.marks + 1)], p.marks + 1)
  }

  function Forget(p: Pairs, k: Pair): Pairs {
    p.(held := p.held - {k})
  }

  /** A fresh copy of the pair's group clears it. */
  predicate Clears(c: Contradiction, user: string, members: seq<string>, truncated: bool, changed: bool) {
    truncated || user in members || (c.confirmed && changed)
  }

  function Settle(p: Pairs, group: string, members: seq<string>, truncated: bool, changed: bool): Pairs {
    p.(held :=
      map k | k in p.held && !(k.group == group && Clears(p.held[k], k.user, members, truncated, changed)) ::
        if k.group == group then p.held[k].(confirmed := true) else p.held[k])
  }

  /* What every operation keeps */

  /** Pairs that only kept or lost their place are still in order. */
  lemma StaysOrdered(p: Pairs, q: Pairs)
    requires Ordered(p) && q.held.Keys <= p.held.Keys && p.marks <= q.marks
    requires forall k | k in q.held :: q.held[k].mark == p.held[k].mark
    ensures Ordered(q)
  {
    forall j, k ensures Apart(q, j, k) {
      assert Apart(p, j, k);
    }
  }

  /** The pair marked before all the others. */
  lemma {:induction false} LeastRecent(held: map<Pair, Contradiction>, among: set<Pair>) returns (oldest: Pair)
    requires {} < among <= held.Keys
    ensures oldest in among && forall j | j in among :: held[oldest].mark <= held[j].mark
    decreases among
  {
    var first :| first in among;
    var others := among - {first};
    oldest := first;
    if others != {} {
      oldest := LeastRecent(held, others);
      if held[first].mark < held[oldest].mark {
        oldest := first;
      }
    }
    assert among == others + {first};
  }

  lemma OldestIsOne(p: Pairs) returns (oldest: Pair)
    requires Ordered(p) && p.held != map[]
    ensures Oldest(p.held) == {oldest}
  {
    assert p.held.Keys != {};
    oldest := LeastRecent(p.held, p.held.Keys);
    forall k | k in Oldest(p.held) ensures k == oldest {
      assert Apart(p, k, oldest);
    }
  }

  lemma Shrinks(big: map<Pair, Contradiction>, gone: set<Pair>)
    requires gone <= big.Keys
    ensures |big - gone| == |big| - |gone|
  {
    assert (big - gone).Keys == big.Keys - gone;
  }

  lemma Grows(m: map<Pair, Contradiction>, k: Pair, c: Contradiction)
    ensures |m[k := c]| == if k in m then |m| else |m| + 1
  {
    assert m[k := c].Keys == m.Keys + {k};
  }

  lemma MarkStaysOrdered(p: Pairs, k: Pair, max: nat)
    requires Ordered(p)
    ensures Ordered(Mark(p, k, max))
  {
    var q := Mark(p, k, max);
    forall i, j ensures Apart(q, i, j) {
      assert Apart(p, i, j) && Apart(p, j, i);
    }
  }

  /** Marking keeps the cap; a full table stays full, so at most one pair went. */
  lemma MarkStaysBounded(p: Pairs, k: Pair, max: nat)
    requires Ordered(p) && 1 <= max && |p.held| <= max
    ensures |Mark(p, k, max).held| == if k in p.held || |p.held| == max then |p.held| else |p.held| + 1
  {
    var c := Contradiction(false, p.marks + 1);
    if k !in p.held && |p.held| >= max {
      var oldest := OldestIsOne(p);
      Shrinks(p.held, {oldest});
      Grows(p.held - {oldest}, k, c);
    } else {
      Grows(p.held, k, c);
    }
  }

  /** Marking drops nothing but the least recently marked pair, and that only to
      let a new pair in at the cap; every other pair is untouched. */
  lemma MarkEvictsTheOldest(p: Pairs, k: Pair, max: nat, j: Pair)
    requires Ordered(p) && j in p.held && j != k
    ensures var q := Mark(p, k, max);
      if k !in p.held && max <= |p.held| && forall i | i in p.held :: p.held[j].mark <= p.held[i].mark
      then j !in q.held
      else j in q.held && q.held[j] == p.held[j]
  {
    if k !in p.held && |p.held| >= max {
      var oldest := OldestIsOne(p);
    }
  }

  /** A pair just marked is held and awaits its group's next copy, confirmed before or not. */
  lemma MarkAwaits(p: Pairs, k: Pair, max: nat)
    ensures Awaiting(Mark(p, k, max), k)
  {
  }

  /** What a fresh copy of its group does to a pair: one the copy answers is cleared, an
      awaiting one confirmed, and a confirmed one kept just while the list stays. */
  lemma CopySettlesThreeWays(
    p: Pairs, group: string, members: seq<string>, truncated: bool, changed: bool, k: Pair)
    requires k in p.held
    ensures var q := Settle(p, group, members, truncated, changed);
      if k.group != group then k in q.held && q.held[k] == p.held[k]
      else if truncated || k.user in members then k !in q.held
      else if Awaiting(p, k) then Suppressed(q, k) && q.held[k].mark == p.held[k].mark
      else if changed then k !in q.held
      else k in q.held && q.held[k] == p.held[k]
  {
  }

  lemma SettleShrinks(p: Pairs, group: string, members: seq<string>, truncated: bool, changed: bool)
    requires Ordered(p)
    ensures Ordered(Settle(p, group, members, truncated, changed))
    ensures |Settle(p, group, members, truncated, changed).held| <= |p.held|
  {
    var q := Settle(p, group, members, truncated, changed);
    StaysOrdered(p, q);
    var gone := p.held.Keys - q.held.Keys;
    Shrinks(p.held, gone);
    assert (p.held - gone).Keys == q.held.Keys;
  }

  /* Histories */

  datatype Op =
    | MarkOp(pair: Pair)
    | ForgetOp(pair: Pair)
    | SettleOp(group: string, members: seq<string>, truncated: bool, changed: bool)

  ghost function Perform(p: Pairs, op: Op, max: nat): Pairs {
    match op
    case MarkOp(k) => Mark(p, k, max)
    case ForgetOp(k) => Forget(p, k)
    case SettleOp(group, members, truncated, changed) => Settle(p, group, members, truncated, changed)
  }

  ghost function After(ops: seq<Op>, max: nat): Pairs {
    if ops == [] then Pairs(map[], 0)
    else Perform(After(ops[..|ops| - 1], max), ops[|ops| - 1], max)
  }

  ghost function Marks(ops: seq<Op>): nat {
    if ops == [] then 0
    else Marks(ops[..|ops| - 1]) + if ops[|ops| - 1].MarkOp? then 1 else 0
  }

  /** Which of the marks in `ops` was the last one of `k`, counted from 1. */
  ghost function LastMark(ops: seq<Op>, k: Pair): nat {
    if ops == [] then 0
    else if ops[|ops| - 1] == MarkOp(k) then Marks(ops)
    else LastMark(ops[..|ops| - 1], k)
  }

  /** A copy of the pair's group came after its last marking. */
  ghost predicate CopiedSince(ops: seq<Op>, k: Pair) {
    ops != [] &&
    var last := ops[|ops| - 1];
    last != MarkOp(k) && ((last.SettleOp? && last.group == k.group) || CopiedSince(ops[..|ops| - 1], k))
  }

  /** Over every history the table stays ordered and within its cap, a held pair's
      number is that of its last marking, so the pair evicted at the cap is the
      one marked longest ago, and it is confirmed exactly when a copy of its
      group has come since. */
  lemma {:induction false} EveryHistoryIsOrdered(ops: seq<Op>, max: nat)
    requires 1 <= max
    ensures var p := After(ops, max);
      Ordered(p) && |p.held| <= max && p.marks == Marks(ops) &&
      forall k | k in p.held :: p.held[k].mark == LastMark(ops, k) && (p.held[k].confirmed <==> CopiedSince(ops, k))
  {
    if ops != [] {
      EveryHistoryIsOrdered(ops[..|ops| - 1], max);
      OpKeepsOrder(After(ops[..|ops| - 1], max), ops[|ops| - 1], max);
    }
  }

  lemma OpKeepsOrder(p: Pairs, op: Op, max: nat)
    requires 1 <= max && Ordered(p) && |p.held| <= max
    ensures Ordered(Perform(p, op, max)) && |Perform(p, op, max).held| <= max
  {
    match op {
      case MarkOp(k) =>
        MarkStaysOrdered(p, k, max);
        MarkStaysBounded(p, k, max);
      case ForgetOp(k) =>
        StaysOrdered(p, Forget(p, k));
        Shrinks(p.held, p.held.Keys * {k});
        assert p.held - {k} == p.held - p.held.Keys * {k};
      case SettleOp(group, members, truncated, changed) =>
        SettleShrinks(p, group, members, truncated, changed);
    }
  }

  /* Groups with their users, and the pairs they stand for */

  type Nested = map<string, map<string, Contradiction>>

  ghost predicate Agrees(b: Nested, held: map<Pair, Contradiction>, k: Pair) {
    && (k in held <==> k.group in b && k.user in b[k.group])
    && (k in held ==> held[k] == b[k.group][k.user])
    && (k.group in b ==> b[k.group] != map[])
  }

  /** The same pairs either way, and no group left without users. */
  ghost predicate Represents(b: Nested, held: map<Pair, Contradiction>) {
    forall k :: Agrees(b, held, k)
  }

  function Without(b: Nested, group: string, user: string): Nested
    requires group in b
  {
    var users := b[group] - {user};
    if users == map[] then b - {group} else b[group := users]
  }

  function With(b: Nested, group: string, user: string, c: Contradiction): Nested {
    b[group := (if group in b then b[group] else map[])[user := c]]
  }

  lemma RepresentsWithout(b: Nested, held: map<Pair, Contradiction>, group: string, user: string)
    requires Represents(b, held) && group in b
    ensures Represents(Without(b, group, user), held - {At(group, user)})
  {
    var b', held' := Without(b, group, user), held - {At(group, user)};
    forall k ensures Agrees(b', held', k) {
      assert Agrees(b, held, k);
      if k.group == group {
        assert k.user in b[group] && k.user != user ==> k.user in b[group] - {user};
      }
    }
  }

  lemma RepresentsWith(b: Nested, held: map<Pair, Contradiction>, group: string, user: string, c: Contradiction)
    requires Represents(b, held)
    ensures Represents(With(b, group, user, c), held[At(group, user) := c])
  {
    var b', held' := With(b, group, user, c), held[At(group, user) := c];
    forall k ensures Agrees(b', held', k) {
      assert Agrees(b, held, k);
      assert user in b'[group];
    }
  }

  /** The table as the daemon keeps it: a map of groups, each with its users. */
  class ContradictionTable {
    const max: nat
    var n: nat
    var marks: nat
    var byGroup: Nested
    ghost var pairs: Pairs

    ghost predicate Valid()
      reads this
    {
      && 1 <= max
      && marks == pairs.marks
      && n == |pairs.held| <= max
      && Ordered(pairs)
      && Represents(byGroup, pairs.held)
    }

    constructor (max: nat)
      requires 1 <= max
      ensures Valid() && pairs == Pairs(map[], 0) && this.max == max
    {
      this.max, n, marks, byGroup := max, 0, 0, map[];
      pairs := Pairs(map[], 0);
    }

    method IsSuppressed(group: string, user: string) returns (yes: bool)
      requires Valid()
      ensures yes == Suppressed(pairs, At(group, user))
    {
      assert Agrees(byGroup, pairs.held, At(group, user));
      yes := group in byGroup && user in byGroup[group] && byGroup[group][user].confirmed;
    }

    method Remove(group: string, user: string)
      requires Valid()
      modifies this`n, this`byGroup, this`pairs
      ensures Valid() && pairs == Forget(old(pairs), At(group, user))
    {
      var k := At(group, user);
      assert Agrees(byGroup, pairs.held, k);
      StaysOrdered(pairs, Forget(pairs, k));
      if group in byGroup && user in byGroup[group] {
        RepresentsWithout(byGroup, pairs.held, group, user);
        Shrinks(pairs.held, {k});
        byGroup := Without(byGroup, group, user);
        n := n - 1;
      } else {
        assert pairs.held - {k} == pairs.held;
      }
      pairs := Forget(pairs, k);
    }

    /** With the pairs of `groups`, and of `users` in group `g`, still to come,
        `oldest` is the least recently marked pair seen, if any was seen. */
    ghost predicate Scanned(groups: set<string>, g: string, users: set<string>, found: bool, oldest: Pair)
      reads this
    {
      && (found ==> oldest in pairs.held)
      && forall k | k in pairs.held && k.group !in groups && !(k.group == g && k.user in users) ::
           found && pairs.held[oldest].mark <= pairs.held[k].mark
    }

    /** Drops the pair marked longest ago, scanning every pair for it. */
    method EvictOldest()
      requires Valid()
      modifies this`n, this`byGroup, this`pairs
      ensures Valid() && pairs == old(pairs).(held := old(pairs).held - Oldest(old(pairs).held))
    {
      forall k | k in pairs.held ensures k.group in byGroup && k.user in byGroup[k.group] {
        assert Agrees(byGroup, pairs.held, k);
      }
      var found, oldest := false, At("", "");
      var groups := byGroup.Keys;
      while groups != {}
        invariant groups <= byGroup.Keys
        invariant Scanned(groups, "", {}, found, oldest)
      {
        var g :| g in groups;
        groups := groups - {g};
        var users := byGroup[g].Keys;
        while users != {}
          invariant users <= byGroup[g].Keys
          invariant Scanned(groups, g, users, found, oldest)
        {
          var u :| u in users;
          users := users - {u};
          assert Agrees(byGroup, pairs.held, At(g, u)) && Agrees(byGroup, pairs.held, oldest);
          if !found || byGroup[g][u].mark < byGroup[oldest.group][oldest.user].mark {
            found, oldest := true, At(g, u);
          }
        }
      }
      if found {
        var one := OldestIsOne(pairs);
        assert oldest in Oldest(pairs.held);
        Remove(oldest.group, oldest.user);
      }
    }

    method Hold(group: string, user: string, c: Contradiction)
      requires Represents(byGroup, pairs.held)
      modifies this`byGroup, this`pairs
      ensures Represents(byGroup, pairs.held)
      ensures pairs == old(pairs).(held := old(pairs).held[At(group, user) := c])
    {
      RepresentsWith(byGroup, pairs.held, group, user, c);
      byGroup := With(byGroup, group, user, c);
      pairs := pairs.(held := pairs.held[At(group, user) := c]);
    }

    method MarkPair(group: string, user: string)
      requires Valid()
      modifies this
      ensures Valid() && pairs == Mark(old(pairs), At(group, user), max)
    {
      var k := At(group, user);
      MarkStaysOrdered(pairs, k, max);
      MarkStaysBounded(pairs, k, max);
      assert Agrees(byGroup, pairs.held, k);
      StaysOrdered(pairs, pairs.(marks := marks + 1));
      hide Represents, Ordered, Agrees, Oldest;
      marks := marks + 1;
      pairs := pairs.(marks := marks);
      if group in byGroup && user in byGroup[group] {
        Hold(group, user, Contradiction(false, marks));
        return;
      }
      if n >= max {
        EvictOldest();
      }
      Hold(group, user, Contradiction(false, marks));
      n := n + 1;
    }

    method SettlePair(group: string, user: string, members: seq<string>, truncated: bool, changed: bool)
      requires Valid() && At(group, user) in pairs.held
      modifies this`n, this`byGroup, this`pairs
      ensures Valid() && pairs == SettledOne(old(pairs), At(group, user), members, truncated, changed)
    {
      var k := At(group, user);
      assert Agrees(byGroup, pairs.held, k);
      var c := byGroup[group][user];
      if truncated || user in members {
        Remove(group, user);
      } else if !c.confirmed {
        c := c.(confirmed := true);
        Grows(pairs.held, k, c);
        StaysOrdered(pairs, pairs.(held := pairs.held[k := c]));
        Hold(group, user, c);
      } else if changed {
        Remove(group, user);
      } else {
        assert pairs.held[k := c] == pairs.held;
      }
    }

    /** Settles the group's pairs against a fresh copy of it, dropping pairs
        while going through them. */
    method GroupStored(group: string, members: seq<string>, truncated: bool, changed: bool)
      requires Valid()
      modifies this`n, this`byGroup, this`pairs
      ensures Valid() && pairs == Settle(old(pairs), group, members, truncated, changed)
    {
      var users := if group in byGroup then byGroup[group].Keys else {};
      forall k: Pair | k.group == group ensures k.user in users <==> k in pairs.held {
        assert Agrees(byGroup, pairs.held, k);
      }
      ghost var before := pairs;
      SettledEnds(pairs, group, users, members, truncated, changed);
      hide *;
      var todo := users;
      while todo != {}
        invariant Valid() && todo <= users
        invariant pairs == SettledSome(before, group, users - todo, members, truncated, changed)
        decreases |todo|
      {
        var user :| user in todo;
        assert At(group, user) in before.held;
        SettledNext(before, group, users - todo, user, members, truncated, changed);
        SettlePair(group, user, members, truncated, changed);
        StillToSettle(users, todo, user);
        todo := todo - {user};
      }
    }
  }

  lemma StillToSettle(users: set<string>, todo: set<string>, user: string)
    requires user in todo && todo <= users
    ensures users - (todo - {user}) == users - todo + {user}
  {
  }

  /** One pair settled. */
  function SettledOne(p: Pairs, k: Pair, members: seq<string>, truncated: bool, changed: bool): Pairs
    requires k in p.held
  {
    if Clears(p.held[k], k.user, members, truncated, changed) then p.(held := p.held - {k})
    else p.(held := p.held[k := p.held[k].(confirmed := true)])
  }

  /** The group's pairs settled for the users in `done` only. */
  function SettledSome(
    p: Pairs, group: string, done: set<string>, members: seq<string>, truncated: bool, changed: bool): Pairs {
    p.(held :=
      map k | k in p.held &&
        !(k.group == group && k.user in done && Clears(p.held[k], k.user, members, truncated, changed)) ::
        if k.group == group && k.user in done then p.held[k].(confirmed := true) else p.held[k])
  }

  lemma SettledNext(
    p: Pairs, group: string, done: set<string>, user: string, members: seq<string>, truncated: bool,
    changed: bool)
    requires At(group, user) in p.held && user !in done
    ensures At(group, user) in SettledSome(p, group, done, members, truncated, changed).held
    ensures var before := SettledSome(p, group, done, members, truncated, changed);
      SettledOne(before, At(group, user), members, truncated, changed)
         == SettledSome(p, group, done + {user}, members, truncated, changed)
  {
    var k := At(group, user);
    var q, r := SettledSome(p, group, done, members, truncated, changed),
      SettledSome(p, group, done + {user}, members, truncated, changed);
    assert SettledOne(q, k, members, truncated, changed).held == r.held;
  }

  lemma SettledEnds(p: Pairs, group: string, users: set<string>, members: seq<string>, truncated: bool, changed: bool)
    requires forall k | k in p.held && k.group == group :: k.user in users
    ensures SettledSome(p, group, {}, members, truncated, changed) == p
    ensures SettledSome(p, group, users, members, truncated, changed) == Settle(p, group, members, truncated, changed)
  {
    assert SettledSome(p, group, {}, members, truncated, changed).held == p.held;
    assert SettledSome(p, group, users, members, truncated, changed).held ==
      Settle(p, group, members, truncated, changed).held;
  }
}
