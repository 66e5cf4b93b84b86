/** The "did you mean" hint for an unknown setting: the nearest known one by edit
    distance, within two edits. */
module EditDistance {
  import opened Types
  import opened Text

  function Min(a: int, b: int): int {
    if a < b then a else b
  }

  function Init(s: string): string
    requires s != ""
  {
    s[..|s| - 1]
  }

  function Last(s: string): char
    requires s != ""
  {
    s[|s| - 1]
  }

  /** The Levenshtein recurrence. */
  function Distance(a: string, b: string): nat
    decreases |a| + |b|
  {
    if a == "" then |b|
    else if b == "" then |a|
    else Min(Min(Distance(Init(a), b), Distance(a, Init(b))) + 1,
             Distance(Init(a), Init(b)) + if Last(a) == Last(b) then 0 else 1)
  }

  /** The recurrence on prefixes. */
  lemma Cell(a: string, b: string, i: nat, j: nat)
    requires i <= |a| && j <= |b|
    ensures Distance(a[..i], b[..j]) ==
      if i == 0 then j else if j == 0 then i
      else Min(Min(Distance(a[..i - 1], b[..j]) + 1, Distance(a[..i], b[..j - 1]) + 1),
               Distance(a[..i - 1], b[..j - 1]) + if a[i - 1] == b[j - 1] then 0 else 1)
  {
    if i > 0 && j > 0 {
      assert Init(a[..i]) == a[..i - 1] && Init(b[..j]) == b[..j - 1];
    }
  }

  /** Keeps one row of the table at a time. */
  method Compute(a: string, b: string) returns (d: nat)
    ensures d == Distance(a, b)
  {
    hide Distance;
    var previous := new nat[|b| + 1](j => j);
    forall j | 0 <= j <= |b| ensures Distance(a[..0], b[..j]) == j {
      Cell(a, b, 0, j);
    }
    for i := 1 to |a| + 1
      invariant previous.Length == |b| + 1
      invariant forall j :: 0 <= j <= |b| ==> previous[j] == Distance(a[..i - 1], b[..j])
    {
      var current := new nat[|b| + 1];
      current[0] := i;
      Cell(a, b, i, 0);
      for j := 1 to |b| + 1
        invariant previous.Length == current.Length == |b| + 1 && previous != current
        invariant forall k :: 0 <= k <= |b| ==> previous[k] == Distance(a[..i - 1], b[..k])
        invariant forall k :: 0 <= k < j ==> current[k] == Distance(a[..i], b[..k])
      {
        var cost := if a[i - 1] == b[j - 1] then 0 else 1;
        Cell(a, b, i, j);
        current[j] := Min(Min(previous[j] + 1, current[j - 1] + 1), previous[j - 1] + cost);
      }
      previous := current;
    }
    assert a[..|a|] == a && b[..|b|] == b;
    return previous[|b|];
  }

  /* What the number means: the fewest single-character edits from a to b */

  datatype Edit = Insert(at: nat, c: char) | Delete(at: nat) | Substitute(at: nat, c: char)

  /** None when there is no such position. */
  function Edited(s: string, e: Edit): Option<string> {
    match e
    case Insert(i, c) => if i <= |s| then Some(s[..i] + [c] + s[i..]) else None
    case Delete(i) => if i < |s| then Some(s[..i] + s[i + 1..]) else None
    case Substitute(i, c) => if i < |s| then Some(s[i := c]) else None
  }

  function Applied(s: string, edits: seq<Edit>): Option<string>
    decreases |edits|
  {
    if edits == [] then Some(s)
    else
      var t := Edited(s, edits[0]);
      if t.None? then None else Applied(t.value, edits[1..])
  }

  lemma DistanceSteps(a: string, t: string)
    ensures a != "" ==> Distance(a, t) <= Distance(Init(a), t) + 1
    ensures t != "" ==> Distance(a, t) <= Distance(a, Init(t)) + 1
    ensures a != "" && t != "" ==> Distance(a, t) <= Distance(Init(a), Init(t)) + if Last(a) == Last(t) then 0 else 1
  {
  }

  /** An edit before the last character leaves that character in place. */
  lemma EditInside(r: string, e: Edit, z: char)
    requires Edited(r, e).Some?
    ensures Edited(r + [z], e) == Some(Edited(r, e).value + [z])
  {
    var s, i := r + [z], e.at;
    match e {
      case Insert(_, c) => assert s[..i] + [c] + s[i..] == r[..i] + [c] + r[i..] + [z];
      case Delete(_) => assert s[..i] + s[i + 1..] == r[..i] + r[i + 1..] + [z];
      case Substitute(_, c) => assert s[i := c] == r[i := c] + [z];
    }
  }

  /** An edit is made at the end of the string or inside what comes before. */
  lemma EditAtEnd(s: string, e: Edit)
    requires Edited(s, e).Some? && (s == "" || Edited(Init(s), e).None? || e == Insert(|s|, Last(s)))
    ensures var t := Edited(s, e).value;
      || (e.Insert? && t == s + [e.c])
      || (e.Delete? && s != "" && t == Init(s))
      || (e.Substitute? && s != "" && t == Init(s) + [e.c])
  {
  }

  /** One edit moves a string at most one step away. */
  lemma {:induction false} EditMovesByOne(a: string, s: string, e: Edit)
    requires Edited(s, e).Some?
    ensures Distance(a, Edited(s, e).value) <= Distance(a, s) + 1
    decreases |a| + |s|
  {
    var t := Edited(s, e).value;
    DistanceSteps(a, t);
    if a != "" {
      EditMovesByOne(Init(a), s, e);
    }
    if s != "" && Edited(Init(s), e).Some? {
      EditInside(Init(s), e, Last(s));
      assert Init(s) + [Last(s)] == s;
      assert Init(t) == Edited(Init(s), e).value && Last(t) == Last(s);
      EditMovesByOne(a, Init(s), e);
      if a != "" {
        EditMovesByOne(Init(a), Init(s), e);
      }
    } else {
      EditAtEnd(s, e);
      if e.Insert? || e.Substitute? {
        assert Init(t) == if e.Insert? then s else Init(s);
      }
    }
  }

  lemma {:induction false} DistanceToSelf(a: string)
    ensures Distance(a, a) == 0
  {
    if a != "" {
      DistanceToSelf(Init(a));
    }
  }

  lemma {:induction false} ScriptMovesByLength(a: string, s: string, edits: seq<Edit>)
    requires Applied(s, edits).Some?
    ensures Distance(a, Applied(s, edits).value) <= Distance(a, s) + |edits|
    decreases |edits|
  {
    if edits != [] {
      EditMovesByOne(a, s, edits[0]);
      ScriptMovesByLength(a, Edited(s, edits[0]).value, edits[1..]);
    }
  }

  lemma {:induction false} AppliedAppend(s: string, x: seq<Edit>, y: seq<Edit>)
    requires Applied(s, x).Some?
    ensures Applied(s, x + y) == Applied(Applied(s, x).value, y)
    decreases |x|
  {
    if x == [] {
      assert x + y == y;
    } else {
      assert (x + y)[1..] == x[1..] + y;
      AppliedAppend(Edited(s, x[0]).value, x[1..], y);
    }
  }

  lemma {:induction false} AppliedInside(s: string, edits: seq<Edit>, z: char)
    requires Applied(s, edits).Some?
    ensures Applied(s + [z], edits) == Some(Applied(s, edits).value + [z])
    decreases |edits|
  {
    if edits != [] {
      EditInside(s, edits[0], z);
      AppliedInside(Edited(s, edits[0]).value, edits[1..], z);
    }
  }

  /** A script of exactly the distance's length. */
  lemma {:induction false} ShortestScript(a: string, b: string) returns (edits: seq<Edit>)
    ensures Applied(a, edits) == Some(b) && |edits| == Distance(a, b)
    decreases |a| + |b|
  {
    if a == b == "" {
      edits := [];
    } else if b == "" || (a != "" && Distance(a, b) == Distance(Init(a), b) + 1) {
      var rest := ShortestScript(Init(a), b);
      edits := [Delete(|a| - 1)] + rest;
      assert a[..|a| - 1] + a[|a|..] == Init(a);
      assert edits[1..] == rest;
    } else if a == "" || Distance(a, b) == Distance(a, Init(b)) + 1 {
      var rest := ShortestScript(a, Init(b));
      edits := rest + [Insert(|b| - 1, Last(b))];
      AppliedAppend(a, rest, [Insert(|b| - 1, Last(b))]);
      OneStep(Init(b), Insert(|b| - 1, Last(b)), b);
    } else {
      var rest := ShortestScript(Init(a), Init(b));
      AppliedInside(Init(a), rest, Last(a));
      assert Init(a) + [Last(a)] == a && Init(b) + [Last(b)] == b;
      if Last(a) == Last(b) {
        edits := rest;
      } else {
        edits := rest + [Substitute(|b| - 1, Last(b))];
        AppliedAppend(a, rest, [Substitute(|b| - 1, Last(b))]);
        OneStep(Init(b) + [Last(a)], Substitute(|b| - 1, Last(b)), b);
      }
    }
  }

  lemma OneStep(s: string, e: Edit, t: string)
    requires e.Insert? || e.Substitute?
    requires t != "" && e.at == |t| - 1 && e.c == Last(t)
    requires if e.Insert? then s == Init(t) else |s| == |t| && Init(s) == Init(t)
    ensures Applied(s, [e]) == Some(t)
  {
    assert Edited(s, e).value == t;
  }

  /** The distance is the least length of any script of insertions, deletions and
      substitutions that turns one string into the other. */
  lemma DistanceIsTheShortestScript(a: string, b: string)
    ensures exists edits :: Applied(a, edits) == Some(b) && |edits| == Distance(a, b)
    ensures forall edits :: Applied(a, edits) == Some(b) ==> Distance(a, b) <= |edits|
  {
    var best := ShortestScript(a, b);
    forall edits | Applied(a, edits) == Some(b) ensures Distance(a, b) <= |edits| {
      ScriptMovesByLength(a, a, edits);
      DistanceToSelf(a);
    }
  }

  /* The hint */

  const WITHIN := 2

  /** No known setting is nearer, and none as near sorts before it. */
  ghost predicate Nearest(key: string, known: set<string>, best: string) {
    && best in known && Distance(key, best) <= WITHIN
    && forall k | k in known ::
         Distance(key, best) < Distance(key, k) ||
           (Distance(key, best) == Distance(key, k) && (k == best || Below(best, k)))
  }

  method Closest(key: string, known: set<string>) returns (best: string)
    ensures if exists k :: k in known && Distance(key, k) <= WITHIN then Nearest(key, known, best) else best == ""
  {
    var candidates := SortedNames(known);
    best := "";
    var bestDistance := WITHIN + 1;
    ghost var at := 0;
    for i := 0 to |candidates|
      invariant bestDistance <= WITHIN + 1
      invariant forall j :: 0 <= j < i ==> bestDistance <= Distance(key, candidates[j])
      invariant if bestDistance == WITHIN + 1 then best == ""
                else 0 <= at < i && best == candidates[at] && bestDistance == Distance(key, best) &&
                     forall j :: 0 <= j < at ==> bestDistance < Distance(key, candidates[j])
    {
      var d := Compute(key, candidates[i]);
      if d < bestDistance {
        best, bestDistance, at := candidates[i], d, i;
      }
    }
    if bestDistance <= WITHIN {
      forall k | k in known
        ensures Distance(key, best) < Distance(key, k) ||
          (Distance(key, best) == Distance(key, k) && (k == best || Below(best, k)))
      {
        assert k in candidates;
        var j :| 0 <= j < |candidates| && candidates[j] == k;
      }
      assert best in candidates;
    } else {
      forall k | k in known ensures Distance(key, k) > WITHIN {
        assert k in candidates;
      }
    }
  }
}
