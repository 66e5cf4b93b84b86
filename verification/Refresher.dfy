/** The background refresh queue: requests from anywhere, worked through one at a
    time by a single loop, in every interleaving of the two. */
module Refresher {
  import opened Types

  /** Where the working loop is. It takes a key, waits for the rate limit, and
      only then runs it; a wait that fails stops it with the key in hand. */
  datatype Worker = Idle | Waiting(key: Key) | Running(key: Key) | Stopped(inHand: seq<Key>)

  datatype State = State(queue: seq<Key>, pending: set<Key>, worker: Worker)

  datatype Step = Request(key: Key) | Take | Begin | Finish | Stop

  const EMPTY := State([], {}, Idle)

  /** The key taken but not yet run, if any. */
  function InHand(w: Worker): seq<Key> {
    match w
    case Waiting(k) => [k]
    case Stopped(ks) => ks
    case _ => []
  }

  predicate Accepts(s: State, key: Key, size: nat) {
    key !in s.pending && |s.queue| < size
  }

  /** A step that is not possible changes nothing. */
  function Apply(s: State, step: Step, size: nat): State {
    match step
    case Request(k) => if Accepts(s, k, size) then s.(queue := s.queue + [k], pending := s.pending + {k}) else s
    case Take => if s.worker.Idle? && s.queue != [] then s.(queue := s.queue[1..], worker := Waiting(s.queue[0])) else s
    case Begin =>
      if s.worker.Waiting? then s.(pending := s.pending - {s.worker.key}, worker := Running(s.worker.key)) else s
    case Finish => if s.worker.Running? then s.(worker := Idle) else s
    case Stop => if s.worker.Running? then s else s.(worker := Stopped(InHand(s.worker)))
  }

  /** Keys asked for and not yet run, oldest first. */
  function Waitlist(s: State): seq<Key> {
    InHand(s.worker) + s.queue
  }

  ghost predicate NoRepeat(ks: seq<Key>) {
    forall i, j :: 0 <= i < j < |ks| ==> ks[i] != ks[j]
  }

  lemma NoRepeatTail(ks: seq<Key>, k: Key)
    requires NoRepeat([k] + ks)
    ensures NoRepeat(ks) && k !in ks
  {
    var all := [k] + ks;
    assert forall i :: 0 <= i < |ks| ==> all[i + 1] == ks[i] && all[0] == k;
  }

  /** The pending set is the waiting list, which names no key twice. */
  ghost predicate Valid(s: State, size: nat) {
    && (forall k :: k in s.pending <==> k in Waitlist(s))
    && NoRepeat(Waitlist(s))
    && |s.queue| <= size && |InHand(s.worker)| <= 1
  }

  lemma StepKeepsValid(s: State, step: Step, size: nat)
    requires Valid(s, size)
    ensures Valid(Apply(s, step, size), size)
  {
    var q := Apply(s, step, size);
    if step.Request? && Accepts(s, step.key, size) {
      assert Waitlist(q) == Waitlist(s) + [step.key];
    } else if step.Begin? && s.worker.Waiting? {
      assert Waitlist(s) == [s.worker.key] + Waitlist(q);
      NoRepeatTail(Waitlist(q), s.worker.key);
    } else {
      assert Waitlist(q) == Waitlist(s);
    }
  }

  /* Histories */

  function Run(s: State, steps: seq<Step>, size: nat): State
    decreases |steps|
  {
    if steps == [] then s else Run(Apply(s, steps[0], size), steps[1..], size)
  }

  /** The keys accepted, in order. */
  function Accepted(s: State, steps: seq<Step>, size: nat): seq<Key>
    decreases |steps|
  {
    if steps == [] then []
    else (if steps[0].Request? && Accepts(s, steps[0].key, size) then [steps[0].key] else []) +
         Accepted(Apply(s, steps[0], size), steps[1..], size)
  }

  /** The keys whose run began, in order. */
  function Begun(s: State, steps: seq<Step>, size: nat): seq<Key>
    decreases |steps|
  {
    if steps == [] then []
    else (if steps[0].Begin? && s.worker.Waiting? then [s.worker.key] else []) +
         Begun(Apply(s, steps[0], size), steps[1..], size)
  }

  /** In every interleaving the waiting list and what was accepted since are
      exactly what began plus what still waits, in the same order: nothing is
      lost, run twice or overtaken. */
  lemma {:induction false} NothingIsLost(s: State, steps: seq<Step>, size: nat)
    requires Valid(s, size)
    ensures Valid(Run(s, steps, size), size)
    ensures Waitlist(s) + Accepted(s, steps, size) == Begun(s, steps, size) + Waitlist(Run(s, steps, size))
    decreases |steps|
  {
    if steps == [] {
      assert Waitlist(s) + [] == [] + Waitlist(s);
    } else {
      var next := Apply(s, steps[0], size);
      StepKeepsValid(s, steps[0], size);
      NothingIsLost(next, steps[1..], size);
      StepConserves(s, steps[0], size, Accepted(next, steps[1..], size), Begun(next, steps[1..], size),
        Waitlist(Run(next, steps[1..], size)));
    }
  }

  lemma StepConserves(s: State, step: Step, size: nat, accepted: seq<Key>, begun: seq<Key>, left: seq<Key>)
    requires Waitlist(Apply(s, step, size)) + accepted == begun + left
    ensures Waitlist(s) + ((if step.Request? && Accepts(s, step.key, size) then [step.key] else []) + accepted)
         == ((if step.Begin? && s.worker.Waiting? then [s.worker.key] else []) + begun) + left
  {
    var q := Apply(s, step, size);
    if step.Request? && Accepts(s, step.key, size) {
      assert Waitlist(q) + accepted == Waitlist(s) + ([step.key] + accepted);
    } else if step.Begin? && s.worker.Waiting? {
      assert Waitlist(s) == [s.worker.key] + Waitlist(q);
      assert Waitlist(s) + accepted == [s.worker.key] + (Waitlist(q) + accepted) == ([s.worker.key] + begun) + left;
      assert [] + accepted == accepted;
    } else {
      assert Waitlist(s) == Waitlist(q) && [] + accepted == accepted && [] + begun == begun;
    }
  }

  /** One round of the loop. */
  const ROUND := [Take, Begin, Finish]

  function Rounds(n: nat): seq<Step> {
    if n == 0 then [] else ROUND + Rounds(n - 1)
  }

  lemma RoundRunsTheFirst(s: State, rest: seq<Step>, size: nat)
    requires s.worker.Idle? && s.queue != []
    ensures var q := State(s.queue[1..], s.pending - {s.queue[0]}, Idle);
      && Run(s, ROUND + rest, size) == Run(q, rest, size)
      && Begun(s, ROUND + rest, size) == [s.queue[0]] + Begun(q, rest, size)
  {
    var all := ROUND + rest;
    var taken, begun := Apply(s, Take, size), Apply(Apply(s, Take, size), Begin, size);
    assert all[0] == Take && all[1..][0] == Begin && all[1..][1..][0] == Finish && all[1..][1..][1..] == rest;
    assert Run(s, all, size) == Run(taken, all[1..], size) == Run(begun, all[1..][1..], size);
    assert Begun(s, all, size) == Begun(taken, all[1..], size);
    assert Begun(taken, all[1..], size) == [s.queue[0]] + Begun(begun, all[1..][1..], size);
  }

  /** Left to itself the loop runs every queued key, in order, and is idle again with
      nothing pending. */
  lemma {:induction false} QueueDrains(s: State, size: nat)
    requires Valid(s, size) && s.worker.Idle?
    ensures Begun(s, Rounds(|s.queue|), size) == s.queue
    ensures Run(s, Rounds(|s.queue|), size) == EMPTY
    decreases |s.queue|
  {
    if s.queue == [] {
      assert s.pending == {};
    } else {
      RoundRunsTheFirst(s, Rounds(|s.queue| - 1), size);
      assert Waitlist(s) == [s.queue[0]] + s.queue[1..];
      NoRepeatTail(s.queue[1..], s.queue[0]);
      QueueDrains(State(s.queue[1..], s.pending - {s.queue[0]}, Idle), size);
      assert s.queue == [s.queue[0]] + s.queue[1..];
    }
  }

  /** A loop that stopped waiting runs nothing more, whatever is asked of it, and keeps the
      key it had taken. */
  lemma {:induction false} StoppedLoopRunsNothing(s: State, steps: seq<Step>, size: nat)
    requires s.worker.Stopped?
    ensures Begun(s, steps, size) == [] && Run(s, steps, size).worker == s.worker
    decreases |steps|
  {
    if steps != [] {
      StoppedLoopRunsNothing(Apply(s, steps[0], size), steps[1..], size);
    }
  }

  lemma StopKeepsTheKey(s: State, size: nat)
    requires !s.worker.Running?
    ensures var q := Apply(s, Stop, size);
      q.worker.Stopped? && Waitlist(q) == Waitlist(s) && q.pending == s.pending
  {
  }

  /** A key asked for, whether the request queued it or found it pending already,
      stays waiting until a run for it begins. */
  lemma RequestIsHonoured(s: State, key: Key, steps: seq<Step>, size: nat)
    requires Valid(s, size) && (key in s.pending || |s.queue| < size)
    ensures var asked := Apply(s, Request(key), size);
      key in Begun(asked, steps, size) || key in Waitlist(Run(asked, steps, size))
  {
    var asked := Apply(s, Request(key), size);
    StepKeepsValid(s, Request(key), size);
    NothingIsLost(asked, steps, size);
    assert key in asked.pending && key in Waitlist(asked);
    assert key in Waitlist(asked) + Accepted(asked, steps, size);
  }

  /** The queue as the daemon shares it between callers and the loop. */
  class Queue {
    const size: nat
    var queue: seq<Key>
    var pending: set<Key>
    var worker: Worker

    ghost function Contents(): State
      reads this
    {
      State(queue, pending, worker)
    }

    constructor (size: nat)
      ensures Contents() == EMPTY && this.size == size && Valid(Contents(), size)
    {
      this.size, queue, pending, worker := size, [], {}, Idle;
    }

    /** True when the key was queued; false when it already is or there is no room. */
    method Enqueue(key: Key) returns (queued: bool)
      requires Valid(Contents(), size)
      modifies this`queue, this`pending
      ensures Contents() == Apply(old(Contents()), Request(key), size) && Valid(Contents(), size)
      ensures queued == Accepts(old(Contents()), key, size)
    {
      StepKeepsValid(Contents(), Request(key), size);
      if key in pending {
        return false;
      }
      if |queue| >= size {
        return false;
      }
      queue := queue + [key];
      pending := pending + {key};
      return true;
    }

    method TakeNext()
      requires Valid(Contents(), size) && worker.Idle? && queue != []
      modifies this`queue, this`worker
      ensures Contents() == Apply(old(Contents()), Take, size) && Valid(Contents(), size)
    {
      StepKeepsValid(Contents(), Take, size);
      worker := Waiting(queue[0]);
      queue := queue[1..];
    }

    /** The rate limit's wait is over: out of pending, then run. */
    method BeginRun(waited: bool)
      requires Valid(Contents(), size) && worker.Waiting?
      modifies this`pending, this`worker
      ensures Contents() == Apply(old(Contents()), if waited then Begin else Stop, size) && Valid(Contents(), size)
    {
      StepKeepsValid(Contents(), if waited then Begin else Stop, size);
      if !waited {
        worker := Stopped([worker.key]);
        return;
      }
      pending := pending - {worker.key};
      worker := Running(worker.key);
    }
  }
}
