/**
 The process-wide clock that issues row versions: `next_projection_persist_at`, a
 compare-exchange loop on one atomic 64-bit integer, run by any number of threads.
 */
module ProjectionClock {

  const I64_MAX: int := 0x7FFF_FFFF_FFFF_FFFF
  const I64_MIN: int := -0x8000_0000_0000_0000

  type ThreadId = nat

  /**
   A thread inside the loop holds its wall-clock reading and the last value it saw.
   `began` and `seen` count the versions issued when its call began and when it last read
   the atomic; `failures` counts the exchanges this call has lost.
   */
  datatype Phase =
    | Idle
    | Trying(now: int, current: int, began: nat, seen: nat, failures: nat)

  datatype Issue = Issue(thread: ThreadId, now: int, version: int)

  datatype Clock = Clock(atomic: int, threads: map<ThreadId, Phase>, issued: seq<Issue>)

  datatype Step =
    | Begin(thread: ThreadId, now: int)
    | Exchange(thread: ThreadId)

  function SaturatingSuccessor(n: int): int {
    if n >= I64_MAX then I64_MAX else n + 1
  }

  function Candidate(now: int, current: int): int {
    var successor := SaturatingSuccessor(current);
    if now >= successor then now else successor
  }

  ghost predicate Init(c: Clock) {
    c.atomic == 0 && c.issued == [] && forall t :: t in c.threads ==> c.threads[t] == Idle
  }

  ghost predicate Next(c: Clock, step: Step, c': Clock) {
    match step
    case Begin(t, now) =>
      && t in c.threads && c.threads[t] == Idle
      && I64_MIN <= now <= I64_MAX
      && c' == c.(threads := c.threads[t := Trying(now, c.atomic, |c.issued|, |c.issued|, 0)])
    case Exchange(t) =>
      && t in c.threads && c.threads[t].Trying?
      && var p := c.threads[t];
         if c.atomic == p.current then
           var version := Candidate(p.now, p.current);
           c' == Clock(version, c.threads[t := Idle], c.issued + [Issue(t, p.now, version)])
         else
           c' == c.(threads := c.threads[t := p.(current := c.atomic, seen := |c.issued|, failures := p.failures + 1)])
  }

  /** The atomic's value when the first `n` versions had been issued. */
  ghost function ValueAt(issued: seq<Issue>, n: nat): int
    requires n <= |issued|
  {
    if n == 0 then 0 else issued[n - 1].version
  }

  /** A version follows its predecessor strictly, unless the integer range is exhausted. */
  ghost predicate Follows(previous: int, version: int) {
    previous < version || previous == version == I64_MAX
  }

  ghost predicate Inv(c: Clock) {
    && c.atomic == ValueAt(c.issued, |c.issued|)
    && (forall k :: 0 <= k < |c.issued| ==> GoodIssue(c.issued, k))
    && (forall t :: t in c.threads && c.threads[t].Trying? ==> GoodAttempt(c, t, c.threads[t]))
  }

  ghost predicate GoodIssue(issued: seq<Issue>, k: nat)
    requires k < |issued|
  {
    && Follows(ValueAt(issued, k), issued[k].version)
    && 1 <= issued[k].version <= I64_MAX
    && issued[k].now <= issued[k].version
    && (issued[k].version == issued[k].now || issued[k].version == ValueAt(issued, k) + 1 || issued[k].version == I64_MAX)
  }

  ghost predicate GoodAttempt(c: Clock, t: ThreadId, p: Phase)
    requires p.Trying?
  {
    && p.began <= p.seen <= |c.issued|
    && p.current == ValueAt(c.issued, p.seen)
    && I64_MIN <= p.now <= I64_MAX
    && p.failures <= p.seen - p.began
    && forall k :: p.began <= k < |c.issued| ==> c.issued[k].thread != t
  }

  lemma NextKeepsInv(c: Clock, step: Step, c': Clock)
    requires Inv(c) && Next(c, step, c')
    ensures Inv(c')
  {
    assert c.issued != [] ==> GoodIssue(c.issued, |c.issued| - 1);
    forall k | 0 <= k < |c'.issued|
      ensures GoodIssue(c'.issued, k)
    {
      if k < |c.issued| {
        assert GoodIssue(c.issued, k);
        assert ValueAt(c'.issued, k) == ValueAt(c.issued, k);
      }
    }
    forall t | t in c'.threads && c'.threads[t].Trying?
      ensures GoodAttempt(c', t, c'.threads[t])
    {
      assert t in c.threads;
      if c.threads[t].Trying? {
        assert GoodAttempt(c, t, c.threads[t]);
        assert ValueAt(c'.issued, c.threads[t].seen) == ValueAt(c.issued, c.threads[t].seen);
      }
    }
  }

  ghost predicate IsRun(states: seq<Clock>, steps: seq<Step>) {
    && |states| == |steps| + 1
    && Init(states[0])
    && forall i :: 0 <= i < |steps| ==> Next(states[i], steps[i], states[i + 1])
  }

  lemma {:induction false} RunKeepsInv(states: seq<Clock>, steps: seq<Step>, i: nat)
    requires IsRun(states, steps) && i < |states|
    ensures Inv(states[i])
  {
    if i > 0 {
      RunKeepsInv(states, steps, i - 1);
      NextKeepsInv(states[i - 1], steps[i - 1], states[i]);
    }
  }

  lemma {:induction false} IssuedInOrder(c: Clock, a: nat, b: nat)
    requires Inv(c) && a < b < |c.issued|
    ensures Follows(c.issued[a].version, c.issued[b].version)
    decreases b
  {
    assert GoodIssue(c.issued, b);
    if a + 1 < b {
      IssuedInOrder(c, a, b - 1);
    }
  }

  /**
   In every run the versions handed out are positive, no smaller than the caller's clock
   reading, and strictly increasing in the order of the successful exchanges. Each is the
   clock reading or the successor of the version before it, so none runs ahead for no reason.
   Two calls return the same version if and only if the earlier of them already returned
   `I64_MAX`.
   */
  lemma VersionsAreDistinctAndIncreasing(states: seq<Clock>, steps: seq<Step>, i: nat, a: nat, b: nat)
    requires IsRun(states, steps) && i < |states|
    requires a <= b < |states[i].issued|
    ensures var issued := states[i].issued;
            && 1 <= issued[a].version <= I64_MAX
            && issued[a].now <= issued[a].version
            && (|| issued[a].version == issued[a].now
                || issued[a].version == 1 + (if a == 0 then 0 else issued[a - 1].version)
                || issued[a].version == I64_MAX)
            && issued[a].version <= issued[b].version
            && (issued[a].version == issued[b].version <==> a == b || issued[a].version == I64_MAX)
  {
    RunKeepsInv(states, steps, i);
    if a < b {
      IssuedInOrder(states[i], a, b);
    }
    assert GoodIssue(states[i].issued, a) && GoodIssue(states[i].issued, b);
  }

  /**
   Lock freedom: an exchange a thread loses is paid for by another thread's success since
   that thread last read the atomic, so a call fails at most as often as other threads
   succeed while it runs.
   */
  lemma FailuresArePaidFor(states: seq<Clock>, steps: seq<Step>, i: nat, t: ThreadId)
    requires IsRun(states, steps) && i < |states|
    requires t in states[i].threads && states[i].threads[t].Trying?
    ensures var p, issued := states[i].threads[t], states[i].issued;
            && p.began <= p.seen <= |issued|
            && p.failures <= |issued| - p.began
            && (forall k :: p.began <= k < |issued| ==> issued[k].thread != t)
            && (states[i].atomic != p.current ==> p.seen < |issued|)
  {
    RunKeepsInv(states, steps, i);
    assert GoodAttempt(states[i], t, states[i].threads[t]);
  }
}
