/**
 Bounded retry in the work loops of the base controller (pkg/controller/base) and of the
 wormhole controller: the rate limiter counts a key's failures until the key is forgotten.
 */
module WorkQueue {
  /** How reconciling a key ended; a key whose kluster is not in the cache counts as an error. */
  datatype Outcome = Succeeded | ComeBack | Errored

  datatype Item = Item(key: string, outcome: Outcome)

  /** What the work loop does with the key. */
  datatype Action = Forgotten | Delayed | RateLimited | Dropped

  type Failures = map<string, nat>

  const RETRIES := 5

  function NumRequeues(f: Failures, key: string): nat {
    if key in f then f[key] else 0
  }

  function ActionOn(f: Failures, item: Item): Action {
    match item.outcome
    case Succeeded => Forgotten
    case ComeBack => Delayed
    case Errored => if NumRequeues(f, item.key) < RETRIES then RateLimited else Dropped
  }

  function Processed(f: Failures, item: Item): Failures {
    match ActionOn(f, item)
    case Forgotten | Dropped => f - {item.key}
    case Delayed => f
    case RateLimited => f[item.key := NumRequeues(f, item.key) + 1]
  }

  /** The failure counts after a run of the work loop. */
  function After(run: seq<Item>): Failures {
    if run == [] then map[] else Processed(After(run[..|run| - 1]), run[|run| - 1])
  }

  /** What the loop did with the n-th item. */
  function ActionAt(run: seq<Item>, n: nat): Action
    requires n < |run|
  {
    ActionOn(After(run[..n]), run[n])
  }

  /** The key's errors since its last successful reconciliation; rounds that ask to come back do not count. */
  function ErrorsSinceSuccess(run: seq<Item>, key: string): nat {
    if run == [] then 0
    else
      var before, last := run[..|run| - 1], run[|run| - 1];
      if last.key != key || last.outcome == ComeBack then ErrorsSinceSuccess(before, key)
      else if last.outcome == Succeeded then 0
      else ErrorsSinceSuccess(before, key) + 1
  }

  /** The failure count is the number of errors since the last success, modulo six. */
  lemma {:induction false} CountIsErrorsModuloSix(run: seq<Item>, key: string)
    ensures NumRequeues(After(run), key) == ErrorsSinceSuccess(run, key) % 6
    ensures NumRequeues(After(run), key) <= 5
    decreases |run|
  {
    if run != [] {
      CountIsErrorsModuloSix(run[..|run| - 1], key);
    }
  }

  /** A key is dropped on every sixth error since its last success, and on no other item. */
  lemma DroppedOnEverySixth(run: seq<Item>, n: nat)
    requires n < |run|
    ensures ActionAt(run, n) == Dropped <==>
            run[n].outcome == Errored && ErrorsSinceSuccess(run[..n + 1], run[n].key) % 6 == 0
  {
    CountIsErrorsModuloSix(run[..n], run[n].key);
    assert run[..n + 1][..n] == run[..n];
  }

  predicate Forgets(run: seq<Item>, n: nat, key: string)
    requires n < |run|
  {
    run[n].key == key && (ActionAt(run, n) == Forgotten || ActionAt(run, n) == Dropped)
  }

  /** How many of items from..end put the key back rate-limited. */
  function RateLimitedBetween(run: seq<Item>, from: nat, end: nat, key: string): nat
    requires from <= end <= |run|
    decreases end
  {
    if from == end then 0
    else
      RateLimitedBetween(run, from, end - 1, key) +
      if run[end - 1].key == key && ActionAt(run, end - 1) == RateLimited then 1 else 0
  }

  lemma {:induction false} RateLimitedCounts(run: seq<Item>, from: nat, end: nat, key: string)
    requires from <= end <= |run|
    requires forall n: nat :: from <= n < end ==> !Forgets(run, n, key)
    ensures NumRequeues(After(run[..end]), key) ==
      NumRequeues(After(run[..from]), key) + RateLimitedBetween(run, from, end, key)
    decreases end
  {
    if from < end {
      RateLimitedCounts(run, from, end - 1, key);
      assert run[..end][..end - 1] == run[..end - 1];
      assert !Forgets(run, end - 1, key);
    }
  }

  /** Between two Forgets a key is put back rate-limited at most five times. */
  lemma AtMostFiveRetries(run: seq<Item>, from: nat, end: nat, key: string)
    requires from <= end <= |run|
    requires forall n: nat :: from <= n < end ==> !Forgets(run, n, key)
    ensures RateLimitedBetween(run, from, end, key) <= 5
  {
    RateLimitedCounts(run, from, end, key);
    CountIsErrorsModuloSix(run[..end], key);
  }

  /** The rate-limiting queue, as far as its failure counts go. */
  class Queue {
    var failures: Failures
    ghost var done: seq<Item>

    constructor ()
      ensures Valid() && done == []
    {
      failures, done := map[], [];
    }

    /** The counts are those of the run so far. */
    ghost predicate Valid()
      reads this
    {
      failures == After(done)
    }

    method Forget(key: string)
      modifies `failures
      ensures failures == old(failures) - {key}
    {
      failures := failures - {key};
    }

    method AddRateLimited(key: string)
      modifies `failures
      ensures failures == old(failures)[key := NumRequeues(old(failures), key) + 1]
    {
      failures := failures[key := NumRequeues(failures, key) + 1];
    }

    /** processNextWorkItem of the base controller. */
    method ProcessNextWorkItem(key: string, cached: bool, requeue: bool, failed: bool) returns (action: Action)
      requires Valid()
      modifies this
      ensures Valid()
      ensures var item := Item(key, if !cached || failed then Errored else if requeue then ComeBack else Succeeded);
              done == old(done) + [item] && action == ActionAt(done, |done| - 1)
    {
      ghost var item := Item(key, if !cached || failed then Errored else if requeue then ComeBack else Succeeded);
      ghost var f := failures;
      var err := !cached;
      if !err {
        err := failed;
      }
      if !err {
        if !requeue {
          Forget(key);
          action := Forgotten;
        } else {
          action := Delayed;
        }
      } else if NumRequeues(failures, key) < 5 {
        AddRateLimited(key);
        action := RateLimited;
      } else {
        Forget(key);
        action := Dropped;
      }
      assert (done + [item])[..|done|] == done;
      done := done + [item];
    }

    /** handleErr of the wormhole controller. */
    method HandleErr(failed: bool, key: string) returns (action: Action)
      requires Valid()
      modifies this
      ensures Valid()
      ensures done == old(done) + [Item(key, if failed then Errored else Succeeded)]
      ensures action == ActionAt(done, |done| - 1)
    {
      ghost var item := Item(key, if failed then Errored else Succeeded);
      if !failed {
        Forget(key);
        action := Forgotten;
      } else if NumRequeues(failures, key) < 5 {
        AddRateLimited(key);
        action := RateLimited;
      } else {
        Forget(key);
        action := Dropped;
      }
      assert (done + [item])[..|done|] == done;
      done := done + [item];
    }
  }
}
