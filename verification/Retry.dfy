/** At-least-once delivery of a store request: `_aretry` around `_ainvoke_with_retries`. */
module Retry {
  import opened Seqs

  /** How one round trip ends for the caller. `Transient` is a connection error or a timeout; `Failed` is any other
      exception, such as an error reply. */
  datatype CallResult = Ok | Transient | Failed

  /** What befalls one round trip: the operations other clients got in before it, whether the worker executed it
      (the request or the reply may be lost), and what the caller saw. */
  datatype Attempt<Op> = Attempt(others: seq<Op>, executed: bool, result: CallResult)

  /** The environment's answer to the i-th round trip. A good reply comes from an execution. */
  type Script<!Op> = nat -> Attempt<Op>

  ghost predicate Honest<Op>(script: Script<Op>) {
    forall i: nat :: script(i).result.Ok? ==> script(i).executed
  }

  /** The round trip that settles one call: the first that is not transient, or the last allowed. */
  function LastInner<Op>(script: Script<Op>, start: nat, total: nat): (last: nat)
    requires total >= 1
    ensures start <= last < start + total
    decreases total
  {
    if !script(start).result.Transient? || total == 1 then start
    else LastInner(script, start + 1, total - 1)
  }

  function Total(maxRetries: int): (n: nat)
    ensures n >= 1
  {
    1 + if maxRetries > 0 then maxRetries else 0
  }

  /** The round trip that settles the outer loop. */
  function LastOuter<Op>(script: Script<Op>, start: nat, maxRetries: int, attempts: nat): (last: nat)
    requires attempts >= 1
    ensures start <= last
    decreases attempts
  {
    var inner := LastInner(script, start, Total(maxRetries));
    if script(inner).result.Ok? || attempts == 1 then inner
    else LastOuter(script, inner + 1, maxRetries, attempts - 1)
  }

  /** The two loops multiply. */
  function MaxTrips(maxRetries: int, attempts: nat): nat {
    attempts * Total(maxRetries)
  }

  /** No call makes more than `attempts * (1 + max_retries)` round trips. */
  lemma {:induction false} RoundTripBound<Op>(script: Script<Op>, start: nat, maxRetries: int, attempts: nat)
    requires attempts >= 1
    ensures LastOuter(script, start, maxRetries, attempts) < start + MaxTrips(maxRetries, attempts)
    ensures MaxTrips(maxRetries, attempts) == attempts * (1 + if maxRetries > 0 then maxRetries else 0)
    decreases attempts
  {
    var inner := LastInner(script, start, Total(maxRetries));
    OneMore(attempts - 1, Total(maxRetries));
    if !script(inner).result.Ok? && attempts > 1 {
      RoundTripBound(script, inner + 1, maxRetries, attempts - 1);
    }
  }

  lemma OneMore(n: nat, t: nat)
    ensures (n + 1) * t == n * t + t && n * t >= 0
  {
  }

  lemma {:induction false} InnerSettles<Op>(script: Script<Op>, start: nat, total: nat)
    requires total >= 1
    ensures var last := LastInner(script, start, total);
            && (forall i :: start <= i < last ==> script(i).result.Transient?)
            && (last < start + total - 1 ==> !script(last).result.Transient?)
    decreases total
  {
    if script(start).result.Transient? && total > 1 {
      InnerSettles(script, start + 1, total - 1);
    }
  }

  /** The caller stops at the first success: every round trip before the settling one failed. */
  lemma {:induction false} StopsAtFirstSuccess<Op>(script: Script<Op>, start: nat, maxRetries: int, attempts: nat)
    requires attempts >= 1
    ensures forall i :: start <= i < LastOuter(script, start, maxRetries, attempts) ==> !script(i).result.Ok?
    decreases attempts
  {
    var inner := LastInner(script, start, Total(maxRetries));
    InnerSettles(script, start, Total(maxRetries));
    if !script(inner).result.Ok? && attempts > 1 {
      StopsAtFirstSuccess(script, inner + 1, maxRetries, attempts - 1);
    }
  }

  /** The round trips from `start` up to `next` are one call with `maxRetries`: all but the last are transient, and it
      is not, or no retry is left. */
  predicate OneCall<Op>(script: Script<Op>, start: nat, maxRetries: int, next: nat) {
    && start < next
    && (forall i :: start <= i < next - 1 ==> script(i).result.Transient?)
    && (next - 1 - start == 0 || next - 1 - start <= maxRetries)
    && (script(next - 1).result.Transient? ==> next - 1 - start >= maxRetries)
  }

  /** Only one end fits: after k transient round trips, k at most `max(0, max_retries)`, a call whose next one is not
      transient makes k + 1; if `1 + max(0, max_retries)` are transient it makes all of these. */
  lemma OneCallEnds<Op>(script: Script<Op>, start: nat, maxRetries: int, next: nat, k: nat)
    requires OneCall(script, start, maxRetries, next)
    requires forall i :: start <= i < start + k ==> script(i).result.Transient?
    requires k <= if maxRetries > 0 then maxRetries else 0
    requires !script(start + k).result.Transient? || k == if maxRetries > 0 then maxRetries else 0
    ensures next == start + k + 1
  {
  }

  lemma InnerIsOneCall<Op>(script: Script<Op>, start: nat, maxRetries: int)
    ensures OneCall(script, start, maxRetries, LastInner(script, start, Total(maxRetries)) + 1)
  {
    InnerSettles(script, start, Total(maxRetries));
  }

  /** `_ainvoke_with_retries` */
  method AInvokeWithRetries<Op>(script: Script<Op>, start: nat, maxRetries: int) returns (result: CallResult, next: nat)
    ensures next == LastInner(script, start, Total(maxRetries)) + 1
    ensures OneCall(script, start, maxRetries, next)
    ensures result == script(next - 1).result
  {
    var total := Total(maxRetries);
    InnerIsOneCall(script, start, maxRetries);
    next := start;
    var attempt := 0;
    while true
      invariant 0 <= attempt < total && next == start + attempt
      invariant LastInner(script, start, total) == LastInner(script, next, total - attempt)
      decreases total - attempt
    {
      result := script(next).result;
      next := next + 1;
      if result.Transient? && attempt < total - 1 {
        attempt := attempt + 1;
        continue;
      }
      return;
    }
  }

  /** Each entry of `ends` is where one call ends and the next begins. */
  predicate CallsEndAt<Op>(script: Script<Op>, maxRetries: int, ends: seq<nat>) {
    forall j :: 0 <= j < |ends| ==> OneCall(script, CallStart(ends, j), maxRetries, ends[j])
  }

  function CallStart(ends: seq<nat>, j: nat): nat
    requires j <= |ends|
  {
    if j == 0 then 0 else ends[j - 1]
  }

  /** The first `n` calls failed. */
  predicate AllFailed<Op>(script: Script<Op>, ends: seq<nat>, n: int) {
    forall j :: 0 <= j < n && j < |ends| ==> ends[j] > 0 && !script(ends[j] - 1).result.Ok?
  }

  lemma FailedMore<Op>(script: Script<Op>, ends: seq<nat>, next: nat)
    requires AllFailed(script, ends, |ends|) && next > 0
    ensures AllFailed(script, ends + [next], |ends|)
    ensures !script(next - 1).result.Ok? ==> AllFailed(script, ends + [next], |ends| + 1)
  {
  }

  /** What `_aretry` has done: `ends` says where each of its calls ends; all but the last failed, and if the last failed
      too, all `attempts` were made. */
  predicate Retried<Op>(script: Script<Op>, maxRetries: int, attempts: nat, result: CallResult, used: nat,
                        ends: seq<nat>)
    requires attempts >= 1
  {
    && used == LastOuter(script, 0, maxRetries, attempts) + 1 && result == script(used - 1).result
    && used <= attempts * (1 + if maxRetries > 0 then maxRetries else 0)
    && 1 <= |ends| <= attempts && ends[|ends| - 1] == used
    && CallsEndAt(script, maxRetries, ends) && AllFailed(script, ends, |ends| - 1)
    && (result.Ok? || |ends| == attempts)
  }

  /** `_aretry`; with no attempts at all it returns without calling. */
  method ARetry<Op>(script: Script<Op>, maxRetries: int, attempts: int)
    returns (result: Option<CallResult>, used: nat, ends: seq<nat>)
    ensures attempts <= 0 ==> result == None && used == 0 && ends == []
    ensures attempts >= 1 ==> result.Some? && Retried(script, maxRetries, attempts, result.value, used, ends)
  {
    hide *;
    used, result, ends := 0, None, [];
    NoCalls(script, maxRetries, attempts);
    var i := 0;
    while i < attempts
      invariant 0 <= i && (i == 0 || i < attempts) && Going(script, maxRetries, attempts, i, used, ends)
      invariant i == 0 ==> used == 0 && result == None && ends == []
    {
      var r, next := AInvokeWithRetries(script, used, maxRetries);
      CallMade(script, maxRetries, attempts, i, used, ends, next);
      used, ends, result := next, ends + [next], Some(r);
      if r.Ok? || i == attempts - 1 {
        return;
      }
      i := i + 1;
    }
  }

  /** `i` calls made, all failed, and more allowed. */
  predicate Going<Op>(script: Script<Op>, maxRetries: int, attempts: int, i: int, used: nat, ends: seq<nat>) {
    && 0 <= i && (i == 0 || i < attempts) && |ends| == i && used == CallStart(ends, i)
    && CallsEndAt(script, maxRetries, ends) && AllFailed(script, ends, i)
    && (attempts >= 1 ==>
         LastOuter(script, 0, maxRetries, attempts) == LastOuter(script, used, maxRetries, attempts - i))
  }

  lemma CallMade<Op>(script: Script<Op>, maxRetries: int, attempts: int, i: int, used: nat, ends: seq<nat>, next: nat)
    requires Going(script, maxRetries, attempts, i, used, ends) && i < attempts
    requires next == LastInner(script, used, Total(maxRetries)) + 1 && OneCall(script, used, maxRetries, next)
    ensures if script(next - 1).result.Ok? || i == attempts - 1
            then Retried(script, maxRetries, attempts, script(next - 1).result, next, ends + [next])
            else Going(script, maxRetries, attempts, i + 1, next, ends + [next])
  {
    hide LastOuter, LastInner, OneCall, CallsEndAt, AllFailed, MaxTrips;
    OuterStep(script, used, maxRetries, attempts - i);
    RoundTripBound(script, 0, maxRetries, attempts);
    CallEndsMore(script, maxRetries, ends, next);
    FailedMore(script, ends, next);
  }

  lemma NoCalls<Op>(script: Script<Op>, maxRetries: int, attempts: int)
    ensures Going(script, maxRetries, attempts, 0, 0, [])
  {
  }

  lemma CallEndsMore<Op>(script: Script<Op>, maxRetries: int, ends: seq<nat>, next: nat)
    requires CallsEndAt(script, maxRetries, ends)
    requires OneCall(script, CallStart(ends, |ends|), maxRetries, next)
    ensures CallsEndAt(script, maxRetries, ends + [next]) && next > 0
  {
    hide OneCall;
    OneCallMoves(script, CallStart(ends, |ends|), maxRetries, next);
    var all := ends + [next];
    forall j | 0 <= j < |all| ensures OneCall(script, CallStart(all, j), maxRetries, all[j]) {
      assert CallStart(all, j) == CallStart(ends, j);
      if j < |ends| {
        assert OneCall(script, CallStart(ends, j), maxRetries, ends[j]);
      }
    }
  }

  lemma OneCallMoves<Op>(script: Script<Op>, start: nat, maxRetries: int, next: nat)
    requires OneCall(script, start, maxRetries, next)
    ensures next > start
  {
  }

  lemma OuterStep<Op>(script: Script<Op>, start: nat, maxRetries: int, attempts: nat)
    requires attempts >= 1
    ensures var inner := LastInner(script, start, Total(maxRetries));
            LastOuter(script, start, maxRetries, attempts) ==
            if script(inner).result.Ok? || attempts == 1 then inner
            else LastOuter(script, inner + 1, maxRetries, attempts - 1)
  {
  }

  /** What the worker executes over round trips `from` to `to`. */
  function Executed<Op>(script: Script<Op>, op: Op, from: nat, end: nat): seq<Op>
    requires from <= end
    decreases end - from
  {
    if from == end then []
    else script(from).others + (if script(from).executed then [op] else []) + Executed(script, op, from + 1, end)
  }

  /** The same, with only the first execution of `op` kept. */
  function FirstOnly<Op>(script: Script<Op>, op: Op, from: nat, end: nat, done: bool): seq<Op>
    requires from <= end
    decreases end - from
  {
    if from == end then []
    else
      var runs := script(from).executed;
      script(from).others + (if runs && !done then [op] else []) + FirstOnly(script, op, from + 1, end, done || runs)
  }
}
