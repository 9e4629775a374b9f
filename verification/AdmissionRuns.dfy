/** What holds of a worker over every interleaving of calls, completions, cancellations and handler changes. */
module AdmissionRuns {
  import opened Seqs
  import opened Admission
  import RL = RateLimiter

  predicate LegalRun(s: Server, steps: seq<Step>)
    decreases |steps|
  {
    steps != [] ==> Enabled(s, steps[0]) && LegalRun(Apply(s, steps[0]), steps[1..])
  }

  function Run(s: Server, steps: seq<Step>): Server
    requires LegalRun(s, steps)
    decreases |steps|
  {
    if steps == [] then s else Run(Apply(s, steps[0]), steps[1..])
  }

  // ---- the concurrency cap ----

  /** The calls in the dispatch window of registration `r`. */
  function CallsIn(inside: map<nat, nat>, r: nat): set<nat> {
    set c | c in inside && inside[c] == r
  }

  function Inside(s: Server, r: nat): nat {
    |CallsIn(s.inside, r)|
  }

  /** Value plus calls inside is the cap; nobody is parked. */
  predicate CapOk(reg: Registration, n: nat) {
    match reg.cap
    case None => reg.sem.None?
    case Some(cap) => if reg.sem.None? then n == 0 else reg.sem.value.value + n == cap && reg.sem.value.parked == 0
  }

  predicate Consistent(s: Server) {
    && (forall name <- s.handlers :: s.handlers[name] < |s.regs|)
    && (forall c <- s.inside :: s.inside[c] < |s.regs| && c < s.next)
    && (forall r :: 0 <= r < |s.regs| ==> CapOk(s.regs[r], Inside(s, r)))
  }

  lemma CallsInAddOne(inside: map<nat, nat>, c: nat, r: nat, k: nat)
    requires c !in inside
    ensures |CallsIn(inside[c := r], k)| == |CallsIn(inside, k)| + if k == r then 1 else 0
  {
    if k == r {
      assert CallsIn(inside[c := r], k) == CallsIn(inside, k) + {c};
    } else {
      assert CallsIn(inside[c := r], k) == CallsIn(inside, k);
    }
  }

  lemma CallsInAdd(inside: map<nat, nat>, c: nat, r: nat)
    requires c !in inside
    ensures forall k :: |CallsIn(inside[c := r], k)| == |CallsIn(inside, k)| + if k == r then 1 else 0
  {
    forall k ensures |CallsIn(inside[c := r], k)| == |CallsIn(inside, k)| + if k == r then 1 else 0 {
      CallsInAddOne(inside, c, r, k);
    }
  }

  lemma CallsInRemove(inside: map<nat, nat>, c: nat)
    requires c in inside
    ensures forall k :: |CallsIn(inside, k)| == |CallsIn(inside - {c}, k)| + if k == inside[c] then 1 else 0
  {
    forall k ensures |CallsIn(inside, k)| == |CallsIn(inside - {c}, k)| + if k == inside[c] then 1 else 0 {
      assert CallsIn(inside, k) == CallsIn(inside - {c}, k) + if k == inside[c] then {c} else {};
    }
  }

  lemma NoneInside(s: Server, r: nat)
    requires Consistent(s) && r >= |s.regs|
    ensures Inside(s, r) == 0
  {
    assert CallsIn(s.inside, r) == {};
  }

  lemma CalledConsistent(s: Server, name: string, caller: nat, now: real)
    requires Consistent(s)
    ensures Consistent(Called(s, name, caller, now))
  {
    hide RL.Allows, RL.Consumed, CallsIn;
    if Judge(s, name, caller, now).Dispatched? {
      CallsInAdd(s.inside, s.next, s.handlers[name]);
    }
  }

  lemma FinishedConsistent(s: Server, call: nat, ending: Ending, ms: real)
    requires Consistent(s) && call in s.inside
    ensures Consistent(Finished(s, call, ending, ms))
  {
    hide Push, CallsIn;
    CallsInRemove(s.inside, call);
  }

  lemma ConsistentStep(s: Server, a: Step)
    requires Consistent(s) && Enabled(s, a)
    ensures Consistent(Apply(s, a))
  {
    hide Called, Finished, CallsIn;
    match a
    case Call(name, caller, now) => CalledConsistent(s, name, caller, now);
    case Finish(call, ending, ms) => FinishedConsistent(s, call, ending, ms);
    case Register(_, _, _, _) => NoneInside(s, |s.regs|);
    case _ =>
  }

  /** In every reachable state, for every registration ever made: the semaphore's value plus the calls inside equals
      the cap, and nobody is parked. Replacing or clearing a handler does not touch the registration its calls hold. */
  lemma {:induction false} CapsHold(s: Server, steps: seq<Step>)
    requires Consistent(s) && LegalRun(s, steps)
    ensures Consistent(Run(s, steps))
    decreases |steps|
  {
    hide Consistent, Enabled, Apply;
    if steps != [] {
      ConsistentStep(s, steps[0]);
      CapsHold(Apply(s, steps[0]), steps[1..]);
    }
  }

  /** The gates in order, and the cap: a call that passes the earlier gates is refused exactly when the dispatch
      window of its registration is full, and otherwise enters without waiting. */
  lemma VerdictIs(s: Server, name: string, caller: nat, now: real)
    requires Consistent(s)
    ensures var v := Judge(s, name, caller, now);
            && (v.NotFound? <==> name !in s.handlers)
            && (name in s.handlers ==>
                  var r := s.handlers[name]; var reg := s.regs[r];
                  var full := reg.cap.Some? && Inside(s, r) == reg.cap.value;
                  var t := Called(s, name, caller, now);
                  && (v.Unauthorized? <==> !Authorized(reg, caller))
                  && (v.RateLimited? <==> Authorized(reg, caller) && !WithinRate(reg, caller, now))
                  && (v.Busy? <==> Authorized(reg, caller) && WithinRate(reg, caller, now) && full)
                  && (forall k :: Inside(t, k) == Inside(s, k) + if v.Dispatched? && k == r then 1 else 0)
                  && (reg.cap.Some? ==> Inside(t, r) <= reg.cap.value)
                  && (t.regs[r].sem.Some? ==> t.regs[r].sem.value.parked == 0))
  {
    hide RL.Allows, RL.Consumed, CallsIn;
    if Judge(s, name, caller, now).Dispatched? {
      CallsInAdd(s.inside, s.next, s.handlers[name]);
    }
    if name in s.handlers {
      var r := s.handlers[name];
      assert CapOk(s.regs[r], Inside(s, r));
    }
  }

  lemma IdleIsConsistent()
    ensures Consistent(IDLE)
  {
  }

  /** From an idle worker, over every run: the caps hold in the state it reaches, and every call it then judges is
      refused as busy exactly when it passes the earlier gates and its registration is full. */
  lemma CapsHoldFromIdle(steps: seq<Step>, name: string, caller: nat, now: real)
    requires LegalRun(IDLE, steps)
    ensures var t := Run(IDLE, steps);
            && (forall r :: 0 <= r < |t.regs| ==> CapOk(t.regs[r], Inside(t, r)))
            && (forall r :: 0 <= r < |t.regs| && t.regs[r].cap.Some? ==> Inside(t, r) <= t.regs[r].cap.value)
            && (Judge(t, name, caller, now).Busy? <==>
                  && name in t.handlers && t.handlers[name] < |t.regs|
                  && var r := t.handlers[name];
                  && Authorized(t.regs[r], caller) && WithinRate(t.regs[r], caller, now)
                  && t.regs[r].cap.Some? && Inside(t, r) == t.regs[r].cap.value)
  {
    hide Run, LegalRun, Judge, Called, Authorized, WithinRate, Inside;
    IdleIsConsistent();
    CapsHold(IDLE, steps);
    VerdictIs(Run(IDLE, steps), name, caller, now);
  }

  // ---- accounting ----

  /** Calls and errors of all registrations ever made, retired ones included. */
  function SumCalls(regs: seq<Registration>): nat {
    if regs == [] then 0 else SumCalls(regs[..|regs| - 1]) + regs[|regs| - 1].stats.calls
  }

  function SumErrors(regs: seq<Registration>): nat {
    if regs == [] then 0 else SumErrors(regs[..|regs| - 1]) + regs[|regs| - 1].stats.errors
  }

  lemma {:induction false} SumsUpdate(regs: seq<Registration>, r: nat, reg: Registration)
    requires r < |regs|
    ensures SumCalls(regs[r := reg]) == SumCalls(regs) - regs[r].stats.calls + reg.stats.calls
    ensures SumErrors(regs[r := reg]) == SumErrors(regs) - regs[r].stats.errors + reg.stats.errors
  {
    var n := |regs| - 1;
    if r == n {
      assert regs[r := reg][..n] == regs[..n];
    } else {
      assert regs[r := reg][..n] == regs[..n][r := reg];
      SumsUpdate(regs[..n], r, reg);
    }
  }

  predicate Balanced(s: Server) {
    s.totalCalls == SumCalls(s.regs) && s.totalErrors == SumErrors(s.regs)
  }

  lemma BalancedStep(s: Server, a: Step)
    requires Enabled(s, a) && Balanced(s)
    ensures Balanced(Apply(s, a))
  {
    hide RL.Allows, RL.Consumed, Push, Judge;
    match a
    case Register(_, allow, rate, cap) => assert (s.regs + [Fresh(allow, rate, cap)])[..|s.regs|] == s.regs;
    case Call(name, caller, now) =>
      var v := Judge(s, name, caller, now);
      CalledStats(s, name, caller, now);
      if !v.NotFound? && !v.Unauthorized? {
        var r := s.handlers[name];
        SumsUpdate(s.regs, r, Called(s, name, caller, now).regs[r]);
      }
    case Authorize(name, _) =>
      var r := s.handlers[name];
      SumsUpdate(s.regs, r, Apply(s, a).regs[r]);
    case Finish(call, ending, ms) =>
      var r := s.inside[call];
      SumsUpdate(s.regs, r, Finished(s, call, ending, ms).regs[r]);
    case _ =>
  }

  lemma CalledStats(s: Server, name: string, caller: nat, now: real)
    ensures var t := Called(s, name, caller, now);
            && |t.regs| == |s.regs| && t.totalCalls == s.totalCalls && t.totalErrors == s.totalErrors
            && (forall r :: 0 <= r < |s.regs| ==> t.regs[r].stats == s.regs[r].stats)
            && (var v := Judge(s, name, caller, now);
                if v.NotFound? || v.Unauthorized? then t == s
                else name in s.handlers && s.handlers[name] < |s.regs| &&
                     t.regs == s.regs[s.handlers[name] := t.regs[s.handlers[name]]])
  {
    hide RL.Allows, RL.Consumed;
  }

  /** The server's totals are the sums over all registrations, through every replacement and clearing. */
  lemma {:induction false} TotalsAreSums(s: Server, steps: seq<Step>)
    requires LegalRun(s, steps) && Balanced(s)
    ensures Balanced(Run(s, steps))
    decreases |steps|
  {
    hide Balanced, Enabled, Apply;
    if steps != [] {
      BalancedStep(s, steps[0]);
      TotalsAreSums(Apply(s, steps[0]), steps[1..]);
    }
  }

  // ---- each registration's own history ----

  datatype Done = Done(ending: Ending, ms: real)

  /** The calls of registration `r` that leave the dispatch window, in the order they leave. */
  function DoneBy(s: Server, a: Step, r: nat): seq<Done>
    requires Enabled(s, a)
  {
    if a.Finish? && s.inside[a.call] == r then [Done(a.ending, a.ms)] else []
  }

  function History(s: Server, steps: seq<Step>, r: nat): seq<Done>
    requires LegalRun(s, steps)
    decreases |steps|
  {
    if steps == [] then []
    else DoneBy(s, steps[0], r) + History(Apply(s, steps[0]), steps[1..], r)
  }

  /** How many calls are let into the dispatch window of `r`. */
  function Dispatches(s: Server, steps: seq<Step>, r: nat): nat
    requires LegalRun(s, steps)
    decreases |steps|
  {
    if steps == [] then 0 else LetIn(s, steps[0], r) + Dispatches(Apply(s, steps[0]), steps[1..], r)
  }

  function LetIn(s: Server, a: Step, r: nat): nat {
    if a.Call? && Judge(s, a.name, a.caller, a.now).Dispatched? && s.handlers[a.name] == r then 1 else 0
  }

  function Counting(d: Done): bool {
    !d.ending.Cancelled?
  }

  function Erring(d: Done): bool {
    !d.ending.Cancelled? && !d.ending.Success?
  }

  function Ms(d: Done): real {
    d.ms
  }

  /** The last 256. */
  function Recent(samples: seq<real>): seq<real> {
    if |samples| <= RING then samples else samples[|samples| - RING..]
  }

  /** The statistics that a history should leave: its uncancelled calls, its errors among them, and the latest of
      their latencies. */
  function Tally(h: seq<Done>): Stats {
    Stats(|Filter(h, Counting)|, |Filter(h, Erring)|, Recent(Map(Filter(h, Counting), Ms)))
  }

  function StatsOf(s: Server, r: nat): Stats {
    if r < |s.regs| then s.regs[r].stats else Stats(0, 0, [])
  }

  lemma PushRecent(samples: seq<real>, ms: real)
    ensures Push(Recent(samples), ms) == Recent(samples + [ms])
  {
  }

  lemma TallyMore(h: seq<Done>, d: Done)
    ensures Tally(h + [d]) == Counted(Tally(h), d.ending, d.ms)
  {
    hide Push, Recent, Filter;
    FilterAppend(h, [d], Counting);
    FilterAppend(h, [d], Erring);
    FilterSingle(d, Counting);
    FilterSingle(d, Erring);
    var kept := Filter(h, Counting);
    if Counting(d) {
      assert Map(kept + [d], Ms) == Map(kept, Ms) + [d.ms];
      PushRecent(Map(kept, Ms), d.ms);
    } else {
      assert kept + [] == kept;
    }
  }

  lemma FilterSingle(d: Done, p: Done -> bool)
    ensures Filter([d], p) == if p(d) then [d] else []
  {
    assert [d][1..] == [];
  }

  lemma StatsStep(s: Server, a: Step, r: nat)
    requires Enabled(s, a)
    ensures StatsOf(Apply(s, a), r) ==
      if DoneBy(s, a, r) == [] then StatsOf(s, r) else Counted(StatsOf(s, r), a.ending, a.ms)
  {
    hide Called, Push, RL.Allows, RL.Consumed, Judge;
    if a.Call? {
      CalledStats(s, a.name, a.caller, a.now);
    }
  }

  /** Over every run: each registration, current or retired, has counted exactly the uncancelled calls that left its
      dispatch window, once each, and its ring is the last 256 of their latencies, in order. */
  lemma {:induction false} StatsAreTallies(s: Server, before: seq<Done>, steps: seq<Step>, r: nat)
    requires LegalRun(s, steps) && StatsOf(s, r) == Tally(before)
    ensures StatsOf(Run(s, steps), r) == Tally(before + History(s, steps, r))
    decreases |steps|
  {
    hide Enabled, Apply, StatsOf, Tally, DoneBy;
    if steps == [] {
      assert before + [] == before;
    } else {
      var a, t := steps[0], Apply(s, steps[0]);
      var now := before + DoneBy(s, a, r);
      StatsStep(s, a, r);
      DoneByShape(s, a, r);
      if DoneBy(s, a, r) != [] {
        TallyMore(before, Done(a.ending, a.ms));
      } else {
        assert now == before;
      }
      StatsAreTallies(t, now, steps[1..], r);
      assert now + History(t, steps[1..], r) == before + History(s, steps, r);
    }
  }

  lemma DoneByShape(s: Server, a: Step, r: nat)
    requires Enabled(s, a)
    ensures DoneBy(s, a, r) == [] || (a.Finish? && DoneBy(s, a, r) == [Done(a.ending, a.ms)])
  {
  }

  /** From an idle worker: totals, per-registration counts, errors and rings, all from the run alone. */
  lemma AccountingIsExact(steps: seq<Step>)
    requires LegalRun(IDLE, steps)
    ensures var t := Run(IDLE, steps);
            && t.totalCalls == SumCalls(t.regs) && t.totalErrors == SumErrors(t.regs)
            && forall r :: 0 <= r < |t.regs| ==>
                 && t.regs[r].stats == Tally(History(IDLE, steps, r)) && t.regs[r].stats.errors <= t.regs[r].stats.calls
                 && |t.regs[r].stats.ring| == if t.regs[r].stats.calls < 256 then t.regs[r].stats.calls else 256
  {
    hide Run, History, Tally, LegalRun;
    TotalsAreSums(IDLE, steps);
    var t := Run(IDLE, steps);
    forall r | 0 <= r < |t.regs|
      ensures t.regs[r].stats == Tally(History(IDLE, steps, r)) && t.regs[r].stats.errors <= t.regs[r].stats.calls
      ensures |t.regs[r].stats.ring| == if t.regs[r].stats.calls < 256 then t.regs[r].stats.calls else 256
    {
      TallyNothing();
      StatsAreTallies(IDLE, [], steps, r);
      assert [] + History(IDLE, steps, r) == History(IDLE, steps, r);
      ErrorsWithinCalls(History(IDLE, steps, r));
      RingOfTally(History(IDLE, steps, r));
    }
  }

  lemma TallyNothing()
    ensures Tally([]) == Stats(0, 0, [])
  {
  }

  lemma RingOfTally(h: seq<Done>)
    ensures |Tally(h).ring| == if Tally(h).calls < 256 then Tally(h).calls else 256
  {
    hide Filter;
  }

  lemma {:induction false} ErrorsWithinCalls(h: seq<Done>)
    ensures Tally(h).errors <= Tally(h).calls
  {
    hide Recent;
    if h != [] {
      ErrorsWithinCalls(h[1..]);
    }
  }

  /** Every call let in is still inside or has left once: none is counted twice and none is lost. */
  lemma {:induction false} EveryCallLeavesOnce(s: Server, steps: seq<Step>, r: nat)
    requires Consistent(s) && LegalRun(s, steps)
    ensures Inside(s, r) + Dispatches(s, steps, r) == Inside(Run(s, steps), r) + |History(s, steps, r)|
    decreases |steps|
  {
    hide Enabled, Apply, Consistent, Inside, LetIn, DoneBy;
    if steps != [] {
      ConsistentStep(s, steps[0]);
      InsideStep(s, steps[0], r);
      EveryCallLeavesOnce(Apply(s, steps[0]), steps[1..], r);
    }
  }

  lemma InsideStep(s: Server, a: Step, r: nat)
    requires Consistent(s) && Enabled(s, a)
    ensures Inside(s, r) + LetIn(s, a, r) == Inside(Apply(s, a), r) + |DoneBy(s, a, r)|
  {
    hide CallsIn, RL.Allows, RL.Consumed, Push;
    match a
    case Call(name, caller, now) =>
      if Judge(s, name, caller, now).Dispatched? {
        CallsInAdd(s.inside, s.next, s.handlers[name]);
      }
    case Finish(call, _, _) => CallsInRemove(s.inside, call);
    case _ =>
  }

  // ---- the rate gate ----

  /** The request, if this step brings one to the rate gate of registration `r`. */
  function AtGate(s: Server, a: Step, r: nat): seq<RL.Request> {
    if a.Call? && r < |s.regs| && a.name in s.handlers && s.handlers[a.name] == r && Authorized(s.regs[r], a.caller)
    then [RL.Request(a.caller, a.now)] else []
  }

  function Gated(s: Server, steps: seq<Step>, r: nat): seq<RL.Request>
    requires LegalRun(s, steps)
    decreases |steps|
  {
    if steps == [] then [] else AtGate(s, steps[0], r) + Gated(Apply(s, steps[0]), steps[1..], r)
  }

  /** The limiter of `r` is where a run of `requests` alone would have left it. */
  predicate LimiterAt(s: Server, r: nat, rate: Rate, requests: seq<RL.Request>) {
    r < |s.regs| && s.regs[r].rate == Some(rate) && s.regs[r].windows == RL.After(rate.limit, rate.windowSecs, requests)
  }

  lemma LimiterStep(s: Server, a: Step, r: nat, rate: Rate, requests: seq<RL.Request>)
    requires Enabled(s, a) && LimiterAt(s, r, rate, requests)
    ensures LimiterAt(Apply(s, a), r, rate, requests + AtGate(s, a, r))
  {
    hide RL.Allows, RL.Consumed, Push, RL.After;
    if AtGate(s, a, r) == [] {
      assert requests + [] == requests;
    } else {
      AfterOneMore(rate, requests, RL.Request(a.caller, a.now));
    }
  }

  lemma AfterOneMore(rate: Rate, requests: seq<RL.Request>, q: RL.Request)
    ensures RL.After(rate.limit, rate.windowSecs, requests + [q]) ==
            RL.Consumed(rate.limit, rate.windowSecs, RL.After(rate.limit, rate.windowSecs, requests), q)
  {
    hide RL.Consumed;
    assert (requests + [q])[..|requests|] == requests;
  }

  /** Whatever else the worker does, a registration's limiter sees exactly the authorized calls to it. */
  lemma {:induction false} LimiterSeesItsCalls(s: Server, steps: seq<Step>, r: nat, rate: Rate, before: seq<RL.Request>)
    requires LegalRun(s, steps) && LimiterAt(s, r, rate, before)
    ensures LimiterAt(Run(s, steps), r, rate, before + Gated(s, steps, r))
    decreases |steps|
  {
    hide Enabled, Apply, LimiterAt, AtGate;
    if steps == [] {
      assert before + [] == before;
    } else {
      var now := before + AtGate(s, steps[0], r);
      LimiterStep(s, steps[0], r, rate, before);
      LimiterSeesItsCalls(Apply(s, steps[0]), steps[1..], r, rate, now);
      assert now + Gated(Apply(s, steps[0]), steps[1..], r) == before + Gated(s, steps, r);
    }
  }

  /** So an authorized call is rate limited if and only if its caller already had `limit` calls pass the gate in the
      window that ends now. */
  lemma RateLimitedIff(s: Server, name: string, caller: nat, now: real, rate: Rate, before: seq<RL.Request>)
    requires name in s.handlers && LimiterAt(s, s.handlers[name], rate, before)
    requires RL.InOrder(before + [RL.Request(caller, now)]) && Authorized(s.regs[s.handlers[name]], caller)
    ensures Judge(s, name, caller, now).RateLimited? <==>
            RL.Allowed(rate.limit, rate.windowSecs, before, caller, now - rate.windowSecs, now) >= rate.limit
  {
    hide RL.Allows, RL.Consumed, RL.After, RL.Allowed;
    var q := RL.Request(caller, now);
    var all := before + [q];
    assert all[..|all| - 1] == before && all[|all| - 1] == q;
    RL.AllowedIff(rate.limit, rate.windowSecs, all);
  }

  /** From the registration on, over any run: a call that reaches the rate gate is limited if and only if its caller had
      `limit` calls pass that gate, of all that reached it since, in the window that ends now. */
  lemma RateLimitedSinceRegistration(s: Server, reg: Step, steps: seq<Step>, name: string, caller: nat, now: real)
    requires reg.Register? && reg.rate.Some? && reg.rate.value.limit != 0 && LegalRun(Apply(s, reg), steps)
    requires var t, r := Run(Apply(s, reg), steps), |s.regs|;
             && name in t.handlers && t.handlers[name] == r && r < |t.regs| && Authorized(t.regs[r], caller)
             && RL.InOrder(Gated(Apply(s, reg), steps, r) + [RL.Request(caller, now)])
    ensures var t, rate := Run(Apply(s, reg), steps), reg.rate.value;
            var seen := Gated(Apply(s, reg), steps, |s.regs|);
            Judge(t, name, caller, now).RateLimited? <==>
            RL.Allowed(rate.limit, rate.windowSecs, seen, caller, now - rate.windowSecs, now) >= rate.limit
  {
    hide LegalRun, Run, Gated, Judge, RL.Allowed, RL.InOrder;
    var s1, r, rate := Apply(s, reg), |s.regs|, reg.rate.value;
    assert LimiterAt(s1, r, rate, []);
    LimiterSeesItsCalls(s1, steps, r, rate, []);
    assert [] + Gated(s1, steps, r) == Gated(s1, steps, r);
    RateLimitedIff(Run(s1, steps), name, caller, now, rate, Gated(s1, steps, r));
  }

  // ---- from a registration's own terms ----

  /** The callers a registration allows after a run: those given at registration, or by the last `authorize` that
      reached it. */
  function AllowedBy(s: Server, steps: seq<Step>, r: nat, allow: Option<set<nat>>): Option<set<nat>>
    requires LegalRun(s, steps)
    decreases |steps|
  {
    if steps == [] then allow
    else AllowedBy(Apply(s, steps[0]), steps[1..], r, AllowedNow(s, steps[0], r, allow))
  }

  /** A registration's own settings, as they stand. */
  predicate SetTo(s: Server, r: nat, allow: Option<set<nat>>, cap: Option<nat>, limited: bool) {
    r < |s.regs| && s.regs[r].allow == allow && s.regs[r].cap == cap && s.regs[r].rate.Some? == limited
  }

  function AllowedNow(s: Server, a: Step, r: nat, allow: Option<set<nat>>): Option<set<nat>>
    requires Enabled(s, a)
  {
    if a.Authorize? && s.handlers[a.name] == r then Some(a.callers) else allow
  }

  lemma SetToStep(s: Server, a: Step, r: nat, allow: Option<set<nat>>, cap: Option<nat>, limited: bool)
    requires Enabled(s, a) && SetTo(s, r, allow, cap, limited)
    ensures SetTo(Apply(s, a), r, AllowedNow(s, a, r, allow), cap, limited)
  {
    hide RL.Allows, RL.Consumed, Called, Finished;
    match a
    case Call(name, caller, now) => CalledSettings(s, name, caller, now, r);
    case Finish(call, ending, ms) => FinishedSettings(s, call, ending, ms, r);
    case _ =>
  }

  lemma CalledSettings(s: Server, name: string, caller: nat, now: real, r: nat)
    requires r < |s.regs|
    ensures var t := Called(s, name, caller, now);
            && r < |t.regs| && t.regs[r].allow == s.regs[r].allow && t.regs[r].cap == s.regs[r].cap
            && t.regs[r].rate == s.regs[r].rate
  {
    hide RL.Allows, RL.Consumed;
  }

  lemma FinishedSettings(s: Server, call: nat, ending: Ending, ms: real, r: nat)
    requires r < |s.regs| && Enabled(s, Finish(call, ending, ms))
    ensures var t := Finished(s, call, ending, ms);
            && r < |t.regs| && t.regs[r].allow == s.regs[r].allow && t.regs[r].cap == s.regs[r].cap
            && t.regs[r].rate == s.regs[r].rate
  {
    hide Counted;
  }

  lemma {:induction false} SetToRun(s: Server, steps: seq<Step>, r: nat, allow: Option<set<nat>>, cap: Option<nat>,
                                    limited: bool)
    requires LegalRun(s, steps) && SetTo(s, r, allow, cap, limited)
    ensures SetTo(Run(s, steps), r, AllowedBy(s, steps, r, allow), cap, limited)
    decreases |steps|
  {
    hide Apply, SetTo, Enabled, AllowedNow;
    if steps != [] {
      var a := steps[0];
      SetToStep(s, a, r, allow, cap, limited);
      SetToRun(Apply(s, a), steps[1..], r, AllowedNow(s, a, r, allow), cap, limited);
    }
  }

  /** Over any run since `Register(name, allow, rate, cap)`, in the terms of that registration: a call to a name bound
      to it is unauthorized exactly when the allow set given then, or by the last `authorize` that reached it, lacks
      the caller; no more than `cap` calls are inside, which are the calls let in that have not left; and a call that
      passes the earlier gates is refused as busy exactly when `cap` are. */
  lemma GatesSinceRegistration(s: Server, reg: Step, steps: seq<Step>, name: string, caller: nat, now: real)
    requires Consistent(s) && reg.Register? && LegalRun(Apply(s, reg), steps)
    requires var t := Run(Apply(s, reg), steps); name in t.handlers && t.handlers[name] == |s.regs|
    ensures var s1, r := Apply(s, reg), |s.regs|;
            var t := Run(s1, steps);
            var v, allow := Judge(t, name, caller, now), AllowedBy(s1, steps, r, reg.allow);
            && (v.Unauthorized? <==> allow.Some? && caller !in allow.value)
            && (reg.rate.None? || reg.rate.value.limit == 0 ==> !v.RateLimited?)
            && Inside(t, r) == Dispatches(s1, steps, r) - |History(s1, steps, r)|
            && (reg.cap.Some? ==> Inside(t, r) <= reg.cap.value)
            && (v.Busy? <==>
                  && !v.Unauthorized? && !v.RateLimited?
                  && reg.cap.Some? && Inside(t, r) == reg.cap.value)
            && !v.NotFound?
  {
    hide LegalRun, Run, Judge, Called, Inside, Consistent, Dispatches, History, AllowedBy;
    var s1, r := Apply(s, reg), |s.regs|;
    var limited := reg.rate.Some? && reg.rate.value.limit != 0;
    ConsistentStep(s, reg);
    CapsHold(s1, steps);
    var t := Run(s1, steps);
    SetToRun(s1, steps, r, reg.allow, reg.cap, limited);
    VerdictIs(t, name, caller, now);
    CapAt(t, r);
    NothingInsideNew(s, reg);
    EveryCallLeavesOnce(s1, steps, r);
  }

  lemma CapAt(s: Server, r: nat)
    requires Consistent(s) && r < |s.regs|
    ensures s.regs[r].cap.Some? ==> Inside(s, r) <= s.regs[r].cap.value
  {
    hide Inside;
    assert CapOk(s.regs[r], Inside(s, r));
  }

  lemma NothingInsideNew(s: Server, reg: Step)
    requires Consistent(s) && reg.Register?
    ensures Inside(Apply(s, reg), |s.regs|) == 0
  {
    NoneInside(s, |s.regs|);
  }
}
