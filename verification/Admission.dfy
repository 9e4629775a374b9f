/** A worker's gates, concurrency caps and call accounting, under concurrent calls and handler replacement. */
module Admission {
  import opened Seqs
  import opened RateLimiter

  // ---- data ----

  const RING: nat := 256

  datatype Stats = Stats(calls: nat, errors: nat, ring: seq<real>)

  /** `asyncio.Semaphore`: its value and how many tasks are parked in `acquire`. */
  datatype Sem = Sem(value: nat, parked: nat)

  datatype Rate = Rate(limit: int, windowSecs: real)

  /** `_Registration`; the semaphore is made on first use. */
  datatype Registration = Registration(
    allow: Option<set<nat>>,
    rate: Option<Rate>,
    windows: map<nat, seq<real>>,
    cap: Option<nat>,
    sem: Option<Sem>,
    stats: Stats)

  /** Registrations are numbered as they are made and outlive their name; `inside` maps each call in its dispatch
      window to the registration it captured. */
  datatype Server = Server(
    handlers: map<string, nat>,
    regs: seq<Registration>,
    inside: map<nat, nat>,
    next: nat,
    totalCalls: nat,
    totalErrors: nat)

  const IDLE := Server(map[], [], map[], 0, 0, 0)

  /** How a dispatch ends; a cancelled one is not counted. */
  datatype Ending = Success | TimedOut | Raised | Cancelled

  datatype Verdict = NotFound | Unauthorized | RateLimited | Busy | Dispatched(call: nat)

  datatype Step =
    | Register(name: string, allow: Option<set<nat>>, rate: Option<Rate>, cap: Option<nat>)
    | Rebind(name: string, reg: nat)
    | Authorize(name: string, callers: set<nat>)
    | Clear
    | Call(name: string, caller: nat, now: real)
    | Finish(call: nat, ending: Ending, ms: real)

  // ---- the pieces of a step ----

  /** A rate of 0 means no limiter. */
  function Fresh(allow: Option<set<nat>>, rate: Option<Rate>, cap: Option<nat>): Registration {
    Registration(allow, if rate.Some? && rate.value.limit != 0 then rate else None, map[], cap, None, Stats(0, 0, []))
  }

  predicate Authorized(reg: Registration, caller: nat) {
    reg.allow.Some? ==> caller in reg.allow.value
  }

  predicate WithinRate(reg: Registration, caller: nat, now: real) {
    reg.rate.Some? ==> Allows(reg.rate.value.limit, reg.rate.value.windowSecs, reg.windows, Request(caller, now))
  }

  function Rated(reg: Registration, caller: nat, now: real): Registration {
    if reg.rate.None? then reg
    else reg.(windows := Consumed(reg.rate.value.limit, reg.rate.value.windowSecs, reg.windows, Request(caller, now)))
  }

  function WithSem(reg: Registration): Registration {
    if reg.cap.Some? && reg.sem.None? then reg.(sem := Some(Sem(reg.cap.value, 0))) else reg
  }

  lemma SemAside(reg: Registration, caller: nat, now: real)
    ensures WithSem(Rated(reg, caller, now)).sem == WithSem(reg).sem
  {
  }

  predicate Locked(sem: Sem) {
    sem.value == 0 || sem.parked > 0
  }

  /** `Semaphore.acquire`: park when locked. */
  function Acquire(sem: Sem): Sem {
    if Locked(sem) then sem.(parked := sem.parked + 1) else sem.(value := sem.value - 1)
  }

  function Entered(reg: Registration): Registration {
    if reg.sem.None? then reg else reg.(sem := Some(Acquire(reg.sem.value)))
  }

  function Released(reg: Registration): Registration {
    if reg.sem.None? then reg else reg.(sem := Some(reg.sem.value.(value := reg.sem.value.value + 1)))
  }

  /** `deque(maxlen=256).append` */
  function Push(ring: seq<real>, ms: real): seq<real> {
    var all := ring + [ms];
    if |all| > RING then all[1..] else all
  }

  function Counted(st: Stats, ending: Ending, ms: real): Stats {
    if ending.Cancelled? then st
    else Stats(st.calls + 1, if ending.Success? then st.errors else st.errors + 1, Push(st.ring, ms))
  }

  function Judge(s: Server, name: string, caller: nat, now: real): Verdict {
    if name !in s.handlers || s.handlers[name] >= |s.regs| then NotFound
    else
      var reg := s.regs[s.handlers[name]];
      if !Authorized(reg, caller) then Unauthorized
      else if !WithinRate(reg, caller, now) then RateLimited
      else if WithSem(reg).sem.Some? && Locked(WithSem(reg).sem.value) then Busy
      else Dispatched(s.next)
  }

  function Set(s: Server, r: nat, reg: Registration): Server
    requires r < |s.regs|
  {
    s.(regs := s.regs[r := reg])
  }

  function Called(s: Server, name: string, caller: nat, now: real): Server {
    var v := Judge(s, name, caller, now);
    if v.NotFound? || v.Unauthorized? then s
    else
      var r := s.handlers[name];
      var reg := Rated(s.regs[r], caller, now);
      match v
      case RateLimited => Set(s, r, reg)
      case Busy => Set(s, r, WithSem(reg))
      case Dispatched(c) => Set(s, r, Entered(WithSem(reg))).(inside := s.inside[c := r], next := s.next + 1)
  }

  function Finished(s: Server, call: nat, ending: Ending, ms: real): Server
    requires call in s.inside && s.inside[call] < |s.regs|
  {
    var r := s.inside[call];
    var reg := Released(s.regs[r]);
    var t := Set(s, r, reg.(stats := Counted(reg.stats, ending, ms))).(inside := s.inside - {call});
    if ending.Cancelled? then t
    else t.(totalCalls := s.totalCalls + 1, totalErrors := if ending.Success? then s.totalErrors else s.totalErrors + 1)
  }

  predicate IsBuiltin(name: string) {
    name != [] && name[0] == '_'
  }

  predicate Enabled(s: Server, a: Step) {
    match a
    case Rebind(_, r) => r < |s.regs|
    case Authorize(name, _) => name in s.handlers && s.handlers[name] < |s.regs|
    case Finish(call, _, _) => call in s.inside && s.inside[call] < |s.regs|
    case _ => true
  }

  function Apply(s: Server, a: Step): Server
    requires Enabled(s, a)
  {
    match a
    case Register(name, allow, rate, cap) =>
      s.(handlers := s.handlers[name := |s.regs|], regs := s.regs + [Fresh(allow, rate, cap)])
    case Rebind(name, r) => s.(handlers := s.handlers[name := r])
    case Authorize(name, callers) => Set(s, s.handlers[name], s.regs[s.handlers[name]].(allow := Some(callers)))
    case Clear => s.(handlers := map n | n in s.handlers && IsBuiltin(n) :: s.handlers[n])
    case Call(name, caller, now) => Called(s, name, caller, now)
    case Finish(call, ending, ms) => Finished(s, call, ending, ms)
  }

  // ---- the server's methods ----

  class WorkerServer {
    var handlers: map<string, nat>
    var regs: seq<Registration>
    var inside: map<nat, nat>
    var next: nat
    var totalCalls: nat
    var totalErrors: nat

    function State(): Server
      reads this
    {
      Server(handlers, regs, inside, next, totalCalls, totalErrors)
    }

    constructor ()
      ensures State() == IDLE
    {
      handlers, regs, inside := map[], [], map[];
      next, totalCalls, totalErrors := 0, 0, 0;
    }

    method RegisterHandler(name: string, allow: Option<set<nat>>, rate: Option<Rate>, cap: Option<nat>)
      modifies this
      ensures State() == Apply(old(State()), Register(name, allow, rate, cap))
      ensures name in handlers && handlers[name] == |old(regs)| && regs[..|old(regs)|] == old(regs)
      ensures |regs| == |old(regs)| + 1
      ensures regs[handlers[name]].stats == Stats(0, 0, []) && regs[handlers[name]].sem.None?
      ensures regs[handlers[name]].allow == allow && regs[handlers[name]].cap == cap
      ensures regs[handlers[name]].windows == map[]
      ensures rate.Some? && rate.value.limit != 0 ==> regs[handlers[name]].rate == rate
      ensures rate.None? || rate.value.limit == 0 ==> regs[handlers[name]].rate == None
      ensures forall n :: n != name ==> (n in handlers <==> n in old(handlers))
      ensures forall n :: n != name && n in handlers ==> handlers[n] == old(handlers)[n]
      ensures inside == old(inside) && totalCalls == old(totalCalls) && totalErrors == old(totalErrors)
    {
      handlers := handlers[name := |regs|];
      regs := regs + [Fresh(allow, rate, cap)];
    }

    method ClearUserHandlers()
      modifies this
      ensures State() == Apply(old(State()), Clear)
      ensures forall n :: n in handlers <==> n in old(handlers) && n != "" && n[0] == '_'
      ensures forall n <- handlers :: handlers[n] == old(handlers)[n]
      ensures regs == old(regs) && inside == old(inside)
    {
      var names := handlers.Keys;
      while names != {}
        invariant State() == old(State()).(handlers := handlers)
        invariant forall n <- handlers :: n in old(handlers) && handlers[n] == old(handlers)[n]
        invariant forall n <- old(handlers) :: n in handlers <==> n in names || IsBuiltin(n)
        invariant names <= old(handlers).Keys
        decreases names
      {
        var name :| name in names;
        names := names - {name};
        if !IsBuiltin(name) {
          handlers := handlers - {name};
        }
      }
      assert handlers == Apply(old(State()), Clear).handlers;
    }

    /** `_handle_one` from the parsed request to the start of the dispatch window: no await in between when the call
        is dispatched. */
    method Handle(name: string, caller: nat, now: real) returns (v: Verdict)
      requires name in handlers ==> handlers[name] < |regs|
      modifies this
      ensures State() == Apply(old(State()), Call(name, caller, now))
      ensures v == Judge(old(State()), name, caller, now)
    {
      hide Allows, Consumed, WithSem, Entered, Locked;
      if name !in handlers {
        return NotFound;
      }
      var r := handlers[name];
      var reg := regs[r];
      if reg.allow.Some? && caller !in reg.allow.value {
        return Unauthorized;
      }
      if reg.rate.Some? {
        var limit, width := reg.rate.value.limit, reg.rate.value.windowSecs;
        var allowed := Allows(limit, width, reg.windows, Request(caller, now));
        reg := reg.(windows := Consumed(limit, width, reg.windows, Request(caller, now)));
        regs := regs[r := reg];
        if !allowed {
          return RateLimited;
        }
      }
      SemAside(old(regs)[r], caller, now);
      reg := WithSem(reg);
      regs := regs[r := reg];
      if reg.sem.Some? && Locked(reg.sem.value) {
        return Busy;
      }
      regs := regs[r := Entered(reg)];
      inside := inside[next := r];
      next := next + 1;
      return Dispatched(next - 1);
    }

    /** The end of the dispatch window and the accounting after it. */
    method EndCall(call: nat, ending: Ending, ms: real)
      requires call in inside && inside[call] < |regs|
      modifies this
      ensures State() == Apply(old(State()), Finish(call, ending, ms))
    {
      var r := inside[call];
      inside := inside - {call};
      regs := regs[r := Released(regs[r])];
      if ending.Cancelled? {
        return;
      }
      totalCalls := totalCalls + 1;
      var st := regs[r].stats;
      st := st.(calls := st.calls + 1);
      if !ending.Success? {
        totalErrors := totalErrors + 1;
        st := st.(errors := st.errors + 1);
      }
      st := st.(ring := Push(st.ring, ms));
      regs := regs[r := regs[r].(stats := st)];
    }
  }
}
