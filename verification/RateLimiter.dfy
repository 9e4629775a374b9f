/** The sliding-window rate limiter of a handler, per caller. Times and the window are reals. */
module RateLimiter {
  import opened Seqs

  // ---- the limiter ----

  /** Timestamps before the cutoff leave at the front. */
  function Prune(window: seq<real>, cutoff: real): (w: seq<real>)
    ensures |w| <= |window|
  {
    if window != [] && window[0] < cutoff then Prune(window[1..], cutoff) else window
  }

  function Window(windows: map<nat, seq<real>>, caller: nat): seq<real> {
    if caller in windows then windows[caller] else []
  }

  datatype Request = Request(caller: nat, now: real)

  class RateLimiter {
    const limit: int
    const windowSecs: real
    var windows: map<nat, seq<real>>

    constructor (limit: int, windowSecs: real)
      ensures this.limit == limit && this.windowSecs == windowSecs && windows == map[]
    {
      this.limit, this.windowSecs := limit, windowSecs;
      windows := map[];
    }

    method Consume(caller: nat, now: real) returns (allowed: bool)
      modifies this
      ensures allowed == Allows(limit, windowSecs, old(windows), Request(caller, now))
      ensures windows == Consumed(limit, windowSecs, old(windows), Request(caller, now))
    {
      var window := if caller in windows then windows[caller] else [];
      var cutoff := now - windowSecs;
      while window != [] && window[0] < cutoff
        invariant Prune(window, cutoff) == Prune(Window(old(windows), caller), cutoff)
        decreases |window|
      {
        window := window[1..];
      }
      allowed := |window| < limit;
      assert window + [] == window;
      if allowed {
        window := window + [now];
      }
      windows := windows[caller := window];
    }
  }

  function Kept(width: real, windows: map<nat, seq<real>>, r: Request): seq<real> {
    Prune(Window(windows, r.caller), r.now - width)
  }

  function Allows(limit: int, width: real, windows: map<nat, seq<real>>, r: Request): bool {
    |Kept(width, windows, r)| < limit
  }

  function Consumed(limit: int, width: real, windows: map<nat, seq<real>>, r: Request): map<nat, seq<real>> {
    windows[r.caller := Kept(width, windows, r) + if Allows(limit, width, windows, r) then [r.now] else []]
  }

  // ---- runs ----

  function After(limit: int, width: real, rs: seq<Request>): map<nat, seq<real>> {
    if rs == [] then map[]
    else Consumed(limit, width, After(limit, width, rs[..|rs| - 1]), rs[|rs| - 1])
  }

  /** Whether the last request of a run is allowed. */
  function LastAllowed(limit: int, width: real, rs: seq<Request>): bool
    requires rs != []
  {
    Allows(limit, width, After(limit, width, rs[..|rs| - 1]), rs[|rs| - 1])
  }

  /** How many requests of `caller` with a time from `low` to `high` a run allowed. */
  function Allowed(limit: int, width: real, rs: seq<Request>, caller: nat, low: real, high: real): nat {
    if rs == [] then 0
    else
      var r := rs[|rs| - 1];
      Allowed(limit, width, rs[..|rs| - 1], caller, low, high) +
      if r.caller == caller && low <= r.now <= high && LastAllowed(limit, width, rs) then 1 else 0
  }

  predicate InOrder(rs: seq<Request>) {
    forall i, j :: 0 <= i < j < |rs| ==> rs[i].now <= rs[j].now
  }

  lemma InOrderInit(rs: seq<Request>)
    requires rs != [] && InOrder(rs)
    ensures InOrder(rs[..|rs| - 1])
    ensures forall r :: r in rs[..|rs| - 1] ==> r.now <= rs[|rs| - 1].now
  {
  }

  // ---- pruning ----

  lemma {:induction false} PruneTwice(w: seq<real>, a: real, b: real)
    requires a <= b
    ensures Prune(Prune(w, a), b) == Prune(w, b)
  {
    if w != [] && w[0] < a {
      PruneTwice(w[1..], a, b);
    }
  }

  lemma {:induction false} PruneSnoc(w: seq<real>, x: real, c: real)
    requires c <= x
    ensures Prune(w + [x], c) == Prune(w, c) + [x]
  {
    if w == [] {
      assert w + [x] == [x];
    } else {
      assert (w + [x])[0] == w[0] && (w + [x])[1..] == w[1..] + [x];
      if w[0] < c {
        PruneSnoc(w[1..], x, c);
      }
    }
  }

  lemma {:induction false} PruneDrops(w: seq<real>, x: real, c: real)
    requires x < c && Prune(w, c) == []
    ensures Prune(w + [x], c) == []
  {
    if w == [] {
      assert w + [x] == [x] && [x][1..] == [];
    } else {
      assert (w + [x])[0] == w[0] && (w + [x])[1..] == w[1..] + [x];
      PruneDrops(w[1..], x, c);
    }
  }

  lemma {:induction false} PruneLate(w: seq<real>, c: real)
    requires forall i :: 0 <= i < |w| ==> w[i] < c
    ensures Prune(w, c) == []
  {
    if w != [] {
      PruneLate(w[1..], c);
    }
  }

  // ---- the window holds the recent allowed calls ----

  lemma {:induction false} PruneKeeps(w: seq<real>, c: real)
    ensures forall t :: t in Prune(w, c) ==> t in w
  {
    if w != [] && w[0] < c {
      PruneKeeps(w[1..], c);
    }
  }

  lemma {:induction false} WindowTimes(limit: int, width: real, rs: seq<Request>, caller: nat, high: real)
    requires forall r :: r in rs ==> r.now <= high
    ensures forall t :: t in Window(After(limit, width, rs), caller) ==> t <= high
  {
    hide Prune;
    if rs != [] {
      var prev, r := rs[..|rs| - 1], rs[|rs| - 1];
      assert r in rs;
      WindowTimes(limit, width, prev, caller, high);
      var w := Window(After(limit, width, prev), caller);
      PruneKeeps(w, r.now - width);
      if r.caller == caller {
        var kept := Prune(w, r.now - width);
        assert forall t :: t in kept ==> t in w;
        assert forall t :: t in kept + [r.now] ==> t in kept || t == r.now;
        assert kept + [] == kept;
      }
    }
  }

  /** However late one looks, the deque keeps exactly as many timestamps as calls were allowed since. */
  lemma {:induction false} WindowIsRecent(limit: int, width: real, rs: seq<Request>, caller: nat, cutoff: real,
      high: real)
    requires InOrder(rs) && (forall r :: r in rs ==> r.now - width <= cutoff && r.now <= high)
    ensures |Prune(Window(After(limit, width, rs), caller), cutoff)| == Allowed(limit, width, rs, caller, cutoff, high)
    decreases |rs|
  {
    hide Prune;
    if rs == [] {
      PruneLate([], cutoff);
    } else {
      var prev, r := rs[..|rs| - 1], rs[|rs| - 1];
      InOrderInit(rs);
      WindowIsRecent(limit, width, prev, caller, cutoff, high);
      if r.caller == caller {
        var w := Window(After(limit, width, prev), caller);
        WindowTimes(limit, width, prev, caller, r.now);
        ConsumedRecent(w, r.now, r.now - width, cutoff);
        assert Prune(w, r.now - width) + [] == Prune(w, r.now - width);
      }
    }
  }

  lemma ConsumedRecent(w: seq<real>, now: real, before: real, cutoff: real)
    requires before <= cutoff && forall t :: t in w ==> t <= now
    ensures Prune(Prune(w, before), cutoff) == Prune(w, cutoff)
    ensures |Prune(Prune(w, before) + [now], cutoff)| == |Prune(w, cutoff)| + if cutoff <= now then 1 else 0
  {
    hide Prune;
    PruneTwice(w, before, cutoff);
    if cutoff <= now {
      PruneSnoc(Prune(w, before), now, cutoff);
    } else {
      assert forall i :: 0 <= i < |w| ==> w[i] in w;
      PruneLate(w, cutoff);
      PruneDrops(Prune(w, before), now, cutoff);
    }
  }

  // ---- what the limiter promises ----

  /** A call is allowed if and only if fewer than `limit` calls of its caller were allowed in the window that ends
      with it. */
  lemma AllowedIff(limit: int, width: real, rs: seq<Request>)
    requires rs != [] && InOrder(rs)
    ensures var r := rs[|rs| - 1];
            LastAllowed(limit, width, rs) <==>
            Allowed(limit, width, rs[..|rs| - 1], r.caller, r.now - width, r.now) < limit
  {
    hide Prune, After, Allowed;
    var prev, r := rs[..|rs| - 1], rs[|rs| - 1];
    InOrderInit(rs);
    WindowIsRecent(limit, width, prev, r.caller, r.now - width, r.now);
  }

  lemma {:induction false} WiderAllows(limit: int, width: real, rs: seq<Request>, caller: nat, low: real, high: real,
      lower: real, last: real)
    requires lower <= low && forall r :: r in rs ==> r.now <= last
    ensures Allowed(limit, width, rs, caller, low, high) <= Allowed(limit, width, rs, caller, lower, last)
  {
    hide LastAllowed;
    if rs != [] {
      assert rs[|rs| - 1] in rs;
      WiderAllows(limit, width, rs[..|rs| - 1], caller, low, high, lower, last);
    }
  }

  /** No closed interval as long as the window holds more than `limit` allowed calls of one caller. */
  lemma {:induction false} WindowBound(limit: int, width: real, rs: seq<Request>, caller: nat, start: real)
    requires InOrder(rs) && limit >= 0
    ensures Allowed(limit, width, rs, caller, start, start + width) <= limit
  {
    hide LastAllowed;
    if rs != [] {
      var prev, r := rs[..|rs| - 1], rs[|rs| - 1];
      InOrderInit(rs);
      WindowBound(limit, width, prev, caller, start);
      AllowedIff(limit, width, rs);
      if r.caller == caller && start <= r.now <= start + width {
        WiderAllows(limit, width, prev, caller, start, start + width, r.now - width, r.now);
      }
    }
  }

  /** No deque grows past the limit, whatever the times. */
  lemma {:induction false} DequeBound(limit: int, width: real, rs: seq<Request>, caller: nat)
    ensures |Window(After(limit, width, rs), caller)| <= if limit >= 0 then limit else 0
  {
    hide Prune;
    if rs != [] {
      var prev, r := rs[..|rs| - 1], rs[|rs| - 1];
      DequeBound(limit, width, prev, caller);
    }
  }

  /** The requests of one caller. */
  function Only(rs: seq<Request>, caller: nat): seq<Request> {
    if rs == [] then []
    else Only(rs[..|rs| - 1], caller) + if rs[|rs| - 1].caller == caller then [rs[|rs| - 1]] else []
  }

  /** Other callers never change the answer: dropping all their requests leaves each of this caller's answers, and
      its deque, as they were. */
  lemma {:induction false} CallersAreIndependent(limit: int, width: real, rs: seq<Request>, caller: nat)
    ensures Window(After(limit, width, rs), caller) == Window(After(limit, width, Only(rs, caller)), caller)
    ensures rs != [] && rs[|rs| - 1].caller == caller ==>
              Only(rs, caller) != [] && LastAllowed(limit, width, rs) == LastAllowed(limit, width, Only(rs, caller))
  {
    hide Prune;
    if rs != [] {
      var prev, r := rs[..|rs| - 1], rs[|rs| - 1];
      CallersAreIndependent(limit, width, prev, caller);
      var own := Only(prev, caller);
      if r.caller == caller {
        assert (own + [r])[..|own|] == own;
      } else {
        assert own + [] == own;
      }
    }
  }
}
