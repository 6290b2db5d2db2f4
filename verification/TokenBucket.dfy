/**
 The token bucket of apps/web/lib/rate-limit.ts. Tokens are reals (floating-point rounding
 is not modelled); the clock is whole milliseconds and may step backwards.
 */
module TokenBucket {
  import opened Options

  datatype BucketOptions = BucketOptions(capacity: real, refillPerSecond: real)

  datatype State = State(tokens: real, updatedAt: int)

  /** `retryAfterMs` is None for the source's positive infinity. */
  datatype Decision = Decision(allowed: bool, remaining: int, retryAfterMs: Option<int>, limit: real)

  function Max(a: real, b: real): real {
    if a < b then b else a
  }

  function Min(a: real, b: real): real {
    if b < a then b else a
  }

  function Ceil(x: real): int {
    -((-x).Floor)
  }

  function Capacity(o: BucketOptions): real {
    Max(1.0, o.capacity)
  }

  function RefillPerMs(o: BucketOptions): real {
    Max(0.0, o.refillPerSecond) / 1000.0
  }

  /** Milliseconds the clock moved forward; a step back counts as none. */
  function Forward(from: int, to: int): nat {
    if to < from then 0 else to - from
  }

  /** Tokens on hand at `now`, before anything is spent. */
  function Refilled(s: Option<State>, now: int, o: BucketOptions): real {
    match s
    case None => Capacity(o)
    case Some(st) => Min(Capacity(o), st.tokens + Forward(st.updatedAt, now) as real * RefillPerMs(o))
  }

  function TakeToken(s: Option<State>, now: int, o: BucketOptions, cost: real): (r: (Decision, State)) {
    var tokens := Refilled(s, now, o);
    if tokens >= cost then
      var next := tokens - cost;
      (Decision(true, next.Floor, Some(0), Capacity(o)), State(next, now))
    else
      var retry := if RefillPerMs(o) > 0.0 then Some(Ceil((cost - tokens) / RefillPerMs(o))) else None;
      (Decision(false, 0, retry, Capacity(o)), State(tokens, now))
  }

  predicate InBounds(s: Option<State>, o: BucketOptions) {
    s.Some? ==> 0.0 <= s.value.tokens <= Capacity(o)
  }

  datatype Call = Call(now: int, cost: real)

  predicate Billable(calls: seq<Call>) {
    forall i :: 0 <= i < |calls| ==> calls[i].cost >= 0.0
  }

  /** The stored state after serving `calls` in order. */
  function After(s: Option<State>, calls: seq<Call>, o: BucketOptions): Option<State> {
    if calls == [] then s
    else Some(TakeToken(After(s, calls[..|calls| - 1], o), calls[|calls| - 1].now, o, calls[|calls| - 1].cost).1)
  }

  /** Total cost of the calls from `from` on that were let through. */
  function Granted(s: Option<State>, calls: seq<Call>, from: nat, o: BucketOptions): real
    requires from <= |calls|
    decreases |calls|
  {
    if |calls| == from then 0.0
    else
      var init, last := calls[..|calls| - 1], calls[|calls| - 1];
      Granted(s, init, from, o)
      + if TakeToken(After(s, init, o), last.now, o, last.cost).0.allowed then last.cost else 0.0
  }

  /** What was granted grows by the cost of each call let through, and by nothing else. */
  lemma GrantedInTurn(s: Option<State>, calls: seq<Call>, c: Call, from: nat, o: BucketOptions)
    requires from <= |calls|
    ensures Granted(s, [], 0, o) == 0.0 && Granted(s, calls, |calls|, o) == 0.0
    ensures Granted(s, calls + [c], from, o)
            == Granted(s, calls, from, o)
               + if TakeToken(After(s, calls, o), c.now, o, c.cost).0.allowed then c.cost else 0.0
  {
    hide TakeToken, After;
    assert (calls + [c])[..|calls|] == calls;
  }

  /** Forward clock movement across calls `from` to the end, the first one's lead-in excluded. */
  function ForwardTotal(calls: seq<Call>, from: nat): nat
    requires from < |calls|
    decreases |calls|
  {
    if |calls| == from + 1 then 0
    else ForwardTotal(calls[..|calls| - 1], from) + Forward(calls[|calls| - 2].now, calls[|calls| - 1].now)
  }

  lemma RefillNotNegative(o: BucketOptions, ms: nat)
    ensures RefillPerMs(o) >= 0.0 && ms as real * RefillPerMs(o) >= 0.0
  {
  }

  lemma RefilledInBounds(s: Option<State>, now: int, o: BucketOptions)
    requires InBounds(s, o)
    ensures 0.0 <= Refilled(s, now, o) <= Capacity(o)
  {
    if s.Some? {
      RefillNotNegative(o, Forward(s.value.updatedAt, now));
    }
  }

  lemma {:induction false} StaysInBounds(s: Option<State>, calls: seq<Call>, o: BucketOptions)
    requires InBounds(s, o) && Billable(calls)
    ensures InBounds(After(s, calls, o), o)
  {
    if calls != [] {
      var init, last := calls[..|calls| - 1], calls[|calls| - 1];
      StaysInBounds(s, init, o);
      RefilledInBounds(After(s, init, o), last.now, o);
    }
  }

  lemma {:induction false} UpdatedAtLastCall(s: Option<State>, calls: seq<Call>, o: BucketOptions)
    requires calls != []
    ensures After(s, calls, o).Some? && After(s, calls, o).value.updatedAt == calls[|calls| - 1].now
  {
  }

  /** One call turns the refilled tokens into spending and remainder, losing nothing. */
  lemma OneCall(s: Option<State>, c: Call, o: BucketOptions)
    ensures var (d, next) := TakeToken(s, c.now, o, c.cost);
            (if d.allowed then c.cost else 0.0) + next.tokens == Refilled(s, c.now, o)
    ensures s.Some? ==>
              Refilled(s, c.now, o) <= s.value.tokens + Forward(s.value.updatedAt, c.now) as real * RefillPerMs(o)
  {
  }

  /** What was granted plus what is left never exceeds the burst plus what was restored. */
  lemma {:induction false} Conservation(s: Option<State>, calls: seq<Call>, from: nat, o: BucketOptions)
    requires from < |calls| && InBounds(s, o) && Billable(calls)
    ensures Granted(s, calls, from, o) + After(s, calls, o).value.tokens
         <= Capacity(o) + ForwardTotal(calls, from) as real * RefillPerMs(o)
    decreases |calls|
  {
    hide TakeToken, Refilled, RefillPerMs, Capacity, Forward;
    var init, last := calls[..|calls| - 1], calls[|calls| - 1];
    var before := After(s, init, o);
    OneCall(before, last, o);
    if |calls| == from + 1 {
      StaysInBounds(s, init, o);
      RefilledInBounds(before, last.now, o);
      assert Granted(s, init, from, o) == 0.0;
    } else {
      Conservation(s, init, from, o);
      UpdatedAtLastCall(s, init, o);
      Distribute(ForwardTotal(init, from), Forward(calls[|calls| - 2].now, last.now), RefillPerMs(o));
    }
  }

  lemma Distribute(a: nat, b: nat, r: real)
    ensures (a + b) as real * r == a as real * r + b as real * r
  {
  }

  lemma TokensLeft(s: Option<State>, calls: seq<Call>, o: BucketOptions)
    requires calls != [] && InBounds(After(s, calls, o), o)
    ensures After(s, calls, o).Some? && After(s, calls, o).value.tokens >= 0.0
  {
  }

  /**
   Over any stretch of any run, on any clock, the cost let through is at most the capacity plus
   the refill rate times the clock's forward movement, and the tokens stay within the bucket.
   */
  lemma {:induction false} LongRunBound(s: Option<State>, calls: seq<Call>, from: nat, to: nat, o: BucketOptions)
    requires from < to <= |calls| && InBounds(s, o) && Billable(calls)
    ensures Granted(s, calls[..to], from, o) <= Capacity(o) + ForwardTotal(calls[..to], from) as real * RefillPerMs(o)
    ensures InBounds(After(s, calls[..to], o), o)
  {
    hide Granted, After, ForwardTotal, RefillPerMs, Capacity, InBounds;
    Conservation(s, calls[..to], from, o);
    StaysInBounds(s, calls[..to], o);
    TokensLeft(s, calls[..to], o);
  }

  /** On a clock that only moves forward the bound is the elapsed time itself. */
  lemma {:induction false} SteadyClock(calls: seq<Call>, from: nat)
    requires from < |calls|
    requires forall i, j :: from <= i <= j < |calls| ==> calls[i].now <= calls[j].now
    ensures ForwardTotal(calls, from) == calls[|calls| - 1].now - calls[from].now
    decreases |calls|
  {
    if |calls| > from + 1 {
      SteadyClock(calls[..|calls| - 1], from);
    }
  }

  lemma CeilLeast(x: real, t: int)
    ensures t as real >= x <==> t >= Ceil(x)
  {
    assert (-x).Floor as real <= -x < (-x).Floor as real + 1.0;
    if t >= Ceil(x) {
      assert t as real >= Ceil(x) as real;
    } else {
      assert t as real <= Ceil(x) as real - 1.0;
    }
  }

  lemma EnoughAfter(deficit: real, r: real, t: nat)
    requires r > 0.0
    ensures t as real * r >= deficit <==> t as real >= deficit / r
  {
    assert deficit / r * r == deficit;
    if t as real >= deficit / r {
      assert t as real * r >= deficit / r * r;
    } else {
      assert t as real * r < deficit / r * r;
    }
  }

  function AllowedLater(s: State, wait: nat, o: BucketOptions, cost: real): bool {
    TakeToken(Some(s), s.updatedAt + wait, o, cost).0.allowed
  }

  /**
   After a refusal, waiting exactly `retryAfterMs` succeeds and no shorter whole number of
   milliseconds does; for a cost above the capacity no wait ever succeeds.
   */
  lemma RetryAfterIsExact(s: Option<State>, now: int, o: BucketOptions, cost: real, wait: nat)
    requires InBounds(s, o) && RefillPerMs(o) > 0.0
    requires !TakeToken(s, now, o, cost).0.allowed
    ensures var (d, next) := TakeToken(s, now, o, cost);
            && d.retryAfterMs.Some? && d.retryAfterMs.value > 0
            && (AllowedLater(next, wait, o, cost) <==> cost <= Capacity(o) && wait >= d.retryAfterMs.value)
  {
    var tokens := Refilled(s, now, o);
    var deficit, r := cost - tokens, RefillPerMs(o);
    RefilledInBounds(s, now, o);
    EnoughAfter(deficit, r, wait);
    CeilLeast(deficit / r, wait);
    EnoughAfter(deficit, r, 0);
    CeilLeast(deficit / r, 0);
    assert Refilled(Some(State(tokens, now)), now + wait, o) == Min(Capacity(o), tokens + wait as real * r);
  }

  /** The `Retry-After` header: whole seconds, rounded up, at least one. */
  function RetryAfterSeconds(d: Decision): Option<int> {
    if d.allowed || d.retryAfterMs.None? then None
    else
      var s := Ceil(d.retryAfterMs.value as real / 1000.0);
      Some(if s < 1 then 1 else s)
  }

  /** A client that waits the whole seconds of the header is let through. */
  lemma WaitingTheHeaderSucceeds(s: Option<State>, now: int, o: BucketOptions, cost: real)
    requires InBounds(s, o) && RefillPerMs(o) > 0.0 && cost <= Capacity(o)
    requires !TakeToken(s, now, o, cost).0.allowed
    ensures var (d, next) := TakeToken(s, now, o, cost);
            var seconds := RetryAfterSeconds(d);
            seconds.Some? && seconds.value >= 1 && AllowedLater(next, 1000 * seconds.value, o, cost)
  {
    var (d, next) := TakeToken(s, now, o, cost);
    RetryAfterIsExact(s, now, o, cost, 0);
    var ms := d.retryAfterMs.value;
    var seconds := RetryAfterSeconds(d).value;
    CeilLeast(ms as real / 1000.0, seconds);
    assert seconds as real >= ms as real / 1000.0;
    assert 1000 * seconds >= ms;
    RetryAfterIsExact(s, now, o, cost, 1000 * seconds);
  }

  datatype Headers = Headers(limit: real, remaining: int, retryAfter: Option<int>)

  /** The response headers; a refusal without a finite wait has no `Retry-After`. */
  function RateLimitHeaders(d: Decision): Headers {
    Headers(d.limit, if d.remaining < 0 then 0 else d.remaining, RetryAfterSeconds(d))
  }

  /** Of the whole seconds from one on, the header's are the least that succeed; nothing else carries the header. */
  lemma HeaderIsLeast(s: Option<State>, now: int, o: BucketOptions, cost: real, seconds: nat)
    requires InBounds(s, o) && seconds >= 1
    ensures var (d, next) := TakeToken(s, now, o, cost);
            var header := RateLimitHeaders(d).retryAfter;
            && (header.Some? <==> !d.allowed && o.refillPerSecond > 0.0)
            && (header.Some? && cost <= Capacity(o) ==>
                  (AllowedLater(next, 1000 * seconds, o, cost) <==> seconds >= header.value))
  {
    var (d, next) := TakeToken(s, now, o, cost);
    if !d.allowed && o.refillPerSecond > 0.0 {
      RetryAfterIsExact(s, now, o, cost, 1000 * seconds);
      var ms := d.retryAfterMs.value;
      CeilLeast(ms as real / 1000.0, seconds);
      assert seconds as real >= ms as real / 1000.0 <==> 1000 * seconds >= ms;
    }
  }

  /** The other headers: the capacity, at least one, and what remains, never below nought. */
  lemma HeadersAre(s: Option<State>, now: int, o: BucketOptions, cost: real)
    requires InBounds(s, o)
    ensures var (d, next) := TakeToken(s, now, o, cost);
            var headers := RateLimitHeaders(d);
            && headers.limit == (if o.capacity < 1.0 then 1.0 else o.capacity)
            && headers.remaining == (if d.allowed then next.tokens.Floor else 0)
  {
    RefilledInBounds(s, now, o);
  }

  /** What a call finds at hand, by the numbers: at least one token of capacity, no refill for a step back. */
  function AtHand(s: Option<State>, now: int, o: BucketOptions): real {
    var capacity := if o.capacity < 1.0 then 1.0 else o.capacity;
    if s.None? then capacity
    else if now <= s.value.updatedAt || o.refillPerSecond <= 0.0 then
      if s.value.tokens < capacity then s.value.tokens else capacity
    else
      var filled := s.value.tokens + (now - s.value.updatedAt) as real * o.refillPerSecond / 1000.0;
      if filled < capacity then filled else capacity
  }

  lemma RefilledIsAtHand(s: Option<State>, now: int, o: BucketOptions)
    ensures Refilled(s, now, o) == AtHand(s, now, o)
  {
    if s.Some? {
      var t := Forward(s.value.updatedAt, now);
      var r := if o.refillPerSecond < 0.0 then 0.0 else o.refillPerSecond;
      assert t as real * (r / 1000.0) == t as real * r / 1000.0;
    }
  }

  /** The whole answer and the whole new state of a call. */
  lemma TakeTokenIs(s: Option<State>, now: int, o: BucketOptions, cost: real)
    ensures var (d, next) := TakeToken(s, now, o, cost);
            var have := AtHand(s, now, o);
            && (d.allowed <==> have >= cost)
            && next == State(if d.allowed then have - cost else have, now)
            && d.limit == (if o.capacity < 1.0 then 1.0 else o.capacity)
            && (d.allowed ==> d.remaining as real <= have - cost < d.remaining as real + 1.0)
            && (d.allowed ==> d.retryAfterMs == Some(0))
            && (!d.allowed ==> d.remaining == 0)
            && (!d.allowed ==> (d.retryAfterMs == None <==> o.refillPerSecond <= 0.0))
  {
    RefilledIsAtHand(s, now, o);
    hide AtHand, Refilled;
  }

  /** The same single-token call made `k` times at one instant. */
  function Units(now: int, k: nat): seq<Call> {
    if k == 0 then [] else Units(now, k - 1) + [Call(now, 1.0)]
  }

  lemma {:induction false} SpentOneByOne(st: State, o: BucketOptions, k: nat)
    requires InBounds(Some(st), o) && k as real <= st.tokens
    ensures After(Some(st), Units(st.updatedAt, k), o) == Some(State(st.tokens - k as real, st.updatedAt))
    decreases k
  {
    if k > 0 {
      SpentOneByOne(st, o, k - 1);
      UnitsLast(st.updatedAt, k);
      AfterOneMore(Some(st), Units(st.updatedAt, k - 1), Call(st.updatedAt, 1.0), o);
      hide After, Units, InBounds;
      SpendOne(st.tokens - (k - 1) as real, st.updatedAt, o);
    }
  }

  lemma UnitsLast(now: int, k: nat)
    requires k > 0
    ensures Units(now, k) == Units(now, k - 1) + [Call(now, 1.0)]
  {
  }

  lemma AfterOneMore(s: Option<State>, calls: seq<Call>, c: Call, o: BucketOptions)
    ensures After(s, calls + [c], o) == Some(TakeToken(After(s, calls, o), c.now, o, c.cost).1)
  {
    hide TakeToken;
    assert (calls + [c])[..|calls|] == calls;
  }

  lemma SpendOne(tokens: real, now: int, o: BucketOptions)
    requires 1.0 <= tokens <= Capacity(o)
    ensures TakeToken(Some(State(tokens, now)), now, o, 1.0).1 == State(tokens - 1.0, now)
  {
    assert Forward(now, now) as real * RefillPerMs(o) == 0.0;
  }

  /**
   `remaining` is how many more single-token calls get through at that instant; after a refusal
   too, exactly when less than one token was left.
   */
  lemma RemainingIsExactIff(s: Option<State>, now: int, o: BucketOptions, cost: real)
    requires InBounds(s, o) && cost >= 0.0
    ensures var (d, next) := TakeToken(s, now, o, cost);
            (d.remaining >= 0 && forall k: nat :: k <= d.remaining ==>
               (TakeToken(After(Some(next), Units(now, k), o), now, o, 1.0).0.allowed <==> k < d.remaining))
            <==> d.allowed || next.tokens < 1.0
  {
    var (d, next) := TakeToken(s, now, o, cost);
    RefilledInBounds(s, now, o);
    hide TakeToken, Refilled, Capacity;
    TakeTokenShape(s, now, o, cost);
    forall k: nat | k <= next.tokens.Floor
      ensures TakeToken(After(Some(next), Units(now, k), o), now, o, 1.0).0.allowed <==> k < next.tokens.Floor
    {
      SpentOneByOne(next, o, k);
      SameInstant(State(next.tokens - k as real, now), o);
    }
    if !d.allowed {
      assert d.remaining == 0;
      assert Units(now, 0) == [];
      SameInstant(next, o);
      assert After(Some(next), Units(now, 0), o) == Some(next);
    }
  }

  lemma TakeTokenShape(s: Option<State>, now: int, o: BucketOptions, cost: real)
    requires InBounds(s, o) && cost >= 0.0
    ensures var (d, next) := TakeToken(s, now, o, cost);
            && next.updatedAt == now && InBounds(Some(next), o)
            && d.remaining == (if d.allowed then next.tokens.Floor else 0)
  {
    RefilledInBounds(s, now, o);
  }

  lemma SameInstant(st: State, o: BucketOptions)
    requires InBounds(Some(st), o)
    ensures TakeToken(Some(st), st.updatedAt, o, 1.0).0.allowed <==> st.tokens >= 1.0
  {
    assert Forward(st.updatedAt, st.updatedAt) as real * RefillPerMs(o) == 0.0;
  }

  /** A balance kept over a refusal refills just as if there had been no call. */
  lemma RefilledTwice(s: Option<State>, now: int, later: int, o: BucketOptions)
    requires s.Some? ==> s.value.updatedAt <= now
    requires now <= later
    ensures Refilled(Some(State(Refilled(s, now, o), now)), later, o) == Refilled(s, later, o)
  {
    RefillNotNegative(o, later - now);
    if s.Some? {
      Distribute(now - s.value.updatedAt, later - now, RefillPerMs(o));
    }
  }

  /**
   A refused call leaves no trace on later balances exactly when the clock had not stepped back,
   or there is no refill to hand out twice, or the bucket is full anyway.
   */
  lemma RefusalLeavesNoTrace(s: State, now: int, o: BucketOptions, cost: real)
    requires InBounds(Some(s), o)
    requires !TakeToken(Some(s), now, o, cost).0.allowed
    ensures (forall later: int :: later >= now ==>
               Refilled(Some(TakeToken(Some(s), now, o, cost).1), later, o) == Refilled(Some(s), later, o))
            <==> now >= s.updatedAt || RefillPerMs(o) == 0.0 || s.tokens == Capacity(o)
  {
    var next := TakeToken(Some(s), now, o, cost).1;
    var r := RefillPerMs(o);
    RefilledInBounds(Some(s), now, o);
    if now >= s.updatedAt {
      forall later: int | later >= now ensures Refilled(Some(next), later, o) == Refilled(Some(s), later, o) {
        RefilledTwice(Some(s), now, later, o);
      }
    } else {
      assert next == State(s.tokens, now) by { assert Forward(s.updatedAt, now) as real * r == 0.0; }
      forall later: int | later >= now && (r == 0.0 || s.tokens == Capacity(o))
        ensures Refilled(Some(next), later, o) == Refilled(Some(s), later, o)
      {
        RefillNotNegative(o, Forward(now, later));
        RefillNotNegative(o, Forward(s.updatedAt, later));
      }
      if r > 0.0 && s.tokens < Capacity(o) {
        assert (s.updatedAt - now) as real * r > 0.0;
        assert Refilled(Some(s), s.updatedAt, o) == s.tokens;
        assert Refilled(Some(next), s.updatedAt, o) > s.tokens;
      }
    }
  }

  /** The same refusal at a clock two seconds back buys a token the bucket would not have had. */
  lemma SteppedBackRefusalBuysToken()
    ensures var o, s := BucketOptions(1.0, 1.0), State(0.0, 2000);
            var (refusal, next) := TakeToken(Some(s), 0, o, 1.0);
            && !refusal.allowed
            && TakeToken(Some(next), 2000, o, 1.0).0.allowed
            && !TakeToken(Some(s), 2000, o, 1.0).0.allowed
  {
  }

  // ----- runs with refused calls left out -----

  /** The clock never moves back, neither within the calls nor from the stored time to the first. */
  predicate Steady(s: Option<State>, calls: seq<Call>) {
    && (forall i, j :: 0 <= i <= j < |calls| ==> calls[i].now <= calls[j].now)
    && (s.Some? ==> forall i :: 0 <= i < |calls| ==> s.value.updatedAt <= calls[i].now)
  }

  function Decisions(s: Option<State>, calls: seq<Call>, o: BucketOptions): (ds: seq<Decision>)
    ensures |ds| == |calls|
  {
    if calls == [] then []
    else
      var init, last := calls[..|calls| - 1], calls[|calls| - 1];
      Decisions(s, init, o) + [TakeToken(After(s, init, o), last.now, o, last.cost).0]
  }

  /** The elements whose flag is set. */
  function Kept<T>(all: seq<T>, keep: seq<bool>): seq<T>
    requires |keep| == |all|
  {
    if all == [] then []
    else Kept(all[..|all| - 1], keep[..|keep| - 1]) + if keep[|keep| - 1] then [all[|all| - 1]] else []
  }

  /** Only refused calls are left out. */
  predicate DropsRefused(s: Option<State>, calls: seq<Call>, keep: seq<bool>, o: BucketOptions)
    decreases |calls|
  {
    && |keep| == |calls|
    && (calls != [] ==>
          var init, last := calls[..|calls| - 1], calls[|calls| - 1];
          && DropsRefused(s, init, keep[..|init|], o)
          && (keep[|init|] || !TakeToken(After(s, init, o), last.now, o, last.cost).0.allowed))
  }

  /** Balances on hand from the last call on. */
  ghost predicate SameBalance(a: Option<State>, b: Option<State>, from: int, o: BucketOptions) {
    forall t: int :: t >= from ==> Refilled(a, t, o) == Refilled(b, t, o)
  }

  lemma SteadyInit(s: Option<State>, calls: seq<Call>)
    requires calls != [] && Steady(s, calls)
    ensures Steady(s, calls[..|calls| - 1])
    ensures var init, last := calls[..|calls| - 1], calls[|calls| - 1];
            && (init != [] ==> init[|init| - 1].now <= last.now)
            && (s.Some? ==> s.value.updatedAt <= last.now)
  {
    var init := calls[..|calls| - 1];
    assert forall i :: 0 <= i < |init| ==> init[i] == calls[i];
  }

  /** One call, met with equal balances, is decided alike and leaves equal balances, kept or, if refused, dropped. */
  lemma EqualBalanceStep(a: Option<State>, b: Option<State>, c: Call, o: BucketOptions)
    requires SameBalance(a, b, c.now, o)
    requires a.Some? ==> a.value.updatedAt <= c.now
    ensures var (d, next) := TakeToken(a, c.now, o, c.cost);
            && TakeToken(b, c.now, o, c.cost) == (d, next)
            && (!d.allowed ==> SameBalance(Some(next), b, c.now, o))
  {
    assert Refilled(a, c.now, o) == Refilled(b, c.now, o);
    var (d, next) := TakeToken(a, c.now, o, c.cost);
    if !d.allowed {
      forall t: int | t >= c.now ensures Refilled(Some(next), t, o) == Refilled(b, t, o) {
        RefilledTwice(a, c.now, t, o);
      }
    }
  }

  lemma LaterBalance(a: Option<State>, b: Option<State>, from: int, later: int, o: BucketOptions)
    requires SameBalance(a, b, from, o) && from <= later
    ensures SameBalance(a, b, later, o)
  {
  }

  lemma {:induction false} KeptCalls(s: Option<State>, calls: seq<Call>, keep: seq<bool>, o: BucketOptions, from: int)
    requires Steady(s, calls) && DropsRefused(s, calls, keep, o)
    requires calls != [] ==> from == calls[|calls| - 1].now
    ensures Decisions(s, Kept(calls, keep), o) == Kept(Decisions(s, calls, o), keep)
    ensures SameBalance(After(s, calls, o), After(s, Kept(calls, keep), o), from, o)
    decreases |calls|
  {
    hide TakeToken, SameBalance, Steady, Refilled;
    if calls != [] {
      var n := |calls| - 1;
      var init, last := calls[..n], calls[n];
      SteadyInit(s, calls);
      var before := if init == [] then from else init[n - 1].now;
      KeptCalls(s, init, keep[..n], o, before);
      var a, b := After(s, init, o), After(s, Kept(init, keep[..n]), o);
      LaterBalance(a, b, before, last.now, o);
      if init != [] {
        UpdatedAtLastCall(s, init, o);
      }
      EqualBalanceStep(a, b, last, o);
      var d := TakeToken(a, last.now, o, last.cost).0;
      assert Decisions(s, calls, o)[..n] == Decisions(s, init, o);
      if keep[n] {
        assert (Kept(init, keep[..n]) + [last])[..|Kept(init, keep[..n])|] == Kept(init, keep[..n]);
        SelfBalance(After(s, calls, o), last.now, o);
      } else {
        assert Kept(calls, keep) == Kept(init, keep[..n]);
        assert Kept(Decisions(s, calls, o), keep) == Kept(Decisions(s, init, o), keep[..n]);
      }
    } else {
      SelfBalance(s, from, o);
    }
  }

  lemma SelfBalance(s: Option<State>, from: int, o: BucketOptions)
    ensures SameBalance(s, s, from, o)
  {
  }

  /**
   On a clock that never steps back, leaving any of its refused calls out of a run changes no
   decision on the others, allowed or refused, and no later balance.
   */
  lemma RefusedCallsLeaveNoTrace(s: Option<State>, calls: seq<Call>, keep: seq<bool>, o: BucketOptions, later: int)
    requires Steady(s, calls) && DropsRefused(s, calls, keep, o)
    requires calls != [] ==> later >= calls[|calls| - 1].now
    ensures |keep| == |calls|
    ensures Decisions(s, Kept(calls, keep), o) == Kept(Decisions(s, calls, o), keep)
    ensures Refilled(After(s, calls, o), later, o) == Refilled(After(s, Kept(calls, keep), o), later, o)
  {
    hide Decisions, After, Kept, Steady, Refilled;
    var from := if calls == [] then later else calls[|calls| - 1].now;
    KeptCalls(s, calls, keep, o, from);
  }
}
