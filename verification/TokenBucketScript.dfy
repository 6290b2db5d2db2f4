/**
 The Redis form of the token bucket (TOKEN_BUCKET_SCRIPT in apps/web/lib/rate-limit.ts): the
 same arithmetic on a key that expires, run on the server's clock while the script is told
 the caller's. Two hosts' clocks need not agree.
 */
module TokenBucketScript {
  import opened Options
  import opened TokenBucket

  datatype Entry = Entry(state: State, expiresAt: int)

  /** `retryAfterMs` is -1 when no refill is configured. */
  datatype Reply = Reply(allowed: bool, remaining: int, retryAfterMs: int)

  function ScriptRefillPerMs(o: BucketOptions): real {
    o.refillPerSecond / 1000.0
  }

  function ScriptTokens(seen: Option<State>, now: int, o: BucketOptions): real {
    match seen
    case None => o.capacity
    case Some(st) => Min(o.capacity, st.tokens + Forward(st.updatedAt, now) as real * ScriptRefillPerMs(o))
  }

  function Script(seen: Option<State>, now: int, o: BucketOptions, cost: real): (Reply, State) {
    var tokens := ScriptTokens(seen, now, o);
    var perMs := ScriptRefillPerMs(o);
    if tokens >= cost then
      (Reply(true, (tokens - cost).Floor, 0), State(tokens - cost, now))
    else
      var retry := if perMs > 0.0 then Ceil((cost - tokens) / perMs) else -1;
      (Reply(false, tokens.Floor, retry), State(tokens, now))
  }

  function Ttl(o: BucketOptions): int {
    var perMs := ScriptRefillPerMs(o);
    if perMs > 0.0 then Ceil(o.capacity / perMs) + 1000 else 1000
  }

  /** The decision the limiter builds from the script's reply. */
  function FromReply(r: Reply, o: BucketOptions): Decision {
    Decision(r.allowed, r.remaining, if r.retryAfterMs < 0 then None else Some(r.retryAfterMs), o.capacity)
  }

  /**
   What a call finds under the key. A key may be gone once the server's clock reaches its
   expiry; `dropped` says whether it already is.
   */
  function Seen(e: Option<Entry>, serverNow: int, dropped: bool): Option<State> {
    if e.None? || (dropped && serverNow >= e.value.expiresAt) then None else Some(e.value.state)
  }

  /** A key is found as stored until it has expired and been dropped. */
  lemma SeenIs(e: Option<Entry>, serverNow: int, dropped: bool)
    ensures e == None ==> Seen(e, serverNow, dropped) == None
    ensures e != None && (!dropped || serverNow < e.value.expiresAt) ==>
              Seen(e, serverNow, dropped) == Some(e.value.state)
    ensures e != None && dropped && serverNow >= e.value.expiresAt ==> Seen(e, serverNow, dropped) == None
  {
  }

  class RedisBucket {
    var entry: Option<Entry>

    constructor ()
      ensures entry == None
    {
      entry := None;
    }

    /** One EVAL: read the hash, refill, spend, write it back and set its expiry. */
    method Eval(o: BucketOptions, now: int, cost: real, serverNow: int, dropped: bool) returns (reply: Reply)
      modifies this
      ensures var (r, next) := Script(Seen(old(entry), serverNow, dropped), now, o, cost);
              reply == r && entry == Some(Entry(next, serverNow + Ttl(o)))
    {
      hide Ceil;
      var perMs := ScriptRefillPerMs(o);
      var tokens := o.capacity;
      var stored := Seen(entry, serverNow, dropped);
      if stored.Some? {
        tokens := stored.value.tokens;
        var elapsed := now - stored.value.updatedAt;
        if elapsed < 0 {
          elapsed := 0;
        }
        assert elapsed == Forward(stored.value.updatedAt, now);
        tokens := Min(o.capacity, tokens + elapsed as real * perMs);
      }
      assert tokens == ScriptTokens(stored, now, o);
      hide ScriptTokens, Forward;
      var allowed := false;
      var retryAfterMs := 0;
      if tokens >= cost {
        tokens := tokens - cost;
        allowed := true;
      } else {
        if perMs > 0.0 {
          retryAfterMs := Ceil((cost - tokens) / perMs);
        } else {
          retryAfterMs := -1;
        }
      }
      var ttl := 1000;
      if perMs > 0.0 {
        ttl := Ceil(o.capacity / perMs) + 1000;
      }
      entry := Some(Entry(State(tokens, now), serverNow + ttl));
      reply := Reply(allowed, tokens.Floor, retryAfterMs);
    }
  }

  /** What the script finds at hand, by the numbers; unlike the pure step it takes the settings as they are. */
  function ScriptAtHand(seen: Option<State>, now: int, o: BucketOptions): real {
    if seen.None? then o.capacity
    else
      var elapsed := if now < seen.value.updatedAt then 0 else now - seen.value.updatedAt;
      var filled := seen.value.tokens + elapsed as real * o.refillPerSecond / 1000.0;
      if filled < o.capacity then filled else o.capacity
  }

  /** The whole reply, the whole stored state and the time to live. */
  lemma ScriptIs(seen: Option<State>, now: int, o: BucketOptions, cost: real)
    ensures var (r, next) := Script(seen, now, o, cost);
            var have := ScriptAtHand(seen, now, o);
            && (r.allowed <==> have >= cost)
            && next == State(if r.allowed then have - cost else have, now)
            && r.remaining as real <= next.tokens < r.remaining as real + 1.0
            && (r.allowed ==> r.retryAfterMs == 0)
            && (!r.allowed && o.refillPerSecond <= 0.0 ==> r.retryAfterMs == -1)
            && (!r.allowed && o.refillPerSecond > 0.0 ==>
                  var wait := (cost - have) * 1000.0 / o.refillPerSecond;
                  r.retryAfterMs as real - 1.0 < wait <= r.retryAfterMs as real)
    ensures o.refillPerSecond <= 0.0 ==> Ttl(o) == 1000
    ensures o.refillPerSecond > 0.0 ==>
              var full := o.capacity * 1000.0 / o.refillPerSecond;
              (Ttl(o) - 1000) as real - 1.0 < full <= (Ttl(o) - 1000) as real
  {
    ScriptTokensAtHand(seen, now, o);
    hide ScriptTokens, ScriptAtHand, Ceil;
    if o.refillPerSecond > 0.0 {
      RoundedUp(cost - ScriptAtHand(seen, now, o), o);
      RoundedUp(o.capacity, o);
    }
  }

  lemma ScriptTokensAtHand(seen: Option<State>, now: int, o: BucketOptions)
    ensures ScriptTokens(seen, now, o) == ScriptAtHand(seen, now, o)
  {
    if seen.Some? {
      var t := Forward(seen.value.updatedAt, now);
      assert t as real * (o.refillPerSecond / 1000.0) == t as real * o.refillPerSecond / 1000.0;
    }
  }

  lemma RoundedUp(x: real, o: BucketOptions)
    requires o.refillPerSecond > 0.0
    ensures ScriptRefillPerMs(o) > 0.0
    ensures var t := Ceil(x / ScriptRefillPerMs(o));
            t as real - 1.0 < x * 1000.0 / o.refillPerSecond <= t as real
  {
    PerSecond(x, o.refillPerSecond);
    CeilWithin(x / ScriptRefillPerMs(o));
    hide Ceil;
  }

  lemma PerSecond(x: real, r: real)
    requires r > 0.0
    ensures x / (r / 1000.0) == x * 1000.0 / r
  {
    assert x / (r / 1000.0) * (r / 1000.0) == x;
  }

  lemma CeilWithin(x: real)
    ensures Ceil(x) as real - 1.0 < x <= Ceil(x) as real
  {
  }

  /** The decision made of a reply says the same, and no refill shows as no finite wait. */
  lemma FromReplyIs(seen: Option<State>, now: int, o: BucketOptions, cost: real)
    ensures var r := Script(seen, now, o, cost).0;
            var d := FromReply(r, o);
            && d.allowed == r.allowed && d.remaining == r.remaining && d.limit == o.capacity
            && (d.retryAfterMs == None <==> !r.allowed && o.refillPerSecond <= 0.0)
            && (d.retryAfterMs.Some? ==> d.retryAfterMs.value == r.retryAfterMs)
  {
    ScriptIs(seen, now, o, cost);
    hide Script, Ttl, ScriptAtHand;
    var have := ScriptAtHand(seen, now, o);
    if have < cost && o.refillPerSecond > 0.0 {
      assert (cost - have) * 1000.0 / o.refillPerSecond > 0.0;
    }
  }

  /** The settings under which the two forms are meant to agree. */
  predicate Refillable(o: BucketOptions) {
    o.capacity >= 1.0 && o.refillPerSecond > 0.0
  }

  /** With the same stored state the script and the pure step spend the same tokens. */
  lemma SameStep(s: Option<State>, now: int, o: BucketOptions, cost: real)
    requires Refillable(o) && InBounds(s, o)
    ensures var (d, next) := TakeToken(s, now, o, cost);
            var (r, next') := Script(s, now, o, cost);
            && next == next' && r.allowed == d.allowed && FromReply(r, o).retryAfterMs == d.retryAfterMs
            && (FromReply(r, o).remaining == d.remaining <==> d.allowed || next.tokens < 1.0)
  {
    RefilledInBounds(s, now, o);
    var tokens := Refilled(s, now, o);
    assert ScriptRefillPerMs(o) == RefillPerMs(o);
    assert ScriptTokens(s, now, o) == tokens;
    if tokens < cost {
      EnoughAfter(cost - tokens, RefillPerMs(o), 0);
      CeilLeast((cost - tokens) / RefillPerMs(o), 0);
    }
  }

  /** An expired key would have refilled to the brim, so forgetting it changes nothing. */
  lemma ExpiredMeansFull(st: State, now: int, o: BucketOptions)
    requires Refillable(o) && InBounds(Some(st), o)
    requires now - st.updatedAt >= Ttl(o) - 1000
    ensures Refilled(Some(st), now, o) == Capacity(o)
  {
    var r := RefillPerMs(o);
    var full := Ceil(o.capacity / r);
    CeilLeast(o.capacity / r, full);
    EnoughAfter(o.capacity, r, 0);
    CeilLeast(o.capacity / r, 0);
    assert full >= 0;
    var elapsed := Forward(st.updatedAt, now);
    CeilLeast(o.capacity / r, elapsed);
    EnoughAfter(o.capacity, r, elapsed);
  }

  /** A call as the caller's clock and as the server's clock see it. */
  datatype Stamp = Stamp(now: int, serverNow: int, dropped: bool)

  /** Between two calls the server's clock gains at most `drift` milliseconds on the caller's. */
  predicate Within(a: Stamp, b: Stamp, drift: int) {
    (b.serverNow - a.serverNow) - (b.now - a.now) <= drift
  }

  ghost predicate ClocksAgree(calls: seq<Stamp>, drift: int) {
    forall i :: 0 < i < |calls| ==> Within(calls[i - 1], calls[i], drift)
  }

  function PureRun(calls: seq<Stamp>, o: BucketOptions, cost: real): (seq<Decision>, Option<State>) {
    if calls == [] then ([], None)
    else
      var last := calls[|calls| - 1];
      var (ds, s) := PureRun(calls[..|calls| - 1], o, cost);
      var (d, next) := TakeToken(s, last.now, o, cost);
      (ds + [d], Some(next))
  }

  function ScriptRun(calls: seq<Stamp>, o: BucketOptions, cost: real): (seq<Decision>, Option<Entry>) {
    if calls == [] then ([], None)
    else
      var last := calls[|calls| - 1];
      var (ds, e) := ScriptRun(calls[..|calls| - 1], o, cost);
      var (r, next) := Script(Seen(e, last.serverNow, last.dropped), last.now, o, cost);
      (ds + [FromReply(r, o)], Some(Entry(next, last.serverNow + Ttl(o))))
  }

  ghost predicate InStep(calls: seq<Stamp>, o: BucketOptions) {
    var (ds, s) := PureRun(calls, o, 1.0);
    var (ds', e) := ScriptRun(calls, o, 1.0);
    && ds == ds' && InBounds(s, o)
    && (calls == [] ==> s == None && e == None)
    && (calls != [] ==>
          var last := calls[|calls| - 1];
          s.Some? && e == Some(Entry(s.value, last.serverNow + Ttl(o))) && s.value.updatedAt == last.now)
  }

  lemma OneMoreCall(s: Option<State>, e: Option<Entry>, c: Stamp, o: BucketOptions)
    requires Refillable(o) && InBounds(s, o)
    requires s.None? ==> e.None?
    requires s.Some? ==> e.Some? && e.value.state == s.value
    requires s.Some? && c.dropped && c.serverNow >= e.value.expiresAt ==> c.now - s.value.updatedAt >= Ttl(o) - 1000
    ensures var (d, next) := TakeToken(s, c.now, o, 1.0);
            var (r, next') := Script(Seen(e, c.serverNow, c.dropped), c.now, o, 1.0);
            next == next' && d == FromReply(r, o) && InBounds(Some(next), o)
  {
    var seen := Seen(e, c.serverNow, c.dropped);
    RefilledInBounds(s, c.now, o);
    if seen.None? && s.Some? {
      ExpiredMeansFull(s.value, c.now, o);
    }
    assert Refilled(seen, c.now, o) == Refilled(s, c.now, o);
    SameStep(seen, c.now, o, 1.0);
  }

  /**
   The expiring script makes the decisions of the never-expiring bucket, call for call, and
   stores the same tokens, as long as the two clocks drift by no more than a second.
   */
  lemma {:induction false} ScriptRefinesBucket(calls: seq<Stamp>, o: BucketOptions)
    requires Refillable(o) && ClocksAgree(calls, 1000)
    ensures InStep(calls, o)
  {
    if calls != [] {
      var init, last := calls[..|calls| - 1], calls[|calls| - 1];
      assert ClocksAgree(init, 1000) by {
        forall i | 0 < i < |init| ensures Within(init[i - 1], init[i], 1000) {
          assert Within(calls[i - 1], calls[i], 1000);
        }
      }
      ScriptRefinesBucket(init, o);
      var (ds, s) := PureRun(init, o, 1.0);
      var (ds', e) := ScriptRun(init, o, 1.0);
      if init != [] {
        assert Within(calls[|calls| - 2], last, 1000);
        assert init[|init| - 1] == calls[|calls| - 2];
      }
      hide Ttl, Script, TakeToken, FromReply;
      OneMoreCall(s, e, last, o);
    }
  }

  /** Two calls on an emptied one-token bucket, the server's clock gaining just over a second in between. */
  function DriftingCalls(o: BucketOptions): seq<Stamp>
    requires o.refillPerSecond > 0.0
  {
    var full := Ceil(o.capacity / ScriptRefillPerMs(o));
    [Stamp(0, 0, false), Stamp(full - 1, full + 1000, true)]
  }

  lemma DriftLetsACallThrough(o: BucketOptions)
    requires o.capacity == 1.0 && o.refillPerSecond > 0.0
    ensures !InStep(DriftingCalls(o), o)
  {
    var calls, p := DriftingCalls(o), ScriptRefillPerMs(o);
    var full := Ceil(1.0 / p);
    assert 1.0 / p > 0.0;
    CeilLeast(1.0 / p, 0);
    CeilLeast(1.0 / p, full - 1);
    EnoughAfter(1.0, p, full - 1);
    assert calls[..1] == [calls[0]] && calls[..1][..0] == [];
    hide Ceil;
    assert PureRun(calls[..1], o, 1.0).1 == Some(State(0.0, 0));
    assert !PureRun(calls, o, 1.0).0[1].allowed;
    assert ScriptRun(calls[..1], o, 1.0).1 == Some(Entry(State(0.0, 0), full + 1000));
    assert ScriptRun(calls, o, 1.0).0[1].allowed;
  }

  /** One second is the most the clocks may drift: with a single token, any more and the two forms part. */
  lemma OneTokenDriftIff(o: BucketOptions, drift: int)
    requires o.capacity == 1.0 && o.refillPerSecond > 0.0
    ensures (forall calls :: ClocksAgree(calls, drift) ==> InStep(calls, o)) <==> drift <= 1000
  {
    if drift <= 1000 {
      forall calls | ClocksAgree(calls, drift) ensures InStep(calls, o) {
        assert ClocksAgree(calls, 1000) by {
          forall i | 0 < i < |calls| ensures Within(calls[i - 1], calls[i], 1000) {
            assert Within(calls[i - 1], calls[i], drift);
          }
        }
        ScriptRefinesBucket(calls, o);
      }
    } else {
      DriftLetsACallThrough(o);
      assert ClocksAgree(DriftingCalls(o), drift) by {
        assert Within(DriftingCalls(o)[0], DriftingCalls(o)[1], drift);
      }
    }
  }

  /**
   Once a key may have expired, finding it gone instead of stored changes no reply and no stored
   state, whatever the call costs, exactly when tokens are being restored or it was full already.
   */
  lemma ForgettingIsHarmlessIff(st: State, o: BucketOptions)
    requires o.capacity >= 1.0 && o.refillPerSecond >= 0.0 && InBounds(Some(st), o)
    ensures (forall now: int, cost: real :: now - st.updatedAt >= Ttl(o) - 1000 ==>
               Script(None, now, o, cost) == Script(Some(st), now, o, cost))
            <==> o.refillPerSecond > 0.0 || st.tokens == o.capacity
  {
    if o.refillPerSecond > 0.0 {
      forall now: int, cost: real | now - st.updatedAt >= Ttl(o) - 1000
        ensures Script(None, now, o, cost) == Script(Some(st), now, o, cost)
      {
        ExpiredMeansFull(st, now, o);
        SameTokens(st, now, o, cost);
      }
    } else {
      assert ScriptRefillPerMs(o) == 0.0;
      forall now: int ensures ScriptTokens(Some(st), now, o) == st.tokens {
      }
      forall now: int, cost: real | st.tokens == o.capacity
        ensures Script(None, now, o, cost) == Script(Some(st), now, o, cost)
      {
        SameTokens(st, now, o, cost);
      }
      if st.tokens < o.capacity {
        assert Script(None, st.updatedAt, o, 0.0).1.tokens == o.capacity;
        assert Script(Some(st), st.updatedAt, o, 0.0).1.tokens == st.tokens;
      }
    }
  }

  /** The script looks at the stored state only through the tokens on hand. */
  lemma SameTokens(st: State, now: int, o: BucketOptions, cost: real)
    requires ScriptTokens(None, now, o) == ScriptTokens(Some(st), now, o)
    ensures Script(None, now, o, cost) == Script(Some(st), now, o, cost)
  {
  }

  /** Without refill a forgotten key starts a new budget: the call after next is let through too. */
  lemma ForgottenBudgetStartsOver()
    ensures var o, st := BucketOptions(2.0, 0.0), State(1.0, 0);
            var (reply, next) := Script(None, 1000, o, 1.0);
            var (kept, stored) := Script(Some(st), 1000, o, 1.0);
            && reply.allowed && kept.allowed
            && Script(Some(next), 1000, o, 1.0).0.allowed && !Script(Some(stored), 1000, o, 1.0).0.allowed
  {
  }

  /** A new key agrees with a new bucket exactly when the capacity is at least one token. */
  lemma FreshKeyAgreesIff(o: BucketOptions, now: int)
    ensures Script(None, now, o, 1.0).0.allowed == TakeToken(None, now, o, 1.0).0.allowed <==> o.capacity >= 1.0
  {
  }
}
