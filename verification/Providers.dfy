/** The provider manager: one request tries the configured providers in order; a provider that
    fails in a retryable way rests for the cooldown. */
module Providers {
  import opened Domain

  datatype Reply = Answers | Retryable | Fatal

  /** What the n-th reading of the clock, or the n-th provider call, returns. */
  datatype Instant = Instant(time: int, reply: Reply)

  type Clock = nat -> Instant

  ghost predicate Monotone(w: Clock) { forall i: nat, j: nat :: i <= j ==> w(i).time <= w(j).time }

  datatype Health = Health(available: bool, failedAt: int, failures: nat, cooldownUntil: int)

  const FRESH := Health(true, 0, 0, 0)

  type Pool = map<string, Health>

  /** One provider call; a retryable failure has ended when its cooldown starts to count. */
  datatype Call = Call(name: string, begun: int, ended: int, reply: Reply)

  datatype Outcome = Response(provider: string) | Raised(provider: string) | Unavailable(last: Option<string>)

  predicate Distinct<T(==)>(s: seq<T>) { forall i, j :: 0 <= i < j < |s| ==> s[i] != s[j] }

  predicate Loaded(names: seq<string>, pool: Pool) { forall k :: 0 <= k < |names| ==> names[k] in pool }

  // ---- specification

  /** The candidate names without their later repetitions. */
  function Dedup(names: seq<string>): seq<string> {
    if names == [] then []
    else
      var front, last := Dedup(names[..|names| - 1]), names[|names| - 1];
      if last in front then front else front + [last]
  }

  /** The providers that may be called now, in order; those whose cooldown is over are made
      available again on the way. */
  function Sift(pool: Pool, order: seq<string>, now: int): (r: (Pool, seq<string>))
    ensures r.0.Keys == pool.Keys && Loaded(r.1, pool)
  {
    if order == [] then (pool, [])
    else
      var (p, names) := Sift(pool, order[..|order| - 1], now);
      var name := order[|order| - 1];
      if name !in p || (!p[name].available && now < p[name].cooldownUntil) then (p, names)
      else (p[name := p[name].(available := true)], names + [name])
  }

  function Unhealthy(h: Health, failedAt: int, until: int): Health {
    Health(false, failedAt, h.failures + 1, until)
  }

  datatype Served = Served(pool: Pool, tick: nat, log: seq<Call>, outcome: Outcome)

  /** Calls the providers in order until one does not fail in a retryable way. */
  function Try(w: Clock, cooldown: int, names: seq<string>, s: Served): Served
    requires Loaded(names, s.pool)
  {
    if names == [] then s
    else if w(s.tick).reply == Retryable then Try(w, cooldown, names[1..], AfterFailure(w, cooldown, names[0], s))
    else AfterReply(w, names[0], s)
  }

  /** An answer and a failure that is not retryable both end the request. */
  function AfterReply(w: Clock, name: string, s: Served): Served {
    var t := s.tick;
    Served(s.pool, t + 2, s.log + [Call(name, w(t).time, w(t + 1).time, w(t).reply)],
           if w(t).reply == Answers then Response(name) else Raised(name))
  }

  function AfterFailure(w: Clock, cooldown: int, name: string, s: Served): Served
    requires name in s.pool
  {
    var t := s.tick;
    Served(s.pool[name := Unhealthy(s.pool[name], w(t + 1).time, w(t + 2).time + cooldown)], t + 3,
           s.log + [Call(name, w(t).time, w(t + 2).time, Retryable)], Unavailable(Some(name)))
  }

  /** The state in which a request starts calling providers, and the providers it may call. */
  function Opened(w: Clock, order: seq<string>, s: Served): (r: (Served, seq<string>))
    ensures Loaded(r.1, r.0.pool)
  {
    var (pool, names) := Sift(s.pool, order, w(s.tick).time);
    (Served(pool, s.tick + 1, s.log, Unavailable(None)), names)
  }

  function Request(w: Clock, cooldown: int, order: seq<string>, s: Served): Served {
    var (start, names) := Opened(w, order, s);
    Try(w, cooldown, names, start)
  }

  /** The state after `n` requests, one after another. */
  function Serve(w: Clock, cooldown: int, order: seq<string>, pool: Pool, n: nat): Served {
    if n == 0 then Served(pool, 0, [], Unavailable(None))
    else Request(w, cooldown, order, Serve(w, cooldown, order, pool, n - 1))
  }

  // ---- the manager

  method ConfiguredOrder(primary: string, fallbacks: seq<string>) returns (order: seq<string>)
    ensures order == Dedup([primary] + fallbacks)
  {
    var names := [primary] + fallbacks;
    order := [];
    for k := 0 to |names|
      invariant order == Dedup(names[..k])
    {
      assert names[..k + 1][..k] == names[..k];
      if names[k] !in order {
        order := order + [names[k]];
      }
    }
    assert names[..|names|] == names;
  }

  class ProviderManager {
    const cooldown: int
    const order: seq<string>
    var health: Pool

    /** `loads` holds the providers that could be initialised. */
    constructor (cooldown: int, order: seq<string>, loads: set<string>)
      ensures this.cooldown == cooldown && this.order == order
      ensures health == map name | name in order && name in loads :: FRESH
    {
      this.cooldown := cooldown;
      this.order := order;
      health := map name | name in order && name in loads :: FRESH;
    }

    method GetEligibleProviders(now: int) returns (eligible: seq<string>)
      modifies this
      ensures (health, eligible) == Sift(old(health), order, now)
    {
      eligible := [];
      for k := 0 to |order|
        invariant (health, eligible) == Sift(old(health), order[..k], now)
      {
        assert order[..k + 1][..k] == order[..k];
        var name := order[k];
        if name !in health {
          continue;
        }
        if !health[name].available {
          if now >= health[name].cooldownUntil {
            health := health[name := health[name].(available := true)];
          } else {
            continue;
          }
        }
        assert health[name := health[name].(available := true)] == health;
        eligible := eligible + [name];
      }
      assert order[..|order|] == order;
    }

    method MarkUnhealthy(name: string, failedAt: int, now: int)
      requires name in health
      modifies this
      ensures health == old(health)[name := Unhealthy(old(health)[name], failedAt, now + cooldown)]
    {
      var h := health[name];
      health := health[name := h.(available := false, failedAt := failedAt, failures := h.failures + 1,
                                  cooldownUntil := now + cooldown)];
    }

    /** `log` lists the calls made so far; `calls` adds this request's. */
    method Generate(w: Clock, tick: nat, log: seq<Call>) returns (next: nat, outcome: Outcome, calls: seq<Call>)
      modifies this
      ensures Served(health, next, calls, outcome)
           == Request(w, cooldown, order, Served(old(health), tick, log, Unavailable(None)))
    {
      var eligible := GetEligibleProviders(w(tick).time);
      if eligible == [] {
        return tick + 1, Unavailable(None), log;
      }
      next, outcome, calls := CallInTurn(w, eligible, tick + 1, log);
    }

    /** Calls one provider in the state `s`; `ended` tells that its reply ends the request. */
    method CallOne(w: Clock, name: string, tick: nat, log: seq<Call>, ghost s: Served)
      returns (next: nat, outcome: Outcome, calls: seq<Call>, ended: bool)
      requires name in health && s.pool == health && s.tick == tick && s.log == log
      modifies this
      ensures ended <==> w(tick).reply != Retryable
      ensures Served(health, next, calls, outcome) == if ended then AfterReply(w, name, s)
              else AfterFailure(w, cooldown, name, s)
    {
      var begun, reply := w(tick).time, w(tick).reply;
      ended := reply != Retryable;
      if ended {
        calls := log + [Call(name, begun, w(tick + 1).time, reply)];
        next, outcome := tick + 2, if reply == Answers then Response(name) else Raised(name);
      } else {
        MarkUnhealthy(name, w(tick + 1).time, w(tick + 2).time);
        calls := log + [Call(name, begun, w(tick + 2).time, Retryable)];
        next, outcome := tick + 3, Unavailable(Some(name));
      }
    }

    method CallInTurn(w: Clock, eligible: seq<string>, tick: nat, log: seq<Call>)
      returns (next: nat, outcome: Outcome, calls: seq<Call>)
      requires Loaded(eligible, health)
      modifies this
      ensures Served(health, next, calls, outcome)
           == Try(w, cooldown, eligible, Served(old(health), tick, log, Unavailable(None)))
    {
      next, outcome, calls := tick, Unavailable(None), log;
      ghost var now := Served(health, next, calls, outcome);
      ghost var all := Try(w, cooldown, eligible, now);
      var k, ended := 0, false;
      assert eligible[0..] == eligible;
      while k < |eligible|
        invariant k <= |eligible| && Loaded(eligible[k..], now.pool)
        invariant now == Served(health, next, calls, outcome)
        invariant Try(w, cooldown, eligible[k..], now) == all
      {
        TryUnfolds(w, cooldown, eligible, k, now);
        next, outcome, calls, ended := CallOne(w, eligible[k], next, calls, now);
        if ended {
          return;
        }
        now := AfterFailure(w, cooldown, eligible[k], now);
        k := k + 1;
      }
    }
  }

  /** Builds the manager from the settings; with nothing loaded there is none. */
  method Configure(primary: string, fallbacks: seq<string>, loads: set<string>, cooldown: int)
    returns (manager: ProviderManager?)
    ensures manager == null <==> forall name :: name in [primary] + fallbacks ==> name !in loads
    ensures manager != null ==>
              && fresh(manager) && manager.cooldown == cooldown && manager.order == Dedup([primary] + fallbacks)
              && manager.health == map name | name in [primary] + fallbacks && name in loads :: FRESH
  {
    var order := ConfiguredOrder(primary, fallbacks);
    DedupMeaning([primary] + fallbacks);
    if forall k :: 0 <= k < |order| ==> order[k] !in loads {
      return null;
    }
    manager := new ProviderManager(cooldown, order, loads);
  }

  lemma TryUnfolds(w: Clock, cooldown: int, names: seq<string>, k: nat, s: Served)
    requires k < |names| && Loaded(names[k..], s.pool)
    ensures names[k] in s.pool && Loaded(names[k + 1..], s.pool)
    ensures Loaded(names[k + 1..], AfterFailure(w, cooldown, names[k], s).pool)
    ensures Try(w, cooldown, names[k..], s)
         == if w(s.tick).reply == Retryable
            then Try(w, cooldown, names[k + 1..], AfterFailure(w, cooldown, names[k], s))
            else AfterReply(w, names[k], s)
  {
    var rest := names[k..];
    assert rest[0] == names[k] && rest[1..] == names[k + 1..];
    var after := names[k + 1..];
    forall i | 0 <= i < |after| ensures after[i] in s.pool {
      assert rest[i + 1] == after[i];
    }
  }

  // ---- what the order is

  lemma {:induction false} DedupMeaning(names: seq<string>)
    ensures var order := Dedup(names);
      && Distinct(order)
      && (forall x :: x in order <==> x in names)
  {
    if names != [] {
      DedupMeaning(names[..|names| - 1]);
      assert names == names[..|names| - 1] + [names[|names| - 1]];
    }
  }

  /** Of two names in the order, the earlier one appeared first among the candidates. */
  lemma {:induction false} DedupOrder(names: seq<string>, i: nat, j: nat)
    requires i < j < |Dedup(names)|
    ensures exists p: nat, q: nat :: p < q < |names| && names[p] == Dedup(names)[i] && names[q] == Dedup(names)[j]
                                     && Dedup(names)[j] !in names[..q] && Dedup(names)[i] !in names[..p]
  {
    var front, last := names[..|names| - 1], names[|names| - 1];
    DedupMeaning(front);
    if j < |Dedup(front)| {
      DedupOrder(front, i, j);
      var p: nat, q: nat :| p < q < |front| && front[p] == Dedup(front)[i] && front[q] == Dedup(front)[j]
                            && Dedup(front)[j] !in front[..q] && Dedup(front)[i] !in front[..p];
      assert names[..q] == front[..q] && names[..p] == front[..p] && names[p] == front[p] && names[q] == front[q];
    } else {
      var x := Dedup(front)[i];
      assert x in front;
      var p := First(front, x);
      assert names[..p] == front[..p] && names[p] == x;
      assert names[..|front|] == front && last !in front;
    }
  }

  lemma {:induction false} First(names: seq<string>, x: string) returns (p: nat)
    requires x in names
    ensures p < |names| && names[p] == x && x !in names[..p]
  {
    if x in names[..|names| - 1] {
      p := First(names[..|names| - 1], x);
      assert names[..|names| - 1][..p] == names[..p];
    } else {
      p := |names| - 1;
    }
  }

  // ---- what one request does

  /** The calls `calls` of one request that might call `names`, and its outcome: the providers
      in order, each at most once; every call but the last failed in a retryable way; the last
      one decides, and only when every provider failed so is the request refused. */
  predicate Answered(names: seq<string>, calls: seq<Call>, outcome: Outcome) {
    && |calls| <= |names|
    && (forall k :: 0 <= k < |calls| ==> calls[k].name == names[k])
    && (forall k :: 0 <= k < |calls| - 1 ==> calls[k].reply == Retryable)
    && if calls == [] then names == [] && outcome == Unavailable(None)
       else
         var last := calls[|calls| - 1];
         match last.reply
         case Answers => outcome == Response(last.name)
         case Fatal => outcome == Raised(last.name)
         case Retryable => |calls| == |names| && outcome == Unavailable(Some(last.name))
  }

  /** The clock during the calls: from `from` on, call by call. */
  predicate Timed(calls: seq<Call>, from: int, until: int) {
    forall k :: 0 <= k < |calls| ==> from <= calls[k].begun <= calls[k].ended <= until
  }

  lemma AnsweredFurther(names: seq<string>, first: Call, rest: seq<Call>, outcome: Outcome)
    requires |names| > 1 && first.name == names[0] && first.reply == Retryable && Answered(names[1..], rest, outcome)
    ensures Answered(names, [first] + rest, outcome)
  {
    var calls := [first] + rest;
    assert names == [names[0]] + names[1..];
    assert rest != [] && calls[|calls| - 1] == rest[|rest| - 1];
    forall k | 0 <= k < |calls| - 1 ensures calls[k].reply == Retryable {
      assert k > 0 ==> calls[k] == rest[k - 1];
    }
  }

  /** What calling `names` from `s` comes to: the log grows by `calls`, and they answer. */
  ghost predicate Told(w: Clock, names: seq<string>, s: Served, r: Served, calls: seq<Call>) {
    && r.pool.Keys == s.pool.Keys && s.tick < r.tick
    && r.log == s.log + calls
    && Answered(names, calls, r.outcome)
    && Timed(calls, w(s.tick).time, w(r.tick).time)
  }

  lemma {:induction false} TryAnswers(w: Clock, cooldown: int, names: seq<string>, s: Served) returns (calls: seq<Call>)
    requires names != [] && Loaded(names, s.pool) && Monotone(w)
    ensures Told(w, names, s, Try(w, cooldown, names, s), calls)
  {
    var t := s.tick;
    assert names[0..] == names;
    TryUnfolds(w, cooldown, names, 0, s);
    assert w(t).time <= w(t + 1).time <= w(t + 2).time <= w(t + 3).time;
    if w(t).reply != Retryable {
      calls := [Call(names[0], w(t).time, w(t + 1).time, w(t).reply)];
    } else {
      var first := Call(names[0], w(t).time, w(t + 2).time, Retryable);
      if |names| == 1 {
        calls := [first];
      } else {
        var next := AfterFailure(w, cooldown, names[0], s);
        var rest := TryAnswers(w, cooldown, names[1..], next);
        calls := [first] + rest;
        FirstThenRest(w, cooldown, names, s, Try(w, cooldown, names[1..], next), rest);
      }
    }
  }

  lemma FirstThenRest(w: Clock, cooldown: int, names: seq<string>, s: Served, r: Served, rest: seq<Call>)
    requires |names| > 1 && names[0] in s.pool && Monotone(w)
    requires Told(w, names[1..], AfterFailure(w, cooldown, names[0], s), r, rest)
    ensures Told(w, names, s, r, [Call(names[0], w(s.tick).time, w(s.tick + 2).time, Retryable)] + rest)
  {
    var t := s.tick;
    var first := Call(names[0], w(t).time, w(t + 2).time, Retryable);
    assert w(t).time <= w(t + 1).time <= w(t + 2).time <= w(t + 3).time <= w(r.tick).time;
    AnsweredFurther(names, first, rest, r.outcome);
    assert (s.log + [first]) + rest == s.log + ([first] + rest);
  }

  // ---- what the health records mean

  /** A retryable failure of the provider is less than a cooldown ago. */
  predicate Cooling(log: seq<Call>, name: string, now: int, cooldown: int) {
    exists i :: 0 <= i < |log| && log[i].name == name && log[i].reply == Retryable && now < log[i].ended + cooldown
  }

  /** The providers a request may call, worked out from nothing but the calls so far. */
  function Willing(order: seq<string>, loaded: set<string>, log: seq<Call>, now: int, cooldown: int): seq<string> {
    if order == [] then []
    else
      var name := order[|order| - 1];
      Willing(order[..|order| - 1], loaded, log, now, cooldown)
      + if name in loaded && !Cooling(log, name, now, cooldown) then [name] else []
  }

  /** The health record of a provider, read at time `now` or later, tells whether it is cooling. */
  predicate Remembers(h: Health, log: seq<Call>, name: string, now: int, cooldown: int) {
    && (!h.available ==> exists i :: 0 <= i < |log| && log[i].name == name && log[i].reply == Retryable
                                     && h.cooldownUntil == log[i].ended + cooldown)
    && forall i :: 0 <= i < |log| && log[i].name == name && log[i].reply == Retryable ==>
         log[i].ended + cooldown <= if h.available then now else h.cooldownUntil
  }

  predicate AllRemember(pool: Pool, log: seq<Call>, now: int, cooldown: int) {
    forall name :: name in pool ==> Remembers(pool[name], log, name, now, cooldown)
  }

  lemma {:induction false} SiftIsWilling(pool: Pool, order: seq<string>, log: seq<Call>, now: int, cooldown: int)
    requires AllRemember(pool, log, now, cooldown)
    ensures var (p, names) := Sift(pool, order, now);
      AllRemember(p, log, now, cooldown) && names == Willing(order, pool.Keys, log, now, cooldown)
  {
    if order != [] {
      SiftIsWilling(pool, order[..|order| - 1], log, now, cooldown);
      var p, name := Sift(pool, order[..|order| - 1], now).0, order[|order| - 1];
      if name in p {
        assert Remembers(p[name], log, name, now, cooldown);
      }
    }
  }

  lemma WaitingKeeps(pool: Pool, log: seq<Call>, now: int, later: int, cooldown: int)
    requires AllRemember(pool, log, now, cooldown) && now <= later
    ensures AllRemember(pool, log, later, cooldown)
  {
    forall name | name in pool ensures Remembers(pool[name], log, name, later, cooldown) {
      assert Remembers(pool[name], log, name, now, cooldown);
    }
  }

  predicate Past(log: seq<Call>, now: int) { forall k :: 0 <= k < |log| ==> log[k].ended <= now }

  /** A call that did not fail in a retryable way changes no record. */
  lemma OtherReplyKeeps(pool: Pool, log: seq<Call>, c: Call, now: int, cooldown: int)
    requires AllRemember(pool, log, now, cooldown) && c.reply != Retryable
    ensures AllRemember(pool, log + [c], now, cooldown)
  {
    forall name | name in pool ensures Remembers(pool[name], log + [c], name, now, cooldown) {
      assert Remembers(pool[name], log, name, now, cooldown);
      if !pool[name].available {
        var i :| 0 <= i < |log| && log[i].name == name && log[i].reply == Retryable
                 && pool[name].cooldownUntil == log[i].ended + cooldown;
        assert (log + [c])[i] == log[i];
      }
    }
  }

  lemma FailureIsRemembered(pool: Pool, log: seq<Call>, c: Call, h: Health, now: int, cooldown: int)
    requires AllRemember(pool, log, now, cooldown) && c.reply == Retryable && Past(log, c.ended)
    requires !h.available && h.cooldownUntil == c.ended + cooldown
    ensures AllRemember(pool[c.name := h], log + [c], now, cooldown)
  {
    var more := log + [c];
    var after := pool[c.name := h];
    forall name | name in after ensures Remembers(after[name], more, name, now, cooldown) {
      if name == c.name {
        assert more[|log|] == c;
      } else {
        assert Remembers(pool[name], log, name, now, cooldown);
        if !pool[name].available {
          var i :| 0 <= i < |log| && log[i].name == name && log[i].reply == Retryable
                   && pool[name].cooldownUntil == log[i].ended + cooldown;
          assert more[i] == log[i];
        }
      }
    }
  }

  /** What holds between the calls, and between requests. */
  ghost predicate Ready(w: Clock, cooldown: int, s: Served) {
    AllRemember(s.pool, s.log, w(s.tick).time, cooldown) && Past(s.log, w(s.tick).time)
  }

  lemma FailureKeepsReady(w: Clock, cooldown: int, name: string, s: Served)
    requires Monotone(w) && Ready(w, cooldown, s) && name in s.pool
    ensures Ready(w, cooldown, AfterFailure(w, cooldown, name, s))
  {
    var t := s.tick;
    assert w(t).time <= w(t + 1).time <= w(t + 2).time <= w(t + 3).time;
    var h := Unhealthy(s.pool[name], w(t + 1).time, w(t + 2).time + cooldown);
    WaitingKeeps(s.pool, s.log, w(t).time, w(t + 3).time, cooldown);
    FailureIsRemembered(s.pool, s.log, Call(name, w(t).time, w(t + 2).time, Retryable), h, w(t + 3).time, cooldown);
  }

  lemma {:induction false} TryRemembers(w: Clock, cooldown: int, names: seq<string>, s: Served)
    requires Loaded(names, s.pool) && Monotone(w) && Ready(w, cooldown, s)
    ensures Ready(w, cooldown, Try(w, cooldown, names, s))
  {
    if names != [] {
      var t := s.tick;
      if w(t).reply == Retryable {
        FailureKeepsReady(w, cooldown, names[0], s);
        TryRemembers(w, cooldown, names[1..], AfterFailure(w, cooldown, names[0], s));
      } else {
        assert w(t).time <= w(t + 1).time <= w(t + 2).time;
        WaitingKeeps(s.pool, s.log, w(t).time, w(t + 2).time, cooldown);
        OtherReplyKeeps(s.pool, s.log, Call(names[0], w(t).time, w(t + 1).time, w(t).reply), w(t + 2).time, cooldown);
      }
    }
  }

  /** One request, told from the calls before it alone: it may call the willing providers, and
      adds to the log calls that answer it. */
  lemma RequestIsAnswered(w: Clock, cooldown: int, order: seq<string>, s: Served) returns (calls: seq<Call>)
    requires Monotone(w) && Ready(w, cooldown, s)
    ensures var r := Request(w, cooldown, order, s);
      && Ready(w, cooldown, r)
      && Told(w, Willing(order, s.pool.Keys, s.log, w(s.tick).time, cooldown), s, r, calls)
  {
    var now := w(s.tick).time;
    SiftIsWilling(s.pool, order, s.log, now, cooldown);
    var (start, names) := Opened(w, order, s);
    assert now <= w(start.tick).time;
    WaitingKeeps(start.pool, s.log, now, w(start.tick).time, cooldown);
    TryRemembers(w, cooldown, names, start);
    if names == [] {
      calls := [];
      assert s.log + [] == s.log;
    } else {
      calls := TryAnswers(w, cooldown, names, start);
    }
  }

  lemma {:induction false} ServeIsReady(w: Clock, cooldown: int, order: seq<string>, loaded: set<string>, n: nat)
    requires Monotone(w)
    ensures var s := Serve(w, cooldown, order, map name | name in loaded :: FRESH, n);
      Ready(w, cooldown, s) && s.pool.Keys == loaded
  {
    if n > 0 {
      ServeIsReady(w, cooldown, order, loaded, n - 1);
      var before := Serve(w, cooldown, order, map name | name in loaded :: FRESH, n - 1);
      var _ := RequestIsAnswered(w, cooldown, order, before);
    }
  }

  /** Over any history of requests, the next one may call exactly the loaded providers with no
      retryable failure within the last cooldown, in the configured order; it calls them one by
      one until one does not fail in a retryable way, and that one decides. */
  lemma EveryRequestIsAnswered(w: Clock, cooldown: int, order: seq<string>, loaded: set<string>, n: nat)
    returns (calls: seq<Call>)
    requires Monotone(w)
    ensures var pool := map name | name in loaded :: FRESH;
      var s, r := Serve(w, cooldown, order, pool, n), Serve(w, cooldown, order, pool, n + 1);
      && r.log == s.log + calls
      && Answered(Willing(order, loaded, s.log, w(s.tick).time, cooldown), calls, r.outcome)
  {
    ServeIsReady(w, cooldown, order, loaded, n);
    calls := RequestIsAnswered(w, cooldown, order, Serve(w, cooldown, order, map name | name in loaded :: FRESH, n));
  }

  // ---- cooldown over whole histories

  lemma {:induction false} WillingFacts(order: seq<string>, loaded: set<string>, log: seq<Call>, now: int,
                                        cooldown: int)
    requires Distinct(order)
    ensures var names := Willing(order, loaded, log, now, cooldown);
      && Distinct(names)
      && forall k :: 0 <= k < |names| ==> names[k] in order && !Cooling(log, names[k], now, cooldown)
  {
    if order != [] {
      var front, last := order[..|order| - 1], order[|order| - 1];
      WillingFacts(front, loaded, log, now, cooldown);
      assert order == front + [last];
      assert last !in front;
    }
  }

  /** No provider is called again within the cooldown after a retryable failure. */
  predicate Rested(log: seq<Call>, cooldown: int) {
    forall i, j :: 0 <= i < j < |log| && log[i].name == log[j].name && log[i].reply == Retryable ==>
      log[i].ended + cooldown <= log[j].begun
  }

  lemma RequestRests(log: seq<Call>, calls: seq<Call>, names: seq<string>, outcome: Outcome, now: int, until: int,
                     cooldown: int)
    requires Rested(log, cooldown) && Distinct(names) && Answered(names, calls, outcome) && Timed(calls, now, until)
    requires forall k :: 0 <= k < |names| ==> !Cooling(log, names[k], now, cooldown)
    ensures Rested(log + calls, cooldown)
  {
    var all := log + calls;
    assert forall a, b :: 0 <= a < b < |calls| ==> calls[a].name != calls[b].name;
    forall i, j | 0 <= i < j < |all| && all[i].name == all[j].name && all[i].reply == Retryable
      ensures all[i].ended + cooldown <= all[j].begun
    {
      if j >= |log| {
        assert all[j] == calls[j - |log|] && calls[j - |log|].name == names[j - |log|];
        if i < |log| {
          assert all[i] == log[i];
          assert !Cooling(log, names[j - |log|], now, cooldown);
        } else {
          assert false;
        }
      } else {
        assert all[i] == log[i] && all[j] == log[j];
      }
    }
  }

  lemma StepRests(w: Clock, cooldown: int, order: seq<string>, s: Served)
    requires Monotone(w) && Ready(w, cooldown, s) && Distinct(order) && Rested(s.log, cooldown)
    ensures Rested(Request(w, cooldown, order, s).log, cooldown)
  {
    var calls := RequestIsAnswered(w, cooldown, order, s);
    var r, now := Request(w, cooldown, order, s), w(s.tick).time;
    WillingFacts(order, s.pool.Keys, s.log, now, cooldown);
    RequestRests(s.log, calls, Willing(order, s.pool.Keys, s.log, now, cooldown), r.outcome, now, w(r.tick).time,
      cooldown);
  }

  lemma {:induction false} CooldownIsKept(w: Clock, cooldown: int, order: seq<string>, loaded: set<string>, n: nat)
    requires Monotone(w) && Distinct(order)
    ensures Rested(Serve(w, cooldown, order, map name | name in loaded :: FRESH, n).log, cooldown)
  {
    if n > 0 {
      CooldownIsKept(w, cooldown, order, loaded, n - 1);
      ServeIsReady(w, cooldown, order, loaded, n - 1);
      StepRests(w, cooldown, order, Serve(w, cooldown, order, map name | name in loaded :: FRESH, n - 1));
    }
  }

  // ---- what the records tell

  /** How many calls to the provider failed in a retryable way. */
  function FailuresOf(log: seq<Call>, name: string): nat {
    if log == [] then 0
    else
      var last := log[|log| - 1];
      FailuresOf(log[..|log| - 1], name) + if last.name == name && last.reply == Retryable then 1 else 0
  }

  /** The record counts the retryable failures of its provider, and tells a moment within the last one. */
  ghost predicate Records(h: Health, log: seq<Call>, name: string) {
    && h.failures == FailuresOf(log, name)
    && (h.failures > 0 ==> exists i :: LastFailure(log, name, i) && log[i].begun <= h.failedAt <= log[i].ended)
  }

  predicate LastFailure(log: seq<Call>, name: string, i: int) {
    && 0 <= i < |log| && log[i].name == name && log[i].reply == Retryable
    && forall j :: i < j < |log| ==> log[j].name != name || log[j].reply != Retryable
  }

  ghost predicate AllRecord(pool: Pool, log: seq<Call>) {
    forall name :: name in pool ==> Records(pool[name], log, name)
  }

  lemma OtherRecords(h: Health, log: seq<Call>, c: Call, name: string)
    requires Records(h, log, name) && (c.name != name || c.reply != Retryable)
    ensures Records(h, log + [c], name)
  {
    var more := log + [c];
    assert more[..|log|] == log;
    if h.failures > 0 {
      var i :| LastFailure(log, name, i) && log[i].begun <= h.failedAt <= log[i].ended;
      assert LastFailure(more, name, i);
    }
  }

  lemma FailureRecords(h: Health, log: seq<Call>, c: Call, failedAt: int, until: int)
    requires Records(h, log, c.name) && c.reply == Retryable && c.begun <= failedAt <= c.ended
    ensures Records(Unhealthy(h, failedAt, until), log + [c], c.name)
  {
    var more := log + [c];
    assert more[..|log|] == log;
    assert LastFailure(more, c.name, |log|);
  }

  lemma {:induction false} SiftRecords(pool: Pool, order: seq<string>, now: int, log: seq<Call>)
    requires AllRecord(pool, log)
    ensures AllRecord(Sift(pool, order, now).0, log)
  {
    if order != [] {
      SiftRecords(pool, order[..|order| - 1], now, log);
      var p, name := Sift(pool, order[..|order| - 1], now).0, order[|order| - 1];
      assert name in p ==> Records(p[name], log, name);
    }
  }

  lemma PoolRecords(pool: Pool, log: seq<Call>, c: Call, h: Health)
    requires AllRecord(pool, log) && Records(h, log + [c], c.name)
    ensures AllRecord(pool[c.name := h], log + [c])
  {
    forall name | name in pool && name != c.name ensures Records(pool[name], log + [c], name) {
      assert Records(pool[name], log, name);
      OtherRecords(pool[name], log, c, name);
    }
  }

  lemma NewRecord(pool: Pool, log: seq<Call>, c: Call, failedAt: int, until: int)
    requires AllRecord(pool, log) && c.name in pool && c.reply == Retryable && c.begun <= failedAt <= c.ended
    ensures AllRecord(pool[c.name := Unhealthy(pool[c.name], failedAt, until)], log + [c])
  {
    assert Records(pool[c.name], log, c.name);
    FailureRecords(pool[c.name], log, c, failedAt, until);
    PoolRecords(pool, log, c, Unhealthy(pool[c.name], failedAt, until));
  }

  lemma FailureKeepsRecords(w: Clock, cooldown: int, name: string, s: Served)
    requires Monotone(w) && AllRecord(s.pool, s.log) && name in s.pool
    ensures AllRecord(AfterFailure(w, cooldown, name, s).pool, AfterFailure(w, cooldown, name, s).log)
  {
    var t := s.tick;
    assert w(t).time <= w(t + 1).time <= w(t + 2).time;
    NewRecord(s.pool, s.log, Call(name, w(t).time, w(t + 2).time, Retryable), w(t + 1).time, w(t + 2).time + cooldown);
  }

  lemma {:induction false} TryRecords(w: Clock, cooldown: int, names: seq<string>, s: Served)
    requires Loaded(names, s.pool) && Monotone(w) && AllRecord(s.pool, s.log)
    ensures AllRecord(Try(w, cooldown, names, s).pool, Try(w, cooldown, names, s).log)
  {
    if names != [] {
      if w(s.tick).reply == Retryable {
        FailureKeepsRecords(w, cooldown, names[0], s);
        TryRecords(w, cooldown, names[1..], AfterFailure(w, cooldown, names[0], s));
      } else {
        var after := AfterReply(w, names[0], s);
        forall name | name in after.pool ensures Records(after.pool[name], after.log, name) {
          assert Records(s.pool[name], s.log, name);
          OtherRecords(s.pool[name], s.log, after.log[|s.log|], name);
        }
      }
    }
  }

  /** Over any history the record of a provider counts its retryable failures, and its failure time lies
      within the last one. */
  lemma {:induction false} FailuresAreCounted(w: Clock, cooldown: int, order: seq<string>, loaded: set<string>, n: nat)
    requires Monotone(w)
    ensures var s := Serve(w, cooldown, order, map name | name in loaded :: FRESH, n);
            AllRecord(s.pool, s.log)
  {
    if n > 0 {
      FailuresAreCounted(w, cooldown, order, loaded, n - 1);
      var s := Serve(w, cooldown, order, map name | name in loaded :: FRESH, n - 1);
      SiftRecords(s.pool, order, w(s.tick).time, s.log);
      var (start, names) := Opened(w, order, s);
      TryRecords(w, cooldown, names, start);
    }
  }
}
