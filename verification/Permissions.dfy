/** The grant store with lazy expiry. Grants are identified by their position in the order in
    which they were made. */
module Permissions {
  import opened Domain

  /** What the evaluator answers when no grant matches. */
  function DefaultDecision(scope: CapabilityScope): PermissionState {
    if scope == SystemInformation then NotRequired else Required
  }

  /** The two decisions that let a gated step through. */
  predicate Clears(decision: PermissionState) { decision == Granted || decision == NotRequired }

  /** A grant; no resource or no task means any. */
  datatype Grant = Grant(
    capability: CapabilityScope,
    resource: Option<string>,
    task: Option<string>,
    expiresAt: Option<int>,
    state: PermissionState)

  datatype Request = Request(capability: CapabilityScope, resource: Option<string>, task: Option<string>)

  datatype Decision = Decision(state: PermissionState, grant: Option<nat>)

  predicate Matches(g: Grant, r: Request) {
    && (g.resource == r.resource || g.resource == None)
    && (g.task == r.task || g.task == None)
  }

  predicate Overdue(g: Grant, now: int) { g.expiresAt.Some? && now > g.expiresAt.value }

  /** A duration of zero counts as no duration. */
  function NewGrant(r: Request, duration: Option<int>, now: int): Grant {
    Grant(r.capability, r.resource, r.task,
          if duration.Some? && duration.value != 0 then Some(now + duration.value) else None, Granted)
  }

  /** Looks through the grants from `i` on, marking those found expired on the way. */
  function Scan(grants: seq<Grant>, i: nat, r: Request, now: int): (seq<Grant>, Option<nat>)
    requires i <= |grants|
    decreases |grants| - i
  {
    if i == |grants| then (grants, None)
    else
      var g := grants[i];
      if g.capability == r.capability && g.state == Granted then
        if Overdue(g, now) then Scan(grants[i := g.(state := Expired)], i + 1, r, now)
        else if Matches(g, r) then (grants, Some(i))
        else Scan(grants, i + 1, r, now)
      else Scan(grants, i + 1, r, now)
  }

  function Decide(found: Option<nat>, r: Request): Decision {
    if found.Some? then Decision(Granted, found) else Decision(DefaultDecision(r.capability), None)
  }

  class PermissionEvaluator {
    var grants: seq<Grant>

    constructor ()
      ensures grants == []
    {
      grants := [];
    }

    method AddGrant(r: Request, duration: Option<int>, now: int) returns (id: nat)
      modifies this
      ensures id == |old(grants)| && grants == old(grants) + [NewGrant(r, duration, now)]
    {
      id := |grants|;
      grants := grants + [NewGrant(r, duration, now)];
    }

    method Revoke(id: nat) returns (found: bool)
      modifies this
      ensures found == (id < |old(grants)|)
      ensures grants == if found then old(grants)[id := old(grants)[id].(state := Revoked)] else old(grants)
    {
      if id < |grants| {
        grants := grants[id := grants[id].(state := Revoked)];
        return true;
      }
      return false;
    }

    method IsAuthorized(r: Request, now: int) returns (decision: Decision)
      modifies this
      ensures var (after, found) := Scan(old(grants), 0, r, now);
              grants == after && decision == Decide(found, r)
    {
      var i := 0;
      while i < |grants|
        invariant 0 <= i <= |grants|
        invariant Scan(grants, i, r, now) == Scan(old(grants), 0, r, now)
        decreases |grants| - i
      {
        var g := grants[i];
        if g.capability == r.capability && g.state == Granted {
          if Overdue(g, now) {
            grants := grants[i := g.(state := Expired)];
          } else if Matches(g, r) {
            return Decision(Granted, Some(i));
          }
        }
        i := i + 1;
      }
      return Decision(DefaultDecision(r.capability), None);
    }
  }

  // ---- histories

  datatype Op = Adding(request: Request, duration: Option<int>) | Revoking(id: nat) | Evaluating(request: Request)

  datatype Stamped = Stamped(now: int, op: Op)

  /** What the evaluator holds and has answered after the first `k` operations. */
  datatype Lazy = Lazy(grants: seq<Grant>, answers: seq<Decision>)

  function LazyStep(s: Lazy, e: Stamped): Lazy {
    match e.op
    case Adding(r, duration) => s.(grants := s.grants + [NewGrant(r, duration, e.now)])
    case Revoking(id) =>
      if id < |s.grants| then s.(grants := s.grants[id := s.grants[id].(state := Revoked)]) else s
    case Evaluating(r) =>
      var (after, found) := Scan(s.grants, 0, r, e.now);
      Lazy(after, s.answers + [Decide(found, r)])
  }

  function LazyRun(history: seq<Stamped>): Lazy {
    if history == [] then Lazy([], [])
    else LazyStep(LazyRun(history[..|history| - 1]), history[|history| - 1])
  }

  /** The reference: grants carry no expiry mark; whether one is active is worked out afresh from
      the clock at each evaluation. */
  datatype Eager = Eager(grants: seq<Grant>, answers: seq<Decision>)

  predicate Active(g: Grant, now: int) { g.state == Granted && !Overdue(g, now) }

  predicate Authorizes(g: Grant, r: Request, now: int) {
    g.capability == r.capability && Matches(g, r) && Active(g, now)
  }

  /** The first grant from `i` on that authorizes the request. */
  function FirstAuthorizing(grants: seq<Grant>, i: nat, r: Request, now: int): (found: Option<nat>)
    requires i <= |grants|
    ensures found.Some? <==> exists k :: i <= k < |grants| && Authorizes(grants[k], r, now)
    ensures found.Some? ==> i <= found.value < |grants| && Authorizes(grants[found.value], r, now)
    ensures found.Some? ==> forall k :: i <= k < found.value ==> !Authorizes(grants[k], r, now)
    decreases |grants| - i
  {
    if i == |grants| then None
    else if Authorizes(grants[i], r, now) then Some(i)
    else FirstAuthorizing(grants, i + 1, r, now)
  }

  function EagerStep(s: Eager, e: Stamped): Eager {
    match e.op
    case Adding(r, duration) => s.(grants := s.grants + [NewGrant(r, duration, e.now)])
    case Revoking(id) =>
      if id < |s.grants| then s.(grants := s.grants[id := s.grants[id].(state := Revoked)]) else s
    case Evaluating(r) => s.(answers := s.answers + [Decide(FirstAuthorizing(s.grants, 0, r, e.now), r)])
  }

  function EagerRun(history: seq<Stamped>): Eager {
    if history == [] then Eager([], [])
    else EagerStep(EagerRun(history[..|history| - 1]), history[|history| - 1])
  }

  predicate Monotone(history: seq<Stamped>) {
    forall i, j :: 0 <= i < j < |history| ==> history[i].now <= history[j].now
  }

  /** A lazily kept grant agrees with its eager counterpart at any time from `now` on. */
  predicate Agrees(lazy: Grant, eager: Grant, now: int) {
    || lazy == eager
    || (lazy == eager.(state := Expired) && eager.state == Granted && Overdue(eager, now))
  }

  ghost predicate Refines(lazy: seq<Grant>, eager: seq<Grant>, now: int) {
    && |lazy| == |eager|
    && forall k :: 0 <= k < |lazy| ==> Agrees(lazy[k], eager[k], now) && eager[k].state in {Granted, Revoked}
  }

  lemma {:induction false} ScanRefines(lazy: seq<Grant>, eager: seq<Grant>, i: nat, r: Request, now: int)
    requires i <= |lazy| && Refines(lazy, eager, now)
    ensures var (after, found) := Scan(lazy, i, r, now);
            Refines(after, eager, now) && found == FirstAuthorizing(eager, i, r, now)
    decreases |lazy| - i
  {
    if i < |lazy| {
      var g := lazy[i];
      if g.capability == r.capability && g.state == Granted && Overdue(g, now) {
        ScanRefines(lazy[i := g.(state := Expired)], eager, i + 1, r, now);
      } else if !(g.capability == r.capability && g.state == Granted && Matches(g, r)) {
        ScanRefines(lazy, eager, i + 1, r, now);
      }
    }
  }

  lemma {:induction false} RunRefines(history: seq<Stamped>, now: int)
    requires Monotone(history) && (history != [] ==> history[|history| - 1].now <= now)
    ensures Refines(LazyRun(history).grants, EagerRun(history).grants, now)
    ensures LazyRun(history).answers == EagerRun(history).answers
  {
    if history != [] {
      var last := history[|history| - 1];
      RunRefines(history[..|history| - 1], last.now);
      var lazy, eager := LazyRun(history[..|history| - 1]), EagerRun(history[..|history| - 1]);
      if last.op.Evaluating? {
        ScanRefines(lazy.grants, eager.grants, 0, last.op.request, last.now);
      }
    }
  }

  /** Lazy expiry refines eager expiry: over any history under a monotone clock the evaluator
      gives the reference's answers, each GRANTED exactly when some unrevoked, unexpired grant
      matches the request. */
  lemma LazyExpiryIsExact(history: seq<Stamped>, r: Request, now: int)
    requires Monotone(history + [Stamped(now, Evaluating(r))])
    ensures LazyRun(history).answers == EagerRun(history).answers
    ensures var (_, found) := Scan(LazyRun(history).grants, 0, r, now);
            Decide(found, r).state == Granted <==>
              exists k :: 0 <= k < |EagerRun(history).grants| && Authorizes(EagerRun(history).grants[k], r, now)
  {
    var whole := history + [Stamped(now, Evaluating(r))];
    assert forall i :: 0 <= i < |history| ==> whole[i] == history[i];
    assert history != [] ==> whole[|history| - 1].now <= whole[|history|].now;
    RunRefines(history, now);
    ScanRefines(LazyRun(history).grants, EagerRun(history).grants, 0, r, now);
  }

  lemma {:induction false} GrantsPersist(history: seq<Stamped>, n: nat, id: nat, now: int)
    requires Monotone(history) && n <= |history| && id < |EagerRun(history[..n]).grants|
    requires n > 0 ==> history[n - 1].now <= now
    requires forall j :: n <= j < |history| ==> now <= history[j].now
    ensures id < |EagerRun(history).grants|
    ensures !Active(EagerRun(history[..n]).grants[id], now) ==>
              forall later: int :: now <= later ==> !Active(EagerRun(history).grants[id], later)
    decreases |history| - n
  {
    if n == |history| {
      assert history[..n] == history;
    } else {
      var front := history[..|history| - 1];
      assert front[..n] == history[..n];
      GrantsPersist(front, n, id, now);
    }
  }

  /** A grant that is revoked or expired at some moment is never again the ground of an answer. */
  lemma DeadGrantsStayDead(history: seq<Stamped>, n: nat, id: nat, r: Request, now: int, later: int)
    requires Monotone(history) && n <= |history| && id < |EagerRun(history[..n]).grants|
    requires n > 0 ==> history[n - 1].now <= now
    requires forall j :: n <= j < |history| ==> now <= history[j].now <= later
    requires now <= later
    requires !Active(EagerRun(history[..n]).grants[id], now)
    ensures Scan(LazyRun(history).grants, 0, r, later).1 != Some(id)
  {
    GrantsPersist(history, n, id, now);
    assert history != [] ==> history[|history| - 1].now <= later;
    RunRefines(history, later);
    ScanRefines(LazyRun(history).grants, EagerRun(history).grants, 0, r, later);
  }

  // ---- answers, told from the history

  /** How many grants the first operations made; also the number of the next grant. */
  function Made(history: seq<Stamped>): nat {
    if history == [] then 0
    else Made(history[..|history| - 1]) + if history[|history| - 1].op.Adding? then 1 else 0
  }

  /** The grant made by operation `k` is revoked by a later one. */
  ghost predicate RevokedAfter(history: seq<Stamped>, k: nat)
    requires k < |history|
  {
    exists j :: k < j < |history| && history[j].op == Revoking(Made(history[..k]))
  }

  /** Operation `k` made a grant that covers the request at `now`: the same capability, the same or no
      resource and task, and a duration that has not run out, zero meaning none. */
  predicate Covers(history: seq<Stamped>, k: nat, r: Request, now: int)
    requires k < |history|
  {
    && history[k].op.Adding?
    && var made, duration := history[k].op.request, history[k].op.duration;
       && made.capability == r.capability
       && (made.resource == None || made.resource == r.resource)
       && (made.task == None || made.task == r.task)
       && (duration == None || duration == Some(0) || now <= history[k].now + duration.value)
  }

  /** The grant that operation `k` made, as the reference holds it. */
  ghost predicate HeldAs(g: Grant, history: seq<Stamped>, k: nat)
    requires k < |history| && history[k].op.Adding?
  {
    && (g.state == if RevokedAfter(history, k) then Revoked else Granted)
    && forall r, now :: Authorizes(g, r, now) <==> Covers(history, k, r, now) && !RevokedAfter(history, k)
  }

  lemma NewIsHeld(e: Stamped, history: seq<Stamped>, k: nat)
    requires k < |history| && history[k] == e && e.op.Adding? && !RevokedAfter(history, k)
    ensures HeldAs(NewGrant(e.op.request, e.op.duration, e.now), history, k)
  {}

  lemma RevokedLater(front: seq<Stamped>, e: Stamped, k: nat)
    requires k < |front| && front[k].op.Adding?
    ensures RevokedAfter(front + [e], k) <==> RevokedAfter(front, k) || e.op == Revoking(Made(front[..k]))
  {
    var all := front + [e];
    assert all[..k] == front[..k];
    if RevokedAfter(front, k) {
      var j :| k < j < |front| && front[j].op == Revoking(Made(front[..k]));
      assert all[j] == front[j];
    }
    assert all[|front|] == e;
  }

  lemma {:induction false} MadeGrows(history: seq<Stamped>, k: nat)
    requires k < |history| && history[k].op.Adding?
    ensures Made(history[..k]) < Made(history)
  {
    var front := history[..|history| - 1];
    if k < |front| {
      assert front[..k] == history[..k];
      MadeGrows(front, k);
    } else {
      assert front == history[..k];
    }
  }

  lemma {:induction false} MadeCount(history: seq<Stamped>)
    ensures |EagerRun(history).grants| == Made(history)
  {
    if history != [] {
      MadeCount(history[..|history| - 1]);
    }
  }

  lemma {:induction false} GrantsAreHeld(history: seq<Stamped>, k: nat)
    requires k < |history| && history[k].op.Adding?
    ensures |EagerRun(history).grants| == Made(history) && Made(history[..k]) < Made(history)
    ensures HeldAs(EagerRun(history).grants[Made(history[..k])], history, k)
  {
    var front, e := history[..|history| - 1], history[|history| - 1];
    assert history == front + [e];
    MadeCount(history);
    MadeCount(front);
    MadeGrows(history, k);
    if k == |front| {
      assert history[..k] == front;
      NewIsHeld(e, history, k);
    } else {
      assert front[..k] == history[..k];
      GrantsAreHeld(front, k);
      RevokedLater(front, e, k);
      assert forall r, now :: Covers(front, k, r, now) <==> Covers(history, k, r, now);
    }
  }

  /** Every grant was made by some operation. */
  lemma {:induction false} GrantIsMade(history: seq<Stamped>, id: nat) returns (k: nat)
    requires id < Made(history)
    ensures k < |history| && history[k].op.Adding? && Made(history[..k]) == id
  {
    var front := history[..|history| - 1];
    if id < Made(front) {
      k := GrantIsMade(front, id);
      assert front[..k] == history[..k];
    } else {
      k := |front|;
      assert history[..k] == front;
    }
  }

  /** What the evaluator answers, told from the history alone: GRANTED exactly if some operation made a
      grant that covers the request and no later one revoked it, and then by the first such grant; else
      the scope's default, which asks for a permission unless it only reads system information. */
  lemma AnsweredExactly(history: seq<Stamped>, r: Request, now: int)
    requires Monotone(history + [Stamped(now, Evaluating(r))])
    ensures var answer := Decide(Scan(LazyRun(history).grants, 0, r, now).1, r);
            && (answer.state == Granted <==>
                  exists k :: 0 <= k < |history| && Covers(history, k, r, now) && !RevokedAfter(history, k))
            && (answer.state != Granted ==>
                  answer == Decision(if r.capability == SystemInformation then NotRequired else Required, None))
            && (answer.state == Granted ==>
                  && answer.grant.Some?
                  && forall k :: 0 <= k < |history| && Covers(history, k, r, now) && !RevokedAfter(history, k) ==>
                       answer.grant.value <= Made(history[..k]))
  {
    var whole := history + [Stamped(now, Evaluating(r))];
    assert forall i :: 0 <= i < |history| ==> whole[i] == history[i];
    assert history != [] ==> whole[|history| - 1].now <= whole[|history|].now;
    RunRefines(history, now);
    ScanRefines(LazyRun(history).grants, EagerRun(history).grants, 0, r, now);
    MadeCount(history);
    var grants := EagerRun(history).grants;
    var found := FirstAuthorizing(grants, 0, r, now);
    if found.Some? {
      var k := GrantIsMade(history, found.value);
      GrantsAreHeld(history, k);
      assert Covers(history, k, r, now) && !RevokedAfter(history, k);
    }
    forall k | 0 <= k < |history| && Covers(history, k, r, now) && !RevokedAfter(history, k)
      ensures found.Some? && found.value <= Made(history[..k])
    {
      GrantsAreHeld(history, k);
    }
  }
}
