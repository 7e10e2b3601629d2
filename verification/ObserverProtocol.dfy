/** The mutual exclusion between observation cycles and physical actuation, as a state machine
    over the steps its threads take. */
module ObserverProtocol {
  import opened Domain

  type Tid = nat

  /** What a thread is inside of: an actuation scope or an observation cycle. */
  datatype Frame = Scope(settle: int) | Cycle(background: bool)

  /** Where a thread stands between two steps. */
  datatype Pc =
    | Free                        // in its own code, inside its innermost frame if it has one
    | WantsScope(settle: int)     // flag set, waiting for the lock
    | WantsCapture                // waiting for the lock
    | Leaving                     // pause set, innermost scope not yet released
    | Clearing                    // lock released, flag not yet cleared
    | Pausing(duration: int, wait: bool)
    | PauseWaits
    | PauseHolds
    | WorkerWants                 // first check passed, waiting for the lock
    | WorkerHolds                 // lock taken, second check ahead
    | WorkerCleared               // second check passed

  datatype Thread = Thread(frames: seq<Frame>, pc: Pc)

  datatype State = State(
    threads: map<Tid, Thread>,
    owner: Option<Tid>,
    depth: nat,
    acquired: nat,
    released: nat,
    flag: bool,
    pauseUntil: int,
    now: int,
    lastTarget: int)   // exit time plus settle delay of the latest scope exit

  datatype Event =
    | Passes(time: nat)
    | EnterScope(t: Tid, settle: int) | TakeScope(t: Tid) | ScopeTimesOut(t: Tid)
    | SetPause(t: Tid) | ReleaseScope(t: Tid) | ClearFlag(t: Tid)
    | AskCapture(t: Tid) | TakeCapture(t: Tid) | CaptureTimesOut(t: Tid) | EndCycle(t: Tid)
    | AskPause(t: Tid, duration: int, wait: bool) | ExtendPause(t: Tid) | TakePause(t: Tid)
    | PauseTimesOut(t: Tid) | ReleasePause(t: Tid)
    | FirstCheck(t: Tid) | TakeWorker(t: Tid) | WorkerTimesOut(t: Tid) | SecondCheck(t: Tid) | StartCycle(t: Tid)

  function Start(tids: set<Tid>, now: int): State {
    State(map t | t in tids :: Thread([], Free), None, 0, 0, 0, false, now, now, now)
  }

  predicate At(s: State, t: Tid, pc: Pc) { t in s.threads && s.threads[t].pc == pc }

  /** The lock is reentrant: its owner may take it again. */
  predicate CanTake(s: State, t: Tid) { s.owner == None || s.owner == Some(t) }

  function Goto(s: State, t: Tid, pc: Pc): State
    requires t in s.threads
  {
    s.(threads := s.threads[t := s.threads[t].(pc := pc)])
  }

  function Take(s: State, t: Tid): State {
    s.(owner := Some(t), depth := s.depth + 1, acquired := s.acquired + 1)
  }

  function Give(s: State): State
    requires s.depth > 0
  {
    s.(owner := if s.depth == 1 then None else s.owner, depth := s.depth - 1, released := s.released + 1)
  }

  function Push(s: State, t: Tid, f: Frame): State
    requires t in s.threads
  {
    s.(threads := s.threads[t := Thread(s.threads[t].frames + [f], Free)])
  }

  function Pop(s: State, t: Tid, pc: Pc): State
    requires t in s.threads && s.threads[t].frames != []
  {
    s.(threads := s.threads[t := Thread(s.threads[t].frames[..|s.threads[t].frames| - 1], pc)])
  }

  function Innermost(th: Thread): Option<Frame> {
    if th.frames == [] then None else Some(th.frames[|th.frames| - 1])
  }

  predicate Enabled(s: State, e: Event) {
    match e
    case Passes(_) => true
    case EnterScope(t, _) => At(s, t, Free)
    case TakeScope(t) => t in s.threads && s.threads[t].pc.WantsScope? && CanTake(s, t)
    case ScopeTimesOut(t) => t in s.threads && s.threads[t].pc.WantsScope? && !CanTake(s, t)
    case SetPause(t) => At(s, t, Free) && Innermost(s.threads[t]).Some? && Innermost(s.threads[t]).value.Scope?
    case ReleaseScope(t) => At(s, t, Leaving) && s.threads[t].frames != [] && s.depth > 0
    case ClearFlag(t) => At(s, t, Clearing)
    case AskCapture(t) => At(s, t, Free)
    case TakeCapture(t) => At(s, t, WantsCapture) && CanTake(s, t)
    case CaptureTimesOut(t) => At(s, t, WantsCapture) && !CanTake(s, t)
    case EndCycle(t) => At(s, t, Free) && Innermost(s.threads[t]).Some? && Innermost(s.threads[t]).value.Cycle?
      && s.depth > 0
    case AskPause(t, _, _) => At(s, t, Free)
    case ExtendPause(t) => t in s.threads && s.threads[t].pc.Pausing?
    case TakePause(t) => At(s, t, PauseWaits) && CanTake(s, t)
    case PauseTimesOut(t) => At(s, t, PauseWaits) && !CanTake(s, t)
    case ReleasePause(t) => At(s, t, PauseHolds) && s.depth > 0
    case FirstCheck(t) => At(s, t, Free) && s.threads[t].frames == []
    case TakeWorker(t) => At(s, t, WorkerWants) && CanTake(s, t)
    case WorkerTimesOut(t) => At(s, t, WorkerWants) && !CanTake(s, t)
    case SecondCheck(t) => At(s, t, WorkerHolds) && s.depth > 0
    case StartCycle(t) => At(s, t, WorkerCleared)
  }

  function Apply(s: State, e: Event): State
    requires Enabled(s, e)
  {
    match e
    case Passes(time) => s.(now := s.now + time)
    case EnterScope(t, settle) => Goto(s.(flag := true), t, WantsScope(settle))
    case TakeScope(t) => Push(Take(s, t), t, Scope(s.threads[t].pc.settle))
    case ScopeTimesOut(t) => Goto(s.(flag := false), t, Free)
    case SetPause(t) =>
      var target := s.now + Innermost(s.threads[t]).value.settle;
      Goto(s.(pauseUntil := target, lastTarget := target), t, Leaving)
    case ReleaseScope(t) => Pop(Give(s), t, Clearing)
    case ClearFlag(t) => Goto(s.(flag := false), t, Free)
    case AskCapture(t) => Goto(s, t, WantsCapture)
    case TakeCapture(t) => Push(Take(s, t), t, Cycle(false))
    case CaptureTimesOut(t) => Goto(s, t, Free)
    case EndCycle(t) => Pop(Give(s), t, Free)
    case AskPause(t, duration, wait) => Goto(s.(flag := true), t, Pausing(duration, wait))
    case ExtendPause(t) =>
      var target := s.now + s.threads[t].pc.duration;
      Goto(s.(pauseUntil := if target > s.pauseUntil then target else s.pauseUntil), t,
           if s.threads[t].pc.wait then PauseWaits else Clearing)
    case TakePause(t) => Goto(Take(s, t), t, PauseHolds)
    case PauseTimesOut(t) => Goto(s, t, Clearing)
    case ReleasePause(t) => Goto(Give(s), t, Clearing)
    case FirstCheck(t) => if s.pauseUntil - s.now > 0 || s.flag then s else Goto(s, t, WorkerWants)
    case TakeWorker(t) => Goto(Take(s, t), t, WorkerHolds)
    case WorkerTimesOut(t) => Goto(s, t, Free)
    case SecondCheck(t) => if s.flag || s.now < s.pauseUntil then Goto(Give(s), t, Free) else Goto(s, t, WorkerCleared)
    case StartCycle(t) => Push(s, t, Cycle(true))
  }

  // ---- what every reachable state satisfies

  /** How often a thread holds the lock. */
  function Holds(th: Thread): nat {
    |th.frames| + (if th.pc in {PauseHolds, WorkerHolds, WorkerCleared} then 1 else 0)
  }

  ghost predicate LockOk(s: State) {
    && (forall t :: t in s.threads ==> Holds(s.threads[t]) == if s.owner == Some(t) then s.depth else 0)
    && (s.owner.Some? <==> s.depth > 0)
    && (s.owner.Some? ==> s.owner.value in s.threads)
    && s.acquired == s.released + s.depth
  }

  ghost predicate TimeOk(s: State) {
    && s.lastTarget <= s.pauseUntil
    && (forall t :: t in s.threads && s.threads[t].pc == WorkerCleared ==>
       s.lastTarget <= s.now && s.threads[t].frames == [])
    && (forall t :: t in s.threads && s.threads[t].pc in {WorkerWants, WorkerHolds} ==> s.threads[t].frames == [])
    && (forall t :: t in s.threads && s.threads[t].pc == Leaving ==> s.threads[t].frames != [])
  }

  ghost predicate Inv(s: State) { LockOk(s) && TimeOk(s) }

  /** Events that neither take nor give the lock. */
  predicate Quiet(e: Event) {
    !(e.TakeScope? || e.TakeCapture? || e.TakePause? || e.TakeWorker?
      || e.ReleaseScope? || e.EndCycle? || e.ReleasePause? || e.SecondCheck?)
  }

  lemma SameThreads(s: State, e: Event)
    requires Enabled(s, e)
    ensures Apply(s, e).threads.Keys == s.threads.Keys
  {}

  lemma QuietKeepsLock(s: State, e: Event)
    requires Inv(s) && Enabled(s, e) && Quiet(e)
    ensures LockOk(Apply(s, e))
  {}

  lemma LockKept(s: State, e: Event)
    requires Inv(s) && Enabled(s, e)
    ensures LockOk(Apply(s, e))
  {
    if Quiet(e) {
      QuietKeepsLock(s, e);
    }
  }

  lemma QuietKeepsTime(s: State, e: Event)
    requires Inv(s) && Enabled(s, e) && Quiet(e)
    ensures TimeOk(Apply(s, e))
  {}

  lemma GivingKeepsTime(s: State, e: Event)
    requires Inv(s) && Enabled(s, e) && (e.ReleaseScope? || e.EndCycle? || e.ReleasePause? || e.SecondCheck?)
    ensures TimeOk(Apply(s, e))
  {}

  lemma TakingKeepsTime(s: State, e: Event)
    requires Inv(s) && Enabled(s, e) && (e.TakeScope? || e.TakeCapture? || e.TakePause? || e.TakeWorker?)
    ensures TimeOk(Apply(s, e))
  {}

  lemma TimeKept(s: State, e: Event)
    requires Inv(s) && Enabled(s, e)
    ensures TimeOk(Apply(s, e))
  {
    if Quiet(e) {
      QuietKeepsTime(s, e);
    } else if e.ReleaseScope? || e.EndCycle? || e.ReleasePause? || e.SecondCheck? {
      GivingKeepsTime(s, e);
    } else {
      TakingKeepsTime(s, e);
    }
  }

  predicate Chain(states: seq<State>, events: seq<Event>) {
    && |states| == |events| + 1
    && forall i :: 0 <= i < |events| ==> Enabled(states[i], events[i]) && states[i + 1] == Apply(states[i], events[i])
  }

  ghost predicate Run(states: seq<State>, events: seq<Event>) {
    Chain(states, events) && exists tids: set<Tid>, now: int :: states[0] == Start(tids, now)
  }

  /** One more event. */
  lemma Then(first: seq<State>, before: seq<Event>, e: Event) returns (states: seq<State>, events: seq<Event>)
    requires Chain(first, before) && Enabled(first[|before|], e)
    ensures Chain(states, events) && states[0] == first[0]
    ensures events == before + [e] && states[|events|] == Apply(first[|before|], e)
  {
    states, events := first + [Apply(first[|before|], e)], before + [e];
  }

  lemma {:induction false} ReachableOk(states: seq<State>, events: seq<Event>, n: nat)
    requires Run(states, events) && n < |states|
    ensures Inv(states[n])
  {
    if n > 0 {
      ReachableOk(states, events, n - 1);
      LockKept(states[n - 1], events[n - 1]);
      TimeKept(states[n - 1], events[n - 1]);
    }
  }

  predicate Observing(th: Thread) { exists i :: 0 <= i < |th.frames| && th.frames[i].Cycle? }
  predicate Actuating(th: Thread) { exists i :: 0 <= i < |th.frames| && th.frames[i].Scope? }

  /** In every reachable state, whatever the interleaving and the nesting of scopes: no thread
      observes while another actuates; the lock is held exactly as often as it was taken and not
      released, by one thread, and by none once every frame is left. */
  lemma MutualExclusion(states: seq<State>, events: seq<Event>, n: nat)
    requires Run(states, events) && n < |states|
    ensures var s := states[n];
            && (forall a, b :: (a in s.threads && b in s.threads
                                && Observing(s.threads[a]) && Actuating(s.threads[b])) ==> a == b)
            && s.acquired == s.released + s.depth
            && (forall t :: t in s.threads && s.threads[t].frames != [] ==> s.owner == Some(t))
            && ((forall t :: t in s.threads ==> s.threads[t].frames == [] && s.threads[t].pc == Free) ==>
               s.owner == None && s.depth == 0)
  {
    ReachableOk(states, events, n);
  }

  /** No background cycle starts before the latest scope exit plus its settle delay. */
  lemma BackgroundCyclesSettle(states: seq<State>, events: seq<Event>, n: nat)
    requires Run(states, events) && n < |events| && events[n].StartCycle?
    ensures states[n].lastTarget <= states[n].now
  {
    ReachableOk(states, events, n);
  }

  // ---- how long a requested pause lasts

  predicate Requests(e: Event) { e.SetPause? || e.ExtendPause? }

  /** The moment until which an event asks the worker to pause. */
  function Target(s: State, e: Event): int
    requires Requests(e) && Enabled(s, e)
  {
    s.now + (if e.SetPause? then Innermost(s.threads[e.t]).value.settle else s.threads[e.t].pc.duration)
  }

  /** The event asks for a pause up to `moment` at least. */
  predicate AsksFor(s: State, e: Event, moment: int) { Requests(e) && Enabled(s, e) && Target(s, e) >= moment }

  /** A scope exit with a settle delay that ends before `moment`: it overwrites what was asked. */
  predicate Cuts(s: State, e: Event, moment: int) { e.SetPause? && Enabled(s, e) && Target(s, e) < moment }

  lemma PauseAfter(s: State, e: Event, moment: int)
    requires Enabled(s, e)
    ensures Apply(s, e).pauseUntil >= moment <==>
            AsksFor(s, e, moment) || (s.pauseUntil >= moment && !Cuts(s, e, moment))
  {}

  /** What step `k` does to the pause. */
  predicate PauseLaw(states: seq<State>, events: seq<Event>, k: nat, moment: int)
    requires |states| == |events| + 1 && k < |events|
  {
    states[k + 1].pauseUntil >= moment <==>
      AsksFor(states[k], events[k], moment)
      || (states[k].pauseUntil >= moment && !Cuts(states[k], events[k], moment))
  }

  lemma PauseLawHolds(states: seq<State>, events: seq<Event>, k: nat, moment: int)
    requires Chain(states, events) && k < |events|
    ensures PauseLaw(states, events, k, moment)
  {
    PauseAfter(states[k], events[k], moment);
  }

  /** From step `m` on, some event before step `n` asked for a pause up to `moment`, and none
      after it cut it. */
  ghost predicate StillAsked(states: seq<State>, events: seq<Event>, m: nat, n: nat, moment: int)
    requires |states| == |events| + 1 && n < |states|
  {
    exists j :: m <= j < n && AsksFor(states[j], events[j], moment) && Uncut(states, events, j, n, moment)
  }

  ghost predicate Uncut(states: seq<State>, events: seq<Event>, m: nat, n: nat, moment: int)
    requires |states| == |events| + 1 && n < |states|
  {
    forall k :: m < k < n ==> !Cuts(states[k], events[k], moment)
  }

  lemma UncutNext(states: seq<State>, events: seq<Event>, m: nat, n: nat, moment: int)
    requires |states| == |events| + 1 && m < n - 1 < |events|
    ensures Uncut(states, events, m, n, moment)
       <==> Uncut(states, events, m, n - 1, moment) && !Cuts(states[n - 1], events[n - 1], moment)
  {}

  lemma StillAskedNext(states: seq<State>, events: seq<Event>, m: nat, n: nat, moment: int)
    requires |states| == |events| + 1 && m < n < |states|
    ensures StillAsked(states, events, m, n, moment)
       <==> AsksFor(states[n - 1], events[n - 1], moment)
            || (StillAsked(states, events, m, n - 1, moment) && !Cuts(states[n - 1], events[n - 1], moment))
  {
    forall j | m <= j < n - 1
      ensures Uncut(states, events, j, n, moment)
         <==> Uncut(states, events, j, n - 1, moment) && !Cuts(states[n - 1], events[n - 1], moment)
    {
      UncutNext(states, events, j, n, moment);
    }
    assert Uncut(states, events, n - 1, n, moment);
  }

  lemma {:induction false} PauseWhileAsked(states: seq<State>, events: seq<Event>, m: nat, n: nat, moment: int)
    requires |states| == |events| + 1 && m < n < |states| && AsksFor(states[m], events[m], moment)
    requires forall k :: 0 <= k < |events| ==> PauseLaw(states, events, k, moment)
    ensures states[n].pauseUntil >= moment <==> StillAsked(states, events, m, n, moment)
  {
    StillAskedNext(states, events, m, n, moment);
    assert PauseLaw(states, events, n - 1, moment);
    if m < n - 1 {
      PauseWhileAsked(states, events, m, n - 1, moment);
    }
  }

  /** A pause requested at step `m` is still in force at step `n` exactly when, of the scope exits
      since, none that asked for less came after the last request that asked for as much. */
  lemma PauseHonouredExactly(states: seq<State>, events: seq<Event>, m: nat, n: nat)
    requires Run(states, events) && m < n < |states| && events[m].ExtendPause?
    ensures var moment := Target(states[m], events[m]);
            states[n].pauseUntil >= moment <==> StillAsked(states, events, m, n, moment)
  {
    var moment := Target(states[m], events[m]);
    forall k | 0 <= k < |events| ensures PauseLaw(states, events, k, moment) {
      PauseLawHolds(states, events, k, moment);
    }
    PauseWhileAsked(states, events, m, n, moment);
  }

  /** While it is in force no worker passes its second check before the requested moment. */
  lemma PauseHoldsWorkers(states: seq<State>, events: seq<Event>, m: nat, n: nat)
    requires Run(states, events) && m < n < |events| && events[m].ExtendPause? && events[n].SecondCheck?
    requires StillAsked(states, events, m, n, Target(states[m], events[m]))
    ensures At(states[n + 1], events[n].t, WorkerCleared) ==> Target(states[m], events[m]) <= states[n].now
  {
    PauseHonouredExactly(states, events, m, n);
  }

  /** A thread between two activities. */
  predicate Resting(s: State, t: Tid) { t in s.threads && s.threads[t] == Thread([], Free) }

  lemma ScopeEntered(s: State, t: Tid) returns (states: seq<State>, events: seq<Event>)
    requires Resting(s, t) && s.owner == None && s.depth == 0
    ensures Chain(states, events) && states[0] == s && events == [EnterScope(t, 0), TakeScope(t)]
    ensures states[|events|] == Take(s, t).(flag := true, threads := s.threads[t := Thread([Scope(0)], Free)])
  {
    states, events := Then([s], [], EnterScope(t, 0));
    states, events := Then(states, events, TakeScope(t));
    assert states[|events|].threads[t].frames == [Scope(0)];
    assert states[|events|].threads == s.threads[t := Thread([Scope(0)], Free)];
  }

  lemma ScopeLeft(s: State, t: Tid) returns (states: seq<State>, events: seq<Event>)
    requires Resting(s, t) && s.owner == None && s.depth == 0
    ensures Chain(states, events) && states[0] == s
    ensures events == [EnterScope(t, 0), TakeScope(t), SetPause(t), ReleaseScope(t), ClearFlag(t)]
    ensures var left := states[|events|];
            && !left.flag && left.pauseUntil == left.now == s.now && left.owner == None && left.depth == 0
            && forall o :: o != t && Resting(s, o) ==> Resting(left, o)
  {
    states, events := ScopeEntered(s, t);
    states, events := Then(states, events, SetPause(t));
    states, events := Then(states, events, ReleaseScope(t));
    states, events := Then(states, events, ClearFlag(t));
  }

  lemma WorkerStarts(first: seq<State>, before: seq<Event>, w: Tid) returns (states: seq<State>, events: seq<Event>)
    requires Chain(first, before)
    requires var s := first[|before|];
             Resting(s, w) && s.owner == None && s.depth == 0 && !s.flag && s.pauseUntil <= s.now
    ensures Chain(states, events) && states[0] == first[0]
    ensures events == before + [FirstCheck(w), TakeWorker(w), SecondCheck(w), StartCycle(w)]
    ensures var seen := states[|events|];
            seen.now == first[|before|].now && w in seen.threads && Observing(seen.threads[w])
  {
    states, events := Then(first, before, FirstCheck(w));
    states, events := Then(states, events, TakeWorker(w));
    states, events := Then(states, events, SecondCheck(w));
    states, events := Then(states, events, StartCycle(w));
    assert states[|events|].threads[w].frames[0] == Cycle(true);
  }

  /** What is asked can be cut: however long a pause still is to last, once a thread has entered
      and left a scope with no settle delay, a worker's next cycle starts without any time passing. */
  lemma ScopeExitCutsPause(s: State, t: Tid, w: Tid) returns (states: seq<State>, events: seq<Event>)
    requires s.owner == None && s.depth == 0 && t != w && Resting(s, t) && Resting(s, w)
    ensures Chain(states, events) && states[0] == s
    ensures events == [EnterScope(t, 0), TakeScope(t), SetPause(t), ReleaseScope(t), ClearFlag(t)]
                    + [FirstCheck(w), TakeWorker(w), SecondCheck(w), StartCycle(w)]
    ensures var seen := states[|events|];
            seen.now == s.now && w in seen.threads && Observing(seen.threads[w])
  {
    states, events := ScopeLeft(s, t);
    states, events := WorkerStarts(states, events, w);
  }

  // ---- the flag and the two checks

  /** Entering a scope and asking for a pause announce an actuation. */
  predicate Announces(e: Event) { e.EnterScope? || e.AskPause? }

  /** The end of a scope or a pause, and a scope that times out, withdraw it. */
  predicate Withdraws(e: Event) { e.ClearFlag? || e.ScopeTimesOut? }

  /** The last event before step `n` that touched the flag announced an actuation. */
  ghost predicate Announced(events: seq<Event>, n: nat)
    requires n <= |events|
  {
    exists j :: 0 <= j < n && Announces(events[j]) && NotWithdrawn(events, j, n)
  }

  ghost predicate NotWithdrawn(events: seq<Event>, j: nat, n: nat)
    requires n <= |events|
  {
    forall k :: j < k < n ==> !Withdraws(events[k])
  }

  lemma AnnouncedNext(events: seq<Event>, n: nat)
    requires n < |events|
    ensures Announced(events, n + 1) <==> Announces(events[n]) || (Announced(events, n) && !Withdraws(events[n]))
  {
    if Announces(events[n]) {
      assert NotWithdrawn(events, n, n + 1);
    }
    if Announced(events, n) && !Withdraws(events[n]) {
      var j :| 0 <= j < n && Announces(events[j]) && NotWithdrawn(events, j, n);
      assert NotWithdrawn(events, j, n + 1);
    }
    if Announced(events, n + 1) && !Announces(events[n]) {
      var j :| 0 <= j < n + 1 && Announces(events[j]) && NotWithdrawn(events, j, n + 1);
      assert NotWithdrawn(events, j, n) && !Withdraws(events[n]);
    }
  }

  lemma FlagAfter(s: State, e: Event)
    requires Enabled(s, e)
    ensures Apply(s, e).flag <==> Announces(e) || (s.flag && !Withdraws(e))
  {}

  /** The flag is one for all threads: it is set exactly when an actuation was announced and nothing
      withdrew one since, be it the announcement of another thread. */
  lemma {:induction false} FlagExactly(states: seq<State>, events: seq<Event>, n: nat)
    requires Run(states, events) && n < |states|
    ensures states[n].flag <==> Announced(events, n)
  {
    if n > 0 {
      FlagExactly(states, events, n - 1);
      AnnouncedNext(events, n - 1);
      FlagAfter(states[n - 1], events[n - 1]);
    }
  }

  /** A worker goes for the lock, and once it has it starts a cycle, exactly when the flag is clear and no
      pause is in force; a worker that fails the second check gives the lock back. */
  lemma ChecksExactly(states: seq<State>, events: seq<Event>, n: nat)
    requires Run(states, events) && n < |events| && (events[n].FirstCheck? || events[n].SecondCheck?)
    ensures var s, next, t := states[n], states[n + 1], events[n].t;
            var clear := !Announced(events, n) && s.pauseUntil <= s.now;
            if events[n].FirstCheck? then
              next.threads[t].pc == (if clear then WorkerWants else Free) && next.owner == s.owner
            else
              && next.threads[t].pc == (if clear then WorkerCleared else Free)
              && next.released == s.released + if clear then 0 else 1
  {
    FlagExactly(states, events, n);
  }

  /** A pause that is asked to wait holds the lock before it ends, with no other thread inside a cycle or
      a scope, unless it times out while another one holds it; one that is not asked to does not wait. */
  lemma PauseWaitsExactly(states: seq<State>, events: seq<Event>, n: nat)
    requires Run(states, events) && n < |events|
    requires events[n].ExtendPause? || events[n].TakePause? || events[n].PauseTimesOut? || events[n].ReleasePause?
    ensures var s, next, t := states[n], states[n + 1], events[n].t;
            match events[n]
            case ExtendPause(_) => next.threads[t].pc == if s.threads[t].pc.wait then PauseWaits else Clearing
            case TakePause(_) =>
              && next.threads[t].pc == PauseHolds && next.owner == Some(t) && next.acquired == s.acquired + 1
              && forall o :: o in next.threads && o != t ==> next.threads[o].frames == []
            case PauseTimesOut(_) => next.threads[t].pc == Clearing && s.owner.Some? && s.owner != Some(t)
            case ReleasePause(_) => next.threads[t].pc == Clearing && next.released == s.released + 1
  {
    ReachableOk(states, events, n);
    ReachableOk(states, events, n + 1);
  }

  /** A thread times out only while another one holds the lock; it then gives up and stands where it stood
      before it asked, the lock and every other thread left alone. */
  lemma TimeoutsExactly(s: State, e: Event)
    requires Enabled(s, e) && (e.ScopeTimesOut? || e.CaptureTimesOut? || e.WorkerTimesOut?)
    ensures var next := Apply(s, e);
            && s.owner.Some? && s.owner.value != e.t
            && next.threads[e.t] == Thread(s.threads[e.t].frames, Free)
            && (forall o :: o in s.threads && o != e.t ==> o in next.threads && next.threads[o] == s.threads[o])
            && next.owner == s.owner && next.depth == s.depth && next.pauseUntil == s.pauseUntil
            && next.acquired == s.acquired && next.released == s.released
  {}

  // ---- roles

  /** Captures are not asked for inside a scope, nor scopes entered inside a cycle. */
  predicate InRole(s: State, e: Event) {
    match e
    case AskCapture(t) => t in s.threads ==> !Actuating(s.threads[t])
    case EnterScope(t, _) => t in s.threads ==> !Observing(s.threads[t])
    case _ => true
  }

  /** No thread is, or is about to be, inside both kinds of frame. */
  predicate Apart(th: Thread) {
    && !(Observing(th) && Actuating(th))
    && (th.pc == WantsCapture ==> !Actuating(th))
    && (th.pc.WantsScope? ==> !Observing(th))
  }

  lemma PushApart(frames: seq<Frame>, f: Frame, pc: Pc)
    ensures var th := Thread(frames + [f], pc);
            && (Observing(th) <==> Observing(Thread(frames, pc)) || f.Cycle?)
            && (Actuating(th) <==> Actuating(Thread(frames, pc)) || f.Scope?)
  {
    var all := frames + [f];
    assert all[|frames|] == f;
    assert forall i :: 0 <= i < |frames| ==> all[i] == frames[i];
  }

  lemma PopApart(frames: seq<Frame>, before: Pc, after: Pc)
    requires frames != []
    ensures var th := Thread(frames[..|frames| - 1], after);
            && (Observing(th) ==> Observing(Thread(frames, before)))
            && (Actuating(th) ==> Actuating(Thread(frames, before)))
  {
    assert forall i :: 0 <= i < |frames| - 1 ==> frames[..|frames| - 1][i] == frames[i];
  }

  /** The events that change no thread's frames. */
  predicate KeepsFrames(e: Event) {
    !(e.TakeScope? || e.TakeCapture? || e.StartCycle? || e.ReleaseScope? || e.EndCycle?)
  }

  lemma FramesKept(s: State, e: Event, t: Tid)
    requires Enabled(s, e) && KeepsFrames(e) && t in Apply(s, e).threads
    ensures t in s.threads && Apply(s, e).threads[t].frames == s.threads[t].frames
  {}

  lemma FramesTell(a: Thread, b: Thread)
    requires a.frames == b.frames
    ensures (Observing(a) <==> Observing(b)) && (Actuating(a) <==> Actuating(b))
  {}

  lemma ApartWhileKept(s: State, e: Event, t: Tid)
    requires Enabled(s, e) && InRole(s, e) && KeepsFrames(e) && t in s.threads && Apart(s.threads[t])
    ensures t in Apply(s, e).threads && Apart(Apply(s, e).threads[t])
  {
    FramesKept(s, e, t);
    FramesTell(Apply(s, e).threads[t], s.threads[t]);
  }

  lemma ApartOnChange(s: State, e: Event, t: Tid)
    requires Inv(s) && Enabled(s, e) && !KeepsFrames(e) && t in s.threads && Apart(s.threads[t])
    ensures t in Apply(s, e).threads && Apart(Apply(s, e).threads[t])
  {
    var th := s.threads[t];
    if e.t == t {
      if e.TakeScope? {
        PushApart(th.frames, Scope(th.pc.settle), Free);
      } else if e.TakeCapture? || e.StartCycle? {
        PushApart(th.frames, Cycle(e.StartCycle?), Free);
      } else {
        PopApart(th.frames, th.pc, if e.ReleaseScope? then Clearing else Free);
      }
    }
  }

  lemma ApartKept(s: State, e: Event)
    requires Inv(s) && Enabled(s, e) && InRole(s, e)
    requires forall t :: t in s.threads ==> Apart(s.threads[t])
    ensures forall t :: t in Apply(s, e).threads ==> Apart(Apply(s, e).threads[t])
  {
    forall t | t in Apply(s, e).threads ensures Apart(Apply(s, e).threads[t]) {
      SameThreads(s, e);
      if KeepsFrames(e) {
        ApartWhileKept(s, e, t);
      } else {
        ApartOnChange(s, e, t);
      }
    }
  }

  lemma {:induction false} ReachableApart(states: seq<State>, events: seq<Event>, n: nat)
    requires Run(states, events) && n < |states|
    requires forall i :: 0 <= i < n ==> InRole(states[i], events[i])
    ensures forall t :: t in states[n].threads ==> Apart(states[n].threads[t])
  {
    if n > 0 {
      ReachableApart(states, events, n - 1);
      ReachableOk(states, events, n - 1);
      ApartKept(states[n - 1], events[n - 1]);
    }
  }

  predicate Overlaps(s: State) {
    exists a, b :: a in s.threads && b in s.threads && Observing(s.threads[a]) && Actuating(s.threads[b])
  }

  /** With captures and scopes on distinct threads, no observation cycle overlaps an actuation
      at all. */
  lemma NoOverlap(states: seq<State>, events: seq<Event>, n: nat)
    requires Run(states, events) && n < |states|
    requires forall i :: 0 <= i < n ==> InRole(states[i], events[i])
    ensures !Overlaps(states[n])
  {
    MutualExclusion(states, events, n);
    ReachableApart(states, events, n);
  }

  /** Whoever captures inside its own scope does not wait for the lock, cannot time out, and
      overlaps its actuation as soon as it goes on. */
  lemma CaptureInsideScope(states: seq<State>, events: seq<Event>, n: nat, t: Tid)
    requires Run(states, events) && n < |events| && events[n] == AskCapture(t) && Actuating(states[n].threads[t])
    ensures var s := states[n + 1];
            && Enabled(s, TakeCapture(t)) && !Enabled(s, CaptureTimesOut(t))
            && Overlaps(Apply(s, TakeCapture(t)))
  {
    MutualExclusion(states, events, n);
    var s := states[n + 1];
    assert s.threads[t].frames == states[n].threads[t].frames;
    PushApart(s.threads[t].frames, Cycle(false), Free);
    var after := Apply(s, TakeCapture(t));
    assert t in after.threads && Observing(after.threads[t]) && Actuating(after.threads[t]);
  }

  /** So does whoever enters a scope inside its own cycle. */
  lemma ScopeInsideCycle(states: seq<State>, events: seq<Event>, n: nat, t: Tid, settle: int)
    requires Run(states, events) && n < |events| && events[n] == EnterScope(t, settle)
             && Observing(states[n].threads[t])
    ensures var s := states[n + 1];
            && Enabled(s, TakeScope(t)) && !Enabled(s, ScopeTimesOut(t))
            && Overlaps(Apply(s, TakeScope(t)))
  {
    MutualExclusion(states, events, n);
    var s := states[n + 1];
    assert s.threads[t].frames == states[n].threads[t].frames;
    PushApart(s.threads[t].frames, Scope(settle), Free);
    var after := Apply(s, TakeScope(t));
    assert t in after.threads && Observing(after.threads[t]) && Actuating(after.threads[t]);
  }

  /** Nothing overlaps, and no single step can make it overlap. */
  ghost predicate Safe(s: State) { !Overlaps(s) && forall e :: Enabled(s, e) ==> !Overlaps(Apply(s, e)) }

  lemma OneOwner(s: State)
    requires LockOk(s) && Overlaps(s)
    ensures exists t :: t in s.threads && Observing(s.threads[t]) && Actuating(s.threads[t])
  {}

  lemma StepSafe(s: State, e: Event)
    requires Inv(s) && Enabled(s, e) && forall t :: t in s.threads ==> Apart(s.threads[t])
    ensures !Overlaps(Apply(s, e))
  {
    var next := Apply(s, e);
    LockKept(s, e);
    if Overlaps(next) {
      OneOwner(next);
      var t :| t in next.threads && Observing(next.threads[t]) && Actuating(next.threads[t]);
      if KeepsFrames(e) {
        FramesKept(s, e, t);
        FramesTell(next.threads[t], s.threads[t]);
      } else {
        ApartKept(s, e);
      }
      assert false;
    }
  }

  /** The roles are exactly what keeps cycles and actuations apart: a run keeps to them if and only
      if no state of it overlaps or is one step away from overlapping. */
  lemma RolesKeepApart(states: seq<State>, events: seq<Event>)
    requires Run(states, events)
    ensures (forall i :: 0 <= i < |events| ==> InRole(states[i], events[i])) <==>
            (forall n :: 0 <= n < |states| ==> Safe(states[n]))
  {
    if forall i :: 0 <= i < |events| ==> InRole(states[i], events[i]) {
      forall n | 0 <= n < |states| ensures Safe(states[n]) {
        NoOverlap(states, events, n);
        ReachableOk(states, events, n);
        ReachableApart(states, events, n);
        forall e | Enabled(states[n], e) ensures !Overlaps(Apply(states[n], e)) {
          StepSafe(states[n], e);
        }
      }
    } else {
      var i :| 0 <= i < |events| && !InRole(states[i], events[i]);
      if events[i].AskCapture? {
        CaptureInsideScope(states, events, i, events[i].t);
      } else {
        ScopeInsideCycle(states, events, i, events[i].t, events[i].settle);
      }
      assert !Safe(states[i + 1]);
    }
  }
}
