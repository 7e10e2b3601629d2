/** The values the composite-execution engine works on: steps, sequences, verdicts and the
    environment that answers each request of the engine. */
module Domain {

  datatype Option<+T> = None | Some(value: T)

  /** Keyboard keys, by their lower-case names. */
  datatype Key = Ctrl | Escape | KeyA | KeyC | KeyV | KeyZ | OtherKey(name: string)

  datatype TriState = TRUE | FALSE | UNKNOWN

  datatype FailureClass =
    | TargetNotFound | StaleTarget | PageChanged | NavigationTimeout | BrowserClosed
    | CaptchaDetected | PopupOpened | ClickNoEffect | WindowNotFocused
    | VerificationFailed | UnknownFailure | ExecutionFailed

  datatype Verdict = Verdict(verified: TriState, failure: Option<FailureClass>)

  datatype Action =
    | Navigate | Search | Play | Pause | Click | DoubleClick | RightClick | Scroll | Drag
    | Hotkey | PressKey | TypeText | MoveMouse | Input | Open | Close | Focus
    | Retry | Repeat | Continue

  datatype CapabilityScope =
    | SystemInformation | ComputerControl | FileAccess | BackgroundExecution | BrowserControl
    | NetworkAccess | CredentialAccess | SystemModification | ApplicationLifecycle

  datatype PermissionState = NotRequired | Required | Granted | Denied | Revoked | Expired | Undetermined

  datatype StepStatus =
    | Pending | Executing | ActuationAccepted | VerifiedSuccess
    | StepFailed | Recovering | Cancelled | Skipped

  datatype TerminalStatus = Success | PartialFailure | Failed | CancelledRun | Timeout | PermissionDenied

  /** The error codes the engine itself writes, and those a tool reports. */
  datatype ErrorCode =
    | CancelledError | PermissionRequiredError | VerificationError | ActuationError
    | TimeoutError | ToolError(name: string)

  /** A step keeps the identity it was given when replanning clones it; a refocus step is
      the one kind of step replanning adds. */
  datatype StepId = Planned(number: nat) | Refocus | Replanned(of: StepId)

  function Root(id: StepId): StepId {
    match id
    case Replanned(of) => Root(of)
    case _ => id
  }

  predicate Injected(id: StepId) { Root(id) == Refocus }

  /** The verifier a step names, with the arguments the compiler gives it. */
  datatype Check =
    | Unchecked
    | TextInput(expectedText: string)
    | Clipboard(expectedContent: string)
    | CrossWindowSync(expectedContent: string, destination: Option<string>)
    | WindowFocus(app: Option<string>)
    | ContextMenu | ScrollShift | DragShift
    | Custom(name: string)

  /** The part of a step that execution never writes; `compensation` holds the keys of the
      explicit undo action, if the step has one. */
  datatype StepSpec = StepSpec(
    action: Action,
    targetApp: Option<string>,
    consequential: bool,
    requiredPermission: Option<CapabilityScope>,
    requiresVerification: bool,
    check: Check,
    compensation: Option<seq<Key>>)

  /** Whether the step's compensation has run, and with which verdict. */
  datatype UndoRecord = UndoRecord(executed: bool, verified: TriState)

  datatype Step = Step(
    id: StepId,
    index: nat,
    spec: StepSpec,
    status: StepStatus,
    accepted: bool,
    verdict: Option<Verdict>,
    error: Option<ErrorCode>,
    undo: UndoRecord)

  datatype Sequence = Sequence(
    steps: seq<Step>,
    maxRetries: int,
    stopOnFailure: bool,
    allowCompensation: bool)

  predicate Done(s: Step) { s.status == ActuationAccepted || s.status == VerifiedSuccess }

  predicate IsVerified(s: Step) { s.status == VerifiedSuccess }

  /** A step's verdict was authoritative. */
  predicate SaysTrue(v: Option<Verdict>) { v.Some? && v.value.verified == TRUE }

  /** Consequential and protected steps go through the authorization gate. */
  predicate Gated(s: StepSpec) { s.consequential || s.requiredPermission.Some? }

  /** The step is the same piece of the plan. */
  predicate SamePlan(s: Step, t: Step) { s.id == t.id && s.spec == t.spec }

  /** What one execution did to the outside world, in order. */
  datatype Effect =
    | Forward(position: nat, id: StepId, tick: nat)
    | Undo(position: nat, id: StepId, tick: nat)

  /** Deadlines can strike at any await: the sequence's own, or one of an enclosing scope. */
  datatype Strike = NoStrike | SequenceDeadline | OuterDeadline

  datatype PlainOutcome = PlainSucceeds | PlainWaits | PlainFails

  /** One answer of the environment. Each request of the engine reads the fields it needs. */
  datatype Obs = Obs(
    cancel: bool,
    authorized: bool,
    strike: Strike,
    settleStrike: Strike,
    pauseStrike: Strike,
    accepted: bool,
    success: bool,
    verdict: Option<Verdict>,
    error: Option<ErrorCode>,
    raises: bool,
    goalDeadline: bool,
    plain: PlainOutcome,
    goalVerified: bool)

  /** The environment answers the n-th request of a run with world(n). */
  type World = nat -> Obs

  /** A cancel event, once set, stays set. */
  ghost predicate CancelLatches(world: World) {
    forall i: nat, j: nat :: i <= j && world(i).cancel ==> world(j).cancel
  }
}
