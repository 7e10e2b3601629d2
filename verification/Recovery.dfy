/** The failure-to-strategy table. */
module Recovery {
  import opened Domain

  datatype Strategy =
    | RefreshObservation | RebuildTarget | InspectNavigation | RecoverSession | WaitForUser
    | DetermineRelevance | AlternateTarget | InspectState | AbortSafe

  function DetermineStrategy(failure: Option<FailureClass>): Strategy {
    match failure
    case None => AbortSafe
    case Some(f) =>
      match f
      case TargetNotFound => RefreshObservation
      case StaleTarget => RefreshObservation
      case PageChanged => RebuildTarget
      case NavigationTimeout => InspectNavigation
      case BrowserClosed => RecoverSession
      case CaptchaDetected => WaitForUser
      case PopupOpened => DetermineRelevance
      case ClickNoEffect => AlternateTarget
      case VerificationFailed => InspectState
      case UnknownFailure => InspectState
      case WindowNotFocused => InspectState
      case ExecutionFailed => AbortSafe
  }

  predicate GivesUp(s: Strategy) { s == AbortSafe || s == WaitForUser }

  /** The failure class a failed attempt is recovered from. */
  function AttemptFailure(verdict: Option<Verdict>, accepted: bool): FailureClass {
    var f := if verdict.Some? && verdict.value.failure.Some? then verdict.value.failure.value
             else VerificationFailed;
    if f == UnknownFailure && accepted then VerificationFailed else f
  }

  /** A failed attempt ends its step at once exactly when the verdict blames a captcha or a
      failed execution; every other failure earns another attempt. */
  lemma AttemptGivesUp(verdict: Option<Verdict>, accepted: bool)
    ensures GivesUp(DetermineStrategy(Some(AttemptFailure(verdict, accepted)))) <==>
            (verdict.Some? && (verdict.value.failure == Some(CaptchaDetected)
                               || verdict.value.failure == Some(ExecutionFailed)))
  {
    var f := AttemptFailure(verdict, accepted);
    assert GivesUp(DetermineStrategy(Some(f))) <==> (f == CaptchaDetected || f == ExecutionFailed);
  }
}
