/** Compilation of a plan into a composite sequence, and replanning of what is left of one. */
module Compiler {
  import opened Domain
  import opened Recovery

  /** An intent with the parameters the compiler reads; "" stands for an absent value, and the
      keys of a hotkey are given split and in lower case. `policy` is what the
      consequential-action policy says about the intent. */
  datatype Intent = Intent(
    action: Action,
    target: string,
    targetParam: string,
    application: string,
    text: string,
    query: string,
    value: string,
    keys: seq<Key>,
    expectedContent: string,
    requiresVerification: Option<bool>,
    verifier: Option<Check>,
    policy: bool)

  /** Python's `a or b` on strings. */
  function Or(a: string, b: string): string { if |a| > 0 then a else b }

  function App(name: string): Option<string> { if |name| > 0 then Some(name) else None }

  predicate Space(c: char) { c in " \t\n\r" || c as int == 11 || c as int == 12 }

  function StripLeft(s: string): string { if s != "" && Space(s[0]) then StripLeft(s[1..]) else s }

  function StripRight(s: string): string {
    if s != "" && Space(s[|s| - 1]) then StripRight(s[..|s| - 1]) else s
  }

  function Strip(s: string): string { StripRight(StripLeft(s)) }

  // ---- what an intent is

  predicate Chord(i: Intent, key: Key) { i.action == Hotkey && Ctrl in i.keys && key in i.keys }

  predicate IsCopy(i: Intent) { Chord(i, KeyC) }
  predicate IsSelectAll(i: Intent) { !IsCopy(i) && Chord(i, KeyA) }
  predicate IsPaste(i: Intent) { !IsCopy(i) && !IsSelectAll(i) && Chord(i, KeyV) }
  predicate IsTyping(i: Intent) { i.action == TypeText || i.action == Input }

  function TypedText(i: Intent): string { Strip(Or(i.text, Or(i.query, i.value))) }

  function Target(i: Intent): string { Or(i.target, Or(i.targetParam, i.application)) }

  // ---- one intent

  /** What the compiler carries from one intent to the next. */
  datatype Carry = Carry(app: Option<string>, typed: string, copied: string)

  function TargetApp(i: Intent, c: Carry): Option<string> {
    if i.action in {Open, Focus, Close} then App(Target(i))
    else if |Target(i)| > 0 then Some(Target(i)) else c.app
  }

  function NextCarry(i: Intent, c: Carry): Carry {
    Carry(if i.action in {Open, Focus} then App(Target(i)) else c.app,
          if IsTyping(i) then TypedText(i) else c.typed,
          if IsCopy(i) then Or(i.expectedContent, c.typed) else c.copied)
  }

  function Flag(b: Option<bool>, default: bool): bool { if b.Some? then b.value else default }

  function Given(check: Option<Check>, default: Check): Check { if check.Some? then check.value else default }

  /** The verifier of a step and whether its verdict is required. */
  function Verifier(i: Intent, c: Carry): (bool, Check) {
    var app := TargetApp(i, c);
    match i.action
    case Open => (true, WindowFocus(app))
    case Focus => (true, WindowFocus(app))
    case TypeText => (true, TextInput(TypedText(i)))
    case Input => (true, TextInput(TypedText(i)))
    case Hotkey =>
      if IsCopy(i) then (true, Clipboard(Or(i.expectedContent, c.typed)))
      else if IsSelectAll(i) then (false, Unchecked)
      else if IsPaste(i) then
        if |c.copied| > 0 then (true, CrossWindowSync(c.copied, app)) else (false, Unchecked)
      else (Flag(i.requiresVerification, false), Unchecked)
    case Click =>
      (Flag(i.requiresVerification, app.Some?),
       Given(i.verifier, if app.Some? then WindowFocus(app) else Unchecked))
    case RightClick => (true, ContextMenu)
    case Scroll => (true, ScrollShift)
    case Drag => (true, DragShift)
    case _ => (Flag(i.requiresVerification, false), Given(i.verifier, Unchecked))
  }

  function CompensationKeys(i: Intent): Option<seq<Key>> {
    if IsTyping(i) then Some([Ctrl, KeyZ])
    else if i.action == RightClick then Some([Escape])
    else None
  }

  function NewStep(id: StepId, index: nat, spec: StepSpec): Step {
    Step(id, index, spec, Pending, false, None, None, UndoRecord(false, UNKNOWN))
  }

  function CompileIntent(i: Intent, k: nat, c: Carry): Step {
    var (required, check) := Verifier(i, c);
    NewStep(Planned(k), k,
            StepSpec(i.action, TargetApp(i, c), i.policy, None, required, check, CompensationKeys(i)))
  }

  const NoCarry := Carry(None, "", "")

  /** The carry in front of intent `k`. */
  function CarryAt(intents: seq<Intent>, k: nat): Carry
    requires k <= |intents|
    decreases k, 0
  {
    if k == 0 then NoCarry else CarryAfter(intents, k - 1)
  }

  /** The carry behind intent `k`. */
  function CarryAfter(intents: seq<Intent>, k: nat): Carry
    requires k < |intents|
    decreases k, 1
  {
    NextCarry(intents[k], CarryAt(intents, k))
  }

  /** One step per intent, in order, each made from the intent, its position and the carry in
      front of it. */
  function Stepwise(make: (Intent, nat, Carry) -> Step, intents: seq<Intent>): (steps: seq<Step>)
    ensures |steps| == |intents|
  {
    if intents == [] then []
    else
      var k := |intents| - 1;
      Stepwise(make, intents[..k]) + [make(intents[k], k, CarryAt(intents[..k], k))]
  }

  function CompiledSteps(intents: seq<Intent>): seq<Step> { Stepwise(CompileIntent, intents) }

  /** A sequence ready for execution. */
  function CompilePlan(intents: seq<Intent>): Sequence { Sequence(CompiledSteps(intents), 2, true, true) }

  function Flatten(tasks: seq<seq<Intent>>): seq<Intent> {
    if tasks == [] then [] else Flatten(tasks[..|tasks| - 1]) + tasks[|tasks| - 1]
  }

  lemma {:induction false} CarryPrefix(a: seq<Intent>, b: seq<Intent>, k: nat)
    requires k <= |a| <= |b| && b[..|a|] == a
    ensures CarryAt(a, k) == CarryAt(b, k)
  {
    if k > 0 {
      assert a[k - 1] == b[k - 1];
      CarryPrefix(a, b, k - 1);
      assert CarryAfter(a, k - 1) == CarryAfter(b, k - 1);
    }
  }

  lemma StepwiseAppend(make: (Intent, nat, Carry) -> Step, seen: seq<Intent>, i: Intent)
    ensures Stepwise(make, seen + [i]) == Stepwise(make, seen) + [make(i, |seen|, CarryAt(seen, |seen|))]
  {
    assert (seen + [i])[..|seen|] == seen;
  }

  lemma CarryAppend(seen: seq<Intent>, i: Intent)
    ensures CarryAt(seen + [i], |seen| + 1) == NextCarry(i, CarryAt(seen, |seen|))
  {
    assert (seen + [i])[..|seen|] == seen;
    CarryPrefix(seen, seen + [i], |seen|);
    assert CarryAt(seen + [i], |seen| + 1) == CarryAfter(seen + [i], |seen|);
  }

  lemma {:induction false} StepwiseAt(make: (Intent, nat, Carry) -> Step, intents: seq<Intent>, k: nat)
    requires k < |intents|
    ensures Stepwise(make, intents)[k] == make(intents[k], k, CarryAt(intents, k))
  {
    var last := |intents| - 1;
    var front := intents[..last];
    CarryPrefix(front, intents, k);
    if k < last {
      StepwiseAt(make, front, k);
    }
  }

  /** Moves the compiler's running context past an intent. */
  method CarryOn(i: Intent, before: Carry) returns (after: Carry)
    ensures after == NextCarry(i, before)
  {
    var app, typed, copied := before.app, before.typed, before.copied;
    if i.action == Open || i.action == Focus {
      app := App(Target(i));
    }
    if IsTyping(i) {
      typed := TypedText(i);
    } else if IsCopy(i) {
      copied := Or(i.expectedContent, typed);
    }
    after := Carry(app, typed, copied);
  }

  /** Compiles one more intent after those already `seen`. */
  method CompileNext(i: Intent, before: seq<Step>, start: Carry, ghost seen: seq<Intent>)
    returns (steps: seq<Step>, carry: Carry)
    requires before == CompiledSteps(seen) && start == CarryAt(seen, |seen|)
    ensures steps == CompiledSteps(seen + [i])
    ensures carry == CarryAt(seen + [i], |seen + [i]|)
  {
    StepwiseAppend(CompileIntent, seen, i);
    CarryAppend(seen, i);
    steps := before + [CompileIntent(i, |before|, start)];
    carry := CarryOn(i, start);
  }

  lemma OneMore(seen: seq<Intent>, task: seq<Intent>, j: nat)
    requires j < |task|
    ensures seen + task[..j + 1] == seen + task[..j] + [task[j]]
  {}

  /** Compiles the intents of one task, after those already `seen`. */
  method CompileTask(task: seq<Intent>, before: seq<Step>, start: Carry, ghost seen: seq<Intent>)
    returns (steps: seq<Step>, carry: Carry)
    requires before == CompiledSteps(seen) && start == CarryAt(seen, |seen|)
    ensures steps == CompiledSteps(seen + task)
    ensures carry == CarryAt(seen + task, |seen + task|)
  {
    steps, carry := before, start;
    assert seen + task[..0] == seen;
    for j := 0 to |task|
      invariant carry == CarryAt(seen + task[..j], |seen + task[..j]|)
      invariant steps == CompiledSteps(seen + task[..j])
    {
      OneMore(seen, task, j);
      steps, carry := CompileNext(task[j], steps, carry, seen + task[..j]);
    }
    assert task[..|task|] == task;
  }

  /** Compiles the tasks of a goal, one after the other. */
  method CompileGoal(tasks: seq<seq<Intent>>) returns (plan: Sequence)
    ensures plan == CompilePlan(Flatten(tasks))
  {
    var steps: seq<Step> := [];
    var carry := NoCarry;
    for t := 0 to |tasks|
      invariant carry == CarryAt(Flatten(tasks[..t]), |Flatten(tasks[..t])|)
      invariant steps == CompiledSteps(Flatten(tasks[..t]))
    {
      assert tasks[..t + 1][..t] == tasks[..t];
      steps, carry := CompileTask(tasks[t], steps, carry, Flatten(tasks[..t]));
    }
    assert tasks[..|tasks|] == tasks;
    plan := Sequence(steps, 2, true, true);
  }

  // ---- what the carry means

  /** The text of the last typing intent before `k`, looked up backwards. */
  function LastTyped(intents: seq<Intent>, k: nat): string
    requires k <= |intents|
  {
    if k == 0 then ""
    else if IsTyping(intents[k - 1]) then TypedText(intents[k - 1])
    else LastTyped(intents, k - 1)
  }

  /** What the copy at `k` puts on the clipboard: its explicit content, or the last text typed. */
  function Payload(intents: seq<Intent>, k: nat): string
    requires k < |intents|
  {
    Or(intents[k].expectedContent, LastTyped(intents, k))
  }

  /** The payload of the latest copy before `k`. */
  function LastCopied(intents: seq<Intent>, k: nat): string
    requires k <= |intents|
  {
    if k == 0 then ""
    else if IsCopy(intents[k - 1]) then Payload(intents, k - 1)
    else LastCopied(intents, k - 1)
  }

  /** The application opened or focused last before `k`. */
  function LastApp(intents: seq<Intent>, k: nat): Option<string>
    requires k <= |intents|
  {
    if k == 0 then None
    else if intents[k - 1].action in {Open, Focus} then App(Target(intents[k - 1]))
    else LastApp(intents, k - 1)
  }

  lemma {:induction false} CarryMeaning(intents: seq<Intent>, k: nat)
    requires k <= |intents|
    ensures CarryAt(intents, k) == Carry(LastApp(intents, k), LastTyped(intents, k), LastCopied(intents, k))
  {
    if k > 0 {
      CarryMeaning(intents, k - 1);
      assert CarryAt(intents, k) == CarryAfter(intents, k - 1);
    }
  }

  /** The intents whose outcome a plan promises to verify. */
  predicate MustVerify(intents: seq<Intent>, k: nat)
    requires k < |intents|
  {
    || intents[k].action in {Open, Focus, TypeText, Input, RightClick, Scroll, Drag}
    || IsCopy(intents[k])
    || (IsPaste(intents[k]) && |LastCopied(intents, k)| > 0)
  }

  /** What the verifier of such an intent checks. */
  function PromisedCheck(intents: seq<Intent>, k: nat): Check
    requires k < |intents| && MustVerify(intents, k)
  {
    var i := intents[k];
    if i.action in {Open, Focus} then WindowFocus(App(Target(i)))
    else if IsTyping(i) then TextInput(TypedText(i))
    else if IsCopy(i) then Clipboard(Payload(intents, k))
    else if IsPaste(i) then
      CrossWindowSync(LastCopied(intents, k), if |Target(i)| > 0 then Some(Target(i)) else LastApp(intents, k))
    else if i.action == RightClick then ContextMenu
    else if i.action == Scroll then ScrollShift
    else DragShift
  }

  /** The verifier the step of intent `k` gets. */
  function VerifierAt(intents: seq<Intent>, k: nat): (bool, Check)
    requires k < |intents|
  {
    Verifier(intents[k], Carry(LastApp(intents, k), LastTyped(intents, k), LastCopied(intents, k)))
  }

  lemma PromisedHotkey(intents: seq<Intent>, k: nat)
    requires k < |intents| && intents[k].action == Hotkey
    ensures MustVerify(intents, k) ==> VerifierAt(intents, k) == (true, PromisedCheck(intents, k))
    ensures IsPaste(intents[k]) && |LastCopied(intents, k)| == 0 ==> !VerifierAt(intents, k).0
  {}

  lemma PromisedOther(intents: seq<Intent>, k: nat)
    requires k < |intents| && intents[k].action != Hotkey
    ensures MustVerify(intents, k) ==> VerifierAt(intents, k) == (true, PromisedCheck(intents, k))
    ensures !IsPaste(intents[k])
  {}

  /** Every promised intent gets a step that requires its verdict, with the promised check. */
  lemma CompiledChecks(intents: seq<Intent>, k: nat)
    requires k < |intents|
    ensures var s := CompilePlan(intents).steps[k];
            && s.id == Planned(k) && s.spec.action == intents[k].action
            && (MustVerify(intents, k) ==> s.spec.requiresVerification && s.spec.check == PromisedCheck(intents, k))
            && (IsPaste(intents[k]) && |LastCopied(intents, k)| == 0 ==> !s.spec.requiresVerification)
  {
    StepwiseAt(CompileIntent, intents, k);
    CarryMeaning(intents, k);
    if intents[k].action == Hotkey {
      PromisedHotkey(intents, k);
    } else {
      PromisedOther(intents, k);
    }
  }

  // ---- what a step is, told from the fields of its intent

  /** The name an intent gives its target, looked for in three places. */
  lemma TargetMeaning(i: Intent)
    ensures Target(i)
         == if i.target != "" then i.target else if i.targetParam != "" then i.targetParam else i.application
  {}

  lemma {:induction false} StripLeftMeaning(s: string) returns (n: nat)
    ensures n <= |s| && StripLeft(s) == s[n..] && (forall j :: 0 <= j < n ==> Space(s[j])) && (n < |s| ==> !Space(s[n]))
  {
    n := 0;
    if s != "" && Space(s[0]) {
      n := StripLeftMeaning(s[1..]);
      n := n + 1;
      assert s[1..][n - 1..] == s[n..];
      assert forall j :: 0 < j < n ==> s[j] == s[1..][j - 1];
    }
  }

  lemma {:induction false} StripRightMeaning(s: string) returns (n: nat)
    ensures n <= |s| && StripRight(s) == s[..n]
    ensures (forall j :: n <= j < |s| ==> Space(s[j])) && (n > 0 ==> !Space(s[n - 1]))
  {
    n := |s|;
    if s != "" && Space(s[|s| - 1]) {
      n := StripRightMeaning(s[..|s| - 1]);
      assert s[..|s| - 1][..n] == s[..n];
      assert forall j :: 0 <= j < |s| - 1 ==> s[j] == s[..|s| - 1][j];
    }
  }

  predicate Blank(s: string) {
    forall j :: 0 <= j < |s| ==>
      || s[j] == ' ' || s[j] == '\t' || s[j] == '\n' || s[j] == '\r' || s[j] as int == 11 || s[j] as int == 12
  }

  lemma BlankFront(s: string, n: nat)
    requires n <= |s| && forall j :: 0 <= j < n ==> Space(s[j])
    ensures Blank(s[..n])
  {}

  lemma BlankBack(s: string, n: nat)
    requires n <= |s| && forall j :: n <= j < |s| ==> Space(s[j])
    ensures Blank(s[n..])
  {}

  lemma NotBlank(c: char)
    requires !Space(c)
    ensures !Blank([c])
  {
    assert [c][0] == c;
  }

  lemma Halves(s: string, n: nat)
    requires n <= |s|
    ensures s == s[..n] + s[n..]
  {}

  lemma Joined(s: string, left: string, rest: string, kept: string, right: string)
    requires s == left + rest && rest == kept + right
    ensures s == left + kept + right
  {}

  /** Stripping takes the blanks off both ends and nothing else. */
  lemma StripMeaning(s: string) returns (left: string, right: string)
    ensures s == left + Strip(s) + right && Blank(left) && Blank(right)
    ensures Strip(s) != "" ==> !Blank([Strip(s)[0]]) && !Blank([Strip(s)[|Strip(s)| - 1]])
  {
    var n := StripLeftMeaning(s);
    var rest := StripLeft(s);
    var m := StripRightMeaning(rest);
    left, right := s[..n], rest[m..];
    BlankFront(s, n);
    BlankBack(rest, m);
    Halves(s, n);
    Halves(rest, m);
    Joined(s, left, rest, rest[..m], right);
    if m > 0 {
      NotBlank(rest[0]);
      NotBlank(rest[m - 1]);
    }
  }

  /** The text an intent types: the first of the three places that has one, without the blanks at both
      ends and with all between. */
  lemma TypedMeaning(i: Intent) returns (left: string, right: string)
    ensures var raw := if i.text != "" then i.text else if i.query != "" then i.query else i.value;
            raw == left + TypedText(i) + right && Blank(left) && Blank(right)
    ensures var typed := TypedText(i); typed != "" ==> !Blank([typed[0]]) && !Blank([typed[|typed| - 1]])
  {
    left, right := StripMeaning(Or(i.text, Or(i.query, i.value)));
  }

  /** The application a step is meant for. */
  function ScopeOf(intents: seq<Intent>, k: nat): Option<string>
    requires k < |intents|
  {
    if |Target(intents[k])| > 0 then Some(Target(intents[k]))
    else if intents[k].action in {Open, Focus, Close} then None
    else LastApp(intents, k)
  }

  /** What the step of a hotkey verifies, by its keys: a copy is looked for before a select-all, that
      before a paste. */
  predicate HotkeyVerifies(spec: StepSpec, intents: seq<Intent>, k: nat)
    requires k < |intents|
  {
    var i := intents[k];
    if Ctrl in i.keys && KeyC in i.keys then
      spec.requiresVerification && spec.check == Clipboard(Payload(intents, k))
    else if Ctrl in i.keys && KeyA in i.keys then !spec.requiresVerification && spec.check == Unchecked
    else if Ctrl in i.keys && KeyV in i.keys then
      if LastCopied(intents, k) != "" then
        spec.requiresVerification && spec.check == CrossWindowSync(LastCopied(intents, k), ScopeOf(intents, k))
      else !spec.requiresVerification && spec.check == Unchecked
    else (spec.requiresVerification <==> i.requiresVerification == Some(true)) && spec.check == Unchecked
  }

  /** What the step of any other intent verifies, by its action. */
  predicate Verifies(spec: StepSpec, intents: seq<Intent>, k: nat)
    requires k < |intents|
  {
    var i, app := intents[k], ScopeOf(intents, k);
    match i.action
    case Hotkey => HotkeyVerifies(spec, intents, k)
    case Open => spec.requiresVerification && spec.check == WindowFocus(app)
    case Focus => spec.requiresVerification && spec.check == WindowFocus(app)
    case TypeText => spec.requiresVerification && spec.check == TextInput(TypedText(i))
    case Input => spec.requiresVerification && spec.check == TextInput(TypedText(i))
    case RightClick => spec.requiresVerification && spec.check == ContextMenu
    case Scroll => spec.requiresVerification && spec.check == ScrollShift
    case Drag => spec.requiresVerification && spec.check == DragShift
    case Click =>
      && (spec.requiresVerification <==>
            i.requiresVerification == Some(true) || (i.requiresVerification == None && app.Some?))
      && spec.check == (if i.verifier.Some? then i.verifier.value
                        else if app.Some? then WindowFocus(app) else Unchecked)
    case _ =>
      && (spec.requiresVerification <==> i.requiresVerification == Some(true))
      && spec.check == (if i.verifier.Some? then i.verifier.value else Unchecked)
  }

  /** What undoes a step: Ctrl+Z what was typed, Escape a context menu, nothing anything else. */
  predicate Compensates(spec: StepSpec) {
    match spec.action
    case TypeText => spec.compensation == Some([Ctrl, KeyZ])
    case Input => spec.compensation == Some([Ctrl, KeyZ])
    case RightClick => spec.compensation == Some([Escape])
    case _ => spec.compensation == None
  }

  lemma VerifiesHotkey(intents: seq<Intent>, k: nat, spec: StepSpec)
    requires k < |intents| && intents[k].action == Hotkey
    requires (spec.requiresVerification, spec.check) == VerifierAt(intents, k)
    ensures HotkeyVerifies(spec, intents, k)
  {}

  lemma VerifiesOther(intents: seq<Intent>, k: nat, spec: StepSpec)
    requires k < |intents| && intents[k].action != Hotkey
    requires (spec.requiresVerification, spec.check) == VerifierAt(intents, k)
    ensures Verifies(spec, intents, k)
  {}

  /** The step of intent `k`, whatever its action: what it is meant for, what it verifies and how it is
      undone. */
  lemma CompiledShape(intents: seq<Intent>, k: nat)
    requires k < |intents|
    ensures var s := CompilePlan(intents).steps[k];
            && s.id == Planned(k) && s.index == k && s.status == Pending && s.verdict == None && s.error == None
            && !s.accepted && !s.undo.executed
            && s.spec.action == intents[k].action && s.spec.targetApp == ScopeOf(intents, k)
            && s.spec.consequential == intents[k].policy && s.spec.requiredPermission == None
            && Verifies(s.spec, intents, k) && Compensates(s.spec)
  {
    StepwiseAt(CompileIntent, intents, k);
    CarryMeaning(intents, k);
    var spec := CompilePlan(intents).steps[k].spec;
    if intents[k].action == Hotkey {
      VerifiesHotkey(intents, k, spec);
    } else {
      VerifiesOther(intents, k, spec);
    }
  }

  /** A compiled plan has one step per intent, two retries for each, stops on failure and may
      compensate. */
  lemma CompiledPlan(intents: seq<Intent>)
    ensures var plan := CompilePlan(intents);
            |plan.steps| == |intents| && plan.maxRetries == 2 && plan.stopOnFailure && plan.allowCompensation
  {}

  // ---- replanning

  predicate Refocuses(strategy: Option<Strategy>, failed: Step) {
    && (strategy == Some(InspectState) || strategy == Some(RefreshObservation))
    && failed.spec.targetApp.Some? && |failed.spec.targetApp.value| > 0
  }

  function RefocusStep(failed: Step): Step {
    NewStep(Refocus, 0,
      StepSpec(Focus, failed.spec.targetApp, false, None, true, WindowFocus(failed.spec.targetApp), None))
  }

  function Clone(s: Step, index: nat): Step { s.(index := index, id := Replanned(s.id)) }

  function Clones(steps: seq<Step>, first: nat): (r: seq<Step>)
    ensures |r| == |steps|
    ensures forall j :: 0 <= j < |steps| ==> r[j] == Clone(steps[j], first + j)
  {
    seq(|steps|, j requires 0 <= j < |steps| => Clone(steps[j], first + j))
  }

  /** What is left of a sequence after a failure, behind a refocus step when the failure calls
      for one. */
  function Replan(plan: Sequence, failed: int, strategy: Option<Strategy>): Option<Sequence> {
    if failed < 0 || failed >= |plan.steps| then None
    else
      var head := if Refocuses(strategy, plan.steps[failed]) then [RefocusStep(plan.steps[failed])] else [];
      Some(Sequence(head + Clones(plan.steps[failed..], |head|), 1, true, plan.allowCompensation))
  }

  /** A step with nothing done yet. */
  predicate Unbegun(s: Step) {
    && s.status == Pending && !s.accepted && s.verdict == None && s.error == None && !s.undo.executed
  }

  /** The step that brings the application of a failed step to the front. */
  predicate Refocusing(s: Step, app: string) {
    && s.id == Refocus && s.index == 0 && Unbegun(s)
    && s.spec == StepSpec(Focus, Some(app), false, None, true, WindowFocus(Some(app)), None)
  }

  /** A step as it stood, under a name and a number of its own. */
  predicate CloneOf(s: Step, was: Step, index: nat) {
    && s.id == Replanned(was.id) && s.index == index && s.spec == was.spec && s.status == was.status
    && s.accepted == was.accepted && s.verdict == was.verdict && s.error == was.error && s.undo == was.undo
  }

  /** What is left of a sequence after a failure at `failed`: the steps from there on, behind a refocus
      step exactly when the strategy looks at the screen and the failed step names an application; one
      retry each, and compensation as before. Nothing is left of a failure outside the sequence. */
  lemma ReplanExactly(plan: Sequence, failed: int, strategy: Option<Strategy>)
    ensures Replan(plan, failed, strategy).None? <==> failed < 0 || |plan.steps| <= failed
    ensures var repaired := Replan(plan, failed, strategy);
            repaired.Some? ==>
              var steps, app := repaired.value.steps, plan.steps[failed].spec.targetApp;
              var head := if strategy in {Some(InspectState), Some(RefreshObservation)} && app.Some? && app.value != ""
                          then 1 else 0;
              && |steps| == head + |plan.steps| - failed
              && (head == 1 ==> Refocusing(steps[0], app.value))
              && (forall j :: head <= j < |steps| ==> CloneOf(steps[j], plan.steps[failed + j - head], j))
              && repaired.value.maxRetries == 1 && repaired.value.stopOnFailure
              && repaired.value.allowCompensation == plan.allowCompensation
  {
    if 0 <= failed < |plan.steps| {
      var steps, rest := Replan(plan, failed, strategy).value.steps, plan.steps[failed..];
      var head := |steps| - |rest|;
      forall j | head <= j < |steps| ensures CloneOf(steps[j], plan.steps[failed + j - head], j) {
        assert steps[j] == Clone(rest[j - head], j);
      }
    }
  }

  /** The failures after which a replan looks at the screen first, and those after which there is none. */
  lemma StrategyExactly(f: FailureClass)
    ensures DetermineStrategy(Some(f)) in {InspectState, RefreshObservation} <==>
              f in {TargetNotFound, StaleTarget, VerificationFailed, UnknownFailure, WindowNotFocused}
    ensures GivesUp(DetermineStrategy(Some(f))) <==> f in {CaptchaDetected, ExecutionFailed}
    ensures GivesUp(DetermineStrategy(None))
  {}

  method ReplanRemainder(plan: Sequence, failed: int, strategy: Option<Strategy>) returns (repaired: Option<Sequence>)
    ensures repaired == Replan(plan, failed, strategy)
  {
    if failed < 0 || failed >= |plan.steps| {
      return None;
    }
    var steps: seq<Step> := [];
    var newIndex: nat := 0;
    if Refocuses(strategy, plan.steps[failed]) {
      steps := steps + [RefocusStep(plan.steps[failed])];
      newIndex := newIndex + 1;
    }
    ghost var head := steps;
    assert head == if Refocuses(strategy, plan.steps[failed]) then [RefocusStep(plan.steps[failed])] else [];
    var remaining := plan.steps[failed..];
    for j := 0 to |remaining|
      invariant newIndex == |head| + j == |steps|
      invariant steps == head + Clones(remaining, |head|)[..j]
    {
      steps := steps + [Clone(remaining[j], newIndex)];
      newIndex := newIndex + 1;
    }
    assert Clones(remaining, |head|)[..|remaining|] == Clones(remaining, |head|);
    return Some(Sequence(steps, 1, true, plan.allowCompensation));
  }
}
