/** What a run keeps about its fuzz cases, and how each step of the run changes it (engine/fuzz.go).

    A fuzz target's cases run on copies of the target's setup steps. A copy is sent for a case, or
    stood in for by the copy an earlier case left clean. The history of a target records what was
    sent and what stood in; the engine keeps no such record, and nothing here decides by it. */
module FuzzState {

  datatype BodyError = NoBodyError | BodyError(status: nat, stale: bool)

  /** What sending a step came to. fails is whether the finding the case was judged by fails the run. */
  datatype Answer = Answer(
    error: bool, notSentError: bool, interrupted: bool, hasRequest: bool, hasResponse: bool,
    statusCode: nat, bodyError: BodyError, expectedFailure: bool, validationFailed: bool, strictViolation: bool,
    outputs: Outputs, outputsError: bool, fails: bool)

  datatype Outputs = NoOutputs | Outputs(values: map<string, string>)

  const TooManyRequests: nat := 429
  const Gone: nat := 410

  /** The status a response stands for: the one its body error was given, or its own. */
  function FailureStatus(a: Answer): nat {
    if a.bodyError.BodyError? && a.bodyError.status != 0 then a.bodyError.status else a.statusCode
  }

  predicate Throttled(a: Answer) {
    a.hasResponse && FailureStatus(a) == TooManyRequests
  }

  predicate Refused(a: Answer) {
    && a.hasResponse && !Throttled(a)
    && (400 <= FailureStatus(a) < 500 || (a.bodyError.BodyError? && a.bodyError.status == 0))
  }

  predicate StaleAnswer(a: Answer) {
    (a.bodyError.BodyError? && a.bodyError.stale) || (a.hasResponse && FailureStatus(a) == Gone)
  }

  predicate NotSent(a: Answer) {
    !a.hasResponse && (!a.hasRequest || (a.error && a.notSentError))
  }

  datatype Scope = Reuse | Isolated | Shared

  datatype Setup = NoSetup | Fresh | Reused | Rebuilt | SetupFailed

  datatype Kind = Own | CopyOf(forCase: string, original: string) | CaseOf(target: string)

  datatype KnownIssue = NoIssue | Active | Expired

  datatype Step = Step(id: string, kind: Kind, inGraph: bool, expectsFailure: bool, cleansUp: bool, issue: KnownIssue)

  /** Where a target's setup stands. building names the case a copy is under way for, or is "". */
  datatype Group = Group(live: map<string, string>, clean: bool, building: string, failures: nat, stopped: bool,
    passed: bool)

  const NewGroup := Group(map[], false, "", 0, false, false)

  /** failsUnsent is whether the target's fail list holds the finding a case that was not sent has. */
  datatype TargetInfo = TargetInfo(scope: Scope, readOnly: bool, failsUnsent: bool)

  /** What the plan's expansion fixes: the targets, each case's target, and its copies of the setup. */
  datatype Layout = Layout(targets: map<string, TargetInfo>, caseTarget: map<string, string>,
    copies: map<string, seq<Step>>)

  datatype Event =
    | CopySent(copy: string, original: string, forCase: string, answer: Answer)
    | CopyFailed(copy: string, forCase: string)
    | CopyStood(copy: string, live: string, forCase: string)
    | CaseAsked(case_: string, answer: Answer)

  datatype Fuzz = Fuzz(layout: Layout, groups: map<string, Group>, caseSetup: map<string, Setup>, stale: set<string>,
                       history: map<string, seq<Event>>)

  const MaxSetupFailures: nat := 3

  /** Whether c is a case of a target. */
  predicate IsCaseOfTarget(l: Layout, c: string) {
    c in l.caseTarget && l.caseTarget[c] in l.targets
  }

  function TargetOf(l: Layout, c: string): string
    requires IsCaseOfTarget(l, c)
  {
    l.caseTarget[c]
  }

  function InfoOf(l: Layout, c: string): TargetInfo
    requires IsCaseOfTarget(l, c)
  {
    l.targets[l.caseTarget[c]]
  }

  function CopiesOf(l: Layout, c: string): seq<Step> {
    if c in l.copies then l.copies[c] else []
  }

  function GroupAt(f: Fuzz, t: string): Group {
    if t in f.groups then f.groups[t] else NewGroup
  }

  function GroupOf(f: Fuzz, c: string): Group
    requires IsCaseOfTarget(f.layout, c)
  {
    GroupAt(f, TargetOf(f.layout, c))
  }

  function SetupOf(f: Fuzz, c: string): Setup {
    if c in f.caseSetup then f.caseSetup[c] else NoSetup
  }

  function History(f: Fuzz, t: string): seq<Event> {
    if t in f.history then f.history[t] else []
  }

  function WithGroup(f: Fuzz, c: string, g: Group): Fuzz
    requires IsCaseOfTarget(f.layout, c)
  {
    f.(groups := f.groups[TargetOf(f.layout, c) := g])
  }

  function Noting(f: Fuzz, c: string, e: Event): Fuzz
    requires IsCaseOfTarget(f.layout, c)
  {
    f.(history := f.history[TargetOf(f.layout, c) := History(f, TargetOf(f.layout, c)) + [e]])
  }

  function WithSetup(f: Fuzz, c: string, s: Setup): Fuzz {
    f.(caseSetup := f.caseSetup[c := s])
  }

  /** Nothing of the plan's expansion has changed, nor which cases were rebuilt. */
  ghost predicate SameCases(f: Fuzz, r: Fuzz) {
    r.layout == f.layout && r.stale == f.stale
  }

  // ---------- The decisions ----------

  datatype Decision = Send | StandIn(live: string) | DoNotSend

  /** What becomes of a setup copy about to run. */
  function Decide(f: Fuzz, c: string, original: string): Decision {
    if !IsCaseOfTarget(f.layout, c) then Send
    else
      var g := GroupOf(f, c);
      if g.stopped then DoNotSend
      else if InfoOf(f.layout, c).scope.Reuse? && g.clean && g.building != c && original in g.live
          && g.live[original] != "" then StandIn(g.live[original])
      else Send
  }

  /** A live copy stands in for a copy of c's setup. */
  function AfterStandIn(f: Fuzz, c: string, copy: string, live: string): (r: Fuzz)
    ensures SameCases(f, r)
  {
    if IsCaseOfTarget(f.layout, c) then Noting(WithSetup(f, c, Reused), c, CopyStood(copy, live, c)) else f
  }

  /** A copy of c's setup is about to be sent: with the first, whatever was live is no longer. */
  function Preparing(f: Fuzz, c: string): (r: Fuzz)
    ensures SameCases(f, r)
  {
    if !IsCaseOfTarget(f.layout, c) || GroupOf(f, c).building == c then f
    else
      WithSetup(WithGroup(f, c, GroupOf(f, c).(live := map[], clean := false, building := c)), c,
        if c in f.stale then Rebuilt else Fresh)
  }

  predicate NeedsRebuild(f: Fuzz, c: string, a: Answer) {
    IsCaseOfTarget(f.layout, c) && SetupOf(f, c) == Reused && c !in f.stale && StaleAnswer(a)
      && |CopiesOf(f.layout, c)| > 0
  }

  function AfterRebuild(f: Fuzz, c: string): (r: Fuzz)
    ensures r.layout == f.layout
    ensures r.stale == if IsCaseOfTarget(f.layout, c) then f.stale + {c} else f.stale
  {
    if IsCaseOfTarget(f.layout, c) then WithGroup(f, c, GroupOf(f, c).(clean := false)).(stale := f.stale + {c}) else f
  }

  function AfterCopySent(f: Fuzz, c: string, copy: string, original: string, a: Answer): (r: Fuzz)
    ensures SameCases(f, r)
  {
    if !IsCaseOfTarget(f.layout, c) then f
    else
      var g := GroupOf(f, c);
      Noting(WithGroup(f, c, g.(live := g.live[original := copy])), c, CopySent(copy, original, c, a))
  }

  function AfterCopyFailed(f: Fuzz, c: string, copy: string): (r: Fuzz)
    ensures SameCases(f, r)
  {
    if !IsCaseOfTarget(f.layout, c) then WithSetup(f, c, SetupFailed)
    else
      var g := GroupOf(f, c);
      var n := g.failures + 1;
      var failed := g.(clean := false, building := "", failures := n, stopped := g.stopped || n >= MaxSetupFailures);
      Noting(WithSetup(WithGroup(f, c, failed), c, SetupFailed), c, CopyFailed(copy, c))
  }

  /** A case was sent and answered, whatever is made of the answer. */
  function AfterAsking(f: Fuzz, c: string, a: Answer): (r: Fuzz)
    ensures SameCases(f, r)
  {
    if IsCaseOfTarget(f.layout, c) then Noting(f, c, CaseAsked(c, a)) else f
  }

  /** Whether an answer leaves a target's setup as it was. */
  predicate LeavesSetup(readOnly: bool, a: Answer) {
    !StaleAnswer(a) && (readOnly || Refused(a) || Throttled(a) || NotSent(a))
  }

  function AfterJudging(f: Fuzz, c: string, a: Answer): (r: Fuzz)
    ensures SameCases(f, r)
  {
    if !IsCaseOfTarget(f.layout, c) || SetupOf(f, c) == SetupFailed then f
    else
      WithGroup(f, c, GroupOf(f, c).(failures := 0, building := "",
        clean := LeavesSetup(InfoOf(f.layout, c).readOnly, a)))
  }

  function AfterTargetPassed(f: Fuzz, id: string): (r: Fuzz)
    ensures SameCases(f, r)
  {
    if id in f.layout.targets then f.(groups := f.groups[id := GroupAt(f, id).(passed := true)]) else f
  }

  // ---------- The order of the run ----------

  /** The copies, and the cases that stand on them, wait for the plan to be through. */
  predicate RunsAfterPlan(l: Layout, s: Step) {
    match s.kind
    case Own => false
    case CopyOf(_, _) => true
    case CaseOf(t) => t in l.targets && !l.targets[t].scope.Shared?
  }

  /** Whether the target a copy or a case was made for has got through. */
  predicate TargetPassed(f: Fuzz, s: Step) {
    match s.kind
    case Own => false
    case CopyOf(c, _) => IsCaseOfTarget(f.layout, c) && GroupOf(f, c).passed
    case CaseOf(t) => t in f.layout.targets && GroupAt(f, t).passed
  }
}
