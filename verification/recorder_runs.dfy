/** Sequences of recorder calls: the invariants every run keeps, the two
    cursor quirks of the recorder, and the three-step login flow of the entry
    point with the browser's outcomes as inputs. */
module RecorderRuns {
  import opened Wrappers
  import opened ReportManager
  import opened ReportStats

  /** One call on the recorder. */
  datatype Command =
    | StartTestCmd(name: string, now: Time)
    | StartStepCmd(name: string, now: Time)
    | EndStepSuccessCmd(message: string)
    | EndStepFailureCmd(message: string, err: Option<string>, screenshot: string)
    | LogSuccessCmd(message: string, duration: Duration, now: Time)
    | LogFailureCmd(message: string, duration: Duration, now: Time)

  /** Append-only growth: no test or step disappears, and the identity of
      every existing test and step (name and start time) is kept. */
  ghost predicate Extends(m: Manager, r: Manager) {
    && r.title == m.title && r.startTime == m.startTime
    && |m.tests| <= |r.tests|
    && forall i :: 0 <= i < |m.tests| ==>
         && r.tests[i].name == m.tests[i].name
         && r.tests[i].startTime == m.tests[i].startTime
         && |m.tests[i].steps| <= |r.tests[i].steps|
         && forall j :: 0 <= j < |m.tests[i].steps| ==>
              r.tests[i].steps[j].name == m.tests[i].steps[j].name &&
              r.tests[i].steps[j].timestamp == m.tests[i].steps[j].timestamp
  }

  lemma ExtendsTransitive(a: Manager, b: Manager, c: Manager)
    requires Extends(a, b) && Extends(b, c)
    ensures Extends(a, c)
  {
  }

  function Apply(m: Manager, c: Command): (r: Manager)
    requires Valid(m)
    ensures Valid(r)
    ensures Extends(m, r)
  {
    match c
    case StartTestCmd(name, now) => StartTest(m, name, now)
    case StartStepCmd(name, now) => StartStep(m, name, now)
    case EndStepSuccessCmd(message) => EndStepSuccess(m, message)
    case EndStepFailureCmd(message, err, screenshot) => EndStepFailure(m, message, err, screenshot)
    case LogSuccessCmd(message, duration, now) => LogSuccess(m, message, duration, now)
    case LogFailureCmd(message, duration, now) => LogFailure(m, message, duration, now)
  }

  /** Any sequence of calls keeps the representation invariant (so every
      status stays in the domain) and only ever grows the record. */
  function Run(m: Manager, cs: seq<Command>): (r: Manager)
    requires Valid(m)
    ensures Valid(r)
    ensures Extends(m, r)
    decreases |cs|
  {
    if |cs| == 0 then m
    else
      var m' := Apply(m, cs[0]);
      var r := Run(m', cs[1..]);
      ExtendsTransitive(m, m', r);
      r
  }

  /** After any run from a fresh recorder, Total = Passed + Failed + Running. */
  lemma RunCountsPartition(title: string, now: Time, cs: seq<Command>)
    ensures var r := Run(NewReportManager(title, now), cs);
      TotalSteps(r.tests) ==
        CountStatus(r.tests, Success) + CountStatus(r.tests, Failure) + CountStatus(r.tests, Running)
  {
    TotalIsPassedFailedRunning(Run(NewReportManager(title, now), cs).tests);
  }

  /** Calls that start steps only. */
  predicate OnlyStartSteps(cs: seq<Command>) {
    forall k :: 0 <= k < |cs| ==> cs[k].StartStepCmd?
  }

  /** StartStep calls without a preceding StartTest record nothing and raise
      nothing: the recorder is left exactly as created. */
  lemma {:induction false} StartStepsWithoutTestRecordNothing(title: string, now: Time, cs: seq<Command>)
    requires OnlyStartSteps(cs)
    ensures Run(NewReportManager(title, now), cs) == NewReportManager(title, now)
  {
    if |cs| > 0 {
      assert OnlyStartSteps(cs[1..]) by {
        forall k | 0 <= k < |cs[1..]| ensures cs[1..][k].StartStepCmd? {
          assert cs[1..][k] == cs[k + 1];
        }
      }
      StartStepsWithoutTestRecordNothing(title, now, cs[1..]);
    }
  }

  /** StartStep changes nothing exactly when no test has been started. */
  lemma StartStepNoopIffNoTests(m: Manager, name: string, now: Time)
    requires Valid(m)
    ensures StartStep(m, name, now) == m <==> |m.tests| == 0
  {
    if |m.tests| > 0 {
      var i := m.currentTest.value;
      assert |StartStep(m, name, now).tests[i].steps| == |m.tests[i].steps| + 1;
    }
  }

  /** StartTest does not reset the current step: an EndStepSuccess issued
      right after it (before any StartStep) ends the last step started in an
      earlier test, and the new test stays without steps. */
  lemma EndStepAfterStartTestHitsEarlierTest(m: Manager, name: string, now: Time, message: string)
    requires Valid(m) && m.currentStep.Some?
    ensures var r := EndStepSuccess(StartTest(m, name, now), message);
      var (i, j) := m.currentStep.value;
      && i < |m.tests| < |r.tests|
      && r.tests[i].steps[j].status == Success
      && r.tests[i].steps[j].message == message
      && r.tests[|m.tests|].steps == []
      && r.tests[|m.tests|].status == Running
  {
  }

  /** The same for EndStepFailure. */
  lemma EndStepFailureAfterStartTestHitsEarlierTest(m: Manager, name: string, now: Time,
                                                    message: string, err: Option<string>, screenshot: string)
    requires Valid(m) && m.currentStep.Some?
    ensures var r := EndStepFailure(StartTest(m, name, now), message, err, screenshot);
      var (i, j) := m.currentStep.value;
      && i < |m.tests| < |r.tests|
      && r.tests[i].steps[j].status == Failure
      && r.tests[i].steps[j].screenshot == screenshot
      && r.tests[|m.tests|].steps == []
      && r.tests[|m.tests|].status == Running
  {
  }

  /** Ending a test does not clear the current test: a later StartStep still
      appends a "Running" step to the test that was already ended, which keeps
      its terminal status. */
  lemma StepAfterLogAttachesToEndedTest(m: Manager, success: bool, message: string, duration: Duration,
                                        now: Time, name: string, later: Time)
    requires Valid(m) && m.currentTest.Some?
    ensures var ended := if success then LogSuccess(m, message, duration, now) else LogFailure(m, message, duration, now);
      var r := StartStep(ended, name, later);
      var i := m.currentTest.value;
      && r.currentTest == Some(i)
      && r.tests[i].status == (if success then Success else Failure)
      && |r.tests[i].steps| == |m.tests[i].steps| + 1
      && r.tests[i].steps[|m.tests[i].steps|] == TestStep(name, Running, "", None, later, "")
      && r.currentStep == Some((i, |m.tests[i].steps|))
  {
  }

  /** The browser's answers in the login flow: the error of navigating, the
      error of logging in, and the verification's result and error. */
  datatype LoginOutcome = LoginOutcome(
    navigateErr: Option<string>,
    loginErr: Option<string>,
    verified: bool,
    verifyErr: Option<string>)

  const LoginTitle: string := "登录测试"
  const NavigateShot: string := "screenshots/navigate_failure.png"
  const LoginShot: string := "screenshots/login_failure.png"
  const VerifyShot: string := "screenshots/verification_failure.png"

  predicate VerifyFails(o: LoginOutcome) {
    o.verifyErr.Some? || !o.verified
  }

  predicate LoginSucceeds(o: LoginOutcome) {
    o.navigateErr.None? && o.loginErr.None? && !VerifyFails(o)
  }

  /** Number of steps the flow starts: it stops after the first failing step. */
  function StepsAttempted(o: LoginOutcome): nat {
    if o.navigateErr.Some? then 1 else if o.loginErr.Some? then 2 else 3
  }

  /** One action of the flow: start a step, then end it with success or
      with failure (message, error and screenshot path). Without a current
      test nothing is recorded; otherwise exactly one step, already ended,
      is appended to the current test, and nothing else changes. */
  function Step(m: Manager, name: string, now: Time, failed: bool,
                okMessage: string, failMessage: string, err: Option<string>, screenshot: string): (r: Manager)
    requires Valid(m)
    ensures Valid(r)
    ensures m.currentTest.None? ==> r == m
    ensures m.currentTest.Some? ==>
      var i := m.currentTest.value;
      && |r.tests| == |m.tests|
      && (forall k :: 0 <= k < |m.tests| && k != i ==> r.tests[k] == m.tests[k])
      && r.tests[i] == m.tests[i].(steps := m.tests[i].steps + [
           if failed then TestStep(name, Failure, failMessage, err, now, screenshot)
           else TestStep(name, Success, okMessage, None, now, "")])
      && r.currentTest == m.currentTest && r.currentStep == Some((i, |m.tests[i].steps|))
      && r.title == m.title && r.startTime == m.startTime
  {
    var m' := StartStep(m, name, now);
    if failed then EndStepFailure(m', failMessage, err, screenshot)
    else EndStepSuccess(m', okMessage)
  }

  /** The three steps after StartTest; the boolean is the try block's verdict.
      The steps stop after the first failing action, so the current test
      gains one step per attempted action: all "Success" but a failing last
      one, which carries its screenshot path. The screenshot capture's error
      is ignored by the flow, so its path is recorded whether or not the
      capture worked. */
  function LoginSteps(m: Manager, o: LoginOutcome, now: Time): (res: (Manager, bool))
    requires Valid(m)
    ensures Valid(res.0)
    ensures res.1 == LoginSucceeds(o)
    ensures m.currentTest.None? ==> res.0 == m
    ensures m.currentTest.Some? ==>
      var i := m.currentTest.value;
      var n := |m.tests[i].steps|;
      var k := StepsAttempted(o);
      && |res.0.tests| == |m.tests|
      && (forall q :: 0 <= q < |m.tests| && q != i ==> res.0.tests[q] == m.tests[q])
      && |res.0.tests[i].steps| == n + k
      && res.0.tests[i] == m.tests[i].(steps := res.0.tests[i].steps)
      && res.0.tests[i].steps[..n] == m.tests[i].steps
      && (forall j :: n <= j < n + k - 1 ==> res.0.tests[i].steps[j].status == Success)
      && res.0.tests[i].steps[n + k - 1].status == (if res.1 then Success else Failure)
      && (!res.1 ==> res.0.tests[i].steps[n + k - 1].screenshot == FailureShot(k))
      && res.0.currentTest == m.currentTest
      && res.0.title == m.title && res.0.startTime == m.startTime
  {
    var m1 := Step(m, "导航到登录页面", now, o.navigateErr.Some?,
                   "成功导航到登录页面", "导航到登录页面失败", o.navigateErr, NavigateShot);
    if o.navigateErr.Some? then (m1, false)
    else
      var m2 := Step(m1, "执行登录操作", now, o.loginErr.Some?,
                     "成功执行登录操作", "登录失败", o.loginErr, LoginShot);
      if o.loginErr.Some? then (m2, false)
      else
        var m3 := Step(m2, "验证登录结果", now, VerifyFails(o),
                       "成功验证登录结果", "验证登录失败", o.verifyErr, VerifyShot);
        (m3, !VerifyFails(o))
  }

  /** The screenshot path recorded when the k-th action (1-based) fails. */
  function FailureShot(k: nat): string {
    if k == 1 then NavigateShot else if k == 2 then LoginShot else VerifyShot
  }

  /** The whole login flow of the entry point, up to (not including) the
      report generation. One clock value stands for every `time.Now()`. It
      records one test named after the run, holding one step per action up
      to and including the first failure; every step but a failing last one
      is "Success"; the test fails exactly when some step failed; and the
      failing step carries its screenshot path. */
  function LoginFlow(o: LoginOutcome, now: Time, duration: Duration): (r: Manager)
    ensures Valid(r)
    ensures r.title == LoginTitle && r.startTime == now
    ensures var k := StepsAttempted(o);
      && |r.tests| == 1
      && r.tests[0].name == LoginTitle
      && |r.tests[0].steps| == k
      && r.tests[0].status == (if LoginSucceeds(o) then Success else Failure)
      && r.tests[0].duration == duration
      && (forall j :: 0 <= j < k - 1 ==> r.tests[0].steps[j].status == Success)
      && r.tests[0].steps[k - 1].status == (if LoginSucceeds(o) then Success else Failure)
      && (!LoginSucceeds(o) ==> r.tests[0].steps[k - 1].screenshot == FailureShot(k))
  {
    var m := StartTest(NewReportManager(LoginTitle, now), LoginTitle, now);
    var (m', ok) := LoginSteps(m, o, now);
    if ok then LogSuccess(m', "登录测试成功", duration, now)
    else LogFailure(m', "登录测试失败", duration, now)
  }

  /** In a run holding a single test, the run-wide counts are that test's. */
  lemma SingleTestCounts(tests: seq<Test>, status: string)
    requires |tests| == 1
    ensures TotalSteps(tests) == |tests[0].steps|
    ensures CountStatus(tests, status) == CountIn(tests[0].steps, status)
  {
    assert tests[..0] == [];
  }

  /** The count of `status` in a list whose first n - 1 steps are "Success"
      and whose last step has status `last`. */
  lemma {:induction false} CountSuccessesThenLast(steps: seq<TestStep>, last: string, status: string)
    requires |steps| > 0
    requires forall j :: 0 <= j < |steps| - 1 ==> steps[j].status == Success
    requires steps[|steps| - 1].status == last
    ensures CountIn(steps, status) ==
      (if status == Success then |steps| - 1 else 0) + Ind(last == status)
  {
    var init := steps[..|steps| - 1];
    AllSuccessCount(init, status);
  }

  lemma {:induction false} AllSuccessCount(steps: seq<TestStep>, status: string)
    requires forall j :: 0 <= j < |steps| ==> steps[j].status == Success
    ensures CountIn(steps, status) == (if status == Success then |steps| else 0)
  {
    if |steps| > 0 {
      AllSuccessCount(steps[..|steps| - 1], status);
    }
  }

  /** The login flow's statistics: TotalSteps is the number of steps
      attempted, at most one step fails, and none is left "Running". */
  lemma LoginFlowStats(o: LoginOutcome, now: Time, duration: Duration)
    ensures var r := LoginFlow(o, now, duration);
      && TotalSteps(r.tests) == StepsAttempted(o)
      && CountStatus(r.tests, Failure) == (if LoginSucceeds(o) then 0 else 1)
      && CountStatus(r.tests, Success) == (if LoginSucceeds(o) then 3 else StepsAttempted(o) - 1)
      && CountStatus(r.tests, Running) == 0
  {
    var r := LoginFlow(o, now, duration);
    var steps := r.tests[0].steps;
    var last := if LoginSucceeds(o) then Success else Failure;
    SingleTestCounts(r.tests, Success);
    SingleTestCounts(r.tests, Failure);
    SingleTestCounts(r.tests, Running);
    CountSuccessesThenLast(steps, last, Success);
    CountSuccessesThenLast(steps, last, Failure);
    CountSuccessesThenLast(steps, last, Running);
  }
}
