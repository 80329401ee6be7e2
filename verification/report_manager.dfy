/** The run recorder: a list of Tests, each owning an ordered list of Steps,
    plus a "current test" and a "current step" cursor.

    The recorder keeps its cursors as pointers into its own slices. Here they
    are indices: `currentTest` indexes `tests`, `currentStep` is a pair
    (test index, step index). `Valid` is the index form of "the pointers
    point into the manager's own storage", and every operation keeps it. */
module ReportManager {
  import opened Wrappers

  /** An instant, kept abstract; 0 stands for Go's zero `time.Time`. */
  type Time = int
  /** A `time.Duration`: a count of nanoseconds. */
  type Duration = int

  const ZeroTime: Time := 0

  const Running: string := "Running"
  const Success: string := "Success"
  const Failure: string := "Failure"

  /** The three status strings the recorder ever writes. */
  predicate IsStatus(s: string) {
    s == Running || s == Success || s == Failure
  }

  /** `error` is Go's nil-able interface: `None` is nil, `Some(text)` is its `Error()` text. */
  datatype TestStep = TestStep(
    name: string,
    status: string,
    message: string,
    error: Option<string>,
    timestamp: Time,
    screenshot: string)

  datatype Test = Test(
    name: string,
    status: string,
    message: string,
    startTime: Time,
    endTime: Time,
    duration: Duration,
    steps: seq<TestStep>)

  datatype Manager = Manager(
    title: string,
    startTime: Time,
    tests: seq<Test>,
    currentTest: Option<nat>,
    currentStep: Option<(nat, nat)>)

  /** Every Test and Step status is one of the three status strings. */
  ghost predicate StatusesValid(tests: seq<Test>) {
    forall i :: 0 <= i < |tests| ==>
      IsStatus(tests[i].status) &&
      forall j :: 0 <= j < |tests[i].steps| ==> IsStatus(tests[i].steps[j].status)
  }

  /** The cursors as the recorder leaves them: the current test is always the
      last one started (and unset only while no test exists); the current step
      is always the last step of the test it lies in, and can only be set once
      some test was started. */
  ghost predicate CursorsValid(m: Manager) {
    && (m.currentTest.None? <==> |m.tests| == 0)
    && (m.currentTest.Some? ==> m.currentTest.value == |m.tests| - 1)
    && (m.currentStep.Some? ==>
          && m.currentTest.Some?
          && m.currentStep.value.0 < |m.tests|
          && m.currentStep.value.1 == |m.tests[m.currentStep.value.0].steps| - 1)
  }

  ghost predicate Valid(m: Manager) {
    StatusesValid(m.tests) && CursorsValid(m)
  }

  /** The step the cursor designates. */
  function CurrentStepOf(m: Manager): TestStep
    requires Valid(m) && m.currentStep.Some?
  {
    m.tests[m.currentStep.value.0].steps[m.currentStep.value.1]
  }

  /** A new recorder: no tests and no cursors. */
  function NewReportManager(title: string, now: Time): (r: Manager)
    ensures Valid(r)
    ensures r.title == title && r.startTime == now
    ensures |r.tests| == 0 && r.currentTest.None? && r.currentStep.None?
  {
    Manager(title, now, [], None, None)
  }

  /** Appends one fresh "Running" test and makes it current. The current step
      is left where it was: it may still designate a step of an earlier test. */
  function StartTest(m: Manager, name: string, now: Time): (r: Manager)
    requires Valid(m)
    ensures Valid(r)
    ensures |r.tests| == |m.tests| + 1
    ensures r.tests[..|m.tests|] == m.tests
    ensures r.tests[|m.tests|] == Test(name, Running, "", now, ZeroTime, 0, [])
    ensures r.currentTest == Some(|m.tests|)
    ensures r.currentStep == m.currentStep
    ensures r.title == m.title && r.startTime == m.startTime
  {
    var t := Test(name, Running, "", now, ZeroTime, 0, []);
    m.(tests := m.tests + [t], currentTest := Some(|m.tests|))
  }

  /** With no current test: nothing happens. Otherwise appends one "Running"
      step to the current test only and makes it the current step. */
  function StartStep(m: Manager, name: string, now: Time): (r: Manager)
    requires Valid(m)
    ensures Valid(r)
    ensures m.currentTest.None? ==> r == m
    ensures m.currentTest.Some? ==>
      var i := m.currentTest.value;
      && |r.tests| == |m.tests|
      && (forall k :: 0 <= k < |m.tests| && k != i ==> r.tests[k] == m.tests[k])
      && r.tests[i].steps == m.tests[i].steps + [TestStep(name, Running, "", None, now, "")]
      && r.tests[i] == m.tests[i].(steps := r.tests[i].steps)
      && r.currentTest == m.currentTest
      && r.currentStep == Some((i, |m.tests[i].steps|))
      && r.title == m.title && r.startTime == m.startTime
  {
    match m.currentTest
    case None => m
    case Some(i) =>
      var t := m.tests[i];
      var step := TestStep(name, Running, "", None, now, "");
      m.(tests := m.tests[i := t.(steps := t.steps + [step])],
         currentStep := Some((i, |t.steps|)))
  }

  /** Replaces step (i, j) by `s`, leaving every other record as it was. */
  function SetStep(tests: seq<Test>, i: nat, j: nat, s: TestStep): (r: seq<Test>)
    requires i < |tests| && j < |tests[i].steps|
    ensures |r| == |tests|
    ensures forall k :: 0 <= k < |tests| && k != i ==> r[k] == tests[k]
    ensures |r[i].steps| == |tests[i].steps|
    ensures r[i].steps[j] == s
    ensures forall l :: 0 <= l < |tests[i].steps| && l != j ==> r[i].steps[l] == tests[i].steps[l]
    ensures r[i] == tests[i].(steps := r[i].steps)
  {
    tests[i := tests[i].(steps := tests[i].steps[j := s])]
  }

  /** With no current step: nothing happens. Otherwise the current step, and
      nothing else, becomes "Success" with the given message. */
  function EndStepSuccess(m: Manager, message: string): (r: Manager)
    requires Valid(m)
    ensures Valid(r)
    ensures m.currentStep.None? ==> r == m
    ensures m.currentStep.Some? ==>
      var (i, j) := m.currentStep.value;
      && r.tests == SetStep(m.tests, i, j, m.tests[i].steps[j].(status := Success, message := message))
      && r.currentTest == m.currentTest && r.currentStep == m.currentStep
      && r.title == m.title && r.startTime == m.startTime
  {
    match m.currentStep
    case None => m
    case Some((i, j)) =>
      var s := m.tests[i].steps[j];
      m.(tests := SetStep(m.tests, i, j, s.(status := Success, message := message)))
  }

  /** With no current step: nothing happens. Otherwise the current step, and
      nothing else, becomes "Failure" with the given message, error and
      screenshot path. */
  function EndStepFailure(m: Manager, message: string, err: Option<string>, screenshot: string): (r: Manager)
    requires Valid(m)
    ensures Valid(r)
    ensures m.currentStep.None? ==> r == m
    ensures m.currentStep.Some? ==>
      var (i, j) := m.currentStep.value;
      && r.tests == SetStep(m.tests, i, j,
           m.tests[i].steps[j].(status := Failure, message := message, error := err, screenshot := screenshot))
      && r.currentTest == m.currentTest && r.currentStep == m.currentStep
      && r.title == m.title && r.startTime == m.startTime
  {
    match m.currentStep
    case None => m
    case Some((i, j)) =>
      var s := m.tests[i].steps[j];
      m.(tests := SetStep(m.tests, i, j, s.(status := Failure, message := message, error := err, screenshot := screenshot)))
  }

  /** Ends the current test with `status`; shared by LogSuccess and LogFailure. */
  function EndTest(m: Manager, status: string, message: string, duration: Duration, now: Time): (r: Manager)
    requires Valid(m) && (status == Success || status == Failure)
    ensures Valid(r)
    ensures m.currentTest.None? ==> r == m
    ensures m.currentTest.Some? ==>
      var i := m.currentTest.value;
      && |r.tests| == |m.tests|
      && (forall k :: 0 <= k < |m.tests| && k != i ==> r.tests[k] == m.tests[k])
      && r.tests[i] == m.tests[i].(status := status, message := message, endTime := now, duration := duration)
      && r.currentTest == m.currentTest && r.currentStep == m.currentStep
      && r.title == m.title && r.startTime == m.startTime
  {
    match m.currentTest
    case None => m
    case Some(i) =>
      m.(tests := m.tests[i := m.tests[i].(status := status, message := message, endTime := now, duration := duration)])
  }

  /** With no current test: nothing happens. Otherwise the current test becomes
      "Success" with message, end time and duration; its steps are kept and it
      stays the current test. */
  function LogSuccess(m: Manager, message: string, duration: Duration, now: Time): (r: Manager)
    requires Valid(m)
    ensures Valid(r)
    ensures m.currentTest.None? ==> r == m
    ensures m.currentTest.Some? ==>
      var i := m.currentTest.value;
      && |r.tests| == |m.tests|
      && (forall k :: 0 <= k < |m.tests| && k != i ==> r.tests[k] == m.tests[k])
      && r.tests[i].status == Success && r.tests[i].message == message
      && r.tests[i].endTime == now && r.tests[i].duration == duration
      && r.tests[i].steps == m.tests[i].steps
      && r.tests[i].name == m.tests[i].name && r.tests[i].startTime == m.tests[i].startTime
      && r.currentTest == m.currentTest && r.currentStep == m.currentStep
      && r.title == m.title && r.startTime == m.startTime
  {
    EndTest(m, Success, message, duration, now)
  }

  /** As LogSuccess, with status "Failure". */
  function LogFailure(m: Manager, message: string, duration: Duration, now: Time): (r: Manager)
    requires Valid(m)
    ensures Valid(r)
    ensures m.currentTest.None? ==> r == m
    ensures m.currentTest.Some? ==>
      var i := m.currentTest.value;
      && |r.tests| == |m.tests|
      && (forall k :: 0 <= k < |m.tests| && k != i ==> r.tests[k] == m.tests[k])
      && r.tests[i].status == Failure && r.tests[i].message == message
      && r.tests[i].endTime == now && r.tests[i].duration == duration
      && r.tests[i].steps == m.tests[i].steps
      && r.tests[i].name == m.tests[i].name && r.tests[i].startTime == m.tests[i].startTime
      && r.currentTest == m.currentTest && r.currentStep == m.currentStep
      && r.title == m.title && r.startTime == m.startTime
  {
    EndTest(m, Failure, message, duration, now)
  }
}
