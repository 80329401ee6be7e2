/** GenerateReport and the data the report template consumes: the summary
    record, the detail section (tests and their steps, in recorded order,
    with the fields the template shows only when present), and the
    client-side pass rate. Markup and styling are not modelled. */
module ReportRender {
  import opened Wrappers
  import opened ReportManager
  import opened ReportStats

  /** The record handed to the template. */
  datatype ReportData = ReportData(
    title: string,
    startTime: Time,
    tests: seq<Test>,
    totalTests: nat,
    totalSteps: nat,
    passedSteps: nat,
    failedSteps: nat)

  datatype ReportError =
    | CreateFailed(cause: string)    // os.Create of the report file failed
    | ExecuteFailed(cause: string)   // the template could not be executed into the file

  datatype Report = Report(path: string, data: ReportData)

  /** `filepath.Join("./reports", name)` drops the leading "./". */
  const ReportDir: string := "reports"

  /** The report file for a formatted timestamp ("20060102-150405" layout,
      kept opaque here). */
  function ReportPath(timestamp: string): (p: string)
    ensures |p| == |timestamp| + 20
    ensures p[..15] == "reports/report-" && p[|p| - 5..] == ".html"
    ensures p[15..|p| - 5] == timestamp
  {
    ReportDir + "/report-" + timestamp + ".html"
  }

  /** Creates the report file, computes the statistics and executes the
      template. The outcomes of `os.Create` and of the template execution are
      inputs; the directory creation's error is ignored, as in the source. */
  method GenerateReport(m: Manager, timestamp: string, createErr: Option<string>, executeErr: Option<string>)
    returns (r: Result<Report, ReportError>)
    ensures createErr.Some? ==> r == Err(CreateFailed(createErr.value))
    ensures createErr.None? && executeErr.Some? ==> r == Err(ExecuteFailed(executeErr.value))
    ensures createErr.None? && executeErr.None? ==> r.Ok?
    ensures r.Ok? ==>
      var d := r.value.data;
      && r.value.path == ReportPath(timestamp)
      && d.title == m.title && d.startTime == m.startTime && d.tests == m.tests
      && d.totalTests == |m.tests|
      && d.totalSteps == TotalSteps(m.tests)
      && d.passedSteps == CountStatus(m.tests, Success)
      && d.failedSteps == CountStatus(m.tests, Failure)
      && d.passedSteps + d.failedSteps <= d.totalSteps
      && (StatusesValid(m.tests) ==> d.totalSteps - d.passedSteps - d.failedSteps == CountStatus(m.tests, Running))
  {
    var path := ReportPath(timestamp);
    if createErr.Some? {
      return Err(CreateFailed(createErr.value));
    }
    var s := ComputeStats(m.tests);
    PassedPlusFailedAtMostTotal(m.tests);
    if StatusesValid(m.tests) {
      TotalIsPassedFailedRunning(m.tests);
    }
    var data := ReportData(m.title, m.startTime, m.tests, s.totalTests, s.totalSteps, s.passedSteps, s.failedSteps);
    if executeErr.Some? {
      return Err(ExecuteFailed(executeErr.value));
    }
    return Ok(Report(path, data));
  }

  /** The client-side pass rate, in percent; computed only when there is at
      least one step. The exact rational stands for the script's float. */
  function PassRate(d: ReportData): (r: Option<real>)
    ensures r.Some? <==> d.totalSteps > 0
    ensures r.Some? ==> r.value * d.totalSteps as real == d.passedSteps as real * 100.0
    ensures r.Some? && d.passedSteps <= d.totalSteps ==> 0.0 <= r.value <= 100.0
    ensures r.Some? ==> (r.value == 100.0 <==> d.passedSteps == d.totalSteps)
  {
    if d.totalSteps > 0 then Some((d.passedSteps as real / d.totalSteps as real) * 100.0) else None
  }

  /** One step as the detail section shows it: a hidden field is `None`. */
  datatype StepView = StepView(
    name: string,
    status: string,
    message: Option<string>,
    error: Option<string>,
    screenshot: Option<string>)

  /** One test as the detail section shows it. The message is always shown;
      the duration only when non-zero; the steps block only when non-empty. */
  datatype TestView = TestView(
    name: string,
    status: string,
    startTime: Time,
    duration: Option<Duration>,
    message: string,
    steps: Option<seq<StepView>>)

  /** One step's view. It hides nothing but the timestamp: every other field
      can be read back from it. Hence the message is shown exactly when
      non-empty, the error exactly when non-nil, and the screenshot exactly
      when its path is non-empty. */
  function StepDetail(s: TestStep): (v: StepView)
    ensures StepFromView(v, s.timestamp) == s
    ensures v.message.Some? <==> s.message != ""
    ensures v.error.Some? <==> s.error.Some?
    ensures v.screenshot.Some? <==> s.screenshot != ""
  {
    StepView(
      s.name,
      s.status,
      if s.message != "" then Some(s.message) else None,
      s.error,
      if s.screenshot != "" then Some(s.screenshot) else None)
  }

  /** The steps of one test, in recorded order. */
  function StepDetails(steps: seq<TestStep>): (vs: seq<StepView>)
    ensures |vs| == |steps|
    ensures forall j :: 0 <= j < |steps| ==> vs[j] == StepDetail(steps[j])
  {
    if |steps| == 0 then []
    else StepDetails(steps[..|steps| - 1]) + [StepDetail(steps[|steps| - 1])]
  }

  /** One test's view. It shows the duration exactly when it is non-zero, the
      steps block exactly when the test has steps, and then each step in
      order, recoverable from its view. */
  function TestDetail(t: Test): (v: TestView)
    ensures v.name == t.name && v.status == t.status && v.startTime == t.startTime
    ensures v.duration.Some? <==> t.duration != 0
    ensures v.duration.Some? ==> v.duration.value == t.duration
    ensures v.message == t.message
    ensures v.steps.Some? <==> |t.steps| > 0
    ensures v.steps.Some? ==>
      && |v.steps.value| == |t.steps|
      && forall j :: 0 <= j < |t.steps| ==> StepFromView(v.steps.value[j], t.steps[j].timestamp) == t.steps[j]
  {
    TestView(
      t.name,
      t.status,
      t.startTime,
      if t.duration != 0 then Some(t.duration) else None,
      t.message,
      if |t.steps| > 0 then Some(StepDetails(t.steps)) else None)
  }

  /** The detail section: every test, in recorded order. */
  function Detail(tests: seq<Test>): (vs: seq<TestView>)
    ensures |vs| == |tests|
    ensures forall i :: 0 <= i < |tests| ==> vs[i] == TestDetail(tests[i])
  {
    if |tests| == 0 then []
    else Detail(tests[..|tests| - 1]) + [TestDetail(tests[|tests| - 1])]
  }

  /** The step fields as recovered from a view, reading a hidden field as its
      zero value. */
  function StepFromView(v: StepView, timestamp: Time): TestStep {
    TestStep(
      v.name,
      v.status,
      match v.message case Some(x) => x case None => "",
      v.error,
      timestamp,
      match v.screenshot case Some(x) => x case None => "")
  }

  /** Number of step views under one test view. */
  function StepsShown(v: TestView): nat {
    match v.steps
    case Some(ss) => |ss|
    case None => 0
  }

  /** Number of step views in a detail section. */
  function ShownSteps(vs: seq<TestView>): nat {
    if |vs| == 0 then 0
    else ShownSteps(vs[..|vs| - 1]) + StepsShown(vs[|vs| - 1])
  }

  /** The detail section shows each recorded step exactly once: the number of
      step views equals the TotalSteps statistic. */
  lemma {:induction false} DetailShowsEveryStep(tests: seq<Test>)
    ensures ShownSteps(Detail(tests)) == TotalSteps(tests)
  {
    if |tests| > 0 {
      var n := |tests|;
      assert Detail(tests)[..n - 1] == Detail(tests[..n - 1]);
      DetailShowsEveryStep(tests[..n - 1]);
    }
  }
}
