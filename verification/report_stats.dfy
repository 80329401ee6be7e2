/** The statistics GenerateReport computes before rendering: total tests,
    total steps, passed steps and failed steps, together with reference
    counts they must agree with and how each recorder operation moves them. */
module ReportStats {
  import opened Wrappers
  import opened ReportManager

  function Ind(b: bool): nat {
    if b then 1 else 0
  }

  /** Number of steps in `steps` whose status is `status`. */
  function CountIn(steps: seq<TestStep>, status: string): nat {
    if |steps| == 0 then 0
    else CountIn(steps[..|steps| - 1], status) + Ind(steps[|steps| - 1].status == status)
  }

  /** Sum of the step counts of all tests. */
  function TotalSteps(tests: seq<Test>): nat {
    if |tests| == 0 then 0
    else TotalSteps(tests[..|tests| - 1]) + |tests[|tests| - 1].steps|
  }

  /** Number of steps, over all tests, whose status is `status`. */
  function CountStatus(tests: seq<Test>, status: string): nat {
    if |tests| == 0 then 0
    else CountStatus(tests[..|tests| - 1], status) + CountIn(tests[|tests| - 1].steps, status)
  }

  datatype Stats = Stats(totalTests: nat, totalSteps: nat, passedSteps: nat, failedSteps: nat)

  /** The counting loop of GenerateReport: every step of every test adds one
      to the total, and one to "passed" if it is "Success", else one to
      "failed" if it is "Failure". */
  method ComputeStats(tests: seq<Test>) returns (s: Stats)
    ensures s.totalTests == |tests|
    ensures s.totalSteps == TotalSteps(tests)
    ensures s.passedSteps == CountStatus(tests, Success)
    ensures s.failedSteps == CountStatus(tests, Failure)
  {
    var total, passed, failed := 0, 0, 0;
    var i := 0;
    while i < |tests|
      invariant 0 <= i <= |tests|
      invariant total == TotalSteps(tests[..i])
      invariant passed == CountStatus(tests[..i], Success)
      invariant failed == CountStatus(tests[..i], Failure)
    {
      var steps := tests[i].steps;
      var j := 0;
      while j < |steps|
        invariant 0 <= j <= |steps|
        invariant total == TotalSteps(tests[..i]) + j
        invariant passed == CountStatus(tests[..i], Success) + CountIn(steps[..j], Success)
        invariant failed == CountStatus(tests[..i], Failure) + CountIn(steps[..j], Failure)
      {
        assert steps[..j + 1][..j] == steps[..j];
        total := total + 1;
        if steps[j].status == Success {
          passed := passed + 1;
        } else if steps[j].status == Failure {
          failed := failed + 1;
        }
        j := j + 1;
      }
      assert steps[..j] == steps;
      assert tests[..i + 1][..i] == tests[..i];
      i := i + 1;
    }
    assert tests[..i] == tests;
    s := Stats(|tests|, total, passed, failed);
  }

  /** Within one test, "Success" and "Failure" steps never outnumber the steps. */
  lemma {:induction false} CountInBound(steps: seq<TestStep>)
    ensures CountIn(steps, Success) + CountIn(steps, Failure) <= |steps|
  {
    if |steps| > 0 {
      CountInBound(steps[..|steps| - 1]);
    }
  }

  /** Passed + Failed never exceeds Total, whatever the statuses are. */
  lemma {:induction false} PassedPlusFailedAtMostTotal(tests: seq<Test>)
    ensures CountStatus(tests, Success) + CountStatus(tests, Failure) <= TotalSteps(tests)
  {
    if |tests| > 0 {
      PassedPlusFailedAtMostTotal(tests[..|tests| - 1]);
      CountInBound(tests[|tests| - 1].steps);
    }
  }

  /** Within one test whose statuses are all valid, every step is counted in
      exactly one of the three buckets. */
  lemma {:induction false} StepsPartition(steps: seq<TestStep>)
    requires forall j :: 0 <= j < |steps| ==> IsStatus(steps[j].status)
    ensures CountIn(steps, Success) + CountIn(steps, Failure) + CountIn(steps, Running) == |steps|
  {
    if |steps| > 0 {
      StepsPartition(steps[..|steps| - 1]);
    }
  }

  /** Over a whole run with valid statuses: Total = Passed + Failed + Running,
      so Total - (Passed + Failed) is exactly the number of "Running" steps. */
  lemma {:induction false} TotalIsPassedFailedRunning(tests: seq<Test>)
    requires StatusesValid(tests)
    ensures TotalSteps(tests) ==
      CountStatus(tests, Success) + CountStatus(tests, Failure) + CountStatus(tests, Running)
  {
    if |tests| > 0 {
      var init := tests[..|tests| - 1];
      assert StatusesValid(init) by {
        forall i | 0 <= i < |init| ensures IsStatus(init[i].status) {
          assert init[i] == tests[i];
        }
      }
      TotalIsPassedFailedRunning(init);
      StepsPartition(tests[|tests| - 1].steps);
    }
  }

  /** Counting after one step is replaced. */
  lemma {:induction false} CountInAfterUpdate(steps: seq<TestStep>, j: nat, x: TestStep, status: string)
    requires j < |steps|
    ensures CountIn(steps[j := x], status) + Ind(steps[j].status == status)
         == CountIn(steps, status) + Ind(x.status == status)
  {
    var n := |steps|;
    var u := steps[j := x];
    if j == n - 1 {
      assert u[..n - 1] == steps[..n - 1];
    } else {
      assert u[..n - 1] == steps[..n - 1][j := x];
      CountInAfterUpdate(steps[..n - 1], j, x, status);
    }
  }

  /** Counting after one test is replaced. */
  lemma {:induction false} CountStatusAfterUpdate(tests: seq<Test>, i: nat, t: Test, status: string)
    requires i < |tests|
    ensures CountStatus(tests[i := t], status) + CountIn(tests[i].steps, status)
         == CountStatus(tests, status) + CountIn(t.steps, status)
  {
    var n := |tests|;
    var u := tests[i := t];
    if i == n - 1 {
      assert u[..n - 1] == tests[..n - 1];
    } else {
      assert u[..n - 1] == tests[..n - 1][i := t];
      CountStatusAfterUpdate(tests[..n - 1], i, t, status);
    }
  }

  /** Total steps after one test is replaced. */
  lemma {:induction false} TotalAfterUpdate(tests: seq<Test>, i: nat, t: Test)
    requires i < |tests|
    ensures TotalSteps(tests[i := t]) + |tests[i].steps| == TotalSteps(tests) + |t.steps|
  {
    var n := |tests|;
    var u := tests[i := t];
    if i == n - 1 {
      assert u[..n - 1] == tests[..n - 1];
    } else {
      assert u[..n - 1] == tests[..n - 1][i := t];
      TotalAfterUpdate(tests[..n - 1], i, t);
    }
  }

  /** StartStep on a manager with a current test adds exactly one step, and it
      lands in the "Running" bucket: Total and Running grow by one, Passed and
      Failed stay. */
  lemma StartStepStats(m: Manager, name: string, now: Time)
    requires Valid(m) && m.currentTest.Some?
    ensures var r := StartStep(m, name, now);
      && TotalSteps(r.tests) == TotalSteps(m.tests) + 1
      && CountStatus(r.tests, Running) == CountStatus(m.tests, Running) + 1
      && CountStatus(r.tests, Success) == CountStatus(m.tests, Success)
      && CountStatus(r.tests, Failure) == CountStatus(m.tests, Failure)
  {
    var r := StartStep(m, name, now);
    var i := m.currentTest.value;
    var old_steps := m.tests[i].steps;
    assert r.tests == m.tests[i := r.tests[i]];
    assert r.tests[i].steps[..|old_steps|] == old_steps;
    TotalAfterUpdate(m.tests, i, r.tests[i]);
    CountStatusAfterUpdate(m.tests, i, r.tests[i], Running);
    CountStatusAfterUpdate(m.tests, i, r.tests[i], Success);
    CountStatusAfterUpdate(m.tests, i, r.tests[i], Failure);
  }

  /** How ending the current step with `status` moves the buckets: the step
      leaves the bucket of its previous status and joins that of `status`;
      Total is unchanged. */
  lemma EndStepStats(m: Manager, r: Manager, status: string, bucket: string)
    requires Valid(m) && m.currentStep.Some?
    requires var (i, j) := m.currentStep.value;
      && |r.tests| == |m.tests|
      && |r.tests[i].steps| == |m.tests[i].steps|
      && r.tests[i].steps == m.tests[i].steps[j := r.tests[i].steps[j]]
      && r.tests == m.tests[i := r.tests[i]]
      && r.tests[i].steps[j].status == status
    ensures TotalSteps(r.tests) == TotalSteps(m.tests)
    ensures CountStatus(r.tests, bucket) + Ind(CurrentStepOf(m).status == bucket)
         == CountStatus(m.tests, bucket) + Ind(status == bucket)
  {
    var (i, j) := m.currentStep.value;
    TotalAfterUpdate(m.tests, i, r.tests[i]);
    CountInAfterUpdate(m.tests[i].steps, j, r.tests[i].steps[j], bucket);
    CountStatusAfterUpdate(m.tests, i, r.tests[i], bucket);
  }

  /** EndStepSuccess on a step still "Running": Passed grows by one, Running
      shrinks by one, Failed and Total stay. */
  lemma EndStepSuccessStats(m: Manager, message: string)
    requires Valid(m) && m.currentStep.Some? && CurrentStepOf(m).status == Running
    ensures var r := EndStepSuccess(m, message);
      && TotalSteps(r.tests) == TotalSteps(m.tests)
      && CountStatus(r.tests, Success) == CountStatus(m.tests, Success) + 1
      && CountStatus(r.tests, Running) + 1 == CountStatus(m.tests, Running)
      && CountStatus(r.tests, Failure) == CountStatus(m.tests, Failure)
  {
    var r := EndStepSuccess(m, message);
    EndStepStats(m, r, Success, Success);
    EndStepStats(m, r, Success, Running);
    EndStepStats(m, r, Success, Failure);
  }

  /** EndStepFailure on a step still "Running": Failed grows by one, Running
      shrinks by one, Passed and Total stay. */
  lemma EndStepFailureStats(m: Manager, message: string, err: Option<string>, screenshot: string)
    requires Valid(m) && m.currentStep.Some? && CurrentStepOf(m).status == Running
    ensures var r := EndStepFailure(m, message, err, screenshot);
      && TotalSteps(r.tests) == TotalSteps(m.tests)
      && CountStatus(r.tests, Failure) == CountStatus(m.tests, Failure) + 1
      && CountStatus(r.tests, Running) + 1 == CountStatus(m.tests, Running)
      && CountStatus(r.tests, Success) == CountStatus(m.tests, Success)
  {
    var r := EndStepFailure(m, message, err, screenshot);
    EndStepStats(m, r, Failure, Success);
    EndStepStats(m, r, Failure, Running);
    EndStepStats(m, r, Failure, Failure);
  }
}
