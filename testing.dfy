/**
  The grading of a submitted program against a coding problem's test
  cases, `TestingService` in
  `src/main/java/com/coderacer/service/TestingService.java`.

  The code-execution client is a remote call. Here it is a function
  parameter `execute` from the code and a test's inputs to what the call
  produced: a result, or an exception. `runSingleTest` catches every
  exception, so for grading nothing else about the call matters.
*/
module Testing {
  import opened Strings
  import opened Wrappers

  /** `ExecutionResultDTO.Result`. */
  datatype ExecStatus = Success | OutputMismatch | CompilationError | RuntimeError | Timeout

  /** The fields of `ExecutionResultDTO` that grading reads. */
  datatype ExecutionResult = ExecutionResult(result: ExecStatus, outputLines: seq<string>)

  /** What `codeExecutionClient.executeCode` did: returned a result or threw. */
  datatype Outcome = Threw | Returned(execution: ExecutionResult)

  /** A test case: the input lines handed to the program and the lines it must print. */
  datatype TestCase = TestCase(inputs: seq<string>, expectedOutputs: seq<string>)

  /** The part of `CodingProblem` that grading reads. */
  datatype CodingProblem = CodingProblem(testCases: seq<TestCase>)

  /** The fields of `TestResultDTO` that `testCode` fills in. */
  datatype TestResult = TestResult(problemId: nat, totalTests: nat, passedTests: nat, allPassed: bool)

  /** `CodingProblemNotFoundException`. */
  datatype TestingError = CodingProblemNotFound(problemId: nat)

  // ================================================================ comparing

  /** The expected and the actual lines agree pairwise once both are trimmed. */
  predicate OutputsMatch(expected: seq<string>, actual: seq<string>) {
    |expected| == |actual|
    && forall i :: 0 <= i < |expected| ==> JavaTrim(expected[i]) == JavaTrim(actual[i])
  }

  /** `compareOutputs`: different lengths fail at once; otherwise the first
      pair that differs after `trim()` fails, and no such pair means success. */
  method CompareOutputs(expected: seq<string>, actual: seq<string>) returns (equal: bool)
    ensures equal <==> OutputsMatch(expected, actual)
  {
    if |expected| != |actual| {
      return false;
    }
    var i := 0;
    while i < |expected|
      invariant 0 <= i <= |expected|
      invariant forall j :: 0 <= j < i ==> JavaTrim(expected[j]) == JavaTrim(actual[j])
    {
      var expectedLine := JavaTrim(expected[i]);
      var actualLine := JavaTrim(actual[i]);
      if expectedLine != actualLine {
        return false;
      }
      i := i + 1;
    }
    return true;
  }

  /** Surrounding blanks and control characters never make a line fail. */
  lemma MatchIgnoresPadding(expected: seq<string>, actual: seq<string>, pad: string)
    requires forall i :: 0 <= i < |pad| ==> IsJavaTrimmed(pad[i])
    requires |expected| == |actual|
    requires forall i :: 0 <= i < |expected| ==> actual[i] == pad + expected[i] + pad
    ensures OutputsMatch(expected, actual)
  {
    forall i | 0 <= i < |expected| ensures JavaTrim(expected[i]) == JavaTrim(actual[i]) {
      TrimPadding(expected[i], pad);
    }
  }

  /** Trimming `pad + s + pad` gives the trim of `s` when `pad` is all trimmed characters. */
  lemma {:induction false} TrimPadding(s: string, pad: string)
    requires forall i :: 0 <= i < |pad| ==> IsJavaTrimmed(pad[i])
    ensures JavaTrim(pad + s + pad) == JavaTrim(s)
  {
    var t := pad + s + pad;
    var l := StripLeading(t, IsJavaTrimmed);
    var ls := StripLeading(s, IsJavaTrimmed);
    StripLeadingPrefix(pad, s + pad);
    assert t == pad + (s + pad);
    assert l == StripLeading(s + pad, IsJavaTrimmed);
    StripLeadingSpec(s, IsJavaTrimmed);
    if ls == [] {
      // s is all trimmed characters, so is s + pad, and both trim to "".
      TrimEmptyIff(s, IsJavaTrimmed);
      TrimEmptyIff(s + pad, IsJavaTrimmed);
      forall i | 0 <= i < |s + pad| ensures IsJavaTrimmed((s + pad)[i]) {
        if i >= |s| { assert (s + pad)[i] == pad[i - |s|]; }
      }
      TrimEmptyIff(t, IsJavaTrimmed);
      forall i | 0 <= i < |t| ensures IsJavaTrimmed(t[i]) {
        if i < |pad| { assert t[i] == pad[i]; } else { assert t[i] == (s + pad)[i - |pad|]; }
      }
    } else {
      StripLeadingKeeps(s, pad);
      assert l == ls + pad;
      StripTrailingSuffix(ls, pad);
    }
  }

  /** Stripping a prefix of dropped characters is the same as starting after it. */
  lemma {:induction false} StripLeadingPrefix(pad: string, rest: string)
    requires forall i :: 0 <= i < |pad| ==> IsJavaTrimmed(pad[i])
    ensures StripLeading(pad + rest, IsJavaTrimmed) == StripLeading(rest, IsJavaTrimmed)
    decreases |pad|
  {
    if pad == [] {
      assert pad + rest == rest;
    } else {
      assert (pad + rest)[0] == pad[0] && IsJavaTrimmed(pad[0]);
      assert (pad + rest)[1..] == pad[1..] + rest;
      assert forall i :: 0 <= i < |pad| - 1 ==> pad[1..][i] == pad[i + 1];
      StripLeadingPrefix(pad[1..], rest);
    }
  }

  /** Stripping stops before the first kept character, so appended text survives. */
  lemma {:induction false} StripLeadingKeeps(s: string, tail: string)
    requires StripLeading(s, IsJavaTrimmed) != []
    ensures StripLeading(s + tail, IsJavaTrimmed) == StripLeading(s, IsJavaTrimmed) + tail
    decreases |s|
  {
    assert (s + tail)[0] == s[0];
    if IsJavaTrimmed(s[0]) {
      assert (s + tail)[1..] == s[1..] + tail;
      StripLeadingKeeps(s[1..], tail);
    }
  }

  /** A suffix of dropped characters is cut away along with whatever `s` ends with. */
  lemma {:induction false} StripTrailingSuffix(s: string, pad: string)
    requires forall i :: 0 <= i < |pad| ==> IsJavaTrimmed(pad[i])
    ensures StripTrailing(s + pad, IsJavaTrimmed) == StripTrailing(s, IsJavaTrimmed)
    decreases |pad|
  {
    if pad == [] {
      assert s + pad == s;
    } else {
      var p := pad[..|pad| - 1];
      assert (s + pad)[..|s + pad| - 1] == s + p;
      assert (s + pad)[|s + pad| - 1] == pad[|pad| - 1] && IsJavaTrimmed(pad[|pad| - 1]);
      assert forall i :: 0 <= i < |p| ==> p[i] == pad[i];
      StripTrailingSuffix(s, p);
    }
  }

  // ================================================================ running

  /** `runSingleTest`: the run passes when the client returned a `SUCCESS`
      result whose output lines match the expected ones; a thrown exception
      or any other status fails it. */
  predicate Passes(execute: (string, seq<string>) -> Outcome, code: string, testCase: TestCase) {
    match execute(code, testCase.inputs)
    case Threw => false
    case Returned(execution) =>
      execution.result == Success && OutputsMatch(testCase.expectedOutputs, execution.outputLines)
  }

  method RunSingleTest(execute: (string, seq<string>) -> Outcome, code: string, testCase: TestCase)
    returns (passed: bool)
    ensures passed == Passes(execute, code, testCase)
  {
    var outcome := execute(code, testCase.inputs);
    if outcome.Threw? {
      return false;
    }
    var execution := outcome.execution;
    if execution.result != Success {
      return false;
    }
    passed := CompareOutputs(testCase.expectedOutputs, execution.outputLines);
  }

  /** The number of passing test cases. */
  function PassCount(execute: (string, seq<string>) -> Outcome, code: string, testCases: seq<TestCase>): (n: nat)
    ensures n <= |testCases|
  {
    if testCases == [] then 0
    else
      var init := testCases[..|testCases| - 1];
      PassCount(execute, code, init) + if Passes(execute, code, testCases[|testCases| - 1]) then 1 else 0
  }

  /** Every test case passes exactly when all of them are counted. */
  lemma {:induction false} PassCountAllIff(execute: (string, seq<string>) -> Outcome, code: string, testCases: seq<TestCase>)
    ensures PassCount(execute, code, testCases) == |testCases|
        <==> forall i :: 0 <= i < |testCases| ==> Passes(execute, code, testCases[i])
  {
    if testCases != [] {
      var n := |testCases| - 1;
      var init := testCases[..n];
      PassCountAllIff(execute, code, init);
      assert forall i :: 0 <= i < n ==> init[i] == testCases[i];
    }
  }

  /** No test case passes exactly when none is counted. */
  lemma {:induction false} PassCountNoneIff(execute: (string, seq<string>) -> Outcome, code: string, testCases: seq<TestCase>)
    ensures PassCount(execute, code, testCases) == 0
        <==> forall i :: 0 <= i < |testCases| ==> !Passes(execute, code, testCases[i])
  {
    if testCases != [] {
      var n := |testCases| - 1;
      var init := testCases[..n];
      PassCountNoneIff(execute, code, init);
      assert forall i :: 0 <= i < n ==> init[i] == testCases[i];
    }
  }

  /** `testCode(problemId, code)` over the problems stored by id: an unknown
      id throws before any test runs; otherwise every test case is run once
      and the passes are counted. */
  method TestCode(problems: map<nat, CodingProblem>, execute: (string, seq<string>) -> Outcome,
                  problemId: nat, code: string)
    returns (r: Result<TestResult, TestingError>)
    ensures problemId !in problems <==> r == Err(CodingProblemNotFound(problemId))
    ensures r.Ok? <==> problemId in problems
    ensures r.Ok? ==> var testCases := problems[problemId].testCases;
      var passed := PassCount(execute, code, testCases);
      r.value == TestResult(problemId, |testCases|, passed, passed == |testCases|)
  {
    if problemId !in problems {
      return Err(CodingProblemNotFound(problemId));
    }
    var testCases := problems[problemId].testCases;
    var totalTests := |testCases|;
    var passedTests := 0;
    for i := 0 to |testCases|
      invariant passedTests == PassCount(execute, code, testCases[..i])
    {
      var passed := RunSingleTest(execute, code, testCases[i]);
      assert testCases[..i + 1][..i] == testCases[..i];
      if passed {
        passedTests := passedTests + 1;
      }
    }
    assert testCases[..|testCases|] == testCases;
    return Ok(TestResult(problemId, totalTests, passedTests, passedTests == totalTests));
  }
}
