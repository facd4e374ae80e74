/**
 * The code challenge editor: the fixed substring validator, the grading that compares
 * the number of passed checks with the number of tests, the console messages, and the
 * editor's state (code, console output, running flag, hint pager).
 */
module CodeEditor {
  import opened Wrappers
  import opened Text

  const NamePattern: string := "let treasure_name"
  const CountPattern: string := "let mut treasure_count"
  const IncrementPattern: string := "treasure_count +="
  const LongIncrementPattern: string := "treasure_count = treasure_count +"
  const TodoPattern: string := "TODO:"

  /** The answers of the validator's four hard-wired checks, numbered 0 to 3. */
  function CheckResults(code: string): (bs: seq<bool>)
    ensures |bs| == 4
  {
    [ Contains(code, NamePattern),
      Contains(code, CountPattern),
      Contains(code, IncrementPattern) || Contains(code, LongIncrementPattern),
      !Contains(code, TodoPattern) ]
  }

  predicate StrictlyIncreasing(s: seq<nat>)
  {
    forall i, j :: 0 <= i < j < |s| ==> s[i] < s[j]
  }

  /** The positions below `n` at which `bs` holds, in increasing order. */
  function Positions(bs: seq<bool>, n: nat): (r: seq<nat>)
    requires n <= |bs|
    ensures |r| <= n
    ensures forall i :: 0 <= i < |r| ==> r[i] < n
  {
    if n == 0 then []
    else Positions(bs, n - 1) + (if bs[n - 1] then [n - 1] else [])
  }

  /** The listed positions are exactly those below `n` where `bs` holds, increasing. */
  lemma {:induction false} PositionsShape(bs: seq<bool>, n: nat)
    requires n <= |bs|
    ensures var r := Positions(bs, n);
      (forall i :: 0 <= i < |r| ==> r[i] < n && bs[r[i]])
      && (forall m :: 0 <= m < n && bs[m] ==> m in r)
      && StrictlyIncreasing(r)
  {
    if n > 0 {
      PositionsShape(bs, n - 1);
      var rest := Positions(bs, n - 1);
      if bs[n - 1] {
        var r := rest + [n - 1];
        assert Positions(bs, n) == r;
        forall i | 0 <= i < |r|
          ensures r[i] < n && bs[r[i]]
        {
          if i < |rest| {
            assert r[i] == rest[i];
          }
        }
      }
    }
  }

  /** Every position below `n` is listed exactly when `bs` holds throughout. */
  lemma {:induction false} AllPositions(bs: seq<bool>, n: nat)
    requires n <= |bs|
    ensures |Positions(bs, n)| == n <==> false !in bs[..n]
  {
    if n > 0 {
      AllPositions(bs, n - 1);
      assert bs[..n] == bs[..n - 1] + [bs[n - 1]];
    }
  }

  /** What `validateCode` returns: the numbers of the checks that pass, in order. */
  function Passed(code: string): (r: seq<nat>)
    ensures |r| <= 4 && forall i :: 0 <= i < |r| ==> r[i] < 4
  {
    Positions(CheckResults(code), 4)
  }

  /** The validator's answer is a strictly increasing list drawn from {0, 1, 2, 3}, so
      it has no duplicate and at most four entries; each number is in it exactly when its
      check passes. */
  lemma PassedShape(code: string)
    ensures StrictlyIncreasing(Passed(code)) && |Passed(code)| <= 4
    ensures forall m :: m in Passed(code) ==> m < 4
    ensures 0 in Passed(code) <==> Contains(code, "let treasure_name")
    ensures 1 in Passed(code) <==> Contains(code, "let mut treasure_count")
    ensures 2 in Passed(code) <==> Contains(code, "treasure_count +=")
                                   || Contains(code, "treasure_count = treasure_count +")
    ensures 3 in Passed(code) <==> !Contains(code, "TODO:")
  {
    var bs := CheckResults(code);
    var r := Passed(code);
    PositionsShape(bs, 4);
    forall m | m in r
      ensures m < 4 && bs[m]
    {
      var i :| 0 <= i < |r| && r[i] == m;
    }
  }

  /** All four entries come back exactly when all four checks pass. */
  lemma PassedAllFour(code: string)
    ensures |Passed(code)| == 4 <==>
      Contains(code, NamePattern) && Contains(code, CountPattern)
      && (Contains(code, IncrementPattern) || Contains(code, LongIncrementPattern))
      && !Contains(code, TodoPattern)
  {
    var bs := CheckResults(code);
    AllPositions(bs, 4);
    assert bs[..4] == [bs[0], bs[1], bs[2], bs[3]];
  }

  /**
   * `validateCode`: four `if`s, each pushing the number of the check that passed.
   */
  method ValidateCode(userCode: string) returns (passed: seq<nat>)
    ensures passed == Passed(userCode)
  {
    ghost var bs := CheckResults(userCode);
    passed := [];
    if Contains(userCode, NamePattern) {
      passed := passed + [0];
    }
    PositionsStep(bs, 0, passed);
    if Contains(userCode, CountPattern) {
      passed := passed + [1];
    }
    PositionsStep(bs, 1, passed);
    if Contains(userCode, IncrementPattern) || Contains(userCode, LongIncrementPattern) {
      passed := passed + [2];
    }
    PositionsStep(bs, 2, passed);
    if !Contains(userCode, TodoPattern) {
      passed := passed + [3];
    }
    PositionsStep(bs, 3, passed);
  }

  /** One more position considered: `passed` lists the positions below `n + 1` when it
      extends the list below `n` by `n` exactly if `bs` holds there. */
  lemma PositionsStep(bs: seq<bool>, n: nat, passed: seq<nat>)
    requires n < |bs|
    requires passed == Positions(bs, n) + (if bs[n] then [n] else [])
    ensures passed == Positions(bs, n + 1)
  {
  }

  /** Which of the first `n` positions are missing from `passed`. */
  function Missing(n: nat, passed: seq<nat>): (bs: seq<bool>)
    ensures |bs| == n
  {
    seq(n, i => i !in passed)
  }

  /** `tests.filter((_, index) => !passed.includes(index))`, over the first `n` tests. */
  function FailedBelow<T>(tests: seq<T>, passed: seq<nat>, n: nat): (r: seq<T>)
    requires n <= |tests|
    ensures |r| <= n
  {
    if n == 0 then []
    else FailedBelow(tests, passed, n - 1) + (if n - 1 in passed then [] else [tests[n - 1]])
  }

  /** `tests.filter((_, index) => !passedTests.includes(index))`: never longer than the
      test list. */
  function FailedTests<T>(tests: seq<T>, passed: seq<nat>): (r: seq<T>)
    ensures |r| <= |tests|
  {
    FailedBelow(tests, passed, |tests|)
  }

  /** The failure list is exactly the tests at the positions missing from `passed`, in
      their original order. */
  lemma {:induction false} FailedTestsInOrder<T>(tests: seq<T>, passed: seq<nat>, n: nat)
    requires n <= |tests|
    ensures var ps := Positions(Missing(|tests|, passed), n);
      |FailedBelow(tests, passed, n)| == |ps|
      && forall i :: 0 <= i < |ps| ==> FailedBelow(tests, passed, n)[i] == tests[ps[i]]
  {
    if n > 0 {
      FailedTestsInOrder(tests, passed, n - 1);
      var mask := Missing(|tests|, passed);
      var rest := FailedBelow(tests, passed, n - 1);
      var restPs := Positions(mask, n - 1);
      if n - 1 in passed {
        assert !mask[n - 1];
        assert FailedBelow(tests, passed, n) == rest;
        assert Positions(mask, n) == restPs;
      } else {
        assert mask[n - 1];
        var f := rest + [tests[n - 1]];
        var ps := restPs + [n - 1];
        assert FailedBelow(tests, passed, n) == f;
        assert Positions(mask, n) == ps;
        forall i | 0 <= i < |ps|
          ensures f[i] == tests[ps[i]]
        {
          if i < |rest| {
            assert f[i] == rest[i];
            assert ps[i] == restPs[i];
          }
        }
      }
    }
  }

  /** Fewer passed entries than tests always leaves a test in the failure list. */
  lemma FailuresWhenCountShort<T>(tests: seq<T>, passed: seq<nat>)
    requires |passed| < |tests|
    ensures FailedTests(tests, passed) != []
  {
    FailedTestsInOrder(tests, passed, |tests|);
    var mask := Missing(|tests|, passed);
    PositionsShape(mask, |tests|);
    if Positions(mask, |tests|) == [] {
      var seen := Entries(passed);
      forall m: nat | m < |tests|
        ensures m in seen
      {
        if !mask[m] {
        }
      }
      DistinctEntries(passed);
      SubsetSize(Below(|tests|), seen);
    }
  }

  /** The numbers below `n`. */
  function Below(n: nat): (s: set<nat>)
    ensures |s| == n
    ensures forall m: nat :: m in s <==> m < n
  {
    if n == 0 then {} else Below(n - 1) + {n - 1}
  }

  /** The entries of a sequence, as a set. */
  function Entries(s: seq<nat>): (e: set<nat>)
    ensures forall m :: m in e <==> m in s
  {
    set m | m in s
  }

  /** A sequence has no more distinct entries than it has entries. */
  lemma {:induction false} DistinctEntries(s: seq<nat>)
    ensures |Entries(s)| <= |s|
  {
    if s != [] {
      DistinctEntries(s[1..]);
      var rest := Entries(s[1..]);
      assert Entries(s) == rest + {s[0]};
    }
  }

  lemma SubsetSize<T>(a: set<T>, b: set<T>)
    requires a <= b
    ensures |a| <= |b|
  {
    assert b == a + (b - a);
  }

  /** How a run ends. */
  datatype Outcome<T> = AllPassed | SomeFailed(failed: seq<T>) | CompileFailed

  /** The grading of `runCode`: success when the NUMBER of passed checks equals the
      number of tests, whichever checks they are; otherwise the failed tests by position. */
  function Grade<T>(tests: seq<T>, code: string): (o: Outcome<T>)
    ensures o != CompileFailed
  {
    var passed := Passed(code);
    if |passed| == |tests| then AllPassed else SomeFailed(FailedTests(tests, passed))
  }

  /** With four tests, the run succeeds exactly when all four checks pass. */
  lemma FourTestsPassIffAllChecks<T>(tests: seq<T>, code: string)
    requires |tests| == 4
    ensures Grade(tests, code).AllPassed? <==>
      Contains(code, NamePattern) && Contains(code, CountPattern)
      && (Contains(code, IncrementPattern) || Contains(code, LongIncrementPattern))
      && !Contains(code, TodoPattern)
  {
    PassedAllFour(code);
  }

  /** A list of more than four tests can never be passed. */
  lemma LongTestListNeverPasses<T>(tests: seq<T>, code: string)
    requires |tests| > 4
    ensures Grade(tests, code).SomeFailed? && Grade(tests, code).failed != []
  {
    PassedShape(code);
    FailuresWhenCountShort(tests, Passed(code));
  }

  /** A shortfall in the count always names at least one failed test. */
  lemma ShortCountNamesAFailure<T>(tests: seq<T>, code: string)
    requires |Passed(code)| < |tests|
    ensures Grade(tests, code).SomeFailed? && Grade(tests, code).failed != []
  {
    FailuresWhenCountShort(tests, Passed(code));
  }

  /** Code that passes all four checks, graded against fewer than four tests, is reported
      as failed with an empty failure list. */
  lemma ShortTestListFailsWithNothingListed<T>(tests: seq<T>, code: string)
    requires Contains(code, NamePattern) && Contains(code, CountPattern)
    requires Contains(code, IncrementPattern) || Contains(code, LongIncrementPattern)
    requires !Contains(code, TodoPattern)
    requires |tests| < 4
    ensures Grade(tests, code) == SomeFailed([])
  {
    PassedAllFour(code);
    PassedShape(code);
    var passed := Passed(code);
    FailedTestsInOrder(tests, passed, |tests|);
    NoPositions(Missing(|tests|, passed), |tests|);
  }

  /** Where `bs` never holds below `n`, no position is listed. */
  lemma {:induction false} NoPositions(bs: seq<bool>, n: nat)
    requires n <= |bs|
    requires forall m :: 0 <= m < n ==> !bs[m]
    ensures Positions(bs, n) == []
  {
    if n > 0 {
      NoPositions(bs, n - 1);
    }
  }

  const Banner: string := "Compiling your Rust code...\n"
  const CheckMark: string := "✅"
  const CrossMark: string := "❌"
  const SuccessMessage: string :=
    CheckMark + " Compilation successful!\n" + CheckMark
    + " All tests passed!\n\n🎉 Excellent work, pirate! You've mastered this lesson!"
  const FailureHeader: string := CrossMark + " Some tests failed:\n"
  const FailureFooter: string := "\n\nTry again, matey!"
  const CompileErrorMessage: string := CrossMark + " Compilation failed. Check your syntax!"

  /** `failedTests.map(test => `• ${test}`)`; `describe` is the string conversion of a test. */
  function Bullets<T>(failed: seq<T>, describe: T -> string): (lines: seq<string>)
    ensures |lines| == |failed|
    ensures forall i :: 0 <= i < |failed| ==> lines[i] == "• " + describe(failed[i])
  {
    seq(|failed|, i requires 0 <= i < |failed| => "• " + describe(failed[i]))
  }

  /** The text appended to the console after the banner. */
  function Message<T>(o: Outcome<T>, describe: T -> string): string
  {
    match o
    case AllPassed => SuccessMessage
    case SomeFailed(failed) => FailureHeader + Join(Bullets(failed, describe), "\n") + FailureFooter
    case CompileFailed => CompileErrorMessage
  }

  /** A string that differs from `p` at a position both have does not start with `p`. */
  lemma DiffersFrom(s: string, p: string, i: nat)
    requires i < |s| && i < |p| && s[i] != p[i]
    ensures !StartsWith(s, p)
  {
  }

  /** Each outcome has its own message: the start of the text tells them apart. */
  lemma MessageTellsOutcome<T>(o: Outcome<T>, describe: T -> string)
    ensures StartsWith(Message(o, describe), CheckMark) <==> o.AllPassed?
    ensures StartsWith(Message(o, describe), FailureHeader) <==> o.SomeFailed?
    ensures StartsWith(Message(o, describe), CompileErrorMessage) <==> o.CompileFailed?
  {
    var m := Message(o, describe);
    match o
    case AllPassed =>
      assert m[0] == '✅';
      assert m[..1] == CheckMark;
      DiffersFrom(m, FailureHeader, 0);
      DiffersFrom(m, CompileErrorMessage, 0);
    case SomeFailed(failed) =>
      var body := Join(Bullets(failed, describe), "\n") + FailureFooter;
      assert m == FailureHeader + body;
      assert m[..|FailureHeader|] == FailureHeader;
      assert m[0] == '❌' && m[2] == 'S';
      DiffersFrom(m, CheckMark, 0);
      DiffersFrom(m, CompileErrorMessage, 2);
    case CompileFailed =>
      assert m[0] == '❌' && m[2] == 'C';
      DiffersFrom(m, CheckMark, 0);
      DiffersFrom(m, FailureHeader, 2);
  }

  /** The pager's next hint index: forward while a later hint exists, else back to 0. */
  function NextHintIndex(index: int, hintCount: nat): (r: int)
    ensures 0 <= index ==> 0 <= r <= LastHint(hintCount)
    ensures r != 0 ==> r == index + 1 && r < hintCount
  {
    if index < hintCount - 1 then index + 1 else 0
  }

  /** The largest index the pager ever shows. */
  function LastHint(hintCount: nat): nat
  {
    if hintCount == 0 then 0 else hintCount - 1
  }

  /** The hint index after `presses` presses of "Next Hint" from the first hint. */
  function HintAfter(presses: nat, hintCount: nat): int
  {
    if presses == 0 then 0 else NextHintIndex(HintAfter(presses - 1, hintCount), hintCount)
  }

  /** The pager walks through every hint in order and wraps to the first after the last. */
  lemma {:induction false} HintsCycle(presses: nat, hintCount: nat)
    requires hintCount >= 1 && presses <= hintCount
    ensures HintAfter(presses, hintCount) == if presses < hintCount then presses else 0
  {
    if presses > 0 {
      HintsCycle(presses - 1, hintCount);
    }
  }

  /** `CodeEditor`: the lesson's fixed data and the component's state. */
  class Editor<T> {
    const initialCode: string
    const solution: string
    const tests: seq<T>
    const hints: seq<string>

    var code: string
    var output: string
    var isRunning: bool
    var showHints: bool
    var hintIndex: int

    /** The hint index always names a hint (or is 0 when there are none). */
    ghost predicate Valid()
      reads this
    {
      0 <= hintIndex <= LastHint(|hints|)
    }

    constructor(initialCode: string, solution: string, tests: seq<T>, hints: seq<string>)
      ensures this.initialCode == initialCode && this.solution == solution
      ensures this.tests == tests && this.hints == hints
      ensures code == initialCode && output == [] && !isRunning && !showHints && hintIndex == 0
      ensures Valid()
    {
      this.initialCode := initialCode;
      this.solution := solution;
      this.tests := tests;
      this.hints := hints;
      code := initialCode;
      output := [];
      isRunning := false;
      showHints := false;
      hintIndex := 0;
    }

    /** The start of `runCode`: the button is disabled and the console shows the banner.
        The result is the code the click handler captured, which the grading uses even if
        the editor changes it while the run is pending. */
    method BeginRun() returns (submitted: string)
      modifies this
      ensures submitted == code
      ensures isRunning && output == Banner
      ensures code == old(code) && showHints == old(showHints) && hintIndex == old(hintIndex)
    {
      submitted := code;
      isRunning := true;
      output := Banner;
    }

    /** The rest of `runCode`, grading the `submitted` code captured by `BeginRun`. `fault`
        stands for an exception inside the `try` block. The message is appended to what the
        console shows, and `isRunning` is cleared on every path. The result says whether
        `onComplete` is scheduled. */
    method FinishRun(submitted: string, fault: bool, describe: T -> string) returns (completed: bool)
      modifies this
      ensures var o := if fault then CompileFailed else Grade(tests, submitted);
        output == old(output) + Message(o, describe) && (completed <==> o.AllPassed?)
      ensures !isRunning
      ensures code == old(code) && showHints == old(showHints) && hintIndex == old(hintIndex)
    {
      if fault {
        output := output + CompileErrorMessage;
        completed := false;
      } else {
        var passedTests := ValidateCode(submitted);
        if |passedTests| == |tests| {
          output := output + SuccessMessage;
          completed := true;
        } else {
          var failedTests := FailedTests(tests, passedTests);
          output := output + FailureHeader + Join(Bullets(failedTests, describe), "\n") + FailureFooter;
          completed := false;
        }
      }
      isRunning := false;
    }

    /** `runCode` as one step: the banner, then exactly one outcome message. */
    method RunCode(fault: bool, describe: T -> string) returns (completed: bool)
      modifies this
      ensures var o := if fault then CompileFailed else Grade(tests, old(code));
        output == Banner + Message(o, describe) && (completed <==> o.AllPassed?)
      ensures completed <==> !fault && |Passed(old(code))| == |tests|
      ensures !isRunning
      ensures code == old(code) && showHints == old(showHints) && hintIndex == old(hintIndex)
    {
      var submitted := BeginRun();
      completed := FinishRun(submitted, fault, describe);
    }

    /** `showNextHint`. */
    method ShowNextHint()
      requires Valid()
      modifies this
      ensures Valid()
      ensures hintIndex == NextHintIndex(old(hintIndex), |hints|)
      ensures showHints == (old(showHints) && old(hintIndex) < |hints| - 1)
      ensures code == old(code) && output == old(output) && isRunning == old(isRunning)
    {
      if hintIndex < |hints| - 1 {
        hintIndex := hintIndex + 1;
      } else {
        showHints := false;
        hintIndex := 0;
      }
    }

    /** The "Hints" button. */
    method ToggleHints()
      modifies this
      ensures showHints == !old(showHints)
      ensures code == old(code) && output == old(output) && hintIndex == old(hintIndex)
      ensures isRunning == old(isRunning)
    {
      showHints := !showHints;
    }

    /** `resetCode`. */
    method ResetCode()
      modifies this
      ensures code == initialCode && output == []
      ensures isRunning == old(isRunning) && showHints == old(showHints) && hintIndex == old(hintIndex)
    {
      code := initialCode;
      output := [];
    }

    /** `showSolution`: the console output is left as it is. */
    method ShowSolution()
      modifies this
      ensures code == solution && output == old(output)
      ensures isRunning == old(isRunning) && showHints == old(showHints) && hintIndex == old(hintIndex)
    {
      code := solution;
    }

    /** The editor's `onChange`: an undefined value becomes the empty string. */
    method Edit(value: Option<string>)
      modifies this
      ensures code == (if value.Some? then value.value else [])
      ensures output == old(output) && isRunning == old(isRunning)
      ensures showHints == old(showHints) && hintIndex == old(hintIndex)
    {
      code := if value.Some? then value.value else [];
    }
  }
}
