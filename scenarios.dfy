/**
 * Concrete runs of the machine: small programs whose outcome is worked out
 * step by step, and the callbacks the debug adapter passes to `execute`.
 */
module Scenarios {

  import opened Results
  import opened Instructions
  import opened Machine
  import opened BrainFuck

  /** Preprocessing pairs the brackets of `+[-]` as 1 <-> 3. */
  lemma CountdownLoopMap()
    ensures LoopMapFor("+[-]", map[1 := 3, 3 := 1])
  {
    var s := "+[-]";
    assert DepthAt(s, 1) == 0 && DepthAt(s, 2) == 1 && DepthAt(s, 3) == 1 && DepthAt(s, 4) == 0;
    assert IsMatch(s, 1, 3);
    forall a: nat | a < |s| && IsBracket(s[a])
      ensures a in map[1 := 3, 3 := 1]
    {
      assert a != 0 && a != 2;
    }
  }

  /** Without a callback, an instruction that does not fault hands the run on to the next one. */
  lemma QuietStep(code: string, loopMap: map<nat, nat>, maxSteps: nat, tapeSize: nat, s: Snapshot, t: Snapshot)
    requires OnTape(s, tapeSize) && JumpTable(code, loopMap)
    requires s.instructionPointer < |code| && s.stepCount < maxSteps
    requires Apply(code, loopMap, tapeSize, s) == Moved(t)
    ensures OnTape(t, tapeSize)
    ensures Run(code, loopMap, maxSteps, tapeSize, None, s)
      == Run(code, loopMap, maxSteps, tapeSize, None,
             t.(stepCount := s.stepCount + 1, instructionPointer := t.instructionPointer + 1))
  {
    assert Continues(code, loopMap, maxSteps, tapeSize, None, s);
    RunContinues(code, loopMap, maxSteps, tapeSize, None, s);
    assert Successor(code, loopMap, tapeSize, s)
      == t.(stepCount := s.stepCount + 1, instructionPointer := t.instructionPointer + 1);
  }

  /**
   * `+[-]` on a fresh state takes four steps, `+`, `[`, `-`, `]`, and
   * leaves the tape as it was.
   */
  lemma CountdownTakesFourSteps(tapeSize: nat, maxSteps: nat)
    requires tapeSize > 0 && maxSteps >= 4
    ensures var o := Run("+[-]", map[1 := 3, 3 := 1], maxSteps, tapeSize, None, Initial(tapeSize));
      && o.halt == Finished
      && o.state.stepCount == 4
      && o.state.tape == Initial(tapeSize).tape
      && o.state.loopStack == []
      && o.state.instructionPointer == 4
  {
    var code, loops := "+[-]", map[1 := 3, 3 := 1];
    CountdownLoopMap();
    LoopMapIsJumpTable(code, loops);
    var s0 := Initial(tapeSize);
    var t := s0.tape;
    var s1 := s0.(tape := t[0 := 1], stepCount := 1, instructionPointer := 1);
    var s2 := s1.(loopStack := [1], stepCount := 2, instructionPointer := 2);
    var s3 := s2.(tape := t, stepCount := 3, instructionPointer := 3);
    var s4 := s3.(loopStack := [], stepCount := 4, instructionPointer := 4);
    assert Apply(code, loops, tapeSize, s0) == Moved(s0.(tape := t[0 := 1]));
    assert Apply(code, loops, tapeSize, s1) == Moved(s1.(loopStack := [1])) by {
      assert s1.tape[0] == 1 && [] + [1] == [1];
    }
    assert Apply(code, loops, tapeSize, s2) == Moved(s2.(tape := t)) by {
      assert t[0 := 1][0 := 0] == t;
    }
    assert Apply(code, loops, tapeSize, s3) == Moved(s3.(loopStack := [])) by {
      assert s3.tape[0] == 0 && Pop([1]) == [];
    }
    assert Run(code, loops, maxSteps, tapeSize, None, s0) == Outcome(s4, Finished) by {
      QuietStep(code, loops, maxSteps, tapeSize, s0, s0.(tape := t[0 := 1]));
      QuietStep(code, loops, maxSteps, tapeSize, s1, s1.(loopStack := [1]));
      QuietStep(code, loops, maxSteps, tapeSize, s2, s2.(tape := t));
      QuietStep(code, loops, maxSteps, tapeSize, s3, s3.(loopStack := []));
      RunFinished(code, loops, maxSteps, tapeSize, None, s4);
    }
  }

  /** `++.` prints the byte 2 after three steps. */
  lemma PrintTwo(tapeSize: nat, maxSteps: nat)
    requires tapeSize > 0 && maxSteps >= 3
    ensures var o := Run("++.", map[], maxSteps, tapeSize, None, Initial(tapeSize));
      o.halt == Finished && o.state.output == [2] && o.state.stepCount == 3
  {
    var code: string, loops: map<nat, nat> := "++.", map[];
    assert JumpTable(code, loops) by {
      forall a: nat | a < |code| ensures !IsBracket(code[a]) {
        assert a == 0 || a == 1 || a == 2;
      }
    }
    var s0 := Initial(tapeSize);
    var t := s0.tape;
    var s1 := s0.(tape := t[0 := 1], stepCount := 1, instructionPointer := 1);
    var s2 := s1.(tape := t[0 := 2], stepCount := 2, instructionPointer := 2);
    var s3 := s2.(output := [2], stepCount := 3, instructionPointer := 3);
    assert Apply(code, loops, tapeSize, s0) == Moved(s0.(tape := t[0 := 1]));
    assert Apply(code, loops, tapeSize, s1) == Moved(s1.(tape := t[0 := 2])) by {
      assert t[0 := 1][0 := 2] == t[0 := 2];
    }
    assert Apply(code, loops, tapeSize, s2) == Moved(s2.(output := [2])) by {
      assert [] + [s2.tape[0]] == [2];
    }
    assert Run(code, loops, maxSteps, tapeSize, None, s0) == Outcome(s3, Finished) by {
      QuietStep(code, loops, maxSteps, tapeSize, s0, s0.(tape := t[0 := 1]));
      QuietStep(code, loops, maxSteps, tapeSize, s1, s1.(tape := t[0 := 2]));
      QuietStep(code, loops, maxSteps, tapeSize, s2, s2.(output := [2]));
      RunFinished(code, loops, maxSteps, tapeSize, None, s3);
    }
  }

  /**
   * In `+[]` the `]` sees a nonzero cell each time, jumps to the `[` and the
   * loop's increment brings it straight back: every further step is spent
   * on the `]` until the ceiling is reached.
   */
  lemma {:induction false} SpinUntilCeiling(maxSteps: nat, tapeSize: nat, s: Snapshot)
    requires OnTape(s, tapeSize) && s.instructionPointer == 2 && s.tape[s.pointer] != 0
    requires s.breakpoints == {} && s.stepCount <= maxSteps
    ensures Run("+[]", map[1 := 2, 2 := 1], maxSteps, tapeSize, None, s)
      == Outcome(s.(stepCount := maxSteps), Failed(StepLimitExceeded))
    decreases maxSteps - s.stepCount
  {
    var code, loops := "+[]", map[1 := 2, 2 := 1];
    assert JumpTable(code, loops) by {
      forall a: nat | a < |code| && IsBracket(code[a]) ensures a in loops {
        assert a != 0;
      }
    }
    if s.stepCount == maxSteps {
      StepLimitBeforeInstruction(code, loops, maxSteps, tapeSize, None, s);
      assert s.(stepCount := maxSteps) == s;
    } else {
      var next := s.(stepCount := s.stepCount + 1);
      assert Apply(code, loops, tapeSize, s) == Moved(s.(instructionPointer := 1));
      assert Run(code, loops, maxSteps, tapeSize, None, s) == Run(code, loops, maxSteps, tapeSize, None, next) by {
        QuietStep(code, loops, maxSteps, tapeSize, s, s.(instructionPointer := 1));
      }
      SpinUntilCeiling(maxSteps, tapeSize, next);
      assert next.(stepCount := maxSteps) == s.(stepCount := maxSteps);
    }
  }

  /** `+[]` never finishes: it fails at the step ceiling, having used every step. */
  lemma SpinLoopHitsCeiling(tapeSize: nat, maxSteps: nat)
    requires tapeSize > 0 && maxSteps >= 2
    ensures var o := Run("+[]", map[1 := 2, 2 := 1], maxSteps, tapeSize, None, Initial(tapeSize));
      o.halt == Failed(StepLimitExceeded) && o.state.stepCount == maxSteps && o.state.loopStack == [1]
  {
    var code, loops := "+[]", map[1 := 2, 2 := 1];
    assert JumpTable(code, loops) by {
      forall a: nat | a < |code| && IsBracket(code[a]) ensures a in loops {
        assert a != 0;
      }
    }
    var s0 := Initial(tapeSize);
    var s1 := s0.(tape := s0.tape[0 := 1], stepCount := 1, instructionPointer := 1);
    var s2 := s1.(loopStack := [1], stepCount := 2, instructionPointer := 2);
    assert Apply(code, loops, tapeSize, s0) == Moved(s0.(tape := s0.tape[0 := 1]));
    assert Apply(code, loops, tapeSize, s1) == Moved(s1.(loopStack := [1])) by {
      assert s1.tape[s1.pointer] == 1 && code[1] == '[';
      assert s1.loopStack + [1] == [1];
    }
    assert Run(code, loops, maxSteps, tapeSize, None, s0) == Run(code, loops, maxSteps, tapeSize, None, s2) by {
      QuietStep(code, loops, maxSteps, tapeSize, s0, s0.(tape := s0.tape[0 := 1]));
      QuietStep(code, loops, maxSteps, tapeSize, s1, s1.(loopStack := [1]));
    }
    SpinUntilCeiling(maxSteps, tapeSize, s2);
  }

  /** `n` increments in a row; having no brackets, it needs no jumps. */
  function Pluses(n: nat): (r: string)
    ensures |r| == n && JumpTable(r, map[])
  {
    seq(n, _ => '+')
  }

  /** A cell value after `r` further increments. */
  function AddMod(b: byte, r: nat): byte {
    ((b as int + r) % 256) as byte
  }

  lemma IncrementThenAdd(b: byte, r: nat)
    ensures AddMod(Increment(b), r) == AddMod(b, r + 1)
  {
  }

  /** From the `k`-th of `n` increments on, the rest add `n - k` to cell 0, modulo 256. */
  lemma {:induction false} PlusesAddUp(n: nat, maxSteps: nat, tapeSize: nat, s: Snapshot)
    requires OnTape(s, tapeSize) && s.pointer == 0
    requires s.instructionPointer <= n && s.stepCount == s.instructionPointer && n <= maxSteps
    ensures var o := Run(Pluses(n), map[], maxSteps, tapeSize, None, s);
      && o.halt == Finished && o.state.stepCount == n
      && o.state.tape[0] == AddMod(s.tape[0], n - s.instructionPointer)
      && forall k :: 1 <= k < tapeSize ==> o.state.tape[k] == s.tape[k]
    decreases n - s.instructionPointer
  {
    var code: string, loops: map<nat, nat> := Pluses(n), map[];
    if s.instructionPointer == n {
      RunFinished(code, loops, maxSteps, tapeSize, None, s);
    } else {
      assert code[s.instructionPointer] == '+';
      var moved := s.(tape := s.tape[0 := Increment(s.tape[0])]);
      assert Apply(code, loops, tapeSize, s) == Moved(moved);
      var next := moved.(stepCount := s.stepCount + 1, instructionPointer := s.instructionPointer + 1);
      assert Run(code, loops, maxSteps, tapeSize, None, s) == Run(code, loops, maxSteps, tapeSize, None, next) by {
        QuietStep(code, loops, maxSteps, tapeSize, s, moved);
      }
      PlusesAddUp(n, maxSteps, tapeSize, next);
      IncrementThenAdd(s.tape[0], n - next.instructionPointer);
    }
  }

  /** `n` increments on a fresh tape leave `n` modulo 256 in the first cell: 256 of them leave 0. */
  lemma PlusesWrapAround(n: nat, maxSteps: nat, tapeSize: nat)
    requires tapeSize > 0 && n <= maxSteps
    ensures var o := Run(Pluses(n), map[], maxSteps, tapeSize, None, Initial(tapeSize));
      o.halt == Finished && o.state.tape[0] as int == n % 256
  {
    PlusesAddUp(n, maxSteps, tapeSize, Initial(tapeSize));
    assert Initial(tapeSize).tape[0] == 0;
  }

  /** The callback of the debug adapter's single step: stop after every instruction. */
  function StepCallbackOfNext(): StepCallback {
    _ => true
  }

  /**
   * A single step suspends after the instruction, with the instruction
   * pointer left on it; stepping again from that state executes the same
   * `+` once more instead of moving on.
   */
  lemma SteppingRepeatsTheInstruction(tapeSize: nat, maxSteps: nat)
    requires tapeSize > 0 && maxSteps >= 2
    ensures var next := Some(StepCallbackOfNext());
      var first := Run("++", map[], maxSteps, tapeSize, next, Initial(tapeSize));
      var second := Run("++", map[], maxSteps, tapeSize, next, first.state);
      && first.halt == Suspended && first.state.instructionPointer == 0 && first.state.tape[0] == 1
      && second.halt == Suspended && second.state.instructionPointer == 0 && second.state.tape[0] == 2
      && second.state.stepCount == 2
  {
    var code: string, loops: map<nat, nat> := "++", map[];
    var next := Some(StepCallbackOfNext());
    assert JumpTable(code, loops) by {
      forall a: nat | a < |code| ensures !IsBracket(code[a]) {
        assert a == 0 || a == 1;
      }
    }
    var s0 := Initial(tapeSize);
    RunMoved(code, loops, maxSteps, tapeSize, next, s0);
    var s1 := s0.(tape := s0.tape[0 := 1], stepCount := 1);
    RunMoved(code, loops, maxSteps, tapeSize, next, s1);
  }

  /**
   * The debug adapter's continue callback: stop at a breakpoint or at the
   * end of the code, otherwise only when running has been switched off.
   */
  function StepCallbackOfContinue(codeLength: nat, running: bool): StepCallback {
    (s: Snapshot) => s.instructionPointer in s.breakpoints || s.instructionPointer >= codeLength || !running
  }

  /**
   * Continuing from a state that is on a breakpoint suspends again before
   * its instruction, without a step: the state is returned unchanged.
   */
  lemma ContinueStaysOnBreakpoint(code: string, loopMap: map<nat, nat>, maxSteps: nat, tapeSize: nat,
                                  running: bool, s: Snapshot)
    requires OnTape(s, tapeSize) && JumpTable(code, loopMap)
    requires s.instructionPointer < |code| && s.stepCount < maxSteps
    requires s.instructionPointer in s.breakpoints
    ensures Run(code, loopMap, maxSteps, tapeSize, Some(StepCallbackOfContinue(|code|, running)), s)
      == Outcome(s, Suspended)
  {
    BreakpointSuspendsBefore(code, loopMap, maxSteps, tapeSize, Some(StepCallbackOfContinue(|code|, running)), s);
  }
}
