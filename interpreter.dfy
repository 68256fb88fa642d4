/**
 * The interpreter: the mutable execution state record and the interpreter
 * object with its four operations (fresh state, preprocessing, execution,
 * formatting), each proved against the specifications of Instructions,
 * Machine and Layout.
 */
module BrainFuck {

  import opened Results
  import opened Instructions
  import opened Machine
  import opened Scanning
  import opened Formatting

  /** The execution state; `execute` updates it in place and the caller keeps it between calls. */
  class ExecutionState {
    var tape: array<byte>
    var pointer: int
    var output: seq<byte>
    var inputBuffer: seq<nat>
    var inputIndex: nat
    var stepCount: nat
    var instructionPointer: nat
    var loopStack: seq<nat>
    var breakpoints: set<nat>

    /** A fresh state: a zeroed tape of `tapeSize` cells and everything else at its start. */
    constructor (tapeSize: nat)
      ensures fresh(tape)
      ensures Snap() == Initial(tapeSize)
    {
      tape := new byte[tapeSize](_ => 0);
      pointer := 0;
      output := [];
      inputBuffer := [];
      inputIndex := 0;
      stepCount := 0;
      instructionPointer := 0;
      loopStack := [];
      breakpoints := {};
      new;
      assert tape[..] == seq(tapeSize, _ => 0 as byte);
    }

    /** The state as a value, with the tape copied out of its array. */
    function Snap(): Snapshot
      reads this, tape
    {
      Snapshot(tape[..], pointer, output, inputBuffer, inputIndex, stepCount,
               instructionPointer, loopStack, breakpoints)
    }
  }

  /** The state of a new session. */
  function Initial(tapeSize: nat): (s: Snapshot)
    ensures |s.tape| == tapeSize && forall k :: 0 <= k < tapeSize ==> s.tape[k] == 0
    ensures s.pointer == 0 && s.output == [] && s.inputIndex == 0 && s.stepCount == 0
    ensures s.instructionPointer == 0 && s.loopStack == [] && s.breakpoints == {}
    ensures s.inputBuffer == []
  {
    Snapshot(seq(tapeSize, _ => 0 as byte), 0, [], [], 0, 0, 0, [], {})
  }

  /** What `execute` returns: output, step count and an independent copy of the tape. */
  datatype ExecutionResult = ExecutionResult(
    output: seq<byte>,
    steps: nat,
    memoryDump: seq<byte>,
    error: Option<RuntimeError>)

  /** `execute` either returns a result or lets a preprocessing error escape. */
  datatype ExecOutcome = Returned(result: ExecutionResult) | Threw(error: PreprocessError)

  class Interpreter {
    const tapeSize: nat
    const maxSteps: nat

    ghost predicate Valid() {
      tapeSize > 0
    }

    /** The extension's defaults are a 30000-cell tape and a ceiling of 1000000 steps. */
    constructor (tapeSize: nat, maxSteps: nat)
      requires tapeSize > 0
      ensures Valid() && this.tapeSize == tapeSize && this.maxSteps == maxSteps
    {
      this.tapeSize := tapeSize;
      this.maxSteps := maxSteps;
    }

    method CreateInitialState() returns (state: ExecutionState)
      ensures fresh(state) && fresh(state.tape)
      ensures state.tape.Length == tapeSize
      ensures state.Snap() == Initial(tapeSize)
    {
      state := new ExecutionState(tapeSize);
    }

    /**
     * Strips comments and pairs brackets with a stack. Fails on the first
     * `]` that closes nothing, or at the end on the earliest `[` left open;
     * the position reported is in the original text.
     */
    method PreprocessCode(code: string) returns (r: PreprocessOutcome)
      ensures PreprocessSpec(code, r)
    {
      var cleanCode: string := "";
      var cleanToOriginal: seq<nat> := [];
      var loopStack: seq<nat> := [];
      var loopMap: map<nat, nat> := map[];
      var i: nat := 0;
      ScanStart(code);
      while i < |code|
        invariant 0 <= i <= |code|
        invariant ScanState(code, i, cleanCode, cleanToOriginal, loopStack, loopMap)
      {
        if IsInstruction(code[i]) {
          var matched;
          matched, cleanCode, cleanToOriginal, loopStack, loopMap :=
            ScanInstruction(code, i, cleanCode, cleanToOriginal, loopStack, loopMap);
          if !matched {
            return Failure(UnmatchedClose(i));
          }
        } else {
          ScanComment(code, i, cleanCode, cleanToOriginal, loopStack, loopMap);
        }
        i := i + 1;
      }
      ScanEnd(code, cleanCode, cleanToOriginal, loopStack, loopMap);
      if |loopStack| > 0 {
        return Failure(UnmatchedOpen(cleanToOriginal[loopStack[0]]));
      }
      return Success(Preprocessed(cleanCode, loopMap));
    }

    /**
     * One pass of the preprocessing loop over the instruction `code[i]`: it
     * is appended to the cleaned code; a `[` is pushed; a `]` pops the
     * innermost open `[` and pairs the two, or, with nothing open, is
     * reported as unmatched (`matched` is false).
     */
    method ScanInstruction(code: string, i: nat, cleanCode: string, cleanToOriginal: seq<nat>,
                           loopStack: seq<nat>, loopMap: map<nat, nat>)
      returns (matched: bool, cleanCode': string, cleanToOriginal': seq<nat>,
               loopStack': seq<nat>, loopMap': map<nat, nat>)
      requires i < |code| && IsInstruction(code[i])
      requires ScanState(code, i, cleanCode, cleanToOriginal, loopStack, loopMap)
      ensures matched ==> ScanState(code, i + 1, cleanCode', cleanToOriginal', loopStack', loopMap')
      ensures !matched <==> code[i] == ']' && |loopStack| == 0
      ensures !matched ==> PreprocessSpec(code, Failure(UnmatchedClose(i)))
    {
      var c := code[i];
      var cleanIndex := |cleanCode|;
      matched, loopStack', loopMap' := true, loopStack, loopMap;
      if c == '[' {
        ScanOpen(code, i, cleanCode, cleanToOriginal, loopStack, loopMap);
        loopStack' := loopStack + [cleanIndex];
      } else if c == ']' {
        if |loopStack| == 0 {
          ScanCloseUnmatched(code, i, cleanCode, cleanToOriginal, loopStack, loopMap);
          UnmatchedCloseMeetsSpec(code, i);
          return false, cleanCode, cleanToOriginal, loopStack, loopMap;
        }
        ScanClose(code, i, cleanCode, cleanToOriginal, loopStack, loopMap);
        var start := loopStack[|loopStack| - 1];
        loopStack' := loopStack[..|loopStack| - 1];
        loopMap' := loopMap[start := cleanIndex][cleanIndex := start];
      } else {
        ScanPlain(code, i, cleanCode, cleanToOriginal, loopStack, loopMap);
      }
      cleanCode' := cleanCode + [c];
      cleanToOriginal' := cleanToOriginal + [i];
    }

    /**
     * The state a call of `execute` starts from: the supplied state, or a
     * fresh one; either way with the new input and the input cursor at 0.
     */
    function StartState(prior: Option<Snapshot>, input: seq<nat>): (s: Snapshot)
      ensures s.inputBuffer == input && s.inputIndex == 0
      ensures prior.None? ==> s.instructionPointer == 0 && s.stepCount == 0 && s.output == []
      ensures prior.None? ==> s.pointer == 0 && s.loopStack == [] && s.breakpoints == {}
      ensures prior.None? ==> |s.tape| == tapeSize && forall k :: 0 <= k < tapeSize ==> s.tape[k] == 0
      ensures prior.Some? ==>
        && s.instructionPointer == prior.value.instructionPointer
        && s.tape == prior.value.tape && s.pointer == prior.value.pointer
        && s.output == prior.value.output && s.stepCount == prior.value.stepCount
        && s.loopStack == prior.value.loopStack && s.breakpoints == prior.value.breakpoints
    {
      match prior
      case None => Initial(tapeSize).(inputBuffer := input, inputIndex := 0)
      case Some(p) => p.(inputBuffer := input, inputIndex := 0)
    }

    /**
     * Preprocesses `code` (an unbalanced text throws before anything is
     * touched) and runs it from the supplied or a fresh state. The result is
     * the outcome of Machine.Run on the cleaned code; a supplied state is left
     * exactly as that run leaves it.
     */
    method Execute(code: string, input: seq<nat>, state: ExecutionState?, onStep: Option<StepCallback>)
      returns (r: ExecOutcome, ghost loopMap: map<nat, nat>)
      requires Valid()
      requires state != null ==> state.tape.Length == tapeSize && 0 <= state.pointer < tapeSize
      modifies if state != null then {state, state.tape} else {}
      ensures !Balanced(code) ==>
        && r.Threw? && PreprocessSpec(code, Failure(r.error))
        && (state != null ==> unchanged(state) && unchanged(state.tape))
      ensures Balanced(code) ==>
        && LoopMapFor(Clean(code), loopMap)
        && JumpTable(Clean(code), loopMap)
        && var s0 := StartState(if state != null then Some(old(state.Snap())) else None, input);
           var run := Run(Clean(code), loopMap, maxSteps, tapeSize, onStep, s0);
           && r == Returned(ExecutionResult(run.state.output, run.state.stepCount, run.state.tape, ErrorOf(run.halt)))
           && (state != null ==> state.Snap() == run.state)
      ensures state != null ==> state.tape == old(state.tape)
    {
      var pre := PreprocessCode(code);
      if pre.Failure? {
        if Balanced(code) {
          assert false;
        }
        return Threw(pre.error), map[];
      }
      var cleanCode, loops := pre.value.cleanCode, pre.value.loopMap;
      loopMap := loops;
      LoopMapIsJumpTable(cleanCode, loops);
      var current: ExecutionState;
      if state != null {
        current := state;
      } else {
        current := CreateInitialState();
      }
      current.inputBuffer := input;
      current.inputIndex := 0;
      current.instructionPointer := if state != null then current.instructionPointer else 0;
      ghost var s0 := StartState(if state != null then Some(old(state.Snap())) else None, input);
      assert current.Snap() == s0;
      var halt := MainLoop(cleanCode, loops, current, onStep);
      return Returned(ExecutionResult(current.output, current.stepCount, current.tape[..], ErrorOf(halt))), loops;
    }

    /**
     * The main loop of `execute` over cleaned code, in place on `current`:
     * it ends as Machine.Run says, in the state Machine.Run reaches.
     */
    method MainLoop(cleanCode: string, loops: map<nat, nat>, current: ExecutionState,
                    onStep: Option<StepCallback>) returns (halt: Halt)
      requires JumpTable(cleanCode, loops)
      requires current.tape.Length == tapeSize && 0 <= current.pointer < tapeSize
      modifies current, current.tape
      ensures current.tape == old(current.tape)
      ensures Outcome(current.Snap(), halt) ==
        Run(cleanCode, loops, maxSteps, tapeSize, onStep, old(current.Snap()))
    {
      ghost var run := Run(cleanCode, loops, maxSteps, tapeSize, onStep, current.Snap());
      ghost var theTape := current.tape;
      halt := Finished;
      while current.instructionPointer < |cleanCode|
        invariant current.tape == theTape && theTape.Length == tapeSize
        invariant OnTape(current.Snap(), tapeSize)
        invariant halt == Finished
        invariant Run(cleanCode, loops, maxSteps, tapeSize, onStep, current.Snap()) == run
        decreases maxSteps - current.stepCount
      {
        ghost var before := current.Snap();
        var suspendOrFail;
        suspendOrFail, halt := Iteration(cleanCode, loops, current, onStep);
        if suspendOrFail {
          break;
        }
        RunContinues(cleanCode, loops, maxSteps, tapeSize, onStep, before);
        current.instructionPointer := current.instructionPointer + 1;
        assert current.Snap() == Successor(cleanCode, loops, tapeSize, before);
      }
      if halt == Finished {
        RunFinished(cleanCode, loops, maxSteps, tapeSize, onStep, current.Snap());
      }
    }

    /**
     * One pass of the main loop's body, up to but not including the advance
     * of the instruction pointer: the step-ceiling check, the breakpoint
     * check, the instruction, its count and the callback. When the loop goes
     * on, advancing the pointer gives the state the run continues from;
     * otherwise the run ends here with `halt`.
     */
    method Iteration(cleanCode: string, loops: map<nat, nat>, current: ExecutionState,
                     onStep: Option<StepCallback>) returns (exits: bool, halt: Halt)
      requires JumpTable(cleanCode, loops) && current.instructionPointer < |cleanCode|
      requires current.tape.Length == tapeSize && 0 <= current.pointer < tapeSize
      modifies current, current.tape
      ensures current.tape == old(current.tape)
      ensures exits ==> halt != Finished
      ensures exits ==>
        Outcome(current.Snap(), halt) == Run(cleanCode, loops, maxSteps, tapeSize, onStep, old(current.Snap()))
      ensures !exits ==>
        && halt == Finished
        && Continues(cleanCode, loops, maxSteps, tapeSize, onStep, old(current.Snap()))
        && current.Snap().(instructionPointer := current.instructionPointer + 1)
           == Successor(cleanCode, loops, tapeSize, old(current.Snap()))
    {
      ghost var before := current.Snap();
      if current.stepCount >= maxSteps {
        StepLimitBeforeInstruction(cleanCode, loops, maxSteps, tapeSize, onStep, before);
        return true, Failed(StepLimitExceeded);
      }
      if current.instructionPointer in current.breakpoints {
        if onStep.Some? && onStep.value(current.Snap()) {
          BreakpointSuspendsBefore(cleanCode, loops, maxSteps, tapeSize, onStep, before);
          return true, Suspended;
        }
      }
      assert current.Snap() == before;
      exits, halt := StepAndReport(cleanCode, loops, current, onStep);
    }

    /**
     * The part of a pass after both checks: the instruction, its count and
     * the callback after it.
     */
    method StepAndReport(cleanCode: string, loops: map<nat, nat>, current: ExecutionState,
                         onStep: Option<StepCallback>) returns (exits: bool, halt: Halt)
      requires JumpTable(cleanCode, loops) && current.instructionPointer < |cleanCode|
      requires current.tape.Length == tapeSize && 0 <= current.pointer < tapeSize
      requires current.stepCount < maxSteps
      requires !(current.instructionPointer in current.breakpoints && Stops(onStep, current.Snap()))
      modifies current, current.tape
      ensures current.tape == old(current.tape)
      ensures exits ==> halt != Finished
      ensures exits ==>
        Outcome(current.Snap(), halt) == Run(cleanCode, loops, maxSteps, tapeSize, onStep, old(current.Snap()))
      ensures !exits ==>
        && halt == Finished
        && Continues(cleanCode, loops, maxSteps, tapeSize, onStep, old(current.Snap()))
        && current.Snap().(instructionPointer := current.instructionPointer + 1)
           == Successor(cleanCode, loops, tapeSize, old(current.Snap()))
    {
      ghost var before := current.Snap();
      var failure := ExecuteInstruction(cleanCode, loops, current);
      if failure.Some? {
        RunFaulted(cleanCode, loops, maxSteps, tapeSize, onStep, before);
        return true, Failed(failure.value);
      }
      current.stepCount := current.stepCount + 1;
      ghost var counted := Apply(cleanCode, loops, tapeSize, before).next.(stepCount := before.stepCount + 1);
      assert current.Snap() == counted;
      if onStep.Some? && onStep.value(current.Snap()) {
        RunMoved(cleanCode, loops, maxSteps, tapeSize, onStep, before);
        return true, Suspended;
      }
      assert current.Snap().(instructionPointer := current.instructionPointer + 1)
        == Successor(cleanCode, loops, tapeSize, before);
      return false, Finished;
    }

    /**
     * One instruction of the main loop, before its step is counted: this is
     * Machine.Apply done in place; a failed move reports its error.
     */
    method ExecuteInstruction(code: string, loopMap: map<nat, nat>, current: ExecutionState)
      returns (failure: Option<RuntimeError>)
      requires current.instructionPointer < |code| && JumpTable(code, loopMap)
      requires current.tape.Length == tapeSize && 0 <= current.pointer < tapeSize
      modifies current, current.tape
      ensures current.tape == old(current.tape)
      ensures var e := Apply(code, loopMap, tapeSize, old(current.Snap()));
        && current.Snap() == e.next
        && (e.Faulted? <==> failure.Some?)
        && (e.Faulted? ==> failure.value == e.error)
    {
      failure := None;
      var p, ip := current.pointer, current.instructionPointer;
      var instruction := code[ip];
      match instruction
      case '>' =>
        current.pointer := p + 1;
        if current.pointer >= tapeSize {
          return Some(TapeOverflow);
        }
      case '<' =>
        current.pointer := p - 1;
        if current.pointer < 0 {
          return Some(TapeUnderflow);
        }
      case '+' =>
        current.tape[p] := Increment(current.tape[p]);
      case '-' =>
        current.tape[p] := Decrement(current.tape[p]);
      case '.' =>
        current.output := current.output + [current.tape[p]];
      case ',' =>
        if current.inputIndex < |current.inputBuffer| {
          current.tape[p] := CellOf(current.inputBuffer[current.inputIndex]);
          current.inputIndex := current.inputIndex + 1;
        } else {
          current.tape[p] := 0;
        }
      case '[' =>
        assert IsBracket(code[ip]);
        if current.tape[p] == 0 {
          current.instructionPointer := loopMap[ip];
        } else {
          current.loopStack := current.loopStack + [ip];
        }
      case ']' =>
        assert IsBracket(code[ip]);
        if current.tape[p] != 0 {
          current.instructionPointer := loopMap[ip];
        } else if |current.loopStack| > 0 {
          current.loopStack := current.loopStack[..|current.loopStack| - 1];
        }
      case _ =>
    }

    /**
     * Lays out the cleaned code: a line break before each `[` that does not
     * follow a `[`, one after each `]` that is not last and not followed by
     * `]`, indentation by nesting level, and `[]` for each empty loop.
     * Preprocessing failures escape.
     */
    method FormatCode(code: string, spacesPerIndent: nat) returns (r: Result<string, PreprocessError>)
      ensures !Balanced(code) ==> r.Failure? && PreprocessSpec(code, Failure(r.error))
      ensures Balanced(code) ==> r == Success(Layout(Clean(code), spacesPerIndent))
    {
      var pre := PreprocessCode(code);
      if pre.Failure? {
        return Failure(pre.error);
      }
      var formatted := FormatLoop(pre.value.cleanCode, spacesPerIndent);
      return Success(formatted);
    }

    /** The formatting loop over cleaned code: it writes exactly Formatting.Layout. */
    method FormatLoop(cleanCode: string, spacesPerIndent: nat) returns (formatted: string)
      requires forall j {:trigger IsInstruction(cleanCode[j])} ::
        0 <= j < |cleanCode| ==> IsInstruction(cleanCode[j])
      ensures formatted == Layout(cleanCode, spacesPerIndent)
    {
      formatted := "";
      var indentLevel: nat := 0;
      var i := 0;
      while i < |cleanCode|
        invariant 0 <= i <= |cleanCode|
        invariant formatted == LayoutUpTo(cleanCode, spacesPerIndent, i)
        invariant indentLevel == Level(cleanCode, i)
      {
        if i > 0 {
          InstructionIsNotWhitespace(cleanCode[i - 1]);
        }
        formatted, indentLevel := FormatInstruction(cleanCode, spacesPerIndent, i, formatted, indentLevel);
        i := i + 1;
      }
    }

    /**
     * One pass of the formatting loop's body: the text and the indentation
     * level after the first `i` instructions become those after `i + 1`.
     */
    method FormatInstruction(cleanCode: string, spacesPerIndent: nat, i: nat, formatted: string, indentLevel: nat)
      returns (text: string, level: nat)
      requires i < |cleanCode| && (i > 0 ==> !IsWhitespace(cleanCode[i - 1]))
      requires formatted == LayoutUpTo(cleanCode, spacesPerIndent, i) && indentLevel == Level(cleanCode, i)
      ensures text == LayoutUpTo(cleanCode, spacesPerIndent, i + 1) && level == Level(cleanCode, i + 1)
    {
      var c := cleanCode[i];
      level := indentLevel;
      if c == ']' {
        level := if 0 > level - 1 then 0 else level - 1;
      }
      EmptyLoopTest(cleanCode, spacesPerIndent, i);
      text := WriteInstruction(cleanCode, spacesPerIndent, i, formatted, level);
      if c == '[' {
        level := level + 1;
      }
      assert level == Level(cleanCode, i + 1);
      ghost var written := text;
      if c == ']' && i < |cleanCode| - 1 && cleanCode[i + 1] != ']' {
        text := text + LineBreak(level, spacesPerIndent);
      }
      assert text == written + CloseBreak(cleanCode, i, spacesPerIndent);
      LayoutStep(cleanCode, spacesPerIndent, i);
      assert text == formatted + (OpenBreak(cleanCode, i, spacesPerIndent) + Body(cleanCode, i))
        + CloseBreak(cleanCode, i, spacesPerIndent);
    }

    /**
     * The instruction itself, with the line break before a `[` and the
     * rewrite of a `]` that closes an empty loop.
     */
    method WriteInstruction(cleanCode: string, spacesPerIndent: nat, i: nat, formatted: string, level: nat)
      returns (text: string)
      requires i < |cleanCode| && (i > 0 ==> !IsWhitespace(cleanCode[i - 1]))
      requires TrimmedEndShowsPrevious(cleanCode, i, formatted)
      requires cleanCode[i] == '[' ==> level == Level(cleanCode, i)
      ensures text == formatted + (OpenBreak(cleanCode, i, spacesPerIndent) + Body(cleanCode, i))
    {
      var c := cleanCode[i];
      var trimmed := TrimEnd(formatted);
      if c == ']' && |trimmed| > 0 && trimmed[|trimmed| - 1] == '[' {
        assert trimmed == formatted && ClosesEmptyLoop(cleanCode, i);
        text := trimmed;
        text := text + "[]";
        assert OpenBreak(cleanCode, i, spacesPerIndent) + Body(cleanCode, i) == "[]";
      } else {
        assert Body(cleanCode, i) == [c];
        if i > 0 && c == '[' && cleanCode[i - 1] != '[' {
          var lineBreak := LineBreak(level, spacesPerIndent);
          assert OpenBreak(cleanCode, i, spacesPerIndent) == lineBreak;
          text := formatted + lineBreak + [c];
          assert text == formatted + (lineBreak + [c]);
        } else {
          assert OpenBreak(cleanCode, i, spacesPerIndent) == "";
          text := formatted + [c];
        }
      }
    }
  }
}
