/**
 * The tape machine as a specification: a snapshot of the execution state,
 * the effect of one instruction, and the run of the main loop until it
 * finishes, suspends or fails.
 */
module Machine {

  import opened Results
  import opened Instructions

  /** A tape cell: an unsigned 8-bit value. */
  newtype byte = x: int | 0 <= x < 256

  /** The execution state, as a value; the step callback sees one of these. */
  datatype Snapshot = Snapshot(
    tape: seq<byte>,
    pointer: int,
    output: seq<byte>,
    inputBuffer: seq<nat>,
    inputIndex: nat,
    stepCount: nat,
    instructionPointer: nat,
    loopStack: seq<nat>,
    breakpoints: set<nat>)

  /** The failures raised inside the main loop. */
  datatype RuntimeError = StepLimitExceeded | TapeOverflow | TapeUnderflow

  /** How a run of the main loop ended. */
  datatype Halt = Finished | Suspended | Failed(error: RuntimeError)

  datatype Outcome = Outcome(state: Snapshot, halt: Halt)

  /** The effect of one instruction: a new state, or a new state and a failure. */
  datatype Effect = Moved(next: Snapshot) | Faulted(next: Snapshot, error: RuntimeError)

  /** The caller's step callback; it returns true to suspend execution. */
  type StepCallback = Snapshot -> bool

  /** An absent callback never suspends. */
  predicate Stops(onStep: Option<StepCallback>, s: Snapshot) {
    onStep.Some? && onStep.value(s)
  }

  /** Cell arithmetic wraps modulo 256. */
  function Increment(b: byte): (r: byte)
    ensures b < 255 ==> r == b + 1
    ensures b == 255 ==> r == 0
  {
    ((b as int + 1) % 256) as byte
  }

  function Decrement(b: byte): (r: byte)
    ensures b > 0 ==> r == b - 1
    ensures b == 0 ==> r == 255
  {
    ((b as int - 1) % 256) as byte
  }

  /** A UTF-16 code unit stored into a cell keeps its low eight bits. */
  function CellOf(unit: nat): (r: byte)
    ensures unit < 256 ==> r as int == unit
    ensures (unit - r as int) % 256 == 0
  {
    (unit % 256) as byte
  }

  /** Removing the top of an array-backed stack; an empty one stays empty. */
  function Pop(stack: seq<nat>): (r: seq<nat>)
    ensures |stack| > 0 ==> r == stack[..|stack| - 1]
    ensures |stack| == 0 ==> r == []
  {
    if |stack| == 0 then [] else stack[..|stack| - 1]
  }

  /** The tape has the configured size and the data pointer is on it. */
  predicate OnTape(s: Snapshot, tapeSize: nat) {
    |s.tape| == tapeSize && 0 <= s.pointer < tapeSize
  }

  /** Every bracket of `code` has a jump target inside `code`. */
  ghost predicate JumpTable(code: string, loopMap: map<nat, nat>) {
    && (forall a: nat {:trigger IsBracket(code[a])} :: a < |code| && IsBracket(code[a]) ==> a in loopMap)
    && (forall a: nat {:trigger a in loopMap} :: a in loopMap ==> loopMap[a] < |code|)
  }

  /** A loop map built by preprocessing is a jump table. */
  lemma LoopMapIsJumpTable(code: string, loopMap: map<nat, nat>)
    requires LoopMapFor(code, loopMap)
    ensures JumpTable(code, loopMap)
  {
    forall a: nat | a in loopMap
      ensures loopMap[a] < |code|
    {
      LoopMapInvolution(code, loopMap, a);
    }
  }

  /**
   * The effect of the instruction at the instruction pointer, before its
   * step is counted. A jump leaves the instruction pointer ON the matched
   * bracket; the loop's own increment moves past it afterwards.
   */
  function Apply(code: string, loopMap: map<nat, nat>, tapeSize: nat, s: Snapshot): (e: Effect)
    requires s.instructionPointer < |code| && OnTape(s, tapeSize) && JumpTable(code, loopMap)
    ensures e.next.stepCount == s.stepCount
    ensures |e.next.tape| == tapeSize
    ensures e.next.breakpoints == s.breakpoints && e.next.inputBuffer == s.inputBuffer
    ensures e.Moved? ==> 0 <= e.next.pointer < tapeSize && e.next.instructionPointer < |code|
    ensures s.output <= e.next.output
    ensures e.Faulted? ==> e.next.tape == s.tape && e.next.output == s.output
    ensures e.Faulted? ==> e.next.instructionPointer == s.instructionPointer && e.error != StepLimitExceeded
    ensures e.Faulted? <==>
      (code[s.instructionPointer] == '>' && s.pointer == tapeSize - 1) ||
      (code[s.instructionPointer] == '<' && s.pointer == 0)
  {
    var p, ip := s.pointer, s.instructionPointer;
    match code[ip]
    case '>' =>
      if p + 1 >= tapeSize then Faulted(s.(pointer := p + 1), TapeOverflow)
      else Moved(s.(pointer := p + 1))
    case '<' =>
      if p - 1 < 0 then Faulted(s.(pointer := p - 1), TapeUnderflow)
      else Moved(s.(pointer := p - 1))
    case '+' => Moved(s.(tape := s.tape[p := Increment(s.tape[p])]))
    case '-' => Moved(s.(tape := s.tape[p := Decrement(s.tape[p])]))
    case '.' => Moved(s.(output := s.output + [s.tape[p]]))
    case ',' =>
      if s.inputIndex < |s.inputBuffer| then
        Moved(s.(tape := s.tape[p := CellOf(s.inputBuffer[s.inputIndex])], inputIndex := s.inputIndex + 1))
      else
        Moved(s.(tape := s.tape[p := 0]))
    case '[' =>
      assert IsBracket(code[ip]);
      if s.tape[p] == 0 then Moved(s.(instructionPointer := loopMap[ip]))
      else Moved(s.(loopStack := s.loopStack + [ip]))
    case ']' =>
      assert IsBracket(code[ip]);
      if s.tape[p] != 0 then Moved(s.(instructionPointer := loopMap[ip]))
      else Moved(s.(loopStack := Pop(s.loopStack)))
    case _ => Moved(s)
  }

  /**
   * The main loop from state `s`: stop at the end of the code; fail once the
   * step ceiling is reached; suspend before a breakpointed instruction if the
   * callback asks to; otherwise execute the instruction, count it, suspend if
   * the callback asks to, and go on with the next instruction.
   */
  function Run(code: string, loopMap: map<nat, nat>, maxSteps: nat, tapeSize: nat,
               onStep: Option<StepCallback>, s: Snapshot): (o: Outcome)
    requires OnTape(s, tapeSize) && JumpTable(code, loopMap)
    ensures |o.state.tape| == tapeSize
    ensures o.state.stepCount >= s.stepCount
    ensures o.state.breakpoints == s.breakpoints && o.state.inputBuffer == s.inputBuffer
    ensures !o.halt.Failed? || o.halt.error == StepLimitExceeded ==> 0 <= o.state.pointer < tapeSize
    decreases maxSteps - s.stepCount
  {
    if s.instructionPointer >= |code| then Outcome(s, Finished)
    else if s.stepCount >= maxSteps then Outcome(s, Failed(StepLimitExceeded))
    else if s.instructionPointer in s.breakpoints && Stops(onStep, s) then Outcome(s, Suspended)
    else
      match Apply(code, loopMap, tapeSize, s)
      case Faulted(t, error) => Outcome(t, Failed(error))
      case Moved(t) =>
        var counted := t.(stepCount := t.stepCount + 1);
        if Stops(onStep, counted) then Outcome(counted, Suspended)
        else Run(code, loopMap, maxSteps, tapeSize, onStep,
                 counted.(instructionPointer := counted.instructionPointer + 1))
  }

  /** The error field of an execution result, from how the loop ended. */
  function ErrorOf(halt: Halt): Option<RuntimeError> {
    if halt.Failed? then Some(halt.error) else None
  }

  // ---------------------------------------------------------------------
  // One instruction

  /**
   * `+`, `-`, `,` and `.` touch only the cell at the pointer (and, for the
   * last two, the input cursor and the output), modulo 256.
   */
  lemma CellInstructionEffects(code: string, loopMap: map<nat, nat>, tapeSize: nat, s: Snapshot)
    requires s.instructionPointer < |code| && OnTape(s, tapeSize) && JumpTable(code, loopMap)
    requires code[s.instructionPointer] in "+-,."
    ensures Apply(code, loopMap, tapeSize, s).Moved?
    ensures var t, p, c := Apply(code, loopMap, tapeSize, s).next, s.pointer, code[s.instructionPointer];
      && t.pointer == p && t.instructionPointer == s.instructionPointer
      && t.loopStack == s.loopStack
      && (forall k :: 0 <= k < tapeSize && k != p ==> t.tape[k] == s.tape[k])
      && (c == '+' ==> t.tape[p] as int == (s.tape[p] as int + 1) % 256)
      && (c == '-' ==> t.tape[p] as int == (s.tape[p] as int - 1) % 256)
      && (c == '-' && s.tape[p] == 0 ==> t.tape[p] == 255)
      && (c == ',' && s.inputIndex < |s.inputBuffer| ==>
            t.tape[p] as int == s.inputBuffer[s.inputIndex] % 256 && t.inputIndex == s.inputIndex + 1)
      && (c == ',' && s.inputIndex >= |s.inputBuffer| ==> t.tape[p] == 0 && t.inputIndex == s.inputIndex)
      && (c != ',' ==> t.inputIndex == s.inputIndex)
      && (c == '.' ==> t.tape == s.tape && t.output == s.output + [s.tape[p]])
      && (c != '.' ==> t.output == s.output)
  {
  }

  /**
   * `>` fails exactly at the last cell and `<` exactly at the first; the
   * failed move leaves the pointer off the tape and changes nothing else.
   */
  lemma MoveInstructionEffects(code: string, loopMap: map<nat, nat>, tapeSize: nat, s: Snapshot)
    requires s.instructionPointer < |code| && OnTape(s, tapeSize) && JumpTable(code, loopMap)
    requires code[s.instructionPointer] in "<>"
    ensures var e, p, c := Apply(code, loopMap, tapeSize, s), s.pointer, code[s.instructionPointer];
      && e.next == s.(pointer := if c == '>' then p + 1 else p - 1)
      && (c == '>' ==> (e.Faulted? <==> p == tapeSize - 1) && (e.Faulted? ==> e.error == TapeOverflow))
      && (c == '<' ==> (e.Faulted? <==> p == 0) && (e.Faulted? ==> e.error == TapeUnderflow))
  {
  }

  /**
   * `[` on a zero cell jumps to its matching `]`; on any other cell it pushes
   * its own index. `]` on a nonzero cell jumps back to its matching `[`; on a
   * zero cell it pops. Jumps leave the loop stack alone; nothing touches the tape.
   * (For a loop map built by preprocessing, `loopMap[ip]` is the matching
   * bracket: Instructions.LoopMapPartner.)
   */
  lemma LoopInstructionEffects(code: string, loopMap: map<nat, nat>, tapeSize: nat, s: Snapshot)
    requires s.instructionPointer < |code| && OnTape(s, tapeSize) && JumpTable(code, loopMap)
    requires IsBracket(code[s.instructionPointer])
    ensures Apply(code, loopMap, tapeSize, s).Moved?
    ensures var t, ip, cell := Apply(code, loopMap, tapeSize, s).next, s.instructionPointer, s.tape[s.pointer];
      && t.tape == s.tape && t.pointer == s.pointer && t.output == s.output && t.inputIndex == s.inputIndex
      && (code[ip] == '[' && cell == 0 ==> t.instructionPointer == loopMap[ip] && t.loopStack == s.loopStack)
      && (code[ip] == '[' && cell != 0 ==> t.instructionPointer == ip && t.loopStack == s.loopStack + [ip])
      && (code[ip] == ']' && cell != 0 ==> t.instructionPointer == loopMap[ip] && t.loopStack == s.loopStack)
      && (code[ip] == ']' && cell == 0 ==> t.instructionPointer == ip && t.loopStack == Pop(s.loopStack))
  {
  }

  // ---------------------------------------------------------------------
  // One iteration of the main loop

  /** At or past the end of the code the loop ends at once. */
  lemma RunFinished(code: string, loopMap: map<nat, nat>, maxSteps: nat, tapeSize: nat,
                    onStep: Option<StepCallback>, s: Snapshot)
    requires OnTape(s, tapeSize) && JumpTable(code, loopMap)
    requires s.instructionPointer >= |code|
    ensures Run(code, loopMap, maxSteps, tapeSize, onStep, s) == Outcome(s, Finished)
  {
  }

  /** A faulting instruction ends the loop with its error. */
  lemma RunFaulted(code: string, loopMap: map<nat, nat>, maxSteps: nat, tapeSize: nat,
                   onStep: Option<StepCallback>, s: Snapshot)
    requires OnTape(s, tapeSize) && JumpTable(code, loopMap)
    requires s.instructionPointer < |code| && s.stepCount < maxSteps
    requires !(s.instructionPointer in s.breakpoints && Stops(onStep, s))
    requires Apply(code, loopMap, tapeSize, s).Faulted?
    ensures var e := Apply(code, loopMap, tapeSize, s);
      Run(code, loopMap, maxSteps, tapeSize, onStep, s) == Outcome(e.next, Failed(e.error))
  {
  }

  /** An instruction that does not fault is counted, then the callback may suspend. */
  lemma RunMoved(code: string, loopMap: map<nat, nat>, maxSteps: nat, tapeSize: nat,
                 onStep: Option<StepCallback>, s: Snapshot)
    requires OnTape(s, tapeSize) && JumpTable(code, loopMap)
    requires s.instructionPointer < |code| && s.stepCount < maxSteps
    requires !(s.instructionPointer in s.breakpoints && Stops(onStep, s))
    requires Apply(code, loopMap, tapeSize, s).Moved?
    ensures var counted := Apply(code, loopMap, tapeSize, s).next.(stepCount := s.stepCount + 1);
      && OnTape(counted, tapeSize)
      && Run(code, loopMap, maxSteps, tapeSize, onStep, s) ==
         if Stops(onStep, counted) then Outcome(counted, Suspended)
         else Run(code, loopMap, maxSteps, tapeSize, onStep,
                  counted.(instructionPointer := counted.instructionPointer + 1))
  {
    var e := Apply(code, loopMap, tapeSize, s);
    assert e == Moved(e.next);
    assert OnTape(e.next.(stepCount := s.stepCount + 1), tapeSize);
  }

  /** Once the step counter reaches the ceiling, the next instruction is not executed. */
  lemma StepLimitBeforeInstruction(code: string, loopMap: map<nat, nat>, maxSteps: nat, tapeSize: nat,
                                   onStep: Option<StepCallback>, s: Snapshot)
    requires OnTape(s, tapeSize) && JumpTable(code, loopMap)
    requires s.instructionPointer < |code| && s.stepCount >= maxSteps
    ensures Run(code, loopMap, maxSteps, tapeSize, onStep, s) == Outcome(s, Failed(StepLimitExceeded))
  {
  }

  /**
   * At a breakpoint whose callback asks to stop, the loop suspends before
   * the instruction: the state, its step count included, is untouched.
   */
  lemma BreakpointSuspendsBefore(code: string, loopMap: map<nat, nat>, maxSteps: nat, tapeSize: nat,
                                 onStep: Option<StepCallback>, s: Snapshot)
    requires OnTape(s, tapeSize) && JumpTable(code, loopMap)
    requires s.instructionPointer < |code| && s.stepCount < maxSteps
    requires s.instructionPointer in s.breakpoints && Stops(onStep, s)
    ensures Run(code, loopMap, maxSteps, tapeSize, onStep, s) == Outcome(s, Suspended)
  {
  }

  /**
   * When the callback asks to stop after an instruction, the loop suspends
   * with that instruction counted and the instruction pointer not advanced:
   * it is on the executed instruction, or on the bracket a jump went to.
   */
  lemma SuspendsAfterStep(code: string, loopMap: map<nat, nat>, maxSteps: nat, tapeSize: nat,
                          onStep: Option<StepCallback>, s: Snapshot)
    requires OnTape(s, tapeSize) && JumpTable(code, loopMap)
    requires s.instructionPointer < |code| && s.stepCount < maxSteps
    requires !(s.instructionPointer in s.breakpoints && Stops(onStep, s))
    requires Apply(code, loopMap, tapeSize, s).Moved?
    requires Stops(onStep, Apply(code, loopMap, tapeSize, s).next.(stepCount := s.stepCount + 1))
    ensures var o := Run(code, loopMap, maxSteps, tapeSize, onStep, s);
      && o.halt == Suspended
      && o.state.stepCount == s.stepCount + 1
      && (o.state.instructionPointer == s.instructionPointer ||
          (IsBracket(code[s.instructionPointer]) && o.state.instructionPointer == loopMap[s.instructionPointer]))
  {
    var t := Apply(code, loopMap, tapeSize, s).next;
    RunMoved(code, loopMap, maxSteps, tapeSize, onStep, s);
    assert Run(code, loopMap, maxSteps, tapeSize, onStep, s) == Outcome(t.(stepCount := s.stepCount + 1), Suspended);
    if IsBracket(code[s.instructionPointer]) {
      LoopInstructionEffects(code, loopMap, tapeSize, s);
    } else {
      assert t.instructionPointer == s.instructionPointer;
    }
  }

  /**
   * A failing `>` or `<` ends the run at once: the pointer is left off the
   * tape, the step is not counted, and output and tape are as before.
   */
  lemma FailedMoveIsNotCounted(code: string, loopMap: map<nat, nat>, maxSteps: nat, tapeSize: nat,
                               onStep: Option<StepCallback>, s: Snapshot)
    requires OnTape(s, tapeSize) && JumpTable(code, loopMap)
    requires s.instructionPointer < |code| && s.stepCount < maxSteps
    requires !(s.instructionPointer in s.breakpoints && Stops(onStep, s))
    requires (code[s.instructionPointer] == '>' && s.pointer == tapeSize - 1) ||
             (code[s.instructionPointer] == '<' && s.pointer == 0)
    ensures var o := Run(code, loopMap, maxSteps, tapeSize, onStep, s);
      && o.halt == Failed(if code[s.instructionPointer] == '>' then TapeOverflow else TapeUnderflow)
      && o.state == s.(pointer := if code[s.instructionPointer] == '>' then tapeSize else -1)
  {
  }

  /**
   * `[` on a zero cell, when nothing suspends, continues just after its
   * matching `]`; `]` on a nonzero cell continues just after its matching `[`.
   */
  lemma JumpsContinueAfterMatch(code: string, loopMap: map<nat, nat>, maxSteps: nat, tapeSize: nat,
                                onStep: Option<StepCallback>, s: Snapshot)
    requires OnTape(s, tapeSize) && JumpTable(code, loopMap)
    requires s.instructionPointer < |code| && s.stepCount < maxSteps
    requires !(s.instructionPointer in s.breakpoints && Stops(onStep, s))
    requires var ip, cell := s.instructionPointer, s.tape[s.pointer];
      (code[ip] == '[' && cell == 0) || (code[ip] == ']' && cell != 0)
    requires IsBracket(code[s.instructionPointer]) && s.instructionPointer in loopMap
    requires !Stops(onStep, s.(instructionPointer := loopMap[s.instructionPointer], stepCount := s.stepCount + 1))
    ensures var m := loopMap[s.instructionPointer];
      Run(code, loopMap, maxSteps, tapeSize, onStep, s)
         == Run(code, loopMap, maxSteps, tapeSize, onStep,
                s.(instructionPointer := m + 1, stepCount := s.stepCount + 1))
  {
    var m := loopMap[s.instructionPointer];
    assert Apply(code, loopMap, tapeSize, s) == Moved(s.(instructionPointer := m));
    assert Continues(code, loopMap, maxSteps, tapeSize, onStep, s);
    RunContinues(code, loopMap, maxSteps, tapeSize, onStep, s);
    assert Successor(code, loopMap, tapeSize, s) == s.(instructionPointer := m + 1, stepCount := s.stepCount + 1);
  }

  // ---------------------------------------------------------------------
  // Whole runs

  /**
   * Whether the loop goes on past state `s` to another pass: the
   * instruction is executed without a fault and nothing suspends.
   */
  ghost predicate Continues(code: string, loopMap: map<nat, nat>, maxSteps: nat, tapeSize: nat,
                            onStep: Option<StepCallback>, s: Snapshot)
    requires OnTape(s, tapeSize) && JumpTable(code, loopMap)
  {
    && s.instructionPointer < |code| && s.stepCount < maxSteps
    && !(s.instructionPointer in s.breakpoints && Stops(onStep, s))
    && Apply(code, loopMap, tapeSize, s).Moved?
    && !Stops(onStep, Apply(code, loopMap, tapeSize, s).next.(stepCount := s.stepCount + 1))
  }

  /** The state the next pass starts from: the instruction done, counted, and the pointer advanced. */
  function Successor(code: string, loopMap: map<nat, nat>, tapeSize: nat, s: Snapshot): Snapshot
    requires s.instructionPointer < |code| && OnTape(s, tapeSize) && JumpTable(code, loopMap)
  {
    var t := Apply(code, loopMap, tapeSize, s).next;
    t.(stepCount := s.stepCount + 1, instructionPointer := t.instructionPointer + 1)
  }

  /** A pass that goes on hands the rest of the run to the successor state. */
  lemma RunContinues(code: string, loopMap: map<nat, nat>, maxSteps: nat, tapeSize: nat,
                     onStep: Option<StepCallback>, s: Snapshot)
    requires OnTape(s, tapeSize) && JumpTable(code, loopMap)
    requires Continues(code, loopMap, maxSteps, tapeSize, onStep, s)
    ensures var n := Successor(code, loopMap, tapeSize, s);
      && OnTape(n, tapeSize) && n.stepCount == s.stepCount + 1 && s.output <= n.output
      && Run(code, loopMap, maxSteps, tapeSize, onStep, s) == Run(code, loopMap, maxSteps, tapeSize, onStep, n)
  {
    RunMoved(code, loopMap, maxSteps, tapeSize, onStep, s);
    var counted := Apply(code, loopMap, tapeSize, s).next.(stepCount := s.stepCount + 1);
    assert counted.(instructionPointer := counted.instructionPointer + 1) == Successor(code, loopMap, tapeSize, s);
  }

  /**
   * How a run may end at the pass from `s`: it finishes only at the end of
   * the code with the state untouched, counts at most the one step it
   * executed, fails on the step ceiling only when the ceiling was already
   * reached, never loses output, and otherwise stops on an instruction.
   */
  ghost predicate EndsHere(code: string, maxSteps: nat, s: Snapshot, o: Outcome) {
    && (o.halt == Finished <==> s.instructionPointer >= |code|)
    && (o.halt == Finished ==> o.state == s)
    && (o.halt != Finished ==> o.state.instructionPointer < |code|)
    && (o.state.stepCount == s.stepCount || (o.state.stepCount == s.stepCount + 1 && s.stepCount < maxSteps))
    && (o.halt == Failed(StepLimitExceeded) ==> o.state.stepCount == s.stepCount >= maxSteps)
    && s.output <= o.state.output
  }

  /** A pass that does not go on ends the run there. */
  lemma RunStops(code: string, loopMap: map<nat, nat>, maxSteps: nat, tapeSize: nat,
                 onStep: Option<StepCallback>, s: Snapshot)
    requires OnTape(s, tapeSize) && JumpTable(code, loopMap)
    requires !Continues(code, loopMap, maxSteps, tapeSize, onStep, s)
    ensures EndsHere(code, maxSteps, s, Run(code, loopMap, maxSteps, tapeSize, onStep, s))
  {
    if s.instructionPointer < |code| && s.stepCount < maxSteps &&
       !(s.instructionPointer in s.breakpoints && Stops(onStep, s)) {
      RunStopsAfterInstruction(code, loopMap, maxSteps, tapeSize, onStep, s);
    } else {
      RunStopsBeforeInstruction(code, loopMap, maxSteps, tapeSize, onStep, s);
    }
  }

  lemma RunStopsBeforeInstruction(code: string, loopMap: map<nat, nat>, maxSteps: nat, tapeSize: nat,
                                  onStep: Option<StepCallback>, s: Snapshot)
    requires OnTape(s, tapeSize) && JumpTable(code, loopMap)
    requires !(s.instructionPointer < |code| && s.stepCount < maxSteps &&
               !(s.instructionPointer in s.breakpoints && Stops(onStep, s)))
    ensures EndsHere(code, maxSteps, s, Run(code, loopMap, maxSteps, tapeSize, onStep, s))
  {
    if s.instructionPointer >= |code| {
      RunFinished(code, loopMap, maxSteps, tapeSize, onStep, s);
    } else if s.stepCount >= maxSteps {
      StepLimitBeforeInstruction(code, loopMap, maxSteps, tapeSize, onStep, s);
    } else {
      BreakpointSuspendsBefore(code, loopMap, maxSteps, tapeSize, onStep, s);
    }
  }

  lemma RunStopsAfterInstruction(code: string, loopMap: map<nat, nat>, maxSteps: nat, tapeSize: nat,
                                 onStep: Option<StepCallback>, s: Snapshot)
    requires OnTape(s, tapeSize) && JumpTable(code, loopMap)
    requires s.instructionPointer < |code| && s.stepCount < maxSteps
    requires !(s.instructionPointer in s.breakpoints && Stops(onStep, s))
    requires !Continues(code, loopMap, maxSteps, tapeSize, onStep, s)
    ensures EndsHere(code, maxSteps, s, Run(code, loopMap, maxSteps, tapeSize, onStep, s))
  {
    if Apply(code, loopMap, tapeSize, s).Faulted? {
      RunStopsOnFault(code, loopMap, maxSteps, tapeSize, onStep, s);
    } else {
      RunStopsOnSuspend(code, loopMap, maxSteps, tapeSize, onStep, s);
    }
  }

  lemma RunStopsOnFault(code: string, loopMap: map<nat, nat>, maxSteps: nat, tapeSize: nat,
                        onStep: Option<StepCallback>, s: Snapshot)
    requires OnTape(s, tapeSize) && JumpTable(code, loopMap)
    requires s.instructionPointer < |code| && s.stepCount < maxSteps
    requires !(s.instructionPointer in s.breakpoints && Stops(onStep, s))
    requires Apply(code, loopMap, tapeSize, s).Faulted?
    ensures EndsHere(code, maxSteps, s, Run(code, loopMap, maxSteps, tapeSize, onStep, s))
  {
    var e := Apply(code, loopMap, tapeSize, s);
    RunFaulted(code, loopMap, maxSteps, tapeSize, onStep, s);
    assert Run(code, loopMap, maxSteps, tapeSize, onStep, s) == Outcome(e.next, Failed(e.error));
  }

  lemma RunStopsOnSuspend(code: string, loopMap: map<nat, nat>, maxSteps: nat, tapeSize: nat,
                          onStep: Option<StepCallback>, s: Snapshot)
    requires OnTape(s, tapeSize) && JumpTable(code, loopMap)
    requires s.instructionPointer < |code| && s.stepCount < maxSteps
    requires !(s.instructionPointer in s.breakpoints && Stops(onStep, s))
    requires Apply(code, loopMap, tapeSize, s).Moved?
    requires Stops(onStep, Apply(code, loopMap, tapeSize, s).next.(stepCount := s.stepCount + 1))
    ensures EndsHere(code, maxSteps, s, Run(code, loopMap, maxSteps, tapeSize, onStep, s))
  {
    var e := Apply(code, loopMap, tapeSize, s);
    RunMoved(code, loopMap, maxSteps, tapeSize, onStep, s);
    var counted := e.next.(stepCount := s.stepCount + 1);
    assert Run(code, loopMap, maxSteps, tapeSize, onStep, s) == Outcome(counted, Suspended);
  }

  /** A run that starts within the step ceiling stays within it. */
  lemma {:induction false} RunWithinStepLimit(code: string, loopMap: map<nat, nat>, maxSteps: nat,
                                              tapeSize: nat, onStep: Option<StepCallback>, s: Snapshot)
    requires OnTape(s, tapeSize) && JumpTable(code, loopMap)
    requires s.stepCount <= maxSteps
    ensures var o := Run(code, loopMap, maxSteps, tapeSize, onStep, s);
      && o.state.stepCount <= maxSteps
      && (o.halt == Failed(StepLimitExceeded) ==> o.state.stepCount == maxSteps)
    decreases maxSteps - s.stepCount
  {
    if Continues(code, loopMap, maxSteps, tapeSize, onStep, s) {
      RunContinues(code, loopMap, maxSteps, tapeSize, onStep, s);
      RunWithinStepLimit(code, loopMap, maxSteps, tapeSize, onStep, Successor(code, loopMap, tapeSize, s));
    } else {
      RunStops(code, loopMap, maxSteps, tapeSize, onStep, s);
    }
  }

  /** Output is append-only: a run only ever extends it. */
  lemma {:induction false} RunExtendsOutput(code: string, loopMap: map<nat, nat>, maxSteps: nat,
                                            tapeSize: nat, onStep: Option<StepCallback>, s: Snapshot)
    requires OnTape(s, tapeSize) && JumpTable(code, loopMap)
    ensures s.output <= Run(code, loopMap, maxSteps, tapeSize, onStep, s).state.output
    decreases maxSteps - s.stepCount
  {
    if Continues(code, loopMap, maxSteps, tapeSize, onStep, s) {
      RunContinues(code, loopMap, maxSteps, tapeSize, onStep, s);
      RunExtendsOutput(code, loopMap, maxSteps, tapeSize, onStep, Successor(code, loopMap, tapeSize, s));
    } else {
      RunStops(code, loopMap, maxSteps, tapeSize, onStep, s);
    }
  }

  /**
   * A run that neither suspends nor fails ends with the instruction pointer
   * exactly at the end of the code; a run that stops otherwise stops on an
   * instruction.
   */
  lemma {:induction false} RunEndsAtEnd(code: string, loopMap: map<nat, nat>, maxSteps: nat,
                                        tapeSize: nat, onStep: Option<StepCallback>, s: Snapshot)
    requires OnTape(s, tapeSize) && JumpTable(code, loopMap)
    requires s.instructionPointer <= |code|
    ensures var o := Run(code, loopMap, maxSteps, tapeSize, onStep, s);
      && (o.halt == Finished ==> o.state.instructionPointer == |code|)
      && (o.halt != Finished ==> o.state.instructionPointer < |code|)
    decreases maxSteps - s.stepCount
  {
    if Continues(code, loopMap, maxSteps, tapeSize, onStep, s) {
      RunContinues(code, loopMap, maxSteps, tapeSize, onStep, s);
      RunEndsAtEnd(code, loopMap, maxSteps, tapeSize, onStep, Successor(code, loopMap, tapeSize, s));
    } else {
      RunStops(code, loopMap, maxSteps, tapeSize, onStep, s);
    }
  }
}
