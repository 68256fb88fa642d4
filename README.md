# BrainFuck interpreter of brainfuck-vscode, modelled in Dafny

This project models the interpreter at the core of the brainfuck-vscode
extension, the class `BrainFuckInterpreter` in `src/bfInterpreter.ts`.

- **Execution state.** A record holding:
  - the tape of unsigned 8-bit cells;
  - the data pointer;
  - the output;
  - the input buffer and its cursor;
  - the step counter;
  - the instruction pointer;
  - a stack of loop starts;
  - a set of breakpoints.

  The model has two forms of it. `BrainFuck.ExecutionState` is a class with an array tape, updated in place. `Machine.Snapshot` is its value form, the state as a step callback sees it.
- **Preprocessing.** It strips every character that is not one of the eight instructions. It pairs `[` and `]` with a stack. It reports the first `]` that closes nothing, or else the earliest `[` that is never closed, as a position in the original text.
- **Execution.**
  - It preprocesses the code. Preprocessing errors escape to the caller.
  - It resets the input buffer and its cursor.
  - It keeps the instruction pointer only when a state was handed in.
  - It then runs the main loop. Each pass:
    - checks the step ceiling;
    - offers a breakpoint to the callback before the instruction;
    - executes the instruction;
    - counts it;
    - offers the new state to the callback after it.
  - A jump sets the instruction pointer onto the matching bracket, and the loop's own increment then moves past it.
  - A suspension leaves the instruction pointer where it is.
- **Formatting.** The formatter lays out the cleaned code:
  - a line break before a `[` that is not first and does not follow a `[`;
  - a line break after a `]` that is neither last nor followed by `]`;
  - indentation by nesting depth;
  - the special `[]` rewrite of an empty loop.

## How the model is organised

- `results.dfy` (`Results`): `Option` and `Result`.
- `instructions.dfy` (`Instructions`): the preprocessing specification.
  - Cleaning: `Clean`.
  - Nesting depth of every prefix: `DepthAt`, `Balanced`.
  - Bracket matching, defined by depth and independent of any stack: `IsMatch`, `LoopMapFor`.
  - The two error positions: `IsUnmatchedClose`, `IsUnmatchedOpen`.
  - `PreprocessSpec`, which ties them together.
- `scanning.dfy` (`Scanning`): the invariant of the preprocessing loop, with one lemma per kind of character.
- `machine.dfy` (`Machine`): the execution specification.
  - `Apply`: one instruction.
  - `Run`: the whole main loop, defined by recursion on the remaining step budget.
  - The lemmas about both.
- `formatting.dfy` (`Formatting`): the formatter specification. `Layout` is built from one piece per instruction, with `TrimEnd`, `Strip` and their lemmas.
- `interpreter.dfy` (`BrainFuck`): the classes.
  - `ExecutionState` is the state record.
  - `Interpreter` is `BrainFuckInterpreter`, with `CreateInitialState`, `PreprocessCode`, `Execute` and `FormatCode`.
  - Each method is proved against the specification functions. The main loop's invariant is "running the specification from the current state gives the same outcome as running it from the start".
- `scenarios.dfy` (`Scenarios`):
  - concrete runs;
  - the callbacks the debug adapter passes to `execute`.

Data representation:

- Input is a sequence of UTF-16 code units, as naturals. A `,` stores the unit modulo 256, which is what an assignment into a `Uint8Array` does.
- Output is a sequence of bytes. `String.fromCharCode` of a cell value is that value.
- Errors are datatypes rather than messages:
  - `StepLimitExceeded`, `TapeOverflow` and `TapeUnderflow` in `ExecutionResult.error`;
  - a thrown preprocessing error is `ExecOutcome.Threw(UnmatchedClose(p) | UnmatchedOpen(p))`.

Observations about the code, all modelled as written:

- `+[-]` executes four counted steps: `+`, `[`, `-`, `]`.
- `+[]` spins on its `]` until the step ceiling.
- An empty loop `[]` is formatted as `[[]`. That text is unbalanced, so formatting is not idempotent: formatting the result again throws.
- After the callback suspends following a step, the instruction pointer is not advanced (`Machine.SuspendsAfterStep`). It is still on the executed instruction, or, after a taken jump, on the matched bracket. A later call with the same state executes that instruction again (`Scenarios.SteppingRepeatsTheInstruction`), or the matched bracket.
- A failing `>` or `<` leaves the pointer off the tape. Its step is not counted.

## Model

| member | source | states |
|---|---|---|
| BrainFuck.ExecutionState.constructor | brainfuck-vscode/src/bfInterpreter.ts:31-43 | a new state has a zeroed tape of the configured size and every other field at its start value |
| BrainFuck.Initial | brainfuck-vscode/src/bfInterpreter.ts:31-43 | the start state: all cells 0, pointer 0, empty output, empty input buffer, input cursor 0, no steps, instruction pointer 0, empty loop stack, no breakpoints |
| BrainFuck.Interpreter.constructor | brainfuck-vscode/src/bfInterpreter.ts:26-29 | the interpreter stores its tape size and step ceiling |
| BrainFuck.Interpreter.CreateInitialState | brainfuck-vscode/src/bfInterpreter.ts:31-43 | returns a freshly allocated state whose tape has `tapeSize` cells and whose value is the start state |
| BrainFuck.Interpreter.PreprocessCode | brainfuck-vscode/src/bfInterpreter.ts:45-82 | succeeds exactly on balanced text; on success the cleaned code is the instruction subsequence and the map pairs every bracket with its match; otherwise it reports the first unmatched `]` or the earliest unclosed `[`, as an original position |
| BrainFuck.Interpreter.ScanInstruction | brainfuck-vscode/src/bfInterpreter.ts:55-70 | an instruction keeps the preprocessing invariant one character further; it reports an unmatched `]` exactly when it is a `]` met with an empty stack, and that report meets the specification |
| BrainFuck.Interpreter.StartState | brainfuck-vscode/src/bfInterpreter.ts:91-97 | the state a call starts from has the new input and cursor 0; a supplied state keeps its tape, pointer, output, step count, loop stack, breakpoints and instruction pointer; a fresh one is the whole start state: zeroed cells, pointer 0, no output, no steps, instruction pointer 0, an empty loop stack and no breakpoints |
| BrainFuck.Interpreter.Execute | brainfuck-vscode/src/bfInterpreter.ts:84-182 | unbalanced code throws the preprocessing error and leaves a supplied state untouched; otherwise the result (output, steps, tape copy, error) is that of `Machine.Run` from the supplied or fresh state with the new input and cursor 0, and a supplied state ends exactly as that run leaves it, its tape array updated in place rather than replaced |
| BrainFuck.Interpreter.MainLoop | brainfuck-vscode/src/bfInterpreter.ts:96-166 | the in-place loop ends in the state and with the halt reason that `Machine.Run` gives for the state it started from |
| BrainFuck.Interpreter.Iteration | brainfuck-vscode/src/bfInterpreter.ts:100-165 | one pass of the loop: either the pass ends the run with the outcome `Machine.Run` gives, or the run goes on (`Machine.Continues`) and advancing the pointer yields exactly `Machine.Successor` of the state before the pass |
| BrainFuck.Interpreter.StepAndReport | brainfuck-vscode/src/bfInterpreter.ts:113-165 | past both checks, the instruction, its count and the callback either end the run as `Machine.Run` says or continue it with `Machine.Successor` |
| BrainFuck.Interpreter.ExecuteInstruction | brainfuck-vscode/src/bfInterpreter.ts:113-158 | the instruction done in place yields exactly `Machine.Apply`'s next state, and reports an error exactly when `Apply` faults |
| BrainFuck.Interpreter.FormatCode | brainfuck-vscode/src/bfInterpreter.ts:185-219 | unbalanced code fails with the preprocessing error; balanced code formats to `Layout(Clean(code))` |
| BrainFuck.Interpreter.FormatLoop | brainfuck-vscode/src/bfInterpreter.ts:187-218 | the formatting loop over cleaned code writes exactly `Formatting.Layout` |
| BrainFuck.Interpreter.WriteInstruction | brainfuck-vscode/src/bfInterpreter.ts:197-206 | the text written for instruction `i` is the layout's line break before it and its body: `[]` for an empty loop's `]`, the character otherwise |
| BrainFuck.Interpreter.FormatInstruction | brainfuck-vscode/src/bfInterpreter.ts:191-215 | one pass of the formatting loop turns the text and level after `i` instructions into those after `i + 1`, including the trimmed empty-loop case |
| Instructions.Clean | brainfuck-vscode/src/bfInterpreter.ts:53-59 | the cleaned text holds only instruction characters and is no longer than the input |
| Instructions.CleanIsInstructionSubsequence | brainfuck-vscode/src/bfInterpreter.ts:53-59 | the cleaned text is the input read at strictly increasing positions, and those positions are exactly the ones holding an instruction |
| Instructions.CleanOfInstructions | brainfuck-vscode/src/bfInterpreter.ts:55-57 | text made only of instructions is its own cleaned text |
| Instructions.CleanIdempotent | brainfuck-vscode/src/bfInterpreter.ts:55-57 | cleaning cleaned text changes nothing |
| Instructions.MatchUniqueClose | brainfuck-vscode/src/bfInterpreter.ts:61-69 | a `[` has at most one matching `]` |
| Instructions.MatchUniqueOpen | brainfuck-vscode/src/bfInterpreter.ts:61-69 | a `]` has at most one matching `[` |
| Instructions.LoopMapInvolution | brainfuck-vscode/src/bfInterpreter.ts:67-69 | the loop map is an involution; it sends `[` to a later `]` and `]` to an earlier `[` |
| Instructions.LoopMapPartner | brainfuck-vscode/src/bfInterpreter.ts:61-69 | every bracket is a key of the loop map and is mapped to its match |
| Instructions.LoopMapUnique | brainfuck-vscode/src/bfInterpreter.ts:61-69 | a text has only one loop map |
| Instructions.UnmatchedCloseUnique | brainfuck-vscode/src/bfInterpreter.ts:64-66 | an unmatched `]` makes the text unbalanced, and the first one is unique |
| Instructions.UnmatchedOpenUnique | brainfuck-vscode/src/bfInterpreter.ts:74-76 | an unclosed `[` makes the text unbalanced, the earliest one is unique, and then no `]` is unmatched |
| Scanning.ScanStart | brainfuck-vscode/src/bfInterpreter.ts:47-53 | the empty scan satisfies the preprocessing invariant |
| Scanning.ScanComment | brainfuck-vscode/src/bfInterpreter.ts:53-55 | a non-instruction character keeps the invariant without adding anything |
| Scanning.ScanPlain | brainfuck-vscode/src/bfInterpreter.ts:55-59 | an instruction other than a bracket is appended and keeps the invariant |
| Scanning.ScanOpen | brainfuck-vscode/src/bfInterpreter.ts:61-62 | a `[` is appended and its clean index pushed, keeping the invariant |
| Scanning.ScanCloseUnmatched | brainfuck-vscode/src/bfInterpreter.ts:64-66 | a `]` met with an empty stack is the first unmatched `]` of the text |
| Scanning.ScanClose | brainfuck-vscode/src/bfInterpreter.ts:67-69 | popping the innermost `[` for a `]` and mapping the pair both ways keeps the invariant |
| Scanning.ScanEnd | brainfuck-vscode/src/bfInterpreter.ts:74-81 | at the end, an empty stack means the scan result meets the specification; otherwise the bottom of the stack is the earliest unclosed `[` |
| Scanning.UnmatchedCloseMeetsSpec | brainfuck-vscode/src/bfInterpreter.ts:64-66 | reporting the first unmatched `]` meets the preprocessing specification |
| Machine.Increment | brainfuck-vscode/src/bfInterpreter.ts:129 | a `Uint8Array` cell incremented goes up by one, and 255 wraps to 0 |
| Machine.Decrement | brainfuck-vscode/src/bfInterpreter.ts:132 | a cell decremented goes down by one, and 0 wraps to 255 |
| Machine.CellOf | brainfuck-vscode/src/bfInterpreter.ts:139 | a code unit stored into a cell keeps its value below 256 and is otherwise reduced modulo 256 |
| Machine.Pop | brainfuck-vscode/src/bfInterpreter.ts:155 | popping removes the top; an empty stack stays empty |
| Machine.Apply | brainfuck-vscode/src/bfInterpreter.ts:113-158 | one instruction: count and breakpoints unchanged; output only grows; a fault leaves tape and output alone; it faults exactly on `>` at the last cell or `<` at the first |
| Machine.Run | brainfuck-vscode/src/bfInterpreter.ts:96-166 | the main loop never shrinks the step counter, keeps breakpoints and input, and keeps the pointer on the tape unless a move failed |
| Machine.LoopMapIsJumpTable | brainfuck-vscode/src/bfInterpreter.ts:144-157 | every jump target of a preprocessed loop map lies inside the cleaned code |
| Machine.CellInstructionEffects | brainfuck-vscode/src/bfInterpreter.ts:128-143 | `+`, `-` and `,` change only the current cell, by +1 or -1 modulo 256 or to the input unit modulo 256 (0 when input is exhausted, the cursor advancing only on a real read); `.` appends the cell to the output |
| Machine.MoveInstructionEffects | brainfuck-vscode/src/bfInterpreter.ts:116-127 | `>` and `<` move the pointer and nothing else, failing exactly past either end with the matching error |
| Machine.LoopInstructionEffects | brainfuck-vscode/src/bfInterpreter.ts:144-157 | `[` on 0 and `]` on nonzero jump to the mapped bracket; otherwise `[` pushes its index and `]` pops; tape, pointer, output and input are untouched |
| Machine.RunFinished | brainfuck-vscode/src/bfInterpreter.ts:98 | at or past the end of the code the loop finishes with the state unchanged |
| Machine.RunFaulted | brainfuck-vscode/src/bfInterpreter.ts:116-127 | a faulting instruction ends the run with its error and its state |
| Machine.RunMoved | brainfuck-vscode/src/bfInterpreter.ts:113-166 | a non-faulting instruction is counted; the run suspends if the callback says so, otherwise continues at the next instruction |
| Machine.StepLimitBeforeInstruction | brainfuck-vscode/src/bfInterpreter.ts:102-104 | once the counter reaches the ceiling, the run fails before executing anything |
| Machine.BreakpointSuspendsBefore | brainfuck-vscode/src/bfInterpreter.ts:107-111 | at a breakpoint whose callback returns true, the run suspends with the state untouched |
| Machine.SuspendsAfterStep | brainfuck-vscode/src/bfInterpreter.ts:160-165 | a callback returning true after a step suspends with that step counted and the instruction pointer not advanced |
| Machine.FailedMoveIsNotCounted | brainfuck-vscode/src/bfInterpreter.ts:116-127 | a failing move ends the run with the pointer off the tape, and nothing else changes, step count included |
| Machine.JumpsContinueAfterMatch | brainfuck-vscode/src/bfInterpreter.ts:144-157 | a taken jump, unless suspended, continues just after the matching bracket with one step counted |
| Machine.RunContinues | brainfuck-vscode/src/bfInterpreter.ts:96-166 | a pass that neither fails nor suspends hands the rest of the run to the successor state, with one more step counted and the output only extended |
| Machine.RunStops | brainfuck-vscode/src/bfInterpreter.ts:96-166 | a pass that does not go on ends the run: it finishes only at the end of the code, counts at most its own step, fails on the ceiling only when already reached, and keeps the output |
| Machine.RunWithinStepLimit | brainfuck-vscode/src/bfInterpreter.ts:102-104 | a run never counts past the ceiling, and a step-limit failure happens exactly at it |
| Machine.RunExtendsOutput | brainfuck-vscode/src/bfInterpreter.ts:134-136 | the output of a run extends the output it started with |
| Machine.RunEndsAtEnd | brainfuck-vscode/src/bfInterpreter.ts:96-99 | a finished run ends with the instruction pointer at the end of the code; any other ends on an instruction |
| Formatting.Level | brainfuck-vscode/src/bfInterpreter.ts:188-210 | the indentation level after `k` instructions, up after `[` and down after `]` but clamped at 0, is at most `k` |
| Formatting.OpenBreak | brainfuck-vscode/src/bfInterpreter.ts:201-203 | the text before an instruction is nonempty exactly for a `[` that is not first and does not follow a `[`; it is a line break followed by whitespace |
| Formatting.Body | brainfuck-vscode/src/bfInterpreter.ts:197-205 | an instruction's own text ends with that instruction; it is two characters, `[` then `]`, exactly for the `]` of an empty loop, and one otherwise |
| Formatting.CloseBreak | brainfuck-vscode/src/bfInterpreter.ts:212-215 | the text after an instruction is nonempty exactly for a `]` that is neither last nor followed by `]`; it is a line break followed by whitespace |
| Formatting.Piece | brainfuck-vscode/src/bfInterpreter.ts:193-215 | an instruction's contribution is nonempty and, apart from whitespace, holds only that instruction and the extra `[` of an empty loop |
| Formatting.LayoutUpTo | brainfuck-vscode/src/bfInterpreter.ts:187-216 | the text after `n` instructions is at least `n` characters long: every instruction is written |
| Formatting.Layout | brainfuck-vscode/src/bfInterpreter.ts:187-218 | the formatted text of cleaned code is at least as long as the code |
| Formatting.TrimEnd | brainfuck-vscode/src/bfInterpreter.ts:197-199 | the trimmed text is a prefix, does not end in whitespace, and only whitespace was removed |
| Formatting.TrimEndAppendedWhitespace | brainfuck-vscode/src/bfInterpreter.ts:197-199 | trimming removes exactly the whitespace appended after a non-whitespace end |
| Formatting.StripAppend | brainfuck-vscode/src/bfInterpreter.ts:190-216 | removing whitespace distributes over concatenation |
| Formatting.LevelIsDepth | brainfuck-vscode/src/bfInterpreter.ts:193-210 | on balanced code the clamp at 0 never applies: the indentation level is the nesting depth |
| Formatting.EmptyLoopTest | brainfuck-vscode/src/bfInterpreter.ts:197 | "trimmed text ends with `[`" holds exactly when the previous instruction is `[`, and then trimming is a no-op |
| Formatting.TrimmedLayoutEnd | brainfuck-vscode/src/bfInterpreter.ts:197-200 | the trimmed text written so far ends with the last instruction written |
| Formatting.StripLayout | brainfuck-vscode/src/bfInterpreter.ts:190-216 | stripping whitespace from the formatted text gives the cleaned code, with each empty loop `[]` as `[[]` |
| Formatting.StripLayoutWithoutEmptyLoops | brainfuck-vscode/src/bfInterpreter.ts:190-216 | without an adjacent `[]`, stripping whitespace from the formatted text gives the cleaned code back |
| Formatting.NoTrailingWhitespace | brainfuck-vscode/src/bfInterpreter.ts:213-215 | the formatted text never ends in whitespace |
| Formatting.EmptyLoopFormatsUnbalanced | brainfuck-vscode/src/bfInterpreter.ts:197-200 | `[]` formats to `[[]`, which is unbalanced, so formatting is not idempotent |
| Scenarios.CountdownLoopMap | brainfuck-vscode/src/bfInterpreter.ts:61-69 | the loop map of `+[-]` is {1: 3, 3: 1} |
| Scenarios.QuietStep | brainfuck-vscode/src/bfInterpreter.ts:160-165 | without a callback, a non-faulting instruction always continues the run at the next instruction |
| Scenarios.CountdownTakesFourSteps | brainfuck-vscode/src/bfInterpreter.ts:96-166 | `+[-]` finishes after four steps with the tape back to zeros and an empty loop stack |
| Scenarios.PrintTwo | brainfuck-vscode/src/bfInterpreter.ts:134-136 | `++.` outputs the single byte 2 after three steps |
| Scenarios.SpinUntilCeiling | brainfuck-vscode/src/bfInterpreter.ts:151-153 | on `+[]`, a `]` on a nonzero cell repeats until the step ceiling, changing nothing but the counter |
| Scenarios.SpinLoopHitsCeiling | brainfuck-vscode/src/bfInterpreter.ts:102-104 | `+[]` fails with the step limit after exactly `maxSteps` steps |
| Scenarios.PlusesAddUp | brainfuck-vscode/src/bfInterpreter.ts:128-130 | the remaining `+`s add their number to cell 0 modulo 256 and leave the other cells alone |
| Scenarios.PlusesWrapAround | brainfuck-vscode/src/bfInterpreter.ts:128-130 | `n` increments on a fresh tape leave `n mod 256` in cell 0 |
| Scenarios.SteppingRepeatsTheInstruction | brainfuck-vscode/src/bfDebugAdapter.ts:301-305 | with the single-step callback, a step suspends on the executed `+`, and stepping again executes that `+` once more |
| Scenarios.ContinueStaysOnBreakpoint | brainfuck-vscode/src/bfDebugAdapter.ts:394-405 | continuing from a state on a breakpoint suspends again at once with the state unchanged |

## Left out

- The VS Code extension, the debug adapter and the language providers are not modelled. Two debug-adapter callbacks appear only as concrete functions in `Scenarios`.
- The callback is a pure function of the state. A JavaScript callback can also read or change the state object it is given, and that is not modelled.
- Error messages are error values. The position in a message is the datatype's `position` field.
- BrainFuck.Interpreter.PreprocessCode: code is a sequence of Unicode scalar values, while the source indexes UTF-16 code units. A reported `UnmatchedClose` or `UnmatchedOpen` position therefore falls one short of the source's index for each character above U+FFFF before it. Lone surrogates cannot be represented. The input of `execute` is given as UTF-16 code units, so `,` is not affected.
- `Formatting.IsWhitespace` covers space, tab, line feed and carriage return. `trimEnd` removes more kinds of whitespace, but formatted text only ever holds instructions, spaces and line feeds.
- `originalToCleanMap` is never read, so it is not modelled.
- `BrainFuck.Interpreter.constructor` requires a tape size above 0. A zero-size `Uint8Array` silently drops writes, and that is not modelled.
- `BrainFuck.Interpreter.Execute` requires a supplied state to have a tape of the configured size and a pointer on it. The source lets a caller hand back a state whose pointer is off the tape after a failed move, and then `Uint8Array` writes are silently dropped. That case is not modelled.
- `BrainFuck.Interpreter.FormatCode` takes `spacesPerIndent` as a natural number. A negative or fractional count makes `repeat` throw or truncate, and that is not modelled.
- Execution's default arguments are not modelled. The input defaults to "", the state is optional, and the constructor defaults are 30000 cells and 1000000 steps.
- `getHelloWorldTemplate` returns a fixed 106-character program. It is not modelled, and its bracket balance is not proved: the verifier does not evaluate a property of a literal that long.
- `Machine.Run` is defined by recursion on the remaining step budget. When the budget is exhausted the run fails, just as the code does, so nothing else is lost.
