/**
 * The invariant of the preprocessing scan and one lemma per kind of step:
 * after each character of the original text, the cleaned prefix, the stack
 * of open loops and the loop map built so far are what Instructions says
 * they should be.
 */
module Scanning {

  import opened Results
  import opened Instructions

  /** `clean` is the cleaned text of `code[..i]`, and `toOriginal` maps its indices back. */
  ghost predicate CleanPrefix(code: string, i: nat, clean: string, toOriginal: seq<nat>) {
    && i <= |code|
    && clean == Clean(code[..i])
    && |toOriginal| == |clean|
    && forall m :: 0 <= m < |clean| ==> toOriginal[m] < i && code[toOriginal[m]] == clean[m]
  }

  /** No prefix so far went below depth 0, and the stack is as deep as the text. */
  ghost predicate DepthsSoFar(code: string, i: nat, clean: string, stack: seq<nat>)
    requires i <= |code|
  {
    && (forall k: nat :: k <= i ==> DepthAt(code, k) >= 0)
    && (forall k: nat :: k <= |clean| ==> DepthAt(clean, k) >= 0)
    && |stack| == DepthAt(code, i) == DepthAt(clean, |clean|)
  }

  /** Entry `m` of the stack is a `[` of `clean` opened at depth `m`. */
  ghost predicate OpenBrackets(clean: string, stack: seq<nat>) {
    forall m :: 0 <= m < |stack| ==>
      stack[m] < |clean| && clean[stack[m]] == '[' && DepthAt(clean, stack[m]) == m
  }

  /** No prefix of `clean` past entry `m` of the stack falls back to depth `m`. */
  ghost predicate StaysOpen(clean: string, stack: seq<nat>) {
    forall m, k: nat :: 0 <= m < |stack| && stack[m] < k <= |clean| ==> DepthAt(clean, k) > m
  }

  /** The stack holds, bottom to top, the `[` of every loop still open at the end of `clean`. */
  ghost predicate OpenLoops(clean: string, stack: seq<nat>) {
    OpenBrackets(clean, stack) && StaysOpen(clean, stack)
  }

  /** The bottom of the stack, read in the original text, is the earliest `[` still open. */
  ghost predicate EarliestOpen(code: string, i: nat, toOriginal: seq<nat>, stack: seq<nat>)
    requires i <= |code|
  {
    |stack| > 0 ==>
      && stack[0] < |toOriginal| && toOriginal[stack[0]] < i
      && DepthAt(code, toOriginal[stack[0]]) == 0
      && forall k: nat :: toOriginal[stack[0]] < k <= i ==> DepthAt(code, k) > 0
  }

  /** The keys of the loop map are exactly the brackets of `clean` that are not on the stack. */
  ghost predicate MapKeys(clean: string, stack: seq<nat>, loopMap: map<nat, nat>) {
    && (forall a: nat {:trigger a in loopMap} :: a in loopMap ==>
          a < |clean| && IsBracket(clean[a]) && a !in stack)
    && (forall a: nat {:trigger IsBracket(clean[a])} ::
          a < |clean| && IsBracket(clean[a]) && a !in stack ==> a in loopMap)
  }

  /** The loop map sends each of its brackets to its partner. */
  ghost predicate MapMatches(clean: string, loopMap: map<nat, nat>) {
    && (forall a: nat {:trigger a in loopMap} ::
          a in loopMap && a < |clean| && clean[a] == '[' ==> IsMatch(clean, a, loopMap[a]))
    && (forall a: nat {:trigger a in loopMap} ::
          a in loopMap && a < |clean| && clean[a] == ']' ==> IsMatch(clean, loopMap[a], a))
  }

  /** The loop map pairs every bracket of `clean` that is not on the stack with its partner. */
  ghost predicate ClosedLoops(clean: string, stack: seq<nat>, loopMap: map<nat, nat>) {
    MapKeys(clean, stack, loopMap) && MapMatches(clean, loopMap)
  }

  ghost predicate ScanState(code: string, i: nat, clean: string, toOriginal: seq<nat>,
                            stack: seq<nat>, loopMap: map<nat, nat>) {
    && CleanPrefix(code, i, clean, toOriginal)
    && DepthsSoFar(code, i, clean, stack)
    && OpenLoops(clean, stack)
    && EarliestOpen(code, i, toOriginal, stack)
    && ClosedLoops(clean, stack, loopMap)
  }

  lemma ScanStart(code: string)
    ensures ScanState(code, 0, "", [], [], map[])
  {
    assert code[..0] == "";
  }

  lemma CleanStep(code: string, i: nat)
    requires i < |code|
    ensures Clean(code[..i + 1]) ==
      Clean(code[..i]) + (if IsInstruction(code[i]) then [code[i]] else "")
  {
    assert code[..i + 1][..i] == code[..i];
  }

  /** A comment character changes nothing but the position. */
  lemma ScanComment(code: string, i: nat, clean: string, toOriginal: seq<nat>,
                    stack: seq<nat>, loopMap: map<nat, nat>)
    requires i < |code| && !IsInstruction(code[i])
    requires ScanState(code, i, clean, toOriginal, stack, loopMap)
    ensures ScanState(code, i + 1, clean, toOriginal, stack, loopMap)
  {
    CleanStep(code, i);
    assert DepthAt(code, i + 1) == DepthAt(code, i);
    assert CleanPrefix(code, i + 1, clean, toOriginal);
    assert DepthsSoFar(code, i + 1, clean, stack);
  }

  /** The part of the invariant about the cleaned text after one more instruction. */
  lemma CleanPrefixStep(code: string, i: nat, clean: string, toOriginal: seq<nat>)
    requires i < |code| && IsInstruction(code[i])
    requires CleanPrefix(code, i, clean, toOriginal)
    ensures CleanPrefix(code, i + 1, clean + [code[i]], toOriginal + [i])
  {
    CleanStep(code, i);
  }

  /** Old matches stay matches when the cleaned text grows. */
  lemma ClosedLoopsGrow(clean: string, c: char, loopMap: map<nat, nat>)
    requires MapMatches(clean, loopMap)
    ensures forall a: nat {:trigger a in loopMap} ::
      a in loopMap && a < |clean| && clean[a] == '[' ==> IsMatch(clean + [c], a, loopMap[a])
    ensures forall a: nat {:trigger a in loopMap} ::
      a in loopMap && a < |clean| && clean[a] == ']' ==> IsMatch(clean + [c], loopMap[a], a)
  {
    DepthAtAppendAll(clean, c);
  }

  /** An instruction other than a bracket. */
  lemma ScanPlain(code: string, i: nat, clean: string, toOriginal: seq<nat>,
                  stack: seq<nat>, loopMap: map<nat, nat>)
    requires i < |code| && IsInstruction(code[i]) && !IsBracket(code[i])
    requires ScanState(code, i, clean, toOriginal, stack, loopMap)
    ensures ScanState(code, i + 1, clean + [code[i]], toOriginal + [i], stack, loopMap)
  {
    CleanPrefixStep(code, i, clean, toOriginal);
    DepthsStep(code, i, clean, stack, stack);
    OpenLoopsPlain(clean, code[i], stack);
    EarliestOpenPlain(code, i, toOriginal, stack);
    ClosedLoopsPlain(clean, code[i], stack, loopMap);
  }

  lemma OpenLoopsPlain(clean: string, c: char, stack: seq<nat>)
    requires !IsBracket(c) && OpenLoops(clean, stack) && |stack| == DepthAt(clean, |clean|)
    ensures OpenLoops(clean + [c], stack)
  {
    OpenBracketsGrow(clean, c, stack);
    var clean' := clean + [c];
    DepthAtLast(clean, c);
    forall m, k: nat | 0 <= m < |stack| && stack[m] < k <= |clean'|
      ensures DepthAt(clean', k) > m
    {
      if k <= |clean| {
        DepthAtAppend(clean, c, k);
      }
    }
  }

  /** The open brackets stay where they are when the cleaned text grows. */
  lemma OpenBracketsGrow(clean: string, c: char, stack: seq<nat>)
    requires OpenBrackets(clean, stack)
    ensures OpenBrackets(clean + [c], stack)
  {
    forall m | 0 <= m < |stack|
      ensures stack[m] < |clean + [c]| && (clean + [c])[stack[m]] == '['
      ensures DepthAt(clean + [c], stack[m]) == m
    {
      DepthAtAppend(clean, c, stack[m]);
    }
  }

  lemma EarliestOpenPlain(code: string, i: nat, toOriginal: seq<nat>, stack: seq<nat>)
    requires i < |code| && !IsBracket(code[i])
    requires EarliestOpen(code, i, toOriginal, stack)
    ensures EarliestOpen(code, i + 1, toOriginal + [i], stack)
  {
    if |stack| > 0 {
      assert (toOriginal + [i])[stack[0]] == toOriginal[stack[0]];
      assert DepthAt(code, i + 1) == DepthAt(code, i);
    }
  }

  lemma ClosedLoopsPlain(clean: string, c: char, stack: seq<nat>, loopMap: map<nat, nat>)
    requires !IsBracket(c) && ClosedLoops(clean, stack, loopMap)
    ensures ClosedLoops(clean + [c], stack, loopMap)
  {
    var clean' := clean + [c];
    ClosedLoopsGrow(clean, c, loopMap);
    forall a: nat | a < |clean'| && IsBracket(clean'[a]) && a !in stack
      ensures a in loopMap
    {
      assert a < |clean| && clean'[a] == clean[a];
    }
  }

  /** A `[` is pushed. */
  lemma ScanOpen(code: string, i: nat, clean: string, toOriginal: seq<nat>,
                 stack: seq<nat>, loopMap: map<nat, nat>)
    requires i < |code| && code[i] == '['
    requires ScanState(code, i, clean, toOriginal, stack, loopMap)
    ensures ScanState(code, i + 1, clean + [code[i]], toOriginal + [i], stack + [|clean|], loopMap)
  {
    CleanPrefixStep(code, i, clean, toOriginal);
    DepthsStep(code, i, clean, stack, stack + [|clean|]);
    OpenLoopsPush(clean, stack);
    EarliestOpenPush(code, i, clean, toOriginal, stack);
    ClosedLoopsPush(clean, stack, loopMap);
  }

  /** The depth part of the invariant after one more instruction and its stack change. */
  lemma DepthsStep(code: string, i: nat, clean: string, stack: seq<nat>, stack': seq<nat>)
    requires i < |code| && IsInstruction(code[i])
    requires DepthsSoFar(code, i, clean, stack)
    requires |stack'| == |stack| + Delta(code[i]) >= 0
    ensures DepthsSoFar(code, i + 1, clean + [code[i]], stack')
  {
    DepthAtAppendAll(clean, code[i]);
  }

  lemma OpenLoopsPush(clean: string, stack: seq<nat>)
    requires OpenLoops(clean, stack) && |stack| == DepthAt(clean, |clean|)
    ensures OpenLoops(clean + "[", stack + [|clean|])
  {
    OpenBracketsPush(clean, stack);
    StaysOpenPush(clean, stack);
  }

  lemma OpenBracketsPush(clean: string, stack: seq<nat>)
    requires OpenBrackets(clean, stack) && |stack| == DepthAt(clean, |clean|)
    ensures OpenBrackets(clean + "[", stack + [|clean|])
  {
    var clean', stack' := clean + "[", stack + [|clean|];
    OpenBracketsGrow(clean, '[', stack);
    DepthAtAppend(clean, '[', |clean|);
    forall m | 0 <= m < |stack'|
      ensures stack'[m] < |clean'| && clean'[stack'[m]] == '[' && DepthAt(clean', stack'[m]) == m
    {
      if m < |stack| {
        assert stack'[m] == stack[m];
      }
    }
  }

  lemma StaysOpenPush(clean: string, stack: seq<nat>)
    requires StaysOpen(clean, stack) && |stack| == DepthAt(clean, |clean|)
    ensures StaysOpen(clean + "[", stack + [|clean|])
  {
    var clean', stack' := clean + "[", stack + [|clean|];
    DepthAtLast(clean, '[');
    forall m, k: nat | 0 <= m < |stack'| && stack'[m] < k <= |clean'|
      ensures DepthAt(clean', k) > m
    {
      if k <= |clean| {
        assert m < |stack| && stack'[m] == stack[m];
        DepthAtAppend(clean, '[', k);
      }
    }
  }

  lemma EarliestOpenPush(code: string, i: nat, clean: string, toOriginal: seq<nat>, stack: seq<nat>)
    requires i < |code| && code[i] == '['
    requires |toOriginal| == |clean| && |stack| == DepthAt(code, i)
    requires forall m :: 0 <= m < |stack| ==> stack[m] < |clean|
    requires EarliestOpen(code, i, toOriginal, stack)
    ensures EarliestOpen(code, i + 1, toOriginal + [i], stack + [|clean|])
  {
    if |stack| > 0 {
      assert (toOriginal + [i])[stack[0]] == toOriginal[stack[0]];
    }
  }

  lemma ClosedLoopsPush(clean: string, stack: seq<nat>, loopMap: map<nat, nat>)
    requires ClosedLoops(clean, stack, loopMap)
    ensures ClosedLoops(clean + "[", stack + [|clean|], loopMap)
  {
    var clean', stack' := clean + "[", stack + [|clean|];
    ClosedLoopsGrow(clean, '[', loopMap);
    forall a: nat | a < |clean'| && IsBracket(clean'[a]) && a !in stack'
      ensures a in loopMap
    {
      assert a < |clean| && clean'[a] == clean[a];
    }
  }

  /** A `]` with nothing open: this is the first unmatched `]`. */
  lemma ScanCloseUnmatched(code: string, i: nat, clean: string, toOriginal: seq<nat>,
                           stack: seq<nat>, loopMap: map<nat, nat>)
    requires i < |code| && code[i] == ']' && |stack| == 0
    requires ScanState(code, i, clean, toOriginal, stack, loopMap)
    ensures IsUnmatchedClose(code, i)
  {
  }

  /** A `]` pops the innermost open `[` and pairs the two. */
  lemma ScanClose(code: string, i: nat, clean: string, toOriginal: seq<nat>,
                  stack: seq<nat>, loopMap: map<nat, nat>)
    requires i < |code| && code[i] == ']' && |stack| > 0
    requires ScanState(code, i, clean, toOriginal, stack, loopMap)
    ensures var start := stack[|stack| - 1];
      ScanState(code, i + 1, clean + [code[i]], toOriginal + [i], stack[..|stack| - 1],
                loopMap[start := |clean|][|clean| := start])
  {
    var stack' := stack[..|stack| - 1];
    CleanPrefixStep(code, i, clean, toOriginal);
    DepthsStep(code, i, clean, stack, stack');
    OpenLoopsPop(clean, stack);
    EarliestOpenPop(code, i, toOriginal, stack);
    ClosedLoopsAfterClose(clean, stack, loopMap);
  }

  lemma OpenLoopsPop(clean: string, stack: seq<nat>)
    requires |stack| > 0
    requires OpenLoops(clean, stack) && |stack| == DepthAt(clean, |clean|)
    ensures OpenLoops(clean + "]", stack[..|stack| - 1])
    ensures IsMatch(clean + "]", stack[|stack| - 1], |clean|)
    ensures stack[|stack| - 1] !in stack[..|stack| - 1]
  {
    OpenBracketsPop(clean, stack);
    StaysOpenPop(clean, stack);
    InnermostMatch(clean, stack);
  }

  lemma OpenBracketsPop(clean: string, stack: seq<nat>)
    requires |stack| > 0 && OpenBrackets(clean, stack)
    ensures OpenBrackets(clean + "]", stack[..|stack| - 1])
    ensures stack[|stack| - 1] !in stack[..|stack| - 1]
  {
    var stack' := stack[..|stack| - 1];
    OpenBracketsGrow(clean, ']', stack);
    forall m | 0 <= m < |stack'|
      ensures stack'[m] == stack[m] && stack'[m] != stack[|stack| - 1]
    {
      assert DepthAt(clean, stack[m]) == m;
    }
  }

  lemma StaysOpenPop(clean: string, stack: seq<nat>)
    requires |stack| > 0 && StaysOpen(clean, stack) && |stack| == DepthAt(clean, |clean|)
    ensures StaysOpen(clean + "]", stack[..|stack| - 1])
  {
    var clean', stack' := clean + "]", stack[..|stack| - 1];
    DepthAtLast(clean, ']');
    forall m, k: nat | 0 <= m < |stack'| && stack'[m] < k <= |clean'|
      ensures DepthAt(clean', k) > m
    {
      assert stack'[m] == stack[m];
      if k <= |clean| {
        DepthAtAppend(clean, ']', k);
      }
    }
  }

  /** The `]` closes the innermost open loop. */
  lemma InnermostMatch(clean: string, stack: seq<nat>)
    requires |stack| > 0 && OpenLoops(clean, stack) && |stack| == DepthAt(clean, |clean|)
    ensures IsMatch(clean + "]", stack[|stack| - 1], |clean|)
  {
    var clean', n, start := clean + "]", |clean|, stack[|stack| - 1];
    DepthAtAppend(clean, ']', n);
    DepthAtAppend(clean, ']', start);
    DepthAtLast(clean, ']');
    forall k: nat | start < k <= n
      ensures DepthAt(clean', k) > DepthAt(clean', start)
    {
      DepthAtAppend(clean, ']', k);
      assert DepthAt(clean, k) > |stack| - 1;
    }
  }

  lemma EarliestOpenPop(code: string, i: nat, toOriginal: seq<nat>, stack: seq<nat>)
    requires i < |code| && code[i] == ']' && |stack| > 0
    requires |stack| == DepthAt(code, i)
    requires forall m :: 0 <= m < |stack| ==> stack[m] < |toOriginal|
    requires EarliestOpen(code, i, toOriginal, stack)
    ensures EarliestOpen(code, i + 1, toOriginal + [i], stack[..|stack| - 1])
  {
    if |stack| > 1 {
      assert (toOriginal + [i])[stack[0]] == toOriginal[stack[0]];
    }
  }

  lemma ClosedLoopsAfterClose(clean: string, stack: seq<nat>, loopMap: map<nat, nat>)
    requires |stack| > 0 && forall m :: 0 <= m < |stack| ==> stack[m] < |clean|
    requires ClosedLoops(clean, stack, loopMap)
    requires IsMatch(clean + "]", stack[|stack| - 1], |clean|)
    requires stack[|stack| - 1] !in stack[..|stack| - 1]
    ensures var start := stack[|stack| - 1];
      ClosedLoops(clean + "]", stack[..|stack| - 1], loopMap[start := |clean|][|clean| := start])
  {
    MapKeysAfterClose(clean, stack, loopMap);
    MapMatchesAfterClose(clean, stack[|stack| - 1], loopMap);
  }

  lemma MapKeysAfterClose(clean: string, stack: seq<nat>, loopMap: map<nat, nat>)
    requires |stack| > 0 && forall m :: 0 <= m < |stack| ==> stack[m] < |clean|
    requires MapKeys(clean, stack, loopMap)
    requires (clean + "]")[stack[|stack| - 1]] == '['
    requires stack[|stack| - 1] !in stack[..|stack| - 1]
    ensures var start := stack[|stack| - 1];
      MapKeys(clean + "]", stack[..|stack| - 1], loopMap[start := |clean|][|clean| := start])
  {
    var n := |clean|;
    var start := stack[|stack| - 1];
    var clean', stack' := clean + "]", stack[..|stack| - 1];
    var loopMap' := loopMap[start := n][n := start];
    forall a: nat | a < |clean'| && IsBracket(clean'[a]) && a !in stack'
      ensures a in loopMap'
    {
      if a < n && a != start {
        assert clean'[a] == clean[a];
        assert a !in stack;
      }
    }
    forall a: nat | a in loopMap'
      ensures a < |clean'| && IsBracket(clean'[a]) && a !in stack'
    {
      if a != n && a != start {
        assert a in loopMap && clean'[a] == clean[a];
        assert a !in stack;
      } else if a == n {
        assert forall m :: 0 <= m < |stack'| ==> stack'[m] == stack[m];
      }
    }
  }

  lemma MapMatchesAfterClose(clean: string, start: nat, loopMap: map<nat, nat>)
    requires start < |clean| && MapMatches(clean, loopMap)
    requires IsMatch(clean + "]", start, |clean|)
    ensures MapMatches(clean + "]", loopMap[start := |clean|][|clean| := start])
  {
    ClosedLoopsGrow(clean, ']', loopMap);
  }

  /** At the end of the text: success exactly when nothing is left open. */
  lemma ScanEnd(code: string, clean: string, toOriginal: seq<nat>,
                stack: seq<nat>, loopMap: map<nat, nat>)
    requires ScanState(code, |code|, clean, toOriginal, stack, loopMap)
    ensures |stack| == 0 ==> PreprocessSpec(code, Success(Preprocessed(clean, loopMap)))
    ensures |stack| > 0 ==>
      stack[0] < |toOriginal| && PreprocessSpec(code, Failure(UnmatchedOpen(toOriginal[stack[0]])))
  {
    assert code[..|code|] == code;
    if |stack| > 0 {
      UnmatchedOpenUnique(code, toOriginal[stack[0]], 0);
    }
  }

  /** The failure for an unmatched `]` meets the preprocessing specification. */
  lemma UnmatchedCloseMeetsSpec(code: string, i: nat)
    requires IsUnmatchedClose(code, i)
    ensures PreprocessSpec(code, Failure(UnmatchedClose(i)))
  {
    UnmatchedCloseUnique(code, i, i);
  }
}
