/**
 * The instruction language and the specification of preprocessing:
 * which characters are instructions, how deep the loop nesting is after
 * any prefix, which `[` pairs with which `]`, and where an unbalanced
 * program is reported.
 */
module Instructions {

  import opened Results

  /** The eight instruction characters; every other character is a comment. */
  predicate IsInstruction(c: char) {
    c in "><+-.,[]"
  }

  predicate IsBracket(c: char) {
    c == '[' || c == ']'
  }

  /** The instructions of `s` in their original order, everything else dropped. */
  function Clean(s: string): (r: string)
    ensures |r| <= |s|
    ensures forall j :: 0 <= j < |r| ==> IsInstruction(r[j])
  {
    if |s| == 0 then ""
    else
      var last := s[|s| - 1];
      Clean(s[..|s| - 1]) + (if IsInstruction(last) then [last] else "")
  }

  /** The indices of `s` that hold an instruction, in increasing order. */
  function InstructionPositions(s: string): seq<nat> {
    if |s| == 0 then []
    else
      InstructionPositions(s[..|s| - 1]) + (if IsInstruction(s[|s| - 1]) then [|s| - 1] else [])
  }

  /**
   * Clean(s) is exactly the subsequence of instruction characters of `s`:
   * it is `s` read at strictly increasing positions, and those positions are
   * all the instruction positions of `s`, so its length is their number.
   */
  lemma {:induction false} CleanIsInstructionSubsequence(s: string)
    ensures |InstructionPositions(s)| == |Clean(s)|
    ensures forall m :: 0 <= m < |Clean(s)| ==>
      InstructionPositions(s)[m] < |s| && s[InstructionPositions(s)[m]] == Clean(s)[m]
    ensures forall m, n :: 0 <= m < n < |Clean(s)| ==>
      InstructionPositions(s)[m] < InstructionPositions(s)[n]
    ensures forall j :: 0 <= j < |s| ==> (IsInstruction(s[j]) <==> j in InstructionPositions(s))
  {
    if |s| > 0 {
      var t, last := s[..|s| - 1], s[|s| - 1];
      CleanIsInstructionSubsequence(t);
      var p, pt, c, ct := InstructionPositions(s), InstructionPositions(t), Clean(s), Clean(t);
      assert p == pt + (if IsInstruction(last) then [|s| - 1] else []);
      assert c == ct + (if IsInstruction(last) then [last] else "");
      forall m | 0 <= m < |c|
        ensures p[m] < |s| && s[p[m]] == c[m]
      {
        if m < |ct| {
          assert p[m] == pt[m] && c[m] == ct[m] && s[pt[m]] == t[pt[m]];
        }
      }
      forall m, n | 0 <= m < n < |c|
        ensures p[m] < p[n]
      {
        if n >= |ct| {
          assert p[m] == pt[m] && p[n] == |s| - 1;
        }
      }
      forall j | 0 <= j < |s|
        ensures IsInstruction(s[j]) <==> j in p
      {
        if j < |t| {
          assert s[j] == t[j];
          assert j in p <==> j in pt;
        } else {
          assert j !in pt;
        }
      }
    }
  }

  /** Cleaning is the identity on text that holds only instructions. */
  lemma {:induction false} CleanOfInstructions(s: string)
    requires forall j :: 0 <= j < |s| ==> IsInstruction(s[j])
    ensures Clean(s) == s
  {
    if |s| > 0 {
      CleanOfInstructions(s[..|s| - 1]);
    }
  }

  /** Cleaning twice is cleaning once. */
  lemma CleanIdempotent(s: string)
    ensures Clean(Clean(s)) == Clean(s)
  {
    CleanOfInstructions(Clean(s));
  }

  /** How an instruction changes the loop nesting depth. */
  function Delta(c: char): int {
    if c == '[' then 1 else if c == ']' then -1 else 0
  }

  /** The number of `[` minus the number of `]` in `s[..k]`. */
  function DepthAt(s: string, k: nat): int
    requires k <= |s|
  {
    if k == 0 then 0 else DepthAt(s, k - 1) + Delta(s[k - 1])
  }

  /** No prefix closes more loops than it opened, and the whole text closes all it opens. */
  ghost predicate Balanced(s: string) {
    (forall k: nat :: k <= |s| ==> DepthAt(s, k) >= 0) && DepthAt(s, |s|) == 0
  }

  /** Appending a character leaves the depth of every old prefix alone. */
  lemma {:induction false} DepthAtAppend(s: string, c: char, k: nat)
    requires k <= |s|
    ensures DepthAt(s + [c], k) == DepthAt(s, k)
  {
    if k > 0 {
      DepthAtAppend(s, c, k - 1);
    }
  }

  /** Appending a character moves the depth of the whole text by that character's delta. */
  lemma DepthAtLast(s: string, c: char)
    ensures DepthAt(s + [c], |s| + 1) == DepthAt(s, |s|) + Delta(c)
  {
    DepthAtAppend(s, c, |s|);
    assert (s + [c])[|s|] == c;
  }

  lemma DepthAtAppendAll(s: string, c: char)
    ensures forall k: nat :: k <= |s| ==> DepthAt(s + [c], k) == DepthAt(s, k)
    ensures DepthAt(s + [c], |s| + 1) == DepthAt(s, |s|) + Delta(c)
  {
    forall k: nat | k <= |s| {
      DepthAtAppend(s, c, k);
    }
  }

  /**
   * The `[` at `a` is closed by the `]` at `b`: between them every prefix is
   * deeper than just before `a`, and just after `b` the depth is back.
   */
  ghost predicate IsMatch(s: string, a: nat, b: nat) {
    && a < b < |s|
    && s[a] == '[' && s[b] == ']'
    && DepthAt(s, b + 1) == DepthAt(s, a)
    && forall k: nat :: a < k <= b ==> DepthAt(s, k) > DepthAt(s, a)
  }

  /** A `[` has at most one matching `]`. */
  lemma MatchUniqueClose(s: string, a: nat, b: nat, b': nat)
    requires IsMatch(s, a, b) && IsMatch(s, a, b')
    ensures b == b'
  {
  }

  /** A `]` has at most one matching `[`. */
  lemma MatchUniqueOpen(s: string, a: nat, a': nat, b: nat)
    requires IsMatch(s, a, b) && IsMatch(s, a', b)
    ensures a == a'
  {
  }

  /**
   * The loop map of cleaned code `s`: its keys are exactly the bracket
   * indices, and each bracket is mapped to its matching partner.
   */
  ghost predicate LoopMapFor(s: string, loopMap: map<nat, nat>) {
    && (forall a: nat {:trigger a in loopMap} :: a in loopMap ==> a < |s| && IsBracket(s[a]))
    && (forall a: nat {:trigger IsBracket(s[a])} :: a < |s| && IsBracket(s[a]) ==> a in loopMap)
    && (forall a: nat {:trigger a in loopMap} ::
          a in loopMap && a < |s| && s[a] == '[' ==> IsMatch(s, a, loopMap[a]))
    && (forall a: nat {:trigger a in loopMap} ::
          a in loopMap && a < |s| && s[a] == ']' ==> IsMatch(s, loopMap[a], a))
  }

  /** A loop map is an involution pairing each `[` with a later `]`. */
  lemma LoopMapInvolution(s: string, loopMap: map<nat, nat>, a: nat)
    requires LoopMapFor(s, loopMap)
    requires a in loopMap
    ensures loopMap[a] in loopMap && loopMap[loopMap[a]] == a
    ensures loopMap[a] < |s| && IsBracket(s[loopMap[a]]) && s[loopMap[a]] != s[a]
    ensures s[a] == '[' ==> a < loopMap[a]
    ensures s[a] == ']' ==> loopMap[a] < a
  {
    var b := loopMap[a];
    if s[a] == '[' {
      assert IsMatch(s, a, b);
      assert IsBracket(s[b]);
      MatchUniqueOpen(s, a, loopMap[b], b);
    } else {
      assert IsMatch(s, b, a);
      assert IsBracket(s[b]);
      MatchUniqueClose(s, b, a, loopMap[b]);
    }
  }

  /** Each bracket of `s` is a key of its loop map, mapped to its matching partner. */
  lemma LoopMapPartner(s: string, loopMap: map<nat, nat>, a: nat)
    requires LoopMapFor(s, loopMap)
    requires a < |s| && IsBracket(s[a])
    ensures a in loopMap
    ensures s[a] == '[' ==> IsMatch(s, a, loopMap[a])
    ensures s[a] == ']' ==> IsMatch(s, loopMap[a], a)
  {
  }

  /** The loop map of a text is unique. */
  lemma LoopMapUnique(s: string, m1: map<nat, nat>, m2: map<nat, nat>)
    requires LoopMapFor(s, m1) && LoopMapFor(s, m2)
    ensures m1 == m2
  {
    forall a | a in m1
      ensures a in m2 && m1[a] == m2[a]
    {
      if s[a] == '[' {
        MatchUniqueClose(s, a, m1[a], m2[a]);
      } else {
        MatchUniqueOpen(s, m1[a], m2[a], a);
      }
    }
  }

  /** Why preprocessing rejects a text; positions are indices into the original text. */
  datatype PreprocessError = UnmatchedClose(position: nat) | UnmatchedOpen(position: nat)

  /** The result of a successful preprocessing. */
  datatype Preprocessed = Preprocessed(cleanCode: string, loopMap: map<nat, nat>)

  /** `p` holds the first `]` of `s` that has nothing open to close. */
  ghost predicate IsUnmatchedClose(s: string, p: nat) {
    && p < |s| && s[p] == ']'
    && DepthAt(s, p) == 0
    && forall k: nat :: k <= p ==> DepthAt(s, k) >= 0
  }

  /**
   * No `]` of `s` is unmatched, and `p` holds the earliest `[` that is never
   * closed: the depth is 0 just before it and stays positive to the end.
   */
  ghost predicate IsUnmatchedOpen(s: string, p: nat) {
    && (forall k: nat :: k <= |s| ==> DepthAt(s, k) >= 0)
    && p < |s| && s[p] == '['
    && DepthAt(s, p) == 0
    && forall k: nat :: p < k <= |s| ==> DepthAt(s, k) > 0
  }

  /** What the preprocessing of `code` must produce. */
  ghost predicate PreprocessSpec(code: string, r: PreprocessOutcome) {
    && (r.Success? <==> Balanced(code))
    && (r.Success? ==>
          r.value.cleanCode == Clean(code)
          && Balanced(r.value.cleanCode)
          && LoopMapFor(r.value.cleanCode, r.value.loopMap))
    && (r.Failure? ==>
          match r.error
          case UnmatchedClose(p) => IsUnmatchedClose(code, p)
          case UnmatchedOpen(p) => IsUnmatchedOpen(code, p))
  }

  type PreprocessOutcome = Result<Preprocessed, PreprocessError>

  /** An unmatched `]` makes the text unbalanced, and there is only one first one. */
  lemma UnmatchedCloseUnique(s: string, p: nat, q: nat)
    requires IsUnmatchedClose(s, p)
    ensures !Balanced(s)
    ensures IsUnmatchedClose(s, q) ==> p == q
  {
    assert DepthAt(s, p + 1) < 0;
    assert IsUnmatchedClose(s, q) ==> q + 1 <= |s| && DepthAt(s, q + 1) < 0;
  }

  /** An unclosed `[` makes the text unbalanced, and the earliest one is unique. */
  lemma UnmatchedOpenUnique(s: string, p: nat, q: nat)
    requires IsUnmatchedOpen(s, p)
    ensures !Balanced(s)
    ensures IsUnmatchedOpen(s, q) ==> p == q
    ensures !IsUnmatchedClose(s, q)
  {
    assert IsUnmatchedClose(s, q) ==> q + 1 <= |s| && DepthAt(s, q + 1) < 0;
  }
}
