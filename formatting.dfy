/**
 * The specification of the code formatter: which piece of text each
 * instruction of the cleaned code contributes, the indentation level the
 * formatter keeps, and what is left once the whitespace is stripped again.
 */
module Formatting {

  import opened Instructions

  /** The whitespace `trimEnd` removes, as far as formatted text can contain it. */
  predicate IsWhitespace(c: char) {
    c == ' ' || c == '\t' || c == '\n' || c == '\r'
  }

  lemma InstructionIsNotWhitespace(c: char)
    requires IsInstruction(c)
    ensures !IsWhitespace(c)
  {
  }

  function Spaces(n: nat): (r: string)
    ensures |r| == n && forall j :: 0 <= j < n ==> r[j] == ' '
  {
    seq(n, _ => ' ')
  }

  /** A line break followed by the indentation of `level`. */
  function LineBreak(level: nat, spacesPerIndent: nat): (r: string)
    ensures |r| > 0 && r[0] == '\n'
    ensures forall j :: 0 <= j < |r| ==> IsWhitespace(r[j])
  {
    "\n" + Spaces(level * spacesPerIndent)
  }

  /** `s` without its trailing whitespace. */
  function TrimEnd(s: string): (r: string)
    ensures r <= s
    ensures |r| > 0 ==> !IsWhitespace(r[|r| - 1])
    ensures forall j :: |r| <= j < |s| ==> IsWhitespace(s[j])
  {
    if |s| == 0 || !IsWhitespace(s[|s| - 1]) then s else TrimEnd(s[..|s| - 1])
  }

  /** Trimming ignores whitespace appended after a non-whitespace character. */
  lemma {:induction false} TrimEndAppendedWhitespace(s: string, w: string)
    requires |s| > 0 && !IsWhitespace(s[|s| - 1])
    requires forall j :: 0 <= j < |w| ==> IsWhitespace(w[j])
    ensures TrimEnd(s + w) == s
  {
    if |w| > 0 {
      assert (s + w)[..|s + w| - 1] == s + w[..|w| - 1];
      TrimEndAppendedWhitespace(s, w[..|w| - 1]);
    } else {
      assert s + w == s;
    }
  }

  lemma LastOfAppend(s: string, t: string)
    requires |t| > 0
    ensures |s + t| > 0 && (s + t)[|s + t| - 1] == t[|t| - 1]
  {
  }

  /** `s` with every whitespace character removed. */
  function Strip(s: string): (r: string)
    ensures forall j :: 0 <= j < |r| ==> !IsWhitespace(r[j])
  {
    if |s| == 0 then ""
    else
      var last := s[|s| - 1];
      Strip(s[..|s| - 1]) + (if IsWhitespace(last) then "" else [last])
  }

  lemma {:induction false} StripAppend(s: string, t: string)
    ensures Strip(s + t) == Strip(s) + Strip(t)
  {
    if |t| > 0 {
      assert (s + t)[..|s + t| - 1] == s + t[..|t| - 1];
      StripAppend(s, t[..|t| - 1]);
    } else {
      assert s + t == s;
    }
  }

  lemma {:induction false} StripWhitespace(w: string)
    requires forall j :: 0 <= j < |w| ==> IsWhitespace(w[j])
    ensures Strip(w) == ""
  {
    if |w| > 0 {
      StripWhitespace(w[..|w| - 1]);
    }
  }

  lemma {:induction false} StripNoWhitespace(s: string)
    requires forall j :: 0 <= j < |s| ==> !IsWhitespace(s[j])
    ensures Strip(s) == s
  {
    if |s| > 0 {
      StripNoWhitespace(s[..|s| - 1]);
    }
  }

  /**
   * The formatter's indentation level after the first `k` instructions: up
   * one after `[`, down one after `]` but never below zero.
   */
  function Level(c: string, k: nat): (l: nat)
    requires k <= |c|
    ensures l <= k
  {
    if k == 0 then 0
    else if c[k - 1] == '[' then Level(c, k - 1) + 1
    else if c[k - 1] == ']' then (if Level(c, k - 1) == 0 then 0 else Level(c, k - 1) - 1)
    else Level(c, k - 1)
  }

  /** On balanced code the clamp at zero never applies: the level is the nesting depth. */
  lemma {:induction false} LevelIsDepth(c: string, k: nat)
    requires Balanced(c) && k <= |c|
    ensures Level(c, k) == DepthAt(c, k)
  {
    if k > 0 {
      LevelIsDepth(c, k - 1);
      assert DepthAt(c, k) >= 0;
    }
  }

  /** A `]` right after a `[`: the formatter writes this empty loop as `[]`. */
  predicate ClosesEmptyLoop(c: string, i: nat)
    requires i < |c|
  {
    c[i] == ']' && i > 0 && c[i - 1] == '['
  }

  /** The line break before a `[`, unless it directly follows another `[`. */
  function OpenBreak(c: string, i: nat, spacesPerIndent: nat): (r: string)
    requires i < |c|
    ensures r != "" <==> c[i] == '[' && i > 0 && c[i - 1] != '['
    ensures r != "" ==> r[0] == '\n'
    ensures forall j :: 0 <= j < |r| ==> IsWhitespace(r[j])
  {
    if c[i] == '[' && i > 0 && c[i - 1] != '[' then LineBreak(Level(c, i), spacesPerIndent) else ""
  }

  /** The text an instruction itself contributes; an empty loop's `]` brings a second `[`. */
  function Body(c: string, i: nat): (r: string)
    requires i < |c|
    ensures |r| > 0 && r[|r| - 1] == c[i]
    ensures |r| <= 2 && (|r| == 2 <==> ClosesEmptyLoop(c, i)) && (|r| == 2 ==> r[0] == '[')
  {
    if ClosesEmptyLoop(c, i) then "[]" else [c[i]]
  }

  /** The line break after a `]`, unless the code ends or another `]` follows. */
  function CloseBreak(c: string, i: nat, spacesPerIndent: nat): (r: string)
    requires i < |c|
    ensures r != "" <==> c[i] == ']' && i + 1 < |c| && c[i + 1] != ']'
    ensures r != "" ==> r[0] == '\n'
    ensures forall j :: 0 <= j < |r| ==> IsWhitespace(r[j])
  {
    if c[i] == ']' && i + 1 < |c| && c[i + 1] != ']' then LineBreak(Level(c, i + 1), spacesPerIndent) else ""
  }

  /**
   * The text one instruction contributes: besides whitespace it holds only
   * the instruction itself, and the extra `[` of an empty loop.
   */
  function Piece(c: string, i: nat, spacesPerIndent: nat): (r: string)
    requires i < |c|
    ensures |r| > 0
    ensures forall j :: 0 <= j < |r| && !IsWhitespace(r[j]) ==>
      r[j] == c[i] || (ClosesEmptyLoop(c, i) && r[j] == '[')
  {
    OpenBreak(c, i, spacesPerIndent) + Body(c, i) + CloseBreak(c, i, spacesPerIndent)
  }

  /** The formatted text of the first `n` instructions. */
  function LayoutUpTo(c: string, spacesPerIndent: nat, n: nat): (r: string)
    requires n <= |c|
    ensures |r| >= n
  {
    if n == 0 then "" else LayoutUpTo(c, spacesPerIndent, n - 1) + Piece(c, n - 1, spacesPerIndent)
  }

  lemma LayoutStep(c: string, spacesPerIndent: nat, i: nat)
    requires i < |c|
    ensures LayoutUpTo(c, spacesPerIndent, i + 1) ==
      LayoutUpTo(c, spacesPerIndent, i) + (OpenBreak(c, i, spacesPerIndent) + Body(c, i))
      + CloseBreak(c, i, spacesPerIndent)
  {
  }

  function Layout(c: string, spacesPerIndent: nat): (r: string)
    ensures |r| >= |c|
  {
    LayoutUpTo(c, spacesPerIndent, |c|)
  }

  /** The instructions of `c[..n]`, with each empty loop `[]` written `[[]`. */
  function ExpandedUpTo(c: string, n: nat): string
    requires n <= |c|
  {
    if n == 0 then "" else ExpandedUpTo(c, n - 1) + Body(c, n - 1)
  }

  function Expanded(c: string): string {
    ExpandedUpTo(c, |c|)
  }

  /**
   * What the formatter has written after `i` instructions, trailing
   * whitespace trimmed, ends with the last of them; and it ends with `[`
   * exactly when that instruction is a `[`, in which case there is no
   * trailing whitespace at all.
   */
  lemma TrimmedLayoutEnd(c: string, spacesPerIndent: nat, i: nat)
    requires 0 < i <= |c| && !IsWhitespace(c[i - 1])
    ensures var t := TrimEnd(LayoutUpTo(c, spacesPerIndent, i));
      && |t| > 0 && t[|t| - 1] == c[i - 1]
      && (c[i - 1] == '[' ==> t == LayoutUpTo(c, spacesPerIndent, i))
  {
    var k := i - 1;
    var l, o, b, e := LayoutUpTo(c, spacesPerIndent, k), OpenBreak(c, k, spacesPerIndent), Body(c, k),
      CloseBreak(c, k, spacesPerIndent);
    var front := l + (o + b);
    LayoutStep(c, spacesPerIndent, k);
    LastOfAppend(l, o + b);
    LastOfAppend(o, b);
    TrimEndAppendedWhitespace(front, e);
    assert c[k] == '[' ==> e == "";
  }

  /**
   * What the empty-loop test sees in `text`: the trimmed text ends with `[`
   * exactly when instruction `i - 1` is one, and then trimming changes nothing.
   */
  predicate TrimmedEndShowsPrevious(c: string, i: nat, text: string)
    requires i <= |c|
  {
    var t := TrimEnd(text);
    && ((|t| > 0 && t[|t| - 1] == '[') <==> (i > 0 && c[i - 1] == '['))
    && (i > 0 && c[i - 1] == '[' ==> t == text)
  }

  /**
   * The formatter's test for an empty loop, "the text so far ends with `[`
   * once trimmed", holds exactly when the previous instruction is `[`; and
   * then trimming changes nothing.
   */
  lemma EmptyLoopTest(c: string, spacesPerIndent: nat, i: nat)
    requires i < |c| && (i > 0 ==> !IsWhitespace(c[i - 1]))
    ensures var t := TrimEnd(LayoutUpTo(c, spacesPerIndent, i));
      && ((|t| > 0 && t[|t| - 1] == '[') <==> (i > 0 && c[i - 1] == '['))
      && (i > 0 && c[i - 1] == '[' ==> t == LayoutUpTo(c, spacesPerIndent, i))
  {
    if i > 0 {
      TrimmedLayoutEnd(c, spacesPerIndent, i);
    }
  }

  /** Formatting only adds whitespace, and doubles the `[` of every empty loop. */
  lemma {:induction false} StripLayoutUpTo(c: string, spacesPerIndent: nat, n: nat)
    requires forall j :: 0 <= j < |c| ==> IsInstruction(c[j])
    requires n <= |c|
    ensures Strip(LayoutUpTo(c, spacesPerIndent, n)) == ExpandedUpTo(c, n)
  {
    if n > 0 {
      var k := n - 1;
      assert ExpandedUpTo(c, n) == ExpandedUpTo(c, k) + Body(c, k);
      var l, p := LayoutUpTo(c, spacesPerIndent, k), Piece(c, k, spacesPerIndent);
      assert LayoutUpTo(c, spacesPerIndent, n) == l + p;
      StripLayoutUpTo(c, spacesPerIndent, k);
      StripAppend(l, p);
      StripPiece(c, k, spacesPerIndent);
    }
  }

  /** The piece of one instruction strips down to its body. */
  lemma StripPiece(c: string, i: nat, spacesPerIndent: nat)
    requires i < |c| && IsInstruction(c[i])
    ensures Strip(Piece(c, i, spacesPerIndent)) == Body(c, i)
  {
    var o, b, e := OpenBreak(c, i, spacesPerIndent), Body(c, i), CloseBreak(c, i, spacesPerIndent);
    StripAppend(o + b, e);
    StripAppend(o, b);
    StripWhitespace(o);
    StripWhitespace(e);
    InstructionIsNotWhitespace(c[i]);
    StripNoWhitespace(b);
  }

  lemma StripLayout(c: string, spacesPerIndent: nat)
    requires forall j :: 0 <= j < |c| ==> IsInstruction(c[j])
    ensures Strip(Layout(c, spacesPerIndent)) == Expanded(c)
  {
    StripLayoutUpTo(c, spacesPerIndent, |c|);
  }

  /** Without an empty loop `[]`, the expanded code is the code itself. */
  lemma {:induction false} ExpandedUpToWithoutEmptyLoops(c: string, n: nat)
    requires forall j :: 0 < j < |c| ==> !(c[j - 1] == '[' && c[j] == ']')
    requires n <= |c|
    ensures ExpandedUpTo(c, n) == c[..n]
  {
    if n > 0 {
      ExpandedUpToWithoutEmptyLoops(c, n - 1);
      assert c[..n] == c[..n - 1] + [c[n - 1]];
    }
  }

  /**
   * For cleaned code without an empty loop, stripping the whitespace from
   * the formatted text gives the cleaned code back.
   */
  lemma StripLayoutWithoutEmptyLoops(c: string, spacesPerIndent: nat)
    requires forall j :: 0 <= j < |c| ==> IsInstruction(c[j])
    requires forall j :: 0 < j < |c| ==> !(c[j - 1] == '[' && c[j] == ']')
    ensures Strip(Layout(c, spacesPerIndent)) == c
  {
    StripLayout(c, spacesPerIndent);
    ExpandedUpToWithoutEmptyLoops(c, |c|);
    assert c[..|c|] == c;
  }

  /** The formatted text never ends in whitespace. */
  lemma NoTrailingWhitespace(c: string, spacesPerIndent: nat)
    requires forall j :: 0 <= j < |c| ==> IsInstruction(c[j])
    ensures TrimEnd(Layout(c, spacesPerIndent)) == Layout(c, spacesPerIndent)
  {
    if |c| > 0 {
      var k := |c| - 1;
      var l, o, b := LayoutUpTo(c, spacesPerIndent, k), OpenBreak(c, k, spacesPerIndent), Body(c, k);
      LayoutStep(c, spacesPerIndent, k);
      assert CloseBreak(c, k, spacesPerIndent) == "";
      assert Layout(c, spacesPerIndent) == l + (o + b);
      LastOfAppend(l, o + b);
      LastOfAppend(o, b);
      InstructionIsNotWhitespace(c[k]);
    }
  }

  /**
   * An empty loop is written `[[]`, which is itself unbalanced: formatting
   * the formatted text again fails.
   */
  lemma EmptyLoopFormatsUnbalanced(spacesPerIndent: nat)
    ensures Layout("[]", spacesPerIndent) == "[[]"
    ensures !Balanced("[[]")
  {
    assert LayoutUpTo("[]", spacesPerIndent, 1) == "[";
    assert DepthAt("[[]", 3) == 1;
  }
}
