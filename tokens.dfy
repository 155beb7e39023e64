/**
 * Validation and tokenization of the submitted expression text (internal/handler/handler.go):
 * the regular expression `^[\d\s\+\-\*\/\(\)]+$` that gates a submission, and `parseExpression`,
 * which collects every match of `\d+|\+|\-|\*|\/` from left to right.
 */
module Tokens {

  predicate IsDigit(c: char)
  {
    '0' <= c <= '9'
  }

  predicate IsOperatorChar(c: char)
  {
    c == '+' || c == '-' || c == '*' || c == '/'
  }

  /** The class `\s` of the regular-expression engine: tab, newline, form feed, carriage return, space. */
  predicate IsSpace(c: char)
  {
    c == '\t' || c == '\n' || c == '\U{000C}' || c == '\r' || c == ' '
  }

  predicate IsAllowed(c: char)
  {
    IsDigit(c) || IsSpace(c) || IsOperatorChar(c) || c == '(' || c == ')'
  }

  /** The validation gate: a non-empty text made only of allowed characters. */
  predicate IsValidExpression(s: string)
  {
    |s| > 0 && forall i :: 0 <= i < |s| ==> IsAllowed(s[i])
  }

  /** A numeric token: a non-empty run of ASCII digits. */
  predicate IsNumber(t: string)
  {
    |t| > 0 && forall i :: 0 <= i < |t| ==> IsDigit(t[i])
  }

  predicate IsOperator(t: string)
  {
    t == "+" || t == "-" || t == "*" || t == "/"
  }

  predicate IsToken(t: string)
  {
    IsNumber(t) || IsOperator(t)
  }

  /** The length of the longest digit prefix of `s` (the greedy `\d+`). */
  function DigitRun(s: string): (n: nat)
    ensures n <= |s|
    ensures forall i :: 0 <= i < n ==> IsDigit(s[i])
    ensures n == |s| || !IsDigit(s[n])
    ensures (s != [] && IsDigit(s[0])) ==> n > 0
  {
    if s != [] && IsDigit(s[0]) then 1 + DigitRun(s[1..]) else 0
  }

  /** `parseExpression`: the successive matches of `\d+|\+|\-|\*|\/`; every other character is skipped. */
  function Tokenize(s: string): (toks: seq<string>)
    ensures forall k :: 0 <= k < |toks| ==> IsToken(toks[k])
    decreases |s|
  {
    if s == [] then []
    else if IsDigit(s[0]) then
      var n := DigitRun(s);
      [s[..n]] + Tokenize(s[n..])
    else if IsOperatorChar(s[0]) then [[s[0]]] + Tokenize(s[1..])
    else Tokenize(s[1..])
  }

  /** The characters the tokenizer keeps: digits and operators, in order. */
  function Kept(s: string): (r: string)
  {
    if s == [] then []
    else (if IsDigit(s[0]) || IsOperatorChar(s[0]) then [s[0]] else []) + Kept(s[1..])
  }

  function Concat(ts: seq<string>): (r: string)
  {
    if ts == [] then [] else ts[0] + Concat(ts[1..])
  }

  lemma {:induction false} KeptAppend(a: string, b: string)
    ensures Kept(a + b) == Kept(a) + Kept(b)
    decreases |a|
  {
    if a == [] {
      assert a + b == b;
    } else {
      var h := if IsDigit(a[0]) || IsOperatorChar(a[0]) then [a[0]] else [];
      assert (a + b)[0] == a[0];
      assert (a + b)[1..] == a[1..] + b;
      KeptAppend(a[1..], b);
      calc {
        Kept(a + b);
        h + Kept(a[1..] + b);
        h + (Kept(a[1..]) + Kept(b));
        (h + Kept(a[1..])) + Kept(b);
      }
    }
  }

  lemma {:induction false} KeptDigits(d: string)
    requires forall i :: 0 <= i < |d| ==> IsDigit(d[i])
    ensures Kept(d) == d
    decreases |d|
  {
    if d != [] {
      KeptDigits(d[1..]);
      assert d == [d[0]] + d[1..];
    }
  }

  /**
   * Nothing but whitespace and parentheses (for a valid text) is lost: concatenating the tokens
   * gives back the input with every other character removed.
   */
  lemma {:induction false} TokenizeConcat(s: string)
    ensures Concat(Tokenize(s)) == Kept(s)
    decreases |s|
  {
    if s == [] {
    } else if IsDigit(s[0]) {
      var n := DigitRun(s);
      assert s == s[..n] + s[n..];
      TokenizeConcat(s[n..]);
      KeptAppend(s[..n], s[n..]);
      KeptDigits(s[..n]);
    } else if IsOperatorChar(s[0]) {
      TokenizeConcat(s[1..]);
    } else {
      TokenizeConcat(s[1..]);
    }
  }

  /** The text with the layout characters the pattern admits removed: `\s` and parentheses. */
  function StripLayout(s: string): (r: string)
  {
    if s == [] then []
    else (if IsSpace(s[0]) || s[0] == '(' || s[0] == ')' then [] else [s[0]]) + StripLayout(s[1..])
  }

  /**
   * For a text the validation accepts, tokenization loses exactly the layout: the tokens
   * concatenated give the text without its whitespace and parentheses.
   */
  lemma ValidTextLosesOnlyLayout(s: string)
    requires IsValidExpression(s)
    ensures Concat(Tokenize(s)) == StripLayout(s)
  {
    TokenizeConcat(s);
    KeptAllowed(s);
  }

  lemma {:induction false} KeptAllowed(s: string)
    requires forall i :: 0 <= i < |s| ==> IsAllowed(s[i])
    ensures Kept(s) == StripLayout(s)
    decreases |s|
  {
    if s != [] {
      assert forall i :: 0 <= i < |s[1..]| ==> IsAllowed(s[1..][i]) by {
        forall i | 0 <= i < |s[1..]| ensures IsAllowed(s[1..][i]) {
          assert s[1..][i] == s[i + 1];
        }
      }
      KeptAllowed(s[1..]);
      assert IsAllowed(s[0]);
    }
  }

  lemma {:induction false} DigitRunAppend(a: string, b: string)
    requires DigitRun(a) < |a| || b == [] || !IsDigit(b[0])
    ensures DigitRun(a + b) == DigitRun(a)
    decreases |a|
  {
    if a == [] {
      assert a + b == b;
    } else if IsDigit(a[0]) {
      assert (a + b)[1..] == a[1..] + b;
      DigitRunAppend(a[1..], b);
    }
  }

  /**
   * Number tokens are maximal digit runs: the tokens of a concatenation are the tokens of its parts
   * whenever the cut does not fall between two digits.
   */
  lemma {:induction false} TokenizeSplit(a: string, b: string)
    requires a == [] || b == [] || !IsDigit(a[|a| - 1]) || !IsDigit(b[0])
    ensures Tokenize(a + b) == Tokenize(a) + Tokenize(b)
    decreases |a|
  {
    if a == [] {
      assert a + b == b;
    } else {
      var n := if IsDigit(a[0]) then DigitRun(a) else 1;
      SuffixKeepsCut(a, b, n);
      TokenizeSplit(a[n..], b);
      SplitStep(a, b, n);
    }
  }

  /**
   * `\d+` is greedy: a run of digits followed by anything but a digit becomes one number token,
   * never several.
   */
  lemma TokenizeNumberRun(d: string, x: string)
    requires IsNumber(d) && (x == [] || !IsDigit(x[0]))
    ensures Tokenize(d + x) == [d] + Tokenize(x)
  {
    assert DigitRun(d) == |d|;
    DigitRunAppend(d, x);
    SliceAppend(d, x, |d|);
    assert d[..|d|] == d && d[|d|..] == [];
    assert [] + x == x;
    DigitHead(d + x);
  }

  /** One step of `TokenizeSplit`: the first token of `a` is also the first token of `a + b`. */
  lemma SplitStep(a: string, b: string, n: nat)
    requires a != [] && n == (if IsDigit(a[0]) then DigitRun(a) else 1)
    requires b == [] || !IsDigit(a[|a| - 1]) || !IsDigit(b[0])
    requires Tokenize(a[n..] + b) == Tokenize(a[n..]) + Tokenize(b)
    ensures Tokenize(a + b) == Tokenize(a) + Tokenize(b)
  {
    var head := if IsDigit(a[0]) then [a[..n]] else if IsOperatorChar(a[0]) then [[a[0]]] else [];
    if IsDigit(a[0]) {
      SplitAfterDigits(a, b, n);
    } else {
      SplitAfterChar(a, b);
    }
    Regroup(head, Tokenize(a[n..]), Tokenize(b));
  }

  lemma Regroup(x: seq<string>, y: seq<string>, z: seq<string>)
    ensures x + (y + z) == (x + y) + z
  {
  }

  lemma SplitAfterDigits(a: string, b: string, n: nat)
    requires a != [] && IsDigit(a[0]) && n == DigitRun(a)
    requires b == [] || !IsDigit(a[|a| - 1]) || !IsDigit(b[0])
    ensures Tokenize(a + b) == [a[..n]] + Tokenize(a[n..] + b)
    ensures Tokenize(a) == [a[..n]] + Tokenize(a[n..])
  {
    if n == |a| {
      assert IsDigit(a[n - 1]);
    }
    DigitRunAppend(a, b);
    SliceAppend(a, b, n);
    DigitHead(a + b);
    DigitHead(a);
  }

  lemma SliceAppend(a: string, b: string, n: nat)
    requires 0 < n <= |a|
    ensures (a + b)[0] == a[0]
    ensures (a + b)[..n] == a[..n]
    ensures (a + b)[n..] == a[n..] + b
  {
  }

  lemma SuffixKeepsCut(a: string, b: string, n: nat)
    requires n <= |a|
    requires a == [] || b == [] || !IsDigit(a[|a| - 1]) || !IsDigit(b[0])
    ensures a[n..] == [] || b == [] || !IsDigit(a[n..][|a[n..]| - 1]) || !IsDigit(b[0])
  {
    if n < |a| {
      assert a[n..][|a[n..]| - 1] == a[|a| - 1];
    }
  }

  lemma DigitHead(s: string)
    requires s != [] && IsDigit(s[0])
    ensures Tokenize(s) == [s[..DigitRun(s)]] + Tokenize(s[DigitRun(s)..])
  {
  }

  lemma SplitAfterChar(a: string, b: string)
    requires a != [] && !IsDigit(a[0])
    ensures Tokenize(a + b) == (if IsOperatorChar(a[0]) then [[a[0]]] else []) + Tokenize(a[1..] + b)
    ensures Tokenize(a) == (if IsOperatorChar(a[0]) then [[a[0]]] else []) + Tokenize(a[1..])
  {
    var ab := a + b;
    assert ab[0] == a[0];
    assert ab[1..] == a[1..] + b;
  }
}
