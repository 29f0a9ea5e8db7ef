/**
  The browser primitives the forms rely on, stated exactly enough to reason about:
  the text of a number field and what `parseFloat` makes of it, JavaScript's
  falsy-default `x || d` on numbers, and `String.prototype.trim`.
*/
module Inputs {
  import opened Wrappers

  /**
    The text of a number input. `Empty` is the empty string, which `parseFloat`
    turns into NaN; `Typed(p)` is any non-empty text together with what
    `parseFloat` reads from it (`None` when it reads NaN). A browser's
    `type="number"` field reports unreadable text as the empty string, so a
    number field only ever yields `Empty` or `Typed(Some(x))`; `Typed(None)`
    stands for text from elsewhere, and the branches that handle it are never
    reached from a number field.
  */
  datatype NumberInput = Empty | Typed(parsed: Option<real>)

  /** `parseFloat(text)`, with NaN as `None`. */
  function ParseFloat(input: NumberInput): (r: Option<real>)
    ensures input == Empty ==> r == None
  {
    match input
    case Empty => None
    case Typed(p) => p
  }

  /**
    The text `String(x)` of a number. A JavaScript number prints as a string that
    `parseFloat` reads back as the same number.
  */
  function ShowNumber(x: real): (input: NumberInput)
    ensures ParseFloat(input) == Some(x)
  {
    Typed(Some(x))
  }

  /** `n || d` for a number `n`: NaN and 0 are falsy and give `d`; any other number is kept. */
  function OrElse(n: Option<real>, d: real): (r: real)
    ensures n.Some? && n.value != 0.0 ==> r == n.value
    ensures n.None? || n.value == 0.0 ==> r == d
  {
    if n.Some? && n.value != 0.0 then n.value else d
  }

  /** `parseFloat(text) || 0`: the number typed, or 0 for a blank or unreadable field. */
  function OrZero(n: Option<real>): (r: real)
    ensures n.Some? ==> r == n.value
    ensures n.None? ==> r == 0.0
  {
    OrElse(n, 0.0)
  }

  /** The code points `trim` removes: ECMAScript WhiteSpace and LineTerminator. */
  predicate IsWhiteSpace(c: char) {
    || c == '\t' || c == '\n' || c == '\U{000B}' || c == '\U{000C}' || c == '\r' || c == ' '
    || c == '\U{00A0}' || c == '\U{1680}' || ('\U{2000}' <= c <= '\U{200A}')
    || c == '\U{2028}' || c == '\U{2029}' || c == '\U{202F}' || c == '\U{205F}'
    || c == '\U{3000}' || c == '\U{FEFF}'
  }

  /** The index of the first character at or after `i` that is not white space, or `|s|`. */
  function SkipWhiteSpace(s: string, i: nat): (n: nat)
    requires i <= |s|
    ensures i <= n <= |s|
    ensures forall k :: i <= k < n ==> IsWhiteSpace(s[k])
    ensures n < |s| ==> !IsWhiteSpace(s[n])
    decreases |s| - i
  {
    if i < |s| && IsWhiteSpace(s[i]) then SkipWhiteSpace(s, i + 1) else i
  }

  /**
    The index just past the last character before `j`, and not before `lo`, that
    is not white space, or `lo` when there is none.
  */
  function SkipWhiteSpaceBack(s: string, lo: nat, j: nat): (n: nat)
    requires lo <= j <= |s|
    ensures lo <= n <= j
    ensures forall k :: n <= k < j ==> IsWhiteSpace(s[k])
    ensures n > lo ==> !IsWhiteSpace(s[n - 1])
  {
    if j > lo && IsWhiteSpace(s[j - 1]) then SkipWhiteSpaceBack(s, lo, j - 1) else j
  }

  /** `s.trim()`: the text between its leading and its trailing white space. */
  function Trim(s: string): (r: string)
    ensures r != [] ==> !IsWhiteSpace(r[0]) && !IsWhiteSpace(r[|r| - 1])
  {
    var i := SkipWhiteSpace(s, 0);
    s[i..SkipWhiteSpaceBack(s, i, |s|)]
  }

  /**
    `trim` removes white space and nothing else: the result is the slice of the
    text that starts after its leading white space, and everything before and
    after that slice is white space.
  */
  lemma TrimRemovesOnlyWhiteSpace(s: string)
    ensures var i, r := SkipWhiteSpace(s, 0), Trim(s);
      && i + |r| <= |s|
      && r == s[i..i + |r|]
      && (forall k :: 0 <= k < i ==> IsWhiteSpace(s[k]))
      && (forall k :: i + |r| <= k < |s| ==> IsWhiteSpace(s[k]))
  {
  }

  /** `!s.trim()`: the text is empty or white space only. */
  predicate IsBlank(s: string) {
    Trim(s) == []
  }

  /** A text is blank exactly when every character of it is white space. */
  lemma BlankIffAllWhiteSpace(s: string)
    ensures IsBlank(s) <==> forall k :: 0 <= k < |s| ==> IsWhiteSpace(s[k])
  {
  }

  /** Trimming removes nothing from a text with no white space at either end. */
  lemma TrimKeepsInner(s: string)
    requires s != [] && !IsWhiteSpace(s[0]) && !IsWhiteSpace(s[|s| - 1])
    ensures Trim(s) == s
  {
  }
}
