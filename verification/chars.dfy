/**
 * Character classes of Python's `re` module as the two regular expressions of
 * the log handler use them, and the maximal-run scanner every other scanner in
 * the model is built from.
 */
module Chars {

  /** `\s` (and `str.isspace`/`str.strip`): the ASCII whitespace and separator
      controls plus the Unicode space characters. */
  predicate IsSpace(c: char) {
    var n := c as int;
    || (0x09 <= n <= 0x0d) || (0x1c <= n <= 0x20)
    || n == 0x85 || n == 0xa0 || n == 0x1680
    || (0x2000 <= n <= 0x200a) || n == 0x2028 || n == 0x2029
    || n == 0x202f || n == 0x205f || n == 0x3000
  }

  /** `\d`, restricted to ASCII digits. */
  predicate IsDigit(c: char) {
    '0' <= c <= '9'
  }

  /** `\w`, restricted to ASCII letters, digits and underscore. */
  predicate IsWordChar(c: char) {
    ('a' <= c <= 'z') || ('A' <= c <= 'Z') || IsDigit(c) || c == '_'
  }

  /** The named character classes the envelope and key/value grammars use. */
  datatype Class =
    | NonSpace      // \S
    | Space         // \s
    | Digit         // \d
    | DigitOrDot    // [\d\.]
    | Word          // \w
    | KeyChar       // [\w\-]
    | NotNewline    // .  (any character except a line feed)
    | BareValue     // a character that does not end an unquoted value

  predicate In(c: char, cls: Class) {
    match cls
    case NonSpace => !IsSpace(c)
    case Space => IsSpace(c)
    case Digit => IsDigit(c)
    case DigitOrDot => IsDigit(c) || c == '.'
    case Word => IsWordChar(c)
    case KeyChar => IsWordChar(c) || c == '-'
    case NotNewline => c != '\n'
    case BareValue => c != ',' && !IsSpace(c)
  }

  predicate AllIn(s: string, cls: Class) {
    forall k :: 0 <= k < |s| ==> In(s[k], cls)
  }

  /** Length of the longest prefix of `s` drawn from `cls`: what a greedy
      `cls*` matches at the start of `s`. */
  function Span(s: string, cls: Class): (n: nat)
    ensures n <= |s|
    ensures AllIn(s[..n], cls)
    ensures n == |s| || !In(s[n], cls)
  {
    if s == [] || !In(s[0], cls) then 0
    else
      var m := Span(s[1..], cls);
      assert s[1..][..m] == s[1..m + 1];
      1 + m
  }

  /** A run of `cls` followed by something outside `cls` is exactly what the
      greedy match takes. */
  lemma AllInAppend(a: string, b: string, cls: Class)
    ensures AllIn(a + b, cls) <==> AllIn(a, cls) && AllIn(b, cls)
  {
    assert forall k :: 0 <= k < |a| ==> a[k] == (a + b)[k];
    assert forall k :: 0 <= k < |b| ==> b[k] == (a + b)[|a| + k];
  }

  lemma {:induction false} SpanOfRun(a: string, b: string, cls: Class)
    requires AllIn(a, cls)
    requires b == [] || !In(b[0], cls)
    ensures Span(a + b, cls) == |a|
  {
    if a != [] {
      assert (a + b)[1..] == a[1..] + b;
      SpanOfRun(a[1..], b, cls);
    }
  }
}
