/**
 * The lenient `key=value` tokenizer `regex_kv_pairs` with its default
 * separators: the pattern
 *   (?P<key>[\w\-]+)=(?P<quote>["']?)(?P<value>[\S\s]*?)(?P=quote)(,|$|\s)
 * applied with `finditer`, and the matches folded into a dict in order.
 *
 * The scanner works on suffixes of the text. At each position the key is the
 * maximal `[\w-]` run (a shorter key would be followed by a key character, not
 * by `=`); when it is not followed by `=` the search moves on by one
 * character. Once `key=` is found a match always exists, because the unquoted
 * reading can always stop at the end of the text.
 */
module KvPairs {
  import opened Chars
  import opened Wrappers

  /** One match: its `key` and `value` groups. */
  datatype Pair = Pair(key: string, value: string)

  predicate IsQuote(c: char) {
    c == '"' || c == '\''
  }

  /** The entry terminator `(,|$|\s)` can match at the start of `s`. */
  predicate AtTerminator(s: string) {
    s == [] || s[0] == ',' || IsSpace(s[0])
  }

  /** The text after the terminator. A comma or whitespace character is
      consumed; `$` (tried before `\s`) matches empty at the end of the text
      and before a final line feed. */
  function AfterTerminator(s: string): (rest: string)
    requires AtTerminator(s)
    ensures rest == s || (s != [] && rest == s[1..])
  {
    if s != [] && s[0] == ',' then s[1..]
    else if s == [] || s == "\n" then s
    else s[1..]
  }

  /** Position `j` of `u` is a closing quote `q` followed by a terminator. */
  predicate ClosesAt(u: string, q: char, j: int) {
    0 <= j < |u| && u[j] == q && AtTerminator(u[j + 1..])
  }

  /** The shortest quoted value: the first closing quote followed by a terminator. */
  function FindClose(u: string, q: char): (r: Option<nat>)
    ensures r.Some? ==> ClosesAt(u, q, r.value)
    ensures forall j :: 0 <= j < |u| && (r.None? || j < r.value) ==> !ClosesAt(u, q, j)
    decreases |u|
  {
    if u == [] then None
    else if ClosesAt(u, q, 0) then Some(0)
    else
      assert forall j :: 1 <= j < |u| ==> (ClosesAt(u, q, j) <==> ClosesAt(u[1..], q, j - 1)) by {
        forall j | 1 <= j < |u| ensures ClosesAt(u, q, j) == ClosesAt(u[1..], q, j - 1) {
          assert u[1..][j..] == u[j + 1..];
        }
      }
      match FindClose(u[1..], q)
      case None => None
      case Some(j) =>
        assert u[1..][j + 1..] == u[j + 2..];
        Some(j + 1)
  }

  /** The `quote` and `value` groups read from the text after `=`, and the
      text after the terminator. */
  datatype Read = Read(quote: string, value: string, rest: string)

  /** Reads the value that follows `key=`: `s` is the text after the `=`. */
  function ReadValue(s: string): (r: Read)
    ensures |r.rest| <= |s|
    // quoted: the opening quote, the shortest text up to the same quote
    // followed by a terminator
    ensures r.quote != [] ==>
      && |r.quote| == 1 && s != [] && IsQuote(s[0]) && r.quote[0] == s[0]
      && ClosesAt(s[1..], s[0], |r.value|)
      && s[1..1 + |r.value|] == r.value
      && (forall j :: 0 <= j < |r.value| ==> !ClosesAt(s[1..], s[0], j))
      && r.rest == AfterTerminator(s[|r.value| + 2..])
    // unquoted (also the fallback when no closing quote qualifies): the text
    // up to the first comma or whitespace character, opening quote included
    ensures r.quote == [] ==>
      && |r.value| <= |s| && r.value == s[..|r.value|]
      && AllIn(r.value, BareValue)
      && AtTerminator(s[|r.value|..])
      && r.rest == AfterTerminator(s[|r.value|..])
      && (s != [] && IsQuote(s[0]) ==> forall j :: 0 <= j < |s| - 1 ==> !ClosesAt(s[1..], s[0], j))
  {
    if s != [] && IsQuote(s[0]) && FindClose(s[1..], s[0]).Some? then
      var j := FindClose(s[1..], s[0]).value;
      assert s[1..][j + 1..] == s[j + 2..];
      Read([s[0]], s[1..1 + j], AfterTerminator(s[j + 2..]))
    else
      var k := Span(s, BareValue);
      Read([], s[..k], AfterTerminator(s[k..]))
  }

  /** The matches `finditer` reports, in order. */
  function Matches(t: string): (ps: seq<Pair>)
    ensures forall i :: 0 <= i < |ps| ==> |ps[i].key| > 0 && AllIn(ps[i].key, KeyChar)
    decreases |t|
  {
    if t == [] then []
    else
      var n := Span(t, KeyChar);
      if 0 < n < |t| && t[n] == '=' then
        var r := ReadValue(t[n + 1..]);
        [Pair(t[..n], r.value)] + Matches(r.rest)
      else
        Matches(t[1..])
  }

  /** The dict comprehension: pairs inserted in order, a later key overwriting. */
  function ToMap(ps: seq<Pair>): (m: map<string, string>)
    ensures m.Keys == set i | 0 <= i < |ps| :: ps[i].key
  {
    if ps == [] then map[]
    else
      var m := ToMap(ps[..|ps| - 1]);
      assert forall i :: 0 <= i < |ps| - 1 ==> ps[..|ps| - 1][i] == ps[i];
      m[ps[|ps| - 1].key := ps[|ps| - 1].value]
  }

  /** `regex_kv_pairs(text)` with the default separators. */
  function Parse(text: string): (m: map<string, string>)
    ensures forall k :: k in m ==> |k| > 0 && AllIn(k, KeyChar)
  {
    ToMap(Matches(text))
  }

  /** Some key character immediately followed by `=`: a `[\w-]+=` occurrence. */
  predicate HasKeyOccurrence(t: string) {
    exists j :: 0 < j < |t| && t[j] == '=' && In(t[j - 1], KeyChar)
  }

  /** The scan finds nothing exactly when the text holds no `[\w-]+=`; it never fails. */
  lemma {:induction false} NoMatchesIff(t: string)
    ensures Matches(t) == [] <==> !HasKeyOccurrence(t)
    decreases |t|
  {
    if t != [] {
      var n := Span(t, KeyChar);
      if 0 < n < |t| && t[n] == '=' {
        assert t[..n][n - 1] == t[n - 1];
      } else {
        NoMatchesIff(t[1..]);
        if HasKeyOccurrence(t) {
          var j :| 0 < j < |t| && t[j] == '=' && In(t[j - 1], KeyChar);
          assert t[1..][j - 1] == '=' && t[1..][j - 2] == t[j - 1];
        }
        if HasKeyOccurrence(t[1..]) {
          var j :| 0 < j < |t[1..]| && t[1..][j] == '=' && In(t[1..][j - 1], KeyChar);
          assert t[j + 1] == '=' && In(t[j], KeyChar);
        }
      }
    }
  }

  lemma ParseEmptyIff(t: string)
    ensures Parse(t) == map[] <==> !HasKeyOccurrence(t)
  {
    NoMatchesIff(t);
    var ps := Matches(t);
    if ps != [] {
      assert ps[0].key in Parse(t);
    }
  }

  lemma ToMapPair(p: Pair, q: Pair)
    ensures ToMap([p, q]) == map[p.key := p.value][q.key := q.value]
  {
    assert [p, q][..1] == [p];
    assert [p][..0] == [];
  }

  /** For a repeated key the last match's value is kept. */
  lemma {:induction false} LastWins(ps: seq<Pair>, i: int)
    requires 0 <= i < |ps|
    requires forall j :: i < j < |ps| ==> ps[j].key != ps[i].key
    ensures ps[i].key in ToMap(ps) && ToMap(ps)[ps[i].key] == ps[i].value
  {
    if i < |ps| - 1 {
      var init := ps[..|ps| - 1];
      assert init[i] == ps[i];
      LastWins(init, i);
    }
  }

  /** The scan moves on by one character where no `key=` starts. */
  lemma MatchesMiss(t: string)
    requires t != []
    requires !(0 < Span(t, KeyChar) < |t| && t[Span(t, KeyChar)] == '=')
    ensures Matches(t) == Matches(t[1..])
  {
  }

  lemma NoKeyInTail(junk: string)
    requires junk != []
    requires !HasKeyOccurrence(junk)
    ensures !HasKeyOccurrence(junk[1..])
  {
  }

  /** No `key=` starts at the front of `junk + t`. */
  lemma NoKeyAtFront(junk: string, t: string)
    requires junk != []
    requires !HasKeyOccurrence(junk)
    requires !In(junk[|junk| - 1], KeyChar)
    ensures var s := junk + t; !(0 < Span(s, KeyChar) < |s| && s[Span(s, KeyChar)] == '=')
  {
    var s := junk + t;
    var n := Span(s, KeyChar);
    assert forall i :: 0 <= i < n ==> s[..n][i] == s[i];
    assert forall i :: 0 <= i < |junk| ==> s[i] == junk[i];
    assert In(s[|junk| - 1], KeyChar) == In(junk[|junk| - 1], KeyChar);
    assert n < |junk|;
    assert s[n] == junk[n];
    assert 0 < n ==> In(junk[n - 1], KeyChar);
  }

  /** Text with no `key=` occurrence, ending on a non-key character, is
      skipped by the lenient scan. */
  lemma {:induction false} SkipFree(junk: string, t: string)
    requires !HasKeyOccurrence(junk)
    requires junk == [] || !In(junk[|junk| - 1], KeyChar)
    ensures Matches(junk + t) == Matches(t)
  {
    if junk != [] {
      var s := junk + t;
      NoKeyAtFront(junk, t);
      MatchesMiss(s);
      assert s[1..] == junk[1..] + t;
      assert Matches(s) == Matches(junk[1..] + t);
      NoKeyInTail(junk);
      SkipFree(junk[1..], t);
    } else {
      assert junk + t == t;
    }
  }

  /** One entry as a program would write it: `key=value` or `key="value"`. */
  datatype Field = Field(key: string, value: string, quoted: bool)

  /** Entries the tokenizer reads back unchanged: a key of `[\w-]` characters;
      a quoted value without a double quote; an unquoted value without
      comma or whitespace that does not begin with a quote. */
  predicate WellFormedField(f: Field) {
    && |f.key| > 0 && AllIn(f.key, KeyChar)
    && if f.quoted then '"' !in f.value
       else AllIn(f.value, BareValue) && (f.value == [] || !IsQuote(f.value[0]))
  }

  function RenderField(f: Field): string {
    f.key + "=" + if f.quoted then "\"" + f.value + "\"" else f.value
  }

  /** A separator between entries: a comma or whitespace character followed by
      characters that cannot start a key. */
  predicate IsSeparator(sep: string) {
    && |sep| > 0 && (sep[0] == ',' || IsSpace(sep[0]))
    && forall k :: 1 <= k < |sep| ==> !In(sep[k], KeyChar)
  }

  /** The entries joined with `sep`. */
  function Render(fs: seq<Field>, sep: string): string
    decreases |fs|
  {
    if fs == [] then ""
    else if |fs| == 1 then RenderField(fs[0])
    else RenderField(fs[0]) + sep + Render(fs[1..], sep)
  }

  function PairsOf(fs: seq<Field>): (ps: seq<Pair>)
    ensures |ps| == |fs|
    ensures forall i :: 0 <= i < |fs| ==> ps[i] == Pair(fs[i].key, fs[i].value)
  {
    if fs == [] then [] else [Pair(fs[0].key, fs[0].value)] + PairsOf(fs[1..])
  }

  /** The scan reports a match where `key=` starts. */
  lemma MatchesHit(key: string, s: string)
    requires |key| > 0 && AllIn(key, KeyChar)
    ensures Matches(key + "=" + s) == [Pair(key, ReadValue(s).value)] + Matches(ReadValue(s).rest)
  {
    var t := key + "=" + s;
    assert t == key + ("=" + s);
    SpanOfRun(key, "=" + s, KeyChar);
    assert t[|key| + 1..] == s;
    assert t[..|key|] == key;
  }

  /** A double-quoted value without inner double quotes, closed before a terminator. */
  lemma ReadQuoted(value: string, tail: string)
    requires '"' !in value
    requires AtTerminator(tail)
    ensures ReadValue("\"" + value + "\"" + tail) == Read("\"", value, AfterTerminator(tail))
  {
    var s := "\"" + value + "\"" + tail;
    var u := value + "\"" + tail;
    assert s[1..] == u;
    assert u[|value| + 1..] == tail;
    assert ClosesAt(u, '"', |value|);
    var c := FindClose(u, '"');
    assert forall j :: 0 <= j < |value| ==> u[j] == value[j];
    assert c == Some(|value|);
    assert s[|value| + 2..] == tail;
    assert u[..|value|] == value;
    assert s[1..1 + |value|] == value;
  }

  /** An unquoted value without comma or whitespace, before a terminator. */
  lemma ReadBare(value: string, tail: string)
    requires AllIn(value, BareValue)
    requires value == [] || !IsQuote(value[0])
    requires AtTerminator(tail)
    ensures ReadValue(value + tail) == Read([], value, AfterTerminator(tail))
  {
    var s := value + tail;
    if value == [] {
      assert s == tail;
    } else {
      assert s[0] == value[0];
    }
    assert !(s != [] && IsQuote(s[0]));
    SpanOfRun(value, tail, BareValue);
    assert s[..|value|] == value;
    assert s[|value|..] == tail;
  }

  /** A value opening with a quote that never comes back is read unquoted,
      quote included, up to the terminator. */
  lemma ReadUnclosed(value: string, tail: string)
    requires value != [] && IsQuote(value[0]) && AllIn(value, BareValue)
    requires value[0] !in value[1..] + tail
    requires AtTerminator(tail)
    ensures ReadValue(value + tail) == Read([], value, AfterTerminator(tail))
  {
    var s := value + tail;
    assert s[0] == value[0];
    assert s[1..] == value[1..] + tail;
    assert forall j :: 0 <= j < |s[1..]| ==> !ClosesAt(s[1..], s[0], j) by {
      forall j | 0 <= j < |s[1..]| ensures s[1..][j] != s[0] {
        assert s[1..][j] in value[1..] + tail;
      }
    }
    SpanOfRun(value, tail, BareValue);
    assert s[..|value|] == value;
    assert s[|value|..] == tail;
  }

  /** A well-formed entry followed by a terminator is one match. */
  lemma ScanField(f: Field, tail: string)
    requires WellFormedField(f)
    requires AtTerminator(tail)
    ensures Matches(RenderField(f) + tail) == [Pair(f.key, f.value)] + Matches(AfterTerminator(tail))
  {
    if f.quoted {
      var s := "\"" + f.value + "\"" + tail;
      assert RenderField(f) + tail == f.key + "=" + s;
      MatchesHit(f.key, s);
      ReadQuoted(f.value, tail);
    } else {
      var s := f.value + tail;
      assert RenderField(f) + tail == f.key + "=" + s;
      MatchesHit(f.key, s);
      ReadBare(f.value, tail);
    }
  }

  /** The separator and anything after it up to the next entry is skipped. */
  lemma SkipSeparator(sep: string, rest: string)
    requires IsSeparator(sep)
    ensures Matches(AfterTerminator(sep + rest)) == Matches(rest)
  {
    var s := sep + rest;
    var junk := if AfterTerminator(s) == s then sep else sep[1..];
    assert AfterTerminator(s) == junk + rest;
    assert forall k :: 0 <= k < |junk| ==> !In(junk[k], KeyChar);
    SkipFree(junk, rest);
  }

  /** Round trip: scanning rendered entries gives back their keys and values in order. */
  lemma {:induction false} ScanRender(fs: seq<Field>, sep: string)
    requires IsSeparator(sep)
    requires forall i :: 0 <= i < |fs| ==> WellFormedField(fs[i])
    ensures Matches(Render(fs, sep)) == PairsOf(fs)
    decreases |fs|
  {
    if |fs| == 1 {
      ScanField(fs[0], "");
      assert RenderField(fs[0]) + "" == Render(fs, sep);
    } else if |fs| > 1 {
      var rest := Render(fs[1..], sep);
      ScanField(fs[0], sep + rest);
      assert Render(fs, sep) == RenderField(fs[0]) + (sep + rest);
      SkipSeparator(sep, rest);
      ScanRender(fs[1..], sep);
    }
  }

  /** Free text without `key=` followed by rendered entries parses to
      the entries' map. */
  lemma ParseRendered(junk: string, fs: seq<Field>, sep: string, text: string)
    requires !HasKeyOccurrence(junk) && (junk == [] || !In(junk[|junk| - 1], KeyChar))
    requires IsSeparator(sep)
    requires forall i :: 0 <= i < |fs| ==> WellFormedField(fs[i])
    requires text == junk + Render(fs, sep)
    ensures Parse(text) == ToMap(PairsOf(fs))
  {
    SkipFree(junk, Render(fs, sep));
    ScanRender(fs, sep);
  }
}
