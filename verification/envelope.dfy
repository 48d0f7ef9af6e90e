/**
 * The splunkd.log line grammar
 *   ^(?P<timestamp>(?P<date>\S+) (?P<time_hour>\d+):(?P<time_minute>\d+):
 *    (?P<time_second>[\d\.]+) (?P<time_zone_offset>\S+)) (?P<log_level>\w+)\s+
 *    (?P<component>\S+)\s+(?P<event>.*)
 * applied with `match` (anchored at the start, not at the end).
 *
 * Each group is a maximal run of its class, because the next token of the
 * pattern never belongs to that class; so backtracking never produces a second
 * split and the match is computed by a left-to-right scanner.
 */
module Envelope {
  import opened Chars
  import opened Wrappers

  /** The named groups of one matched line. */
  datatype Envelope = Envelope(
    date: string,
    hour: string,
    minute: string,
    second: string,
    zone: string,
    level: string,
    component: string,
    event: string)
  {
    /** The `timestamp` group: the five time groups with the separators between them. */
    function Timestamp(): string {
      date + " " + hour + ":" + minute + ":" + second + " " + zone
    }
  }

  /** A match together with the text the groups leave out: the whitespace
      after the level and after the component, and what follows the event. */
  datatype Parts = Parts(envelope: Envelope, gap1: string, gap2: string, tail: string)

  predicate NonEmptyIn(s: string, cls: Class) {
    |s| > 0 && AllIn(s, cls)
  }

  /** What the pattern admits for each group. */
  predicate WellFormedEnvelope(e: Envelope) {
    && NonEmptyIn(e.date, NonSpace)
    && NonEmptyIn(e.hour, Digit)
    && NonEmptyIn(e.minute, Digit)
    && NonEmptyIn(e.second, DigitOrDot)
    && NonEmptyIn(e.zone, NonSpace)
    && NonEmptyIn(e.level, Word)
    && NonEmptyIn(e.component, NonSpace)
    && AllIn(e.event, NotNewline)
    && (e.event == [] || !IsSpace(e.event[0]))
  }

  /** Parts that render to a line the scanner splits the same way: the gaps
      are whitespace, and the event runs up to a line feed or the end. */
  predicate WellFormed(p: Parts) {
    && WellFormedEnvelope(p.envelope)
    && NonEmptyIn(p.gap1, Space)
    && NonEmptyIn(p.gap2, Space)
    && (p.tail == [] || p.tail[0] == '\n')
    && (p.envelope.event == [] ==> p.tail == [])
  }

  /** The line the parts were cut from. */
  function Render(p: Parts): string {
    var e := p.envelope;
    e.Timestamp() + ([' '] + (e.level + (p.gap1 + (e.component + (p.gap2 + (e.event + p.tail))))))
  }

  /** A non-empty maximal run of `cls` directly followed by `sep`: the run and
      the text after `sep`. */
  function Token(s: string, cls: Class, sep: char): (r: Option<(string, string)>)
    ensures r.Some? ==> NonEmptyIn(r.value.0, cls) && s == r.value.0 + ([sep] + r.value.1)
  {
    var n := Span(s, cls);
    if 0 < n < |s| && s[n] == sep then
      assert s == s[..n] + ([sep] + s[n + 1..]);
      Some((s[..n], s[n + 1..]))
    else
      None
  }

  /** A non-empty maximal run of `cls`: the run and the text after it. */
  function Run(s: string, cls: Class): (r: Option<(string, string)>)
    ensures r.Some? ==> NonEmptyIn(r.value.0, cls) && s == r.value.0 + r.value.1
    ensures r.Some? ==> r.value.1 == [] || !In(r.value.1[0], cls)
  {
    var n := Span(s, cls);
    if n > 0 then
      assert s == s[..n] + s[n..];
      Some((s[..n], s[n..]))
    else
      None
  }

  /** The five time groups and the text after the space that ends them. */
  function ScanTime(line: string): Option<(Envelope, string)> {
    var (date, s1) :- Token(line, NonSpace, ' ');
    var (hour, s2) :- Token(s1, Digit, ':');
    var (minute, s3) :- Token(s2, Digit, ':');
    var (second, s4) :- Token(s3, DigitOrDot, ' ');
    var (zone, s5) :- Token(s4, NonSpace, ' ');
    Some((Envelope(date, hour, minute, second, zone, [], [], []), s5))
  }

  /** The level, component and event groups after the time groups, with the gaps and the tail. */
  function ScanBody(s5: string): Option<(string, string, string, string, string, string)> {
    var (level, s6) :- Run(s5, Word);
    var (gap1, s7) :- Run(s6, Space);
    var (component, s8) :- Run(s7, NonSpace);
    var (gap2, s9) :- Run(s8, Space);
    var n := Span(s9, NotNewline);
    Some((level, gap1, component, gap2, s9[..n], s9[n..]))
  }

  /** `regex.match(line)`, with the uncaptured separators. */
  function Scan(line: string): Option<Parts> {
    var (t, s5) :- ScanTime(line);
    var (level, gap1, component, gap2, event, tail) :- ScanBody(s5);
    Some(Parts(t.(level := level, component := component, event := event), gap1, gap2, tail))
  }

  lemma Assoc(a: string, b: string, c: string)
    ensures a + b + c == a + (b + c)
  {
  }

  lemma TokenOf(a: string, sep: char, b: string, cls: Class)
    requires NonEmptyIn(a, cls) && !In(sep, cls)
    ensures Token(a + ([sep] + b), cls, sep) == Some((a, b))
  {
    var s := a + ([sep] + b);
    SpanOfRun(a, [sep] + b, cls);
    assert s[..|a|] == a && s[|a| + 1..] == b;
  }

  lemma RunOf(a: string, b: string, cls: Class)
    requires NonEmptyIn(a, cls)
    requires b == [] || !In(b[0], cls)
    ensures Run(a + b, cls) == Some((a, b))
  {
    SpanOfRun(a, b, cls);
    assert (a + b)[..|a|] == a && (a + b)[|a|..] == b;
  }

  /** The timestamp group followed by a space and more text, written as the
      sequence of tokens the scanner reads. */
  lemma TimestampTokens(e: Envelope, rest: string)
    ensures e.Timestamp() + ([' '] + rest)
      == e.date + ([' '] + (e.hour + ([':'] + (e.minute + ([':'] + (e.second + ([' '] + (e.zone + ([' '] + rest)))))))))
  {
    var date, hour, minute, second, zone := e.date, e.hour, e.minute, e.second, e.zone;
    calc {
      date + ([' '] + (hour + ([':'] + (minute + ([':'] + (second + ([' '] + (zone + ([' '] + rest)))))))));
      { Assoc(date, [' '], hour + ([':'] + (minute + ([':'] + (second + ([' '] + (zone + ([' '] + rest)))))))); }
      (date + [' ']) + (hour + ([':'] + (minute + ([':'] + (second + ([' '] + (zone + ([' '] + rest))))))));
      { Assoc(date + [' '], hour, [':'] + (minute + ([':'] + (second + ([' '] + (zone + ([' '] + rest))))))); }
      (date + [' '] + hour) + ([':'] + (minute + ([':'] + (second + ([' '] + (zone + ([' '] + rest)))))));
      { Assoc(date + [' '] + hour, [':'], minute + ([':'] + (second + ([' '] + (zone + ([' '] + rest)))))); }
      (date + [' '] + hour + [':']) + (minute + ([':'] + (second + ([' '] + (zone + ([' '] + rest))))));
      { Assoc(date + [' '] + hour + [':'], minute, [':'] + (second + ([' '] + (zone + ([' '] + rest))))); }
      (date + [' '] + hour + [':'] + minute) + ([':'] + (second + ([' '] + (zone + ([' '] + rest)))));
      { Assoc(date + [' '] + hour + [':'] + minute, [':'], second + ([' '] + (zone + ([' '] + rest)))); }
      (date + [' '] + hour + [':'] + minute + [':']) + (second + ([' '] + (zone + ([' '] + rest))));
      { Assoc(date + [' '] + hour + [':'] + minute + [':'], second, [' '] + (zone + ([' '] + rest))); }
      (date + [' '] + hour + [':'] + minute + [':'] + second) + ([' '] + (zone + ([' '] + rest)));
      { Assoc(date + [' '] + hour + [':'] + minute + [':'] + second, [' '], zone + ([' '] + rest)); }
      (date + [' '] + hour + [':'] + minute + [':'] + second + [' ']) + (zone + ([' '] + rest));
      { Assoc(date + [' '] + hour + [':'] + minute + [':'] + second + [' '], zone, [' '] + rest); }
      e.Timestamp() + ([' '] + rest);
    }
  }

  lemma ScanTimeSound(line: string)
    requires ScanTime(line).Some?
    ensures var (t, s5) := ScanTime(line).value;
      && NonEmptyIn(t.date, NonSpace) && NonEmptyIn(t.hour, Digit) && NonEmptyIn(t.minute, Digit)
      && NonEmptyIn(t.second, DigitOrDot) && NonEmptyIn(t.zone, NonSpace)
      && line == t.Timestamp() + ([' '] + s5)
  {
    var (date, s1) := Token(line, NonSpace, ' ').value;
    var (hour, s2) := Token(s1, Digit, ':').value;
    var (minute, s3) := Token(s2, Digit, ':').value;
    var (second, s4) := Token(s3, DigitOrDot, ' ').value;
    var (zone, s5) := Token(s4, NonSpace, ' ').value;
    TimestampTokens(ScanTime(line).value.0, s5);
  }

  /** The event runs to the first line feed; it starts after the greedy gap. */
  lemma EventSound(s9: string)
    requires s9 == [] || !IsSpace(s9[0])
    ensures var n := Span(s9, NotNewline);
      && s9 == s9[..n] + s9[n..]
      && (s9[..n] == [] || !IsSpace(s9[..n][0]))
      && (s9[n..] == [] || s9[n..][0] == '\n')
      && (s9[..n] == [] ==> s9[n..] == [])
  {
    var n := Span(s9, NotNewline);
    assert s9 == s9[..n] + s9[n..];
    if n > 0 {
      assert s9[..n][0] == s9[0];
    }
  }

  lemma ScanBodySound(s5: string)
    requires ScanBody(s5).Some?
    ensures var (level, gap1, component, gap2, event, tail) := ScanBody(s5).value;
      && NonEmptyIn(level, Word) && NonEmptyIn(gap1, Space) && NonEmptyIn(component, NonSpace)
      && NonEmptyIn(gap2, Space) && AllIn(event, NotNewline) && (event == [] || !IsSpace(event[0]))
      && (tail == [] || tail[0] == '\n') && (event == [] ==> tail == [])
      && s5 == level + (gap1 + (component + (gap2 + (event + tail))))
  {
    var (level, s6) := Run(s5, Word).value;
    var (gap1, s7) := Run(s6, Space).value;
    var (component, s8) := Run(s7, NonSpace).value;
    var (gap2, s9) := Run(s8, Space).value;
    EventSound(s9);
  }

  /** Every match is the rendering of well-formed parts. */
  lemma ScanSound(line: string)
    requires Scan(line).Some?
    ensures WellFormed(Scan(line).value)
    ensures Render(Scan(line).value) == line
  {
    ScanTimeSound(line);
    var (t, s5) := ScanTime(line).value;
    ScanBodySound(s5);
  }

  /** The timestamp tokens of a well-formed rendering are read back. */
  lemma ScanTimeComplete(p: Parts)
    requires WellFormed(p)
    ensures var e := p.envelope;
      ScanTime(Render(p)) == Some((e.(level := [], component := [], event := []),
                                   e.level + (p.gap1 + (e.component + (p.gap2 + (e.event + p.tail))))))
  {
    var e := p.envelope;
    var s5 := e.level + (p.gap1 + (e.component + (p.gap2 + (e.event + p.tail))));
    var s4 := e.zone + ([' '] + s5);
    var s3 := e.second + ([' '] + s4);
    var s2 := e.minute + ([':'] + s3);
    var s1 := e.hour + ([':'] + s2);
    TimestampTokens(e, s5);
    TokenOf(e.date, ' ', s1, NonSpace);
    TokenOf(e.hour, ':', s2, Digit);
    TokenOf(e.minute, ':', s3, Digit);
    TokenOf(e.second, ' ', s4, DigitOrDot);
    TokenOf(e.zone, ' ', s5, NonSpace);
  }

  /** The groups after the timestamp of a well-formed rendering are read back. */
  lemma ScanBodyComplete(p: Parts)
    requires WellFormed(p)
    ensures var e := p.envelope;
      ScanBody(e.level + (p.gap1 + (e.component + (p.gap2 + (e.event + p.tail)))))
        == Some((e.level, p.gap1, e.component, p.gap2, e.event, p.tail))
  {
    var e := p.envelope;
    var s9 := e.event + p.tail;
    var s8 := p.gap2 + s9;
    var s7 := e.component + s8;
    var s6 := p.gap1 + s7;
    RunOf(e.level, s6, Word);
    RunOf(p.gap1, s7, Space);
    RunOf(e.component, s8, NonSpace);
    if e.event == [] {
      assert s9 == [];
    } else {
      assert s9[0] == e.event[0];
    }
    RunOf(p.gap2, s9, Space);
    SpanOfRun(e.event, p.tail, NotNewline);
    assert s9[..|e.event|] == e.event && s9[|e.event|..] == p.tail;
  }

  /** Every well-formed rendering is matched, and split back into the same parts. */
  lemma ScanComplete(p: Parts)
    requires WellFormed(p)
    ensures Scan(Render(p)) == Some(p)
  {
    ScanTimeComplete(p);
    ScanBodyComplete(p);
  }

  /** `line` begins with `ts` and a space. */
  predicate StartsWithTimestamp(line: string, ts: string) {
    |ts| < |line| && line[..|ts|] == ts && line[|ts|] == ' '
  }

  lemma LeadingTimestamp(ts: string, rest: string)
    ensures StartsWithTimestamp(ts + ([' '] + rest), ts)
  {
    assert (ts + ([' '] + rest))[..|ts|] == ts;
  }

  /** `regex.match(line)`: the groups of a matching line, `None` otherwise. */
  function Match(line: string): (r: Option<Envelope>)
    ensures r.Some? ==> WellFormedEnvelope(r.value)
    // the timestamp group is the start of the line, followed by a space
    ensures r.Some? ==> StartsWithTimestamp(line, r.value.Timestamp())
  {
    match Scan(line)
    case None => None
    case Some(p) =>
      ScanSound(line);
      var e := p.envelope;
      LeadingTimestamp(e.Timestamp(), e.level + (p.gap1 + (e.component + (p.gap2 + (e.event + p.tail)))));
      Some(e)
  }

  /** A line matches exactly when it is the rendering of well-formed parts. */
  lemma MatchIff(line: string)
    ensures Match(line).Some? <==> exists p :: WellFormed(p) && Render(p) == line
  {
    if Match(line).Some? {
      ScanSound(line);
      assert WellFormed(Scan(line).value) && Render(Scan(line).value) == line;
    }
    if exists p :: WellFormed(p) && Render(p) == line {
      var p :| WellFormed(p) && Render(p) == line;
      ScanComplete(p);
    }
  }
}
