/**
 * The example splunkd.log line quoted in the packaged filter, taken through
 * the envelope pattern, the timestamp parser and the key=value tokenizer.
 * Long literals are written as concatenations of short ones.
 */
module ExampleLine {
  import opened Wrappers
  import opened Chars
  import opened KvPairs
  import opened Digits
  import E = Envelope
  import T = Timestamp

  /** The free text in front of the entries: it holds no `key=`. */
  const Lead := "[2394001 HttpInputServerDataThread]" + (" - Failed processing" + " http input, token ")

  function Fields(): seq<Field> {
    [ Field("name", "test", false),
      Field("channel", "n/a", false),
      Field("source_IP", "10.0.0.123", false),
      Field("reply", "9", false),
      Field("events_processed", "0", false),
      Field("http_input_body_size", "183414", false),
      Field("parsing_err", "Server is busy", true) ]
  }

  /** The entries of the example event, with `, ` between them. */
  const Entries :=
    "name=test" + ", " + ("channel=n/a" + ", " + ("source_IP=10.0.0.123" + ", " + ("reply=9" + ", "
      + ("events_processed=0" + ", " + ("http_input_body_size=183414" + ", " + "parsing_err=\"Server is busy\"")))))

  const Event := Lead + Entries

  function Pairs(): seq<Pair> {
    [ Pair("name", "test"),
      Pair("channel", "n/a"),
      Pair("source_IP", "10.0.0.123"),
      Pair("reply", "9"),
      Pair("events_processed", "0"),
      Pair("http_input_body_size", "183414"),
      Pair("parsing_err", "Server is busy") ]
  }

  lemma FieldZero()
    ensures WellFormedField(Fields()[0])
    ensures RenderField(Fields()[0]) == "name=test"
  {
    assert Fields()[0] == Field("name", "test", false);
  }

  lemma FieldOne()
    ensures WellFormedField(Fields()[1])
    ensures RenderField(Fields()[1]) == "channel=n/a"
  {
    assert Fields()[1] == Field("channel", "n/a", false);
  }

  lemma FieldTwo()
    ensures WellFormedField(Fields()[2])
    ensures RenderField(Fields()[2]) == "source_IP=10.0.0.123"
  {
    assert Fields()[2] == Field("source_IP", "10.0.0.123", false);
  }

  lemma FieldThree()
    ensures WellFormedField(Fields()[3])
    ensures RenderField(Fields()[3]) == "reply=9"
  {
    assert Fields()[3] == Field("reply", "9", false);
  }

  lemma FieldFour()
    ensures WellFormedField(Fields()[4])
    ensures RenderField(Fields()[4]) == "events_processed=0"
  {
    assert Fields()[4] == Field("events_processed", "0", false);
  }

  lemma FieldFive()
    ensures WellFormedField(Fields()[5])
    ensures RenderField(Fields()[5]) == "http_input_body_size=183414"
  {
    assert Fields()[5] == Field("http_input_body_size", "183414", false);
  }

  lemma FieldSix()
    ensures WellFormedField(Fields()[6])
    ensures RenderField(Fields()[6]) == "parsing_err=\"Server is busy\""
  {
    var f := Field("parsing_err", "Server is busy", true);
    assert Fields()[6] == f;
    QuotedFieldSix(f);
  }

  lemma QuotedFieldSix(f: Field)
    requires f == Field("parsing_err", "Server is busy", true)
    ensures WellFormedField(f)
    ensures RenderField(f) == "parsing_err=\"Server is busy\""
  {
    assert '"' !in "Server is busy";
    assert AllIn("parsing_err", KeyChar);
  }

  lemma FieldsLow()
    ensures forall i :: 0 <= i < 4 ==> WellFormedField(Fields()[i])
    ensures RenderField(Fields()[0]) == "name=test"
    ensures RenderField(Fields()[1]) == "channel=n/a"
    ensures RenderField(Fields()[2]) == "source_IP=10.0.0.123"
    ensures RenderField(Fields()[3]) == "reply=9"
  {
    FieldZero();
    FieldOne();
    FieldTwo();
    FieldThree();
  }

  lemma FieldsHigh()
    ensures WellFormedField(Fields()[4]) && RenderField(Fields()[4]) == "events_processed=0"
    ensures WellFormedField(Fields()[5]) && RenderField(Fields()[5]) == "http_input_body_size=183414"
    ensures WellFormedField(Fields()[6]) && RenderField(Fields()[6]) == "parsing_err=\"Server is busy\""
  {
    FieldFour();
    FieldFive();
    FieldSix();
  }

  lemma FieldsWellFormed()
    ensures forall i :: 0 <= i < |Fields()| ==> WellFormedField(Fields()[i])
  {
    FieldsLow();
    FieldsHigh();
  }

  lemma FieldsPairs()
    ensures PairsOf(Fields()) == Pairs()
  {
  }

  lemma RenderCons(fs: seq<Field>, sep: string)
    requires |fs| >= 2
    ensures Render(fs, sep) == RenderField(fs[0]) + sep + Render(fs[1..], sep)
  {
  }

  lemma RenderEntries()
    ensures Render(Fields(), ", ") == Entries
  {
    var fs := Fields();
    FieldsLow();
    FieldsHigh();
    assert Render(fs[6..], ", ") == RenderField(fs[6]);
    RenderCons(fs[5..], ", ");
    assert fs[5..][1..] == fs[6..];
    RenderCons(fs[4..], ", ");
    assert fs[4..][1..] == fs[5..];
    RenderCons(fs[3..], ", ");
    assert fs[3..][1..] == fs[4..];
    RenderCons(fs[2..], ", ");
    assert fs[2..][1..] == fs[3..];
    RenderCons(fs[1..], ", ");
    assert fs[1..][1..] == fs[2..];
    RenderCons(fs, ", ");
  }

  lemma LeadFree()
    ensures !HasKeyOccurrence(Lead)
    ensures !In(Lead[|Lead| - 1], KeyChar)
  {
    LeadNoEquals();
    assert Lead[|Lead| - 1] == ' ';
  }

  lemma LeadNoEquals()
    ensures '=' !in Lead
  {
    assert '=' !in "[2394001 HttpInputServerDataThread]";
    assert '=' !in " - Failed processing";
    assert '=' !in " http input, token ";
  }

  /** The tokenizer reads the seven entries of the example event. */
  lemma EventPairs()
    ensures KvPairs.Parse(Event) == ToMap(Pairs())
  {
    FieldsWellFormed();
    RenderEntries();
    LeadFree();
    ParseRendered(Lead, Fields(), ", ", Event);
    FieldsPairs();
  }

  lemma PairValues()
    ensures "parsing_err" in ToMap(Pairs()) && ToMap(Pairs())["parsing_err"] == "Server is busy"
    ensures "channel" in ToMap(Pairs()) && ToMap(Pairs())["channel"] == "n/a"
  {
    var ps := Pairs();
    assert ps[6].key == "parsing_err" && ps[6].value == "Server is busy";
    LastWins(ps, 6);
    assert ps[1].key == "channel" && ps[1].value == "n/a";
    assert forall j :: 1 < j < |ps| ==> ps[j].key != "channel";
    LastWins(ps, 1);
  }

  /** `parsing_err="Server is busy"` gives `Server is busy` and
      `channel=n/a` gives `n/a`. */
  lemma EventValues()
    ensures "parsing_err" in KvPairs.Parse(Event) && KvPairs.Parse(Event)["parsing_err"] == "Server is busy"
    ensures "channel" in KvPairs.Parse(Event) && KvPairs.Parse(Event)["channel"] == "n/a"
  {
    EventPairs();
    PairValues();
  }

  // ---- the envelope

  function Groups(): E.Envelope {
    E.Envelope("10-03-2021", "08", "48", "24.792", "+1000", "ERROR", "HttpInputDataHandler", Event)
  }

  function LineParts(): E.Parts {
    E.Parts(Groups(), " ", " ", "")
  }

  /** The example line. */
  const Line := "10-03-2021 08:48:24.792 +1000" + " ERROR HttpInputDataHandler " + Event

  lemma LeadPieceOneLine()
    ensures AllIn("[2394001 HttpInputServerDataThread]", NotNewline)
  {
  }

  lemma LeadRestOneLine()
    ensures AllIn(" - Failed processing", NotNewline) && AllIn(" http input, token ", NotNewline)
  {
  }

  lemma LeadOneLine()
    ensures AllIn(Lead, NotNewline) && !IsSpace(Lead[0])
  {
    LeadPieceOneLine();
    LeadRestOneLine();
    AllInAppend(" - Failed processing", " http input, token ", NotNewline);
    AllInAppend("[2394001 HttpInputServerDataThread]", " - Failed processing" + " http input, token ", NotNewline);
  }

  lemma Joined(x: string, rest: string)
    requires AllIn(x, NotNewline) && AllIn(rest, NotNewline)
    ensures AllIn(x + ", " + rest, NotNewline)
  {
    AllInAppend(x, ", ", NotNewline);
    AllInAppend(x + ", ", rest, NotNewline);
  }

  lemma PiecesOneLine()
    ensures AllIn("name=test", NotNewline) && AllIn("channel=n/a", NotNewline)
    ensures AllIn("source_IP=10.0.0.123", NotNewline) && AllIn("reply=9", NotNewline)
  {
  }

  lemma MorePiecesOneLine()
    ensures AllIn("events_processed=0", NotNewline)
    ensures AllIn("http_input_body_size=183414", NotNewline)
    ensures AllIn("parsing_err=\"Server is busy\"", NotNewline)
  {
  }

  lemma EntriesOneLine()
    ensures AllIn(Entries, NotNewline)
  {
    PiecesOneLine();
    MorePiecesOneLine();
    var a := "http_input_body_size=183414" + ", " + "parsing_err=\"Server is busy\"";
    Joined("http_input_body_size=183414", "parsing_err=\"Server is busy\"");
    var b := "events_processed=0" + ", " + a;
    Joined("events_processed=0", a);
    var c := "reply=9" + ", " + b;
    Joined("reply=9", b);
    var d := "source_IP=10.0.0.123" + ", " + c;
    Joined("source_IP=10.0.0.123", c);
    var e := "channel=n/a" + ", " + d;
    Joined("channel=n/a", d);
    Joined("name=test", e);
  }

  lemma EventOneLine()
    ensures AllIn(Event, NotNewline) && !IsSpace(Event[0])
  {
    LeadOneLine();
    EntriesOneLine();
    AllInAppend(Lead, Entries, NotNewline);
  }

  /** The header groups of the example line (either form of its seconds)
      and any one-line event make well-formed parts. */
  lemma HeaderWellFormed(e: E.Envelope)
    requires e.date == "10-03-2021" && e.hour == "08" && e.minute == "48"
    requires e.second == "24.792" || e.second == "24"
    requires e.zone == "+1000" && e.level == "ERROR" && e.component == "HttpInputDataHandler"
    requires AllIn(e.event, NotNewline) && e.event != [] && !IsSpace(e.event[0])
    ensures E.WellFormed(E.Parts(e, " ", " ", ""))
  {
  }

  lemma LinePartsWellFormed()
    ensures E.WellFormed(LineParts())
  {
    EventOneLine();
    HeaderWellFormed(Groups());
  }

  /** A line with single spaces between the groups and no trailing newline. */
  lemma RenderSpaced(e: E.Envelope, head: string, mid: string)
    requires head == e.Timestamp() && mid == " " + e.level + " " + e.component + " "
    ensures E.Render(E.Parts(e, " ", " ", "")) == head + mid + e.event
  {
    calc {
      E.Render(E.Parts(e, " ", " ", ""));
      e.Timestamp() + ([' '] + (e.level + (" " + (e.component + (" " + (e.event + ""))))));
      { assert e.event + "" == e.event; }
      head + ([' '] + (e.level + (" " + (e.component + (" " + e.event)))));
      head + (" " + e.level + " " + e.component + " ") + e.event;
    }
  }

  /** The groups in front of the event, as the example line writes them. */
  lemma StampText(e: E.Envelope)
    requires e.date == "10-03-2021" && e.hour == "08" && e.minute == "48" && e.zone == "+1000"
    requires e.second == "24.792"
    ensures e.Timestamp() == "10-03-2021 08:48:24.792 +1000"
  {
  }

  lemma WholeStampText(e: E.Envelope)
    requires e.date == "10-03-2021" && e.hour == "08" && e.minute == "48" && e.zone == "+1000"
    requires e.second == "24"
    ensures e.Timestamp() == "10-03-2021 08:48:24 +1000"
  {
  }

  lemma MidText(e: E.Envelope)
    requires e.level == "ERROR" && e.component == "HttpInputDataHandler"
    ensures " " + e.level + " " + e.component + " " == " ERROR HttpInputDataHandler "
  {
  }

  lemma LineRender()
    ensures E.Render(LineParts()) == Line
  {
    StampText(Groups());
    MidText(Groups());
    RenderSpaced(Groups(), "10-03-2021 08:48:24.792 +1000", " ERROR HttpInputDataHandler ");
  }

  /** The pattern splits the example line into its eight groups. */
  lemma LineMatch()
    ensures E.Match(Line) == Some(Groups())
  {
    LinePartsWellFormed();
    LineRender();
    E.ScanComplete(LineParts());
  }

  // ---- the timestamp

  function LineTime(): T.DateTime {
    T.DateTime(2021, 10, 3, 8, 48, 24, 792000, 10 * 60 * T.MicrosPerMinute)
  }

  lemma NumberTwo(a: char, b: char)
    requires IsDigit(a) && IsDigit(b)
    ensures Number([a, b]) == DigitValue(a) * 10 + DigitValue(b)
  {
    NumberSnoc([], a);
    assert [] + [a] == [a];
    NumberSnoc([a], b);
    assert [a] + [b] == [a, b];
  }

  lemma NumberThree(a: char, b: char, c: char)
    requires IsDigit(a) && IsDigit(b) && IsDigit(c)
    ensures Number([a, b, c]) == (DigitValue(a) * 10 + DigitValue(b)) * 10 + DigitValue(c)
  {
    assert [a, b, c][..2] == [a, b];
    NumberTwo(a, b);
  }

  lemma NumberFour(a: char, b: char, c: char, d: char)
    requires IsDigit(a) && IsDigit(b) && IsDigit(c) && IsDigit(d)
    ensures Number([a, b, c, d]) == ((DigitValue(a) * 10 + DigitValue(b)) * 10 + DigitValue(c)) * 10 + DigitValue(d)
  {
    assert [a, b, c, d][..3] == [a, b, c];
    NumberThree(a, b, c);
  }

  lemma DateTokens()
    ensures E.Token("10-03-2021", Digit, '-') == Some(("10", "03-2021"))
    ensures E.Token("03-2021", Digit, '-') == Some(("03", "2021"))
  {
    E.TokenOf("10", '-', "03-2021", Digit);
    assert "10" + (['-'] + "03-2021") == "10-03-2021";
    E.TokenOf("03", '-', "2021", Digit);
    assert "03" + (['-'] + "2021") == "03-2021";
  }

  lemma DateNumbers()
    ensures T.Small("10", 1, 12) == Some(10) && T.Small("03", 1, 31) == Some(3)
    ensures |"2021"| == 4 && AllIn("2021", Digit) && Number("2021") == 2021
  {
    NumberTwo('1', '0');
    NumberTwo('0', '3');
    NumberFour('2', '0', '2', '1');
  }

  /** `ParseDate` from the results of its steps. */
  lemma ParseDateOf(date: string, m: string, rest: string, d: string, y: string, month: nat, day: nat)
    requires E.Token(date, Digit, '-') == Some((m, rest)) && T.Small(m, 1, 12) == Some(month)
    requires E.Token(rest, Digit, '-') == Some((d, y)) && T.Small(d, 1, 31) == Some(day)
    requires |y| == 4 && AllIn(y, Digit)
    ensures T.ParseDate(date) == Some((Number(y), month, day))
  {
  }

  lemma DateOfLine()
    ensures T.ParseDate("10-03-2021") == Some((2021, 10, 3))
  {
    DateTokens();
    DateNumbers();
    ParseDateOf("10-03-2021", "10", "03-2021", "03", "2021", 10, 3);
  }

  lemma SecondOfLine()
    ensures E.Token("24.792", Digit, '.') == Some(("24", "792"))
    ensures T.Small("24", 0, 61) == Some(24)
    ensures T.Fraction("792") == Some(792000)
  {
    E.TokenOf("24", '.', "792", Digit);
    assert "24" + (['.'] + "792") == "24.792";
    NumberTwo('2', '4');
    NumberThree('7', '9', '2');
  }

  lemma ZoneOfLine()
    ensures T.ParseZone("+1000") == Some(10 * 60 * T.MicrosPerMinute)
  {
    var z := "+1000";
    assert z[3..] == "00" && z[1..3] == "10" && "00"[2..] == [];
    NumberTwo('1', '0');
    NumberTwo('0', '0');
    var m := z[3..];
    assert m == "00" && m[..2] == "00" && m[2..] == [];
    assert T.SixtyAt(m);
    assert T.ZoneSeconds(m[2..], false) == Some((0, 0));
    assert T.ScanZone(z) == Some(T.ZoneFields(1, 10, 0, 0, 0));
  }

  /** `10-03-2021 08:48:24.792 +1000` is 3 October 2021, 08:48:24.792, ten
      hours east of UTC. */
  lemma TimeOfLine()
    ensures T.Parse(Groups()) == Some(LineTime())
  {
    TimeOf(Groups());
  }

  lemma TimeOf(e: E.Envelope)
    requires e.date == "10-03-2021" && e.hour == "08" && e.minute == "48"
    requires e.second == "24.792" && e.zone == "+1000"
    ensures T.Parse(e) == Some(LineTime())
  {
    DateOfLine();
    SecondOfLine();
    ZoneOfLine();
    ClockOfLine();
    ParseOf(e, 2021, 10, 3, 8, 48, "24", "792", 24, 792000, 10 * 60 * T.MicrosPerMinute);
  }

  lemma ClockOfLine()
    ensures T.Small("08", 0, 23) == Some(8) && T.Small("48", 0, 59) == Some(48)
  {
    NumberTwo('0', '8');
    NumberTwo('4', '8');
  }

  /** `Parse` from the results of its steps. */
  lemma ParseOf(e: E.Envelope, year: int, month: int, day: int, hour: nat, minute: nat,
                s: string, f: string, second: nat, micro: nat, offset: int)
    requires T.ParseDate(e.date) == Some((year, month, day))
    requires T.Small(e.hour, 0, 23) == Some(hour) && T.Small(e.minute, 0, 59) == Some(minute)
    requires E.Token(e.second, Digit, '.') == Some((s, f))
    requires T.Small(s, 0, 61) == Some(second) && T.Fraction(f) == Some(micro)
    requires T.ParseZone(e.zone) == Some(offset)
    requires year >= 1 && day <= T.DaysInMonth(year, month) && second <= 59
    ensures T.Parse(e) == Some(T.DateTime(year, month, day, hour, minute, second, micro, offset))
  {
  }

  /** The same moment is 2021-10-02 22:48:24.792 UTC. */
  lemma InstantOfLine()
    ensures T.Valid(LineTime()) && T.Instant(LineTime()) == 1633214904792000
  {
    assert T.DaysBeforeYear(2021) == 737790;
    assert T.Ordinal(2021, 10, 3) - T.EpochOrdinal == 18903;
  }

  /** The same line with the seconds written without a fraction. */
  const WholeSecondsLine := "10-03-2021 08:48:24 +1000" + " ERROR HttpInputDataHandler " + Event

  function WholeSecondsGroups(): E.Envelope {
    E.Envelope("10-03-2021", "08", "48", "24", "+1000", "ERROR", "HttpInputDataHandler", Event)
  }

  function WholeSecondsParts(): E.Parts {
    E.Parts(WholeSecondsGroups(), " ", " ", "")
  }

  lemma WholeSecondsWellFormed()
    ensures E.WellFormed(WholeSecondsParts())
  {
    EventOneLine();
    HeaderWellFormed(WholeSecondsGroups());
  }

  lemma WholeSecondsRender()
    ensures E.Render(WholeSecondsParts()) == WholeSecondsLine
  {
    WholeStampText(WholeSecondsGroups());
    MidText(WholeSecondsGroups());
    RenderSpaced(WholeSecondsGroups(), "10-03-2021 08:48:24 +1000", " ERROR HttpInputDataHandler ");
  }

  lemma WholeSecondsMatch()
    ensures E.Match(WholeSecondsLine) == Some(WholeSecondsGroups())
  {
    WholeSecondsWellFormed();
    WholeSecondsRender();
    E.ScanComplete(WholeSecondsParts());
  }

  lemma NoFraction()
    ensures E.Token("24", Digit, '.') == None
  {
    assert Span("24", Digit) == 2 by {
      assert "24"[1..] == "4" && "4"[1..] == [];
    }
  }

  /** `%S.%f` needs the dot: strptime rejects `24`. */
  lemma WholeSecondsRejected()
    ensures T.Parse(WholeSecondsGroups()) == None
  {
    NoFraction();
    T.NeedsFraction(WholeSecondsGroups());
  }
}
