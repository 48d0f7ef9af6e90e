/**
 * The two filters run on the example line: the packaged one counts it when
 * it lies in the window, the older script also counts a line stamped in the
 * future (it has no upper bound), and a line whose seconds have no fraction
 * ends both runs.
 */
module ExampleRun {
  import opened Wrappers
  import opened LogFilter
  import E = Envelope
  import T = Timestamp
  import KvPairs
  import X = ExampleLine
  import Package = LogHandler
  import Script = ScriptLogHandler

  /** When the example line was written, in microseconds since the epoch. */
  const Written := 1633214904792000

  function LineRecord(): Record {
    Record(X.Groups(), KvPairs.Parse(X.Event))
  }

  lemma LineFacts()
    ensures E.Match(X.Line) == Some(X.Groups())
    ensures T.Parse(X.Groups()) == Some(X.LineTime())
    ensures T.Instant(X.LineTime()) == Written
    ensures KvPairs.Parse(X.Event) != map[]
  {
    X.LineMatch();
    X.TimeOfLine();
    X.InstantOfLine();
    X.EventValues();
  }

  /** The facts each driver reads off a matched line. */
  predicate Facts(line: string, e: E.Envelope, t: int) {
    && E.Match(line) == Some(e)
    && T.Parse(e).Some? && T.Instant(T.Parse(e).value) == t
    && e.event != []
    && KvPairs.Parse(e.event) != map[]
  }

  lemma LineHasFacts()
    ensures Facts(X.Line, X.Groups(), Written)
  {
    LineFacts();
  }

  lemma PackageKeeps(opts: Package.Options, w: Window, line: string, e: E.Envelope, t: int)
    requires Facts(line, e, t) && ComponentPasses(opts.component, e.component)
    requires InWindow(w, t)
    ensures Package.Classify(opts, w, line) == Kept(Record(e, KvPairs.Parse(e.event)))
  {
  }

  lemma PackageSkips(opts: Package.Options, w: Window, line: string, e: E.Envelope, t: int)
    requires Facts(line, e, t) && ComponentPasses(opts.component, e.component)
    requires !InWindow(w, t)
    ensures Package.Classify(opts, w, line) == Skipped(OutsideWindow)
  {
  }

  lemma ScriptKeeps(opts: Script.Options, w: Window, line: string, e: E.Envelope, t: int)
    requires Facts(line, e, t) && ComponentPasses(opts.component, e.component)
    requires InWindow(w, t)
    ensures Script.Classify(opts, w, line) == Kept(Record(e, KvPairs.Parse(e.event)))
  {
  }

  lemma PackageRunOne(opts: Package.Options, now: int, line: string)
    ensures var v := Package.Classify(opts, Package.WindowFor(now, opts.mins, opts.ignoreMins), line);
      v.Kept? ==> Package.Run(opts, now, [line]) == Success(Shape(opts.count, opts.json, [v.record]))
    ensures var v := Package.Classify(opts, Package.WindowFor(now, opts.mins, opts.ignoreMins), line);
      v.Skipped? ==> Package.Run(opts, now, [line]) == Success(Shape(opts.count, opts.json, []))
  {
    var v := Package.Classify(opts, Package.WindowFor(now, opts.mins, opts.ignoreMins), line);
    CollectOne(v);
  }

  lemma ScriptRunOne(opts: Script.Options, now: int, line: string)
    ensures var v := Script.Classify(opts, Script.Since(now, opts.mins), line);
      v.Kept? ==> Script.Run(opts, now, [line]) == Success(Shape(opts.count, opts.json, [v.record]))
  {
    var v := Script.Classify(opts, Script.Since(now, opts.mins), line);
    CollectOne(v);
  }

  lemma Counts(rs: seq<Record>)
    requires |rs| <= 1
    ensures Shape(true, false, rs) == CountText(if rs == [] then "0" else "1")
  {
    assert Digits.Decimal(|rs|) == [Digits.DigitChar(|rs|)];
  }

  /** `--mins 5 --count --component HttpInputDataHandler`, one minute after
      the line was written: the line is counted. */
  lemma PackageCountsLine()
    ensures Package.Run(Package.Options(5, 0, Some("HttpInputDataHandler"), true, false),
                        Written + T.MicrosPerMinute, [X.Line])
         == Success(CountText("1"))
  {
    var opts := Package.Options(5, 0, Some("HttpInputDataHandler"), true, false);
    var now := Written + T.MicrosPerMinute;
    LineHasFacts();
    PackageKeeps(opts, Package.WindowFor(now, 5, 0), X.Line, X.Groups(), Written);
    PackageRunOne(opts, now, X.Line);
    Counts([LineRecord()]);
  }

  /** A minute before the line's own time the packaged filter passes it over
      (it is after `now - ignore_mins`), while the script counts it. */
  lemma FutureLine()
    ensures Package.Run(Package.Options(5, 0, None, true, false),
                        Written - T.MicrosPerMinute, [X.Line])
         == Success(CountText("0"))
    ensures Script.Run(Script.Options(5, None, true, false),
                       Written - T.MicrosPerMinute, [X.Line])
         == Success(CountText("1"))
  {
    var now := Written - T.MicrosPerMinute;
    LineHasFacts();
    PackageSkips(Package.Options(5, 0, None, true, false), Package.WindowFor(now, 5, 0), X.Line, X.Groups(), Written);
    PackageRunOne(Package.Options(5, 0, None, true, false), now, X.Line);
    ScriptKeeps(Script.Options(5, None, true, false), Script.Since(now, 5), X.Line, X.Groups(), Written);
    ScriptRunOne(Script.Options(5, None, true, false), now, X.Line);
    Counts([]);
    Counts([LineRecord()]);
  }

  /** A line whose seconds have no fraction makes strptime raise, and both
      filters stop there. */
  lemma WholeSecondsAbort()
    ensures Package.Run(Package.Options(5, 0, None, true, false), Written, [X.WholeSecondsLine]) == Failure(0)
    ensures Script.Run(Script.Options(5, None, true, false), Written, [X.WholeSecondsLine]) == Failure(0)
  {
    X.WholeSecondsMatch();
    X.WholeSecondsRejected();
    X.EventOneLine();
    CollectOne(Aborted);
  }
}
