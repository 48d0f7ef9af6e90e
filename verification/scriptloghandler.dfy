/**
 * The older stand-alone splunkd.log filter. It shares the envelope and the
 * key=value tokenizer with the packaged one, but skips a line with an empty
 * event before parsing its timestamp, and has only the lower bound
 * `now - mins`.
 */
module ScriptLogHandler {
  import opened Wrappers
  import opened LogFilter
  import E = Envelope
  import T = Timestamp
  import KvPairs
  import Package = LogHandler

  datatype Options = Options(mins: int, component: Option<string>, count: bool, json: bool)

  /** `min_time`, for one reading `now` of the clock. */
  function Since(now: int, mins: int): (w: Window)
    ensures forall t :: InWindow(w, t) <==> now - mins * T.MicrosPerMinute <= t
  {
    Window(now - mins * T.MicrosPerMinute, None)
  }

  /** The line makes `strptime` raise. */
  predicate Aborts(opts: Options, line: string) {
    && E.Match(line).Some?
    && ComponentPasses(opts.component, E.Match(line).value.component)
    && E.Match(line).value.event != []
    && T.Parse(E.Match(line).value).None?
  }

  /** The conditions under which a line yields record `r`. */
  predicate Keeps(opts: Options, w: Window, line: string, r: Record) {
    && E.Match(line) == Some(r.envelope)
    && ComponentPasses(opts.component, r.envelope.component)
    && r.envelope.event != []
    && T.Parse(r.envelope).Some?
    && InWindow(w, T.Instant(T.Parse(r.envelope).value))
    && r.eventParsed == KvPairs.Parse(r.envelope.event)
    && r.eventParsed != map[]
  }

  predicate Keepable(opts: Options, w: Window, line: string) {
    && E.Match(line).Some?
    && ComponentPasses(opts.component, E.Match(line).value.component)
    && E.Match(line).value.event != []
    && T.Parse(E.Match(line).value).Some?
    && InWindow(w, T.Instant(T.Parse(E.Match(line).value).value))
    && KvPairs.Parse(E.Match(line).value.event) != map[]
  }

  /** The body of the loop for one line. */
  function Classify(opts: Options, w: Window, line: string): (v: Verdict)
    ensures v == Skipped(NoMatch) <==> E.Match(line).None?
    ensures v == Skipped(NoEvent) ==> E.Match(line).Some? && E.Match(line).value.event == []
    ensures v.Aborted? <==> Aborts(opts, line)
    ensures v.Kept? <==> Keepable(opts, w, line)
    ensures v.Kept? ==> Keeps(opts, w, line, v.record)
  {
    match E.Match(line)
    case None => Skipped(NoMatch)
    case Some(e) =>
      if !ComponentPasses(opts.component, e.component) then Skipped(OtherComponent)
      else if e.event == [] then Skipped(NoEvent)
      else
        match T.Parse(e)
        case None => Aborted
        case Some(dt) =>
          if !InWindow(w, T.Instant(dt)) then Skipped(OutsideWindow)
          else
            var kv := KvPairs.Parse(e.event);
            if kv == map[] then Skipped(NoPairs) else Kept(Record(e, kv))
  }

  function Classifier(opts: Options, w: Window): string -> Verdict {
    line => Classify(opts, w, line)
  }

  /** The verdict on each line, in input order. */
  function Judge(opts: Options, w: Window, lines: seq<string>): (vs: seq<Verdict>)
    ensures |vs| == |lines| && forall i :: 0 <= i < |lines| ==> vs[i] == Classify(opts, w, lines[i])
  {
    Map(Classifier(opts, w), lines)
  }

  const FailedToParse := "Failed to parse line: "
  const ComponentSkip := "component skip "

  /** What the loop prints to stdout for one line: a line the pattern does
      not match is always reported, and under `--debug` so is a line of
      another component. Its other diagnostics go to stderr. */
  function Notice(debug: bool, v: Verdict, line: string): seq<string> {
    if v == Skipped(NoMatch) then [FailedToParse + line]
    else if debug && v == Skipped(OtherComponent) then [ComponentSkip + line]
    else []
  }

  /** Everything the loop prints to stdout before the final output, for
      the verdicts `vs` on `lines`, up to the line whose timestamp raises. */
  function Notices(debug: bool, vs: seq<Verdict>, lines: seq<string>): (r: seq<string>)
    requires |vs| == |lines|
    ensures |r| <= |lines|
  {
    if vs == [] then []
    else if vs[0].Aborted? then []
    else Notice(debug, vs[0], lines[0]) + Notices(debug, vs[1..], lines[1..])
  }

  /** A verdict before `i` stops the loop. */
  predicate StoppedBefore(vs: seq<Verdict>, i: nat) {
    exists j :: 0 <= j < i && j < |vs| && vs[j].Aborted?
  }

  /** Without `--debug` nothing is printed before the final output exactly
      when every unmatched line comes after the loop stopped. */
  lemma {:induction false} QuietIffVerdicts(vs: seq<Verdict>, lines: seq<string>)
    requires |vs| == |lines|
    ensures Notices(false, vs, lines) == [] <==>
      forall i :: 0 <= i < |vs| && vs[i] == Skipped(NoMatch) ==> StoppedBefore(vs, i)
  {
    if vs != [] {
      var rest := vs[1..];
      if vs[0].Aborted? {
        forall i | 0 <= i < |vs| && vs[i] == Skipped(NoMatch)
          ensures StoppedBefore(vs, i)
        {
          assert i != 0;
        }
      } else {
        QuietIffVerdicts(rest, lines[1..]);
        if Notices(false, vs, lines) == [] {
          assert Notice(false, vs[0], lines[0]) == [] && Notices(false, rest, lines[1..]) == [];
          forall i | 0 <= i < |vs| && vs[i] == Skipped(NoMatch)
            ensures StoppedBefore(vs, i)
          {
            assert i != 0;
            assert rest[i - 1] == vs[i];
            var j :| 0 <= j < i - 1 && j < |rest| && rest[j].Aborted?;
            assert rest[j] == vs[j + 1];
          }
        } else if Notice(false, vs[0], lines[0]) != [] {
          assert vs[0] == Skipped(NoMatch) && !StoppedBefore(vs, 0);
        } else {
          var i :| 0 <= i < |rest| && rest[i] == Skipped(NoMatch) && !StoppedBefore(rest, i);
          assert rest[i] == vs[i + 1];
          forall j | 0 < j < i + 1
            ensures !vs[j].Aborted?
          {
            assert rest[j - 1] == vs[j];
          }
        }
      }
    }
  }

  /** The script's stdout before its final output, for one reading `now`
      of the clock. */
  function Stdout(opts: Options, debug: bool, now: int, lines: seq<string>): seq<string> {
    Notices(debug, Judge(opts, Since(now, opts.mins), lines), lines)
  }

  /** Without `--debug`, the script prints nothing but its final output
      (the bare count under `--count`) exactly when every line it reads
      before any that raises matches the pattern. */
  lemma QuietIff(opts: Options, now: int, lines: seq<string>)
    ensures Stdout(opts, false, now, lines) == [] <==>
      forall i :: 0 <= i < |lines| && E.Match(lines[i]).None? ==>
        exists j :: 0 <= j < i && Aborts(opts, lines[j])
  {
    var vs := Judge(opts, Since(now, opts.mins), lines);
    QuietIffVerdicts(vs, lines);
    assert forall i :: 0 <= i < |lines| ==> (vs[i] == Skipped(NoMatch) <==> E.Match(lines[i]).None?);
    assert forall i :: 0 <= i < |lines| ==> (vs[i].Aborted? <==> Aborts(opts, lines[i]));
  }

  function Records(opts: Options, now: int, lines: seq<string>): Result<seq<Record>, nat> {
    Collect(Judge(opts, Since(now, opts.mins), lines))
  }

  function Run(opts: Options, now: int, lines: seq<string>): Result<Output, nat> {
    match Records(opts, now, lines)
    case Failure(i) => Failure(i)
    case Success(rs) => Success(Shape(opts.count, opts.json, rs))
  }

  ghost predicate Selects(opts: Options, w: Window, lines: seq<string>, idx: seq<nat>, rs: seq<Record>) {
    && |idx| == |rs|
    && (forall k :: 0 <= k < |idx| ==> idx[k] < |lines| && Keeps(opts, w, lines[idx[k]], rs[k]))
    && (forall k1, k2 :: 0 <= k1 < k2 < |idx| ==> idx[k1] < idx[k2])
    && (forall i :: 0 <= i < |lines| && Keepable(opts, w, lines[i]) ==> i in idx)
  }

  /** The run stops at the first line with a non-empty event whose
      timestamp cannot be parsed; otherwise it keeps exactly the lines that
      pass every check, in input order. */
  lemma RecordsSpec(opts: Options, now: int, lines: seq<string>)
    ensures var r := Records(opts, now, lines);
      && (r.Success? <==> forall j :: 0 <= j < |lines| ==> !Aborts(opts, lines[j]))
      && (r.Failure? ==> r.error < |lines| && Aborts(opts, lines[r.error])
                         && forall j :: 0 <= j < r.error ==> !Aborts(opts, lines[j]))
      && (r.Success? ==> exists idx :: Selects(opts, Since(now, opts.mins), lines, idx, r.value))
  {
    var w := Since(now, opts.mins);
    var vs := Judge(opts, w, lines);
    if Collect(vs).Success? {
      CollectPicks(vs, Collect(vs).value);
      var idx :| Picks(vs, idx, Collect(vs).value);
      assert Selects(opts, w, lines, idx, Collect(vs).value);
    }
  }

  /** The same options for the packaged filter, with `--ignore_mins`. */
  function AsPackage(opts: Options, ignoreMins: int): Package.Options {
    Package.Options(opts.mins, ignoreMins, opts.component, opts.count, opts.json)
  }

  /** No parseable timestamp of a matched line lies after `upper`. */
  predicate NotAfter(line: string, upper: int) {
    E.Match(line).Some? && T.Parse(E.Match(line).value).Some? ==>
      T.Instant(T.Parse(E.Match(line).value).value) <= upper
  }

  /** On one line, the packaged filter keeps what this one keeps and stops
      where this one stops. */
  lemma ClassifyRefines(opts: Options, now: int, ignoreMins: int, line: string)
    requires NotAfter(line, now - ignoreMins * T.MicrosPerMinute)
    ensures Refines(Classify(opts, Since(now, opts.mins), line),
                    Package.Classify(AsPackage(opts, ignoreMins), Package.WindowFor(now, opts.mins, ignoreMins), line))
  {
    var m := E.Match(line);
    if m.Some? && m.value.event == [] {
      assert !KvPairs.HasKeyOccurrence(m.value.event);
      KvPairs.ParseEmptyIff(m.value.event);
    }
  }

  /** Without timestamps after `now - ignore_mins`, the two filters keep the
      same records whenever both finish, and the packaged one finishes only
      if this one does. */
  lemma AgreesWithPackage(opts: Options, now: int, ignoreMins: int, lines: seq<string>)
    requires forall i :: 0 <= i < |lines| ==> NotAfter(lines[i], now - ignoreMins * T.MicrosPerMinute)
    ensures Records(opts, now, lines).Failure? ==> Package.Records(AsPackage(opts, ignoreMins), now, lines).Failure?
    ensures Records(opts, now, lines).Success? && Package.Records(AsPackage(opts, ignoreMins), now, lines).Success? ==>
      Records(opts, now, lines) == Package.Records(AsPackage(opts, ignoreMins), now, lines)
  {
    var popts := AsPackage(opts, ignoreMins);
    var vs := Judge(opts, Since(now, opts.mins), lines);
    var us := Package.Judge(popts, Package.WindowFor(now, opts.mins, ignoreMins), lines);
    forall i | 0 <= i < |lines|
      ensures Refines(vs[i], us[i])
    {
      ClassifyRefines(opts, now, ignoreMins, lines[i]);
    }
    CollectRefines(vs, us);
  }
}
