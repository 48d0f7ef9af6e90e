/**
 * The `cli` of the packaged splunkd.log filter: each line is matched
 * against the envelope, filtered by component, has its timestamp parsed
 * (a failure there is not caught and ends the run), is checked against the
 * window `[now - mins, now - ignore_mins]`, and is kept when its event has
 * at least one key=value pair.
 */
module LogHandler {
  import opened Wrappers
  import opened LogFilter
  import E = Envelope
  import T = Timestamp
  import KvPairs

  /** The click options the loop reads; `component` is `None` when the
      option is not given. */
  datatype Options = Options(mins: int, ignoreMins: int, component: Option<string>, count: bool, json: bool)

  /** `min_time` and `max_time`, for one reading `now` of the clock (in
      microseconds since the epoch). */
  function WindowFor(now: int, mins: int, ignoreMins: int): (w: Window)
    ensures forall t :: InWindow(w, t) <==>
      now - mins * T.MicrosPerMinute <= t <= now - ignoreMins * T.MicrosPerMinute
  {
    Window(now - mins * T.MicrosPerMinute, Some(now - ignoreMins * T.MicrosPerMinute))
  }

  /** The conditions under which a line yields record `r`. */
  predicate Keeps(opts: Options, w: Window, line: string, r: Record) {
    && E.Match(line) == Some(r.envelope)
    && ComponentPasses(opts.component, r.envelope.component)
    && T.Parse(r.envelope).Some?
    && InWindow(w, T.Instant(T.Parse(r.envelope).value))
    && r.eventParsed == KvPairs.Parse(r.envelope.event)
    && r.eventParsed != map[]
  }

  /** The line would be kept (some record satisfies `Keeps`). */
  predicate Keepable(opts: Options, w: Window, line: string) {
    && E.Match(line).Some?
    && ComponentPasses(opts.component, E.Match(line).value.component)
    && T.Parse(E.Match(line).value).Some?
    && InWindow(w, T.Instant(T.Parse(E.Match(line).value).value))
    && KvPairs.Parse(E.Match(line).value.event) != map[]
  }

  /** The line makes `strptime` raise. */
  predicate Aborts(opts: Options, line: string) {
    && E.Match(line).Some?
    && ComponentPasses(opts.component, E.Match(line).value.component)
    && T.Parse(E.Match(line).value).None?
  }

  /** The body of the loop for one line. */
  function Classify(opts: Options, w: Window, line: string): (v: Verdict)
    ensures v == Skipped(NoMatch) <==> E.Match(line).None?
    ensures v.Aborted? <==> Aborts(opts, line)
    ensures v.Kept? <==> Keepable(opts, w, line)
    ensures v.Kept? ==> Keeps(opts, w, line, v.record)
  {
    match E.Match(line)
    case None => Skipped(NoMatch)
    case Some(e) =>
      if !ComponentPasses(opts.component, e.component) then Skipped(OtherComponent)
      else
        match T.Parse(e)
        case None => Aborted
        case Some(dt) =>
          if !InWindow(w, T.Instant(dt)) then Skipped(OutsideWindow)
          else
            var kv := KvPairs.Parse(e.event);
            if kv == map[] then Skipped(NoPairs) else Kept(Record(e, kv))
  }

  function Classifier(opts: Options, w: Window): string -> Verdict {
    line => Classify(opts, w, line)
  }

  /** The verdict on each line, in input order. */
  function Judge(opts: Options, w: Window, lines: seq<string>): (vs: seq<Verdict>)
    ensures |vs| == |lines| && forall i :: 0 <= i < |lines| ==> vs[i] == Classify(opts, w, lines[i])
  {
    Map(Classifier(opts, w), lines)
  }

  /** `result_events`, or the index of the line whose timestamp raised. */
  function Records(opts: Options, now: int, lines: seq<string>): Result<seq<Record>, nat> {
    Collect(Judge(opts, WindowFor(now, opts.mins, opts.ignoreMins), lines))
  }

  /** What the run prints, or the index of the line that ended it. */
  function Run(opts: Options, now: int, lines: seq<string>): Result<Output, nat> {
    match Records(opts, now, lines)
    case Failure(i) => Failure(i)
    case Success(rs) => Success(Shape(opts.count, opts.json, rs))
  }

  /** `idx` lists, in increasing order, exactly the lines that are kept,
      and `rs` holds the record each one yields. */
  ghost predicate Selects(opts: Options, w: Window, lines: seq<string>, idx: seq<nat>, rs: seq<Record>) {
    && |idx| == |rs|
    && (forall k :: 0 <= k < |idx| ==> idx[k] < |lines| && Keeps(opts, w, lines[idx[k]], rs[k]))
    && (forall k1, k2 :: 0 <= k1 < k2 < |idx| ==> idx[k1] < idx[k2])
    && (forall i :: 0 <= i < |lines| && Keepable(opts, w, lines[i]) ==> i in idx)
  }

  /** The run stops at the first line whose timestamp cannot be parsed, and
      only there; otherwise it keeps exactly the lines that pass every
      check, in input order, each with its non-empty `event_parsed`. */
  lemma RecordsSpec(opts: Options, now: int, lines: seq<string>)
    ensures var r := Records(opts, now, lines);
      && (r.Success? <==> forall j :: 0 <= j < |lines| ==> !Aborts(opts, lines[j]))
      && (r.Failure? ==> r.error < |lines| && Aborts(opts, lines[r.error])
                         && forall j :: 0 <= j < r.error ==> !Aborts(opts, lines[j]))
      && (r.Success? ==> exists idx :: Selects(opts, WindowFor(now, opts.mins, opts.ignoreMins), lines, idx, r.value))
  {
    var w := WindowFor(now, opts.mins, opts.ignoreMins);
    var vs := Judge(opts, w, lines);
    if Collect(vs).Success? {
      CollectPicks(vs, Collect(vs).value);
      var idx :| Picks(vs, idx, Collect(vs).value);
      assert Selects(opts, w, lines, idx, Collect(vs).value);
    }
  }

  /** With `--ignore_mins` above `--mins` no instant is in the window. */
  lemma WindowEmpty(now: int, mins: int, ignoreMins: int)
    requires ignoreMins > mins
    ensures forall t :: !InWindow(WindowFor(now, mins, ignoreMins), t)
  {
    assert mins * T.MicrosPerMinute < ignoreMins * T.MicrosPerMinute;
  }

  /** With `--ignore_mins` above `--mins` a run that does not stop keeps
      nothing. */
  lemma IgnoreBeyondWindow(opts: Options, now: int, lines: seq<string>)
    requires opts.ignoreMins > opts.mins
    ensures Records(opts, now, lines).Success? ==> Records(opts, now, lines).value == []
  {
    WindowEmpty(now, opts.mins, opts.ignoreMins);
    CollectNothingKept(Judge(opts, WindowFor(now, opts.mins, opts.ignoreMins), lines));
  }

  /** One more line of input: the loop's state after it. */
  lemma RecordsStep(opts: Options, w: Window, lines: seq<string>, i: nat)
    requires i < |lines|
    ensures Collect(Judge(opts, w, lines[..i + 1])) ==
      match Collect(Judge(opts, w, lines[..i]))
      case Failure(j) => Failure(j)
      case Success(ra) =>
        match Classify(opts, w, lines[i])
        case Aborted => Failure(i)
        case Skipped(_) => Success(ra)
        case Kept(rec) => Success(ra + [rec])
  {
    assert lines[..i + 1] == lines[..i] + [lines[i]];
    JudgeAppend(opts, w, lines[..i], [lines[i]]);
    var a := Judge(opts, w, lines[..i]);
    var v := Classify(opts, w, lines[i]);
    assert Judge(opts, w, [lines[i]]) == [v];
    CollectSnoc(a, v);
  }

  /** A failure in a prefix is the failure of the whole input. */
  lemma RecordsPrefixFails(opts: Options, w: Window, lines: seq<string>, n: nat)
    requires n <= |lines| && Collect(Judge(opts, w, lines[..n])).Failure?
    ensures Collect(Judge(opts, w, lines)) == Collect(Judge(opts, w, lines[..n]))
  {
    var a, b := Judge(opts, w, lines[..n]), Judge(opts, w, lines[n..]);
    assert lines == lines[..n] + lines[n..];
    JudgeAppend(opts, w, lines[..n], lines[n..]);
    assert Judge(opts, w, lines) == a + b;
    CollectPrefixFails(a, b);
  }

  /** The loop as the program runs it, one line at a time, accumulating
      `result_events`. */
  method Filter(opts: Options, now: int, lines: seq<string>) returns (r: Result<Output, nat>)
    ensures r == Run(opts, now, lines)
  {
    var w := WindowFor(now, opts.mins, opts.ignoreMins);
    var kept: seq<Record> := [];
    var i := 0;
    while i < |lines|
      invariant 0 <= i <= |lines|
      invariant Collect(Judge(opts, w, lines[..i])) == Success(kept)
    {
      var v := Classify(opts, w, lines[i]);
      RecordsStep(opts, w, lines, i);
      if v.Aborted? {
        RecordsPrefixFails(opts, w, lines, i + 1);
        return Failure(i);
      }
      if v.Kept? {
        kept := kept + [v.record];
      }
      i := i + 1;
    }
    assert lines[..i] == lines;
    r := Success(Shape(opts.count, opts.json, kept));
  }

  lemma JudgeAppend(opts: Options, w: Window, a: seq<string>, b: seq<string>)
    ensures Judge(opts, w, a + b) == Judge(opts, w, a) + Judge(opts, w, b)
  {
    MapAppend(Classifier(opts, w), a, b);
  }
}
