/**
 * The os-release reporters: `/etc/os-release` is read as `KEY=value`
 * lines, turned into a dictionary and posted to the collector, by the
 * packaged command (the dictionary as the event) and by the older script
 * (the dictionary's JSON text as the event).
 */
module OsRelease {
  import opened Wrappers
  import opened Chars
  import opened Text
  import opened Hec
  import opened KvPairs

  /** The list comprehension over `readlines()`: every line stripped, those
      starting with `#` after stripping dropped. */
  function Lines(raw: seq<string>): (ls: seq<string>)
    ensures |ls| <= |raw|
    ensures forall k :: 0 <= k < |ls| ==> !StartsWith(ls[k], "#")
  {
    if raw == [] then [] else Kept(raw[0]) + Lines(raw[1..])
  }

  /** What the comprehension keeps of one line. */
  function Kept(line: string): (ls: seq<string>)
    ensures |ls| <= 1 && forall k :: 0 <= k < |ls| ==> !StartsWith(ls[k], "#")
  {
    var s := Strip(line);
    if StartsWith(s, "#") then [] else [s]
  }

  /** Every line that does not start with `#` once stripped is kept,
      stripped. */
  lemma {:induction false} LinesKeeps(raw: seq<string>)
    ensures forall j :: 0 <= j < |raw| && !StartsWith(Strip(raw[j]), "#") ==> Strip(raw[j]) in Lines(raw)
  {
    if raw != [] {
      LinesKeeps(raw[1..]);
      assert Lines(raw) == Kept(raw[0]) + Lines(raw[1..]);
      forall j | 0 <= j < |raw| && !StartsWith(Strip(raw[j]), "#")
        ensures Strip(raw[j]) in Lines(raw)
      {
        if j == 0 {
          assert Kept(raw[0]) == [Strip(raw[0])];
        } else {
          assert raw[j] == raw[1..][j - 1];
        }
      }
    }
  }

  /** Lines are kept or dropped one by one, in their order in the file. */
  lemma {:induction false} LinesAppend(a: seq<string>, b: seq<string>)
    ensures Lines(a + b) == Lines(a) + Lines(b)
  {
    if a != [] {
      assert (a + b)[0] == a[0];
      assert (a + b)[1..] == a[1..] + b;
      LinesAppend(a[1..], b);
    } else {
      assert a + b == b;
    }
  }

  /** A single line is kept, stripped, exactly when it does not start with
      `#` once stripped. */
  lemma LinesOne(line: string)
    ensures Lines([line]) == if StartsWith(Strip(line), "#") then [] else [Strip(line)]
  {
    assert [line][1..] == [];
    assert Lines([line]) == Kept(line) + [];
  }

  /** `key, value = line.split("=")` with every `"` then removed; `None`
      where the unpacking raises `ValueError`. */
  function Entry(line: string): (r: Option<Pair>)
    ensures r.Some? <==> |Split(line, '=')| == 2
    ensures r.Some? ==> '"' !in r.value.key && '"' !in r.value.value
  {
    var parts := Split(line, '=');
    if |parts| != 2 then None else Some(Pair(Remove(parts[0], '"'), Remove(parts[1], '"')))
  }

  datatype ParseError = NotAPair(line: string) | MissingKeyKey

  /** The loop as written: on a repeated key the diagnostic reads
      `data['key']`, which raises `KeyError` unless a key literally named
      `key` was read before. */
  function BuildAsWritten(data: map<string, string>, lines: seq<string>): Result<map<string, string>, ParseError>
    decreases lines
  {
    if lines == [] then Success(data)
    else
      match Entry(lines[0])
      case None => Failure(NotAPair(lines[0]))
      case Some(p) =>
        if p.key in data && "key" !in data then Failure(MissingKeyKey)
        else BuildAsWritten(data[p.key := p.value], lines[1..])
  }

  /** The loop with the diagnostic reading the repeated key's old value, as
      it evidently intends: a later line overwrites an earlier one. */
  function Build(data: map<string, string>, lines: seq<string>): (r: Result<map<string, string>, ParseError>)
    ensures r.Failure? ==> r.error.NotAPair? && r.error.line in lines && Entry(r.error.line).None?
    decreases lines
  {
    if lines == [] then Success(data)
    else
      match Entry(lines[0])
      case None => Failure(NotAPair(lines[0]))
      case Some(p) =>
        Build(data[p.key := p.value], lines[1..])
  }

  function ParseAsWritten(raw: seq<string>): Result<map<string, string>, ParseError> {
    BuildAsWritten(map[], Lines(raw))
  }

  /** Whenever the loop as written gets through, it agrees with the
      intended loop: the diagnostic only adds a way to fail. */
  lemma {:induction false} BuildAsWrittenRefines(data: map<string, string>, lines: seq<string>)
    ensures BuildAsWritten(data, lines).Success? ==> BuildAsWritten(data, lines) == Build(data, lines)
    decreases lines
  {
    if lines != [] && Entry(lines[0]).Some? {
      var p := Entry(lines[0]).value;
      if !(p.key in data && "key" !in data) {
        BuildAsWrittenRefines(data[p.key := p.value], lines[1..]);
      }
    }
  }

  function Parse(raw: seq<string>): Result<map<string, string>, ParseError> {
    Build(map[], Lines(raw))
  }

  /** Every line yields an entry. */
  predicate AllEntries(lines: seq<string>) {
    forall k :: 0 <= k < |lines| ==> Entry(lines[k]).Some?
  }

  function Entries(lines: seq<string>): (ps: seq<Pair>)
    requires AllEntries(lines)
    ensures |ps| == |lines| && forall k :: 0 <= k < |lines| ==> ps[k] == Entry(lines[k]).value
  {
    if lines == [] then [] else [Entry(lines[0]).value] + Entries(lines[1..])
  }

  lemma ToMapSnoc(ps: seq<Pair>, p: Pair)
    ensures ToMap(ps + [p]) == ToMap(ps)[p.key := p.value]
  {
    assert (ps + [p])[..|ps|] == ps;
  }

  lemma AllEntriesTail(lines: seq<string>)
    requires lines != [] && AllEntries(lines)
    ensures AllEntries(lines[1..])
  {
    forall k | 0 <= k < |lines[1..]|
      ensures Entry(lines[1..][k]).Some?
    {
      assert lines[1..][k] == lines[k + 1];
    }
  }

  lemma BuildStep(data: map<string, string>, lines: seq<string>)
    requires lines != [] && Entry(lines[0]).Some?
    ensures Build(data, lines) == Build(data[Entry(lines[0]).value.key := Entry(lines[0]).value.value], lines[1..])
  {
  }

  lemma EntriesCons(lines: seq<string>)
    requires lines != [] && AllEntries(lines) && AllEntries(lines[1..])
    ensures Entries(lines) == [Entry(lines[0]).value] + Entries(lines[1..])
  {
  }

  /** Pairs inserted into a dict from left to right. */
  function Insert(data: map<string, string>, ps: seq<Pair>): map<string, string>
    decreases ps
  {
    if ps == [] then data else Insert(data[ps[0].key := ps[0].value], ps[1..])
  }

  /** Inserting from left to right agrees with the dict comprehension. */
  lemma {:induction false} InsertToMap(qs: seq<Pair>, ps: seq<Pair>)
    ensures Insert(ToMap(qs), ps) == ToMap(qs + ps)
    decreases ps
  {
    if ps == [] {
      assert qs + [] == qs;
    } else {
      ToMapSnoc(qs, ps[0]);
      InsertToMap(qs + [ps[0]], ps[1..]);
      assert qs + [ps[0]] + ps[1..] == qs + ps;
    }
  }

  /** The loop over lines that all yield entries inserts those entries. */
  lemma {:induction false} BuildInsert(data: map<string, string>, lines: seq<string>)
    requires AllEntries(lines)
    ensures Build(data, lines) == Success(Insert(data, Entries(lines)))
    decreases lines
  {
    if lines != [] {
      var p := Entry(lines[0]).value;
      AllEntriesTail(lines);
      EntriesCons(lines);
      BuildStep(data, lines);
      BuildInsert(data[p.key := p.value], lines[1..]);
    }
  }

  /** The loop over lines that all yield entries ends in the dict of
      those entries inserted in order. */
  lemma BuildEntries(lines: seq<string>)
    requires AllEntries(lines)
    ensures Build(map[], lines) == Success(ToMap(Entries(lines)))
  {
    BuildInsert(map[], lines);
    InsertToMap([], Entries(lines));
    assert [] + Entries(lines) == Entries(lines);
  }

  /** The loop finishes exactly when every line yields an entry. */
  lemma {:induction false} BuildSucceedsIff(data: map<string, string>, lines: seq<string>)
    ensures Build(data, lines).Success? <==> AllEntries(lines)
    decreases lines
  {
    if lines != [] && Entry(lines[0]).Some? {
      var p := Entry(lines[0]).value;
      BuildSucceedsIff(data[p.key := p.value], lines[1..]);
      if AllEntries(lines[1..]) {
        assert forall k :: 0 < k < |lines| ==> lines[k] == lines[1..][k - 1];
      } else {
        var k :| 0 <= k < |lines[1..]| && Entry(lines[1..][k]).None?;
        assert lines[1..][k] == lines[k + 1];
      }
    }
  }

  /** Parsing succeeds exactly when every kept line splits into one key and
      one value; the dict then holds each key with its last value. */
  lemma ParseSpec(raw: seq<string>)
    ensures Parse(raw).Success? <==> AllEntries(Lines(raw))
    ensures Parse(raw).Success? ==> Parse(raw).value == ToMap(Entries(Lines(raw)))
  {
    BuildSucceedsIff(map[], Lines(raw));
    if AllEntries(Lines(raw)) {
      BuildEntries(Lines(raw));
    }
  }

  /** A key/value pair as an os-release line writes it: `KEY="value"`. */
  predicate WellFormedPair(p: Pair) {
    && p.key != [] && !IsSpace(p.key[0]) && p.key[0] != '#'
    && '=' !in p.key && '"' !in p.key
    && '=' !in p.value && '"' !in p.value
  }

  function RenderLine(p: Pair): string {
    p.key + "=\"" + p.value + "\""
  }

  function Render(ps: seq<Pair>): (raw: seq<string>)
    ensures |raw| == |ps| && forall k :: 0 <= k < |ps| ==> raw[k] == RenderLine(ps[k])
  {
    if ps == [] then [] else [RenderLine(ps[0])] + Render(ps[1..])
  }

  lemma RenderedTrimmed(p: Pair)
    requires WellFormedPair(p)
    ensures Strip(RenderLine(p)) == RenderLine(p) && !StartsWith(RenderLine(p), "#")
  {
    var line := RenderLine(p);
    assert line[0] == p.key[0] && line[|line| - 1] == '"';
    assert line[..1] == [p.key[0]];
    StripTrimmed(line);
  }

  lemma EntryOfRendered(p: Pair)
    requires WellFormedPair(p)
    ensures Strip(RenderLine(p)) == RenderLine(p) && !StartsWith(RenderLine(p), "#")
    ensures Entry(RenderLine(p)) == Some(p)
  {
    RenderedTrimmed(p);
    var line := RenderLine(p);
    var v := "\"" + p.value + "\"";
    assert line == p.key + "=" + v;
    assert '=' !in v;
    SplitJoin([p.key, v], '=');
    assert Join([p.key, v], '=') == line;
    RemoveQuotesAround(p.value);
  }

  lemma RemoveQuotesAround(s: string)
    requires '"' !in s
    ensures Remove("\"" + s + "\"", '"') == s
  {
    var t := "\"" + s + "\"";
    assert t[1..] == s + "\"";
    RemoveLast(s);
  }

  lemma {:induction false} RemoveLast(s: string)
    requires '"' !in s
    ensures Remove(s + "\"", '"') == s
  {
    if s != [] {
      assert (s + "\"")[1..] == s[1..] + "\"";
      RemoveLast(s[1..]);
    }
  }

  lemma {:induction false} LinesOfRendered(ps: seq<Pair>)
    requires forall k :: 0 <= k < |ps| ==> WellFormedPair(ps[k])
    ensures Lines(Render(ps)) == Render(ps)
  {
    if ps != [] {
      EntryOfRendered(ps[0]);
      assert Render(ps)[1..] == Render(ps[1..]);
      LinesOfRendered(ps[1..]);
    }
  }

  /** Reading back written `KEY="value"` lines gives the dict of the pairs,
      the last of a repeated key winning. */
  lemma ParseRender(ps: seq<Pair>)
    requires forall k :: 0 <= k < |ps| ==> WellFormedPair(ps[k])
    ensures Parse(Render(ps)) == Success(ToMap(ps))
  {
    LinesOfRendered(ps);
    forall k | 0 <= k < |ps|
      ensures Entry(Render(ps)[k]) == Some(ps[k])
    {
      EntryOfRendered(ps[k]);
    }
    assert Entries(Render(ps)) == ps;
    ParseSpec(Render(ps));
  }

  /** No two entries share a key. */
  predicate DistinctKeys(lines: seq<string>) {
    forall i, j :: 0 <= i < j < |lines| && Entry(lines[i]).Some? && Entry(lines[j]).Some? ==>
      Entry(lines[i]).value.key != Entry(lines[j]).value.key
  }

  /** Without repeated keys the diagnostic never runs, and the loop as
      written gives the intended result. */
  lemma {:induction false} BuildAsWrittenDistinct(data: map<string, string>, lines: seq<string>)
    requires DistinctKeys(lines)
    requires forall k :: 0 <= k < |lines| && Entry(lines[k]).Some? ==> Entry(lines[k]).value.key !in data
    ensures BuildAsWritten(data, lines) == Build(data, lines)
    decreases lines
  {
    if lines != [] && Entry(lines[0]).Some? {
      var p := Entry(lines[0]).value;
      assert DistinctKeys(lines[1..]) by {
        forall i, j | 0 <= i < j < |lines[1..]|
          ensures Entry(lines[1..][i]).Some? && Entry(lines[1..][j]).Some? ==>
            Entry(lines[1..][i]).value.key != Entry(lines[1..][j]).value.key
        {
          assert lines[1..][i] == lines[i + 1] && lines[1..][j] == lines[j + 1];
        }
      }
      forall k | 0 <= k < |lines[1..]| && Entry(lines[1..][k]).Some?
        ensures Entry(lines[1..][k]).value.key !in data[p.key := p.value]
      {
        assert lines[1..][k] == lines[k + 1];
      }
      BuildAsWrittenDistinct(data[p.key := p.value], lines[1..]);
    }
  }

  const DefaultSourcetype := "monitoring:osrelease"

  lemma RepeatRaisesStep(p: Pair, q: Pair)
    requires Entry(RenderLine(q)) == Some(q)
    requires p.key == q.key && p.key != "key"
    ensures BuildAsWritten(map[p.key := p.value], [RenderLine(q)]) == Failure(MissingKeyKey)
  {
  }

  /** As written, two lines with the same key (other than `key`) end the
      parse with `KeyError`, although the loop means to keep the later
      value. */
  lemma AsWrittenRepeatRaises(p: Pair, q: Pair)
    requires WellFormedPair(p) && WellFormedPair(q)
    requires p.key == q.key && p.key != "key"
    ensures ParseAsWritten(Render([p, q])) == Failure(MissingKeyKey)
  {
    var lines := Render([p, q]);
    assert lines == [RenderLine(p), RenderLine(q)];
    LinesOfRendered([p, q]);
    EntryOfRendered(p);
    EntryOfRendered(q);
    RepeatRaisesStep(p, q);
    assert lines[1..] == [RenderLine(q)];
    assert BuildAsWritten(map[], lines) == BuildAsWritten(map[p.key := p.value], lines[1..]);
  }

  lemma ParsePair(p: Pair, q: Pair)
    requires WellFormedPair(p) && WellFormedPair(q)
    ensures Parse(Render([p, q])) == Success(ToMap([p, q]))
  {
    ParseRender([p, q]);
  }

  /** The intended parse keeps the later value of a repeated key. */
  lemma RepeatKeepsLater(p: Pair, q: Pair)
    requires WellFormedPair(p) && WellFormedPair(q)
    requires p.key == q.key
    ensures Parse(Render([p, q])) == Success(map[q.key := q.value])
  {
    ParsePair(p, q);
    ToMapPair(p, q);
    Overwrite(p.key, p.value, q.value);
  }

  lemma Overwrite(k: string, a: string, b: string)
    ensures map[k := a][k := b] == map[k := b]
  {
  }

  /** The packaged command's payload: the dict itself is the event, and the
      sourcetype comes from `hec_sourcetype_os_release`. */
  function Payload(config: Config, hostname: string, time: int, data: map<string, string>): (p: Hec.Payload)
    ensures p.event == Fields(data) && p.host == hostname && p.time == time
    ensures p.index == (if "hec_index" in config then config["hec_index"] else Null)
    ensures p.sourcetype == (if "hec_sourcetype_os_release" in config then config["hec_sourcetype_os_release"] else Str(DefaultSourcetype))
  {
    Hec.Payload(time, hostname, Get(config, "hec_index", Null),
                Get(config, "hec_sourcetype_os_release", Str(DefaultSourcetype)), Fields(data))
  }

  /** The script's payload: the event is the dict's JSON text, and the
      sourcetype comes from `hec_sourcetype`. */
  function ScriptPayload(config: Config, hostname: string, time: int, data: map<string, string>): (p: Hec.Payload)
    ensures p.event == FieldsAsJson(data) && p.host == hostname && p.time == time
    ensures p.index == (if "hec_index" in config then config["hec_index"] else Null)
    ensures p.sourcetype == (if "hec_sourcetype" in config then config["hec_sourcetype"] else Str(DefaultSourcetype))
  {
    Hec.Payload(time, hostname, Get(config, "hec_index", Null),
                Get(config, "hec_sourcetype", Str(DefaultSourcetype)), FieldsAsJson(data))
  }

  /** The ways a report ends before posting. */
  datatype ReportError =
    | NoConfig(loadError: LoadError)
    | NoOsRelease(message: string)
    | BadLine(parseError: ParseError)
    | NoHostname

  const NoOsReleaseMessage := "Can't find /etc/os-release, quitting."

  /** The packaged `cli` as written: load the configuration (no `~`
      expansion), read `/etc/os-release` (`None`: it does not exist), parse
      it with the loop as written, and post the report. `hostname` is
      `None` when `gethostname()` raises. */
  function ReportAsWritten(files: Files, osRelease: Option<seq<string>>,
                           hostname: Option<string>, time: int, reply: Reply): (r: Result<(Request, Delivery), ReportError>)
    ensures r.Success? ==> osRelease.Some? && ParseAsWritten(osRelease.value).Success?
    ensures r.Success? ==> ConfigLoaderAsWritten(files).Success? && r.value.0.url == Url(ConfigLoaderAsWritten(files).value)
    ensures r.Success? ==> r.value.0.body.event == Fields(ParseAsWritten(osRelease.value).value)
    ensures ConfigLoaderAsWritten(files).Success? && osRelease.None? ==> r == Failure(NoOsRelease(NoOsReleaseMessage))
  {
    match ConfigLoaderAsWritten(files)
    case Failure(e) => Failure(NoConfig(e))
    case Success(config) =>
      match osRelease
      case None => Failure(NoOsRelease(NoOsReleaseMessage))
      case Some(raw) =>
        match ParseAsWritten(raw)
        case Failure(e) => Failure(BadLine(e))
        case Success(data) =>
          match hostname
          case None => Failure(NoHostname)
          case Some(host) => Success(SendHec(config, Payload(config, host, time, data), reply))
  }

  /** The packaged `cli` with both defects corrected: `~` expanded in the
      candidate paths, and a repeated key keeping its later value. */
  function Report(files: Files, home: string, osRelease: Option<seq<string>>,
                  hostname: Option<string>, time: int, reply: Reply): (r: Result<(Request, Delivery), ReportError>)
    ensures r.Success? ==> osRelease.Some? && Parse(osRelease.value).Success?
    ensures r.Success? ==> ConfigLoader(files, home).Success? && r.value.0.url == Url(ConfigLoader(files, home).value)
    ensures r.Success? ==> r.value.0.body.event == Fields(Parse(osRelease.value).value)
    ensures ConfigLoader(files, home).Success? && osRelease.None? ==> r == Failure(NoOsRelease(NoOsReleaseMessage))
  {
    match ConfigLoader(files, home)
    case Failure(e) => Failure(NoConfig(e))
    case Success(config) =>
      match osRelease
      case None => Failure(NoOsRelease(NoOsReleaseMessage))
      case Some(raw) =>
        match Parse(raw)
        case Failure(e) => Failure(BadLine(e))
        case Success(data) =>
          match hostname
          case None => Failure(NoHostname)
          case Some(host) => Success(SendHec(config, Payload(config, host, time, data), reply))
  }

  /** The script, top to bottom, as written: the same URL and header as
      `send_hec` would use, with the script's payload, and the parsing loop
      as written. `loaded` is what the script's own `config_loader` gave
      (it is not part of this model). */
  function ScriptReportAsWritten(loaded: Result<Config, LoadError>, osRelease: Option<seq<string>>,
                                 hostname: Option<string>, time: int, reply: Reply): (r: Result<(Request, Delivery), ReportError>)
    ensures r.Success? ==> osRelease.Some? && ParseAsWritten(osRelease.value).Success?
    ensures r.Success? ==> loaded.Success? && r.value.0.url == Url(loaded.value)
    ensures r.Success? ==> r.value.0.body.event == FieldsAsJson(ParseAsWritten(osRelease.value).value)
    ensures r.Success? ==> (r.value.1 == Exited(1) <==> reply.HttpError?)
    ensures loaded.Success? && osRelease.None? ==> r == Failure(NoOsRelease(NoOsReleaseMessage))
  {
    match loaded
    case Failure(e) => Failure(NoConfig(e))
    case Success(config) =>
      match osRelease
      case None => Failure(NoOsRelease(NoOsReleaseMessage))
      case Some(raw) =>
        match ParseAsWritten(raw)
        case Failure(e) => Failure(BadLine(e))
        case Success(data) =>
          match hostname
          case None => Failure(NoHostname)
          case Some(host) => Success(SendHec(config, ScriptPayload(config, host, time, data), reply))
  }

  /** The script with the repeated-key diagnostic corrected. */
  function ScriptReport(loaded: Result<Config, LoadError>, osRelease: Option<seq<string>>,
                        hostname: Option<string>, time: int, reply: Reply): (r: Result<(Request, Delivery), ReportError>)
    ensures r.Success? ==> osRelease.Some? && Parse(osRelease.value).Success?
    ensures r.Success? ==> loaded.Success? && r.value.0.url == Url(loaded.value)
    ensures r.Success? ==> r.value.0.body.event == FieldsAsJson(Parse(osRelease.value).value)
    ensures r.Success? ==> (r.value.1 == Exited(1) <==> reply.HttpError?)
    ensures loaded.Success? && osRelease.None? ==> r == Failure(NoOsRelease(NoOsReleaseMessage))
  {
    match loaded
    case Failure(e) => Failure(NoConfig(e))
    case Success(config) =>
      match osRelease
      case None => Failure(NoOsRelease(NoOsReleaseMessage))
      case Some(raw) =>
        match Parse(raw)
        case Failure(e) => Failure(BadLine(e))
        case Success(data) =>
          match hostname
          case None => Failure(NoHostname)
          case Some(host) => Success(SendHec(config, ScriptPayload(config, host, time, data), reply))
  }

  /** Without repeated keys, the as-written and the corrected parse agree. */
  lemma ParseAsWrittenDistinct(raw: seq<string>)
    requires DistinctKeys(Lines(raw))
    ensures ParseAsWritten(raw) == Parse(raw)
  {
    BuildAsWrittenDistinct(map[], Lines(raw));
  }

  /** Where the packaged command as written posts, the corrected one posts
      the same request (given the same configuration), and without
      repeated keys in the file it posts whenever the corrected one does. */
  lemma ReportAgrees(files: Files, home: string, osRelease: Option<seq<string>>,
                     hostname: Option<string>, time: int, reply: Reply)
    requires ConfigLoaderAsWritten(files) == ConfigLoader(files, home)
    ensures ReportAsWritten(files, osRelease, hostname, time, reply).Success? ==>
      ReportAsWritten(files, osRelease, hostname, time, reply) == Report(files, home, osRelease, hostname, time, reply)
    ensures osRelease.Some? && DistinctKeys(Lines(osRelease.value)) ==>
      ReportAsWritten(files, osRelease, hostname, time, reply) == Report(files, home, osRelease, hostname, time, reply)
  {
    if osRelease.Some? {
      BuildAsWrittenRefines(map[], Lines(osRelease.value));
      if DistinctKeys(Lines(osRelease.value)) {
        ParseAsWrittenDistinct(osRelease.value);
      }
    }
  }

  /** The script as written and corrected agree in the same way. */
  lemma ScriptReportAgrees(loaded: Result<Config, LoadError>, osRelease: Option<seq<string>>,
                           hostname: Option<string>, time: int, reply: Reply)
    ensures ScriptReportAsWritten(loaded, osRelease, hostname, time, reply).Success? ==>
      ScriptReportAsWritten(loaded, osRelease, hostname, time, reply) == ScriptReport(loaded, osRelease, hostname, time, reply)
    ensures osRelease.Some? && DistinctKeys(Lines(osRelease.value)) ==>
      ScriptReportAsWritten(loaded, osRelease, hostname, time, reply) == ScriptReport(loaded, osRelease, hostname, time, reply)
  {
    if osRelease.Some? {
      BuildAsWrittenRefines(map[], Lines(osRelease.value));
      if DistinctKeys(Lines(osRelease.value)) {
        ParseAsWrittenDistinct(osRelease.value);
      }
    }
  }

  /** As written, the packaged command stops with `KeyError` on a file
      whose two lines share a key (other than `key`): nothing is posted. */
  lemma ReportRepeatRaises(files: Files, p: Pair, q: Pair, hostname: Option<string>, time: int, reply: Reply)
    requires ConfigLoaderAsWritten(files).Success?
    requires WellFormedPair(p) && WellFormedPair(q)
    requires p.key == q.key && p.key != "key"
    ensures ReportAsWritten(files, Some(Render([p, q])), hostname, time, reply) == Failure(BadLine(MissingKeyKey))
  {
    AsWrittenRepeatRaises(p, q);
  }

  /** Corrected, the same file is posted, with the later value as the
      event's only entry. */
  lemma ReportRepeatPostsLater(files: Files, home: string, p: Pair, q: Pair, host: string, time: int, reply: Reply)
    requires ConfigLoader(files, home).Success?
    requires WellFormedPair(p) && WellFormedPair(q)
    requires p.key == q.key
    ensures Report(files, home, Some(Render([p, q])), Some(host), time, reply).Success?
    ensures Report(files, home, Some(Render([p, q])), Some(host), time, reply).value.0.body.event == Fields(map[q.key := q.value])
  {
    RepeatKeepsLater(p, q);
  }

  /** As written, the script stops with `KeyError` on the same file. */
  lemma ScriptRepeatRaises(loaded: Result<Config, LoadError>, p: Pair, q: Pair, hostname: Option<string>, time: int, reply: Reply)
    requires loaded.Success?
    requires WellFormedPair(p) && WellFormedPair(q)
    requires p.key == q.key && p.key != "key"
    ensures ScriptReportAsWritten(loaded, Some(Render([p, q])), hostname, time, reply) == Failure(BadLine(MissingKeyKey))
  {
    AsWrittenRepeatRaises(p, q);
  }

  /** Corrected, the script posts the later value. */
  lemma ScriptRepeatPostsLater(loaded: Result<Config, LoadError>, p: Pair, q: Pair, host: string, time: int, reply: Reply)
    requires loaded.Success?
    requires WellFormedPair(p) && WellFormedPair(q)
    requires p.key == q.key
    ensures ScriptReport(loaded, Some(Render([p, q])), Some(host), time, reply).Success?
    ensures ScriptReport(loaded, Some(Render([p, q])), Some(host), time, reply).value.0.body.event == FieldsAsJson(map[q.key := q.value])
  {
    RepeatKeepsLater(p, q);
  }

  /** A file of written `KEY="value"` lines is posted as the dict of its
      pairs, under the configured index and the default or configured
      sourcetype. */
  lemma ReportRendered(files: Files, home: string, ps: seq<Pair>, host: string, time: int, reply: Reply)
    requires ConfigLoader(files, home).Success?
    requires forall k :: 0 <= k < |ps| ==> WellFormedPair(ps[k])
    ensures var r := Report(files, home, Some(Render(ps)), Some(host), time, reply);
      && r.Success?
      && r.value.0.body == Payload(ConfigLoader(files, home).value, host, time, ToMap(ps))
      && r.value.0.body.index == Get(ConfigLoader(files, home).value, "hec_index", Null)
  {
    ParseRender(ps);
  }
}
