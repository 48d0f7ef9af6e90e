# splunk-monitoring, modelled in Dafny

This project models the pure core of the `splunk-monitoring` tools.

The centre is the splunkd.log filter `loghandler` in two versions: the packaged command and the older script. Each one:
- splits every line into the groups of the envelope pattern (date, hour, minute, second, zone, level, component, event);
- optionally keeps only one component;
- reads the timestamp with `strptime('%m-%d-%Y %H:%M:%S.%f %z')`;
- keeps lines inside a time window;
- tokenizes the event with the lenient `key=value` scanner `regex_kv_pairs`;
- prints a count, a JSON block or one line per kept record.

Around this pipeline the project models:
- the HTTP Event Collector helpers of `utils.py`: the collector URL, the request header and body, and the first-existing-file configuration search;
- the watchdog start-up: `check_config`, settling `seconds` and `print_ping`, and the ping payload and its send;
- the `/etc/os-release` `KEY=value` parser and report, in its packaged and its script form.

Layout, one module per file:
- `wrappers.dfy`: `Option`, `Result` and `Outcome`.
- `chars.dfy`: character classes (`\s`, `\d`, `\w`, `[\w-]`, …) and maximal runs.
- `digits.dfy`: `int(s)`, `str(n)` and zero padding.
- `text.dfy`: `strip`, `replace`, `split`, `join`.
- `kvpairs.dfy`: the `regex_kv_pairs` scanner.
- `envelope.dfy`: the line pattern.
- `timestamp.dfy`: `strptime` on the timestamp group, Python's proleptic calendar, and instants in microseconds UTC.
- `logfilter.dfy`: what both filters share. This covers the window, the verdict on one line, the left-to-right collection (which stops at the first timestamp that raises) and the output shape.
- `loghandler.dfy`: the packaged filter.
- `scriptloghandler.dfy`: the script filter.
- `hec.dfy`: `utils.py`.
- `watchdog.dfy`: `hec_watchdog.py`.
- `osrelease.dfy`: both os-release programs.
- `tokenizervectors.dfy`, `exampleline.dfy`, `examplerun.dfy`: worked vectors. These include the example splunkd.log line in the source's comment, taken through both filters.

The regular expressions are modelled as deterministic left-to-right scanners, and each scanner's partner is a rendering function.
- **Envelope.** Each group of the envelope pattern is a maximal run of its class, and the next token of the pattern never belongs to that class, so backtracking cannot find a second split.
- **Tokenizer.** At each position the key is the maximal `[\w-]` run, which must be followed by `=`. A quoted value ends at the first matching quote that is followed by a comma, whitespace or the end of the text. When no such quote exists, the value is read unquoted up to the first comma or whitespace, opening quote included.
- **Round trips.** The lemmas prove that scanning a rendering gives back what was rendered (`ScanComplete`, `ScanRender`, `ParseRender`, `ParseStamp`), and that every scan result is such a rendering (`ScanSound`, `MatchIff`).

The script's tokenizer (`scripts/loghandler.py:16-32`), line pattern (`:38`), output shaping (`:104-111`) and os-release parser (`scripts/os-release.py:26-37`) are the same as the packaged ones, so the same Dafny members model both. The script's parser also carries the packaged parser's repeated-key defect, which has its own row under "## Findings".

Each defect listed under "## Findings" is modelled twice: once as written and once corrected. The start-up of the watchdog and both os-release reports exist in both forms, and lemmas relate the two (`StartAsWrittenSendsNothing`, `ReportAgrees`, `ScriptReportAgrees`).

An unparseable timestamp ends the whole run. The `strptime` call at `splunk_monitoring/loghandler.py:111` (and `scripts/loghandler.py:89-92`) is not guarded, so its `ValueError` propagates out of the loop. `Run` then returns `Failure(i)`, where `i` is the index of the line that raised.

## Model

| member | source | states |
|---|---|---|
| KvPairs.FindClose | splunk_monitoring/loghandler.py:30-33 | the closing quote chosen is the first position holding the opening quote character followed by a comma, whitespace or the end; no earlier position qualifies (the non-greedy value) |
| KvPairs.ReadValue | splunk_monitoring/loghandler.py:30-33 | a quoted value drops both quotes and is the shortest text up to a closing quote before a terminator; otherwise the value runs to the first comma or whitespace, keeps an opening quote, and is used only when no closing quote qualifies; scanning resumes after the terminator |
| KvPairs.Matches | splunk_monitoring/loghandler.py:29 | every reported key is a non-empty run of word characters or `-` |
| KvPairs.ToMap | splunk_monitoring/loghandler.py:41-43 | the dict's keys are exactly the keys of the matches |
| KvPairs.Parse | splunk_monitoring/loghandler.py:19-43 | `regex_kv_pairs` with the default separators: every key of the result is a non-empty `[\w-]` run |
| KvPairs.NoMatchesIff | splunk_monitoring/loghandler.py:39-42 | `finditer` finds nothing exactly when the text has no `[\w-]` character directly before an `=`; the scan never fails |
| KvPairs.ParseEmptyIff | splunk_monitoring/loghandler.py:41-43 | the result is `{}` exactly when the text has no `[\w-]=` occurrence |
| KvPairs.LastWins | splunk_monitoring/loghandler.py:41-43 | a key's value in the dict is that of its last match |
| KvPairs.SkipFree | splunk_monitoring/loghandler.py:39-42 | leading free text without `key=` adds no matches and does not shift later ones |
| KvPairs.ReadQuoted | splunk_monitoring/loghandler.py:30-33 | `"value"` before a terminator reads back as `value`, quotes dropped, spaces and `=` kept |
| KvPairs.ReadBare | splunk_monitoring/loghandler.py:31-33 | an unquoted value without comma or whitespace reads back unchanged |
| KvPairs.ReadUnclosed | splunk_monitoring/loghandler.py:30-33 | a value whose opening quote never comes back is read unquoted, quote included, up to the terminator |
| KvPairs.ScanField | splunk_monitoring/loghandler.py:28-33 | one rendered entry followed by a terminator is exactly one match |
| KvPairs.ScanRender | splunk_monitoring/loghandler.py:39-42 | scanning entries joined by a separator returns their keys and values in order (round trip) |
| KvPairs.ParseRendered | splunk_monitoring/loghandler.py:19-43 | free text followed by rendered entries parses to the dict of the entries |
| TokenizerVectors.NoEqualsNoKey | splunk_monitoring/loghandler.py:29 | text without `=` has no key occurrence, hence parses to `{}` |
| TokenizerVectors.EmptyEvent | splunk_monitoring/loghandler.py:19-43 | the empty event parses to `{}` |
| TokenizerVectors.RepeatedKey | splunk_monitoring/loghandler.py:41-43 | `k=1,k=2` parses to `{k: "2"}` |
| TokenizerVectors.QuoteFallback | splunk_monitoring/loghandler.py:30-33 | `k="a b` parses to `{k: "\"a"}`: the unclosed quote stays in the value |
| Envelope.ScanSound | splunk_monitoring/loghandler.py:50-52 | the groups of a scanned line fit their classes, the separators are whitespace, and the pieces put back together give the line |
| Envelope.ScanComplete | splunk_monitoring/loghandler.py:50-52 | the scanner recovers exactly the groups of any well-formed rendered line (round trip) |
| Envelope.Match | splunk_monitoring/loghandler.py:50-52 | on a match, date and zone have no whitespace; hour and minute are digits; second is digits and dots; level is `\w+`; component is non-empty without whitespace; event has no line feed and no leading whitespace; the timestamp group opens the line, followed by a space |
| Envelope.MatchIff | splunk_monitoring/loghandler.py:50-52 | a line matches exactly when it is the rendering of well-formed groups |
| Timestamp.Small | splunk_monitoring/loghandler.py:111 | a one- or two-digit `%m`/`%d`/`%H`/`%M`/`%S` field has a value in the directive's range |
| Timestamp.Fraction | splunk_monitoring/loghandler.py:111 | `%f` accepts exactly one to six digits, read as microseconds below one second |
| Timestamp.FractionPad | splunk_monitoring/loghandler.py:111 | `%f` pads on the right: a value `n` written in `k` digits is read as `n·10^(6-k)` microseconds (`792` is 792000) |
| Timestamp.ParseDate | splunk_monitoring/loghandler.py:111 | `%m-%d-%Y` yields a month in 1..12, a day in 1..31 and a four-digit year |
| Timestamp.ParseZone | splunk_monitoring/loghandler.py:111 | an accepted `%z` is an offset of less than a day |
| Timestamp.Parse | splunk_monitoring/loghandler.py:111 | whatever `strptime` accepts is a valid aware datetime |
| Timestamp.NeedsFraction | splunk_monitoring/loghandler.py:111 | a seconds group without `.` and fraction digits is rejected |
| Timestamp.ParseFormatZone | splunk_monitoring/loghandler.py:111 | a whole-minute offset written as `+HHMM` reads back as itself |
| Timestamp.ParseStamp | splunk_monitoring/loghandler.py:111 | a timestamp written with any fraction width from one to six digits (splunkd writes three, as in the example at :47) reads back as exactly the datetime written (round trip) |
| Timestamp.OrdinalNextDay | splunk_monitoring/loghandler.py:112-117 | consecutive calendar days have consecutive ordinals across month and year ends, so instants order like datetimes |
| Timestamp.YearLength | splunk_monitoring/loghandler.py:112-117 | a year spans 366 days when leap and 365 otherwise |
| Digits.Decimal | splunk_monitoring/loghandler.py:127 | `str(n)` is non-empty, all digits, without a leading zero |
| Digits.NumberDecimal | splunk_monitoring/loghandler.py:127 | `int(str(n)) == n` |
| Digits.NumberPad | splunk_monitoring/loghandler.py:111 | a zero-padded field reads back as the value written |
| LogFilter.Map | splunk_monitoring/loghandler.py:94-125 | every line gets the loop body's verdict, in input order |
| LogFilter.Collect | splunk_monitoring/loghandler.py:94-125 | the loop completes exactly when no line raises; otherwise it stops at the first line that raises |
| LogFilter.CollectPicks | splunk_monitoring/loghandler.py:119-125 | the collected records are the kept lines' records, each once, in input order, and every kept line contributes |
| LogFilter.CollectAppend | splunk_monitoring/loghandler.py:94-125 | collecting two inputs one after the other is collecting the first, then the second, with failure positions shifted |
| LogFilter.CollectPrefixFails | splunk_monitoring/loghandler.py:111 | once a line has raised, later lines change nothing |
| LogFilter.CollectNothingKept | splunk_monitoring/loghandler.py:87-125 | with no kept line the result list stays empty |
| LogFilter.CollectRefines | scripts/loghandler.py:65-103 | two loops whose verdicts agree on kept lines and on where they raise collect the same records |
| LogFilter.Shape | splunk_monitoring/loghandler.py:126-133 | count mode prints the number of records in decimal, without leading zeros (`0` when there are none); otherwise no records print nothing, `--json` prints one block of all records, else one line per record |
| LogHandler.WindowFor | splunk_monitoring/loghandler.py:83-85 | an instant is in the window exactly when `now - mins ≤ t ≤ now - ignore_mins` |
| LogHandler.Classify | splunk_monitoring/loghandler.py:94-125 | a line is skipped as unmatched exactly when the pattern fails; it raises exactly when it matches, passes the component filter and `strptime` fails; it is kept exactly when it also falls in the window and has a non-empty `event_parsed`, which is `regex_kv_pairs(event)` |
| LogHandler.Judge | splunk_monitoring/loghandler.py:94 | the verdict on each line is `Classify` of that line |
| LogHandler.RecordsSpec | splunk_monitoring/loghandler.py:94-125 | the run completes exactly when no line raises and otherwise stops at the first one that does; on completion the records are exactly those of the kept lines, in input order |
| LogHandler.WindowEmpty | splunk_monitoring/loghandler.py:83-85 | with `--ignore_mins` above `--mins` no instant is in the window |
| LogHandler.IgnoreBeyondWindow | splunk_monitoring/loghandler.py:112-117 | with `--ignore_mins` above `--mins` a completed run keeps nothing |
| LogHandler.RecordsStep | splunk_monitoring/loghandler.py:94-125 | one more line: kept appends its record, skipped leaves the records, raising ends the run at that line |
| LogHandler.RecordsPrefixFails | splunk_monitoring/loghandler.py:111 | a line that raises decides the result whatever follows it |
| LogHandler.JudgeAppend | splunk_monitoring/loghandler.py:94 | lines are judged independently of their neighbours |
| LogHandler.Filter | splunk_monitoring/loghandler.py:94-133 | the loop written with an accumulator and an early return prints what `Run` prints, or stops at the same line |
| ScriptLogHandler.Since | scripts/loghandler.py:56 | an instant passes exactly when `t ≥ now - mins`; there is no upper bound |
| ScriptLogHandler.Classify | scripts/loghandler.py:65-103 | unmatched lines are skipped; a matched line with an empty event is skipped before any timestamp parse; a line raises exactly when it matches, passes the component filter, has a non-empty event and `strptime` fails; it is kept exactly when it also passes the lower bound and has a non-empty `event_parsed` |
| ScriptLogHandler.Judge | scripts/loghandler.py:65 | the verdict on each line is `Classify` of that line |
| ScriptLogHandler.RecordsSpec | scripts/loghandler.py:65-103 | the run completes exactly when no line raises; on completion the records are exactly those of the kept lines, in input order |
| ScriptLogHandler.QuietIffVerdicts | scripts/loghandler.py:65-77 | before any line raises, every unmatched line prints `Failed to parse line: …` to stdout; without `--debug` nothing is printed exactly when no unmatched line comes before the stop |
| ScriptLogHandler.QuietIff | scripts/loghandler.py:65-105 | without `--debug` the script's stdout holds only its final output (the bare count under `--count`) exactly when every line read before any that raises matches the pattern |
| ScriptLogHandler.ClassifyRefines | scripts/loghandler.py:83-94 | on a line with no timestamp after `now - ignore_mins`, the packaged filter keeps what the script keeps and raises wherever the script raises |
| ScriptLogHandler.AgreesWithPackage | scripts/loghandler.py:56-103 | without timestamps after `now - ignore_mins`, the packaged filter raises whenever the script does, and both collect the same records when both complete |
| Hec.Get | splunk_monitoring/utils.py:35 | `config.get(key, default)`: the stored value when present, the default otherwise |
| Hec.EndpointUrl | splunk_monitoring/utils.py:32-36 | host and port (443 by default) are read back from the collector URL |
| Hec.UrlDefaultPort | splunk_monitoring/utils.py:35 | without `hec_port` the port text is `443` |
| Hec.BuildRequest | splunk_monitoring/utils.py:43-46 | the request goes to `url(config)`, carries the payload as its body, and its `Authorization` header is `Splunk ` followed by the token |
| Hec.SendHec | splunk_monitoring/utils.py:40-57 | the request is the one built above; an accepted reply is delivered; an `HTTPError` ends the process with status 1; any other error propagates |
| Hec.FirstExisting | splunk_monitoring/utils.py:24-28 | the first candidate path that exists, and none before it exists; none exactly when no candidate exists |
| Hec.LoadFrom | splunk_monitoring/utils.py:22-30 | the result is the content of the first existing candidate whenever that file holds valid JSON; `json.load` fails (`BadJson`) only when the first existing candidate is not valid JSON, naming that path; the not-found exit happens exactly when no candidate exists, with the message naming the tried paths |
| Hec.LoadIgnoresLater | splunk_monitoring/utils.py:24-28 | once a candidate exists, the files after it are never consulted |
| Hec.ExpandUser | splunk_monitoring/utils.py:25 | a `~/` path is placed under the home directory; other paths are unchanged |
| Hec.AsWrittenMissesUserConfig | splunk_monitoring/utils.py:16-28 | as written, a configuration kept only in the user's home is not found |
| Hec.ConfigLoaderReadsUserConfig | splunk_monitoring/utils.py:16-28 | with `~` expanded, the user's file is read when the system-wide file is absent |
| Watchdog.Missing | splunk_monitoring/hec_watchdog.py:19-26 | exactly the required keys absent from the configuration, in order |
| Watchdog.MissingAppend | splunk_monitoring/hec_watchdog.py:19-26 | the missing keys are found piece by piece, so they keep the order of the required keys |
| Watchdog.CheckConfig | splunk_monitoring/hec_watchdog.py:17-31 | passes exactly when `hec_index`, `hec_host` and `hec_token` are all present; otherwise the message starts with the fixed prefix |
| Watchdog.CheckConfigMessage | splunk_monitoring/hec_watchdog.py:28-31 | the message lists exactly the missing keys, comma-separated, in the order index, host, token |
| Watchdog.Settle | splunk_monitoring/hec_watchdog.py:103-108 | `--seconds` wins, else an existing `seconds` is kept, else 300; `print_ping` is always the flag; no other key changes |
| Watchdog.SettleIdempotent | splunk_monitoring/hec_watchdog.py:103-108 | settling twice with the same options is settling once |
| Watchdog.PingPayload | splunk_monitoring/hec_watchdog.py:37-51 | the event is `ping`, the index is the configured one (missing: `KeyError`), the sourcetype defaults to `monitoring:watchdog`, and the host is `unknown` when the lookup fails |
| Watchdog.SettleKeepsPing | splunk_monitoring/hec_watchdog.py:103-111 | the command-line overrides change neither the ping payload nor the request's URL and header |
| Watchdog.SendPingAsWritten | splunk_monitoring/hec_watchdog.py:53-60 | as written, no request is ever posted; the error is reported and swallowed |
| Watchdog.SendPing | splunk_monitoring/hec_watchdog.py:34-60 | exactly one request, to `url(config)` with the ping payload; an `HTTPError` exits with 1, other errors are reported; `ping`/`pong` are printed only when `print_ping` is truthy |
| Watchdog.StartAsWritten | splunk_monitoring/hec_watchdog.py:98-111 | `cli` as written, with `config_loader` and `send_ping` as written: it gets through exactly when the unexpanded candidates yield a configuration that passes the check; the settled configuration is kept; no ping is posted and the error is reported |
| Watchdog.Start | splunk_monitoring/hec_watchdog.py:98-111 | `cli` with both defects corrected (`~` expanded, `send_hec` called as it accepts): on success the configuration has the required keys, a `seconds` value, and `print_ping` equal to the flag |
| Watchdog.StartSendsOnePing | splunk_monitoring/hec_watchdog.py:110-114 | corrected, a configuration that loads and passes the check leads to exactly one ping to the configured collector before any loop |
| Watchdog.StartAsWrittenSendsNothing | splunk_monitoring/hec_watchdog.py:100-111 | with the same configuration found both ways, `cli` as written settles the same configuration as the corrected one but posts no ping and reports an error, where the corrected one posts exactly one |
| Text.Strip | splunk_monitoring/os_release.py:28 | `strip()` removes whitespace from both ends only |
| Text.Remove | splunk_monitoring/os_release.py:34-35 | `replace('"', "")` leaves no `"` and changes nothing in text without one |
| Text.RemoveAppend | splunk_monitoring/os_release.py:34-35 | removal works piece by piece over concatenation |
| Text.RemoveOne | splunk_monitoring/os_release.py:34-35 | a single `"` goes and any other single character, a single quote included, stays; with `RemoveAppend` every other character stays, in order |
| Text.Split | splunk_monitoring/os_release.py:33 | `split("=")` yields at least one part, none containing `=` |
| Text.JoinSplit | splunk_monitoring/os_release.py:33 | joining the parts with `=` gives back the line |
| Text.SplitJoin | splunk_monitoring/os_release.py:33 | splitting parts joined by `=` gives back the parts |
| OsRelease.Lines | splunk_monitoring/os_release.py:28 | no kept line starts with `#`, and there are no more kept lines than read lines |
| OsRelease.LinesKeeps | splunk_monitoring/os_release.py:28 | every line that does not start with `#` once stripped is kept, stripped |
| OsRelease.LinesAppend | splunk_monitoring/os_release.py:28 | lines are kept or dropped one by one, in file order |
| OsRelease.LinesOne | splunk_monitoring/os_release.py:28 | a single line is kept, stripped, exactly when it does not start with `#` once stripped |
| OsRelease.Entry | splunk_monitoring/os_release.py:33-35 | a line yields an entry exactly when it splits into two parts on `=`; key and value hold no `"` |
| OsRelease.Build | splunk_monitoring/os_release.py:32-38 | the loop fails only on a line that does not split into two parts |
| OsRelease.BuildSucceedsIff | splunk_monitoring/os_release.py:32-38 | the loop completes exactly when every line splits into one key and one value |
| OsRelease.ParseSpec | splunk_monitoring/os_release.py:28-38 | parsing succeeds exactly when every kept line is a pair, and then yields the dict of the entries, later lines overwriting earlier ones |
| OsRelease.ParseRender | scripts/os-release.py:26-37 | `KEY="value"` lines read back as the dict of their pairs (round trip) |
| OsRelease.BuildAsWrittenDistinct | splunk_monitoring/os_release.py:32-38 | without repeated keys the loop as written and the corrected loop agree |
| OsRelease.BuildAsWrittenRefines | splunk_monitoring/os_release.py:32-38 | whenever the loop as written gets through, it gives what the corrected loop gives |
| OsRelease.ParseAsWrittenDistinct | splunk_monitoring/os_release.py:28-38 | without repeated keys the as-written and corrected parses agree |
| OsRelease.AsWrittenRepeatRaises | splunk_monitoring/os_release.py:36-37 | as written, a repeated key other than `key` raises `KeyError` in the diagnostic |
| OsRelease.RepeatKeepsLater | splunk_monitoring/os_release.py:36-38 | the corrected loop keeps the later value of a repeated key |
| OsRelease.Payload | splunk_monitoring/os_release.py:40-46 | the event is the parsed dict; index from `hec_index`; sourcetype from `hec_sourcetype_os_release`, defaulting to `monitoring:osrelease` |
| OsRelease.ScriptPayload | scripts/os-release.py:39-45 | the event is the dict's JSON text; sourcetype from `hec_sourcetype`, defaulting to `monitoring:osrelease` |
| OsRelease.ReportAsWritten | splunk_monitoring/os_release.py:16-51 | `cli` as written (no `~` expansion, the `data['key']` diagnostic): a posted report has parsed `/etc/os-release` with the loop as written, goes to `url(config)` and carries the dict; a missing file ends with the "Can't find" message |
| OsRelease.Report | splunk_monitoring/os_release.py:16-51 | `cli` with both defects corrected: a posted report has parsed `/etc/os-release`, goes to `url(config)` and carries the dict; a missing file ends with the "Can't find" message |
| OsRelease.ScriptReportAsWritten | scripts/os-release.py:15-63 | the script as written: a posted report has parsed `/etc/os-release` with the loop as written, goes to the collector URL with the JSON-text event, and an `HTTPError` exits with status 1; a missing file ends with the "Can't find" message |
| OsRelease.ScriptReport | scripts/os-release.py:15-63 | the script with the diagnostic corrected: a posted report has parsed `/etc/os-release`, goes to `https://<hec_host>:<hec_port or 443>/services/collector` with the JSON-text event, and an `HTTPError` exits with status 1; a missing file ends with the "Can't find" message |
| OsRelease.ReportAgrees | splunk_monitoring/os_release.py:16-51 | with the same configuration found both ways, whatever the command as written posts the corrected one posts too, and without repeated keys they do the same |
| OsRelease.ScriptReportAgrees | scripts/os-release.py:15-63 | whatever the script as written posts the corrected one posts too, and without repeated keys they do the same |
| OsRelease.ReportRepeatRaises | splunk_monitoring/os_release.py:36-37 | as written, a file with two lines sharing a key other than `key` ends the command with `KeyError` and nothing is posted |
| OsRelease.ReportRepeatPostsLater | splunk_monitoring/os_release.py:36-38 | corrected, that file is posted with the later value |
| OsRelease.ScriptRepeatRaises | scripts/os-release.py:35-36 | as written, the script also ends with `KeyError` on that file and posts nothing |
| OsRelease.ScriptRepeatPostsLater | scripts/os-release.py:35-37 | corrected, the script posts the later value |
| OsRelease.ReportRendered | splunk_monitoring/os_release.py:27-51 | a file of `KEY="value"` lines is posted as the dict of its pairs with the configured index and sourcetype |
| ExampleLine.EventPairs | splunk_monitoring/loghandler.py:47 | the event of the example line parses to the dict of its seven entries |
| ExampleLine.EventValues | splunk_monitoring/loghandler.py:47 | in the example, `parsing_err` is `Server is busy` and `channel` is `n/a` |
| ExampleLine.LineMatch | splunk_monitoring/loghandler.py:47 | the example line matches, with date `10-03-2021`, zone `+1000`, level `ERROR`, component `HttpInputDataHandler` |
| ExampleLine.InstantOfLine | splunk_monitoring/loghandler.py:47 | the example's timestamp is the instant 1633214904792000 µs after the epoch (2021-10-02 22:48:24.792 UTC) |
| ExampleLine.WholeSecondsRejected | splunk_monitoring/loghandler.py:111 | the same line with seconds `24` and no fraction is rejected by `strptime` |
| ExampleRun.PackageCountsLine | splunk_monitoring/loghandler.py:78 | one minute after the example line, `--component HttpInputDataHandler --count` over it prints `1` |
| ExampleRun.FutureLine | splunk_monitoring/loghandler.py:115-117 | a minute before the example's instant, the packaged filter counts `0` (upper bound) while the script counts `1` (no upper bound) |
| ExampleRun.WholeSecondsAbort | splunk_monitoring/loghandler.py:111 | both filters stop at the whole-seconds line instead of skipping it |

## Left out

- `\w` and `\d`: they are ASCII only, and Python's Unicode letter and digit tables are not modelled. `\s` and `strip()` use exactly the set `str.isspace` accepts, including U+001C-001F and U+0085.
- `re.VERBOSE` details and non-default `item_sep`/`value_sep`: only the default separators are modelled. The `.replace` calls also rewrite the `(?P=quote)` backreference, so other separators do not give the documented grammar.
- Reading the clock: the two `datetime.now()` calls of the packaged filter are one `now` parameter. A tick between them is not modelled.
- `astimezone()` of the local `min_time`/`max_time`: the window bounds are taken as instants directly. Daylight-saving folds are not modelled, and neither is `OverflowError` from a huge `--mins`.
- Diagnostics of the packaged filter: `logger` writes them to stderr through `loguru`, and they are not modelled. The script's stdout notices (`Failed to parse line: …` always, `component skip …` under `--debug`) are modelled by `ScriptLogHandler.Stdout`. Its stderr messages are not modelled. Neither are `--debug`, `setup_logging` or the watchdog's stderr report text. `setup_logging` and `ConfigFileType` are not defined in the modelled `utils.py`.
- `json.dumps` of the records and of the payloads: outputs and request bodies are kept as structured values.
- Dictionary key order: Python dicts keep insertion order, and that order decides how records and JSON texts print (`loghandler.py:129-133`, `scripts/os-release.py:44`). `KvPairs.ToMap`, `OsRelease.Build` and the record fields use Dafny `map`, which has no order, so the model does not promise the printed key order.
- File and stdin reading, `click` option parsing, `Path.exists`/`open` and `json.load`: these become parameters. `Files` maps a path to its parsed JSON, or to `None` when the file is not valid JSON.
- `socket.gethostname()` and `time.time()`: the hostname is an `Option` parameter (`None` when the call raises) and the time is an integer parameter. Floating-point time is not modelled.
- `urllib.request.urlopen`: the reply is a parameter (accepted, `HTTPError`, other error). Printing the response body under `--debug` is not modelled.
- The daemon `loop` of `hec_watchdog.py` (`schedule` and `time.sleep`): it repeats `send_ping` on a timer and is not modelled.
- `scripts/hec-watchdog.py` and `scripts/utils.py` are not part of this model. The script report takes the result of the script's own `config_loader` as a parameter.
- LogHandler.Filter: states equality with the functional `Run` rather than its own list of postconditions; the properties are proved about `Run` and `Records`.

## Findings

| source | as written | input that shows it | evidently intended | confidence | as-written member | corrected member |
|---|---|---|---|---|---|---|
| splunk_monitoring/hec_watchdog.py:56 | `send_hec` is called with a `debug=` keyword that `send_hec` (utils.py:40) does not accept, so every call raises `TypeError`; the broad `except` reports it and no ping is ever posted | any configuration with `hec_index`, `hec_host` and `hec_token` | post one ping to the collector | not executed | Watchdog.SendPingAsWritten | Watchdog.SendPing |
| splunk_monitoring/hec_watchdog.py:100-111 | `cli` reaches the first ping through `config_loader` and `send_ping` as written, so the start-up posts nothing | a configuration at `/etc/splunk-monitoring/config.json` with `hec_index`, `hec_host` and `hec_token` | post one ping before any loop | not executed | Watchdog.StartAsWrittenSendsNothing | Watchdog.StartSendsOnePing |
| splunk_monitoring/os_release.py:36-37 | the duplicate-key diagnostic reads `data['key']` instead of `data[key]`, so a repeated key raises `KeyError` unless a key literally named `key` exists | two lines `ID="a"` and `ID="b"` | report the old value and keep the later one | not executed | OsRelease.AsWrittenRepeatRaises | OsRelease.RepeatKeepsLater |
| splunk_monitoring/os_release.py:16-51 | because of the diagnostic above, the packaged `cli` posts no report for such a file | the same two lines as `/etc/os-release` | post the report with `ID` set to `b` | not executed | OsRelease.ReportRepeatRaises | OsRelease.ReportRepeatPostsLater |
| scripts/os-release.py:35-36 | the script's copy of the loop has the same `data['key']` diagnostic, so it also ends with `KeyError` before posting | the same two lines as `/etc/os-release` | post the report with `ID` set to `b` | not executed | OsRelease.ScriptRepeatRaises | OsRelease.ScriptRepeatPostsLater |
| splunk_monitoring/utils.py:25-26 | `Path("~/.config/splunk-monitoring.json")` is not expanded, so `exists()` looks for a directory literally named `~` under the working directory | only `/root/.config/splunk-monitoring.json` present, home `/root` | read the configuration from the user's home directory | not executed | Hec.AsWrittenMissesUserConfig | Hec.ConfigLoaderReadsUserConfig |
