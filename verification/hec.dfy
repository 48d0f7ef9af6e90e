/**
 * The HTTP Event Collector helpers: configuration values as the JSON
 * loader produces them, the choice of configuration file, the collector
 * URL, and the request `send_hec` builds and what becomes of it.
 */
module Hec {
  import opened Wrappers
  import opened Text
  import Digits

  /** A JSON value read from the configuration file. `Composite` stands for
      lists and objects: their `str()` and their size (empty ones are
      false). */
  datatype ConfigValue =
    | Str(s: string)
    | Int(n: int)
    | Bool(b: bool)
    | Null
    | Composite(text: string, size: nat)

  type Config = map<string, ConfigValue>

  /** `str(v)`, as an f-string writes it. */
  function Show(v: ConfigValue): string {
    match v
    case Str(s) => s
    case Int(n) => if n < 0 then "-" + Digits.Decimal(-n) else Digits.Decimal(n)
    case Bool(b) => if b then "True" else "False"
    case Null => "None"
    case Composite(text, _) => text
  }

  /** Python truthiness. */
  predicate Truthy(v: ConfigValue) {
    match v
    case Str(s) => s != []
    case Int(n) => n != 0
    case Bool(b) => b
    case Null => false
    case Composite(_, size) => size > 0
  }

  /** `config.get(key, default)`. */
  function Get(config: Config, key: string, default: ConfigValue): (v: ConfigValue)
    ensures key in config ==> v == config[key]
    ensures key !in config ==> v == default
  {
    if key in config then config[key] else default
  }

  const DefaultPort := 443
  const CollectorPath := "/services/collector"

  /** `url(config)`: `https://<hec_host>:<hec_port or 443>/services/collector`,
      where an absent host shows as `None`. */
  function Url(config: Config): string {
    "https://" + Show(Get(config, "hec_host", Null)) + ":"
      + Show(Get(config, "hec_port", Int(DefaultPort))) + CollectorPath
  }

  /** Read a collector URL back into its host and port text, splitting at
      the last colon. */
  function Endpoint(u: string): Option<(string, string)> {
    var scheme := "https://";
    if |u| < |scheme| + |CollectorPath| || u[..|scheme|] != scheme || u[|u| - |CollectorPath|..] != CollectorPath then None
    else
      var middle := u[|scheme|..|u| - |CollectorPath|];
      match LastColon(middle)
      case None => None
      case Some(i) => Some((middle[..i], middle[i + 1..]))
  }

  function LastColon(s: string): (r: Option<nat>)
    ensures r.None? <==> ':' !in s
    ensures r.Some? ==> r.value < |s| && s[r.value] == ':' && ':' !in s[r.value + 1..]
  {
    if s == [] then None
    else if s[|s| - 1] == ':' then Some(|s| - 1)
    else
      var r := LastColon(s[..|s| - 1]);
      if r.Some? then
        assert s[r.value + 1..] == s[..|s| - 1][r.value + 1..] + [s[|s| - 1]];
        r
      else r
  }

  lemma DigitsHaveNoColon(v: ConfigValue)
    requires v.Int? || v.Bool? || v.Null?
    ensures ':' !in Show(v)
  {
    if v.Int? {
      var d := Digits.Decimal(if v.n < 0 then -v.n else v.n);
      assert forall i :: 0 <= i < |d| ==> d[i] != ':' by {
        assert Chars.AllIn(d, Chars.Digit);
      }
      if v.n < 0 {
        assert Show(v) == "-" + d;
        assert forall i :: 0 <= i < |Show(v)| ==> Show(v)[i] != ':' by {
          forall i | 0 <= i < |Show(v)|
            ensures Show(v)[i] != ':'
          {
            if i > 0 {
              assert Show(v)[i] == d[i - 1];
            }
          }
        }
      }
    }
  }

  lemma EndpointOf(host: string, port: string)
    requires ':' !in port
    ensures Endpoint("https://" + host + ":" + port + CollectorPath) == Some((host, port))
  {
    var middle := host + ":" + port;
    var u := "https://" + middle + CollectorPath;
    assert u == "https://" + host + ":" + port + CollectorPath;
    assert |u| == 8 + |middle| + |CollectorPath|;
    assert u[..8] == "https://";
    assert u[|u| - |CollectorPath|..] == CollectorPath;
    assert u[8..|u| - |CollectorPath|] == middle;
    LastColonAfter(host, port);
    assert middle[..|host|] == host && middle[|host| + 1..] == port;
  }

  /** The host and port of the URL can be read back from it, whatever the
      host text, as long as the port shows without a colon (a number, a
      boolean or `None` always does). */
  lemma EndpointUrl(config: Config)
    requires ':' !in Show(Get(config, "hec_port", Int(DefaultPort)))
    ensures Endpoint(Url(config)) ==
      Some((Show(Get(config, "hec_host", Null)), Show(Get(config, "hec_port", Int(DefaultPort)))))
  {
    EndpointOf(Show(Get(config, "hec_host", Null)), Show(Get(config, "hec_port", Int(DefaultPort))));
  }

  lemma LastColonAfter(a: string, b: string)
    requires ':' !in b
    ensures LastColon(a + ":" + b) == Some(|a|)
    decreases |b|
  {
    var s := a + ":" + b;
    if b != [] {
      assert s[..|s| - 1] == a + ":" + b[..|b| - 1];
      LastColonAfter(a, b[..|b| - 1]);
    } else {
      assert s[|s| - 1] == ':';
    }
  }

  /** Without `hec_port` the URL ends in `:443/services/collector`. */
  lemma UrlDefaultPort(config: Config)
    requires "hec_port" !in config
    ensures Show(Get(config, "hec_port", Int(DefaultPort))) == "443"
  {
    Digits.NumberDecimal(443);
    assert Digits.Decimal(443) == Digits.Decimal(44) + ['3'];
    assert Digits.Decimal(44) == Digits.Decimal(4) + ['4'];
  }

  /** The event of a payload: a message, a dictionary, or a dictionary
      already turned into JSON text (its serialisation is not modelled). */
  datatype Event = Message(text: string) | Fields(data: map<string, string>) | FieldsAsJson(data: map<string, string>)

  /** The dictionary posted to the collector. `time` is the caller's clock
      reading. */
  datatype Payload = Payload(time: int, host: string, index: ConfigValue, sourcetype: ConfigValue, event: Event)

  /** The request: URL, `Authorization` header, JSON body. */
  datatype Request = Request(url: string, authorization: string, body: Payload)

  /** What `urlopen` does with a request. */
  datatype Reply = Accepted | HttpError(status: nat) | Unreachable(reason: string)

  /** What becomes of a send: done, the process exits with a status, or an
      exception propagates to the caller. */
  datatype Delivery = Delivered | Exited(code: int) | Raised(reason: string)

  const AuthScheme := "Splunk "

  /** The request `send_hec` posts. */
  function BuildRequest(config: Config, payload: Payload): (r: Request)
    ensures r.url == Url(config) && r.body == payload
    ensures StartsWith(r.authorization, AuthScheme)
    ensures r.authorization[|AuthScheme|..] == Show(Get(config, "hec_token", Null))
  {
    var auth := AuthScheme + Show(Get(config, "hec_token", Null));
    assert auth[..|AuthScheme|] == AuthScheme;
    Request(Url(config), auth, payload)
  }

  /** `send_hec`: the request it posts and what the reply leads to. An
      `HTTPError` ends the process with status 1; any other failure of
      `urlopen` propagates. */
  function SendHec(config: Config, payload: Payload, reply: Reply): (r: (Request, Delivery))
    ensures r.0 == BuildRequest(config, payload)
    ensures r.1.Delivered? <==> reply.Accepted?
    ensures r.1.Exited? <==> reply.HttpError?
    ensures r.1.Exited? ==> r.1.code == 1
    ensures r.1.Raised? ==> reply == Unreachable(r.1.reason)
  {
    var delivery := match reply
      case Accepted => Delivered
      case HttpError(_) => Exited(1)
      case Unreachable(reason) => Raised(reason);
    (BuildRequest(config, payload), delivery)
  }

  /** `CONFIG_FILES`, in the order they are tried. */
  const ConfigFiles := ["/etc/splunk-monitoring/config.json", "~/.config/splunk-monitoring.json", "./config.json"]

  /** The argument of `sys.exit` when no candidate exists. */
  const NotFoundMessage :=
    "Failed to find config file, quitting (tried: ['/etc/splunk-monitoring/config.json', '~/.config/splunk-monitoring.json', './config.json']"

  /** The files that exist, keyed by the path as given to `Path(...)`,
      with their parsed content (`None`: not valid JSON). */
  type Files = map<string, Option<Config>>

  datatype LoadError = NotFound(message: string) | BadJson(path: string)

  /** The first candidate that exists. */
  function FirstExisting(candidates: seq<string>, files: Files): (r: Option<nat>)
    ensures r.Some? ==> r.value < |candidates| && candidates[r.value] in files
    ensures r.Some? ==> forall j :: 0 <= j < r.value ==> candidates[j] !in files
    ensures r.None? <==> forall j :: 0 <= j < |candidates| ==> candidates[j] !in files
  {
    if candidates == [] then None
    else if candidates[0] in files then Some(0)
    else
      match FirstExisting(candidates[1..], files)
      case None => None
      case Some(i) => Some(i + 1)
  }

  /** The loop of `config_loader` over `paths`. */
  function LoadFrom(paths: seq<string>, files: Files): (r: Result<Config, LoadError>)
    ensures r.Failure? && r.error.NotFound? <==> forall j :: 0 <= j < |paths| ==> paths[j] !in files
    ensures r.Failure? && r.error.NotFound? ==> r.error.message == NotFoundMessage
    ensures r.Success? ==> exists i :: 0 <= i < |paths| && paths[i] in files && files[paths[i]] == Some(r.value)
                                      && forall j :: 0 <= j < i ==> paths[j] !in files
    ensures var f := FirstExisting(paths, files);
      f.Some? && files[paths[f.value]].Some? ==> r == Success(files[paths[f.value]].value)
    ensures r.Failure? && r.error.BadJson? ==>
      var f := FirstExisting(paths, files); f.Some? && files[paths[f.value]].None? && r.error.path == paths[f.value]
  {
    match FirstExisting(paths, files)
    case None => Failure(NotFound(NotFoundMessage))
    case Some(i) =>
      match files[paths[i]]
      case None => Failure(BadJson(paths[i]))
      case Some(config) => Success(config)
  }

  /** Once a candidate exists, the files after it are never consulted. */
  lemma {:induction false} LoadIgnoresLater(paths: seq<string>, files: Files, other: Files, i: nat)
    requires i < |paths| && paths[i] in files
    requires forall j :: 0 <= j <= i ==> (paths[j] in files <==> paths[j] in other)
    requires forall j :: 0 <= j <= i && paths[j] in files ==> files[paths[j]] == other[paths[j]]
    ensures LoadFrom(paths, files) == LoadFrom(paths, other)
  {
    FirstSame(paths, files, other, i);
  }

  lemma {:induction false} FirstSame(paths: seq<string>, files: Files, other: Files, i: nat)
    requires i < |paths| && paths[i] in files
    requires forall j :: 0 <= j <= i ==> (paths[j] in files <==> paths[j] in other)
    ensures FirstExisting(paths, files) == FirstExisting(paths, other)
    ensures FirstExisting(paths, files).Some? && FirstExisting(paths, files).value <= i
  {
    if paths[0] !in files {
      FirstSame(paths[1..], files, other, i - 1);
    }
  }

  /** `config_loader` as written: `Path` does not expand `~`, so the second
      candidate names a directory called `~` under the working directory. */
  function ConfigLoaderAsWritten(files: Files): Result<Config, LoadError> {
    LoadFrom(ConfigFiles, files)
  }

  /** `Path(p).expanduser()` for a path that starts with `~/`. */
  function ExpandUser(path: string, home: string): (r: string)
    ensures StartsWith(path, "~/") ==> r == home + path[1..]
    ensures !StartsWith(path, "~/") ==> r == path
  {
    if StartsWith(path, "~/") then home + path[1..] else path
  }

  function ExpandAll(paths: seq<string>, home: string): (r: seq<string>)
    ensures |r| == |paths| && forall k :: 0 <= k < |paths| ==> r[k] == ExpandUser(paths[k], home)
  {
    if paths == [] then [] else [ExpandUser(paths[0], home)] + ExpandAll(paths[1..], home)
  }

  /** `config_loader` with `~` expanded to the home directory, as the
      candidate list evidently intends. */
  function ConfigLoader(files: Files, home: string): Result<Config, LoadError> {
    LoadFrom(ExpandAll(ConfigFiles, home), files)
  }

  /** The per-user file, with the home directory in front. */
  function UserConfig(home: string): string {
    home + "/.config/splunk-monitoring.json"
  }

  /** As written, a config kept only in the user's home directory is never
      found: the candidate `~/...` is looked up literally. */
  lemma AsWrittenMissesUserConfig(cfg: Config)
    ensures ConfigLoaderAsWritten(map[UserConfig("/root") := Some(cfg)]) == Failure(NotFound(NotFoundMessage))
  {
    UserConfigIsNoCandidate();
  }

  lemma UserConfigIsNoCandidate()
    ensures UserConfig("/root") !in ConfigFiles
  {
    assert UserConfig("/root") == "/root/.config/splunk-monitoring.json";
    assert UserConfig("/root")[0] != ConfigFiles[1][0];
    assert |UserConfig("/root")| != |ConfigFiles[0]|;
    assert |UserConfig("/root")| != |ConfigFiles[2]|;
  }

  /** With `~` expanded, the user's file is read whenever the system-wide
      one does not exist. */
  lemma CandidatePrefixes()
    ensures !StartsWith(ConfigFiles[0], "~/")
    ensures StartsWith(ConfigFiles[1], "~/") && ConfigFiles[1][1..] == "/.config/splunk-monitoring.json"
  {
    assert ConfigFiles[0][0] == '/';
    assert ConfigFiles[1][..2] == "~/";
  }

  lemma ConfigLoaderReadsUserConfig(files: Files, home: string, cfg: Config)
    requires ConfigFiles[0] !in files
    requires UserConfig(home) in files && files[UserConfig(home)] == Some(cfg)
    ensures ConfigLoader(files, home) == Success(cfg)
  {
    var paths := ExpandAll(ConfigFiles, home);
    CandidatePrefixes();
    assert FirstExisting(paths, files) == Some(1);
  }
}
