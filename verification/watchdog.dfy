/**
 * The HEC watchdog: it validates the configuration, settles `seconds` and
 * `print_ping` from the command line, and sends one "ping" event before
 * the optional schedule loop.
 */
module Watchdog {
  import opened Wrappers
  import opened Text
  import opened Hec

  /** The keys `check_config` demands, in the order it reports them. */
  const RequiredKeys := ["hec_index", "hec_host", "hec_token"]

  const MissingPrefix := "The following keys are missing from the config: "

  /** The keys of `keys` absent from `config`, in order. */
  function Missing(keys: seq<string>, config: Config): (r: seq<string>)
    ensures forall k :: k in r <==> k in keys && k !in config
    ensures |r| <= |keys|
  {
    if keys == [] then []
    else (if keys[0] in config then [] else [keys[0]]) + Missing(keys[1..], config)
  }

  /** The missing keys keep the order of `keys`: they are found piece by
      piece. */
  lemma {:induction false} MissingAppend(a: seq<string>, b: seq<string>, config: Config)
    ensures Missing(a + b, config) == Missing(a, config) + Missing(b, config)
  {
    if a != [] {
      assert (a + b)[0] == a[0];
      assert (a + b)[1..] == a[1..] + b;
      MissingAppend(a[1..], b, config);
    } else {
      assert a + b == b;
    }
  }

  /** `check_config`: passes, or fails with the `ValueError` message. */
  function CheckConfig(config: Config): (r: Outcome<string>)
    ensures r.Pass? <==> forall k :: k in RequiredKeys ==> k in config
    ensures r.Fail? ==> StartsWith(r.error, MissingPrefix)
  {
    var missing := Missing(RequiredKeys, config);
    if missing == [] then Pass
    else
      var message := MissingPrefix + Join(missing, ',');
      assert missing[0] in missing;
      assert message[..|MissingPrefix|] == MissingPrefix;
      Fail(message)
  }

  /** The message names exactly the missing keys, comma-separated, in the
      order index, host, token. */
  lemma CheckConfigMessage(config: Config)
    requires CheckConfig(config).Fail?
    ensures Split(CheckConfig(config).error[|MissingPrefix|..], ',') == Missing(RequiredKeys, config)
  {
    var missing := Missing(RequiredKeys, config);
    var message := MissingPrefix + Join(missing, ',');
    assert message[|MissingPrefix|..] == Join(missing, ',');
    assert forall k :: 0 <= k < |missing| ==> missing[k] in RequiredKeys;
    assert forall k :: 0 <= k < |missing| ==> ',' !in missing[k] by {
      forall k | 0 <= k < |missing|
        ensures ',' !in missing[k]
      {
        assert missing[k] == "hec_index" || missing[k] == "hec_host" || missing[k] == "hec_token";
      }
    }
    SplitJoin(missing, ',');
  }

  const DefaultSeconds := 300

  /** The configuration after the `cli` overrides: `--seconds` wins, else
      the file's `seconds` stays, else 300; `print_ping` always takes the
      flag. */
  function Settle(config: Config, seconds: Option<int>, printPing: bool): (r: Config)
    ensures r.Keys == config.Keys + {"seconds", "print_ping"}
    ensures seconds.Some? ==> r["seconds"] == Int(seconds.value)
    ensures seconds.None? && "seconds" in config ==> r["seconds"] == config["seconds"]
    ensures seconds.None? && "seconds" !in config ==> r["seconds"] == Int(DefaultSeconds)
    ensures r["print_ping"] == Bool(printPing)
    ensures forall k :: k in config && k != "seconds" && k != "print_ping" ==> r[k] == config[k]
  {
    var withSeconds :=
      if seconds.Some? then config["seconds" := Int(seconds.value)]
      else if "seconds" in config then config
      else config["seconds" := Int(DefaultSeconds)];
    withSeconds["print_ping" := Bool(printPing)]
  }

  /** Settling twice with the same options changes nothing more. */
  lemma SettleIdempotent(config: Config, seconds: Option<int>, printPing: bool)
    ensures Settle(Settle(config, seconds, printPing), seconds, printPing) == Settle(config, seconds, printPing)
  {
    var once := Settle(config, seconds, printPing);
    var twice := Settle(once, seconds, printPing);
    assert twice.Keys == once.Keys;
    forall k | k in once
      ensures twice[k] == once[k]
    {
    }
  }

  const DefaultSourcetype := "monitoring:watchdog"
  const UnknownHost := "unknown"

  datatype PingError = MissingIndex

  /** The `params` of `send_ping`: `hostname` is `None` when
      `gethostname()` raised. Reading `hec_index` raises when it is absent. */
  function PingPayload(config: Config, hostname: Option<string>, time: int): (r: Result<Payload, PingError>)
    ensures r.Failure? <==> "hec_index" !in config
    ensures r.Success? ==> r.value.index == config["hec_index"]
    ensures r.Success? ==> r.value.event == Message("ping") && r.value.time == time
    ensures r.Success? ==> r.value.host == (if hostname.Some? then hostname.value else UnknownHost)
    ensures r.Success? && "hec_sourcetype" !in config ==> r.value.sourcetype == Str(DefaultSourcetype)
    ensures r.Success? && "hec_sourcetype" in config ==> r.value.sourcetype == config["hec_sourcetype"]
  {
    if "hec_index" !in config then Failure(MissingIndex)
    else
      var host := match hostname case Some(h) => h case None => UnknownHost;
      Success(Payload(time, host, config["hec_index"], Get(config, "hec_sourcetype", Str(DefaultSourcetype)), Message("ping")))
  }

  /** The `cli` overrides touch only `seconds` and `print_ping`, so the
      ping posted is the one the configuration file describes. */
  lemma SettleKeepsPing(config: Config, seconds: Option<int>, printPing: bool, hostname: Option<string>, time: int, payload: Payload)
    ensures PingPayload(Settle(config, seconds, printPing), hostname, time) == PingPayload(config, hostname, time)
    ensures BuildRequest(Settle(config, seconds, printPing), payload) == BuildRequest(config, payload)
  {
    var settled := Settle(config, seconds, printPing);
    assert Get(settled, "hec_host", Null) == Get(config, "hec_host", Null);
    assert Get(settled, "hec_port", Int(DefaultPort)) == Get(config, "hec_port", Int(DefaultPort));
    assert Get(settled, "hec_token", Null) == Get(config, "hec_token", Null);
  }

  /** A configuration that passes `check_config` has `hec_index`, so the
      ping payload can be built. */
  lemma CheckedHasIndex(config: Config)
    requires CheckConfig(config).Pass?
    ensures "hec_index" in config
  {
    assert RequiredKeys[0] == "hec_index";
  }

  /** What one `send_ping` call did: lines printed to stdout, requests
      posted, whether an error was reported on stderr, and the exit status
      when the process ended inside it. */
  datatype Ping = Ping(printed: seq<string>, sent: seq<Request>, reported: bool, exit: Option<int>)

  /** `send_ping` as written: `send_hec` is called with a `debug` keyword it
      does not accept, so the call raises `TypeError` before anything is
      sent, and the handler reports it. */
  function SendPingAsWritten(config: Config, hostname: Option<string>, time: int, reply: Reply): (r: Result<Ping, PingError>)
    ensures r.Failure? <==> "hec_index" !in config
    ensures r.Success? ==> r.value.sent == [] && r.value.reported && r.value.exit.None?
  {
    var _ :- PingPayload(config, hostname, time);
    var loud := Truthy(Get(config, "print_ping", Null));
    Success(Ping(if loud then ["ping", "pong"] else [], [], true, None))
  }

  /** `send_ping` with the call `send_hec` accepts: one request is posted;
      an `HTTPError` ends the process with status 1 before "pong", any
      other failure is reported and swallowed. */
  function SendPing(config: Config, hostname: Option<string>, time: int, reply: Reply): (r: Result<Ping, PingError>)
    ensures r.Failure? <==> "hec_index" !in config
    ensures r.Success? ==> |r.value.sent| == 1 && r.value.sent[0].url == Url(config)
    ensures r.Success? ==> r.value.sent[0].body == PingPayload(config, hostname, time).value
    ensures r.Success? ==> (r.value.exit == Some(1) <==> reply.HttpError?) && (r.value.exit.None? <==> !reply.HttpError?)
    ensures r.Success? ==> (r.value.reported <==> reply.Unreachable?)
    ensures r.Success? && Truthy(Get(config, "print_ping", Null)) ==>
      r.value.printed == if reply.HttpError? then ["ping"] else ["ping", "pong"]
    ensures r.Success? && !Truthy(Get(config, "print_ping", Null)) ==> r.value.printed == []
  {
    var payload :- PingPayload(config, hostname, time);
    var loud := Truthy(Get(config, "print_ping", Null));
    var (request, delivery) := SendHec(config, payload, reply);
    match delivery
    case Exited(code) => Success(Ping(if loud then ["ping"] else [], [request], false, Some(code)))
    case Delivered => Success(Ping(if loud then ["ping", "pong"] else [], [request], false, None))
    case Raised(_) => Success(Ping(if loud then ["ping", "pong"] else [], [request], true, None))
  }

  /** The ways the start-up ends before the ping. */
  datatype StartError = NoConfig(error: LoadError) | Invalid(message: string)

  /** `cli` as written, up to the optional loop: load and check the
      configuration (no `~` expansion), settle the options, and call
      `send_ping` as written. */
  function StartAsWritten(files: Files, seconds: Option<int>, printPing: bool,
                          hostname: Option<string>, time: int, reply: Reply): (r: Result<(Config, Ping), StartError>)
    ensures r.Success? <==> ConfigLoaderAsWritten(files).Success? && CheckConfig(ConfigLoaderAsWritten(files).value).Pass?
    ensures r.Success? ==> r.value.0 == Settle(ConfigLoaderAsWritten(files).value, seconds, printPing)
    ensures r.Success? ==> r.value.1.sent == [] && r.value.1.reported
  {
    match ConfigLoaderAsWritten(files)
    case Failure(e) => Failure(NoConfig(e))
    case Success(config) =>
      match CheckConfig(config)
      case Fail(message) => Failure(Invalid(message))
      case Pass =>
        CheckedHasIndex(config);
        var settled := Settle(config, seconds, printPing);
        Success((settled, SendPingAsWritten(settled, hostname, time, reply).value))
  }

  /** `cli` with both defects corrected: `~` expanded in the candidate
      paths, and `send_hec` called as it accepts. */
  function Start(files: Files, home: string, seconds: Option<int>, printPing: bool,
                 hostname: Option<string>, time: int, reply: Reply): (r: Result<(Config, Ping), StartError>)
    ensures r.Success? ==> forall k :: k in RequiredKeys ==> k in r.value.0
    ensures r.Success? ==> "seconds" in r.value.0 && "print_ping" in r.value.0 && r.value.0["print_ping"] == Bool(printPing)
  {
    match ConfigLoader(files, home)
    case Failure(e) => Failure(NoConfig(e))
    case Success(config) =>
      match CheckConfig(config)
      case Fail(message) => Failure(Invalid(message))
      case Pass =>
        CheckedHasIndex(config);
        var settled := Settle(config, seconds, printPing);
        Success((settled, SendPing(settled, hostname, time, reply).value))
  }

  /** Corrected, whenever the configuration loads and passes the check,
      exactly one ping request is posted before any loop starts, and it
      goes to the configured collector. */
  lemma StartSendsOnePing(files: Files, home: string, seconds: Option<int>, printPing: bool,
                          hostname: Option<string>, time: int, reply: Reply)
    requires ConfigLoader(files, home).Success?
    requires CheckConfig(ConfigLoader(files, home).value).Pass?
    ensures Start(files, home, seconds, printPing, hostname, time, reply).Success?
    ensures var (config, ping) := Start(files, home, seconds, printPing, hostname, time, reply).value;
      |ping.sent| == 1 && ping.sent[0].url == Url(ConfigLoader(files, home).value)
  {
    var config := ConfigLoader(files, home).value;
    var settled := Settle(config, seconds, printPing);
    assert Get(settled, "hec_host", Null) == Get(config, "hec_host", Null);
    assert Get(settled, "hec_port", Int(DefaultPort)) == Get(config, "hec_port", Int(DefaultPort));
  }

  /** As written, with the same configuration found both ways, the start-up
      settles the same configuration but posts no ping and reports an
      error, where the corrected one posts exactly one. */
  lemma StartAsWrittenSendsNothing(files: Files, home: string, seconds: Option<int>, printPing: bool,
                                   hostname: Option<string>, time: int, reply: Reply)
    requires ConfigLoaderAsWritten(files) == ConfigLoader(files, home)
    requires ConfigLoader(files, home).Success?
    requires CheckConfig(ConfigLoader(files, home).value).Pass?
    ensures StartAsWritten(files, seconds, printPing, hostname, time, reply).Success?
    ensures var (config, ping) := StartAsWritten(files, seconds, printPing, hostname, time, reply).value;
      config == Start(files, home, seconds, printPing, hostname, time, reply).value.0 && ping.sent == [] && ping.reported
    ensures |Start(files, home, seconds, printPing, hostname, time, reply).value.1.sent| == 1
  {
    StartSendsOnePing(files, home, seconds, printPing, hostname, time, reply);
  }
}
