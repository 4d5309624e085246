/**
 * Configuration loading and saving, and the IPv4 validator.
 *
 * The configuration file is given as the options of its `greynoise` section
 * after parsing (`None` when there is no file), and the process environment as
 * a map from variable names to values.
 */
module Util {
  import opened Wrappers
  import opened Errors
  import opened Text
  import opened Http
  import PyRepr

  datatype Config = Config(apiKey: string, apiServer: string, timeout: int)

  type Section = map<string, string>

  const DefaultConfig := Config("", "https://enterprise.api.greynoise.io", 60)

  const EnvApiKey := "GREYNOISE_API_KEY"
  const EnvApiServer := "GREYNOISE_API_SERVER"
  const EnvTimeout := "GREYNOISE_TIMEOUT"

  /** The defaults as the parser holds them: every value passed through `str()`. */
  function DefaultSection(): (d: Section)
    ensures d.Keys == {"api_key", "api_server", "timeout"}
  {
    map["api_key" := DefaultConfig.apiKey,
        "api_server" := DefaultConfig.apiServer,
        "timeout" := IntToString(DefaultConfig.timeout)]
  }

  /** The value an option takes before the environment is consulted: the file's, else the default. */
  function FileOrDefault(file: Option<Section>, option: string): string
    requires option in DefaultSection()
  {
    if file.Some? && option in file.value then file.value[option] else DefaultSection()[option]
  }

  const InvalidLiteralPrefix := "invalid literal for int() with base 10: "

  /** `ValueError` raised by `int(value)` on a string that is not an integer; the message quotes the value. */
  function InvalidLiteral(value: string): (e: Error)
    ensures e.ValueError? && InvalidLiteralPrefix <= e.message
    ensures PyRepr.Unrepr(e.message[|InvalidLiteralPrefix|..]) == Some(value)
  {
    var quoted := PyRepr.Repr(value);
    PyRepr.ReprRoundTrip(value);
    assert (InvalidLiteralPrefix + quoted)[|InvalidLiteralPrefix|..] == quoted;
    ValueError(InvalidLiteralPrefix + quoted)
  }

  /**
   * The configuration `load_config` returns, field by field: an environment
   * variable wins over the file, the file over the defaults, and the timeout
   * variable only counts when it parses as an integer.
   */
  function Resolved(file: Option<Section>, env: Section): Result<Config, Error> {
    var apiKey := if EnvApiKey in env then env[EnvApiKey] else FileOrDefault(file, "api_key");
    var apiServer := if EnvApiServer in env then env[EnvApiServer] else FileOrDefault(file, "api_server");
    var timeoutText :=
      if EnvTimeout in env && ParseInt(env[EnvTimeout]).Some? then env[EnvTimeout]
      else FileOrDefault(file, "timeout");
    match ParseInt(timeoutText)
    case None => Err(InvalidLiteral(timeoutText))
    case Some(timeout) => Ok(Config(apiKey, apiServer, timeout))
  }

  /**
   * `load_config`: start from the defaults, read the file over them, then let
   * each environment variable that is set (and, for the timeout, parses)
   * replace its option; finally read the three options back.
   */
  method LoadConfig(file: Option<Section>, env: Section) returns (r: Result<Config, Error>)
    ensures r == Resolved(file, env)
  {
    var section := DefaultSection();
    if file.Some? {
      section := section + file.value;
    }
    assert forall o :: o in DefaultSection() ==> o in section && section[o] == FileOrDefault(file, o);
    if EnvApiKey in env {
      section := section["api_key" := env[EnvApiKey]];
    }
    if EnvApiServer in env {
      section := section["api_server" := env[EnvApiServer]];
    }
    if EnvTimeout in env {
      var timeout := env[EnvTimeout];
      if ParseInt(timeout).Some? {
        section := section["timeout" := timeout];
      }
    }
    var apiKey, apiServer, timeoutText := section["api_key"], section["api_server"], section["timeout"];
    assert apiKey == if EnvApiKey in env then env[EnvApiKey] else FileOrDefault(file, "api_key");
    assert apiServer == if EnvApiServer in env then env[EnvApiServer] else FileOrDefault(file, "api_server");
    assert timeoutText ==
      if EnvTimeout in env && ParseInt(env[EnvTimeout]).Some? then env[EnvTimeout]
      else FileOrDefault(file, "timeout");
    var timeout := ParseInt(timeoutText);
    if timeout.None? {
      return Err(InvalidLiteral(timeoutText));
    }
    r := Ok(Config(apiKey, apiServer, timeout.value));
  }

  /** With no file and no variables set, the defaults come back. */
  lemma NothingSetGivesDefaults()
    ensures Resolved(None, map[]) == Ok(DefaultConfig)
  {
    IntRoundTrip(DefaultConfig.timeout);
  }

  /** `GREYNOISE_API_KEY` and `GREYNOISE_API_SERVER` override the file whenever the load succeeds. */
  lemma EnvironmentOverridesFile(file: Option<Section>, env: Section)
    requires Resolved(file, env).Ok?
    ensures EnvApiKey in env ==> Resolved(file, env).value.apiKey == env[EnvApiKey]
    ensures EnvApiServer in env ==> Resolved(file, env).value.apiServer == env[EnvApiServer]
    ensures EnvApiKey !in env ==> Resolved(file, env).value.apiKey == FileOrDefault(file, "api_key")
    ensures EnvApiServer !in env ==> Resolved(file, env).value.apiServer == FileOrDefault(file, "api_server")
  {
  }

  /** A timeout variable that parses wins, and the load then cannot fail, whatever the file says. */
  lemma EnvironmentTimeoutWins(file: Option<Section>, env: Section, t: int)
    requires EnvTimeout in env && ParseInt(env[EnvTimeout]) == Some(t)
    ensures Resolved(file, env).Ok? && Resolved(file, env).value.timeout == t
  {
  }

  /** A timeout variable that does not parse is ignored without an error. */
  lemma BadEnvironmentTimeoutIgnored(file: Option<Section>, env: Section)
    requires EnvTimeout in env && ParseInt(env[EnvTimeout]).None?
    ensures Resolved(file, env) == Resolved(file, env - {EnvTimeout})
  {
    var rest := env - {EnvTimeout};
    assert EnvApiKey in rest <==> EnvApiKey in env;
    assert EnvApiServer in rest <==> EnvApiServer in env;
  }

  /** A file timeout that is not an integer makes the load fail, unless the environment supplies one. */
  lemma BadFileTimeoutFails(file: Section, env: Section)
    requires "timeout" in file && ParseInt(file["timeout"]).None?
    requires !(EnvTimeout in env && ParseInt(env[EnvTimeout]).Some?)
    ensures Resolved(Some(file), env) == Err(InvalidLiteral(file["timeout"]))
  {
  }

  /** The dict `load_config` returns for a configuration: the shape `save_config` expects. */
  function AsDict(config: Config): map<string, Json> {
    map["api_key" := JStr(config.apiKey), "api_server" := JStr(config.apiServer), "timeout" := JInt(config.timeout)]
  }

  /** The `TypeError` `ConfigParser.set` raises for a value that is not a string. */
  const NotAStringMessage := "option values must be strings"

  /** The dicts `save_config` can write: both text options are strings, and a timeout is present. */
  predicate CanSave(config: map<string, Json>) {
    && "api_key" in config && config["api_key"].JStr?
    && "api_server" in config && config["api_server"].JStr?
    && "timeout" in config
  }

  /**
   * What `save_config(config)` writes into the `greynoise` section, or the
   * first error it raises: reading a missing field raises `KeyError`, and
   * setting a text option to a non-string raises `TypeError`.
   */
  function Saved(config: map<string, Json>): (r: Result<Section, Error>)
    ensures r.Ok? <==> CanSave(config)
    ensures r.Ok? ==> r.value.Keys == {"api_key", "api_server", "timeout"}
    ensures r.Ok? ==> config["api_key"] == JStr(r.value["api_key"]) && config["api_server"] == JStr(r.value["api_server"])
    ensures r.Ok? ==> r.value["timeout"] == PyStr(config["timeout"])
    ensures "api_key" !in config ==> r == Err(KeyError("api_key"))
    ensures r.Err? && r.error.KeyError? ==> r.error.key in DefaultSection() && r.error.key !in config
    ensures r.Err? ==> r.error.KeyError? || r.error == TypeError(NotAStringMessage)
  {
    if "api_key" !in config then Err(KeyError("api_key"))
    else if !config["api_key"].JStr? then Err(TypeError(NotAStringMessage))
    else if "api_server" !in config then Err(KeyError("api_server"))
    else if !config["api_server"].JStr? then Err(TypeError(NotAStringMessage))
    else if "timeout" !in config then Err(KeyError("timeout"))
    else Ok(map["api_key" := config["api_key"].s,
                "api_server" := config["api_server"].s,
                "timeout" := PyStr(config["timeout"])])
  }

  /** `save_config(config)`: adds the section and sets its three options one after the other. */
  method SaveConfig(config: map<string, Json>) returns (r: Result<Section, Error>)
    ensures r == Saved(config)
  {
    var section: Section := map[];
    if "api_key" !in config {
      return Err(KeyError("api_key"));
    }
    if !config["api_key"].JStr? {
      return Err(TypeError(NotAStringMessage));
    }
    section := section["api_key" := config["api_key"].s];
    if "api_server" !in config {
      return Err(KeyError("api_server"));
    }
    if !config["api_server"].JStr? {
      return Err(TypeError(NotAStringMessage));
    }
    section := section["api_server" := config["api_server"].s];
    if "timeout" !in config {
      return Err(KeyError("timeout"));
    }
    section := section["timeout" := PyStr(config["timeout"])];
    r := Ok(section);
  }

  /**
   * Loading what `save_config` wrote for a loaded configuration, read back as
   * the section's option map and with no variables set, gives it back.
   */
  lemma SaveThenLoad(config: Config)
    ensures Saved(AsDict(config)).Ok?
    ensures Resolved(Some(Saved(AsDict(config)).value), map[]) == Ok(config)
  {
    var dict := AsDict(config);
    assert dict["api_key"] == JStr(config.apiKey) && dict["api_server"] == JStr(config.apiServer);
    assert dict["timeout"] == JInt(config.timeout);
    var written := Saved(dict).value;
    assert written["timeout"] == IntToString(config.timeout);
    IntRoundTrip(config.timeout);
    assert FileOrDefault(Some(written), "api_key") == config.apiKey;
    assert FileOrDefault(Some(written), "api_server") == config.apiServer;
    assert FileOrDefault(Some(written), "timeout") == IntToString(config.timeout);
  }

  /** A dict holding only `api_key` is refused: reading `api_server` raises before anything is written. */
  lemma KeyOnlyDictFails(apiKey: string)
    ensures Saved(map["api_key" := JStr(apiKey)]) == Err(KeyError("api_server"))
  {
  }

  /**
   * `validate_ip(ip_address, strict)`, where `inetAton` stands for whether
   * `socket.inet_aton` accepts the address.
   */
  function ValidateIp(ip: string, strict: bool, inetAton: string -> bool): (r: Result<bool, Error>)
    ensures r == Ok(true) <==> inetAton(ip)
    ensures !strict ==> r == Ok(inetAton(ip))
    ensures strict && !inetAton(ip) ==> r == Err(ValueError("Invalid IP address: " + PyRepr.Repr(ip)))
  {
    if inetAton(ip) then Ok(true)
    else if strict then Err(ValueError("Invalid IP address: " + PyRepr.Repr(ip)))
    else Ok(false)
  }

  /** The two modes agree on every address the strict mode accepts, and the strict mode fails on every other. */
  lemma ModesAgree(ip: string, inetAton: string -> bool)
    ensures ValidateIp(ip, true, inetAton).Ok? <==> ValidateIp(ip, false, inetAton) == Ok(true)
    ensures ValidateIp(ip, false, inetAton).Ok?
  {
  }
}
