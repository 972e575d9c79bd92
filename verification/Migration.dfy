/** The desktop's start-up rewrite of its runtime configuration. */
module Migration {
  import opened Json
  import opened PluginList

  type Config = map<string, Json>

  datatype Result = Migrated(config: Config) | Conflict(urls: seq<string>)

  /** Where the managed gateway lives, and how a port number prints. */
  datatype Desktop = Desktop(gatewayDir: string, databasePath: string, portText: real -> string)

  const LEGACY := "codex-backend-api"
  const GATEWAY := "aigw-codex-backend"
  const RUNNER := "aigw-runner"
  const BASE := "aigw-base"
  const NAMES := Names(LEGACY, GATEWAY, RUNNER, BASE)

  const DEFAULT_MODEL := "codex/gpt-5.4-mini"
  const DEFAULT_URL := "http://127.0.0.1:9105"

  lemma NamesApart()
    ensures Apart(NAMES)
  {
    assert |LEGACY| == 17 && |GATEWAY| == 18 && |RUNNER| == 11 && |BASE| == 9;
  }

  // ---- reading values ------------------------------------------------------------------

  function Record(c: Config, key: string): Config {
    if key in c && c[key].Obj? then c[key].fields else map[]
  }

  predicate IsRecord(c: Config, key: string) { key in c && c[key].Obj? }

  predicate IsText(c: Config, key: string) { key in c && c[key].Str? }

  function Texts(items: seq<Json>): seq<string> {
    if items == [] then [] else (if items[0].Str? then [items[0].s] else []) + Texts(items[1..])
  }

  function PluginNames(c: Config): seq<string> {
    if "plugins" in c && c["plugins"].Arr? then Texts(c["plugins"].items) else []
  }

  function Items(ps: seq<string>): seq<Json> {
    seq(|ps|, i requires 0 <= i < |ps| => Str(ps[i]))
  }

  predicate IsSpace(c: char) {
    || (9 as char <= c <= 13 as char) || c == ' ' || c == '\U{A0}' || c == '\U{1680}'
    || ('\U{2000}' <= c <= '\U{200A}') || c in ['\U{2028}', '\U{2029}', '\U{202F}', '\U{205F}', '\U{3000}', '\U{FEFF}']
  }

  function Trim(s: string): string
    decreases |s|
  {
    if s == "" then ""
    else if IsSpace(s[0]) then Trim(s[1..])
    else if IsSpace(s[|s| - 1]) then Trim(s[..|s| - 1])
    else s
  }

  function DropSlashes(s: string): string
    decreases |s|
  {
    if s != "" && s[|s| - 1] == '/' then DropSlashes(s[..|s| - 1]) else s
  }

  function NormalUrl(raw: string): string { DropSlashes(Trim(raw)) }

  /** aigw-...-backend */
  predicate IsBackend(name: string) {
    var p, q := "aigw-", "-backend";
    p <= name && |q| <= |name| && name[|name| - |q|..] == q
  }

  // ---- sections --------------------------------------------------------------------------

  /** The runner's settings lose what the desktop no longer honours and gain its directories. */
  function RunnerConfig(runner: Config, d: Desktop): Config {
    var kept := runner - {"auth_enabled", "enabled"};
    var cleaned := if IsText(kept, "uv_bin") && Trim(kept["uv_bin"].s) != "" then kept else kept - {"uv_bin"};
    var timeout := if "startup_timeout_seconds" in runner && runner["startup_timeout_seconds"].Num?
                      && runner["startup_timeout_seconds"].n >= 60.0
                   then runner["startup_timeout_seconds"] else Num(60.0);
    cleaned["aigateway_dir" := Str(d.gatewayDir)]["database_path" := Str(d.databasePath)]
           ["startup_timeout_seconds" := timeout]
  }

  function CodexConfig(legacy: Json): Config {
    var c := if legacy.Obj? then legacy.fields else map[];
    var c1 := if IsText(c, "default_model") && "codex/" <= c["default_model"].s then c
              else c["default_model" := Str(DEFAULT_MODEL)];
    if IsText(c1, "auth_profile") then c1 else c1["auth_profile" := Str("default")]
  }

  /** A legacy backend's settings move to the gateway backend, unless that one has its own. */
  function MoveLegacy(pc: Config, had: bool): Config {
    if had && LEGACY in pc then
      (if IsRecord(pc, GATEWAY) then pc else pc[GATEWAY := Obj(CodexConfig(pc[LEGACY]))]) - {LEGACY}
    else pc
  }

  predicate HasUrl(v: Json) {
    v.Obj? && IsText(v.fields, "gateway_url") && Trim(v.fields["gateway_url"].s) != ""
  }

  /** The distinct normalised gateway URLs of all backends. */
  function Urls(pc: Config): set<string> {
    set name | name in pc && IsBackend(name) && HasUrl(pc[name]) :: NormalUrl(pc[name].fields["gateway_url"].s)
  }

  function FallbackUrl(runner: Config, d: Desktop): string {
    if "port" in runner && runner["port"].Num? && runner["port"].n > 0.0 && runner["port"].n != 9105.0
    then "http://127.0.0.1:" + d.portText(runner["port"].n) else DEFAULT_URL
  }

  predicate IsMode(c: Config) { "mode" in c && c["mode"] in {Str("local_managed"), Str("external")} }

  /** The base settings, given the URL to use when there is none yet. */
  function BaseConfig(base: Config, url: string, external: bool): Config {
    var b := if IsText(base, "gateway_url") then base else base["gateway_url" := Str(url)];
    if IsMode(b) then b else b["mode" := Str(if external then "external" else "local_managed")]
  }

  function StripUrl(name: string, v: Json): Json {
    if IsBackend(name) && v.Obj? then Obj(v.fields - {"gateway_url"}) else v
  }

  function StripUrls(pc: Config): Config { map name | name in pc :: StripUrl(name, pc[name]) }

  // ---- the whole rewrite -------------------------------------------------------------------

  function RunnerDone(c: Config, d: Desktop): Config {
    var pc := Record(c, "plugin_config");
    pc[RUNNER := Obj(RunnerConfig(Record(pc, RUNNER), d))]
  }

  function LegacyDone(c: Config, d: Desktop): Config {
    MoveLegacy(RunnerDone(c, d), LEGACY in PluginNames(c))
  }

  /** The old runner asked for authentication, or was switched off. */
  predicate WasExternal(c: Config) {
    var runner := Record(Record(c, "plugin_config"), RUNNER);
    || ("auth_enabled" in runner && runner["auth_enabled"] == Bool(true))
    || ("enabled" in runner && runner["enabled"] == Bool(false))
  }

  /** Without a base URL, several backend URLs cannot be reconciled. */
  predicate Conflicts(c: Config, d: Desktop) {
    !IsText(Record(LegacyDone(c, d), BASE), "gateway_url") && |Urls(LegacyDone(c, d))| > 1
  }

  /** `url` is the base URL to use when none is set. */
  function Rewritten(c: Config, d: Desktop, url: string): Config {
    var pc := LegacyDone(c, d);
    var done := pc[BASE := Obj(BaseConfig(Record(pc, BASE), url, WasExternal(c)))];
    c["server" := Obj(Record(c, "server")["host" := Str("127.0.0.1")])]
     ["plugins" := Arr(Items(MigratePlugins(NAMES, PluginNames(c))))]
     ["plugin_config" := Obj(StripUrls(done))]
  }

  /** The URL carried over: the one backend URL if there is exactly one, else the fallback. */
  ghost predicate Carried(c: Config, d: Desktop, url: string) {
    var urls := Urls(LegacyDone(c, d));
    && (|urls| == 1 ==> url in urls)
    && (|urls| == 0 ==> url == FallbackUrl(Record(RunnerDone(c, d), RUNNER), d))
  }

  method GatewayUrls(pc: Config) returns (urls: seq<string>)
    ensures |urls| == |Urls(pc)| && forall u :: u in urls <==> u in Urls(pc)
  {
    urls := [];
    var rest := pc.Keys;
    ghost var seen: set<string> := {};
    while rest != {}
      invariant rest <= pc.Keys
      invariant seen == set name | name in pc.Keys - rest && IsBackend(name) && HasUrl(pc[name])
                            :: NormalUrl(pc[name].fields["gateway_url"].s)
      invariant |urls| == |seen| && forall u :: u in urls <==> u in seen
      decreases |rest|
    {
      var name :| name in rest;
      if IsBackend(name) && HasUrl(pc[name]) {
        var normalized := NormalUrl(pc[name].fields["gateway_url"].s);
        if normalized !in urls {
          urls := urls + [normalized];
        }
        seen := seen + {normalized};
      }
      rest := rest - {name};
    }
    assert seen == Urls(pc);
  }

  /** The plugin settings with the runner rewritten and the legacy backend moved. */
  method MoveBackends(c: Config, d: Desktop, had: bool) returns (pc: Config)
    requires had <==> LEGACY in PluginNames(c)
    ensures pc == LegacyDone(c, d)
  {
    pc := Record(c, "plugin_config");
    pc := pc[RUNNER := Obj(RunnerConfig(Record(pc, RUNNER), d))];
    if had && LEGACY in pc {
      if !IsRecord(pc, GATEWAY) {
        pc := pc[GATEWAY := Obj(CodexConfig(pc[LEGACY]))];
      }
      pc := pc - {LEGACY};
    }
  }

  /** The base settings; `chosen` is the URL that was filled in, if any. */
  method FillBase(base0: Config, urls: seq<string>, fallback: string, external: bool)
    returns (base: Config, chosen: string)
    requires IsText(base0, "gateway_url") || |urls| <= 1
    ensures base == BaseConfig(base0, chosen, external)
    ensures |urls| == 1 ==> IsText(base0, "gateway_url") || chosen == urls[0]
    ensures |urls| == 0 ==> IsText(base0, "gateway_url") || chosen == fallback
  {
    base, chosen := base0, "";
    if !IsText(base, "gateway_url") {
      chosen := if |urls| == 1 then urls[0] else fallback;
      base := base["gateway_url" := Str(chosen)];
    }
    if !IsMode(base) {
      base := base["mode" := Str(if external then "external" else "local_managed")];
    }
  }

  method MigrateDesktopRuntimeConfig(c: Config, d: Desktop) returns (r: Result, ghost url: string)
    ensures r.Conflict? <==> Conflicts(c, d)
    ensures r.Conflict? ==> forall u :: u in r.urls <==> u in Urls(LegacyDone(c, d))
    ensures r.Migrated? ==> r.config == Rewritten(c, d, url)
    ensures r.Migrated? && !IsText(Record(LegacyDone(c, d), BASE), "gateway_url") ==> Carried(c, d, url)
  {
    var plugins := PluginNames(c);
    var nextPlugins := MigratePluginList(NAMES, plugins);
    var server := Record(c, "server")["host" := Str("127.0.0.1")];
    var external := WasExternal(c);
    var fallback := FallbackUrl(Record(RunnerDone(c, d), RUNNER), d);
    var pluginConfig := MoveBackends(c, d, LEGACY in plugins);
    var base := Record(pluginConfig, BASE);
    var urls := GatewayUrls(pluginConfig);
    if !IsText(base, "gateway_url") && |urls| > 1 {
      return Conflict(urls), "";
    }
    var filled, chosen := FillBase(base, urls, fallback, external);
    var done := StripAll(pluginConfig[BASE := Obj(filled)]);
    url := chosen;
    r := Migrated(c["server" := Obj(server)]["plugins" := Arr(Items(nextPlugins))]["plugin_config" := Obj(done)]);
  }

  /** Remove every backend's own URL, one entry after the other. */
  method StripAll(pc: Config) returns (done: Config)
    ensures done == StripUrls(pc)
  {
    done := pc;
    var rest := pc.Keys;
    while rest != {}
      invariant rest <= pc.Keys && done.Keys == pc.Keys
      invariant forall name :: name in pc ==> done[name] == if name in rest then pc[name] else StripUrl(name, pc[name])
      decreases |rest|
    {
      var name :| name in rest;
      if IsBackend(name) && done[name].Obj? {
        done := done[name := Obj(done[name].fields - {"gateway_url"})];
      }
      rest := rest - {name};
    }
  }
}
