/** What the configuration rewrite guarantees: it settles after one pass, carries a single
    gateway URL over, refuses two, and leaves everything else alone. */
module MigrationFacts {
  import opened Json
  import opened PluginList
  import opened Migration

  lemma NotBackends()
    ensures !IsBackend(RUNNER) && !IsBackend(BASE)
  {
    assert RUNNER[3..][0] == 'w' && "-backend"[0] == '-';
    assert BASE[1..][0] == 'i';
  }

  // ---- reading back what was written ----------------------------------------------------

  lemma {:induction false} TextsItems(ps: seq<string>)
    ensures Texts(Items(ps)) == ps
  {
    if ps != [] {
      assert Items(ps)[1..] == Items(ps[1..]);
      TextsItems(ps[1..]);
    }
  }

  /** The backends' part of the rewritten plugin settings. */
  ghost function Settings(c: Config, d: Desktop, url: string): Config {
    var pc := LegacyDone(c, d);
    StripUrls(pc[BASE := Obj(BaseConfig(Record(pc, BASE), url, WasExternal(c)))])
  }

  ghost function Assemble(c: Config, server: Config, plugins: seq<string>, pc: Config): Config {
    c["server" := Obj(server)]["plugins" := Arr(Items(plugins))]["plugin_config" := Obj(pc)]
  }

  lemma RewrittenPieces(c: Config, d: Desktop, url: string)
    ensures Rewritten(c, d, url) ==
            Assemble(c, Record(c, "server")["host" := Str("127.0.0.1")],
                     MigratePlugins(NAMES, PluginNames(c)), Settings(c, d, url))
  {
  }

  lemma AssembleReads(c: Config, server: Config, plugins: seq<string>, pc: Config)
    ensures var r := Assemble(c, server, plugins, pc);
            && Record(r, "plugin_config") == pc && Record(r, "server") == server && PluginNames(r) == plugins
            && forall key :: key !in {"server", "plugins", "plugin_config"} ==>
                 (key in r <==> key in c) && (key in c ==> r[key] == c[key])
  {
    TextsItems(plugins);
    KeysApart();
  }

  lemma ReadBack(c: Config, d: Desktop, url: string)
    ensures var r := Rewritten(c, d, url);
            && Record(r, "plugin_config") == Settings(c, d, url)
            && Record(r, "server") == Record(c, "server")["host" := Str("127.0.0.1")]
            && PluginNames(r) == MigratePlugins(NAMES, PluginNames(c))
            && forall key :: key !in {"server", "plugins", "plugin_config"} ==>
                 (key in r <==> key in c) && (key in c ==> r[key] == c[key])
  {
    RewrittenPieces(c, d, url);
    AssembleReads(c, Record(c, "server")["host" := Str("127.0.0.1")],
                  MigratePlugins(NAMES, PluginNames(c)), Settings(c, d, url));
  }

  lemma KeysApart()
    ensures "server" != "plugins" && "server" != "plugin_config" && "plugins" != "plugin_config"
  {
  }

  // ---- the sections are settled after one pass --------------------------------------------

  lemma RunnerSettled(runner: Config, d: Desktop)
    ensures var r := RunnerConfig(runner, d);
            && RunnerConfig(r, d) == r
            && "auth_enabled" !in r && "enabled" !in r
  {
    RunnerKeys();
    var r := RunnerConfig(runner, d);
    assert r - {"auth_enabled", "enabled"} == r;
    assert "startup_timeout_seconds" in r;
    assert r["startup_timeout_seconds"].Num? && r["startup_timeout_seconds"].n >= 60.0;
    assert "uv_bin" in r ==> IsText(r, "uv_bin") && Trim(r["uv_bin"].s) != "";
    assert r["aigateway_dir" := Str(d.gatewayDir)] == r;
    assert r["database_path" := Str(d.databasePath)] == r;
    assert r["startup_timeout_seconds" := r["startup_timeout_seconds"]] == r;
    if "uv_bin" !in r {
      assert r - {"uv_bin"} == r;
    }
  }

  lemma RunnerKeys()
    ensures {"auth_enabled", "enabled", "uv_bin"} !! {"aigateway_dir", "database_path", "startup_timeout_seconds"}
    ensures "auth_enabled" != "enabled" && "auth_enabled" != "uv_bin" && "enabled" != "uv_bin"
    ensures "aigateway_dir" != "database_path"
    ensures "aigateway_dir" != "startup_timeout_seconds" && "database_path" != "startup_timeout_seconds"
  {
    assert "aigateway_dir"[0] == 'a' && "database_path"[0] == 'd';
  }

  lemma BaseSettled(base: Config, url: string, external: bool, url': string, external': bool)
    ensures var b := BaseConfig(base, url, external);
            IsText(b, "gateway_url") && IsMode(b) && BaseConfig(b, url', external') == b
  {
    assert "mode" != "gateway_url";
  }

  lemma StripSettled(pc: Config)
    ensures StripUrls(StripUrls(pc)) == StripUrls(pc)
  {
    forall name | name in pc ensures StripUrl(name, StripUrl(name, pc[name])) == StripUrl(name, pc[name]) {
      if IsBackend(name) && pc[name].Obj? {
        var f := pc[name].fields;
        assert (f - {"gateway_url"}) - {"gateway_url"} == f - {"gateway_url"};
      }
    }
  }

  /** What the rewritten settings hold for the runner and the base plugin. */
  lemma SettingsSections(c: Config, d: Desktop, url: string)
    ensures var s := Settings(c, d, url);
            && RUNNER in s && s[RUNNER] == Obj(RunnerConfig(Record(Record(c, "plugin_config"), RUNNER), d))
            && BASE in s && s[BASE] == Obj(BaseConfig(Record(LegacyDone(c, d), BASE), url, WasExternal(c)))
            && StripUrls(s) == s
  {
    NotBackends();
    NamesApart();
    StripSettled(LegacyDone(c, d)[BASE := Obj(BaseConfig(Record(LegacyDone(c, d), BASE), url, WasExternal(c)))]);
  }

  lemma PluginsSettled(c: Config, d: Desktop, url: string)
    ensures LEGACY !in PluginNames(Rewritten(c, d, url))
    ensures MigratePlugins(NAMES, PluginNames(Rewritten(c, d, url))) == PluginNames(Rewritten(c, d, url))
  {
    NamesApart();
    ReadBack(c, d, url);
    PluginListFacts(NAMES, PluginNames(c));
    PluginListIdempotent(NAMES, PluginNames(c));
  }

  lemma LegacySettled(c: Config, d: Desktop, url: string)
    ensures LegacyDone(Rewritten(c, d, url), d) == Settings(c, d, url)
  {
    var r, s := Rewritten(c, d, url), Settings(c, d, url);
    ReadBack(c, d, url);
    PluginsSettled(c, d, url);
    SettingsSections(c, d, url);
    RunnerSettled(Record(Record(c, "plugin_config"), RUNNER), d);
    assert Record(s, RUNNER) == RunnerConfig(Record(Record(c, "plugin_config"), RUNNER), d);
    assert s[RUNNER := Obj(RunnerConfig(Record(s, RUNNER), d))] == s;
  }

  /** The pieces a configuration already holds. */
  ghost predicate Holds(r: Config, server: Config, plugins: seq<string>, pc: Config) {
    && "server" in r && r["server"] == Obj(server)
    && "plugins" in r && r["plugins"] == Arr(Items(plugins))
    && "plugin_config" in r && r["plugin_config"] == Obj(pc)
  }

  lemma AssembleHolds(c: Config, server: Config, plugins: seq<string>, pc: Config)
    ensures Holds(Assemble(c, server, plugins, pc), server, plugins, pc)
  {
    KeysApart();
  }

  /** Writing back what is already there changes nothing. */
  lemma SamePieces(r: Config, server: Config, plugins: seq<string>, pc: Config)
    requires Holds(r, server, plugins, pc)
    ensures Assemble(r, server, plugins, pc) == r
  {
  }

  lemma HoldsPieces(c: Config, d: Desktop, url: string)
    ensures var r := Rewritten(c, d, url);
            && Holds(r, Record(r, "server"), PluginNames(r), Settings(c, d, url))
            && Record(r, "server")["host" := Str("127.0.0.1")] == Record(r, "server")
  {
    var server, plugins := Record(c, "server")["host" := Str("127.0.0.1")], MigratePlugins(NAMES, PluginNames(c));
    RewrittenPieces(c, d, url);
    AssembleHolds(c, server, plugins, Settings(c, d, url));
    ReadBack(c, d, url);
  }

  lemma SettingsSettled(c: Config, d: Desktop, url: string, url': string)
    ensures Settings(Rewritten(c, d, url), d, url') == Settings(c, d, url)
    ensures !Conflicts(Rewritten(c, d, url), d)
  {
    var r, s := Rewritten(c, d, url), Settings(c, d, url);
    LegacySettled(c, d, url);
    SettingsSections(c, d, url);
    BaseSettled(Record(LegacyDone(c, d), BASE), url, WasExternal(c), url', WasExternal(r));
    assert s[BASE := Obj(BaseConfig(Record(s, BASE), url', WasExternal(r)))] == s;
  }

  /** Rewriting a rewritten configuration changes nothing and never fails, whatever the input
      was and whichever URL the second pass would have filled in. */
  lemma RewriteSettles(c: Config, d: Desktop, url: string, url': string)
    ensures !Conflicts(Rewritten(c, d, url), d)
    ensures Rewritten(Rewritten(c, d, url), d, url') == Rewritten(c, d, url)
  {
    var r := Rewritten(c, d, url);
    SettingsSettled(c, d, url, url');
    PluginsSettled(c, d, url);
    HoldsPieces(c, d, url);
    RewrittenPieces(r, d, url');
    SamePieces(r, Record(r, "server"), PluginNames(r), Settings(c, d, url));
  }

  // ---- the gateway URL --------------------------------------------------------------------------

  /** The gateway URL some backend asks for, normalised. */
  ghost predicate Asks(pc: Config, name: string, url: string) {
    name in pc && IsBackend(name) && HasUrl(pc[name]) && NormalUrl(pc[name].fields["gateway_url"].s) == url
  }

  lemma AskedUrls(pc: Config, url: string)
    ensures url in Urls(pc) <==> exists name :: Asks(pc, name, url)
  {
    if url in Urls(pc) {
      var name :| && name in pc && IsBackend(name) && HasUrl(pc[name])
                  && NormalUrl(pc[name].fields["gateway_url"].s) == url;
      assert Asks(pc, name, url);
    }
  }

  /** The rewrite refuses exactly when no base URL is set and two backends ask for different ones. */
  lemma ConflictMeans(c: Config, d: Desktop)
    ensures Conflicts(c, d) <==>
      var pc := LegacyDone(c, d);
      !IsText(Record(pc, BASE), "gateway_url") && exists a, b, u, v :: Asks(pc, a, u) && Asks(pc, b, v) && u != v
  {
    var pc := LegacyDone(c, d);
    var urls := Urls(pc);
    if |urls| > 1 {
      var u :| u in urls;
      assert |urls - {u}| == |urls| - 1;
      var v :| v in urls - {u};
      AskedUrls(pc, u);
      AskedUrls(pc, v);
    }
    if a, b, u, v :| Asks(pc, a, u) && Asks(pc, b, v) && u != v {
      AskedUrls(pc, u);
      AskedUrls(pc, v);
      assert {u, v} <= urls;
      TwoOrMore(urls, u, v);
    }
  }

  lemma TwoOrMore<T>(s: set<T>, a: T, b: T)
    requires a in s && b in s && a != b
    ensures |s| > 1
  {
    assert s == {a, b} + (s - {a, b});
  }

  /** When no base URL is set and the backends ask for one URL between them, the base gets it;
      a base URL that is set stays. */
  lemma UrlCarried(c: Config, d: Desktop, url: string, name: string, asked: string)
    requires !IsText(Record(LegacyDone(c, d), BASE), "gateway_url") ==> Carried(c, d, url)
    requires Asks(LegacyDone(c, d), name, asked) && !Conflicts(c, d)
    ensures var before, s := Record(LegacyDone(c, d), BASE), Settings(c, d, url);
            BASE in s && s[BASE].Obj? && "gateway_url" in s[BASE].fields && s[BASE].fields["gateway_url"] ==
              if IsText(before, "gateway_url") then before["gateway_url"] else Str(asked)
  {
    BaseUrl(c, d, url);
    AskedUrls(LegacyDone(c, d), asked);
    var urls := Urls(LegacyDone(c, d));
    if !IsText(Record(LegacyDone(c, d), BASE), "gateway_url") {
      assert |urls| == 1 && url in urls;
      if url != asked {
        TwoOrMore(urls, url, asked);
      }
    }
  }

  /** The port the old runner was moved to, if any. */
  predicate MovedPort(runner: Config) {
    "port" in runner && runner["port"].Num? && runner["port"].n > 0.0 && runner["port"].n != 9105.0
  }

  const LOCAL := "http://127.0.0.1:"

  lemma PortKept(runner: Config, d: Desktop)
    ensures var r := RunnerConfig(runner, d);
            ("port" in r <==> "port" in runner) && ("port" in r ==> r["port"] == runner["port"])
  {
    assert |"port"| == 4 && |"enabled"| == 7 && |"auth_enabled"| == 12 && |"uv_bin"| == 6;
    RunnerKept(runner, d, "port");
  }

  lemma FallbackMeans(runner: Config, d: Desktop)
    ensures FallbackUrl(RunnerConfig(runner, d), d) ==
            LOCAL + if MovedPort(runner) then d.portText(runner["port"].n) else "9105"
  {
    PortKept(runner, d);
    assert DEFAULT_URL == LOCAL + "9105";
  }

  lemma BaseUrl(c: Config, d: Desktop, url: string)
    ensures var before, s := Record(LegacyDone(c, d), BASE), Settings(c, d, url);
            BASE in s && s[BASE].Obj? && "gateway_url" in s[BASE].fields && s[BASE].fields["gateway_url"] ==
              if IsText(before, "gateway_url") then before["gateway_url"] else Str(url)
  {
    SettingsSections(c, d, url);
    assert "mode" != "gateway_url";
  }

  lemma NobodyAsks(pc: Config)
    requires forall name, asked :: !Asks(pc, name, asked)
    ensures |Urls(pc)| == 0
  {
    forall u ensures u !in Urls(pc) {
      AskedUrls(pc, u);
    }
    assert Urls(pc) == {};
  }

  /** When no base URL is set and no backend asks for one, the base points at this machine: at
      the port the runner was moved to, else at the standard one. */
  lemma UrlFallsBack(c: Config, d: Desktop, url: string)
    requires !IsText(Record(LegacyDone(c, d), BASE), "gateway_url") && Carried(c, d, url)
    requires forall name, asked :: !Asks(LegacyDone(c, d), name, asked)
    ensures var runner, s := Record(Record(c, "plugin_config"), RUNNER), Settings(c, d, url);
            BASE in s && s[BASE].Obj? && "gateway_url" in s[BASE].fields && s[BASE].fields["gateway_url"] ==
              Str(LOCAL + if MovedPort(runner) then d.portText(runner["port"].n) else "9105")
  {
    BaseUrl(c, d, url);
    NobodyAsks(LegacyDone(c, d));
    FallbackMeans(Record(Record(c, "plugin_config"), RUNNER), d);
  }

  /** Everything the rewrite is not about stays: other sections, other plugins' settings but for
      a backend's URL, and every other top-level key. */
  lemma RestUntouched(c: Config, d: Desktop, url: string, name: string)
    requires name !in {LEGACY, GATEWAY, RUNNER, BASE}
    ensures var before, after := Record(c, "plugin_config"), Settings(c, d, url);
            && (name in after <==> name in before)
            && (name in before ==> after[name] == StripUrl(name, before[name]))
  {
  }

  /** No backend keeps a URL of its own. */
  lemma NoBackendUrl(c: Config, d: Desktop, url: string, name: string)
    requires IsBackend(name) && IsRecord(Settings(c, d, url), name)
    ensures "gateway_url" !in Settings(c, d, url)[name].fields
  {
    var pc := LegacyDone(c, d);
    var done := pc[BASE := Obj(BaseConfig(Record(pc, BASE), url, WasExternal(c)))];
    assert Settings(c, d, url)[name] == StripUrl(name, done[name]);
  }

  /** The base mode is kept when valid; otherwise it is external exactly when the old runner
      had asked for authentication or was switched off. */
  lemma ModeChosen(c: Config, d: Desktop, url: string)
    ensures var before, after := Record(LegacyDone(c, d), BASE), Settings(c, d, url)[BASE].fields;
            "mode" in after && after["mode"] ==
              if IsMode(before) then before["mode"]
              else if WasExternal(c) then Str("external") else Str("local_managed")
  {
    SettingsSections(c, d, url);
    assert "mode" != "gateway_url";
  }

  // ---- the runner and the moved backend -----------------------------------------------------------

  predicate AsksLonger(runner: Config) {
    var key := "startup_timeout_seconds";
    key in runner && runner[key].Num? && runner[key].n > 60.0
  }

  /** The runner always gets the managed directories and at least a minute to start, and loses
      the two retired switches. */
  lemma RunnerWritten(runner: Config, d: Desktop)
    ensures var r := RunnerConfig(runner, d);
            && "auth_enabled" !in r && "enabled" !in r
            && "aigateway_dir" in r && r["aigateway_dir"] == Str(d.gatewayDir)
            && "database_path" in r && r["database_path"] == Str(d.databasePath)
            && "startup_timeout_seconds" in r
            && r["startup_timeout_seconds"] ==
                 (if AsksLonger(runner) then runner["startup_timeout_seconds"] else Num(60.0))
  {
    RunnerKeys();
  }

  /** It keeps a tool path that is not blank, and everything else. */
  lemma RunnerKept(runner: Config, d: Desktop, key: string)
    requires key !in {"auth_enabled", "enabled", "aigateway_dir", "database_path", "startup_timeout_seconds"}
    ensures var r := RunnerConfig(runner, d);
            && (key in r <==>
                  key in runner && (key == "uv_bin" ==> runner[key].Str? && Trim(runner[key].s) != ""))
            && (key in r ==> r[key] == runner[key])
  {
    RunnerKeys();
  }

  lemma LegacyKeys()
    ensures IsBackend(GATEWAY)
    ensures "default_model" != "auth_profile" && "default_model" != "gateway_url" && "auth_profile" != "gateway_url"
  {
    assert |GATEWAY| == 18 && GATEWAY[..5] == "aigw-" && GATEWAY[10..] == "-backend";
    assert "default_model"[0] == 'd' && "auth_profile"[0] == 'a' && "gateway_url"[0] == 'g';
  }

  lemma CodexRules(legacy: Json, key: string)
    ensures var before, f := (if legacy.Obj? then legacy.fields else map[]), CodexConfig(legacy);
            && IsText(f, "default_model") && "codex/" <= f["default_model"].s && IsText(f, "auth_profile")
            && (key != "default_model" && key != "auth_profile" ==> (key in f <==> key in before))
            && (key in f ==> (key in before && f[key] == before[key])
                             || (key == "default_model" && f[key] == Str(DEFAULT_MODEL))
                             || (key == "auth_profile" && f[key] == Str("default")))
            && (IsText(before, "default_model") && "codex/" <= before["default_model"].s ==>
                  f["default_model"] == before["default_model"])
            && (IsText(before, "auth_profile") ==> f["auth_profile"] == before["auth_profile"])
  {
    LegacyKeys();
    assert DEFAULT_MODEL[..6] == "codex/";
  }

  /** When the legacy backend was listed, its settings are gone. They become the gateway
      backend's, with a model and a profile it accepts, unless that one has settings already. */
  lemma LegacyMoved(c: Config, d: Desktop, url: string)
    requires LEGACY in PluginNames(c)
    ensures var before, after := Record(c, "plugin_config"), Settings(c, d, url);
            && LEGACY !in after
            && (IsRecord(before, GATEWAY) ==>
                  GATEWAY in after && after[GATEWAY] == Obj(before[GATEWAY].fields - {"gateway_url"}))
            && (!IsRecord(before, GATEWAY) && LEGACY in before ==>
                  GATEWAY in after && after[GATEWAY] == Obj(CodexConfig(before[LEGACY]) - {"gateway_url"}))
            && (LEGACY !in before ==> (GATEWAY in after <==> GATEWAY in before))
  {
    NamesApart();
    LegacyKeys();
  }

  /** When it was not listed, neither backend's settings are touched, but for the gateway's URL. */
  lemma UnlistedLegacyStays(c: Config, d: Desktop, url: string)
    requires LEGACY !in PluginNames(c)
    ensures var before, after := Record(c, "plugin_config"), Settings(c, d, url);
            && (LEGACY in after <==> LEGACY in before) && (LEGACY in before ==> after[LEGACY] == before[LEGACY])
            && (GATEWAY in after <==> GATEWAY in before)
            && (GATEWAY in before ==> after[GATEWAY] == StripUrl(GATEWAY, before[GATEWAY]))
  {
    NamesApart();
    assert LEGACY[0] == 'c';
  }
}
