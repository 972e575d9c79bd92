/** The rewrite's vocabulary spelled out: which URLs are the same, which plugins are backends,
    which old switches mean an external gateway, which list entries are read. */
module MigrationMeanings {
  import opened Json
  import opened Migration

  // ---- URLs ------------------------------------------------------------------------

  ghost predicate Blank(s: string) { forall i :: 0 <= i < |s| ==> IsSpace(s[i]) }

  ghost predicate Slashes(s: string) { forall i :: 0 <= i < |s| ==> s[i] == '/' }

  lemma SpacesAre(c: char)
    ensures IsSpace(c) <==>
              || 9 <= c as int <= 13 || c as int == 32 || c as int == 0xA0 || c as int == 0x1680
              || 0x2000 <= c as int <= 0x200A || c as int == 0x2028 || c as int == 0x2029
              || c as int == 0x202F || c as int == 0x205F || c as int == 0x3000 || c as int == 0xFEFF
  {
  }

  /** Trimming removes exactly the outer blanks. */
  lemma {:induction false} TrimExact(before: string, s: string, after: string)
    requires Blank(before) && Blank(after) && s != "" && !IsSpace(s[0]) && !IsSpace(s[|s| - 1])
    ensures Trim(before + s + after) == s
    decreases |before| + |after|
  {
    var whole := before + s + after;
    if before != "" {
      assert whole[1..] == before[1..] + s + after;
      TrimExact(before[1..], s, after);
    } else if after != "" {
      var k := |after| - 1;
      assert whole[0] == s[0] && whole[|whole| - 1] == after[k];
      assert whole[..|whole| - 1] == "" + s + after[..k];
      TrimExact("", s, after[..k]);
    } else {
      assert whole == s;
    }
  }

  lemma {:induction false} TrimBlank(s: string)
    requires Blank(s)
    ensures Trim(s) == ""
    decreases |s|
  {
    if s != "" {
      TrimBlank(s[1..]);
    }
  }

  lemma {:induction false} DropExact(s: string, slashes: string)
    requires Slashes(slashes) && (s == "" || s[|s| - 1] != '/')
    ensures DropSlashes(s + slashes) == s
    decreases |slashes|
  {
    if slashes == "" {
      assert s + slashes == s;
    } else {
      var k := |slashes| - 1;
      assert (s + slashes)[..|s + slashes| - 1] == s + slashes[..k];
      DropExact(s, slashes[..k]);
    }
  }

  /** Outer blanks and trailing slashes do not tell two URLs apart; everything else does. */
  lemma UrlIsItsCore(before: string, url: string, slashes: string, after: string)
    requires Blank(before) && Slashes(slashes) && Blank(after)
    requires url != "" && !IsSpace(url[0]) && !IsSpace(url[|url| - 1]) && url[|url| - 1] != '/'
    ensures NormalUrl(before + url + slashes + after) == url
  {
    var core := url + slashes;
    assert core[0] == url[0] && core[|core| - 1] == if slashes == "" then url[|url| - 1] else '/';
    assert before + url + slashes + after == before + core + after;
    TrimExact(before, core, after);
    DropExact(url, slashes);
  }

  /** A backend asks for a URL exactly when its settings name one that is not blank. */
  lemma AskingMeans(fields: Config, url: string)
    ensures HasUrl(Obj(fields["gateway_url" := Str(url)])) <==> !Blank(url)
    ensures "gateway_url" !in fields ==> !HasUrl(Obj(fields))
  {
    if Blank(url) {
      TrimBlank(url);
    } else {
      NotBlank(url);
    }
  }

  lemma {:induction false} NotBlank(s: string)
    requires !Blank(s)
    ensures Trim(s) != ""
    decreases |s|
  {
    var i :| 0 <= i < |s| && !IsSpace(s[i]);
    if IsSpace(s[0]) {
      assert !IsSpace(s[1..][i - 1]);
      NotBlank(s[1..]);
    } else if IsSpace(s[|s| - 1]) {
      assert !IsSpace(s[..|s| - 1][i]);
      NotBlank(s[..|s| - 1]);
    }
  }

  // ---- backends ------------------------------------------------------------------------

  /** Every aigw-...-backend is one. */
  lemma BackendName(x: string)
    ensures IsBackend("aigw-" + x + "-backend") && IsBackend("aigw-backend")
  {
    var name := "aigw-" + x + "-backend";
    assert name[..5] == "aigw-" && name[|name| - 8..] == "-backend";
    assert "aigw-backend"[..5] == "aigw-" && "aigw-backend"[4..] == "-backend";
  }

  /** And nothing else is, but for the shortest name, where the two hyphens are one. */
  lemma BackendParts(name: string) returns (x: string)
    requires IsBackend(name)
    ensures name == "aigw-backend" || name == "aigw-" + x + "-backend"
  {
    x := if |name| >= 13 then name[5..|name| - 8] else "";
    assert name[..5] == "aigw-" && name[|name| - 8..] == "-backend";
    if |name| >= 13 {
      assert name == name[..5] + x + name[|name| - 8..];
    } else if |name| == 12 {
      assert name == name[..5] + name[4..][1..];
      assert "aigw-" + "-backend"[1..] == "aigw-backend";
    } else {
      Overlap(name);
    }
  }

  lemma Overlap(name: string)
    requires 8 <= |name| < 12 && name[..5] == "aigw-"
    ensures name[|name| - 8..] != "-backend"
  {
    var k := |name| - 8;
    assert name[k..][0] == name[k] == name[..5][k] && "aigw-"[k] != '-' && "-backend"[0] == '-';
  }

  // ---- old switches ------------------------------------------------------------------------

  /** The old runner meant an external gateway exactly when it asked for sign-in or was off. */
  lemma ExternalMeans(c: Config, plugins: Config, runner: Config)
    requires "plugin_config" in c && c["plugin_config"] == Obj(plugins)
    requires "aigw-runner" in plugins && plugins["aigw-runner"] == Obj(runner)
    ensures WasExternal(c) <==>
              || ("auth_enabled" in runner && runner["auth_enabled"] == Bool(true))
              || ("enabled" in runner && runner["enabled"] == Bool(false))
  {
  }

  /** Without a record of the runner's settings it did not. */
  lemma NoRunnerNotExternal(c: Config)
    requires !IsRecord(c, "plugin_config") || !IsRecord(c["plugin_config"].fields, "aigw-runner")
    ensures !WasExternal(c)
  {
  }

  // ---- list entries -------------------------------------------------------------------------

  /** What one listed entry contributes. */
  function Entry(item: Json): seq<string> { if item.Str? then [item.s] else [] }

  lemma Regroup(a: seq<string>, b: seq<string>, c: seq<string>)
    ensures a + (b + c) == (a + b) + c
  {
  }

  lemma {:induction false} TextsJoin(a: seq<Json>, b: seq<Json>)
    ensures Texts(a + b) == Texts(a) + Texts(b)
  {
    if a == [] {
      assert a + b == b;
    } else {
      assert (a + b)[0] == a[0] && (a + b)[1..] == a[1..] + b;
      TextsJoin(a[1..], b);
      Regroup(Entry(a[0]), Texts(a[1..]), Texts(b));
    }
  }

  /** Of a list of plugins exactly the texts are read, in order. */
  lemma TextsRead(before: seq<Json>, item: Json, after: seq<Json>)
    ensures Texts(before + [item] + after) == Texts(before) + Entry(item) + Texts(after)
  {
    TextsJoin(before + [item], after);
    TextsJoin(before, [item]);
    assert [item][1..] == [] && Texts([item]) == Entry(item) + [];
  }

  /** The names and values the desktop writes. */
  lemma WrittenNames()
    ensures NAMES.legacy == "codex-backend-api" && NAMES.gateway == "aigw-codex-backend"
    ensures NAMES.runner == "aigw-runner" && NAMES.base == "aigw-base"
    ensures DEFAULT_MODEL == "codex/gpt-5.4-mini" && DEFAULT_URL == "http://127.0.0.1:9105"
  {
  }
}
