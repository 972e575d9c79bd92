/** The desktop's rewrite of its plugin list, over any kind of plugin name. */
module PluginList {

  datatype Names<T> = Names(legacy: T, gateway: T, runner: T, base: T)

  ghost predicate Apart<T>(n: Names<T>) {
    && n.legacy != n.gateway && n.legacy != n.runner && n.legacy != n.base
    && n.gateway != n.runner && n.gateway != n.base && n.runner != n.base
  }

  function Rename<T(==)>(n: Names<T>, ps: seq<T>): seq<T> {
    seq(|ps|, i requires 0 <= i < |ps| => if ps[i] == n.legacy then n.gateway else ps[i])
  }

  function Without<T(==)>(ps: seq<T>, x: T): seq<T> {
    if ps == [] then [] else (if ps[0] == x then [] else [ps[0]]) + Without(ps[1..], x)
  }

  /** Only the first x stays. */
  function KeepFirst<T(==)>(ps: seq<T>, x: T): seq<T> {
    if ps == [] then []
    else if ps[0] == x then [x] + Without(ps[1..], x)
    else [ps[0]] + KeepFirst(ps[1..], x)
  }

  function Ensure<T(==)>(ps: seq<T>, x: T): seq<T> { if x in ps then ps else ps + [x] }

  /** The legacy backend becomes the gateway backend, which is listed once; the two required
      plugins are added at the end when missing. */
  function MigratePlugins<T(==)>(n: Names<T>, ps: seq<T>): seq<T> {
    Ensure(Ensure(KeepFirst(Rename(n, ps), n.gateway), n.runner), n.base)
  }

  lemma {:induction false} WithoutSnoc<T>(s: seq<T>, x: T, y: T)
    ensures Without(s + [y], x) == Without(s, x) + if y == x then [] else [y]
  {
    if s == [] {
      assert [] + [y] == [y];
    } else {
      assert (s + [y])[1..] == s[1..] + [y];
      WithoutSnoc(s[1..], x, y);
    }
  }

  lemma {:induction false} KeepFirstSnoc<T>(s: seq<T>, x: T, y: T)
    ensures KeepFirst(s + [y], x) == KeepFirst(s, x) + if y == x && x in s then [] else [y]
  {
    if s == [] {
      assert [] + [y] == [y];
    } else {
      assert (s + [y])[1..] == s[1..] + [y];
      KeepFirstSnoc(s[1..], x, y);
      WithoutSnoc(s[1..], x, y);
    }
  }

  lemma {:induction false} KeepFirstHas<T>(s: seq<T>, x: T, y: T)
    ensures y in KeepFirst(s, x) <==> y in s
    ensures y in Without(s, x) <==> y in s && y != x
  {
    if s != [] {
      KeepFirstHas(s[1..], x, y);
      assert s == [s[0]] + s[1..];
    }
  }

  method MigratePluginList<T(==)>(n: Names<T>, plugins: seq<T>) returns (next: seq<T>)
    ensures next == MigratePlugins(n, plugins)
  {
    next := [];
    for i := 0 to |plugins|
      invariant next == KeepFirst(Rename(n, plugins[..i]), n.gateway)
    {
      var plugin := plugins[i];
      ghost var before := Rename(n, plugins[..i]);
      assert Rename(n, plugins[..i + 1]) == before + [if plugin == n.legacy then n.gateway else plugin];
      KeepFirstSnoc(before, n.gateway, if plugin == n.legacy then n.gateway else plugin);
      KeepFirstHas(before, n.gateway, n.gateway);
      if plugin == n.legacy {
        if n.gateway !in next {
          next := next + [n.gateway];
        }
      } else if !(plugin == n.gateway && n.gateway in next) {
        next := next + [plugin];
      }
    }
    assert plugins[..|plugins|] == plugins;
    if n.runner !in next {
      next := next + [n.runner];
    }
    if n.base !in next {
      next := next + [n.base];
    }
  }

  /** The plugins the rewrite is not about, in order. */
  function Others<T(==)>(n: Names<T>, ps: seq<T>): seq<T> {
    if ps == [] then []
    else (if ps[0] == n.legacy || ps[0] == n.gateway then [] else [ps[0]]) + Others(n, ps[1..])
  }

  function CountOf<T(==)>(ps: seq<T>, x: T): nat { multiset(ps)[x] }

  lemma {:induction false} OthersSplit<T>(n: Names<T>, a: seq<T>, b: seq<T>)
    ensures Others(n, a + b) == Others(n, a) + Others(n, b)
  {
    if a == [] {
      assert a + b == b;
    } else {
      assert (a + b)[1..] == a[1..] + b;
      OthersSplit(n, a[1..], b);
    }
  }

  lemma {:induction false} OthersWithout<T>(n: Names<T>, s: seq<T>)
    ensures Others(n, Without(s, n.gateway)) == Others(n, s)
  {
    if s != [] {
      OthersWithout(n, s[1..]);
      if s[0] == n.gateway {
        assert Without(s, n.gateway) == Without(s[1..], n.gateway);
      } else {
        OthersSplit(n, [s[0]], Without(s[1..], n.gateway));
        OthersSplit(n, [s[0]], s[1..]);
        assert s == [s[0]] + s[1..];
      }
    }
  }

  lemma {:induction false} OthersKept<T>(n: Names<T>, s: seq<T>)
    ensures Others(n, KeepFirst(s, n.gateway)) == Others(n, s)
  {
    if s != [] {
      OthersSplit(n, [s[0]], s[1..]);
      assert s == [s[0]] + s[1..];
      if s[0] == n.gateway {
        OthersWithout(n, s[1..]);
        OthersSplit(n, [s[0]], Without(s[1..], n.gateway));
      } else {
        OthersKept(n, s[1..]);
        OthersSplit(n, [s[0]], KeepFirst(s[1..], n.gateway));
      }
    }
  }

  lemma EnsureFacts<T>(n: Names<T>, ps: seq<T>, x: T)
    requires x != n.legacy && x != n.gateway
    ensures Others(n, Ensure(ps, x)) == Others(n, ps) + if x in ps then [] else [x]
    ensures CountOf(Ensure(ps, x), n.gateway) == CountOf(ps, n.gateway)
  {
    OthersSplit(n, ps, [x]);
    assert Others(n, [x]) == [x];
  }

  lemma {:induction false} OthersRenamed<T>(n: Names<T>, s: seq<T>)
    ensures Others(n, Rename(n, s)) == Others(n, s)
  {
    if s != [] {
      assert Rename(n, s)[1..] == Rename(n, s[1..]);
      OthersRenamed(n, s[1..]);
    }
  }

  lemma {:induction false} GatewayOnce<T>(s: seq<T>, x: T)
    ensures CountOf(KeepFirst(s, x), x) <= 1 && CountOf(Without(s, x), x) == 0
  {
    if s != [] {
      GatewayOnce(s[1..], x);
    }
  }

  lemma RenameHas<T>(n: Names<T>, ps: seq<T>, y: T)
    requires Apart(n)
    ensures y in Rename(n, ps) <==>
              if y == n.gateway then n.gateway in ps || n.legacy in ps else y in ps && y != n.legacy
  {
    if y in ps && y != n.legacy {
      var i :| 0 <= i < |ps| && ps[i] == y;
      assert Rename(n, ps)[i] == y;
    }
    if y == n.gateway && n.legacy in ps {
      var i :| 0 <= i < |ps| && ps[i] == n.legacy;
      assert Rename(n, ps)[i] == n.gateway;
    }
  }

  lemma MigratedHas<T>(n: Names<T>, ps: seq<T>, y: T)
    requires Apart(n)
    ensures y in MigratePlugins(n, ps) <==>
      y == n.runner || y == n.base
      || (if y == n.gateway then n.gateway in ps || n.legacy in ps else y in ps && y != n.legacy)
  {
    RenameHas(n, ps, y);
    KeepFirstHas(Rename(n, ps), n.gateway, y);
  }

  /** No legacy entry survives, the gateway backend is listed at most once and exactly when
      either was asked for, both required plugins are there, and all other plugins keep their
      order, followed only by the required ones that were missing. */
  lemma PluginListFacts<T>(n: Names<T>, ps: seq<T>)
    requires Apart(n)
    ensures var r := MigratePlugins(n, ps);
            && n.legacy !in r && n.runner in r && n.base in r
            && CountOf(r, n.gateway) <= 1 && (n.gateway in r <==> n.gateway in ps || n.legacy in ps)
            && Others(n, r) == Others(n, ps) + (if n.runner in ps then [] else [n.runner])
                                             + (if n.base in ps then [] else [n.base])
  {
    MigratedHas(n, ps, n.legacy);
    MigratedHas(n, ps, n.gateway);
    MigratedHas(n, ps, n.runner);
    MigratedHas(n, ps, n.base);
    MigratedCounts(n, ps);
    MigratedOthers(n, ps);
  }

  lemma MigratedCounts<T>(n: Names<T>, ps: seq<T>)
    requires Apart(n)
    ensures CountOf(MigratePlugins(n, ps), n.gateway) <= 1
  {
    var b := KeepFirst(Rename(n, ps), n.gateway);
    GatewayOnce(Rename(n, ps), n.gateway);
    EnsureFacts(n, b, n.runner);
    EnsureFacts(n, Ensure(b, n.runner), n.base);
  }

  lemma MigratedOthers<T>(n: Names<T>, ps: seq<T>)
    requires Apart(n)
    ensures Others(n, MigratePlugins(n, ps)) ==
            Others(n, ps) + (if n.runner in ps then [] else [n.runner]) + (if n.base in ps then [] else [n.base])
  {
    var a := Rename(n, ps);
    var b := KeepFirst(a, n.gateway);
    OthersRenamed(n, ps);
    OthersKept(n, a);
    RenameHas(n, ps, n.runner);
    RenameHas(n, ps, n.base);
    KeepFirstHas(a, n.gateway, n.runner);
    KeepFirstHas(a, n.gateway, n.base);
    EnsureFacts(n, b, n.runner);
    EnsureFacts(n, Ensure(b, n.runner), n.base);
    assert n.base in Ensure(b, n.runner) <==> n.base in b;
  }

  lemma {:induction false} KeepFirstStable<T>(s: seq<T>, x: T)
    ensures CountOf(s, x) <= 1 ==> KeepFirst(s, x) == s
    ensures x !in s ==> Without(s, x) == s
  {
    if s != [] {
      assert s == [s[0]] + s[1..];
      KeepFirstStable(s[1..], x);
      assert CountOf(s, x) == CountOf(s[1..], x) + if s[0] == x then 1 else 0;
    }
  }

  lemma PluginListIdempotent<T>(n: Names<T>, ps: seq<T>)
    requires Apart(n)
    ensures MigratePlugins(n, MigratePlugins(n, ps)) == MigratePlugins(n, ps)
  {
    PluginListFacts(n, ps);
    var r := MigratePlugins(n, ps);
    assert Rename(n, r) == r;
    KeepFirstStable(r, n.gateway);
  }
}
