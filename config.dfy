/** Grouping of session configurations by endpoint alias, as the YAML
    loader does it. The session configurations are opaque values of type
    `T`. */
module Config {
  import opened Wire

  /** One configuration entry: the aliases it serves and the sessions for
      them. */
  datatype S2SConfig<T> = S2SConfig(endpoint: seq<string>, splunkConfig: seq<T>)

  /** Go's `m[k]` on a map of slices: the nil slice for a missing key. */
  function Lookup<T>(m: map<string, seq<T>>, k: string): (r: seq<T>)
    ensures k in m ==> r == m[k]
    ensures k !in m ==> r == []
  {
    if k in m then m[k] else []
  }

  /** What one entry contributes to alias `a`: all its sessions, once for
      each time `a` is listed among `aliases`. */
  function Copies<T>(aliases: seq<string>, a: string, spls: seq<T>): seq<T>
  {
    if aliases == [] then []
    else Copies(aliases[..|aliases| - 1], a, spls) + (if aliases[|aliases| - 1] == a then spls else [])
  }

  /** The sessions grouped under alias `a`, in entry order. */
  function Grouped<T>(configs: seq<S2SConfig<T>>, a: string): seq<T>
  {
    if configs == [] then []
    else
      var c := configs[|configs| - 1];
      Grouped(configs[..|configs| - 1], a) + Copies(c.endpoint, a, c.splunkConfig)
  }

  /** Every list in the map is non-empty: a key appears only once
      something is appended under it. */
  predicate NoEmptyLists<T>(m: map<string, seq<T>>)
  {
    forall a | a in m :: m[a] != []
  }

  /** `parseYAML`: for each entry, for each of its aliases, for each of its
      sessions, append the session to the alias's list. */
  method ParseYAML<T>(configs: seq<S2SConfig<T>>) returns (endpoints: map<string, seq<T>>, err: Option<string>)
    ensures err.None?
    ensures forall a :: Lookup(endpoints, a) == Grouped(configs, a)
    ensures forall a :: a in endpoints <==> Grouped(configs, a) != []
  {
    endpoints := map[];
    for i := 0 to |configs|
      invariant forall a :: Lookup(endpoints, a) == Grouped(configs[..i], a)
      invariant NoEmptyLists(endpoints)
    {
      assert configs[..i + 1][..i] == configs[..i];
      endpoints := AddEntry(endpoints, configs[i]);
    }
    assert configs[..|configs|] == configs;
    NonEmptyKeys(endpoints, configs);
    err := None;
  }

  /** The middle loop: one entry's aliases, in order. */
  method AddEntry<T>(m: map<string, seq<T>>, config: S2SConfig<T>) returns (endpoints: map<string, seq<T>>)
    requires NoEmptyLists(m)
    ensures NoEmptyLists(endpoints)
    ensures forall a :: Lookup(endpoints, a) == Lookup(m, a) + Copies(config.endpoint, a, config.splunkConfig)
  {
    endpoints := m;
    for j := 0 to |config.endpoint|
      invariant NoEmptyLists(endpoints)
      invariant forall a :: Lookup(endpoints, a) == Lookup(m, a) + Copies(config.endpoint[..j], a, config.splunkConfig)
    {
      var alias := config.endpoint[j];
      ghost var before := endpoints;
      endpoints := AppendAll(endpoints, alias, config.splunkConfig);
      forall a ensures Lookup(endpoints, a) == Lookup(m, a) + Copies(config.endpoint[..j + 1], a, config.splunkConfig) {
        CopiesStep(config.endpoint, j, a, config.splunkConfig);
        AppendAssoc(Lookup(m, a), Copies(config.endpoint[..j], a, config.splunkConfig), if alias == a then config.splunkConfig else []);
      }
    }
    assert config.endpoint[..|config.endpoint|] == config.endpoint;
  }

  /** The inner loop: every session appended under one alias; nothing else
      changes. */
  method AppendAll<T>(m: map<string, seq<T>>, alias: string, spls: seq<T>) returns (endpoints: map<string, seq<T>>)
    requires NoEmptyLists(m)
    ensures NoEmptyLists(endpoints)
    ensures forall a :: Lookup(endpoints, a) == Lookup(m, a) + (if a == alias then spls else [])
  {
    endpoints := m;
    for k := 0 to |spls|
      invariant NoEmptyLists(endpoints)
      invariant Lookup(endpoints, alias) == Lookup(m, alias) + spls[..k]
      invariant forall a | a != alias :: a in endpoints <==> a in m
      invariant forall a | a != alias && a in m :: endpoints[a] == m[a]
    {
      endpoints := endpoints[alias := Lookup(endpoints, alias) + [spls[k]]];
      assert spls[..k + 1] == spls[..k] + [spls[k]];
    }
    assert spls[..|spls|] == spls;
    forall a ensures Lookup(endpoints, a) == Lookup(m, a) + (if a == alias then spls else []) {
      if a != alias {
        assert Lookup(m, a) + [] == Lookup(m, a);
      }
    }
  }

  lemma CopiesStep<T>(aliases: seq<string>, j: nat, a: string, spls: seq<T>)
    requires j < |aliases|
    ensures Copies(aliases[..j + 1], a, spls) == Copies(aliases[..j], a, spls) + (if aliases[j] == a then spls else [])
  {
    assert aliases[..j + 1][..j] == aliases[..j];
  }

  lemma NonEmptyKeys<T>(endpoints: map<string, seq<T>>, configs: seq<S2SConfig<T>>)
    requires forall a :: Lookup(endpoints, a) == Grouped(configs, a)
    requires forall a | a in endpoints :: endpoints[a] != []
    ensures forall a :: a in endpoints <==> Grouped(configs, a) != []
  {
    forall a ensures a in endpoints <==> Grouped(configs, a) != [] {
      assert Lookup(endpoints, a) == Grouped(configs, a);
    }
  }

  /** Each listing of the alias contributes the entry's sessions once. */
  lemma {:induction false} CopiesLength<T>(aliases: seq<string>, a: string, spls: seq<T>)
    ensures |Copies(aliases, a, spls)| == multiset(aliases)[a] * |spls|
  {
    if aliases != [] {
      var init, last := aliases[..|aliases| - 1], aliases[|aliases| - 1];
      CopiesLength(init, a, spls);
      MultisetSnoc(aliases);
      CountTimes(multiset(init)[a], last == a, |spls|);
    }
  }

  lemma CountTimes(k: nat, hit: bool, n: nat)
    ensures (k + if hit then 1 else 0) * n == k * n + if hit then n else 0
  {
  }

  lemma MultisetSnoc(s: seq<string>)
    requires s != []
    ensures multiset(s) == multiset(s[..|s| - 1]) + multiset{s[|s| - 1]}
  {
    assert s == s[..|s| - 1] + [s[|s| - 1]];
  }

  /** The number of sessions an alias gets from the entries. */
  function Share<T>(configs: seq<S2SConfig<T>>, a: string): nat
  {
    if configs == [] then 0
    else
      var c := configs[|configs| - 1];
      Share(configs[..|configs| - 1], a) + multiset(c.endpoint)[a] * |c.splunkConfig|
  }

  /** The list for an alias has, for every entry, one session per listing
      of the alias times per session of the entry. */
  lemma {:induction false} GroupedLength<T>(configs: seq<S2SConfig<T>>, a: string)
    ensures |Grouped(configs, a)| == Share(configs, a)
  {
    if configs != [] {
      var c := configs[|configs| - 1];
      GroupedLength(configs[..|configs| - 1], a);
      CopiesLength(c.endpoint, a, c.splunkConfig);
    }
  }

  /** An entry gives an alias something exactly when it lists the alias and
      has a session. */
  lemma {:induction false} CopiesNonEmpty<T>(aliases: seq<string>, a: string, spls: seq<T>)
    ensures Copies(aliases, a, spls) != [] <==> a in aliases && spls != []
  {
    if aliases != [] {
      var init := aliases[..|aliases| - 1];
      assert aliases == init + [aliases[|aliases| - 1]];
      CopiesNonEmpty(init, a, spls);
    }
  }

  /** An alias has a list exactly when some entry lists it and has a
      session. */
  lemma {:induction false} GroupedNonEmpty<T>(configs: seq<S2SConfig<T>>, a: string)
    ensures Grouped(configs, a) != [] <==>
      exists i | 0 <= i < |configs| :: a in configs[i].endpoint && configs[i].splunkConfig != []
  {
    if configs != [] {
      var init, c := configs[..|configs| - 1], configs[|configs| - 1];
      GroupedNonEmpty(init, a);
      CopiesNonEmpty(c.endpoint, a, c.splunkConfig);
      if exists i | 0 <= i < |configs| :: a in configs[i].endpoint && configs[i].splunkConfig != [] {
        var i :| 0 <= i < |configs| && a in configs[i].endpoint && configs[i].splunkConfig != [];
        if i < |init| {
          assert init[i] == configs[i];
        }
      }
      if exists i | 0 <= i < |init| :: a in init[i].endpoint && init[i].splunkConfig != [] {
        var i :| 0 <= i < |init| && a in init[i].endpoint && init[i].splunkConfig != [];
        assert configs[i] == init[i];
      }
    }
  }

  /** Entry order is kept: the list for the entries of two files read one
      after the other is the first list followed by the second. */
  lemma {:induction false} GroupedConcat<T>(first: seq<S2SConfig<T>>, second: seq<S2SConfig<T>>, a: string)
    ensures Grouped(first + second, a) == Grouped(first, a) + Grouped(second, a)
  {
    if second == [] {
      assert first + second == first;
    } else {
      var init := second[..|second| - 1];
      assert (first + second)[..|first + second| - 1] == first + init;
      assert (first + second)[|first + second| - 1] == second[|second| - 1];
      GroupedConcat(first, init, a);
    }
  }

  /** Listing an alias twice in an entry gives it two copies of every
      session, in the entry's order. */
  lemma {:induction false} CopiesConcat<T>(xs: seq<string>, ys: seq<string>, a: string, spls: seq<T>)
    ensures Copies(xs + ys, a, spls) == Copies(xs, a, spls) + Copies(ys, a, spls)
  {
    if ys == [] {
      assert xs + ys == xs;
    } else {
      var init := ys[..|ys| - 1];
      assert (xs + ys)[..|xs + ys| - 1] == xs + init;
      assert (xs + ys)[|xs + ys| - 1] == ys[|ys| - 1];
      CopiesConcat(xs, init, a, spls);
    }
  }
}
