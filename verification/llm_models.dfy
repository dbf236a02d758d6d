/** The model catalogue: the provider table `PROVIDER_CONFIG` and what is
    derived from it (the list of valid models, the disabled/enabled model
    filters, the provider of a model, and the logo and display-name tables).
    Every derived function takes the table as its first argument; the
    constants at the end apply them to the shipped table. */
module LlmModels {
  import opened Wrappers

  /** One entry of the provider table, under its key `name`. */
  datatype Provider = Provider(
    name: string,
    models: seq<string>,
    logo: string,
    modelLogos: map<string, string>,
    displayNames: map<string, string>)

  /** `PROVIDER_CONFIG`, in its key order. */
  const ProviderConfig: seq<Provider> := [
    Provider("openai", [], "/openai.svg",
      map["gpt-4o" := "/openai.svg", "gpt-3.5-turbo" := "/openai.svg",
          "gpt-4.1-2025-04-14" := "/openai.svg", "o3-2025-04-16" := "/openai.svg"],
      map["gpt-4o" := "GPT-4o", "gpt-3.5-turbo" := "GPT-3.5 Turbo",
          "gpt-4.1-2025-04-14" := "GPT-4.1", "o3-2025-04-16" := "o3"]),
    Provider("google", [], "/gemini.svg",
      map["gemini-2.0-flash" := "/gemini.svg", "gemini-1.5-pro" := "/gemini.svg"],
      map["gemini-2.0-flash" := "Gemini 2.0 Flash", "gemini-1.5-pro" := "Gemini 1.5 Pro"]),
    Provider("anthropic", ["claude-sonnet-4-20250514"], "/anthropic.svg",
      map["claude-3-7-sonnet-latest" := "/anthropic.svg", "claude-3-5-haiku-latest" := "/anthropic.svg",
          "claude-opus-4-20250514" := "/anthropic.svg", "claude-sonnet-4-20250514" := "/anthropic.svg"],
      map["claude-3-7-sonnet-latest" := "Claude 3.7 Sonnet", "claude-3-5-haiku-latest" := "Claude 3.5 Haiku",
          "claude-opus-4-20250514" := "Claude 4 Opus", "claude-sonnet-4-20250514" := "Claude 4 Sonnet"]),
    Provider("groq", [], "/meta.svg",
      map["meta-llama/llama-4-scout-17b-16e-instruct" := "/meta.svg", "openai/gpt-oss-20b" := "/openai.svg",
          "openai/gpt-oss-120b" := "/openai.svg", "moonshotai/kimi-k2-instruct" := "/moonshot.svg"],
      map["meta-llama/llama-4-scout-17b-16e-instruct" := "Llama 4 Scout", "openai/gpt-oss-20b" := "GPT-OSS 20B",
          "openai/gpt-oss-120b" := "GPT-OSS 120B", "moonshotai/kimi-k2-instruct" := "Kimi K2"])
  ]

  const DefaultModel: string := "claude-sonnet-4-20250514"
  const DefaultProvider: string := "anthropic"
  const DefaultNamingModel: string := "claude-sonnet-4-20250514"

  // ---------------------------------------------------------------------
  // ALL_VALID_MODELS

  /** `Object.values(cfg).flatMap((config) => config.models)`. */
  function AllModels(cfg: seq<Provider>): (r: seq<string>)
    ensures forall m | m in r :: exists i | 0 <= i < |cfg| :: m in cfg[i].models
    decreases |cfg|
  {
    if cfg == [] then [] else cfg[0].models + AllModels(cfg[1..])
  }

  /** A model is valid exactly when some provider lists it. */
  lemma {:induction false} AllModelsMembership(cfg: seq<Provider>, m: string)
    ensures m in AllModels(cfg) <==> exists i | 0 <= i < |cfg| :: m in cfg[i].models
    decreases |cfg|
  {
    if cfg != [] {
      AllModelsMembership(cfg[1..], m);
      if m in AllModels(cfg[1..]) {
        var i :| 0 <= i < |cfg[1..]| && m in cfg[1..][i].models;
        assert m in cfg[i + 1].models;
      }
      if exists i | 0 <= i < |cfg| :: m in cfg[i].models {
        var i :| 0 <= i < |cfg| && m in cfg[i].models;
        if i > 0 {
          assert m in cfg[1..][i - 1].models;
        }
      }
    }
  }

  /** The flattening of two tables joined is the two flattenings joined, so
      models keep the order of their providers. */
  lemma {:induction false} AllModelsAppend(a: seq<Provider>, b: seq<Provider>)
    ensures AllModels(a + b) == AllModels(a) + AllModels(b)
    decreases |a|
  {
    if a == [] {
      assert a + b == b;
    } else {
      assert (a + b)[1..] == a[1..] + b;
      AllModelsAppend(a[1..], b);
    }
  }

  /** `ALL_VALID_MODELS` for the shipped table. */
  function AllValidModels(): (r: seq<string>)
    ensures forall m | m in r :: exists i | 0 <= i < |ProviderConfig| :: m in ProviderConfig[i].models
  {
    AllModels(ProviderConfig)
  }

  /** Only the Anthropic entry lists a model, so that model is the only valid
      one. */
  lemma AllValidModelsValue()
    ensures AllValidModels() == [DefaultModel]
  {
    var c := ProviderConfig;
    assert AllModels(c[3..]) == [] by {
      assert c[3..][1..] == [];
    }
    assert c[2..][1..] == c[3..];
    assert AllModels(c[2..]) == [DefaultModel];
    assert c[1..][1..] == c[2..];
    assert AllModels(c[1..]) == [DefaultModel];
  }

  // ---------------------------------------------------------------------
  // Order-preserving filters

  /** `a` is `b` with some elements removed, the rest in their order. */
  predicate Subsequence(a: seq<string>, b: seq<string>)
    decreases |b|
  {
    if a == [] then true
    else if b == [] then false
    else if a[0] == b[0] then Subsequence(a[1..], b[1..])
    else Subsequence(a, b[1..])
  }

  /** `xs.filter((x) => allowed.includes(x))`, or with the test negated when
      `keep` is false. */
  function Filter(xs: seq<string>, other: seq<string>, keep: bool): (r: seq<string>)
    ensures |r| <= |xs|
    decreases |xs|
  {
    if xs == [] then []
    else if (xs[0] in other) == keep then [xs[0]] + Filter(xs[1..], other, keep)
    else Filter(xs[1..], other, keep)
  }

  /** What the filter keeps: exactly the elements passing the test, each as
      often as in the input and in the input's order. */
  lemma {:induction false} FilterSpec(xs: seq<string>, other: seq<string>, keep: bool)
    ensures var r := Filter(xs, other, keep);
            Subsequence(r, xs)
            && (forall x :: x in r <==> x in xs && (x in other) == keep)
            && (forall x :: multiset(r)[x] == if (x in other) == keep then multiset(xs)[x] else 0)
    decreases |xs|
  {
    if xs != [] {
      var r := Filter(xs, other, keep);
      var rest := Filter(xs[1..], other, keep);
      FilterSpec(xs[1..], other, keep);
      assert xs == [xs[0]] + xs[1..];
      assert multiset(xs) == multiset([xs[0]]) + multiset(xs[1..]);
      if (xs[0] in other) == keep {
        assert r == [xs[0]] + rest;
        assert r[1..] == rest;
        assert multiset(r) == multiset([xs[0]]) + multiset(rest);
      } else {
        SubsequenceDropFront(rest, xs);
      }
    }
  }

  /** A subsequence of the tail is a subsequence of the whole. */
  lemma {:induction false} SubsequenceDropFront(a: seq<string>, b: seq<string>)
    requires b != [] && Subsequence(a, b[1..])
    ensures Subsequence(a, b)
    decreases |b|, |a|, 1
  {
    if a != [] && a[0] == b[0] {
      SubsequenceShorten(a, b[1..]);
    }
  }

  /** Dropping the first element of a subsequence keeps it a subsequence. */
  lemma {:induction false} SubsequenceShorten(a: seq<string>, c: seq<string>)
    requires a != [] && Subsequence(a, c)
    ensures Subsequence(a[1..], c)
    decreases |c|, |a|, 0
  {
    if a[0] == c[0] {
      SubsequenceDropFront(a[1..], c);
    } else {
      SubsequenceShorten(a, c[1..]);
      SubsequenceDropFront(a[1..], c);
    }
  }

  // ---------------------------------------------------------------------
  // getDisabledModels, getEnabledModelsFromDisabled

  /** `getDisabledModels`: no list means none; otherwise the listed models
      that are valid. */
  function DisabledModels(cfg: seq<Provider>, disabled: Option<seq<string>>): (r: seq<string>)
    ensures disabled.None? ==> r == []
    ensures forall m | m in r :: m in AllModels(cfg) && disabled.Some? && m in disabled.value
  {
    match disabled
    case None => []
    case Some(xs) =>
      FilterSpec(xs, AllModels(cfg), true);
      Filter(xs, AllModels(cfg), true)
  }

  /** `getEnabledModelsFromDisabled`: all valid models when the list is
      missing or empty; otherwise the valid models it does not name. */
  function EnabledModels(cfg: seq<Provider>, disabled: Option<seq<string>>): (r: seq<string>)
    ensures disabled.None? || disabled.value == [] ==> r == AllModels(cfg)
    ensures forall m | m in r :: m in AllModels(cfg) && (disabled.Some? ==> m !in disabled.value)
  {
    if disabled.None? || |disabled.value| == 0 then AllModels(cfg)
    else
      FilterSpec(AllModels(cfg), disabled.value, false);
      Filter(AllModels(cfg), disabled.value, false)
  }

  /** The disabled models are the listed ones that are valid, in the order
      and with the repetitions of the list. */
  lemma DisabledModelsSpec(cfg: seq<Provider>, xs: seq<string>)
    ensures var r := DisabledModels(cfg, Some(xs));
            Subsequence(r, xs)
            && (forall m :: m in r <==> m in xs && m in AllModels(cfg))
            && (forall m :: multiset(r)[m] == if m in AllModels(cfg) then multiset(xs)[m] else 0)
  {
    FilterSpec(xs, AllModels(cfg), true);
  }

  /** The enabled models keep the catalogue order and drop only what the
      list names; each one appears as often as the catalogue lists it. */
  lemma EnabledModelsSpec(cfg: seq<Provider>, disabled: Option<seq<string>>)
    ensures var r := EnabledModels(cfg, disabled);
            Subsequence(r, AllModels(cfg))
            && (forall m :: m in r <==> m in AllModels(cfg) && !(disabled.Some? && m in disabled.value))
            && (forall m :: multiset(r)[m] == if disabled.Some? && m in disabled.value then 0 else multiset(AllModels(cfg))[m])
  {
    if disabled.None? || disabled.value == [] {
      SubsequenceReflexive(AllModels(cfg));
    } else {
      FilterSpec(AllModels(cfg), disabled.value, false);
    }
  }

  lemma {:induction false} SubsequenceReflexive(a: seq<string>)
    ensures Subsequence(a, a)
    decreases |a|
  {
    if a != [] {
      SubsequenceReflexive(a[1..]);
    }
  }

  /** For one and the same input, every valid model is either enabled or
      disabled, and never both. */
  lemma EnabledDisabledPartition(cfg: seq<Provider>, disabled: Option<seq<string>>, m: string)
    requires m in AllModels(cfg)
    ensures m in EnabledModels(cfg, disabled) <==> m !in DisabledModels(cfg, disabled)
  {
    EnabledModelsSpec(cfg, disabled);
    if disabled.Some? {
      DisabledModelsSpec(cfg, disabled.value);
    }
  }

  // ---------------------------------------------------------------------
  // getProviderForModel

  /** The position of the first provider, in table order, that lists `m`. */
  function FirstProviderWith(cfg: seq<Provider>, m: string): (r: Option<nat>)
    ensures r.Some? ==> r.value < |cfg| && m in cfg[r.value].models
    decreases |cfg|
  {
    if cfg == [] then None
    else if m in cfg[0].models then Some(0)
    else match FirstProviderWith(cfg[1..], m)
      case None => None
      case Some(i) => Some(i + 1)
  }

  /** The provider found is the first listing `m`, and none is found exactly
      when no provider lists it. */
  lemma {:induction false} FirstProviderIsFirst(cfg: seq<Provider>, m: string)
    ensures var r := FirstProviderWith(cfg, m);
            r.Some? ==> forall j | 0 <= j < r.value :: m !in cfg[j].models
    ensures FirstProviderWith(cfg, m).None? <==> forall j | 0 <= j < |cfg| :: m !in cfg[j].models
    decreases |cfg|
  {
    if cfg != [] && m !in cfg[0].models {
      FirstProviderIsFirst(cfg[1..], m);
      assert forall j | 1 <= j < |cfg| :: cfg[j] == cfg[1..][j - 1];
    }
  }

  /** `getProviderForModel`: a model that is not valid has no provider;
      a valid one has the first provider that lists it. */
  function ProviderForModel(cfg: seq<Provider>, model: string): (r: Option<string>)
    ensures r.Some? ==> model in AllModels(cfg)
  {
    if model !in AllModels(cfg) then None
    else match FirstProviderWith(cfg, model)
      case None => None
      case Some(i) => Some(cfg[i].name)
  }

  /** The provider is found exactly for the valid models, and it is the
      first in table order that lists the model. */
  lemma ProviderForModelSpec(cfg: seq<Provider>, model: string)
    ensures ProviderForModel(cfg, model).Some? <==> model in AllModels(cfg)
    ensures ProviderForModel(cfg, model).Some? ==>
              exists i | 0 <= i < |cfg| :: model in cfg[i].models && ProviderForModel(cfg, model) == Some(cfg[i].name)
                && forall j | 0 <= j < i :: model !in cfg[j].models
  {
    AllModelsMembership(cfg, model);
    FirstProviderIsFirst(cfg, model);
    if model in AllModels(cfg) {
      var i := FirstProviderWith(cfg, model).value;
      assert model in cfg[i].models;
    }
  }

  /** The validation step is redundant: the search alone decides. */
  lemma ValidationIsRedundant(cfg: seq<Provider>, model: string)
    ensures ProviderForModel(cfg, model).Some? <==> FirstProviderWith(cfg, model).Some?
  {
    AllModelsMembership(cfg, model);
    FirstProviderIsFirst(cfg, model);
  }

  /** `PROVIDER_CONFIG[provider]`: the entry under a key. */
  function ProviderNamed(cfg: seq<Provider>, name: string): (r: Option<Provider>)
    ensures r.Some? ==> r.value in cfg && r.value.name == name
    decreases |cfg|
  {
    if cfg == [] then None
    else if cfg[0].name == name then Some(cfg[0])
    else ProviderNamed(cfg[1..], name)
  }

  /** Keys of an object are distinct. */
  predicate DistinctNames(cfg: seq<Provider>) {
    forall i, j | 0 <= i < j < |cfg| :: cfg[i].name != cfg[j].name
  }

  /** With distinct keys, looking an entry up by its key finds that entry. */
  lemma {:induction false} ProviderNamedFinds(cfg: seq<Provider>, i: nat)
    requires DistinctNames(cfg) && i < |cfg|
    ensures ProviderNamed(cfg, cfg[i].name) == Some(cfg[i])
    decreases i
  {
    if i > 0 {
      assert cfg[0].name != cfg[i].name;
      var t := cfg[1..];
      assert DistinctNames(t) by {
        forall a, b | 0 <= a < b < |t| ensures t[a].name != t[b].name {
          assert t[a] == cfg[a + 1] && t[b] == cfg[b + 1];
        }
      }
      ProviderNamedFinds(t, i - 1);
      assert t[i - 1] == cfg[i];
    }
  }

  // ---------------------------------------------------------------------
  // LLM_LOGO_MAP and LLM_DISPLAY_NAMES

  /** The logo entry `[model, logo]` of a model: the model's own logo when
      its provider has a non-empty one, otherwise the provider's logo, and
      an empty logo when there is no provider or its key is the falsy `""`. */
  function LogoEntry(cfg: seq<Provider>, model: string): (r: (string, string))
    ensures r.0 == model
    ensures !Truthy(ProviderForModel(cfg, model)) ==> r.1 == ""
  {
    match ProviderForModel(cfg, model)
    case None => (model, "")
    case Some(name) =>
      if name == "" then (model, "") else
      match ProviderNamed(cfg, name)
      case None => (model, "")
      case Some(p) =>
        (model, if model in p.modelLogos && p.modelLogos[model] != "" then p.modelLogos[model] else p.logo)
  }

  /** The logo of a model with a provider, as the table gives it; a provider
      keyed `""` counts as none. */
  lemma LogoEntryOfProvider(cfg: seq<Provider>, model: string, i: nat)
    requires DistinctNames(cfg) && i < |cfg| && ProviderForModel(cfg, model) == Some(cfg[i].name)
    ensures cfg[i].name == "" ==> LogoEntry(cfg, model).1 == ""
    ensures var p := cfg[i];
            p.name != "" ==>
              LogoEntry(cfg, model).1 == if model in p.modelLogos && p.modelLogos[model] != "" then p.modelLogos[model] else p.logo
  {
    ProviderNamedFinds(cfg, i);
  }

  /** The display name of a model: its provider's non-empty display name
      for it, otherwise the model name itself (also when the provider's key
      is the falsy `""`). */
  function DisplayName(cfg: seq<Provider>, model: string): (r: string)
    ensures !Truthy(ProviderForModel(cfg, model)) ==> r == model
  {
    match ProviderForModel(cfg, model)
    case None => model
    case Some(name) =>
      if name == "" then model else
      match ProviderNamed(cfg, name)
      case None => model
      case Some(p) =>
        if model in p.displayNames && p.displayNames[model] != "" then p.displayNames[model] else model
  }

  /** The display name of a model with a provider, as the table gives it; a
      provider keyed `""` counts as none. */
  lemma DisplayNameOfProvider(cfg: seq<Provider>, model: string, i: nat)
    requires DistinctNames(cfg) && i < |cfg| && ProviderForModel(cfg, model) == Some(cfg[i].name)
    ensures cfg[i].name == "" ==> DisplayName(cfg, model) == model
    ensures var p := cfg[i];
            p.name != "" ==>
            DisplayName(cfg, model) == if model in p.displayNames && p.displayNames[model] != "" then p.displayNames[model] else model
  {
    ProviderNamedFinds(cfg, i);
  }

  /** `LLM_LOGO_MAP`: one entry per valid model. */
  function LogoMap(cfg: seq<Provider>): (r: map<string, (string, string)>)
    ensures r.Keys == set m | m in AllModels(cfg)
    ensures forall m | m in r :: r[m].0 == m
  {
    map m | m in AllModels(cfg) :: LogoEntry(cfg, m)
  }

  /** `LLM_DISPLAY_NAMES`: one entry per valid model. */
  function DisplayNames(cfg: seq<Provider>): (r: map<string, string>)
    ensures r.Keys == set m | m in AllModels(cfg)
  {
    map m | m in AllModels(cfg) :: DisplayName(cfg, m)
  }

  // ---------------------------------------------------------------------
  // The shipped table

  /** The shipped keys, in order, and the only entry that lists a model. */
  lemma ShippedProviders()
    ensures |ProviderConfig| == 4
    ensures ProviderConfig[0].name == "openai" && ProviderConfig[1].name == "google"
         && ProviderConfig[2].name == "anthropic" && ProviderConfig[3].name == "groq"
    ensures ProviderConfig[0].models == [] && ProviderConfig[1].models == []
         && ProviderConfig[2].models == [DefaultModel] && ProviderConfig[3].models == []
  {
  }

  lemma ShippedNamesDistinct()
    ensures DistinctNames(ProviderConfig)
    ensures forall i | 0 <= i < |ProviderConfig| :: ProviderConfig[i].name != ""
  {
  }

  /** The default model is served by the default provider. */
  lemma DefaultModelProvider()
    ensures ProviderForModel(ProviderConfig, DefaultModel) == Some(DefaultProvider)
    ensures ProviderForModel(ProviderConfig, DefaultNamingModel) == Some(DefaultProvider)
  {
    AllValidModelsValue();
    var c := ProviderConfig;
    assert DefaultModel !in c[0].models && DefaultModel !in c[1].models && DefaultModel in c[2].models;
    assert c[1..][1..] == c[2..];
    assert FirstProviderWith(c[2..], DefaultModel) == Some(0);
    assert FirstProviderWith(c[1..], DefaultModel) == Some(1);
  }

  /** A model that only has a logo and a display name, but is listed by no
      provider, is not valid and has no provider. */
  lemma UnlistedModelHasNoProvider(model: string)
    requires model == "gpt-4o"
    ensures ProviderForModel(ProviderConfig, model).None?
  {
    AllValidModelsValue();
  }

  /** A table with a single valid model has one entry in each derived map. */
  lemma SingleModelTables(cfg: seq<Provider>, m: string)
    requires AllModels(cfg) == [m]
    ensures LogoMap(cfg) == map[m := LogoEntry(cfg, m)]
    ensures DisplayNames(cfg) == map[m := DisplayName(cfg, m)]
  {
    assert (set x | x in AllModels(cfg)) == {m};
  }

  /** The logo table of the shipped configuration. */
  lemma ShippedLogoMap()
    ensures LogoMap(ProviderConfig) == map[DefaultModel := (DefaultModel, "/anthropic.svg")]
  {
    AllValidModelsValue();
    DefaultModelProvider();
    ShippedNamesDistinct();
    LogoEntryOfProvider(ProviderConfig, DefaultModel, 2);
    SingleModelTables(ProviderConfig, DefaultModel);
  }

  /** The display-name table of the shipped configuration. */
  lemma ShippedDisplayNames()
    ensures DisplayNames(ProviderConfig) == map[DefaultModel := "Claude 4 Sonnet"]
  {
    AllValidModelsValue();
    DefaultModelProvider();
    ShippedNamesDistinct();
    DisplayNameOfProvider(ProviderConfig, DefaultModel, 2);
    SingleModelTables(ProviderConfig, DefaultModel);
  }
}
