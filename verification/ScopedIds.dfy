/**
 Provider-scoped model ids of the embedding and rerank registries: printed into a flat
 catalog, and parsed back by two parsers that share the scoping rules.
 */
module ScopedIds {
  import opened Options
  import opened Text

  datatype Model = Model(id: string, name: string, dimensions: Option<int>)

  /** Models by provider key, in registry order, and the two alias tables. */
  datatype Catalog = Catalog(
    providers: seq<(string, seq<Model>)>, providerAliases: map<string, string>, modelAliases: seq<(string, string)>)

  datatype Parsed = Parsed(provider: Option<string>, model: Option<string>)

  // ----- Scoping -----

  function Resolve(c: Catalog, id: string): string {
    if id in c.providerAliases && c.providerAliases[id] != "" then c.providerAliases[id] else id
  }

  function ModelsOf(providers: seq<(string, seq<Model>)>, key: string): Option<seq<Model>> {
    if providers == [] then None
    else if providers[0].0 == key then Some(providers[0].1)
    else ModelsOf(providers[1..], key)
  }

  predicate Offers(models: seq<Model>, modelId: string) {
    exists m | m in models :: m.id == modelId
  }

  predicate ListsModel(c: Catalog, key: string, modelId: string) {
    var models := ModelsOf(c.providers, key);
    models.Some? && Offers(models.value, modelId)
  }

  /** As given, under the provider's prefix, or with the prefix removed: the first the provider lists. */
  function Normalize(c: Catalog, provider: string, modelId: string): string {
    var resolved := Resolve(c, provider);
    if ListsModel(c, resolved, modelId) then modelId
    else if ListsModel(c, resolved, resolved + "/" + modelId) then resolved + "/" + modelId
    else if provider + "/" <= modelId then modelId[|provider| + 1..]
    else modelId
  }

  /** The printed catalog id. */
  function Scoped(provider: string, modelId: string): string {
    if provider + "/" <= modelId then modelId else provider + "/" + modelId
  }

  // ----- Parsing -----

  function ApplyAliases(aliases: seq<(string, string)>, s: string): string {
    if aliases == [] then s
    else
      var (alias, canonical) := aliases[0];
      if s == alias then canonical
      else if '/' !in alias && EndsWith(s, "/" + alias) then s[..|s| - |alias|] + canonical
      else ApplyAliases(aliases[1..], s)
  }

  /** The first key that, followed by a slash, starts the string. */
  function FirstPrefix(keys: seq<string>, s: string): Option<string> {
    if keys == [] then None else if keys[0] + "/" <= s then Some(keys[0]) else FirstPrefix(keys[1..], s)
  }

  function KeysOf(providers: seq<(string, seq<Model>)>): seq<string> {
    if providers == [] then [] else [providers[0].0] + KeysOf(providers[1..])
  }

  function FirstLister(providers: seq<(string, seq<Model>)>, modelId: string): Option<string> {
    if providers == [] then None
    else if Offers(providers[0].1, modelId) then Some(providers[0].0)
    else FirstLister(providers[1..], modelId)
  }

  /** What follows the first `n + 1` characters; nothing when there are fewer. */
  function After(s: string, n: nat): string {
    if n < |s| then s[n + 1..] else ""
  }

  function ParsePrefixed(c: Catalog, s: string, slash: nat, dynamic: seq<string>): Parsed
    requires 0 < slash < |s|
  {
    var raw, rest := s[..slash], s[slash + 1..];
    if raw in dynamic then Parsed(Some(raw), Some(rest))
    else if ModelsOf(c.providers, Resolve(c, raw)).Some? then
      Parsed(Some(Resolve(c, raw)), Some(Normalize(c, Resolve(c, raw), rest)))
    else
      var key := FirstPrefix(KeysOf(c.providers), s);
      if key.Some? then Parsed(key, Some(Normalize(c, key.value, After(s, |key.value|))))
      else
        var local := FirstPrefix(dynamic, s);
        if local.Some? then Parsed(local, Some(After(s, |local.value|))) else Parsed(Some(raw), Some(rest))
  }

  function ParseEmbedding(isUnsafe: string -> bool, c: Catalog, s: Option<string>, dynamic: seq<string>): Parsed {
    if s.None? || s.value == "" || isUnsafe(s.value) then Parsed(None, None)
    else
      var id := ApplyAliases(c.modelAliases, s.value);
      var slash := IndexOf(id, '/');
      if 0 < slash < |id| then ParsePrefixed(c, id, slash, dynamic)
      else Parsed(FirstLister(c.providers, id), Some(id))
  }

  function ParseRerank(isUnsafe: string -> bool, c: Catalog, s: Option<string>): Parsed {
    if s.None? || s.value == "" || isUnsafe(s.value) then Parsed(None, None)
    else
      var id := s.value;
      var slash := IndexOf(id, '/');
      if 0 < slash < |id| && ModelsOf(c.providers, Resolve(c, id[..slash])).Some? then
        Parsed(Some(Resolve(c, id[..slash])), Some(Normalize(c, Resolve(c, id[..slash]), id[slash + 1..])))
      else
        var key := FirstPrefix(KeysOf(c.providers), id);
        if key.Some? then Parsed(key, Some(Normalize(c, key.value, After(id, |key.value|))))
        else Parsed(FirstLister(c.providers, id), s)
  }

  // ----- Round trip -----

  /** Keys are unique, non-empty, without slashes, and none is itself an alias. */
  predicate ClearKeys(c: Catalog) {
    && (forall i, j | 0 <= i < j < |c.providers| :: c.providers[i].0 != c.providers[j].0)
    && (forall i | 0 <= i < |c.providers| ::
          var key := c.providers[i].0; key != "" && '/' !in key && Resolve(c, key) == key)
  }

  /** An alias that would rewrite the id. */
  predicate Captures(alias: string, id: string) {
    id == alias || ('/' !in alias && EndsWith(id, "/" + alias))
  }

  /** The provider lists both `m` and `m` under its own prefix. */
  predicate Ambiguous(provider: string, models: seq<Model>, modelId: string) {
    provider + "/" <= modelId && Offers(models, modelId[|provider| + 1..])
  }

  lemma {:induction false} ModelsAt(providers: seq<(string, seq<Model>)>, i: nat)
    requires i < |providers| && forall j, k | 0 <= j < k < |providers| :: providers[j].0 != providers[k].0
    ensures ModelsOf(providers, providers[i].0) == Some(providers[i].1)
  {
    if i > 0 {
      ModelsAt(providers[1..], i - 1);
    }
  }

  lemma {:induction false} NotCaptured(aliases: seq<(string, string)>, s: string)
    requires forall a | a in aliases :: !Captures(a.0, s)
    ensures ApplyAliases(aliases, s) == s
  {
    if aliases != [] {
      assert aliases[0] in aliases;
      NotCaptured(aliases[1..], s);
    }
  }

  /** The shared core: the scoped id splits at the provider, and the rest normalizes back unless ambiguous. */
  lemma ScopedSplits(c: Catalog, i: nat, modelId: string)
    requires ClearKeys(c) && i < |c.providers| && Offers(c.providers[i].1, modelId)
    ensures var (key, models) := c.providers[i];
            var s := Scoped(key, modelId);
            && IndexOf(s, '/') == |key| && |key| < |s| && s[..|key|] == key
            && (Normalize(c, key, s[|key| + 1..]) == modelId <==> !Ambiguous(key, models, modelId))
  {
    var (key, models) := c.providers[i];
    var s := Scoped(key, modelId);
    ModelsAt(c.providers, i);
    if key + "/" <= modelId {
      assert modelId == key + ['/'] + modelId[|key| + 1..];
      IndexOfSplit(key, '/', modelId[|key| + 1..]);
      assert key + "/" + s[|key| + 1..] == modelId;
    } else {
      IndexOfSplit(key, '/', modelId);
      assert s == key + ['/'] + modelId;
      assert s[|key| + 1..] == modelId;
    }
  }

  /**
   Every embedding catalog id that is safe and not captured by an alias parses back to its own
   provider and model if and only if the provider does not also list the id without its prefix. When
   a dynamic provider has the same key, it does if and only if the id does not carry the prefix itself.
   */
  lemma EmbeddingRoundTrip(isUnsafe: string -> bool, c: Catalog, dynamic: seq<string>, i: nat, modelId: string)
    requires ClearKeys(c) && i < |c.providers| && Offers(c.providers[i].1, modelId)
    requires var s := Scoped(c.providers[i].0, modelId);
             !isUnsafe(s) && forall a | a in c.modelAliases :: !Captures(a.0, s)
    ensures var (key, models) := c.providers[i];
            ParseEmbedding(isUnsafe, c, Some(Scoped(key, modelId)), dynamic) == Parsed(Some(key), Some(modelId))
            <==> if key in dynamic then !(key + "/" <= modelId) else !Ambiguous(key, models, modelId)
  {
    ScopedSplits(c, i, modelId);
    NotCaptured(c.modelAliases, Scoped(c.providers[i].0, modelId));
    ModelsAt(c.providers, i);
  }

  /** The same for the rerank parser, which has no model aliases. */
  lemma RerankRoundTrip(isUnsafe: string -> bool, c: Catalog, i: nat, modelId: string)
    requires ClearKeys(c) && i < |c.providers| && Offers(c.providers[i].1, modelId)
    requires !isUnsafe(Scoped(c.providers[i].0, modelId))
    ensures var (key, models) := c.providers[i];
            ParseRerank(isUnsafe, c, Some(Scoped(key, modelId))) == Parsed(Some(key), Some(modelId))
            <==> !Ambiguous(key, models, modelId)
  {
    ScopedSplits(c, i, modelId);
    ModelsAt(c.providers, i);
  }

  /** A provider that lists both "m" and "p/m": the id printed for the second parses to the first. */
  lemma BareIdHidesScoped(isUnsafe: string -> bool, c: Catalog, p: string, m: Model, scoped: Model)
    requires p != "" && '/' !in p && scoped.id == p + "/" + m.id && !isUnsafe(scoped.id)
    requires c == Catalog([(p, [m, scoped])], map[], [])
    ensures Scoped(p, scoped.id) == scoped.id
    ensures ParseRerank(isUnsafe, c, Some(scoped.id)) == Parsed(Some(p), Some(m.id))
    ensures ParseEmbedding(isUnsafe, c, Some(scoped.id), []) == Parsed(Some(p), Some(m.id))
  {
    var models := c.providers[0].1;
    assert models[0] == m && models[1] == scoped && Offers(models, m.id) && Offers(models, scoped.id);
    assert scoped.id[|p| + 1..] == m.id;
    ScopedSplits(c, 0, scoped.id);
    ModelsAt(c.providers, 0);
  }

  // ----- Aliases and bare ids -----

  /** The first row of the alias table that captures a string says what it stands for. */
  lemma {:induction false} FirstAliasApplies(aliases: seq<(string, string)>, s: string, k: nat, front: string)
    requires k < |aliases| && forall j | 0 <= j < k :: !Captures(aliases[j].0, s)
    requires (front == "" && s == aliases[k].0)
             || ('/' !in aliases[k].0 && s != aliases[k].0 && s == front + "/" + aliases[k].0)
    ensures ApplyAliases(aliases, s) ==
            if s == aliases[k].0 then aliases[k].1 else front + "/" + aliases[k].1
  {
    var (alias, canonical) := aliases[k];
    if k > 0 {
      assert !Captures(aliases[0].0, s);
      assert forall j | 0 <= j < k - 1 :: aliases[1..][j] == aliases[j + 1];
      FirstAliasApplies(aliases[1..], s, k - 1, front);
    } else if s != alias {
      assert s == front + ("/" + alias);
      assert s[|s| - |alias| - 1..] == "/" + alias;
      assert s[..|s| - |alias|] == front + "/";
    }
  }

  /** An aliased model id is parsed as what it stands for. */
  lemma AliasedModelParses(
    isUnsafe: string -> bool, c: Catalog, dynamic: seq<string>, s: string, k: nat, front: string)
    requires s != "" && !isUnsafe(s)
    requires k < |c.modelAliases| && forall j | 0 <= j < k :: !Captures(c.modelAliases[j].0, s)
    requires (front == "" && s == c.modelAliases[k].0)
             || ('/' !in c.modelAliases[k].0 && s != c.modelAliases[k].0 && s == front + "/" + c.modelAliases[k].0)
    ensures var stands := if s == c.modelAliases[k].0 then c.modelAliases[k].1
                          else front + "/" + c.modelAliases[k].1;
            stands != "" && !isUnsafe(stands) ==>
              ParseEmbedding(isUnsafe, c, Some(s), dynamic) ==
              ParseEmbedding(isUnsafe, c.(modelAliases := []), Some(stands), dynamic)
  {
    FirstAliasApplies(c.modelAliases, s, k, front);
    var stands := ApplyAliases(c.modelAliases, s);
    var plain := c.(modelAliases := []);
    var slash := IndexOf(stands, '/');
    if 0 < slash < |stands| {
      AliasesDoNotMatter(c, stands, slash, dynamic);
    }
  }

  lemma AliasesDoNotMatter(c: Catalog, s: string, slash: nat, dynamic: seq<string>)
    requires 0 < slash < |s|
    ensures ParsePrefixed(c, s, slash, dynamic) == ParsePrefixed(c.(modelAliases := []), s, slash, dynamic)
  {
  }

  /** What a model name under a provider becomes: itself, or itself under the prefix, when listed so. */
  lemma NormalizeIs(c: Catalog, i: nat, name: string)
    requires ClearKeys(c) && i < |c.providers|
    ensures var (key, models) := c.providers[i];
            Normalize(c, key, name) ==
            if exists m | m in models :: m.id == name then name
            else if exists m | m in models :: m.id == key + "/" + name then key + "/" + name
            else if key + "/" <= name then name[|key| + 1..]
            else name
  {
    ModelsAt(c.providers, i);
  }

  /** A provider alias in front of a model name parses to the provider it stands for, in both parsers. */
  lemma AliasedProviderParses(
    isUnsafe: string -> bool, c: Catalog, dynamic: seq<string>, alias: string, i: nat, name: string)
    requires ClearKeys(c) && i < |c.providers| && alias != "" && '/' !in alias && alias !in dynamic
    requires alias in c.providerAliases && c.providerAliases[alias] == c.providers[i].0
    requires var s := alias + "/" + name;
             !isUnsafe(s) && forall a | a in c.modelAliases :: !Captures(a.0, s)
    ensures var key := c.providers[i].0;
            var answer := Parsed(Some(key), Some(Normalize(c, key, name)));
            && ParseEmbedding(isUnsafe, c, Some(alias + "/" + name), dynamic) == answer
            && ParseRerank(isUnsafe, c, Some(alias + "/" + name)) == answer
  {
    var s := alias + "/" + name;
    assert s == alias + ['/'] + name;
    IndexOfSplit(alias, '/', name);
    assert s[..|alias|] == alias && s[|alias| + 1..] == name;
    ModelsAt(c.providers, i);
    NotCaptured(c.modelAliases, s);
  }

  /** The first provider that offers the model. */
  lemma {:induction false} ListerIsFirst(providers: seq<(string, seq<Model>)>, modelId: string)
    ensures FirstLister(providers, modelId).None? <==>
            forall i | 0 <= i < |providers| :: !Offers(providers[i].1, modelId)
    ensures forall i | 0 <= i < |providers| && Offers(providers[i].1, modelId)
                       && forall j | 0 <= j < i :: !Offers(providers[j].1, modelId) ::
              FirstLister(providers, modelId) == Some(providers[i].0)
  {
    if providers != [] {
      var tail := providers[1..];
      ListerIsFirst(tail, modelId);
      assert forall i | 0 < i < |providers| :: providers[i] == tail[i - 1];
      if !Offers(providers[0].1, modelId) {
        forall i | 0 <= i < |providers| && Offers(providers[i].1, modelId)
                   && forall j | 0 <= j < i :: !Offers(providers[j].1, modelId)
          ensures FirstLister(providers, modelId) == Some(providers[i].0)
        {
          assert forall j | 0 <= j < i - 1 :: tail[j] == providers[j + 1];
          assert Offers(tail[i - 1].1, modelId);
        }
      }
    }
  }

  /** Nothing, an empty id and an unsafe id parse to nothing. */
  lemma RejectedParses(isUnsafe: string -> bool, c: Catalog, dynamic: seq<string>, s: Option<string>)
    requires s.None? || s.value == "" || isUnsafe(s.value)
    ensures ParseEmbedding(isUnsafe, c, s, dynamic) == Parsed(None, None)
    ensures ParseRerank(isUnsafe, c, s) == Parsed(None, None)
  {
  }

  /** The first key that starts the string. */
  lemma {:induction false} PrefixIsFirst(keys: seq<string>, s: string)
    ensures FirstPrefix(keys, s).None? <==> forall i | 0 <= i < |keys| :: !(keys[i] + "/" <= s)
    ensures forall i | 0 <= i < |keys| && keys[i] + "/" <= s && forall j | 0 <= j < i :: !(keys[j] + "/" <= s) ::
              FirstPrefix(keys, s) == Some(keys[i])
  {
    if keys != [] {
      var tail := keys[1..];
      PrefixIsFirst(tail, s);
      assert forall i | 0 < i < |keys| :: keys[i] == tail[i - 1];
      if !(keys[0] + "/" <= s) {
        forall i | 0 <= i < |keys| && keys[i] + "/" <= s && forall j | 0 <= j < i :: !(keys[j] + "/" <= s)
          ensures FirstPrefix(keys, s) == Some(keys[i])
        {
          assert forall j | 0 <= j < i - 1 :: tail[j] == keys[j + 1];
          assert tail[i - 1] == keys[i];
        }
      }
    }
  }

  lemma {:induction false} KeysAt(providers: seq<(string, seq<Model>)>)
    ensures |KeysOf(providers)| == |providers|
    ensures forall i | 0 <= i < |providers| :: KeysOf(providers)[i] == providers[i].0
  {
    if providers != [] {
      KeysAt(providers[1..]);
    }
  }

  /** An id whose first part names no provider: the key of a provider may start it all the same... */
  lemma LongKeyParses(
    isUnsafe: string -> bool, c: Catalog, dynamic: seq<string>, front: string, back: string, i: nat, rest: string)
    requires front != "" && '/' !in front && front !in dynamic && ModelsOf(c.providers, Resolve(c, front)).None?
    requires var s := front + "/" + back;
             && !isUnsafe(s) && (forall a | a in c.modelAliases :: !Captures(a.0, s))
             && i < |c.providers| && s == c.providers[i].0 + "/" + rest
             && forall j | 0 <= j < i :: !(c.providers[j].0 + "/" <= s)
    ensures var s, key := front + "/" + back, c.providers[i].0;
            var answer := Parsed(Some(key), Some(Normalize(c, key, rest)));
            ParseEmbedding(isUnsafe, c, Some(s), dynamic) == answer && ParseRerank(isUnsafe, c, Some(s)) == answer
  {
    var s, key := front + "/" + back, c.providers[i].0;
    FirstPart(front, back);
    NotCaptured(c.modelAliases, s);
    KeysAt(c.providers);
    PrefixIsFirst(KeysOf(c.providers), s);
    assert After(s, |key|) == rest;
  }

  /** ... else, for embeddings, that of a dynamic provider does, or the first part stands for itself. */
  lemma UnknownParses(isUnsafe: string -> bool, c: Catalog, dynamic: seq<string>, front: string, back: string)
    requires front != "" && '/' !in front && front !in dynamic && ModelsOf(c.providers, Resolve(c, front)).None?
    requires var s := front + "/" + back;
             && !isUnsafe(s) && (forall a | a in c.modelAliases :: !Captures(a.0, s))
             && forall j | 0 <= j < |c.providers| :: !(c.providers[j].0 + "/" <= s)
    ensures var s := front + "/" + back;
            && (forall k, rest | 0 <= k < |dynamic| && s == dynamic[k] + "/" + rest
                                 && forall j | 0 <= j < k :: !(dynamic[j] + "/" <= s) ::
                  ParseEmbedding(isUnsafe, c, Some(s), dynamic) == Parsed(Some(dynamic[k]), Some(rest)))
            && ((forall k | 0 <= k < |dynamic| :: !(dynamic[k] + "/" <= s)) ==>
                  ParseEmbedding(isUnsafe, c, Some(s), dynamic) == Parsed(Some(front), Some(back)))
            && ParseRerank(isUnsafe, c, Some(s)) == Parsed(FirstLister(c.providers, s), Some(s))
  {
    var s := front + "/" + back;
    FirstPart(front, back);
    NotCaptured(c.modelAliases, s);
    KeysAt(c.providers);
    PrefixIsFirst(KeysOf(c.providers), s);
    PrefixIsFirst(dynamic, s);
    forall k, rest | 0 <= k < |dynamic| && s == dynamic[k] + "/" + rest ensures After(s, |dynamic[k]|) == rest {
      assert s[|dynamic[k]| + 1..] == rest;
    }
  }

  lemma FirstPart(front: string, back: string)
    requires '/' !in front
    ensures var s := front + "/" + back;
            IndexOf(s, '/') == |front| && |front| < |s| && s[..|front|] == front && s[|front| + 1..] == back
  {
    IndexOfSplit(front, '/', back);
    assert front + "/" + back == front + ['/'] + back;
  }

  /** An id without a slash parses to the first provider that offers it, if any, in both parsers. */
  lemma BareIdParses(isUnsafe: string -> bool, c: Catalog, dynamic: seq<string>, id: string)
    requires id != "" && '/' !in id && !isUnsafe(id) && forall a | a in c.modelAliases :: !Captures(a.0, id)
    ensures ParseEmbedding(isUnsafe, c, Some(id), dynamic) == Parsed(FirstLister(c.providers, id), Some(id))
    ensures ParseRerank(isUnsafe, c, Some(id)) == Parsed(FirstLister(c.providers, id), Some(id))
  {
    NotCaptured(c.modelAliases, id);
    assert IndexOf(id, '/') == |id|;
    NoSlashNoPrefix(KeysOf(c.providers), id);
  }

  lemma {:induction false} NoSlashNoPrefix(keys: seq<string>, id: string)
    requires '/' !in id
    ensures FirstPrefix(keys, id) == None
  {
    if keys != [] {
      assert (keys[0] + "/")[|keys[0]|] == '/';
      assert !(keys[0] + "/" <= id);
      NoSlashNoPrefix(keys[1..], id);
    }
  }

  // ----- The flat catalog -----

  /** A catalog row; the rerank catalog has no dimensions. */
  datatype Listed = Listed(id: string, name: string, provider: string, dimensions: Option<int>)

  function Row(key: string, m: Model): Listed {
    Listed(Scoped(key, m.id), m.name, key, m.dimensions)
  }

  function ListedBy(key: string, models: seq<Model>): seq<Listed> {
    if models == [] then [] else ListedBy(key, models[..|models| - 1]) + [Row(key, models[|models| - 1])]
  }

  function AllModels(providers: seq<(string, seq<Model>)>): seq<Listed> {
    if providers == [] then []
    else
      var last := providers[|providers| - 1];
      AllModels(providers[..|providers| - 1]) + ListedBy(last.0, last.1)
  }

  method GetAllModels(c: Catalog) returns (models: seq<Listed>)
    ensures models == AllModels(c.providers)
  {
    models := [];
    for i := 0 to |c.providers|
      invariant models == AllModels(c.providers[..i])
    {
      assert c.providers[..i + 1][..i] == c.providers[..i];
      var (key, own) := c.providers[i];
      ghost var before := models;
      for j := 0 to |own|
        invariant models == before + ListedBy(key, own[..j])
      {
        assert own[..j + 1][..j] == own[..j];
        models := models + [Row(key, own[j])];
      }
      assert own[..|own|] == own;
    }
    assert c.providers[..|c.providers|] == c.providers;
  }

  lemma ConcatAssociates(x: seq<Listed>, y: seq<Listed>, z: seq<Listed>)
    ensures (x + y) + z == x + (y + z)
  {
  }

  lemma OneProviderMore(init: seq<(string, seq<Model>)>, last: (string, seq<Model>))
    ensures AllModels(init + [last]) == AllModels(init) + ListedBy(last.0, last.1)
  {
    assert (init + [last])[..|init|] == init;
  }

  /** The catalog lists providers and their models in order, each model once. */
  lemma {:induction false} CatalogConcat(a: seq<(string, seq<Model>)>, b: seq<(string, seq<Model>)>)
    ensures AllModels(a + b) == AllModels(a) + AllModels(b)
  {
    if b == [] {
      assert a + b == a;
    } else {
      var init, last := b[..|b| - 1], b[|b| - 1];
      assert b == init + [last] && a + b == (a + init) + [last];
      CatalogConcat(a, init);
      OneProviderMore(a + init, last);
      OneProviderMore(init, last);
      ConcatAssociates(AllModels(a), AllModels(init), ListedBy(last.0, last.1));
    }
  }

  lemma ProviderRows(provider: (string, seq<Model>), rows: seq<Listed>)
    requires rows == AllModels([provider])
    ensures |rows| == |provider.1|
    ensures forall k | 0 <= k < |rows| :: var m := provider.1[k];
              rows[k] == Listed(Scoped(provider.0, m.id), m.name, provider.0, m.dimensions)
  {
    var one := [provider];
    assert one[..0] == [] && AllModels(one) == AllModels(one[..0]) + ListedBy(provider.0, provider.1);
    ListedByAt(provider.0, provider.1);
  }

  lemma {:induction false} ListedByAt(key: string, models: seq<Model>)
    ensures |ListedBy(key, models)| == |models|
    ensures forall k | 0 <= k < |models| :: ListedBy(key, models)[k] == Row(key, models[k])
  {
    if models != [] {
      ListedByAt(key, models[..|models| - 1]);
    }
  }

  lemma {:induction false} ListedByRows(key: string, models: seq<Model>, row: Listed)
    requires row in ListedBy(key, models)
    ensures exists m | m in models :: row == Row(key, m)
  {
    var init, last := models[..|models| - 1], models[|models| - 1];
    if row in ListedBy(key, init) {
      ListedByRows(key, init, row);
    } else {
      assert last in models;
    }
  }

  lemma {:induction false} AllModelsRows(providers: seq<(string, seq<Model>)>, row: Listed) returns (i: nat, m: Model)
    requires row in AllModels(providers)
    ensures i < |providers| && m in providers[i].1 && row == Row(providers[i].0, m)
  {
    var init, last := providers[..|providers| - 1], providers[|providers| - 1];
    if row in AllModels(init) {
      i, m := AllModelsRows(init, row);
    } else {
      ListedByRows(last.0, last.1, row);
      i := |providers| - 1;
      m :| m in last.1 && row == Row(last.0, m);
    }
  }

  /**
   So every row of the catalog is made from a model of a provider, and its printed id, when safe and
   not captured, parses back to that provider and that model's id, in both registries, if and only if
   the row is not ambiguous, or, where a dynamic provider has the key, its id carries no prefix.
   */
  lemma CatalogRoundTrip(isUnsafe: string -> bool, c: Catalog, dynamic: seq<string>, row: Listed)
    returns (i: nat, m: Model)
    requires ClearKeys(c) && row in AllModels(c.providers)
    ensures i < |c.providers| && m in c.providers[i].1 && row == Row(c.providers[i].0, m)
    ensures !isUnsafe(row.id) && (forall a | a in c.modelAliases :: !Captures(a.0, row.id)) ==>
              var (key, models) := c.providers[i];
              (ParseEmbedding(isUnsafe, c, Some(row.id), dynamic) == Parsed(Some(key), Some(m.id))
               <==> if key in dynamic then !(key + "/" <= m.id) else !Ambiguous(key, models, m.id))
    ensures !isUnsafe(row.id) ==>
              (ParseRerank(isUnsafe, c, Some(row.id)) == Parsed(Some(c.providers[i].0), Some(m.id))
               <==> !Ambiguous(c.providers[i].0, c.providers[i].1, m.id))
  {
    i, m := AllModelsRows(c.providers, row);
    if !isUnsafe(row.id) {
      RerankRoundTrip(isUnsafe, c, i, m.id);
      if forall a | a in c.modelAliases :: !Captures(a.0, row.id) {
        EmbeddingRoundTrip(isUnsafe, c, dynamic, i, m.id);
      }
    }
  }

  // ----- The rerank parser's loops -----

  method ParseRerankModel(isUnsafe: string -> bool, c: Catalog, s: Option<string>) returns (r: Parsed)
    ensures r == ParseRerank(isUnsafe, c, s)
  {
    if s.None? || s.value == "" || isUnsafe(s.value) {
      return Parsed(None, None);
    }
    var id := s.value;
    var slash := IndexOf(id, '/');
    if 0 < slash < |id| {
      var resolved := Resolve(c, id[..slash]);
      if ModelsOf(c.providers, resolved).Some? {
        return Parsed(Some(resolved), Some(Normalize(c, resolved, id[slash + 1..])));
      }
    }
    for i := 0 to |c.providers|
      invariant FirstPrefix(KeysOf(c.providers), id) == FirstPrefix(KeysOf(c.providers[i..]), id)
    {
      assert KeysOf(c.providers[i..])[1..] == KeysOf(c.providers[i + 1..]);
      var key := c.providers[i].0;
      if key + "/" <= id {
        return Parsed(Some(key), Some(Normalize(c, key, id[|key| + 1..])));
      }
    }
    for i := 0 to |c.providers|
      invariant FirstLister(c.providers, id) == FirstLister(c.providers[i..], id)
    {
      if Offers(c.providers[i].1, id) {
        return Parsed(Some(c.providers[i].0), s);
      }
    }
    return Parsed(None, s);
  }
}
