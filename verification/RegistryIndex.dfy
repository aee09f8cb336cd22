/**
 Model lookup through lazily built indexes. Each index is first-wins, cached for as long as its
 registry lives, and must answer like the linear scan it replaces.
 */
module RegistryIndex {
  import opened Options
  import opened Text
  import opened Json

  datatype Model = Model(id: string, name: string)

  /** A registry entry: its key, its optional alias and its models. */
  datatype Provider = Provider(id: string, alias: Option<string>, models: seq<Model>)

  datatype Parsed = Parsed(provider: Option<string>, model: Option<string>)

  /** A registry object; its contents never change after construction. */
  class Registry {
    const entries: seq<Provider>

    constructor (entries: seq<Provider>)
      ensures this.entries == entries
    {
      this.entries := entries;
    }
  }

  // ----- The linear scan -----

  predicate Lists(p: Provider, modelId: string) {
    exists m | m in p.models :: m.id == modelId
  }

  /** The first provider that lists the model. */
  function FirstLister(entries: seq<Provider>, modelId: string): Option<string> {
    if entries == [] then None
    else
      var earlier := FirstLister(entries[..|entries| - 1], modelId);
      if earlier.None? && Lists(entries[|entries| - 1], modelId) then Some(entries[|entries| - 1].id) else earlier
  }

  /** The first entry whose id or alias, followed by a slash, starts the string. */
  function ByPrefix(entries: seq<Provider>, s: string): Option<Parsed> {
    if entries == [] then None
    else
      var p := entries[0];
      if p.id + "/" <= s then Some(Parsed(Some(p.id), Some(s[|p.id| + 1..])))
      else if HasAlias(p) && p.alias.value + "/" <= s then Some(Parsed(Some(p.id), Some(s[|p.alias.value| + 1..])))
      else ByPrefix(entries[1..], s)
  }

  predicate HasAlias(p: Provider) {
    p.alias.Some? && p.alias.value != ""
  }

  /** The parse, with the bare lookup as a scan. An empty provider id counts as not found. */
  function Parse(isUnsafe: string -> bool, s: Option<string>, entries: seq<Provider>): Parsed {
    if s.None? || s.value == "" || isUnsafe(s.value) then Parsed(None, None)
    else
      var prefixed := ByPrefix(entries, s.value);
      if prefixed.Some? then prefixed.value
      else
        var lister := FirstLister(entries, s.value);
        if lister.Some? && lister.value != "" then Parsed(lister, s) else Parsed(None, s)
  }

  /** The scan finds the first entry that lists the model. */
  lemma {:induction false} ListerIsFirst(entries: seq<Provider>, modelId: string)
    ensures FirstLister(entries, modelId).None? <==> forall i | 0 <= i < |entries| :: !Lists(entries[i], modelId)
    ensures forall i | 0 <= i < |entries| && Lists(entries[i], modelId)
                       && forall j | 0 <= j < i :: !Lists(entries[j], modelId) ::
              FirstLister(entries, modelId) == Some(entries[i].id)
  {
    if entries != [] {
      var init := entries[..|entries| - 1];
      ListerIsFirst(init, modelId);
      assert forall i | 0 <= i < |init| :: init[i] == entries[i];
    }
  }

  /** The id of the entry, or else its alias, and a slash start the string; `rest` follows. */
  predicate Prefixed(p: Provider, s: string, rest: string) {
    s == p.id + "/" + rest
    || (!(p.id + "/" <= s) && p.alias.Some? && p.alias.value != "" && s == p.alias.value + "/" + rest)
  }

  /** The parse takes the first entry whose id or alias starts the string. */
  lemma {:induction false} PrefixIsFirst(entries: seq<Provider>, s: string, i: nat, rest: string)
    requires i < |entries| && Prefixed(entries[i], s, rest)
    requires forall j, r | 0 <= j < i :: !Prefixed(entries[j], s, r)
    ensures ByPrefix(entries, s) == Some(Parsed(Some(entries[i].id), Some(rest)))
  {
    var p := entries[0];
    if i == 0 {
      if s == p.id + "/" + rest {
        assert s[|p.id| + 1..] == rest;
      } else {
        assert s[|p.alias.value| + 1..] == rest;
      }
    } else {
      NotPrefixed(p, s);
      assert entries[1..][i - 1] == entries[i];
      PrefixIsFirst(entries[1..], s, i - 1, rest);
    }
  }

  lemma NotPrefixed(p: Provider, s: string)
    requires forall r :: !Prefixed(p, s, r)
    ensures !(p.id + "/" <= s) && !(HasAlias(p) && p.alias.value + "/" <= s)
  {
    if p.id + "/" <= s {
      assert s == p.id + "/" + s[|p.id| + 1..];
      assert Prefixed(p, s, s[|p.id| + 1..]);
    } else if HasAlias(p) && p.alias.value + "/" <= s {
      assert s == p.alias.value + "/" + s[|p.alias.value| + 1..];
      assert Prefixed(p, s, s[|p.alias.value| + 1..]);
    }
  }

  lemma {:induction false} NoPrefix(entries: seq<Provider>, s: string)
    requires forall j, r | 0 <= j < |entries| :: !Prefixed(entries[j], s, r)
    ensures ByPrefix(entries, s) == None
  {
    if entries != [] {
      NotPrefixed(entries[0], s);
      assert forall j | 0 <= j < |entries[1..]| :: entries[1..][j] == entries[j + 1];
      NoPrefix(entries[1..], s);
    }
  }

  /** What a string parses to, by the entries: nothing, the first prefix, the first lister, or no provider. */
  ghost predicate IsParse(isUnsafe: string -> bool, s: string, entries: seq<Provider>, r: Parsed) {
    if s == "" || isUnsafe(s) then r == Parsed(None, None)
    else if exists i, rest | 0 <= i < |entries| :: Prefixed(entries[i], s, rest) then
      exists i, rest | 0 <= i < |entries| && Prefixed(entries[i], s, rest) ::
        && r == Parsed(Some(entries[i].id), Some(rest))
        && forall j, other | 0 <= j < i :: !Prefixed(entries[j], s, other)
    else if exists i | 0 <= i < |entries| :: Lists(entries[i], s) then
      exists i | 0 <= i < |entries| && Lists(entries[i], s) ::
        && r == Parsed(if entries[i].id == "" then None else Some(entries[i].id), Some(s))
        && forall j | 0 <= j < i :: !Lists(entries[j], s)
    else r == Parsed(None, Some(s))
  }

  lemma ParseIs(isUnsafe: string -> bool, s: string, entries: seq<Provider>)
    ensures IsParse(isUnsafe, s, entries, Parse(isUnsafe, Some(s), entries))
    ensures Parse(isUnsafe, None, entries) == Parsed(None, None)
  {
    if exists i, rest | 0 <= i < |entries| :: Prefixed(entries[i], s, rest) {
      var i, rest := LeastPrefix(entries, s);
      PrefixIsFirst(entries, s, i, rest);
    } else {
      NoPrefix(entries, s);
      ListerIsFirst(entries, s);
      if exists i | 0 <= i < |entries| :: Lists(entries[i], s) {
        var i := LeastLister(entries, s);
      }
    }
  }

  lemma {:induction false} LeastPrefix(entries: seq<Provider>, s: string) returns (i: nat, rest: string)
    requires exists i, rest | 0 <= i < |entries| :: Prefixed(entries[i], s, rest)
    ensures i < |entries| && Prefixed(entries[i], s, rest)
    ensures forall j, other | 0 <= j < i :: !Prefixed(entries[j], s, other)
  {
    if other :| Prefixed(entries[0], s, other) {
      i, rest := 0, other;
    } else {
      var tail := entries[1..];
      var k, found :| 0 <= k < |entries| && Prefixed(entries[k], s, found);
      assert tail[k - 1] == entries[k];
      i, rest := LeastPrefix(tail, s);
      forall j, other | 0 <= j < i + 1 ensures !Prefixed(entries[j], s, other) {
        assert j > 0 ==> entries[j] == tail[j - 1];
      }
      i := i + 1;
    }
  }

  lemma {:induction false} LeastLister(entries: seq<Provider>, s: string) returns (i: nat)
    requires exists i | 0 <= i < |entries| :: Lists(entries[i], s)
    ensures i < |entries| && Lists(entries[i], s) && forall j | 0 <= j < i :: !Lists(entries[j], s)
  {
    if Lists(entries[0], s) {
      i := 0;
    } else {
      var tail := entries[1..];
      var k :| 0 <= k < |entries| && Lists(entries[k], s);
      assert tail[k - 1] == entries[k];
      i := LeastLister(tail, s);
      forall j | 0 <= j < i + 1 ensures !Lists(entries[j], s) {
        assert j > 0 ==> entries[j] == tail[j - 1];
      }
      i := i + 1;
    }
  }

  // ----- The cached index -----

  function Lookup(index: map<string, string>, modelId: string): Option<string> {
    if modelId in index then Some(index[modelId]) else None
  }

  /** The index answers every lookup like the scan. */
  ghost predicate IsIndex(index: map<string, string>, entries: seq<Provider>) {
    forall id :: Lookup(index, id) == FirstLister(entries, id)
  }

  method BuildIndex(entries: seq<Provider>) returns (index: map<string, string>)
    ensures IsIndex(index, entries)
  {
    index := map[];
    for i := 0 to |entries|
      invariant IsIndex(index, entries[..i])
    {
      var p := entries[i];
      ghost var before := index;
      assert entries[..i + 1][..i] == entries[..i];
      for j := 0 to |p.models|
        invariant forall id :: Lookup(index, id) ==
                    if id in before then Some(before[id])
                    else if exists k | 0 <= k < j :: p.models[k].id == id then Some(p.id) else None
      {
        if p.models[j].id !in index {
          index := index[p.models[j].id := p.id];
        }
      }
      forall id ensures Lookup(index, id) == FirstLister(entries[..i + 1], id) {
        assert Lookup(before, id) == FirstLister(entries[..i], id);
        assert Lists(p, id) <==> exists k | 0 <= k < |p.models| :: p.models[k].id == id;
      }
    }
    assert entries[..|entries|] == entries;
  }

  /** The cache from registry objects to their indexes. */
  class IndexCache {
    var cache: map<Registry, map<string, string>>

    ghost predicate Valid()
      reads this
    {
      forall r | r in cache :: IsIndex(cache[r], r.entries)
    }

    constructor ()
      ensures Valid() && cache == map[]
    {
      cache := map[];
    }

    /** Cached or built now; entries of other registries stay as they are. */
    method IndexOf(registry: Registry) returns (index: map<string, string>)
      requires Valid()
      modifies this
      ensures Valid() && IsIndex(index, registry.entries)
      ensures registry in old(cache) ==> cache == old(cache) && index == old(cache)[registry]
      ensures registry !in old(cache) ==> cache == old(cache)[registry := index]
    {
      if registry in cache {
        return cache[registry];
      }
      index := BuildIndex(registry.entries);
      cache := cache[registry := index];
    }

    /** Whatever was called before, the answer is the one of the linear scan. */
    method ParseModel(isUnsafe: string -> bool, s: Option<string>, registry: Registry) returns (r: Parsed)
      requires Valid()
      modifies this
      ensures Valid() && r == Parse(isUnsafe, s, registry.entries)
    {
      if s.None? || s.value == "" || isUnsafe(s.value) {
        return Parsed(None, None);
      }
      for i := 0 to |registry.entries|
        invariant ByPrefix(registry.entries, s.value) == ByPrefix(registry.entries[i..], s.value)
      {
        var p := registry.entries[i];
        if p.id + "/" <= s.value {
          return Parsed(Some(p.id), Some(s.value[|p.id| + 1..]));
        }
        if HasAlias(p) && p.alias.value + "/" <= s.value {
          return Parsed(Some(p.id), Some(s.value[|p.alias.value| + 1..]));
        }
      }
      var index := IndexOf(registry);
      assert Lookup(index, s.value) == FirstLister(registry.entries, s.value);
      if s.value in index && index[s.value] != "" {
        return Parsed(Some(index[s.value]), s);
      }
      return Parsed(None, s);
    }
  }

  // ----- The flat catalog and its round trip -----

  /** A row of the catalog: its columns by name. */
  type Listed = map<string, Json>

  /** The columns a caller adds to the rows of a provider; they are spread last and so win. */
  type Extra = Provider -> map<string, Json>

  function Row(extra: Extra, p: Provider, prefix: string, m: Model): Listed {
    map["id" := Str(Print(prefix, m.id)), "name" := Str(m.name), "provider" := Str(p.id)] + extra(p)
  }

  /** The prefixes a provider's models are printed under. */
  function Prefixes(p: Provider): seq<string> {
    (if p.id != "" then [p.id] else []) + (if HasAlias(p) then [p.alias.value] else [])
  }

  function Print(prefix: string, modelId: string): string {
    prefix + "/" + modelId
  }

  function ListedUnder(extra: Extra, p: Provider, m: Model, prefixes: seq<string>): seq<Listed> {
    if prefixes == [] then []
    else
      ListedUnder(extra, p, m, prefixes[..|prefixes| - 1])
      + [Row(extra, p, prefixes[|prefixes| - 1], m)]
  }

  function ListedBy(extra: Extra, p: Provider, models: seq<Model>): seq<Listed> {
    if models == [] then []
    else ListedBy(extra, p, models[..|models| - 1]) + ListedUnder(extra, p, models[|models| - 1], Prefixes(p))
  }

  function AllModels(extra: Extra, entries: seq<Provider>): seq<Listed> {
    if entries == [] then []
    else
      var last := entries[|entries| - 1];
      AllModels(extra, entries[..|entries| - 1]) + ListedBy(extra, last, last.models)
  }

  /** The innermost loop: one row for each prefix. */
  method PushUnder(extra: Extra, models: seq<Listed>, p: Provider, m: Model) returns (r: seq<Listed>)
    ensures r == models + ListedUnder(extra, p, m, Prefixes(p))
  {
    r := models;
    var prefixes := Prefixes(p);
    for k := 0 to |prefixes|
      invariant r == models + ListedUnder(extra, p, m, prefixes[..k])
    {
      assert prefixes[..k + 1][..k] == prefixes[..k];
      r := r + [Row(extra, p, prefixes[k], m)];
    }
    assert prefixes[..|prefixes|] == prefixes;
  }

  lemma ListedByStep(extra: Extra, p: Provider, models: seq<Model>, j: nat)
    requires j < |models|
    ensures ListedBy(extra, p, models[..j + 1]) ==
            ListedBy(extra, p, models[..j]) + ListedUnder(extra, p, models[j], Prefixes(p))
  {
    assert models[..j + 1][..j] == models[..j];
  }

  /** The middle loop: the rows of one provider. */
  method PushProvider(extra: Extra, models: seq<Listed>, p: Provider) returns (r: seq<Listed>)
    ensures r == models + ListedBy(extra, p, p.models)
  {
    r := models;
    for j := 0 to |p.models|
      invariant r == models + ListedBy(extra, p, p.models[..j])
    {
      ListedByStep(extra, p, p.models, j);
      r := PushUnder(extra, r, p, p.models[j]);
    }
    assert p.models[..|p.models|] == p.models;
  }

  method GetAllModels(extra: Extra, entries: seq<Provider>) returns (models: seq<Listed>)
    ensures models == AllModels(extra, entries)
  {
    models := [];
    for i := 0 to |entries|
      invariant models == AllModels(extra, entries[..i])
    {
      assert entries[..i + 1][..i] == entries[..i];
      models := PushProvider(extra, models, entries[i]);
    }
    assert entries[..|entries|] == entries;
  }

  /** The catalog lists entries and their models in order... */
  lemma {:induction false} CatalogConcat(extra: Extra, a: seq<Provider>, b: seq<Provider>)
    ensures AllModels(extra, a + b) == AllModels(extra, a) + AllModels(extra, b)
  {
    if b == [] {
      assert a + b == a;
    } else {
      var init, last := b[..|b| - 1], b[|b| - 1];
      assert b == init + [last] && a + b == (a + init) + [last];
      CatalogConcat(extra, a, init);
    }
  }

  lemma {:induction false} ModelsConcat(extra: Extra, p: Provider, a: seq<Model>, b: seq<Model>)
    ensures ListedBy(extra, p, a + b) == ListedBy(extra, p, a) + ListedBy(extra, p, b)
  {
    if b == [] {
      assert a + b == a;
    } else {
      assert (a + b)[..|a + b| - 1] == a + b[..|b| - 1];
      ModelsConcat(extra, p, a, b[..|b| - 1]);
    }
  }

  /** ... each model under the id of its entry, then under its alias, for as many of these as there are. */
  lemma ModelRows(extra: Extra, p: Provider, m: Model)
    ensures AllModels(extra, [p]) == ListedBy(extra, p, p.models)
    ensures ListedBy(extra, p, [m]) ==
            (if p.id != "" then [Row(extra, p, p.id, m)] else [])
            + (if p.alias.Some? && p.alias.value != "" then [Row(extra, p, p.alias.value, m)] else [])
  {
    assert [p][..0] == [] && [m][..0] == [];
    var byId := if p.id != "" then [p.id] else [];
    var byAlias := if HasAlias(p) then [p.alias.value] else [];
    PrefixesConcat(extra, p, m, byId, byAlias);
    assert forall q: string :: [q][..0] == [];
  }

  /** A row has the columns the caller adds, and those of its own that these do not replace; no others. */
  lemma RowColumns(extra: Extra, p: Provider, prefix: string, m: Model, column: string)
    ensures var row := Row(extra, p, prefix, m);
            if column in extra(p) then column in row && row[column] == extra(p)[column]
            else if column == "id" then column in row && row[column] == Str(prefix + "/" + m.id)
            else if column == "name" then column in row && row[column] == Str(m.name)
            else if column == "provider" then column in row && row[column] == Str(p.id)
            else column !in row
  {
  }

  lemma {:induction false} PrefixesConcat(extra: Extra, p: Provider, m: Model, a: seq<string>, b: seq<string>)
    ensures ListedUnder(extra, p, m, a + b) == ListedUnder(extra, p, m, a) + ListedUnder(extra, p, m, b)
  {
    if b == [] {
      assert a + b == a;
    } else {
      assert (a + b)[..|a + b| - 1] == a + b[..|b| - 1];
      PrefixesConcat(extra, p, m, a, b[..|b| - 1]);
    }
  }

  /** Prefixes have no slash, and no two entries share one. */
  predicate ClearPrefixes(entries: seq<Provider>) {
    && (forall i | 0 <= i < |entries| :: forall q | q in Prefixes(entries[i]) :: '/' !in q)
    && (forall i, j | 0 <= i < j < |entries| :: forall q | q in Prefixes(entries[i]) :: q !in Prefixes(entries[j]))
  }

  lemma PrefixIsExact(q: string, prefix: string, modelId: string)
    requires prefix != "" && '/' !in prefix && '/' !in q
    requires q + "/" <= Print(prefix, modelId)
    ensures q == prefix
  {
    var s := Print(prefix, modelId);
    assert s[|q|] == (q + "/")[|q|] && s[|prefix|] == '/';
    assert forall k | 0 <= k < |prefix| :: s[k] == prefix[k];
    assert forall k | 0 <= k < |q| :: s[k] == (q + "/")[k] == q[k];
  }

  /** Printing a model under a prefix of its provider and parsing gives both back. */
  lemma {:induction false} PrintedParsesBack(entries: seq<Provider>, i: nat, prefix: string, modelId: string)
    requires ClearPrefixes(entries) && i < |entries| && prefix in Prefixes(entries[i])
    ensures ByPrefix(entries, Print(prefix, modelId)) == Some(Parsed(Some(entries[i].id), Some(modelId)))
  {
    var s, p := Print(prefix, modelId), entries[0];
    assert s[|prefix| + 1..] == modelId;
    assert prefix + "/" <= s && s[0] == prefix[0];
    if p.id + "/" <= s {
      assert p.id in Prefixes(p);
      PrefixIsExact(p.id, prefix, modelId);
    } else if HasAlias(p) && p.alias.value + "/" <= s {
      assert p.alias.value in Prefixes(p);
      PrefixIsExact(p.alias.value, prefix, modelId);
    } else {
      assert i != 0;
      assert ClearPrefixes(entries[1..]);
      PrintedParsesBack(entries[1..], i - 1, prefix, modelId);
    }
  }

  lemma {:induction false} ListedUnderRows(extra: Extra, p: Provider, m: Model, prefixes: seq<string>, row: Listed)
    requires row in ListedUnder(extra, p, m, prefixes)
    ensures exists q | q in prefixes :: row == Row(extra, p, q, m)
  {
    var init := prefixes[..|prefixes| - 1];
    if row in ListedUnder(extra, p, m, init) {
      ListedUnderRows(extra, p, m, init, row);
    } else {
      assert prefixes[|prefixes| - 1] in prefixes;
    }
  }

  lemma {:induction false} ListedByRows(extra: Extra, p: Provider, models: seq<Model>, row: Listed)
    returns (m: Model, q: string)
    requires row in ListedBy(extra, p, models)
    ensures m in models && q in Prefixes(p) && row == Row(extra, p, q, m)
  {
    var init, last := models[..|models| - 1], models[|models| - 1];
    if row in ListedBy(extra, p, init) {
      m, q := ListedByRows(extra, p, init, row);
    } else {
      ListedUnderRows(extra, p, last, Prefixes(p), row);
      m := last;
      q :| q in Prefixes(p) && row == Row(extra, p, q, m);
    }
  }

  lemma {:induction false} AllModelsRows(extra: Extra, entries: seq<Provider>, row: Listed)
    returns (i: nat, m: Model, q: string)
    requires row in AllModels(extra, entries)
    ensures i < |entries| && m in entries[i].models && q in Prefixes(entries[i])
    ensures row == Row(extra, entries[i], q, m)
  {
    var init, last := entries[..|entries| - 1], entries[|entries| - 1];
    if row in AllModels(extra, init) {
      i, m, q := AllModelsRows(extra, init, row);
    } else {
      i := |entries| - 1;
      m, q := ListedByRows(extra, last, last.models, row);
    }
  }

  /**
   Every row is made from a model of a provider, under one of its prefixes. Unless a column added by
   the caller replaces it, its id, when safe, parses back to that provider and that model's id.
   */
  lemma CatalogRoundTrip(isUnsafe: string -> bool, extra: Extra, entries: seq<Provider>, row: Listed)
    returns (i: nat, m: Model, q: string)
    requires ClearPrefixes(entries) && row in AllModels(extra, entries)
    ensures i < |entries| && m in entries[i].models && q in Prefixes(entries[i])
    ensures row == Row(extra, entries[i], q, m)
    ensures "id" !in extra(entries[i]) ==> row["id"] == Str(Print(q, m.id))
    ensures !isUnsafe(Print(q, m.id)) ==>
              Parse(isUnsafe, Some(Print(q, m.id)), entries) == Parsed(Some(entries[i].id), Some(m.id))
  {
    i, m, q := AllModelsRows(extra, entries, row);
    PrintedParsesBack(entries, i, q, m.id);
  }

  // ----- Unsupported parameters -----

  datatype ParamModel = ParamModel(id: string, aliases: seq<string>, unsupported: Option<seq<string>>)

  datatype ParamEntry = ParamEntry(models: seq<ParamModel>, unsupported: Option<seq<string>>)

  function InList(models: seq<ParamModel>, modelId: string): Option<seq<string>> {
    if models == [] then None
    else
      var earlier, last := InList(models[..|models| - 1], modelId), models[|models| - 1];
      if earlier.None? && last.id == modelId then last.unsupported else earlier
  }

  /** The scan the map replaces: the first restriction declared for the id by any provider. */
  function FirstRestriction(entries: seq<ParamEntry>, modelId: string): Option<seq<string>> {
    if entries == [] then None
    else
      var earlier := FirstRestriction(entries[..|entries| - 1], modelId);
      if earlier.Some? then earlier else InList(entries[|entries| - 1].models, modelId)
  }

  /** The provider's own row for the id or one of its aliases. */
  function OwnModel(models: seq<ParamModel>, modelId: string): Option<ParamModel> {
    if models == [] then None
    else if models[0].id == modelId || modelId in models[0].aliases then Some(models[0])
    else OwnModel(models[1..], modelId)
  }

  /** Own row, then any provider's, then without a vendor prefix, then the provider-wide fallback. */
  function Unsupported(entries: seq<ParamEntry>, own: Option<ParamEntry>, modelId: string): seq<string> {
    var row := if own.Some? then OwnModel(own.value.models, modelId) else None;
    var shared := FirstRestriction(entries, modelId);
    var bare := if '/' in modelId then FirstRestriction(entries, AfterLastSlash(modelId)) else None;
    if row.Some? && row.value.unsupported.Some? then row.value.unsupported.value
    else if shared.Some? then shared.value
    else if bare.Some? then bare.value
    else if own.Some? && own.value.unsupported.Some? then own.value.unsupported.value
    else []
  }

  /** Row `j` of entry `i` declares a restriction for the id. */
  predicate Declares(entries: seq<ParamEntry>, modelId: string, i: int, j: int) {
    && 0 <= i < |entries| && 0 <= j < |entries[i].models|
    && entries[i].models[j].id == modelId && entries[i].models[j].unsupported.Some?
  }

  /** `r` is what the first row that declares a restriction for the id declares; nothing when none does. */
  ghost predicate Restricts(entries: seq<ParamEntry>, modelId: string, r: Option<seq<string>>) {
    || (r.None? && forall i, j :: !Declares(entries, modelId, i, j))
    || exists i, j | Declares(entries, modelId, i, j) ::
         && r == entries[i].models[j].unsupported
         && forall i', j' | Declares(entries, modelId, i', j') :: i < i' || (i == i' && j <= j')
  }

  /** The first row of a list that declares a restriction for the id. */
  ghost predicate RestrictsIn(models: seq<ParamModel>, modelId: string, r: Option<seq<string>>) {
    || (r.None? && forall j | 0 <= j < |models| :: models[j].id == modelId ==> models[j].unsupported.None?)
    || exists j | 0 <= j < |models| ::
         && models[j].id == modelId && models[j].unsupported.Some? && r == models[j].unsupported
         && forall j' | 0 <= j' < j :: models[j'].id == modelId ==> models[j'].unsupported.None?
  }

  lemma {:induction false} InListRestricts(models: seq<ParamModel>, modelId: string)
    ensures RestrictsIn(models, modelId, InList(models, modelId))
  {
    if models != [] {
      var init := models[..|models| - 1];
      InListRestricts(init, modelId);
      assert forall j | 0 <= j < |init| :: init[j] == models[j];
    }
  }

  lemma {:induction false} FirstRestrictionRestricts(entries: seq<ParamEntry>, modelId: string)
    ensures Restricts(entries, modelId, FirstRestriction(entries, modelId))
  {
    if entries != [] {
      var init, last := entries[..|entries| - 1], entries[|entries| - 1];
      FirstRestrictionRestricts(init, modelId);
      InListRestricts(last.models, modelId);
      forall i, j ensures Declares(init, modelId, i, j) <==> Declares(entries, modelId, i, j) && i < |init| {
        assert 0 <= i < |init| ==> init[i] == entries[i];
      }
      var earlier := FirstRestriction(init, modelId);
      if earlier.Some? {
        var i, j :| Declares(init, modelId, i, j) && earlier == init[i].models[j].unsupported
                    && forall i', j' | Declares(init, modelId, i', j') :: i < i' || (i == i' && j <= j');
        assert Declares(entries, modelId, i, j);
      } else if InList(last.models, modelId).Some? {
        var j :| 0 <= j < |last.models| && last.models[j].id == modelId && last.models[j].unsupported.Some?
                 && InList(last.models, modelId) == last.models[j].unsupported
                 && forall j' | 0 <= j' < j :: last.models[j'].id == modelId ==> last.models[j'].unsupported.None?;
        assert Declares(entries, modelId, |init|, j);
      }
    }
  }

  /** `r` is what the first row of the provider's own list under the id, or with it as an alias, declares. */
  ghost predicate OwnRestricts(own: Option<ParamEntry>, modelId: string, r: Option<seq<string>>) {
    if own.Some? && exists k | 0 <= k < |own.value.models| :: IsNamed(own.value.models[k], modelId) then
      exists k | 0 <= k < |own.value.models| ::
        && IsNamed(own.value.models[k], modelId) && r == own.value.models[k].unsupported
        && forall j | 0 <= j < k :: !IsNamed(own.value.models[j], modelId)
    else r.None?
  }

  predicate IsNamed(m: ParamModel, modelId: string) {
    m.id == modelId || modelId in m.aliases
  }

  lemma {:induction false} OwnModelIsFirst(models: seq<ParamModel>, modelId: string)
    ensures var row := OwnModel(models, modelId);
            if row.None? then forall k | 0 <= k < |models| :: !IsNamed(models[k], modelId)
            else exists k | 0 <= k < |models| ::
                   && models[k] == row.value && IsNamed(models[k], modelId)
                   && forall j | 0 <= j < k :: !IsNamed(models[j], modelId)
  {
    if models != [] && !IsNamed(models[0], modelId) {
      var tail := models[1..];
      OwnModelIsFirst(tail, modelId);
      assert forall k | 0 < k < |models| :: models[k] == tail[k - 1];
      var row := OwnModel(tail, modelId);
      if row.Some? {
        var k :| 0 <= k < |tail| && tail[k] == row.value && IsNamed(tail[k], modelId)
                 && forall j | 0 <= j < k :: !IsNamed(tail[j], modelId);
        assert models[k + 1] == row.value;
        assert forall j | 0 <= j < k + 1 :: !IsNamed(models[j], modelId);
      }
    }
  }

  lemma RestrictsOnce(entries: seq<ParamEntry>, modelId: string, r: Option<seq<string>>)
    requires Restricts(entries, modelId, r)
    ensures r == FirstRestriction(entries, modelId)
  {
    FirstRestrictionRestricts(entries, modelId);
  }

  lemma OwnRestrictsOnce(own: ParamEntry, modelId: string, r: Option<seq<string>>)
    requires OwnRestricts(Some(own), modelId, r)
    ensures var row := OwnModel(own.models, modelId); r == if row.Some? then row.value.unsupported else None
  {
    OwnModelIsFirst(own.models, modelId);
  }

  /** `r` is the shared restriction under what follows the last slash of the id; nothing without a slash. */
  ghost predicate BareRestricts(entries: seq<ParamEntry>, modelId: string, r: Option<seq<string>>) {
    if '/' in modelId then
      exists front, name | '/' !in name && modelId == front + "/" + name :: Restricts(entries, name, r)
    else r.None?
  }

  lemma BareRestrictsOnce(entries: seq<ParamEntry>, modelId: string, r: Option<seq<string>>)
    requires BareRestricts(entries, modelId, r) && '/' in modelId
    ensures r == FirstRestriction(entries, AfterLastSlash(modelId))
  {
    var front, name :| '/' !in name && modelId == front + "/" + name && Restricts(entries, name, r);
    AfterSlash(front, name);
    RestrictsOnce(entries, name, r);
  }

  /**
   The four stages, by the rows that declare them: the provider's own row, the first row of any provider
   under the id, the first under what follows its last slash, and the provider-wide list.
   */
  lemma UnsupportedIs(
    entries: seq<ParamEntry>, own: Option<ParamEntry>, modelId: string, mine: Option<seq<string>>,
    shared: Option<seq<string>>, bare: Option<seq<string>>)
    requires OwnRestricts(own, modelId, mine) && Restricts(entries, modelId, shared)
    requires BareRestricts(entries, modelId, bare)
    ensures Unsupported(entries, own, modelId) == FirstDeclared(mine, shared, bare, own)
  {
    RestrictsOnce(entries, modelId, shared);
    if own.Some? {
      OwnRestrictsOnce(own.value, modelId, mine);
    }
    if '/' in modelId {
      BareRestrictsOnce(entries, modelId, bare);
    }
  }

  function FirstDeclared(
    mine: Option<seq<string>>, shared: Option<seq<string>>, bare: Option<seq<string>>, own: Option<ParamEntry>)
    : seq<string>
  {
    if mine.Some? then mine.value
    else if shared.Some? then shared.value
    else if bare.Some? then bare.value
    else if own.Some? && own.value.unsupported.Some? then own.value.unsupported.value
    else []
  }

  function Restriction(table: map<string, seq<string>>, modelId: string): Option<seq<string>> {
    if modelId in table then Some(table[modelId]) else None
  }

  /** The map and its flag, filled on first use. */
  class UnsupportedParams {
    const entries: seq<ParamEntry>
    var table: map<string, seq<string>>
    var populated: bool

    ghost predicate Valid()
      reads this
    {
      && (!populated ==> table == map[])
      && (populated ==> forall id :: Restriction(table, id) == FirstRestriction(entries, id))
    }

    constructor (entries: seq<ParamEntry>)
      ensures Valid() && !populated && this.entries == entries
    {
      this.entries := entries;
      table, populated := map[], false;
    }

    method EnsurePopulated()
      requires Valid()
      modifies this
      ensures Valid() && populated && (old(populated) ==> table == old(table))
    {
      if populated {
        return;
      }
      populated := true;
      for i := 0 to |entries|
        invariant populated
        invariant forall id :: Restriction(table, id) == FirstRestriction(entries[..i], id)
      {
        var models := entries[i].models;
        ghost var before := table;
        assert entries[..i + 1][..i] == entries[..i];
        for j := 0 to |models|
          invariant populated
          invariant forall id :: Restriction(table, id) ==
                      if id in before then Some(before[id]) else InList(models[..j], id)
        {
          assert models[..j + 1][..j] == models[..j];
          if models[j].unsupported.Some? && models[j].id !in table {
            table := table[models[j].id := models[j].unsupported.value];
          }
        }
        assert models[..|models|] == models;
        assert forall id :: Restriction(before, id) == FirstRestriction(entries[..i], id);
      }
      assert entries[..|entries|] == entries;
    }

    /** The lookup through the map answers like the scan. */
    method GetUnsupported(own: Option<ParamEntry>, modelId: string) returns (r: seq<string>)
      requires Valid()
      modifies this
      ensures Valid() && populated && r == Unsupported(entries, own, modelId)
    {
      EnsurePopulated();
      assert Restriction(table, modelId) == FirstRestriction(entries, modelId);
      var row := if own.Some? then OwnModel(own.value.models, modelId) else None;
      if row.Some? && row.value.unsupported.Some? {
        return row.value.unsupported.value;
      }
      if modelId in table {
        return table[modelId];
      }
      if '/' in modelId {
        var bare := AfterLastSlash(modelId);
        assert Restriction(table, bare) == FirstRestriction(entries, bare);
        if bare in table {
          return table[bare];
        }
      }
      return if own.Some? && own.value.unsupported.Some? then own.value.unsupported.value else [];
    }
  }
}
