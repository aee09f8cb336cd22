/**
 Provider error rules and the restatement of misstated upstream statuses. Operator rules are
 consulted before the built-in catalog; a restated status must not change the catalog's verdict.
 The functions `lower` and `encode` stand for lower-casing and JSON text.
 */
module ErrorRules {
  import opened Options
  import opened Text
  import opened Records
  import opened Json

  datatype Scope = ModelScope | ProviderScope | ConnectionScope

  datatype RuleMatch = RuleMatch(reason: string, scope: Scope, cooldownMs: Option<int>)

  datatype OperatorRule = OperatorRule(
    status: int, pattern: string, scope: Scope, reason: Option<string>, cooldownMs: Option<int>)

  /** What a catalog rule looks at; header names are folded. */
  datatype Context = Context(status: int, headers: map<string, string>, body: Option<Json>)

  type Rule = Context -> Option<RuleMatch>

  /** Case folding and JSON text. */
  datatype Codec = Codec(lower: string -> string, encode: Json -> string)

  /** `JSON.stringify(body ?? "")`. */
  function BodyJson(codec: Codec, body: Option<Json>): string {
    codec.encode(if body.None? || body.value.Null? then Str("") else body.value)
  }

  // ----- The operator table -----

  type Table = map<string, seq<OperatorRule>>

  /** The settings as given: a record of lists. */
  type Settings = Record<seq<OperatorRule>>

  /** The table made of the settings: later entries of one folded name win, empty lists are skipped. */
  function TableOf(lower: string -> string, rules: Settings): Table {
    if rules == [] then map[]
    else
      var earlier, last := TableOf(lower, rules[..|rules| - 1]), rules[|rules| - 1];
      if last.1 == [] then earlier else earlier[lower(last.0) := last.1]
  }

  predicate Hits(lower: string -> string, r: OperatorRule, status: int, text: string) {
    r.status == status && Contains(lower(text), lower(r.pattern))
  }

  function MatchOf(r: OperatorRule): RuleMatch {
    RuleMatch(if r.reason.Some? then r.reason.value else "quota_exhausted", r.scope, r.cooldownMs)
  }

  function FirstHit(lower: string -> string, rules: seq<OperatorRule>, status: int, text: string): Option<RuleMatch> {
    if rules == [] then None
    else if Hits(lower, rules[0], status, text) then Some(MatchOf(rules[0]))
    else FirstHit(lower, rules[1..], status, text)
  }

  /** The first operator rule for the provider with this status and a substring of the body. */
  function OperatorMatch(codec: Codec, table: Table, key: string, status: int, body: Option<Json>): Option<RuleMatch> {
    if key !in table then None
    else
      FirstHit(codec.lower, table[key], status, BodyText(codec, body))
  }

  /** The text operator patterns are looked for in: a string as it is, anything else as JSON. */
  function BodyText(codec: Codec, body: Option<Json>): string {
    if body.Some? && body.value.Str? then body.value.s else BodyJson(codec, body)
  }

  function FirstMatch(rules: seq<Rule>, ctx: Context): Option<RuleMatch> {
    if rules == [] then None
    else
      var m := rules[0](ctx);
      if m.Some? then m else FirstMatch(rules[1..], ctx)
  }

  function CatalogMatch(catalog: map<string, seq<Rule>>, key: string, ctx: Context): Option<RuleMatch> {
    if key in catalog then FirstMatch(catalog[key], ctx) else None
  }

  /** Operator rules first, then the catalog; nothing without a provider. */
  function RuleMatchFor(
    codec: Codec, table: Table, catalog: map<string, seq<Rule>>, provider: Option<string>, ctx: Context)
    : Option<RuleMatch>
  {
    if provider.None? || provider.value == "" then None
    else
      var key := codec.lower(provider.value);
      var op := OperatorMatch(codec, table, key, ctx.status, ctx.body);
      if op.Some? then op else CatalogMatch(catalog, key, ctx)
  }

  predicate HasOperatorRule(lower: string -> string, table: Table, provider: Option<string>) {
    provider.Some? && provider.value != "" && lower(provider.value) in table && table[lower(provider.value)] != []
  }

  /** The providers whose built-in lock scope is honoured, and those with a rule of the operator's own. */
  predicate HonorsLockScope(lower: string -> string, table: Table, honoured: set<string>, provider: Option<string>) {
    && provider.Some? && provider.value != ""
    && (lower(provider.value) in honoured || HasOperatorRule(lower, table, Some(lower(provider.value))))
  }

  /** The full error text for full-text providers and operator rules; the structured error otherwise. */
  function MatchBody(
    lower: string -> string, table: Table, fullText: set<string>, provider: Option<string>, structured: Option<Json>,
    text: Option<string>): Option<Json>
  {
    if provider.Some? && provider.value != ""
       && (lower(provider.value) in fullText || HasOperatorRule(lower, table, provider))
       && text.Some? && text.value != ""
    then Some(Str(text.value))
    else structured
  }

  // ----- What the table holds -----

  predicate Entry(lower: string -> string, e: (string, seq<OperatorRule>), key: string) {
    e.1 != [] && lower(e.0) == key
  }

  /** The last non-empty entry of the settings whose folded name is `key`, or `-1`. */
  function LastEntry(lower: string -> string, rules: Settings, key: string): (i: int)
    ensures -1 <= i < |rules|
    ensures i >= 0 ==> Entry(lower, rules[i], key)
    ensures forall k | i < k < |rules| :: !Entry(lower, rules[k], key)
  {
    if rules == [] then -1
    else if Entry(lower, rules[|rules| - 1], key) then |rules| - 1
    else LastEntry(lower, rules[..|rules| - 1], key)
  }

  /** The table has exactly the last non-empty entry of every folded name. */
  lemma {:induction false} TableHoldsLastEntries(lower: string -> string, rules: Settings, key: string)
    ensures var i := LastEntry(lower, rules, key);
            if i >= 0 then key in TableOf(lower, rules) && TableOf(lower, rules)[key] == rules[i].1
            else key !in TableOf(lower, rules)
  {
    if rules != [] {
      TableHoldsLastEntries(lower, rules[..|rules| - 1], key);
    }
  }

  /** The table after a run of updates; no settings clear it. */
  function TableAfter(lower: string -> string, updates: seq<Option<Settings>>): Table {
    if updates == [] || updates[|updates| - 1].None? then map[]
    else TableOf(lower, updates[|updates| - 1].value)
  }

  /** The operator's rules for a folded provider name, read off the last update. */
  function OwnRules(lower: string -> string, updates: seq<Option<Settings>>, key: string): seq<OperatorRule> {
    if updates == [] || updates[|updates| - 1].None? then []
    else
      var rules := updates[|updates| - 1].value;
      var i := LastEntry(lower, rules, key);
      if i >= 0 then rules[i].1 else []
  }

  lemma TableHoldsOwnRules(lower: string -> string, updates: seq<Option<Settings>>, key: string)
    ensures var table, own := TableAfter(lower, updates), OwnRules(lower, updates, key);
            if own == [] then key !in table else key in table && table[key] == own
  {
    if updates != [] && updates[|updates| - 1].Some? {
      TableHoldsLastEntries(lower, updates[|updates| - 1].value, key);
    }
  }

  // ----- The lookup after a run of updates -----

  /** The rule has the status, and its pattern is somewhere in the text, case aside. */
  predicate Matches(lower: string -> string, r: OperatorRule, status: int, text: string) {
    && r.status == status
    && var pattern, whole := lower(r.pattern), lower(text);
       exists i | 0 <= i <= |whole| - |pattern| :: OccursAt(whole, pattern, i)
  }

  /** Rule `k` is the first, in order, that matches. */
  predicate IsFirstMatch(lower: string -> string, rules: seq<OperatorRule>, status: int, text: string, k: int) {
    && 0 <= k < |rules| && Matches(lower, rules[k], status, text)
    && forall j | 0 <= j < k :: !Matches(lower, rules[j], status, text)
  }

  /** The rule's own reason, or quota exhaustion when it gives none, with its scope and cooldown. */
  predicate IsMatchOf(r: OperatorRule, m: RuleMatch) {
    m.reason == (if r.reason == None then "quota_exhausted" else r.reason.value)
    && m.scope == r.scope && m.cooldownMs == r.cooldownMs
  }

  /** `hit` is that of the first rule that matches; nothing when none does. */
  ghost predicate IsFirstAnswer(
    lower: string -> string, rules: seq<OperatorRule>, status: int, text: string, hit: Option<RuleMatch>)
  {
    if hit.None? then forall k | 0 <= k < |rules| :: !Matches(lower, rules[k], status, text)
    else exists k | 0 <= k < |rules| ::
           IsFirstMatch(lower, rules, status, text, k) && IsMatchOf(rules[k], hit.value)
  }

  /** `r` is the match of the first own rule that hits the body, and the catalog's answer when none does. */
  ghost predicate IsAnswer(
    codec: Codec, own: seq<OperatorRule>, catalog: map<string, seq<Rule>>, key: string, ctx: Context,
    r: Option<RuleMatch>)
  {
    var text := BodyText(codec, ctx.body);
    || (exists k | 0 <= k < |own| ::
          IsFirstMatch(codec.lower, own, ctx.status, text, k) && r.Some? && IsMatchOf(own[k], r.value))
    || ((forall k | 0 <= k < |own| :: !Matches(codec.lower, own[k], ctx.status, text))
        && r == CatalogMatch(catalog, key, ctx))
  }

  lemma {:induction false} FirstHitIsFirst(lower: string -> string, rules: seq<OperatorRule>, status: int, text: string)
    ensures IsFirstAnswer(lower, rules, status, text, FirstHit(lower, rules, status, text))
  {
    assert rules != [] ==> (Hits(lower, rules[0], status, text) <==> Matches(lower, rules[0], status, text));
    if rules != [] && !Hits(lower, rules[0], status, text) {
      FirstHitIsFirst(lower, rules[1..], status, text);
      var hit := FirstHit(lower, rules, status, text);
      if hit.Some? {
        var k :| 0 <= k < |rules[1..]|
                 && IsFirstMatch(lower, rules[1..], status, text, k) && IsMatchOf(rules[1..][k], hit.value);
        assert rules[k + 1] == rules[1..][k];
        forall j | 0 <= j < k + 1 ensures !Matches(lower, rules[j], status, text) {
          assert j > 0 ==> rules[j] == rules[1..][j - 1];
        }
        assert IsFirstMatch(lower, rules, status, text, k + 1);
      } else {
        forall k | 0 <= k < |rules| ensures !Matches(lower, rules[k], status, text) {
          assert k > 0 ==> rules[k] == rules[1..][k - 1];
        }
      }
    } else if rules != [] {
      assert IsFirstMatch(lower, rules, status, text, 0);
    }
  }

  /** The catalog's answer is that of the first rule that gives one. */
  lemma {:induction false} FirstMatchIsFirst(rules: seq<Rule>, ctx: Context)
    ensures var m := FirstMatch(rules, ctx);
            if m.None? then forall k | 0 <= k < |rules| :: rules[k](ctx) == None
            else exists k | 0 <= k < |rules| ::
                   rules[k](ctx) == m && forall j | 0 <= j < k :: rules[j](ctx) == None
  {
    if rules != [] && rules[0](ctx).None? {
      var tail := rules[1..];
      FirstMatchIsFirst(tail, ctx);
      assert forall k | 0 < k < |rules| :: rules[k] == tail[k - 1];
      if FirstMatch(tail, ctx).Some? {
        var k :| 0 <= k < |tail| && tail[k](ctx) == FirstMatch(tail, ctx)
                 && forall j | 0 <= j < k :: tail[j](ctx) == None;
        assert rules[k + 1](ctx) == FirstMatch(rules, ctx);
        assert forall j | 0 <= j < k + 1 :: rules[j](ctx) == None;
      }
    }
  }

  lemma TableAnswers(
    codec: Codec, table: Table, own: seq<OperatorRule>, catalog: map<string, seq<Rule>>, provider: string, ctx: Context)
    requires provider != ""
    requires var key := codec.lower(provider); if key in table then table[key] == own else own == []
    ensures IsAnswer(
      codec, own, catalog, codec.lower(provider), ctx, RuleMatchFor(codec, table, catalog, Some(provider), ctx))
  {
    FirstHitIsFirst(codec.lower, own, ctx.status, BodyText(codec, ctx.body));
  }

  /** Folding twice is folding once, and makes no name empty. */
  ghost predicate FoldsCase(lower: string -> string) {
    forall s :: lower(lower(s)) == lower(s) && (lower(s) == "" ==> s == "")
  }

  /**
   After any run of updates, for every error: the rules of the last update decide, the first that hits
   before the catalog, on the full error text when there is one, and their lock scope is honoured.
   Without such rules the catalog answers, on the body it would have been given anyway.
   */
  lemma LookupAfterUpdates(
    codec: Codec, updates: seq<Option<Settings>>, catalog: map<string, seq<Rule>>, honoured: set<string>,
    fullText: set<string>, provider: string, status: int, headers: map<string, string>, structured: Option<Json>,
    text: Option<string>)
    requires FoldsCase(codec.lower) && provider != ""
    ensures var key, table := codec.lower(provider), TableAfter(codec.lower, updates);
            var own := OwnRules(codec.lower, updates, key);
            var body := MatchBody(codec.lower, table, fullText, Some(provider), structured, text);
            var ctx := Context(status, headers, body);
            && IsAnswer(codec, own, catalog, key, ctx, RuleMatchFor(codec, table, catalog, Some(provider), ctx))
            && (HonorsLockScope(codec.lower, table, honoured, Some(provider)) <==> key in honoured || own != [])
            && body == if (key in fullText || own != []) && text.Some? && text.value != "" then Some(Str(text.value))
                       else structured
  {
    var key, table := codec.lower(provider), TableAfter(codec.lower, updates);
    TableHoldsOwnRules(codec.lower, updates, key);
    var body := MatchBody(codec.lower, table, fullText, Some(provider), structured, text);
    TableAnswers(codec, table, OwnRules(codec.lower, updates, key), catalog, provider, Context(status, headers, body));
  }

  /** Without a provider there is no match, no lock scope and no full text. */
  lemma NoProviderNoRules(
    codec: Codec, table: Table, catalog: map<string, seq<Rule>>, honoured: set<string>, fullText: set<string>,
    provider: Option<string>, ctx: Context, structured: Option<Json>, text: Option<string>)
    requires provider == None || provider == Some("")
    ensures RuleMatchFor(codec, table, catalog, provider, ctx) == None
    ensures !HasOperatorRule(codec.lower, table, provider)
    ensures !HonorsLockScope(codec.lower, table, honoured, provider)
    ensures MatchBody(codec.lower, table, fullText, provider, structured, text) == structured
  {
  }

  /** Patterns are looked for in a string as it is, and in the JSON text of anything else. */
  lemma BodyTextIs(codec: Codec, s: string, j: Json)
    ensures BodyText(codec, Some(Str(s))) == s
    ensures BodyText(codec, None) == BodyText(codec, Some(Null)) == codec.encode(Str(""))
    ensures !j.Str? && !j.Null? ==> BodyText(codec, Some(j)) == codec.encode(j)
  {
  }

  /** Header names folded, later values of one folded name winning. */
  function FoldHeaders(lower: string -> string, headers: Record<string>): map<string, string> {
    if headers == [] then map[]
    else FoldHeaders(lower, headers[..|headers| - 1])[lower(headers[|headers| - 1].0) := headers[|headers| - 1].1]
  }

  /** Under every folded name the value of the last header given under it, and no other name. */
  lemma {:induction false} FoldedHeadersKeepLast(lower: string -> string, headers: Record<string>, name: string)
    ensures name in FoldHeaders(lower, headers) <==> exists i | 0 <= i < |headers| :: lower(headers[i].0) == name
    ensures forall i | 0 <= i < |headers| && lower(headers[i].0) == name
                       && forall j | i < j < |headers| :: lower(headers[j].0) != name ::
              name in FoldHeaders(lower, headers) && FoldHeaders(lower, headers)[name] == headers[i].1
  {
    if headers != [] {
      var init := headers[..|headers| - 1];
      FoldedHeadersKeepLast(lower, init, name);
      assert forall i | 0 <= i < |init| :: init[i] == headers[i];
    }
  }

  /** The settings-backed rules, replaced as a whole by each update. */
  class OperatorRules {
    const codec: Codec
    var table: Table
    ghost var updates: seq<Option<Settings>>

    ghost predicate Valid()
      reads this
    {
      table == TableAfter(codec.lower, updates)
    }

    constructor (codec: Codec)
      ensures Valid() && updates == [] && this.codec == codec
    {
      this.codec, table, updates := codec, map[], [];
    }

    /** The new table is made from this update alone; nothing is left over from before. */
    method SetRules(rules: Option<Settings>)
      modifies this
      ensures Valid() && updates == old(updates) + [rules]
    {
      updates := updates + [rules];
      table := map[];
      if rules.None? {
        return;
      }
      for i := 0 to |rules.value|
        invariant table == TableOf(codec.lower, rules.value[..i])
        invariant updates == old(updates) + [rules]
      {
        assert rules.value[..i + 1][..i] == rules.value[..i];
        if rules.value[i].1 != [] {
          table := table[codec.lower(rules.value[i].0) := rules.value[i].1];
        }
      }
      assert rules.value[..|rules.value|] == rules.value;
    }

    /** The operator's rules, then the catalog's. A direct caller may give its own table. */
    method GetMatch(
      catalog: map<string, seq<Rule>>, provider: Option<string>, status: int, headers: Record<string>,
      body: Option<Json>, direct: Option<Table>)
      returns (r: Option<RuleMatch>)
      requires Valid()
      ensures provider.None? || provider.value == "" ==> r.None?
      ensures provider.Some? && provider.value != "" && direct.None? ==>
                var key := codec.lower(provider.value);
                IsAnswer(codec, OwnRules(codec.lower, updates, key), catalog, key,
                         Context(status, FoldHeaders(codec.lower, headers), body), r)
      ensures r == RuleMatchFor(codec, if direct.Some? then direct.value else table, catalog, provider,
                                Context(status, FoldHeaders(codec.lower, headers), body))
    {
      if provider.None? || provider.value == "" {
        return None;
      }
      var key := codec.lower(provider.value);
      ghost var ctx := Context(status, FoldHeaders(codec.lower, headers), body);
      TableHoldsOwnRules(codec.lower, updates, key);
      TableAnswers(codec, table, OwnRules(codec.lower, updates, key), catalog, provider.value, ctx);
      var own := if direct.Some? then direct.value else table;
      if key in own && own[key] != [] {
        var hit := FirstOwnHit(own[key], status, BodyText(codec, body));
        if hit.Some? {
          return hit;
        }
      }
      if key !in catalog {
        return None;
      }
      r := FirstCatalogMatch(catalog[key], Context(status, FoldHeaders(codec.lower, headers), body));
    }

    method FirstOwnHit(rules: seq<OperatorRule>, status: int, text: string) returns (r: Option<RuleMatch>)
      ensures r == FirstHit(codec.lower, rules, status, text)
    {
      for i := 0 to |rules|
        invariant FirstHit(codec.lower, rules, status, text) == FirstHit(codec.lower, rules[i..], status, text)
      {
        if Hits(codec.lower, rules[i], status, text) {
          return Some(MatchOf(rules[i]));
        }
      }
      return None;
    }
  }

  method FirstCatalogMatch(rules: seq<Rule>, ctx: Context) returns (r: Option<RuleMatch>)
    ensures r == FirstMatch(rules, ctx)
  {
    for i := 0 to |rules|
      invariant FirstMatch(rules, ctx) == FirstMatch(rules[i..], ctx)
    {
      var m := rules[i](ctx);
      if m.Some? {
        return m;
      }
    }
    return None;
  }

  // ----- AgentRouter -----

  const QUOTA := "额度不足"
  const DENIED := "无权访问模型"
  const VETO := "无权访问"

  /** Account-wide quota text under any of three statuses; a denied model under 403 only. */
  function AgentrouterRules(codec: Codec): seq<Rule> {
    [ctx => QuotaRule(codec, ctx), ctx => DeniedRule(codec, ctx)]
  }

  function QuotaRule(codec: Codec, ctx: Context): Option<RuleMatch> {
    if ctx.status in {400, 403, 429} && Contains(codec.lower(BodyJson(codec, ctx.body)), QUOTA)
    then Some(RuleMatch("quota_exhausted", ConnectionScope, None))
    else None
  }

  function DeniedRule(codec: Codec, ctx: Context): Option<RuleMatch> {
    if ctx.status == 403 && Contains(codec.lower(BodyJson(codec, ctx.body)), DENIED)
    then Some(RuleMatch("auth_error", ModelScope, Some(6 * 60 * 60 * 1000)))
    else None
  }

  // ----- Status restatement -----

  datatype Restatement = Restatement(
    id: string, fromStatuses: set<int>, toStatus: int, markers: seq<string>, vetoes: seq<string>,
    defaultRetryMs: Option<int>)

  datatype Upstream = Upstream(
    provider: Option<string>, status: int, message: Option<string>, body: Option<Json>, retryAfterMs: Option<int>)

  datatype Restated = Restated(status: int, retryAfterMs: Option<int>, ruleId: Option<string>, fromStatus: int)

  const AGENTROUTER_RESTATEMENTS := [
    Restatement("agentrouter-quota-misstatus", {403, 400}, 429, [QUOTA], [VETO], Some(60000))
  ]

  function StringifyBody(codec: Codec, body: Option<Json>): string {
    if body.None? || body.value.Null? then ""
    else if body.value.Str? then body.value.s
    else codec.encode(body.value)
  }

  /** The lower-cased message and body the markers are looked for in. */
  function Haystack(codec: Codec, u: Upstream): string {
    codec.lower(ErrorText(codec, u))
  }

  function ErrorText(codec: Codec, u: Upstream): string {
    (if u.message.Some? then u.message.value else "") + " " + StringifyBody(codec, u.body)
  }

  predicate Applies(rule: Restatement, status: int, haystack: string) {
    && status in rule.fromStatuses
    && (exists m | m in rule.markers :: Contains(haystack, m))
    && !(exists m | m in rule.vetoes :: Contains(haystack, m))
  }

  function FirstApplying(rules: seq<Restatement>, status: int, haystack: string): Option<Restatement> {
    if rules == [] then None
    else if Applies(rules[0], status, haystack) then Some(rules[0])
    else FirstApplying(rules[1..], status, haystack)
  }

  function Passthrough(u: Upstream): Restated {
    Restated(u.status, u.retryAfterMs, None, u.status)
  }

  /** The first rule that applies restates the status; a positive upstream retry wins over its default. */
  function Restate(codec: Codec, registry: map<string, seq<Restatement>>, u: Upstream): Restated {
    if u.provider.None? || u.provider.value == "" || codec.lower(u.provider.value) !in registry then Passthrough(u)
    else
      var haystack := Haystack(codec, u);
      var rule := FirstApplying(registry[codec.lower(u.provider.value)], u.status, haystack);
      if Trim(haystack) == "" || rule.None? then Passthrough(u)
      else
        Restated(rule.value.toStatus,
                 if u.retryAfterMs.Some? && u.retryAfterMs.value > 0 then u.retryAfterMs else rule.value.defaultRetryMs,
                 Some(rule.value.id), u.status)
  }

  const RESTATEMENTS: map<string, seq<Restatement>> := map["agentrouter" := AGENTROUTER_RESTATEMENTS]

  /** No rule of a provider restates to a status that one of its rules restates from. */
  predicate Settled(rules: seq<Restatement>) {
    forall r, s | r in rules && s in rules :: r.toStatus !in s.fromStatuses
  }

  lemma RestatementsAreSettled()
    ensures forall key | key in RESTATEMENTS :: Settled(RESTATEMENTS[key])
  {
    assert forall r | r in AGENTROUTER_RESTATEMENTS :: r == AGENTROUTER_RESTATEMENTS[0];
  }

  lemma {:induction false} FirstApplyingIsListed(rules: seq<Restatement>, status: int, haystack: string)
    ensures FirstApplying(rules, status, haystack).Some? ==>
              FirstApplying(rules, status, haystack).value in rules
              && Applies(FirstApplying(rules, status, haystack).value, status, haystack)
  {
    if rules != [] {
      FirstApplyingIsListed(rules[1..], status, haystack);
    }
  }

  /** Restating the restated status changes nothing more, and a positive retry is never lost. */
  lemma RestateSettles(codec: Codec, registry: map<string, seq<Restatement>>, u: Upstream)
    requires forall key | key in registry :: Settled(registry[key])
    ensures var once := Restate(codec, registry, u);
            && Restate(codec, registry, u.(status := once.status, retryAfterMs := once.retryAfterMs)).status
               == once.status
            && (u.retryAfterMs.Some? && u.retryAfterMs.value > 0 ==> once.retryAfterMs == u.retryAfterMs)
            && (once.ruleId.None? ==> once.retryAfterMs == u.retryAfterMs)
            && once.fromStatus == u.status
  {
    var once := Restate(codec, registry, u);
    var again := u.(status := once.status, retryAfterMs := once.retryAfterMs);
    assert Haystack(codec, again) == Haystack(codec, u);
    if once.ruleId.Some? {
      var rules := registry[codec.lower(u.provider.value)];
      FirstApplyingIsListed(rules, u.status, Haystack(codec, u));
      FirstApplyingIsListed(rules, once.status, Haystack(codec, u));
    }
  }

  // ----- JSON text of a string -----

  function HexDigit(n: nat): char
    requires n < 16
  {
    "0123456789abcdef"[n]
  }

  /** The escapes of section 7 of RFC 8259 that an encoder has to make. */
  function EscapeChar(c: char): string {
    if c == '\"' then "\\\""
    else if c == '\\' then "\\\\"
    else if c == '\n' then "\\n"
    else if c == '\r' then "\\r"
    else if c == '\t' then "\\t"
    else if c as int == 8 then "\\b"
    else if c as int == 12 then "\\f"
    else if (c as int) < 32 then "\\u00" + [HexDigit(c as int / 16), HexDigit(c as int % 16)]
    else [c]
  }

  function Escape(s: string): string {
    if s == [] then [] else EscapeChar(s[0]) + Escape(s[1..])
  }

  function Quote(s: string): string {
    ['\"'] + Escape(s) + ['\"']
  }

  predicate NonAscii(s: string) {
    forall i | 0 <= i < |s| :: s[i] as int > 127
  }

  lemma EscapeCharCases(c: char)
    ensures |EscapeChar(c)| > 0
    ensures EscapeChar(c) == [c] || EscapeChar(c)[0] == '\\'
    ensures EscapeChar(c) == [c] || forall i | 0 <= i < |EscapeChar(c)| :: EscapeChar(c)[i] as int <= 127
  {
    assert forall n: nat | n < 16 :: HexDigit(n) as int <= 127;
  }

  /** Containment by walking the text. */
  predicate Within(s: string, part: string) {
    part <= s || (s != [] && Within(s[1..], part))
  }

  lemma WindowShift(s: string, lo: nat, hi: nat)
    requires 0 < lo <= hi <= |s|
    ensures s[lo..hi] == s[1..][lo - 1..hi - 1]
  {
    var tail, window := s[1..], s[lo..hi];
    forall k | 0 <= k < hi - lo ensures window[k] == tail[lo - 1..hi - 1][k] {
      assert window[k] == s[lo + k] == tail[lo - 1 + k];
    }
  }

  lemma PrefixOccurs(s: string, part: string)
    ensures part <= s <==> OccursAt(s, part, 0)
  {
    assert |part| <= |s| ==> s[0..|part|] == s[..|part|];
  }

  lemma {:induction false} WithinIsContains(s: string, part: string)
    ensures Within(s, part) <==> Contains(s, part)
  {
    PrefixOccurs(s, part);
    if part <= s {
      assert Contains(s, part);
    } else if s != [] {
      WithinIsContains(s[1..], part);
      if Contains(s[1..], part) {
        ContainsConcat([s[0]], s[1..], part);
        assert s == [s[0]] + s[1..];
      }
      if Contains(s, part) {
        var i :| 0 <= i <= |s| - |part| && OccursAt(s, part, i);
        assert i > 0;
        WindowShift(s, i, i + |part|);
        assert OccursAt(s[1..], part, i - 1);
      }
    }
  }

  lemma {:induction false} SkipAscii(front: string, s: string, marker: string)
    requires NonAscii(marker) && marker != [] && (forall i | 0 <= i < |front| :: front[i] as int <= 127)
    requires Within(front + s, marker)
    ensures Within(s, marker)
  {
    if front == [] {
      assert front + s == s;
    } else {
      assert (front + s)[0] == front[0] && (front + s)[1..] == front[1..] + s;
      SkipAscii(front[1..], s, marker);
    }
  }

  lemma {:induction false} DropAsciiEnd(s: string, c: char, marker: string)
    requires NonAscii(marker) && marker != [] && c as int <= 127 && Within(s + [c], marker)
    ensures Within(s, marker)
  {
    if marker <= s + [c] {
      assert marker[|marker| - 1] == (s + [c])[|marker| - 1];
    } else if s != [] {
      assert (s + [c])[1..] == s[1..] + [c];
      DropAsciiEnd(s[1..], c, marker);
    }
  }

  lemma {:induction false} EscapedPrefix(s: string, marker: string)
    requires NonAscii(marker) && marker <= Escape(s)
    ensures marker <= s
  {
    if marker != [] {
      EscapeCharCases(s[0]);
      var first := EscapeChar(s[0]);
      assert Escape(s) == first + Escape(s[1..]);
      assert marker[0] == Escape(s)[0] == first[0];
      assert first == [s[0]];
      assert Escape(s)[1..] == Escape(s[1..]);
      EscapedPrefix(s[1..], marker[1..]);
    }
  }

  lemma {:induction false} EscapeAddsNoMarker(s: string, marker: string)
    requires NonAscii(marker) && marker != [] && Within(Escape(s), marker)
    ensures Within(s, marker)
  {
    if marker <= Escape(s) {
      EscapedPrefix(s, marker);
    } else {
      EscapeCharCases(s[0]);
      var first := EscapeChar(s[0]);
      assert Escape(s) == first + Escape(s[1..]);
      if first == [s[0]] {
        assert Escape(s)[1..] == Escape(s[1..]);
      } else {
        SkipAscii(first, Escape(s[1..]), marker);
      }
      EscapeAddsNoMarker(s[1..], marker);
    }
  }

  /** Quoting brings no marker of non-ASCII characters into a text. */
  lemma QuoteAddsNoMarker(s: string, marker: string)
    requires NonAscii(marker) && marker != [] && Contains(Quote(s), marker)
    ensures Contains(s, marker)
  {
    WithinIsContains(Quote(s), marker);
    assert Quote(s) == ['\"'] + (Escape(s) + ['\"']);
    SkipAscii(['\"'], Escape(s) + ['\"'], marker);
    DropAsciiEnd(Escape(s), '\"', marker);
    EscapeAddsNoMarker(s, marker);
    WithinIsContains(s, marker);
  }

  // ----- Restatement and classification agree -----

  /** The markers have no case: folding neither makes nor breaks an occurrence. */
  ghost predicate MarkersAreCaseless(lower: string -> string) {
    forall s ::
      && (Contains(lower(s), VETO) <==> Contains(s, VETO))
      && (Contains(lower(s), DENIED) <==> Contains(s, DENIED))
  }

  function Verdict(codec: Codec, status: int, headers: map<string, string>, body: Option<Json>): Option<RuleMatch> {
    FirstMatch(AgentrouterRules(codec), Context(status, headers, body))
  }

  /** Once the operator's rules are cleared, the lookup for AgentRouter is the verdict. */
  lemma ClearedLookupIsVerdict(
    codec: Codec, updates: seq<Option<Settings>>, catalog: map<string, seq<Rule>>, provider: string, status: int,
    headers: map<string, string>, body: Option<Json>)
    requires provider != "" && codec.lower(provider) == "agentrouter"
    requires "agentrouter" in catalog && catalog["agentrouter"] == AgentrouterRules(codec)
    requires OwnRules(codec.lower, updates, "agentrouter") == []
    ensures var table := TableAfter(codec.lower, updates);
            RuleMatchFor(codec, table, catalog, Some(provider), Context(status, headers, body))
            == Verdict(codec, status, headers, body)
  {
    TableHoldsOwnRules(codec.lower, updates, "agentrouter");
  }

  /** The verdict in full: the quota text under three statuses, else a denied model under 403 for six hours. */
  lemma VerdictIs(codec: Codec, status: int, headers: map<string, string>, body: Option<Json>)
    ensures var text := codec.lower(BodyJson(codec, body));
            Verdict(codec, status, headers, body) ==
            if (status == 400 || status == 403 || status == 429) && Contains(text, "\U{989D}\U{5EA6}\U{4E0D}\U{8DB3}")
            then Some(RuleMatch("quota_exhausted", ConnectionScope, None))
            else if status == 403 && Contains(text, "\U{65E0}\U{6743}\U{8BBF}\U{95EE}\U{6A21}\U{578B}")
            then Some(RuleMatch("auth_error", ModelScope, Some(21600000)))
            else None
  {
    VerdictCases(codec, status, headers, body);
  }

  lemma VerdictCases(codec: Codec, status: int, headers: map<string, string>, body: Option<Json>)
    ensures var ctx := Context(status, headers, body);
            Verdict(codec, status, headers, body) ==
            if QuotaRule(codec, ctx).Some? then QuotaRule(codec, ctx) else DeniedRule(codec, ctx)
  {
    var ctx, rules := Context(status, headers, body), AgentrouterRules(codec);
    var tail := rules[1..];
    assert rules[0](ctx) == QuotaRule(codec, ctx) && tail[0](ctx) == DeniedRule(codec, ctx);
    assert FirstMatch(tail[1..], ctx) == None;
    assert FirstMatch(tail, ctx) == DeniedRule(codec, ctx);
    assert FirstMatch(rules, ctx) == if rules[0](ctx).Some? then rules[0](ctx) else FirstMatch(tail, ctx);
  }

  /** The status an AgentRouter error is classified under. */
  function ClassifiedStatus(codec: Codec, u: Upstream): int {
    Restate(codec, RESTATEMENTS, u).status
  }

  /** The text names the quota and carries no veto. */
  predicate NamesQuotaOnly(codec: Codec, u: Upstream) {
    Contains(Haystack(codec, u), QUOTA) && !Contains(Haystack(codec, u), VETO)
  }

  lemma AgentrouterRestates(codec: Codec, u: Upstream)
    requires u.provider.Some? && u.provider.value != "" && codec.lower(u.provider.value) == "agentrouter"
    ensures ClassifiedStatus(codec, u) == if u.status in {403, 400} && NamesQuotaOnly(codec, u) then 429 else u.status
  {
    var rules, haystack := AGENTROUTER_RESTATEMENTS, Haystack(codec, u);
    var rule := rules[0];
    assert rule.markers == [QUOTA] && rule.vetoes == [VETO];
    assert Applies(rule, u.status, haystack) <==> u.status in {403, 400} && NamesQuotaOnly(codec, u) by {
      assert rule.markers[0] == QUOTA && rule.vetoes[0] == VETO;
    }
    assert FirstApplying(rules[1..], u.status, haystack) == None;
    if Contains(haystack, QUOTA) {
      assert !IsSpace(QUOTA[0]);
      MarkedIsNotBlank(haystack, QUOTA);
    }
  }

  /**
   An AgentRouter error in full: 400 or 403 that names the quota without a denial becomes 429, to be
   retried after a minute unless the error says when.
   */
  lemma RestatedIs(codec: Codec, u: Upstream)
    requires u.provider.Some? && u.provider.value != "" && codec.lower(u.provider.value) == "agentrouter"
    ensures var text := codec.lower(ErrorText(codec, u));
            Restate(codec, RESTATEMENTS, u) ==
            if (u.status == 400 || u.status == 403)
               && Contains(text, "\U{989D}\U{5EA6}\U{4E0D}\U{8DB3}")
               && !Contains(text, "\U{65E0}\U{6743}\U{8BBF}\U{95EE}")
            then Restated(429, if u.retryAfterMs.Some? && u.retryAfterMs.value > 0 then u.retryAfterMs else Some(60000),
                          Some("agentrouter-quota-misstatus"), u.status)
            else Restated(u.status, u.retryAfterMs, None, u.status)
  {
    AgentrouterRestates(codec, u);
    FirstApplyingIsListed(AGENTROUTER_RESTATEMENTS, u.status, Haystack(codec, u));
  }

  /** No other provider's error is restated. */
  lemma OthersPassThrough(codec: Codec, u: Upstream)
    requires u.provider.None? || u.provider.value == "" || codec.lower(u.provider.value) != "agentrouter"
    ensures Restate(codec, RESTATEMENTS, u) == Restated(u.status, u.retryAfterMs, None, u.status)
  {
  }

  lemma FirstCharOccurs(s: string, marker: string)
    requires marker != ""
    ensures Contains(s, marker) ==> marker[0] in s
  {
    if Contains(s, marker) {
      var i :| 0 <= i <= |s| - |marker| && OccursAt(s, marker, i);
      assert s[i] == s[i..i + |marker|][0] == marker[0];
    }
  }

  lemma MarkedIsNotBlank(s: string, marker: string)
    requires marker != "" && !IsSpace(marker[0]) && Contains(s, marker)
    ensures Trim(s) != ""
  {
    FirstCharOccurs(s, marker);
    if Trim(s) == "" {
      BlankIsSpaces(s);
    }
  }

  /**
   For any body the rules are given, the verdict changes only in one family: a restated 403 whose
   text denies a model without naming the quota.
   */
  lemma VerdictChangesIff(codec: Codec, u: Upstream, headers: map<string, string>, body: Option<Json>)
    requires u.provider.Some? && u.provider.value != "" && codec.lower(u.provider.value) == "agentrouter"
    ensures var text := codec.lower(BodyJson(codec, body));
            Verdict(codec, ClassifiedStatus(codec, u), headers, body) != Verdict(codec, u.status, headers, body)
            <==> u.status == 403 && NamesQuotaOnly(codec, u) && Contains(text, DENIED) && !Contains(text, QUOTA)
  {
    AgentrouterRestates(codec, u);
    VerdictCases(codec, ClassifiedStatus(codec, u), headers, body);
    VerdictCases(codec, u.status, headers, body);
  }

  /** A text without escapes contains itself when quoted, and no marker that starts with another character. */
  lemma QuotedText(s: string, marker: string)
    requires NonAscii(s) && NonAscii(marker) && marker != "" && marker[0] !in s
    ensures Contains(Quote(s), s) && !Contains(Quote(s), marker)
  {
    PlainQuote(s);
    assert OccursAt(Quote(s), s, 1);
    FirstCharOccurs(s, marker);
    if Contains(Quote(s), marker) {
      QuoteAddsNoMarker(s, marker);
    }
  }

  lemma DenialText()
    ensures Contains(Quote(DENIED), DENIED) && !Contains(Quote(DENIED), QUOTA)
  {
    assert NonAscii(DENIED) && NonAscii(QUOTA) && QUOTA[0] !in DENIED;
    QuotedText(DENIED, QUOTA);
  }

  lemma QuotaText()
    ensures Contains(QUOTA + " ", QUOTA) && !Contains(QUOTA + " ", VETO)
  {
    assert OccursAt(QUOTA + " ", QUOTA, 0);
    FirstCharOccurs(QUOTA + " ", VETO);
  }

  /** An error that names the quota, classified on the text of another that denies a model: the verdict changes. */
  lemma ForeignBodyChangesVerdict(codec: Codec, u: Upstream, headers: map<string, string>)
    requires forall s :: codec.lower(s) == s && codec.encode(Str(s)) == Quote(s)
    requires u == Upstream(Some("agentrouter"), 403, Some(QUOTA), None, None)
    ensures Verdict(codec, ClassifiedStatus(codec, u), headers, Some(Str(DENIED))) !=
            Verdict(codec, u.status, headers, Some(Str(DENIED)))
  {
    QuotaMessage(codec, u);
    DenialText();
    VerdictChangesIff(codec, u, headers, Some(Str(DENIED)));
  }

  lemma QuotaMessage(codec: Codec, u: Upstream)
    requires (forall s :: codec.lower(s) == s) && u.message == Some(QUOTA) && u.body == None
    ensures NamesQuotaOnly(codec, u)
  {
    assert ErrorText(codec, u) == QUOTA + " " + "" == QUOTA + " ";
    QuotaText();
  }

  lemma {:induction false} PlainQuote(s: string)
    requires NonAscii(s)
    ensures Quote(s) == ['\"'] + s + ['\"']
  {
    PlainEscape(s);
  }

  lemma {:induction false} PlainEscape(s: string)
    requires NonAscii(s)
    ensures Escape(s) == s
  {
    if s != [] {
      assert s[0] as int > 127;
      PlainEscape(s[1..]);
    }
  }

  /** The rules are given the error's own body, or its message as the full error text. */
  predicate IsErrorBody(u: Upstream, body: Option<Json>) {
    body == u.body || (u.message.Some? && body == Some(Str(u.message.value)))
  }

  /** A marker in the JSON of the error's body or message is in the text the restatement looks at. */
  lemma DeniedIsInHaystack(codec: Codec, u: Upstream, body: Option<Json>)
    requires MarkersAreCaseless(codec.lower) && (forall s :: codec.encode(Str(s)) == Quote(s))
    requires IsErrorBody(u, body) && Contains(codec.lower(BodyJson(codec, body)), DENIED)
    ensures Contains(Haystack(codec, u), VETO)
  {
    assert NonAscii(DENIED) && DENIED != [];
    assert OccursAt(DENIED, VETO, 0);
    assert Contains(BodyJson(codec, body), DENIED);
    MarkerInErrorText(codec, u, body, DENIED, VETO);
  }

  lemma MarkerInErrorText(codec: Codec, u: Upstream, body: Option<Json>, marker: string, part: string)
    requires NonAscii(marker) && marker != [] && (forall s :: codec.encode(Str(s)) == Quote(s))
    requires IsErrorBody(u, body) && Contains(BodyJson(codec, body), marker) && Contains(marker, part)
    ensures Contains(ErrorText(codec, u), part)
  {
    var message, text := if u.message.Some? then u.message.value else "", StringifyBody(codec, u.body);
    var raw := StringifyBody(codec, body);
    MarkerInBody(codec, body, marker);
    ContainsTransitive(raw, marker, part);
    MarkerInEither(message, text, raw, part);
  }

  /** A marker in the JSON of a body is in its text. */
  lemma MarkerInBody(codec: Codec, body: Option<Json>, marker: string)
    requires NonAscii(marker) && marker != [] && (forall s :: codec.encode(Str(s)) == Quote(s))
    requires Contains(BodyJson(codec, body), marker)
    ensures Contains(StringifyBody(codec, body), marker)
  {
    if body.None? || body.value.Null? {
      QuoteAddsNoMarker("", marker);
    } else if body.value.Str? {
      QuoteAddsNoMarker(body.value.s, marker);
    }
  }

  lemma MarkerInEither(message: string, text: string, part: string, marker: string)
    requires (part == text || part == message) && Contains(part, marker)
    ensures Contains(message + " " + text, marker)
  {
    if part == message {
      ContainsConcat(message, " ", marker);
    }
    ContainsConcat(message + " ", text, marker);
  }

  /**
   So classifying under the restated status gives the verdict of the raw status, because the veto is
   part of the denial.
   */
  lemma RestatementKeepsVerdict(codec: Codec, u: Upstream, headers: map<string, string>, body: Option<Json>)
    requires MarkersAreCaseless(codec.lower) && (forall s :: codec.encode(Str(s)) == Quote(s))
    requires u.provider.Some? && u.provider.value != "" && codec.lower(u.provider.value) == "agentrouter"
    requires IsErrorBody(u, body)
    ensures Verdict(codec, ClassifiedStatus(codec, u), headers, body) == Verdict(codec, u.status, headers, body)
  {
    VerdictChangesIff(codec, u, headers, body);
    AgentrouterRestates(codec, u);
    if Contains(codec.lower(BodyJson(codec, body)), DENIED) {
      DeniedIsInHaystack(codec, u, body);
    }
  }

  /** In the lookup's own terms: with the operator's rules cleared, restating never changes the answer. */
  lemma RestatementKeepsLookup(
    codec: Codec, updates: seq<Option<Settings>>, catalog: map<string, seq<Rule>>, u: Upstream,
    headers: map<string, string>, body: Option<Json>)
    requires MarkersAreCaseless(codec.lower) && (forall s :: codec.encode(Str(s)) == Quote(s))
    requires u.provider.Some? && u.provider.value != "" && codec.lower(u.provider.value) == "agentrouter"
    requires "agentrouter" in catalog && catalog["agentrouter"] == AgentrouterRules(codec)
    requires OwnRules(codec.lower, updates, "agentrouter") == [] && IsErrorBody(u, body)
    ensures var table := TableAfter(codec.lower, updates);
            RuleMatchFor(codec, table, catalog, u.provider, Context(ClassifiedStatus(codec, u), headers, body)) ==
            RuleMatchFor(codec, table, catalog, u.provider, Context(u.status, headers, body))
  {
    RestatementKeepsVerdict(codec, u, headers, body);
    ClearedLookupIsVerdict(codec, updates, catalog, u.provider.value, ClassifiedStatus(codec, u), headers, body);
    ClearedLookupIsVerdict(codec, updates, catalog, u.provider.value, u.status, headers, body);
  }
}
