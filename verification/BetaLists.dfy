/**
 The comma lists carried by `anthropic-beta` (list syntax of section 5.6.1 of RFC 9110) and
 the merge of a client's list into the proxy's own. All results hold for every function
 `lower` taken as the case folding.
 */
module BetaLists {
  import opened Options
  import opened Text
  import opened Json

  const CONTEXT_1M_BETA := "context-1m-2025-08-07"
  const SKILLS_BETA := "skills-2025-10-02"

  // ----- Parsing and printing -----

  /** `split(",")`, one character at a time; never empty. */
  function Split(s: string): (r: seq<string>)
    ensures r != []
  {
    if s == [] then [""]
    else
      var rest := Split(s[1..]);
      if s[0] == ',' then [""] + rest else [[s[0]] + rest[0]] + rest[1..]
  }

  /** Trim every piece and drop the empty ones. */
  function Clean(pieces: seq<string>): seq<string> {
    if pieces == [] then []
    else if Trim(pieces[0]) == "" then Clean(pieces[1..])
    else [Trim(pieces[0])] + Clean(pieces[1..])
  }

  function Tokens(s: string): seq<string> {
    Clean(Split(s))
  }

  function Join(tokens: seq<string>): string {
    if tokens == [] then ""
    else if |tokens| == 1 then tokens[0]
    else tokens[0] + [','] + Join(tokens[1..])
  }

  /** A token that survives printing and parsing. */
  predicate IsToken(t: string) {
    t != "" && Trimmed(t) && ',' !in t
  }

  predicate AllTokens(ts: seq<string>) {
    forall t | t in ts :: IsToken(t)
  }

  lemma {:induction false} SplitConcat(a: string, b: string)
    ensures Split(a + [','] + b) == Split(a) + Split(b)
  {
    var s := a + [','] + b;
    if a == [] {
      assert s[1..] == b;
    } else {
      assert s[0] == a[0] && s[1..] == a[1..] + [','] + b;
      SplitConcat(a[1..], b);
    }
  }

  lemma {:induction false} SplitWhole(s: string)
    requires ',' !in s
    ensures Split(s) == [s]
  {
    if s != [] {
      SplitWhole(s[1..]);
      assert [s[0]] + s[1..] == s;
    }
  }

  lemma {:induction false} CleanConcat(a: seq<string>, b: seq<string>)
    ensures Clean(a + b) == Clean(a) + Clean(b)
  {
    if a == [] {
      assert a + b == b;
    } else {
      assert (a + b)[1..] == a[1..] + b;
      CleanConcat(a[1..], b);
    }
  }

  /** A comma concatenates the token lists of its sides. */
  lemma TokensConcat(a: string, b: string)
    ensures Tokens(a + [','] + b) == Tokens(a) + Tokens(b)
  {
    SplitConcat(a, b);
    CleanConcat(Split(a), Split(b));
  }

  lemma TokensOfToken(t: string)
    requires IsToken(t)
    ensures Tokens(t) == [t]
  {
    SplitWhole(t);
    TrimFixpoint(t);
    var pieces := [t];
    assert pieces[1..] == [];
    assert Clean(pieces) == [Trim(pieces[0])] + Clean([]);
  }

  /** Printing then parsing is the identity on lists of tokens. */
  lemma {:induction false} RoundTrip(ts: seq<string>)
    requires AllTokens(ts)
    ensures Tokens(Join(ts)) == ts
  {
    if |ts| == 1 {
      TokensOfToken(ts[0]);
    } else if |ts| > 1 {
      TokensConcat(ts[0], Join(ts[1..]));
      TokensOfToken(ts[0]);
      RoundTrip(ts[1..]);
    } else {
      assert Split("") == [""];
      assert [""][1..] == [];
    }
  }

  /** Lists are printed one after the other with a single comma between them. */
  lemma {:induction false} JoinConcat(a: seq<string>, b: seq<string>)
    requires a != [] && b != []
    ensures Join(a + b) == Join(a) + "," + Join(b)
    ensures |a| == 1 ==> Join(a) == a[0]
  {
    assert (a + b)[0] == a[0] && (a + b)[1..] == a[1..] + b;
    if |a| == 1 {
      assert a[1..] + b == b;
    } else {
      JoinConcat(a[1..], b);
      assert a[0] + "," + (Join(a[1..]) + "," + Join(b)) == a[0] + "," + Join(a[1..]) + "," + Join(b);
    }
  }

  lemma {:induction false} SplitHasNoComma(s: string)
    ensures forall p | p in Split(s) :: ',' !in p
  {
    if s != [] {
      SplitHasNoComma(s[1..]);
    }
  }

  lemma {:induction false} CleanGivesTokens(pieces: seq<string>)
    requires forall p | p in pieces :: ',' !in p
    ensures AllTokens(Clean(pieces))
  {
    if pieces != [] {
      CleanGivesTokens(pieces[1..]);
      TrimResult(pieces[0]);
    }
  }

  /** Parsing any string gives tokens. */
  lemma ParsingGivesTokens(s: string)
    ensures AllTokens(Tokens(s))
  {
    SplitHasNoComma(s);
    CleanGivesTokens(Split(s));
  }

  /** White space around a token is dropped... */
  lemma SpacedToken(l: string, t: string, r: string)
    requires AllSpace(l) && AllSpace(r) && IsToken(t)
    ensures Tokens(l + t + r) == [t]
  {
    var s := l + t + r;
    assert !IsSpace(',');
    assert ',' !in s;
    SplitWhole(s);
    TrimBetween(l, t, r);
    OnePiece(s);
  }

  /** ... and a piece of white space alone gives no token. With `TokensConcat` this parses every string. */
  lemma SpacesHaveNoTokens(l: string)
    requires AllSpace(l)
    ensures Tokens(l) == []
  {
    assert !IsSpace(',');
    assert ',' !in l;
    SplitWhole(l);
    TrimBetween(l, "", "");
    assert l + "" + "" == l;
    OnePiece(l);
  }

  lemma OnePiece(s: string)
    ensures Clean([s]) == if Trim(s) == "" then [] else [Trim(s)]
  {
    var pieces := [s];
    assert pieces[1..] == [];
  }

  /** The characters from `i` to `j` are all there is between two commas, or an end of the string. */
  predicate IsPiece(s: string, i: int, j: int) {
    && 0 <= i <= j <= |s| && (forall k | i <= k < j :: s[k] != ',')
    && (i == 0 || s[i - 1] == ',') && (j == |s| || s[j] == ',')
  }

  /** The token between white space, and nothing else. */
  ghost predicate Surrounds(piece: string, t: string) {
    exists l, r :: AllSpace(l) && AllSpace(r) && piece == l + t + r
  }

  /** A string is a token list exactly of what stands, between white space, between its commas. */
  lemma TokenIffPiece(s: string, t: string)
    ensures t in Tokens(s) <==> IsToken(t) && exists i, j | IsPiece(s, i, j) :: Surrounds(s[i..j], t)
  {
    CleanMembers(Split(s), t);
    ParsingGivesTokens(s);
    if t in Tokens(s) {
      var p :| p in Split(s) && Trim(p) == t;
      var i, j := SplitIsPiece(s, p);
      TrimSurrounds(p);
    }
    if i, j :| IsToken(t) && IsPiece(s, i, j) && Surrounds(s[i..j], t) {
      PieceIsSplit(s, i, j);
      var l, r :| AllSpace(l) && AllSpace(r) && s[i..j] == l + t + r;
      TrimBetween(l, t, r);
    }
  }

  lemma {:induction false} CleanMembers(pieces: seq<string>, t: string)
    ensures t in Clean(pieces) <==> t != "" && exists p | p in pieces :: Trim(p) == t
  {
    if pieces != [] {
      CleanMembers(pieces[1..], t);
      assert forall p :: p in pieces <==> p == pieces[0] || p in pieces[1..];
    }
  }

  lemma TrimSurrounds(s: string)
    ensures Surrounds(s, Trim(s))
  {
    var l, m := TrimStartCuts(s);
    var r := TrimEndCuts(m);
    assert s == l + Trim(s) + r;
  }

  lemma {:induction false} TrimStartCuts(s: string) returns (l: string, m: string)
    ensures AllSpace(l) && m == TrimStart(s) && s == l + m
  {
    if s == [] || !IsSpace(s[0]) {
      l, m := "", s;
    } else {
      l, m := TrimStartCuts(s[1..]);
      l := [s[0]] + l;
    }
  }

  lemma {:induction false} TrimEndCuts(s: string) returns (r: string)
    ensures AllSpace(r) && s == TrimEnd(s) + r
  {
    if s == [] || !IsSpace(s[|s| - 1]) {
      r := "";
    } else {
      r := TrimEndCuts(s[..|s| - 1]);
      r := r + [s[|s| - 1]];
    }
  }

  /** The first piece ends at the first comma... */
  lemma FirstPiece(a: string, b: string, j: int)
    requires ',' !in a
    ensures IsPiece(a + [','] + b, 0, j) <==> j == |a|
  {
    var s := a + [','] + b;
    assert s[|a|] == ',';
    assert forall k | 0 <= k < |a| :: s[k] == a[k];
  }

  /** ... and the others are those of the rest. */
  lemma LaterPiece(a: string, b: string, i: int, j: int)
    requires ',' !in a && 0 < i <= j <= |a| + 1 + |b|
    ensures var s, d := a + [','] + b, |a| + 1;
            && (IsPiece(s, i, j) <==> i >= d && IsPiece(b, i - d, j - d))
            && (i >= d ==> s[i..j] == b[i - d..j - d])
  {
    var s, d := a + [','] + b, |a| + 1;
    assert forall k | 0 <= k < |a| :: s[k] == a[k];
    assert forall k | d <= k < |s| :: s[k] == b[k - d];
    if i >= d && IsPiece(s, i, j) {
      forall k | i - d <= k < j - d ensures b[k] != ',' {
        assert b[k] == s[k + d];
      }
    }
  }

  /** The pieces of the split are those between the commas. */
  lemma {:induction false} SplitIsPiece(s: string, p: string) returns (i: nat, j: nat)
    requires p in Split(s)
    ensures IsPiece(s, i, j) && s[i..j] == p
    decreases |s|
  {
    if ',' !in s {
      SplitWhole(s);
      i, j := 0, |s|;
    } else {
      var a, b := AtFirstComma(s);
      if p == a {
        i, j := 0, |a|;
        FirstPiece(a, b, j);
      } else {
        var x, y := SplitIsPiece(b, p);
        i, j := |a| + 1 + x, |a| + 1 + y;
        LaterPiece(a, b, i, j);
      }
    }
  }

  lemma {:induction false} PieceIsSplit(s: string, i: nat, j: nat)
    requires IsPiece(s, i, j)
    ensures s[i..j] in Split(s)
    decreases |s|
  {
    if ',' !in s {
      SplitWhole(s);
      assert s[0..|s|] == s;
    } else {
      var a, b := AtFirstComma(s);
      if i == 0 {
        FirstPiece(a, b, j);
        assert s[0..|a|] == a;
      } else {
        LaterPiece(a, b, i, j);
        PieceIsSplit(b, i - |a| - 1, j - |a| - 1);
      }
    }
  }

  lemma AtFirstComma(s: string) returns (a: string, b: string)
    requires ',' in s
    ensures s == a + [','] + b && ',' !in a && Split(s) == [a] + Split(b)
  {
    var k := FirstComma(s);
    a, b := s[..k], s[k + 1..];
    SplitConcat(a, b);
    SplitWhole(a);
  }

  lemma {:induction false} FirstComma(s: string) returns (k: nat)
    requires ',' in s
    ensures k < |s| && s[k] == ',' && ',' !in s[..k]
  {
    if s[0] == ',' {
      k := 0;
    } else {
      k := FirstComma(s[1..]);
      assert s[..k + 1] == [s[0]] + s[1..][..k];
      k := k + 1;
    }
  }

  // ----- Merging -----

  function Folded(lower: string -> string, ts: seq<string>): set<string> {
    set t | t in ts :: lower(t)
  }

  /** The list after one client token: appended when it is allowed and not yet there in any case. */
  function Offer(lower: string -> string, base: seq<string>, t: string, allow: set<string>): seq<string> {
    if lower(t) in allow && lower(t) !in Folded(lower, base) then base + [t] else base
  }

  /** `base` followed by the client tokens that are allowed and not yet there in any case. */
  function Merged(lower: string -> string, base: seq<string>, client: seq<string>, allow: set<string>): seq<string>
    decreases client
  {
    if client == [] then base else Merged(lower, Offer(lower, base, client[0], allow), client[1..], allow)
  }

  predicate IsSubsequence(a: seq<string>, b: seq<string>) {
    || a == []
    || (b != [] && a[0] == b[0] && IsSubsequence(a[1..], b[1..]))
    || (b != [] && IsSubsequence(a, b[1..]))
  }

  /** What the merge promises of its result. */
  ghost predicate IsMerge(
    lower: string -> string, base: seq<string>, client: seq<string>, allow: set<string>, r: seq<string>)
  {
    && base <= r
    && IsSubsequence(r[|base|..], client)
    && (forall i | |base| <= i < |r| :: lower(r[i]) in allow && lower(r[i]) !in Folded(lower, r[..i]))
    && (forall t | t in client && lower(t) in allow :: lower(t) in Folded(lower, r))
  }

  lemma {:induction false} MergedExtends(
    lower: string -> string, base: seq<string>, client: seq<string>, allow: set<string>)
    ensures var r := Merged(lower, base, client, allow); base <= r && IsSubsequence(r[|base|..], client)
    decreases client
  {
    if client != [] {
      var next, r := Offer(lower, base, client[0], allow), Merged(lower, base, client, allow);
      MergedExtends(lower, next, client[1..], allow);
      if next != base {
        assert r[|base|..][1..] == r[|next|..];
      }
    }
  }

  lemma {:induction false} MergedAddsNew(
    lower: string -> string, base: seq<string>, client: seq<string>, allow: set<string>)
    ensures var r := Merged(lower, base, client, allow);
            forall i | |base| <= i < |r| :: lower(r[i]) in allow && lower(r[i]) !in Folded(lower, r[..i])
    decreases client
  {
    if client != [] {
      var next, r := Offer(lower, base, client[0], allow), Merged(lower, base, client, allow);
      MergedExtends(lower, next, client[1..], allow);
      MergedAddsNew(lower, next, client[1..], allow);
      if next != base {
        assert r[..|base|] == base && r[|base|] == next[|base|];
      }
    }
  }

  lemma {:induction false} MergedIsComplete(
    lower: string -> string, base: seq<string>, client: seq<string>, allow: set<string>)
    ensures forall t | t in client && lower(t) in allow :: lower(t) in Folded(lower, Merged(lower, base, client, allow))
    decreases client
  {
    if client != [] {
      var next, r := Offer(lower, base, client[0], allow), Merged(lower, base, client, allow);
      MergedExtends(lower, next, client[1..], allow);
      MergedIsComplete(lower, next, client[1..], allow);
      assert forall x | x in next :: x in r;
      assert lower(client[0]) in allow ==> lower(client[0]) in Folded(lower, next);
    }
  }

  /** The base is kept as a prefix; what is added is allowed, new in any case, in client order, and complete. */
  lemma MergedIsMerge(
    lower: string -> string, base: seq<string>, client: seq<string>, allow: set<string>)
    ensures IsMerge(lower, base, client, allow, Merged(lower, base, client, allow))
  {
    MergedExtends(lower, base, client, allow);
    MergedAddsNew(lower, base, client, allow);
    MergedIsComplete(lower, base, client, allow);
  }

  /** Merging one list after the other is merging their concatenation. */
  lemma {:induction false} MergedConcat(
    lower: string -> string, base: seq<string>, c: seq<string>, d: seq<string>, allow: set<string>)
    ensures Merged(lower, Merged(lower, base, c, allow), d, allow) == Merged(lower, base, c + d, allow)
    decreases c
  {
    if c == [] {
      assert c + d == d;
    } else {
      assert (c + d)[1..] == c[1..] + d;
      MergedConcat(lower, Offer(lower, base, c[0], allow), c[1..], d, allow);
    }
  }

  /** A list with nothing new to offer changes nothing. */
  lemma {:induction false} MergedNothingNew(
    lower: string -> string, base: seq<string>, client: seq<string>, allow: set<string>)
    requires forall t | t in client && lower(t) in allow :: lower(t) in Folded(lower, base)
    ensures Merged(lower, base, client, allow) == base
  {
    if client != [] {
      MergedNothingNew(lower, base, client[1..], allow);
    }
  }

  lemma {:induction false} MergedTokens(
    lower: string -> string, base: seq<string>, client: seq<string>, allow: set<string>)
    requires AllTokens(base) && AllTokens(client)
    ensures AllTokens(Merged(lower, base, client, allow))
    decreases client
  {
    if client != [] {
      MergedTokens(lower, Offer(lower, base, client[0], allow), client[1..], allow);
    }
  }

  /** The merge on header values. */
  function MergeText(lower: string -> string, base: string, client: string, allow: set<string>): string {
    Join(Merged(lower, Tokens(base), Tokens(client), allow))
  }

  lemma MergeTextTokens(lower: string -> string, base: string, client: string, allow: set<string>)
    ensures Tokens(MergeText(lower, base, client, allow)) == Merged(lower, Tokens(base), Tokens(client), allow)
  {
    ParsingGivesTokens(base);
    ParsingGivesTokens(client);
    MergedTokens(lower, Tokens(base), Tokens(client), allow);
    RoundTrip(Merged(lower, Tokens(base), Tokens(client), allow));
  }

  /** Merging c1 then c2 is merging "c1,c2". */
  lemma MergeTextConcat(lower: string -> string, base: string, c1: string, c2: string, allow: set<string>)
    ensures MergeText(lower, MergeText(lower, base, c1, allow), c2, allow)
            == MergeText(lower, base, c1 + [','] + c2, allow)
  {
    MergeTextTokens(lower, base, c1, allow);
    TokensConcat(c1, c2);
    MergedConcat(lower, Tokens(base), Tokens(c1), Tokens(c2), allow);
  }

  /** Merging the same list again changes nothing. */
  lemma MergeTextIdempotent(lower: string -> string, base: string, client: string, allow: set<string>)
    ensures MergeText(lower, MergeText(lower, base, client, allow), client, allow)
            == MergeText(lower, base, client, allow)
  {
    MergeTextTokens(lower, base, client, allow);
    MergedIsMerge(lower, Tokens(base), Tokens(client), allow);
    MergedNothingNew(lower, Merged(lower, Tokens(base), Tokens(client), allow), Tokens(client), allow);
  }

  // ----- The request gates -----

  predicate IsCodeExecutionTool(tool: Json) {
    var kind, name := Field(tool, "type"), Field(tool, "name");
    || (kind.Some? && kind.value.Str? && (kind.value.s == "code_execution" || "code_execution_" <= kind.value.s))
    || name == Some(Str("code_execution"))
    || (kind == Some(Str("function"))
        && Field(tool, "function").Some?
        && Field(Field(tool, "function").value, "name") == Some(Str("code_execution")))
  }

  /** A body given as text is parsed first; a body that does not parse has no tools. */
  predicate HasCodeExecutionTool(parse: string -> Option<Json>, body: Json) {
    var parsed := if body.Str? then parse(body.s) else Some(body);
    && parsed.Some?
    && var tools := Field(parsed.value, "tools");
       tools.Some? && tools.value.Arr? && exists tool | tool in tools.value.items :: IsCodeExecutionTool(tool)
  }

  /** What the allow-list is filtered by: the resolved model and the request body, when given. */
  datatype Gate = Gate(
    supports1m: string -> bool, model: Option<string>, parse: string -> Option<Json>, body: Option<Json>)
  {
    predicate Opens(beta: string) {
      if beta == CONTEXT_1M_BETA then
        model.None? || model.value == "" || supports1m(model.value)
      else if beta == SKILLS_BETA then
        body.None? || body.value.Null? || HasCodeExecutionTool(parse, body.value)
      else
        true
    }
  }

  function AllowSet(lower: string -> string, allow: seq<string>, gate: Gate): set<string> {
    set a | a in allow && gate.Opens(lower(a)) :: lower(a)
  }

  lemma BlankHasNoTokens(s: string)
    requires Trim(s) == ""
    ensures Tokens(s) == []
  {
    BlankIsSpaces(s);
    SpacesHaveNoTokens(s);
  }

  /** A beta is allowed when it is listed, in any case, and neither of two gates is shut on it. */
  lemma AllowedIff(lower: string -> string, allow: seq<string>, gate: Gate, beta: string)
    ensures beta in AllowSet(lower, allow, gate) <==>
            && (exists i | 0 <= i < |allow| :: lower(allow[i]) == beta)
            && !(beta == "context-1m-2025-08-07" && gate.model.Some? && gate.model.value != ""
                 && !gate.supports1m(gate.model.value))
            && !(beta == "skills-2025-10-02" && gate.body.Some? && gate.body.value != Null
                 && !HasCodeExecutionTool(gate.parse, gate.body.value))
  {
    assert |CONTEXT_1M_BETA| == 21 && |SKILLS_BETA| == 17;
    if i :| 0 <= i < |allow| && lower(allow[i]) == beta {
      assert allow[i] in allow;
    }
  }

  /** A tool is for code execution by its type, with or without a version, its name, or its function's name. */
  lemma CodeExecutionToolIff(tool: Json)
    ensures IsCodeExecutionTool(tool) <==>
            || Field(tool, "type") == Some(Str("code_execution"))
            || (exists version :: Field(tool, "type") == Some(Str("code_execution_" + version)))
            || Field(tool, "name") == Some(Str("code_execution"))
            || (Field(tool, "type") == Some(Str("function"))
                && exists f :: Field(tool, "function") == Some(f) && Field(f, "name") == Some(Str("code_execution")))
  {
    var kind := Field(tool, "type");
    if kind.Some? && kind.value.Str? && "code_execution_" <= kind.value.s {
      assert kind.value.s == "code_execution_" + kind.value.s[15..];
    }
  }

  /** A body has such a tool when one is in its `tools` array; a text has one when it parses to such a body. */
  lemma HasToolIff(parse: string -> Option<Json>, body: Json)
    ensures !body.Str? ==>
              (HasCodeExecutionTool(parse, body) <==>
               exists tools, k ::
                 Field(body, "tools") == Some(Arr(tools)) && 0 <= k < |tools| && IsCodeExecutionTool(tools[k]))
    ensures body.Str? ==>
              (HasCodeExecutionTool(parse, body) <==>
               exists parsed, tools, k ::
                 && parse(body.s) == Some(parsed) && Field(parsed, "tools") == Some(Arr(tools))
                 && 0 <= k < |tools| && IsCodeExecutionTool(tools[k]))
  {
    var parsed := if body.Str? then parse(body.s) else Some(body);
    if HasCodeExecutionTool(parse, body) {
      var tools := Field(parsed.value, "tools").value.items;
      var tool :| tool in tools && IsCodeExecutionTool(tool);
      var k :| 0 <= k < |tools| && tools[k] == tool;
      assert IsCodeExecutionTool(tools[k]) && Field(parsed.value, "tools") == Some(Arr(tools));
    }
  }

  /** The merge loop: client tokens are pushed one by one while the folded set is kept up to date. */
  method PushNew(lower: string -> string, base: seq<string>, tokens: seq<string>, allowSet: set<string>)
    returns (list: seq<string>)
    ensures list == Merged(lower, base, tokens, allowSet)
  {
    list := base;
    var seen := Folded(lower, list);
    for i := 0 to |tokens|
      invariant seen == Folded(lower, list)
      invariant Merged(lower, list, tokens[i..], allowSet) == Merged(lower, base, tokens, allowSet)
    {
      assert tokens[i..][1..] == tokens[i + 1..];
      var folded := lower(tokens[i]);
      if folded in allowSet && folded !in seen {
        list := list + [tokens[i]];
        seen := seen + {folded};
      }
    }
  }

  /** The client's list, absent or not, merged into the base through the gated allow-list. */
  method MergeClientBeta(
    lower: string -> string, base: string, client: Option<string>, allow: seq<string>, gate: Gate)
    returns (r: string)
    ensures r == MergeText(lower, base, if client.Some? then client.value else "", AllowSet(lower, allow, gate))
  {
    var baseList := Tokens(base);
    if client.None? || Trim(client.value) == "" {
      BlankHasNoTokens(if client.Some? then client.value else "");
      return Join(baseList);
    }
    var list := PushNew(lower, baseList, Tokens(client.value), AllowSet(lower, allow, gate));
    return Join(list);
  }
}
