/**
 Endpoint URLs derived from configured base URLs. A known endpoint at the end of the base
 is replaced by the wanted one, never followed by it.
 */
module Endpoints {
  import opened Options
  import opened Text

  function StripSlashes(s: string): string {
    if s != [] && s[|s| - 1] == '/' then StripSlashes(s[..|s| - 1]) else s
  }

  method StripTrailingSlashes(s: string) returns (r: string)
    ensures r == StripSlashes(s)
  {
    r := s;
    while r != [] && r[|r| - 1] == '/'
      invariant StripSlashes(r) == StripSlashes(s)
      decreases |r|
    {
      r := r[..|r| - 1];
    }
  }

  // ----- The remote router -----

  datatype Endpoint = Models | ChatCompletions | SystemOne | Decisions

  function PathOf(e: Endpoint): string {
    match e
    case Models => "/models"
    case ChatCompletions => "/chat/completions"
    case SystemOne => "/systemone"
    case Decisions => "/decisions"
  }

  /** The parsed URL; the host part stands for everything between the credentials and the path. */
  datatype Url = Url(
    protocol: string, username: string, password: string, host: string, path: string, search: string, hash: string)

  const KNOWN_SUFFIXES := ["/chat/completions", "/responses", "/models", "/systemone", "/decisions"]

  function StripOne(path: string, suffixes: seq<string>): string {
    if suffixes == [] then path
    else if EndsWith(path, suffixes[0]) then path[..|path| - |suffixes[0]|]
    else StripOne(path, suffixes[1..])
  }

  /** The versioned base of a path: slashes and one known endpoint removed, `/v1` made sure of. */
  function RouterBase(path: string): string {
    var base := StripOne(StripSlashes(path), KNOWN_SUFFIXES);
    if EndsWith(base, "/v1") then base else base + "/v1"
  }

  predicate Accepted(url: Url) {
    && (url.protocol == "http:" || url.protocol == "https:")
    && url.username == "" && url.password == "" && url.search == "" && url.hash == ""
  }

  /** Nothing stands for the exception. */
  function RouterEndpoint(url: Url, e: Endpoint): Option<Url> {
    if Accepted(url) then Some(url.(path := RouterBase(url.path) + PathOf(e))) else None
  }

  method RedRouterEndpoint(url: Url, e: Endpoint) returns (r: Option<Url>)
    ensures r == RouterEndpoint(url, e)
    ensures r.Some? <==>
            && (url.protocol == "http:" || url.protocol == "https:")
            && url.username == "" && url.password == "" && url.search == "" && url.hash == ""
    ensures r.Some? ==> EndsWith(r.value.path, "/v1" + PathOf(e))
                        && forall e' :: RouterEndpoint(r.value, e') == RouterEndpoint(url, e')
  {
    if !Accepted(url) {
      return None;
    }
    forall e' ensures RouterEndpoint(RouterEndpoint(url, e).value, e') == RouterEndpoint(url, e') {
      RouterReplaces(url, e, e');
    }
    EndsConcat(RouterBase(url.path), "/v1", PathOf(e));
    var path := StripTrailingSlashes(url.path);
    path := StripOne(path, KNOWN_SUFFIXES);
    if !EndsWith(path, "/v1") {
      path := path + "/v1";
    }
    return Some(url.(path := path + PathOf(e)));
  }

  lemma EndsConcat(s: string, suffix: string, more: string)
    requires EndsWith(s, suffix)
    ensures EndsWith(s + more, suffix + more)
  {
    assert s == s[..|s| - |suffix|] + suffix;
    assert s + more == s[..|s| - |suffix|] + (suffix + more);
  }

  /** Two suffixes that differ at the same place counted from the end. */
  predicate DifferAt(a: string, b: string, k: nat) {
    k < |a| && k < |b| && a[|a| - 1 - k] != b[|b| - 1 - k]
  }

  predicate Exclusive(a: string, b: string) {
    exists k: nat | k < |a| :: DifferAt(a, b, k)
  }

  lemma OtherSuffix(s: string, has: string, other: string)
    requires EndsWith(s, has) && Exclusive(has, other)
    ensures !EndsWith(s, other)
  {
    var k: nat :| k < |has| && DifferAt(has, other, k);
    assert s[|s| - 1 - k] == s[|s| - |has|..][|has| - 1 - k];
  }

  lemma {:induction false} StripFirstMatch(path: string, suffixes: seq<string>, i: nat)
    requires i < |suffixes| && EndsWith(path, suffixes[i])
    requires forall j | 0 <= j < i :: !EndsWith(path, suffixes[j])
    ensures StripOne(path, suffixes) == path[..|path| - |suffixes[i]|]
  {
    if i > 0 {
      StripFirstMatch(path, suffixes[1..], i - 1);
    }
  }

  /** A listed suffix is stripped again when it excludes the ones listed before it. */
  lemma StripListed(base: string, suffixes: seq<string>, i: nat)
    requires i < |suffixes| && forall j | 0 <= j < i :: Exclusive(suffixes[i], suffixes[j])
    ensures StripOne(base + suffixes[i], suffixes) == base
  {
    var s := base + suffixes[i];
    assert s[|base|..] == suffixes[i] && s[..|base|] == base;
    forall j | 0 <= j < i ensures !EndsWith(s, suffixes[j]) {
      OtherSuffix(s, suffixes[i], suffixes[j]);
    }
    StripFirstMatch(s, suffixes, i);
  }

  lemma KnownSuffixesExclude()
    ensures Exclusive("/models", "/chat/completions") && Exclusive("/models", "/responses")
    ensures Exclusive("/systemone", "/chat/completions") && Exclusive("/systemone", "/responses")
    ensures Exclusive("/systemone", "/models") && Exclusive("/decisions", "/chat/completions")
    ensures Exclusive("/decisions", "/responses") && Exclusive("/decisions", "/models")
    ensures Exclusive("/decisions", "/systemone") && Exclusive("/responses", "/chat/completions")
  {
    assert DifferAt("/responses", "/chat/completions", 1);
    assert DifferAt("/models", "/chat/completions", 1) && DifferAt("/models", "/responses", 1);
    assert DifferAt("/systemone", "/chat/completions", 0) && DifferAt("/systemone", "/responses", 0);
    assert DifferAt("/systemone", "/models", 0) && DifferAt("/decisions", "/chat/completions", 4);
    assert DifferAt("/decisions", "/responses", 1) && DifferAt("/decisions", "/models", 1);
    assert DifferAt("/decisions", "/systemone", 0);
  }

  lemma NoTrailingSlash(base: string, text: string)
    requires text != "" && text[|text| - 1] != '/'
    ensures StripSlashes(base + text) == base + text
  {
  }

  lemma StripEndpoint(base: string, e: Endpoint)
    ensures StripOne(base + PathOf(e), KNOWN_SUFFIXES) == base
    ensures StripSlashes(base + PathOf(e)) == base + PathOf(e)
  {
    KnownSuffixesExclude();
    NoTrailingSlash(base, PathOf(e));
    var i := match e case ChatCompletions => 0 case Models => 2 case SystemOne => 3 case Decisions => 4;
    StripListed(base, KNOWN_SUFFIXES, i);
  }

  /** Applying one endpoint after another is applying the last alone, and refusals stay refusals. */
  lemma RouterReplaces(url: Url, e1: Endpoint, e2: Endpoint)
    ensures match RouterEndpoint(url, e1)
            case None => RouterEndpoint(url, e2) == None
            case Some(once) => RouterEndpoint(once, e2) == RouterEndpoint(url, e2)
  {
    StripEndpoint(RouterBase(url.path), e1);
    assert EndsWith(RouterBase(url.path), "/v1");
  }

  // ----- The value of a router endpoint -----

  /** A slash at the end makes no difference. */
  lemma SlashIgnored(s: string)
    ensures StripSlashes(s + "/") == StripSlashes(s)
  {
    assert (s + "/")[..|s|] == s;
  }

  lemma {:induction false} StripNone(path: string, suffixes: seq<string>)
    requires forall x | x in suffixes :: !EndsWith(path, x)
    ensures StripOne(path, suffixes) == path
  {
    if suffixes != [] {
      assert suffixes[0] in suffixes;
      StripNone(path, suffixes[1..]);
    }
  }

  /** One of the five endpoints a base may carry. */
  predicate IsEndpoint(x: string) {
    x == "/chat/completions" || x == "/responses" || x == "/models" || x == "/systemone" || x == "/decisions"
  }

  /** No slash and no endpoint at the end. */
  predicate IsBare(p: string) {
    && (p == "" || p[|p| - 1] != '/')
    && !EndsWith(p, "/chat/completions") && !EndsWith(p, "/responses") && !EndsWith(p, "/models")
    && !EndsWith(p, "/systemone") && !EndsWith(p, "/decisions")
  }

  lemma StripOneEndpoint(p: string, x: string)
    requires IsEndpoint(x)
    ensures StripOne(p + x, KNOWN_SUFFIXES) == p
  {
    KnownSuffixesExclude();
    var i := if x == "/chat/completions" then 0
             else if x == "/responses" then 1
             else if x == "/models" then 2
             else if x == "/systemone" then 3
             else 4;
    StripListed(p, KNOWN_SUFFIXES, i);
  }

  lemma StripEnding(p: string, x: string)
    requires IsEndpoint(x) || (x == "" && IsBare(p))
    ensures StripOne(StripSlashes(p + x), KNOWN_SUFFIXES) == p
  {
    if x == "" {
      assert p + x == p;
      StripNone(p, KNOWN_SUFFIXES);
    } else {
      NoTrailingSlash(p, x);
      StripOneEndpoint(p, x);
    }
  }

  function Versioned(p: string): string {
    if EndsWith(p, "/v1") then p else p + "/v1"
  }

  /**
   The four endpoints of an accepted URL, whatever endpoint and however many slashes its path ends in:
   the path without them, `/v1` unless it is there, and the endpoint.
   */
  lemma RouterAnswers(url: Url, p: string, x: string)
    requires Accepted(url) && url.path == p + x && (IsEndpoint(x) || (x == "" && IsBare(p)))
    ensures RouterEndpoint(url, Models) == Some(url.(path := Versioned(p) + "/models"))
    ensures RouterEndpoint(url, ChatCompletions) == Some(url.(path := Versioned(p) + "/chat/completions"))
    ensures RouterEndpoint(url, SystemOne) == Some(url.(path := Versioned(p) + "/systemone"))
    ensures RouterEndpoint(url, Decisions) == Some(url.(path := Versioned(p) + "/decisions"))
    ensures forall e :: RouterEndpoint(url.(path := url.path + "/"), e) == RouterEndpoint(url, e)
  {
    StripEnding(p, x);
    SlashIgnored(url.path);
  }

  // ----- GLM -----

  function FoldChar(c: char): char {
    if 'A' <= c <= 'Z' then (c as int + 32) as char else c
  }

  /** `s` ends with `suffix`, given in lower case, in any case. */
  predicate EndsWithFolded(s: string, suffix: string) {
    |suffix| <= |s| && forall i | 0 <= i < |suffix| :: FoldChar(s[|s| - |suffix| + i]) == suffix[i]
  }

  /** The position of the first `?` or `#`; the length when there is none. */
  function Delimiter(url: string): (i: nat)
    ensures i <= |url|
  {
    if url == [] || url[0] == '?' || url[0] == '#' then 0 else 1 + Delimiter(url[1..])
  }

  function TrailingDigits(s: string): (n: nat)
    ensures n <= |s|
  {
    if s != [] && '0' <= s[|s| - 1] <= '9' then 1 + TrailingDigits(s[..|s| - 1]) else 0
  }

  /** The length of a trailing `/v<digits>`, in any case; 0 when there is none. */
  function VersionLength(s: string): (n: nat)
    ensures n <= |s|
  {
    var d := TrailingDigits(s);
    if 0 < d && EndsWithFolded(s[..|s| - d], "/v") then d + 2 else 0
  }

  function DropLast(s: string, n: nat): string
    requires n <= |s|
  {
    s[..|s| - n]
  }

  /** An endpoint with the version in front of it, if there is one. */
  function DropVersioned(base: string, n: nat): string
    requires n <= |base|
  {
    var rest := DropLast(base, n);
    DropLast(rest, VersionLength(rest))
  }

  const COUNT_TOKENS := "/messages/count_tokens"
  const MESSAGES := "/messages"
  const CHAT := "/chat/completions"
  const MODELS := "/models"

  function StripKnownBase(base: string): string {
    if EndsWithFolded(base, COUNT_TOKENS) then DropVersioned(base, |COUNT_TOKENS|)
    else if EndsWithFolded(base, MESSAGES) then DropVersioned(base, |MESSAGES|)
    else if EndsWithFolded(base, CHAT) then DropLast(base, |CHAT|)
    else if EndsWithFolded(base, MODELS) then DropLast(base, |MODELS|)
    else base
  }

  /** The base without query, hash, trailing slashes and one known endpoint; and the query and hash. */
  function StripKnownSuffix(url: string): (string, string) {
    var i := Delimiter(url);
    (StripKnownBase(StripSlashes(url[..i])), url[i..])
  }

  /** `prefix`, in any case, starts `s`, in any case. */
  predicate StartsWithFolded(s: string, prefix: string) {
    |prefix| <= |s| && forall i | 0 <= i < |prefix| :: FoldChar(s[i]) == FoldChar(prefix[i])
  }

  /** The path after the base, without the version the base already ends in. */
  function Joined(base: string, wanted: string): string {
    var version := base[|base| - VersionLength(base)..];
    if version != "" && StartsWithFolded(wanted, version + "/") then base + wanted[|version|..] else base + wanted
  }

  function JoinBaseAndPath(url: string, path: string): string {
    var (base, suffix) := StripKnownSuffix(url);
    Joined(base, if "/" <= path then path else "/" + path) + suffix
  }

  method StripKnownEndpoint(url: string) returns (base: string, suffix: string)
    ensures (base, suffix) == StripKnownSuffix(url)
  {
    var i := Delimiter(url);
    base, suffix := url[..i], url[i..];
    while base != [] && base[|base| - 1] == '/'
      invariant StripSlashes(base) == StripSlashes(url[..i])
      decreases |base|
    {
      base := base[..|base| - 1];
    }
    base := StripKnownBase(base);
  }

  // ----- OpenAI paths replace each other -----

  datatype OpenAiPath = Chat | ModelList

  function TextOf(p: OpenAiPath): string {
    match p
    case Chat => CHAT
    case ModelList => MODELS
  }

  lemma NotFolded(base: string, text: string, other: string, k: nat)
    requires k < |text| && k < |other| && FoldChar(text[|text| - 1 - k]) != other[|other| - 1 - k]
    ensures !EndsWithFolded(base + text, other)
  {
    var s := base + text;
    assert s[|s| - 1 - k] == text[|text| - 1 - k];
  }

  lemma FoldedSuffix(base: string, text: string)
    requires forall i | 0 <= i < |text| :: FoldChar(text[i]) == text[i]
    ensures EndsWithFolded(base + text, text) && DropLast(base + text, |text|) == base
  {
    var s := base + text;
    assert forall i | 0 <= i < |text| :: s[|s| - |text| + i] == text[i];
  }

  lemma StripChat(base: string)
    ensures StripKnownBase(base + CHAT) == base
  {
    NotFolded(base, CHAT, COUNT_TOKENS, 2);
    NotFolded(base, CHAT, MESSAGES, 1);
    FoldedSuffix(base, CHAT);
  }

  lemma StripModels(base: string)
    ensures StripKnownBase(base + MODELS) == base
  {
    NotFolded(base, MODELS, COUNT_TOKENS, 1);
    NotFolded(base, MODELS, MESSAGES, 1);
    NotFolded(base, MODELS, CHAT, 1);
    FoldedSuffix(base, MODELS);
  }

  lemma StripOpenAi(base: string, p: OpenAiPath)
    ensures StripKnownBase(StripSlashes(base + TextOf(p))) == base
  {
    NoTrailingSlash(base, TextOf(p));
    StripChat(base);
    StripModels(base);
  }

  predicate Plain(s: string) {
    forall i | 0 <= i < |s| :: s[i] != '?' && s[i] != '#'
  }

  lemma {:induction false} DelimiterSplits(url: string)
    ensures Plain(url[..Delimiter(url)])
    ensures Delimiter(url) < |url| ==> url[Delimiter(url)] == '?' || url[Delimiter(url)] == '#'
  {
    if url != [] && url[0] != '?' && url[0] != '#' {
      DelimiterSplits(url[1..]);
      var i := Delimiter(url[1..]);
      assert url[..i + 1] == [url[0]] + url[1..][..i];
    }
  }

  lemma {:induction false} DelimiterAfterPlain(a: string, b: string)
    requires Plain(a) && (b == "" || b[0] == '?' || b[0] == '#')
    ensures Delimiter(a + b) == |a|
  {
    if a != [] {
      assert (a + b)[1..] == a[1..] + b;
      DelimiterAfterPlain(a[1..], b);
    } else {
      assert a + b == b;
    }
  }

  lemma {:induction false} StripSlashesPrefix(s: string)
    ensures StripSlashes(s) <= s
  {
    if s != [] && s[|s| - 1] == '/' {
      StripSlashesPrefix(s[..|s| - 1]);
    }
  }

  lemma StripKnownPrefix(base: string)
    ensures StripKnownBase(base) <= base
  {
  }

  /** The stripped base is a prefix of the URL before its query and hash. */
  lemma StrippedIsPlain(url: string)
    ensures var (base, suffix) := StripKnownSuffix(url);
            Plain(base) && (suffix == "" || suffix[0] == '?' || suffix[0] == '#')
  {
    DelimiterSplits(url);
    var front := url[..Delimiter(url)];
    StripSlashesPrefix(front);
    StripKnownPrefix(StripSlashes(front));
    assert StripKnownBase(StripSlashes(front)) <= front;
  }

  lemma VersionHasV(base: string)
    requires VersionLength(base) > 0
    ensures var n := VersionLength(base); n >= 3 && FoldChar(base[|base| - n + 1]) == 'v'
  {
    var d := TrailingDigits(base);
    var head := base[..|base| - d];
    assert FoldChar(head[|head| - 2 + 1]) == "/v"[1];
  }

  lemma NoVersionInPath(p: OpenAiPath, version: string)
    requires |version| >= 3 && FoldChar(version[1]) == 'v'
    ensures !StartsWithFolded(TextOf(p), version + "/")
  {
    assert (version + "/")[1] == version[1];
    assert FoldChar(TextOf(p)[1]) != 'v';
  }

  lemma JoinOpenAi(url: string, p: OpenAiPath)
    ensures var (base, suffix) := StripKnownSuffix(url);
            JoinBaseAndPath(url, TextOf(p)) == base + TextOf(p) + suffix
  {
    var (base, _) := StripKnownSuffix(url);
    assert "/" <= TextOf(p);
    JoinedOpenAi(base, p);
  }

  lemma JoinedOpenAi(base: string, p: OpenAiPath)
    ensures Joined(base, TextOf(p)) == base + TextOf(p)
  {
    if VersionLength(base) > 0 {
      VersionHasV(base);
      NoVersionInPath(p, base[|base| - VersionLength(base)..]);
    }
  }

  lemma StripUrl(front: string, suffix: string)
    requires Plain(front) && (suffix == "" || suffix[0] == '?' || suffix[0] == '#')
    ensures StripKnownSuffix(front + suffix) == (StripKnownBase(StripSlashes(front)), suffix)
  {
    var s := front + suffix;
    DelimiterAfterPlain(front, suffix);
    assert s[..|front|] == front && s[|front|..] == suffix;
  }

  lemma PlainConcat(a: string, b: string)
    requires Plain(a) && Plain(b)
    ensures Plain(a + b)
  {
  }

  // ----- The value of a GLM join -----

  /** A slash before the query makes no difference. */
  lemma JoinIgnoresSlash(base: string, suffix: string, path: string)
    requires Plain(base) && (suffix == "" || suffix[0] == '?' || suffix[0] == '#')
    ensures JoinBaseAndPath(base + "/" + suffix, path) == JoinBaseAndPath(base + suffix, path)
    ensures StripKnownSuffix(base + "/" + suffix) == StripKnownSuffix(base + suffix)
  {
    PlainConcat(base, "/");
    StripUrl(base + "/", suffix);
    StripUrl(base, suffix);
    SlashIgnored(base);
  }

  /** A slash, a `v` in any case, and digits. */
  predicate IsVersion(v: string) {
    |v| >= 3 && v[0] == '/' && FoldChar(v[1]) == 'v' && forall k | 2 <= k < |v| :: '0' <= v[k] <= '9'
  }

  predicate EndsInVersion(s: string) {
    exists k | 0 <= k <= |s| :: IsVersion(s[k..])
  }

  predicate SameFolded(a: string, b: string) {
    |a| == |b| && forall i | 0 <= i < |a| :: FoldChar(a[i]) == FoldChar(b[i])
  }

  /** Letters are folded one by one, capitals to small ones and nothing else to anything else. */
  lemma FoldCharIs(c: char)
    ensures FoldChar('V') == 'v' && FoldChar('M') == 'm'
    ensures !('A' <= c <= 'Z') ==> FoldChar(c) == c
    ensures 'A' <= c < 'Z' ==> FoldChar((c as int + 1) as char) as int == FoldChar(c) as int + 1
  {
  }

  lemma {:induction false} DigitsCounted(front: string, digits: string)
    requires front != "" && !('0' <= front[|front| - 1] <= '9')
    requires forall k | 0 <= k < |digits| :: '0' <= digits[k] <= '9'
    ensures TrailingDigits(front + digits) == |digits|
  {
    if digits == "" {
      assert front + digits == front;
    } else {
      var n := |front + digits| - 1;
      assert (front + digits)[n] == digits[|digits| - 1];
      assert (front + digits)[..n] == front + digits[..|digits| - 1];
      DigitsCounted(front, digits[..|digits| - 1]);
    }
  }

  lemma VersionCounted(h: string, v: string)
    requires IsVersion(v)
    ensures VersionLength(h + v) == |v|
  {
    var front, digits := h + v[..2], v[2..];
    assert h + v == front + digits;
    assert front[|front| - 1] == v[1] && front[|front| - 2] == v[0];
    DigitsCounted(front, digits);
    assert (h + v)[..|h + v| - |digits|] == front;
  }

  lemma VersionFound(s: string)
    ensures VersionLength(s) > 0 ==> IsVersion(s[|s| - VersionLength(s)..])
    ensures VersionLength(s) > 0 <==> EndsInVersion(s)
  {
    var d, n := TrailingDigits(s), VersionLength(s);
    if n > 0 {
      var v, head := s[|s| - n..], s[..|s| - d];
      assert FoldChar(head[|head| - 2 + 0]) == "/v"[0] && FoldChar(head[|head| - 2 + 1]) == "/v"[1];
      forall k | 2 <= k < |v| ensures '0' <= v[k] <= '9' {
        DigitsTrail(s, |v| - 1 - k);
      }
    }
    if k :| 0 <= k <= |s| && IsVersion(s[k..]) {
      VersionCounted(s[..k], s[k..]);
      assert s[..k] + s[k..] == s;
    }
  }

  lemma FoldedEnding(base: string, ending: string, known: string)
    requires SameFolded(ending, known) && forall i | 0 <= i < |known| :: FoldChar(known[i]) == known[i]
    ensures EndsWithFolded(base + ending, known) && DropLast(base + ending, |known|) == base
  {
    var s := base + ending;
    assert forall i | 0 <= i < |ending| :: s[|s| - |known| + i] == ending[i];
  }

  /** An OpenAI endpoint at the end, in any case, is taken off... */
  lemma StripsOpenAi(base: string, ending: string)
    requires SameFolded(ending, "/chat/completions") || SameFolded(ending, "/models")
    ensures StripKnownBase(StripSlashes(base + ending)) == base
  {
    NoTrailingSlash(base, ending);
    if SameFolded(ending, CHAT) {
      NotFolded(base, ending, COUNT_TOKENS, 2);
      NotFolded(base, ending, MESSAGES, 1);
      FoldedEnding(base, ending, CHAT);
    } else {
      NotFolded(base, ending, COUNT_TOKENS, 1);
      NotFolded(base, ending, MESSAGES, 1);
      NotFolded(base, ending, CHAT, 1);
      FoldedEnding(base, ending, MODELS);
    }
  }

  /** ... a messages endpoint together with the version in front of it, if there is one... */
  lemma StripsMessages(base: string, version: string, ending: string)
    requires SameFolded(ending, "/messages") || SameFolded(ending, "/messages/count_tokens")
    requires IsVersion(version) || (version == "" && !EndsInVersion(base))
    ensures StripKnownBase(StripSlashes(base + version + ending)) == base
  {
    var front := base + version;
    NoTrailingSlash(front, ending);
    VersionDropped(base, version);
    if SameFolded(ending, COUNT_TOKENS) {
      FoldedEnding(front, ending, COUNT_TOKENS);
    } else {
      NotFolded(front, ending, COUNT_TOKENS, 1);
      FoldedEnding(front, ending, MESSAGES);
    }
  }

  lemma VersionDropped(base: string, version: string)
    requires IsVersion(version) || (version == "" && !EndsInVersion(base))
    ensures var front := base + version; DropLast(front, VersionLength(front)) == base
  {
    VersionFound(base + version);
    if version == "" {
      assert base + version == base;
    } else {
      VersionCounted(base, version);
    }
  }

  /** ... and nothing else is. */
  lemma StripsNothingElse(base: string)
    requires base == "" || base[|base| - 1] != '/'
    requires !EndsWithFolded(base, "/messages/count_tokens") && !EndsWithFolded(base, "/messages")
    requires !EndsWithFolded(base, "/chat/completions") && !EndsWithFolded(base, "/models")
    ensures StripKnownBase(StripSlashes(base)) == base
  {
  }

  /** A path after a stripped base: a version that the base ends in is not repeated. */
  lemma JoinedValue(head: string, version: string, path: string)
    requires IsVersion(version) || (version == "" && !EndsInVersion(head))
    ensures Joined(head + version, path) ==
            if version != "" && |version| < |path| && SameFolded(path[..|version|], version) && path[|version|] == '/'
            then head + version + path[|version|..]
            else head + version + path
  {
    var base := head + version;
    VersionFound(base);
    if version == "" {
      assert base == head;
    } else {
      VersionCounted(head, version);
      assert base[|base| - |version|..] == version;
      FoldedStart(path, version);
    }
  }

  lemma FoldedStart(path: string, version: string)
    ensures StartsWithFolded(path, version + "/") <==>
            |version| < |path| && SameFolded(path[..|version|], version) && path[|version|] == '/'
  {
    var prefix := version + "/";
    assert prefix[|version|] == '/' && forall i | 0 <= i < |version| :: prefix[i] == version[i];
    if StartsWithFolded(path, prefix) {
      assert FoldChar(path[|version|]) == FoldChar(prefix[|version|]);
      assert forall i | 0 <= i < |version| :: FoldChar(path[i]) == FoldChar(prefix[i]);
    }
  }

  /** `base` is `front` without the one endpoint it ends in, in any case, if it ends in one. */
  ghost predicate Leaves(front: string, base: string) {
    || (exists ending | SameFolded(ending, "/chat/completions") || SameFolded(ending, "/models") ::
          front == base + ending)
    || (exists version, ending | SameFolded(ending, "/messages") || SameFolded(ending, "/messages/count_tokens") ::
          && front == base + version + ending
          && (IsVersion(version) || (version == "" && !EndsInVersion(base))))
    || (&& front == base && (base == "" || base[|base| - 1] != '/')
        && !EndsWithFolded(base, "/messages/count_tokens") && !EndsWithFolded(base, "/messages")
        && !EndsWithFolded(base, "/chat/completions") && !EndsWithFolded(base, "/models"))
  }

  lemma StripLeaves(front: string, base: string)
    requires Leaves(front, base)
    ensures StripKnownBase(StripSlashes(front)) == base
  {
    if ending :| (SameFolded(ending, "/chat/completions") || SameFolded(ending, "/models")) && front == base + ending {
      StripsOpenAi(base, ending);
    } else if version, ending :|
        && (SameFolded(ending, "/messages") || SameFolded(ending, "/messages/count_tokens"))
        && front == base + version + ending
        && (IsVersion(version) || (version == "" && !EndsInVersion(base))) {
      StripsMessages(base, version, ending);
    } else {
      StripsNothingElse(base);
    }
  }

  /**
   The join of a path to any URL: what the strip leaves of it, the path after that, and the query and
   hash. A version that the base ends in is not repeated.
   */
  lemma JoinAnswers(front: string, head: string, version: string, suffix: string, path: string)
    requires Plain(front) && (suffix == "" || suffix[0] == '?' || suffix[0] == '#')
    requires Leaves(front, head + version) && (IsVersion(version) || (version == "" && !EndsInVersion(head)))
    ensures JoinBaseAndPath(front + suffix, path) ==
            (var wanted := if path != "" && path[0] == '/' then path else "/" + path;
             if version != "" && |version| < |wanted| && SameFolded(wanted[..|version|], version)
                && wanted[|version|] == '/'
             then head + version + wanted[|version|..]
             else head + version + wanted) + suffix
  {
    StripUrl(front, suffix);
    StripLeaves(front, head + version);
    JoinedValue(head, version, if path != "" && path[0] == '/' then path else "/" + path);
  }

  /** What a join adds is exactly what the next one strips; query and hash are kept. */
  lemma StripUndoesJoin(url: string, p: OpenAiPath)
    ensures StripKnownSuffix(JoinBaseAndPath(url, TextOf(p))) == StripKnownSuffix(url)
  {
    var (base, suffix) := StripKnownSuffix(url);
    JoinOpenAi(url, p);
    StrippedIsPlain(url);
    StripJoined(base, p, suffix);
  }

  lemma StripJoined(base: string, p: OpenAiPath, suffix: string)
    requires Plain(base) && (suffix == "" || suffix[0] == '?' || suffix[0] == '#')
    ensures StripKnownSuffix(base + TextOf(p) + suffix) == (base, suffix)
  {
    PlainConcat(base, TextOf(p));
    StripUrl(base + TextOf(p), suffix);
    StripOpenAi(base, p);
  }

  function JoinAll(url: string, paths: seq<OpenAiPath>): string {
    if paths == [] then url else JoinBaseAndPath(JoinAll(url, paths[..|paths| - 1]), TextOf(paths[|paths| - 1]))
  }

  lemma {:induction false} ChainKeepsBase(url: string, paths: seq<OpenAiPath>)
    ensures StripKnownSuffix(JoinAll(url, paths)) == StripKnownSuffix(url)
  {
    if paths != [] {
      ChainKeepsBase(url, paths[..|paths| - 1]);
      StripUndoesJoin(JoinAll(url, paths[..|paths| - 1]), paths[|paths| - 1]);
    }
  }

  /** For every string, a chain of joins is the last one applied to the original. */
  lemma GlmReplaces(url: string, paths: seq<OpenAiPath>)
    requires paths != []
    ensures JoinAll(url, paths) == JoinBaseAndPath(url, TextOf(paths[|paths| - 1]))
  {
    ChainKeepsBase(url, paths[..|paths| - 1]);
    JoinOpenAi(JoinAll(url, paths[..|paths| - 1]), paths[|paths| - 1]);
    JoinOpenAi(url, paths[|paths| - 1]);
  }

  // ----- The versioned messages path -----

  const VERSIONED_MESSAGES := "/v1/messages"

  /** The base already ends in version 1, in any case, so the join leaves the version out of the path. */
  predicate EndsInV1(base: string) {
    var n := VersionLength(base);
    n > 0 && StartsWithFolded(VERSIONED_MESSAGES, base[|base| - n..] + "/")
  }

  /** A version is a slash, a `v` and digits. */
  lemma {:induction false} DigitsTrail(s: string, k: nat)
    requires k < TrailingDigits(s)
    ensures '0' <= s[|s| - 1 - k] <= '9'
  {
    if k > 0 {
      DigitsTrail(s[..|s| - 1], k - 1);
    }
  }

  lemma V1IsThreeLong(base: string)
    requires EndsInV1(base)
    ensures VersionLength(base) == 3 && FoldChar(base[|base| - 2]) == 'v' && base[|base| - 1] == '1'
  {
    var n := VersionLength(base);
    var version := base[|base| - n..];
    var d := TrailingDigits(base);
    assert n == d + 2;
    DigitsTrail(base, 0);
    assert FoldChar(VERSIONED_MESSAGES[3]) == FoldChar((version + "/")[3]);
    if n > 3 {
      DigitsTrail(base, d - 2);
    }
    assert FoldChar(VERSIONED_MESSAGES[1]) == FoldChar((version + "/")[1]) == FoldChar(base[|base| - 2]);
    assert FoldChar(VERSIONED_MESSAGES[2]) == FoldChar((version + "/")[2]) == FoldChar(base[|base| - 1]);
  }

  lemma JoinMessages(url: string)
    ensures var (base, suffix) := StripKnownSuffix(url);
            JoinBaseAndPath(url, VERSIONED_MESSAGES) ==
            MessagesFront(base) + MESSAGES + suffix
  {
    var (base, _) := StripKnownSuffix(url);
    assert "/" <= VERSIONED_MESSAGES;
    assert VERSIONED_MESSAGES == "/v1" + MESSAGES;
    JoinedMessages(base, MESSAGES);
  }

  lemma JoinedMessages(base: string, messages: string)
    requires VERSIONED_MESSAGES == "/v1" + messages
    ensures Joined(base, VERSIONED_MESSAGES) == MessagesFront(base) + messages
  {
    if EndsInV1(base) {
      V1IsThreeLong(base);
      assert ("/v1" + messages)[3..] == messages;
    } else {
      assert base + "/v1" + messages == base + ("/v1" + messages);
    }
  }

  lemma StripMessages(front: string)
    ensures StripKnownBase(StripSlashes(front + MESSAGES)) == DropLast(front, VersionLength(front))
  {
    NoTrailingSlash(front, MESSAGES);
    NotFolded(front, MESSAGES, COUNT_TOKENS, 1);
    FoldedSuffix(front, MESSAGES);
  }

  lemma AppendedVersion(base: string)
    ensures VersionLength(base + "/v1") == 3 && DropLast(base + "/v1", 3) == base
  {
    var s := base + "/v1";
    assert s[|s| - 1] == '1' && s[|s| - 2] == 'v' && s[|s| - 3] == '/';
    assert s[..|s| - 1][|s| - 2] == 'v';
    assert TrailingDigits(s[..|s| - 1]) == 0;
    assert TrailingDigits(s) == 1;
  }

  lemma AppendedIsV1(base: string)
    ensures EndsInV1(base + "/v1")
  {
    AppendedVersion(base);
    var s := base + "/v1";
    assert s[|s| - 3..] == "/v1";
    assert "/v1" + "/" <= VERSIONED_MESSAGES;
  }

  lemma StripMessagesUrl(front: string, suffix: string)
    requires Plain(front) && (suffix == "" || suffix[0] == '?' || suffix[0] == '#')
    ensures StripKnownSuffix(front + MESSAGES + suffix) == (DropLast(front, VersionLength(front)), suffix)
  {
    PlainConcat(front, MESSAGES);
    StripUrl(front + MESSAGES, suffix);
    StripMessages(front);
  }

  /** The base the second join sees. */
  function SecondBase(base: string): string {
    if EndsInV1(base) then DropLast(base, VersionLength(base)) else base
  }

  lemma StripFront(base: string, suffix: string)
    requires Plain(base) && (suffix == "" || suffix[0] == '?' || suffix[0] == '#')
    ensures StripKnownSuffix(MessagesFront(base) + MESSAGES + suffix) == (SecondBase(base), suffix)
  {
    if EndsInV1(base) {
      StripMessagesUrl(base, suffix);
    } else {
      AppendedVersion(base);
      PlainConcat(base, "/v1");
      StripMessagesUrl(base + "/v1", suffix);
    }
  }

  lemma StripUndoesMessages(url: string)
    ensures var (base, suffix) := StripKnownSuffix(url);
            StripKnownSuffix(JoinBaseAndPath(url, VERSIONED_MESSAGES)) == (SecondBase(base), suffix)
  {
    var (base, suffix) := StripKnownSuffix(url);
    JoinMessages(url);
    StrippedIsPlain(url);
    StripFront(base, suffix);
  }

  /** What a join makes of a stripped base. */
  function MessagesFront(base: string): string {
    if EndsInV1(base) then base else base + "/v1"
  }

  lemma ReplacedTail(head: string, tail: string)
    requires |tail| == 3
    ensures head + "/v1" == head + tail <==> tail == "/v1"
    ensures head != head + tail
  {
    assert (head + "/v1")[|head|..] == "/v1" && (head + tail)[|head|..] == tail;
    assert |head| < |head + tail|;
  }

  /** The fronts of the first and the second join are the same in these cases only. */
  lemma FrontsAgreeIff(base: string)
    requires EndsInV1(base)
    ensures var head := DropLast(base, VersionLength(base));
            MessagesFront(head) == base <==> EndsWith(base, "/v1") && !EndsInV1(head)
  {
    V1IsThreeLong(base);
    var head, tail := DropLast(base, 3), base[|base| - 3..];
    assert base == head + tail;
    ReplacedTail(head, tail);
  }

  lemma SameFront(front: string, front': string, rest: string)
    ensures front + rest == front' + rest <==> front == front'
  {
    if front + rest == front' + rest {
      assert (front + rest)[..|front|] == front && (front' + rest)[..|front'|] == front';
    }
  }

  lemma TwiceIffOnce(base: string, suffix: string, once: string, twice: string)
    requires once == MessagesFront(base) + MESSAGES + suffix
    requires twice == MessagesFront(SecondBase(base)) + MESSAGES + suffix
    ensures twice == once
            <==> !EndsInV1(base) || (EndsWith(base, "/v1") && !EndsInV1(DropLast(base, VersionLength(base))))
  {
    var front, front', rest := MessagesFront(base), MessagesFront(SecondBase(base)), MESSAGES + suffix;
    SameFront(front', front, rest);
    assert once == front + rest && twice == front' + rest;
    if EndsInV1(base) {
      FrontsAgreeIff(base);
    }
  }

  /**
   The versioned path does not always replace itself: joining twice is joining once if and only if
   the stripped base does not end in version 1, or ends in exactly one lower-case `/v1`.
   */
  lemma MessagesJoinIsIdempotentIff(url: string)
    ensures var once := JoinBaseAndPath(url, VERSIONED_MESSAGES);
            var base := StripKnownSuffix(url).0;
            JoinBaseAndPath(once, VERSIONED_MESSAGES) == once
            <==> !EndsInV1(base) || (EndsWith(base, "/v1") && !EndsInV1(DropLast(base, VersionLength(base))))
  {
    var once := JoinBaseAndPath(url, VERSIONED_MESSAGES);
    var (base, suffix) := StripKnownSuffix(url);
    JoinMessages(url);
    StripUndoesMessages(url);
    JoinMessages(once);
    TwiceIffOnce(base, suffix, once, JoinBaseAndPath(once, VERSIONED_MESSAGES));
  }

  /** A doubled version is such a base, whatever comes before it. */
  lemma DoubledVersionIsNotKept(h: string)
    requires Plain(h)
    ensures var once := JoinBaseAndPath(h + "/v1" + "/v1", VERSIONED_MESSAGES);
            JoinBaseAndPath(once, VERSIONED_MESSAGES) != once
  {
    var inner, url := h + "/v1", h + "/v1" + "/v1";
    assert Plain(url) && url + "" == url;
    DelimiterAfterPlain(url, "");
    assert url[..|url|] == url;
    NoTrailingSlash(inner, "/v1");
    NotFolded(inner, "/v1", COUNT_TOKENS, 0);
    NotFolded(inner, "/v1", MESSAGES, 0);
    NotFolded(inner, "/v1", CHAT, 0);
    NotFolded(inner, "/v1", MODELS, 0);
    assert StripKnownSuffix(url).0 == url;
    AppendedVersion(inner);
    AppendedIsV1(inner);
    AppendedIsV1(h);
    MessagesJoinIsIdempotentIff(url);
  }
}
