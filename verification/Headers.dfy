/**
 The outbound header bag and the operations on its `anthropic-beta` list. Field names are
 compared without case (section 5.1 of RFC 9110) through a parameter `lower`.
 */
module Headers {
  import opened Options
  import opened Text
  import opened Seqs
  import opened Records
  import opened Json
  import opened BetaLists

  const BETA_HEADER := "anthropic-beta"

  /** The first field whose name folds to `name`; the length when there is none. */
  function FindVariant(lower: string -> string, bag: Bag, name: string): (i: nat)
    ensures i <= |bag|
    ensures i < |bag| ==> lower(bag[i].0) == name
    ensures forall k | 0 <= k < i :: lower(bag[k].0) != name
  {
    if bag == [] || lower(bag[0].0) == name then 0 else 1 + FindVariant(lower, bag[1..], name)
  }

  function Without(ts: seq<string>, token: string): seq<string> {
    Filter(ts, t => t != token)
  }

  // ----- Append, remove, sync -----

  function Append(lower: string -> string, bag: Bag, name: string, token: string): Bag {
    var i := FindVariant(lower, bag, name);
    if i == |bag| then Put(bag, name, token)
    else if token in Tokens(bag[i].1) then bag
    else bag[i := (bag[i].0, Join(Tokens(bag[i].1) + [token]))]
  }

  function Remove(lower: string -> string, bag: Bag, name: string, token: string): Bag {
    var i := FindVariant(lower, bag, name);
    if i == |bag| then bag
    else
      var left := Without(Tokens(bag[i].1), token);
      if left != [] then bag[i := (bag[i].0, Join(left))] else bag[..i] + bag[i + 1..]
  }

  function Sync(lower: string -> string, bag: Bag, name: string, token: string, wanted: bool): Bag {
    if wanted then Append(lower, bag, name, token) else Remove(lower, bag, name, token)
  }

  function RunSync(lower: string -> string, bag: Bag, name: string, token: string, wanted: seq<bool>): Bag {
    if wanted == [] then bag
    else Sync(lower, RunSync(lower, bag, name, token, wanted[..|wanted| - 1]), name, token, wanted[|wanted| - 1])
  }

  /** The token list the header carries; empty when the header is absent. */
  function TokensOf(lower: string -> string, bag: Bag, name: string): seq<string> {
    var i := FindVariant(lower, bag, name);
    if i < |bag| then Tokens(bag[i].1) else []
  }

  function NotNamed(lower: string -> string, name: string): ((string, string)) -> bool {
    (e: (string, string)) => lower(e.0) != name
  }

  /** All other headers, in order. */
  function Others(lower: string -> string, bag: Bag, name: string): Bag {
    Filter(bag, NotNamed(lower, name))
  }

  /** No variant of the header after the first. */
  predicate AtMostOne(lower: string -> string, bag: Bag, name: string) {
    forall k | FindVariant(lower, bag, name) < k < |bag| :: lower(bag[k].0) != name
  }

  lemma OthersBetween(lower: string -> string, a: Bag, e: (string, string), c: Bag, name: string)
    requires lower(e.0) == name
    requires (forall k | 0 <= k < |a| :: lower(a[k].0) != name) && (forall k | 0 <= k < |c| :: lower(c[k].0) != name)
    ensures Others(lower, a + [e] + c, name) == a + c
  {
    OthersOfParts(lower, a, [e], c, name);
    FilterNone([e], NotNamed(lower, name));
    FilterAll(a, NotNamed(lower, name));
    FilterAll(c, NotNamed(lower, name));
  }

  /** With one variant at most, the bag is the header in the middle of the others. */
  lemma OthersAround(lower: string -> string, bag: Bag, name: string)
    requires AtMostOne(lower, bag, name)
    ensures var i := FindVariant(lower, bag, name);
            Others(lower, bag, name) == if i < |bag| then bag[..i] + bag[i + 1..] else bag
  {
    var i := FindVariant(lower, bag, name);
    if i < |bag| {
      OthersAt(lower, bag, name, i);
    } else {
      FilterAll(bag, NotNamed(lower, name));
    }
  }

  lemma OthersAt(lower: string -> string, bag: Bag, name: string, i: nat)
    requires i < |bag| && lower(bag[i].0) == name
    requires forall k | 0 <= k < |bag| && k != i :: lower(bag[k].0) != name
    ensures Others(lower, bag, name) == bag[..i] + bag[i + 1..]
  {
    assert bag == bag[..i] + [bag[i]] + bag[i + 1..];
    OthersBetween(lower, bag[..i], bag[i], bag[i + 1..], name);
  }

  /** Describes a bag with one variant: the others are around position `i`. */
  lemma VariantAt(lower: string -> string, bag: Bag, name: string, i: nat)
    requires i < |bag| && lower(bag[i].0) == name
    requires forall k | 0 <= k < |bag| && k != i :: lower(bag[k].0) != name
    ensures FindVariant(lower, bag, name) == i && AtMostOne(lower, bag, name)
    ensures Others(lower, bag, name) == bag[..i] + bag[i + 1..]
    ensures TokensOf(lower, bag, name) == Tokens(bag[i].1)
  {
    OthersAt(lower, bag, name, i);
  }

  lemma NoVariant(lower: string -> string, bag: Bag, name: string)
    requires forall k | 0 <= k < |bag| :: lower(bag[k].0) != name
    ensures FindVariant(lower, bag, name) == |bag| && AtMostOne(lower, bag, name)
    ensures Others(lower, bag, name) == bag && TokensOf(lower, bag, name) == []
  {
    OthersAround(lower, bag, name);
  }

  /** Just the header's token list is replaced, by `ts`. */
  predicate Retokened(lower: string -> string, bag: Bag, name: string, ts: seq<string>, bag': Bag) {
    && AtMostOne(lower, bag', name)
    && Others(lower, bag', name) == Others(lower, bag, name)
    && TokensOf(lower, bag', name) == ts
  }

  function Added(ts: seq<string>, token: string): seq<string> {
    if token in ts then ts else ts + [token]
  }

  lemma HeaderCreated(lower: string -> string, bag: Bag, name: string, value: string)
    requires FindVariant(lower, bag, name) == |bag| && lower(name) == name
    ensures Retokened(lower, bag, name, Tokens(value), Put(bag, name, value))
  {
    var bag' := Put(bag, name, value);
    PutNew(bag, name, value);
    NoVariant(lower, bag, name);
    VariantAt(lower, bag', name, |bag|);
    assert bag'[..|bag|] + bag'[|bag| + 1..] == bag;
  }

  lemma HeaderRewritten(lower: string -> string, bag: Bag, name: string, value: string)
    requires AtMostOne(lower, bag, name) && FindVariant(lower, bag, name) < |bag|
    ensures var i := FindVariant(lower, bag, name);
            Retokened(lower, bag, name, Tokens(value), bag[i := (bag[i].0, value)])
  {
    var i := FindVariant(lower, bag, name);
    var bag' := bag[i := (bag[i].0, value)];
    VariantAt(lower, bag, name, i);
    VariantAt(lower, bag', name, i);
    assert bag'[..i] + bag'[i + 1..] == bag[..i] + bag[i + 1..];
  }

  lemma AppendStep(lower: string -> string, bag: Bag, name: string, token: string)
    requires AtMostOne(lower, bag, name) && lower(name) == name && IsToken(token)
    ensures Retokened(
      lower, bag, name, Added(TokensOf(lower, bag, name), token), Append(lower, bag, name, token))
  {
    var i := FindVariant(lower, bag, name);
    if i == |bag| {
      TokensOfToken(token);
      HeaderCreated(lower, bag, name, token);
    } else if token !in Tokens(bag[i].1) {
      ParsingGivesTokens(bag[i].1);
      RoundTrip(Tokens(bag[i].1) + [token]);
      HeaderRewritten(lower, bag, name, Join(Tokens(bag[i].1) + [token]));
    }
  }

  lemma RemoveStep(lower: string -> string, bag: Bag, name: string, token: string)
    requires AtMostOne(lower, bag, name)
    ensures Retokened(
      lower, bag, name, Without(TokensOf(lower, bag, name), token), Remove(lower, bag, name, token))
  {
    var i := FindVariant(lower, bag, name);
    if i < |bag| {
      var left := Without(Tokens(bag[i].1), token);
      ParsingGivesTokens(bag[i].1);
      FilterMembers(Tokens(bag[i].1), t => t != token);
      if left != [] {
        RoundTrip(left);
        HeaderRewritten(lower, bag, name, Join(left));
      } else {
        OthersAround(lower, bag, name);
        NoVariant(lower, bag[..i] + bag[i + 1..], name);
      }
    }
  }

  lemma {:induction false} WithoutTwice(ts: seq<string>, token: string)
    ensures Without(Without(ts, token), token) == Without(ts, token)
    ensures Without(ts + [token], token) == Without(ts, token)
    ensures token !in Without(ts, token)
  {
    FilterMembers(ts, t => t != token);
    FilterAll(Without(ts, token), t => t != token);
    FilterConcat(ts, [token], t => t != token);
  }

  /**
   After any run of syncs the token is present exactly when the last one wanted it; every
   other token keeps its place in the list, and every other header its place in the bag.
   */
  lemma {:induction false} SyncRun(lower: string -> string, bag: Bag, name: string, token: string, wanted: seq<bool>)
    requires AtMostOne(lower, bag, name) && lower(name) == name && IsToken(token)
    ensures var bag' := RunSync(lower, bag, name, token, wanted);
            && AtMostOne(lower, bag', name)
            && Others(lower, bag', name) == Others(lower, bag, name)
            && Without(TokensOf(lower, bag', name), token) == Without(TokensOf(lower, bag, name), token)
            && (wanted != [] ==> (token in TokensOf(lower, bag', name) <==> wanted[|wanted| - 1]))
  {
    if wanted != [] {
      var before := RunSync(lower, bag, name, token, wanted[..|wanted| - 1]);
      SyncRun(lower, bag, name, token, wanted[..|wanted| - 1]);
      WithoutTwice(TokensOf(lower, before, name), token);
      if wanted[|wanted| - 1] {
        AppendStep(lower, before, name, token);
      } else {
        RemoveStep(lower, before, name, token);
      }
    }
  }

  /** Some variant of the header carries the token. */
  predicate Carried(lower: string -> string, bag: Bag, name: string, token: string) {
    exists i | 0 <= i < |bag| :: lower(bag[i].0) == name && token in Tokens(bag[i].1)
  }

  lemma CarriedConcat(lower: string -> string, a: Bag, b: Bag, name: string, token: string)
    ensures Carried(lower, a + b, name, token) <==> Carried(lower, a, name, token) || Carried(lower, b, name, token)
  {
    if Carried(lower, a, name, token) {
      var i :| 0 <= i < |a| && lower(a[i].0) == name && token in Tokens(a[i].1);
      assert (a + b)[i] == a[i];
    }
    if Carried(lower, b, name, token) {
      var i :| 0 <= i < |b| && lower(b[i].0) == name && token in Tokens(b[i].1);
      assert (a + b)[|a| + i] == b[i];
    }
  }

  // ----- Several variants -----

  /** The token lists of all variants, in order. */
  function Lists(lower: string -> string, bag: Bag, name: string): seq<seq<string>> {
    if bag == [] then []
    else (if lower(bag[0].0) == name then [Tokens(bag[0].1)] else []) + Lists(lower, bag[1..], name)
  }

  /** A sync on the lists alone: the first is rewritten, created, or given up when nothing else is in it. */
  function SyncLists(lists: seq<seq<string>>, token: string, wanted: bool): seq<seq<string>> {
    if lists == [] then if wanted then [[token]] else []
    else if wanted then [Added(lists[0], token)] + lists[1..]
    else if Without(lists[0], token) == [] then lists[1..]
    else [Without(lists[0], token)] + lists[1..]
  }

  lemma {:induction false} ListsConcat(lower: string -> string, a: Bag, b: Bag, name: string)
    ensures Lists(lower, a + b, name) == Lists(lower, a, name) + Lists(lower, b, name)
  {
    if a == [] {
      assert a + b == b;
    } else {
      assert (a + b)[1..] == a[1..] + b;
      ListsConcat(lower, a[1..], b, name);
    }
  }

  lemma {:induction false} NoLists(lower: string -> string, bag: Bag, name: string)
    requires forall k | 0 <= k < |bag| :: lower(bag[k].0) != name
    ensures Lists(lower, bag, name) == []
  {
    if bag != [] {
      NoLists(lower, bag[1..], name);
    }
  }

  lemma ListsOfOne(lower: string -> string, e: (string, string), name: string)
    requires lower(e.0) == name
    ensures Lists(lower, [e], name) == [Tokens(e.1)] && Others(lower, [e], name) == []
  {
    assert Lists(lower, [e][1..], name) == [];
    FilterNone([e], NotNamed(lower, name));
  }

  /** Replacing the first variant replaces the first list... */
  lemma ReplaceVariant(lower: string -> string, bag: Bag, name: string, repl: Bag)
    requires FindVariant(lower, bag, name) < |bag|
    ensures var i := FindVariant(lower, bag, name);
            var rest := Lists(lower, bag[i + 1..], name);
            && Lists(lower, bag, name) == [Tokens(bag[i].1)] + rest
            && Lists(lower, bag[..i] + repl + bag[i + 1..], name) == Lists(lower, repl, name) + rest
  {
    var i := FindVariant(lower, bag, name);
    assert bag == bag[..i] + [bag[i]] + bag[i + 1..];
    ListsOfOne(lower, bag[i], name);
    ListsBehind(lower, bag[..i], [bag[i]], bag[i + 1..], name);
    ListsBehind(lower, bag[..i], repl, bag[i + 1..], name);
  }

  lemma ListsBehind(lower: string -> string, a: Bag, b: Bag, c: Bag, name: string)
    requires forall k | 0 <= k < |a| :: lower(a[k].0) != name
    ensures Lists(lower, a + b + c, name) == Lists(lower, b, name) + Lists(lower, c, name)
  {
    var front := a + b;
    NoLists(lower, a, name);
    ListsConcat(lower, a, b, name);
    assert Lists(lower, front, name) == Lists(lower, b, name);
    ListsConcat(lower, front, c, name);
  }

  /** ... and leaves the other headers alone. */
  lemma ReplaceKeepsOthers(lower: string -> string, bag: Bag, name: string, repl: Bag)
    requires FindVariant(lower, bag, name) < |bag| && Others(lower, repl, name) == []
    ensures var i := FindVariant(lower, bag, name);
            Others(lower, bag[..i] + repl + bag[i + 1..], name) == Others(lower, bag, name)
  {
    var i := FindVariant(lower, bag, name);
    assert bag == bag[..i] + [bag[i]] + bag[i + 1..];
    ListsOfOne(lower, bag[i], name);
    OthersOfParts(lower, bag[..i], [bag[i]], bag[i + 1..], name);
    OthersOfParts(lower, bag[..i], repl, bag[i + 1..], name);
  }

  lemma OthersOfParts(lower: string -> string, a: Bag, b: Bag, c: Bag, name: string)
    ensures Others(lower, a + b + c, name) == Others(lower, a, name) + Others(lower, b, name) + Others(lower, c, name)
  {
    FilterConcat(a, b, NotNamed(lower, name));
    FilterConcat(a + b, c, NotNamed(lower, name));
  }

  lemma AppendOnLists(lower: string -> string, bag: Bag, name: string, token: string)
    requires lower(name) == name && IsToken(token)
    ensures var bag' := Append(lower, bag, name, token);
            && Lists(lower, bag', name) == SyncLists(Lists(lower, bag, name), token, true)
            && Others(lower, bag', name) == Others(lower, bag, name)
  {
    var i, bag' := FindVariant(lower, bag, name), Append(lower, bag, name, token);
    if i == |bag| {
      PutNew(bag, name, token);
      ListsOfOne(lower, (name, token), name);
      TokensOfToken(token);
      NoLists(lower, bag, name);
      ListsConcat(lower, bag, [(name, token)], name);
      FilterConcat(bag, [(name, token)], NotNamed(lower, name));
    } else {
      var ts := Tokens(bag[i].1);
      var e := (bag[i].0, if token in ts then bag[i].1 else Join(ts + [token]));
      assert bag' == bag[..i] + [e] + bag[i + 1..];
      ParsingGivesTokens(bag[i].1);
      RoundTrip(ts + [token]);
      ListsOfOne(lower, e, name);
      ReplaceVariant(lower, bag, name, [e]);
      ReplaceKeepsOthers(lower, bag, name, [e]);
    }
  }

  lemma RemoveOnLists(lower: string -> string, bag: Bag, name: string, token: string)
    ensures var bag' := Remove(lower, bag, name, token);
            && Lists(lower, bag', name) == SyncLists(Lists(lower, bag, name), token, false)
            && Others(lower, bag', name) == Others(lower, bag, name)
  {
    var i, bag' := FindVariant(lower, bag, name), Remove(lower, bag, name, token);
    if i == |bag| {
      NoLists(lower, bag, name);
    } else {
      var left := Without(Tokens(bag[i].1), token);
      var e := (bag[i].0, Join(left));
      var repl := if left == [] then [] else [e];
      assert bag' == bag[..i] + repl + bag[i + 1..];
      ParsingGivesTokens(bag[i].1);
      FilterMembers(Tokens(bag[i].1), t => t != token);
      RoundTrip(left);
      ListsOfOne(lower, e, name);
      ReplaceVariant(lower, bag, name, repl);
      ReplaceKeepsOthers(lower, bag, name, repl);
    }
  }

  lemma SyncOnLists(lower: string -> string, bag: Bag, name: string, token: string, wanted: bool)
    requires lower(name) == name && IsToken(token)
    ensures var bag' := Sync(lower, bag, name, token, wanted);
            && Lists(lower, bag', name) == SyncLists(Lists(lower, bag, name), token, wanted)
            && Others(lower, bag', name) == Others(lower, bag, name)
  {
    if wanted {
      AppendOnLists(lower, bag, name, token);
    } else {
      RemoveOnLists(lower, bag, name, token);
    }
  }

  predicate Present(lists: seq<seq<string>>, token: string) {
    exists l | l in lists :: token in l
  }

  lemma {:induction false} CarriedIsListed(lower: string -> string, bag: Bag, name: string, token: string)
    ensures Carried(lower, bag, name, token) <==> Present(Lists(lower, bag, name), token)
  {
    if bag != [] {
      CarriedIsListed(lower, bag[1..], name, token);
      assert bag == [bag[0]] + bag[1..];
      CarriedConcat(lower, [bag[0]], bag[1..], name, token);
    }
  }

  /**
   With several variants only the first is rewritten, so removal is complete
   if and only if no later variant carries the token.
   */
  lemma RemovalIsCompleteIff(lower: string -> string, bag: Bag, name: string, token: string)
    ensures var i := FindVariant(lower, bag, name);
            !Carried(lower, Remove(lower, bag, name, token), name, token)
            <==> i == |bag| || !Carried(lower, bag[i + 1..], name, token)
  {
    var i := FindVariant(lower, bag, name);
    CarriedIsListed(lower, Remove(lower, bag, name, token), name, token);
    if i == |bag| {
      NoLists(lower, bag, name);
    } else {
      LeftAfterRemoval(lower, bag, name, token, bag[i + 1..]);
      CarriedIsListed(lower, bag[i + 1..], name, token);
    }
  }

  lemma LeftAfterRemoval(lower: string -> string, bag: Bag, name: string, token: string, rest: Bag)
    requires FindVariant(lower, bag, name) < |bag| && rest == bag[FindVariant(lower, bag, name) + 1..]
    ensures Present(Lists(lower, Remove(lower, bag, name, token), name), token)
            <==> Present(Lists(lower, rest, name), token)
  {
    RemoveOnLists(lower, bag, name, token);
    ReplaceVariant(lower, bag, name, []);
    RemovedFromFirst(Tokens(bag[FindVariant(lower, bag, name)].1), Lists(lower, rest, name), token);
  }

  lemma RemovedFromFirst(first: seq<string>, rest: seq<seq<string>>, token: string)
    ensures Present(SyncLists([first] + rest, token, false), token) <==> Present(rest, token)
  {
    var r := SyncLists([first] + rest, token, false);
    assert ([first] + rest)[1..] == rest;
    WithoutTwice(first, token);
  }

  /** Two variants with the token: one removal leaves it in the bag, a second one takes it out. */
  lemma SecondVariantKeepsToken(lower: string -> string, a: string, b: string, name: string, token: string)
    requires lower(a) == name && lower(b) == name && IsToken(token)
    ensures var bag := [(a, token), (b, token)];
            var once := Remove(lower, bag, name, token);
            && once == [(b, token)] && Carried(lower, once, name, token)
            && !Carried(lower, Remove(lower, once, name, token), name, token)
  {
    var bag, once := [(a, token), (b, token)], [(b, token)];
    TokensOfToken(token);
    WithoutTwice([], token);
    assert [] + [token] == [token];
    assert bag[..0] + bag[1..] == once;
    assert token in Tokens(once[0].1);
    RemovalIsCompleteIff(lower, once, name, token);
    assert once[1..] == [];
  }

  /** The number of leading lists with nothing but the token in them. */
  function Hollow(lists: seq<seq<string>>, token: string): (h: nat)
    ensures h <= |lists|
    ensures forall k | 0 <= k < h :: Without(lists[k], token) == []
    ensures h < |lists| ==> Without(lists[h], token) != []
  {
    if lists == [] || Without(lists[0], token) != [] then 0 else 1 + Hollow(lists[1..], token)
  }

  function Removals(wanted: seq<bool>): (d: nat)
    ensures d <= |wanted|
  {
    if wanted == [] then 0 else Removals(wanted[..|wanted| - 1]) + if wanted[|wanted| - 1] then 0 else 1
  }

  function Min(a: nat, b: nat): nat {
    if a < b then a else b
  }

  /**
   The lists after a run: every removal gives up one more leading hollow list. The first list left is
   the only one touched; it has the token when the last sync wanted it, is as it was when the last
   one has just given up its predecessor, and has only its other tokens otherwise.
   */
  ghost predicate IsAfter(lists: seq<seq<string>>, token: string, wanted: seq<bool>, r: seq<seq<string>>) {
    var d, h := Removals(wanted), Hollow(lists, token);
    var k, ends := Min(d, h), wanted != [] && wanted[|wanted| - 1];
    if k == |lists| then r == if ends then [[token]] else []
    else
      && r != [] && r[1..] == lists[k + 1..]
      && if ends then token in r[0] && Without(r[0], token) == Without(lists[k], token)
         else r[0] == if d <= h then lists[k] else Without(lists[k], token)
  }

  lemma SyncAfter(lists: seq<seq<string>>, token: string, wanted: seq<bool>, r: seq<seq<string>>, last: bool)
    requires IsAfter(lists, token, wanted, r)
    ensures IsAfter(lists, token, wanted + [last], SyncLists(r, token, last))
  {
    assert (wanted + [last])[..|wanted|] == wanted;
    assert Without([token], token) == [] by {
      assert [token] == [] + [token];
      WithoutTwice([], token);
    }
    if r != [] {
      WithoutTwice(r[0], token);
    }
    if last {
      WantedAfter(lists, token, wanted, r);
    } else {
      RemovedAfter(lists, token, wanted, r);
    }
  }

  lemma WantedAfter(lists: seq<seq<string>>, token: string, wanted: seq<bool>, r: seq<seq<string>>)
    requires IsAfter(lists, token, wanted, r) && (wanted + [true])[..|wanted|] == wanted
    requires r != [] ==> Without(r[0] + [token], token) == Without(r[0], token)
    ensures IsAfter(lists, token, wanted + [true], SyncLists(r, token, true))
  {
    var k := Min(Removals(wanted), Hollow(lists, token));
    assert Removals(wanted + [true]) == Removals(wanted);
    if k < |lists| {
      WithoutTwice(lists[k], token);
    }
  }

  lemma RemovedAfter(lists: seq<seq<string>>, token: string, wanted: seq<bool>, r: seq<seq<string>>)
    requires IsAfter(lists, token, wanted, r) && (wanted + [false])[..|wanted|] == wanted
    requires Without([token], token) == []
    ensures IsAfter(lists, token, wanted + [false], SyncLists(r, token, false))
  {
    var d, h := Removals(wanted), Hollow(lists, token);
    assert Removals(wanted + [false]) == d + 1;
    if d < h {
      assert r[1..] == lists[d + 1..];
      assert Without(r[0], token) == Without(lists[d], token) == [];
      assert d + 1 < |lists| ==> lists[d + 1..][0] == lists[d + 1] && lists[d + 1..][1..] == lists[d + 2..];
    } else if h < |lists| {
      WithoutTwice(lists[h], token);
    }
  }

  /** After any run on any bag, the lists are known and the other headers are untouched. */
  lemma {:induction false} SyncRunOnLists(
    lower: string -> string, bag: Bag, name: string, token: string, wanted: seq<bool>)
    requires lower(name) == name && IsToken(token)
    ensures var bag' := RunSync(lower, bag, name, token, wanted);
            && IsAfter(Lists(lower, bag, name), token, wanted, Lists(lower, bag', name))
            && Others(lower, bag', name) == Others(lower, bag, name)
  {
    RunSyncOnLists(lower, bag, name, token, wanted);
    RunListsAfter(Lists(lower, bag, name), token, wanted);
  }

  /** The run on the lists alone... */
  function RunLists(lists: seq<seq<string>>, token: string, wanted: seq<bool>): seq<seq<string>> {
    if wanted == [] then lists
    else SyncLists(RunLists(lists, token, wanted[..|wanted| - 1]), token, wanted[|wanted| - 1])
  }

  /** ... is the run on the bag seen through its lists... */
  lemma {:induction false} RunSyncOnLists(
    lower: string -> string, bag: Bag, name: string, token: string, wanted: seq<bool>)
    requires lower(name) == name && IsToken(token)
    ensures var bag' := RunSync(lower, bag, name, token, wanted);
            && Lists(lower, bag', name) == RunLists(Lists(lower, bag, name), token, wanted)
            && Others(lower, bag', name) == Others(lower, bag, name)
  {
    if wanted != [] {
      var init, last := wanted[..|wanted| - 1], wanted[|wanted| - 1];
      RunSyncOnLists(lower, bag, name, token, init);
      SyncOnLists(lower, RunSync(lower, bag, name, token, init), name, token, last);
    }
  }

  /** ... and ends where it should. */
  lemma {:induction false} RunListsAfter(lists: seq<seq<string>>, token: string, wanted: seq<bool>)
    ensures IsAfter(lists, token, wanted, RunLists(lists, token, wanted))
  {
    if wanted == [] {
    } else {
      var init, last := wanted[..|wanted| - 1], wanted[|wanted| - 1];
      RunListsAfter(lists, token, init);
      SyncAfter(lists, token, init, RunLists(lists, token, init), last);
      assert wanted == init + [last];
    }
  }

  /** The lists beyond the reach of `removals` removals: those past the hollow ones given up and one more. */
  function Beyond(lists: seq<seq<string>>, token: string, removals: nat): seq<seq<string>> {
    lists[Min(|lists|, Min(removals, Hollow(lists, token) + 1))..]
  }

  /**
   So with any number of variants, after any run the token is in the bag if and only if the last sync
   wanted it, or a variant beyond those the removals could reach had it from the start.
   */
  lemma RunCarriesIff(lower: string -> string, bag: Bag, name: string, token: string, wanted: seq<bool>)
    requires lower(name) == name && IsToken(token) && wanted != []
    ensures Carried(lower, RunSync(lower, bag, name, token, wanted), name, token)
            <==> wanted[|wanted| - 1] || Present(Beyond(Lists(lower, bag, name), token, Removals(wanted)), token)
  {
    var bag' := RunSync(lower, bag, name, token, wanted);
    SyncRunOnLists(lower, bag, name, token, wanted);
    AfterCarriesIff(Lists(lower, bag, name), token, wanted, Lists(lower, bag', name));
    CarriedIsListed(lower, bag', name, token);
  }

  lemma AfterCarriesIff(lists: seq<seq<string>>, token: string, wanted: seq<bool>, r: seq<seq<string>>)
    requires IsAfter(lists, token, wanted, r) && wanted != []
    ensures Present(r, token) <==> wanted[|wanted| - 1] || Present(Beyond(lists, token, Removals(wanted)), token)
  {
    if wanted[|wanted| - 1] {
      assert r != [] && token in r[0];
    } else {
      AfterRemoval(lists, token, wanted, r);
    }
  }

  lemma AfterRemoval(lists: seq<seq<string>>, token: string, wanted: seq<bool>, r: seq<seq<string>>)
    requires IsAfter(lists, token, wanted, r) && wanted != [] && !wanted[|wanted| - 1]
    ensures var beyond := Beyond(lists, token, Removals(wanted));
            r == beyond || (r != [] && r[1..] == beyond && token !in r[0])
  {
    var d, h := Removals(wanted), Hollow(lists, token);
    var beyond := Beyond(lists, token, d);
    if d <= h {
      assert beyond == lists[d..];
      if d < |lists| {
        HeadAndRest(lists, d, r);
      }
    } else if h < |lists| {
      assert beyond == lists[h + 1..];
      WithoutTwice(lists[h], token);
    } else {
      assert beyond == [];
    }
  }

  lemma HeadAndRest(lists: seq<seq<string>>, d: nat, r: seq<seq<string>>)
    requires d < |lists| && r != [] && r[0] == lists[d] && r[1..] == lists[d + 1..]
    ensures r == lists[d..]
  {
    assert r == [r[0]] + r[1..];
  }

  // ----- Keeping the skills token in step with the request body -----

  /** One call: the provider, the finalized body, and the caller's own condition. */
  datatype SyncCall = SyncCall(provider: Option<string>, body: Option<Json>, extra: bool)

  predicate AnthropicFamily(wire: string -> bool, call: SyncCall) {
    var p := if call.provider.Some? then call.provider.value else "";
    p == "anthropic" || p == "claude" || "anthropic-compatible-" <= p || wire(p) || call.extra
  }

  /** By name, by prefix, by wire image, or because the caller says so; no provider counts as an empty name. */
  lemma FamilyIff(wire: string -> bool, call: SyncCall)
    ensures AnthropicFamily(wire, call) <==>
            || call.provider == Some("anthropic") || call.provider == Some("claude")
            || (exists rest :: call.provider == Some("anthropic-compatible-" + rest))
            || (call.provider.Some? && wire(call.provider.value))
            || (call.provider.None? && wire(""))
            || call.extra
  {
    if call.provider.Some? && "anthropic-compatible-" <= call.provider.value {
      assert call.provider.value == "anthropic-compatible-" + call.provider.value[21..];
    }
  }

  predicate WantsSkills(parse: string -> Option<Json>, call: SyncCall) {
    call.body.Some? && HasCodeExecutionTool(parse, call.body.value)
  }

  function SyncSkillsStep(
    lower: string -> string, wire: string -> bool, parse: string -> Option<Json>, bag: Bag, call: SyncCall): Bag
  {
    if AnthropicFamily(wire, call) then Sync(lower, bag, BETA_HEADER, SKILLS_BETA, WantsSkills(parse, call)) else bag
  }

  function RunSkills(
    lower: string -> string, wire: string -> bool, parse: string -> Option<Json>, bag: Bag, calls: seq<SyncCall>): Bag
  {
    if calls == [] then bag
    else
      SyncSkillsStep(
        lower, wire, parse, RunSkills(lower, wire, parse, bag, calls[..|calls| - 1]), calls[|calls| - 1])
  }

  /** What the calls for the Anthropic family wanted, in order. */
  function Wanted(wire: string -> bool, parse: string -> Option<Json>, calls: seq<SyncCall>): seq<bool> {
    if calls == [] then []
    else
      var init, last := Wanted(wire, parse, calls[..|calls| - 1]), calls[|calls| - 1];
      if AnthropicFamily(wire, last) then init + [WantsSkills(parse, last)] else init
  }

  lemma {:induction false} SkillsRunIsSyncRun(
    lower: string -> string, wire: string -> bool, parse: string -> Option<Json>, bag: Bag, calls: seq<SyncCall>)
    ensures RunSkills(lower, wire, parse, bag, calls) ==
            RunSync(lower, bag, BETA_HEADER, SKILLS_BETA, Wanted(wire, parse, calls))
  {
    if calls != [] {
      var init, last := calls[..|calls| - 1], calls[|calls| - 1];
      SkillsRunIsSyncRun(lower, wire, parse, bag, init);
      var w := Wanted(wire, parse, init);
      assert (w + [WantsSkills(parse, last)])[..|w|] == w;
    }
  }

  lemma SkillsIsToken()
    ensures IsToken(SKILLS_BETA)
  {
    var s := SKILLS_BETA;
    assert |s| == 17 && s[0] == 's' && s[16] == '2';
  }

  /**
   After any sequence of syncs the skills token is present exactly when the last body sent to
   an Anthropic-family provider had a code execution tool; nothing else moves.
   */
  lemma SkillsFollowLastBody(
    lower: string -> string, wire: string -> bool, parse: string -> Option<Json>, bag: Bag, calls: seq<SyncCall>)
    requires AtMostOne(lower, bag, BETA_HEADER) && lower(BETA_HEADER) == BETA_HEADER
    ensures var bag' := RunSkills(lower, wire, parse, bag, calls);
            var wanted := Wanted(wire, parse, calls);
            && AtMostOne(lower, bag', BETA_HEADER)
            && Others(lower, bag', BETA_HEADER) == Others(lower, bag, BETA_HEADER)
            && Without(TokensOf(lower, bag', BETA_HEADER), SKILLS_BETA) ==
               Without(TokensOf(lower, bag, BETA_HEADER), SKILLS_BETA)
            && (wanted != [] ==> (SKILLS_BETA in TokensOf(lower, bag', BETA_HEADER) <==> wanted[|wanted| - 1]))
  {
    SkillsIsToken();
    SkillsRunIsSyncRun(lower, wire, parse, bag, calls);
    SyncRun(lower, bag, BETA_HEADER, SKILLS_BETA, Wanted(wire, parse, calls));
  }

  // ----- Merging the client's list into the header -----

  function ApplyClient(
    lower: string -> string, bag: Bag, name: string, client: Option<string>, allow: set<string>, seed: bool): Bag
  {
    var i := FindVariant(lower, bag, name);
    if client.None? || Trim(client.value) == "" || (i == |bag| && !seed) then bag
    else
      var merged := MergeText(lower, if i < |bag| then bag[i].1 else "", client.value, allow);
      if merged == "" then bag
      else if i < |bag| then bag[i := (bag[i].0, merged)]
      else Put(bag, name, merged)
  }

  /** The header's tokens become the merge, when there is a header or one may be seeded; nothing else changes. */
  lemma ApplyClientStep(
    lower: string -> string, bag: Bag, name: string, client: Option<string>, allow: set<string>, seed: bool)
    requires AtMostOne(lower, bag, name) && lower(name) == name
    ensures Retokened(
      lower, bag, name,
      if client.None? || (FindVariant(lower, bag, name) == |bag| && !seed) then TokensOf(lower, bag, name)
      else Merged(lower, TokensOf(lower, bag, name), Tokens(client.value), allow),
      ApplyClient(lower, bag, name, client, allow, seed))
  {
    var i := FindVariant(lower, bag, name);
    if client.Some? && (i < |bag| || seed) {
      var base := if i < |bag| then bag[i].1 else "";
      assert Tokens("") == [] by { BlankHasNoTokens(""); }
      if Trim(client.value) == "" {
        BlankHasNoTokens(client.value);
      } else {
        var merged := MergeText(lower, base, client.value, allow);
        MergeTextTokens(lower, base, client.value, allow);
        MergedIsMerge(lower, Tokens(base), Tokens(client.value), allow);
        if merged != "" && i < |bag| {
          HeaderRewritten(lower, bag, name, merged);
        } else if merged != "" {
          HeaderCreated(lower, bag, name, merged);
        }
      }
    }
  }

  // ----- Merging a Claude Code header set over the bag -----

  function FoldedNames(lower: string -> string, bag: Bag): set<string> {
    set e | e in bag :: lower(e.0)
  }

  function NotIn(lower: string -> string, names: set<string>): ((string, string)) -> bool {
    (e: (string, string)) => lower(e.0) !in names
  }

  /** The headers no case variant of which is in `cc`, then `cc`. */
  function MergedCc(lower: string -> string, bag: Bag, cc: Bag): Bag {
    Filter(bag, NotIn(lower, FoldedNames(lower, cc))) + cc
  }

  lemma {:induction false} FilterCaseUnique(lower: string -> string, bag: Bag, keep: ((string, string)) -> bool)
    requires CaseUnique(lower, bag)
    ensures CaseUnique(lower, Filter(bag, keep))
  {
    if bag != [] {
      var rest := Filter(bag[1..], keep);
      FilterCaseUnique(lower, bag[1..], keep);
      FilterMembers(bag[1..], keep);
      forall j | 0 <= j < |rest| ensures lower(rest[j].0) != lower(bag[0].0) {
        assert rest[j] in bag[1..];
      }
    }
  }

  /** The merge keeps case-uniqueness, holds exactly `cc` under its names, and leaves the rest alone. */
  lemma CcMergeIsClean(lower: string -> string, bag: Bag, cc: Bag)
    requires CaseUnique(lower, bag) && CaseUnique(lower, cc)
    ensures var r, names := MergedCc(lower, bag, cc), FoldedNames(lower, cc);
            && CaseUnique(lower, r)
            && Filter(r, NotIn(lower, names)) == Filter(bag, NotIn(lower, names))
            && (forall e | e in r && lower(e.0) in names :: e in cc)
            && (forall e | e in cc :: e in r)
  {
    var names := FoldedNames(lower, cc);
    var kept, r := Filter(bag, NotIn(lower, names)), MergedCc(lower, bag, cc);
    FilterCaseUnique(lower, bag, NotIn(lower, names));
    FilterMembers(bag, NotIn(lower, names));
    forall i, j | 0 <= i < j < |r| ensures lower(r[i].0) != lower(r[j].0) {
      assert j >= |kept| ==> r[j] in cc;
      assert i < |kept| ==> r[i] in kept;
    }
    FilterConcat(kept, cc, NotIn(lower, names));
    FilterAll(kept, NotIn(lower, names));
    FilterNone(cc, NotIn(lower, names));
  }

  lemma {:induction false} FilterNone(bag: Bag, keep: ((string, string)) -> bool)
    requires forall e | e in bag :: !keep(e)
    ensures Filter(bag, keep) == []
  {
    if bag != [] {
      FilterNone(bag[1..], keep);
    }
  }

  // ----- The bag, updated in place -----

  class HeaderBag {
    var entries: Bag

    ghost predicate Valid()
      reads this
    {
      UniqueKeys(entries)
    }

    constructor (initial: Bag)
      requires UniqueKeys(initial)
      ensures Valid() && entries == initial
    {
      entries := initial;
    }

    method AppendBeta(lower: string -> string, name: string, token: string)
      requires Valid()
      modifies this
      ensures Valid() && entries == Append(lower, old(entries), name, token)
      ensures AtMostOne(lower, old(entries), name) && lower(name) == name && IsToken(token) ==>
                Retokened(lower, old(entries), name, Added(TokensOf(lower, old(entries), name), token), entries)
    {
      if AtMostOne(lower, entries, name) && lower(name) == name && IsToken(token) {
        AppendStep(lower, entries, name, token);
      }
      var i := FindVariant(lower, entries, name);
      if i == |entries| {
        PutKeepsUnique(entries, name, token);
        entries := Put(entries, name, token);
        return;
      }
      var values := Tokens(entries[i].1);
      if token !in values {
        entries := entries[i := (entries[i].0, Join(values + [token]))];
      }
    }

    method RemoveBeta(lower: string -> string, name: string, token: string)
      requires Valid()
      modifies this
      ensures Valid() && entries == Remove(lower, old(entries), name, token)
      ensures AtMostOne(lower, old(entries), name) ==>
                Retokened(lower, old(entries), name, Without(TokensOf(lower, old(entries), name), token), entries)
    {
      if AtMostOne(lower, entries, name) {
        RemoveStep(lower, entries, name, token);
      }
      var i := FindVariant(lower, entries, name);
      if i == |entries| {
        return;
      }
      var left := Without(Tokens(entries[i].1), token);
      if left != [] {
        entries := entries[i := (entries[i].0, Join(left))];
      } else {
        DeleteAt(entries, i);
        entries := Delete(entries, entries[i].0);
      }
    }

    /** Absent headers are merged into only when `seed` is set, and never to an empty list. */
    method ApplyClientBeta(lower: string -> string, client: Option<string>, allow: seq<string>, gate: Gate, seed: bool)
      requires Valid()
      modifies this
      ensures Valid()
      ensures entries == ApplyClient(lower, old(entries), BETA_HEADER, client, AllowSet(lower, allow, gate), seed)
      ensures AtMostOne(lower, old(entries), BETA_HEADER) && lower(BETA_HEADER) == BETA_HEADER ==>
                var ts := TokensOf(lower, old(entries), BETA_HEADER);
                var kept := client.None? || (FindVariant(lower, old(entries), BETA_HEADER) == |old(entries)| && !seed);
                Retokened(lower, old(entries), BETA_HEADER,
                          if kept then ts else Merged(lower, ts, Tokens(client.value), AllowSet(lower, allow, gate)),
                          entries)
    {
      if AtMostOne(lower, entries, BETA_HEADER) && lower(BETA_HEADER) == BETA_HEADER {
        ApplyClientStep(lower, entries, BETA_HEADER, client, AllowSet(lower, allow, gate), seed);
      }
      if client.None? || Trim(client.value) == "" {
        return;
      }
      var i := FindVariant(lower, entries, BETA_HEADER);
      if i == |entries| && !seed {
        return;
      }
      var merged := MergeClientBeta(lower, if i < |entries| then entries[i].1 else "", client, allow, gate);
      if merged == "" {
        return;
      }
      if i < |entries| {
        entries := entries[i := (entries[i].0, merged)];
      } else {
        PutKeepsUnique(entries, BETA_HEADER, merged);
        entries := Put(entries, BETA_HEADER, merged);
      }
    }

    method SyncSkills(lower: string -> string, wire: string -> bool, parse: string -> Option<Json>, call: SyncCall)
      requires Valid()
      modifies this
      ensures Valid() && entries == SyncSkillsStep(lower, wire, parse, old(entries), call)
      ensures AtMostOne(lower, old(entries), BETA_HEADER) && lower(BETA_HEADER) == BETA_HEADER ==>
                var ts := TokensOf(lower, old(entries), BETA_HEADER);
                Retokened(lower, old(entries), BETA_HEADER,
                          if !AnthropicFamily(wire, call) then ts
                          else if WantsSkills(parse, call) then Added(ts, SKILLS_BETA)
                          else Without(ts, SKILLS_BETA),
                          entries)
    {
      SkillsIsToken();
      if !AnthropicFamily(wire, call) {
        return;
      }
      if WantsSkills(parse, call) {
        AppendBeta(lower, BETA_HEADER, SKILLS_BETA);
      } else {
        RemoveBeta(lower, BETA_HEADER, SKILLS_BETA);
      }
    }

    /** Deletes every field whose name folds into `names`. */
    method DropVariants(lower: string -> string, names: set<string>)
      requires Valid()
      modifies this
      ensures Valid() && entries == Filter(old(entries), NotIn(lower, names))
    {
      var bag, keep := entries, NotIn(lower, names);
      for i := 0 to |bag|
        invariant entries == PartlyFiltered(bag, i, keep)
      {
        FilterOnePlace(bag, i, keep);
        if lower(bag[i].0) in names {
          entries := Delete(entries, bag[i].0);
        }
      }
      assert bag[..|bag|] == bag;
      FilterUnique(bag, keep);
    }

    /** `Object.assign` of a record none of whose names is in the bag. */
    method AssignNew(cc: Bag)
      requires UniqueKeys(entries + cc)
      modifies this
      ensures entries == old(entries) + cc
    {
      ghost var whole := entries + cc;
      for i := 0 to |cc|
        invariant entries == old(entries) + cc[..i]
      {
        ghost var n := |old(entries)| + i;
        assert entries == whole[..n] && cc[i] == whole[n];
        PutNew(entries, cc[i].0, cc[i].1);
        entries := Put(entries, cc[i].0, cc[i].1);
      }
    }

    /** Drops every case variant of a name in `cc`, then assigns `cc`. */
    method MergeCc(lower: string -> string, cc: Bag)
      requires Valid() && UniqueKeys(cc)
      modifies this
      ensures Valid() && entries == MergedCc(lower, old(entries), cc)
      ensures CaseUnique(lower, old(entries)) && CaseUnique(lower, cc) ==> CaseUnique(lower, entries)
    {
      if CaseUnique(lower, entries) && CaseUnique(lower, cc) {
        CcMergeIsClean(lower, entries, cc);
      }
      KeptThenNewUnique(lower, entries, NotIn(lower, FoldedNames(lower, cc)), cc);
      DropVariants(lower, FoldedNames(lower, cc));
      AssignNew(cc);
    }
  }

  lemma {:induction false} PutKeepsUnique(bag: Bag, name: string, value: string)
    requires UniqueKeys(bag)
    ensures UniqueKeys(Put(bag, name, value))
    ensures forall e | e in Put(bag, name, value) :: e.0 == name || e in bag
  {
    if bag != [] {
      PutKeepsUnique(bag[1..], name, value);
    }
  }

  lemma FilterUnique(bag: Bag, keep: ((string, string)) -> bool)
    requires UniqueKeys(bag)
    ensures UniqueKeys(Filter(bag, keep))
  {
    FilterCaseUnique(s => s, bag, keep);
  }

  /** The bag after the loop has looked at its first `i` fields. */
  function PartlyFiltered(bag: Bag, i: nat, keep: ((string, string)) -> bool): Bag
    requires i <= |bag|
  {
    Filter(bag[..i], keep) + bag[i..]
  }

  lemma PartlyFilteredUnique(bag: Bag, i: nat, keep: ((string, string)) -> bool)
    requires UniqueKeys(bag) && i <= |bag|
    ensures UniqueKeys(PartlyFiltered(bag, i, keep))
  {
    var kept, entries := Filter(bag[..i], keep), PartlyFiltered(bag, i, keep);
    FilterMembers(bag[..i], keep);
    FilterUnique(bag[..i], keep);
    forall a, b | 0 <= a < b < |entries| ensures entries[a].0 != entries[b].0 {
      assert a < |kept| ==> kept[a] in bag[..i];
    }
  }

  /** Deleting the current key of the loop removes just that field. */
  lemma FilterOnePlace(bag: Bag, i: nat, keep: ((string, string)) -> bool)
    requires UniqueKeys(bag) && i < |bag|
    ensures PartlyFiltered(bag, i + 1, keep) ==
            if keep(bag[i]) then PartlyFiltered(bag, i, keep) else Delete(PartlyFiltered(bag, i, keep), bag[i].0)
  {
    var kept, entries := Filter(bag[..i], keep), PartlyFiltered(bag, i, keep);
    FilterStep(bag, i, keep);
    assert bag[i..] == [bag[i]] + bag[i + 1..];
    if !keep(bag[i]) {
      PartlyFilteredUnique(bag, i, keep);
      DeleteAt(entries, |kept|);
      assert entries[..|kept|] == kept && entries[|kept| + 1..] == bag[i + 1..];
    }
  }

  lemma KeptThenNewUnique(lower: string -> string, bag: Bag, keep: ((string, string)) -> bool, cc: Bag)
    requires UniqueKeys(bag) && UniqueKeys(cc) && keep == NotIn(lower, FoldedNames(lower, cc))
    ensures UniqueKeys(Filter(bag, keep) + cc)
  {
    var kept := Filter(bag, keep);
    FilterMembers(bag, keep);
    FilterUnique(bag, keep);
    var r := kept + cc;
    forall a, b | 0 <= a < b < |r| ensures r[a].0 != r[b].0 {
      assert a < |kept| ==> r[a] in kept;
      assert b >= |kept| ==> r[b] in cc;
    }
  }
}
