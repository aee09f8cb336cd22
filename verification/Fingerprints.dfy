/**
 Reordering of body fields and headers to match a CLI, and the removal of internal
 markers from the body.
 */
module Fingerprints {
  import opened Options
  import opened Seqs
  import opened Records

  // ----- The order of a record -----

  /** Move each listed field that is still there to the result, in list order; then append the rest. */
  function Ordered<V>(r: Record<V>, order: seq<string>): Record<V>
    decreases order
  {
    if order == [] then r
    else
      var found := Get(r, order[0]);
      if found.Some? then [(order[0], found.value)] + Ordered(Delete(r, order[0]), order[1..])
      else Ordered(r, order[1..])
  }

  /** Ordering changes no lookup. */
  lemma {:induction false} OrderedKeepsFields<V>(r: Record<V>, order: seq<string>, key: string)
    ensures Get(Ordered(r, order), key) == Get(r, key)
    decreases order
  {
    if order != [] {
      if Get(r, order[0]).Some? {
        GetDelete(r, order[0], key);
        OrderedKeepsFields(Delete(r, order[0]), order[1..], key);
        var tail := Ordered(Delete(r, order[0]), order[1..]);
        assert ([(order[0], Get(r, order[0]).value)] + tail)[1..] == tail;
      } else {
        OrderedKeepsFields(r, order[1..], key);
      }
    }
  }

  lemma {:induction false} OrderedIsPermutation<V>(r: Record<V>, order: seq<string>)
    requires UniqueKeys(r)
    ensures multiset(Ordered(r, order)) == multiset(r)
    decreases order
  {
    if order != [] {
      if Get(r, order[0]).Some? {
        DeleteUnique(r, order[0]);
        DeleteMultiset(r, order[0]);
        OrderedIsPermutation(Delete(r, order[0]), order[1..]);
      } else {
        OrderedIsPermutation(r, order[1..]);
      }
    }
  }

  lemma {:induction false} OrderedIdempotent<V>(r: Record<V>, order: seq<string>)
    ensures Ordered(Ordered(r, order), order) == Ordered(r, order)
    decreases order
  {
    if order != [] {
      var key := order[0];
      if Get(r, key).Some? {
        var head, tail := [(key, Get(r, key).value)], Ordered(Delete(r, key), order[1..]);
        OrderedIdempotent(Delete(r, key), order[1..]);
        OrderedKeepsFields(Delete(r, key), order[1..], key);
        GetDelete(r, key, key);
        DeleteMissing(tail, key);
        assert (head + tail)[1..] == tail;
        assert Delete(head + tail, key) == tail;
      } else {
        OrderedIdempotent(r, order[1..]);
        OrderedKeepsFields(r, order[1..], key);
      }
    }
  }

  /** The listed fields that are present, in list order. */
  function Listed<V>(r: Record<V>, order: seq<string>): Record<V>
    decreases order
  {
    if order == [] then []
    else
      var found := Get(r, order[0]);
      if found.Some? then [(order[0], found.value)] + Listed(Delete(r, order[0]), order[1..])
      else Listed(r, order[1..])
  }

  /** The first place of `key` in the list. */
  function Rank(order: seq<string>, key: string): nat {
    if order == [] || order[0] == key then 0 else 1 + Rank(order[1..], key)
  }

  function NotListed<V>(order: seq<string>): ((string, V)) -> bool {
    (e: (string, V)) => e.0 !in order
  }

  lemma {:induction false} RestAfterDelete<V>(r: Record<V>, order: seq<string>)
    requires order != []
    ensures Filter(r, NotListed(order)) == Filter(Delete(r, order[0]), NotListed(order[1..]))
  {
    if r != [] {
      RestAfterDelete(r[1..], order);
      var d := Delete(r[1..], order[0]);
      assert ([r[0]] + d)[1..] == d;
    }
  }

  /** The result is the listed fields followed by the others as they were. */
  lemma {:induction false} OrderedIsListedThenRest<V>(r: Record<V>, order: seq<string>)
    ensures Ordered(r, order) == Listed(r, order) + Filter(r, NotListed(order))
    decreases order
  {
    if order == [] {
      FilterAll(r, NotListed(order));
    } else {
      RestAfterDelete(r, order);
      if Get(r, order[0]).Some? {
        OrderedIsListedThenRest(Delete(r, order[0]), order[1..]);
      } else {
        DeleteMissing(r, order[0]);
        OrderedIsListedThenRest(r, order[1..]);
      }
    }
  }

  ghost predicate RisingRanks<V>(l: Record<V>, order: seq<string>) {
    forall i, j | 0 <= i < j < |l| :: Rank(order, l[i].0) < Rank(order, l[j].0)
  }

  lemma RanksShift<V>(tail: Record<V>, head: Record<V>, order: seq<string>)
    requires order != [] && RisingRanks(tail, order[1..])
    requires forall i | 0 <= i < |tail| :: tail[i].0 != order[0]
    requires |head| <= 1 && (|head| == 1 ==> head[0].0 == order[0])
    ensures RisingRanks(head + tail, order)
  {
    var l := head + tail;
    forall i, j | 0 <= i < j < |l| ensures Rank(order, l[i].0) < Rank(order, l[j].0) {
      assert l[j] == tail[j - |head|];
    }
  }

  /** Listed fields are the fields of the record under listed names... */
  lemma {:induction false} ListedMembers<V>(r: Record<V>, order: seq<string>)
    ensures forall e | e in Listed(r, order) :: e.0 in order && Get(r, e.0) == Some(e.1)
    ensures forall key | key in order && Get(r, key).Some? :: (key, Get(r, key).value) in Listed(r, order)
    decreases order
  {
    if order != [] {
      var key := order[0];
      forall other ensures Get(Delete(r, key), other) == if other == key then None else Get(r, other) {
        GetDelete(r, key, other);
      }
      if Get(r, key).None? {
        DeleteMissing(r, key);
      }
      ListedMembers(Delete(r, key), order[1..]);
    }
  }

  /** ... by strictly rising rank. */
  lemma {:induction false} ListedByRank<V>(r: Record<V>, order: seq<string>)
    ensures RisingRanks(Listed(r, order), order)
    decreases order
  {
    if order != [] {
      var key, rest := order[0], Delete(r, order[0]);
      if Get(r, key).None? {
        DeleteMissing(r, key);
      }
      var tail := Listed(rest, order[1..]);
      ListedByRank(rest, order[1..]);
      ListedMembers(rest, order[1..]);
      GetDelete(r, key, key);
      assert forall i | 0 <= i < |tail| :: tail[i] in tail;
      RanksShift(tail, if Get(r, key).Some? then [(key, Get(r, key).value)] else [], order);
      assert [] + tail == tail;
    }
  }

  // ----- Stripping commutes with ordering -----

  function ByKey<V>(keep: string -> bool): ((string, V)) -> bool {
    (e: (string, V)) => keep(e.0)
  }

  lemma {:induction false} GetFilter<V>(r: Record<V>, keep: string -> bool, key: string)
    ensures Get(Filter(r, ByKey(keep)), key) == if keep(key) then Get(r, key) else None
  {
    if r != [] {
      GetFilter(r[1..], keep, key);
      var f := Filter(r[1..], ByKey(keep));
      assert ([r[0]] + f)[1..] == f;
    }
  }

  lemma {:induction false} FilterDelete<V>(r: Record<V>, keep: string -> bool, key: string)
    ensures Filter(Delete(r, key), ByKey(keep)) == Delete(Filter(r, ByKey(keep)), key)
  {
    if r != [] {
      FilterDelete(r[1..], keep, key);
      var f, d := Filter(r[1..], ByKey(keep)), Delete(r[1..], key);
      assert ([r[0]] + f)[1..] == f && ([r[0]] + d)[1..] == d;
    }
  }

  /** Removing fields by name and ordering can be done in either order. */
  lemma {:induction false} StripCommutesWithOrder<V>(r: Record<V>, order: seq<string>, keep: string -> bool)
    ensures Ordered(Filter(r, ByKey(keep)), order) == Filter(Ordered(r, order), ByKey(keep))
    decreases order
  {
    if order != [] {
      var key, f := order[0], Filter(r, ByKey(keep));
      GetFilter(r, keep, key);
      FilterDelete(r, keep, key);
      if Get(f, key).None? {
        DeleteMissing(f, key);
      }
      if Get(r, key).Some? {
        StripCommutesWithOrder(Delete(r, key), order[1..], keep);
        var head, tail := (key, Get(r, key).value), Ordered(Delete(r, key), order[1..]);
        assert ([head] + tail)[1..] == tail;
      } else {
        StripCommutesWithOrder(r, order[1..], keep);
      }
    }
  }

  // ----- Body fields -----

  function Keys<V>(r: Record<V>): seq<string> {
    if r == [] then [] else [r[0].0] + Keys(r[1..])
  }

  /** `Set.prototype.delete` on the ordered set of remaining keys. */
  function WithoutKey(keys: seq<string>, key: string): seq<string> {
    Filter(keys, k => k != key)
  }

  lemma {:induction false} KeysOfDelete<V>(r: Record<V>, key: string)
    ensures Keys(Delete(r, key)) == WithoutKey(Keys(r), key)
  {
    if r != [] {
      KeysOfDelete(r[1..], key);
      var d := Delete(r[1..], key);
      assert ([r[0]] + d)[1..] == d;
      assert Keys(r)[1..] == Keys(r[1..]);
    }
  }

  lemma {:induction false} KeysAt<V>(r: Record<V>)
    ensures |Keys(r)| == |r|
    ensures forall i | 0 <= i < |r| :: Keys(r)[i] == r[i].0
  {
    if r != [] {
      KeysAt(r[1..]);
    }
  }

  /** Every field of `obj` is in one of two parts, under one name each. */
  ghost predicate SplitOf<V>(obj: Record<V>, done: Record<V>, rest: Record<V>) {
    && UniqueKeys(done + rest)
    && (forall key :: Get(obj, key) == if Get(done, key).Some? then Get(done, key) else Get(rest, key))
  }

  lemma SplitMove<V>(obj: Record<V>, done: Record<V>, rest: Record<V>, key: string)
    requires SplitOf(obj, done, rest) && Get(rest, key).Some?
    ensures Get(done, key).None? && Get(obj, key) == Get(rest, key)
    ensures Put(done, key, Get(rest, key).value) == done + [(key, Get(rest, key).value)]
    ensures SplitOf(obj, done + [(key, Get(rest, key).value)], Delete(rest, key))
  {
    var v := Get(rest, key).value;
    var done' := done + [(key, v)];
    GetIsFirst(rest, key);
    GetIsFirst(done, key);
    var k :| 0 <= k < |rest| && rest[k].0 == key;
    assert (done + rest)[|done| + k].0 == key;
    assert forall i | 0 <= i < |done| :: (done + rest)[i] == done[i];
    PutNew(done, key, v);
    MoveUnique(done, rest, key, v);
    forall other
      ensures Get(obj, other) ==
              if Get(done', other).Some? then Get(done', other) else Get(Delete(rest, key), other)
    {
      GetDelete(rest, key, other);
      GetPut(done, key, v, other);
    }
  }

  lemma MoveUnique<V>(done: Record<V>, rest: Record<V>, key: string, v: V)
    requires UniqueKeys(done + rest) && !HasKey(done, key)
    ensures UniqueKeys(done + [(key, v)] + Delete(rest, key))
  {
    var whole := done + rest;
    assert forall i | 0 <= i < |rest| :: rest[i] == whole[|done| + i];
    assert forall i | 0 <= i < |done| :: done[i] == whole[i];
    DeleteUnique(rest, key);
    var d, r := Delete(rest, key), done + [(key, v)] + Delete(rest, key);
    forall i, j | 0 <= i < j < |r| ensures r[i].0 != r[j].0 {
      if j > |done| {
        assert r[j] == d[j - |done| - 1] && r[j] in d && r[j] in rest;
        assert i > |done| ==> r[i] == d[i - |done| - 1];
      }
    }
  }

  /** One turn of the first loop: the field moves when it has not moved before. */
  lemma SplitStep<V>(obj: Record<V>, done: Record<V>, rest: Record<V>, key: string)
    requires SplitOf(obj, done, rest)
    ensures var found := Get(obj, key);
            var done' := if found.Some? then Put(done, key, found.value) else done;
            && SplitOf(obj, done', Delete(rest, key))
            && done' == (if Get(rest, key).Some? then done + [(key, Get(rest, key).value)] else done)
            && Keys(Delete(rest, key)) == (if found.Some? then WithoutKey(Keys(rest), key) else Keys(rest))
  {
    KeysOfDelete(rest, key);
    if Get(rest, key).Some? {
      SplitMove(obj, done, rest, key);
    } else {
      DeleteMissing(rest, key);
      if Get(done, key).Some? {
        PutSame(done, key, Get(done, key).value);
      }
    }
  }

  lemma SplitLookup<V>(obj: Record<V>, done: Record<V>, rest: Record<V>, i: nat)
    requires SplitOf(obj, done, rest) && i < |rest|
    ensures Get(obj, rest[i].0) == Some(rest[i].1)
    ensures !HasKey(done + rest[..i], rest[i].0)
  {
    var whole := done + rest;
    assert forall k | 0 <= k < |rest| :: rest[k] == whole[|done| + k];
    assert forall k | 0 <= k < |done| :: done[k] == whole[k];
    GetUnique(rest, i);
    GetIsFirst(done, rest[i].0);
  }

  /** One listed key: moved to what is done when it is still there. */
  lemma OrderStep<V>(done: Record<V>, rest: Record<V>, order: seq<string>, i: nat)
    requires i < |order|
    ensures var found := Get(rest, order[i]);
            var done' := if found.Some? then done + [(order[i], found.value)] else done;
            done + Ordered(rest, order[i..]) == done' + Ordered(Delete(rest, order[i]), order[i + 1..])
  {
    assert order[i..][1..] == order[i + 1..];
    var found, tail := Get(rest, order[i]), Ordered(Delete(rest, order[i]), order[i + 1..]);
    if found.Some? {
      assert done + ([(order[i], found.value)] + tail) == done + [(order[i], found.value)] + tail;
    } else {
      DeleteMissing(rest, order[i]);
    }
  }

  /** The two loops: listed keys while they are deleted from the set, then what remains. */
  method OrderFields<V>(obj: Record<V>, order: seq<string>) returns (result: Record<V>)
    requires UniqueKeys(obj)
    ensures result == Ordered(obj, order)
  {
    if order == [] {
      return obj;
    }
    result := [];
    var remaining := Keys(obj);
    ghost var rest := obj;
    assert [] + obj == obj;
    for i := 0 to |order|
      invariant SplitOf(obj, result, rest) && remaining == Keys(rest)
      invariant Ordered(obj, order) == result + Ordered(rest, order[i..])
    {
      var key := order[i];
      var found := Get(obj, key);
      OrderStep(result, rest, order, i);
      SplitStep(obj, result, rest, key);
      if found.Some? {
        result := Put(result, key, found.value);
        remaining := WithoutKey(remaining, key);
      }
      rest := Delete(rest, key);
    }
    result := AppendRemaining(obj, result, remaining, rest);
  }

  /** The last loop: the keys left in the set, with their values. */
  method AppendRemaining<V>(obj: Record<V>, start: Record<V>, remaining: seq<string>, ghost rest: Record<V>)
    returns (result: Record<V>)
    requires SplitOf(obj, start, rest) && remaining == Keys(rest)
    ensures result == start + rest
  {
    result := start;
    KeysAt(rest);
    for i := 0 to |remaining|
      invariant result == start + rest[..i]
    {
      SplitLookup(obj, start, rest, i);
      var value := Get(obj, remaining[i]).value;
      PutNew(result, remaining[i], value);
      result := Put(result, remaining[i], value);
    }
  }

  // ----- Headers -----

  /** The case-insensitive lookup: folded name to the field that holds it, last one given. */
  function Collapse(lower: string -> string, bag: Bag): Record<(string, string)> {
    if bag == [] then []
    else
      var last := bag[|bag| - 1];
      Put(Collapse(lower, bag[..|bag| - 1]), lower(last.0), last)
  }

  function Fields(m: Record<(string, string)>): Bag {
    if m == [] then [] else [m[0].1] + Fields(m[1..])
  }

  function Tagged(lower: string -> string, bag: Bag): Record<(string, string)> {
    if bag == [] then [] else [(lower(bag[0].0), bag[0])] + Tagged(lower, bag[1..])
  }

  function FoldAll(lower: string -> string, order: seq<string>): seq<string> {
    if order == [] then [] else [lower(order[0])] + FoldAll(lower, order[1..])
  }

  function OrderedHeaders(lower: string -> string, bag: Bag, order: seq<string>): Bag {
    if order == [] then bag else Fields(Ordered(Collapse(lower, bag), FoldAll(lower, order)))
  }

  /** The last header given under the folded name. */
  function LastNamed(lower: string -> string, bag: Bag, name: string): Option<(string, string)> {
    if bag == [] then None
    else if lower(bag[|bag| - 1].0) == name then Some(bag[|bag| - 1])
    else LastNamed(lower, bag[..|bag| - 1], name)
  }

  /** Folded names are distinct and each belongs to its field. */
  ghost predicate IsLookup(lower: string -> string, m: Record<(string, string)>) {
    UniqueKeys(m) && forall i | 0 <= i < |m| :: m[i].0 == lower(m[i].1.0)
  }

  lemma {:induction false} PutLookup(lower: string -> string, m: Record<(string, string)>, e: (string, string))
    requires IsLookup(lower, m)
    ensures IsLookup(lower, Put(m, lower(e.0), e))
    ensures forall x | x in Put(m, lower(e.0), e) :: x.0 == lower(e.0) || x in m
  {
    if m != [] {
      assert IsLookup(lower, m[1..]);
      PutLookup(lower, m[1..], e);
    }
  }

  lemma {:induction false} CollapseIsLookup(lower: string -> string, bag: Bag)
    ensures IsLookup(lower, Collapse(lower, bag))
  {
    if bag != [] {
      CollapseIsLookup(lower, bag[..|bag| - 1]);
      PutLookup(lower, Collapse(lower, bag[..|bag| - 1]), bag[|bag| - 1]);
    }
  }

  lemma {:induction false} CollapseFindsLast(lower: string -> string, bag: Bag, name: string)
    ensures Get(Collapse(lower, bag), name) == LastNamed(lower, bag, name)
  {
    if bag != [] {
      var init, last := bag[..|bag| - 1], bag[|bag| - 1];
      CollapseFindsLast(lower, init, name);
      GetPut(Collapse(lower, init), lower(last.0), last, name);
    }
  }

  lemma {:induction false} FieldsOfTagged(lower: string -> string, bag: Bag)
    ensures Fields(Tagged(lower, bag)) == bag
    ensures |Tagged(lower, bag)| == |bag|
    ensures forall i | 0 <= i < |bag| :: Tagged(lower, bag)[i] == (lower(bag[i].0), bag[i])
  {
    if bag != [] {
      FieldsOfTagged(lower, bag[1..]);
      assert Tagged(lower, bag)[1..] == Tagged(lower, bag[1..]);
    }
  }

  lemma {:induction false} TaggedOfFields(lower: string -> string, m: Record<(string, string)>)
    requires IsLookup(lower, m)
    ensures Tagged(lower, Fields(m)) == m
    ensures |Fields(m)| == |m| && forall i | 0 <= i < |m| :: Fields(m)[i] == m[i].1
  {
    if m != [] {
      assert IsLookup(lower, m[1..]);
      TaggedOfFields(lower, m[1..]);
      assert Fields(m)[1..] == Fields(m[1..]);
    }
  }

  lemma TaggedAppend(lower: string -> string, init: Bag, last: (string, string))
    ensures Tagged(lower, init + [last]) == Tagged(lower, init) + [(lower(last.0), last)]
  {
    FieldsOfTagged(lower, init);
    FieldsOfTagged(lower, init + [last]);
  }

  /** On case-unique headers the lookup is the headers themselves. */
  lemma {:induction false} CollapseCaseUnique(lower: string -> string, bag: Bag)
    requires CaseUnique(lower, bag)
    ensures Collapse(lower, bag) == Tagged(lower, bag)
  {
    if bag != [] {
      var init, last := bag[..|bag| - 1], bag[|bag| - 1];
      CollapseCaseUnique(lower, init);
      FieldsOfTagged(lower, init);
      forall i | 0 <= i < |init| ensures Tagged(lower, init)[i].0 != lower(last.0) {
        assert init[i] == bag[i];
      }
      PutNew(Tagged(lower, init), lower(last.0), last);
      TaggedAppend(lower, init, last);
      assert bag == init + [last];
    }
  }

  lemma {:induction false} OrderedIsLookup(lower: string -> string, m: Record<(string, string)>, order: seq<string>)
    requires IsLookup(lower, m)
    ensures IsLookup(lower, Ordered(m, order))
    decreases order
  {
    if order != [] {
      var key := order[0];
      if Get(m, key).Some? {
        var rest := Delete(m, key);
        DeleteUnique(m, key);
        assert forall i | 0 <= i < |rest| :: rest[i] in rest;
        OrderedIsLookup(lower, rest, order[1..]);
        GetIsFirst(m, key);
        HeadIsNew(rest, order[1..], key);
      } else {
        OrderedIsLookup(lower, m, order[1..]);
      }
    }
  }

  lemma HeadIsNew<V>(rest: Record<V>, order: seq<string>, key: string)
    requires UniqueKeys(rest) && forall e | e in rest :: e.0 != key
    ensures forall i | 0 <= i < |Ordered(rest, order)| :: Ordered(rest, order)[i].0 != key
  {
    OrderedIsPermutation(rest, order);
    forall i | 0 <= i < |Ordered(rest, order)| ensures Ordered(rest, order)[i].0 != key {
      assert Ordered(rest, order)[i] in multiset(rest);
    }
  }

  lemma LookupIsCaseUnique(lower: string -> string, m: Record<(string, string)>)
    requires IsLookup(lower, m)
    ensures CaseUnique(lower, Fields(m)) && Collapse(lower, Fields(m)) == m
  {
    TaggedOfFields(lower, m);
    CollapseCaseUnique(lower, Fields(m));
  }

  /**
   Reordering keeps, under every folded name, the last header given and no other; the result is
   case-unique if and only if there is an order to apply or the headers already were.
   */
  lemma HeadersKeepLast(lower: string -> string, bag: Bag, order: seq<string>, name: string)
    ensures LastNamed(lower, OrderedHeaders(lower, bag, order), name) == LastNamed(lower, bag, name)
    ensures CaseUnique(lower, OrderedHeaders(lower, bag, order)) <==> order != [] || CaseUnique(lower, bag)
  {
    if order != [] {
      var m := Ordered(Collapse(lower, bag), FoldAll(lower, order));
      CollapseIsLookup(lower, bag);
      OrderedIsLookup(lower, Collapse(lower, bag), FoldAll(lower, order));
      LookupIsCaseUnique(lower, m);
      CollapseFindsLast(lower, Fields(m), name);
      OrderedKeepsFields(Collapse(lower, bag), FoldAll(lower, order), name);
      CollapseFindsLast(lower, bag, name);
    }
  }

  /** The headers whose folded name is not listed. */
  function Unlisted(lower: string -> string, names: seq<string>): ((string, string)) -> bool {
    (e: (string, string)) => lower(e.0) !in names
  }

  /**
   With an order, the result is the headers under listed names, by rising place in the order, and then
   the rest in order of the lookup; on case-unique headers that is the rest as it was.
   */
  lemma HeadersInOrder(lower: string -> string, bag: Bag, order: seq<string>)
    requires order != []
    ensures var c, names := Collapse(lower, bag), FoldAll(lower, order);
            && OrderedHeaders(lower, bag, order) == Fields(Listed(c, names)) + Fields(Filter(c, NotListed(names)))
            && RisingRanks(Listed(c, names), names)
            && (forall e | e in Listed(c, names) :: e.0 in names && LastNamed(lower, bag, e.0) == Some(e.1))
            && (CaseUnique(lower, bag) ==> Fields(Filter(c, NotListed(names))) == Filter(bag, Unlisted(lower, names)))
  {
    var c, names := Collapse(lower, bag), FoldAll(lower, order);
    OrderedIsListedThenRest(c, names);
    FieldsConcat(Listed(c, names), Filter(c, NotListed(names)));
    ListedByRank(c, names);
    ListedMembers(c, names);
    forall e | e in Listed(c, names) ensures LastNamed(lower, bag, e.0) == Some(e.1) {
      CollapseFindsLast(lower, bag, e.0);
    }
    if CaseUnique(lower, bag) {
      CollapseCaseUnique(lower, bag);
      UnlistedFields(lower, bag, names);
    }
  }

  lemma {:induction false} UnlistedFields(lower: string -> string, bag: Bag, names: seq<string>)
    ensures Fields(Filter(Tagged(lower, bag), NotListed(names))) == Filter(bag, Unlisted(lower, names))
  {
    if bag != [] {
      UnlistedFields(lower, bag[1..], names);
      var rest := Filter(Tagged(lower, bag[1..]), NotListed(names));
      assert Tagged(lower, bag)[1..] == Tagged(lower, bag[1..]);
      assert ([(lower(bag[0].0), bag[0])] + rest)[1..] == rest;
    }
  }

  lemma HeadersIdempotent(lower: string -> string, bag: Bag, order: seq<string>)
    ensures OrderedHeaders(lower, OrderedHeaders(lower, bag, order), order) == OrderedHeaders(lower, bag, order)
  {
    if order != [] {
      var c, o := Collapse(lower, bag), FoldAll(lower, order);
      CollapseIsLookup(lower, bag);
      OrderedIsLookup(lower, c, o);
      LookupIsCaseUnique(lower, Ordered(c, o));
      OrderedIdempotent(c, o);
    }
  }

  lemma {:induction false} FieldsConcat(a: Record<(string, string)>, b: Record<(string, string)>)
    ensures Fields(a + b) == Fields(a) + Fields(b)
  {
    if a == [] {
      assert a + b == b;
    } else {
      assert (a + b)[1..] == a[1..] + b;
      FieldsConcat(a[1..], b);
    }
  }

  lemma {:induction false} FieldsMultiset(a: Record<(string, string)>, b: Record<(string, string)>)
    requires multiset(a) == multiset(b)
    ensures multiset(Fields(a)) == multiset(Fields(b))
  {
    if a == [] {
      assert |multiset(b)| == 0;
    } else {
      var init, x := a[..|a| - 1], a[|a| - 1];
      var pre, post := TakeOut(a, b);
      FieldsMultiset(init, pre + post);
      assert a == init + [x];
      FieldsConcat(init, [x]);
      FieldsConcat(pre + [x], post);
      FieldsConcat(pre, [x]);
      FieldsConcat(pre, post);
    }
  }

  lemma HeadersArePermuted(lower: string -> string, bag: Bag, order: seq<string>)
    requires CaseUnique(lower, bag)
    ensures multiset(OrderedHeaders(lower, bag, order)) == multiset(bag)
  {
    if order != [] {
      CollapseIsLookup(lower, bag);
      CollapseCaseUnique(lower, bag);
      FieldsOfTagged(lower, bag);
      OrderedIsPermutation(Collapse(lower, bag), FoldAll(lower, order));
      FieldsMultiset(Ordered(Collapse(lower, bag), FoldAll(lower, order)), Tagged(lower, bag));
    }
  }

  lemma {:induction false} FoldAllAt(lower: string -> string, order: seq<string>)
    ensures |FoldAll(lower, order)| == |order|
    ensures forall i | 0 <= i < |order| :: FoldAll(lower, order)[i] == lower(order[i])
  {
    if order != [] {
      FoldAllAt(lower, order[1..]);
    }
  }

  /** A field that is moved to the result is new there. */
  lemma MoveHeader(lower: string -> string, done: Record<(string, string)>, e: (string, (string, string)))
    requires IsLookup(lower, done + [e])
    ensures Put(Fields(done), e.1.0, e.1.1) == Fields(done + [e])
  {
    assert IsLookup(lower, done) by {
      assert forall i | 0 <= i < |done| :: done[i] == (done + [e])[i];
    }
    TaggedOfFields(lower, done);
    forall i | 0 <= i < |done| ensures Fields(done)[i].0 != e.1.0 {
      assert (done + [e])[i].0 != (done + [e])[|done|].0;
    }
    PutNew(Fields(done), e.1.0, e.1.1);
    FieldsConcat(done, [e]);
    assert [e][1..] == [];
  }

  /** The loops: fold into the lookup, move listed names out of it, then append what is left. */
  method OrderHeaders(lower: string -> string, bag: Bag, order: seq<string>) returns (result: Bag)
    ensures result == OrderedHeaders(lower, bag, order)
  {
    if order == [] {
      return bag;
    }
    var headerMap := BuildLookup(lower, bag);
    ghost var whole, names := headerMap, FoldAll(lower, order);
    ghost var done: Record<(string, string)> := [];
    FoldAllAt(lower, order);
    CollapseIsLookup(lower, bag);
    assert done + whole == whole;
    result := [];
    for i := 0 to |order|
      invariant result == Fields(done) && IsLookup(lower, done + headerMap)
      invariant Ordered(whole, names) == done + Ordered(headerMap, names[i..])
    {
      var found := Get(headerMap, lower(order[i]));
      OrderStep(done, headerMap, names, i);
      if found.None? {
        DeleteMissing(headerMap, lower(order[i]));
      }
      if found.Some? {
        MoveOut(lower, done, headerMap, lower(order[i]));
        result := Put(result, found.value.0, found.value.1);
        done := done + [(lower(order[i]), found.value)];
        headerMap := Delete(headerMap, lower(order[i]));
      }
    }
    assert names[|order|..] == [];
    result := AppendLeft(lower, result, headerMap, done);
  }

  /** The last loop: what was not listed goes to the end, in lookup order. */
  method AppendLeft(
    lower: string -> string, start: Bag, left: Record<(string, string)>, ghost done: Record<(string, string)>)
    returns (result: Bag)
    requires start == Fields(done) && IsLookup(lower, done + left)
    ensures result == Fields(done + left)
  {
    result := start;
    assert done + left[..0] == done;
    for i := 0 to |left|
      invariant result == Fields(done + left[..i])
    {
      assert done + left[..i] + [left[i]] == (done + left)[..|done| + i + 1];
      assert done + left[..i] + [left[i]] == done + left[..i + 1];
      MoveHeader(lower, done + left[..i], left[i]);
      result := Put(result, left[i].1.0, left[i].1.1);
    }
    assert left[..|left|] == left;
  }

  method BuildLookup(lower: string -> string, bag: Bag) returns (headerMap: Record<(string, string)>)
    ensures headerMap == Collapse(lower, bag)
  {
    headerMap := [];
    for i := 0 to |bag|
      invariant headerMap == Collapse(lower, bag[..i])
    {
      assert bag[..i + 1][..i] == bag[..i];
      headerMap := Put(headerMap, lower(bag[i].0), bag[i]);
    }
    assert bag[..|bag|] == bag;
  }

  lemma MoveOut(lower: string -> string, done: Record<(string, string)>, rest: Record<(string, string)>, name: string)
    requires IsLookup(lower, done + rest) && Get(rest, name).Some?
    ensures var e := (name, Get(rest, name).value);
            && IsLookup(lower, done + [e] + Delete(rest, name))
            && Put(Fields(done), e.1.0, e.1.1) == Fields(done + [e])
  {
    var whole, e := done + rest, (name, Get(rest, name).value);
    assert forall i | 0 <= i < |rest| :: rest[i] == whole[|done| + i];
    assert forall i | 0 <= i < |done| :: done[i] == whole[i];
    GetIsFirst(rest, name);
    MoveUnique(done, rest, name, e.1);
    DeleteUnique(rest, name);
    var moved := done + [e] + Delete(rest, name);
    assert e in rest;
    forall i | 0 <= i < |moved| ensures moved[i].0 == lower(moved[i].1.0) {
      assert i > |done| ==> moved[i] in Delete(rest, name);
    }
    assert moved[..|done| + 1] == done + [e];
    MoveHeader(lower, done, e);
  }

  // ----- Internal body markers -----

  const EXECUTOR_MARKERS := [
    "_claudeCodeRequiresLowercaseToolNames",
    "_nativeCodexPassthrough",
    "_nativeXaiResponsesPassthrough",
    "_nativeOpenAICompatibleResponsesPassthrough"
  ]

  const INTERNAL_PREFIX := "_omniroute"

  /** A field that may be sent upstream. */
  predicate MaySend(markers: seq<string>, prefix: string, key: string) {
    key !in markers && !(prefix <= key)
  }

  /** The body without its internal fields. */
  function Stripped<V>(fields: Record<V>, markers: seq<string>, prefix: string): Record<V> {
    Filter(fields, ByKey(key => MaySend(markers, prefix, key)))
  }

  lemma StrippedGets<V>(fields: Record<V>, markers: seq<string>, prefix: string)
    ensures forall key :: Get(Stripped(fields, markers, prefix), key) ==
              if prefix <= key || key in markers then None else Get(fields, key)
  {
    forall key
      ensures Get(Stripped(fields, markers, prefix), key) ==
              if prefix <= key || key in markers then None else Get(fields, key)
    {
      GetFilter(fields, k => MaySend(markers, prefix, k), key);
    }
  }

  lemma {:induction false} FilterOneMore<V>(r: Record<V>, p: string -> bool, q: string -> bool, key: string)
    requires forall k | HasKey(r, k) :: q(k) <==> p(k) && k != key
    ensures Delete(Filter(r, ByKey(p)), key) == Filter(r, ByKey(q))
  {
    if r != [] {
      assert HasKey(r, r[0].0);
      assert forall k | HasKey(r[1..], k) :: HasKey(r, k) by {
        forall k | HasKey(r[1..], k) ensures HasKey(r, k) {
          var i :| 0 <= i < |r[1..]| && r[1..][i].0 == k;
          assert r[i + 1].0 == k;
        }
      }
      FilterOneMore(r[1..], p, q, key);
      var f := Filter(r[1..], ByKey(p));
      assert ([r[0]] + f)[1..] == f;
    }
  }

  class RequestBody<V> {
    var fields: Record<V>

    constructor (initial: Record<V>)
      ensures fields == initial
    {
      fields := initial;
    }

    /** Deletes the listed markers, unless they are kept for the executor, and then every prefixed field. */
    method StripInternal(markers: seq<string>, prefix: string, keepExecutorMarkers: bool)
      modifies this
      ensures fields == Stripped(old(fields), if keepExecutorMarkers then [] else markers, prefix)
      ensures forall key :: Get(fields, key) ==
                if prefix <= key || (!keepExecutorMarkers && key in markers) then None else Get(old(fields), key)
    {
      StrippedGets(fields, if keepExecutorMarkers then [] else markers, prefix);
      ghost var body := fields;
      var gone := if keepExecutorMarkers then [] else markers;
      FilterAll(body, ByKey(key => key !in gone[..0]));
      for i := 0 to |gone|
        invariant fields == Filter(body, ByKey(key => key !in gone[..i]))
      {
        assert gone[..i + 1] == gone[..i] + [gone[i]];
        FilterOneMore(body, key => key !in gone[..i], key => key !in gone[..i + 1], gone[i]);
        fields := Delete(fields, gone[i]);
      }
      assert gone[..|gone|] == gone;
      StripPrefixed(prefix);
      FilterBoth(body, key => key !in gone, key => !(prefix <= key), key => MaySend(gone, prefix, key));
    }

    method StripPrefixed(prefix: string)
      modifies this
      ensures fields == Filter(old(fields), ByKey(key => !(prefix <= key)))
    {
      ghost var body := fields;
      var keys := Keys(fields);
      KeysAt(body);
      FilterAll(body, ByKey(key => !(prefix <= key) || key !in keys[..0]));
      for i := 0 to |keys|
        invariant fields == Filter(body, ByKey(key => !(prefix <= key) || key !in keys[..i]))
      {
        assert keys[..i + 1] == keys[..i] + [keys[i]];
        if prefix <= keys[i] {
          FilterOneMore(
            body, key => !(prefix <= key) || key !in keys[..i],
            key => !(prefix <= key) || key !in keys[..i + 1], keys[i]);
          fields := Delete(fields, keys[i]);
        } else {
          FilterSame(
            body, ByKey(key => !(prefix <= key) || key !in keys[..i]),
            ByKey(key => !(prefix <= key) || key !in keys[..i + 1]));
        }
      }
      forall e | e in body ensures e.0 in keys[..|keys|] {
        var i :| 0 <= i < |body| && body[i] == e;
        assert keys[..|keys|][i] == e.0;
      }
      FilterSame(body, ByKey(key => !(prefix <= key) || key !in keys[..|keys|]), ByKey(key => !(prefix <= key)));
    }
  }

  lemma {:induction false} FilterBoth<V>(r: Record<V>, p: string -> bool, q: string -> bool, both: string -> bool)
    requires forall k :: both(k) <==> p(k) && q(k)
    ensures Filter(Filter(r, ByKey(p)), ByKey(q)) == Filter(r, ByKey(both))
  {
    if r != [] {
      FilterBoth(r[1..], p, q, both);
      assert both(r[0].0) <==> p(r[0].0) && q(r[0].0);
      var f := Filter(r[1..], ByKey(p));
      assert ([r[0]] + f)[1..] == f;
    }
  }

  /** The body sent: stripped, then ordered. */
  function Sent<V>(fields: Record<V>, order: seq<string>): Record<V> {
    Ordered(Stripped(fields, EXECUTOR_MARKERS, INTERNAL_PREFIX), order)
  }

  /** No internal field is ever sent, every other one is, and stripping after ordering would do as well. */
  lemma SentBody<V>(fields: Record<V>, order: seq<string>, key: string)
    ensures Get(Sent(fields, order), key) ==
            if key == "_claudeCodeRequiresLowercaseToolNames" || key == "_nativeCodexPassthrough"
               || key == "_nativeXaiResponsesPassthrough" || key == "_nativeOpenAICompatibleResponsesPassthrough"
               || "_omniroute" <= key
            then None else Get(fields, key)
    ensures Sent(fields, order) == Stripped(Ordered(fields, order), EXECUTOR_MARKERS, INTERNAL_PREFIX)
  {
    var keep := (k: string) => MaySend(EXECUTOR_MARKERS, INTERNAL_PREFIX, k);
    StripCommutesWithOrder(fields, order, keep);
    OrderedKeepsFields(Filter(fields, ByKey(keep)), order, key);
    GetFilter(fields, keep, key);
  }
}
