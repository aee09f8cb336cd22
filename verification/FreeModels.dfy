/**
 The free-tier totals. A shared pool counts once, at the largest allowance of its rows;
 a row without a pool counts on its own.
 */
module FreeModels {
  import opened Options
  import opened Seqs

  datatype FreeType =
    | RecurringDaily | RecurringMonthly | RecurringCredit | RecurringUncapped
    | OneTimeInitial | Keyless | Discontinued

  datatype Bucket = SteadyMonthly | RefillingCredit | OneTimeCredit | Uncapped | Nothing

  /** The figure each regime feeds. */
  function BucketOf(t: FreeType): Bucket {
    match t
    case RecurringDaily => SteadyMonthly
    case RecurringMonthly => SteadyMonthly
    case RecurringCredit => RefillingCredit
    case RecurringUncapped => Uncapped
    case OneTimeInitial => OneTimeCredit
    case Keyless => SteadyMonthly
    case Discontinued => Nothing
  }

  datatype Row = Row(
    provider: string, modelId: string, monthlyTokens: int, creditTokens: int, freeType: FreeType,
    poolKey: Option<string>, tosAvoid: bool, gated: bool, enabled: Option<bool>)
  {
    /** An empty pool key is no pool. */
    predicate Pooled() {
      poolKey.Some? && poolKey.value != ""
    }

    predicate InPool(p: string) {
      Pooled() && poolKey.value == p
    }
  }

  /** A summed field together with the rows it is summed over. */
  datatype Selection = Selection(pick: Row -> int, covers: Row -> bool) {
    predicate Counts(m: Row, p: string) {
      covers(m) && m.InPool(p)
    }
  }

  // ----- Pool maximum, loose sum, and their total -----

  function Max(a: int, b: int): int {
    if a < b then b else a
  }

  /** The largest allowance among the counted rows of pool `p`, at least 0. */
  function PoolMax(rows: seq<Row>, sel: Selection, p: string): int {
    if rows == [] then 0
    else
      var last, rest := rows[|rows| - 1], PoolMax(rows[..|rows| - 1], sel, p);
      if sel.Counts(last, p) then Max(rest, sel.pick(last)) else rest
  }

  function LooseValue(m: Row, sel: Selection): int {
    if sel.covers(m) && !m.Pooled() then sel.pick(m) else 0
  }

  function LooseSum(rows: seq<Row>, sel: Selection): int {
    if rows == [] then 0
    else LooseSum(rows[..|rows| - 1], sel) + LooseValue(rows[|rows| - 1], sel)
  }

  function Pools(rows: seq<Row>, sel: Selection): set<string> {
    set m | m in rows && sel.covers(m) && m.Pooled() :: m.poolKey.value
  }

  ghost function SumOver(s: set<string>, f: string -> int): int {
    if s == {} then 0
    else
      var x :| x in s;
      f(x) + SumOver(s - {x}, f)
  }

  /** Each pool once, at its maximum, plus the rows without a pool. */
  ghost function Deduped(rows: seq<Row>, sel: Selection): int {
    LooseSum(rows, sel) + SumOver(Pools(rows, sel), p => PoolMax(rows, sel, p))
  }

  // ----- Sums over finite sets -----

  lemma {:induction false} SumRemove(s: set<string>, f: string -> int, x: string)
    requires x in s
    ensures SumOver(s, f) == f(x) + SumOver(s - {x}, f)
  {
    var y :| y in s && SumOver(s, f) == f(y) + SumOver(s - {y}, f);
    if y != x {
      SumRemove(s - {y}, f, x);
      SumRemove(s - {x}, f, y);
      assert s - {y} - {x} == s - {x} - {y};
    }
  }

  /** A larger set of non-negative, pointwise larger values has the larger sum. */
  lemma {:induction false} SumMonotone(s: set<string>, t: set<string>, f: string -> int, g: string -> int)
    requires s <= t
    requires forall x | x in s :: f(x) <= g(x)
    requires forall x | x in t - s :: 0 <= g(x)
    ensures SumOver(s, f) <= SumOver(t, g)
  {
    if t != {} {
      var x :| x in t;
      SumRemove(t, g, x);
      if x in s {
        SumRemove(s, f, x);
      }
      SumMonotone(s - {x}, t - {x}, f, g);
      assert x !in s ==> s - {x} == s;
    }
  }

  /** Adding zeros or swapping in equal values changes nothing. */
  lemma {:induction false} SumExtend(s: set<string>, t: set<string>, f: string -> int, g: string -> int)
    requires s <= t
    requires forall x | x in s :: f(x) == g(x)
    requires forall x | x in t - s :: g(x) == 0
    ensures SumOver(s, f) == SumOver(t, g)
  {
    if t != {} {
      var x :| x in t;
      SumRemove(t, g, x);
      if x in s {
        SumRemove(s, f, x);
      }
      SumExtend(s - {x}, t - {x}, f, g);
      assert x !in s ==> s - {x} == s;
    }
  }

  lemma {:induction false} SumAdded(s: set<string>, f: string -> int, g: string -> int)
    ensures SumOver(s, x => f(x) + g(x)) == SumOver(s, f) + SumOver(s, g)
  {
    if s != {} {
      var x :| x in s;
      SumRemove(s, f, x);
      SumRemove(s, g, x);
      SumRemove(s, x => f(x) + g(x), x);
      SumAdded(s - {x}, f, g);
    }
  }

  lemma {:induction false} SumZero(s: set<string>, f: string -> int)
    requires forall x | x in s :: 0 <= f(x)
    ensures 0 <= SumOver(s, f)
    ensures SumOver(s, f) == 0 <==> forall x | x in s :: f(x) == 0
  {
    if s != {} {
      var x :| x in s;
      SumRemove(s, f, x);
      SumZero(s - {x}, f);
      assert forall y | y in s :: y == x || y in s - {x};
    }
  }

  // ----- Pool maxima and loose sums -----

  /** The pool maximum is never negative, bounds every counted row, and is attained when positive. */
  lemma {:induction false} PoolMaxIsMax(rows: seq<Row>, sel: Selection, p: string)
    ensures 0 <= PoolMax(rows, sel, p)
    ensures forall m | m in rows && sel.Counts(m, p) :: sel.pick(m) <= PoolMax(rows, sel, p)
    ensures PoolMax(rows, sel, p) > 0 ==>
              exists m | m in rows :: sel.Counts(m, p) && sel.pick(m) == PoolMax(rows, sel, p)
  {
    if rows != [] {
      var init, last := rows[..|rows| - 1], rows[|rows| - 1];
      PoolMaxIsMax(init, sel, p);
      assert rows == init + [last];
    }
  }

  lemma PoolMaxSubset(a: seq<Row>, b: seq<Row>, sel: Selection, p: string)
    requires forall m | m in a :: m in b
    ensures PoolMax(a, sel, p) <= PoolMax(b, sel, p)
  {
    PoolMaxIsMax(a, sel, p);
    PoolMaxIsMax(b, sel, p);
  }

  lemma PoolMaxOutside(rows: seq<Row>, sel: Selection, p: string)
    requires p !in Pools(rows, sel)
    ensures PoolMax(rows, sel, p) == 0
  {
    PoolMaxIsMax(rows, sel, p);
    assert forall m | m in rows && sel.Counts(m, p) :: m.poolKey.value in Pools(rows, sel);
  }

  lemma {:induction false} PoolMaxConcat(a: seq<Row>, b: seq<Row>, sel: Selection, p: string)
    ensures PoolMax(a + b, sel, p) == Max(PoolMax(a, sel, p), PoolMax(b, sel, p))
  {
    PoolMaxIsMax(a, sel, p);
    if b == [] {
      assert a + b == a;
    } else {
      assert (a + b)[..|a + b| - 1] == a + b[..|b| - 1];
      PoolMaxConcat(a, b[..|b| - 1], sel, p);
    }
  }

  lemma {:induction false} LooseConcat(a: seq<Row>, b: seq<Row>, sel: Selection)
    ensures LooseSum(a + b, sel) == LooseSum(a, sel) + LooseSum(b, sel)
  {
    if b == [] {
      assert a + b == a;
    } else {
      assert (a + b)[..|a + b| - 1] == a + b[..|b| - 1];
      LooseConcat(a, b[..|b| - 1], sel);
    }
  }

  lemma LooseInsert(a: seq<Row>, r: Row, b: seq<Row>, sel: Selection)
    ensures LooseSum(a + [r] + b, sel) == LooseSum(a + b, sel) + LooseValue(r, sel)
  {
    LooseConcat(a + [r], b, sel);
    LooseConcat(a, [r], sel);
    LooseConcat(a, b, sel);
    assert LooseSum([r], sel) == LooseValue(r, sel) by {
      assert [r][..0] == [];
    }
  }

  /** Loose sums ignore order, and shrink with the rows when nothing is negative. */
  lemma {:induction false} LooseSubset(a: seq<Row>, b: seq<Row>, sel: Selection)
    requires multiset(a) <= multiset(b)
    ensures multiset(a) == multiset(b) ==> LooseSum(a, sel) == LooseSum(b, sel)
    ensures (forall m | m in b :: 0 <= sel.pick(m)) ==> LooseSum(a, sel) <= LooseSum(b, sel)
  {
    if a == [] {
      assert multiset(b) == multiset{} ==> b == [];
      if forall m | m in b :: 0 <= sel.pick(m) {
        LooseNonNegative(b, sel);
      }
    } else {
      var pre, post := TakeOut(a, b);
      LooseInsert(pre, a[|a| - 1], post, sel);
      LooseSubset(a[..|a| - 1], pre + post, sel);
    }
  }

  lemma {:induction false} LooseNonNegative(rows: seq<Row>, sel: Selection)
    requires forall m | m in rows :: 0 <= sel.pick(m)
    ensures 0 <= LooseSum(rows, sel)
  {
    if rows != [] {
      LooseNonNegative(rows[..|rows| - 1], sel);
    }
  }

  /** Summing the pool maxima over more pools than occur adds nothing. */
  lemma DedupedOver(rows: seq<Row>, sel: Selection, pools: set<string>)
    requires Pools(rows, sel) <= pools
    ensures Deduped(rows, sel) == LooseSum(rows, sel) + SumOver(pools, p => PoolMax(rows, sel, p))
  {
    forall p | p in pools - Pools(rows, sel) ensures PoolMax(rows, sel, p) == 0 {
      PoolMaxOutside(rows, sel, p);
    }
    SumExtend(Pools(rows, sel), pools, p => PoolMax(rows, sel, p), p => PoolMax(rows, sel, p));
  }

  // ----- Laws of the deduplicated sum -----

  /** The total does not depend on the order of the catalog. */
  lemma DedupedIgnoresOrder(a: seq<Row>, b: seq<Row>, sel: Selection)
    requires multiset(a) == multiset(b)
    ensures Deduped(a, sel) == Deduped(b, sel)
  {
    assert forall m :: m in a <==> m in multiset(a);
    assert forall m :: m in b <==> m in multiset(b);
    LooseSubset(a, b, sel);
    forall p ensures PoolMax(a, sel, p) == PoolMax(b, sel, p) {
      PoolMaxSubset(a, b, sel, p);
      PoolMaxSubset(b, a, sel, p);
    }
    assert Pools(a, sel) == Pools(b, sel);
    SumExtend(Pools(a, sel), Pools(b, sel), p => PoolMax(a, sel, p), p => PoolMax(b, sel, p));
  }

  /** What a row adds to the rest of the catalog, wherever it stands. */
  function Contribution(r: Row, rest: seq<Row>, sel: Selection): int {
    if !sel.covers(r) then 0
    else if !r.Pooled() then sel.pick(r)
    else Max(0, sel.pick(r) - PoolMax(rest, sel, r.poolKey.value))
  }

  /** In particular a row at or below the maximum of its pool adds nothing. */
  lemma RowContribution(a: seq<Row>, r: Row, b: seq<Row>, sel: Selection)
    ensures Deduped(a + [r] + b, sel) == Deduped(a + b, sel) + Contribution(r, a + b, sel)
  {
    var whole, rest := a + [r] + b, a + b;
    LooseInsert(a, r, b, sel);
    forall p ensures PoolMax(whole, sel, p) ==
                     if sel.Counts(r, p) then Max(PoolMax(rest, sel, p), sel.pick(r)) else PoolMax(rest, sel, p)
    {
      PoolMaxInsert(a, r, b, sel, p);
    }
    var pools := Pools(whole, sel);
    assert Pools(rest, sel) <= pools;
    DedupedOver(rest, sel, pools);
    var f, g := (p: string) => PoolMax(rest, sel, p), (p: string) => PoolMax(whole, sel, p);
    if sel.covers(r) && r.Pooled() {
      var key := r.poolKey.value;
      assert r in whole;
      SumRemove(pools, f, key);
      SumRemove(pools, g, key);
      SumExtend(pools - {key}, pools - {key}, f, g);
    } else {
      SumExtend(pools, pools, f, g);
    }
  }

  lemma PoolMaxInsert(a: seq<Row>, r: Row, b: seq<Row>, sel: Selection, p: string)
    ensures PoolMax(a + [r] + b, sel, p) ==
            if sel.Counts(r, p) then Max(PoolMax(a + b, sel, p), sel.pick(r)) else PoolMax(a + b, sel, p)
  {
    PoolMaxConcat(a + [r], b, sel, p);
    PoolMaxConcat(a, b, sel, p);
    assert (a + [r])[..|a|] == a;
    PoolMaxIsMax(a, sel, p);
    PoolMaxIsMax(b, sel, p);
  }

  /** Dropping rows never raises a total of non-negative values. */
  lemma DedupedShrinks(a: seq<Row>, b: seq<Row>, sel: Selection)
    requires multiset(a) <= multiset(b)
    requires forall m | m in b :: 0 <= sel.pick(m)
    ensures Deduped(a, sel) <= Deduped(b, sel)
  {
    assert forall m | m in a :: m in multiset(a) && m in multiset(b);
    LooseSubset(a, b, sel);
    forall p ensures 0 <= PoolMax(a, sel, p) <= PoolMax(b, sel, p) {
      PoolMaxIsMax(a, sel, p);
      PoolMaxSubset(a, b, sel, p);
    }
    assert Pools(a, sel) <= Pools(b, sel);
    SumMonotone(Pools(a, sel), Pools(b, sel), p => PoolMax(a, sel, p), p => PoolMax(b, sel, p));
  }

  lemma DedupedNonNegative(rows: seq<Row>, sel: Selection)
    requires forall m | m in rows :: 0 <= sel.pick(m)
    ensures 0 <= Deduped(rows, sel)
  {
    DedupedShrinks([], rows, sel);
    assert Pools([], sel) == {};
  }

  ghost function Overlap(rows: seq<Row>, left: Selection, right: Selection, p: string): int {
    var l, r := PoolMax(rows, left, p), PoolMax(rows, right, p);
    if l < r then l else r
  }

  /** `whole` sums over the disjoint union of what `left` and `right` sum over. */
  ghost predicate Splits(whole: Selection, left: Selection, right: Selection) {
    && (forall m :: whole.covers(m) <==> left.covers(m) || right.covers(m))
    && (forall m :: !(left.covers(m) && right.covers(m)))
    && (forall m :: whole.pick(m) == left.pick(m) == right.pick(m))
  }

  lemma {:induction false} SplitParts(rows: seq<Row>, whole: Selection, left: Selection, right: Selection)
    requires Splits(whole, left, right)
    ensures LooseSum(rows, whole) == LooseSum(rows, left) + LooseSum(rows, right)
    ensures forall p :: PoolMax(rows, whole, p) == Max(PoolMax(rows, left, p), PoolMax(rows, right, p))
  {
    if rows != [] {
      SplitParts(rows[..|rows| - 1], whole, left, right);
    }
  }

  /** Two disjoint sums exceed the joint one by exactly what the pools they share count twice. */
  lemma SplitExcess(rows: seq<Row>, whole: Selection, left: Selection, right: Selection)
    requires Splits(whole, left, right)
    ensures Deduped(rows, left) + Deduped(rows, right) ==
            Deduped(rows, whole) + SumOver(Pools(rows, whole), p => Overlap(rows, left, right, p))
  {
    var pools := Pools(rows, whole);
    assert Pools(rows, left) <= pools && Pools(rows, right) <= pools;
    DedupedOver(rows, left, pools);
    DedupedOver(rows, right, pools);
    SplitParts(rows, whole, left, right);
    var l, r := (p: string) => PoolMax(rows, left, p), (p: string) => PoolMax(rows, right, p);
    var w, o := (p: string) => PoolMax(rows, whole, p), (p: string) => Overlap(rows, left, right, p);
    SumAdded(pools, l, r);
    SumAdded(pools, w, o);
    SumExtend(pools, pools, p => l(p) + r(p), p => w(p) + o(p));
  }

  lemma OverlapIsShared(rows: seq<Row>, whole: Selection, left: Selection, right: Selection, p: string)
    requires Splits(whole, left, right)
    ensures 0 <= Overlap(rows, left, right, p)
    ensures Overlap(rows, left, right, p) == 0 <==> PoolMax(rows, left, p) == 0 || PoolMax(rows, right, p) == 0
    ensures p !in Pools(rows, whole) ==> Overlap(rows, left, right, p) == 0
  {
    PoolMaxIsMax(rows, left, p);
    PoolMaxIsMax(rows, right, p);
    if p !in Pools(rows, whole) {
      assert Pools(rows, left) <= Pools(rows, whole);
      PoolMaxOutside(rows, left, p);
    }
  }

  /** No pool has a positive maximum on both sides. */
  ghost predicate Unmixed(rows: seq<Row>, left: Selection, right: Selection) {
    forall p :: PoolMax(rows, left, p) == 0 || PoolMax(rows, right, p) == 0
  }

  /** So they are equal if and only if no pool counts on both sides. */
  lemma SplitSum(rows: seq<Row>, whole: Selection, left: Selection, right: Selection)
    requires Splits(whole, left, right)
    ensures Deduped(rows, left) + Deduped(rows, right) >= Deduped(rows, whole)
    ensures Deduped(rows, left) + Deduped(rows, right) == Deduped(rows, whole) <==> Unmixed(rows, left, right)
  {
    var pools := Pools(rows, whole);
    SplitExcess(rows, whole, left, right);
    forall p
      ensures 0 <= Overlap(rows, left, right, p)
      ensures p !in pools ==> Overlap(rows, left, right, p) == 0
    {
      OverlapIsShared(rows, whole, left, right, p);
    }
    SumZero(pools, p => Overlap(rows, left, right, p));
    if Unmixed(rows, left, right) {
      forall p ensures Overlap(rows, left, right, p) == 0 {
        OverlapIsShared(rows, whole, left, right, p);
      }
    } else {
      var p :| PoolMax(rows, left, p) != 0 && PoolMax(rows, right, p) != 0;
      OverlapIsShared(rows, whole, left, right, p);
      assert p in pools;
    }
  }

  // ----- The figures -----

  const STEADY := Selection((m: Row) => m.monthlyTokens, (m: Row) => BucketOf(m.freeType) == SteadyMonthly && !m.gated)
  const GATED := Selection((m: Row) => m.monthlyTokens, (m: Row) => BucketOf(m.freeType) == SteadyMonthly && m.gated)
  const ALL_STEADY := Selection((m: Row) => m.monthlyTokens, (m: Row) => BucketOf(m.freeType) == SteadyMonthly)
  const CREDITS := Selection(
    (m: Row) => m.creditTokens, (m: Row) => BucketOf(m.freeType) == RefillingCredit && !m.gated)
  const ONE_TIME := Selection((m: Row) => m.creditTokens, (m: Row) => BucketOf(m.freeType) == OneTimeCredit && !m.gated)

  datatype Totals = Totals(
    steady: int, steadyWithCredits: int, firstMonth: int, boost: int, gated: int, poolCount: nat, modelCount: nat)

  /** The rows that take part: not disabled, and not to be avoided when that is asked for. */
  function Models(catalog: seq<Row>, excludeTosAvoid: bool): seq<Row> {
    Filter(catalog, TakesPart(excludeTosAvoid))
  }

  function TakesPart(excludeTosAvoid: bool): Row -> bool {
    (m: Row) => !(excludeTosAvoid && m.tosAvoid) && m.enabled != Some(false)
  }

  /** The boosts of pools that still have a live, ungated steady row. */
  function Boost(boosts: seq<(string, int)>, live: set<string>): int {
    if boosts == [] then 0
    else Boost(boosts[..|boosts| - 1], live) + (var b := boosts[|boosts| - 1]; if b.0 in live then b.1 else 0)
  }

  ghost function TotalsOf(models: seq<Row>, boosts: seq<(string, int)>): Totals {
    var steady := Deduped(models, STEADY);
    var withCredits := steady + Deduped(models, CREDITS);
    var live := Pools(models, STEADY);
    Totals(steady, withCredits, withCredits + Deduped(models, ONE_TIME), Boost(boosts, live),
           Deduped(models, GATED), |live|, |models|)
  }

  predicate NonNegative(models: seq<Row>, boosts: seq<(string, int)>) {
    && (forall m | m in models :: 0 <= m.monthlyTokens && 0 <= m.creditTokens)
    && (forall b | b in boosts :: 0 <= b.1)
  }

  /** No figure of `t` exceeds the same figure of `u`. */
  predicate AtMost(t: Totals, u: Totals) {
    && t.steady <= u.steady && t.steadyWithCredits <= u.steadyWithCredits && t.firstMonth <= u.firstMonth
    && t.boost <= u.boost && t.gated <= u.gated && t.poolCount <= u.poolCount && t.modelCount <= u.modelCount
  }

  /** Gated and open tokens together are at least the joint sum; equal iff no pool mixes them. */
  lemma SteadyPlusGated(models: seq<Row>, boosts: seq<(string, int)>)
    ensures var t := TotalsOf(models, boosts);
            && t.steady + t.gated >= Deduped(models, ALL_STEADY)
            && (t.steady + t.gated == Deduped(models, ALL_STEADY)
                <==> Unmixed(models, STEADY, GATED))
            && (Pools(models, STEADY) !! Pools(models, GATED) ==> Unmixed(models, STEADY, GATED))
  {
    SplitSum(models, ALL_STEADY, STEADY, GATED);
    if Pools(models, STEADY) !! Pools(models, GATED) {
      forall p ensures PoolMax(models, STEADY, p) == 0 || PoolMax(models, GATED, p) == 0 {
        PoolMaxOutside(models, if p in Pools(models, STEADY) then GATED else STEADY, p);
      }
    }
  }

  lemma FiguresAreOrdered(models: seq<Row>, boosts: seq<(string, int)>)
    requires NonNegative(models, boosts)
    ensures var t := TotalsOf(models, boosts);
            0 <= t.steady <= t.steadyWithCredits <= t.firstMonth && 0 <= t.gated
  {
    DedupedNonNegative(models, STEADY);
    DedupedNonNegative(models, CREDITS);
    DedupedNonNegative(models, ONE_TIME);
    DedupedNonNegative(models, GATED);
  }

  lemma {:induction false} BoostShrinks(boosts: seq<(string, int)>, live: set<string>, more: set<string>)
    requires live <= more && forall b | b in boosts :: 0 <= b.1
    ensures Boost(boosts, live) <= Boost(boosts, more)
  {
    if boosts != [] {
      BoostShrinks(boosts[..|boosts| - 1], live, more);
      assert boosts[|boosts| - 1] in boosts;
    }
  }

  /** Dropping rows never raises a figure. */
  lemma DroppingRowsNeverRaises(fewer: seq<Row>, models: seq<Row>, boosts: seq<(string, int)>)
    requires multiset(fewer) <= multiset(models)
    requires NonNegative(models, boosts)
    ensures AtMost(TotalsOf(fewer, boosts), TotalsOf(models, boosts))
  {
    DedupedShrinks(fewer, models, STEADY);
    DedupedShrinks(fewer, models, CREDITS);
    DedupedShrinks(fewer, models, ONE_TIME);
    DedupedShrinks(fewer, models, GATED);
    assert forall m | m in fewer :: m in multiset(fewer) && m in multiset(models);
    var live, more := Pools(fewer, STEADY), Pools(models, STEADY);
    assert live <= more;
    BoostShrinks(boosts, live, more);
    SubsetSize(live, more);
    assert multiset(models) == multiset(fewer) + (multiset(models) - multiset(fewer));
    assert |fewer| == |multiset(fewer)| && |models| == |multiset(models)|;
  }

  lemma SubsetSize(s: set<string>, t: set<string>)
    requires s <= t
    ensures |s| <= |t|
  {
    assert t == s + (t - s);
  }

  /** The terms-of-service filter, and disabling any set of rows, never raise a figure. */
  lemma FiltersNeverRaise(catalog: seq<Row>, keep: Row -> bool, exclude: bool, boosts: seq<(string, int)>)
    requires NonNegative(catalog, boosts)
    ensures AtMost(TotalsOf(Models(Filter(catalog, keep), exclude), boosts), TotalsOf(Models(catalog, false), boosts))
  {
    var kept, all := Models(Filter(catalog, keep), exclude), Models(catalog, false);
    var taking, enabled := TakesPart(exclude), TakesPart(false);
    FilterMembers(catalog, enabled);
    FilterCommutes(catalog, keep, taking);
    FilterNested(catalog, taking, enabled);
    FilterPartition(Filter(catalog, taking), keep);
    FilterPartition(all, taking);
    DroppingRowsNeverRaises(kept, all, boosts);
  }

  lemma {:induction false} FilterNested(s: seq<Row>, p: Row -> bool, q: Row -> bool)
    requires forall m :: p(m) ==> q(m)
    ensures Filter(Filter(s, q), p) == Filter(s, p)
  {
    if s != [] {
      FilterNested(s[1..], p, q);
      assert q(s[0]) ==> Filter(s, q)[1..] == Filter(s[1..], q);
    }
  }

  // ----- What feeds each figure -----

  predicate PaysMonthly(m: Row) {
    m.freeType == RecurringDaily || m.freeType == RecurringMonthly || m.freeType == Keyless
  }

  /** A row that is not gated, of the given regime. */
  predicate Open(m: Row, t: FreeType) {
    m.freeType == t && !m.gated
  }

  function MonthlyOf(kind: Row -> bool): Selection {
    Selection((m: Row) => m.monthlyTokens, kind)
  }

  function CreditOf(kind: Row -> bool): Selection {
    Selection((m: Row) => m.creditTokens, kind)
  }

  lemma {:induction false} SameSelection(rows: seq<Row>, sel: Selection, sel': Selection)
    requires forall m :: sel.pick(m) == sel'.pick(m) && sel.covers(m) == sel'.covers(m)
    ensures LooseSum(rows, sel) == LooseSum(rows, sel') && Pools(rows, sel) == Pools(rows, sel')
    ensures forall p :: PoolMax(rows, sel, p) == PoolMax(rows, sel', p)
  {
    if rows != [] {
      SameSelection(rows[..|rows| - 1], sel, sel');
    }
  }

  lemma SameDeduped(rows: seq<Row>, sel: Selection, sel': Selection)
    requires forall m :: sel.pick(m) == sel'.pick(m) && sel.covers(m) == sel'.covers(m)
    ensures Deduped(rows, sel) == Deduped(rows, sel')
  {
    SameSelection(rows, sel, sel');
    SumExtend(Pools(rows, sel), Pools(rows, sel'), p => PoolMax(rows, sel, p), p => PoolMax(rows, sel', p));
  }

  /**
   Each figure by the regimes and the column it sums: monthly tokens of open or gated rows of the three
   monthly regimes, then credits that refill, then those granted once. The boost counts exactly the
   entries whose pool has an open monthly row.
   */
  lemma FiguresByRegime(models: seq<Row>, boosts: seq<(string, int)>)
    ensures var t := TotalsOf(models, boosts);
            && t.steady == Deduped(models, MonthlyOf((m: Row) => PaysMonthly(m) && !m.gated))
            && t.gated == Deduped(models, MonthlyOf((m: Row) => PaysMonthly(m) && m.gated))
            && t.steadyWithCredits ==
               t.steady + Deduped(models, CreditOf((m: Row) => Open(m, RecurringCredit)))
            && t.firstMonth ==
               t.steadyWithCredits + Deduped(models, CreditOf((m: Row) => Open(m, OneTimeInitial)))
            && t.poolCount == |set m | m in models && PaysMonthly(m) && !m.gated && m.Pooled() :: m.poolKey.value|
            && t.modelCount == |models|
  {
    MonthlySums(models);
    CreditSums(models);
    OpenPools(models);
  }

  lemma MonthlySums(models: seq<Row>)
    ensures Deduped(models, STEADY) == Deduped(models, MonthlyOf((m: Row) => PaysMonthly(m) && !m.gated))
    ensures Deduped(models, GATED) == Deduped(models, MonthlyOf((m: Row) => PaysMonthly(m) && m.gated))
  {
    SameDeduped(models, STEADY, MonthlyOf((m: Row) => PaysMonthly(m) && !m.gated));
    SameDeduped(models, GATED, MonthlyOf((m: Row) => PaysMonthly(m) && m.gated));
  }

  lemma CreditSums(models: seq<Row>)
    ensures Deduped(models, CREDITS) == Deduped(models, CreditOf((m: Row) => Open(m, RecurringCredit)))
    ensures Deduped(models, ONE_TIME) == Deduped(models, CreditOf((m: Row) => Open(m, OneTimeInitial)))
  {
    SameDeduped(models, CREDITS, CreditOf((m: Row) => Open(m, RecurringCredit)));
    SameDeduped(models, ONE_TIME, CreditOf((m: Row) => Open(m, OneTimeInitial)));
  }

  lemma OpenPools(models: seq<Row>)
    ensures Pools(models, STEADY) ==
            set m | m in models && PaysMonthly(m) && !m.gated && m.Pooled() :: m.poolKey.value
  {
  }

  lemma {:induction false} BoostConcat(a: seq<(string, int)>, b: seq<(string, int)>, live: set<string>)
    ensures Boost(a + b, live) == Boost(a, live) + Boost(b, live)
  {
    if b == [] {
      assert a + b == a;
    } else {
      assert (a + b)[..|a + b| - 1] == a + b[..|b| - 1];
      BoostConcat(a, b[..|b| - 1], live);
    }
  }

  /** One more boost counts if and only if an open monthly row that takes part has its pool. */
  lemma BoostFeeds(
    models: seq<Row>, a: seq<(string, int)>, pool: string, tokens: int, b: seq<(string, int)>)
    ensures var t, u := TotalsOf(models, a + b), TotalsOf(models, a + [(pool, tokens)] + b);
            u == t.(boost := t.boost +
              if pool != "" && exists m | m in models :: PaysMonthly(m) && !m.gated && m.poolKey == Some(pool)
              then tokens else 0)
  {
    var live, one := Pools(models, STEADY), [(pool, tokens)];
    BoostConcat(a, b, live);
    BoostConcat(a, one, live);
    BoostConcat(a + one, b, live);
    assert one[..0] == [];
    assert Boost(one, live) == if pool in live then tokens else 0;
    OpenPools(models);
  }

  lemma ModelsWith(a: seq<Row>, r: Row, b: seq<Row>, exclude: bool)
    ensures Models(a + b, exclude) == Models(a, exclude) + Models(b, exclude)
    ensures Models(a + [r] + b, exclude) ==
            Models(a, exclude)
            + (if r.enabled == Some(false) || (exclude && r.tosAvoid) then [] else [r]) + Models(b, exclude)
  {
    FilterConcat(a, b, TakesPart(exclude));
    FilterConcat(a, [r], TakesPart(exclude));
    FilterConcat(a + [r], b, TakesPart(exclude));
    assert Filter([r][1..], TakesPart(exclude)) == [];
  }

  /** The figures with some amounts more, for one model more. */
  function Raised(t: Totals, monthly: int, gated: int, credits: int, oneTime: int): Totals {
    Totals(t.steady + monthly, t.steadyWithCredits + monthly + credits,
           t.firstMonth + monthly + credits + oneTime, t.boost, t.gated + gated, t.poolCount, t.modelCount + 1)
  }

  /**
   What one row without a pool adds, by its regime. A disabled row, or one to be avoided when those are
   left out, adds nothing; a row that says nothing about being enabled counts.
   */
  lemma RowFeeds(a: seq<Row>, r: Row, b: seq<Row>, exclude: bool, boosts: seq<(string, int)>)
    requires !r.Pooled()
    ensures var t := TotalsOf(Models(a + b, exclude), boosts);
            var u := TotalsOf(Models(a + [r] + b, exclude), boosts);
            if r.enabled == Some(false) || (exclude && r.tosAvoid) then u == t
            else if PaysMonthly(r) && !r.gated then u == Raised(t, r.monthlyTokens, 0, 0, 0)
            else if PaysMonthly(r) then u == Raised(t, 0, r.monthlyTokens, 0, 0)
            else if Open(r, RecurringCredit) then u == Raised(t, 0, 0, r.creditTokens, 0)
            else if Open(r, OneTimeInitial) then u == Raised(t, 0, 0, 0, r.creditTokens)
            else u == Raised(t, 0, 0, 0, 0)
  {
    ModelsWith(a, r, b, exclude);
    var pre, post := Models(a, exclude), Models(b, exclude);
    if r.enabled == Some(false) || (exclude && r.tosAvoid) {
      assert pre + [] + post == pre + post;
    } else {
      LooseRowRaises(pre, r, post, boosts);
      LooseValues(r);
    }
  }

  lemma LooseRowRaises(pre: seq<Row>, r: Row, post: seq<Row>, boosts: seq<(string, int)>)
    requires !r.Pooled()
    ensures TotalsOf(pre + [r] + post, boosts) ==
            Raised(TotalsOf(pre + post, boosts), LooseValue(r, STEADY), LooseValue(r, GATED), LooseValue(r, CREDITS),
                   LooseValue(r, ONE_TIME))
  {
    LooseRow(pre, r, post, STEADY);
    LooseRow(pre, r, post, GATED);
    LooseRow(pre, r, post, CREDITS);
    LooseRow(pre, r, post, ONE_TIME);
  }

  lemma LooseRow(pre: seq<Row>, r: Row, post: seq<Row>, sel: Selection)
    requires !r.Pooled()
    ensures Deduped(pre + [r] + post, sel) == Deduped(pre + post, sel) + LooseValue(r, sel)
    ensures Pools(pre + [r] + post, sel) == Pools(pre + post, sel)
  {
    RowContribution(pre, r, post, sel);
  }

  lemma LooseValues(r: Row)
    requires !r.Pooled()
    ensures LooseValue(r, STEADY) == if PaysMonthly(r) && !r.gated then r.monthlyTokens else 0
    ensures LooseValue(r, GATED) == if PaysMonthly(r) && r.gated then r.monthlyTokens else 0
    ensures LooseValue(r, CREDITS) == if Open(r, RecurringCredit) then r.creditTokens else 0
    ensures LooseValue(r, ONE_TIME) == if Open(r, OneTimeInitial) then r.creditTokens else 0
  {
  }

  // ----- The loops -----

  /** The two loops over the pool map meet the declarative sum. */
  method DedupedSum(models: seq<Row>, sel: Selection) returns (total: int)
    ensures total == Deduped(models, sel)
  {
    var poolMax: map<string, int> := map[];
    var loose := 0;
    for i := 0 to |models|
      invariant poolMax.Keys == Pools(models[..i], sel)
      invariant forall p | p in poolMax :: poolMax[p] == PoolMax(models[..i], sel, p)
      invariant loose == LooseSum(models[..i], sel)
    {
      var m := models[i];
      assert models[..i + 1][..i] == models[..i];
      assert models[..i + 1] == models[..i] + [m];
      if sel.covers(m) {
        if m.Pooled() {
          var key := m.poolKey.value;
          if key !in poolMax {
            PoolMaxOutside(models[..i], sel, key);
          }
          poolMax := poolMax[key := Max(if key in poolMax then poolMax[key] else 0, sel.pick(m))];
        } else {
          loose := loose + sel.pick(m);
        }
      }
    }
    assert models[..|models|] == models;
    total := loose;
    var todo := poolMax.Keys;
    ghost var f := (p: string) => PoolMax(models, sel, p);
    while todo != {}
      invariant todo <= poolMax.Keys
      invariant total + SumOver(todo, f) == Deduped(models, sel)
      decreases todo
    {
      var p :| p in todo;
      SumRemove(todo, f, p);
      total := total + poolMax[p];
      todo := todo - {p};
    }
  }

  method ComputeTotals(catalog: seq<Row>, excludeTosAvoid: bool, boosts: seq<(string, int)>) returns (t: Totals)
    ensures t == TotalsOf(Models(catalog, excludeTosAvoid), boosts)
  {
    var models := Models(catalog, excludeTosAvoid);
    var steady := DedupedSum(models, STEADY);
    var gated := DedupedSum(models, GATED);
    var credits := DedupedSum(models, CREDITS);
    var oneTime := DedupedSum(models, ONE_TIME);
    var live := Pools(models, STEADY);
    t := Totals(steady, steady + credits, steady + credits + oneTime, Boost(boosts, live), gated, |live|, |models|);
  }
}
