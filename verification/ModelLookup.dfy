/** The best-match lookup of a model over every provider's list. */
module ModelLookup {
  import opened Options
  import opened Text
  import opened Seqs

  /** A registry row; each optional capability is defined or not. */
  datatype Model = Model(
    id: string, supportsXHighEffort: Option<bool>, supportsReasoning: Option<bool>, contextLength: Option<nat>,
    maxOutputTokens: Option<nat>, supportsVision: Option<bool>, toolCalling: Option<bool>,
    interleavedField: Option<string>, unsupportedParams: Option<seq<string>>)

  /** One list of rows a provider, in registry order. */
  type Registry = seq<seq<Model>>

  /** A defined property scores its points. */
  function Points<T>(property: Option<T>, points: int): int {
    if property.Some? then points else 0
  }

  function Richness(m: Model): int {
    Points(m.supportsXHighEffort, 10) + Points(m.supportsReasoning, 5) + Points(m.contextLength, 3)
    + Points(m.maxOutputTokens, 2) + Points(m.supportsVision, 2) + Points(m.toolCalling, 2)
    + Points(m.interleavedField, 1) + Points(m.unsupportedParams, 1)
  }

  function Poorness(m: Model): int {
    -Richness(m)
  }

  /** `split("/").pop() || id`. */
  function Basename(id: string): string {
    var last := AfterLastSlash(id);
    if last == "" then id else last
  }

  /** The first row of a list with the id. */
  function FindIn(models: seq<Model>, id: string): (r: Option<Model>)
    ensures r.Some? ==> r.value in models && r.value.id == id
    ensures r.None? ==> forall m | m in models :: m.id != id
  {
    if models == [] then None
    else if models[0].id == id then Some(models[0])
    else FindIn(models[1..], id)
  }

  /** Each provider's first row with the id. */
  function Candidates(reg: Registry, id: string): seq<Model> {
    if reg == [] then []
    else
      var init, found := Candidates(reg[..|reg| - 1], id), FindIn(reg[|reg| - 1], id);
      if found.Some? then init + [found.value] else init
  }

  /** `r` is the first among the richest of `s`. */
  ghost predicate FirstRichest(s: seq<Model>, r: Model) {
    exists k | 0 <= k < |s| ::
      && s[k] == r
      && (forall i | 0 <= i < |s| :: Richness(s[i]) <= Richness(r))
      && (forall i | 0 <= i < k :: Richness(s[i]) < Richness(r))
  }

  /** All rows, in registry order. */
  function Rows(reg: Registry): seq<Model> {
    if reg == [] then [] else Rows(reg[..|reg| - 1]) + reg[|reg| - 1]
  }

  /** `a` is a worse prefix match than `b`: shorter, or as long and poorer. */
  predicate Worse(a: Model, b: Model) {
    |a.id| < |b.id| || (|a.id| == |b.id| && Richness(a) < Richness(b))
  }

  /** `r` is the first among the best rows whose id is a prefix of `name`; nothing when there is no such row. */
  ghost predicate BestPrefix(rows: seq<Model>, name: string, r: Option<Model>) {
    match r
    case None => forall m | m in rows :: !(m.id <= name)
    case Some(b) =>
      exists k | 0 <= k < |rows| ::
        && rows[k] == b && b.id <= name
        && (forall i | 0 <= i < |rows| && rows[i].id <= name :: !Worse(b, rows[i]))
        && (forall i | 0 <= i < k && rows[i].id <= name :: Worse(rows[i], b))
  }

  /** What the lookup promises: exact rows first, then basename rows, then the longest prefix. */
  ghost predicate IsGlobalModel(reg: Registry, id: string, r: Option<Model>) {
    IsBestMatch(reg, id, Basename(id), r)
  }

  ghost predicate IsBestMatch(reg: Registry, id: string, name: string, r: Option<Model>) {
    var exact, base := Candidates(reg, id), Candidates(reg, name);
    if exact != [] then r.Some? && FirstRichest(exact, r.value)
    else if base != [] then r.Some? && FirstRichest(base, r.value)
    else BestPrefix(Rows(reg), name, r)
  }

  lemma FirstRichestIsUnique(s: seq<Model>, r: Model, r': Model)
    requires FirstRichest(s, r) && FirstRichest(s, r')
    ensures r == r'
  {
  }

  lemma BestPrefixIsUnique(rows: seq<Model>, name: string, r: Option<Model>, r': Option<Model>)
    requires BestPrefix(rows, name, r) && BestPrefix(rows, name, r')
    ensures r == r'
  {
  }

  /** The answer is unique, so the promise determines it. */
  lemma GlobalModelIsUnique(reg: Registry, id: string, r: Option<Model>, r': Option<Model>)
    requires IsGlobalModel(reg, id, r) && IsGlobalModel(reg, id, r')
    ensures r == r'
  {
    var exact, base := Candidates(reg, id), Candidates(reg, Basename(id));
    if exact != [] {
      FirstRichestIsUnique(exact, r.value, r'.value);
    } else if base != [] {
      FirstRichestIsUnique(base, r.value, r'.value);
    } else {
      BestPrefixIsUnique(Rows(reg), Basename(id), r, r');
    }
  }

  lemma {:induction false} CandidatesHaveId(reg: Registry, id: string)
    ensures forall m | m in Candidates(reg, id) :: m.id == id
    ensures Candidates(reg, id) != [] <==> exists m | m in Rows(reg) :: m.id == id
  {
    if reg != [] {
      CandidatesHaveId(reg[..|reg| - 1], id);
      assert forall m :: m in Rows(reg) <==> m in Rows(reg[..|reg| - 1]) || m in reg[|reg| - 1];
    }
  }

  // ----- Names and richness -----

  /** The basename is what follows the last slash, and the whole id when nothing does. */
  lemma {:induction false} BasenameIs(id: string, vendor: string, name: string)
    requires '/' !in name && (id == name || id == vendor + "/" + name)
    ensures Basename(id) == if name != "" then name else id
  {
    AfterSlash(vendor, name);
  }

  /** An id that no row has exactly is looked up as its basename. */
  lemma {:induction false} VendorIsIgnored(reg: Registry, vendor: string, name: string, r: Option<Model>)
    requires '/' !in name && name != "" && Candidates(reg, vendor + "/" + name) == []
    ensures IsGlobalModel(reg, vendor + "/" + name, r) <==> IsGlobalModel(reg, name, r)
  {
    BasenameIs(vendor + "/" + name, vendor, name);
    BasenameIs(name, vendor, name);
  }

  /** What each declared flag is worth... */
  lemma FlagsCount(m: Model, b: bool)
    ensures Richness(m.(supportsXHighEffort := Some(b))) == Richness(m.(supportsXHighEffort := None)) + 10
    ensures Richness(m.(supportsReasoning := Some(b))) == Richness(m.(supportsReasoning := None)) + 5
    ensures Richness(m.(supportsVision := Some(b))) == Richness(m.(supportsVision := None)) + 2
    ensures Richness(m.(toolCalling := Some(b))) == Richness(m.(toolCalling := None)) + 2
  {
  }

  /** ... and each declared limit, field or list; nothing declared is worth nothing. */
  lemma LimitsCount(m: Model, n: nat, s: string, params: seq<string>)
    ensures Richness(m.(contextLength := Some(n))) == Richness(m.(contextLength := None)) + 3
    ensures Richness(m.(maxOutputTokens := Some(n))) == Richness(m.(maxOutputTokens := None)) + 2
    ensures Richness(m.(interleavedField := Some(s))) == Richness(m.(interleavedField := None)) + 1
    ensures Richness(m.(unsupportedParams := Some(params))) == Richness(m.(unsupportedParams := None)) + 1
    ensures Richness(Model(m.id, None, None, None, None, None, None, None, None)) == 0
  {
  }

  // ----- The richest of all rows -----

  /** The place of a list's first row with the id; the length when there is none. */
  function FirstAt(models: seq<Model>, id: string): (i: nat)
    ensures i <= |models|
    ensures FindIn(models, id) == if i < |models| then Some(models[i]) else None
    ensures forall k | 0 <= k < i :: models[k].id != id
  {
    if models == [] || models[0].id == id then 0 else 1 + FirstAt(models[1..], id)
  }

  /** Provider `p` has a row under the id. */
  predicate Has(reg: Registry, id: string, p: int) {
    0 <= p < |reg| && FindIn(reg[p], id).Some?
  }

  function FirstRow(reg: Registry, id: string, p: int): Model
    requires Has(reg, id, p)
  {
    FindIn(reg[p], id).value
  }

  predicate Under(reg: Registry, id: string, p: int, i: int) {
    0 <= p < |reg| && 0 <= i < |reg[p]| && reg[p][i].id == id
  }

  /** Provider `p` has the first among the richest of all first rows. */
  ghost predicate Picked(reg: Registry, id: string, p: int) {
    && Has(reg, id, p)
    && forall q | Has(reg, id, q) ::
         && Richness(FirstRow(reg, id, q)) <= Richness(FirstRow(reg, id, p))
         && (q < p ==> Richness(FirstRow(reg, id, q)) < Richness(FirstRow(reg, id, p)))
  }

  /** Among all rows under the id, in registry order, row `i` of provider `p` is the first of the richest. */
  ghost predicate FirstRichestRow(reg: Registry, id: string, p: int, i: int) {
    && Under(reg, id, p, i)
    && forall q, j | Under(reg, id, q, j) ::
         && Richness(reg[q][j]) <= Richness(reg[p][i])
         && (q < p || (q == p && j < i) ==> Richness(reg[q][j]) < Richness(reg[p][i]))
  }

  /** No row under the id is richer than every provider's first row. */
  ghost predicate NoneRicher(reg: Registry, id: string) {
    forall m | m in Rows(reg) && m.id == id :: exists c | c in Candidates(reg, id) :: Richness(m) <= Richness(c)
  }

  /** A row is at most as rich as a first row up to its own provider, or poorer than some first row. */
  ghost predicate NoneEarlier(reg: Registry, id: string) {
    forall q, j | Under(reg, id, q, j) :: Matched(reg, id, q, reg[q][j]) || Outdone(reg, id, reg[q][j])
  }

  ghost predicate Matched(reg: Registry, id: string, q: int, m: Model) {
    exists p | p <= q && Has(reg, id, p) :: Richness(m) <= Richness(FirstRow(reg, id, p))
  }

  ghost predicate Outdone(reg: Registry, id: string, m: Model) {
    exists p | Has(reg, id, p) :: Richness(m) < Richness(FirstRow(reg, id, p))
  }

  /** A provider's first row is the candidate after those of the providers before it. */
  lemma {:induction false} CandidateAt(reg: Registry, id: string, p: nat)
    requires Has(reg, id, p)
    ensures var k := |Candidates(reg[..p], id)|;
            k < |Candidates(reg, id)| && Candidates(reg, id)[k] == FirstRow(reg, id, p)
  {
    assert reg[..p + 1][..p] == reg[..p];
    CandidatesPrefix(reg, p + 1, id);
  }

  lemma {:induction false} CandidateOrigin(reg: Registry, id: string, k: nat) returns (p: nat)
    requires k < |Candidates(reg, id)|
    ensures Has(reg, id, p) && k == |Candidates(reg[..p], id)| && FirstRow(reg, id, p) == Candidates(reg, id)[k]
  {
    var init := reg[..|reg| - 1];
    if k < |Candidates(init, id)| {
      p := CandidateOrigin(init, id, k);
      assert init[..p] == reg[..p];
    } else {
      p := |reg| - 1;
    }
  }

  /** The first richest candidate is the first row of the picked provider. */
  lemma PickedRow(reg: Registry, id: string, r: Model) returns (p: nat)
    requires FirstRichest(Candidates(reg, id), r)
    ensures Picked(reg, id, p) && FirstRow(reg, id, p) == r
  {
    var c := Candidates(reg, id);
    var k :| 0 <= k < |c| && c[k] == r
             && (forall i | 0 <= i < |c| :: Richness(c[i]) <= Richness(r))
             && (forall i | 0 <= i < k :: Richness(c[i]) < Richness(r));
    p := CandidateOrigin(reg, id, k);
    forall q | Has(reg, id, q)
      ensures Richness(FirstRow(reg, id, q)) <= Richness(r)
      ensures q < p ==> Richness(FirstRow(reg, id, q)) < Richness(r)
    {
      CandidateAt(reg, id, q);
      if q < p {
        CandidateAt(reg[..p], id, q);
        assert reg[..p][..q] == reg[..q];
      }
    }
  }

  /** The id whose rows decide: the given one, or its basename when no row has it. */
  function DecidingId(reg: Registry, id: string): string {
    if Candidates(reg, id) != [] then id else Basename(id)
  }

  /**
   "Collect all, pick the richest": the answer is the richest of all rows under the deciding id
   if and only if none of them is richer than every provider's first row.
   */
  lemma RichestOfAllIff(reg: Registry, id: string, r: Option<Model>)
    requires IsGlobalModel(reg, id, r) && Candidates(reg, DecidingId(reg, id)) != []
    ensures r.Some? && r.value in Rows(reg) && r.value.id == DecidingId(reg, id)
    ensures (forall m | m in Rows(reg) && m.id == r.value.id :: Richness(m) <= Richness(r.value))
            <==> NoneRicher(reg, r.value.id)
  {
    var key := DecidingId(reg, id);
    assert FirstRichest(Candidates(reg, key), r.value);
    CandidatesHaveId(reg, key);
    CandidatesAreRows(reg, key);
    assert r.value in Candidates(reg, key);
  }

  lemma {:induction false} CandidatesAreRows(reg: Registry, id: string)
    ensures forall m | m in Candidates(reg, id) :: m in Rows(reg)
  {
    if reg != [] {
      CandidatesAreRows(reg[..|reg| - 1], id);
    }
  }

  /**
   The answer is the row of a provider `p`; that row is the first of the richest of all rows, ties
   included, if and only if no other row is as rich before a first row is.
   */
  lemma FirstOfAllIff(reg: Registry, id: string, r: Option<Model>) returns (p: nat)
    requires IsGlobalModel(reg, id, r) && Candidates(reg, DecidingId(reg, id)) != []
    ensures var key := DecidingId(reg, id);
            && Has(reg, key, p) && r == Some(FirstRow(reg, key, p))
            && (FirstRichestRow(reg, key, p, FirstAt(reg[p], key)) <==> NoneEarlier(reg, key))
  {
    var key := DecidingId(reg, id);
    p := PickedRow(reg, key, r.value);
    if NoneEarlier(reg, key) {
      PickedIsFirst(reg, key, p);
    }
    if FirstRichestRow(reg, key, p, FirstAt(reg[p], key)) {
      FirstIsNotEarlier(reg, key, p);
    }
  }

  lemma PickedIsFirst(reg: Registry, id: string, p: nat)
    requires Picked(reg, id, p) && NoneEarlier(reg, id)
    ensures FirstRichestRow(reg, id, p, FirstAt(reg[p], id))
  {
    var i := FirstAt(reg[p], id);
    forall q, j | Under(reg, id, q, j)
      ensures Richness(reg[q][j]) <= Richness(reg[p][i])
      ensures q < p || (q == p && j < i) ==> Richness(reg[q][j]) < Richness(reg[p][i])
    {
      assert Matched(reg, id, q, reg[q][j]) || Outdone(reg, id, reg[q][j]);
    }
  }

  lemma FirstIsNotEarlier(reg: Registry, id: string, p: nat)
    requires Has(reg, id, p) && FirstRichestRow(reg, id, p, FirstAt(reg[p], id))
    ensures NoneEarlier(reg, id)
  {
    forall q, j | Under(reg, id, q, j) ensures Matched(reg, id, q, reg[q][j]) || Outdone(reg, id, reg[q][j]) {
      assert Has(reg, id, p) && Richness(reg[q][j]) <= Richness(FirstRow(reg, id, p));
    }
  }

  /** So the richest row of all is missed when its provider lists a poorer one first. */
  lemma {:induction false} PoorerFirstRowWins(poor: Model, rich: Model, name: string, r: Option<Model>)
    requires poor.id == rich.id && Richness(poor) < Richness(rich)
    ensures IsBestMatch([[poor, rich]], poor.id, name, r) <==> r == Some(poor)
  {
    OnlyCandidate(poor, rich);
    var first := [poor];
    assert FirstRichest(first, poor) by {
      assert first[0] == poor;
    }
    if IsBestMatch([[poor, rich]], poor.id, name, r) {
      FirstRichestIsUnique(first, poor, r.value);
    }
  }

  lemma OnlyCandidate(first: Model, second: Model)
    requires first.id == second.id
    ensures Candidates([[first, second]], first.id) == [first]
  {
    var reg := [[first, second]];
    assert reg[..0] == [] && FindIn(reg[0], first.id) == Some(first);
  }

  // ----- The loops -----

  /** `candidates.sort(...)[0]`: the head of the stable sort by falling richness. */
  function RichestFirst(candidates: seq<Model>): Model
    requires candidates != []
  {
    SortedIsNonEmpty(candidates);
    StableSort(candidates, Poorness)[0]
  }

  lemma SortedIsNonEmpty(candidates: seq<Model>)
    requires candidates != []
    ensures StableSort(candidates, Poorness) != []
  {
    SortIsPermutation(candidates, Poorness);
    assert candidates[0] in multiset(candidates);
  }

  lemma SortedHeadIsFirstRichest(candidates: seq<Model>)
    requires candidates != []
    ensures FirstRichest(candidates, RichestFirst(candidates))
  {
    var k := SortHead(candidates, Poorness);
    assert candidates[k] == RichestFirst(candidates);
    assert forall i | 0 <= i < |candidates| :: Poorness(candidates[k]) <= Poorness(candidates[i]);
  }

  method CollectCandidates(reg: Registry, id: string) returns (candidates: seq<Model>)
    ensures candidates == Candidates(reg, id)
  {
    candidates := [];
    for i := 0 to |reg|
      invariant candidates == Candidates(reg[..i], id)
    {
      assert reg[..i + 1][..i] == reg[..i];
      var found := FindIn(reg[i], id);
      if found.Some? {
        candidates := candidates + [found.value];
      }
    }
    assert reg[..|reg|] == reg;
  }

  lemma BestPrefixExtend(rows: seq<Model>, name: string, r: Option<Model>, m: Model)
    requires BestPrefix(rows, name, r)
    ensures BestPrefix(
      rows + [m], name, if m.id <= name && (r.None? || Worse(r.value, m)) then Some(m) else r)
  {
    var rows' := rows + [m];
    assert forall i | 0 <= i < |rows| :: rows'[i] == rows[i];
    if m.id <= name && (r.None? || Worse(r.value, m)) {
      assert rows'[|rows|] == m;
    } else if r.Some? {
      var k :| 0 <= k < |rows|
               && rows[k] == r.value
               && (forall i | 0 <= i < |rows| && rows[i].id <= name :: !Worse(r.value, rows[i]))
               && (forall i | 0 <= i < k && rows[i].id <= name :: Worse(rows[i], r.value));
      assert rows'[k] == r.value;
    }
  }

  method LongestPrefix(reg: Registry, name: string) returns (best: Option<Model>)
    ensures BestPrefix(Rows(reg), name, best)
  {
    best := None;
    for p := 0 to |reg|
      invariant BestPrefix(Rows(reg[..p]), name, best)
    {
      ghost var before := Rows(reg[..p]);
      assert reg[..p + 1][..p] == reg[..p];
      assert before + reg[p][..0] == before;
      for i := 0 to |reg[p]|
        invariant BestPrefix(before + reg[p][..i], name, best)
      {
        var m := reg[p][i];
        assert before + reg[p][..i] + [m] == before + reg[p][..i + 1];
        BestPrefixExtend(before + reg[p][..i], name, best, m);
        if m.id <= name && (best.None? || Worse(best.value, m)) {
          best := Some(m);
        }
      }
      assert reg[p][..|reg[p]|] == reg[p];
    }
    assert reg[..|reg|] == reg;
  }

  method GetGlobalModel(reg: Registry, id: string) returns (r: Option<Model>)
    ensures IsGlobalModel(reg, id, r)
  {
    var candidates := CollectCandidates(reg, id);
    if candidates != [] {
      SortedHeadIsFirstRichest(candidates);
      return Some(RichestFirst(candidates));
    }
    candidates := CollectCandidates(reg, Basename(id));
    if candidates != [] {
      SortedHeadIsFirstRichest(candidates);
      return Some(RichestFirst(candidates));
    }
    r := LongestPrefix(reg, Basename(id));
  }

  /** The first candidate under the id, or under the basename when that differs. */
  function RegistryModelById(reg: Registry, id: string): Option<Model> {
    FirstUnder(reg, id, Basename(id))
  }

  function FirstUnder(reg: Registry, id: string, name: string): Option<Model> {
    var exact, base := Candidates(reg, id), Candidates(reg, name);
    if id == "" then None
    else if exact != [] then Some(exact[0])
    else if base != [] && name != id then Some(base[0])
    else None
  }

  /** The row found is the first one under the id of the first provider that has it, or under its basename. */
  lemma {:induction false} FoundIsFirst(reg: Registry, id: string, name: string, p: nat, key: string)
    requires id != "" && IsFirstProvider(reg, key, p) && (key == id || (key == name && NoProvider(reg, id)))
    ensures FirstUnder(reg, id, name) == FindIn(reg[p], key)
  {
    CandidateAt(reg, key, p);
    forall q | 0 <= q < p ensures !Has(reg[..p], key, q) {
      assert !Has(reg, key, q);
    }
    NoCandidates(reg[..p], key);
    if key != id {
      NoCandidates(reg, id);
    }
  }

  /** No provider before `p` has a row under the key, and `p` has. */
  ghost predicate IsFirstProvider(reg: Registry, key: string, p: nat) {
    Has(reg, key, p) && forall q | 0 <= q < p :: !Has(reg, key, q)
  }

  ghost predicate NoProvider(reg: Registry, id: string) {
    forall q | 0 <= q < |reg| :: !Has(reg, id, q)
  }

  lemma {:induction false} NoCandidates(reg: Registry, id: string)
    requires NoProvider(reg, id)
    ensures Candidates(reg, id) == []
  {
    if reg != [] {
      var init := reg[..|reg| - 1];
      assert forall q | 0 <= q < |init| :: Has(init, id, q) <==> Has(reg, id, q);
      assert !Has(reg, id, |reg| - 1);
      NoCandidates(init, id);
    }
  }

  lemma {:induction false} CandidatesPrefix(reg: Registry, n: nat, id: string)
    requires n <= |reg|
    ensures Candidates(reg[..n], id) <= Candidates(reg, id)
    decreases |reg|
  {
    if n < |reg| {
      assert reg[..|reg| - 1][..n] == reg[..n];
      CandidatesPrefix(reg[..|reg| - 1], n, id);
    } else {
      assert reg[..n] == reg;
    }
  }

  /** Search with early return: the first candidate. */
  method FirstCandidate(reg: Registry, id: string) returns (r: Option<Model>)
    ensures r == if Candidates(reg, id) == [] then None else Some(Candidates(reg, id)[0])
  {
    for i := 0 to |reg|
      invariant Candidates(reg[..i], id) == []
    {
      assert reg[..i + 1][..i] == reg[..i];
      var found := FindIn(reg[i], id);
      if found.Some? {
        CandidatesPrefix(reg, i + 1, id);
        return found;
      }
    }
    assert reg[..|reg|] == reg;
    r := None;
  }

  method FindRegistryModelById(reg: Registry, id: string) returns (r: Option<Model>)
    ensures r == RegistryModelById(reg, id)
  {
    if id == "" {
      return None;
    }
    r := FirstCandidate(reg, id);
    if r.Some? {
      return;
    }
    if Basename(id) == id {
      return None;
    }
    r := FirstCandidate(reg, Basename(id));
  }

  /** Whenever the exact lookup finds a row, the best match has the same id. */
  lemma ExactLookupAgrees(reg: Registry, id: string, name: string, best: Option<Model>)
    requires FirstUnder(reg, id, name).Some?
    ensures IsBestMatch(reg, id, name, best) ==> best.Some? && best.value.id == FirstUnder(reg, id, name).value.id
  {
    CandidatesHaveId(reg, id);
    CandidatesHaveId(reg, name);
  }
}
