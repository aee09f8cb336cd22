/**
 JavaScript objects as ordered records. A new key goes to the end, a write to an existing
 key keeps its place; this is the order of JavaScript for names that are not integers. The name
 `__proto__`, under which a plain write sets the prototype and no field, is taken not to occur.
 */
module Records {
  import opened Options

  type Record<V> = seq<(string, V)>

  /** HTTP headers. */
  type Bag = Record<string>

  predicate UniqueKeys<V>(r: Record<V>) {
    forall i, j | 0 <= i < j < |r| :: r[i].0 != r[j].0
  }

  /** No two keys differ only by case. */
  predicate CaseUnique<V>(lower: string -> string, r: Record<V>) {
    forall i, j | 0 <= i < j < |r| :: lower(r[i].0) != lower(r[j].0)
  }

  predicate HasKey<V>(r: Record<V>, key: string) {
    exists i | 0 <= i < |r| :: r[i].0 == key
  }

  /** The value of the first field called `key`. */
  function Get<V>(r: Record<V>, key: string): Option<V> {
    if r == [] then None
    else if r[0].0 == key then Some(r[0].1)
    else Get(r[1..], key)
  }

  /** `r[key] = value`: in place when present, appended otherwise. */
  function Put<V>(r: Record<V>, key: string, value: V): Record<V> {
    if r == [] then [(key, value)]
    else if r[0].0 == key then [(key, value)] + r[1..]
    else [r[0]] + Put(r[1..], key, value)
  }

  /** `delete r[key]`. */
  function Delete<V>(r: Record<V>, key: string): Record<V> {
    if r == [] then []
    else if r[0].0 == key then Delete(r[1..], key)
    else [r[0]] + Delete(r[1..], key)
  }

  lemma {:induction false} GetIsFirst<V>(r: Record<V>, key: string)
    ensures Get(r, key).Some? <==> HasKey(r, key)
    ensures Get(r, key).Some? ==> (key, Get(r, key).value) in r
  {
    if r != [] && r[0].0 != key {
      GetIsFirst(r[1..], key);
      if HasKey(r, key) {
        var i :| 0 <= i < |r| && r[i].0 == key;
        assert r[1..][i - 1].0 == key;
      }
    }
  }

  lemma {:induction false} GetUnique<V>(r: Record<V>, i: nat)
    requires i < |r| && UniqueKeys(r)
    ensures Get(r, r[i].0) == Some(r[i].1)
  {
    if i > 0 {
      GetUnique(r[1..], i - 1);
    }
  }

  lemma {:induction false} GetPut<V>(r: Record<V>, key: string, value: V, other: string)
    ensures Get(Put(r, key, value), other) == if other == key then Some(value) else Get(r, other)
  {
    if r != [] && r[0].0 != key {
      GetPut(r[1..], key, value, other);
      assert Put(r, key, value)[1..] == Put(r[1..], key, value);
    } else if r != [] {
      assert Put(r, key, value)[1..] == r[1..];
    }
  }

  /** The same names in the same order. */
  predicate SameNames<V>(a: Record<V>, b: Record<V>) {
    |a| == |b| && forall i | 0 <= i < |a| :: a[i].0 == b[i].0
  }

  lemma {:induction false} PutInPlace<V>(r: Record<V>, key: string, value: V)
    requires Get(r, key).Some?
    ensures SameNames(Put(r, key, value), r)
  {
    if r[0].0 != key {
      PutInPlace(r[1..], key, value);
    }
  }

  lemma {:induction false} PutSame<V>(r: Record<V>, key: string, value: V)
    requires Get(r, key) == Some(value)
    ensures Put(r, key, value) == r
  {
    if r[0].0 != key {
      PutSame(r[1..], key, value);
    }
  }

  lemma {:induction false} PutPut<V>(r: Record<V>, key: string, v: V, w: V)
    ensures Put(Put(r, key, v), key, w) == Put(r, key, w)
  {
    if r != [] && r[0].0 != key {
      PutPut(r[1..], key, v, w);
      assert Put(r, key, v)[1..] == Put(r[1..], key, v);
    } else if r != [] {
      assert Put(r, key, v)[1..] == r[1..];
    }
  }

  lemma {:induction false} PutNew<V>(r: Record<V>, key: string, value: V)
    requires !HasKey(r, key)
    ensures Put(r, key, value) == r + [(key, value)]
  {
    if r != [] {
      assert forall i | 0 <= i < |r[1..]| :: r[1..][i] == r[i + 1];
      PutNew(r[1..], key, value);
    }
  }

  lemma {:induction false} DeleteAbsent<V>(r: Record<V>, key: string)
    requires forall i | 0 <= i < |r| :: r[i].0 != key
    ensures Delete(r, key) == r
  {
    if r != [] {
      DeleteAbsent(r[1..], key);
    }
  }

  lemma {:induction false} DeleteAt<V>(r: Record<V>, i: nat)
    requires i < |r| && UniqueKeys(r)
    ensures Delete(r, r[i].0) == r[..i] + r[i + 1..]
  {
    if i == 0 {
      DeleteAbsent(r[1..], r[0].0);
    } else {
      DeleteAt(r[1..], i - 1);
      assert r[1..][..i - 1] == r[1..i] && r[1..][i..] == r[i + 1..];
      assert r[..i] == [r[0]] + r[1..i];
    }
  }

  lemma {:induction false} GetDelete<V>(r: Record<V>, key: string, other: string)
    ensures Get(Delete(r, key), other) == if other == key then None else Get(r, other)
  {
    if r != [] {
      GetDelete(r[1..], key, other);
    }
  }

  lemma {:induction false} DeleteMissing<V>(r: Record<V>, key: string)
    requires Get(r, key).None?
    ensures Delete(r, key) == r
  {
    if r != [] {
      DeleteMissing(r[1..], key);
    }
  }

  lemma {:induction false} DeleteUnique<V>(r: Record<V>, key: string)
    requires UniqueKeys(r)
    ensures UniqueKeys(Delete(r, key))
    ensures forall e | e in Delete(r, key) :: e in r && e.0 != key
  {
    if r != [] {
      var rest := Delete(r[1..], key);
      DeleteUnique(r[1..], key);
      forall j | 0 <= j < |rest| ensures rest[j].0 != r[0].0 {
        assert rest[j] in r[1..];
      }
    }
  }

  lemma {:induction false} DeleteMultiset<V>(r: Record<V>, key: string)
    requires UniqueKeys(r) && Get(r, key).Some?
    ensures multiset(r) == multiset{(key, Get(r, key).value)} + multiset(Delete(r, key))
  {
    assert r == [r[0]] + r[1..];
    if r[0].0 == key {
      assert forall i | 0 <= i < |r[1..]| :: r[1..][i].0 != key;
      DeleteAbsent(r[1..], key);
    } else {
      DeleteMultiset(r[1..], key);
    }
  }
}
