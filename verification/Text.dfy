/**
 Strings as the source handles them: white space trimming, substring tests and
 delimiter positions. Case folding is never fixed here: modules that need it take
 a function `lower`, so that their results hold for any case folding.
 */
module Text {

  /** White space and line terminators of ECMAScript, the set `String.prototype.trim` removes. */
  predicate IsSpace(c: char) {
    var n := c as int;
    || 0x09 <= n <= 0x0D
    || n == 0x20
    || n == 0xA0
    || n == 0x1680
    || 0x2000 <= n <= 0x200A
    || n == 0x2028
    || n == 0x2029
    || n == 0x202F
    || n == 0x205F
    || n == 0x3000
    || n == 0xFEFF
  }

  function TrimStart(s: string): string {
    if s == [] || !IsSpace(s[0]) then s else TrimStart(s[1..])
  }

  function TrimEnd(s: string): string {
    if s == [] || !IsSpace(s[|s| - 1]) then s else TrimEnd(s[..|s| - 1])
  }

  function Trim(s: string): string {
    TrimEnd(TrimStart(s))
  }

  /** No white space at either end. */
  predicate Trimmed(s: string) {
    s != [] ==> !IsSpace(s[0]) && !IsSpace(s[|s| - 1])
  }

  /** Trimming is the identity on what has no white space at its ends... */
  lemma TrimFixpoint(s: string)
    requires Trimmed(s)
    ensures Trim(s) == s
  {
  }

  lemma {:induction false} TrimStartResult(s: string)
    ensures TrimStart(s) != [] ==> !IsSpace(TrimStart(s)[0])
    ensures forall c | c in TrimStart(s) :: c in s
  {
    if s != [] && IsSpace(s[0]) {
      TrimStartResult(s[1..]);
    }
  }

  lemma {:induction false} TrimEndResult(s: string)
    ensures TrimEnd(s) <= s
    ensures TrimEnd(s) != [] ==> !IsSpace(TrimEnd(s)[|TrimEnd(s)| - 1])
  {
    if s != [] && IsSpace(s[|s| - 1]) {
      TrimEndResult(s[..|s| - 1]);
    }
  }

  /** ... and always gives such a string, made of characters of the original. */
  lemma TrimResult(s: string)
    ensures Trimmed(Trim(s))
    ensures forall c | c in Trim(s) :: c in s
  {
    TrimStartResult(s);
    TrimEndResult(TrimStart(s));
  }

  predicate AllSpace(s: string) {
    forall i | 0 <= i < |s| :: IsSpace(s[i])
  }

  lemma {:induction false} TrimStartSkips(l: string, s: string)
    requires AllSpace(l) && (s != [] ==> !IsSpace(s[0]))
    ensures TrimStart(l + s) == s
  {
    if l == [] {
      assert l + s == s;
    } else {
      assert (l + s)[0] == l[0] && (l + s)[1..] == l[1..] + s;
      TrimStartSkips(l[1..], s);
    }
  }

  lemma {:induction false} TrimEndSkips(s: string, r: string)
    requires AllSpace(r) && (s != [] ==> !IsSpace(s[|s| - 1]))
    ensures TrimEnd(s + r) == s
  {
    if r == [] {
      assert s + r == s;
    } else {
      var last := |s + r| - 1;
      assert (s + r)[last] == r[|r| - 1] && (s + r)[..last] == s + r[..|r| - 1];
      TrimEndSkips(s, r[..|r| - 1]);
    }
  }

  /** Every string is such a core between white space, so this says what trimming gives. */
  lemma TrimBetween(l: string, core: string, r: string)
    requires AllSpace(l) && AllSpace(r) && Trimmed(core)
    ensures Trim(l + core + r) == core
  {
    assert l + core + r == l + (core + r);
    if core == [] {
      assert l + core + r == (l + r) + [];
      TrimStartSkips(l + r, []);
    } else {
      TrimStartSkips(l, core + r);
      TrimEndSkips(core, r);
    }
  }

  lemma {:induction false} BlankEnd(s: string)
    requires TrimEnd(s) == ""
    ensures forall c | c in s :: IsSpace(c)
  {
    if s != [] {
      BlankEnd(s[..|s| - 1]);
      assert s == s[..|s| - 1] + [s[|s| - 1]];
    }
  }

  lemma {:induction false} BlankStart(s: string)
    requires TrimStart(s) == ""
    ensures forall c | c in s :: IsSpace(c)
  {
    if s != [] {
      BlankStart(s[1..]);
    }
  }

  /** What trims to nothing is white space throughout. */
  lemma BlankIsSpaces(s: string)
    requires Trim(s) == ""
    ensures forall c | c in s :: IsSpace(c)
  {
    BlankEnd(TrimStart(s));
    TrimStartResult(s);
    assert TrimStart(s) == "";
    BlankStart(s);
  }

  predicate EndsWith(s: string, suffix: string) {
    |suffix| <= |s| && s[|s| - |suffix|..] == suffix
  }

  /** The window of `s` at `i` equals `part`. */
  predicate OccursAt(s: string, part: string, i: int) {
    0 <= i <= |s| - |part| && s[i..i + |part|] == part
  }

  /** The source's `s.includes(part)`. */
  predicate Contains(s: string, part: string) {
    exists i | 0 <= i <= |s| - |part| :: OccursAt(s, part, i)
  }

  /** Substring containment is transitive. */
  lemma ContainsTransitive(s: string, mid: string, part: string)
    requires Contains(s, mid) && Contains(mid, part)
    ensures Contains(s, part)
  {
    var i :| 0 <= i <= |s| - |mid| && OccursAt(s, mid, i);
    var j :| 0 <= j <= |mid| - |part| && OccursAt(mid, part, j);
    assert forall k | 0 <= k < |part| :: part[k] == mid[j..j + |part|][k] == s[i + j + k];
    assert OccursAt(s, part, i + j);
  }

  /** A part of either operand is a part of the concatenation. */
  lemma ContainsConcat(a: string, b: string, part: string)
    requires Contains(a, part) || Contains(b, part)
    ensures Contains(a + b, part)
  {
    if Contains(a, part) {
      var i :| 0 <= i <= |a| - |part| && OccursAt(a, part, i);
      assert (a + b)[i..i + |part|] == a[i..i + |part|];
      assert OccursAt(a + b, part, i);
    } else {
      var i :| 0 <= i <= |b| - |part| && OccursAt(b, part, i);
      assert (a + b)[|a| + i..|a| + i + |part|] == b[i..i + |part|];
      assert OccursAt(a + b, part, |a| + i);
    }
  }

  /** `indexOf(c)`: the first position of `c`, or the length when it is absent. */
  function IndexOf(s: string, c: char): (i: nat)
    ensures i <= |s|
    ensures i < |s| ==> s[i] == c
    ensures c !in s[..i]
  {
    if s == [] || s[0] == c then 0
    else
      var r := IndexOf(s[1..], c);
      assert s[..1 + r] == [s[0]] + s[1..][..r];
      1 + r
  }

  /** The first `c` of `a + [c] + b` ends `a`, when `a` has none. */
  lemma IndexOfSplit(a: string, c: char, b: string)
    requires c !in a
    ensures IndexOf(a + [c] + b, c) == |a|
  {
    var s := a + [c] + b;
    var i := IndexOf(s, c);
    assert s[|a|] == c;
    assert forall k | 0 <= k < |a| :: s[k] != c;
  }

  /** `split("/").pop()`: what follows the last slash, the whole string when there is none. */
  function AfterLastSlash(s: string): (r: string)
    ensures '/' !in r
    ensures EndsWith(s, r)
    ensures |r| < |s| ==> s[|s| - |r| - 1] == '/'
  {
    if '/' !in s then s
    else
      var r := AfterLastSlash(s[1..]);
      EndOfTail(s, r);
      r
  }

  lemma EndOfTail(s: string, suffix: string)
    requires s != [] && EndsWith(s[1..], suffix)
    ensures EndsWith(s, suffix)
  {
    assert s[|s| - |suffix|..] == s[1..][|s| - 1 - |suffix|..];
  }

  lemma {:induction false} AfterSlash(front: string, name: string)
    requires '/' !in name
    ensures AfterLastSlash(front + "/" + name) == name
  {
    var s := front + "/" + name;
    assert s[|front|] == '/';
    if front == "" {
      assert s[1..] == name;
    } else {
      assert s[1..] == front[1..] + "/" + name;
      AfterSlash(front[1..], name);
    }
  }
}
