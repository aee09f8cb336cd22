/**
 The removal of `enumDescriptions` from tool schemas, at every depth, and the rewrite of a
 request that applies it to the parameters of declared functions and to nothing else.
 */
module SchemaStrip {
  import opened Options
  import opened Seqs
  import opened Records
  import opened Json

  const ENUM_DESCRIPTIONS := "enumDescriptions"

  // ----- The strip -----

  function Strip(j: Json, key: string): Json
    decreases j, 1
  {
    match j
    case Arr(items) => Arr(StripItems(items, key))
    case Obj(fields) => Obj(StripFields(j, |fields|, key))
    case _ => j
  }

  function StripItems(items: seq<Json>, key: string): seq<Json>
    decreases items, 0
  {
    if items == [] then [] else StripItems(items[..|items| - 1], key) + [Strip(items[|items| - 1], key)]
  }

  /** The first `n` fields of an object, stripped. */
  function StripFields(j: Json, n: nat, key: string): Record<Json>
    requires j.Obj? && n <= |j.fields|
    decreases j, 0, n
  {
    if n == 0 then []
    else
      var init, last := StripFields(j, n - 1, key), j.fields[n - 1];
      if last.0 == key then init else init + [(last.0, Strip(last.1, key))]
  }

  // ----- Paths -----

  datatype Step = Key(name: string) | Index(i: nat)

  function Child(j: Json, step: Step): Option<Json> {
    match step
    case Key(name) => Field(j, name)
    case Index(i) => if j.Arr? && i < |j.items| then Some(j.items[i]) else None
  }

  function Lookup(j: Json, path: seq<Step>): Option<Json>
    decreases path
  {
    if path == [] then Some(j)
    else
      var child := Child(j, path[0]);
      if child.None? then None else Lookup(child.value, path[1..])
  }

  lemma {:induction false} StripItemsAt(items: seq<Json>, key: string)
    ensures |StripItems(items, key)| == |items|
    ensures forall i | 0 <= i < |items| :: StripItems(items, key)[i] == Strip(items[i], key)
  {
    if items != [] {
      StripItemsAt(items[..|items| - 1], key);
    }
  }

  lemma {:induction false} GetAppend(r: Record<Json>, e: (string, Json), name: string)
    ensures Get(r + [e], name) == if Get(r, name).Some? then Get(r, name) else if e.0 == name then Some(e.1) else None
  {
    if r != [] {
      assert (r + [e])[1..] == r[1..] + [e];
      GetAppend(r[1..], e, name);
    } else {
      assert ([e])[1..] == [];
    }
  }

  lemma {:induction false} StripFieldsGet(j: Json, n: nat, key: string, name: string)
    requires j.Obj? && n <= |j.fields|
    ensures var found := Get(j.fields[..n], name);
            Get(StripFields(j, n, key), name) ==
            if name == key || found.None? then None else Some(Strip(found.value, key))
    decreases n
  {
    if n > 0 {
      var last := j.fields[n - 1];
      StripFieldsGet(j, n - 1, key, name);
      assert j.fields[..n] == j.fields[..n - 1] + [last];
      GetAppend(j.fields[..n - 1], last, name);
      GetAppend(StripFields(j, n - 1, key), (last.0, Strip(last.1, key)), name);
    }
  }

  lemma StripChild(j: Json, key: string, step: Step)
    ensures Child(Strip(j, key), step) ==
            if step == Key(key) || Child(j, step).None? then None else Some(Strip(Child(j, step).value, key))
  {
    match j
    case Arr(items) => StripItemsAt(items, key);
    case Obj(fields) =>
      if step.Key? {
        StripFieldsGet(j, |fields|, key, step.name);
        assert fields[..|fields|] == fields;
      }
    case _ =>
  }

  /** A path through the key leads nowhere; every other path leads to the stripped original. */
  lemma {:induction false} StripKeepsPaths(j: Json, key: string, path: seq<Step>)
    ensures Lookup(Strip(j, key), path) ==
            if Key(key) in path || Lookup(j, path).None? then None else Some(Strip(Lookup(j, path).value, key))
    decreases path
  {
    if path != [] {
      StripChild(j, key, path[0]);
      if path[0] != Key(key) && Child(j, path[0]).Some? {
        StripKeepsPaths(Child(j, path[0]).value, key, path[1..]);
      }
    }
  }

  /** The key occurs nowhere in the value. */
  predicate Clean(j: Json, key: string)
    decreases j
  {
    match j
    case Arr(items) => forall x | x in items :: Clean(x, key)
    case Obj(fields) => forall e | e in fields :: e.0 != key && Clean(e.1, key)
    case _ => true
  }

  /** The strip leaves a clean value, and is the identity exactly on clean ones. */
  lemma {:induction false} StripIsClean(j: Json, key: string)
    ensures Clean(Strip(j, key), key)
    ensures Strip(j, key) == j <==> Clean(j, key)
    decreases j, 1
  {
    match j
    case Arr(items) => StripItemsClean(items, key);
    case Obj(fields) =>
      StripFieldsClean(j, |fields|, key);
      assert fields[..|fields|] == fields;
    case _ =>
  }

  lemma {:induction false} StripItemsClean(items: seq<Json>, key: string)
    ensures forall x | x in StripItems(items, key) :: Clean(x, key)
    ensures StripItems(items, key) == items <==> forall x | x in items :: Clean(x, key)
    decreases items, 0
  {
    if items != [] {
      var init, last := items[..|items| - 1], items[|items| - 1];
      assert items == init + [last];
      StripItemsClean(init, key);
      StripIsClean(last, key);
      StripItemsAt(items, key);
      StripItemsAt(init, key);
      assert StripItems(items, key)[..|init|] == StripItems(init, key);
    }
  }

  lemma {:induction false} StripFieldsClean(j: Json, n: nat, key: string)
    requires j.Obj? && n <= |j.fields|
    ensures |StripFields(j, n, key)| <= n
    ensures forall e | e in StripFields(j, n, key) :: e.0 != key && Clean(e.1, key)
    ensures StripFields(j, n, key) == j.fields[..n] <==> forall e | e in j.fields[..n] :: e.0 != key && Clean(e.1, key)
    decreases j, 0, n
  {
    if n > 0 {
      var init, last := j.fields[..n - 1], j.fields[n - 1];
      assert j.fields[..n] == init + [last];
      StripFieldsClean(j, n - 1, key);
      StripIsClean(last.1, key);
      if last.0 != key && |StripFields(j, n - 1, key)| == n - 1 {
        assert StripFields(j, n, key)[..n - 1] == StripFields(j, n - 1, key);
      }
    }
  }

  function Names(fields: Record<Json>): seq<string> {
    if fields == [] then [] else Names(fields[..|fields| - 1]) + [fields[|fields| - 1].0]
  }

  /** The remaining fields keep their order. */
  lemma {:induction false} StripKeepsFieldOrder(j: Json, n: nat, key: string)
    requires j.Obj? && n <= |j.fields|
    ensures Names(StripFields(j, n, key)) == Filter(Names(j.fields[..n]), name => name != key)
    decreases n
  {
    if n > 0 {
      var init, last := StripFields(j, n - 1, key), j.fields[n - 1];
      StripKeepsFieldOrder(j, n - 1, key);
      assert j.fields[..n][..n - 1] == j.fields[..n - 1];
      FilterConcat(Names(j.fields[..n - 1]), [last.0], name => name != key);
      if last.0 != key {
        assert StripFields(j, n, key)[..|init|] == init;
      }
    }
  }

  lemma StripIdempotent(j: Json, key: string)
    ensures Strip(Strip(j, key), key) == Strip(j, key)
  {
    StripIsClean(j, key);
    StripIsClean(Strip(j, key), key);
  }

  /** The recursion with its loops. */
  method StripSchema(j: Json, key: string) returns (r: Json)
    ensures r == Strip(j, key)
    decreases j
  {
    match j
    case Arr(items) =>
      var out := [];
      for i := 0 to |items|
        invariant out == StripItems(items[..i], key)
      {
        assert items[..i + 1][..i] == items[..i];
        var x := StripSchema(items[i], key);
        out := out + [x];
      }
      assert items[..|items|] == items;
      return Arr(out);
    case Obj(fields) =>
      var out := [];
      for i := 0 to |fields|
        invariant out == StripFields(j, i, key)
      {
        if fields[i].0 != key {
          var x := StripSchema(fields[i].1, key);
          out := out + [(fields[i].0, x)];
        }
      }
      return Obj(out);
    case _ =>
      return j;
  }

  // ----- Rewriting below a fixed path -----

  /** A rewrite below fields and array items; at its end the strip. */
  datatype Rewrite = StripHere(key: string) | AtField(name: string, inner: Rewrite) | AtItems(each: Rewrite)

  function Apply(rw: Rewrite, j: Json): Json
    decreases rw, 1
  {
    match rw
    case StripHere(key) => Strip(j, key)
    case AtField(name, inner) =>
      if Field(j, name).Some? then Obj(Put(j.fields, name, Apply(inner, Field(j, name).value))) else j
    case AtItems(each) => if j.Arr? then Arr(ApplyAll(each, j.items)) else j
  }

  function ApplyAll(rw: Rewrite, items: seq<Json>): seq<Json>
    decreases rw, 2, items
  {
    if items == [] then [] else ApplyAll(rw, items[..|items| - 1]) + [Apply(rw, items[|items| - 1])]
  }

  lemma {:induction false} ApplyAllAt(rw: Rewrite, items: seq<Json>)
    ensures |ApplyAll(rw, items)| == |items|
    ensures forall i | 0 <= i < |items| :: ApplyAll(rw, items)[i] == Apply(rw, items[i])
  {
    if items != [] {
      ApplyAllAt(rw, items[..|items| - 1]);
    }
  }

  /** The number of steps down to the strip. */
  function Depth(rw: Rewrite): nat {
    match rw
    case StripHere(_) => 0
    case AtField(_, inner) => 1 + Depth(inner)
    case AtItems(each) => 1 + Depth(each)
  }

  /** The path stays on the way to the strip, or goes on below it. */
  predicate Follows(rw: Rewrite, path: seq<Step>) {
    match rw
    case StripHere(_) => true
    case AtField(name, inner) => path == [] || (path[0] == Key(name) && Follows(inner, path[1..]))
    case AtItems(each) => path == [] || (path[0].Index? && Follows(each, path[1..]))
  }

  function StripKeyOf(rw: Rewrite): string {
    match rw
    case StripHere(key) => key
    case AtField(_, inner) => StripKeyOf(inner)
    case AtItems(each) => StripKeyOf(each)
  }

  /** What the path leads to in the original: below the strip, what it leads to in the stripped value. */
  function Seen(rw: Rewrite, j: Json, path: seq<Step>): Option<Json>
    requires Depth(rw) <= |path|
  {
    var top := Lookup(j, path[..Depth(rw)]);
    if top.None? then None else Lookup(Strip(top.value, StripKeyOf(rw)), path[Depth(rw)..])
  }

  lemma RewriteChild(rw: Rewrite, j: Json, step: Step)
    requires !rw.StripHere?
    ensures var inner := if rw.AtField? then rw.inner else rw.each;
            var onWay := if rw.AtField? then step == Key(rw.name) else step.Index?;
            Child(Apply(rw, j), step) ==
            if onWay && Child(j, step).Some? then Some(Apply(inner, Child(j, step).value)) else Child(j, step)
  {
    match rw
    case AtField(name, inner) =>
      if Field(j, name).Some? && step.Key? {
        GetPut(j.fields, name, Apply(inner, Field(j, name).value), step.name);
      }
    case AtItems(each) =>
      if j.Arr? {
        ApplyAllAt(each, j.items);
      }
  }

  /** A rewrite changes nothing off its way, and only strips at its end. */
  lemma {:induction false} RewriteLookup(rw: Rewrite, j: Json, path: seq<Step>)
    ensures !Follows(rw, path) ==> Lookup(Apply(rw, j), path) == Lookup(j, path)
    ensures Follows(rw, path) && Depth(rw) <= |path| ==> Lookup(Apply(rw, j), path) == Seen(rw, j, path)
    decreases rw
  {
    if rw.StripHere? {
      assert path[0..] == path;
    } else if path != [] {
      var inner := if rw.AtField? then rw.inner else rw.each;
      RewriteChild(rw, j, path[0]);
      if Child(j, path[0]).Some? {
        RewriteLookup(inner, Child(j, path[0]).value, path[1..]);
      }
      if Depth(rw) <= |path| {
        var d := Depth(inner);
        assert path[..d + 1][1..] == path[1..][..d] && path[d + 1..] == path[1..][d..];
      }
    }
  }

  /** The same scalar, arrays of one length, or objects with the same names in order. */
  predicate SameShape(a: Json, b: Json) {
    if a.Arr? && b.Arr? then |a.items| == |b.items|
    else if a.Obj? && b.Obj? then SameNames(a.fields, b.fields)
    else a == b
  }

  /** On its way a rewrite keeps every value's shape, and neither makes nor loses one. */
  lemma {:induction false} RewriteKeepsShape(rw: Rewrite, j: Json, path: seq<Step>)
    requires |path| < Depth(rw)
    ensures var before, after := Lookup(j, path), Lookup(Apply(rw, j), path);
            if before.None? then after.None? else after.Some? && SameShape(before.value, after.value)
    decreases rw
  {
    if path == [] {
      if rw.AtItems? && j.Arr? {
        ApplyAllAt(rw.each, j.items);
      } else if rw.AtField? && Field(j, rw.name).Some? {
        PutInPlace(j.fields, rw.name, Apply(rw.inner, Field(j, rw.name).value));
      }
    } else {
      var inner := if rw.AtField? then rw.inner else rw.each;
      RewriteChild(rw, j, path[0]);
      if Child(j, path[0]).Some? {
        RewriteKeepsShape(inner, Child(j, path[0]).value, path[1..]);
      }
    }
  }

  /** The parameters of every declared function: `request.tools[].functionDeclarations[].parameters`. */
  const DECLARATION := AtField("parameters", StripHere(ENUM_DESCRIPTIONS))
  const TOOL := AtField("functionDeclarations", AtItems(DECLARATION))
  const SANITIZE := AtField("request", AtField("tools", AtItems(TOOL)))

  /** The path leads towards `request.tools[].functionDeclarations[].parameters`, or on below. */
  predicate ToParameters(path: seq<Step>) {
    && (|path| > 0 ==> path[0] == Key("request"))
    && (|path| > 1 ==> path[1] == Key("tools"))
    && (|path| > 2 ==> path[2].Index?)
    && (|path| > 3 ==> path[3] == Key("functionDeclarations"))
    && (|path| > 4 ==> path[4].Index?)
    && (|path| > 5 ==> path[5] == Key("parameters"))
  }

  lemma FollowsDeclaration(path: seq<Step>)
    ensures Follows(DECLARATION, path) <==> path == [] || path[0] == Key("parameters")
  {
  }

  lemma FollowsTool(path: seq<Step>)
    ensures Follows(TOOL, path) <==>
            && (|path| > 0 ==> path[0] == Key("functionDeclarations"))
            && (|path| > 1 ==> path[1].Index?)
            && (|path| > 2 ==> path[2] == Key("parameters"))
  {
    if |path| > 1 {
      FollowsDeclaration(path[1..][1..]);
    }
  }

  lemma FollowsToParameters(path: seq<Step>)
    ensures Follows(SANITIZE, path) <==> ToParameters(path)
  {
    var inTools := AtItems(TOOL);
    var inRequest := AtField("tools", inTools);
    if path != [] {
      var tools := path[1..];
      assert Follows(SANITIZE, path) <==> path[0] == Key("request") && Follows(inRequest, tools);
      if tools != [] {
        var items := tools[1..];
        assert Follows(inRequest, tools) <==> tools[0] == Key("tools") && Follows(inTools, items);
        if items != [] {
          FollowsTool(items[1..]);
          assert Follows(inTools, items) <==> items[0].Index? && Follows(TOOL, items[1..]);
          assert forall i | 0 <= i < |items[1..]| :: items[1..][i] == path[i + 3];
        }
      }
    }
  }

  /**
   Sanitizing changes nothing except declaration parameters, which it strips: values off the way are
   equal, and those on the way to the parameters keep their shape.
   */
  lemma SanitizeTouchesOnlyParameters(body: Json, path: seq<Step>)
    ensures !ToParameters(path) ==> Lookup(Apply(SANITIZE, body), path) == Lookup(body, path)
    ensures ToParameters(path) && 6 <= |path| ==>
              var top := Lookup(body, path[..6]);
              Lookup(Apply(SANITIZE, body), path) ==
              if top.None? then None else Lookup(Strip(top.value, "enumDescriptions"), path[6..])
    ensures |path| < 6 ==>
              var before, after := Lookup(body, path), Lookup(Apply(SANITIZE, body), path);
              if before.None? then after.None? else after.Some? && SameShape(before.value, after.value)
  {
    assert Depth(DECLARATION) == 1 && Depth(TOOL) == 3 && Depth(SANITIZE) == 6;
    assert StripKeyOf(SANITIZE) == StripKeyOf(TOOL) == StripKeyOf(DECLARATION) == ENUM_DESCRIPTIONS;
    FollowsToParameters(path);
    RewriteLookup(SANITIZE, body, path);
    if |path| < 6 {
      RewriteKeepsShape(SANITIZE, body, path);
    }
  }

  lemma FieldRewriteIdempotent(name: string, inner: Rewrite, j: Json)
    requires Field(j, name).Some? ==>
               var v := Field(j, name).value; Apply(inner, Apply(inner, v)) == Apply(inner, v)
    ensures Apply(AtField(name, inner), Apply(AtField(name, inner), j)) == Apply(AtField(name, inner), j)
  {
    if Field(j, name).Some? {
      var v := Apply(inner, Field(j, name).value);
      GetPut(j.fields, name, v, name);
      PutPut(j.fields, name, v, v);
    }
  }

  lemma ItemsRewriteIdempotent(each: Rewrite, j: Json)
    requires j.Arr? ==> forall i | 0 <= i < |j.items| :: Apply(each, Apply(each, j.items[i])) == Apply(each, j.items[i])
    ensures Apply(AtItems(each), Apply(AtItems(each), j)) == Apply(AtItems(each), j)
  {
    if j.Arr? {
      var once := ApplyAll(each, j.items);
      ApplyAllAt(each, j.items);
      ApplyAllAt(each, once);
      assert ApplyAll(each, once) == once;
    }
  }

  lemma {:induction false} ApplyIdempotent(rw: Rewrite, j: Json)
    ensures Apply(rw, Apply(rw, j)) == Apply(rw, j)
    decreases rw
  {
    match rw
    case StripHere(key) => StripIdempotent(j, key);
    case AtField(name, inner) =>
      if Field(j, name).Some? {
        ApplyIdempotent(inner, Field(j, name).value);
      }
      FieldRewriteIdempotent(name, inner, j);
    case AtItems(each) =>
      if j.Arr? {
        forall i | 0 <= i < |j.items| ensures Apply(each, Apply(each, j.items[i])) == Apply(each, j.items[i]) {
          ApplyIdempotent(each, j.items[i]);
        }
      }
      ItemsRewriteIdempotent(each, j);
  }

  // ----- The loops, with their changed flags -----

  method SanitizeDeclarations(items: seq<Json>) returns (out: seq<Json>, changed: bool)
    ensures out == ApplyAll(DECLARATION, items)
    ensures !changed ==> out == items
  {
    out, changed := [], false;
    for i := 0 to |items|
      invariant out == ApplyAll(DECLARATION, items[..i])
      invariant !changed ==> out == items[..i]
    {
      assert items[..i + 1][..i] == items[..i];
      var parameters := Field(items[i], "parameters");
      if parameters.None? {
        out := out + [items[i]];
      } else {
        changed := true;
        var stripped := StripSchema(parameters.value, ENUM_DESCRIPTIONS);
        out := out + [Obj(Put(items[i].fields, "parameters", stripped))];
      }
    }
    assert items[..|items|] == items;
  }

  method SanitizeTools(tools: seq<Json>) returns (out: seq<Json>, changed: bool)
    ensures out == ApplyAll(TOOL, tools)
    ensures !changed ==> out == tools
  {
    out, changed := [], false;
    for i := 0 to |tools|
      invariant out == ApplyAll(TOOL, tools[..i])
      invariant !changed ==> out == tools[..i]
    {
      assert tools[..i + 1][..i] == tools[..i];
      var declarations := Field(tools[i], "functionDeclarations");
      if declarations.None? || !declarations.value.Arr? {
        if declarations.Some? {
          PutSame(tools[i].fields, "functionDeclarations", declarations.value);
        }
        out := out + [tools[i]];
      } else {
        var sanitized, declarationsChanged := SanitizeDeclarations(declarations.value.items);
        if !declarationsChanged {
          PutSame(tools[i].fields, "functionDeclarations", declarations.value);
          out := out + [tools[i]];
        } else {
          changed := true;
          out := out + [Obj(Put(tools[i].fields, "functionDeclarations", Arr(sanitized)))];
        }
      }
    }
    assert tools[..|tools|] == tools;
  }

  /** An unchanged body is returned as it is. */
  method SanitizePayload(fields: Record<Json>) returns (r: Record<Json>)
    ensures Obj(r) == Apply(SANITIZE, Obj(fields))
  {
    var request := Get(fields, "request");
    if request.None? || !request.value.Obj? {
      if request.Some? {
        PutSame(fields, "request", request.value);
      }
      return fields;
    }
    var tools := Get(request.value.fields, "tools");
    if tools.None? || !tools.value.Arr? {
      if tools.Some? {
        PutSame(request.value.fields, "tools", tools.value);
      }
      PutSame(fields, "request", request.value);
      return fields;
    }
    var sanitized, changed := SanitizeTools(tools.value.items);
    if !changed {
      PutSame(request.value.fields, "tools", tools.value);
      PutSame(fields, "request", request.value);
      return fields;
    }
    return Put(fields, "request", Obj(Put(request.value.fields, "tools", Arr(sanitized))));
  }
}
