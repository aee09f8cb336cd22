/** The insertion of the tool-use clearing edit into a request's context management. */
module ContextEditing {
  import opened Options
  import opened Seqs
  import opened Records
  import opened Json

  const CLEAR_TOOL_USES := "clear_tool_uses_20250919"
  const CLEAR_THINKING := "clear_thinking_20251015"
  const CONTEXT_MANAGEMENT := "context_management"
  const EDITS := "edits"

  const NEW_EDIT := Obj([
    ("type", Str(CLEAR_TOOL_USES)),
    ("trigger", Obj([("type", Str("input_tokens")), ("value", Num("100000"))])),
    ("keep", Obj([("type", Str("tool_uses")), ("value", Num("3"))]))
  ])

  predicate IsToolUse(edit: Json) {
    Field(edit, "type") == Some(Str(CLEAR_TOOL_USES))
  }

  predicate IsThinking(edit: Json) {
    Field(edit, "type") == Some(Str(CLEAR_THINKING))
  }

  predicate HasToolUse(edits: seq<Json>) {
    exists e | e in edits :: IsToolUse(e)
  }

  /** The edits after the call: unchanged when one clears tool uses, else one more, sorted. */
  function NewEdits(edits: seq<Json>): seq<Json> {
    if HasToolUse(edits) then edits else StableSort(edits + [NEW_EDIT], FirstRank(IsThinking))
  }

  function EditsOf(management: Record<Json>): seq<Json> {
    var edits := Get(management, EDITS);
    if edits.Some? && edits.value.Arr? then edits.value.items else []
  }

  function WithNewEdits(management: Record<Json>): Record<Json> {
    Put(management, EDITS, Arr(NewEdits(EditsOf(management))))
  }

  /**
   The body after the call. A property set on an array is not part of its JSON, so an array in the
   place of the context management stays what it is.
   */
  function Applied(fields: Record<Json>, enabled: bool): Record<Json> {
    var existing := Get(fields, CONTEXT_MANAGEMENT);
    if !enabled || (existing.Some? && existing.value.Arr?) then fields
    else
      var management := if existing.Some? && existing.value.Obj? then existing.value.fields else [];
      Put(fields, CONTEXT_MANAGEMENT, Obj(WithNewEdits(management)))
  }

  // ----- What the call does to the edits -----

  /**
   Without a tool-use edit, the result is the thinking edits, then the others in their order, then the
   new edit: nothing is lost, nothing moves within its rank. With one, the edits are unchanged.
   */
  lemma EditsArePartitioned(edits: seq<Json>)
    ensures HasToolUse(edits) ==> NewEdits(edits) == edits
    ensures !HasToolUse(edits) ==>
              && NewEdits(edits) == Filter(edits, IsThinking) + Filter(edits, Not(IsThinking)) + [NEW_EDIT]
              && multiset(NewEdits(edits)) == multiset(edits) + multiset{NEW_EDIT}
  {
    SortAppended(edits, NEW_EDIT, IsThinking);
    SortIsPermutation(edits + [NEW_EDIT], FirstRank(IsThinking));
  }

  /** After an insertion every thinking edit comes before every edit that clears tool uses. */
  lemma ThinkingComesFirst(edits: seq<Json>, i: nat, j: nat)
    requires !HasToolUse(edits) && i < |NewEdits(edits)| && j < |NewEdits(edits)|
    requires IsThinking(NewEdits(edits)[i]) && IsToolUse(NewEdits(edits)[j])
    ensures i < j
  {
    EditsArePartitioned(edits);
    FilterMembers(edits, IsThinking);
    FilterMembers(edits, Not(IsThinking));
    var kept := Filter(edits, IsThinking) + Filter(edits, Not(IsThinking));
    assert forall k | 0 <= k < |kept| :: kept[k] in edits;
    assert NewEdits(edits)[|kept|] == NEW_EDIT;
  }

  lemma NewEditsHaveToolUse(edits: seq<Json>)
    ensures HasToolUse(NewEdits(edits))
    ensures NewEdits(NewEdits(edits)) == NewEdits(edits)
  {
    if !HasToolUse(edits) {
      SortIsPermutation(edits + [NEW_EDIT], FirstRank(IsThinking));
      assert NEW_EDIT in multiset(edits + [NEW_EDIT]);
      assert NEW_EDIT in NewEdits(edits);
    }
  }

  lemma WithNewEditsTwice(management: Record<Json>)
    ensures WithNewEdits(WithNewEdits(management)) == WithNewEdits(management)
  {
    var edits := NewEdits(EditsOf(management));
    GetPut(management, EDITS, Arr(edits), EDITS);
    NewEditsHaveToolUse(EditsOf(management));
    PutPut(management, EDITS, Arr(edits), Arr(edits));
  }

  /** A second call changes nothing. */
  lemma AppliedIdempotent(fields: Record<Json>, enabled: bool)
    ensures Applied(Applied(fields, enabled), enabled) == Applied(fields, enabled)
  {
    var existing := Get(fields, CONTEXT_MANAGEMENT);
    if enabled && !(existing.Some? && existing.value.Arr?) {
      var management := if existing.Some? && existing.value.Obj? then existing.value.fields else [];
      var once := Obj(WithNewEdits(management));
      GetPut(fields, CONTEXT_MANAGEMENT, once, CONTEXT_MANAGEMENT);
      WithNewEditsTwice(management);
      PutPut(fields, CONTEXT_MANAGEMENT, once, once);
    }
  }

  /** Other properties of the body, and of the context management, are preserved. */
  lemma AppliedKeepsTheRest(fields: Record<Json>, enabled: bool, key: string)
    ensures key != CONTEXT_MANAGEMENT ==> Get(Applied(fields, enabled), key) == Get(fields, key)
    ensures var existing := Get(fields, CONTEXT_MANAGEMENT);
            existing.Some? && existing.value.Obj? && key != EDITS ==>
              var updated := Get(Applied(fields, enabled), CONTEXT_MANAGEMENT);
              updated.Some? && Field(updated.value, key) == Field(existing.value, key)
  {
    var existing := Get(fields, CONTEXT_MANAGEMENT);
    var management := if existing.Some? && existing.value.Obj? then existing.value.fields else [];
    GetPut(fields, CONTEXT_MANAGEMENT, Obj(WithNewEdits(management)), key);
    GetPut(fields, CONTEXT_MANAGEMENT, Obj(WithNewEdits(management)), CONTEXT_MANAGEMENT);
    GetPut(management, EDITS, Arr(NewEdits(EditsOf(management))), key);
  }

  predicate HasType(edit: Json, kind: string) {
    Field(edit, "type") == Some(Str(kind))
  }

  function OfType(kind: string): Json -> bool {
    (edit: Json) => HasType(edit, kind)
  }

  /** The edit that clears tool uses from 100000 input tokens on and keeps the last three. */
  predicate ClearsToolUses(edit: Json) {
    && HasType(edit, "clear_tool_uses_20250919")
    && Field(edit, "trigger") == Some(Obj([("type", Str("input_tokens")), ("value", Num("100000"))]))
    && Field(edit, "keep") == Some(Obj([("type", Str("tool_uses")), ("value", Num("3"))]))
  }

  /** `after` is `before` when it clears tool uses; else the thinking edits, the others, and a new one that does. */
  ghost predicate IsExtended(before: seq<Json>, after: seq<Json>) {
    if exists e | e in before :: HasType(e, "clear_tool_uses_20250919") then after == before
    else
      exists edit | ClearsToolUses(edit) ::
        after == Filter(before, OfType("clear_thinking_20251015"))
                 + Filter(before, Not(OfType("clear_thinking_20251015"))) + [edit]
  }

  /** The edits of a value in the place of the context management; none when it is absent or has no array of them. */
  function EditsIn(management: Option<Json>): seq<Json> {
    if management.Some? && Field(management.value, "edits").Some? && Field(management.value, "edits").value.Arr?
    then Field(management.value, "edits").value.items else []
  }

  lemma NewEditClears()
    ensures ClearsToolUses(NEW_EDIT)
  {
    var fields := NEW_EDIT.fields;
    assert fields[1..][0].0 == "trigger" && fields[1..][1..][0].0 == "keep";
    assert Get(fields, "trigger") == Get(fields[1..], "trigger");
    assert Get(fields, "keep") == Get(fields[1..], "keep") == Get(fields[1..][1..], "keep");
  }

  lemma NewEditsExtend(edits: seq<Json>)
    ensures IsExtended(edits, NewEdits(edits))
  {
    EditsArePartitioned(edits);
    NewEditClears();
    FilterSame(edits, IsThinking, OfType("clear_thinking_20251015"));
    FilterSame(edits, Not(IsThinking), Not(OfType("clear_thinking_20251015")));
    if HasToolUse(edits) {
      var e :| e in edits && IsToolUse(e);
      assert HasType(e, "clear_tool_uses_20250919");
    } else {
      assert !exists e | e in edits :: HasType(e, "clear_tool_uses_20250919") by {
        assert forall e | e in edits :: HasType(e, "clear_tool_uses_20250919") ==> IsToolUse(e);
      }
    }
  }

  /** A call that is not enabled changes nothing; an enabled one leaves the edits extended. */
  lemma AppliedExtends(fields: Record<Json>, enabled: bool)
    ensures !enabled ==> Applied(fields, enabled) == fields
    ensures var before := Get(fields, "context_management");
            var after := Get(Applied(fields, enabled), "context_management");
            enabled && !(before.Some? && before.value.Arr?) ==>
              && after.Some? && after.value.Obj?
              && Field(after.value, "edits").Some? && Field(after.value, "edits").value.Arr?
              && IsExtended(EditsIn(before), Field(after.value, "edits").value.items)
  {
    var existing := Get(fields, CONTEXT_MANAGEMENT);
    var management := if existing.Some? && existing.value.Obj? then existing.value.fields else [];
    NewEditsExtend(EditsOf(management));
    GetPut(fields, CONTEXT_MANAGEMENT, Obj(WithNewEdits(management)), CONTEXT_MANAGEMENT);
    GetPut(management, EDITS, Arr(NewEdits(EditsOf(management))), EDITS);
  }

  /** The request body, mutated in place. */
  class AnthropicBody {
    var fields: Record<Json>

    constructor (initial: Record<Json>)
      ensures fields == initial
    {
      fields := initial;
    }

    method ApplyContextEditing(enabled: bool)
      modifies this
      ensures fields == Applied(old(fields), enabled)
      ensures Applied(fields, enabled) == fields
      ensures forall key | key != CONTEXT_MANAGEMENT :: Get(fields, key) == Get(old(fields), key)
      ensures !enabled ==> fields == old(fields)
      ensures var before, after := Get(old(fields), "context_management"), Get(fields, "context_management");
              enabled && !(before.Some? && before.value.Arr?) ==>
                && after.Some? && after.value.Obj?
                && Field(after.value, "edits").Some? && Field(after.value, "edits").value.Arr?
                && IsExtended(EditsIn(before), Field(after.value, "edits").value.items)
    {
      AppliedExtends(fields, enabled);
      AppliedIdempotent(fields, enabled);
      forall key | key != CONTEXT_MANAGEMENT ensures Get(Applied(fields, enabled), key) == Get(fields, key) {
        AppliedKeepsTheRest(fields, enabled, key);
      }
      if !enabled {
        return;
      }
      var existing := Get(fields, CONTEXT_MANAGEMENT);
      if existing.Some? && existing.value.Arr? {
        return;
      }
      var management := if existing.Some? && existing.value.Obj? then existing.value.fields else [];
      var edits := EditsOf(management);
      if !HasToolUse(edits) {
        edits := edits + [NEW_EDIT];
        edits := StableSort(edits, FirstRank(IsThinking));
      }
      management := Put(management, EDITS, Arr(edits));
      fields := Put(fields, CONTEXT_MANAGEMENT, Obj(management));
    }
  }
}
