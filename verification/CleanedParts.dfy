/**
 Cleaning of lists and dictionaries, item by item and field by field.
 */
module CleanedParts {
  import opened Schema
  import opened Wrappers

  // The names of the parts of a dictionary are the keys of one.
  ghost predicate WellNamed(a: Attr)
    decreases a
  {
    match a.kind
    case ListK(_, items) => forall k :: 0 <= k < |items| ==> WellNamed(items[k])
    case DictK(attrs, _, _) => DistinctNames(attrs) && forall k :: 0 <= k < |attrs| ==> WellNamed(attrs[k])
    case _ => true
  }

  // A schema without parts.
  predicate Leaf(a: Attr) {
    !a.kind.ListK? && !a.kind.DictK?
  }

  // The choices do not allow null.
  predicate NullBarred(kind: Kind) {
    match kind
    case StrK(choices) => choices.Some? && !Among(Null, choices.value)
    case IntK(choices) => choices.Some? && !Among(Null, choices.value)
    case ListK(choices, _) => choices.Some? && !Among(Null, choices.value)
    case _ => false
  }

  function Simple(name: string, kind: Kind): Attr {
    Attr(name, false, false, false, Null, true, false, kind)
  }

  lemma {:induction false} ItemsAt(items: seq<Attr>, vs: seq<Value>)
    ensures CleanItems(items, vs).Ok? <==> forall k :: 0 <= k < |vs| ==> FirstThatFits(items, vs[k]).Ok?
    ensures CleanItems(items, vs).Ok? ==>
              var ws := CleanItems(items, vs).value;
              |ws| == |vs| && forall k :: 0 <= k < |vs| ==> FirstThatFits(items, vs[k]) == Ok(ws[k])
    decreases |vs|
  {
    if vs != [] {
      ItemsAt(items, vs[1..]);
      assert forall k :: 1 <= k < |vs| ==> vs[k] == vs[1..][k - 1];
    }
  }

  lemma {:induction false} FieldsAt(attrs: seq<Attr>, additional: bool, fields: seq<Field>)
    ensures CleanFields(attrs, additional, fields).Ok? <==> forall k :: 0 <= k < |fields| ==>
          CleanField(attrs, additional, fields[k]).Ok?
    ensures CleanFields(attrs, additional, fields).Ok? ==>
              var r := CleanFields(attrs, additional, fields).value;
              |r| == |fields| && forall k :: 0 <= k < |fields| ==> CleanField(attrs, additional, fields[k]) == Ok(r[k])
    decreases |fields|
  {
    if fields != [] {
      FieldsUnfold(attrs, additional, fields);
      FieldsAt(attrs, additional, fields[1..]);
      assert forall k :: 1 <= k < |fields| ==> fields[k] == fields[1..][k - 1];
    }
  }

  predicate Missing(a: Attr, fields: seq<Field>) {
    Wanted(a) && !HasKey(fields, a.name)
  }

  // The field that is added for a missing attribute.
  ghost predicate Added(a: Attr, f: Field) {
    Clean(a, None).Ok? && f == Field(a.name, Clean(a, None).value)
  }

  ghost predicate AddedFor(attrs: seq<Attr>, fields: seq<Field>, f: Field) {
    exists k :: 0 <= k < |attrs| && Missing(attrs[k], fields) && Added(attrs[k], f)
  }

  ghost predicate IsAdded(a: Attr, r: seq<Field>) {
    exists i :: 0 <= i < |r| && Added(a, r[i])
  }

  /** Defaults are appended for exactly the attributes that are missing. */
  ghost predicate Completes(attrs: seq<Attr>, fields: seq<Field>, r: seq<Field>) {
    && |fields| <= |r| && r[..|fields|] == fields
    && (forall i :: |fields| <= i < |r| ==> AddedFor(attrs, fields, r[i]))
    && (forall k :: 0 <= k < |attrs| && Missing(attrs[k], fields) ==> IsAdded(attrs[k], r))
  }

  lemma {:induction false} DefaultsAt(attrs: seq<Attr>, fields: seq<Field>)
    requires DistinctNames(attrs)
    ensures AddDefaults(attrs, fields).Ok? <==> forall k :: 0 <= k < |attrs| && Missing(attrs[k], fields) ==>
          Clean(attrs[k], None).Ok?
    ensures AddDefaults(attrs, fields).Ok? ==> Completes(attrs, fields, AddDefaults(attrs, fields).value)
    decreases |attrs|
  {
    if attrs != [] {
      var a, rest := attrs[0], attrs[1..];
      assert forall k :: 1 <= k < |attrs| ==> attrs[k] == rest[k - 1];
      if !Missing(a, fields) {
        DefaultsAt(rest, fields);
        if AddDefaults(attrs, fields).Ok? {
          OneMoreAttr(attrs, fields, fields, AddDefaults(attrs, fields).value);
        }
      } else if Clean(a, None).Ok? {
        var added := fields + [Field(a.name, Clean(a, None).value)];
        DefaultsAt(rest, added);
        forall k | 0 <= k < |rest| ensures Missing(rest[k], added) <==> Missing(rest[k], fields) {
          assert attrs[k + 1].name != a.name;
          OneMoreKey(fields, added, a.name, rest[k].name);
        }
        if AddDefaults(attrs, fields).Ok? {
          OneMoreAttr(attrs, fields, added, AddDefaults(attrs, fields).value);
        }
      }
    }
  }

  lemma {:induction false} OneMoreAttr(attrs: seq<Attr>, fields: seq<Field>, added: seq<Field>, r: seq<Field>)
    requires attrs != [] && Completes(attrs[1..], added, r)
    requires forall k :: 1 <= k < |attrs| ==> (Missing(attrs[k], added) <==> Missing(attrs[k], fields))
    requires if Missing(attrs[0], fields) then
               |added| == |fields| + 1 && added[..|fields|] == fields && Added(attrs[0], added[|fields|])
             else added == fields
    ensures Completes(attrs, fields, r)
  {
    assert r[..|fields|] == r[..|added|][..|fields|];
    forall i | |fields| <= i < |r| ensures AddedFor(attrs, fields, r[i]) {
      if i < |added| {
        assert r[i] == r[..|added|][i];
        assert Missing(attrs[0], fields) && Added(attrs[0], r[i]);
      } else {
        assert AddedFor(attrs[1..], added, r[i]);
        var k :| 0 <= k < |attrs[1..]| && Missing(attrs[1..][k], added) && Added(attrs[1..][k], r[i]);
        assert attrs[k + 1] == attrs[1..][k];
      }
    }
    forall k | 0 <= k < |attrs| && Missing(attrs[k], fields) ensures IsAdded(attrs[k], r) {
      if k == 0 {
        assert r[|fields|] == r[..|added|][|fields|];
      } else {
        assert attrs[k] == attrs[1..][k - 1];
      }
    }
  }

  lemma {:induction false} OneMoreKey(fields: seq<Field>, added: seq<Field>, key: string, other: string)
    requires |added| == |fields| + 1 && added[..|fields|] == fields && added[|fields|].key == key && key != other
    ensures HasKey(added, other) <==> HasKey(fields, other)
  {
    if HasKey(added, other) {
      var k :| 0 <= k < |added| && added[k].key == other;
      assert fields[k] == added[k];
    }
    KeysKept(fields, added, other);
  }

  lemma {:induction false} WantedPresent(attrs: seq<Attr>, fields: seq<Field>, k: nat)
    requires DistinctNames(attrs) && AddDefaults(attrs, fields).Ok? && k < |attrs| && Wanted(attrs[k])
    ensures HasKey(AddDefaults(attrs, fields).value, attrs[k].name)
  {
    var r := AddDefaults(attrs, fields).value;
    DefaultsAt(attrs, fields);
    KeysKept(fields, r, attrs[k].name);
    if Missing(attrs[k], fields) {
      var i :| 0 <= i < |r| && Added(attrs[k], r[i]);
      assert r[i].key == attrs[k].name;
    }
  }

  lemma {:induction false} DictFixed(a: Attr, fields: seq<Field>)
    requires a.kind.DictK? && DistinctNames(a.kind.attrs)
    ensures Clean(a, Some(DictV(fields))) == Ok(DictV(fields)) <==>
            && CleanFields(a.kind.attrs, a.kind.additional, fields) == Ok(fields)
            && (!a.kind.update ==> forall k :: 0 <= k < |a.kind.attrs| && Wanted(a.kind.attrs[k]) ==>
                  HasKey(fields, a.kind.attrs[k].name))
  {
    var cleaned := CleanFields(a.kind.attrs, a.kind.additional, fields);
    if !a.kind.update && cleaned.Ok? {
      CleanFieldsKeys(a.kind.attrs, a.kind.additional, fields);
      CompleteExactly(a.kind.attrs, cleaned.value, fields);
    }
  }

  lemma {:induction false} FieldsStable(attrs: seq<Attr>, additional: bool, fields: seq<Field>)
    ensures CleanFields(attrs, additional, fields) == Ok(fields) <==>
            forall i :: 0 <= i < |fields| ==> CleanField(attrs, additional, fields[i]) == Ok(fields[i])
  {
    FieldsAt(attrs, additional, fields);
    if forall i :: 0 <= i < |fields| ==> CleanField(attrs, additional, fields[i]) == Ok(fields[i]) {
      assert CleanFields(attrs, additional, fields).value == fields;
    }
  }

  // Cleaned fields with defaults are the fields that were given only if nothing changed or was missing.
  lemma {:induction false} CompleteExactly(attrs: seq<Attr>, cleaned: seq<Field>, fields: seq<Field>)
    requires DistinctNames(attrs) && |cleaned| == |fields|
    ensures AddDefaults(attrs, cleaned) == Ok(fields) <==>
            cleaned == fields && forall k :: 0 <= k < |attrs| && Wanted(attrs[k]) ==> HasKey(fields, attrs[k].name)
  {
    DefaultsAt(attrs, cleaned);
    if AddDefaults(attrs, cleaned) == Ok(fields) {
      assert fields[..|cleaned|] == fields;
      forall k | 0 <= k < |attrs| && Wanted(attrs[k]) ensures HasKey(fields, attrs[k].name) {
        WantedPresent(attrs, cleaned, k);
      }
    }
    if cleaned == fields && forall k :: 0 <= k < |attrs| && Wanted(attrs[k]) ==> HasKey(fields, attrs[k].name) {
      NoDefaultsLeft(attrs, fields);
    }
  }

  lemma {:induction false} OneItem(items: seq<Attr>, v: Value)
    requires FirstThatFits(items, v).Ok?
    ensures CleanItems(items, [v]) == Ok([FirstThatFits(items, v).value])
  {
    assert [v][1..] == [] && CleanItems(items, []) == Ok([]);
    assert [FirstThatFits(items, v).value] + [] == [FirstThatFits(items, v).value];
  }

  lemma {:induction false} OneField(attrs: seq<Attr>, additional: bool, key: string, v: Value)
    requires Find(attrs, key) < |attrs| && Clean(attrs[Find(attrs, key)], Some(v)).Ok?
    ensures CleanFields(attrs, additional, [Field(key, v)]) ==
            Ok([Field(key, Clean(attrs[Find(attrs, key)], Some(v)).value)])
  {
    var g := Field(key, Clean(attrs[Find(attrs, key)], Some(v)).value);
    assert [Field(key, v)][1..] == [] && CleanFields(attrs, additional, []) == Ok([]);
    assert [g] + [] == [g];
  }
}
