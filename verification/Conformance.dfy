/**
 What a schema accepts has the shape that the schema describes: a reading of schemas by the values
 that they stand for. How items are cleaned comes in only where a list has choices, since an item may
 be what became of a choice.
 */
module Conformance {
  import opened CleanedParts
  import opened Schema
  import opened Wrappers

  ghost predicate NullFits(a: Attr) {
    a.nullable || (a.hasDefault && a.default == Null)
  }

  // A string or number among the choices, or converted from one of them.
  ghost predicate StrChosen(choices: Option<seq<Value>>, s: string) {
    || choices.None? || Among(StrV(s), choices.value)
    || exists i :: Among(IntV(i), choices.value) && s == Decimal(i)
  }

  ghost predicate IntChosen(choices: Option<seq<Value>>, i: int) {
    || choices.None? || Among(IntV(i), choices.value)
    || exists s :: Among(StrV(s), choices.value) && IsDigits(s) && i == Number(s)
  }

  // An item of a list among the choices, or converted from one of them.
  ghost predicate ItemChosen(choices: Option<seq<Value>>, items: seq<Attr>, w: Value) {
    || choices.None? || Among(w, choices.value)
    || exists v :: Among(v, choices.value) && FirstThatFits(items, v) == Ok(w)
  }

  /** The values that a schema describes. */
  ghost predicate Conforms(a: Attr, v: Value)
    decreases a
  {
    match a.kind
    case AnyK => v == Null ==> NullFits(a)
    case StrK(choices) =>
      if v.StrV? then (v.s == "" ==> a.empty) && StrChosen(choices, v.s) else v == Null && NullFits(a)
    case IntK(choices) => if v.IntV? then IntChosen(choices, v.i) else v == Null && NullFits(a)
    case BoolK => if v.BoolV? then true else v == Null && NullFits(a)
    case ListK(choices, items) =>
      || (v == a.default && NullFits(a))
      || (&& v.ListV? && (v.items == [] ==> a.empty)
          && forall i :: 0 <= i < |v.items| ==>
               && ItemChosen(choices, items, v.items[i])
               && (items == [] || exists k :: 0 <= k < |items| && Conforms(items[k], v.items[i])))
    case DictK(attrs, additional, update) =>
      if v.DictV? then
        && (forall i :: 0 <= i < |v.fields| ==> FieldConforms(a, v.fields[i]))
        && (!update ==> forall k :: 0 <= k < |attrs| && Wanted(attrs[k]) ==> HasKey(v.fields, attrs[k].name))
      else v == Null && NullFits(a)
  }

  ghost predicate FieldConforms(a: Attr, f: Field)
    requires a.kind.DictK?
    decreases a, 0
  {
    var k := Find(a.kind.attrs, f.key);
    if k == |a.kind.attrs| then a.kind.additional else Conforms(a.kind.attrs[k], f.val)
  }

  /** Every cleaned value has the shape that its schema describes, whatever was given. */
  lemma {:induction false} CleanConforms(a: Attr, input: Option<Value>)
    requires WellNamed(a) && Clean(a, input).Ok?
    ensures Conforms(a, Clean(a, input).value)
    decreases a
  {
    var v := Base(a, input).value;
    match a.kind
    case StrK(choices) =>
    case IntK(choices) =>
    case ListK(choices, items) =>
      if v != Null && items != [] {
        ItemsAt(items, v.items);
        forall i | 0 <= i < |v.items| ensures ItemChosen(choices, items, CleanItems(items, v.items).value[i]) {
          assert choices.Some? ==> Among(v.items[i], choices.value);
        }
        forall k, w | 0 <= k < |items| && Clean(items[k], Some(w)).Ok?
          ensures Conforms(items[k], Clean(items[k], Some(w)).value)
        {
          CleanConforms(items[k], Some(w));
        }
        ItemsConform(items, v.items);
      }
    case DictK(attrs, _, _) =>
      if v != Null {
        forall k, i | 0 <= k < |attrs| && Clean(attrs[k], i).Ok? ensures Conforms(attrs[k], Clean(attrs[k], i).value) {
          CleanConforms(attrs[k], i);
        }
        DictConforms(a, v.fields);
      }
    case _ =>
  }

  ghost predicate PartsConform(parts: seq<Attr>) {
    forall k, i :: 0 <= k < |parts| && Clean(parts[k], i).Ok? ==> Conforms(parts[k], Clean(parts[k], i).value)
  }

  lemma {:induction false} FitConforms(items: seq<Attr>, v: Value)
    requires FirstThatFits(items, v).Ok?
    requires forall k, w :: 0 <= k < |items| && Clean(items[k], Some(w)).Ok? ==>
          Conforms(items[k], Clean(items[k], Some(w)).value)
    ensures exists k :: 0 <= k < |items| && Conforms(items[k], FirstThatFits(items, v).value)
  {
    var r := Clean(items[0], Some(v));
    if r.Err? {
      FitConforms(items[1..], r.after);
      var k :| 0 <= k < |items[1..]| && Conforms(items[1..][k], FirstThatFits(items, v).value);
      assert items[1..][k] == items[k + 1];
    } else {
      assert Conforms(items[0], r.value);
    }
  }

  lemma {:induction false} ItemsConform(items: seq<Attr>, vs: seq<Value>)
    requires CleanItems(items, vs).Ok?
    requires forall k, w :: 0 <= k < |items| && Clean(items[k], Some(w)).Ok? ==>
          Conforms(items[k], Clean(items[k], Some(w)).value)
    ensures var ws := CleanItems(items, vs).value;
            |ws| == |vs| && forall i :: 0 <= i < |ws| ==> exists k :: 0 <= k < |items| && Conforms(items[k], ws[i])
    decreases |vs|
  {
    if vs != [] {
      FitConforms(items, vs[0]);
      ItemsConform(items, vs[1..]);
    }
  }

  lemma {:induction false} FieldsConform(a: Attr, fields: seq<Field>)
    requires a.kind.DictK? && PartsConform(a.kind.attrs) && CleanFields(a.kind.attrs, a.kind.additional, fields).Ok?
    ensures var r := CleanFields(a.kind.attrs, a.kind.additional, fields).value;
            forall i :: 0 <= i < |r| ==> FieldConforms(a, r[i])
    decreases |fields|
  {
    if fields != [] {
      FieldsConform(a, fields[1..]);
      var k, r := Find(a.kind.attrs, fields[0].key), CleanFields(a.kind.attrs, a.kind.additional, fields).value;
      assert r[0].key == fields[0].key;
      assert k < |a.kind.attrs| ==> Clean(a.kind.attrs[k], Some(fields[0].val)).Ok?;
      assert FieldConforms(a, r[0]);
      assert r[1..] == CleanFields(a.kind.attrs, a.kind.additional, fields[1..]).value;
    }
  }

  lemma {:induction false} DefaultsConform(a: Attr, from: nat, fields: seq<Field>)
    requires a.kind.DictK? && PartsConform(a.kind.attrs) && DistinctNames(a.kind.attrs) && from <= |a.kind.attrs|
    requires (forall i :: 0 <= i < |fields| ==> FieldConforms(a, fields[i]))
    requires AddDefaults(a.kind.attrs[from..], fields).Ok?
    ensures var r := AddDefaults(a.kind.attrs[from..], fields).value;
            && (forall i :: 0 <= i < |r| ==> FieldConforms(a, r[i])) && |fields| <= |r| && r[..|fields|] == fields
            && (forall k :: from <= k < |a.kind.attrs| && Wanted(a.kind.attrs[k]) ==> HasKey(r, a.kind.attrs[k].name))
    decreases |a.kind.attrs| - from
  {
    var attrs := a.kind.attrs;
    if from < |attrs| {
      var part := attrs[from];
      assert attrs[from..][0] == part && attrs[from..][1..] == attrs[from + 1..];
      if HasKey(fields, part.name) || !Wanted(part) {
        DefaultsConform(a, from + 1, fields);
        KeysKept(fields, AddDefaults(attrs[from..], fields).value, part.name);
      } else {
        var added := fields + [Field(part.name, Clean(part, None).value)];
        FindSelf(attrs, from);
        assert FieldConforms(a, added[|fields|]);
        DefaultsConform(a, from + 1, added);
        assert added[|fields|].key == part.name && added[..|fields|] == fields;
        KeysKept(added, AddDefaults(attrs[from..], fields).value, part.name);
      }
    }
  }

  lemma {:induction false} DictConforms(a: Attr, fields: seq<Field>)
    requires a.kind.DictK? && PartsConform(a.kind.attrs) && DistinctNames(a.kind.attrs)
    requires Clean(a, Some(DictV(fields))).Ok?
    ensures Conforms(a, Clean(a, Some(DictV(fields))).value)
  {
    FieldsConform(a, fields);
    if !a.kind.update {
      assert a.kind.attrs[0..] == a.kind.attrs;
      DefaultsConform(a, 0, CleanFields(a.kind.attrs, a.kind.additional, fields).value);
    }
  }

  /** A natural number survives the conversion to a string and back. */
  lemma {:induction false} DecimalRoundTrip(n: nat)
    ensures Decimal(n) == Digits(n) && IsDigits(Digits(n)) && Number(Digits(n)) == n
    decreases n
  {
    var s := Digits(n);
    var last := s[|s| - 1];
    if n >= 10 {
      DecimalRoundTrip(n / 10);
      assert s[..|s| - 1] == Digits(n / 10);
    } else {
      assert s[..|s| - 1] == "";
    }
    assert last == ('0' as int + n % 10) as char;
  }
}
