/**
 The loops by which lists and dictionaries are cleaned and masked, tied to the
 functions that say what they compute.
 */
module Cleaning {
  import opened Schema
  import opened Sequences
  import opened Wrappers

  function After<T>(done: seq<T>, r: Res<seq<T>>): Res<seq<T>> {
    if r.Ok? then Ok(done + r.value) else Err(done + r.after)
  }

  /** Cleans a value against its schema; on an error the value comes back as the loops left it. */
  method CleanValue(a: Attr, input: Option<Value>) returns (r: Res<Value>)
    ensures r == Clean(a, input)
    decreases a, 3
  {
    var base := Base(a, input);
    if base.Err? {
      return base;
    }
    var v := base.value;
    match a.kind {
      case ListK(choices, items) =>
        if !Chosen(a, choices, v) {
          return Err(v);
        }
        if v == Null {
          return Ok(a.default);
        }
        if !v.ListV? || (!a.empty && v.items == []) {
          return Err(v);
        }
        if items != [] {
          var vs := CleanListItems(items, v.items);
          return if vs.Ok? then Ok(ListV(vs.value)) else Err(ListV(vs.after));
        }
        return base;
      case DictK(attrs, additional, update) =>
        if v == Null {
          return Ok(if a.nullable then Null else a.default);
        }
        if !v.DictV? {
          return Err(v);
        }
        var fields := CleanGiven(attrs, additional, v.fields);
        if fields.Err? {
          return Err(DictV(fields.after));
        }
        if update {
          return Ok(DictV(fields.value));
        }
        var all := PopulateDefaults(attrs, fields.value);
        return if all.Ok? then Ok(DictV(all.value)) else Err(DictV(all.after));
      case _ =>
        r := Clean(a, input);
    }
  }

  lemma {:induction false} AfterNone<T>(r: Res<seq<T>>)
    ensures After([], r) == r
  {
    assert r.Ok? ==> [] + r.value == r.value;
    assert r.Err? ==> [] + r.after == r.after;
  }

  lemma {:induction false} AfterAfter<T>(done: seq<T>, x: T, rest: Res<seq<T>>)
    ensures After(done, After([x], rest)) == After(done + [x], rest)
  {
    assert rest.Ok? ==> (done + [x]) + rest.value == done + ([x] + rest.value);
    assert rest.Err? ==> (done + [x]) + rest.after == done + ([x] + rest.after);
  }

  lemma {:induction false} ItemsFrom(items: seq<Attr>, vs: seq<Value>, i: nat)
    requires i < |vs|
    ensures var r := FirstThatFits(items, vs[i]);
            CleanItems(items, vs[i..]) ==
              if r.Err? then Err([r.after] + vs[i + 1..]) else After([r.value], CleanItems(items, vs[i + 1..]))
  {
    assert vs[i..][0] == vs[i] && vs[i..][1..] == vs[i + 1..];
  }

  // Each item is replaced by what the first alternative that accepts it makes of it.
  method CleanListItems(items: seq<Attr>, vs: seq<Value>) returns (r: Res<seq<Value>>)
    ensures r == CleanItems(items, vs)
    decreases items, 2
  {
    var value := vs;
    AfterNone(CleanItems(items, vs));
    assert vs[..0] == [] && vs[0..] == vs;
    for index := 0 to |vs|
      invariant |value| == |vs| && value[index..] == vs[index..]
      invariant CleanItems(items, vs) == After(value[..index], CleanItems(items, vs[index..]))
    {
      ItemsFrom(items, vs, index);
      Replaced(value, vs, index, value[index]);
      var fit := CleanItem(items, value[index]);
      if fit.Err? {
        Replaced(value, vs, index, fit.after);
        return Err(value[index := fit.after]);
      }
      Replaced(value, vs, index, fit.value);
      AfterAfter(value[..index], fit.value, CleanItems(items, vs[index + 1..]));
      value := value[index := fit.value];
    }
    assert vs[|vs|..] == [] && value[..|vs|] == value && value + [] == value;
    r := Ok(value);
  }

  method CleanItem(items: seq<Attr>, v: Value) returns (r: Res<Value>)
    ensures r == FirstThatFits(items, v)
    decreases items, 1
  {
    r := Err(v);
    for k := 0 to |items|
      invariant r.Err? && FirstThatFits(items, v) == FirstThatFits(items[k..], r.after)
    {
      assert items[k..][1..] == items[k + 1..];
      var was := r.after;
      r := CleanValue(items[k], Some(was));
      if r.Ok? {
        return;
      }
    }
  }

  lemma {:induction false} FieldsFrom(attrs: seq<Attr>, additional: bool, fields: seq<Field>, i: nat)
    requires i < |fields|
    ensures var r := CleanField(attrs, additional, fields[i]);
            CleanFields(attrs, additional, fields[i..]) ==
            if r.Err? then Err([r.after] + fields[i + 1..])
            else After([r.value], CleanFields(attrs, additional, fields[i + 1..]))
  {
    assert fields[i..][0] == fields[i] && fields[i..][1..] == fields[i + 1..];
    assert fields[i..] == [fields[i]] + fields[i + 1..];
  }

  // Each given field is replaced by its cleaned value.
  method CleanGiven(attrs: seq<Attr>, additional: bool, fields: seq<Field>) returns (r: Res<seq<Field>>)
    ensures r == CleanFields(attrs, additional, fields)
    decreases attrs, 2
  {
    var data := fields;
    AfterNone(CleanFields(attrs, additional, fields));
    assert fields[..0] == [] && fields[0..] == fields;
    for i := 0 to |fields|
      invariant |data| == |fields| && data[i..] == fields[i..]
      invariant CleanFields(attrs, additional, fields) == After(data[..i], CleanFields(attrs, additional, fields[i..]))
    {
      FieldsFrom(attrs, additional, fields, i);
      Replaced(data, fields, i, data[i]);
      var f := CleanOne(attrs, additional, data[i]);
      if f.Err? {
        Replaced(data, fields, i, f.after);
        return Err(data[i := f.after]);
      }
      Replaced(data, fields, i, f.value);
      AfterAfter(data[..i], f.value, CleanFields(attrs, additional, fields[i + 1..]));
      data := data[i := f.value];
    }
    assert fields[|fields|..] == [] && data[..|fields|] == data && data + [] == data;
    r := Ok(data);
  }

  method CleanOne(attrs: seq<Attr>, additional: bool, f: Field) returns (r: Res<Field>)
    ensures r == CleanField(attrs, additional, f)
    decreases attrs, 1
  {
    var k := Find(attrs, f.key);
    if k == |attrs| {
      return if additional then Ok(f) else Err(f);
    }
    var c := CleanValue(attrs[k], Some(f.val));
    r := if c.Ok? then Ok(Field(f.key, c.value)) else Err(Field(f.key, c.after));
  }

  method PopulateDefaults(attrs: seq<Attr>, fields: seq<Field>) returns (r: Res<seq<Field>>)
    ensures r == AddDefaults(attrs, fields)
    decreases attrs, 2
  {
    var data := fields;
    for k := 0 to |attrs|
      invariant AddDefaults(attrs, fields) == AddDefaults(attrs[k..], data)
    {
      assert attrs[k..][1..] == attrs[k + 1..];
      if !HasKey(data, attrs[k].name) && Wanted(attrs[k]) {
        var c := CleanValue(attrs[k], None);
        if c.Err? {
          return Err(data);
        }
        data := data + [Field(attrs[k].name, c.value)];
      }
    }
    r := Ok(data);
  }

  /** Masks a value for logs and listings. */
  method DumpValue(a: Attr, v: Value) returns (r: Value)
    ensures r == Dump(a, v)
    decreases a, 2
  {
    if a.kind.ListK? {
      return if HasPrivate(a) then MASKED else v;
    }
    if a.isPrivate {
      return MASKED;
    }
    if !a.kind.DictK? || !v.DictV? {
      return v;
    }
    var attrs, fields := a.kind.attrs, v.fields;
    DumpFieldsAt(attrs, v.fields);
    for i := 0 to |fields|
      invariant |fields| == |v.fields| && fields[i..] == v.fields[i..]
      invariant forall j :: 0 <= j < i ==> fields[j] == DumpField(attrs, v.fields[j])
    {
      Replaced(fields, v.fields, i, DumpField(attrs, v.fields[i]));
      assert fields[i := fields[i]] == fields;
      var k := Find(attrs, fields[i].key);
      if k < |attrs| {
        var masked := DumpValue(attrs[k], fields[i].val);
        fields := fields[i := Field(fields[i].key, masked)];
      }
    }
    assert fields == DumpFields(attrs, v.fields);
    r := DictV(fields);
  }
}
