/**
 Method schemas: cleaning of arguments, the `update` variant of a schema, and masking of private
 values. A value that a failed attempt has already changed in place is part of the result, since
 the next alternative of a list sees it.
 */
module Schema {
  import opened Wrappers

  datatype Value =
    | Null
    | BoolV(b: bool)
    | IntV(i: int)
    | StrV(s: string)
    | ListV(items: seq<Value>)
    | DictV(fields: seq<Field>)

  // An entry of a dictionary, in insertion order.
  datatype Field = Field(key: string, val: Value)

  datatype Attr = Attr(
    name: string, required: bool, nullable: bool, hasDefault: bool, default: Value,
    empty: bool, isPrivate: bool, kind: Kind)

  datatype Kind =
    | AnyK
    | StrK(choices: Option<seq<Value>>)
    | IntK(choices: Option<seq<Value>>)
    | BoolK
    | ListK(choices: Option<seq<Value>>, items: seq<Attr>)
    | DictK(attrs: seq<Attr>, additional: bool, update: bool)

  // A cleaned value, or an error together with what has become of the value.
  datatype Res<T> = Ok(value: T) | Err(after: T)

  // --- Values ------------------------------------------------------------------------------------

  // Equality of Python, which does not tell booleans from the integers 0 and 1.
  predicate PyEq(x: Value, y: Value)
    decreases x
  {
    match (x, y)
    case (BoolV(b), IntV(i)) => i == if b then 1 else 0
    case (IntV(i), BoolV(b)) => i == if b then 1 else 0
    case (ListV(xs), ListV(ys)) => |xs| == |ys| && forall k :: 0 <= k < |xs| ==> PyEq(xs[k], ys[k])
    case (DictV(fs), DictV(gs)) =>
      |fs| == |gs| && forall k :: 0 <= k < |fs| ==> HasKey(gs, fs[k].key) && PyEq(fs[k].val, ValueAt(gs, fs[k].key))
    case _ => x == y
  }

  predicate HasKey(fields: seq<Field>, key: string) {
    exists k :: 0 <= k < |fields| && fields[k].key == key
  }

  function ValueAt(fields: seq<Field>, key: string): Value
    requires HasKey(fields, key)
  {
    if fields[0].key == key then fields[0].val else ValueAt(fields[1..], key)
  }

  predicate Among(v: Value, choices: seq<Value>) {
    exists k :: 0 <= k < |choices| && PyEq(v, choices[k])
  }

  function Digits(n: nat): (s: string)
    ensures s != ""
  {
    (if n < 10 then "" else Digits(n / 10)) + [('0' as int + n % 10) as char]
  }

  function Decimal(i: int): (s: string)
    ensures s != ""
  {
    if i < 0 then "-" + Digits(-i) else Digits(i)
  }

  predicate IsDigits(s: string) {
    s != "" && forall k :: 0 <= k < |s| ==> '0' <= s[k] <= '9'
  }

  function Number(s: string): nat
    requires forall k :: 0 <= k < |s| ==> '0' <= s[k] <= '9'
  {
    if s == "" then 0 else 10 * Number(s[..|s| - 1]) + (s[|s| - 1] as int - '0' as int)
  }

  // --- Cleaning ------------------------------------------------------------------------------------

  // The common part: `None` stands for an argument that was not provided.
  function Base(a: Attr, input: Option<Value>): Res<Value> {
    if input == Some(Null) && !a.nullable then Err(Null)
    else if input.None? then (if a.hasDefault then Ok(a.default) else Err(Null))
    else Ok(input.value)
  }

  predicate Chosen(a: Attr, choices: Option<seq<Value>>, v: Value) {
    || choices.None?
    || (v == Null && a.nullable)
    || (if v.ListV? then forall k :: 0 <= k < |v.items| ==> Among(v.items[k], choices.value)
        else Among(v, choices.value))
  }

  function CleanStr(a: Attr, v: Value): Res<Value> {
    if v == Null then Ok(v)
    else
      var w := if v.IntV? then StrV(Decimal(v.i)) else v;
      if !w.StrV? || (!a.empty && w.s == "") then Err(v) else Ok(w)
  }

  function CleanInt(v: Value): Res<Value> {
    if v == Null || v.IntV? then Ok(v)
    else if v.StrV? && IsDigits(v.s) then Ok(IntV(Number(v.s)))
    else Err(v)
  }

  function Clean(a: Attr, input: Option<Value>): Res<Value>
    decreases a, 3
  {
    var base := Base(a, input);
    if base.Err? then base
    else
      var v := base.value;
      match a.kind
      case AnyK => base
      case StrK(choices) => if Chosen(a, choices, v) then CleanStr(a, v) else Err(v)
      case IntK(choices) => if Chosen(a, choices, v) then CleanInt(v) else Err(v)
      case BoolK => if v == Null || v.BoolV? then base else Err(v)
      case ListK(choices, items) =>
        if !Chosen(a, choices, v) then Err(v)
        else if v == Null then Ok(a.default)
        else if !v.ListV? || (!a.empty && v.items == []) then Err(v)
        else if items == [] then base
        else
          var r := CleanItems(items, v.items);
          if r.Ok? then Ok(ListV(r.value)) else Err(ListV(r.after))
      case DictK(attrs, additional, update) =>
        if v == Null then Ok(if a.nullable then Null else a.default)
        else if !v.DictV? then Err(v)
        else
          var r := CleanFields(attrs, additional, v.fields);
          if r.Err? then Err(DictV(r.after))
          else if update then Ok(DictV(r.value))
          else
            var d := AddDefaults(attrs, r.value);
            if d.Ok? then Ok(DictV(d.value)) else Err(DictV(d.after))
  }

  // The alternatives in turn, each on what the one before has left of the value.
  function FirstThatFits(alternatives: seq<Attr>, v: Value): Res<Value>
    decreases alternatives, 1
  {
    if alternatives == [] then Err(v)
    else
      var r := Clean(alternatives[0], Some(v));
      if r.Ok? then r else FirstThatFits(alternatives[1..], r.after)
  }

  function CleanItems(items: seq<Attr>, vs: seq<Value>): Res<seq<Value>>
    decreases items, 2, |vs|
  {
    if vs == [] then Ok([])
    else
      var r := FirstThatFits(items, vs[0]);
      if r.Err? then Err([r.after] + vs[1..])
      else
        var rest := CleanItems(items, vs[1..]);
        if rest.Ok? then Ok([r.value] + rest.value) else Err([r.value] + rest.after)
  }

  // Position of the attribute of that name.
  function Find(attrs: seq<Attr>, name: string): (k: nat)
    ensures k <= |attrs|
    ensures k < |attrs| ==> attrs[k].name == name
    ensures k == |attrs| ==> forall i :: 0 <= i < |attrs| ==> attrs[i].name != name
  {
    if attrs == [] then 0
    else if attrs[0].name == name then 0
    else 1 + Find(attrs[1..], name)
  }

  function CleanFields(attrs: seq<Attr>, additional: bool, fields: seq<Field>): Res<seq<Field>>
    decreases attrs, 2, |fields|
  {
    if fields == [] then Ok([])
    else
      var f, k := fields[0], Find(attrs, fields[0].key);
      if k == |attrs| && !additional then Err(fields)
      else
        var r := if k == |attrs| then Ok(f.val) else Clean(attrs[k], Some(f.val));
        if r.Err? then Err([Field(f.key, r.after)] + fields[1..])
        else
          var rest := CleanFields(attrs, additional, fields[1..]);
          var g := Field(f.key, r.value);
          if rest.Ok? then Ok([g] + rest.value) else Err([g] + rest.after)
  }

  predicate Wanted(a: Attr) {
    a.required || a.hasDefault
  }

  function AddDefaults(attrs: seq<Attr>, fields: seq<Field>): Res<seq<Field>>
    decreases attrs, 2
  {
    if attrs == [] then Ok(fields)
    else if HasKey(fields, attrs[0].name) || !Wanted(attrs[0]) then AddDefaults(attrs[1..], fields)
    else
      var r := Clean(attrs[0], None);
      if r.Err? then Err(fields) else AddDefaults(attrs[1..], fields + [Field(attrs[0].name, r.value)])
  }

  // One field of a dictionary.
  function CleanField(attrs: seq<Attr>, additional: bool, f: Field): Res<Field> {
    var k := Find(attrs, f.key);
    if k == |attrs| then (if additional then Ok(f) else Err(f))
    else
      var r := Clean(attrs[k], Some(f.val));
      if r.Ok? then Ok(Field(f.key, r.value)) else Err(Field(f.key, r.after))
  }

  lemma {:induction false} FieldsUnfold(attrs: seq<Attr>, additional: bool, fields: seq<Field>)
    requires fields != []
    ensures var r, rest := CleanField(attrs, additional, fields[0]), CleanFields(attrs, additional, fields[1..]);
            && (r.Err? ==> CleanFields(attrs, additional, fields) == Err([r.after] + fields[1..]))
            && (r.Ok? && rest.Err? ==> CleanFields(attrs, additional, fields) == Err([r.value] + rest.after))
            && (r.Ok? && rest.Ok? ==> CleanFields(attrs, additional, fields) == Ok([r.value] + rest.value))
  {
    assert fields == [fields[0]] + fields[1..];
  }

  // --- Names and defaults --------------------------------------------------------------------------------

  ghost predicate DistinctNames(attrs: seq<Attr>) {
    forall i, j :: 0 <= i < j < |attrs| ==> attrs[i].name != attrs[j].name
  }

  lemma {:induction false} FindSelf(attrs: seq<Attr>, k: nat)
    requires DistinctNames(attrs) && k < |attrs|
    ensures Find(attrs, attrs[k].name) == k
  {
  }

  lemma {:induction false} KeysKept(fields: seq<Field>, more: seq<Field>, key: string)
    requires |fields| <= |more| && more[..|fields|] == fields
    ensures HasKey(fields, key) ==> HasKey(more, key)
  {
    if HasKey(fields, key) {
      var k :| 0 <= k < |fields| && fields[k].key == key;
      assert more[k] == fields[k];
    }
  }

  lemma {:induction false} NoDefaultsLeft(attrs: seq<Attr>, fields: seq<Field>)
    requires forall k :: 0 <= k < |attrs| && Wanted(attrs[k]) ==> HasKey(fields, attrs[k].name)
    ensures AddDefaults(attrs, fields) == Ok(fields)
  {
    if attrs != [] {
      NoDefaultsLeft(attrs[1..], fields);
    }
  }

  // --- The update variant ---------------------------------------------------------------------------------

  /** The schema that `Patch` derives with a new name and the attribute `update` set. */
  function UpdateOf(a: Attr, newName: string): Attr
    requires a.kind.DictK?
  {
    a.(name := newName, kind := a.kind.(update := true))
  }

  lemma {:induction false} CleanFieldsKeys(attrs: seq<Attr>, additional: bool, fields: seq<Field>)
    requires CleanFields(attrs, additional, fields).Ok?
    ensures var r := CleanFields(attrs, additional, fields).value;
            |r| == |fields| && forall k :: 0 <= k < |r| ==> r[k].key == fields[k].key
    decreases |fields|
  {
    if fields != [] {
      CleanFieldsKeys(attrs, additional, fields[1..]);
    }
  }

  // Defaults are appended, under names that were missing.
  lemma {:induction false} AddDefaultsAppends(attrs: seq<Attr>, fields: seq<Field>)
    requires AddDefaults(attrs, fields).Ok?
    ensures var r := AddDefaults(attrs, fields).value;
            |fields| <= |r| && r[..|fields|] == fields && forall k :: |fields| <= k < |r| ==> !HasKey(fields, r[k].key)
    decreases |attrs|
  {
    if attrs == [] {
    } else if HasKey(fields, attrs[0].name) || !Wanted(attrs[0]) {
      AddDefaultsAppends(attrs[1..], fields);
    } else {
      var added := fields + [Field(attrs[0].name, Clean(attrs[0], None).value)];
      AddDefaultsAppends(attrs[1..], added);
      var r := AddDefaults(attrs, fields).value;
      assert added[..|fields|] == fields && r[..|added|] == added;
      assert r[|fields|] == added[|fields|];
      forall k | |fields| <= k < |r| ensures !HasKey(fields, r[k].key) {
        KeysKept(fields, added, r[k].key);
      }
    }
  }

  /** Whenever a dictionary passes its schema, it passes the update variant, and what that returns
      is the full result restricted to the keys that were given. */
  lemma {:induction false} UpdateRestricts(a: Attr, newName: string, fields: seq<Field>)
    requires a.kind.DictK? && Clean(a, Some(DictV(fields))).Ok?
    ensures var r, u := Clean(a, Some(DictV(fields))).value, Clean(UpdateOf(a, newName), Some(DictV(fields)));
            && r.DictV? && |fields| <= |r.fields|
            && u == Ok(DictV(r.fields[..|fields|]))
            && (forall k :: 0 <= k < |fields| ==> r.fields[k].key == fields[k].key)
            && (forall k :: |fields| <= k < |r.fields| ==> !HasKey(fields, r.fields[k].key))
  {
    var attrs, additional := a.kind.attrs, a.kind.additional;
    var cleaned := CleanFields(attrs, additional, fields).value;
    CleanFieldsKeys(attrs, additional, fields);
    assert Clean(UpdateOf(a, newName), Some(DictV(fields))) == Ok(DictV(cleaned));
    if a.kind.update {
      assert cleaned[..|fields|] == cleaned;
    } else {
      AddDefaultsAppends(attrs, cleaned);
      var r := AddDefaults(attrs, cleaned).value;
      assert Clean(a, Some(DictV(fields))) == Ok(DictV(r));
      SameKeys(fields, cleaned);
      assert forall k :: 0 <= k < |fields| ==> r[k] == r[..|fields|][k];
    }
  }

  lemma {:induction false} SameKeys(fields: seq<Field>, others: seq<Field>)
    requires |fields| == |others| && forall k :: 0 <= k < |fields| ==> fields[k].key == others[k].key
    ensures forall key :: HasKey(fields, key) ==> HasKey(others, key)
  {
    forall key | HasKey(fields, key) ensures HasKey(others, key) {
      var k :| 0 <= k < |fields| && fields[k].key == key;
      assert others[k].key == key;
    }
  }

  // --- Masking ----------------------------------------------------------------------------------------------

  predicate HasPrivate(a: Attr)
    decreases a
  {
    || a.isPrivate
    || (match a.kind
        case ListK(_, items) => exists k :: 0 <= k < |items| && HasPrivate(items[k])
        case DictK(attrs, _, _) => exists k :: 0 <= k < |attrs| && HasPrivate(attrs[k])
        case _ => false)
  }

  const MASKED := StrV("********")

  function Dump(a: Attr, v: Value): Value
    decreases a, 2
  {
    if a.isPrivate then MASKED
    else
      match a.kind
      case ListK(_, _) => if HasPrivate(a) then MASKED else v
      case DictK(attrs, _, _) => if v.DictV? then DictV(DumpFields(attrs, v.fields)) else v
      case _ => v
  }

  function DumpFields(attrs: seq<Attr>, fields: seq<Field>): seq<Field>
    decreases attrs, 1, |fields|
  {
    if fields == [] then [] else [DumpField(attrs, fields[0])] + DumpFields(attrs, fields[1..])
  }

  function DumpField(attrs: seq<Attr>, f: Field): Field
    decreases attrs, 0, 0
  {
    var k := Find(attrs, f.key);
    if k == |attrs| then f else Field(f.key, Dump(attrs[k], f.val))
  }

  /** The two values differ only where the schema says private. */
  ghost predicate SamePublic(a: Attr, v: Value, w: Value)
    decreases a
  {
    || a.isPrivate
    || (a.kind.ListK? && HasPrivate(a))
    || v == w
    || (&& a.kind.DictK? && v.DictV? && w.DictV? && |v.fields| == |w.fields|
        && forall i :: 0 <= i < |v.fields| ==> SamePublicField(a, v.fields[i], w.fields[i]))
  }

  ghost predicate SamePublicField(a: Attr, f: Field, g: Field)
    requires a.kind.DictK?
    decreases a, 0
  {
    var k := Find(a.kind.attrs, f.key);
    f.key == g.key && if k == |a.kind.attrs| then f == g else SamePublic(a.kind.attrs[k], f.val, g.val)
  }

  lemma {:induction false} DumpFieldsAt(attrs: seq<Attr>, fields: seq<Field>)
    ensures var r := DumpFields(attrs, fields);
            && |r| == |fields|
            && forall i :: 0 <= i < |r| ==> r[i] == DumpField(attrs, fields[i])
    decreases |fields|
  {
    if fields != [] {
      DumpFieldsAt(attrs, fields[1..]);
    }
  }

  /** Dumping hides exactly the private data: two values dump alike if and only if they differ only
      there. */
  lemma {:induction false} DumpHidesPrivate(a: Attr, v: Value, w: Value)
    ensures Dump(a, v) == Dump(a, w) <==> SamePublic(a, v, w)
    decreases a
  {
    if !a.isPrivate && a.kind.DictK? && v.DictV? && w.DictV? {
      var attrs := a.kind.attrs;
      DumpFieldsAt(attrs, v.fields);
      DumpFieldsAt(attrs, w.fields);
      forall i | 0 <= i < |v.fields| && i < |w.fields|
        ensures DumpFields(attrs, v.fields)[i] == DumpFields(attrs, w.fields)[i] <==>
              SamePublicField(a, v.fields[i], w.fields[i])
      {
        DumpFieldHidesPrivate(a, v.fields[i], w.fields[i]);
      }
    }
  }

  lemma {:induction false} DumpFieldHidesPrivate(a: Attr, f: Field, g: Field)
    requires a.kind.DictK?
    ensures DumpField(a.kind.attrs, f) == DumpField(a.kind.attrs, g) <==> SamePublicField(a, f, g)
    decreases a, 0
  {
    var k := Find(a.kind.attrs, f.key);
    if k < |a.kind.attrs| {
      DumpHidesPrivate(a.kind.attrs[k], f.val, g.val);
    }
  }

  /** A dictionary that is not masked as a whole keeps its keys, in order. */
  lemma {:induction false} DumpKeepsKeys(a: Attr, fields: seq<Field>)
    requires a.kind.DictK? && !a.isPrivate
    ensures var r := Dump(a, DictV(fields));
            r.DictV? && |r.fields| == |fields| && forall i :: 0 <= i < |fields| ==> r.fields[i].key == fields[i].key
  {
    DumpFieldsAt(a.kind.attrs, fields);
  }

  // The attribute itself, or one of its parts at any depth.
  ghost predicate Within(b: Attr, a: Attr)
    decreases a
  {
    || b == a
    || (match a.kind
        case ListK(_, items) => exists k :: 0 <= k < |items| && Within(b, items[k])
        case DictK(attrs, _, _) => exists k :: 0 <= k < |attrs| && Within(b, attrs[k])
        case _ => false)
  }

  lemma {:induction false} PrivateWithin(a: Attr)
    ensures HasPrivate(a) <==> exists b :: Within(b, a) && b.isPrivate
    decreases a
  {
    var parts := match a.kind case ListK(_, items) => items case DictK(attrs, _, _) => attrs case _ => [];
    forall k | 0 <= k < |parts| ensures HasPrivate(parts[k]) <==> exists b :: Within(b, parts[k]) && b.isPrivate {
      PrivateWithin(parts[k]);
    }
    if HasPrivate(a) && !a.isPrivate {
      var k :| 0 <= k < |parts| && HasPrivate(parts[k]);
      var b :| Within(b, parts[k]) && b.isPrivate;
      assert Within(b, a);
    }
    if b :| Within(b, a) && b.isPrivate {
      if b == a {
        assert HasPrivate(a);
      } else {
        var k :| 0 <= k < |parts| && Within(b, parts[k]);
        assert HasPrivate(parts[k]);
      }
    }
  }

  /** How a value is shown: eight stars for a private value, and for a list with anything private in its
      items; a dictionary field by field; anything else, and fields without an attribute, as they are. */
  ghost predicate ShownAs(a: Attr, v: Value, w: Value)
    decreases a
  {
    if a.isPrivate || (a.kind.ListK? && exists b :: Within(b, a) && b.isPrivate) then w == StrV("********")
    else if a.kind.DictK? && v.DictV? then
      && w.DictV? && |w.fields| == |v.fields|
      && forall i :: 0 <= i < |v.fields| ==> FieldShownAs(a, v.fields[i], w.fields[i])
    else w == v
  }

  ghost predicate FieldShownAs(a: Attr, f: Field, g: Field)
    requires a.kind.DictK?
    decreases a, 0
  {
    var k := Find(a.kind.attrs, f.key);
    g.key == f.key && if k == |a.kind.attrs| then g.val == f.val else ShownAs(a.kind.attrs[k], f.val, g.val)
  }

  lemma {:induction false} DumpExactly(a: Attr, v: Value, w: Value)
    ensures Dump(a, v) == w <==> ShownAs(a, v, w)
    decreases a
  {
    PrivateWithin(a);
    if !a.isPrivate && a.kind.DictK? && v.DictV? && w.DictV? {
      var attrs := a.kind.attrs;
      DumpFieldsAt(attrs, v.fields);
      if |w.fields| == |v.fields| {
        forall i | 0 <= i < |v.fields|
          ensures DumpField(attrs, v.fields[i]) == w.fields[i] <==> FieldShownAs(a, v.fields[i], w.fields[i])
        {
          var k := Find(attrs, v.fields[i].key);
          if k < |attrs| {
            DumpExactly(attrs[k], v.fields[i].val, w.fields[i].val);
          }
        }
        if forall i :: 0 <= i < |v.fields| ==> DumpField(attrs, v.fields[i]) == w.fields[i] {
          assert DumpFields(attrs, v.fields) == w.fields;
        }
      }
    }
  }

  /** What has nothing private about it is shown as it is. */
  lemma {:induction false} PublicIsShown(a: Attr, v: Value)
    requires !HasPrivate(a)
    ensures Dump(a, v) == v
    decreases a
  {
    if a.kind.DictK? && v.DictV? {
      var attrs := a.kind.attrs;
      DumpFieldsAt(attrs, v.fields);
      forall i | 0 <= i < |v.fields| ensures DumpField(attrs, v.fields[i]) == v.fields[i] {
        var k := Find(attrs, v.fields[i].key);
        if k < |attrs| {
          PublicIsShown(attrs[k], v.fields[i].val);
        }
      }
      assert DumpFields(attrs, v.fields) == v.fields;
    }
  }
}
