/**
 Values that a schema rejects: the alternatives of a list see them as the ones before have left them,
 and exactly when that is as they were given.
 */
module Rejections {
  import opened CleanedParts
  import opened Schema
  import opened Wrappers

  /** A schema without parts never changes a value that it rejects. */
  lemma {:induction false} LeafRejects(a: Attr, v: Value)
    requires Leaf(a) && Clean(a, Some(v)).Err?
    ensures Clean(a, Some(v)).after == v
  {
  }

  function Last(alternatives: seq<Attr>): Attr
    requires alternatives != []
  {
    alternatives[|alternatives| - 1]
  }

  // Only the last alternative may have parts.
  predicate LeavesFirst(alternatives: seq<Attr>) {
    forall k :: 0 <= k < |alternatives| - 1 ==> Leaf(alternatives[k])
  }

  // Positions of the first item, field or missing attribute that is not accepted.
  function BadItem(items: seq<Attr>, vs: seq<Value>): (k: nat)
    ensures k <= |vs| && (k < |vs| ==> FirstThatFits(items, vs[k]).Err?)
    ensures forall j :: 0 <= j < k ==> FirstThatFits(items, vs[j]).Ok?
    decreases |vs|
  {
    if vs == [] || FirstThatFits(items, vs[0]).Err? then 0 else 1 + BadItem(items, vs[1..])
  }

  function BadField(attrs: seq<Attr>, additional: bool, fields: seq<Field>): (k: nat)
    ensures k <= |fields| && (k < |fields| ==> CleanField(attrs, additional, fields[k]).Err?)
    ensures forall j :: 0 <= j < k ==> CleanField(attrs, additional, fields[j]).Ok?
    decreases |fields|
  {
    if fields == [] || CleanField(attrs, additional, fields[0]).Err? then 0
    else 1 + BadField(attrs, additional, fields[1..])
  }

  function FirstMissing(attrs: seq<Attr>, fields: seq<Field>): (k: nat)
    ensures k <= |attrs| && (k < |attrs| ==> Missing(attrs[k], fields))
    ensures forall j :: 0 <= j < k ==> !Missing(attrs[j], fields)
    decreases |attrs|
  {
    if attrs == [] || Missing(attrs[0], fields) then 0 else 1 + FirstMissing(attrs[1..], fields)
  }

  /** What a schema accepts before it comes to what it rejects is clean already, and what it rejects is
      handed on as it was. */
  ghost predicate Untouched(a: Attr, v: Value)
    decreases a
  {
    match a.kind
    case ListK(choices, items) =>
      v.ListV? && Chosen(a, choices, v) && BadItem(items, v.items) < |v.items| && items != [] ==>
        var k := BadItem(items, v.items);
        && (forall j :: 0 <= j < k ==> FirstThatFits(items, v.items[j]) == Ok(v.items[j]))
        && if LeavesFirst(items) then Untouched(Last(items), v.items[k])
           else FirstThatFits(items, v.items[k]).after == v.items[k]
    case DictK(attrs, additional, update) =>
      v.DictV? ==>
        var k, m := BadField(attrs, additional, v.fields), FirstMissing(attrs, v.fields);
        && (forall j :: 0 <= j < k ==> CleanField(attrs, additional, v.fields[j]) == Ok(v.fields[j]))
        && if k < |v.fields| then UntouchedField(a, v.fields[k]) else m < |attrs| ==> Clean(attrs[m], None).Err?
    case _ => true
  }

  ghost predicate UntouchedField(a: Attr, f: Field)
    requires a.kind.DictK?
    decreases a, 0
  {
    var k := Find(a.kind.attrs, f.key);
    k < |a.kind.attrs| ==> Untouched(a.kind.attrs[k], f.val)
  }

  lemma {:induction false} ItemsRejected(items: seq<Attr>, vs: seq<Value>)
    ensures CleanItems(items, vs).Err? <==> BadItem(items, vs) < |vs|
    ensures CleanItems(items, vs).Err? ==>
              var after, k := CleanItems(items, vs).after, BadItem(items, vs);
              && |after| == |vs| && after[k] == FirstThatFits(items, vs[k]).after
              && (forall j :: 0 <= j < k ==> FirstThatFits(items, vs[j]) == Ok(after[j]))
              && after[k + 1..] == vs[k + 1..]
    decreases |vs|
  {
    if vs != [] && FirstThatFits(items, vs[0]).Ok? {
      ItemsRejected(items, vs[1..]);
      assert forall j :: 1 <= j < |vs| ==> vs[j] == vs[1..][j - 1];
    }
  }

  // What is left of the fields when the one at `k` is rejected.
  ghost predicate RejectedAt(attrs: seq<Attr>, additional: bool, fields: seq<Field>, after: seq<Field>, k: nat) {
    && k < |fields| == |after|
    && CleanField(attrs, additional, fields[k]).Err? && after[k] == CleanField(attrs, additional, fields[k]).after
    && (forall j :: 0 <= j < k ==> CleanField(attrs, additional, fields[j]) == Ok(after[j]))
    && after[k + 1..] == fields[k + 1..]
  }

  lemma {:induction false} RejectedFirst(attrs: seq<Attr>, additional: bool, fields: seq<Field>, bad: Field)
    requires fields != [] && CleanField(attrs, additional, fields[0]) == Err(bad)
    ensures RejectedAt(attrs, additional, fields, [bad] + fields[1..], 0)
  {
    assert ([bad] + fields[1..])[1..] == fields[1..];
  }

  lemma {:induction false} RejectedLater(attrs: seq<Attr>, additional: bool, fields: seq<Field>, g: Field,
                                         tail: seq<Field>, k: nat)
    requires fields != [] && CleanField(attrs, additional, fields[0]) == Ok(g)
    requires RejectedAt(attrs, additional, fields[1..], tail, k)
    ensures RejectedAt(attrs, additional, fields, [g] + tail, k + 1)
  {
    var after := [g] + tail;
    forall j | 0 <= j < k + 1 ensures CleanField(attrs, additional, fields[j]) == Ok(after[j]) {
      if j > 0 {
        assert fields[j] == fields[1..][j - 1] && after[j] == tail[j - 1];
      }
    }
    assert after[k + 2..] == tail[k + 1..] && fields[k + 2..] == fields[1..][k + 1..];
  }

  lemma {:induction false} FieldsRejected(attrs: seq<Attr>, additional: bool, fields: seq<Field>)
    requires CleanFields(attrs, additional, fields).Err?
    ensures RejectedAt(attrs, additional, fields, CleanFields(attrs, additional, fields).after,
                       BadField(attrs, additional, fields))
    decreases |fields|
  {
    FieldsUnfold(attrs, additional, fields);
    var r := CleanField(attrs, additional, fields[0]);
    if r.Ok? {
      FieldsRejected(attrs, additional, fields[1..]);
      var tail, k := CleanFields(attrs, additional, fields[1..]).after, BadField(attrs, additional, fields[1..]);
      RejectedLater(attrs, additional, fields, r.value, tail, k);
    } else {
      RejectedFirst(attrs, additional, fields, r.after);
    }
  }

  lemma {:induction false} DefaultsRejected(attrs: seq<Attr>, fields: seq<Field>)
    requires AddDefaults(attrs, fields).Err?
    ensures |AddDefaults(attrs, fields).after| >= |fields| && FirstMissing(attrs, fields) < |attrs|
    ensures AddDefaults(attrs, fields).after == fields <==> Clean(attrs[FirstMissing(attrs, fields)], None).Err?
    decreases |attrs|
  {
    if !Missing(attrs[0], fields) {
      DefaultsRejected(attrs[1..], fields);
    } else if Clean(attrs[0], None).Ok? {
      DefaultsRejected(attrs[1..], fields + [Field(attrs[0].name, Clean(attrs[0], None).value)]);
    }
  }

  lemma {:induction false} SameElements<T>(after: seq<T>, vs: seq<T>, k: nat)
    requires |after| == |vs| && k < |vs| && after[k + 1..] == vs[k + 1..]
    ensures after == vs <==> after[k] == vs[k] && forall j :: 0 <= j < k ==> after[j] == vs[j]
  {
    if after[k] == vs[k] && forall j :: 0 <= j < k ==> after[j] == vs[j] {
      forall j | 0 <= j < |vs| ensures after[j] == vs[j] {
        if j > k {
          assert after[k + 1..][j - k - 1] == vs[k + 1..][j - k - 1];
        }
      }
    }
  }

  // The first alternative that accepts the value as it was given.
  function FirstTaker(alternatives: seq<Attr>, v: Value): (k: nat)
    ensures k <= |alternatives| && (k < |alternatives| ==> Clean(alternatives[k], Some(v)).Ok?)
    ensures forall j :: 0 <= j < k ==> Clean(alternatives[j], Some(v)).Err?
  {
    if alternatives == [] || Clean(alternatives[0], Some(v)).Ok? then 0 else 1 + FirstTaker(alternatives[1..], v)
  }

  /** If only the last alternative has parts, the first one that accepts the value is taken, and the last
      one decides what is left of a value that none accepts. */
  lemma {:induction false} LeavesFit(alternatives: seq<Attr>, v: Value)
    requires alternatives != [] && LeavesFirst(alternatives)
    ensures var k := FirstTaker(alternatives, v);
            FirstThatFits(alternatives, v) ==
            Clean(if k < |alternatives| then alternatives[k] else Last(alternatives), Some(v))
  {
    if |alternatives| > 1 && Clean(alternatives[0], Some(v)).Err? {
      LeafRejects(alternatives[0], v);
      LeavesFit(alternatives[1..], v);
    }
  }

  lemma {:induction false} ListRejects(a: Attr, vs: seq<Value>)
    requires a.kind.ListK? && Clean(a, Some(ListV(vs))).Err?
    requires forall v :: a.kind.items != [] && Clean(Last(a.kind.items), Some(v)).Err? ==>
               (Clean(Last(a.kind.items), Some(v)).after == v <==> Untouched(Last(a.kind.items), v))
    ensures Clean(a, Some(ListV(vs))).after == ListV(vs) <==> Untouched(a, ListV(vs))
  {
    var items := a.kind.items;
    if Chosen(a, a.kind.choices, ListV(vs)) && (a.empty || vs != []) && items != [] {
      ItemsRejected(items, vs);
      var k := BadItem(items, vs);
      SameElements(CleanItems(items, vs).after, vs, k);
      if LeavesFirst(items) {
        LeavesFit(items, vs[k]);
      }
    }
  }

  lemma {:induction false} FieldRejects(a: Attr, f: Field)
    requires a.kind.DictK? && CleanField(a.kind.attrs, a.kind.additional, f).Err?
    requires var k := Find(a.kind.attrs, f.key);
             k < |a.kind.attrs| ==>
               (Clean(a.kind.attrs[k], Some(f.val)).after == f.val <==> Untouched(a.kind.attrs[k], f.val))
    ensures CleanField(a.kind.attrs, a.kind.additional, f).after == f <==> UntouchedField(a, f)
  {
  }

  lemma {:induction false} DictRejects(a: Attr, fields: seq<Field>)
    requires a.kind.DictK? && Clean(a, Some(DictV(fields))).Err?
    requires forall i :: 0 <= i < |fields| && CleanField(a.kind.attrs, a.kind.additional, fields[i]).Err? ==>
               (CleanField(a.kind.attrs, a.kind.additional, fields[i]).after == fields[i] <==>
                UntouchedField(a, fields[i]))
    ensures Clean(a, Some(DictV(fields))).after == DictV(fields) <==> Untouched(a, DictV(fields))
  {
    var attrs, additional := a.kind.attrs, a.kind.additional;
    if CleanFields(attrs, additional, fields).Err? {
      FieldsRejected(attrs, additional, fields);
      SameElements(CleanFields(attrs, additional, fields).after, fields, BadField(attrs, additional, fields));
    } else {
      LateReject(a, fields);
    }
  }

  // All given fields are accepted, but a missing one cannot be filled in.
  lemma {:induction false} LateReject(a: Attr, fields: seq<Field>)
    requires a.kind.DictK? && Clean(a, Some(DictV(fields))).Err?
    requires CleanFields(a.kind.attrs, a.kind.additional, fields).Ok?
    ensures BadField(a.kind.attrs, a.kind.additional, fields) == |fields|
    ensures Clean(a, Some(DictV(fields))).after == DictV(fields) <==> Untouched(a, DictV(fields))
  {
    var attrs, additional := a.kind.attrs, a.kind.additional;
    var cleaned := CleanFields(attrs, additional, fields).value;
    FieldsAt(attrs, additional, fields);
    FieldsStable(attrs, additional, fields);
    CleanFieldsKeys(attrs, additional, fields);
    DefaultsRejected(attrs, cleaned);
    MissingSame(attrs, fields, cleaned);
    AddDefaultsKeeps(attrs, cleaned);
  }

  lemma {:induction false} MissingSame(attrs: seq<Attr>, fields: seq<Field>, cleaned: seq<Field>)
    requires |cleaned| == |fields| && forall k :: 0 <= k < |fields| ==> cleaned[k].key == fields[k].key
    ensures FirstMissing(attrs, cleaned) == FirstMissing(attrs, fields)
    decreases |attrs|
  {
    if attrs != [] {
      SameKeys(fields, cleaned);
      SameKeys(cleaned, fields);
      MissingSame(attrs[1..], fields, cleaned);
    }
  }

  lemma {:induction false} AddDefaultsKeeps(attrs: seq<Attr>, fields: seq<Field>)
    requires AddDefaults(attrs, fields).Err?
    ensures var after := AddDefaults(attrs, fields).after; |after| >= |fields| && after[..|fields|] == fields
    decreases |attrs|
  {
    if !Missing(attrs[0], fields) {
      AddDefaultsKeeps(attrs[1..], fields);
    } else if Clean(attrs[0], None).Ok? {
      var added := fields + [Field(attrs[0].name, Clean(attrs[0], None).value)];
      AddDefaultsKeeps(attrs[1..], added);
      var after := AddDefaults(attrs, fields).after;
      assert after[..|fields|] == after[..|added|][..|fields|];
    }
  }

  /** A rejected value is as it was given if and only if all that was accepted on the way was clean
      already, no default was filled in, and the part that was rejected is as it was. */
  lemma {:induction false} RejectedUnchanged(a: Attr, v: Value)
    requires Clean(a, Some(v)).Err?
    ensures Clean(a, Some(v)).after == v <==> Untouched(a, v)
    decreases a
  {
    match a.kind
    case ListK(_, items) =>
      if v.ListV? {
        forall w | items != [] && Clean(Last(items), Some(w)).Err?
          ensures Clean(Last(items), Some(w)).after == w <==> Untouched(Last(items), w)
        {
          RejectedUnchanged(Last(items), w);
        }
        ListRejects(a, v.items);
      }
    case DictK(attrs, additional, _) =>
      if v.DictV? {
        forall i | 0 <= i < |v.fields| && CleanField(attrs, additional, v.fields[i]).Err?
          ensures CleanField(attrs, additional, v.fields[i]).after == v.fields[i] <==> UntouchedField(a, v.fields[i])
        {
          var k := Find(attrs, v.fields[i].key);
          if k < |attrs| {
            RejectedUnchanged(attrs[k], v.fields[i].val);
          }
          FieldRejects(a, v.fields[i]);
        }
        DictRejects(a, v.fields);
      }
    case _ => LeafRejects(a, v);
  }

  // --- Alternatives ------------------------------------------------------------------------------------------

  function FirstAccepting(alternatives: seq<Attr>, v: Value): Res<Value> {
    var k := FirstTaker(alternatives, v);
    if k < |alternatives| then Clean(alternatives[k], Some(v)) else Err(v)
  }

  /** The code takes the first alternative that accepts the original value, or hands the value on as it
      was, if every alternative that rejects it leaves it alone; for alternatives without parts that is
      always so. */
  lemma {:induction false} FitsOriginal(alternatives: seq<Attr>, v: Value)
    requires forall k :: 0 <= k < |alternatives| && Clean(alternatives[k], Some(v)).Err? ==>
               Untouched(alternatives[k], v)
    ensures FirstThatFits(alternatives, v) == FirstAccepting(alternatives, v)
  {
    if alternatives != [] && Clean(alternatives[0], Some(v)).Err? {
      RejectedUnchanged(alternatives[0], v);
      FitsOriginal(alternatives[1..], v);
    }
  }

  // Alternatives that reject a value and leave it alone have no say in what becomes of it.
  lemma {:induction false} FitsAt(alternatives: seq<Attr>, v: Value, k: nat)
    requires k < |alternatives| && Clean(alternatives[k], Some(v)).Ok?
    requires forall j :: 0 <= j < k ==> Clean(alternatives[j], Some(v)) == Err(v)
    ensures FirstThatFits(alternatives, v) == Clean(alternatives[k], Some(v))
  {
    if k > 0 {
      FitsAt(alternatives[1..], v, k - 1);
    }
  }

  lemma {:induction false} TwoFieldsSecondRejected(attrs: seq<Attr>, f: Field, g: Field)
    requires Find(attrs, f.key) < |attrs| && Clean(attrs[Find(attrs, f.key)], Some(f.val)).Ok?
    requires Find(attrs, g.key) < |attrs| && Clean(attrs[Find(attrs, g.key)], Some(g.val)) == Err(g.val)
    ensures CleanFields(attrs, false, [f, g]) ==
            Err([Field(f.key, Clean(attrs[Find(attrs, f.key)], Some(f.val)).value), g])
  {
    var first := Field(f.key, Clean(attrs[Find(attrs, f.key)], Some(f.val)).value);
    assert [f, g][1..] == [g] && [g][1..] == [];
    assert [Field(g.key, g.val)] + [] == [g];
    assert CleanFields(attrs, false, [g]) == Err([g]);
    assert [first] + [g] == [first, g];
  }

  // A value that one alternative rejects half-way reaches the next one already changed.
  lemma {:induction false} RejectedValueIsChanged()
    ensures var first := Simple("x", DictK([Simple("a", IntK(None)), Simple("b", BoolK)], false, false));
            var second := Simple("y", AnyK);
            var v := DictV([Field("a", StrV("5")), Field("b", Null)]);
            && Clean(second, Some(v)) == Ok(v)
            && FirstThatFits([first, second], v) == Ok(DictV([Field("a", IntV(5)), Field("b", Null)]))
  {
    var a, b := Simple("a", IntK(None)), Simple("b", BoolK);
    var first, second := Simple("x", DictK([a, b], false, false)), Simple("y", AnyK);
    var fields := [Field("a", StrV("5")), Field("b", Null)];
    assert "5"[..0] == "" && Number("5") == 5;
    assert Find([a, b], "a") == 0;
    assert [a, b][1..] == [b] && Find([b], "b") == 0 && Find([a, b], "b") == 1;
    TwoFieldsSecondRejected([a, b], fields[0], fields[1]);
    assert [first, second][1..] == [second];
    var changed := DictV([Field("a", IntV(5)), Field("b", Null)]);
    assert Clean(first, Some(DictV(fields))) == Err(changed);
    assert FirstThatFits([second], changed) == Ok(changed);
  }
}
