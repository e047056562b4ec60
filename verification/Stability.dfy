/**
 The values that cleaning leaves as they are, told from the schema.
 */
module Stability {
  import opened CleanedParts
  import opened Rejections
  import opened Schema
  import opened Wrappers

  // Only the last kind of item of a list has parts, and dictionaries are dictionaries of attributes.
  ghost predicate Shaped(a: Attr)
    decreases a
  {
    match a.kind
    case ListK(_, items) => LeavesFirst(items) && forall k :: 0 <= k < |items| ==> Shaped(items[k])
    case DictK(attrs, _, _) => DistinctNames(attrs) && forall k :: 0 <= k < |attrs| ==> Shaped(attrs[k])
    case _ => true
  }

  lemma {:induction false} ShapedNamed(a: Attr)
    requires Shaped(a)
    ensures WellNamed(a)
    decreases a
  {
    match a.kind
    case ListK(_, items) =>
      forall k | 0 <= k < |items| ensures WellNamed(items[k]) {
        ShapedNamed(items[k]);
      }
    case DictK(attrs, _, _) =>
      forall k | 0 <= k < |attrs| ensures WellNamed(attrs[k]) {
        ShapedNamed(attrs[k]);
      }
    case _ =>
  }

  /** The type, the choices, the keys and the required parts are there, and so on for the parts. */
  ghost predicate Stable(a: Attr, v: Value)
    decreases a
  {
    match a.kind
    case AnyK => v == Null ==> a.nullable
    case StrK(choices) =>
      if v == Null then a.nullable else v.StrV? && (v.s == "" ==> a.empty) && Chosen(a, choices, v)
    case IntK(choices) => if v == Null then a.nullable else v.IntV? && Chosen(a, choices, v)
    case BoolK => if v == Null then a.nullable else v.BoolV?
    case ListK(choices, items) =>
      if v == Null then a.nullable && a.default == Null
      else
        && v.ListV? && (v.items == [] ==> a.empty) && Chosen(a, choices, v)
        && forall i :: 0 <= i < |v.items| ==> items == [] || Settles(a, v.items[i])
    case DictK(attrs, additional, update) =>
      if v == Null then a.nullable
      else
        && v.DictV? && (forall i :: 0 <= i < |v.fields| ==> StableField(a, v.fields[i]))
        && (!update ==> forall k :: 0 <= k < |attrs| && Wanted(attrs[k]) ==> HasKey(v.fields, attrs[k].name))
  }

  ghost predicate StableField(a: Attr, f: Field)
    requires a.kind.DictK?
    decreases a, 0
  {
    var k := Find(a.kind.attrs, f.key);
    if k == |a.kind.attrs| then a.kind.additional else Stable(a.kind.attrs[k], f.val)
  }

  // An item is stable under one of the alternatives, and left alone by those before it.
  ghost predicate Settles(a: Attr, w: Value)
    requires a.kind.ListK?
    decreases a, 0
  {
    exists k :: 0 <= k < |a.kind.items| && Stable(a.kind.items[k], w) && LeftAlone(a.kind.items[..k], w)
  }

  ghost predicate LeftAlone(alternatives: seq<Attr>, w: Value) {
    forall j :: 0 <= j < |alternatives| ==> Clean(alternatives[j], Some(w)).Err? && Untouched(alternatives[j], w)
  }

  // --- Stable values are fixed points --------------------------------------------------------------------

  lemma {:induction false} StableFixed(a: Attr, v: Value)
    requires WellNamed(a) && Stable(a, v)
    ensures Clean(a, Some(v)) == Ok(v)
    decreases a
  {
    match a.kind
    case ListK(_, items) =>
      if v.ListV? && items != [] {
        forall i | 0 <= i < |v.items| ensures FirstThatFits(items, v.items[i]) == Ok(v.items[i]) {
          SettledFits(a, v.items[i]);
        }
        ItemsFixed(items, v.items);
      }
    case DictK(attrs, additional, _) =>
      if v.DictV? {
        forall i | 0 <= i < |v.fields| ensures CleanField(attrs, additional, v.fields[i]) == Ok(v.fields[i]) {
          var k := Find(attrs, v.fields[i].key);
          if k < |attrs| {
            StableFixed(attrs[k], v.fields[i].val);
          }
        }
        FieldsStable(attrs, additional, v.fields);
        DictFixed(a, v.fields);
      }
    case _ =>
  }

  lemma {:induction false} SettledFits(a: Attr, w: Value)
    requires WellNamed(a) && a.kind.ListK? && Settles(a, w)
    ensures FirstThatFits(a.kind.items, w) == Ok(w)
    decreases a, 0
  {
    var items := a.kind.items;
    var k :| 0 <= k < |items| && Stable(items[k], w) && LeftAlone(items[..k], w);
    StableFixed(items[k], w);
    forall j | 0 <= j < k ensures Clean(items[j], Some(w)) == Err(w) {
      assert items[..k][j] == items[j];
      RejectedUnchanged(items[j], w);
    }
    FitsAt(items, w, k);
  }

  lemma {:induction false} ItemsFixed(items: seq<Attr>, vs: seq<Value>)
    ensures CleanItems(items, vs) == Ok(vs) <==>
            forall i :: 0 <= i < |vs| ==> FirstThatFits(items, vs[i]) == Ok(vs[i])
  {
    ItemsAt(items, vs);
    if forall i :: 0 <= i < |vs| ==> FirstThatFits(items, vs[i]) == Ok(vs[i]) {
      assert CleanItems(items, vs).value == vs;
    }
  }

  // --- Fixed points are stable -----------------------------------------------------------------------------

  lemma {:induction false} FixedStable(a: Attr, v: Value)
    requires Shaped(a) && Clean(a, Some(v)) == Ok(v)
    ensures Stable(a, v)
    decreases a
  {
    match a.kind
    case ListK(_, items) =>
      if v.ListV? && items != [] {
        ItemsFixed(items, v.items);
        forall i | 0 <= i < |v.items| ensures Settles(a, v.items[i]) {
          FitsSettles(a, v.items[i]);
        }
      }
    case DictK(attrs, additional, _) =>
      if v.DictV? {
        FieldsStable(attrs, additional, v.fields);
        DictFixed(a, v.fields);
        forall i | 0 <= i < |v.fields| ensures StableField(a, v.fields[i]) {
          var k := Find(attrs, v.fields[i].key);
          assert CleanField(attrs, additional, v.fields[i]) == Ok(v.fields[i]);
          if k < |attrs| {
            FixedStable(attrs[k], v.fields[i].val);
          }
        }
      }
    case _ =>
  }

  lemma {:induction false} FitsSettles(a: Attr, w: Value)
    requires Shaped(a) && a.kind.ListK? && FirstThatFits(a.kind.items, w) == Ok(w)
    ensures Settles(a, w)
    decreases a, 0
  {
    var items, k := a.kind.items, FirstTaker(a.kind.items, w);
    LeavesFit(items, w);
    FixedStable(items[k], w);
    forall j | 0 <= j < k ensures Clean(items[..k][j], Some(w)).Err? && Untouched(items[..k][j], w) {
      assert items[..k][j] == items[j];
      assert Leaf(items[j]);
    }
  }

  /** The values described by `Stable` are exactly the fixed points of cleaning. */
  lemma {:induction false} StableExactly(a: Attr, v: Value)
    requires Shaped(a)
    ensures Stable(a, v) <==> Clean(a, Some(v)) == Ok(v)
  {
    ShapedNamed(a);
    if Stable(a, v) {
      StableFixed(a, v);
    }
    if Clean(a, Some(v)) == Ok(v) {
      FixedStable(a, v);
    }
  }

  lemma {:induction false} SettlesExactly(a: Attr, w: Value)
    requires Shaped(a) && a.kind.ListK?
    ensures Settles(a, w) <==> FirstThatFits(a.kind.items, w) == Ok(w)
  {
    ShapedNamed(a);
    if Settles(a, w) {
      SettledFits(a, w);
    }
    if FirstThatFits(a.kind.items, w) == Ok(w) {
      FitsSettles(a, w);
    }
  }

  // --- Rejected values -------------------------------------------------------------------------------------

  /** All that comes before the rejected part is stable, no default is filled in, and so on for the
      rejected part. */
  ghost predicate Intact(a: Attr, v: Value)
    decreases a
  {
    match a.kind
    case ListK(choices, items) =>
      v.ListV? && Chosen(a, choices, v) && BadItem(items, v.items) < |v.items| && items != [] ==>
        var k := BadItem(items, v.items);
        (forall j :: 0 <= j < k ==> Settles(a, v.items[j])) && Intact(Last(items), v.items[k])
    case DictK(attrs, additional, update) =>
      v.DictV? ==>
        var k, m := BadField(attrs, additional, v.fields), FirstMissing(attrs, v.fields);
        && (forall j :: 0 <= j < k ==> StableField(a, v.fields[j]))
        && if k < |v.fields| then IntactField(a, v.fields[k]) else m < |attrs| ==> Clean(attrs[m], None).Err?
    case _ => true
  }

  ghost predicate IntactField(a: Attr, f: Field)
    requires a.kind.DictK?
    decreases a, 0
  {
    var k := Find(a.kind.attrs, f.key);
    k < |a.kind.attrs| ==> Intact(a.kind.attrs[k], f.val)
  }

  /** A rejected value is as it was given if and only if it is intact. */
  lemma {:induction false} IntactExactly(a: Attr, v: Value)
    requires Shaped(a) && Clean(a, Some(v)).Err?
    ensures Clean(a, Some(v)).after == v <==> Intact(a, v)
  {
    RejectedUnchanged(a, v);
    IntactUntouched(a, v);
  }

  lemma {:induction false} IntactUntouched(a: Attr, v: Value)
    requires Shaped(a)
    ensures Untouched(a, v) <==> Intact(a, v)
    decreases a
  {
    match a.kind
    case ListK(_, items) =>
      if v.ListV? && items != [] {
        forall i | 0 <= i < |v.items|
          ensures Settles(a, v.items[i]) <==> FirstThatFits(items, v.items[i]) == Ok(v.items[i])
          ensures Untouched(Last(items), v.items[i]) <==> Intact(Last(items), v.items[i])
        {
          SettlesExactly(a, v.items[i]);
          IntactUntouched(Last(items), v.items[i]);
        }
      }
    case DictK(attrs, additional, _) =>
      if v.DictV? {
        forall i | 0 <= i < |v.fields|
          ensures StableField(a, v.fields[i]) <==> CleanField(attrs, additional, v.fields[i]) == Ok(v.fields[i])
          ensures UntouchedField(a, v.fields[i]) <==> IntactField(a, v.fields[i])
        {
          var k := Find(attrs, v.fields[i].key);
          if k < |attrs| {
            StableExactly(attrs[k], v.fields[i].val);
            IntactUntouched(attrs[k], v.fields[i].val);
          }
        }
      }
    case _ =>
  }
}
