/**
 Cleaning a value that was cleaned before: exactly for which schemas it changes nothing.
 */
module Idempotence {
  import opened CleanedParts
  import opened Rejections
  import opened Schema
  import opened Stability
  import opened Wrappers

  ghost predicate Idempotent(a: Attr, input: Option<Value>) {
    Clean(a, input).Ok? ==> Clean(a, Some(Clean(a, input).value)) == Clean(a, input)
  }

  // For every value that is given, for every one that is not null, and also for a missing one.
  ghost predicate IdempotentGiven(a: Attr) {
    forall v :: Idempotent(a, Some(v))
  }

  ghost predicate IdempotentParts(a: Attr) {
    forall v :: v != Null ==> Idempotent(a, Some(v))
  }

  ghost predicate IdempotentAlways(a: Attr) {
    forall input :: Idempotent(a, input)
  }

  // --- The condition ------------------------------------------------------------------------------------------

  // A null default is allowed, or barred by the choices.
  ghost predicate NullDefaultOk(a: Attr) {
    a.hasDefault && a.default == Null ==> a.nullable || NullBarred(a.kind)
  }

  // Conversions lead from permitted choices to permitted choices.
  ghost predicate ChoicesClosed(a: Attr)
    requires !a.kind.ListK? && !a.kind.DictK?
  {
    match a.kind
    case StrK(Some(choices)) => forall i :: Among(IntV(i), choices) ==> Among(StrV(Decimal(i)), choices)
    case IntK(Some(choices)) => forall s :: Among(StrV(s), choices) && IsDigits(s) ==> Among(IntV(Number(s)), choices)
    case _ => true
  }

  // What the items make of a choice is a choice, and settled.
  ghost predicate ItemChoicesClosed(a: Attr)
    requires a.kind.ListK? && a.kind.choices.Some?
  {
    forall v :: Among(v, a.kind.choices.value) && FirstThatFits(a.kind.items, v).Ok? ==>
                Among(FirstThatFits(a.kind.items, v).value, a.kind.choices.value)
                && Settles(a, FirstThatFits(a.kind.items, v).value)
  }

  // What an alternative without parts converts settles.
  ghost predicate ConversionsSettle(a: Attr)
    requires a.kind.ListK?
  {
    && (forall i :: Takes(a.kind.items, IntV(i)).StrK? ==> Settles(a, StrV(Decimal(i))))
    && (forall s :: IsDigits(s) && Takes(a.kind.items, StrV(s)).IntK? ==> Settles(a, IntV(Number(s))))
  }

  // The kind of the alternative that accepts the value, or `AnyK`.
  function Takes(alternatives: seq<Attr>, v: Value): Kind {
    var k := FirstTaker(alternatives, v);
    if k < |alternatives| then alternatives[k].kind else AnyK
  }

  // A default that an item hands out for null settles.
  ghost predicate NullSettles(a: Attr)
    requires a.kind.ListK?
  {
    Takes(a.kind.items, Null).ListK? ==> Settles(a, Last(a.kind.items).default)
  }

  // An alternative before the last one accepts all that is not null.
  predicate AnyBefore(alternatives: seq<Attr>) {
    exists k :: 0 <= k < |alternatives| - 1 && alternatives[k].kind.AnyK?
  }

  // A schema keeps the value or leaves it to the next one as it is.
  ghost predicate Passes(a: Attr, w: Value) {
    Stable(a, w) || (Clean(a, Some(w)).Err? && Untouched(a, w))
  }

  /** What an alternative makes of any value is not changed by the ones before. */
  ghost predicate Compatible(alternatives: seq<Attr>) {
    forall j, k, v :: 0 <= j < k < |alternatives| && Clean(alternatives[k], Some(v)).Ok? ==>
      Passes(alternatives[j], Clean(alternatives[k], Some(v)).value)
  }

  /** Schemas on which cleaning a value other than null twice is cleaning it once. Conversions respect
      the choices, and what one alternative of a list converts is not converted back by another one; so
      on for the parts that are reached; and for parts that are filled in when missing, a null default
      has to be allowed. If several alternatives have parts, what one makes of a value must not concern
      the ones before. */
  ghost predicate SteadyParts(a: Attr)
    decreases a, 0
  {
    match a.kind
    case ListK(choices, items) =>
      items != [] ==>
        if choices.Some? then ItemChoicesClosed(a)
        else if LeavesFirst(items) then
          && ConversionsSettle(a) && NullSettles(a)
          && (!Leaf(Last(items)) && !AnyBefore(items) ==> SteadyParts(Last(items)))
        else Compatible(items) && forall k :: 0 <= k < |items| ==> SteadyGiven(items[k])
    case DictK(attrs, _, update) =>
      forall k :: 0 <= k < |attrs| ==> SteadyGiven(attrs[k]) && (!update ==> NullDefaultOk(attrs[k]))
    case _ => ChoicesClosed(a)
  }

  /** With null among the given values, a list that is handed out for null has to be clean itself. */
  ghost predicate SteadyGiven(a: Attr)
    decreases a, 1
  {
    SteadyParts(a) && (a.kind.ListK? && a.nullable && a.default != Null ==> Stable(a, a.default))
  }

  ghost predicate Steady(a: Attr) {
    SteadyGiven(a) && NullDefaultOk(a)
  }

  /** A missing value adds nothing but the question whether a null default is allowed. */
  lemma {:induction false} MissingValue(a: Attr)
    requires IdempotentGiven(a)
    ensures Idempotent(a, None) <==> NullDefaultOk(a)
  {
    if a.hasDefault && (a.default != Null || a.nullable) {
      assert Clean(a, None) == Clean(a, Some(a.default));
      assert Idempotent(a, Some(a.default));
    }
  }

  // --- The condition suffices ---------------------------------------------------------------------------------------

  lemma {:induction false} LeafSteady(a: Attr, v: Value)
    requires Leaf(a) && ChoicesClosed(a)
    ensures Idempotent(a, Some(v))
  {
  }

  // A list is idempotent if its items are.
  ghost predicate ItemFits(a: Attr, v: Value)
    requires a.kind.ListK?
  {
    FirstThatFits(a.kind.items, v).Ok? && (a.kind.choices.Some? ==> Among(v, a.kind.choices.value)) ==>
      var w := FirstThatFits(a.kind.items, v).value;
      FirstThatFits(a.kind.items, w) == Ok(w) && (a.kind.choices.Some? ==> Among(w, a.kind.choices.value))
  }

  lemma {:induction false} ListSteady(a: Attr, v: Value)
    requires a.kind.ListK? && v != Null && (a.kind.items != [] ==> forall w :: ItemFits(a, w))
    ensures Idempotent(a, Some(v))
  {
    if Clean(a, Some(v)).Ok? && a.kind.items != [] {
      ItemsSteady(a, v.items);
    }
  }

  lemma {:induction false} ItemsSteady(a: Attr, vs: seq<Value>)
    requires a.kind.ListK? && a.kind.items != [] && forall w :: ItemFits(a, w)
    requires CleanItems(a.kind.items, vs).Ok? && Chosen(a, a.kind.choices, ListV(vs))
    ensures var ws := CleanItems(a.kind.items, vs).value;
            |ws| == |vs| && CleanItems(a.kind.items, ws) == Ok(ws) && Chosen(a, a.kind.choices, ListV(ws))
  {
    var items := a.kind.items;
    ItemsAt(items, vs);
    var ws := CleanItems(items, vs).value;
    forall k | 0 <= k < |ws|
      ensures FirstThatFits(items, ws[k]) == Ok(ws[k])
      ensures a.kind.choices.Some? ==> Among(ws[k], a.kind.choices.value)
    {
      assert ListV(vs).items[k] == vs[k];
      assert ItemFits(a, vs[k]);
    }
    ItemsFixed(items, ws);
  }

  // --- Alternatives ------------------------------------------------------------------------------------------

  /** Alternatives that are idempotent, each of which keeps what a later one makes of any value or leaves
      it alone, are idempotent together. */
  lemma {:induction false} AlternativesIdempotent(alternatives: seq<Attr>, v: Value)
    requires forall k :: 0 <= k < |alternatives| ==> WellNamed(alternatives[k]) && IdempotentGiven(alternatives[k])
    requires Compatible(alternatives) && FirstThatFits(alternatives, v).Ok?
    ensures var w := FirstThatFits(alternatives, v).value; FirstThatFits(alternatives, w) == Ok(w)
  {
    var w := FirstThatFits(alternatives, v).value;
    var k, left := TakenAt(alternatives, v);
    assert Idempotent(alternatives[k], Some(left));
    forall j | 0 <= j < k ensures Clean(alternatives[j], Some(w)) in {Ok(w), Err(w)} {
      assert Passes(alternatives[j], w);
      PassesFacts(alternatives[j], w);
    }
    KeptByFirst(alternatives, w, k);
  }

  // The alternative that accepts the value, and what the ones before have left of it.
  lemma {:induction false} TakenAt(alternatives: seq<Attr>, v: Value) returns (k: nat, left: Value)
    requires FirstThatFits(alternatives, v).Ok?
    ensures k < |alternatives| && FirstThatFits(alternatives, v) == Clean(alternatives[k], Some(left))
  {
    var r := Clean(alternatives[0], Some(v));
    if r.Ok? {
      k, left := 0, v;
    } else {
      k, left := TakenAt(alternatives[1..], r.after);
      k := k + 1;
    }
  }

  lemma {:induction false} PassesFacts(a: Attr, w: Value)
    requires WellNamed(a) && Passes(a, w)
    ensures Clean(a, Some(w)) in {Ok(w), Err(w)}
  {
    if Stable(a, w) {
      StableFixed(a, w);
    } else {
      RejectedUnchanged(a, w);
    }
  }

  lemma {:induction false} KeptByFirst(alternatives: seq<Attr>, w: Value, k: nat)
    requires k < |alternatives| && Clean(alternatives[k], Some(w)) == Ok(w)
    requires forall j :: 0 <= j < k ==> Clean(alternatives[j], Some(w)) in {Ok(w), Err(w)}
    ensures FirstThatFits(alternatives, w) == Ok(w)
  {
    if k > 0 && Clean(alternatives[0], Some(w)).Err? {
      KeptByFirst(alternatives[1..], w, k - 1);
    }
  }

  // Values with parts pass by strings, numbers and booleans.
  lemma {:induction false} LastDecides(alternatives: seq<Attr>, v: Value)
    requires alternatives != [] && LeavesFirst(alternatives) && !AnyBefore(alternatives) && (v.ListV? || v.DictV?)
    ensures FirstThatFits(alternatives, v) == Clean(Last(alternatives), Some(v))
  {
    LeavesFit(alternatives, v);
    forall k | 0 <= k < |alternatives| - 1 ensures Clean(alternatives[k], Some(v)).Err? {
      assert Leaf(alternatives[k]) && !alternatives[k].kind.AnyK?;
    }
  }

  lemma {:induction false} LeavesSteady(a: Attr, v: Value)
    requires a.kind.ListK? && WellNamed(a) && a.kind.items != [] && LeavesFirst(a.kind.items)
    requires ConversionsSettle(a) && NullSettles(a)
    requires !Leaf(Last(a.kind.items)) && !AnyBefore(a.kind.items) ==> IdempotentParts(Last(a.kind.items))
    requires FirstThatFits(a.kind.items, v).Ok?
    ensures var w := FirstThatFits(a.kind.items, v).value; FirstThatFits(a.kind.items, w) == Ok(w)
  {
    var items, k, w := a.kind.items, FirstTaker(a.kind.items, v), FirstThatFits(a.kind.items, v).value;
    LeavesFit(items, v);
    if Leaf(items[k]) {
      LeafMakes(items[k], v);
      if w != v {
        SettledFits(a, w);
      }
    } else if v == Null {
      if items[k].kind.ListK? {
        SettledFits(a, w);
      }
    } else {
      LastSteady(items, v);
    }
  }

  lemma {:induction false} LastSteady(items: seq<Attr>, v: Value)
    requires items != [] && LeavesFirst(items) && FirstTaker(items, v) == |items| - 1 && v != Null
    requires !Leaf(Last(items)) && (!AnyBefore(items) ==> IdempotentParts(Last(items)))
    ensures var w := Clean(Last(items), Some(v)).value; FirstThatFits(items, w) == Ok(w)
  {
    forall j | 0 <= j < |items| - 1 ensures !items[j].kind.AnyK? {
      assert Clean(items[j], Some(v)).Err?;
    }
    assert Idempotent(Last(items), Some(v));
    LastDecides(items, Clean(Last(items), Some(v)).value);
  }

  // What a schema without parts can make of a value.
  lemma {:induction false} LeafMakes(a: Attr, v: Value)
    requires Leaf(a) && Clean(a, Some(v)).Ok?
    ensures var w := Clean(a, Some(v)).value;
            || w == v
            || (a.kind.StrK? && v.IntV? && w == StrV(Decimal(v.i)))
            || (a.kind.IntK? && v.StrV? && IsDigits(v.s) && w == IntV(Number(v.s)))
  {
  }

  lemma {:induction false} ItemSteady(a: Attr, v: Value)
    requires a.kind.ListK? && WellNamed(a) && a.kind.items != [] && SteadyParts(a)
    requires forall k :: 0 <= k < |a.kind.items| && SteadyParts(a.kind.items[k]) ==> IdempotentParts(a.kind.items[k])
    requires forall k :: 0 <= k < |a.kind.items| && SteadyGiven(a.kind.items[k]) ==> IdempotentGiven(a.kind.items[k])
    ensures ItemFits(a, v)
  {
    if FirstThatFits(a.kind.items, v).Ok? {
      if a.kind.choices.Some? {
        if Among(v, a.kind.choices.value) {
          SettledFits(a, FirstThatFits(a.kind.items, v).value);
        }
      } else if LeavesFirst(a.kind.items) {
        LeavesSteady(a, v);
      } else {
        AlternativesIdempotent(a.kind.items, v);
      }
    }
  }

  // --- Dictionaries --------------------------------------------------------------------------------------------

  lemma {:induction false} DictSteady(a: Attr, v: Value)
    requires a.kind.DictK? && DistinctNames(a.kind.attrs)
    requires forall k :: 0 <= k < |a.kind.attrs| ==> IdempotentGiven(a.kind.attrs[k])
    requires !a.kind.update ==> forall k :: 0 <= k < |a.kind.attrs| ==> NullDefaultOk(a.kind.attrs[k])
    ensures Idempotent(a, Some(v))
  {
    if v != Null && Clean(a, Some(v)).Ok? {
      var attrs, additional := a.kind.attrs, a.kind.additional;
      var cleaned := CleanFields(attrs, additional, v.fields).value;
      FieldsAt(attrs, additional, v.fields);
      forall i | 0 <= i < |cleaned| ensures CleanField(attrs, additional, cleaned[i]) == Ok(cleaned[i]) {
        FieldSteady(attrs, additional, v.fields[i]);
      }
      var r := Clean(a, Some(v)).value.fields;
      if !a.kind.update {
        DefaultsAt(attrs, cleaned);
        forall k | 0 <= k < |attrs| && Wanted(attrs[k]) ensures HasKey(r, attrs[k].name) {
          WantedPresent(attrs, cleaned, k);
        }
        forall i | 0 <= i < |r| ensures CleanField(attrs, additional, r[i]) == Ok(r[i]) {
          if i < |cleaned| {
            assert r[i] == r[..|cleaned|][i];
          } else {
            assert AddedFor(attrs, cleaned, r[i]);
            var k :| 0 <= k < |attrs| && Missing(attrs[k], cleaned) && Added(attrs[k], r[i]);
            AddedSteady(attrs, additional, k, r[i]);
          }
        }
      }
      FieldsStable(attrs, additional, r);
      DictFixed(a, r);
    }
  }

  lemma {:induction false} FieldSteady(attrs: seq<Attr>, additional: bool, f: Field)
    requires (forall k :: 0 <= k < |attrs| ==> IdempotentGiven(attrs[k])) && CleanField(attrs, additional, f).Ok?
    ensures var g := CleanField(attrs, additional, f).value; CleanField(attrs, additional, g) == Ok(g)
  {
    var k := Find(attrs, f.key);
    if k < |attrs| {
      assert Idempotent(attrs[k], Some(f.val));
    }
  }

  lemma {:induction false} AddedSteady(attrs: seq<Attr>, additional: bool, k: nat, f: Field)
    requires DistinctNames(attrs) && k < |attrs| && IdempotentGiven(attrs[k]) && NullDefaultOk(attrs[k])
    requires Added(attrs[k], f)
    ensures CleanField(attrs, additional, f) == Ok(f)
  {
    FindSelf(attrs, k);
    MissingValue(attrs[k]);
  }

  lemma {:induction false} PartsSteady(a: Attr)
    requires WellNamed(a) && SteadyParts(a)
    ensures IdempotentParts(a)
    decreases a, 0
  {
    match a.kind
    case ListK(_, items) =>
      forall k | 0 <= k < |items| && SteadyParts(items[k]) ensures IdempotentParts(items[k]) {
        PartsSteady(items[k]);
      }
      forall k | 0 <= k < |items| && SteadyGiven(items[k]) ensures IdempotentGiven(items[k]) {
        SteadyIsIdempotent(items[k]);
      }
      forall w | items != [] ensures ItemFits(a, w) {
        ItemSteady(a, w);
      }
      forall v | v != Null ensures Idempotent(a, Some(v)) {
        ListSteady(a, v);
      }
    case DictK(attrs, _, _) =>
      forall k | 0 <= k < |attrs| ensures IdempotentGiven(attrs[k]) {
        SteadyIsIdempotent(attrs[k]);
      }
      forall v ensures Idempotent(a, Some(v)) {
        DictSteady(a, v);
      }
    case _ =>
      forall v ensures Idempotent(a, Some(v)) {
        LeafSteady(a, v);
      }
  }

  lemma {:induction false} SteadyIsIdempotent(a: Attr)
    requires WellNamed(a) && SteadyGiven(a)
    ensures IdempotentGiven(a)
    decreases a, 1
  {
    PartsSteady(a);
    forall v ensures Idempotent(a, Some(v)) {
      if v == Null && a.kind.ListK? && a.nullable && a.default != Null {
        StableFixed(a, a.default);
      }
    }
  }

  /** Cleaning is idempotent on every steady schema, however nested, and for every argument, including
      one that was not provided. */
  lemma {:induction false} CleanIdempotent(a: Attr, input: Option<Value>)
    requires WellNamed(a) && Steady(a)
    ensures Idempotent(a, input)
  {
    SteadyIsIdempotent(a);
    MissingValue(a);
    if input.Some? {
      assert Idempotent(a, Some(input.value));
    }
  }

  // --- The condition is needed ---------------------------------------------------------------------------

  // Every dictionary schema that fills in defaults accepts something.
  ghost predicate Inhabited(a: Attr)
    decreases a
  {
    match a.kind
    case ListK(_, items) => forall k :: 0 <= k < |items| ==> Inhabited(items[k])
    case DictK(attrs, _, update) =>
      && (!update ==> exists fields :: Clean(a, Some(DictV(fields))).Ok?)
      && forall k :: 0 <= k < |attrs| ==> Inhabited(attrs[k])
    case _ => true
  }

  lemma {:induction false} LeafNecessary(a: Attr)
    requires Leaf(a) && IdempotentParts(a)
    ensures ChoicesClosed(a)
  {
    match a.kind
    case StrK(Some(choices)) =>
      forall i | Among(IntV(i), choices) ensures Among(StrV(Decimal(i)), choices) {
        assert Idempotent(a, Some(IntV(i)));
      }
    case IntK(Some(choices)) =>
      forall s | Among(StrV(s), choices) && IsDigits(s) ensures Among(IntV(Number(s)), choices) {
        assert Idempotent(a, Some(StrV(s)));
      }
    case _ =>
  }

  // A list of one item shows what happens to the item.
  lemma {:induction false} OneItemList(a: Attr, v: Value)
    requires a.kind.ListK? && a.kind.items != [] && Idempotent(a, Some(ListV([v])))
    ensures ItemFits(a, v)
  {
    if FirstThatFits(a.kind.items, v).Ok? && (a.kind.choices.Some? ==> Among(v, a.kind.choices.value)) {
      var items, w := a.kind.items, FirstThatFits(a.kind.items, v).value;
      OneItem(items, v);
      assert Clean(a, Some(ListV([v]))) == Ok(ListV([w]));
      ItemsAt(items, [w]);
      assert [w][0] == w && ListV([w]).items[0] == w;
    }
  }

  lemma {:induction false} ItemSettles(a: Attr, v: Value)
    requires Shaped(a) && a.kind.ListK? && a.kind.items != [] && IdempotentParts(a)
    requires FirstThatFits(a.kind.items, v).Ok? && (a.kind.choices.Some? ==> Among(v, a.kind.choices.value))
    ensures Settles(a, FirstThatFits(a.kind.items, v).value)
    ensures a.kind.choices.Some? ==> Among(FirstThatFits(a.kind.items, v).value, a.kind.choices.value)
  {
    assert Idempotent(a, Some(ListV([v])));
    OneItemList(a, v);
    FitsSettles(a, FirstThatFits(a.kind.items, v).value);
  }

  lemma {:induction false} TakenSettles(a: Attr, v: Value)
    requires Shaped(a) && a.kind.ListK? && a.kind.choices.None? && IdempotentParts(a)
    requires FirstTaker(a.kind.items, v) < |a.kind.items|
    ensures Settles(a, Clean(a.kind.items[FirstTaker(a.kind.items, v)], Some(v)).value)
  {
    LeavesFit(a.kind.items, v);
    ItemSettles(a, v);
  }

  lemma {:induction false} NumberTaken(a: Attr, i: int)
    requires Shaped(a) && a.kind.ListK? && a.kind.choices.None? && IdempotentParts(a)
    requires Takes(a.kind.items, IntV(i)).StrK?
    ensures Settles(a, StrV(Decimal(i)))
  {
    TakenSettles(a, IntV(i));
  }

  lemma {:induction false} DigitsTaken(a: Attr, s: string)
    requires Shaped(a) && a.kind.ListK? && a.kind.choices.None? && IdempotentParts(a)
    requires IsDigits(s) && Takes(a.kind.items, StrV(s)).IntK?
    ensures Settles(a, IntV(Number(s)))
  {
    TakenSettles(a, StrV(s));
  }

  lemma {:induction false} ConversionsNecessary(a: Attr)
    requires Shaped(a) && a.kind.ListK? && a.kind.choices.None? && IdempotentParts(a)
    ensures ConversionsSettle(a)
  {
    forall i | Takes(a.kind.items, IntV(i)).StrK? ensures Settles(a, StrV(Decimal(i))) {
      NumberTaken(a, i);
    }
    forall s | IsDigits(s) && Takes(a.kind.items, StrV(s)).IntK? ensures Settles(a, IntV(Number(s))) {
      DigitsTaken(a, s);
    }
  }

  lemma {:induction false} NullNecessary(a: Attr)
    requires Shaped(a) && a.kind.ListK? && a.kind.choices.None? && IdempotentParts(a)
    ensures NullSettles(a)
  {
    if Takes(a.kind.items, Null).ListK? {
      TakenSettles(a, Null);
    }
  }

  lemma {:induction false} LastNecessary(a: Attr)
    requires Shaped(a) && a.kind.ListK? && a.kind.choices.None? && a.kind.items != [] && IdempotentParts(a)
    requires !Leaf(Last(a.kind.items)) && !AnyBefore(a.kind.items)
    ensures IdempotentParts(Last(a.kind.items))
  {
    var items := a.kind.items;
    forall v | v != Null ensures Idempotent(Last(items), Some(v)) {
      if Clean(Last(items), Some(v)).Ok? {
        assert Idempotent(a, Some(ListV([v])));
        OneItemList(a, v);
        LastDecides(items, v);
        LastDecides(items, Clean(Last(items), Some(v)).value);
      }
    }
  }

  function DropKey(fields: seq<Field>, key: string): seq<Field> {
    if fields == [] then [] else (if fields[0].key == key then [] else [fields[0]]) + DropKey(fields[1..], key)
  }

  lemma {:induction false} DropKeyFacts(fields: seq<Field>, key: string)
    ensures forall i :: 0 <= i < |DropKey(fields, key)| ==>
          DropKey(fields, key)[i] in fields && DropKey(fields, key)[i].key != key
    ensures forall other :: other != key && HasKey(fields, other) ==> HasKey(DropKey(fields, key), other)
  {
    if fields != [] {
      DropKeyFacts(fields[1..], key);
      var rest, all := DropKey(fields[1..], key), DropKey(fields, key);
      forall other | other != key && HasKey(fields, other) ensures HasKey(all, other) {
        var i :| 0 <= i < |fields| && fields[i].key == other;
        if i == 0 {
          assert all[0].key == other;
        } else {
          assert fields[1..][i - 1].key == other;
          assert HasKey(fields[1..], other) && HasKey(rest, other);
          var j :| 0 <= j < |rest| && rest[j].key == other;
          assert all[|all| - |rest| + j] == rest[j];
        }
      }
    }
  }

  // An accepted dictionary, with one field taken out or put in front.
  lemma {:induction false} Altered(a: Attr, fields: seq<Field>, k: nat, front: seq<Field>)
    requires a.kind.DictK? && DistinctNames(a.kind.attrs) && !a.kind.update && Clean(a, Some(DictV(fields))).Ok?
    requires k < |a.kind.attrs|
    requires |front| <= 1 && forall i :: 0 <= i < |front| ==> front[i].key == a.kind.attrs[k].name
    requires if front == [] then Clean(a.kind.attrs[k], None).Ok?
             else CleanField(a.kind.attrs, a.kind.additional, front[0]).Ok?
    ensures Clean(a, Some(DictV(front + DropKey(fields, a.kind.attrs[k].name)))).Ok?
  {
    var attrs, additional, name := a.kind.attrs, a.kind.additional, a.kind.attrs[k].name;
    var fields' := front + DropKey(fields, name);
    FieldsAt(attrs, additional, fields);
    DropKeyFacts(fields, name);
    forall i | 0 <= i < |fields'| ensures CleanField(attrs, additional, fields'[i]).Ok? {
      if i >= |front| {
        assert fields'[i] == DropKey(fields, name)[i - |front|];
      }
    }
    FieldsAt(attrs, additional, fields');
    var cleaned := CleanFields(attrs, additional, fields).value;
    var cleaned' := CleanFields(attrs, additional, fields').value;
    DefaultsAt(attrs, cleaned);
    DefaultsAt(attrs, cleaned');
    CleanFieldsKeys(attrs, additional, fields);
    CleanFieldsKeys(attrs, additional, fields');
    forall j | 0 <= j < |attrs| && Missing(attrs[j], cleaned') ensures Clean(attrs[j], None).Ok? {
      AlteredKeys(attrs, fields, fields', cleaned, cleaned', front, k, j);
    }
  }

  lemma {:induction false} AlteredKeys(attrs: seq<Attr>, fields: seq<Field>, fields': seq<Field>, cleaned: seq<Field>,
                                       cleaned': seq<Field>,
                                       front: seq<Field>, k: nat, j: nat)
    requires DistinctNames(attrs) && k < |attrs| && j < |attrs| && fields' == front + DropKey(fields, attrs[k].name)
    requires forall i :: 0 <= i < |front| ==> front[i].key == attrs[k].name
    requires |cleaned| == |fields| && forall i :: 0 <= i < |fields| ==> cleaned[i].key == fields[i].key
    requires |cleaned'| == |fields'| && forall i :: 0 <= i < |fields'| ==> cleaned'[i].key == fields'[i].key
    ensures (if j == k then front != [] else HasKey(cleaned, attrs[j].name)) ==> HasKey(cleaned', attrs[j].name)
  {
    if j == k && front != [] {
      assert fields'[0] == front[0];
      assert cleaned'[0].key == attrs[k].name;
    } else if j != k && HasKey(cleaned, attrs[j].name) {
      DropKeyFacts(fields, attrs[k].name);
      var i :| 0 <= i < |cleaned| && cleaned[i].key == attrs[j].name;
      assert fields[i].key == attrs[j].name;
      assert HasKey(fields, attrs[j].name) && HasKey(DropKey(fields, attrs[k].name), attrs[j].name);
      var m :| 0 <= m < |DropKey(fields, attrs[k].name)| && DropKey(fields, attrs[k].name)[m].key == attrs[j].name;
      assert fields'[|front| + m].key == attrs[j].name;
      assert cleaned'[|front| + m].key == attrs[j].name;
    }
  }

  // If cleaning such a dictionary again changes nothing, each of its fields is clean.
  lemma {:induction false} FixedFields(a: Attr, fields: seq<Field>)
    requires a.kind.DictK? && DistinctNames(a.kind.attrs)
    requires Clean(a, Some(DictV(fields))).Ok? && Idempotent(a, Some(DictV(fields)))
    ensures var r := Clean(a, Some(DictV(fields))).value;
            && r.DictV?
            && (forall i :: 0 <= i < |r.fields| ==>
                  CleanField(a.kind.attrs, a.kind.additional, r.fields[i]) == Ok(r.fields[i]))
            && (forall i :: 0 <= i < |fields| ==>
                  i < |r.fields| && CleanField(a.kind.attrs, a.kind.additional, fields[i]) == Ok(r.fields[i]))
            && (!a.kind.update ==> forall k :: 0 <= k < |a.kind.attrs| && Missing(a.kind.attrs[k], fields) ==>
                  IsAdded(a.kind.attrs[k], r.fields))
  {
    var attrs, additional := a.kind.attrs, a.kind.additional;
    var r, cleaned := Clean(a, Some(DictV(fields))).value, CleanFields(attrs, additional, fields).value;
    DictFixed(a, r.fields);
    FieldsStable(attrs, additional, r.fields);
    FieldsAt(attrs, additional, fields);
    if !a.kind.update {
      DefaultsAt(attrs, cleaned);
      assert forall i :: 0 <= i < |cleaned| ==> r.fields[i] == r.fields[..|cleaned|][i];
      CleanFieldsKeys(attrs, additional, fields);
      SameKeys(fields, cleaned);
      SameKeys(cleaned, fields);
    }
  }

  lemma {:induction false} UpdateNecessary(a: Attr, k: nat, v: Value)
    requires a.kind.DictK? && DistinctNames(a.kind.attrs) && a.kind.update && IdempotentParts(a) && k < |a.kind.attrs|
    ensures Idempotent(a.kind.attrs[k], Some(v))
  {
    var f := Field(a.kind.attrs[k].name, v);
    FindSelf(a.kind.attrs, k);
    if Clean(a.kind.attrs[k], Some(v)).Ok? {
      OneField(a.kind.attrs, a.kind.additional, f.key, v);
      assert Idempotent(a, Some(DictV([f])));
      FixedFields(a, [f]);
      assert [f][0] == f;
    }
  }

  lemma {:induction false} GivenNecessary(a: Attr, fields: seq<Field>, k: nat, v: Value)
    requires a.kind.DictK? && DistinctNames(a.kind.attrs) && !a.kind.update && IdempotentParts(a) && k < |a.kind.attrs|
    requires Clean(a, Some(DictV(fields))).Ok?
    ensures Idempotent(a.kind.attrs[k], Some(v))
  {
    var f := Field(a.kind.attrs[k].name, v);
    FindSelf(a.kind.attrs, k);
    if Clean(a.kind.attrs[k], Some(v)).Ok? {
      Altered(a, fields, k, [f]);
      var fields' := [f] + DropKey(fields, f.key);
      assert Idempotent(a, Some(DictV(fields')));
      FixedFields(a, fields');
      assert fields'[0] == f;
    }
  }

  lemma {:induction false} DefaultNecessary(a: Attr, fields: seq<Field>, k: nat)
    requires a.kind.DictK? && DistinctNames(a.kind.attrs) && !a.kind.update && IdempotentParts(a) && k < |a.kind.attrs|
    requires Clean(a, Some(DictV(fields))).Ok?
    ensures NullDefaultOk(a.kind.attrs[k])
  {
    var part := a.kind.attrs[k];
    if part.hasDefault && part.default == Null && !part.nullable && !NullBarred(part.kind) {
      NullHandedOut(part);
      var fields' := [] + DropKey(fields, part.name);
      Altered(a, fields, k, []);
      assert Idempotent(a, Some(DictV(fields')));
      DropKeyFacts(fields, part.name);
      assert fields' == DropKey(fields, part.name);
      FixedDefault(a, fields', k);
    }
  }

  // A null default that is neither allowed nor barred is handed out, and then not accepted.
  lemma {:induction false} NullHandedOut(a: Attr)
    requires a.hasDefault && a.default == Null && !a.nullable && !NullBarred(a.kind)
    ensures Clean(a, None) == Ok(Null) && Clean(a, Some(Null)).Err?
  {
  }

  lemma {:induction false} FixedDefault(a: Attr, fields: seq<Field>, k: nat)
    requires a.kind.DictK? && DistinctNames(a.kind.attrs) && !a.kind.update && k < |a.kind.attrs|
    requires Clean(a, Some(DictV(fields))).Ok? && Idempotent(a, Some(DictV(fields))) && Missing(a.kind.attrs[k], fields)
    ensures Clean(a.kind.attrs[k], None).Ok? && Idempotent(a.kind.attrs[k], None)
  {
    var attrs := a.kind.attrs;
    FixedFields(a, fields);
    var r := Clean(a, Some(DictV(fields))).value.fields;
    var i :| 0 <= i < |r| && Added(attrs[k], r[i]);
    FindSelf(attrs, k);
    assert CleanField(attrs, a.kind.additional, r[i]) == Ok(r[i]);
  }

  /** The condition is exact, for schemas however nested. */
  lemma {:induction false} IdempotentExactly(a: Attr)
    requires Shaped(a) && Inhabited(a)
    ensures IdempotentGiven(a) <==> SteadyGiven(a)
    ensures IdempotentAlways(a) <==> Steady(a)
    decreases a
  {
    ShapedNamed(a);
    if IdempotentGiven(a) {
      Necessary(a);
    }
    if SteadyGiven(a) {
      SteadyIsIdempotent(a);
    }
    if IdempotentGiven(a) {
      MissingValue(a);
      assert IdempotentAlways(a) <==> Idempotent(a, None) by {
        forall input | Idempotent(a, None) ensures Idempotent(a, input) {
          if input.Some? {
            assert Idempotent(a, Some(input.value));
          }
        }
      }
    } else {
      var v :| !Idempotent(a, Some(v));
    }
  }

  lemma {:induction false} PartsNecessary(a: Attr)
    requires Shaped(a) && Inhabited(a) && IdempotentParts(a)
    ensures SteadyParts(a)
    decreases a, 0
  {
    match a.kind
    case ListK(choices, items) =>
      if items != [] && choices.None? {
        ConversionsNecessary(a);
        NullNecessary(a);
        if !Leaf(Last(items)) && !AnyBefore(items) {
          LastNecessary(a);
          PartsNecessary(Last(items));
        }
      } else if items != [] {
        forall v | Among(v, choices.value) && FirstThatFits(items, v).Ok?
          ensures Among(FirstThatFits(items, v).value, choices.value) && Settles(a, FirstThatFits(items, v).value)
        {
          ItemSettles(a, v);
        }
      }
    case DictK(attrs, _, update) =>
      forall k | 0 <= k < |attrs| ensures SteadyGiven(attrs[k]) && (!update ==> NullDefaultOk(attrs[k])) {
        if update {
          forall v ensures Idempotent(attrs[k], Some(v)) {
            UpdateNecessary(a, k, v);
          }
        } else {
          var fields :| Clean(a, Some(DictV(fields))).Ok?;
          forall v ensures Idempotent(attrs[k], Some(v)) {
            GivenNecessary(a, fields, k, v);
          }
          DefaultNecessary(a, fields, k);
        }
        Necessary(attrs[k]);
      }
    case _ => LeafNecessary(a);
  }

  lemma {:induction false} Necessary(a: Attr)
    requires Shaped(a) && Inhabited(a) && IdempotentGiven(a)
    ensures SteadyGiven(a)
    decreases a, 1
  {
    PartsNecessary(a);
    if a.kind.ListK? && a.nullable && a.default != Null {
      assert Idempotent(a, Some(Null));
      FixedStable(a, a.default);
    }
  }

  // --- Where it fails ------------------------------------------------------------------------------------

  // A null default of an attribute that does not allow null.
  lemma {:induction false} NullDefaultBreaks()
    ensures var a := Simple("a", StrK(None)).(hasDefault := true);
            Clean(a, None) == Ok(Null) && Clean(a, Some(Null)).Err?
  {
  }

  // A choice that is converted away from the choices.
  lemma {:induction false} ConvertedChoiceBreaks()
    ensures var a := Simple("a", StrK(Some([IntV(1)])));
            Clean(a, Some(IntV(1))) == Ok(StrV(Decimal(1))) && Clean(a, Some(StrV(Decimal(1)))).Err?
  {
    assert Among(IntV(1), [IntV(1)]) by {
      assert PyEq(IntV(1), [IntV(1)][0]);
    }
  }

  // A dirty default that a list hands out in place of null.
  lemma {:induction false} DirtyListDefaultBreaks()
    ensures var a := Simple("a", ListK(None, [Simple("i", IntK(None))])).(nullable := true, hasDefault := true,
                                                                           default := ListV([StrV("5")]));
            Clean(a, Some(Null)) == Ok(ListV([StrV("5")])) && Clean(a, Some(ListV([StrV("5")]))) == Ok(ListV([IntV(5)]))
  {
    var item := Simple("i", IntK(None));
    Five();
    assert Clean(item, Some(StrV("5"))) == Ok(IntV(5));
    assert FirstThatFits([item], StrV("5")) == Ok(IntV(5));
    OneItem([item], StrV("5"));
  }

  // With two alternatives, what the second one makes of a value may suit the first.
  lemma {:induction false} AlternativesBreak()
    ensures var first := Simple("x", DictK([Simple("a", IntK(None)).(required := true)], false, false));
            var b := Simple("a", StrK(None)).(hasDefault := true, default := StrV("5"));
            var second := Simple("y", DictK([b], false, false));
            && FirstThatFits([first, second], DictV([])) == Ok(DictV([Field("a", StrV("5"))]))
            && FirstThatFits([first, second], DictV([Field("a", StrV("5"))])) == Ok(DictV([Field("a", IntV(5))]))
  {
    var a := Simple("a", IntK(None)).(required := true);
    var b := Simple("a", StrK(None)).(hasDefault := true, default := StrV("5"));
    var first, second := Simple("x", DictK([a], false, false)), Simple("y", DictK([b], false, false));
    assert !HasKey([], "a");
    assert AddDefaults([a], []) == Err([]);
    assert Clean(first, Some(DictV([]))) == Err(DictV([]));
    assert [b][1..] == [] && [] + [Field("a", StrV("5"))] == [Field("a", StrV("5"))];
    assert AddDefaults([b], []) == AddDefaults([], [Field("a", StrV("5"))]);
    assert Clean(second, Some(DictV([]))) == Ok(DictV([Field("a", StrV("5"))]));
    assert [first, second][1..] == [second];
    Five();
    OneField([a], false, "a", StrV("5"));
    assert [Field("a", IntV(5))][0].key == "a";
    NoDefaultsLeft([a], [Field("a", IntV(5))]);
  }

  // Alternatives that convert each other's results back, at every cleaning.
  lemma {:induction false} AlternativesFlip()
    ensures var items := [Simple("x", StrK(Some([IntV(5)]))), Simple("y", IntK(None))];
            FirstThatFits(items, StrV("5")) == Ok(IntV(5)) && FirstThatFits(items, IntV(5)) == Ok(StrV("5"))
  {
    var first, second := Simple("x", StrK(Some([IntV(5)]))), Simple("y", IntK(None));
    Five();
    OnlyFive();
    assert Clean(first, Some(StrV("5"))) == Err(StrV("5")) && Clean(first, Some(IntV(5))) == Ok(StrV("5"));
    FitsAt([first, second], StrV("5"), 1);
    FitsAt([first, second], IntV(5), 0);
  }

  lemma {:induction false} Five()
    ensures IsDigits("5") && Number("5") == 5 && Decimal(5) == "5"
  {
    assert "5"[..0] == "";
    assert Digits(5) == "5";
  }

  lemma {:induction false} OnlyFive()
    ensures Among(IntV(5), [IntV(5)]) && !Among(StrV("5"), [IntV(5)])
  {
    assert PyEq(IntV(5), [IntV(5)][0]);
  }

  /** A list of strings, booleans and dictionaries is cleaned for good, if the dictionaries are. */
  lemma {:induction false} MixedItemsSteady(dict: Attr, input: Option<Value>)
    requires dict.kind.DictK? && WellNamed(dict) && SteadyParts(dict)
    ensures Idempotent(Simple("data", ListK(None, [Simple("foo", StrK(None)), Simple("bool", BoolK), dict])), input)
  {
    var a := Simple("data", ListK(None, [Simple("foo", StrK(None)), Simple("bool", BoolK), dict]));
    StringsFirst(a);
    CleanIdempotent(a, input);
  }

  lemma {:induction false} StringsFirst(a: Attr)
    requires a.kind.ListK? && a.kind.items != [] && a.kind.items[0] == Simple("foo", StrK(None))
    ensures ConversionsSettle(a)
  {
    var items := a.kind.items;
    forall s ensures Settles(a, StrV(s)) {
      assert Stable(items[0], StrV(s)) && LeftAlone(items[..0], StrV(s));
    }
    forall s ensures FirstTaker(items, StrV(s)) == 0 {
      assert Clean(items[0], Some(StrV(s))).Ok?;
    }
  }
}
