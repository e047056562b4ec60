/**
 What cleaning makes of a value, as a relation between what is given and what is returned: types, choices
 and conversions, items and fields one by one, and the defaults that are filled in, in order. Cleaning
 accepts a value, and returns another one for it, exactly if the two are so related.
 */
module Semantics {
  import opened CleanedParts
  import opened Rejections
  import opened Schema
  import opened Stability
  import opened Wrappers

  // --- Numerals ----------------------------------------------------------------------------------------

  // Digits without needless zeros in front.
  predicate IsNumeral(s: string) {
    IsDigits(s) && (|s| > 1 ==> s[0] != '0')
  }

  // The decimal numeral of a number, with a sign if it is negative.
  predicate Denotes(s: string, i: int) {
    if i < 0 then |s| > 1 && s[0] == '-' && IsNumeral(s[1..]) && Number(s[1..]) == -i
    else IsNumeral(s) && Number(s) == i
  }

  lemma {:induction false} NumeralSize(s: string)
    requires IsNumeral(s)
    ensures |s| > 1 ==> Number(s) >= 10
  {
    var init := s[..|s| - 1];
    if |s| == 2 {
      assert init[..0] == "" && Number(init) == init[0] as int - '0' as int;
    } else if |s| > 2 {
      NumeralSize(init);
    }
  }

  lemma {:induction false} NumeralUnique(s: string, t: string)
    requires IsNumeral(s) && IsNumeral(t) && Number(s) == Number(t)
    ensures s == t
    decreases |s|
  {
    NumeralSize(s);
    NumeralSize(t);
    var s', t', c, d := s[..|s| - 1], t[..|t| - 1], s[|s| - 1], t[|t| - 1];
    assert s == s' + [c] && t == t' + [d];
    if |s| == 1 || |t| == 1 {
      assert Number("") == 0;
      assert |s| == 1 && |t| == 1 && s' == t' == "";
    } else {
      SameParts(Number(s'), c as int - '0' as int, Number(t'), d as int - '0' as int);
      NumeralUnique(s', t');
    }
  }

  lemma {:induction false} SameParts(m: nat, c: nat, n: nat, d: nat)
    requires c < 10 && d < 10 && 10 * m + c == 10 * n + d
    ensures m == n && c == d
  {
  }

  // One more digit.
  lemma {:induction false} NumeralMore(t: string, c: char)
    requires IsNumeral(t) && Number(t) > 0 && '0' <= c <= '9'
    ensures IsNumeral(t + [c]) && Number(t + [c]) == 10 * Number(t) + (c as int - '0' as int)
  {
    var s := t + [c];
    assert s[..|s| - 1] == t && s[0] == t[0];
    if |t| == 1 {
      assert t[..0] == "" && Number(t) == t[0] as int - '0' as int;
    }
  }

  lemma {:induction false} OneDigit(c: char)
    requires '0' <= c <= '9'
    ensures IsNumeral([c]) && Number([c]) == c as int - '0' as int
  {
    assert [c][..0] == "";
  }

  lemma {:induction false} DigitsNumeral(n: nat)
    ensures IsNumeral(Digits(n)) && Number(Digits(n)) == n
  {
    var c := ('0' as int + n % 10) as char;
    if n < 10 {
      OneDigit(c);
      assert Digits(n) == [c];
    } else {
      DigitsNumeral(n / 10);
      NumeralMore(Digits(n / 10), c);
      assert Digits(n) == Digits(n / 10) + [c];
    }
  }

  lemma {:induction false} NumeralIs(s: string, t: string, n: nat)
    requires IsNumeral(t) && Number(t) == n
    ensures IsNumeral(s) && Number(s) == n <==> s == t
  {
    if IsNumeral(s) && Number(s) == n {
      NumeralUnique(s, t);
    }
  }

  lemma {:induction false} SignedIs(s: string, t: string, n: nat)
    requires IsNumeral(t) && Number(t) == n && n > 0
    ensures Denotes(s, -(n as int)) <==> s == "-" + t
  {
    if s != "" {
      NumeralIs(s[1..], t, n);
      assert s == [s[0]] + s[1..];
    }
    assert ("-" + t)[1..] == t;
  }

  /** The conversion of numbers yields exactly their decimal numerals. */
  lemma {:induction false} DecimalExactly(s: string, i: int)
    ensures Denotes(s, i) <==> s == Decimal(i)
  {
    if i < 0 {
      NegativeExactly(s, -i);
      assert Decimal(i) == "-" + Digits(-i);
    } else {
      NaturalExactly(s, i);
      assert Decimal(i) == Digits(i);
    }
  }

  lemma {:induction false} NaturalExactly(s: string, n: nat)
    ensures Denotes(s, n) <==> s == Digits(n)
  {
    DigitsNumeral(n);
    NumeralIs(s, Digits(n), n);
  }

  lemma {:induction false} NegativeExactly(s: string, n: nat)
    requires n > 0
    ensures Denotes(s, -(n as int)) <==> s == "-" + Digits(n)
  {
    DigitsNumeral(n);
    SignedIs(s, Digits(n), n);
  }

  // --- The relation --------------------------------------------------------------------------------------

  predicate Permitted(choices: Option<seq<Value>>, v: Value) {
    choices.None? || exists k :: 0 <= k < |choices.value| && PyEq(v, choices.value[k])
  }

  /** The value `v` that was given is accepted and becomes `w`. */
  ghost predicate Becomes(a: Attr, v: Value, w: Value)
    decreases a, 1
  {
    match a.kind
    case AnyK => w == v && (v == Null ==> a.nullable)
    case StrK(choices) =>
      if v == Null then a.nullable && w == Null
      else
        && Permitted(choices, v) && w.StrV? && (w.s == "" ==> a.empty)
        && if v.IntV? then Denotes(w.s, v.i) else w == v
    case IntK(choices) =>
      if v == Null then a.nullable && w == Null
      else
        && Permitted(choices, v) && w.IntV?
        && if v.StrV? then IsDigits(v.s) && w.i == Number(v.s) else w == v
    case BoolK => w == v && if v == Null then a.nullable else v.BoolV?
    case ListK(choices, items) =>
      if v == Null then a.nullable && w == a.default
      else
        && v.ListV? && w.ListV? && |w.items| == |v.items| && (v.items == [] ==> a.empty)
        && (forall i :: 0 <= i < |v.items| ==> Permitted(choices, v.items[i]))
        && (forall i :: 0 <= i < |v.items| ==>
              if items == [] then w.items[i] == v.items[i] else ItemBecomes(a, v.items[i], w.items[i]))
    case DictK(attrs, additional, update) =>
      if v == Null then a.nullable && w == Null
      else
        && v.DictV? && w.DictV? && |v.fields| <= |w.fields|
        && (forall i :: 0 <= i < |v.fields| ==> FieldBecomes(a, v.fields[i], w.fields[i]))
        && Completed(a, v.fields, w.fields[|v.fields|..])
  }

  // The first kind of item that accepts the value says what it becomes.
  ghost predicate ItemBecomes(a: Attr, v: Value, w: Value)
    requires a.kind.ListK?
    decreases a, 0
  {
    exists k :: && 0 <= k < |a.kind.items| && Becomes(a.kind.items[k], v, w)
                && forall j, u :: 0 <= j < k ==> !Becomes(a.kind.items[j], v, u)
  }

  // The attribute of that name says what a field becomes; others stay if they are allowed.
  ghost predicate FieldBecomes(a: Attr, f: Field, g: Field)
    requires a.kind.DictK?
    decreases a, 0
  {
    && g.key == f.key
    && var k := Find(a.kind.attrs, f.key);
       if k == |a.kind.attrs| then a.kind.additional && g.val == f.val else Becomes(a.kind.attrs[k], f.val, g.val)
  }

  // Positions of the attributes that are required or have a default, and are not given.
  function MissingAt(attrs: seq<Attr>, fields: seq<Field>, from: nat): (ks: seq<nat>)
    requires from <= |attrs|
    ensures forall i :: 0 <= i < |ks| ==> from <= ks[i] < |attrs|
    decreases |attrs| - from
  {
    if from == |attrs| then []
    else
      var a := attrs[from];
      (if (a.required || a.hasDefault) && !HasKey(fields, a.name) then [from] else [])
      + MissingAt(attrs, fields, from + 1)
  }

  // Unless this is an update, the missing attributes are appended in order, each with its default.
  ghost predicate Completed(a: Attr, fields: seq<Field>, added: seq<Field>)
    requires a.kind.DictK?
    decreases a, 0
  {
    if a.kind.update then added == []
    else
      var ks := MissingAt(a.kind.attrs, fields, 0);
      && |added| == |ks|
      && forall i :: 0 <= i < |ks| ==>
           added[i].key == a.kind.attrs[ks[i]].name && DefaultBecomes(a.kind.attrs[ks[i]], added[i].val)
  }

  /** The value of an attribute that is not given: there is a default, and it is treated like a value that
      is given, but that a null default need not be allowed. */
  ghost predicate DefaultBecomes(a: Attr, w: Value)
    decreases a, 2
  {
    && a.hasDefault
    && if a.default == Null && !a.nullable then w == Null && !NullBarred(a.kind) else Becomes(a, a.default, w)
  }

  // --- Cleaning is the relation --------------------------------------------------------------------------

  ghost predicate Agrees(a: Attr) {
    forall v, w :: Clean(a, Some(v)) == Ok(w) <==> Becomes(a, v, w)
  }

  lemma {:induction false} LeafAgrees(a: Attr, v: Value, w: Value)
    requires Leaf(a)
    ensures Clean(a, Some(v)) == Ok(w) <==> Becomes(a, v, w)
  {
    match a.kind
    case AnyK =>
    case StrK(_) => StrAgrees(a, v, w);
    case IntK(_) => IntAgrees(a, v, w);
    case BoolK =>
  }

  lemma {:induction false} StrAgrees(a: Attr, v: Value, w: Value)
    requires a.kind.StrK?
    ensures Clean(a, Some(v)) == Ok(w) <==> Becomes(a, v, w)
  {
    if v.IntV? {
      NumberAgrees(a, v.i, w);
    }
  }

  lemma {:induction false} NumberAgrees(a: Attr, i: int, w: Value)
    requires a.kind.StrK?
    ensures Clean(a, Some(IntV(i))) == Ok(w) <==> Becomes(a, IntV(i), w)
  {
    assert Chosen(a, a.kind.choices, IntV(i)) <==> Permitted(a.kind.choices, IntV(i));
    assert Clean(a, Some(IntV(i))) == Ok(w) <==> Chosen(a, a.kind.choices, IntV(i)) && w == StrV(Decimal(i));
    if w.StrV? {
      DecimalExactly(w.s, i);
    }
  }

  lemma {:induction false} IntAgrees(a: Attr, v: Value, w: Value)
    requires a.kind.IntK?
    ensures Clean(a, Some(v)) == Ok(w) <==> Becomes(a, v, w)
  {
  }

  lemma {:induction false} MissingAgrees(a: Attr, w: Value)
    requires Agrees(a)
    ensures Clean(a, None) == Ok(w) <==> DefaultBecomes(a, w)
  {
    if a.hasDefault && (a.default != Null || a.nullable) {
      assert Clean(a, None) == Clean(a, Some(a.default));
      assert Clean(a, Some(a.default)) == Ok(w) <==> Becomes(a, a.default, w);
    }
  }

  // Whether an alternative accepts the value.
  lemma {:induction false} AcceptAgrees(a: Attr, v: Value)
    requires Agrees(a)
    ensures Clean(a, Some(v)).Ok? ==> Becomes(a, v, Clean(a, Some(v)).value)
    ensures Clean(a, Some(v)).Err? ==> forall u :: !Becomes(a, v, u)
  {
    if Clean(a, Some(v)).Ok? {
      assert Clean(a, Some(v)) == Ok(Clean(a, Some(v)).value);
    }
  }

  lemma {:induction false} TakerAgrees(items: seq<Attr>, v: Value, w: Value, k: nat)
    requires k < |items| && (forall j :: 0 <= j < |items| ==> Agrees(items[j])) && Becomes(items[k], v, w)
    requires forall j, u :: 0 <= j < k ==> !Becomes(items[j], v, u)
    ensures FirstTaker(items, v) == k && Clean(items[k], Some(v)) == Ok(w)
  {
    assert Agrees(items[k]) && Clean(items[k], Some(v)) == Ok(w);
    var n := FirstTaker(items, v);
    if n < |items| {
      AcceptAgrees(items[n], v);
    }
  }

  lemma {:induction false} ItemAgrees(a: Attr, v: Value, w: Value)
    requires a.kind.ListK? && a.kind.items != [] && LeavesFirst(a.kind.items)
    requires forall k :: 0 <= k < |a.kind.items| ==> Agrees(a.kind.items[k])
    ensures FirstThatFits(a.kind.items, v) == Ok(w) <==> ItemBecomes(a, v, w)
  {
    var items, n := a.kind.items, FirstTaker(a.kind.items, v);
    LeavesFit(items, v);
    if FirstThatFits(items, v) == Ok(w) {
      forall j | 0 <= j < n ensures forall u :: !Becomes(items[j], v, u) {
        AcceptAgrees(items[j], v);
      }
      AcceptAgrees(items[n], v);
    }
    if k :| && 0 <= k < |items| && Becomes(items[k], v, w)
            && forall j, u :: 0 <= j < k ==> !Becomes(items[j], v, u)
    {
      TakerAgrees(items, v, w, k);
    }
  }

  lemma {:induction false} ListAgrees(a: Attr, v: Value, w: Value)
    requires a.kind.ListK? && LeavesFirst(a.kind.items)
    requires forall k :: 0 <= k < |a.kind.items| ==> Agrees(a.kind.items[k])
    ensures Clean(a, Some(v)) == Ok(w) <==> Becomes(a, v, w)
  {
    if v.ListV? && w.ListV? {
      if a.kind.items != [] {
        ItemsAgree(a, v.items, w.items);
      } else if |w.items| == |v.items| && forall i :: 0 <= i < |v.items| ==> w.items[i] == v.items[i] {
        assert w.items == v.items;
      }
      assert Chosen(a, a.kind.choices, v) <==> forall i :: 0 <= i < |v.items| ==> Permitted(a.kind.choices, v.items[i]);
    }
  }

  lemma {:induction false} ItemsAgree(a: Attr, vs: seq<Value>, ws: seq<Value>)
    requires a.kind.ListK? && a.kind.items != [] && LeavesFirst(a.kind.items)
    requires forall k :: 0 <= k < |a.kind.items| ==> Agrees(a.kind.items[k])
    ensures CleanItems(a.kind.items, vs) == Ok(ws) <==>
            |ws| == |vs| && forall i :: 0 <= i < |vs| ==> ItemBecomes(a, vs[i], ws[i])
  {
    var items := a.kind.items;
    ItemsAt(items, vs);
    if |ws| == |vs| {
      forall i | 0 <= i < |vs| ensures FirstThatFits(items, vs[i]) == Ok(ws[i]) <==> ItemBecomes(a, vs[i], ws[i]) {
        ItemAgrees(a, vs[i], ws[i]);
      }
      if forall i :: 0 <= i < |vs| ==> FirstThatFits(items, vs[i]) == Ok(ws[i]) {
        assert CleanItems(items, vs).value == ws;
      }
    }
  }

  // --- Dictionaries -----------------------------------------------------------------------------------------

  lemma {:induction false} FieldAgrees(a: Attr, f: Field, g: Field)
    requires a.kind.DictK? && forall k :: 0 <= k < |a.kind.attrs| ==> Agrees(a.kind.attrs[k])
    ensures CleanField(a.kind.attrs, a.kind.additional, f) == Ok(g) <==> FieldBecomes(a, f, g)
  {
    var k := Find(a.kind.attrs, f.key);
    if k < |a.kind.attrs| {
      assert Agrees(a.kind.attrs[k]);
      assert Clean(a.kind.attrs[k], Some(f.val)) == Ok(g.val) <==> Becomes(a.kind.attrs[k], f.val, g.val);
    }
  }

  lemma {:induction false} FieldsAgree(a: Attr, fields: seq<Field>, r: seq<Field>)
    requires a.kind.DictK? && forall k :: 0 <= k < |a.kind.attrs| ==> Agrees(a.kind.attrs[k])
    ensures CleanFields(a.kind.attrs, a.kind.additional, fields) == Ok(r) <==>
            |r| == |fields| && forall i :: 0 <= i < |fields| ==> FieldBecomes(a, fields[i], r[i])
  {
    var attrs, additional := a.kind.attrs, a.kind.additional;
    FieldsAt(attrs, additional, fields);
    if |r| == |fields| {
      forall i | 0 <= i < |fields|
        ensures CleanField(attrs, additional, fields[i]) == Ok(r[i]) <==> FieldBecomes(a, fields[i], r[i])
      {
        FieldAgrees(a, fields[i], r[i]);
      }
      if forall i :: 0 <= i < |fields| ==> CleanField(attrs, additional, fields[i]) == Ok(r[i]) {
        assert CleanFields(attrs, additional, fields).value == r;
      }
    }
  }

  // The fields that are appended for the missing attributes.
  ghost predicate Appends(attrs: seq<Attr>, ks: seq<nat>, added: seq<Field>)
    requires forall i :: 0 <= i < |ks| ==> ks[i] < |attrs|
  {
    |added| == |ks| && forall i :: 0 <= i < |ks| ==> Added(attrs[ks[i]], added[i])
  }

  // The attributes behind one that was just added are missing as before.
  lemma {:induction false} MissingBehind(attrs: seq<Attr>, fields: seq<Field>, f: Field, from: nat)
    requires from <= |attrs| && forall k :: from <= k < |attrs| ==> attrs[k].name != f.key
    ensures MissingAt(attrs, fields + [f], from) == MissingAt(attrs, fields, from)
    decreases |attrs| - from
  {
    if from < |attrs| {
      OneMoreKey(fields, fields + [f], f.key, attrs[from].name);
      MissingBehind(attrs, fields, f, from + 1);
    }
  }

  lemma {:induction false} DefaultsExactly(attrs: seq<Attr>, fields: seq<Field>, from: nat, r: seq<Field>)
    requires DistinctNames(attrs) && from <= |attrs|
    ensures AddDefaults(attrs[from..], fields) == Ok(r) <==>
            |fields| <= |r| && r[..|fields|] == fields && Appends(attrs, MissingAt(attrs, fields, from), r[|fields|..])
    decreases |attrs| - from
  {
    if from == |attrs| {
      assert AddDefaults(attrs[from..], fields) == Ok(fields);
      assert r[..|r|] == r;
    } else {
      var a := attrs[from];
      assert attrs[from..][0] == a && attrs[from..][1..] == attrs[from + 1..];
      if (a.required || a.hasDefault) && !HasKey(fields, a.name) {
        OneDefault(attrs, fields, from, r);
      } else {
        DefaultsExactly(attrs, fields, from + 1, r);
      }
    }
  }

  lemma {:induction false} OneDefault(attrs: seq<Attr>, fields: seq<Field>, from: nat, r: seq<Field>)
    requires DistinctNames(attrs) && from < |attrs| && Missing(attrs[from], fields)
    ensures AddDefaults(attrs[from..], fields) == Ok(r) <==>
            |fields| <= |r| && r[..|fields|] == fields && Appends(attrs, MissingAt(attrs, fields, from), r[|fields|..])
    decreases |attrs| - from, 0
  {
    var a, ks := attrs[from], MissingAt(attrs, fields, from + 1);
    assert attrs[from..][0] == a && attrs[from..][1..] == attrs[from + 1..];
    if Clean(a, None).Ok? {
      var f := Field(a.name, Clean(a, None).value);
      DefaultsExactly(attrs, fields + [f], from + 1, r);
      MissingBehind(attrs, fields, f, from + 1);
      AppendsMore(attrs, fields, f, from, ks, r);
    } else {
      NeverAppends(attrs, from, ks, if |fields| <= |r| then r[|fields|..] else []);
    }
  }

  lemma {:induction false} NeverAppends(attrs: seq<Attr>, from: nat, ks: seq<nat>, added: seq<Field>)
    requires from < |attrs| && (forall i :: 0 <= i < |ks| ==> ks[i] < |attrs|) && Clean(attrs[from], None).Err?
    ensures !Appends(attrs, [from] + ks, added)
  {
    assert ([from] + ks)[0] == from;
  }

  lemma {:induction false} AppendsCons(attrs: seq<Attr>, from: nat, ks: seq<nat>, g: Field, rest: seq<Field>)
    requires from < |attrs| && forall i :: 0 <= i < |ks| ==> ks[i] < |attrs|
    ensures Appends(attrs, [from] + ks, [g] + rest) <==> Added(attrs[from], g) && Appends(attrs, ks, rest)
  {
    var ks', added := [from] + ks, [g] + rest;
    if Appends(attrs, ks', added) {
      assert ks'[0] == from && added[0] == g;
      forall i | 0 <= i < |ks| ensures Added(attrs[ks[i]], rest[i]) {
        assert ks'[i + 1] == ks[i] && added[i + 1] == rest[i];
      }
    }
  }

  lemma {:induction false} AppendsMore(attrs: seq<Attr>, fields: seq<Field>, f: Field, from: nat, ks: seq<nat>,
                                       r: seq<Field>)
    requires from < |attrs| && (forall i :: 0 <= i < |ks| ==> ks[i] < |attrs|) && Added(attrs[from], f)
    ensures (&& |fields + [f]| <= |r| && r[..|fields + [f]|] == fields + [f]
             && Appends(attrs, ks, r[|fields + [f]|..])) <==>
            |fields| <= |r| && r[..|fields|] == fields && Appends(attrs, [from] + ks, r[|fields|..])
  {
    var n := |fields|;
    if |r| > n {
      assert r[n..] == [r[n]] + r[n + 1..];
      AppendsCons(attrs, from, ks, r[n], r[n + 1..]);
      SplitPrefix(r, fields, f);
    }
  }

  lemma {:induction false} SplitPrefix(r: seq<Field>, fields: seq<Field>, f: Field)
    requires |r| > |fields|
    ensures r[..|fields| + 1] == fields + [f] <==> r[..|fields|] == fields && r[|fields|] == f
  {
    var n := |fields|;
    assert r[..n + 1] == r[..n] + [r[n]];
  }

  lemma {:induction false} CompletedAgrees(a: Attr, fields: seq<Field>, cleaned: seq<Field>, r: seq<Field>)
    requires a.kind.DictK? && DistinctNames(a.kind.attrs) && |cleaned| == |fields|
    requires forall k :: 0 <= k < |a.kind.attrs| ==> Agrees(a.kind.attrs[k])
    requires forall i :: 0 <= i < |fields| ==> cleaned[i].key == fields[i].key
    ensures (if a.kind.update then r == cleaned else AddDefaults(a.kind.attrs, cleaned) == Ok(r)) <==>
            |fields| <= |r| && r[..|fields|] == cleaned && Completed(a, fields, r[|fields|..])
  {
    var attrs := a.kind.attrs;
    if a.kind.update {
      assert |fields| <= |r| && r[|fields|..] == [] ==> r[..|fields|] == r;
    } else {
      DefaultsExactly(attrs, cleaned, 0, r);
      assert attrs[0..] == attrs;
      MissingAtSame(attrs, fields, cleaned, 0);
      if |fields| <= |r| {
        AppendsCompletes(a, fields, r[|fields|..]);
      }
    }
  }

  lemma {:induction false} MissingAtSame(attrs: seq<Attr>, fields: seq<Field>, cleaned: seq<Field>, from: nat)
    requires from <= |attrs| && |cleaned| == |fields|
    requires forall i :: 0 <= i < |fields| ==> cleaned[i].key == fields[i].key
    ensures MissingAt(attrs, cleaned, from) == MissingAt(attrs, fields, from)
    decreases |attrs| - from
  {
    if from < |attrs| {
      SameKeys(fields, cleaned);
      SameKeys(cleaned, fields);
      MissingAtSame(attrs, fields, cleaned, from + 1);
    }
  }

  lemma {:induction false} AppendsCompletes(a: Attr, fields: seq<Field>, added: seq<Field>)
    requires a.kind.DictK? && !a.kind.update && forall k :: 0 <= k < |a.kind.attrs| ==> Agrees(a.kind.attrs[k])
    ensures Appends(a.kind.attrs, MissingAt(a.kind.attrs, fields, 0), added) <==> Completed(a, fields, added)
  {
    var attrs, ks := a.kind.attrs, MissingAt(a.kind.attrs, fields, 0);
    if |added| == |ks| {
      forall i | 0 <= i < |ks|
        ensures Added(attrs[ks[i]], added[i]) <==>
                added[i].key == attrs[ks[i]].name && DefaultBecomes(attrs[ks[i]], added[i].val)
      {
        MissingAgrees(attrs[ks[i]], added[i].val);
      }
    }
  }

  lemma {:induction false} DictAgrees(a: Attr, v: Value, w: Value)
    requires a.kind.DictK? && DistinctNames(a.kind.attrs)
    requires forall k :: 0 <= k < |a.kind.attrs| ==> Agrees(a.kind.attrs[k])
    ensures Clean(a, Some(v)) == Ok(w) <==> Becomes(a, v, w)
  {
    if v.DictV? && w.DictV? {
      DictFieldsAgree(a, v.fields, w.fields);
    }
  }

  lemma {:induction false} DictFieldsAgree(a: Attr, fields: seq<Field>, r: seq<Field>)
    requires a.kind.DictK? && DistinctNames(a.kind.attrs)
    requires forall k :: 0 <= k < |a.kind.attrs| ==> Agrees(a.kind.attrs[k])
    ensures Clean(a, Some(DictV(fields))) == Ok(DictV(r)) <==> Becomes(a, DictV(fields), DictV(r))
  {
    var attrs, additional := a.kind.attrs, a.kind.additional;
    var cleaned := CleanFields(attrs, additional, fields);
    DictUnfolds(a, fields, r);
    if cleaned.Ok? {
      CleanFieldsKeys(attrs, additional, fields);
      CompletedAgrees(a, fields, cleaned.value, r);
    }
    if |fields| <= |r| {
      FrontAgrees(a, fields, r);
    }
  }

  lemma {:induction false} DictUnfolds(a: Attr, fields: seq<Field>, r: seq<Field>)
    requires a.kind.DictK?
    ensures Clean(a, Some(DictV(fields))) == Ok(DictV(r)) <==>
            && CleanFields(a.kind.attrs, a.kind.additional, fields).Ok?
            && var cleaned := CleanFields(a.kind.attrs, a.kind.additional, fields).value;
               if a.kind.update then r == cleaned else AddDefaults(a.kind.attrs, cleaned) == Ok(r)
  {
  }

  lemma {:induction false} FrontAgrees(a: Attr, fields: seq<Field>, r: seq<Field>)
    requires a.kind.DictK? && |fields| <= |r| && forall k :: 0 <= k < |a.kind.attrs| ==> Agrees(a.kind.attrs[k])
    ensures CleanFields(a.kind.attrs, a.kind.additional, fields) == Ok(r[..|fields|]) <==>
            forall i :: 0 <= i < |fields| ==> FieldBecomes(a, fields[i], r[i])
  {
    FieldsAgree(a, fields, r[..|fields|]);
    assert forall i :: 0 <= i < |fields| ==> r[..|fields|][i] == r[i];
  }

  /** Cleaning accepts a value and returns another one for it exactly if the two are related as above, for
      schemas however nested; likewise for a value that is not given. */
  lemma {:induction false} CleanExactly(a: Attr, v: Value, w: Value)
    requires Shaped(a)
    ensures Clean(a, Some(v)) == Ok(w) <==> Becomes(a, v, w)
    decreases a, 0
  {
    match a.kind
    case ListK(_, items) =>
      forall k | 0 <= k < |items| ensures Agrees(items[k]) {
        AllAgree(items[k]);
      }
      ListAgrees(a, v, w);
    case DictK(attrs, _, _) =>
      forall k | 0 <= k < |attrs| ensures Agrees(attrs[k]) {
        AllAgree(attrs[k]);
      }
      DictAgrees(a, v, w);
    case _ => LeafAgrees(a, v, w);
  }

  lemma {:induction false} AllAgree(a: Attr)
    requires Shaped(a)
    ensures Agrees(a)
    decreases a, 1
  {
    forall v, w ensures Clean(a, Some(v)) == Ok(w) <==> Becomes(a, v, w) {
      CleanExactly(a, v, w);
    }
  }

  lemma {:induction false} MissingExactly(a: Attr, w: Value)
    requires Shaped(a)
    ensures Clean(a, None) == Ok(w) <==> DefaultBecomes(a, w)
  {
    AllAgree(a);
    MissingAgrees(a, w);
  }

  // --- Defaults ----------------------------------------------------------------------------------------------

  /** A default that is clean is what a missing value becomes. */
  lemma {:induction false} DefaultHandedOut(a: Attr)
    requires WellNamed(a) && a.hasDefault && Stable(a, a.default)
    ensures Clean(a, None) == Ok(a.default)
  {
    StableFixed(a, a.default);
    assert Clean(a, None) == Clean(a, Some(a.default));
  }

  /** Any default is treated like a value that is given, if it is not null or null is allowed. */
  lemma {:induction false} DefaultLikeGiven(a: Attr)
    requires a.hasDefault && (a.default != Null || a.nullable)
    ensures Clean(a, None) == Clean(a, Some(a.default))
  {
  }

  /** A dictionary is completed with the clean defaults of the attributes that are missing. */
  lemma {:induction false} DefaultFilledIn(a: Attr, fields: seq<Field>, k: nat)
    requires WellNamed(a) && a.kind.DictK? && !a.kind.update && Clean(a, Some(DictV(fields))).Ok?
    requires k < |a.kind.attrs| && a.kind.attrs[k].hasDefault && Stable(a.kind.attrs[k], a.kind.attrs[k].default)
    requires !HasKey(fields, a.kind.attrs[k].name)
    ensures var r, part := Clean(a, Some(DictV(fields))).value, a.kind.attrs[k];
            r.DictV? && |fields| <= |r.fields| && Field(part.name, part.default) in r.fields[|fields|..]
  {
    var attrs, additional := a.kind.attrs, a.kind.additional;
    var cleaned := CleanFields(attrs, additional, fields).value;
    CleanFieldsKeys(attrs, additional, fields);
    SameKeys(cleaned, fields);
    DefaultsAt(attrs, cleaned);
    var r := AddDefaults(attrs, cleaned).value;
    DefaultHandedOut(attrs[k]);
    assert Missing(attrs[k], cleaned) && IsAdded(attrs[k], r);
    var i :| 0 <= i < |r| && Added(attrs[k], r[i]);
    AddedBehind(fields, cleaned, r, i);
    assert r[|fields|..][i - |fields|] == r[i];
  }

  lemma {:induction false} AddedBehind(fields: seq<Field>, cleaned: seq<Field>, r: seq<Field>, i: nat)
    requires |cleaned| == |fields| && forall m :: 0 <= m < |fields| ==> cleaned[m].key == fields[m].key
    requires |cleaned| <= |r| && r[..|cleaned|] == cleaned && i < |r| && !HasKey(fields, r[i].key)
    ensures i >= |fields|
  {
    forall m | 0 <= m < |fields| ensures r[m].key == fields[m].key {
      assert r[m] == r[..|cleaned|][m];
    }
  }

  // --- Equality ----------------------------------------------------------------------------------------------

  // No dictionary anywhere in the value.
  predicate Flat(v: Value) {
    match v case ListV(items) => forall k :: 0 <= k < |items| ==> Flat(items[k]) case DictV(_) => false case _ => true
  }

  // Booleans as the integers that they are.
  function AsIntegers(v: Value): Value {
    match v
    case BoolV(b) => IntV(if b then 1 else 0)
    case ListV(items) => ListV(seq(|items|, k requires 0 <= k < |items| => AsIntegers(items[k])))
    case _ => v
  }

  /** A value without dictionaries equals another one exactly if they are the same once booleans are read as
      integers. */
  lemma {:induction false} EqualExactly(x: Value, y: Value)
    requires Flat(x)
    ensures PyEq(x, y) <==> AsIntegers(x) == AsIntegers(y)
    decreases x
  {
    if x.ListV? && y.ListV? {
      ListAsIntegers(x.items);
      ListAsIntegers(y.items);
      if |x.items| == |y.items| {
        var xs, ys := AsIntegers(x).items, AsIntegers(y).items;
        forall k | 0 <= k < |xs| ensures PyEq(x.items[k], y.items[k]) <==> xs[k] == ys[k] {
          EqualExactly(x.items[k], y.items[k]);
        }
        assert xs == ys <==> forall k :: 0 <= k < |xs| ==> xs[k] == ys[k];
      }
    }
  }

  lemma {:induction false} ListAsIntegers(vs: seq<Value>)
    ensures var r := AsIntegers(ListV(vs));
            r.ListV? && |r.items| == |vs| && forall k :: 0 <= k < |vs| ==> r.items[k] == AsIntegers(vs[k])
  {
  }

  ghost predicate DistinctKeys(fields: seq<Field>) {
    forall i, j :: 0 <= i < j < |fields| ==> fields[i].key != fields[j].key
  }

  ghost function KeySet(fields: seq<Field>): set<string> {
    set i | 0 <= i < |fields| :: fields[i].key
  }

  lemma {:induction false} KeySetSize(fields: seq<Field>)
    requires DistinctKeys(fields)
    ensures |KeySet(fields)| == |fields| && forall key :: key in KeySet(fields) <==> HasKey(fields, key)
  {
    if fields == [] {
      assert KeySet(fields) == {};
    } else {
      var init, last := fields[..|fields| - 1], fields[|fields| - 1];
      KeySetSize(init);
      assert KeySet(fields) == KeySet(init) + {last.key} by {
        forall i | 0 <= i < |fields| ensures fields[i].key in KeySet(init) + {last.key} {
          assert i < |init| ==> init[i].key == fields[i].key;
        }
        forall i | 0 <= i < |init| ensures init[i].key in KeySet(fields) {
          assert fields[i].key == init[i].key;
        }
      }
      assert last.key !in KeySet(init);
    }
  }

  lemma {:induction false} ValueAtIs(fields: seq<Field>, k: nat)
    requires DistinctKeys(fields) && k < |fields|
    ensures HasKey(fields, fields[k].key) && ValueAt(fields, fields[k].key) == fields[k].val
  {
    if k > 0 {
      ValueAtIs(fields[1..], k - 1);
    }
  }

  lemma {:induction false} SameSize<T>(s: set<T>, t: set<T>)
    requires s <= t && |s| == |t|
    ensures s == t
  {
    assert |t - s| == |t| - |s|;
  }

  /** Dictionaries are equal exactly if they have the same keys and under each of them equal values, in
      whatever order. */
  lemma {:induction false} DictEqualExactly(fs: seq<Field>, gs: seq<Field>)
    requires DistinctKeys(fs) && DistinctKeys(gs)
    ensures PyEq(DictV(fs), DictV(gs)) <==>
            && (forall key :: HasKey(fs, key) <==> HasKey(gs, key))
            && (forall key :: HasKey(fs, key) && HasKey(gs, key) ==> PyEq(ValueAt(fs, key), ValueAt(gs, key)))
  {
    KeySetSize(fs);
    KeySetSize(gs);
    if PyEq(DictV(fs), DictV(gs)) {
      SameSize(KeySet(fs), KeySet(gs));
      forall key | HasKey(fs, key) && HasKey(gs, key) ensures PyEq(ValueAt(fs, key), ValueAt(gs, key)) {
        var k :| 0 <= k < |fs| && fs[k].key == key;
        ValueAtIs(fs, k);
      }
    }
    if && (forall key :: HasKey(fs, key) <==> HasKey(gs, key))
       && (forall key :: HasKey(fs, key) && HasKey(gs, key) ==> PyEq(ValueAt(fs, key), ValueAt(gs, key)))
    {
      assert KeySet(fs) == KeySet(gs);
      forall k | 0 <= k < |fs| ensures HasKey(gs, fs[k].key) && PyEq(fs[k].val, ValueAt(gs, fs[k].key)) {
        ValueAtIs(fs, k);
      }
    }
  }
}
