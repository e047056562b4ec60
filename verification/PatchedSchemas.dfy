/**
 Resolved parameters read as schemas: resolving the patch that sets `update` gives the update variant
 of a schema and leaves the schema itself as it was.
 */
module PatchedSchemas {
  import opened Registration
  import opened Resolver
  import opened Wrappers
  import S = Schema

  ghost function KindOf(shape: Shape, parts: seq<S.Attr>): S.Kind {
    match shape
    case AnyS => S.AnyK
    case StrS(choices) => S.StrK(choices)
    case IntS(choices) => S.IntK(choices)
    case BoolS => S.BoolK
    case ListS(choices) => S.ListK(choices, parts)
    case DictS(additional, update) => S.DictK(parts, additional, update)
  }

  // The schema that a resolved parameter is.
  ghost function Meaning(p: Param): S.Attr
    requires Solid(p)
    decreases p, 1
  {
    var o := p.options;
    S.Attr(p.name, o.required, o.nullable, o.hasDefault, o.default, o.empty, o.isPrivate,
           KindOf(o.shape, MeaningAll(p.parts)))
  }

  ghost function MeaningAll(ps: seq<Param>): seq<S.Attr>
    requires SolidAll(ps)
    decreases ps, 0
  {
    if ps == [] then [] else [Meaning(ps[0])] + MeaningAll(ps[1..])
  }

  lemma {:induction false} CopyMeaning(p: Param)
    requires Solid(p)
    ensures Solid(Copy(p)) && Meaning(Copy(p)) == Meaning(p)
    decreases p, 1
  {
    CopyAllMeaning(p.parts);
  }

  lemma {:induction false} CopyAllMeaning(ps: seq<Param>)
    requires SolidAll(ps)
    ensures SolidAll(CopyAll(ps)) && MeaningAll(CopyAll(ps)) == MeaningAll(ps)
    decreases ps, 0
  {
    if ps != [] {
      CopyMeaning(ps[0]);
      CopyAllMeaning(ps[1..]);
    }
  }

  function UpdatePatch(t: string, newName: string, register: bool): Param {
    Patch(t, newName, register, [SetAttrs([Update(true)])])
  }

  /** Resolving `('attr', {'update': True})` yields the update variant under the new name, and the schema
      that was patched stays registered as it was. */
  lemma {:induction false} UpdateResolves(reg: Registry, t: string, newName: string, register: bool)
    requires SolidRegistry(reg) && t in reg && IsDict(reg[t]) && (register ==> newName !in reg)
    ensures var r := Resolve(reg, UpdatePatch(t, newName, register));
            && r.Done? && Solid(r.result) && Meaning(reg[t]).kind.DictK?
            && Meaning(r.result) == S.UpdateOf(Meaning(reg[t]), newName)
            && Extends(reg, r.reg) && (if register then r.reg == reg[newName := r.result] else r.reg == reg)
  {
    CopyMeaning(reg[t]);
    var base := Copy(reg[t]).(name := newName);
    var ops := [SetAttrs([Update(true)])];
    assert ops[1..] == [] && [Update(true)][1..] == [];
    assert SetAll(base.options, [Update(true)]) == Set(base.options, Update(true));
    assert ApplyOps(base, ops) == Some(base.(options := Set(base.options, Update(true))));
  }

  /** So a dictionary that passes a registered schema passes the patched one, and what that returns is
      the full result restricted to the keys that were given. */
  lemma {:induction false} PatchRestricts(reg: Registry, t: string, newName: string, register: bool,
                                          fields: seq<S.Field>)
    requires SolidRegistry(reg) && t in reg && IsDict(reg[t]) && (register ==> newName !in reg)
    requires S.Clean(Meaning(reg[t]), Some(S.DictV(fields))).Ok?
    ensures var p := Resolve(reg, UpdatePatch(t, newName, register)).result;
            var full := S.Clean(Meaning(reg[t]), Some(S.DictV(fields))).value;
            && Solid(p) && full.DictV? && |fields| <= |full.fields|
            && S.Clean(Meaning(p), Some(S.DictV(fields))) == S.Ok(S.DictV(full.fields[..|fields|]))
  {
    UpdateResolves(reg, t, newName, register);
    S.UpdateRestricts(Meaning(reg[t]), newName, fields);
  }

  /** Only a dictionary can be patched: anything else makes the attempt fail for good, and a schema that is
      not registered makes it wait. */
  lemma {:induction false} PatchNeedsDict(reg: Registry, t: string, newName: string, register: bool, ops: seq<PatchOp>)
    ensures t in reg && !IsDict(reg[t]) ==> Resolve(reg, Patch(t, newName, register, ops)).Crash?
    ensures t !in reg ==> Resolve(reg, Patch(t, newName, register, ops)).Blocked?
  {
  }

  // --- Settings ------------------------------------------------------------------------------------------

  function WithUpdate(kind: S.Kind, update: bool): S.Kind {
    if kind.DictK? then kind.(update := update) else kind
  }

  function WithChoices(kind: S.Kind, choices: Option<seq<S.Value>>): S.Kind {
    match kind
    case StrK(_) => S.StrK(choices)
    case IntK(_) => S.IntK(choices)
    case ListK(_, items) => S.ListK(choices, items)
    case _ => kind
  }

  /** What setting an attribute of a schema object changes, and that it changes nothing else; an attribute
      that the kind does not have changes nothing at all. */
  function Edited(setting: Setting, a: S.Attr): S.Attr {
    match setting
    case Required(required) => a.(required := required)
    case Nullable(nullable) => a.(nullable := nullable)
    case Default(default) => a.(default := default)
    case Update(update) => a.(kind := WithUpdate(a.kind, update))
    case Choices(choices) => a.(kind := WithChoices(a.kind, choices))
  }

  ghost predicate EditedBy(setting: Setting, a: S.Attr, b: S.Attr) {
    b == Edited(setting, a)
  }

  // One after the other, so that of two settings of one attribute the later one counts.
  ghost predicate EditedByAll(settings: seq<Setting>, a: S.Attr, b: S.Attr)
    decreases |settings|
  {
    if settings == [] then b == a
    else exists c :: EditedBy(settings[0], a, c) && EditedByAll(settings[1..], c, b)
  }

  lemma {:induction false} SettingMeaning(p: Param, setting: Setting)
    requires Solid(p)
    ensures var q := p.(options := Set(p.options, setting)); Solid(q) && EditedBy(setting, Meaning(p), Meaning(q))
  {
    match setting
    case Choices(choices) => ChoicesMeaning(p, choices);
    case Update(update) => UpdateMeaning(p, update);
    case _ =>
  }

  lemma {:induction false} ChoicesMeaning(p: Param, choices: Option<seq<S.Value>>)
    requires Solid(p)
    ensures var q := p.(options := Set(p.options, Choices(choices)));
            Solid(q) && EditedBy(Choices(choices), Meaning(p), Meaning(q))
  {
    var shape := Set(p.options, Choices(choices)).shape;
    ShapeChoices(p.options, choices, MeaningAll(p.parts));
    assert Set(p.options, Choices(choices)) == p.options.(shape := shape);
  }

  lemma {:induction false} ShapeChoices(o: Options, choices: Option<seq<S.Value>>, parts: seq<S.Attr>)
    ensures var k, k' := KindOf(o.shape, parts), KindOf(Set(o, Choices(choices)).shape, parts);
            match k
            case StrK(_) => k' == S.StrK(choices)
            case IntK(_) => k' == S.IntK(choices)
            case ListK(_, items) => k' == S.ListK(choices, items)
            case _ => k' == k
  {
  }

  lemma {:induction false} UpdateMeaning(p: Param, update: bool)
    requires Solid(p)
    ensures var q := p.(options := Set(p.options, Update(update)));
            Solid(q) && EditedBy(Update(update), Meaning(p), Meaning(q))
  {
  }

  lemma {:induction false} SettingsMeaning(p: Param, settings: seq<Setting>)
    requires Solid(p)
    ensures var q := p.(options := SetAll(p.options, settings));
            Solid(q) && EditedByAll(settings, Meaning(p), Meaning(q))
    decreases |settings|
  {
    if settings == [] {
      assert p.(options := p.options) == p;
    } else {
      SettingMeaning(p, settings[0]);
      SettingsMeaning(p.(options := Set(p.options, settings[0])), settings[1..]);
    }
  }

  lemma {:induction false} MeaningAt(ps: seq<Param>, k: nat)
    requires SolidAll(ps) && k < |ps|
    ensures |MeaningAll(ps)| == |ps| && Solid(ps[k]) && MeaningAll(ps)[k] == Meaning(ps[k])
  {
    if k > 0 {
      MeaningAt(ps[1..], k - 1);
    } else if |ps| > 1 {
      MeaningAt(ps[1..], 0);
    }
  }

  lemma {:induction false} MeaningUpdated(ps: seq<Param>, k: nat, q: Param)
    requires SolidAll(ps) && k < |ps| && Solid(q)
    ensures SolidAll(ps[k := q]) && |MeaningAll(ps)| == |ps|
    ensures MeaningAll(ps[k := q]) == MeaningAll(ps)[k := Meaning(q)]
  {
    MeaningAt(ps, k);
    if k == 0 {
      assert ps[0 := q][1..] == ps[1..];
    } else {
      MeaningUpdated(ps[1..], k - 1, q);
      assert ps[k := q][1..] == ps[1..][k - 1 := q];
    }
  }

  /** An edit changes the part of that name as its settings say, and neither another part nor the
      dictionary. */
  lemma {:induction false} EditMeaning(p: Param, name: string, settings: seq<Setting>)
    requires Solid(p) && IsDict(p) && PartAt(p.parts, name) < |p.parts|
    ensures var k, q := PartAt(p.parts, name), ApplyOp(p, EditPart(name, settings));
            && q.Some? && Solid(q.value) && Meaning(p).kind.DictK?
            && var a, b := Meaning(p), Meaning(q.value);
               && k < |a.kind.attrs| && a.kind.attrs[k].name == name
               && exists part :: && b == a.(kind := a.kind.(attrs := a.kind.attrs[k := part]))
                                 && EditedByAll(settings, a.kind.attrs[k], part)
  {
    var k := PartAt(p.parts, name);
    PartAtFacts(p.parts, name);
    MeaningAt(p.parts, k);
    SettingsMeaning(p.parts[k], settings);
    var part := p.parts[k].(options := SetAll(p.parts[k].options, settings));
    MeaningUpdated(p.parts, k, part);
  }

  /** Setting attributes of the dictionary changes it as the settings say. */
  lemma {:induction false} AttrMeaning(p: Param, settings: seq<Setting>)
    requires Solid(p)
    ensures var q := ApplyOp(p, SetAttrs(settings));
            q.Some? && Solid(q.value) && EditedByAll(settings, Meaning(p), Meaning(q.value))
  {
    SettingsMeaning(p, settings);
  }

  lemma {:induction false} OneSetting(setting: Setting, a: S.Attr, b: S.Attr)
    ensures EditedByAll([setting], a, b) <==> EditedBy(setting, a, b)
  {
    assert [setting][1..] == [];
    if EditedBy(setting, a, b) {
      assert EditedByAll([setting][1..], b, b);
    }
  }

  predicate SameTarget(s: Setting, t: Setting) {
    match s
    case Required(_) => t.Required?
    case Nullable(_) => t.Nullable?
    case Default(_) => t.Default?
    case Update(_) => t.Update?
    case Choices(_) => t.Choices?
  }

  lemma {:induction false} EditReplaced(first: Setting, later: Setting, a: S.Attr)
    requires SameTarget(first, later)
    ensures Edited(later, Edited(first, a)) == Edited(later, a)
  {
    match first
    case Update(update) => UpdateReplaced(a.kind, update, later.update);
    case Choices(choices) => ChoicesReplaced(a.kind, choices, later.choices);
    case _ =>
  }

  lemma {:induction false} UpdateReplaced(kind: S.Kind, first: bool, later: bool)
    ensures WithUpdate(WithUpdate(kind, first), later) == WithUpdate(kind, later)
  {
  }

  lemma {:induction false} ChoicesReplaced(kind: S.Kind, first: Option<seq<S.Value>>, later: Option<seq<S.Value>>)
    ensures WithChoices(WithChoices(kind, first), later) == WithChoices(kind, later)
  {
  }

  /** Of two settings of one attribute the later one counts. */
  lemma {:induction false} LaterCounts(first: Setting, later: Setting, a: S.Attr, b: S.Attr)
    requires SameTarget(first, later)
    ensures EditedByAll([first, later], a, b) <==> EditedBy(later, a, b)
  {
    var c := Edited(first, a);
    assert [first, later][1..] == [later];
    assert EditedBy(first, a, c);
    OneSetting(later, c, b);
    EditReplaced(first, later, a);
  }

  // --- What edited attributes accept -----------------------------------------------------------------------

  /** Whether an attribute is required makes no difference to a value that is given, null included. */
  lemma {:induction false} RequiredGiven(a: S.Attr, b: S.Attr, required: bool, v: S.Value)
    requires EditedBy(Required(required), a, b)
    ensures S.Clean(b, Some(v)) == S.Clean(a, Some(v))
  {
  }

  /** Null is accepted exactly if it is allowed, and other values are treated as before. */
  lemma {:induction false} NullableGiven(a: S.Attr, b: S.Attr, nullable: bool, v: S.Value)
    requires EditedBy(Nullable(nullable), a, b)
    ensures S.Clean(b, Some(S.Null)).Ok? <==> nullable
    ensures v != S.Null ==> S.Clean(b, Some(v)) == S.Clean(a, Some(v))
  {
  }

  /** Of the values that the type accepts, exactly the choices pass. */
  lemma {:induction false} ChoicesGiven(a: S.Attr, b: S.Attr, choices: seq<S.Value>, v: S.Value)
    requires EditedBy(Choices(Some(choices)), a, b) && (a.kind.StrK? || a.kind.IntK?) && v != S.Null
    ensures var free := a.(kind := if a.kind.StrK? then S.StrK(None) else S.IntK(None));
            && (S.Clean(b, Some(v)).Ok? <==> S.Clean(free, Some(v)).Ok? && S.Among(v, choices))
            && (S.Clean(b, Some(v)).Ok? ==> S.Clean(b, Some(v)) == S.Clean(free, Some(v)))
  {
    assert !v.ListV? ==> (S.Chosen(b, Some(choices), v) <==> S.Among(v, choices));
  }

  /** A missing value gives what the new default gives, and given values other than null are treated as
      before; an attribute that had no default is not given one by that. */
  lemma {:induction false} DefaultGiven(a: S.Attr, b: S.Attr, default: S.Value, v: S.Value)
    requires EditedBy(Default(default), a, b)
    ensures a.hasDefault && default != S.Null ==> S.Clean(b, None) == S.Clean(a, Some(default))
    ensures !a.hasDefault ==> S.Clean(b, None).Err?
    ensures v != S.Null ==> S.Clean(b, Some(v)) == S.Clean(a, Some(v))
  {
  }

  // A required attribute without a default cannot be left out.
  lemma {:induction false} RequiredDemanded(a: S.Attr, fields: seq<S.Field>, k: nat)
    requires a.kind.DictK? && !a.kind.update && S.DistinctNames(a.kind.attrs) && k < |a.kind.attrs|
    requires a.kind.attrs[k].required && !a.kind.attrs[k].hasDefault && !S.HasKey(fields, a.kind.attrs[k].name)
    ensures S.Clean(a, Some(S.DictV(fields))).Err?
  {
    var attrs := a.kind.attrs;
    var cleaned := S.CleanFields(attrs, a.kind.additional, fields);
    if cleaned.Ok? {
      S.CleanFieldsKeys(attrs, a.kind.additional, fields);
      S.SameKeys(cleaned.value, fields);
      NothingToAdd(attrs, cleaned.value, k);
    }
  }

  lemma {:induction false} NothingToAdd(attrs: seq<S.Attr>, fields: seq<S.Field>, k: nat)
    requires S.DistinctNames(attrs) && k < |attrs|
    requires attrs[k].required && !attrs[k].hasDefault && !S.HasKey(fields, attrs[k].name)
    ensures S.AddDefaults(attrs, fields).Err?
    decreases |attrs|
  {
    var a := attrs[0];
    if k > 0 {
      if S.HasKey(fields, a.name) || !S.Wanted(a) {
        NothingToAdd(attrs[1..], fields, k - 1);
      } else if S.Clean(a, None).Ok? {
        var added := fields + [S.Field(a.name, S.Clean(a, None).value)];
        forall i | 0 <= i < |added| ensures added[i].key != attrs[k].name {
        }
        NothingToAdd(attrs[1..], added, k - 1);
      }
    }
  }

  // The part that a name stands for.
  lemma {:induction false} PartFound(p: Param, k: nat)
    requires Solid(p) && IsDict(p) && k < |p.parts| && S.DistinctNames(MeaningAll(p.parts))
    ensures |MeaningAll(p.parts)| == |p.parts| && PartAt(p.parts, MeaningAll(p.parts)[k].name) == k
  {
    MeaningAt(p.parts, k);
    var m := PartAt(p.parts, p.parts[k].name);
    PartAtFacts(p.parts, p.parts[k].name);
    if m < |p.parts| {
      MeaningAt(p.parts, m);
    }
  }

  /** Resolving a patch that edits one attribute of a part yields the schema with that attribute changed and
      the new name, and leaves the patched schema registered as it was. */
  lemma {:induction false} EditResolves(reg: Registry, t: string, newName: string, k: nat, setting: Setting)
    requires SolidRegistry(reg) && t in reg && IsDict(reg[t])
    requires S.DistinctNames(Meaning(reg[t]).kind.attrs) && k < |Meaning(reg[t]).kind.attrs|
    ensures var a := Meaning(reg[t]);
            var r := Resolve(reg, Patch(t, newName, false, [EditPart(a.kind.attrs[k].name, [setting])]));
            && r.Done? && r.reg == reg && Solid(r.result)
            && exists part :: && EditedBy(setting, a.kind.attrs[k], part)
                              && Meaning(r.result) ==
                                 a.(name := newName, kind := a.kind.(attrs := a.kind.attrs[k := part]))
  {
    var a := Meaning(reg[t]);
    CopyMeaning(reg[t]);
    var name, base := a.kind.attrs[k].name, Copy(reg[t]).(name := newName);
    assert Solid(base) && Meaning(base) == a.(name := newName);
    MeaningLength(base.parts);
    PartFound(base, k);
    EditMeaning(base, name, [setting]);
    var op := EditPart(name, [setting]);
    assert [op][1..] == [] && ApplyOps(base, [op]) == ApplyOp(base, op);
    var part :| && Meaning(ApplyOp(base, op).value) == Meaning(base).(kind := a.kind.(attrs := a.kind.attrs[k := part]))
                && EditedByAll([setting], a.kind.attrs[k], part);
    OneSetting(setting, a.kind.attrs[k], part);
  }

  lemma {:induction false} MeaningLength(ps: seq<Param>)
    requires SolidAll(ps)
    ensures |MeaningAll(ps)| == |ps|
  {
    if ps != [] {
      MeaningLength(ps[1..]);
    }
  }

  /** So a patch that makes a part required yields a schema that rejects every dictionary without it, if the
      part has no default and the dictionary is not an update. */
  lemma {:induction false} PatchDemands(reg: Registry, t: string, newName: string, k: nat, fields: seq<S.Field>)
    requires SolidRegistry(reg) && t in reg && IsDict(reg[t])
    requires S.DistinctNames(Meaning(reg[t]).kind.attrs) && k < |Meaning(reg[t]).kind.attrs|
    requires var a := Meaning(reg[t]);
             !a.kind.update && !a.kind.attrs[k].hasDefault && !S.HasKey(fields, a.kind.attrs[k].name)
    ensures var name := Meaning(reg[t]).kind.attrs[k].name;
            var r := Resolve(reg, Patch(t, newName, false, [EditPart(name, [Required(true)])]));
            r.Done? && Solid(r.result) && S.Clean(Meaning(r.result), Some(S.DictV(fields))).Err?
  {
    var a := Meaning(reg[t]);
    EditResolves(reg, t, newName, k, Required(true));
    var b := Meaning(Resolve(reg, Patch(t, newName, false, [EditPart(a.kind.attrs[k].name, [Required(true)])])).result);
    assert b.kind.attrs[k] == a.kind.attrs[k].(required := true);
    RequiredDemanded(b, fields, k);
  }
}
