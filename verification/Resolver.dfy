/**
 Resolution of references between method schemas. Parameters are trees whose leaves may refer to
 schemas that other methods register; the methods are tried again and again, in place, until
 all are resolved or a whole pass resolves none.
 */
module Resolver {
  import opened Sequences
  import opened Wrappers
  import Schema

  // An attribute with its parts, a reference, or a patched copy of another schema.
  datatype Param =
    | Attr(name: string, register: bool, options: Options, parts: seq<Param>)
    | Ref(target: string)
    | Patch(target: string, newName: string, register: bool, ops: seq<PatchOp>)

  // Everything about an attribute but its name and its parts.
  datatype Options = Options(required: bool, nullable: bool, hasDefault: bool, default: Schema.Value,
                             empty: bool, isPrivate: bool, shape: Shape)

  datatype Shape =
    | AnyS
    | StrS(choices: Option<seq<Schema.Value>>)
    | IntS(choices: Option<seq<Schema.Value>>)
    | BoolS
    | ListS(choices: Option<seq<Schema.Value>>)
    | DictS(additional: bool, update: bool)

  // The operations `add`, `rm`, `edit` (by setting attributes) and `attr`.
  datatype PatchOp =
    | AddPart(part: Param)
    | RemovePart(name: string)
    | EditPart(name: string, settings: seq<Setting>)
    | SetAttrs(settings: seq<Setting>)

  datatype Setting =
    | Update(update: bool)
    | Required(required: bool)
    | Nullable(nullable: bool)
    | Default(default: Schema.Value)
    | Choices(choices: Option<seq<Schema.Value>>)

  type Registry = map<string, Param>

  // Resolved; waiting for a schema, with what was done so far; or a `ValueError`.
  datatype Outcome<T> = Done(reg: Registry, result: T) | Blocked(reg: Registry, result: T) | Crash

  // --- The code ------------------------------------------------------------------------------------

  // A copy is never registered again.
  function Copy(p: Param): Param {
    match p
    case Attr(name, _, options, parts) => Attr(name, false, options, CopyAll(parts))
    case _ => p
  }

  function CopyAll(ps: seq<Param>): seq<Param> {
    if ps == [] then [] else [Copy(ps[0])] + CopyAll(ps[1..])
  }

  predicate IsDict(p: Param) {
    p.Attr? && p.options.shape.DictS?
  }

  // An attribute of a schema object is set; one that its kind does not have changes nothing.
  function Set(o: Options, setting: Setting): Options {
    match setting
    case Update(b) => if o.shape.DictS? then o.(shape := o.shape.(update := b)) else o
    case Required(b) => o.(required := b)
    case Nullable(b) => o.(nullable := b)
    case Default(v) => o.(default := v)
    case Choices(c) =>
      match o.shape
      case StrS(_) => o.(shape := StrS(c))
      case IntS(_) => o.(shape := IntS(c))
      case ListS(_) => o.(shape := ListS(c))
      case _ => o
  }

  function SetAll(o: Options, settings: seq<Setting>): Options
    decreases |settings|
  {
    if settings == [] then o else SetAll(Set(o, settings[0]), settings[1..])
  }

  // Position of the part of that name.
  function PartAt(parts: seq<Param>, name: string): (k: nat)
    ensures k <= |parts|
  {
    if parts == [] || (parts[0].Attr? && parts[0].name == name) then 0 else 1 + PartAt(parts[1..], name)
  }

  // One patch operation on a dictionary schema; removing or editing a part that is not there is an error.
  function ApplyOp(p: Param, op: PatchOp): (r: Option<Param>)
    requires p.Attr?
    ensures r.Some? ==> r.value.Attr?
  {
    match op
    case AddPart(part) =>
      var k := if part.Attr? then PartAt(p.parts, part.name) else |p.parts|;
      Some(p.(parts := if k < |p.parts| then p.parts[k := part] else p.parts + [part]))
    case RemovePart(name) =>
      var k := PartAt(p.parts, name);
      if k == |p.parts| then None else Some(p.(parts := p.parts[..k] + p.parts[k + 1..]))
    case EditPart(name, settings) =>
      var k := PartAt(p.parts, name);
      if k == |p.parts| || !p.parts[k].Attr? then None
      else Some(p.(parts := p.parts[k := p.parts[k].(options := SetAll(p.parts[k].options, settings))]))
    case SetAttrs(settings) => Some(p.(options := SetAll(p.options, settings)))
  }

  function ApplyOps(p: Param, ops: seq<PatchOp>): (r: Option<Param>)
    requires p.Attr?
    ensures r.Some? ==> r.value.Attr?
    decreases |ops|
  {
    if ops == [] then Some(p)
    else
      var r := ApplyOp(p, ops[0]);
      if r.None? then None else ApplyOps(r.value, ops[1..])
  }

  function Patched(base: Param, newName: string, ops: seq<PatchOp>): Option<Param> {
    if !IsDict(base) then None else ApplyOps(base.(name := newName), ops)
  }

  function Register(reg: Registry, register: bool, name: string, p: Param): Outcome<Param> {
    if !register then Done(reg, p)
    else if name in reg then Crash
    else Done(reg[name := p], p)
  }

  function Resolve(reg: Registry, p: Param): Outcome<Param>
    decreases p, 1
  {
    match p
    case Attr(name, register, _, parts) =>
      (match ResolveAll(reg, parts)
       case Done(reg', parts') => Register(reg', register, name, p.(parts := parts'))
       case Blocked(reg', parts') => Blocked(reg', p.(parts := parts'))
       case Crash => Crash)
    case Ref(t) => if t in reg then Done(reg, Copy(reg[t])) else Blocked(reg, p)
    case Patch(t, newName, register, ops) =>
      if t !in reg then Blocked(reg, p)
      else
        var patched := Patched(Copy(reg[t]), newName, ops);
        if patched.None? then Crash else Register(reg, register, newName, patched.value)
  }

  function ResolveAll(reg: Registry, ps: seq<Param>): (r: Outcome<seq<Param>>)
    ensures !r.Crash? ==> |r.result| == |ps|
    decreases ps, 0
  {
    if ps == [] then Done(reg, [])
    else
      match Resolve(reg, ps[0])
      case Crash => Crash
      case Blocked(reg', p) => Blocked(reg', [p] + ps[1..])
      case Done(reg', p) =>
        match ResolveAll(reg', ps[1..])
        case Crash => Crash
        case Blocked(reg'', rest) => Blocked(reg'', [p] + rest)
        case Done(reg'', rest) => Done(reg'', [p] + rest)
  }

  // On failure the parameter list itself is not replaced: only attributes changed within.
  function KeepOuter(ps: seq<Param>, changed: seq<Param>): seq<Param>
    requires |ps| == |changed|
  {
    seq(|ps|, i requires 0 <= i < |ps| => if ps[i].Attr? then changed[i] else ps[i])
  }

  // The part of that name.
  function PartNamed(parts: seq<Param>, name: string): Option<Param> {
    var k := PartAt(parts, name);
    if k < |parts| then Some(parts[k]) else None
  }

  ghost predicate NamedOnce(parts: seq<Param>) {
    forall i, j :: 0 <= i < j < |parts| && parts[i].Attr? && parts[j].Attr? ==> parts[i].name != parts[j].name
  }

  lemma {:induction false} PartAtFacts(parts: seq<Param>, name: string)
    ensures var k := PartAt(parts, name);
            && (k < |parts| ==> parts[k].Attr? && parts[k].name == name)
            && forall i :: 0 <= i < k ==> !(parts[i].Attr? && parts[i].name == name)
  {
    if parts != [] && !(parts[0].Attr? && parts[0].name == name) {
      PartAtFacts(parts[1..], name);
      assert forall i :: 1 <= i < |parts| ==> parts[i] == parts[1..][i - 1];
    }
  }

  lemma {:induction false} PartAtIs(parts: seq<Param>, name: string, k: nat)
    requires k <= |parts| && (k < |parts| ==> parts[k].Attr? && parts[k].name == name)
    requires forall i :: 0 <= i < k ==> !(parts[i].Attr? && parts[i].name == name)
    ensures PartAt(parts, name) == k
  {
    PartAtFacts(parts, name);
  }

  /** A patch operation changes the part that it names and no other: it adds, replaces, edits or
      removes it, and fails only if there is nothing to edit or to remove. */
  lemma {:induction false} PatchMeaning(p: Param, op: PatchOp, n: string)
    requires p.Attr? && NamedOnce(p.parts) && (op.AddPart? ==> op.part.Attr?)
    ensures ApplyOp(p, op).None? <==> (op.RemovePart? || op.EditPart?) && PartNamed(p.parts, op.name).None?
    ensures ApplyOp(p, op).Some? ==>
              NamedOnce(ApplyOp(p, op).value.parts) &&
              PartNamed(ApplyOp(p, op).value.parts, n) == PartAfter(p.parts, op, n)
  {
    PartAtFacts(p.parts, n);
    match op
    case AddPart(part) => AddMeaning(p.parts, part, n);
    case RemovePart(name) =>
      if PartAt(p.parts, name) < |p.parts| {
        RemoveMeaning(p.parts, name, n);
      }
    case EditPart(name, settings) => EditedPart(p, name, settings, n);
    case SetAttrs(_) =>
  }

  lemma {:induction false} EditedPart(p: Param, name: string, settings: seq<Setting>, n: string)
    requires p.Attr? && NamedOnce(p.parts)
    ensures ApplyOp(p, EditPart(name, settings)).None? <==> PartNamed(p.parts, name).None?
    ensures ApplyOp(p, EditPart(name, settings)).Some? ==>
              var parts := ApplyOp(p, EditPart(name, settings)).value.parts;
              NamedOnce(parts) && PartNamed(parts, n) == PartAfter(p.parts, EditPart(name, settings), n)
  {
    var k := PartAt(p.parts, name);
    PartAtFacts(p.parts, n);
    PartAtFacts(p.parts, name);
    if k < |p.parts| {
      AddMeaning(p.parts, p.parts[k].(options := SetAll(p.parts[k].options, settings)), n);
    }
  }

  // What is to be found under a name after the operation.
  function PartAfter(parts: seq<Param>, op: PatchOp, n: string): Option<Param> {
    match op
    case AddPart(part) => if part.Attr? && n == part.name then Some(part) else PartNamed(parts, n)
    case RemovePart(name) => if n == name then None else PartNamed(parts, n)
    case EditPart(name, settings) =>
      var part := PartNamed(parts, n);
      if n == name && part.Some? && part.value.Attr? then
        Some(part.value.(options := SetAll(part.value.options, settings)))
      else part
    case SetAttrs(_) => PartNamed(parts, n)
  }

  lemma {:induction false} AddMeaning(parts: seq<Param>, part: Param, n: string)
    requires NamedOnce(parts) && part.Attr?
    ensures var k := PartAt(parts, part.name);
            var parts' := if k < |parts| then parts[k := part] else parts + [part];
            NamedOnce(parts') && PartNamed(parts', n) == if n == part.name then Some(part) else PartNamed(parts, n)
  {
    var k, m := PartAt(parts, part.name), PartAt(parts, n);
    PartAtFacts(parts, part.name);
    PartAtFacts(parts, n);
    var parts' := if k < |parts| then parts[k := part] else parts + [part];
    PartAtIs(parts', n, if n == part.name then k else if m < |parts| then m else |parts'|);
  }

  // `parts'` is `parts` without element `k`.
  ghost predicate Shortened(parts: seq<Param>, parts': seq<Param>, k: nat) {
    && k < |parts| == |parts'| + 1
    && (forall i :: 0 <= i < k ==> parts'[i] == parts[i])
    && (forall i :: k <= i < |parts'| ==> parts'[i] == parts[i + 1])
  }

  lemma {:induction false} ShortenedNames(parts: seq<Param>, parts': seq<Param>, k: nat)
    requires NamedOnce(parts) && Shortened(parts, parts', k)
    ensures NamedOnce(parts')
  {
    forall i, j | 0 <= i < j < |parts'| && parts'[i].Attr? && parts'[j].Attr? ensures parts'[i].name != parts'[j].name {
      var i', j' := if i < k then i else i + 1, if j < k then j else j + 1;
      assert parts'[i] == parts[i'] && parts'[j] == parts[j'];
    }
  }

  lemma {:induction false} RemoveMeaning(parts: seq<Param>, name: string, n: string)
    requires NamedOnce(parts) && PartAt(parts, name) < |parts|
    ensures var k := PartAt(parts, name);
            var parts' := parts[..k] + parts[k + 1..];
            NamedOnce(parts') && PartNamed(parts', n) == if n == name then None else PartNamed(parts, n)
  {
    var k := PartAt(parts, name);
    PartAtFacts(parts, name);
    ShortenedNames(parts, parts[..k] + parts[k + 1..], k);
    ShortenedPart(parts, parts[..k] + parts[k + 1..], k, n);
  }

  lemma {:induction false} ShortenedPart(parts: seq<Param>, parts': seq<Param>, k: nat, n: string)
    requires NamedOnce(parts) && Shortened(parts, parts', k) && parts[k].Attr?
    ensures PartNamed(parts', n) == if n == parts[k].name then None else PartNamed(parts, n)
  {
    var m := PartAt(parts, n);
    PartAtFacts(parts, n);
    PartAtIs(parts', n, if n == parts[k].name || m == |parts| then |parts'| else if m < k then m else m - 1);
  }

  /** The operations of a patch are applied one after the other. */
  lemma {:induction false} OpsInOrder(p: Param, ops: seq<PatchOp>, op: PatchOp)
    requires p.Attr?
    ensures ApplyOps(p, ops + [op]) ==
            if ApplyOps(p, ops).None? then None else ApplyOp(ApplyOps(p, ops).value, op)
    decreases |ops|
  {
    var all := ops + [op];
    if ops == [] {
      assert all[1..] == [];
    } else {
      assert all[1..] == ops[1..] + [op];
      if ApplyOp(p, ops[0]).Some? {
        OpsInOrder(ApplyOp(p, ops[0]).value, ops[1..], op);
      }
    }
  }

  // The names of the parts, in order; a reference has none.
  function Names(parts: seq<Param>): (names: seq<Option<string>>)
    ensures |names| == |parts|
  {
    seq(|parts|, k requires 0 <= k < |parts| => if parts[k].Attr? then Some(parts[k].name) else None)
  }

  /** A patch operation keeps the parts in order: a new one comes last, the others stay where they are, and
      a removed one leaves no gap. */
  lemma {:induction false} OpOrder(p: Param, op: PatchOp)
    requires p.Attr? && (op.AddPart? ==> op.part.Attr?) && ApplyOp(p, op).Some?
    ensures var names, names' := Names(p.parts), Names(ApplyOp(p, op).value.parts);
            match op
            case AddPart(part) => names' == if Some(part.name) in names then names else names + [Some(part.name)]
            case RemovePart(name) =>
              exists k :: 0 <= k < |names| && names[k] == Some(name) && names' == names[..k] + names[k + 1..]
            case _ => names' == names
  {
    match op
    case AddPart(part) => AddedNames(p.parts, part);
    case RemovePart(name) => RemovedNames(p.parts, name);
    case EditPart(name, _) => PartAtNames(p.parts, name);
    case _ =>
  }

  lemma {:induction false} AddedNames(parts: seq<Param>, part: Param)
    requires part.Attr?
    ensures var k, names, name := PartAt(parts, part.name), Names(parts), Some(part.name);
            Names(if k < |parts| then parts[k := part] else parts + [part]) ==
            if name in names then names else names + [name]
  {
    PartAtNames(parts, part.name);
  }

  lemma {:induction false} RemovedNames(parts: seq<Param>, name: string)
    requires PartAt(parts, name) < |parts|
    ensures var k, names := PartAt(parts, name), Names(parts);
            names[k] == Some(name) && Names(parts[..k] + parts[k + 1..]) == names[..k] + names[k + 1..]
  {
    PartAtNames(parts, name);
    var k := PartAt(parts, name);
    var r, names := parts[..k] + parts[k + 1..], Names(parts);
    assert forall i :: 0 <= i < |r| ==> r[i] == parts[if i < k then i else i + 1];
    assert Names(r) == names[..k] + names[k + 1..];
  }

  lemma {:induction false} PartAtNames(parts: seq<Param>, name: string)
    ensures var k := PartAt(parts, name);
            && (k < |parts| <==> Some(name) in Names(parts))
            && (k < |parts| ==> Names(parts)[k] == Some(name) && parts[k].Attr?)
  {
    PartAtFacts(parts, name);
    var k := PartAt(parts, name);
    assert k < |parts| ==> Names(parts)[k] == Some(name);
  }

  // --- The loops -----------------------------------------------------------------------------------------

  function Behind(done: seq<Param>, o: Outcome<seq<Param>>): Outcome<seq<Param>> {
    match o
    case Done(reg, rest) => Done(reg, done + rest)
    case Blocked(reg, rest) => Blocked(reg, done + rest)
    case Crash => Crash
  }

  lemma {:induction false} BehindBehind(done: seq<Param>, p: Param, o: Outcome<seq<Param>>)
    ensures Behind(done, Behind([p], o)) == Behind(done + [p], o) && Behind([], o) == o
  {
    if !o.Crash? {
      assert (done + [p]) + o.result == done + ([p] + o.result) && [] + o.result == o.result;
    }
  }

  lemma {:induction false} ResolveFrom(reg: Registry, ps: seq<Param>, i: nat)
    requires i < |ps|
    ensures ResolveAll(reg, ps[i..]) ==
            match Resolve(reg, ps[i])
            case Crash => Crash
            case Blocked(reg', p) => Blocked(reg', [p] + ps[i + 1..])
            case Done(reg', p) => Behind([p], ResolveAll(reg', ps[i + 1..]))
  {
    assert ps[i..][0] == ps[i] && ps[i..][1..] == ps[i + 1..];
  }

  method ResolveParam(reg: Registry, p: Param) returns (r: Outcome<Param>)
    ensures r == Resolve(reg, p)
    decreases p, 1
  {
    if !p.Attr? {
      return Resolve(reg, p);
    }
    var parts := ResolveParams(reg, p.parts);
    match parts {
      case Crash => r := Crash;
      case Blocked(reg', parts') => r := Blocked(reg', p.(parts := parts'));
      case Done(reg', parts') => r := Register(reg', p.register, p.name, p.(parts := parts'));
    }
  }

  /** The parts of an attribute, or the parameters of a method, are resolved in turn and replaced
      one by one; what was replaced before a failure stays replaced. */
  method ResolveParams(reg: Registry, ps: seq<Param>) returns (r: Outcome<seq<Param>>)
    ensures r == ResolveAll(reg, ps)
    decreases ps, 0
  {
    var reg', parts := reg, ps;
    BehindBehind([], Ref(""), ResolveAll(reg, ps));
    assert ps[..0] == [] && ps[0..] == ps;
    for i := 0 to |ps|
      invariant |parts| == |ps| && parts[i..] == ps[i..]
      invariant ResolveAll(reg, ps) == Behind(parts[..i], ResolveAll(reg', ps[i..]))
    {
      ResolveFrom(reg', ps, i);
      Replaced(parts, ps, i, parts[i]);
      var one := ResolveParam(reg', ps[i]);
      match one {
        case Crash =>
          return Crash;
        case Blocked(reg'', p) =>
          Replaced(parts, ps, i, p);
          return Blocked(reg'', parts[i := p]);
        case Done(reg'', p) =>
          Replaced(parts, ps, i, p);
          BehindBehind(parts[..i], p, ResolveAll(reg'', ps[i + 1..]));
          reg', parts := reg'', parts[i := p];
      }
    }
    assert ps[|ps|..] == [] && parts[..|ps|] == parts && parts + [] == parts;
    r := Done(reg', parts);
  }
}
