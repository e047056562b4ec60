/**
 What one attempt at resolving parameters does to the registry: which names it needs, which it
 registers before it has to wait, what it leaves of the parameters, and when it fails for good.
 */
module Registration {
  import opened Resolver
  import opened Wrappers

  // --- Names -----------------------------------------------------------------------------------------

  // All names that a parameter refers to, its own ones included.
  function Targets(p: Param): set<string> {
    match p case Attr(_, _, _, parts) => TargetsAll(parts) case Ref(t) => {t} case Patch(t, _, _, _) => {t}
  }

  function TargetsAll(ps: seq<Param>): set<string> {
    if ps == [] then {} else Targets(ps[0]) + TargetsAll(ps[1..])
  }

  // The names that it registers.
  function Gives(p: Param): set<string> {
    match p
    case Attr(name, register, _, parts) => GivesAll(parts) + (if register then {name} else {})
    case Ref(_) => {}
    case Patch(_, newName, register, _) => if register then {newName} else {}
  }

  function GivesAll(ps: seq<Param>): set<string> {
    if ps == [] then {} else Gives(ps[0]) + GivesAll(ps[1..])
  }

  // The names that have to be there; what was registered on the way need not.
  function Needs(p: Param): set<string> {
    match p case Attr(_, _, _, parts) => NeedsAll(parts) case Ref(t) => {t} case Patch(t, _, _, _) => {t}
  }

  function NeedsAll(ps: seq<Param>): set<string> {
    if ps == [] then {} else Needs(ps[0]) + (NeedsAll(ps[1..]) - Gives(ps[0]))
  }

  // What an attempt registers when the names `known` are there, up to the first one that is missing.
  function Early(known: set<string>, p: Param): set<string>
    decreases p, 1
  {
    match p
    case Attr(name, register, _, parts) =>
      EarlyAll(known, parts) + (if register && NeedsAll(parts) <= known then {name} else {})
    case Ref(_) => {}
    case Patch(t, newName, register, _) => if register && t in known then {newName} else {}
  }

  function EarlyAll(known: set<string>, ps: seq<Param>): set<string>
    decreases ps, 0
  {
    if ps == [] then {}
    else Early(known, ps[0]) + (if Needs(ps[0]) <= known then EarlyAll(known + Gives(ps[0]), ps[1..]) else {})
  }

  /* The part of it that a second attempt registers again: a nested patch is replaced in place by a
     copy that is not registered, an attribute or a patch that is a parameter itself is not. */
  function Fatal(known: set<string>, p: Param, top: bool): set<string>
    decreases p, 1
  {
    match p
    case Attr(name, register, _, parts) =>
      FatalAll(known, parts, false) + (if register && NeedsAll(parts) <= known then {name} else {})
    case Ref(_) => {}
    case Patch(t, newName, register, _) => if top && register && t in known then {newName} else {}
  }

  function FatalAll(known: set<string>, ps: seq<Param>, top: bool): set<string>
    decreases ps, 0
  {
    if ps == [] then {}
    else Fatal(known, ps[0], top) + (if Needs(ps[0]) <= known then FatalAll(known + Gives(ps[0]), ps[1..], top) else {})
  }

  // The names of registered patches that are nested.
  function Loose(p: Param, top: bool): set<string> {
    match p
    case Attr(_, _, _, parts) => LooseAll(parts, false)
    case Ref(_) => {}
    case Patch(_, newName, register, _) => if register && !top then {newName} else {}
  }

  function LooseAll(ps: seq<Param>, top: bool): set<string> {
    if ps == [] then {} else Loose(ps[0], top) + LooseAll(ps[1..], top)
  }

  lemma {:induction false} TargetsSplit(p: Param)
    ensures Needs(p) <= Targets(p) <= Needs(p) + Gives(p)
    decreases p, 1
  {
    if p.Attr? {
      TargetsSplitAll(p.parts);
    }
  }

  lemma {:induction false} TargetsSplitAll(ps: seq<Param>)
    ensures NeedsAll(ps) <= TargetsAll(ps) <= NeedsAll(ps) + GivesAll(ps)
    decreases ps, 0
  {
    if ps != [] {
      TargetsSplit(ps[0]);
      TargetsSplitAll(ps[1..]);
    }
  }

  // With all needs met everything is registered.
  lemma {:induction false} EarlyMet(known: set<string>, p: Param)
    requires Needs(p) <= known
    ensures Early(known, p) == Gives(p)
    decreases p, 1
  {
    if p.Attr? {
      EarlyMetAll(known, p.parts);
    }
  }

  lemma {:induction false} EarlyMetAll(known: set<string>, ps: seq<Param>)
    requires NeedsAll(ps) <= known
    ensures EarlyAll(known, ps) == GivesAll(ps)
    decreases ps, 0
  {
    if ps != [] {
      EarlyMet(known, ps[0]);
      EarlyMetAll(known + Gives(ps[0]), ps[1..]);
    }
  }

  lemma {:induction false} EarlyParts(known: set<string>, p: Param, top: bool)
    ensures Fatal(known, p, top) <= Early(known, p) <= Gives(p)
    ensures Early(known, p) <= Fatal(known, p, top) + Loose(p, top) && Loose(p, top) <= Gives(p)
    decreases p, 1
  {
    if p.Attr? {
      EarlyPartsAll(known, p.parts, false);
    }
  }

  lemma {:induction false} EarlyPartsAll(known: set<string>, ps: seq<Param>, top: bool)
    ensures FatalAll(known, ps, top) <= EarlyAll(known, ps) <= GivesAll(ps)
    ensures EarlyAll(known, ps) <= FatalAll(known, ps, top) + LooseAll(ps, top) && LooseAll(ps, top) <= GivesAll(ps)
    decreases ps, 0
  {
    if ps != [] {
      EarlyParts(known, ps[0], top);
      EarlyPartsAll(known + Gives(ps[0]), ps[1..], top);
    }
  }

  lemma {:induction false} EarlyMono(known: set<string>, more: set<string>, p: Param, top: bool)
    requires known <= more
    ensures Early(known, p) <= Early(more, p) && Fatal(known, p, top) <= Fatal(more, p, top)
    decreases p, 1
  {
    if p.Attr? {
      EarlyMonoAll(known, more, p.parts, false);
    }
  }

  lemma {:induction false} EarlyMonoAll(known: set<string>, more: set<string>, ps: seq<Param>, top: bool)
    requires known <= more
    ensures EarlyAll(known, ps) <= EarlyAll(more, ps) && FatalAll(known, ps, top) <= FatalAll(more, ps, top)
    decreases ps, 0
  {
    if ps != [] {
      EarlyMono(known, more, ps[0], top);
      EarlyMonoAll(known + Gives(ps[0]), more + Gives(ps[0]), ps[1..], top);
    }
  }

  // --- Well-formed parameters ----------------------------------------------------------------------------

  // No name is registered twice.
  ghost predicate Distinct(p: Param) {
    p.Attr? ==> DistinctAll(p.parts) && (p.register ==> p.name !in GivesAll(p.parts))
  }

  ghost predicate DistinctAll(ps: seq<Param>) {
    ps != [] ==> Distinct(ps[0]) && DistinctAll(ps[1..]) && Gives(ps[0]) !! GivesAll(ps[1..])
  }

  // Resolved, and not registered.
  ghost predicate Plain(p: Param) {
    p.Attr? && !p.register && PlainAll(p.parts)
  }

  ghost predicate PlainAll(ps: seq<Param>) {
    ps != [] ==> Plain(ps[0]) && PlainAll(ps[1..])
  }

  // Resolved.
  ghost predicate Solid(p: Param) {
    p.Attr? && SolidAll(p.parts)
  }

  ghost predicate SolidAll(ps: seq<Param>) {
    ps != [] ==> Solid(ps[0]) && SolidAll(ps[1..])
  }

  ghost predicate SolidRegistry(reg: Registry) {
    forall t :: t in reg ==> Solid(reg[t])
  }

  // Patches add resolved attributes only.
  ghost predicate Closed(p: Param)
    decreases p, 1
  {
    match p
    case Attr(_, _, _, parts) => ClosedAll(parts)
    case Ref(_) => true
    case Patch(_, _, _, ops) => AddsPlain(ops)
  }

  ghost predicate ClosedAll(ps: seq<Param>)
    decreases ps, 0
  {
    ps != [] ==> Closed(ps[0]) && ClosedAll(ps[1..])
  }

  ghost predicate AddsPlain(ops: seq<PatchOp>) {
    forall i :: 0 <= i < |ops| && ops[i].AddPart? ==> Plain(ops[i].part)
  }

  lemma {:induction false} CopyPlain(p: Param)
    requires Solid(p)
    ensures Plain(Copy(p))
    decreases p, 1
  {
    CopyAllPlain(p.parts);
  }

  lemma {:induction false} CopyAllPlain(ps: seq<Param>)
    requires SolidAll(ps)
    ensures PlainAll(CopyAll(ps))
    decreases ps, 0
  {
    if ps != [] {
      CopyPlain(ps[0]);
      CopyAllPlain(ps[1..]);
    }
  }

  lemma {:induction false} PlainAt(ps: seq<Param>)
    ensures PlainAll(ps) <==> forall i :: 0 <= i < |ps| ==> Plain(ps[i])
  {
    if ps != [] {
      PlainAt(ps[1..]);
      assert forall i :: 1 <= i < |ps| ==> ps[i] == ps[1..][i - 1];
    }
  }

  lemma {:induction false} ApplyOpPlain(p: Param, op: PatchOp)
    requires Plain(p) && (op.AddPart? ==> Plain(op.part)) && ApplyOp(p, op).Some?
    ensures Plain(ApplyOp(p, op).value)
  {
    PlainAt(p.parts);
    PlainAt(ApplyOp(p, op).value.parts);
  }

  lemma {:induction false} ApplyOpsPlain(p: Param, ops: seq<PatchOp>)
    requires Plain(p) && ApplyOps(p, ops).Some? && AddsPlain(ops)
    ensures Plain(ApplyOps(p, ops).value)
    decreases |ops|
  {
    if ops != [] {
      ApplyOpPlain(p, ops[0]);
      ApplyOpsPlain(ApplyOp(p, ops[0]).value, ops[1..]);
    }
  }

  lemma {:induction false} PlainSolid(p: Param)
    requires Plain(p)
    ensures Solid(p) && Closed(p) && Distinct(p) && Targets(p) == {} && Needs(p) == {} && Gives(p) == {}
    ensures forall top :: Loose(p, top) == {}
    decreases p, 1
  {
    PlainSolidAll(p.parts);
  }

  lemma {:induction false} PlainSolidAll(ps: seq<Param>)
    requires PlainAll(ps)
    ensures SolidAll(ps) && ClosedAll(ps) && DistinctAll(ps) && TargetsAll(ps) == {} && NeedsAll(ps) == {}
    ensures GivesAll(ps) == {}
    ensures forall top :: LooseAll(ps, top) == {}
    decreases ps, 0
  {
    if ps != [] {
      PlainSolid(ps[0]);
      PlainSolidAll(ps[1..]);
    }
  }

  // --- Meaning in a registry --------------------------------------------------------------------------------

  ghost predicate Extends(r1: Registry, r2: Registry) {
    forall t :: t in r1 ==> t in r2 && r2[t] == r1[t]
  }

  // The patch applies to the schema that it refers to.
  ghost predicate Fits(reg: Registry, p: Param)
    requires p.Patch?
  {
    p.target in reg ==> Patched(Copy(reg[p.target]), p.newName, p.ops).Some?
  }

  // References replaced by what the registry holds.
  ghost function Eval(reg: Registry, p: Param): Param {
    match p
    case Attr(_, _, _, parts) => p.(parts := EvalAll(reg, parts))
    case Ref(t) => if t in reg then Copy(reg[t]) else p
    case Patch(t, newName, _, ops) =>
      if t in reg && Fits(reg, p) then Patched(Copy(reg[t]), newName, ops).value else p
  }

  ghost function EvalAll(reg: Registry, ps: seq<Param>): seq<Param> {
    if ps == [] then [] else [Eval(reg, ps[0])] + EvalAll(reg, ps[1..])
  }

  // A registered name stands for the definition that registers it, evaluated in this very registry.
  ghost predicate Sound(reg: Registry, p: Param)
    decreases p, 1
  {
    match p
    case Attr(name, register, _, parts) =>
      SoundAll(reg, parts) && (register && name in reg ==> TargetsAll(parts) <= reg.Keys && reg[name] == Eval(reg, p))
    case Ref(_) => true
    case Patch(t, newName, register, _) =>
      register && newName in reg ==> t in reg && Fits(reg, p) && reg[newName] == Eval(reg, p)
  }

  ghost predicate SoundAll(reg: Registry, ps: seq<Param>)
    decreases ps, 0
  {
    ps != [] ==> Sound(reg, ps[0]) && SoundAll(reg, ps[1..])
  }

  // The patches that an attempt comes to do apply.
  ghost predicate Applies(reg: Registry, p: Param)
    decreases p, 1
  {
    match p
    case Attr(_, _, _, parts) => AppliesAll(reg, parts)
    case Ref(_) => true
    case Patch(_, _, _, _) => Fits(reg, p)
  }

  ghost predicate AppliesAll(reg: Registry, ps: seq<Param>)
    decreases ps, 0
  {
    ps != [] ==> Applies(reg, ps[0]) && (Needs(ps[0]) <= reg.Keys ==> AppliesAll(reg, ps[1..]))
  }

  ghost predicate Agree(r1: Registry, r2: Registry, names: set<string>) {
    forall t :: t in names ==> t in r1 && t in r2 && r1[t] == r2[t]
  }

  // Only the schemas that are referred to matter.
  lemma {:induction false} EvalAgree(r1: Registry, r2: Registry, p: Param)
    requires Agree(r1, r2, Targets(p))
    ensures Eval(r1, p) == Eval(r2, p)
    decreases p, 1
  {
    if p.Attr? {
      EvalAgreeAll(r1, r2, p.parts);
    }
  }

  lemma {:induction false} EvalAgreeAll(r1: Registry, r2: Registry, ps: seq<Param>)
    requires Agree(r1, r2, TargetsAll(ps))
    ensures EvalAll(r1, ps) == EvalAll(r2, ps)
    decreases ps, 0
  {
    if ps != [] {
      EvalAgree(r1, r2, ps[0]);
      EvalAgreeAll(r1, r2, ps[1..]);
    }
  }

  // Soundness survives as long as nothing new appears under the names that are registered here.
  lemma {:induction false} SoundGrows(reg: Registry, reg2: Registry, p: Param)
    requires Sound(reg, p) && Extends(reg, reg2) && forall n :: n in Gives(p) && n in reg2 ==> n in reg
    ensures Sound(reg2, p)
    decreases p, 1
  {
    match p
    case Attr(name, register, _, parts) =>
      SoundGrowsAll(reg, reg2, parts);
      if register && name in reg2 {
        assert name in Gives(p);
        EvalAgree(reg, reg2, p);
      }
    case Ref(_) =>
    case Patch(_, _, _, _) =>
  }

  lemma {:induction false} SoundGrowsAll(reg: Registry, reg2: Registry, ps: seq<Param>)
    requires SoundAll(reg, ps) && Extends(reg, reg2) && forall n :: n in GivesAll(ps) && n in reg2 ==> n in reg
    ensures SoundAll(reg2, ps)
    decreases ps, 0
  {
    if ps != [] {
      SoundGrows(reg, reg2, ps[0]);
      SoundGrowsAll(reg, reg2, ps[1..]);
    }
  }

  // --- One attempt ----------------------------------------------------------------------------------------------

  // A reference that can be followed leads to a resolved schema.
  lemma {:induction false} LeafPlain(reg: Registry, p: Param)
    requires SolidRegistry(reg) && Closed(p) && !p.Attr? && p.target in reg && (p.Patch? ==> Fits(reg, p))
    ensures Plain(Eval(reg, p))
  {
    CopyPlain(reg[p.target]);
    if p.Patch? {
      ApplyOpsPlain(Copy(reg[p.target]).(name := p.newName), p.ops);
    }
  }

  /** An attempt that does not fail for good registers just what comes before the first missing name,
      none of it taken, and succeeds if and only if no name is missing. */
  lemma {:induction false} AttemptFacts(reg: Registry, p: Param)
    requires SolidRegistry(reg) && Closed(p) && !Resolve(reg, p).Crash?
    ensures var r, known := Resolve(reg, p), reg.Keys;
            && Early(known, p) !! known && r.reg.Keys == known + Early(known, p)
            && (r.Done? <==> Needs(p) <= known) && (r.Done? ==> Solid(r.result))
            && Extends(reg, r.reg) && SolidRegistry(r.reg)
    decreases p, 1
  {
    match p
    case Attr(_, _, _, parts) => AttemptAllFacts(reg, parts);
    case Ref(t) =>
      if t in reg {
        LeafPlain(reg, p);
        PlainSolid(Eval(reg, p));
      }
    case Patch(t, _, _, _) =>
      if t in reg {
        LeafPlain(reg, p);
        PlainSolid(Eval(reg, p));
      }
  }

  lemma {:induction false} AttemptAllFacts(reg: Registry, ps: seq<Param>)
    requires SolidRegistry(reg) && ClosedAll(ps) && !ResolveAll(reg, ps).Crash?
    ensures var r, known := ResolveAll(reg, ps), reg.Keys;
            && EarlyAll(known, ps) !! known && r.reg.Keys == known + EarlyAll(known, ps)
            && (r.Done? <==> NeedsAll(ps) <= known) && (r.Done? ==> SolidAll(r.result))
            && Extends(reg, r.reg) && SolidRegistry(r.reg)
    decreases ps, 0
  {
    if ps != [] {
      AttemptFacts(reg, ps[0]);
      if Resolve(reg, ps[0]).Done? {
        EarlyMet(reg.Keys, ps[0]);
        AttemptAllFacts(Resolve(reg, ps[0]).reg, ps[1..]);
      }
    }
  }

  lemma {:induction false} ExtendsOn(r1: Registry, r2: Registry, r3: Registry)
    requires Extends(r1, r2) && Extends(r2, r3)
    ensures Extends(r1, r3)
  {
  }

  // A successful attempt is evaluation in the registry that it leaves, or any later one.
  lemma {:induction false} AttemptEval(reg: Registry, p: Param, reg2: Registry)
    requires SolidRegistry(reg) && Closed(p) && Resolve(reg, p).Done? && Extends(Resolve(reg, p).reg, reg2)
    ensures Resolve(reg, p).result == Eval(reg2, p) && Targets(p) <= Resolve(reg, p).reg.Keys && Applies(reg2, p)
    decreases p, 1
  {
    AttemptFacts(reg, p);
    if p.Attr? {
      AttemptAllFacts(reg, p.parts);
      AttemptAllEval(reg, p.parts, reg2);
    }
  }

  lemma {:induction false} AttemptAllEval(reg: Registry, ps: seq<Param>, reg2: Registry)
    requires SolidRegistry(reg) && ClosedAll(ps) && ResolveAll(reg, ps).Done? && Extends(ResolveAll(reg, ps).reg, reg2)
    ensures ResolveAll(reg, ps).result == EvalAll(reg2, ps) && TargetsAll(ps) <= ResolveAll(reg, ps).reg.Keys
    ensures AppliesAll(reg2, ps)
    decreases ps, 0
  {
    if ps != [] {
      var one := Resolve(reg, ps[0]);
      AttemptFacts(reg, ps[0]);
      AttemptAllFacts(one.reg, ps[1..]);
      ExtendsOn(one.reg, ResolveAll(reg, ps).reg, reg2);
      AttemptEval(reg, ps[0], reg2);
      AttemptAllEval(one.reg, ps[1..], reg2);
    }
  }

  lemma {:induction false} AttemptSound(reg: Registry, p: Param)
    requires SolidRegistry(reg) && Closed(p) && Distinct(p) && Sound(reg, p) && !Resolve(reg, p).Crash?
    ensures Sound(Resolve(reg, p).reg, p)
    decreases p, 1
  {
    var r := Resolve(reg, p);
    AttemptFacts(reg, p);
    match p
    case Attr(name, register, _, parts) =>
      var inner := ResolveAll(reg, parts);
      AttemptAllFacts(reg, parts);
      AttemptAllSound(reg, parts);
      EarlyPartsAll(reg.Keys, parts, false);
      if r.Done? {
        AttemptEval(reg, p, r.reg);
        SoundGrowsAll(inner.reg, r.reg, parts);
      } else if register && name in r.reg {
        assert name in reg;
        EvalAgree(reg, r.reg, p);
      }
    case Ref(_) =>
    case Patch(_, _, _, _) =>
      if r.Done? {
        AttemptEval(reg, p, r.reg);
      }
  }

  lemma {:induction false} AttemptAllSound(reg: Registry, ps: seq<Param>)
    requires SolidRegistry(reg) && ClosedAll(ps) && DistinctAll(ps) && SoundAll(reg, ps) && !ResolveAll(reg, ps).Crash?
    ensures SoundAll(ResolveAll(reg, ps).reg, ps)
    decreases ps, 0
  {
    if ps != [] {
      var one := Resolve(reg, ps[0]);
      AttemptFacts(reg, ps[0]);
      AttemptSound(reg, ps[0]);
      EarlyParts(reg.Keys, ps[0], false);
      SoundGrowsAll(reg, one.reg, ps[1..]);
      if one.Done? {
        AttemptAllFacts(one.reg, ps[1..]);
        AttemptAllSound(one.reg, ps[1..]);
        EarlyPartsAll(one.reg.Keys, ps[1..], false);
        SoundGrows(one.reg, ResolveAll(reg, ps).reg, ps[0]);
      }
    }
  }

  // An attempt that neither fails for good nor registers anything has found that its patches apply.
  lemma {:induction false} AttemptApplies(reg: Registry, p: Param)
    requires SolidRegistry(reg) && Closed(p) && !Resolve(reg, p).Crash? && Resolve(reg, p).reg.Keys == reg.Keys
    ensures Applies(reg, p)
    decreases p, 1
  {
    if p.Attr? {
      AttemptAllFacts(reg, p.parts);
      AttemptAllApplies(reg, p.parts);
    }
  }

  lemma {:induction false} AttemptAllApplies(reg: Registry, ps: seq<Param>)
    requires SolidRegistry(reg) && ClosedAll(ps) && !ResolveAll(reg, ps).Crash?
    requires ResolveAll(reg, ps).reg.Keys == reg.Keys
    ensures AppliesAll(reg, ps)
    decreases ps, 0
  {
    if ps != [] {
      var one := Resolve(reg, ps[0]);
      AttemptFacts(reg, ps[0]);
      if one.Done? {
        AttemptAllFacts(one.reg, ps[1..]);
        assert one.reg == reg;
        AttemptAllApplies(reg, ps[1..]);
      }
      AttemptApplies(reg, ps[0]);
    }
  }

  lemma {:induction false} SoundFresh(reg: Registry, p: Param)
    requires Gives(p) !! reg.Keys
    ensures Sound(reg, p)
    decreases p, 1
  {
    if p.Attr? {
      SoundFreshAll(reg, p.parts);
    }
  }

  lemma {:induction false} SoundFreshAll(reg: Registry, ps: seq<Param>)
    requires GivesAll(ps) !! reg.Keys
    ensures SoundAll(reg, ps)
    decreases ps, 0
  {
    if ps != [] {
      SoundFresh(reg, ps[0]);
      SoundFreshAll(reg, ps[1..]);
    }
  }

  /** In a registry that is part of a sound one an attempt fails for good only over a name that is
      taken, and what it registers is part of the sound one, too. */
  lemma {:induction false} AttemptSafe(reg: Registry, p: Param, all: Registry)
    requires SolidRegistry(reg) && Extends(reg, all) && Closed(p) && Distinct(p) && Sound(all, p) && Applies(all, p)
    requires Early(reg.Keys, p) !! reg.Keys && Early(reg.Keys, p) <= all.Keys
    ensures !Resolve(reg, p).Crash? && Extends(Resolve(reg, p).reg, all)
    decreases p, 1
  {
    match p
    case Attr(name, register, _, parts) =>
      AttemptAllSafe(reg, parts, all);
      AttemptAllFacts(reg, parts);
      var inner := ResolveAll(reg, parts);
      if inner.Done? {
        EarlyPartsAll(reg.Keys, parts, false);
        AttemptAllEval(reg, parts, all);
      }
    case Ref(_) =>
    case Patch(_, _, _, _) =>
  }

  lemma {:induction false} AttemptAllSafe(reg: Registry, ps: seq<Param>, all: Registry)
    requires SolidRegistry(reg) && Extends(reg, all) && ClosedAll(ps) && DistinctAll(ps) && SoundAll(all, ps)
    requires AppliesAll(all, ps)
    requires EarlyAll(reg.Keys, ps) !! reg.Keys && EarlyAll(reg.Keys, ps) <= all.Keys
    ensures !ResolveAll(reg, ps).Crash? && Extends(ResolveAll(reg, ps).reg, all)
    decreases ps, 0
  {
    if ps != [] {
      var one := Resolve(reg, ps[0]);
      AttemptSafe(reg, ps[0], all);
      AttemptFacts(reg, ps[0]);
      if one.Done? {
        EarlyMet(reg.Keys, ps[0]);
        EarlyPartsAll(one.reg.Keys, ps[1..], false);
        AttemptAllSafe(one.reg, ps[1..], all);
      }
    }
  }

  // The attempt comes to a patch that does not apply.
  ghost predicate Misfit(reg: Registry, p: Param)
    decreases p, 1
  {
    match p
    case Attr(_, _, _, parts) => MisfitAmong(reg, parts)
    case Ref(_) => false
    case Patch(_, _, _, _) => !Fits(reg, p)
  }

  ghost predicate MisfitAmong(reg: Registry, ps: seq<Param>)
    decreases ps, 0
  {
    && ps != []
    && (|| Misfit(reg, ps[0])
        || (Resolve(reg, ps[0]).Done? && MisfitAmong(Resolve(reg, ps[0]).reg, ps[1..])))
  }

  lemma {:induction false} MisfitFails(reg: Registry, p: Param)
    requires Misfit(reg, p)
    ensures Resolve(reg, p).Crash?
    decreases p, 1
  {
    if p.Attr? {
      MisfitAmongFails(reg, p.parts);
    }
  }

  lemma {:induction false} MisfitAmongFails(reg: Registry, ps: seq<Param>)
    requires MisfitAmong(reg, ps)
    ensures ResolveAll(reg, ps).Crash?
    decreases ps, 0
  {
    if Misfit(reg, ps[0]) {
      MisfitFails(reg, ps[0]);
    } else {
      MisfitAmongFails(Resolve(reg, ps[0]).reg, ps[1..]);
    }
  }

  /** An attempt fails for good only at a patch that does not apply, or over a name that is taken. */
  lemma {:induction false} AttemptFree(reg: Registry, p: Param)
    requires SolidRegistry(reg) && Closed(p) && Distinct(p) && Early(reg.Keys, p) !! reg.Keys && !Misfit(reg, p)
    ensures !Resolve(reg, p).Crash?
    decreases p, 1
  {
    if p.Attr? {
      AttemptAllFree(reg, p.parts);
      AttemptAllFacts(reg, p.parts);
      EarlyPartsAll(reg.Keys, p.parts, false);
    }
  }

  lemma {:induction false} AttemptAllFree(reg: Registry, ps: seq<Param>)
    requires SolidRegistry(reg) && ClosedAll(ps) && DistinctAll(ps) && EarlyAll(reg.Keys, ps) !! reg.Keys
    requires !MisfitAmong(reg, ps)
    ensures !ResolveAll(reg, ps).Crash?
    decreases ps, 0
  {
    if ps != [] {
      var one := Resolve(reg, ps[0]);
      AttemptFree(reg, ps[0]);
      AttemptFacts(reg, ps[0]);
      if one.Done? {
        EarlyMet(reg.Keys, ps[0]);
        EarlyPartsAll(one.reg.Keys, ps[1..], false);
        AttemptAllFree(one.reg, ps[1..]);
      }
    }
  }

  // --- What an attempt leaves of the parameters ----------------------------------------------------------------------

  // `q` is `p` with some references replaced by what they refer to; replaced patches are registered.
  ghost predicate Progress(reg: Registry, p: Param, q: Param)
    decreases p, 1
  {
    || p == q
    || (&& !p.Attr? && p.target in reg && q == Eval(reg, p) && Plain(q)
        && (p.Patch? ==> Fits(reg, p) && (p.register ==> p.newName in reg && reg[p.newName] == q)))
    || (p.Attr? && q.Attr? && q == p.(parts := q.parts) && ProgressAll(reg, p.parts, q.parts))
  }

  ghost predicate ProgressAll(reg: Registry, ps: seq<Param>, qs: seq<Param>)
    decreases ps, 0
  {
    |ps| == |qs| && (ps != [] ==> Progress(reg, ps[0], qs[0]) && ProgressAll(reg, ps[1..], qs[1..]))
  }

  lemma {:induction false} ProgressRefl(reg: Registry, ps: seq<Param>)
    ensures ProgressAll(reg, ps, ps)
  {
    if ps != [] {
      ProgressRefl(reg, ps[1..]);
    }
  }

  lemma {:induction false} ProgressGrows(reg: Registry, reg2: Registry, p: Param, q: Param)
    requires Progress(reg, p, q) && Extends(reg, reg2)
    ensures Progress(reg2, p, q)
    decreases p, 1
  {
    if p != q && p.Attr? {
      ProgressGrowsAll(reg, reg2, p.parts, q.parts);
    }
  }

  lemma {:induction false} ProgressGrowsAll(reg: Registry, reg2: Registry, ps: seq<Param>, qs: seq<Param>)
    requires ProgressAll(reg, ps, qs) && Extends(reg, reg2)
    ensures ProgressAll(reg2, ps, qs)
    decreases ps, 0
  {
    if ps != [] {
      ProgressGrows(reg, reg2, ps[0], qs[0]);
      ProgressGrowsAll(reg, reg2, ps[1..], qs[1..]);
    }
  }

  // What is resolved already does not change any more.
  lemma {:induction false} PlainStays(reg: Registry, p: Param, q: Param)
    requires Plain(p) && Progress(reg, p, q)
    ensures q == p
    decreases p, 1
  {
    if p != q {
      PlainAllStays(reg, p.parts, q.parts);
    }
  }

  lemma {:induction false} PlainAllStays(reg: Registry, ps: seq<Param>, qs: seq<Param>)
    requires PlainAll(ps) && ProgressAll(reg, ps, qs)
    ensures qs == ps
    decreases ps, 0
  {
    if ps != [] {
      PlainStays(reg, ps[0], qs[0]);
      PlainAllStays(reg, ps[1..], qs[1..]);
      assert ps == [ps[0]] + ps[1..] && qs == [qs[0]] + qs[1..];
    }
  }

  lemma {:induction false} ProgressOn(reg: Registry, p: Param, q: Param, s: Param)
    requires Progress(reg, p, q) && Progress(reg, q, s)
    ensures Progress(reg, p, s)
    decreases p, 1
  {
    if p != q && q != s {
      if p.Attr? {
        ProgressOnAll(reg, p.parts, q.parts, s.parts);
      } else {
        PlainStays(reg, q, s);
      }
    }
  }

  lemma {:induction false} ProgressOnAll(reg: Registry, ps: seq<Param>, qs: seq<Param>, ss: seq<Param>)
    requires ProgressAll(reg, ps, qs) && ProgressAll(reg, qs, ss)
    ensures ProgressAll(reg, ps, ss)
    decreases ps, 0
  {
    if ps != [] {
      ProgressOn(reg, ps[0], qs[0], ss[0]);
      ProgressOnAll(reg, ps[1..], qs[1..], ss[1..]);
    }
  }

  /** Whatever the outcome, an attempt only replaces references by what they refer to. */
  lemma {:induction false} AttemptProgress(reg: Registry, p: Param)
    requires SolidRegistry(reg) && Closed(p) && !Resolve(reg, p).Crash?
    ensures Progress(Resolve(reg, p).reg, p, Resolve(reg, p).result)
    decreases p, 1
  {
    AttemptFacts(reg, p);
    if p.Attr? {
      AttemptAllProgress(reg, p.parts);
      AttemptAllFacts(reg, p.parts);
      ProgressGrowsAll(ResolveAll(reg, p.parts).reg, Resolve(reg, p).reg, p.parts, ResolveAll(reg, p.parts).result);
    } else if p.target in reg {
      LeafPlain(reg, p);
    }
  }

  lemma {:induction false} AttemptAllProgress(reg: Registry, ps: seq<Param>)
    requires SolidRegistry(reg) && ClosedAll(ps) && !ResolveAll(reg, ps).Crash?
    ensures ProgressAll(ResolveAll(reg, ps).reg, ps, ResolveAll(reg, ps).result)
    decreases ps, 0
  {
    if ps != [] {
      var one, r := Resolve(reg, ps[0]), ResolveAll(reg, ps);
      AttemptProgress(reg, ps[0]);
      AttemptFacts(reg, ps[0]);
      if one.Done? {
        AttemptAllProgress(one.reg, ps[1..]);
        AttemptAllFacts(one.reg, ps[1..]);
        ProgressGrows(one.reg, r.reg, ps[0], one.result);
        assert r.result[1..] == ResolveAll(one.reg, ps[1..]).result;
      } else {
        ProgressRefl(one.reg, ps[1..]);
        assert r.result[1..] == ps[1..];
      }
    }
  }

  // --- The changed parameters are as good as the original ones -------------------------------------------

  lemma {:induction false} ProgressNeeds(reg: Registry, known: set<string>, p: Param, q: Param)
    requires Progress(reg, p, q) && reg.Keys <= known
    ensures Gives(q) <= Gives(p) && known + Gives(q) == known + Gives(p) && (Needs(q) <= known <==> Needs(p) <= known)
    decreases p, 1
  {
    if p == q {
    } else if p.Attr? {
      ProgressAllNeeds(reg, known, p.parts, q.parts);
    } else {
      PlainSolid(q);
    }
  }

  lemma {:induction false} ProgressAllNeeds(reg: Registry, known: set<string>, ps: seq<Param>, qs: seq<Param>)
    requires ProgressAll(reg, ps, qs) && reg.Keys <= known
    ensures GivesAll(qs) <= GivesAll(ps) && known + GivesAll(qs) == known + GivesAll(ps)
    ensures NeedsAll(qs) <= known <==> NeedsAll(ps) <= known
    decreases ps, 0
  {
    if ps != [] {
      var p, q, ps', qs' := ps[0], qs[0], ps[1..], qs[1..];
      ProgressNeeds(reg, known, p, q);
      ProgressAllNeeds(reg, known + Gives(p), ps', qs');
      GivesCons(known, Gives(p), Gives(q), GivesAll(ps'), GivesAll(qs'));
      NeedsCons(known, Needs(p), Needs(q), Gives(p), Gives(q), NeedsAll(ps'), NeedsAll(qs'));
    }
  }

  lemma {:induction false} ProgressNames(reg: Registry, known: set<string>, p: Param, q: Param)
    requires Progress(reg, p, q) && reg.Keys <= known && Closed(p)
    ensures Gives(q) <= Gives(p) && known + Gives(q) == known + Gives(p) && (Needs(q) <= known <==> Needs(p) <= known)
    ensures known + Early(known, q) == known + Early(known, p) && Fatal(known, q, false) == Fatal(known, p, false)
    ensures Loose(q, false) <= Loose(p, false) && Closed(q)
    decreases p, 1
  {
    ProgressNeeds(reg, known, p, q);
    if p == q {
    } else if p.Attr? {
      ProgressAllNames(reg, known, p.parts, q.parts);
    } else {
      PlainSolid(q);
      EarlyParts(known, q, false);
    }
  }

  lemma {:induction false} ProgressAllNames(reg: Registry, known: set<string>, ps: seq<Param>, qs: seq<Param>)
    requires ProgressAll(reg, ps, qs) && reg.Keys <= known && ClosedAll(ps)
    ensures GivesAll(qs) <= GivesAll(ps) && known + GivesAll(qs) == known + GivesAll(ps)
    ensures (NeedsAll(qs) <= known <==> NeedsAll(ps) <= known)
    ensures known + EarlyAll(known, qs) == known + EarlyAll(known, ps)
    ensures FatalAll(known, qs, false) == FatalAll(known, ps, false)
    ensures LooseAll(qs, false) <= LooseAll(ps, false) && ClosedAll(qs)
    decreases ps, 0
  {
    ProgressAllNeeds(reg, known, ps, qs);
    if ps != [] {
      var p, q, ps', qs' := ps[0], qs[0], ps[1..], qs[1..];
      ProgressNames(reg, known, p, q);
      ProgressAllNames(reg, known + Gives(p), ps', qs');
      if Needs(p) <= known {
        EarlyMet(known, p);
        EarlyMet(known, q);
        GivesCons(known, Gives(p), Gives(q), EarlyAll(known + Gives(p), ps'), EarlyAll(known + Gives(q), qs'));
      }
    }
  }

  lemma {:induction false} GivesCons(known: set<string>, gp: set<string>, gq: set<string>, rp: set<string>,
                                     rq: set<string>)
    requires known + gq == known + gp && (known + gp) + rq == (known + gp) + rp
    ensures known + (gq + rq) == known + (gp + rp)
  {
    assert known + (gq + rq) == (known + gq) + rq && known + (gp + rp) == (known + gp) + rp;
  }

  lemma {:induction false} NeedsCons(known: set<string>, np: set<string>, nq: set<string>, gp: set<string>,
                                     gq: set<string>, rp: set<string>, rq: set<string>)
    requires known + gq == known + gp && (nq <= known <==> np <= known) && (rq <= known + gp <==> rp <= known + gp)
    ensures nq + (rq - gq) <= known <==> np + (rp - gp) <= known
  {
    LessGiven(known, gp, rp);
    LessGiven(known, gq, rq);
  }

  lemma {:induction false} LessGiven(known: set<string>, g: set<string>, r: set<string>)
    ensures r - g <= known <==> r <= known + g
  {
  }

  lemma {:induction false} ProgressDistinct(reg: Registry, p: Param, q: Param)
    requires Progress(reg, p, q) && Closed(p) && Distinct(p)
    ensures Distinct(q) && Gives(q) <= Gives(p)
    decreases p, 1
  {
    ProgressNames(reg, reg.Keys, p, q);
    if p == q {
    } else if p.Attr? {
      ProgressAllDistinct(reg, p.parts, q.parts);
    } else {
      PlainSolid(q);
    }
  }

  lemma {:induction false} ProgressAllDistinct(reg: Registry, ps: seq<Param>, qs: seq<Param>)
    requires ProgressAll(reg, ps, qs) && ClosedAll(ps) && DistinctAll(ps)
    ensures DistinctAll(qs) && GivesAll(qs) <= GivesAll(ps)
    decreases ps, 0
  {
    if ps != [] {
      ProgressDistinct(reg, ps[0], qs[0]);
      ProgressAllDistinct(reg, ps[1..], qs[1..]);
    }
  }

  lemma {:induction false} PlainMeaning(reg: Registry, p: Param)
    requires Plain(p)
    ensures Eval(reg, p) == p && Sound(reg, p) && Applies(reg, p)
    decreases p, 1
  {
    PlainAllMeaning(reg, p.parts);
  }

  lemma {:induction false} PlainAllMeaning(reg: Registry, ps: seq<Param>)
    requires PlainAll(ps)
    ensures EvalAll(reg, ps) == ps && SoundAll(reg, ps) && AppliesAll(reg, ps)
    decreases ps, 0
  {
    if ps != [] {
      PlainMeaning(reg, ps[0]);
      PlainAllMeaning(reg, ps[1..]);
      assert ps == [ps[0]] + ps[1..];
    }
  }

  lemma {:induction false} ProgressMeaning(reg: Registry, reg2: Registry, p: Param, q: Param)
    requires Progress(reg, p, q) && Extends(reg, reg2) && Closed(p)
    ensures Eval(reg2, q) == Eval(reg2, p) && Targets(q) <= Targets(p) <= Targets(q) + reg.Keys
    ensures (Sound(reg2, q) <==> Sound(reg2, p)) && (Applies(reg2, q) <==> Applies(reg2, p))
    decreases p, 1
  {
    if p == q {
    } else if p.Attr? {
      ProgressAllMeaning(reg, reg2, p.parts, q.parts);
    } else {
      PlainSolid(q);
      PlainMeaning(reg2, q);
    }
  }

  lemma {:induction false} ProgressAllMeaning(reg: Registry, reg2: Registry, ps: seq<Param>, qs: seq<Param>)
    requires ProgressAll(reg, ps, qs) && Extends(reg, reg2) && ClosedAll(ps)
    ensures EvalAll(reg2, qs) == EvalAll(reg2, ps) && TargetsAll(qs) <= TargetsAll(ps) <= TargetsAll(qs) + reg.Keys
    ensures (SoundAll(reg2, qs) <==> SoundAll(reg2, ps)) && (AppliesAll(reg2, qs) <==> AppliesAll(reg2, ps))
    decreases ps, 0
  {
    if ps != [] {
      ProgressMeaning(reg, reg2, ps[0], qs[0]);
      ProgressNames(reg, reg2.Keys, ps[0], qs[0]);
      ProgressAllMeaning(reg, reg2, ps[1..], qs[1..]);
    }
  }

  // --- The parameters of a method ------------------------------------------------------------------------

  // Parameters themselves are not replaced by a failed attempt.
  ghost predicate Outer(ps: seq<Param>, qs: seq<Param>) {
    |ps| == |qs| && forall i :: 0 <= i < |ps| && !ps[i].Attr? ==> qs[i] == ps[i]
  }

  lemma {:induction false} KeepOuterProgress(reg: Registry, ps: seq<Param>, changed: seq<Param>)
    requires ProgressAll(reg, ps, changed)
    ensures ProgressAll(reg, ps, KeepOuter(ps, changed)) && Outer(ps, KeepOuter(ps, changed))
  {
    if ps != [] {
      KeepOuterProgress(reg, ps[1..], changed[1..]);
      assert KeepOuter(ps, changed)[1..] == KeepOuter(ps[1..], changed[1..]);
    }
  }

  lemma {:induction false} OuterFatal(reg: Registry, known: set<string>, ps: seq<Param>, qs: seq<Param>)
    requires ProgressAll(reg, ps, qs) && Outer(ps, qs) && reg.Keys <= known && ClosedAll(ps)
    ensures FatalAll(known, qs, true) == FatalAll(known, ps, true)
    decreases |ps|
  {
    if ps != [] {
      ProgressNames(reg, known, ps[0], qs[0]);
      assert Outer(ps[1..], qs[1..]) by {
        assert forall i :: 0 <= i < |ps| - 1 ==> ps[1..][i] == ps[i + 1] && qs[1..][i] == qs[i + 1];
      }
      OuterFatal(reg, known + Gives(ps[0]), ps[1..], qs[1..]);
    }
  }

  // After a successful attempt no patch is left.
  lemma {:induction false} SolidNotLoose(p: Param, top: bool)
    requires Solid(p)
    ensures Loose(p, top) == {}
    decreases p, 1
  {
    SolidAllNotLoose(p.parts, false);
  }

  lemma {:induction false} SolidAllNotLoose(ps: seq<Param>, top: bool)
    requires SolidAll(ps)
    ensures LooseAll(ps, top) == {}
    decreases ps, 0
  {
    if ps != [] {
      SolidNotLoose(ps[0], top);
      SolidAllNotLoose(ps[1..], top);
    }
  }

  // Nested patches that were registered are gone from the parameters.
  lemma {:induction false} AttemptLoose(reg: Registry, p: Param)
    requires SolidRegistry(reg) && Closed(p) && Distinct(p) && !Resolve(reg, p).Crash? && Loose(p, false) !! reg.Keys
    ensures Loose(Resolve(reg, p).result, false) !! Resolve(reg, p).reg.Keys
    decreases p, 1
  {
    AttemptFacts(reg, p);
    if Resolve(reg, p).Done? {
      SolidNotLoose(Resolve(reg, p).result, false);
    } else if p.Attr? {
      AttemptAllFacts(reg, p.parts);
      AttemptAllLoose(reg, p.parts);
    }
  }

  lemma {:induction false} AttemptAllLoose(reg: Registry, ps: seq<Param>)
    requires SolidRegistry(reg) && ClosedAll(ps) && DistinctAll(ps) && !ResolveAll(reg, ps).Crash?
    requires LooseAll(ps, false) !! reg.Keys
    ensures LooseAll(ResolveAll(reg, ps).result, false) !! ResolveAll(reg, ps).reg.Keys
    decreases ps, 0
  {
    if ps != [] {
      var one, r := Resolve(reg, ps[0]), ResolveAll(reg, ps);
      AttemptFacts(reg, ps[0]);
      AttemptLoose(reg, ps[0]);
      EarlyParts(reg.Keys, ps[0], false);
      EarlyPartsAll(reg.Keys, ps[1..], false);
      if one.Done? {
        SolidNotLoose(one.result, false);
        AttemptAllLoose(one.reg, ps[1..]);
        assert r.result[1..] == ResolveAll(one.reg, ps[1..]).result;
      } else {
        assert r.result[1..] == ps[1..];
      }
    }
  }

  lemma {:induction false} OuterLoose(reg: Registry, ps: seq<Param>)
    requires SolidRegistry(reg) && ClosedAll(ps) && DistinctAll(ps) && !ResolveAll(reg, ps).Crash?
    requires LooseAll(ps, true) !! reg.Keys
    ensures LooseAll(KeepOuter(ps, ResolveAll(reg, ps).result), true) !! ResolveAll(reg, ps).reg.Keys
    decreases |ps|
  {
    if ps != [] {
      var one, r := Resolve(reg, ps[0]), ResolveAll(reg, ps);
      var kept := KeepOuter(ps, r.result);
      AttemptFacts(reg, ps[0]);
      if ps[0].Attr? {
        AttemptLoose(reg, ps[0]);
      }
      EarlyParts(reg.Keys, ps[0], true);
      EarlyPartsAll(reg.Keys, ps[1..], true);
      assert kept[1..] == KeepOuter(ps[1..], r.result[1..]);
      if one.Done? {
        SolidNotLoose(one.result, true);
        OuterLoose(one.reg, ps[1..]);
        assert r.result[1..] == ResolveAll(one.reg, ps[1..]).result;
      } else {
        assert r.result[1..] == ps[1..];
        assert KeepOuter(ps[1..], ps[1..]) == ps[1..];
      }
    }
  }
}
