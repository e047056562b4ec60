/**
 The loop that resolves all methods: passes over the methods that are left, each trying every one
 of them against the shared registry, until none is left or a pass resolves none.
 */
module MethodResolver {
  import opened NameRuns
  import opened Registration
  import opened Resolver
  import opened Wrappers

  // The state of a pass: what was tried and is left, and how many methods were resolved.
  datatype State = State(crashed: bool, reg: Registry, accepts: seq<Method>, left: seq<nat>, resolved: nat)

  datatype Result = Resolved(reg: Registry, accepts: seq<Method>) | NotAllResolved | Crashed

  function TryOne(s: State, m: nat): (s': State)
    requires m < |s.accepts| && !s.crashed
    ensures |s'.accepts| == |s.accepts|
  {
    match ResolveAll(s.reg, s.accepts[m])
    case Crash => s.(crashed := true)
    case Blocked(r, ps) => s.(reg := r, accepts := s.accepts[m := KeepOuter(s.accepts[m], ps)], left := s.left + [m])
    case Done(r, ps) => s.(reg := r, accepts := s.accepts[m := ps], resolved := s.resolved + 1)
  }

  function RunPass(s: State, rest: seq<nat>): (s': State)
    requires InRange(s.accepts, rest) && InRange(s.accepts, s.left)
    ensures |s'.accepts| == |s.accepts| && InRange(s'.accepts, s'.left)
    ensures !s'.crashed ==> |s'.left| + s'.resolved == |s.left| + s.resolved + |rest|
    decreases |rest|
  {
    if rest == [] || s.crashed then s else RunPass(TryOne(s, rest[0]), rest[1..])
  }

  function RunPasses(reg: Registry, accepts: seq<Method>, left: seq<nat>): Result
    requires InRange(accepts, left)
    decreases |left|
  {
    if left == [] then Resolved(reg, accepts)
    else
      var s := RunPass(State(false, reg, accepts, [], 0), left);
      if s.crashed then Crashed
      else if s.resolved == 0 then NotAllResolved
      else RunPasses(s.reg, s.accepts, s.left)
  }

  function Indices(n: nat): (r: seq<nat>)
    ensures |r| == n && forall k :: 0 <= k < n ==> r[k] == k
  {
    seq(n, k => k)
  }

  // --- Invariant -----------------------------------------------------------------------------------------

  /** What the loop takes for granted: registered schemas are resolved, patches add resolved
      attributes, and no name is registered twice. */
  ghost predicate WellFormed(init: Registry, ms: seq<Method>) {
    SolidRegistry(init) && DistinctNames(init.Keys, ms) && forall i :: 0 <= i < |ms| ==> ClosedAll(ms[i])
  }

  // The parameters `c` are what failed attempts have left of `m`.
  ghost predicate Pending(reg: Registry, m: Method, c: Method) {
    ProgressAll(reg, m, c) && Outer(m, c) && LooseAll(c, true) !! reg.Keys
  }

  // The parameters `c` are `m`, resolved.
  ghost predicate Settled(reg: Registry, m: Method, c: Method) {
    c == EvalAll(reg, m) && TargetsAll(m) <= reg.Keys && GivesAll(m) <= reg.Keys && AppliesAll(reg, m)
  }

  ghost predicate Going(init: Registry, ms: seq<Method>, reg: Registry, accepts: seq<Method>, pending: seq<nat>) {
    && |accepts| == |ms| && SolidRegistry(reg) && Extends(init, reg)
    && (forall i :: 0 <= i < |ms| ==> SoundAll(reg, ms[i]))
    && (forall i :: 0 <= i < |ms| && i in pending ==> Pending(reg, ms[i], accepts[i]))
    && (forall i :: 0 <= i < |ms| && i !in pending ==> Settled(reg, ms[i], accepts[i]))
  }

  // A schema for every name that can be registered, each as its definition says, and all patches apply.
  ghost predicate Universe(init: Registry, ms: seq<Method>, all: Registry) {
    && Extends(init, all) && Saturated(init.Keys, ms, all.Keys)
    && forall i :: 0 <= i < |ms| ==> SoundAll(all, ms[i]) && AppliesAll(all, ms[i])
  }

  ghost predicate SchemasFit(init: Registry, ms: seq<Method>) {
    exists all :: Universe(init, ms, all)
  }

  // --- One attempt ------------------------------------------------------------------------------------------

  /** What an attempt on the changed parameters does is foretold by the names in the original ones. */
  lemma {:induction false} AttemptNames(reg: Registry, m: Method, c: Method)
    requires SolidRegistry(reg) && ClosedAll(m) && Pending(reg, m, c) && !ResolveAll(reg, c).Crash?
    ensures var r, known := ResolveAll(reg, c), reg.Keys;
            && !Clash(known, m) && (r.Done? <==> NeedsAll(m) <= known) && Extends(reg, r.reg) && SolidRegistry(r.reg)
            && r.reg.Keys == known + EarlyAll(known, m) && (r.Done? ==> r.reg.Keys == known + GivesAll(m))
  {
    ProgressAllNames(reg, reg.Keys, m, c);
    AttemptAllFacts(reg, c);
    OuterFatal(reg, reg.Keys, m, c);
    EarlyPartsAll(reg.Keys, c, true);
    if NeedsAll(m) <= reg.Keys {
      EarlyMetAll(reg.Keys, m);
    }
  }

  lemma {:induction false} AttemptOwn(reg: Registry, m: Method, c: Method)
    requires SolidRegistry(reg) && ClosedAll(m) && DistinctAll(m) && Pending(reg, m, c) && SoundAll(reg, m)
    requires !ResolveAll(reg, c).Crash?
    ensures var r := ResolveAll(reg, c);
            && SoundAll(r.reg, m) && (r.Done? ==> Settled(r.reg, m, r.result))
            && (r.Blocked? ==> Pending(r.reg, m, KeepOuter(c, r.result)))
  {
    var r := ResolveAll(reg, c);
    AttemptNames(reg, m, c);
    ProgressAllNames(reg, reg.Keys, m, c);
    ProgressAllDistinct(reg, m, c);
    ProgressAllMeaning(reg, reg, m, c);
    ProgressAllMeaning(reg, r.reg, m, c);
    AttemptAllSound(reg, c);
    if r.Done? {
      AttemptAllEval(reg, c, r.reg);
    } else {
      AttemptWaits(reg, m, c);
    }
  }

  lemma {:induction false} AttemptWaits(reg: Registry, m: Method, c: Method)
    requires SolidRegistry(reg) && ClosedAll(c) && DistinctAll(c) && Pending(reg, m, c) && ResolveAll(reg, c).Blocked?
    ensures Pending(ResolveAll(reg, c).reg, m, KeepOuter(c, ResolveAll(reg, c).result))
  {
    var r := ResolveAll(reg, c);
    AttemptAllFacts(reg, c);
    AttemptAllProgress(reg, c);
    KeepOuterProgress(r.reg, c, r.result);
    ProgressGrowsAll(reg, r.reg, m, c);
    ProgressOnAll(r.reg, m, c, KeepOuter(c, r.result));
    OuterLoose(reg, c);
  }

  // The attempt of one method does not matter to the others.
  lemma {:induction false} OtherStays(reg: Registry, reg2: Registry, m: Method, c: Method)
    requires ClosedAll(m) && Extends(reg, reg2) && (forall n :: n in GivesAll(m) && n in reg2 ==> n in reg)
    requires SoundAll(reg, m)
    ensures SoundAll(reg2, m)
    ensures Pending(reg, m, c) ==> Pending(reg2, m, c)
    ensures Settled(reg, m, c) ==> Settled(reg2, m, c)
  {
    SoundGrowsAll(reg, reg2, m);
    if Pending(reg, m, c) {
      ProgressGrowsAll(reg, reg2, m, c);
      ProgressAllNames(reg, reg.Keys, m, c);
      EarlyPartsAll(reg.Keys, c, true);
    }
    if Settled(reg, m, c) {
      EvalAgreeAll(reg, reg2, m);
      AppliesGrowsAll(reg, reg2, m);
    }
  }

  lemma {:induction false} AppliesGrows(reg: Registry, reg2: Registry, p: Param)
    requires Applies(reg, p) && Extends(reg, reg2) && Targets(p) <= reg.Keys
    ensures Applies(reg2, p)
    decreases p, 1
  {
    if p.Attr? {
      AppliesGrowsAll(reg, reg2, p.parts);
    }
  }

  lemma {:induction false} AppliesGrowsAll(reg: Registry, reg2: Registry, ps: seq<Param>)
    requires AppliesAll(reg, ps) && Extends(reg, reg2) && TargetsAll(ps) <= reg.Keys
    ensures AppliesAll(reg2, ps)
    decreases ps, 0
  {
    if ps != [] {
      AppliesGrows(reg, reg2, ps[0]);
      TargetsSplit(ps[0]);
      AppliesGrowsAll(reg, reg2, ps[1..]);
    }
  }

  /** Where schemas fit together, an attempt fails for good only if it registers a name again. */
  lemma {:induction false} AttemptFits(reg: Registry, m: Method, c: Method, all: Registry)
    requires SolidRegistry(reg) && ClosedAll(m) && DistinctAll(m) && Pending(reg, m, c)
    requires Extends(reg, all) && SoundAll(all, m) && AppliesAll(all, m) && EarlyAll(all.Keys, m) <= all.Keys
    ensures ResolveAll(reg, c).Crash? <==> Clash(reg.Keys, m)
    ensures !ResolveAll(reg, c).Crash? ==> Extends(ResolveAll(reg, c).reg, all)
  {
    if Clash(reg.Keys, m) {
      if !ResolveAll(reg, c).Crash? {
        AttemptNames(reg, m, c);
      }
    } else {
      ProgressAllNames(reg, reg.Keys, m, c);
      ProgressAllDistinct(reg, m, c);
      ProgressAllMeaning(reg, all, m, c);
      OuterFatal(reg, reg.Keys, m, c);
      EarlyPartsAll(reg.Keys, c, true);
      EarlyMonoAll(reg.Keys, all.Keys, m, true);
      AttemptAllSafe(reg, c, all);
    }
  }

  /** An attempt fails for good if and only if it registers a name again or comes to a patch that does
      not apply. */
  lemma {:induction false} AttemptVerdict(reg: Registry, m: Method, c: Method)
    requires SolidRegistry(reg) && ClosedAll(m) && DistinctAll(m) && Pending(reg, m, c)
    ensures ResolveAll(reg, c).Crash? <==> Clash(reg.Keys, m) || MisfitAmong(reg, c)
  {
    if MisfitAmong(reg, c) {
      MisfitAmongFails(reg, c);
    } else if !Clash(reg.Keys, m) {
      ProgressAllNames(reg, reg.Keys, m, c);
      ProgressAllDistinct(reg, m, c);
      OuterFatal(reg, reg.Keys, m, c);
      EarlyPartsAll(reg.Keys, c, true);
      AttemptAllFree(reg, c);
    } else if !ResolveAll(reg, c).Crash? {
      AttemptNames(reg, m, c);
    }
  }

  // --- The loop follows the run on names -------------------------------------------------------------------------

  lemma {:induction false} GoingOn(init: Registry, ms: seq<Method>, reg: Registry, accepts: seq<Method>,
                                   pending: seq<nat>,
                                   i: nat, reg2: Registry, c: Method, pending2: seq<nat>)
    requires WellFormed(init, ms) && Going(init, ms, reg, accepts, pending) && i < |ms|
    requires Extends(reg, reg2) && SolidRegistry(reg2) && reg2.Keys <= reg.Keys + GivesAll(ms[i])
    requires SoundAll(reg2, ms[i])
    requires forall j :: j != i ==> (j in pending2 <==> j in pending)
    requires if i in pending2 then Pending(reg2, ms[i], c) else Settled(reg2, ms[i], c)
    ensures Going(init, ms, reg2, accepts[i := c], pending2)
  {
    ExtendsOn(init, reg, reg2);
    forall j | 0 <= j < |ms| && j != i
      ensures SoundAll(reg2, ms[j])
      ensures if j in pending2 then Pending(reg2, ms[j], accepts[j]) else Settled(reg2, ms[j], accepts[j])
    {
      Apart(init.Keys, ms, i, j);
      OtherStays(reg, reg2, ms[j], accepts[j]);
    }
  }

  // The loop is where the run on names is.
  ghost predicate Follows(init: Registry, ms: seq<Method>, s: State, d: Dry, rest: seq<nat>) {
    && !s.crashed && !d.clash && s.reg.Keys == d.known && s.left == d.left && s.resolved == d.resolved
    && InRange(ms, s.left) && InRange(ms, rest) && Unique(s.left + rest)
    && Going(init, ms, s.reg, s.accepts, s.left + rest)
  }

  lemma {:induction false} TryFollows(init: Registry, ms: seq<Method>, s: State, d: Dry, rest: seq<nat>, all: Registry)
    requires WellFormed(init, ms) && rest != [] && Follows(init, ms, s, d, rest)
    ensures var s', d' := TryOne(s, rest[0]), DryTry(d, ms, rest[0]);
            && (!s'.crashed ==> Follows(init, ms, s', d', rest[1..]))
            && (Universe(init, ms, all) && Extends(s.reg, all) ==>
                  (s'.crashed <==> d'.clash) && (!s'.crashed ==> Extends(s'.reg, all)))
  {
    var i := rest[0];
    assert (s.left + rest)[|s.left|] == i;
    var c, r := s.accepts[i], ResolveAll(s.reg, s.accepts[i]);
    if Universe(init, ms, all) && Extends(s.reg, all) {
      AttemptFits(s.reg, ms[i], c, all);
    }
    if !r.Crash? {
      AttemptNames(s.reg, ms[i], c);
      AttemptOwn(s.reg, ms[i], c);
      EarlyPartsAll(s.reg.Keys, ms[i], true);
      Removed(s.left, rest);
      assert (s.left + [i]) + rest[1..] == s.left + rest;
      if r.Done? {
        GoingOn(init, ms, s.reg, s.accepts, s.left + rest, i, r.reg, r.result, s.left + rest[1..]);
      } else {
        GoingOn(init, ms, s.reg, s.accepts, s.left + rest, i, r.reg, KeepOuter(c, r.result), s.left + rest);
      }
    }
  }

  lemma {:induction false} PassFollows(init: Registry, ms: seq<Method>, s: State, d: Dry, rest: seq<nat>, all: Registry)
    requires WellFormed(init, ms) && Follows(init, ms, s, d, rest)
    ensures var s', d' := RunPass(s, rest), DryPass(d, ms, rest);
            && (!s'.crashed ==> Follows(init, ms, s', d', []))
            && (Universe(init, ms, all) && Extends(s.reg, all) ==>
                  (s'.crashed <==> d'.clash) && (!s'.crashed ==> Extends(s'.reg, all)))
    decreases |rest|
  {
    if rest != [] {
      TryFollows(init, ms, s, d, rest, all);
      if !TryOne(s, rest[0]).crashed {
        PassFollows(init, ms, TryOne(s, rest[0]), DryTry(d, ms, rest[0]), rest[1..], all);
      }
    }
  }

  // An attempt of the pass, or of the run, comes to a patch that does not apply.
  ghost predicate PassMisfit(s: State, rest: seq<nat>)
    requires InRange(s.accepts, rest)
    decreases |rest|
  {
    && rest != [] && !s.crashed
    && (MisfitAmong(s.reg, s.accepts[rest[0]]) || PassMisfit(TryOne(s, rest[0]), rest[1..]))
  }

  ghost predicate RunMisfit(reg: Registry, accepts: seq<Method>, left: seq<nat>)
    requires InRange(accepts, left)
    decreases |left|
  {
    && left != []
    && var start := State(false, reg, accepts, [], 0);
       var s := RunPass(start, left);
       PassMisfit(start, left) || (!s.crashed && s.resolved > 0 && RunMisfit(s.reg, s.accepts, s.left))
  }

  lemma {:induction false} TryVerdict(init: Registry, ms: seq<Method>, s: State, d: Dry, rest: seq<nat>)
    requires WellFormed(init, ms) && rest != [] && Follows(init, ms, s, d, rest)
    ensures TryOne(s, rest[0]).crashed <==> DryTry(d, ms, rest[0]).clash || MisfitAmong(s.reg, s.accepts[rest[0]])
  {
    var i := rest[0];
    assert (s.left + rest)[|s.left|] == i;
    AttemptVerdict(s.reg, ms[i], s.accepts[i]);
  }

  lemma {:induction false} PassVerdict(init: Registry, ms: seq<Method>, s: State, d: Dry, rest: seq<nat>)
    requires WellFormed(init, ms) && Follows(init, ms, s, d, rest)
    ensures RunPass(s, rest).crashed <==> DryPass(d, ms, rest).clash || PassMisfit(s, rest)
    decreases |rest|
  {
    if rest != [] {
      var s', d' := TryOne(s, rest[0]), DryTry(d, ms, rest[0]);
      TryVerdict(init, ms, s, d, rest);
      if !s'.crashed {
        TryFollows(init, ms, s, d, rest, map[]);
        PassVerdict(init, ms, s', d', rest[1..]);
      }
    }
  }

  /** From any point on the loop fails if and only if the run on names does, or an attempt comes to a
      patch that does not apply. */
  lemma {:induction false} RunVerdict(init: Registry, ms: seq<Method>, reg: Registry, accepts: seq<Method>,
                                      left: seq<nat>)
    requires WellFormed(init, ms) && Going(init, ms, reg, accepts, left) && Running(init.Keys, ms, reg.Keys, left)
    ensures RunPasses(reg, accepts, left).Crashed? <==>
            DryPasses(reg.Keys, ms, left) == Failed || RunMisfit(reg, accepts, left)
    decreases |left|
  {
    if left != [] {
      var s, d := State(false, reg, accepts, [], 0), Dry(false, reg.Keys, [], 0);
      assert [] + left == left;
      PassVerdict(init, ms, s, d, left);
      PassFollows(init, ms, s, d, left, map[]);
      var s', d' := RunPass(s, left), DryPass(d, ms, left);
      if !s'.crashed {
        PassRunning(init.Keys, ms, d, left);
        assert s'.left + [] == s'.left;
        if s'.resolved > 0 {
          RunVerdict(init, ms, s'.reg, s'.accepts, s'.left);
        }
      }
    }
  }

  /** A registry that holds exactly what the methods register, each schema as its definition says in
      that very registry. */
  ghost predicate Complete(init: Registry, ms: seq<Method>, reg: Registry) {
    && Extends(init, reg) && Attained(init.Keys, ms, reg.Keys)
    && forall i :: 0 <= i < |ms| ==> SoundAll(reg, ms[i]) && GivesAll(ms[i]) <= reg.Keys
  }

  ghost predicate AllSettled(ms: seq<Method>, reg: Registry, accepts: seq<Method>) {
    |accepts| == |ms| && forall i :: 0 <= i < |ms| ==> Settled(reg, ms[i], accepts[i])
  }

  /** From any point on the loop ends as the run on names does, unless a patch does not apply. */
  lemma {:induction false} RunFollows(init: Registry, ms: seq<Method>, reg: Registry, accepts: seq<Method>,
                                      left: seq<nat>, all: Registry)
    requires WellFormed(init, ms) && Going(init, ms, reg, accepts, left) && Running(init.Keys, ms, reg.Keys, left)
    ensures var r, v := RunPasses(reg, accepts, left), DryPasses(reg.Keys, ms, left);
            && (!r.Crashed? ==> (r.Resolved? <==> v == AllResolved) && (r.NotAllResolved? <==> v == SomeLeft))
            && (r.Resolved? ==> Complete(init, ms, r.reg) && AllSettled(ms, r.reg, r.accepts))
            && (Universe(init, ms, all) && Extends(reg, all) ==> (r.Crashed? <==> v == Failed))
    decreases |left|
  {
    if left != [] {
      var s, d := State(false, reg, accepts, [], 0), Dry(false, reg.Keys, [], 0);
      assert [] + left == left;
      PassFollows(init, ms, s, d, left, all);
      var s', d' := RunPass(s, left), DryPass(d, ms, left);
      if !s'.crashed {
        PassRunning(init.Keys, ms, d, left);
        assert s'.left + [] == s'.left;
        if s'.resolved > 0 {
          RunFollows(init, ms, s'.reg, s'.accepts, s'.left, all);
        }
      }
    }
  }

  lemma {:induction false} Start(init: Registry, ms: seq<Method>)
    requires WellFormed(init, ms)
    ensures var all := Indices(|ms|);
            && InRange(ms, all) && Unique(all) && (forall i :: 0 <= i < |ms| ==> i in all)
            && Going(init, ms, init, ms, all) && Running(init.Keys, ms, init.Keys, all)
  {
    var all := Indices(|ms|);
    forall i | 0 <= i < |ms| ensures i in all && SoundAll(init, ms[i]) && Pending(init, ms[i], ms[i]) {
      assert all[i] == i;
      SoundFreshAll(init, ms[i]);
      ProgressRefl(init, ms[i]);
      EarlyPartsAll(init.Keys, ms[i], true);
    }
  }

  lemma {:induction false} ResolvedFits(init: Registry, ms: seq<Method>, reg: Registry, accepts: seq<Method>)
    requires Complete(init, ms, reg) && AllSettled(ms, reg, accepts)
    ensures Universe(init, ms, reg)
  {
    forall i | 0 <= i < |ms| ensures EarlyAll(reg.Keys, ms[i]) <= reg.Keys {
      EarlyPartsAll(reg.Keys, ms[i], true);
    }
  }

  /** The outcome for every list of methods, in the given order: all are resolved if and only if the
      schemas fit together and the run on names resolves all; the loop fails if and only if the run on
      names does or an attempt comes to a patch that does not apply; otherwise it gives up. Where
      schemas fit, it ends just as the run on names does. */
  lemma {:induction false} LoopVerdict(init: Registry, ms: seq<Method>)
    requires WellFormed(init, ms)
    ensures var r, v := RunPasses(init, ms, Indices(|ms|)), DryPasses(init.Keys, ms, Indices(|ms|));
            && (r.Resolved? <==> SchemasFit(init, ms) && v == AllResolved)
            && InRange(ms, Indices(|ms|)) && (r.Crashed? <==> v == Failed || RunMisfit(init, ms, Indices(|ms|)))
            && (r.NotAllResolved? <==> v == SomeLeft && !RunMisfit(init, ms, Indices(|ms|)))
            && (SchemasFit(init, ms) ==> (r.Crashed? <==> v == Failed))
            && (v == AllResolved && !SchemasFit(init, ms) ==> r.Crashed?)
            && (r.Resolved? ==> Complete(init, ms, r.reg) && AllSettled(ms, r.reg, r.accepts))
  {
    Start(init, ms);
    var r := RunPasses(init, ms, Indices(|ms|));
    RunFollows(init, ms, init, ms, Indices(|ms|), map[]);
    RunVerdict(init, ms, init, ms, Indices(|ms|));
    if SchemasFit(init, ms) {
      var all :| Universe(init, ms, all);
      RunFollows(init, ms, init, ms, Indices(|ms|), all);
    }
    if r.Resolved? {
      ResolvedFits(init, ms, r.reg, r.accepts);
    }
  }

  /** All methods are resolved if and only if the schemas fit, the least fixed point covers all needs,
      and no attempt stumbles and no pass registers without resolving. */
  lemma {:induction false} MethodsOutcome(init: Registry, ms: seq<Method>)
    requires WellFormed(init, ms)
    ensures RunPasses(init, ms, Indices(|ms|)).Resolved? <==>
            && SchemasFit(init, ms) && Resolvable(init.Keys, ms)
            && InRange(ms, Indices(|ms|)) && !Trouble(init.Keys, ms, Indices(|ms|))
  {
    Start(init, ms);
    LoopVerdict(init, ms);
    DryVerdict(init.Keys, ms, Indices(|ms|));
  }

  /** A method that has registered an attribute, or a patch that is a parameter, before it had to wait
      is never resolved, whatever the state of the loop. */
  lemma {:induction false} StumbledForGood(init: Registry, ms: seq<Method>, reg: Registry, accepts: seq<Method>,
                                           left: seq<nat>, k: nat)
    requires WellFormed(init, ms) && Going(init, ms, reg, accepts, left) && Running(init.Keys, ms, reg.Keys, left)
    requires k < |left| && Clash(reg.Keys, ms[left[k]])
    ensures !RunPasses(reg, accepts, left).Resolved?
  {
    RunFollows(init, ms, reg, accepts, left, map[]);
    DoomedForever(reg.Keys, ms, left);
  }

  // --- Lists without trouble -----------------------------------------------------------------------------------------

  lemma {:induction false} IdleTry(reg: Registry, m: Method, c: Method)
    requires SolidRegistry(reg) && ClosedAll(m) && Pending(reg, m, c) && !ResolveAll(reg, c).Crash?
    requires ResolveAll(reg, c).reg.Keys == reg.Keys
    ensures ResolveAll(reg, c).reg == reg && AppliesAll(reg, m)
  {
    ProgressAllNames(reg, reg.Keys, m, c);
    AttemptAllFacts(reg, c);
    AttemptAllApplies(reg, c);
    ProgressAllMeaning(reg, reg, m, c);
  }

  // The patches of the methods tried in a pass that changed nothing do apply.
  lemma {:induction false} IdlePass(init: Registry, ms: seq<Method>, s: State, d: Dry, rest: seq<nat>)
    requires WellFormed(init, ms) && Follows(init, ms, s, d, rest) && !RunPass(s, rest).crashed
    requires DryPass(d, ms, rest).known == d.known
    ensures RunPass(s, rest).reg == s.reg && forall k :: 0 <= k < |rest| ==> AppliesAll(s.reg, ms[rest[k]])
    decreases |rest|
  {
    if rest != [] {
      var s', d' := TryOne(s, rest[0]), DryTry(d, ms, rest[0]);
      IdleDry(d, ms, rest);
      TryFollows(init, ms, s, d, rest, map[]);
      IdleFirst(init, ms, s, d, rest);
      IdlePass(init, ms, s', d', rest[1..]);
      forall k | 0 <= k < |rest| ensures AppliesAll(s.reg, ms[rest[k]]) {
        if k > 0 {
          assert rest[k] == rest[1..][k - 1];
        }
      }
    }
  }

  lemma {:induction false} IdleDry(d: Dry, ms: seq<Method>, rest: seq<nat>)
    requires InRange(ms, rest) && InRange(ms, d.left) && rest != [] && !d.clash && DryPass(d, ms, rest).known == d.known
    ensures var d' := DryTry(d, ms, rest[0]);
            InRange(ms, d'.left) && d'.known == d.known == DryPass(d', ms, rest[1..]).known
  {
  }

  lemma {:induction false} IdleFirst(init: Registry, ms: seq<Method>, s: State, d: Dry, rest: seq<nat>)
    requires WellFormed(init, ms) && rest != [] && Follows(init, ms, s, d, rest)
    requires !TryOne(s, rest[0]).crashed && TryOne(s, rest[0]).reg.Keys == s.reg.Keys
    ensures TryOne(s, rest[0]).reg == s.reg && AppliesAll(s.reg, ms[rest[0]])
  {
    assert (s.left + rest)[|s.left|] == rest[0];
    IdleTry(s.reg, ms[rest[0]], s.accepts[rest[0]]);
  }

  // A pass that neither resolves nor registers anything has found a universe.
  lemma {:induction false} StuckFits(init: Registry, ms: seq<Method>, reg: Registry, accepts: seq<Method>,
                                     left: seq<nat>)
    requires WellFormed(init, ms) && Going(init, ms, reg, accepts, left) && Running(init.Keys, ms, reg.Keys, left)
    requires AllWait(ms, reg.Keys, left) && forall k :: 0 <= k < |left| ==> AppliesAll(reg, ms[left[k]])
    ensures Universe(init, ms, reg)
  {
    WaitingIsSaturated(init.Keys, ms, reg.Keys, left);
    forall i | 0 <= i < |ms| ensures AppliesAll(reg, ms[i]) {
      if i in left {
        var k :| 0 <= k < |left| && left[k] == i;
      }
    }
  }

  // A pass of a run that does not fail, with what is left of it.
  lemma {:induction false} CalmStep(init: Registry, ms: seq<Method>, reg: Registry, accepts: seq<Method>,
                                    left: seq<nat>)
    requires WellFormed(init, ms) && Going(init, ms, reg, accepts, left) && Running(init.Keys, ms, reg.Keys, left)
    requires Untaken(ms, reg.Keys, left) && !Trouble(reg.Keys, ms, left) && left != []
    requires !RunPass(State(false, reg, accepts, [], 0), left).crashed
    ensures var s := RunPass(State(false, reg, accepts, [], 0), left);
            && (s.resolved == 0 ==> Universe(init, ms, reg))
            && (s.resolved > 0 ==>
                  && Going(init, ms, s.reg, s.accepts, s.left) && Running(init.Keys, ms, s.reg.Keys, s.left)
                  && Untaken(ms, s.reg.Keys, s.left) && !Trouble(s.reg.Keys, ms, s.left))
  {
    var s, d := State(false, reg, accepts, [], 0), Dry(false, reg.Keys, [], 0);
    assert [] + left == left;
    PassFollows(init, ms, s, d, left, map[]);
    CalmPass(init.Keys, ms, d, left);
    PassRunning(init.Keys, ms, d, left);
    var s' := RunPass(s, left);
    assert s'.left + [] == s'.left;
    if s'.resolved == 0 {
      IdlePass(init, ms, s, d, left);
      StuckFits(init, ms, reg, accepts, left);
    }
  }

  lemma {:induction false} CalmFits(init: Registry, ms: seq<Method>, reg: Registry, accepts: seq<Method>,
                                    left: seq<nat>)
    requires WellFormed(init, ms) && Going(init, ms, reg, accepts, left) && Running(init.Keys, ms, reg.Keys, left)
    requires Untaken(ms, reg.Keys, left) && !Trouble(reg.Keys, ms, left) && !RunPasses(reg, accepts, left).Crashed?
    ensures SchemasFit(init, ms)
    decreases |left|
  {
    if left == [] {
      RunFollows(init, ms, reg, accepts, left, map[]);
      ResolvedFits(init, ms, reg, accepts);
    } else {
      CalmStep(init, ms, reg, accepts, left);
      var s := RunPass(State(false, reg, accepts, [], 0), left);
      if s.resolved > 0 {
        CalmFits(init, ms, s.reg, s.accepts, s.left);
      }
    }
  }

  /** Without trouble, in particular for ordered methods, the three outcomes are told apart exactly: the
      loop fails if and only if the schemas do not fit, and otherwise resolves all methods if and only
      if the least fixed point covers all needs. */
  lemma {:induction false} CalmVerdict(init: Registry, ms: seq<Method>)
    requires WellFormed(init, ms) && InRange(ms, Indices(|ms|)) && !Trouble(init.Keys, ms, Indices(|ms|))
    ensures var r := RunPasses(init, ms, Indices(|ms|));
            && (r.Crashed? <==> !SchemasFit(init, ms))
            && (r.Resolved? <==> SchemasFit(init, ms) && Resolvable(init.Keys, ms))
  {
    Start(init, ms);
    LoopVerdict(init, ms);
    DryVerdict(init.Keys, ms, Indices(|ms|));
    if !RunPasses(init, ms, Indices(|ms|)).Crashed? {
      forall k | 0 <= k < |ms| ensures Keepers(ms[Indices(|ms|)[k]]) !! init.Keys {
        assert GivesAll(ms[k]) !! init.Keys;
      }
      CalmFits(init, ms, init, ms, Indices(|ms|));
    }
  }

  lemma {:induction false} OrderedVerdict(init: Registry, ms: seq<Method>)
    requires WellFormed(init, ms) && forall i :: 0 <= i < |ms| ==> Ordered(init.Keys, ms[i])
    ensures var r := RunPasses(init, ms, Indices(|ms|));
            && (r.Crashed? <==> !SchemasFit(init, ms))
            && (r.Resolved? <==> SchemasFit(init, ms) && Resolvable(init.Keys, ms))
  {
    OrderedIsCalm(init.Keys, ms, init.Keys, Indices(|ms|));
    CalmVerdict(init, ms);
  }

  // --- The registry does not depend on the order ---------------------------------------------------------

  // The names on which two registries agree.
  ghost function Common(r1: Registry, r2: Registry): set<string> {
    set n | n in r1 && n in r2 && r1[n] == r2[n]
  }

  lemma {:induction false} EarlyAgrees(r1: Registry, r2: Registry, p: Param)
    requires Sound(r1, p) && Sound(r2, p) && Gives(p) <= r1.Keys && Gives(p) <= r2.Keys
    ensures Early(Common(r1, r2), p) <= Common(r1, r2)
    decreases p, 1
  {
    var known := Common(r1, r2);
    match p
    case Attr(name, register, _, parts) =>
      EarlyAgreesAll(r1, r2, parts);
      if register && NeedsAll(parts) <= known {
        EarlyMetAll(known, parts);
        TargetsSplitAll(parts);
        EvalAgree(r1, r2, p);
        assert name in Gives(p);
      }
    case Ref(_) =>
    case Patch(_, newName, register, _) =>
      if register {
        assert newName in Gives(p);
      }
  }

  lemma {:induction false} EarlyAgreesAll(r1: Registry, r2: Registry, ps: seq<Param>)
    requires SoundAll(r1, ps) && SoundAll(r2, ps) && GivesAll(ps) <= r1.Keys && GivesAll(ps) <= r2.Keys
    ensures EarlyAll(Common(r1, r2), ps) <= Common(r1, r2)
    decreases ps, 0
  {
    if ps != [] {
      var known := Common(r1, r2);
      EarlyAgrees(r1, r2, ps[0]);
      EarlyAgreesAll(r1, r2, ps[1..]);
      if Needs(ps[0]) <= known {
        EarlyMet(known, ps[0]);
        assert known + Gives(ps[0]) == known;
      }
    }
  }

  /** Two complete registries of the same methods, however listed, are equal. */
  lemma {:induction false} RegistryUnique(init: Registry, ms: seq<Method>, r1: Registry, ms': seq<Method>, r2: Registry)
    requires Complete(init, ms, r1) && Complete(init, ms', r2) && forall m :: m in ms <==> m in ms'
    ensures r1 == r2
  {
    var known := Common(r1, r2);
    forall i | 0 <= i < |ms| ensures EarlyAll(known, ms[i]) <= known {
      assert ms[i] in ms';
      var j :| 0 <= j < |ms'| && ms'[j] == ms[i];
      EarlyAgreesAll(r1, r2, ms[i]);
    }
    forall j | 0 <= j < |ms'| ensures EarlyAll(known, ms'[j]) <= known {
      assert ms'[j] in ms;
      var i :| 0 <= i < |ms| && ms[i] == ms'[j];
      EarlyAgreesAll(r1, r2, ms'[j]);
    }
    assert Saturated(init.Keys, ms, known) && Saturated(init.Keys, ms', known);
  }

  // `ms'` lists the methods of `ms` in another order.
  ghost predicate Shuffle(ms: seq<Method>, ms': seq<Method>, perm: seq<nat>, inverse: seq<nat>) {
    && |ms| == |ms'| == |perm| == |inverse|
    && (forall k :: 0 <= k < |ms| ==> perm[k] < |ms| && ms'[k] == ms[perm[k]] && inverse[perm[k]] == k)
    && (forall i :: 0 <= i < |ms| ==> inverse[i] < |ms| && perm[inverse[i]] == i)
  }

  lemma {:induction false} ShuffleBack(ms: seq<Method>, ms': seq<Method>, perm: seq<nat>, inverse: seq<nat>)
    requires Shuffle(ms, ms', perm, inverse)
    ensures Shuffle(ms', ms, inverse, perm) && forall m :: m in ms <==> m in ms'
  {
    forall i | 0 <= i < |ms| ensures ms[i] == ms'[inverse[i]] {
    }
  }

  lemma {:induction false} ShuffleWellFormed(init: Registry, ms: seq<Method>, ms': seq<Method>, perm: seq<nat>,
                                             inverse: seq<nat>)
    requires Shuffle(ms, ms', perm, inverse) && WellFormed(init, ms)
    ensures WellFormed(init, ms')
  {
    forall i, j | 0 <= i < j < |ms'| ensures GivesAll(ms'[i]) !! GivesAll(ms'[j]) {
      Apart(init.Keys, ms, perm[i], perm[j]);
    }
  }

  lemma {:induction false} SameSaturated(base: set<string>, ms: seq<Method>, ms': seq<Method>, known: set<string>)
    requires Saturated(base, ms', known) && forall m :: m in ms <==> m in ms'
    ensures Saturated(base, ms, known)
  {
    forall i | 0 <= i < |ms| ensures EarlyAll(known, ms[i]) <= known {
      assert ms[i] in ms';
    }
  }

  lemma {:induction false} SameResolvable(base: set<string>, ms: seq<Method>, ms': seq<Method>)
    requires Resolvable(base, ms') && forall m :: m in ms <==> m in ms'
    ensures Resolvable(base, ms)
  {
    forall known, i | Saturated(base, ms, known) && 0 <= i < |ms| ensures NeedsAll(ms[i]) <= known {
      SameSaturated(base, ms', ms, known);
      assert ms[i] in ms';
    }
  }

  lemma {:induction false} SameFit(init: Registry, ms: seq<Method>, ms': seq<Method>)
    requires SchemasFit(init, ms') && forall m :: m in ms <==> m in ms'
    ensures SchemasFit(init, ms)
  {
    var all :| Universe(init, ms', all);
    SameSaturated(init.Keys, ms, ms', all.Keys);
    forall i | 0 <= i < |ms| ensures SoundAll(all, ms[i]) && AppliesAll(all, ms[i]) {
      assert ms[i] in ms';
    }
    assert Universe(init, ms, all);
  }

  ghost predicate Rearranged(perm: seq<nat>, accepts: seq<Method>, accepts': seq<Method>) {
    && |accepts| == |accepts'| == |perm|
    && forall k :: 0 <= k < |perm| ==> perm[k] < |perm| && accepts'[k] == accepts[perm[k]]
  }

  /** Whenever two orders of the methods are both resolved, registry and resolved parameters are the same. */
  lemma {:induction false} SameRegistry(init: Registry, ms: seq<Method>, ms': seq<Method>, perm: seq<nat>,
                                        inverse: seq<nat>)
    requires WellFormed(init, ms) && Shuffle(ms, ms', perm, inverse)
    requires RunPasses(init, ms, Indices(|ms|)).Resolved? && RunPasses(init, ms', Indices(|ms'|)).Resolved?
    ensures var r, r' := RunPasses(init, ms, Indices(|ms|)), RunPasses(init, ms', Indices(|ms'|));
            r'.reg == r.reg && Rearranged(perm, r.accepts, r'.accepts)
  {
    ShuffleWellFormed(init, ms, ms', perm, inverse);
    ShuffleBack(ms, ms', perm, inverse);
    LoopVerdict(init, ms);
    LoopVerdict(init, ms');
    RegistryUnique(init, ms, RunPasses(init, ms, Indices(|ms|)).reg, ms', RunPasses(init, ms', Indices(|ms'|)).reg);
  }

  /** For ordered methods the outcome is the same in any order, too. */
  lemma {:induction false} OrderIndependent(init: Registry, ms: seq<Method>, ms': seq<Method>, perm: seq<nat>,
                                            inverse: seq<nat>)
    requires WellFormed(init, ms) && Shuffle(ms, ms', perm, inverse)
    requires forall i :: 0 <= i < |ms| ==> Ordered(init.Keys, ms[i])
    ensures var r, r' := RunPasses(init, ms, Indices(|ms|)), RunPasses(init, ms', Indices(|ms'|));
            && (r.Resolved? <==> r'.Resolved?) && (r.Crashed? <==> r'.Crashed?)
            && (r.Resolved? ==> r'.reg == r.reg && Rearranged(perm, r.accepts, r'.accepts))
  {
    ShuffleWellFormed(init, ms, ms', perm, inverse);
    ShuffleBack(ms, ms', perm, inverse);
    OrderedVerdict(init, ms);
    OrderedVerdict(init, ms');
    SameAnswers(init, ms, ms');
    SameAnswers(init, ms', ms);
    if RunPasses(init, ms, Indices(|ms|)).Resolved? {
      SameRegistry(init, ms, ms', perm, inverse);
    }
  }

  lemma {:induction false} SameAnswers(init: Registry, ms: seq<Method>, ms': seq<Method>)
    requires forall m :: m in ms <==> m in ms'
    ensures SchemasFit(init, ms') ==> SchemasFit(init, ms)
    ensures Resolvable(init.Keys, ms') ==> Resolvable(init.Keys, ms)
  {
    if SchemasFit(init, ms') {
      SameFit(init, ms, ms');
    }
    if Resolvable(init.Keys, ms') {
      SameResolvable(init.Keys, ms, ms');
    }
  }

  // --- The loops -----------------------------------------------------------------------------------------

  // One pass over the methods that are still to be resolved.
  method Pass(reg: Registry, accepts: seq<Method>, toResolve: seq<nat>) returns (s: State)
    requires InRange(accepts, toResolve)
    ensures s == RunPass(State(false, reg, accepts, [], 0), toResolve)
  {
    var crashed, reg', accepts', left: seq<nat>, resolved := false, reg, accepts, [], 0;
    assert toResolve[0..] == toResolve;
    // the list that is left is rebuilt in order, which is what removing from it amounts to
    for k := 0 to |toResolve|
      invariant !crashed && |accepts'| == |accepts| && InRange(accepts, left)
      invariant RunPass(State(crashed, reg', accepts', left, resolved), toResolve[k..]) ==
                RunPass(State(false, reg, accepts, [], 0), toResolve)
    {
      var m := toResolve[k];
      assert toResolve[k..][1..] == toResolve[k + 1..];
      var attempt := ResolveParams(reg', accepts'[m]);
      match attempt {
        case Crash =>
          crashed := true;
          return State(crashed, reg', accepts', left, resolved);
        case Blocked(r, ps) =>
          accepts' := accepts'[m := KeepOuter(accepts'[m], ps)];
          reg' := r;
          left := left + [m];
        case Done(r, ps) =>
          accepts' := accepts'[m := ps];
          reg' := r;
          resolved := resolved + 1;
      }
    }
    s := State(crashed, reg', accepts', left, resolved);
  }

  /** The loop ends for every list of methods, and with the outcome above. */
  method ResolveMethods(init: Registry, methods: seq<Method>) returns (r: Result)
    ensures r == RunPasses(init, methods, Indices(|methods|))
    ensures WellFormed(init, methods) ==>
              && (r.Resolved? <==> SchemasFit(init, methods) && Resolvable(init.Keys, methods) &&
                                   !Trouble(init.Keys, methods, Indices(|methods|)))
              && (r.Resolved? ==> Complete(init, methods, r.reg) && AllSettled(methods, r.reg, r.accepts))
  {
    if WellFormed(init, methods) {
      LoopVerdict(init, methods);
      MethodsOutcome(init, methods);
    }
    var reg, accepts, toResolve: seq<nat> := init, methods, Indices(|methods|);
    while |toResolve| > 0
      invariant |accepts| == |methods| && InRange(accepts, toResolve)
      invariant RunPasses(reg, accepts, toResolve) == RunPasses(init, methods, Indices(|methods|))
      decreases |toResolve|
    {
      var s := Pass(reg, accepts, toResolve);
      if s.crashed {
        return Crashed;
      }
      if s.resolved == 0 {
        return NotAllResolved;
      }
      reg, accepts, toResolve := s.reg, s.accepts, s.left;
    }
    r := Resolved(reg, accepts);
  }

  // --- The trap ------------------------------------------------------------------------------------------

  function Plainly(name: string, options: Options): Param {
    Attr(name, true, options, [])
  }

  /** Order matters where a method registers a schema before a parameter that has to wait: here the
      least fixed point covers all needs, but the first order fails and the second one does not. */
  lemma {:induction false} RetryTrap(x: string, y: string, o: Options)
    requires x != y
    ensures var m0, m1 := [Plainly(x, o), Ref(y)], [Plainly(y, o)];
            && Resolvable({}, [m0, m1])
            && RunPasses(map[], [m0, m1], [0, 1]).Crashed? && RunPasses(map[], [m1, m0], [0, 1]).Resolved?
  {
    var a, b := Plainly(x, o), Plainly(y, o);
    var m0, m1: Method := [a, Ref(y)], [b];
    TrapResolvable(x, y, o, m0, m1);
    TrapAttempts(x, y, o, m0, m1);
    TrapFirst(map[x := a], map[x := a][y := b], m0, m1);
    TrapSecond(map[y := b], map[y := b][x := a], m0, m1, [a, Copy(b)]);
  }

  lemma {:induction false} TrapFirst(reg1: Registry, reg2: Registry, m0: Method, m1: Method)
    requires ResolveAll(map[], m0) == Blocked(reg1, m0) && KeepOuter(m0, m0) == m0
    requires ResolveAll(reg1, m1) == Done(reg2, m1) && ResolveAll(reg2, m0) == Crash
    ensures RunPasses(map[], [m0, m1], [0, 1]).Crashed?
  {
    var ms := [m0, m1];
    var s0, s1, s2 := State(false, map[], ms, [], 0), State(false, reg1, ms, [0], 0), State(false, reg2, ms, [0], 1);
    assert ms[0 := m0] == ms && ms[1 := m1] == ms;
    assert TryOne(s0, 0) == s1 && TryOne(s1, 1) == s2;
    assert [0, 1][1..] == [1] && [1][1..] == [];
    assert RunPass(s0, [0, 1]) == RunPass(s1, [1]) == RunPass(s2, []) == s2;
    assert RunPass(State(false, reg2, ms, [], 0), [0]).crashed;
  }

  lemma {:induction false} TrapSecond(reg1: Registry, reg2: Registry, m0: Method, m1: Method, c: Method)
    requires ResolveAll(map[], m1) == Done(reg1, m1) && ResolveAll(reg1, m0) == Done(reg2, c)
    ensures RunPasses(map[], [m1, m0], [0, 1]).Resolved?
  {
    var ms := [m1, m0];
    var s0, s1, s2 := State(false, map[], ms, [], 0), State(false, reg1, ms, [], 1), State(false, reg2, [m1, c], [], 2);
    assert ms[0 := m1] == ms && ms[1 := c] == [m1, c];
    assert TryOne(s0, 0) == s1 && TryOne(s1, 1) == s2;
    assert [0, 1][1..] == [1] && [1][1..] == [];
    assert RunPass(s0, [0, 1]) == RunPass(s1, [1]) == RunPass(s2, []) == s2;
  }

  lemma {:induction false} TrapAttempts(x: string, y: string, o: Options, m0: Method, m1: Method)
    requires x != y && m0 == [Plainly(x, o), Ref(y)] && m1 == [Plainly(y, o)]
    ensures var a, b := Plainly(x, o), Plainly(y, o);
            && ResolveAll(map[], m0) == Blocked(map[x := a], m0) && KeepOuter(m0, m0) == m0
            && ResolveAll(map[x := a], m1) == Done(map[x := a][y := b], m1)
            && ResolveAll(map[x := a][y := b], m0) == Crash
            && ResolveAll(map[], m1) == Done(map[y := b], m1)
            && ResolveAll(map[y := b], m0) == Done(map[y := b][x := a], [a, Copy(b)])
  {
    var a, b := Plainly(x, o), Plainly(y, o);
    assert m0[1..] == [Ref(y)] && m1[1..] == [] && [Ref(y)][1..] == [];
    assert m0 == [a] + [Ref(y)] && m1 == [b] + [] && [Ref(y)] == [Ref(y)] + [];
    OneRegisters(map[], a);
    OneRegisters(map[], b);
    OneRegisters(map[x := a], b);
    OneRegisters(map[y := b], a);
    assert map[][x := a] == map[x := a] && map[][y := b] == map[y := b];
    assert ResolveAll(map[x := a], [Ref(y)]) == Blocked(map[x := a], [Ref(y)]);
    OneReference(map[y := b][x := a], y);
    assert [a] + [Copy(b)] == [a, Copy(b)];
  }

  lemma {:induction false} OneReference(reg: Registry, y: string)
    requires y in reg
    ensures ResolveAll(reg, [Ref(y)]) == Done(reg, [Copy(reg[y])])
  {
    assert Resolve(reg, Ref(y)) == Done(reg, Copy(reg[y]));
    assert [Ref(y)][1..] == [] && ResolveAll(reg, []) == Done(reg, []);
    assert [Copy(reg[y])] + [] == [Copy(reg[y])];
  }

  lemma {:induction false} OneRegisters(reg: Registry, a: Param)
    requires a.Attr? && a.register && a.parts == [] && a.name !in reg
    ensures Resolve(reg, a) == Done(reg[a.name := a], a)
  {
    assert ResolveAll(reg, a.parts) == Done(reg, []);
  }

  lemma {:induction false} TrapResolvable(x: string, y: string, o: Options, m0: Method, m1: Method)
    requires m0 == [Plainly(x, o), Ref(y)] && m1 == [Plainly(y, o)]
    ensures Resolvable({}, [m0, m1])
  {
    PlainlyNames(x, o);
    PlainlyNames(y, o);
    assert m0[1..] == [Ref(y)] && m1[1..] == [] && [Ref(y)][1..] == [];
    assert NeedsAll([Ref(y)]) == {y} && NeedsAll(m1[1..]) == {} && GivesAll(m1[1..]) == {};
    assert NeedsAll(m1) == {};
    forall known, i | Saturated({}, [m0, m1], known) && 0 <= i < 2 ensures NeedsAll([m0, m1][i]) <= known {
      EarlyMetAll(known, m1);
      assert EarlyAll(known, [m0, m1][1]) <= known;
      assert GivesAll(m1) == {y};
    }
  }

  lemma {:induction false} PlainlyNames(name: string, o: Options)
    ensures Needs(Plainly(name, o)) == {} && Gives(Plainly(name, o)) == {name}
  {
    var parts: seq<Param> := [];
    assert Plainly(name, o).parts == parts && NeedsAll(parts) == {} && GivesAll(parts) == {};
  }
}
