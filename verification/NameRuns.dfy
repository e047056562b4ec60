/**
 The resolution loop on names only: what it registers, when it fails and when it gives up can be
 foretold without looking at a single schema.
 */
module NameRuns {
  import opened Registration
  import opened Resolver

  type Method = seq<Param>

  // The state of a pass: the names registered, the methods tried and left, and how many were resolved.
  datatype Dry = Dry(clash: bool, known: set<string>, left: seq<nat>, resolved: nat)

  datatype Verdict = AllResolved | SomeLeft | Failed

  // The attempt comes to register a name again.
  predicate Clash(known: set<string>, m: Method) {
    FatalAll(known, m, true) * known != {}
  }

  predicate InRange(ms: seq<Method>, indices: seq<nat>) {
    forall k :: 0 <= k < |indices| ==> indices[k] < |ms|
  }

  function DryTry(d: Dry, ms: seq<Method>, i: nat): Dry
    requires i < |ms|
  {
    if Clash(d.known, ms[i]) then d.(clash := true)
    else if NeedsAll(ms[i]) <= d.known then d.(known := d.known + GivesAll(ms[i]), resolved := d.resolved + 1)
    else d.(known := d.known + EarlyAll(d.known, ms[i]), left := d.left + [i])
  }

  function DryPass(d: Dry, ms: seq<Method>, rest: seq<nat>): (d': Dry)
    requires InRange(ms, rest) && InRange(ms, d.left)
    ensures InRange(ms, d'.left) && d.known <= d'.known && d.left <= d'.left
    ensures !d'.clash ==> |d'.left| + d'.resolved == |d.left| + d.resolved + |rest|
    decreases |rest|
  {
    if rest == [] || d.clash then d else DryPass(DryTry(d, ms, rest[0]), ms, rest[1..])
  }

  function DryPasses(known: set<string>, ms: seq<Method>, left: seq<nat>): Verdict
    requires InRange(ms, left)
    decreases |left|
  {
    if left == [] then AllResolved
    else
      var d := DryPass(Dry(false, known, [], 0), ms, left);
      if d.clash then Failed else if d.resolved == 0 then SomeLeft else DryPasses(d.known, ms, d.left)
  }

  // --- Least fixed point ------------------------------------------------------------------------------

  // No method can register anything more.
  ghost predicate Saturated(base: set<string>, ms: seq<Method>, known: set<string>) {
    base <= known && forall i :: 0 <= i < |ms| ==> EarlyAll(known, ms[i]) <= known
  }

  /** The least set of names that is closed under registration covers the needs of all methods. */
  ghost predicate Resolvable(base: set<string>, ms: seq<Method>) {
    forall known, i :: Saturated(base, ms, known) && 0 <= i < |ms| ==> NeedsAll(ms[i]) <= known
  }

  // The names lie in the least fixed point.
  ghost predicate Attained(base: set<string>, ms: seq<Method>, names: set<string>) {
    forall known :: Saturated(base, ms, known) ==> names <= known
  }

  lemma {:induction false} AttainedStep(base: set<string>, ms: seq<Method>, known: set<string>, i: nat)
    requires Attained(base, ms, known) && i < |ms|
    ensures Attained(base, ms, known + EarlyAll(known, ms[i]))
    ensures NeedsAll(ms[i]) <= known ==> Attained(base, ms, known + GivesAll(ms[i]))
  {
    forall k | Saturated(base, ms, k) ensures known + EarlyAll(known, ms[i]) <= k {
      EarlyMonoAll(known, k, ms[i], true);
    }
    if NeedsAll(ms[i]) <= known {
      EarlyMetAll(known, ms[i]);
    }
  }

  // --- Names that methods register ----------------------------------------------------------------------

  /** No name is registered twice, by the same or by different methods, or there from the start. */
  ghost predicate DistinctNames(base: set<string>, ms: seq<Method>) {
    && (forall i :: 0 <= i < |ms| ==> DistinctAll(ms[i]) && GivesAll(ms[i]) !! base)
    && (forall i, j :: 0 <= i < j < |ms| ==> GivesAll(ms[i]) !! GivesAll(ms[j]))
  }

  lemma {:induction false} Apart(base: set<string>, ms: seq<Method>, i: nat, j: nat)
    requires DistinctNames(base, ms) && i < |ms| && j < |ms| && i != j
    ensures GivesAll(ms[i]) !! GivesAll(ms[j])
  {
    assert if i < j then GivesAll(ms[i]) !! GivesAll(ms[j]) else GivesAll(ms[j]) !! GivesAll(ms[i]);
  }

  // The names that every attempt registers again.
  function Keepers(m: Method): set<string> {
    GivesAll(m) - LooseAll(m, true)
  }

  lemma {:induction false} FatalNotLoose(known: set<string>, p: Param, top: bool)
    requires Distinct(p)
    ensures Fatal(known, p, top) !! Loose(p, top)
    decreases p, 1
  {
    if p.Attr? {
      FatalNotLooseAll(known, p.parts, false);
      EarlyPartsAll(known, p.parts, false);
    }
  }

  lemma {:induction false} FatalNotLooseAll(known: set<string>, ps: seq<Param>, top: bool)
    requires DistinctAll(ps)
    ensures FatalAll(known, ps, top) !! LooseAll(ps, top)
    decreases ps, 0
  {
    if ps != [] {
      FatalNotLoose(known, ps[0], top);
      EarlyParts(known, ps[0], top);
      FatalNotLooseAll(known + Gives(ps[0]), ps[1..], top);
      EarlyPartsAll(known + Gives(ps[0]), ps[1..], top);
    }
  }

  lemma {:induction false} NoClash(known: set<string>, m: Method)
    requires DistinctAll(m) && Keepers(m) !! known
    ensures !Clash(known, m)
  {
    FatalNotLooseAll(known, m, true);
    EarlyPartsAll(known, m, true);
  }

  // --- Runs ----------------------------------------------------------------------------------------------

  ghost predicate Unique(xs: seq<nat>) {
    forall i, j :: 0 <= i < j < |xs| ==> xs[i] != xs[j]
  }

  // A method is done with: it leaves the list, which is otherwise the same.
  lemma {:induction false} Removed(left: seq<nat>, rest: seq<nat>)
    requires rest != [] && Unique(left + rest)
    ensures Unique(left + rest[1..]) && forall i :: i in left + rest[1..] <==> i in left + rest && i != rest[0]
  {
    var before, after, p := left + rest, left + rest[1..], |left|;
    assert before == left + [rest[0]] + rest[1..];
    assert forall k :: 0 <= k < |after| ==> after[k] == if k < p then before[k] else before[k + 1];
    forall i, j | 0 <= i < j < |after| ensures after[i] != after[j] {
      assert before[if i < p then i else i + 1] != before[if j < p then j else j + 1];
    }
    forall i | i in after ensures i != before[p] {
      var k :| 0 <= k < |after| && after[k] == i;
      assert if k < p then before[k] == i else before[k + 1] == i;
    }
    assert forall i :: i in before <==> i in after || i == rest[0];
  }

  // The pending methods; the others have registered all they give.
  ghost predicate Running(base: set<string>, ms: seq<Method>, known: set<string>, pending: seq<nat>) {
    && InRange(ms, pending) && Unique(pending) && base <= known && Attained(base, ms, known)
    && forall i :: 0 <= i < |ms| && i !in pending ==> NeedsAll(ms[i]) <= known && GivesAll(ms[i]) <= known
  }

  // No pending method has registered anything that it will register again.
  ghost predicate Untaken(ms: seq<Method>, known: set<string>, pending: seq<nat>)
    requires InRange(ms, pending)
  {
    forall k :: 0 <= k < |pending| ==> Keepers(ms[pending[k]]) !! known
  }

  lemma {:induction false} TryRunning(base: set<string>, ms: seq<Method>, d: Dry, rest: seq<nat>)
    requires rest != [] && Running(base, ms, d.known, d.left + rest) && InRange(ms, rest)
    ensures var d' := DryTry(d, ms, rest[0]);
            !d'.clash ==> Running(base, ms, d'.known, d'.left + rest[1..])
  {
    AttainedStep(base, ms, d.known, rest[0]);
    Removed(d.left, rest);
    assert (d.left + [rest[0]]) + rest[1..] == d.left + rest;
    assert forall k :: 0 <= k < |d.left + rest[1..]| ==> (d.left + rest[1..])[k] in d.left + rest[1..];
  }

  lemma {:induction false} PassRunning(base: set<string>, ms: seq<Method>, d: Dry, rest: seq<nat>)
    requires Running(base, ms, d.known, d.left + rest) && InRange(ms, rest) && InRange(ms, d.left) && !d.clash
    ensures var d' := DryPass(d, ms, rest);
            !d'.clash ==> Running(base, ms, d'.known, d'.left)
    decreases |rest|
  {
    if rest == [] {
      assert d.left + rest == d.left;
    } else if !DryTry(d, ms, rest[0]).clash {
      TryRunning(base, ms, d, rest);
      PassRunning(base, ms, DryTry(d, ms, rest[0]), rest[1..]);
    }
  }

  lemma {:induction false} DoneIsResolvable(base: set<string>, ms: seq<Method>, known: set<string>)
    requires Running(base, ms, known, [])
    ensures Resolvable(base, ms)
  {
    forall closed, i | Saturated(base, ms, closed) && 0 <= i < |ms| ensures NeedsAll(ms[i]) <= closed {
      assert NeedsAll(ms[i]) <= known <= closed;
    }
  }

  /** The loop resolves all methods only if the least fixed point covers their needs. */
  lemma {:induction false} ResolvedIsResolvable(base: set<string>, ms: seq<Method>, known: set<string>, left: seq<nat>)
    requires Running(base, ms, known, left) && DryPasses(known, ms, left) == AllResolved
    ensures Resolvable(base, ms)
    decreases |left|
  {
    if left == [] {
      DoneIsResolvable(base, ms, known);
    } else {
      var d := Dry(false, known, [], 0);
      assert [] + left == left;
      PassRunning(base, ms, d, left);
      ResolvedIsResolvable(base, ms, DryPass(d, ms, left).known, DryPass(d, ms, left).left);
    }
  }

  // --- Trouble ---------------------------------------------------------------------------------------------

  // The attempt has to wait after it registered a name that the next one registers again.
  predicate Stumbles(known: set<string>, m: Method) {
    !(NeedsAll(m) <= known) && FatalAll(known, m, true) != {}
  }

  predicate PassStumbles(d: Dry, ms: seq<Method>, rest: seq<nat>)
    requires InRange(ms, rest)
    decreases |rest|
  {
    rest != [] && !d.clash && (Stumbles(d.known, ms[rest[0]]) || PassStumbles(DryTry(d, ms, rest[0]), ms, rest[1..]))
  }

  /** Some attempt of the run stumbles, or some pass registers names but resolves no method, so that
      the loop gives up too early. */
  predicate Trouble(known: set<string>, ms: seq<Method>, left: seq<nat>)
    requires InRange(ms, left)
    decreases |left|
  {
    && left != []
    && var start := Dry(false, known, [], 0);
       var d := DryPass(start, ms, left);
       || PassStumbles(start, ms, left)
       || (!d.clash && d.resolved == 0 && d.known != known)
       || (!d.clash && d.resolved > 0 && Trouble(d.known, ms, d.left))
  }

  ghost predicate Doomed(known: set<string>, ms: seq<Method>, pending: seq<nat>)
    requires InRange(ms, pending)
  {
    exists k :: 0 <= k < |pending| && Clash(known, ms[pending[k]])
  }

  lemma {:induction false} ClashMono(known: set<string>, more: set<string>, m: Method)
    requires known <= more && Clash(known, m)
    ensures Clash(more, m)
  {
    EarlyMonoAll(known, more, m, true);
    var n :| n in FatalAll(known, m, true) * known;
    assert n in FatalAll(more, m, true) * more;
  }

  lemma {:induction false} DoomedPass(d: Dry, ms: seq<Method>, rest: seq<nat>)
    requires InRange(ms, rest) && InRange(ms, d.left) && !d.clash && Doomed(d.known, ms, rest)
    ensures DryPass(d, ms, rest).clash
    decreases |rest|
  {
    if !Clash(d.known, ms[rest[0]]) {
      var k :| 0 <= k < |rest| && Clash(d.known, ms[rest[k]]);
      ClashMono(d.known, DryTry(d, ms, rest[0]).known, ms[rest[k]]);
      assert rest[1..][k - 1] == rest[k];
      DoomedPass(DryTry(d, ms, rest[0]), ms, rest[1..]);
    }
  }

  // A method that stumbled is never resolved.
  lemma {:induction false} DoomedForever(known: set<string>, ms: seq<Method>, left: seq<nat>)
    requires InRange(ms, left) && Doomed(known, ms, left)
    ensures DryPasses(known, ms, left) == Failed
  {
    DoomedPass(Dry(false, known, [], 0), ms, left);
  }

  lemma {:induction false} StumblesDoomed(d: Dry, ms: seq<Method>, rest: seq<nat>)
    requires InRange(ms, rest) && InRange(ms, d.left) && PassStumbles(d, ms, rest)
    ensures var d' := DryPass(d, ms, rest);
            d'.clash || Doomed(d'.known, ms, d'.left)
    decreases |rest|
  {
    var i, one := rest[0], DryTry(d, ms, rest[0]);
    if !one.clash {
      if Stumbles(d.known, ms[i]) {
        var d' := DryPass(one, ms, rest[1..]);
        EarlyPartsAll(d.known, ms[i], true);
        EarlyMonoAll(d.known, one.known, ms[i], true);
        var n :| n in FatalAll(d.known, ms[i], true);
        assert n in FatalAll(one.known, ms[i], true) * one.known;
        ClashMono(one.known, d'.known, ms[i]);
        assert d'.left[|d.left|] == i;
      } else {
        StumblesDoomed(one, ms, rest[1..]);
      }
    }
  }

  lemma {:induction false} TroubleIsFatal(known: set<string>, ms: seq<Method>, left: seq<nat>)
    requires InRange(ms, left) && Trouble(known, ms, left)
    ensures DryPasses(known, ms, left) != AllResolved
    decreases |left|
  {
    var start := Dry(false, known, [], 0);
    var d := DryPass(start, ms, left);
    if !d.clash && d.resolved > 0 {
      if PassStumbles(start, ms, left) {
        StumblesDoomed(start, ms, left);
        DoomedForever(d.known, ms, d.left);
      } else {
        TroubleIsFatal(d.known, ms, d.left);
      }
    }
  }

  // --- Without trouble -----------------------------------------------------------------------------------------

  lemma {:induction false} TryUntaken(base: set<string>, ms: seq<Method>, d: Dry, rest: seq<nat>)
    requires DistinctNames(base, ms) && rest != [] && InRange(ms, rest) && InRange(ms, d.left) && Unique(d.left + rest)
    requires Untaken(ms, d.known, d.left + rest) && !Stumbles(d.known, ms[rest[0]])
    ensures var d' := DryTry(d, ms, rest[0]);
            d'.clash == d.clash && InRange(ms, d'.left) && Untaken(ms, d'.known, d'.left + rest[1..])
  {
    var i, d' := rest[0], DryTry(d, ms, rest[0]);
    var before, after := d.left + rest, d'.left + rest[1..];
    assert before[|d.left|] == i;
    NoClash(d.known, ms[i]);
    EarlyPartsAll(d.known, ms[i], true);
    Removed(d.left, rest);
    assert (d.left + [i]) + rest[1..] == before;
    forall k | 0 <= k < |after| ensures Keepers(ms[after[k]]) !! d'.known {
      assert after[k] in after;
      var m :| 0 <= m < |before| && before[m] == after[k];
      if after[k] != i {
        Apart(base, ms, i, after[k]);
      }
    }
  }

  // What a pass that resolves nothing and registers nothing has found.
  ghost predicate AllWait(ms: seq<Method>, known: set<string>, indices: seq<nat>)
    requires InRange(ms, indices)
  {
    forall k :: 0 <= k < |indices| ==> !(NeedsAll(ms[indices[k]]) <= known) && EarlyAll(known, ms[indices[k]]) <= known
  }

  lemma {:induction false} CalmPass(base: set<string>, ms: seq<Method>, d: Dry, rest: seq<nat>)
    requires DistinctNames(base, ms) && InRange(ms, rest) && InRange(ms, d.left) && Unique(d.left + rest) && !d.clash
    requires Untaken(ms, d.known, d.left + rest) && !PassStumbles(d, ms, rest)
    ensures var d' := DryPass(d, ms, rest);
            && !d'.clash && Untaken(ms, d'.known, d'.left) && d'.resolved >= d.resolved
            && (d'.resolved == d.resolved && d'.known == d.known ==> AllWait(ms, d.known, rest))
    decreases |rest|
  {
    if rest == [] {
      assert d.left + rest == d.left;
    } else {
      var one := DryTry(d, ms, rest[0]);
      TryUntaken(base, ms, d, rest);
      Removed(d.left, rest);
      assert (d.left + [rest[0]]) + rest[1..] == d.left + rest;
      CalmPass(base, ms, one, rest[1..]);
      var d' := DryPass(d, ms, rest);
      if d'.resolved == d.resolved && d'.known == d.known {
        assert one.known == d.known;
        assert forall k :: 1 <= k < |rest| ==> rest[k] == rest[1..][k - 1];
      }
    }
  }

  // Names at which every pending method has to wait are closed under registration.
  lemma {:induction false} WaitingIsSaturated(base: set<string>, ms: seq<Method>, known: set<string>, left: seq<nat>)
    requires Running(base, ms, known, left) && AllWait(ms, known, left)
    ensures Saturated(base, ms, known) && (left != [] ==> !Resolvable(base, ms))
  {
    forall i | 0 <= i < |ms| ensures EarlyAll(known, ms[i]) <= known {
      if i in left {
        var k :| 0 <= k < |left| && left[k] == i;
      } else {
        EarlyPartsAll(known, ms[i], true);
      }
    }
    if left != [] {
      assert Saturated(base, ms, known) && !(NeedsAll(ms[left[0]]) <= known);
    }
  }

  lemma {:induction false} CalmRun(base: set<string>, ms: seq<Method>, known: set<string>, left: seq<nat>)
    requires DistinctNames(base, ms) && Running(base, ms, known, left) && Untaken(ms, known, left)
    requires !Trouble(known, ms, left)
    ensures DryPasses(known, ms, left) == if Resolvable(base, ms) then AllResolved else SomeLeft
    decreases |left|
  {
    if left == [] {
      ResolvedIsResolvable(base, ms, known, left);
    } else {
      var start := Dry(false, known, [], 0);
      var d := DryPass(start, ms, left);
      assert [] + left == left;
      CalmPass(base, ms, start, left);
      PassRunning(base, ms, start, left);
      if d.resolved == 0 {
        WaitingIsSaturated(base, ms, known, left);
      } else {
        CalmRun(base, ms, d.known, d.left);
      }
    }
  }

  /** The exact outcome in the given order: all methods are resolved if and only if the least fixed
      point covers their needs and the run meets no trouble. */
  lemma {:induction false} DryVerdict(base: set<string>, ms: seq<Method>, all: seq<nat>)
    requires DistinctNames(base, ms) && InRange(ms, all) && Unique(all) && forall i :: 0 <= i < |ms| ==> i in all
    ensures DryPasses(base, ms, all) == AllResolved <==> Resolvable(base, ms) && !Trouble(base, ms, all)
    ensures !Trouble(base, ms, all) ==> DryPasses(base, ms, all) != Failed
  {
    assert Running(base, ms, base, all);
    assert Untaken(ms, base, all) by {
      forall k | 0 <= k < |all| ensures Keepers(ms[all[k]]) !! base {
        assert GivesAll(ms[all[k]]) !! base;
      }
    }
    if Trouble(base, ms, all) {
      TroubleIsFatal(base, ms, all);
    } else {
      CalmRun(base, ms, base, all);
    }
  }

  // --- Ordered methods ----------------------------------------------------------------------------------------------

  // The names that are looked up before the first one is registered.
  function Lead(p: Param): set<string> {
    match p
    case Attr(_, _, _, parts) => if GivesAll(parts) == {} then NeedsAll(parts) else LeadAll(parts)
    case Ref(t) => {t}
    case Patch(t, _, _, _) => {t}
  }

  function LeadAll(ps: seq<Param>): set<string> {
    if ps == [] then {} else if Gives(ps[0]) == {} then Needs(ps[0]) + LeadAll(ps[1..]) else Lead(ps[0])
  }

  /** After its first registration a method needs nothing that it did not look up before, and that was
      not there from the start. */
  predicate Ordered(base: set<string>, m: Method) {
    GivesAll(m) == {} || NeedsAll(m) <= base + LeadAll(m)
  }

  lemma {:induction false} LeadFirst(known: set<string>, p: Param)
    requires Early(known, p) != {}
    ensures Gives(p) != {} && Lead(p) <= known
    decreases p, 1
  {
    EarlyParts(known, p, true);
    if p.Attr? && GivesAll(p.parts) != {} {
      if EarlyAll(known, p.parts) == {} {
        EarlyMetAll(known, p.parts);
      }
      LeadFirstAll(known, p.parts);
    } else if p.Attr? {
      EarlyPartsAll(known, p.parts, false);
    }
  }

  lemma {:induction false} LeadFirstAll(known: set<string>, ps: seq<Param>)
    requires EarlyAll(known, ps) != {}
    ensures GivesAll(ps) != {} && LeadAll(ps) <= known
    decreases ps, 0
  {
    EarlyPartsAll(known, ps, true);
    if Gives(ps[0]) == {} {
      EarlyParts(known, ps[0], true);
      LeadFirstAll(known + Gives(ps[0]), ps[1..]);
    } else {
      if Early(known, ps[0]) == {} {
        EarlyMet(known, ps[0]);
      }
      LeadFirst(known, ps[0]);
    }
  }

  // An ordered method that has to wait has registered nothing.
  lemma {:induction false} OrderedWaits(base: set<string>, known: set<string>, m: Method)
    requires Ordered(base, m) && base <= known && !(NeedsAll(m) <= known)
    ensures EarlyAll(known, m) == {} && FatalAll(known, m, true) == {}
  {
    EarlyPartsAll(known, m, true);
    if EarlyAll(known, m) != {} {
      LeadFirstAll(known, m);
    }
  }

  lemma {:induction false} OrderedPass(base: set<string>, ms: seq<Method>, d: Dry, rest: seq<nat>)
    requires InRange(ms, rest) && InRange(ms, d.left) && base <= d.known
    requires forall i :: 0 <= i < |ms| ==> Ordered(base, ms[i])
    ensures !PassStumbles(d, ms, rest)
    ensures var d' := DryPass(d, ms, rest); d'.resolved >= d.resolved && (d'.resolved == d.resolved ==>
          d'.known == d.known)
    decreases |rest|
  {
    if rest != [] && !d.clash {
      if !(NeedsAll(ms[rest[0]]) <= d.known) {
        OrderedWaits(base, d.known, ms[rest[0]]);
      }
      OrderedPass(base, ms, DryTry(d, ms, rest[0]), rest[1..]);
    }
  }

  /** Lists of ordered methods never meet trouble. */
  lemma {:induction false} OrderedIsCalm(base: set<string>, ms: seq<Method>, known: set<string>, left: seq<nat>)
    requires InRange(ms, left) && base <= known && forall i :: 0 <= i < |ms| ==> Ordered(base, ms[i])
    ensures !Trouble(known, ms, left)
    decreases |left|
  {
    if left != [] {
      var start := Dry(false, known, [], 0);
      OrderedPass(base, ms, start, left);
      var d := DryPass(start, ms, left);
      if !d.clash && d.resolved > 0 {
        OrderedIsCalm(base, ms, d.known, d.left);
      }
    }
  }

  // --- A pass that registers without resolving ---------------------------------------------------------------

  // A nested patch of `t`, registered as `n`, before a reference to `y`; and `y`, which needs `n`.
  ghost predicate Entangled(t: string, n: string, y: string, m0: Method, m1: Method) {
    && t != n && n != y && t != y && |m0| == 1 && m0[0].Attr? && !m0[0].register
    && m0[0].parts == [Patch(t, n, true, []), Ref(y)]
    && |m1| == 2 && m1[0] == Ref(n) && m1[1].Attr? && m1[1].register && m1[1].name == y && m1[1].parts == []
  }

  lemma {:induction false} EntangledNames(t: string, n: string, y: string, m0: Method, m1: Method, known: set<string>)
    requires Entangled(t, n, y, m0, m1) && t in known
    ensures NeedsAll(m0) == {t, y} && GivesAll(m0) == {n}
    ensures FatalAll(known, m0, true) == {} && EarlyAll(known, m0) == {n}
    ensures NeedsAll(m1) == {n} && GivesAll(m1) == {y} && FatalAll(known, m1, true) <= {y}
    ensures n !in known ==> EarlyAll(known, m1) == {} && FatalAll(known, m1, true) == {}
  {
    var parts, tail := m0[0].parts, m1[1].parts;
    assert m0[1..] == [] && parts[1..] == [Ref(y)] && parts[1..][1..] == [];
    assert m1[1..] == [m1[1]] && m1[1..][1..] == [];
    LeafNames(y);
    assert Needs(parts[0]) == {t} && Gives(parts[0]) == {n};
    EarlyPartsAll(known + {n}, [Ref(y)], false);
    assert NeedsAll(parts) == {t, y} && GivesAll(parts) == {n};
    EarlyParts(known, parts[0], false);
    assert Early(known, parts[0]) == {n} && Fatal(known, parts[0], false) == {};
    assert EarlyAll(known, parts) == {n} && FatalAll(known, parts, false) == {};
    assert Needs(m0[0]) == {t, y} && Gives(m0[0]) == {n};
    EarlyPartsAll(known + {n}, m0[1..], true);
    assert Needs(m1[1]) == NeedsAll(tail) && Gives(m1[1]) == {y};
    assert NeedsAll(m1[1..]) == {} && GivesAll(m1[1..]) == {y};
    EarlyPartsAll(known, m1, true);
  }

  lemma {:induction false} LeafNames(y: string)
    ensures NeedsAll([]) == {} && GivesAll([]) == {} && NeedsAll([Ref(y)]) == {y} && GivesAll([Ref(y)]) == {}
  {
    assert [Ref(y)][1..] == [] && Needs(Ref(y)) == {y} && Gives(Ref(y)) == {};
  }

  /** A nested patch is registered although its method has to wait; where that is all that a pass
      achieves, the loop gives up, but in the other order it resolves both methods. */
  lemma {:induction false} GivesUpEarly(t: string, n: string, y: string, m0: Method, m1: Method)
    requires Entangled(t, n, y, m0, m1)
    ensures Resolvable({t}, [m1, m0]) && DryPasses({t}, [m1, m0], [0, 1]) == SomeLeft
    ensures DryPasses({t}, [m0, m1], [0, 1]) == AllResolved
  {
    EntangledStuck(t, n, y, m0, m1);
    EntangledResolves(t, n, y, m0, m1);
    forall known, i | Saturated({t}, [m1, m0], known) && 0 <= i < 2 ensures NeedsAll([m1, m0][i]) <= known {
      EntangledNames(t, n, y, m0, m1, known);
      assert EarlyAll(known, [m1, m0][1]) <= known;
      EarlyMetAll(known, m1);
      assert EarlyAll(known, [m1, m0][0]) <= known;
    }
  }

  lemma {:induction false} EntangledStuck(t: string, n: string, y: string, m0: Method, m1: Method)
    requires Entangled(t, n, y, m0, m1)
    ensures DryPasses({t}, [m1, m0], [0, 1]) == SomeLeft
  {
    EntangledNames(t, n, y, m0, m1, {t});
    assert [0, 1][1..] == [1] && [1][1..] == [];
    var ms, d0 := [m1, m0], Dry(false, {t}, [], 0);
    var d1, d2 := Dry(false, {t}, [0], 0), Dry(false, {t} + {n}, [0, 1], 0);
    assert DryTry(d0, ms, 0) == d1 && DryTry(d1, ms, 1) == d2;
    assert DryPass(d0, ms, [0, 1]) == DryPass(d1, ms, [1]) == DryPass(d2, ms, []) == d2;
  }

  lemma {:induction false} EntangledResolves(t: string, n: string, y: string, m0: Method, m1: Method)
    requires Entangled(t, n, y, m0, m1)
    ensures DryPasses({t}, [m0, m1], [0, 1]) == AllResolved
  {
    EntangledFirst(t, n, y, m0, m1);
    EntangledNames(t, n, y, m0, m1, {t, n, y});
    assert [0][1..] == [];
    var ms, d := [m0, m1], Dry(false, {t, n, y}, [], 0);
    assert DryTry(d, ms, 0).resolved == 1 && !DryTry(d, ms, 0).clash && DryTry(d, ms, 0).left == [];
    assert DryPass(d, ms, [0]) == DryTry(d, ms, 0);
  }

  lemma {:induction false} EntangledFirst(t: string, n: string, y: string, m0: Method, m1: Method)
    requires Entangled(t, n, y, m0, m1)
    ensures DryPass(Dry(false, {t}, [], 0), [m0, m1], [0, 1]) == Dry(false, {t, n, y}, [0], 1)
  {
    EntangledNames(t, n, y, m0, m1, {t});
    EntangledNames(t, n, y, m0, m1, {t, n});
    assert [0, 1][1..] == [1] && [1][1..] == [];
    var ms, d0 := [m0, m1], Dry(false, {t}, [], 0);
    var d1, d2 := Dry(false, {t, n}, [0], 0), Dry(false, {t, n, y}, [0], 1);
    assert {t} + {n} == {t, n} && {t, n} + {y} == {t, n, y};
    assert DryTry(d0, ms, 0) == d1 && DryTry(d1, ms, 1) == d2;
    assert DryPass(d0, ms, [0, 1]) == DryPass(d1, ms, [1]) == DryPass(d2, ms, []) == d2;
  }
}
