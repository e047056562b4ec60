/**
 The mail alias table of `get_aliases`: every key is rewritten in place to the value of its
 value, pass after pass, until a whole pass changes nothing.

 A table is a finite functional graph that may contain cycles. The measure that makes the loop
 terminate is the set of pairs `(x, y)` of keys with `y` reachable from `x`: a rewrite never adds
 a pair, and a pass that adds up to a change removes at least one.
 */
module Aliases {

  type Table = map<string, string>

  // Follow `n` links from `x`; a name outside the table maps to itself.
  ghost function Hop(m: Table, x: string, n: nat): string
    decreases n
  {
    if n == 0 || x !in m then x else Hop(m, m[x], n - 1)
  }

  ghost predicate Reaches(m: Table, x: string, y: string) {
    exists n: nat {:trigger Hop(m, x, n)} :: n >= 1 && Hop(m, x, n) == y
  }

  // The key lies on a cycle of the table.
  ghost predicate Cyclic(m: Table, x: string) {
    x in m && Reaches(m, x, x)
  }

  // The two chains run into a common name.
  ghost predicate Meet(m: Table, x: string, y: string) {
    exists i: nat, j: nat {:trigger Hop(m, x, i), Hop(m, y, j)} :: Hop(m, x, i) == Hop(m, y, j)
  }

  ghost function Pairs(m: Table): set<(string, string)> {
    set x, y | x in m && y in m && Reaches(m, x, y) :: (x, y)
  }

  // One more visit of `k` would not change the table.
  predicate Settled(m: Table, k: string)
    requires k in m
  {
    m[k] !in m || m[k] == k || m[m[k]] == m[k]
  }

  function Visit(m: Table, k: string): Table
    requires k in m
  {
    if m[k] == k then m else if m[k] in m then m[k := m[m[k]]] else m
  }

  // --- Walking -------------------------------------------------------------------------------

  lemma {:induction false} HopAdd(m: Table, x: string, a: nat, b: nat)
    ensures Hop(m, Hop(m, x, a), b) == Hop(m, x, a + b)
    decreases a
  {
    if a == 0 {
    } else if x !in m {
    } else {
      HopAdd(m, m[x], a - 1, b);
    }
  }

  lemma {:induction false} HopOne(m: Table, x: string)
    requires x in m
    ensures Hop(m, x, 1) == m[x] && Reaches(m, x, m[x])
  {
    assert Hop(m, x, 1) == Hop(m, m[x], 0);
  }

  lemma {:induction false} ReachesTrans(m: Table, x: string, y: string, z: string)
    requires Reaches(m, x, y) && Reaches(m, y, z)
    ensures Reaches(m, x, z)
  {
    var a: nat :| a >= 1 && Hop(m, x, a) == y;
    var b: nat :| b >= 1 && Hop(m, y, b) == z;
    HopAdd(m, x, a, b);
  }

  // Anything but the first successor is reached from the first successor.
  lemma {:induction false} ReachesFromNext(m: Table, x: string, y: string)
    requires x in m && Reaches(m, x, y)
    ensures y == m[x] || Reaches(m, m[x], y)
  {
    var n: nat :| n >= 1 && Hop(m, x, n) == y;
    assert Hop(m, m[x], n - 1) == y;
  }

  lemma {:induction false} HopPeriod(m: Table, x: string, p: nat, times: nat)
    requires Hop(m, x, p) == x
    ensures Hop(m, x, p * times) == x
  {
    if times > 0 {
      HopPeriod(m, x, p, times - 1);
      HopAdd(m, x, p, p * (times - 1));
      assert p + p * (times - 1) == p * times;
    }
  }

  // A table is injective on its cycles.
  lemma {:induction false} CyclicInjective(m: Table, p: string, k: string)
    requires Cyclic(m, p) && Cyclic(m, k) && m[p] == m[k]
    ensures p == k
  {
    var v := m[p];
    var a: nat :| a >= 1 && Hop(m, p, a) == p;
    var b: nat :| b >= 1 && Hop(m, k, b) == k;
    assert Hop(m, v, a - 1) == p && Hop(m, v, b - 1) == k;
    HopOne(m, p);
    HopOne(m, k);
    HopAdd(m, v, a - 1, 1);
    HopAdd(m, v, b - 1, 1);
    assert Hop(m, v, a) == v && Hop(m, v, b) == v;
    HopPeriod(m, v, a, b - 1);
    HopAdd(m, v, a * (b - 1), a - 1);
    HopPeriod(m, v, b, a - 1);
    HopAdd(m, v, b * (a - 1), b - 1);
    assert a * (b - 1) + (a - 1) == a * b - 1 == b * (a - 1) + (b - 1) by {
      assert a * (b - 1) == a * b - a;
      assert b * (a - 1) == b * a - b;
    }
  }

  // --- Refinement: every link of the new table is a walk of the old one ------------------------

  ghost predicate Shortcuts(old_: Table, new_: Table) {
    old_.Keys == new_.Keys && forall x :: x in new_ ==> Reaches(old_, x, new_[x])
  }

  lemma {:induction false} ShortcutsRefl(m: Table)
    ensures Shortcuts(m, m)
  {
    forall x | x in m ensures Reaches(m, x, m[x]) {
      HopOne(m, x);
    }
  }

  lemma {:induction false} ShortcutsHop(m: Table, m': Table, x: string, n: nat)
    requires Shortcuts(m, m') && n >= 1 && x in m'
    ensures Reaches(m, x, Hop(m', x, n))
    decreases n
  {
    if n == 1 || m'[x] !in m' {
      assert Hop(m', x, n) == m'[x];
    } else {
      ShortcutsHop(m, m', m'[x], n - 1);
      ReachesTrans(m, x, m'[x], Hop(m', x, n));
    }
  }

  lemma {:induction false} ShortcutsReaches(m: Table, m': Table, x: string, y: string)
    requires Shortcuts(m, m') && x in m' && Reaches(m', x, y)
    ensures Reaches(m, x, y)
  {
    var n: nat :| n >= 1 && Hop(m', x, n) == y;
    ShortcutsHop(m, m', x, n);
  }

  lemma {:induction false} ShortcutsTrans(a: Table, b: Table, c: Table)
    requires Shortcuts(a, b) && Shortcuts(b, c)
    ensures Shortcuts(a, c)
  {
    forall x | x in c ensures Reaches(a, x, c[x]) {
      ShortcutsReaches(a, b, x, c[x]);
    }
  }

  lemma {:induction false} VisitShortcuts(m: Table, k: string)
    requires k in m
    ensures Shortcuts(m, Visit(m, k)) && Pairs(Visit(m, k)) <= Pairs(m)
  {
    var m' := Visit(m, k);
    forall x | x in m' ensures Reaches(m, x, m'[x]) {
      HopOne(m, x);
      if m'[x] != m[x] {
        HopOne(m, m[x]);
        ReachesTrans(m, x, m[x], m'[x]);
      }
    }
    forall x, y | (x, y) in Pairs(m') ensures (x, y) in Pairs(m) {
      ShortcutsReaches(m, m', x, y);
    }
  }

  // --- Termination -----------------------------------------------------------------------------

  // Skipping an acyclic link: it can no longer be reached.
  lemma {:induction false} AcyclicJumpDrops(m: Table, k: string)
    requires k in m && !Settled(m, k) && !Cyclic(m, m[k])
    ensures Pairs(Visit(m, k)) < Pairs(m)
  {
    var v, m' := m[k], Visit(m, k);
    VisitShortcuts(m, k);
    HopOne(m, k);
    HopOne(m, v);
    assert (k, v) in Pairs(m);
    if Reaches(m', k, v) {
      ReachesFromNext(m', k, v);
      ShortcutsReaches(m, m', m[v], v);
      ReachesTrans(m, v, m[v], v);
    }
  }

  // Skipping a link of one's own cycle: the skipped key leaves the cycle.
  lemma {:induction false} CyclicJumpDrops(m: Table, k: string)
    requires Cyclic(m, k) && !Settled(m, k)
    ensures Pairs(Visit(m, k)) < Pairs(m)
  {
    var v, m' := m[k], Visit(m, k);
    VisitShortcuts(m, k);
    HopOne(m, k);
    ReachesFromNext(m, k, k);
    ReachesTrans(m, v, k, v);
    assert (v, v) in Pairs(m);
    if Reaches(m', v, v) {
      var n: nat :| n >= 1 && Hop(m', v, n) == v;
      var p := Hop(m', v, n - 1);
      HopAdd(m', v, n - 1, 1);
      if p in m' {
        HopOne(m', p);
        if n > 1 {
          ReachesTrans(m', p, v, p);
        }
        ShortcutsReaches(m, m', p, p);
        CyclicInjective(m, p, k);
      }
    }
  }

  // A key on a cycle of two or more keys, told from the reachable pairs alone.
  ghost predicate OnRealCycle(pairs: set<(string, string)>, k: string) {
    (k, k) in pairs && exists y :: y != k && (k, y) in pairs
  }

  // What one visit achieves, in terms of the pairs the pass started with.
  lemma {:induction false} VisitProgress(m: Table, k: string)
    requires k in m
    ensures Pairs(Visit(m, k)) <= Pairs(m)
    ensures !Settled(m, k) && !OnRealCycle(Pairs(m), m[k]) ==> Pairs(Visit(m, k)) < Pairs(m)
    ensures OnRealCycle(Pairs(m), k) ==> Pairs(Visit(m, k)) < Pairs(m)
    ensures Settled(m, k) ==> Visit(m, k) == m
  {
    VisitShortcuts(m, k);
    var v := m[k];
    if Settled(m, k) {
      if m[k] in m && m[k] != k {
        assert m[k := m[m[k]]] == m;
      }
      if OnRealCycle(Pairs(m), k) {
        SettledNotOnRealCycle(m, k);
      }
    } else {
      if Cyclic(m, k) {
        CyclicJumpDrops(m, k);
      } else if !Cyclic(m, v) {
        AcyclicJumpDrops(m, k);
      } else {
        HopOne(m, v);
        assert (v, m[v]) in Pairs(m) || m[v] !in m;
        if m[v] !in m {
          ReachesFromNext(m, v, v);
        }
      }
    }
  }

  lemma {:induction false} SettledNotOnRealCycle(m: Table, k: string)
    requires k in m && Settled(m, k)
    ensures !OnRealCycle(Pairs(m), k)
  {
    forall n: nat | n >= 1 ensures Hop(m, k, n) == m[k] {
      StepsFromSettled(m, k, n);
    }
  }

  lemma {:induction false} StepsFromSettled(m: Table, k: string, n: nat)
    requires k in m && Settled(m, k) && n >= 1
    ensures Hop(m, k, n) == m[k]
    decreases n
  {
    if n > 1 {
      if m[k] !in m {
      } else {
        StepsFromSettled(m, m[k], n - 1);
      }
    }
  }

  // --- Chains that merge keep merging --------------------------------------------------------------

  lemma {:induction false} MeetTrans(m: Table, x: string, y: string, z: string)
    requires Meet(m, x, y) && Meet(m, y, z)
    ensures Meet(m, x, z)
  {
    var i: nat, j: nat :| Hop(m, x, i) == Hop(m, y, j);
    var k: nat, l: nat :| Hop(m, y, k) == Hop(m, z, l);
    HopAdd(m, x, i, k);
    HopAdd(m, y, j, k);
    HopAdd(m, y, k, j);
    HopAdd(m, z, l, j);
    assert Hop(m, x, i + k) == Hop(m, z, l + j);
  }

  lemma {:induction false} MeetNext(m: Table, x: string)
    ensures Meet(m, x, x)
    ensures x in m ==> Meet(m, x, m[x]) && Meet(m, m[x], x)
  {
    assert Hop(m, x, 0) == Hop(m, x, 0);
    if x in m {
      HopOne(m, x);
      assert Hop(m, x, 1) == Hop(m, m[x], 0);
    }
  }

  ghost predicate Merges(m: Table, m': Table) {
    m.Keys == m'.Keys && forall x :: x in m ==> Meet(m', x, m[x])
  }

  lemma {:induction false} MergesHop(m: Table, m': Table, x: string, n: nat)
    requires Merges(m, m')
    ensures Meet(m', x, Hop(m, x, n))
    decreases n
  {
    if n == 0 || x !in m {
      MeetNext(m', x);
    } else {
      MergesHop(m, m', m[x], n - 1);
      MeetTrans(m', x, m[x], Hop(m, x, n));
    }
  }

  lemma {:induction false} MeetSym(m: Table, x: string, y: string)
    requires Meet(m, x, y)
    ensures Meet(m, y, x)
  {
    var i: nat, j: nat :| Hop(m, x, i) == Hop(m, y, j);
    assert Hop(m, y, j) == Hop(m, x, i);
  }

  lemma {:induction false} MergesMeet(m: Table, m': Table, x: string, y: string)
    requires Merges(m, m') && Meet(m, x, y)
    ensures Meet(m', x, y)
  {
    var i: nat, j: nat :| Hop(m, x, i) == Hop(m, y, j);
    MergesHop(m, m', x, i);
    MergesHop(m, m', y, j);
    MeetSym(m', y, Hop(m, y, j));
    MeetTrans(m', x, Hop(m, x, i), y);
  }

  lemma {:induction false} VisitMerges(m0: Table, m: Table, k: string)
    requires Merges(m0, m) && k in m
    ensures Merges(m0, Visit(m, k))
  {
    var m' := Visit(m, k);
    assert Merges(m, m') by {
      forall x | x in m ensures Meet(m', x, m[x]) {
        MeetNext(m', x);
        if m'[x] != m[x] {
          MeetNext(m', m[x]);
          assert m'[x] == m'[m[x]];
          MeetTrans(m', x, m'[x], m[x]);
        }
      }
    }
    forall x | x in m0 ensures Meet(m', x, m0[x]) {
      MergesMeet(m, m', x, m0[x]);
    }
  }

  // --- The loop --------------------------------------------------------------------------------------

  // `order` lists the keys of the table, in whatever order the dictionary iterates over them.
  ghost predicate ListsKeys(order: seq<string>, m: Table) {
    forall k :: k in order <==> k in m
  }

  // What a pass has established about the keys it has visited, while no pair has been lost.
  ghost predicate PassState(start: Table, cur: Table, seen: seq<string>)
    requires forall k :: k in seen ==> k in start
  {
    || Pairs(cur) < Pairs(start)
    || (&& Pairs(cur) == Pairs(start)
        && (forall k :: k in seen ==> !OnRealCycle(Pairs(start), k))
        && (|| (exists v :: v in start && OnRealCycle(Pairs(start), v))
            || (cur == start && forall k :: k in seen ==> Settled(start, k))))
  }

  lemma {:induction false} PassStep(start: Table, cur: Table, seen: seq<string>, k: string)
    requires start.Keys == cur.Keys && k in cur
    requires forall k :: k in seen ==> k in start
    requires PassState(start, cur, seen)
    ensures PassState(start, Visit(cur, k), seen + [k])
  {
    VisitProgress(cur, k);
    if Pairs(cur) == Pairs(start) && Pairs(Visit(cur, k)) == Pairs(cur) && !Settled(cur, k) {
      assert OnRealCycle(Pairs(start), cur[k]);
    }
  }

  lemma {:induction false} VisitStep(original: Table, start: Table, cur: Table, order: seq<string>, i: nat)
    requires ListsKeys(order, start) && Shortcuts(original, start) && i < |order|
    requires Shortcuts(original, cur) && Merges(original, cur) && PassState(start, cur, order[..i])
    ensures var next := Visit(cur, order[i]);
            Shortcuts(original, next) && Merges(original, next) && PassState(start, next, order[..i + 1])
  {
    var key := order[i];
    VisitShortcuts(cur, key);
    ShortcutsTrans(original, cur, Visit(cur, key));
    VisitMerges(original, cur, key);
    PassStep(start, cur, order[..i], key);
    assert order[..i + 1] == order[..i] + [key];
  }

  // One pass of the inner loop over the whole table.
  method Pass(order: seq<string>, start: Table, ghost original: Table) returns (aliases: Table)
    requires ListsKeys(order, start) && Shortcuts(original, start) && Merges(original, start)
    ensures Shortcuts(original, aliases) && Merges(original, aliases)
    ensures aliases != start ==> Pairs(aliases) < Pairs(start)
    ensures aliases == start ==> forall k :: k in start ==> Settled(start, k)
  {
    aliases := start;
    for i := 0 to |order|
      invariant Shortcuts(original, aliases) && Merges(original, aliases)
      invariant PassState(start, aliases, order[..i])
    {
      var key := order[i];
      ghost var before := aliases;
      assert key in start;
      if key == aliases[key] {
        // a recursive dependency, reported and left alone
      } else if aliases[key] in aliases {
        aliases := aliases[key := aliases[aliases[key]]];
      }
      assert aliases == Visit(before, key);
      VisitStep(original, start, before, order, i);
    }
    assert order[..|order|] == order;
    forall k | k in start ensures k in order {
    }
  }

  /** What a key must resolve to: the end of its chain when the chain leaves the table, and
      otherwise a key of the cycle the chain runs into. */
  ghost predicate Resolves(t: Table, k: string, target: string) {
    && Reaches(t, k, target)
    && (target !in t || Cyclic(t, target))
  }

  lemma {:induction false} LeftForGood(t: Table, end: string, n: nat)
    requires end !in t
    ensures Hop(t, end, n) == end
  {
  }

  // A chain that leaves the table has one end, and never sees a cycle.
  lemma {:induction false} ResolvesUnique(t: Table, k: string, end: string, target: string)
    requires k in t && Reaches(t, k, end) && end !in t && Resolves(t, k, target)
    ensures target == end
  {
    var a: nat :| a >= 1 && Hop(t, k, a) == end;
    var b: nat :| b >= 1 && Hop(t, k, b) == target;
    HopAdd(t, k, b, a);
    HopAdd(t, k, a, b);
    assert Hop(t, target, a) == end;
    if target in t {
      var p: nat :| p >= 1 && Hop(t, target, p) == target;
      HopPeriod(t, target, p, a);
      assert p * a >= a;
      HopAdd(t, target, a, p * a - a);
      LeftForGood(t, end, p * a - a);
    }
  }

  lemma {:induction false} SettledMeet(m: Table, x: string, y: string)
    requires x in m && y in m && Settled(m, x) && Settled(m, y) && Meet(m, x, y)
    ensures m[x] == m[y]
  {
    var i: nat, j: nat :| Hop(m, x, i) == Hop(m, y, j);
    HopAdd(m, x, i, 1);
    HopAdd(m, y, j, 1);
    StepsFromSettled(m, x, i + 1);
    StepsFromSettled(m, y, j + 1);
  }

  lemma {:induction false} SettledResolves(t: Table, m: Table, k: string)
    requires Shortcuts(t, m) && k in m
    requires forall x :: x in m ==> Settled(m, x)
    ensures Resolves(t, k, m[k])
    ensures m[k] in m ==> m[m[k]] == m[k]
  {
    assert Settled(m, k);
    if m[k] in m {
      assert Reaches(t, m[k], m[m[k]]);
    }
  }

  lemma {:induction false} SameTargetMeet(t: Table, x: string, y: string, target: string)
    requires Reaches(t, x, target) && Reaches(t, y, target)
    ensures Meet(t, x, y)
  {
    var a: nat :| a >= 1 && Hop(t, x, a) == target;
    var b: nat :| b >= 1 && Hop(t, y, b) == target;
    assert Hop(t, x, a) == Hop(t, y, b);
  }

  /** The loop of `get_aliases`, on any table and any visiting order. */
  method ResolveAliases(order: seq<string>, table: Table) returns (aliases: Table)
    requires ListsKeys(order, table)
    ensures aliases.Keys == table.Keys
    // every key ends outside the table, or on a key of the cycle it ran into, mapped to itself
    ensures forall k :: k in table ==> Resolves(table, k, aliases[k])
    ensures forall k :: k in table && aliases[k] in table ==> aliases[aliases[k]] == aliases[k]
    // a chain that leaves the table is replaced by its end
    ensures forall k, end :: k in table && end !in table && Reaches(table, k, end) ==> aliases[k] == end
    // two keys get one address exactly when their chains merge
    ensures forall x, y :: x in table && y in table ==> (aliases[x] == aliases[y] <==> Meet(table, x, y))
  {
    aliases := table;
    ShortcutsRefl(table);
    forall x | x in table ensures Meet(table, x, table[x]) {
      MeetNext(table, x);
    }
    while true
      invariant Shortcuts(table, aliases) && Merges(table, aliases)
      decreases Pairs(aliases)
    {
      var oldAliases := aliases;
      aliases := Pass(order, oldAliases, table);
      if aliases == oldAliases {
        break;
      }
    }
    forall k | k in table ensures Resolves(table, k, aliases[k])
      ensures aliases[k] in table ==> aliases[aliases[k]] == aliases[k]
    {
      SettledResolves(table, aliases, k);
    }
    forall k, end | k in table && end !in table && Reaches(table, k, end) ensures aliases[k] == end {
      ResolvesUnique(table, k, end, aliases[k]);
    }
    forall x, y | x in table && y in table ensures aliases[x] == aliases[y] <==> Meet(table, x, y) {
      if aliases[x] == aliases[y] {
        SameTargetMeet(table, x, y, aliases[x]);
      }
      if Meet(table, x, y) {
        MergesMeet(table, aliases, x, y);
        SettledMeet(aliases, x, y);
      }
    }
  }
}
