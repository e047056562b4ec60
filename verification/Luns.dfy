/**
 LUN numbers of the extents of one iSCSI target: rows with an explicit number keep it, the others
 are given the free numbers in order, and rows that are disabled or locked are left out.
 */
module Luns {
  import opened Wrappers

  datatype Row = Row(extentId: nat, name: string, lunId: Option<nat>, enabled: bool)

  datatype Line = Line(lun: nat, name: string)

  predicate Emitted(row: Row, locked: set<nat>) {
    row.enabled && row.extentId !in locked
  }

  // Numbers claimed explicitly, also by rows that are not emitted.
  function Used(rows: seq<Row>): set<nat> {
    set i | 0 <= i < |rows| && rows[i].lunId.Some? :: rows[i].lunId.value
  }

  ghost function From(used: set<nat>, n: nat): (s: set<nat>) {
    set x | x in used && x >= n
  }

  // The numbers in use from `from` on run out.
  function NextFree(used: set<nat>, from: nat): (n: nat)
    ensures n !in used && n >= from && forall m :: from <= m < n ==> m in used
    decreases From(used, from)
  {
    if from in used then
      assert From(used, from + 1) < From(used, from) by {
        assert from in From(used, from) && from !in From(used, from + 1);
      }
      NextFree(used, from + 1)
    else from
  }

  function NthFree(used: set<nat>, k: nat): nat {
    if k == 0 then NextFree(used, 0) else NextFree(used, NthFree(used, k - 1) + 1)
  }

  // How many of the naturals below `n` are free.
  function CountFree(used: set<nat>, n: nat): nat {
    if n == 0 then 0 else CountFree(used, n - 1) + (if n - 1 in used then 0 else 1)
  }

  lemma {:induction false} CountFreeGap(used: set<nat>, a: nat, b: nat)
    requires a <= b && forall m :: a <= m < b ==> m in used
    ensures CountFree(used, b) == CountFree(used, a)
    decreases b - a
  {
    if a < b {
      CountFreeGap(used, a, b - 1);
    }
  }

  /** `NthFree` is the one free number that has exactly `k` free numbers below it. */
  lemma {:induction false} NthFreeIsNth(used: set<nat>, k: nat, n: nat)
    ensures n == NthFree(used, k) <==> n !in used && CountFree(used, n) == k
  {
    NthFreeCount(used, k);
    var m := NthFree(used, k);
    if n !in used && CountFree(used, n) == k && n != m {
      CountFreeStrict(used, if n < m then n else m, if n < m then m else n);
    }
  }

  lemma {:induction false} NthFreeCount(used: set<nat>, k: nat)
    ensures NthFree(used, k) !in used && CountFree(used, NthFree(used, k)) == k
  {
    if k == 0 {
      CountFreeGap(used, 0, NthFree(used, 0));
    } else {
      NthFreeCount(used, k - 1);
      CountFreeGap(used, NthFree(used, k - 1) + 1, NthFree(used, k));
    }
  }

  lemma {:induction false} CountFreeStrict(used: set<nat>, a: nat, b: nat)
    requires a < b && a !in used
    ensures CountFree(used, a) < CountFree(used, b)
    decreases b
  {
    if b > a + 1 {
      CountFreeStrict(used, a, b - 1);
    }
  }

  // Emitted rows without a number among the first `i`.
  function AutoBefore(rows: seq<Row>, locked: set<nat>, i: nat): nat
    requires i <= |rows|
  {
    if i == 0 then 0
    else AutoBefore(rows, locked, i - 1) + (if Emitted(rows[i - 1], locked) && rows[i - 1].lunId.None? then 1 else 0)
  }

  /** The number of row `i`, if the row is emitted. */
  function LunOf(rows: seq<Row>, locked: set<nat>, i: nat): Option<nat>
    requires i < |rows|
  {
    if !Emitted(rows[i], locked) then None
    else if rows[i].lunId.Some? then rows[i].lunId
    else Some(NthFree(Used(rows), AutoBefore(rows, locked, i)))
  }

  function Lines(rows: seq<Row>, locked: set<nat>, i: nat): seq<Line>
    requires i <= |rows|
  {
    if i == 0 then []
    else
      var lun := LunOf(rows, locked, i - 1);
      Lines(rows, locked, i - 1) + (if lun.Some? then [Line(lun.value, rows[i - 1].name)] else [])
  }

  lemma {:induction false} AutoBeforeMono(rows: seq<Row>, locked: set<nat>, i: nat, j: nat)
    requires i <= j <= |rows|
    ensures AutoBefore(rows, locked, i) <= AutoBefore(rows, locked, j)
    decreases j
  {
    if i < j {
      AutoBeforeMono(rows, locked, i, j - 1);
    }
  }

  // The numbers below `n` that no row claims.
  ghost function FreeBelow(rows: seq<Row>, n: nat): set<nat> {
    set m: nat | m < n && forall j :: 0 <= j < |rows| ==> rows[j].lunId != Some(m)
  }

  // The automatic rows before row `i` that are written.
  ghost function AutomaticBefore(rows: seq<Row>, locked: set<nat>, i: nat): set<nat>
    requires i <= |rows|
  {
    set j: nat | j < i && rows[j].enabled && rows[j].extentId !in locked && rows[j].lunId.None?
  }

  lemma {:induction false} CountFreeIs(rows: seq<Row>, n: nat)
    ensures CountFree(Used(rows), n) == |FreeBelow(rows, n)|
  {
    if n == 0 {
      assert FreeBelow(rows, n) == {};
    } else {
      CountFreeIs(rows, n - 1);
      assert FreeBelow(rows, n) == FreeBelow(rows, n - 1) + (if n - 1 in Used(rows) then {} else {n - 1});
    }
  }

  lemma {:induction false} AutoBeforeIs(rows: seq<Row>, locked: set<nat>, i: nat)
    requires i <= |rows|
    ensures AutoBefore(rows, locked, i) == |AutomaticBefore(rows, locked, i)|
  {
    if i == 0 {
      assert AutomaticBefore(rows, locked, i) == {};
    } else {
      AutoBeforeIs(rows, locked, i - 1);
      assert AutomaticBefore(rows, locked, i) == AutomaticBefore(rows, locked, i - 1) +
             (if Emitted(rows[i - 1], locked) && rows[i - 1].lunId.None? then {i - 1} else {});
    }
  }

  /** A row is written exactly if it is enabled and not locked; with the number that it claims; or with one
      that no row claims and that has as many such numbers below it as automatic rows are written before. */
  lemma {:induction false} LunExactly(rows: seq<Row>, locked: set<nat>, i: nat)
    requires i < |rows|
    ensures var lun, row := LunOf(rows, locked, i), rows[i];
            && (lun.Some? <==> row.enabled && row.extentId !in locked)
            && (lun.Some? && row.lunId.Some? ==> lun == row.lunId)
            && (lun.Some? && row.lunId.None? ==>
                  && (forall j :: 0 <= j < |rows| ==> rows[j].lunId != lun)
                  && |FreeBelow(rows, lun.value)| == |AutomaticBefore(rows, locked, i)|)
  {
    var lun := LunOf(rows, locked, i);
    if lun.Some? && rows[i].lunId.None? {
      NthFreeCount(Used(rows), AutoBefore(rows, locked, i));
      CountFreeIs(rows, lun.value);
      AutoBeforeIs(rows, locked, i);
    }
  }

  // Positions of the rows that are written.
  function WrittenAt(rows: seq<Row>, locked: set<nat>, n: nat): (ks: seq<nat>)
    requires n <= |rows|
    ensures forall k :: 0 <= k < |ks| ==> ks[k] < n
  {
    if n == 0 then []
    else
      WrittenAt(rows, locked, n - 1)
      + (if rows[n - 1].enabled && rows[n - 1].extentId !in locked then [n - 1] else [])
  }

  /** The lines are those of the written rows, in order, each with the name and the number of its row. */
  lemma {:induction false} LinesExactly(rows: seq<Row>, locked: set<nat>, n: nat)
    requires n <= |rows|
    ensures var ks, lines := WrittenAt(rows, locked, n), Lines(rows, locked, n);
            && |lines| == |ks|
            && forall k :: 0 <= k < |ks| ==>
                 lines[k].name == rows[ks[k]].name && Some(lines[k].lun) == LunOf(rows, locked, ks[k])
  {
    if n > 0 {
      LinesExactly(rows, locked, n - 1);
    }
  }

  /** With distinct explicit numbers, no number is given out twice. */
  lemma {:induction false} LunsDistinct(rows: seq<Row>, locked: set<nat>, i: nat, j: nat)
    requires i < j < |rows| && LunOf(rows, locked, i).Some? && LunOf(rows, locked, j).Some?
    requires forall a, b :: 0 <= a < b < |rows| && rows[a].lunId.Some? && rows[b].lunId.Some? ==>
          rows[a].lunId != rows[b].lunId
    ensures LunOf(rows, locked, i) != LunOf(rows, locked, j)
  {
    NthFreeCount(Used(rows), AutoBefore(rows, locked, i));
    NthFreeCount(Used(rows), AutoBefore(rows, locked, j));
    if rows[i].lunId.None? && rows[j].lunId.None? {
      AutoBeforeMono(rows, locked, i + 1, j);
    } else if rows[i].lunId.Some? {
      assert rows[i].lunId.value in Used(rows);
    } else {
      assert rows[j].lunId.value in Used(rows);
    }
  }

  lemma {:induction false} AutoBeforeToggled(rows: seq<Row>, locked: set<nat>, rows': seq<Row>, locked': set<nat>,
                                             j: nat, i: nat)
    requires |rows'| == |rows| && i <= |rows| && j < |rows| && rows[j].lunId.Some? && rows'[j].lunId == rows[j].lunId
    requires forall k :: 0 <= k < |rows| && k != j ==>
               rows'[k] == rows[k] && (Emitted(rows'[k], locked') <==> Emitted(rows[k], locked))
    ensures AutoBefore(rows', locked', i) == AutoBefore(rows, locked, i)
  {
    if i > 0 {
      AutoBeforeToggled(rows, locked, rows', locked', j, i - 1);
    }
  }

  /** Locking, unlocking, enabling or disabling an extent with an explicit number moves no other row. */
  lemma {:induction false} OthersKeepTheirLun(rows: seq<Row>, locked: set<nat>, rows': seq<Row>, locked': set<nat>,
                                              j: nat, i: nat)
    requires |rows'| == |rows| && i < |rows| && j < |rows| && i != j && rows[j].lunId.Some?
    requires rows'[j].lunId == rows[j].lunId
    requires forall k :: 0 <= k < |rows| && k != j ==>
               rows'[k] == rows[k] && (Emitted(rows'[k], locked') <==> Emitted(rows[k], locked))
    ensures LunOf(rows', locked', i) == LunOf(rows, locked, i)
  {
    AutoBeforeToggled(rows, locked, rows', locked', j, i);
    SameUsed(rows, rows');
  }

  // Row `j` is emitted in the first setting and skipped in the second; nothing else differs.
  ghost predicate Skips(rows: seq<Row>, locked: set<nat>, rows': seq<Row>, locked': set<nat>, j: nat) {
    && |rows'| == |rows| && j < |rows| && rows'[j].lunId == rows[j].lunId
    && Emitted(rows[j], locked) && !Emitted(rows'[j], locked')
    && forall k :: 0 <= k < |rows| && k != j ==>
         rows'[k] == rows[k] && (Emitted(rows'[k], locked') <==> Emitted(rows[k], locked))
  }

  lemma {:induction false} AutoBeforeSkipped(rows: seq<Row>, locked: set<nat>, rows': seq<Row>, locked': set<nat>,
                                             j: nat, i: nat)
    requires Skips(rows, locked, rows', locked', j) && rows[j].lunId.None? && i <= |rows|
    ensures AutoBefore(rows', locked', i) == AutoBefore(rows, locked, i) - (if i > j then 1 else 0)
  {
    if i > 0 {
      AutoBeforeSkipped(rows, locked, rows', locked', j, i - 1);
    }
  }

  lemma {:induction false} NthFreeStrict(used: set<nat>, k: nat)
    ensures NthFree(used, k + 1) > NthFree(used, k)
  {
  }

  /** When an automatic row is skipped, exactly the automatic rows after it that are emitted change
      their number: each takes the free number before its own. */
  lemma {:induction false} AutomaticRowsShift(rows: seq<Row>, locked: set<nat>, rows': seq<Row>, locked': set<nat>,
                                              j: nat, i: nat)
    requires Skips(rows, locked, rows', locked', j) && rows[j].lunId.None? && i < |rows| && i != j
    ensures LunOf(rows', locked', i) != LunOf(rows, locked, i) <==>
          i > j && rows[i].lunId.None? && Emitted(rows[i], locked)
    ensures i > j && rows[i].lunId.None? && Emitted(rows[i], locked) ==>
              var k := AutoBefore(rows, locked, i);
              && k > 0 && LunOf(rows, locked, i) == Some(NthFree(Used(rows), k))
              && LunOf(rows', locked', i) == Some(NthFree(Used(rows), k - 1))
  {
    AutoBeforeSkipped(rows, locked, rows', locked', j, i);
    SameUsed(rows, rows');
    if i > j {
      AutoBeforeMono(rows, locked, j + 1, i);
      NthFreeStrict(Used(rows), AutoBefore(rows, locked, i) - 1);
    }
  }

  lemma {:induction false} SameUsed(rows: seq<Row>, rows': seq<Row>)
    requires |rows'| == |rows| && forall k :: 0 <= k < |rows| ==> rows'[k].lunId == rows[k].lunId
    ensures Used(rows') == Used(rows)
  {
  }

  // Two automatic rows, and the first one locked.
  lemma {:induction false} SecondRowShifts(name: string)
    ensures var rows := [Row(0, name, None, true), Row(1, name, None, true)];
            LunOf(rows, {}, 1) == Some(1) && LunOf(rows, {0}, 1) == Some(0)
  {
    var rows := [Row(0, name, None, true), Row(1, name, None, true)];
    assert Used(rows) == {};
    assert AutoBefore(rows, {}, 1) == 1;
    assert NthFree({}, 0) == 0 && NthFree({}, 1) == NextFree({}, 1) == 1;
    AutomaticRowsShift(rows, {}, rows, {0}, 0, 1);
  }

  // The search for a free number.
  method SkipUsed(used: set<nat>, start: nat) returns (curLunId: nat)
    ensures curLunId == NextFree(used, start)
    ensures start <= curLunId && curLunId !in used && forall n :: start <= n < curLunId ==> n in used
  {
    curLunId := start;
    while curLunId in used
      invariant NextFree(used, curLunId) == NextFree(used, start)
      decreases NextFree(used, start) - curLunId
    {
      curLunId := curLunId + 1;
    }
  }

  // The first `i` rows are written, and the search for the next automatic one goes on from `cur`.
  ghost predicate Written(rows: seq<Row>, locked: set<nat>, i: nat, lines: seq<Line>, cur: nat) {
    && i <= |rows| && lines == Lines(rows, locked, i)
    && NextFree(Used(rows), cur) == NthFree(Used(rows), AutoBefore(rows, locked, i))
  }

  lemma {:induction false} SkippedRow(rows: seq<Row>, locked: set<nat>, i: nat, lines: seq<Line>, cur: nat)
    requires i < |rows| && !Emitted(rows[i], locked) && Written(rows, locked, i, lines, cur)
    ensures Written(rows, locked, i + 1, lines, cur)
  {
  }

  lemma {:induction false} ExplicitRow(rows: seq<Row>, locked: set<nat>, i: nat, lines: seq<Line>, cur: nat)
    requires i < |rows| && Emitted(rows[i], locked) && rows[i].lunId.Some? && Written(rows, locked, i, lines, cur)
    ensures Written(rows, locked, i + 1, lines + [Line(rows[i].lunId.value, rows[i].name)], cur)
  {
  }

  lemma {:induction false} AutomaticRow(rows: seq<Row>, locked: set<nat>, i: nat, lines: seq<Line>, cur: nat,
                                        found: nat)
    requires i < |rows| && Emitted(rows[i], locked) && rows[i].lunId.None? && Written(rows, locked, i, lines, cur)
    requires found == NextFree(Used(rows), cur)
    ensures Written(rows, locked, i + 1, lines + [Line(found, rows[i].name)], found + 1)
  {
    var k := AutoBefore(rows, locked, i);
    assert AutoBefore(rows, locked, i + 1) == k + 1;
    assert NthFree(Used(rows), k + 1) == NextFree(Used(rows), found + 1);
  }

  /** The loop that writes the `lun` lines of a target. */
  method AssignLuns(rows: seq<Row>, locked: set<nat>) returns (lines: seq<Line>)
    ensures lines == Lines(rows, locked, |rows|)
  {
    var usedLunIds: set<nat> := Used(rows);
    lines := [];
    var curLunId := 0;
    for i := 0 to |rows|
      invariant Written(rows, locked, i, lines, curLunId)
    {
      var row := rows[i];
      if !row.enabled || row.extentId in locked {
        SkippedRow(rows, locked, i, lines, curLunId);
        continue;
      }
      if row.lunId.None? {
        var found := SkipUsed(usedLunIds, curLunId);
        AutomaticRow(rows, locked, i, lines, curLunId, found);
        lines := lines + [Line(found, row.name)];
        curLunId := found + 1;
      } else {
        ExplicitRow(rows, locked, i, lines, curLunId);
        lines := lines + [Line(row.lunId.value, row.name)];
      }
    }
  }
}
