/**
 The alert service: the list of current alerts, changed by source runs, one-shot alerts and
 dismissals, and the policies that follow it.
 */
module AlertServices {
  import opened AlertPolicies
  import opened Alerts
  import opened Sequences
  import opened Wrappers

  class AlertService {
    var alerts: seq<Alert>
    const policies: seq<AlertPolicy>

    ghost predicate Valid()
      reads this
    {
      && OneToOne(alerts)
      && forall i, j :: 0 <= i < j < |policies| ==> policies[i] != policies[j]
    }

    constructor (alerts: seq<Alert>, policies: seq<AlertPolicy>)
      requires OneToOne(alerts) && forall i, j :: 0 <= i < j < |policies| ==> policies[i] != policies[j]
      ensures Valid() && this.alerts == alerts && this.policies == policies
    {
      this.alerts, this.policies := alerts, policies;
    }

    // A reported alert takes over what is known of it, or gets the new uuid.
    method HandleAlert(node: string, source: string, f: Found, uuid: Uuid, now: int) returns (alert: Alert)
      ensures alert == Handled(alerts, node, source, f, uuid, now)
    {
      var id, i := Id(node, source, f.klass, f.key), 0;
      while i < |alerts| && Identity(alerts[i]) != id
        invariant i <= |alerts| && Lookup(alerts, id) == Lookup(alerts[i..], id)
      {
        i := i + 1;
      }
      alert := Alert(node, source, f.klass, f.key, f.args, uuid,
                   if f.datetime.Some? then f.datetime.value else now, now, false);
      if i < |alerts| {
        var existing := alerts[i];
        alert := alert.(uuid := existing.uuid, datetime := existing.datetime, dismissed := existing.dismissed);
      }
    }

    /** A source was checked on both nodes; its alerts are replaced by what was reported. */
    method RunSource(source: string, master: string, checkA: Check, backup: string, checkB: Check, uuids: seq<Uuid>,
                     now: int)
      requires Possible(alerts, Event.RunSource(source, master, checkA, backup, checkB, uuids, now))
      modifies this`alerts
      ensures var e := Event.RunSource(source, master, checkA, backup, checkB, uuids, now);
              && alerts == Next(old(alerts), e)
              && (old(Valid()) && Fresh(old(alerts), uuids) && TwoNodes(e) ==> (Valid() <==> Proper(e)))
    {
      ghost var e := Event.RunSource(source, master, checkA, backup, checkB, uuids, now);
      if Valid() && Fresh(alerts, uuids) && TwoNodes(e) {
        RunSourceOneToOne(alerts, e);
      }
      var a := Reported(alerts, master, source, checkA);
      var b := Reported(alerts, backup, source, checkB);
      var alertsA := HandleReports(master, source, a, uuids[..|a|], now);
      var alertsB := HandleReports(backup, source, b, uuids[|a|..], now);
      alerts := Others(alerts, source) + alertsA + alertsB;
    }

    method HandleReports(node: string, source: string, found: seq<Found>, uuids: seq<Uuid>,
                         now: int) returns (r: seq<Alert>)
      requires |found| <= |uuids|
      ensures r == HandleAll(alerts, node, source, found, uuids, now)
    {
      r := [];
      for k := 0 to |found|
        invariant r == HandleAll(alerts, node, source, found, uuids, now)[..k]
      {
        var alert := HandleAlert(node, source, found[k], uuids[k], now);
        r := r + [alert];
      }
    }

    method OneshotCreate(node: string, f: Found, uuid: Uuid, now: int)
      modifies this`alerts
      ensures alerts == Next(old(alerts), Event.OneshotCreate(node, f, uuid, now))
      ensures old(Valid()) && Fresh(old(alerts), [uuid]) ==> Valid()
    {
      if Valid() && Fresh(alerts, [uuid]) {
        StepOneToOne(alerts, Event.OneshotCreate(node, f, uuid, now));
      }
      var alert := HandleAlert(node, "", f, uuid, now);
      alerts := WithoutUuid(alerts, alert.uuid) + [alert];
    }

    /** The one-shot alerts of a class on this node are deleted, except those that its class leaves. */
    method OneshotDelete(node: string, klass: string, left: seq<Alert>) returns (deleted: bool)
      requires Valid()
      modifies this`alerts
      ensures Valid() && alerts == Next(old(alerts), Event.OneshotDelete(node, klass, left))
      ensures deleted <==> |alerts| < |old(alerts)|
    {
      StepOneToOne(alerts, Event.OneshotDelete(node, klass, left));
      var related := Related(alerts, node, klass);
      RelatedFacts(alerts, node, klass, left);
      deleted := false;
      for k := 0 to |related|
        invariant alerts == Minus(old(alerts), related[..k], left) && |alerts| <= |old(alerts)|
        invariant (deleted <==> |alerts| < |old(alerts)|)
      {
        MinusOne(old(alerts), related, k, left);
        if related[k] !in left {
          var i := IndexOf(alerts, related[k]);
          alerts := Without(alerts, i);
          deleted := true;
        }
      }
      assert related[..|related|] == related;
    }

    // An alert is dismissed for good: the policies forget it, too.
    method DeleteOnDismiss(alert: Alert)
      requires Valid() && alert in alerts
      modifies this`alerts, policies
      ensures Valid() && alerts == Without(old(alerts), IndexOf(old(alerts), alert))
      ensures Uuids(alerts) == old(Uuids(alerts)) - {alert.uuid}
      ensures forall i :: 0 <= i < |policies| ==> Forgot(old(policies[i].View()), policies[i].View(), {alert.uuid})
    {
      var k := IndexOf(alerts, alert);
      WithoutFacts(alerts, k);
      alerts := Without(alerts, k);
      for n := 0 to |policies|
        invariant alerts == Without(old(alerts), k)
        invariant forall i :: 0 <= i < n ==> Forgot(old(policies[i].View()), policies[i].View(), {alert.uuid})
        invariant forall i :: n <= i < |policies| ==> policies[i].View() == old(policies[i].View())
      {
        WithoutUuids(policies[n].lastKeyValueAlerts, alert.uuid);
        policies[n].Pop(alert.uuid);
      }
    }

    // The alerts of one class on one node are dismissed for good, except those that are left.
    method DismissRelated(node: string, klass: string, left: seq<Alert>)
      requires Valid()
      modifies this`alerts, policies
      ensures Valid() && alerts == Unless(old(alerts), node, klass, left)
      ensures forall i :: 0 <= i < |policies| ==>
            Forgot(old(policies[i].View()), policies[i].View(), old(Uuids(alerts)) - Uuids(alerts))
    {
      var related := Related(alerts, node, klass);
      RelatedFacts(alerts, node, klass, left);
      for k := 0 to |related|
        invariant Valid() && alerts == Minus(old(alerts), related[..k], left) && Uuids(alerts) <= old(Uuids(alerts))
        invariant forall i :: 0 <= i < |policies| ==>
              Forgot(old(policies[i].View()), policies[i].View(), old(Uuids(alerts)) - Uuids(alerts))
      {
        MinusOne(old(alerts), related, k, left);
        if related[k] !in left {
          InUuids(alerts, related[k]);
          label Before:
          DeleteOnDismiss(related[k]);
          forall i | 0 <= i < |policies|
            ensures Forgot(old(policies[i].View()), policies[i].View(), old(Uuids(alerts)) - Uuids(alerts))
          {
            ForgotMore(old(policies[i].View()), old@Before(policies[i].View()), policies[i].View(),
                       old(Uuids(alerts)), old@Before(Uuids(alerts)), related[k].uuid);
          }
        }
      }
      assert related[..|related|] == related;
    }

    method FindAlert(uuid: Uuid) returns (i: nat)
      ensures i == Place(alerts, uuid)
    {
      i := 0;
      while i < |alerts| && alerts[i].uuid != uuid
        invariant i <= |alerts| && forall j :: 0 <= j < i ==> alerts[j].uuid != uuid
      {
        i := i + 1;
      }
      PlaceOf(alerts, uuid, i);
    }

    /** Dismissing an alert deletes it, or the related ones, or only sets its flag, as its class says;
        each policy forgets exactly the alerts that were deleted. */
    method Dismiss(uuid: Uuid, way: Dismissal)
      requires Valid()
      modifies this`alerts, policies
      ensures Valid() && alerts == Dismissed(old(alerts), uuid, way)
      ensures forall i :: 0 <= i < |policies| ==>
            Forgot(old(policies[i].View()), policies[i].View(), old(Uuids(alerts)) - Uuids(alerts))
    {
      var i := FindAlert(uuid);
      if i == |alerts| {
        return;
      }
      match way
      case Several(left) => DismissRelated(alerts[i].node, alerts[i].klass, left);
      case Deleted =>
        WithoutIsUuid(alerts, i);
        DeleteOnDismiss(alerts[i]);
      case Flagged =>
        StepOneToOne(alerts, Flag(uuid, true));
        FlaggedUuids(alerts, uuid, true);
        alerts := alerts[i := alerts[i].(dismissed := true)];
    }
  }

  // What an alert class does on dismissal: delete all related alerts but some, delete the one, or neither.
  datatype Dismissal = Several(left: seq<Alert>) | Deleted | Flagged

  // Position of the first alert under that uuid.
  function Place(alerts: seq<Alert>, uuid: Uuid): (i: nat)
    ensures i <= |alerts| && (i < |alerts| ==> alerts[i].uuid == uuid)
  {
    if alerts == [] || alerts[0].uuid == uuid then 0 else 1 + Place(alerts[1..], uuid)
  }

  function Dismissed(alerts: seq<Alert>, uuid: Uuid, way: Dismissal): seq<Alert> {
    var i := Place(alerts, uuid);
    if i == |alerts| then alerts
    else
      match way
      case Several(left) => Next(alerts, OneshotDelete(alerts[i].node, alerts[i].klass, left))
      case Deleted => Next(alerts, Remove(uuid))
      case Flagged => Next(alerts, Flag(uuid, true))
  }

  /** Dismissing an alert leaves all alerts as they are if there is none under the uuid. Otherwise it
      removes those of its node and class that are not left, or the alert, or it marks the alert as dismissed;
      and the others stay as they are. */
  lemma {:induction false} DismissedExactly(alerts: seq<Alert>, uuid: Uuid, way: Dismissal, a: Alert)
    requires OneToOne(alerts) && a in alerts && a.uuid == uuid
    ensures var r := Dismissed(alerts, uuid, way);
            match way
            case Several(left) =>
              forall b :: b in r <==> b in alerts && (b.node != a.node || b.klass != a.klass || b in left)
            case Deleted => forall b :: b in r <==> b in alerts && b != a
            case Flagged => forall b :: b in r <==> b == a.(dismissed := true) || (b in alerts && b != a)
  {
    var k :| 0 <= k < |alerts| && alerts[k] == a;
    var i := Place(alerts, uuid);
    PlaceFound(alerts, k);
    SamePlace(alerts, i, k);
    forall b | b in alerts && b.uuid == uuid ensures b == a {
      var j :| 0 <= j < |alerts| && alerts[j] == b;
      SamePlace(alerts, j, k);
    }
    match way
    case Several(left) =>
      UnlessOnly(alerts, a.node, a.klass, left);
      forall b {
        OnlyMembers(alerts, Unrelated(a.node, a.klass, left), b);
      }
    case Deleted =>
      WithoutOnly(alerts, uuid);
      forall b {
        OnlyMembers(alerts, NotUnder(uuid), b);
      }
    case Flagged => FlaggedMembers(alerts, k);
  }

  lemma {:induction false} NothingDismissed(alerts: seq<Alert>, uuid: Uuid, way: Dismissal)
    requires forall a :: a in alerts ==> a.uuid != uuid
    ensures Dismissed(alerts, uuid, way) == alerts
  {
    assert forall i :: 0 <= i < |alerts| ==> alerts[i] in alerts;
  }

  lemma {:induction false} PlaceFound(alerts: seq<Alert>, k: nat)
    requires k < |alerts|
    ensures Place(alerts, alerts[k].uuid) < |alerts|
  {
    if k > 0 {
      PlaceFound(alerts[1..], k - 1);
    }
  }

  lemma {:induction false} OnlyMembers(alerts: seq<Alert>, p: Alert -> bool, b: Alert)
    ensures b in Only(alerts, p) <==> b in alerts && p(b)
  {
    if alerts != [] {
      assert alerts == [alerts[0]] + alerts[1..];
      OnlyMembers(alerts[1..], p, b);
    }
  }

  lemma {:induction false} FlaggedMembers(alerts: seq<Alert>, k: nat)
    requires OneToOne(alerts) && k < |alerts|
    ensures forall b :: b in Next(alerts, Flag(alerts[k].uuid, true)) <==>
                        b == alerts[k].(dismissed := true) || (b in alerts && b != alerts[k])
  {
    var a, r := alerts[k], Next(alerts, Flag(alerts[k].uuid, true));
    forall j | 0 <= j < |alerts| ensures r[j] == if j == k then a.(dismissed := true) else alerts[j] {
      if alerts[j].uuid == a.uuid {
        SamePlace(alerts, j, k);
      }
    }
    forall b | b in alerts && b != a ensures b in r {
      var j :| 0 <= j < |alerts| && alerts[j] == b;
      assert r[j] == b;
    }
    forall b | b in r ensures b == a.(dismissed := true) || (b in alerts && b != a) {
      var j :| 0 <= j < |r| && r[j] == b;
      assert j < k ==> Apart(alerts[j], a);
      assert k < j ==> Apart(a, alerts[j]);
    }
    assert r[k] in r;
  }

  lemma {:induction false} PlaceOf(alerts: seq<Alert>, uuid: Uuid, i: nat)
    requires i <= |alerts| && (forall j :: 0 <= j < i ==> alerts[j].uuid != uuid)
    requires (i < |alerts| ==> alerts[i].uuid == uuid)
    ensures i == Place(alerts, uuid)
  {
    if i > 0 {
      assert alerts[0].uuid != uuid;
      assert forall j :: 0 <= j < i - 1 ==> alerts[1..][j] == alerts[j + 1];
      PlaceOf(alerts[1..], uuid, i - 1);
    }
  }

  lemma {:induction false} ForgotMore(p: Policy, q: Policy, r: Policy, all: set<Uuid>, now: set<Uuid>, uuid: Uuid)
    requires Forgot(p, q, all - now) && Forgot(q, r, {uuid}) && now <= all && uuid in now
    ensures Forgot(p, r, all - (now - {uuid}))
  {
    assert all - (now - {uuid}) == (all - now) + {uuid};
  }

  // The policy lost these uuids and nothing else.
  ghost predicate Forgot(p: Policy, q: Policy, uuids: set<Uuid>) {
    q.schedule == p.schedule && q.lastKey == p.lastKey && Uuids(q.last) == Uuids(p.last) - uuids
  }

  lemma {:induction false} InUuids(alerts: seq<Alert>, a: Alert)
    requires a in alerts
    ensures a.uuid in Uuids(alerts)
  {
  }

  lemma {:induction false} WithoutFacts(alerts: seq<Alert>, k: nat)
    requires OneToOne(alerts) && k < |alerts|
    ensures OneToOne(Without(alerts, k)) && Uuids(Without(alerts, k)) == Uuids(alerts) - {alerts[k].uuid}
  {
    var r := Without(alerts, k);
    forall i | 0 <= i < |r| ensures r[i] == alerts[if i < k then i else i + 1] {
    }
    forall i | 0 <= i < |alerts| && i != k ensures alerts[i].uuid in Uuids(r) && alerts[i].uuid != alerts[k].uuid {
      assert r[if i < k then i else i - 1] == alerts[i];
    }
  }

  lemma {:induction false} WithoutIsUuid(alerts: seq<Alert>, k: nat)
    requires OneToOne(alerts) && k < |alerts|
    ensures IndexOf(alerts, alerts[k]) == k && Without(alerts, k) == WithoutUuid(alerts, alerts[k].uuid)
  {
    OneToOneTail(alerts);
    if k == 0 {
      NotThere(alerts[1..], alerts[0].uuid);
      assert Without(alerts, 0) == alerts[1..];
    } else {
      assert Apart(alerts[0], alerts[k]) && alerts[1..][k - 1] == alerts[k];
      WithoutIsUuid(alerts[1..], k - 1);
      WithoutLater(alerts, k);
    }
  }

  lemma {:induction false} WithoutLater(alerts: seq<Alert>, k: nat)
    requires 0 < k < |alerts|
    ensures Without(alerts, k) == [alerts[0]] + Without(alerts[1..], k - 1)
  {
    assert alerts == [alerts[0]] + alerts[1..];
    WithoutBehind([alerts[0]], alerts[1..], k - 1);
  }

  lemma {:induction false} OneToOneTail(alerts: seq<Alert>)
    requires OneToOne(alerts) && alerts != []
    ensures OneToOne(alerts[1..]) && forall i :: 0 <= i < |alerts[1..]| ==> Apart(alerts[0], alerts[1..][i])
  {
  }

  lemma {:induction false} NotThere(alerts: seq<Alert>, uuid: Uuid)
    requires forall i :: 0 <= i < |alerts| ==> alerts[i].uuid != uuid
    ensures WithoutUuid(alerts, uuid) == alerts
  {
    if alerts != [] {
      NotThere(alerts[1..], uuid);
    }
  }

  lemma {:induction false} FlaggedUuids(alerts: seq<Alert>, uuid: Uuid, dismissed: bool)
    ensures Uuids(Next(alerts, Flag(uuid, dismissed))) == Uuids(alerts)
  {
  }

  // --- Removing alerts one by one -----------------------------------------------------------------------------------

  function Related(alerts: seq<Alert>, node: string, klass: string): seq<Alert> {
    if alerts == [] then []
    else
      var a := alerts[0];
      (if a.node == node && a.klass == klass then [a] else []) + Related(alerts[1..], node, klass)
  }

  // Without the listed alerts, except those that are left.
  ghost function Minus(alerts: seq<Alert>, listed: seq<Alert>, left: seq<Alert>): seq<Alert> {
    if alerts == [] then [] else Unlisted(alerts[0], listed, left) + Minus(alerts[1..], listed, left)
  }

  ghost function Unlisted(a: Alert, listed: seq<Alert>, left: seq<Alert>): seq<Alert> {
    if a in listed && a !in left then [] else [a]
  }

  ghost predicate Once(alerts: seq<Alert>) {
    alerts != [] ==> alerts[0] !in alerts[1..] && Once(alerts[1..])
  }

  lemma {:induction false} OneToOneOnce(alerts: seq<Alert>)
    requires OneToOne(alerts)
    ensures Once(alerts)
  {
    if alerts != [] {
      forall k | 0 <= k < |alerts[1..]| ensures alerts[1..][k] != alerts[0] {
        assert Apart(alerts[0], alerts[k + 1]);
      }
      OneToOneOnce(alerts[1..]);
    }
  }

  lemma {:induction false} OnceAt(alerts: seq<Alert>, i: nat, j: nat)
    requires Once(alerts) && i < j < |alerts|
    ensures alerts[i] != alerts[j]
  {
    assert alerts[j] == alerts[1..][j - 1];
    if i > 0 {
      OnceAt(alerts[1..], i - 1, j - 1);
    }
  }

  lemma {:induction false} RelatedMembers(alerts: seq<Alert>, node: string, klass: string)
    ensures forall a :: a in Related(alerts, node, klass) <==> a in alerts && a.node == node && a.klass == klass
  {
    if alerts != [] {
      RelatedMembers(alerts[1..], node, klass);
      assert alerts == [alerts[0]] + alerts[1..];
    }
  }

  lemma {:induction false} RelatedOnce(alerts: seq<Alert>, node: string, klass: string)
    requires Once(alerts)
    ensures Once(Related(alerts, node, klass))
  {
    if alerts != [] {
      RelatedOnce(alerts[1..], node, klass);
      RelatedMembers(alerts[1..], node, klass);
      var rest := Related(alerts[1..], node, klass);
      assert ([alerts[0]] + rest)[1..] == rest && [] + rest == rest;
    }
  }

  lemma {:induction false} RelatedFacts(alerts: seq<Alert>, node: string, klass: string, left: seq<Alert>)
    requires OneToOne(alerts)
    ensures var r := Related(alerts, node, klass);
            && Once(alerts) && Once(r) && (forall a :: a in r ==> a in alerts)
            && Minus(alerts, [], left) == alerts && Minus(alerts, r, left) == Unless(alerts, node, klass, left)
  {
    OneToOneOnce(alerts);
    RelatedOnce(alerts, node, klass);
    RelatedMembers(alerts, node, klass);
    MinusNone(alerts, left);
    MinusIsUnless(alerts, Related(alerts, node, klass), node, klass, left);
  }

  lemma {:induction false} MinusNone(alerts: seq<Alert>, left: seq<Alert>)
    ensures Minus(alerts, [], left) == alerts
  {
    if alerts != [] {
      MinusNone(alerts[1..], left);
    }
  }

  lemma {:induction false} MinusIsUnless(alerts: seq<Alert>, listed: seq<Alert>, node: string, klass: string,
                                         left: seq<Alert>)
    requires forall a :: a in alerts ==> (a in listed <==> a.node == node && a.klass == klass)
    ensures Minus(alerts, listed, left) == Unless(alerts, node, klass, left)
  {
    if alerts != [] {
      assert alerts[0] in alerts;
      MinusIsUnless(alerts[1..], listed, node, klass, left);
    }
  }

  // Listing one more alert that is not to be removed, or not there, changes nothing.
  lemma {:induction false} MinusSame(alerts: seq<Alert>, listed: seq<Alert>, a: Alert, left: seq<Alert>)
    requires a !in alerts || a in left
    ensures Minus(alerts, listed + [a], left) == Minus(alerts, listed, left)
  {
    if alerts != [] {
      MinusSame(alerts[1..], listed, a, left);
    }
  }

  lemma {:induction false} MinusLess(alerts: seq<Alert>, listed: seq<Alert>, a: Alert, left: seq<Alert>)
    requires Once(alerts) && a in alerts && a !in listed && a !in left
    ensures a in Minus(alerts, listed, left)
    ensures var now := Minus(alerts, listed, left);
            Without(now, IndexOf(now, a)) == Minus(alerts, listed + [a], left)
  {
    var h, rest := alerts[0], alerts[1..];
    if h == a {
      MinusSame(rest, listed, a, left);
      WithoutFirst(a, Minus(rest, listed, left));
    } else {
      MinusLess(rest, listed, a, left);
      assert Unlisted(h, listed + [a], left) == Unlisted(h, listed, left);
      WithoutOne(Unlisted(h, listed, left), Minus(rest, listed, left), a);
    }
  }

  lemma {:induction false} WithoutOne(before: seq<Alert>, behind: seq<Alert>, a: Alert)
    requires a !in before && a in behind
    ensures a in before + behind
    ensures Without(before + behind, IndexOf(before + behind, a)) == before + Without(behind, IndexOf(behind, a))
  {
    IndexOfBehind(before, behind, a);
    WithoutBehind(before, behind, IndexOf(behind, a));
  }

  lemma {:induction false} WithoutFirst(a: Alert, rest: seq<Alert>)
    ensures IndexOf([a] + rest, a) == 0 && Without([a] + rest, 0) == rest == [] + rest
  {
  }

  lemma {:induction false} MinusOne(alerts: seq<Alert>, related: seq<Alert>, k: nat, left: seq<Alert>)
    requires Once(alerts) && Once(related) && k < |related| && related[k] in alerts
    ensures var now, a := Minus(alerts, related[..k], left), related[k];
            if a in left then Minus(alerts, related[..k + 1], left) == now
            else a in now && Minus(alerts, related[..k + 1], left) == Without(now, IndexOf(now, a))
  {
    assert related[..k + 1] == related[..k] + [related[k]];
    forall i | 0 <= i < k ensures related[..k][i] != related[k] {
      OnceAt(related, i, k);
    }
    if related[k] in left {
      MinusSame(alerts, related[..k], related[k], left);
    } else {
      MinusLess(alerts, related[..k], related[k], left);
    }
  }
}
