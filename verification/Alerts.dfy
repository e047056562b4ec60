/**
 The list of current alerts. Every source run replaces the alerts of that source, but an alert
 that was there before keeps its uuid, its date and its dismissed flag.
 */
module Alerts {
  import opened Wrappers

  type Uuid = string

  datatype Alert = Alert(node: string, source: string, klass: string, key: string, args: string,
                         uuid: Uuid, datetime: int, lastOccurrence: int, dismissed: bool)

  // What makes two alerts the same alert.
  datatype Id = Id(node: string, source: string, klass: string, key: string)

  // An alert as a check reports it.
  datatype Found = Found(klass: string, key: string, args: string, datetime: Option<int>)

  /* A check on a node did not take place, so that nothing is reported for it; could not take place
     (the source is blocked or unavailable), so that its alerts stay; or ran. */
  datatype Check = Skipped | Kept | Ran(found: seq<Found>)

  function Identity(a: Alert): Id {
    Id(a.node, a.source, a.klass, a.key)
  }

  // The first alert of that identity.
  function Lookup(alerts: seq<Alert>, id: Id): Option<Alert> {
    if alerts == [] then None
    else if Identity(alerts[0]) == id then Some(alerts[0])
    else Lookup(alerts[1..], id)
  }

  // What becomes of a reported alert; the uuid is for the case that it is new.
  function Handled(alerts: seq<Alert>, node: string, source: string, f: Found, uuid: Uuid, now: int): Alert {
    match Lookup(alerts, Id(node, source, f.klass, f.key))
    case None =>
      var since := if f.datetime.Some? then f.datetime.value else now;
      Alert(node, source, f.klass, f.key, f.args, uuid, since, now, false)
    case Some(a) => Alert(node, source, f.klass, f.key, f.args, a.uuid, a.datetime, now, a.dismissed)
  }

  function HandleAll(alerts: seq<Alert>, node: string, source: string, found: seq<Found>, uuids: seq<Uuid>,
                     now: int): (r: seq<Alert>)
    requires |found| <= |uuids|
    ensures |r| == |found|
  {
    seq(|found|, k requires 0 <= k < |found| => Handled(alerts, node, source, found[k], uuids[k], now))
  }

  // The alerts of a source on a node, and those of other sources.
  function OfSource(alerts: seq<Alert>, node: string, source: string): seq<Found> {
    if alerts == [] then []
    else
      var a := alerts[0];
      (if a.node == node && a.source == source then [Found(a.klass, a.key, a.args, Some(a.datetime))] else [])
      + OfSource(alerts[1..], node, source)
  }

  function Others(alerts: seq<Alert>, source: string): seq<Alert> {
    if alerts == [] then []
    else (if alerts[0].source != source then [alerts[0]] else []) + Others(alerts[1..], source)
  }

  function Reported(alerts: seq<Alert>, node: string, source: string, check: Check): seq<Found> {
    match check
    case Skipped => []
    case Kept => OfSource(alerts, node, source)
    case Ran(found) => found
  }

  function WithoutUuid(alerts: seq<Alert>, uuid: Uuid): seq<Alert> {
    if alerts == [] then []
    else (if alerts[0].uuid != uuid then [alerts[0]] else []) + WithoutUuid(alerts[1..], uuid)
  }

  // Only the alerts of other nodes and classes, and those listed.
  function Unless(alerts: seq<Alert>, node: string, klass: string, left: seq<Alert>): seq<Alert> {
    if alerts == [] then []
    else
      var a := alerts[0];
      (if a.node != node || a.klass != klass || a in left then [a] else []) + Unless(alerts[1..], node, klass, left)
  }

  function Flagged(alerts: seq<Alert>, uuid: Uuid, dismissed: bool): (r: seq<Alert>)
    ensures |r| == |alerts|
  {
    seq(|alerts|, k requires 0 <= k < |alerts| =>
          if alerts[k].uuid == uuid then alerts[k].(dismissed := dismissed) else alerts[k])
  }

  datatype Event =
    | RunSource(source: string, master: string, checkA: Check, backup: string, checkB: Check,
                uuids: seq<Uuid>, now: int)
    | OneshotCreate(node: string, found: Found, uuid: Uuid, now: int)
    | OneshotDelete(node: string, klass: string, left: seq<Alert>)
    | Flag(uuid: Uuid, dismissed: bool)
    | Remove(uuid: Uuid)

  function ReportsA(alerts: seq<Alert>, e: Event): seq<Found>
    requires e.RunSource?
  {
    Reported(alerts, e.master, e.source, e.checkA)
  }

  function ReportsB(alerts: seq<Alert>, e: Event): seq<Found>
    requires e.RunSource?
  {
    Reported(alerts, e.backup, e.source, e.checkB)
  }

  // One uuid is at hand for every alert that may turn out to be new.
  predicate Possible(alerts: seq<Alert>, e: Event) {
    e.RunSource? ==> |e.uuids| == |ReportsA(alerts, e)| + |ReportsB(alerts, e)|
  }

  function Next(alerts: seq<Alert>, e: Event): seq<Alert>
    requires Possible(alerts, e)
  {
    match e
    case RunSource(source, master, _, backup, _, uuids, now) =>
      var a, b := ReportsA(alerts, e), ReportsB(alerts, e);
      Others(alerts, source)
      + HandleAll(alerts, master, source, a, uuids[..|a|], now)
      + HandleAll(alerts, backup, source, b, uuids[|a|..], now)
    case OneshotCreate(node, f, uuid, now) =>
      var alert := Handled(alerts, node, "", f, uuid, now);
      WithoutUuid(alerts, alert.uuid) + [alert]
    case OneshotDelete(node, klass, left) => Unless(alerts, node, klass, left)
    case Flag(uuid, dismissed) => Flagged(alerts, uuid, dismissed)
    case Remove(uuid) => WithoutUuid(alerts, uuid)
  }

  // --- Identities and uuids correspond one to one ------------------------------------------------------------

  ghost predicate Apart(a: Alert, b: Alert) {
    Identity(a) != Identity(b) && a.uuid != b.uuid
  }

  ghost predicate OneToOne(alerts: seq<Alert>) {
    forall i, j :: 0 <= i < j < |alerts| ==> Apart(alerts[i], alerts[j])
  }

  ghost predicate AllApart(s: seq<Alert>, t: seq<Alert>) {
    forall i, j :: 0 <= i < |s| && 0 <= j < |t| ==> Apart(s[i], t[j])
  }

  // New uuids do not repeat and are not in use.
  ghost predicate Fresh(alerts: seq<Alert>, uuids: seq<Uuid>) {
    && (forall i, j :: 0 <= i < j < |uuids| ==> uuids[i] != uuids[j])
    && (forall i, k :: 0 <= i < |alerts| && 0 <= k < |uuids| ==> alerts[i].uuid != uuids[k])
  }

  ghost predicate Distinct(found: seq<Found>) {
    forall i, j :: 0 <= i < j < |found| ==> found[i].klass != found[j].klass || found[i].key != found[j].key
  }

  function NewUuids(e: Event): seq<Uuid> {
    match e case RunSource(_, _, _, _, _, uuids, _) => uuids case OneshotCreate(_, _, uuid, _) => [uuid] case _ => []
  }

  // No check reports the same alert twice.
  ghost predicate Proper(e: Event) {
    e.RunSource? ==> (e.checkA.Ran? ==> Distinct(e.checkA.found)) && (e.checkB.Ran? ==> Distinct(e.checkB.found))
  }

  // The two controllers are different.
  ghost predicate TwoNodes(e: Event) {
    e.RunSource? ==> e.master != e.backup
  }

  lemma {:induction false} SamePlace(alerts: seq<Alert>, i: nat, j: nat)
    requires OneToOne(alerts) && i < |alerts| && j < |alerts|
    requires Identity(alerts[i]) == Identity(alerts[j]) || alerts[i].uuid == alerts[j].uuid
    ensures i == j
  {
  }

  lemma {:induction false} LookupFacts(alerts: seq<Alert>, id: Id)
    ensures Lookup(alerts, id).None? ==> forall i :: 0 <= i < |alerts| ==> Identity(alerts[i]) != id
    ensures Lookup(alerts, id).Some? ==>
          exists i :: && 0 <= i < |alerts| && alerts[i] == Lookup(alerts, id).value && Identity(alerts[i]) == id
                      && forall j :: 0 <= j < i ==> Identity(alerts[j]) != id
  {
    if alerts != [] && Identity(alerts[0]) != id {
      LookupFacts(alerts[1..], id);
      assert forall i :: 1 <= i < |alerts| ==> alerts[i] == alerts[1..][i - 1];
      if Lookup(alerts, id).Some? {
        var i :| && 0 <= i < |alerts[1..]| && alerts[1..][i] == Lookup(alerts, id).value
                 && Identity(alerts[1..][i]) == id && forall j :: 0 <= j < i ==> Identity(alerts[1..][j]) != id;
        assert alerts[i + 1] == Lookup(alerts, id).value;
      }
    }
  }

  lemma {:induction false} LookupFinds(alerts: seq<Alert>, i: nat)
    requires OneToOne(alerts) && i < |alerts|
    ensures Lookup(alerts, Identity(alerts[i])) == Some(alerts[i])
  {
    LookupFacts(alerts, Identity(alerts[i]));
  }

  lemma {:induction false} Joined(s: seq<Alert>, t: seq<Alert>)
    requires OneToOne(s) && OneToOne(t) && AllApart(s, t)
    ensures OneToOne(s + t)
  {
  }

  // `t` holds alerts of `s`, in order.
  ghost predicate Among(s: seq<Alert>, t: seq<Alert>, at: seq<nat>) {
    && |at| == |t| && (forall k :: 0 <= k < |t| ==> at[k] < |s| && t[k] == s[at[k]])
    && (forall i, j :: 0 <= i < j < |at| ==> at[i] < at[j])
  }

  lemma {:induction false} AmongOneToOne(s: seq<Alert>, t: seq<Alert>, at: seq<nat>)
    requires OneToOne(s) && Among(s, t, at)
    ensures OneToOne(t)
  {
  }

  ghost function Later(at: seq<nat>): seq<nat> {
    seq(|at|, k requires 0 <= k < |at| => at[k] + 1)
  }

  // The list after its first element, with or without that element.
  lemma {:induction false} AmongTail(s: seq<Alert>, t: seq<Alert>, at: seq<nat>, keep: bool)
    requires s != [] && Among(s[1..], t, at)
    ensures Among(s, (if keep then [s[0]] else []) + t, (if keep then [0] else []) + Later(at))
  {
    var t', at', n := (if keep then [s[0]] else []) + t, (if keep then [0] else []) + Later(at), if keep then 1 else 0;
    forall k | 0 <= k < |t'| ensures at'[k] < |s| && t'[k] == s[at'[k]] {
      if k >= n {
        assert t'[k] == t[k - n] == s[1..][at[k - n]];
      }
    }
    forall i, j | 0 <= i < j < |at'| ensures at'[i] < at'[j] {
      if i >= n {
        assert at[i - n] < at[j - n];
      }
    }
  }

  lemma {:induction false} OthersAmong(alerts: seq<Alert>, source: string) returns (at: seq<nat>)
    ensures Among(alerts, Others(alerts, source), at)
    ensures forall k :: 0 <= k < |Others(alerts, source)| ==> Others(alerts, source)[k].source != source
  {
    at := [];
    if alerts != [] {
      var at' := OthersAmong(alerts[1..], source);
      var keep := alerts[0].source != source;
      AmongTail(alerts, Others(alerts[1..], source), at', keep);
      at := (if keep then [0] else []) + Later(at');
    }
  }

  lemma {:induction false} WithoutAmong(alerts: seq<Alert>, uuid: Uuid) returns (at: seq<nat>)
    ensures Among(alerts, WithoutUuid(alerts, uuid), at)
    ensures forall k :: 0 <= k < |WithoutUuid(alerts, uuid)| ==> WithoutUuid(alerts, uuid)[k].uuid != uuid
  {
    at := [];
    if alerts != [] {
      var at' := WithoutAmong(alerts[1..], uuid);
      var keep := alerts[0].uuid != uuid;
      AmongTail(alerts, WithoutUuid(alerts[1..], uuid), at', keep);
      at := (if keep then [0] else []) + Later(at');
    }
  }

  lemma {:induction false} UnlessAmong(alerts: seq<Alert>, node: string, klass: string,
                                       left: seq<Alert>) returns (at: seq<nat>)
    ensures Among(alerts, Unless(alerts, node, klass, left), at)
  {
    at := [];
    if alerts != [] {
      var at' := UnlessAmong(alerts[1..], node, klass, left);
      var keep := alerts[0].node != node || alerts[0].klass != klass || alerts[0] in left;
      AmongTail(alerts, Unless(alerts[1..], node, klass, left), at', keep);
      at := (if keep then [0] else []) + Later(at');
    }
  }

  /* Where an alert of the new list comes from: it is an old one, seen again or not, or it is new
     and nothing of its identity was there. */
  ghost predicate Comes(alerts: seq<Alert>, b: Alert, uuid: Uuid) {
    || (exists i :: 0 <= i < |alerts| && Continues(alerts[i], b))
    || (b.uuid == uuid && forall i :: 0 <= i < |alerts| ==> Identity(alerts[i]) != Identity(b))
  }

  ghost predicate Continues(a: Alert, b: Alert) {
    Identity(a) == Identity(b) && a.uuid == b.uuid && a.datetime == b.datetime && a.dismissed == b.dismissed
  }

  lemma {:induction false} HandledComes(alerts: seq<Alert>, node: string, source: string, f: Found, uuid: Uuid,
                                        now: int)
    ensures Comes(alerts, Handled(alerts, node, source, f, uuid, now), uuid)
    ensures Identity(Handled(alerts, node, source, f, uuid, now)) == Id(node, source, f.klass, f.key)
  {
    LookupFacts(alerts, Id(node, source, f.klass, f.key));
  }

  // Two alerts of different identities have different uuids, wherever they come from.
  lemma {:induction false} ComeApart(alerts: seq<Alert>, a: Alert, ua: Uuid, b: Alert, ub: Uuid)
    requires OneToOne(alerts) && Comes(alerts, a, ua) && Comes(alerts, b, ub) && Identity(a) != Identity(b)
    requires ua != ub && forall i :: 0 <= i < |alerts| ==> alerts[i].uuid != ua && alerts[i].uuid != ub
    ensures Apart(a, b)
  {
    if i, j :| 0 <= i < |alerts| && 0 <= j < |alerts| && Continues(alerts[i], a) && Continues(alerts[j], b) {
      assert Apart(alerts[if i < j then i else j], alerts[if i < j then j else i]);
    }
  }

  // --- One source run ------------------------------------------------------------------------------------------

  lemma {:induction false} OfSourceMembers(alerts: seq<Alert>, node: string, source: string, k: nat) returns (i: nat)
    requires k < |OfSource(alerts, node, source)|
    ensures k <= i < |alerts| && alerts[i].node == node && alerts[i].source == source
    ensures OfSource(alerts, node, source)[k] ==
            Found(alerts[i].klass, alerts[i].key, alerts[i].args, Some(alerts[i].datetime))
  {
    if alerts[0].node == node && alerts[0].source == source {
      if k == 0 {
        return 0;
      }
      var i' := OfSourceMembers(alerts[1..], node, source, k - 1);
      return i' + 1;
    }
    var i' := OfSourceMembers(alerts[1..], node, source, k);
    return i' + 1;
  }

  lemma {:induction false} OfSourceDistinct(alerts: seq<Alert>, node: string, source: string)
    requires OneToOne(alerts)
    ensures Distinct(OfSource(alerts, node, source))
  {
    if alerts != [] {
      OfSourceDistinct(alerts[1..], node, source);
      var found, rest := OfSource(alerts, node, source), OfSource(alerts[1..], node, source);
      forall j | 0 <= j < |rest| && alerts[0].node == node && alerts[0].source == source
        ensures rest[j].klass != alerts[0].klass || rest[j].key != alerts[0].key
      {
        var i := OfSourceMembers(alerts[1..], node, source, j);
        assert Apart(alerts[0], alerts[i + 1]);
      }
    }
  }

  lemma {:induction false} OfSourceAll(alerts: seq<Alert>, i: nat)
    requires i < |alerts|
    ensures var a := alerts[i];
            Found(a.klass, a.key, a.args, Some(a.datetime)) in OfSource(alerts, a.node, a.source)
  {
    if i > 0 {
      OfSourceAll(alerts[1..], i - 1);
    }
  }

  lemma {:induction false} HandleAllOneToOne(alerts: seq<Alert>, node: string, source: string, found: seq<Found>,
                                             uuids: seq<Uuid>, now: int)
    requires OneToOne(alerts) && Fresh(alerts, uuids) && |found| <= |uuids|
    ensures OneToOne(HandleAll(alerts, node, source, found, uuids, now)) <==> Distinct(found)
  {
    var r := HandleAll(alerts, node, source, found, uuids, now);
    forall i, j | 0 <= i < j < |r|
      ensures Apart(r[i], r[j]) <==> found[i].klass != found[j].klass || found[i].key != found[j].key
    {
      HandledComes(alerts, node, source, found[i], uuids[i], now);
      HandledComes(alerts, node, source, found[j], uuids[j], now);
      if Identity(r[i]) != Identity(r[j]) {
        ComeApart(alerts, r[i], uuids[i], r[j], uuids[j]);
      }
    }
  }

  lemma {:induction false} NodesApart(alerts: seq<Alert>, source: string, master: string, a: seq<Found>,
                                      backup: string, b: seq<Found>, uuids: seq<Uuid>, now: int)
    requires OneToOne(alerts) && Fresh(alerts, uuids) && |uuids| == |a| + |b| && master != backup
    ensures AllApart(HandleAll(alerts, master, source, a, uuids[..|a|], now),
                     HandleAll(alerts, backup, source, b, uuids[|a|..], now))
  {
    var s := HandleAll(alerts, master, source, a, uuids[..|a|], now);
    var t := HandleAll(alerts, backup, source, b, uuids[|a|..], now);
    forall i, j | 0 <= i < |s| && 0 <= j < |t| ensures Apart(s[i], t[j]) {
      HandledComes(alerts, master, source, a[i], uuids[i], now);
      HandledComes(alerts, backup, source, b[j], uuids[|a| + j], now);
      ComeApart(alerts, s[i], uuids[i], t[j], uuids[|a| + j]);
    }
  }

  lemma {:induction false} OthersApart(alerts: seq<Alert>, source: string, node: string, found: seq<Found>,
                                       uuids: seq<Uuid>, now: int)
    requires OneToOne(alerts) && Fresh(alerts, uuids) && |found| <= |uuids|
    ensures AllApart(Others(alerts, source), HandleAll(alerts, node, source, found, uuids, now))
  {
    var s, t := Others(alerts, source), HandleAll(alerts, node, source, found, uuids, now);
    var at := OthersAmong(alerts, source);
    forall i, j | 0 <= i < |s| && 0 <= j < |t| ensures Apart(s[i], t[j]) {
      HandledComes(alerts, node, source, found[j], uuids[j], now);
      assert s[i] == alerts[at[i]];
      OldApart(alerts, at[i], t[j], uuids[j]);
    }
  }

  lemma {:induction false} OldApart(alerts: seq<Alert>, i: nat, b: Alert, uuid: Uuid)
    requires OneToOne(alerts) && i < |alerts| && Comes(alerts, b, uuid) && Identity(alerts[i]) != Identity(b)
    requires alerts[i].uuid != uuid
    ensures Apart(alerts[i], b)
  {
    if j :| 0 <= j < |alerts| && Continues(alerts[j], b) {
      assert Apart(alerts[if i < j then i else j], alerts[if i < j then j else i]);
    }
  }

  /** After a source run identities and uuids still correspond, exactly if no check reported the
      same alert twice. */
  lemma {:induction false} RunSourceOneToOne(alerts: seq<Alert>, e: Event)
    requires e.RunSource? && Possible(alerts, e) && OneToOne(alerts) && Fresh(alerts, e.uuids) && TwoNodes(e)
    ensures OneToOne(Next(alerts, e)) <==> Proper(e)
  {
    var a, b := ReportsA(alerts, e), ReportsB(alerts, e);
    var others := Others(alerts, e.source);
    var s := HandleAll(alerts, e.master, e.source, a, e.uuids[..|a|], e.now);
    var t := HandleAll(alerts, e.backup, e.source, b, e.uuids[|a|..], e.now);
    OfSourceDistinct(alerts, e.master, e.source);
    OfSourceDistinct(alerts, e.backup, e.source);
    FreshParts(alerts, e.uuids, |a|);
    HandleAllOneToOne(alerts, e.master, e.source, a, e.uuids[..|a|], e.now);
    HandleAllOneToOne(alerts, e.backup, e.source, b, e.uuids[|a|..], e.now);
    if Proper(e) {
      var at := OthersAmong(alerts, e.source);
      AmongOneToOne(alerts, others, at);
      NodesApart(alerts, e.source, e.master, a, e.backup, b, e.uuids, e.now);
      OthersApart(alerts, e.source, e.master, a, e.uuids[..|a|], e.now);
      OthersApart(alerts, e.source, e.backup, b, e.uuids[|a|..], e.now);
      Joined(others, s);
      JoinedApart(others, s, t);
      Joined(others + s, t);
    } else {
      Parts(others, s, t);
    }
  }

  lemma {:induction false} FreshParts(alerts: seq<Alert>, uuids: seq<Uuid>, n: nat)
    requires Fresh(alerts, uuids) && n <= |uuids|
    ensures Fresh(alerts, uuids[..n]) && Fresh(alerts, uuids[n..])
  {
  }

  lemma {:induction false} JoinedApart(r: seq<Alert>, s: seq<Alert>, t: seq<Alert>)
    requires AllApart(r, t) && AllApart(s, t)
    ensures AllApart(r + s, t)
  {
  }

  lemma {:induction false} Parts(r: seq<Alert>, s: seq<Alert>, t: seq<Alert>)
    ensures OneToOne(r + s + t) ==> OneToOne(s) && OneToOne(t)
  {
    var all := r + s + t;
    if OneToOne(all) {
      forall i, j | 0 <= i < j < |s| ensures Apart(s[i], s[j]) {
        assert Apart(all[|r| + i], all[|r| + j]);
      }
      forall i, j | 0 <= i < j < |t| ensures Apart(t[i], t[j]) {
        assert Apart(all[|r| + |s| + i], all[|r| + |s| + j]);
      }
    }
  }

  // --- Every step -------------------------------------------------------------------------------------------------

  lemma {:induction false} StepOneToOne(alerts: seq<Alert>, e: Event)
    requires Possible(alerts, e) && OneToOne(alerts) && Fresh(alerts, NewUuids(e)) && TwoNodes(e) && Proper(e)
    ensures OneToOne(Next(alerts, e))
  {
    match e
    case RunSource(_, _, _, _, _, _, _) => RunSourceOneToOne(alerts, e);
    case OneshotCreate(node, f, uuid, now) => CreateOneToOne(alerts, node, f, uuid, now);
    case OneshotDelete(node, klass, left) =>
      var at := UnlessAmong(alerts, node, klass, left);
      AmongOneToOne(alerts, Next(alerts, e), at);
    case Flag(uuid, dismissed) =>
      var next := Next(alerts, e);
      assert forall k :: 0 <= k < |alerts| ==>
          Identity(next[k]) == Identity(alerts[k]) && next[k].uuid == alerts[k].uuid;
    case Remove(uuid) =>
      var at := WithoutAmong(alerts, uuid);
      AmongOneToOne(alerts, Next(alerts, e), at);
  }

  lemma {:induction false} CreateOneToOne(alerts: seq<Alert>, node: string, f: Found, uuid: Uuid, now: int)
    requires OneToOne(alerts) && Fresh(alerts, [uuid])
    ensures OneToOne(Next(alerts, OneshotCreate(node, f, uuid, now)))
  {
    var alert := Handled(alerts, node, "", f, uuid, now);
    var left := WithoutUuid(alerts, alert.uuid);
    var at := WithoutAmong(alerts, alert.uuid);
    AmongOneToOne(alerts, left, at);
    HandledComes(alerts, node, "", f, uuid, now);
    forall k | 0 <= k < |left| ensures Apart(left[k], alert) {
      assert left[k] == alerts[at[k]];
      if Identity(left[k]) == Identity(alert) {
        LookupFinds(alerts, at[k]);
      }
    }
    Joined(left, [alert]);
  }

  // The flag of an alert changes only where the event says so.
  ghost predicate Succeeds(e: Event, a: Alert, b: Alert) {
    && Identity(a) == Identity(b) && a.uuid == b.uuid && a.datetime == b.datetime
    && (b.dismissed == if e.Flag? && e.uuid == a.uuid then e.dismissed else a.dismissed)
  }

  ghost predicate ComesBy(alerts: seq<Alert>, e: Event, b: Alert) {
    || (exists i :: 0 <= i < |alerts| && Succeeds(e, alerts[i], b))
    || (b.uuid in NewUuids(e) && !b.dismissed && forall i :: 0 <= i < |alerts| ==> Identity(alerts[i]) != Identity(b))
  }

  lemma {:induction false} HandleAllComes(alerts: seq<Alert>, e: Event, node: string, source: string,
                                          found: seq<Found>, uuids: seq<Uuid>, now: int, k: nat)
    requires |found| <= |uuids| && k < |found| && !e.Flag? && forall u :: u in uuids ==> u in NewUuids(e)
    ensures ComesBy(alerts, e, HandleAll(alerts, node, source, found, uuids, now)[k])
  {
    LookupFacts(alerts, Id(node, source, found[k].klass, found[k].key));
    var b := HandleAll(alerts, node, source, found, uuids, now)[k];
    if Lookup(alerts, Id(node, source, found[k].klass, found[k].key)).Some? {
      var i :| 0 <= i < |alerts| && alerts[i] == Lookup(alerts, Id(node, source, found[k].klass, found[k].key)).value;
      assert Succeeds(e, alerts[i], b);
    } else {
      assert uuids[k] in uuids;
    }
  }

  lemma {:induction false} AmongComes(alerts: seq<Alert>, e: Event, t: seq<Alert>, at: seq<nat>, k: nat)
    requires Among(alerts, t, at) && k < |t| && !e.Flag?
    ensures ComesBy(alerts, e, t[k])
  {
    assert Succeeds(e, alerts[at[k]], t[k]);
  }

  lemma {:induction false} RunSourceComes(alerts: seq<Alert>, e: Event, k: nat)
    requires e.RunSource? && Possible(alerts, e) && k < |Next(alerts, e)|
    ensures ComesBy(alerts, e, Next(alerts, e)[k])
  {
    var a, b, n := ReportsA(alerts, e), ReportsB(alerts, e), |Others(alerts, e.source)|;
    if k < n {
      var at := OthersAmong(alerts, e.source);
      AmongComes(alerts, e, Others(alerts, e.source), at, k);
    } else if k < n + |a| {
      HandleAllComes(alerts, e, e.master, e.source, a, e.uuids[..|a|], e.now, k - n);
    } else {
      HandleAllComes(alerts, e, e.backup, e.source, b, e.uuids[|a|..], e.now, k - n - |a|);
    }
  }

  /** Every alert after a step was there before, with the same uuid, date and flag, or is new
      under a new uuid. */
  lemma {:induction false} StepComes(alerts: seq<Alert>, e: Event, k: nat)
    requires Possible(alerts, e) && k < |Next(alerts, e)|
    ensures ComesBy(alerts, e, Next(alerts, e)[k])
  {
    match e
    case RunSource(_, _, _, _, _, _, _) => RunSourceComes(alerts, e, k);
    case OneshotCreate(node, f, uuid, now) =>
      var alert := Handled(alerts, node, "", f, uuid, now);
      var at := WithoutAmong(alerts, alert.uuid);
      if k < |at| {
        AmongComes(alerts, e, WithoutUuid(alerts, alert.uuid), at, k);
      } else {
        HandleAllComes(alerts, e, node, "", [f], [uuid], now, 0);
        assert HandleAll(alerts, node, "", [f], [uuid], now)[0] == alert;
      }
    case OneshotDelete(node, klass, left) =>
      var at := UnlessAmong(alerts, node, klass, left);
      AmongComes(alerts, e, Next(alerts, e), at, k);
    case Flag(uuid, dismissed) =>
      assert Succeeds(e, alerts[k], Next(alerts, e)[k]);
    case Remove(uuid) =>
      var at := WithoutAmong(alerts, uuid);
      AmongComes(alerts, e, Next(alerts, e), at, k);
  }

  /** An alert that is there before and after a step is the same one: uuid and date stay, and the
      flag unless it was set. */
  lemma {:induction false} StepKeeps(alerts: seq<Alert>, e: Event, i: nat, k: nat)
    requires Possible(alerts, e) && OneToOne(alerts) && i < |alerts| && k < |Next(alerts, e)|
    requires Identity(alerts[i]) == Identity(Next(alerts, e)[k])
    ensures Succeeds(e, alerts[i], Next(alerts, e)[k])
  {
    var b := Next(alerts, e)[k];
    StepComes(alerts, e, k);
    var j :| 0 <= j < |alerts| && Succeeds(e, alerts[j], b);
    SamePlace(alerts, i, j);
  }

  // --- What a source run leaves in the list -----------------------------------------------------------------------

  ghost predicate Has(alerts: seq<Alert>, id: Id) {
    exists i :: 0 <= i < |alerts| && Identity(alerts[i]) == id
  }

  ghost predicate Mentions(found: seq<Found>, id: Id) {
    exists k :: 0 <= k < |found| && found[k].klass == id.klass && found[k].key == id.key
  }

  lemma {:induction false} OthersAll(alerts: seq<Alert>, source: string, i: nat)
    requires i < |alerts| && alerts[i].source != source
    ensures alerts[i] in Others(alerts, source)
  {
    if i > 0 {
      OthersAll(alerts[1..], source, i - 1);
    }
  }

  /** Afterwards the source has exactly the alerts that were reported on either node, and a node
      whose check could not take place has those that it had; other sources are left alone. */
  lemma {:induction false} RunSourceLeaves(alerts: seq<Alert>, e: Event, id: Id)
    requires e.RunSource? && Possible(alerts, e) && TwoNodes(e)
    ensures id.source != e.source ==> (Has(Next(alerts, e), id) <==> Has(alerts, id))
    ensures id.source == e.source ==> (Has(Next(alerts, e), id) <==>
                                         || (id.node == e.master && Mentions(ReportsA(alerts, e), id))
                                         || (id.node == e.backup && Mentions(ReportsB(alerts, e), id)))
    ensures id == Id(e.master, e.source, id.klass, id.key) && e.checkA.Kept? ==> (Has(Next(alerts, e), id) <==>
          Has(alerts, id))
    ensures id == Id(e.backup, e.source, id.klass, id.key) && e.checkB.Kept? ==> (Has(Next(alerts, e), id) <==>
          Has(alerts, id))
  {
    var a, b := ReportsA(alerts, e), ReportsB(alerts, e);
    var s := HandleAll(alerts, e.master, e.source, a, e.uuids[..|a|], e.now);
    var t := HandleAll(alerts, e.backup, e.source, b, e.uuids[|a|..], e.now);
    OthersHas(alerts, e.source, id);
    HandleAllHas(alerts, e.master, e.source, a, e.uuids[..|a|], e.now, id);
    HandleAllHas(alerts, e.backup, e.source, b, e.uuids[|a|..], e.now, id);
    HasJoined(Others(alerts, e.source), s, id);
    HasJoined(Others(alerts, e.source) + s, t, id);
    KeptMentions(alerts, id);
  }

  lemma {:induction false} HasJoined(s: seq<Alert>, t: seq<Alert>, id: Id)
    ensures Has(s + t, id) <==> Has(s, id) || Has(t, id)
  {
    if i :| 0 <= i < |s| && Identity(s[i]) == id {
      assert Identity((s + t)[i]) == id;
    }
    if i :| 0 <= i < |t| && Identity(t[i]) == id {
      assert Identity((s + t)[|s| + i]) == id;
    }
  }

  lemma {:induction false} HandleAllHas(alerts: seq<Alert>, node: string, source: string, found: seq<Found>,
                                        uuids: seq<Uuid>, now: int, id: Id)
    requires |found| <= |uuids|
    ensures Has(HandleAll(alerts, node, source, found, uuids, now), id) <==>
          id.node == node && id.source == source && Mentions(found, id)
  {
    var r := HandleAll(alerts, node, source, found, uuids, now);
    forall k | 0 <= k < |found| ensures Identity(r[k]) == Id(node, source, found[k].klass, found[k].key) {
    }
  }

  lemma {:induction false} OthersHas(alerts: seq<Alert>, source: string, id: Id)
    ensures Has(Others(alerts, source), id) <==> id.source != source && Has(alerts, id)
  {
    var at := OthersAmong(alerts, source);
    if i :| 0 <= i < |alerts| && Identity(alerts[i]) == id && id.source != source {
      OthersAll(alerts, source, i);
    }
  }

  lemma {:induction false} KeptMentions(alerts: seq<Alert>, id: Id)
    ensures Mentions(OfSource(alerts, id.node, id.source), id) <==> Has(alerts, id)
  {
    var found := OfSource(alerts, id.node, id.source);
    if k :| 0 <= k < |found| && found[k].klass == id.klass && found[k].key == id.key {
      var i := OfSourceMembers(alerts, id.node, id.source, k);
      assert Identity(alerts[i]) == id;
    }
    if i :| 0 <= i < |alerts| && Identity(alerts[i]) == id {
      OfSourceAll(alerts, i);
    }
  }

  // --- What an alert looks like afterwards ------------------------------------------------------------------

  /** The alert `b` is what was reported as `f` on the node: it is seen now, with what was reported; if it
      was there before it keeps uuid, date and flag, and otherwise it is not dismissed, has the new uuid,
      and dates from the time that was reported or from now. */
  ghost predicate Taken(alerts: seq<Alert>, node: string, source: string, f: Found, uuid: Uuid, now: int, b: Alert) {
    && b.node == node && b.source == source && b.klass == f.klass && b.key == f.key
    && b.args == f.args && b.lastOccurrence == now
    && (forall a :: a in alerts && SameAs(a, node, source, f) ==>
          b.uuid == a.uuid && b.datetime == a.datetime && b.dismissed == a.dismissed)
    && ((forall a :: a in alerts ==> !SameAs(a, node, source, f)) ==>
          b.uuid == uuid && !b.dismissed && b.datetime == if f.datetime.Some? then f.datetime.value else now)
  }

  predicate SameAs(a: Alert, node: string, source: string, f: Found) {
    a.node == node && a.source == source && a.klass == f.klass && a.key == f.key
  }

  lemma {:induction false} HandledTaken(alerts: seq<Alert>, node: string, source: string, f: Found, uuid: Uuid,
                                        now: int)
    requires OneToOne(alerts)
    ensures Taken(alerts, node, source, f, uuid, now, Handled(alerts, node, source, f, uuid, now))
  {
    var id := Id(node, source, f.klass, f.key);
    LookupFacts(alerts, id);
    forall a | a in alerts && SameAs(a, node, source, f) ensures Lookup(alerts, id) == Some(a) {
      var i :| 0 <= i < |alerts| && alerts[i] == a;
      LookupFinds(alerts, i);
    }
  }

  // The alerts with the property, in order.
  ghost function Only(alerts: seq<Alert>, p: Alert -> bool): seq<Alert> {
    if alerts == [] then [] else (if p(alerts[0]) then [alerts[0]] else []) + Only(alerts[1..], p)
  }

  ghost function NotFrom(source: string): Alert -> bool {
    (a: Alert) => a.source != source
  }

  ghost function From(node: string, source: string): Alert -> bool {
    (a: Alert) => a.node == node && a.source == source
  }

  ghost function NotUnder(uuid: Uuid): Alert -> bool {
    (a: Alert) => a.uuid != uuid
  }

  ghost function Unrelated(node: string, klass: string, left: seq<Alert>): Alert -> bool {
    (a: Alert) => a.node != node || a.klass != klass || a in left
  }

  lemma {:induction false} OthersOnly(alerts: seq<Alert>, source: string)
    ensures Others(alerts, source) == Only(alerts, NotFrom(source))
  {
    if alerts != [] {
      OthersOnly(alerts[1..], source);
    }
  }

  lemma {:induction false} WithoutOnly(alerts: seq<Alert>, uuid: Uuid)
    ensures WithoutUuid(alerts, uuid) == Only(alerts, NotUnder(uuid))
  {
    if alerts != [] {
      WithoutOnly(alerts[1..], uuid);
    }
  }

  lemma {:induction false} UnlessOnly(alerts: seq<Alert>, node: string, klass: string, left: seq<Alert>)
    ensures Unless(alerts, node, klass, left) == Only(alerts, Unrelated(node, klass, left))
  {
    if alerts != [] {
      UnlessOnly(alerts[1..], node, klass, left);
    }
  }

  /** What is there of a source on a node after a check: nothing if there was none; what was reported, alert
      by alert; or, if the check could not take place, the alerts that were there, seen now. */
  ghost predicate Checked(alerts: seq<Alert>, node: string, source: string, check: Check, uuids: seq<Uuid>, now: int,
                          r: seq<Alert>) {
    match check
    case Skipped => r == []
    case Ran(found) =>
      && |r| == |found| <= |uuids|
      && forall k :: 0 <= k < |r| ==> Taken(alerts, node, source, found[k], uuids[k], now, r[k])
    case Kept =>
      var before := Only(alerts, From(node, source));
      |r| == |before| && forall k :: 0 <= k < |r| ==> r[k] == before[k].(lastOccurrence := now)
  }

  lemma {:induction false} SameNumber(alerts: seq<Alert>, node: string, source: string)
    ensures |OfSource(alerts, node, source)| == |Only(alerts, From(node, source))|
  {
    if alerts != [] {
      SameNumber(alerts[1..], node, source);
    }
  }

  lemma {:induction false} OfSourceOnly(alerts: seq<Alert>, node: string, source: string, k: nat)
    requires k < |OfSource(alerts, node, source)| == |Only(alerts, From(node, source))|
    ensures var f, a := OfSource(alerts, node, source)[k], Only(alerts, From(node, source))[k];
            a in alerts && SameAs(a, node, source, f) && f.args == a.args
  {
    var n := if alerts[0].node == node && alerts[0].source == source then 1 else 0;
    if k >= n {
      SameNumber(alerts[1..], node, source);
      OfSourceOnly(alerts[1..], node, source, k - n);
    }
  }

  lemma {:induction false} HandleAllChecked(alerts: seq<Alert>, node: string, source: string, check: Check,
                                            uuids: seq<Uuid>, now: int)
    requires OneToOne(alerts) && |Reported(alerts, node, source, check)| <= |uuids|
    ensures Checked(alerts, node, source, check, uuids, now,
                    HandleAll(alerts, node, source, Reported(alerts, node, source, check), uuids, now))
  {
    var found := Reported(alerts, node, source, check);
    var r := HandleAll(alerts, node, source, found, uuids, now);
    SameNumber(alerts, node, source);
    forall k | 0 <= k < |found|
      ensures Taken(alerts, node, source, found[k], uuids[k], now, r[k])
      ensures check.Kept? ==> r[k] == Only(alerts, From(node, source))[k].(lastOccurrence := now)
    {
      HandledTaken(alerts, node, source, found[k], uuids[k], now);
      if check.Kept? {
        OfSourceOnly(alerts, node, source, k);
      }
    }
  }

  /** One step, alert by alert. A source run keeps the alerts of other sources and puts those of the two
      checks behind them; a one-shot alert is put behind all others; and the other steps remove or mark
      exactly the alerts that they name. */
  ghost predicate Follows(alerts: seq<Alert>, e: Event, next: seq<Alert>) {
    match e
    case RunSource(source, master, checkA, backup, checkB, uuids, now) =>
      exists ra, rb, n: nat ::
        && n <= |uuids| && next == Only(alerts, NotFrom(source)) + ra + rb
        && Checked(alerts, master, source, checkA, uuids[..n], now, ra)
        && Checked(alerts, backup, source, checkB, uuids[n..], now, rb)
    case OneshotCreate(node, f, uuid, now) =>
      && next != []
      && var b := next[|next| - 1];
         Taken(alerts, node, "", f, uuid, now, b) && next[..|next| - 1] == Only(alerts, NotUnder(b.uuid))
    case OneshotDelete(node, klass, left) => next == Only(alerts, Unrelated(node, klass, left))
    case Flag(uuid, dismissed) =>
      && |next| == |alerts|
      && forall k :: 0 <= k < |alerts| ==>
           next[k] == if alerts[k].uuid == uuid then alerts[k].(dismissed := dismissed) else alerts[k]
    case Remove(uuid) => next == Only(alerts, NotUnder(uuid))
  }

  lemma {:induction false} StepFollows(alerts: seq<Alert>, e: Event)
    requires OneToOne(alerts) && Possible(alerts, e)
    ensures Follows(alerts, e, Next(alerts, e))
  {
    match e
    case RunSource(_, _, _, _, _, _, _) => RunFollows(alerts, e);
    case OneshotCreate(node, f, uuid, now) =>
      var b := Handled(alerts, node, "", f, uuid, now);
      HandledTaken(alerts, node, "", f, uuid, now);
      WithoutOnly(alerts, b.uuid);
      assert (WithoutUuid(alerts, b.uuid) + [b])[..|WithoutUuid(alerts, b.uuid)|] == WithoutUuid(alerts, b.uuid);
    case OneshotDelete(node, klass, left) => UnlessOnly(alerts, node, klass, left);
    case Flag(_, _) =>
    case Remove(uuid) => WithoutOnly(alerts, uuid);
  }

  lemma {:induction false} RunFollows(alerts: seq<Alert>, e: Event)
    requires OneToOne(alerts) && Possible(alerts, e) && e.RunSource?
    ensures Follows(alerts, e, Next(alerts, e))
  {
    var n := |ReportsA(alerts, e)|;
    OthersOnly(alerts, e.source);
    HandleAllChecked(alerts, e.master, e.source, e.checkA, e.uuids[..n], e.now);
    HandleAllChecked(alerts, e.backup, e.source, e.checkB, e.uuids[n..], e.now);
    var ra := HandleAll(alerts, e.master, e.source, ReportsA(alerts, e), e.uuids[..n], e.now);
    var rb := HandleAll(alerts, e.backup, e.source, ReportsB(alerts, e), e.uuids[n..], e.now);
    assert Checked(alerts, e.master, e.source, e.checkA, e.uuids[..n], e.now, ra);
    assert Checked(alerts, e.backup, e.source, e.checkB, e.uuids[n..], e.now, rb);
  }

  // --- Runs -------------------------------------------------------------------------------------------------------

  ghost predicate IsRun(states: seq<seq<Alert>>, events: seq<Event>) {
    && |states| == |events| + 1
    && (forall k :: 0 <= k < |events| ==> Possible(states[k], events[k]) && states[k + 1] == Next(states[k], events[k]))
    && (forall k :: 0 <= k < |events| ==> TwoNodes(events[k]) && Proper(events[k]))
  }

  // A uuid drawn at one step differs from the others drawn then and from all in use up to then.
  ghost predicate NeverRepeated(states: seq<seq<Alert>>, events: seq<Event>)
    requires IsRun(states, events)
  {
    forall j, k :: 0 <= j <= k < |events| ==> Fresh(states[j], NewUuids(events[k]))
  }

  lemma {:induction false} RunOneToOne(states: seq<seq<Alert>>, events: seq<Event>, k: nat)
    requires IsRun(states, events) && NeverRepeated(states, events) && OneToOne(states[0]) && k < |states|
    ensures OneToOne(states[k])
  {
    if k > 0 {
      RunOneToOne(states, events, k - 1);
      assert Fresh(states[k - 1], NewUuids(events[k - 1]));
      StepOneToOne(states[k - 1], events[k - 1]);
    }
  }

  // An alert under a uuid that was in use earlier was there before the step.
  lemma {:induction false} OldUuid(alerts: seq<Alert>, e: Event, earlier: seq<Alert>, x: nat, y: nat) returns (z: nat)
    requires Possible(alerts, e) && Fresh(earlier, NewUuids(e)) && x < |earlier| && y < |Next(alerts, e)|
    requires earlier[x].uuid == Next(alerts, e)[y].uuid
    ensures z < |alerts| && Succeeds(e, alerts[z], Next(alerts, e)[y])
  {
    StepComes(alerts, e, y);
    z :| 0 <= z < |alerts| && Succeeds(e, alerts[z], Next(alerts, e)[y]);
  }

  /** Throughout a run a uuid stands for one alert: the same identity, with the same date. */
  lemma {:induction false} UuidForever(states: seq<seq<Alert>>, events: seq<Event>, i: nat, x: nat, j: nat, y: nat)
    requires IsRun(states, events) && NeverRepeated(states, events) && OneToOne(states[0])
    requires i <= j < |states| && x < |states[i]| && y < |states[j]| && states[i][x].uuid == states[j][y].uuid
    ensures Identity(states[i][x]) == Identity(states[j][y]) && states[i][x].datetime == states[j][y].datetime
    decreases j
  {
    RunOneToOne(states, events, j);
    if i < j {
      var z := OldUuid(states[j - 1], events[j - 1], states[i], x, y);
      UuidForever(states, events, i, x, j - 1, z);
    } else {
      SamePlace(states[i], x, y);
    }
  }
}
