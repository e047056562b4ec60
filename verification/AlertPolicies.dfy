/**
 Alert policies: each remembers the alerts that it reported last and, when its key value changes,
 reports what is gone and what is new since then.
 */
module AlertPolicies {
  import opened Alerts
  import opened Bits
  import opened Sequences
  import opened Wrappers

  datatype Schedule = Immediately | Hourly | Daily | Never

  // The key value at a time in seconds: the time itself, its hour, its day, or none.
  function KeyOf(schedule: Schedule, now: int): Option<int> {
    match schedule
    case Immediately => Some(now)
    case Hourly => Some(now / 3600)
    case Daily => Some(now / 86400)
    case Never => None
  }

  // A dictionary of alerts by uuid, in order of insertion.
  function Put(dict: seq<Alert>, a: Alert): seq<Alert> {
    if dict == [] then [a]
    else if dict[0].uuid == a.uuid then [a] + dict[1..]
    else [dict[0]] + Put(dict[1..], a)
  }

  function ByUuid(alerts: seq<Alert>): seq<Alert> {
    if alerts == [] then [] else Put(ByUuid(alerts[..|alerts| - 1]), alerts[|alerts| - 1])
  }

  function Uuids(alerts: seq<Alert>): set<Uuid> {
    set i | 0 <= i < |alerts| :: alerts[i].uuid
  }

  // The alerts of one list that are not in the other.
  function Missing(alerts: seq<Alert>, other: seq<Alert>): seq<Alert> {
    if alerts == [] then []
    else (if alerts[0].uuid !in Uuids(other) then [alerts[0]] else []) + Missing(alerts[1..], other)
  }

  datatype Policy = Policy(schedule: Schedule, lastKey: Option<int>, last: seq<Alert>)

  // The policy is shown the current alerts; or an alert was dismissed for good.
  datatype PolicyEvent = Receive(now: int, alerts: seq<Alert>) | Forget(uuid: Uuid)

  predicate Due(p: Policy, e: PolicyEvent) {
    e.Receive? && KeyOf(p.schedule, e.now) != p.lastKey
  }

  function After(p: Policy, e: PolicyEvent): Policy {
    match e
    case Receive(now, alerts) => if Due(p, e) then p.(lastKey := KeyOf(p.schedule, now), last := ByUuid(alerts)) else p
    case Forget(uuid) => p.(last := WithoutUuid(p.last, uuid))
  }

  function Gone(p: Policy, e: PolicyEvent): seq<Alert> {
    if Due(p, e) then Missing(p.last, e.alerts) else []
  }

  function New(p: Policy, e: PolicyEvent): seq<Alert> {
    if Due(p, e) then Missing(ByUuid(e.alerts), p.last) else []
  }

  // --- Reports add up ------------------------------------------------------------------------------------------

  lemma {:induction false} PutUuids(dict: seq<Alert>, a: Alert)
    ensures Uuids(Put(dict, a)) == Uuids(dict) + {a.uuid}
  {
    if dict != [] {
      UuidsHead(dict);
      UuidsHead(Put(dict, a));
      if dict[0].uuid != a.uuid {
        PutUuids(dict[1..], a);
        assert Put(dict, a)[1..] == Put(dict[1..], a);
      } else {
        assert Put(dict, a)[1..] == dict[1..];
      }
    } else {
      assert [a][0].uuid == a.uuid;
    }
  }

  lemma {:induction false} UuidsHead(alerts: seq<Alert>)
    requires alerts != []
    ensures Uuids(alerts) == {alerts[0].uuid} + Uuids(alerts[1..])
  {
    forall u | u in Uuids(alerts) ensures u in {alerts[0].uuid} + Uuids(alerts[1..]) {
      var i :| 0 <= i < |alerts| && alerts[i].uuid == u;
      assert i > 0 ==> alerts[1..][i - 1].uuid == u;
    }
    forall u | u in Uuids(alerts[1..]) ensures u in Uuids(alerts) {
      var i :| 0 <= i < |alerts[1..]| && alerts[1..][i].uuid == u;
      assert alerts[i + 1].uuid == u;
    }
  }

  lemma {:induction false} UuidsLast(alerts: seq<Alert>)
    requires alerts != []
    ensures Uuids(alerts) == Uuids(alerts[..|alerts| - 1]) + {alerts[|alerts| - 1].uuid}
  {
    var n := |alerts| - 1;
    forall u | u in Uuids(alerts) ensures u in Uuids(alerts[..n]) + {alerts[n].uuid} {
      var i :| 0 <= i < |alerts| && alerts[i].uuid == u;
      assert i < n ==> alerts[..n][i].uuid == u;
    }
    forall u | u in Uuids(alerts[..n]) ensures u in Uuids(alerts) {
      var i :| 0 <= i < n && alerts[..n][i].uuid == u;
      assert alerts[i].uuid == u;
    }
  }

  lemma {:induction false} ByUuidUuids(alerts: seq<Alert>)
    ensures Uuids(ByUuid(alerts)) == Uuids(alerts)
  {
    if alerts != [] {
      ByUuidUuids(alerts[..|alerts| - 1]);
      PutUuids(ByUuid(alerts[..|alerts| - 1]), alerts[|alerts| - 1]);
      UuidsLast(alerts);
    }
  }

  lemma {:induction false} MissingUuids(alerts: seq<Alert>, other: seq<Alert>)
    ensures Uuids(Missing(alerts, other)) == Uuids(alerts) - Uuids(other)
  {
    if alerts != [] {
      MissingUuids(alerts[1..], other);
      UuidsHead(alerts);
      if alerts[0].uuid !in Uuids(other) {
        UuidsHead(Missing(alerts, other));
        assert Missing(alerts, other)[1..] == Missing(alerts[1..], other);
      } else {
        assert Missing(alerts, other) == Missing(alerts[1..], other);
      }
    }
  }

  lemma {:induction false} WithoutUuids(alerts: seq<Alert>, uuid: Uuid)
    ensures Uuids(WithoutUuid(alerts, uuid)) == Uuids(alerts) - {uuid}
  {
    if alerts != [] {
      WithoutUuids(alerts[1..], uuid);
      UuidsHead(alerts);
      if alerts[0].uuid != uuid {
        UuidsHead(WithoutUuid(alerts, uuid));
        assert WithoutUuid(alerts, uuid)[1..] == WithoutUuid(alerts[1..], uuid);
      } else {
        assert WithoutUuid(alerts, uuid) == WithoutUuid(alerts[1..], uuid);
      }
    }
  }

  function RunPolicy(p: Policy, events: seq<PolicyEvent>): Policy
    decreases |events|
  {
    if events == [] then p else RunPolicy(After(p, events[0]), events[1..])
  }

  // What a receiver of the reports believes to be current.
  function Follow(known: set<Uuid>, gone: seq<Alert>, new_: seq<Alert>, e: PolicyEvent): set<Uuid> {
    match e
    case Receive(_, _) => (known - Uuids(gone)) + Uuids(new_)
    case Forget(uuid) => known - {uuid}
  }

  function Believed(known: set<Uuid>, p: Policy, events: seq<PolicyEvent>): set<Uuid>
    decreases |events|
  {
    if events == [] then known
    else Believed(Follow(known, Gone(p, events[0]), New(p, events[0]), events[0]), After(p, events[0]), events[1..])
  }

  /** A report names as gone only what the receiver knows and as new only what it does not know, and
      afterwards the receiver knows what the policy remembers; when due, that is the current alerts. */
  lemma {:induction false} ReportExact(p: Policy, e: PolicyEvent)
    ensures Uuids(Gone(p, e)) <= Uuids(p.last) && Uuids(New(p, e)) !! Uuids(p.last)
    ensures Follow(Uuids(p.last), Gone(p, e), New(p, e), e) == Uuids(After(p, e).last)
    ensures Due(p, e) ==> Uuids(After(p, e).last) == Uuids(e.alerts)
  {
    match e
    case Receive(now, alerts) =>
      ByUuidUuids(alerts);
      MissingUuids(p.last, alerts);
      MissingUuids(ByUuid(alerts), p.last);
    case Forget(uuid) => WithoutUuids(p.last, uuid);
  }

  /** Over a whole run the reports and the dismissals reproduce what the policy remembers. */
  lemma {:induction false} ReportsAddUp(p: Policy, events: seq<PolicyEvent>)
    ensures Believed(Uuids(p.last), p, events) == Uuids(RunPolicy(p, events).last)
    decreases |events|
  {
    if events != [] {
      ReportExact(p, events[0]);
      ReportsAddUp(After(p, events[0]), events[1..]);
    }
  }

  // --- What is reported -------------------------------------------------------------------------------------

  // The last alert of the list under its uuid.
  ghost predicate LastUnder(alerts: seq<Alert>, a: Alert) {
    exists i :: && 0 <= i < |alerts| && alerts[i] == a
                && forall j :: i < j < |alerts| ==> alerts[j].uuid != a.uuid
  }

  lemma {:induction false} PutMembers(dict: seq<Alert>, a: Alert, b: Alert)
    requires forall i, j :: 0 <= i < j < |dict| ==> dict[i].uuid != dict[j].uuid
    ensures b in Put(dict, a) <==> b == a || (b in dict && b.uuid != a.uuid)
    ensures var r := Put(dict, a); forall i, j :: 0 <= i < j < |r| ==> r[i].uuid != r[j].uuid
  {
    if dict != [] {
      assert dict == [dict[0]] + dict[1..];
      if dict[0].uuid == a.uuid {
        assert Put(dict, a) == [a] + dict[1..];
        assert forall i :: 0 <= i < |dict[1..]| ==> dict[1..][i] == dict[i + 1];
      } else {
        PutMembers(dict[1..], a, b);
        PutUuids(dict[1..], a);
        var rest := Put(dict[1..], a);
        assert Put(dict, a) == [dict[0]] + rest;
        forall j | 0 <= j < |rest| ensures rest[j].uuid != dict[0].uuid {
          assert rest[j].uuid in Uuids(rest);
        }
      }
    }
  }

  // The uuids of a list, in order.
  function UuidsOf(alerts: seq<Alert>): (uuids: seq<Uuid>)
    ensures |uuids| == |alerts|
  {
    seq(|alerts|, k requires 0 <= k < |alerts| => alerts[k].uuid)
  }

  /** An entry that is there already keeps its place, and a new one comes last. */
  lemma {:induction false} PutOrder(dict: seq<Alert>, a: Alert)
    ensures UuidsOf(Put(dict, a)) == if a.uuid in UuidsOf(dict) then UuidsOf(dict) else UuidsOf(dict) + [a.uuid]
  {
    if dict != [] {
      assert UuidsOf(dict) == [dict[0].uuid] + UuidsOf(dict[1..]);
      if dict[0].uuid == a.uuid {
        assert UuidsOf([a] + dict[1..]) == [a.uuid] + UuidsOf(dict[1..]);
      } else {
        PutOrder(dict[1..], a);
        var rest := Put(dict[1..], a);
        assert UuidsOf([dict[0]] + rest) == [dict[0].uuid] + UuidsOf(rest);
      }
    }
  }

  ghost function NotAmong(other: seq<Alert>): Alert -> bool {
    (a: Alert) => a.uuid !in Uuids(other)
  }

  lemma {:induction false} MissingOnly(alerts: seq<Alert>, other: seq<Alert>)
    ensures Missing(alerts, other) == Only(alerts, NotAmong(other))
  {
    if alerts != [] {
      MissingOnly(alerts[1..], other);
    }
  }

  lemma {:induction false} LastUnderMore(alerts: seq<Alert>, b: Alert)
    requires alerts != []
    ensures var init, last := alerts[..|alerts| - 1], alerts[|alerts| - 1];
            LastUnder(alerts, b) <==> b == last || (LastUnder(init, b) && b.uuid != last.uuid)
  {
    var init, last := alerts[..|alerts| - 1], alerts[|alerts| - 1];
    if i :| && 0 <= i < |alerts| && alerts[i] == b && forall j :: i < j < |alerts| ==> alerts[j].uuid != b.uuid {
      if i < |init| {
        assert init[i] == b;
        assert forall j :: i < j < |init| ==> init[j] == alerts[j];
      }
    }
    if b == last {
      assert alerts[|alerts| - 1] == b;
    } else if i :| && 0 <= i < |init| && init[i] == b && forall j :: i < j < |init| ==> init[j].uuid != b.uuid {
      assert b.uuid != last.uuid ==>
          alerts[i] == b && forall j :: i < j < |alerts| ==> alerts[j].uuid != b.uuid by {
        assert forall j :: i < j < |init| ==> alerts[j] == init[j];
      }
    }
  }

  /** The dictionary of the alerts holds, under each uuid, the last one. */
  lemma {:induction false} ByUuidMembers(alerts: seq<Alert>, b: Alert)
    ensures b in ByUuid(alerts) <==> LastUnder(alerts, b)
    ensures var r := ByUuid(alerts); forall i, j :: 0 <= i < j < |r| ==> r[i].uuid != r[j].uuid
  {
    if alerts != [] {
      var init, last := alerts[..|alerts| - 1], alerts[|alerts| - 1];
      ByUuidMembers(init, b);
      PutMembers(ByUuid(init), last, b);
      LastUnderMore(alerts, b);
    }
  }

  lemma {:induction false} MissingMembers(alerts: seq<Alert>, other: seq<Alert>, b: Alert)
    ensures b in Missing(alerts, other) <==> b in alerts && b.uuid !in Uuids(other)
  {
    if alerts != [] {
      assert alerts == [alerts[0]] + alerts[1..];
      MissingMembers(alerts[1..], other, b);
    }
  }

  /** When due, an alert is reported as new exactly if it is the current one under a uuid that was not
      reported last time, and as gone exactly if it was reported last time and its uuid is not current; and
      nothing is reported when not due. */
  lemma {:induction false} ReportContents(p: Policy, e: PolicyEvent, b: Alert)
    ensures b in New(p, e) <==> Due(p, e) && LastUnder(e.alerts, b) && b.uuid !in Uuids(p.last)
    ensures b in Gone(p, e) <==> Due(p, e) && b in p.last && b.uuid !in Uuids(e.alerts)
  {
    if e.Receive? {
      ByUuidMembers(e.alerts, b);
      MissingMembers(ByUuid(e.alerts), p.last, b);
      MissingMembers(p.last, e.alerts, b);
    }
  }

  // --- How often a policy reports ----------------------------------------------------------------------------------

  /** The policy that is never due reports nothing, in any run. */
  lemma {:induction false} NeverReports(p: Policy, events: seq<PolicyEvent>, k: nat)
    requires p.schedule == Never && p.lastKey == None && k < |events|
    ensures var q := RunPolicy(p, events[..k]);
            Gone(q, events[k]) == [] && New(q, events[k]) == [] && q.lastKey == None
    decreases |events|
  {
    if k > 0 {
      NeverReports(After(p, events[0]), events[1..], k - 1);
      assert events[..k][1..] == events[1..][..k - 1];
    }
  }

  // The key values at which the policy was due.
  function DueKeys(p: Policy, events: seq<PolicyEvent>): seq<Option<int>>
    decreases |events|
  {
    if events == [] then []
    else
      (if Due(p, events[0]) then [KeyOf(p.schedule, events[0].now)] else []) + DueKeys(After(p, events[0]), events[1..])
  }

  // The clock does not go back.
  ghost predicate Forward(since: int, events: seq<PolicyEvent>)
    decreases |events|
  {
    events != [] ==>
      var e := events[0];
      (e.Receive? ==> since <= e.now) && Forward(if e.Receive? then e.now else since, events[1..])
  }

  ghost predicate Above(key: Option<int>, keys: seq<Option<int>>) {
    && (forall i :: 0 <= i < |keys| ==> keys[i].Some? && (key.Some? ==> key.value < keys[i].value))
    && (forall i, j :: 0 <= i < j < |keys| ==> keys[i].Some? && keys[j].Some? && keys[i].value < keys[j].value)
  }

  lemma {:induction false} KeyMonotone(schedule: Schedule, t: int, u: int)
    requires t <= u && schedule != Never
    ensures KeyOf(schedule, t).value <= KeyOf(schedule, u).value
  {
  }

  // Two times in seconds fall into the same period of that length.
  ghost predicate SamePeriod(t: int, u: int, length: nat) {
    exists n :: n * length <= t < n * length + length && n * length <= u < n * length + length
  }

  lemma {:induction false} PeriodExactly(t: int, u: int, length: nat)
    requires length > 0
    ensures t / length == u / length <==> SamePeriod(t, u, length)
  {
    var n := t / length;
    assert n * length <= t < n * length + length;
    assert (u / length) * length <= u < (u / length) * length + length;
    if m :| m * length <= t < m * length + length && m * length <= u < m * length + length {
      ModUnique(t, length, m, t - m * length);
      ModUnique(u, length, m, u - m * length);
    }
  }

  /** Two times have the same key value exactly if they are the same, in the same hour, or in the same day;
      and always, for the policy that is never due. */
  lemma {:induction false} KeyExactly(schedule: Schedule, t: int, u: int)
    ensures KeyOf(schedule, t) == KeyOf(schedule, u) <==>
            match schedule
            case Immediately => t == u
            case Hourly => SamePeriod(t, u, 60 * 60)
            case Daily => SamePeriod(t, u, 24 * 60 * 60)
            case Never => true
  {
    PeriodExactly(t, u, 3600);
    PeriodExactly(t, u, 86400);
  }

  /** With a clock that does not go back a policy is due at most once for each key value: the values
      grow strictly. */
  lemma {:induction false} OncePerKey(p: Policy, since: int, events: seq<PolicyEvent>)
    requires p.schedule != Never && Forward(since, events)
    requires p.lastKey.Some? ==> p.lastKey.value <= KeyOf(p.schedule, since).value
    ensures Above(p.lastKey, DueKeys(p, events))
    decreases |events|
  {
    if events != [] {
      var e := events[0];
      if e.Receive? {
        KeyMonotone(p.schedule, since, e.now);
        OncePerKey(After(p, e), e.now, events[1..]);
      } else {
        OncePerKey(After(p, e), since, events[1..]);
      }
    }
  }

  // --- Gone and back under another uuid ------------------------------------------------------------------

  predicate SameAlert(a: Alert, b: Alert) {
    a.klass == b.klass && a.key == b.key
  }

  // How many alerts of the list are the same as `c`.
  function Count(alerts: seq<Alert>, c: Alert): nat {
    if alerts == [] then 0 else (if SameAlert(alerts[0], c) then 1 else 0) + Count(alerts[1..], c)
  }

  ghost function OfKind(klass: string, key: string): Alert -> bool {
    (a: Alert) => a.klass == klass && a.key == key
  }

  /** Alerts are the same if class and key are. */
  lemma {:induction false} CountExactly(alerts: seq<Alert>, c: Alert)
    ensures Count(alerts, c) == |Only(alerts, OfKind(c.klass, c.key))|
  {
    if alerts != [] {
      CountExactly(alerts[1..], c);
    }
  }

  lemma {:induction false} WithoutCount(alerts: seq<Alert>, k: nat, c: Alert)
    requires k < |alerts|
    ensures Count(Without(alerts, k), c) + (if SameAlert(alerts[k], c) then 1 else 0) == Count(alerts, c)
  {
    if k > 0 {
      WithoutCount(alerts[1..], k - 1, c);
      assert Without(alerts, k)[1..] == Without(alerts[1..], k - 1);
    } else {
      assert Without(alerts, k) == alerts[1..];
    }
  }

  lemma {:induction false} WithoutMultiset(alerts: seq<Alert>, k: nat)
    requires k < |alerts|
    ensures multiset(Without(alerts, k)) + multiset{alerts[k]} == multiset(alerts)
  {
    assert alerts == alerts[..k] + [alerts[k]] + alerts[k + 1..];
  }

  lemma {:induction false} NoneSame(alerts: seq<Alert>, c: Alert)
    requires forall i :: 0 <= i < |alerts| ==> !SameAlert(alerts[i], c)
    ensures Count(alerts, c) == 0
  {
    if alerts != [] {
      NoneSame(alerts[1..], c);
    }
  }

  // The part of `gone` that was looked at finds no partner any more, and the balance is kept.
  ghost predicate Balanced(gone0: seq<Alert>, new0: seq<Alert>, rest: seq<Alert>, gone: seq<Alert>, new_: seq<Alert>,
                           c: Alert) {
    && Count(gone, c) - Count(new_, c) == Count(gone0, c) - Count(new0, c)
    && Count(gone, c) >= Count(rest, c)
    && (Count(gone, c) > Count(rest, c) ==> Count(new_, c) == 0)
  }

  lemma {:induction false} PairCancelled(gone0: seq<Alert>, new0: seq<Alert>, rest: seq<Alert>, gone: seq<Alert>,
                                         new_: seq<Alert>, i: nat, k: nat, c: Alert)
    requires rest != [] && Balanced(gone0, new0, rest, gone, new_, c)
    requires i < |gone| && gone[i] == rest[0] && k < |new_| && SameAlert(rest[0], new_[k])
    ensures Balanced(gone0, new0, rest[1..], Without(gone, i), Without(new_, k), c)
  {
    WithoutCount(gone, i, c);
    WithoutCount(new_, k, c);
  }

  lemma {:induction false} NoPartner(gone0: seq<Alert>, new0: seq<Alert>, rest: seq<Alert>, gone: seq<Alert>,
                                     new_: seq<Alert>, c: Alert)
    requires rest != [] && Balanced(gone0, new0, rest, gone, new_, c)
    requires forall k :: 0 <= k < |new_| ==> !SameAlert(rest[0], new_[k])
    ensures Balanced(gone0, new0, rest[1..], gone, new_, c)
  {
    if SameAlert(rest[0], c) {
      NoneSame(new_, c);
    }
  }

  // What is still to be looked at is still there, and nothing was added.
  ghost predicate Bags(gone0: seq<Alert>, new0: seq<Alert>, rest: seq<Alert>, gone: seq<Alert>, new_: seq<Alert>) {
    multiset(rest) <= multiset(gone) <= multiset(gone0) && multiset(new_) <= multiset(new0)
  }

  lemma {:induction false} BagsNext(gone0: seq<Alert>, new0: seq<Alert>, rest: seq<Alert>, gone: seq<Alert>,
                                    new_: seq<Alert>)
    requires rest != [] && Bags(gone0, new0, rest, gone, new_)
    ensures rest[0] in gone && Bags(gone0, new0, rest[1..], gone, new_)
    ensures forall i, k :: 0 <= i < |gone| && 0 <= k < |new_| && gone[i] == rest[0] ==>
          Bags(gone0, new0, rest[1..], Without(gone, i), Without(new_, k))
  {
    assert rest == [rest[0]] + rest[1..];
    assert rest[0] in multiset(rest);
    assert rest[0] in multiset(gone);
    forall i, k | 0 <= i < |gone| && 0 <= k < |new_| && gone[i] == rest[0]
      ensures Bags(gone0, new0, rest[1..], Without(gone, i), Without(new_, k))
    {
      WithoutMultiset(gone, i);
      WithoutMultiset(new_, k);
      assert multiset(rest) == multiset(rest[1..]) + multiset{rest[0]};
      BagsCancel(multiset(rest[1..]), multiset(Without(gone, i)), rest[0]);
    }
  }

  lemma {:induction false} BagsCancel(s: multiset<Alert>, t: multiset<Alert>, a: Alert)
    requires s + multiset{a} <= t + multiset{a}
    ensures s <= t
  {
    forall b ensures s[b] <= t[b] {
      assert (s + multiset{a})[b] <= (t + multiset{a})[b];
    }
  }

  // The next gone alert cancels with the first new one of its class and key.
  method CancelOne(ghost gone0: seq<Alert>, ghost new0: seq<Alert>, ghost rest: seq<Alert>, g: Alert, gone: seq<Alert>,
                   new_: seq<Alert>)
    returns (gone': seq<Alert>, new': seq<Alert>)
    requires rest != [] && rest[0] == g && Bags(gone0, new0, rest, gone, new_)
    requires forall c :: Balanced(gone0, new0, rest, gone, new_, c)
    ensures Bags(gone0, new0, rest[1..], gone', new')
    ensures forall c :: Balanced(gone0, new0, rest[1..], gone', new', c)
  {
    BagsNext(gone0, new0, rest, gone, new_);
    gone', new' := gone, new_;
    var k := 0;
    while k < |new_| && !SameAlert(g, new_[k])
      invariant k <= |new_| && forall j :: 0 <= j < k ==> !SameAlert(g, new_[j])
    {
      k := k + 1;
    }
    if k < |new_| {
      var i := IndexOf(gone, g);
      gone', new' := Without(gone, i), Without(new_, k);
      forall c ensures Balanced(gone0, new0, rest[1..], gone', new', c) {
        PairCancelled(gone0, new0, rest, gone, new_, i, k, c);
      }
    } else {
      forall c ensures Balanced(gone0, new0, rest[1..], gone', new', c) {
        NoPartner(gone0, new0, rest, gone, new_, c);
      }
    }
  }

  /** Pairs of a gone and a new alert of the same class and key cancel out: as many as there are on
      the smaller side, so that one side is empty for every class and key. */
  method CancelPairs(gone0: seq<Alert>, new0: seq<Alert>) returns (gone: seq<Alert>, new_: seq<Alert>)
    ensures multiset(gone) <= multiset(gone0) && multiset(new_) <= multiset(new0)
    ensures forall c :: Count(gone, c) - Count(new_, c) == Count(gone0, c) - Count(new0, c)
    ensures forall c :: Count(gone, c) == 0 || Count(new_, c) == 0
  {
    gone, new_ := gone0, new0;
    assert gone0[0..] == gone0;
    for n := 0 to |gone0|
      invariant Bags(gone0, new0, gone0[n..], gone, new_)
      invariant forall c :: Balanced(gone0, new0, gone0[n..], gone, new_, c)
    {
      assert gone0[n..][1..] == gone0[n + 1..];
      gone, new_ := CancelOne(gone0, new0, gone0[n..], gone0[n], gone, new_);
    }
    forall c
      ensures Count(gone, c) - Count(new_, c) == Count(gone0, c) - Count(new0, c)
      ensures Count(gone, c) == 0 || Count(new_, c) == 0
    {
      assert Balanced(gone0, new0, gone0[|gone0|..], gone, new_, c);
    }
  }

  // --- The policy object ---------------------------------------------------------------------------------

  class AlertPolicy {
    const schedule: Schedule
    var lastKeyValue: Option<int>
    var lastKeyValueAlerts: seq<Alert>

    function View(): Policy
      reads this
    {
      Policy(schedule, lastKeyValue, lastKeyValueAlerts)
    }

    constructor (schedule: Schedule)
      ensures View() == Policy(schedule, None, [])
    {
      this.schedule := schedule;
      lastKeyValue, lastKeyValueAlerts := None, [];
    }

    method ReceiveAlerts(now: int, alerts: seq<Alert>) returns (gone: seq<Alert>, new_: seq<Alert>)
      modifies this
      ensures View() == After(old(View()), Receive(now, alerts))
      ensures gone == Gone(old(View()), Receive(now, alerts)) && new_ == New(old(View()), Receive(now, alerts))
      ensures Uuids(lastKeyValueAlerts) == (old(Uuids(lastKeyValueAlerts)) - Uuids(gone)) + Uuids(new_)
    {
      ReportExact(View(), Receive(now, alerts));
      gone, new_ := [], [];
      var key := KeyOf(schedule, now);
      if key != lastKeyValue {
        var current := ByUuid(alerts);
        MissingByUuid(lastKeyValueAlerts, alerts);
        gone := Missing(lastKeyValueAlerts, current);
        new_ := Missing(current, lastKeyValueAlerts);
        lastKeyValue := key;
        lastKeyValueAlerts := current;
      }
    }

    method Pop(uuid: Uuid)
      modifies this
      ensures View() == After(old(View()), Forget(uuid))
    {
      lastKeyValueAlerts := WithoutUuid(lastKeyValueAlerts, uuid);
    }
  }

  lemma {:induction false} MissingByUuid(alerts: seq<Alert>, other: seq<Alert>)
    ensures Missing(alerts, ByUuid(other)) == Missing(alerts, other)
  {
    ByUuidUuids(other);
    if alerts != [] {
      MissingByUuid(alerts[1..], other);
    }
  }
}
