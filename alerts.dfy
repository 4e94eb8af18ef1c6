/** Price alerts: the alert record, the trigger rule, the `/alert` and
    `/delalert` edits of a user's alert list, and one sweep of the periodic
    `check_alerts` job over every user's list. */
module Alerts {
  import opened Common
  import opened Assets

  /** One standing alert. `direction` is kept as the text the user gave,
      lower-cased; `/alert` only ever stores "above" or "below". */
  datatype Alert = Alert(cryptoId: AssetId, targetPrice: real, direction: string)

  /** Every user's alerts, in the order they were created. */
  type AlertTable = map<UserId, seq<Alert>>

  /** A user's alerts; a user without an entry has none. */
  function AlertsOf(m: AlertTable, u: UserId): seq<Alert>
  {
    if u in m then m[u] else []
  }

  /** The trigger rule: an "above" alert fires at or over its target, a
      "below" alert at or under it, and an alert with any other direction
      never fires. */
  predicate Triggered(a: Alert, current: real)
  {
    || (a.direction == "above" && current >= a.targetPrice)
    || (a.direction == "below" && current <= a.targetPrice)
  }

  /** Reaching the target exactly fires both kinds of alert. */
  lemma TriggeredAtTarget(a: Alert)
    requires a.direction == "above" || a.direction == "below"
    ensures Triggered(a, a.targetPrice)
  {
  }

  /** Only the two known directions ever fire. */
  lemma UnknownDirectionNeverTriggers(a: Alert, current: real)
    requires a.direction != "above" && a.direction != "below"
    ensures !Triggered(a, current)
  {
  }

  /** An "above" alert that fires at some price fires at every higher price,
      and a "below" alert at every lower one. */
  lemma TriggeredMonotone(a: Alert, p: real, q: real)
    requires Triggered(a, p)
    ensures a.direction == "above" && p <= q ==> Triggered(a, q)
    ensures a.direction == "below" && q <= p ==> Triggered(a, q)
  {
  }

  /** What the price service answered `/alert` for the resolved asset. */
  datatype Lookup =
    | Unlisted          // no answer, or no entry for the asset
    | ListedWithoutUsd  // an entry for the asset without a "usd" price
    | Priced            // an entry with a "usd" price

  /** The table effect of `/alert` once the direction is accepted and the
      asset resolved: an asset the price service does not list is not found.
      Otherwise the user's entry is created when missing, and then the
      handler reads the asset's "usd" price: when there is none it raises,
      leaving the (possibly new, empty) entry behind; otherwise the alert is
      appended at the end of the user's list. */
  function AddAlert(m: AlertTable, u: UserId, alert: Alert, lookup: Lookup): (r: Step<AlertTable>)
    ensures r.outcome == NotFound <==> lookup == Unlisted
    ensures r.outcome == Raised <==> lookup == ListedWithoutUsd
    ensures r.outcome == Ok <==> lookup == Priced
    ensures lookup == Unlisted ==> r.after == m
    ensures lookup == ListedWithoutUsd ==> AlertsOf(r.after, u) == AlertsOf(m, u)
    ensures lookup == Priced ==> AlertsOf(r.after, u) == AlertsOf(m, u) + [alert]
    ensures lookup != Unlisted ==> u in r.after
    ensures r.after - {u} == m - {u}
  {
    match lookup
    case Unlisted => Step(m, NotFound)
    case ListedWithoutUsd => Step(m[u := AlertsOf(m, u)], Raised)
    case Priced => Step(m[u := AlertsOf(m, u) + [alert]], Ok)
  }

  /** `/alert <asset> <price> <direction>`: a direction other than above or
      below (in any case) is refused before anything else; otherwise the
      asset is resolved and AddAlert stores an alert with the lower-cased
      direction. The target price is not checked. */
  function CreateAlert(m: AlertTable, u: UserId, cryptoInput: string, targetPrice: real,
                       directionInput: string, lookup: Lookup): (r: Step<AlertTable>)
    ensures r.outcome == Invalid <==> Lower(directionInput) != "above" && Lower(directionInput) != "below"
    ensures r.outcome == NotFound <==> r.outcome != Invalid && lookup == Unlisted
    ensures r.outcome == Raised <==> r.outcome != Invalid && lookup == ListedWithoutUsd
    ensures r.outcome == Ok || r.outcome == NotFound || r.outcome == Invalid || r.outcome == Raised
    ensures r.outcome == Invalid || r.outcome == NotFound ==> r.after == m
    ensures r.outcome == Raised ==> AlertsOf(r.after, u) == AlertsOf(m, u)
    ensures r.outcome == Ok ==>
              AlertsOf(r.after, u) == AlertsOf(m, u) + [Alert(FindCryptoId(cryptoInput), targetPrice, Lower(directionInput))]
    ensures r.outcome == Ok || r.outcome == Raised ==> u in r.after
    ensures r.after - {u} == m - {u}
  {
    var direction := Lower(directionInput);
    if direction != "above" && direction != "below" then Step(m, Invalid)
    else
      FindCryptoIdIdempotent(cryptoInput);
      AddAlert(m, u, Alert(FindCryptoId(Lower(cryptoInput)), targetPrice, direction), lookup)
  }

  /** A raising `/alert` stores no alert; its only trace is an empty entry
      for a user who had none, which every handler treats like a missing
      one. */
  lemma RaisedCreateStoresNothing(m: AlertTable, u: UserId, cryptoInput: string, targetPrice: real,
                                  directionInput: string)
    requires CreateAlert(m, u, cryptoInput, targetPrice, directionInput, ListedWithoutUsd).outcome == Raised
    ensures var after := CreateAlert(m, u, cryptoInput, targetPrice, directionInput, ListedWithoutUsd).after;
            && (u in m ==> after == m)
            && (u !in m ==> after == m[u := []])
  {
    var after := CreateAlert(m, u, cryptoInput, targetPrice, directionInput, ListedWithoutUsd).after;
    if u in m {
      MapsEqualAt(after, m, u);
    }
  }

  /** Every alert `/alert` stores has one of the two known directions. */
  lemma CreatedAlertHasKnownDirection(m: AlertTable, u: UserId, cryptoInput: string, targetPrice: real,
                                      directionInput: string, lookup: Lookup)
    requires CreateAlert(m, u, cryptoInput, targetPrice, directionInput, lookup).outcome == Ok
    ensures var a := Last(AlertsOf(CreateAlert(m, u, cryptoInput, targetPrice, directionInput, lookup).after, u));
            a.direction == "above" || a.direction == "below"
  {
  }

  function Last<T>(s: seq<T>): T
    requires s != []
  {
    s[|s| - 1]
  }

  /** `/delalert <n>`: removes the n-th alert (counting from 1) and keeps the
      others in order; the user's entry is dropped once the list is empty.
      Any other n, or a user without an entry, is not found. */
  function DeleteAlert(m: AlertTable, u: UserId, n: int): (r: Step<AlertTable>)
    ensures r.outcome == Ok <==> 1 <= n <= |AlertsOf(m, u)|
    ensures r.outcome != Ok ==> r.outcome == NotFound && r.after == m
    ensures r.outcome == Ok ==> AlertsOf(r.after, u) == AlertsOf(m, u)[..n - 1] + AlertsOf(m, u)[n..]
    ensures r.outcome == Ok ==>
              multiset(AlertsOf(r.after, u)) + multiset{AlertsOf(m, u)[n - 1]} == multiset(AlertsOf(m, u))
    ensures r.outcome == Ok ==> (u in r.after <==> |AlertsOf(m, u)| > 1)
    ensures r.after - {u} == m - {u}
  {
    var i := n - 1;
    if u !in m || i < 0 || i >= |m[u]| then Step(m, NotFound)
    else
      var rest := m[u][..i] + m[u][i + 1..];
      assert m[u] == m[u][..i] + [m[u][i]] + m[u][i + 1..];
      if rest == [] then Step(m - {u}, Ok) else Step(m[u := rest], Ok)
  }

  /** Deleting the alert just created undoes the creation when the user
      had no entry or a non-empty one. An empty entry (left by a sweep or by
      a raising `/alert`) is dropped instead, since deleting the last alert
      drops the user's entry. */
  lemma CreateThenDeleteRestores(m: AlertTable, u: UserId, cryptoInput: string, targetPrice: real,
                                 directionInput: string)
    requires CreateAlert(m, u, cryptoInput, targetPrice, directionInput, Priced).outcome == Ok
    ensures DeleteAlert(CreateAlert(m, u, cryptoInput, targetPrice, directionInput, Priced).after,
                        u, |AlertsOf(m, u)| + 1)
            == Step(if u in m && m[u] == [] then m - {u} else m, Ok)
  {
    var c := CreateAlert(m, u, cryptoInput, targetPrice, directionInput, Priced).after;
    var n := |AlertsOf(m, u)| + 1;
    var d := DeleteAlert(c, u, n).after;
    var expected := if u in m && m[u] == [] then m - {u} else m;
    assert AlertsOf(c, u)[..n - 1] == AlertsOf(m, u);
    assert AlertsOf(d, u) == AlertsOf(m, u);
    assert d - {u} == expected - {u};
    MapsEqualAt(d, expected, u);
  }

  // One sweep of `check_alerts`. For each user the job walks a copy (the
  // snapshot) of the list taken when it reaches that user; for each alert it
  // asks the price service once, and when the alert fires it sends a
  // notification and, only if the send succeeds, removes that alert (the
  // first equal element) from the live list.

  /** What the price service answered for the k-th alert of user u's
      snapshot, keyed by (u, k); a missing key means the call failed or did
      not return that asset. */
  type Quotes = map<(UserId, nat), real>

  /** The (u, k) whose notification was sent successfully (a send is only
      attempted when that alert fires). */
  type Deliveries = set<(UserId, nat)>

  /** The k-th alert of the snapshot had a price, fired and was delivered. */
  predicate Fires(snap: seq<Alert>, k: nat, u: UserId, quote: Quotes, delivered: Deliveries)
    requires k < |snap|
  {
    (u, k) in quote && Triggered(snap[k], quote[(u, k)]) && (u, k) in delivered
  }

  /** The alerts among the first n of the snapshot that the sweep removes,
      in snapshot order. */
  function Removed(snap: seq<Alert>, u: UserId, quote: Quotes, delivered: Deliveries, n: nat): (r: seq<Alert>)
    requires n <= |snap|
    ensures |r| <= n
  {
    if n == 0 then []
    else
      var before := Removed(snap, u, quote, delivered, n - 1);
      if Fires(snap, n - 1, u, quote, delivered) then before + [snap[n - 1]] else before
  }

  /** The alerts among the first n of the snapshot that the sweep keeps, in
      snapshot order; together with the removed ones they are exactly the
      first n alerts. */
  function Kept(snap: seq<Alert>, u: UserId, quote: Quotes, delivered: Deliveries, n: nat): (r: seq<Alert>)
    requires n <= |snap|
    ensures |r| <= n
  {
    if n == 0 then []
    else
      var before := Kept(snap, u, quote, delivered, n - 1);
      if Fires(snap, n - 1, u, quote, delivered) then before else before + [snap[n - 1]]
  }

  /** Each of the first n alerts is either kept or removed. */
  lemma {:induction false} KeptRemovedPartition(snap: seq<Alert>, u: UserId, quote: Quotes, delivered: Deliveries, n: nat)
    requires n <= |snap|
    ensures |Kept(snap, u, quote, delivered, n)| + |Removed(snap, u, quote, delivered, n)| == n
    ensures multiset(Kept(snap, u, quote, delivered, n)) + multiset(Removed(snap, u, quote, delivered, n))
            == multiset(snap[..n])
  {
    if n > 0 {
      KeptRemovedPartition(snap, u, quote, delivered, n - 1);
      assert snap[..n] == snap[..n - 1] + [snap[n - 1]];
    }
  }

  /** Every removed alert is one of the first n that fired. */
  lemma {:induction false} RemovedAreFired(snap: seq<Alert>, u: UserId, quote: Quotes, delivered: Deliveries, n: nat, i: nat)
    requires n <= |snap|
    requires i < |Removed(snap, u, quote, delivered, n)|
    ensures exists k | 0 <= k < n :: Removed(snap, u, quote, delivered, n)[i] == snap[k] && Fires(snap, k, u, quote, delivered)
  {
    var before := Removed(snap, u, quote, delivered, n - 1);
    if i < |before| {
      RemovedAreFired(snap, u, quote, delivered, n - 1, i);
      var k :| 0 <= k < n - 1 && before[i] == snap[k] && Fires(snap, k, u, quote, delivered);
      assert Removed(snap, u, quote, delivered, n)[i] == snap[k];
    } else {
      assert Removed(snap, u, quote, delivered, n)[i] == snap[n - 1];
    }
  }

  /** Every kept alert is one of the first n that did not fire. */
  lemma {:induction false} KeptAreUnfired(snap: seq<Alert>, u: UserId, quote: Quotes, delivered: Deliveries, n: nat, i: nat)
    requires n <= |snap|
    requires i < |Kept(snap, u, quote, delivered, n)|
    ensures exists k | 0 <= k < n :: Kept(snap, u, quote, delivered, n)[i] == snap[k] && !Fires(snap, k, u, quote, delivered)
  {
    var before := Kept(snap, u, quote, delivered, n - 1);
    if i < |before| {
      KeptAreUnfired(snap, u, quote, delivered, n - 1, i);
      var k :| 0 <= k < n - 1 && before[i] == snap[k] && !Fires(snap, k, u, quote, delivered);
      assert Kept(snap, u, quote, delivered, n)[i] == snap[k];
    } else {
      assert Kept(snap, u, quote, delivered, n)[i] == snap[n - 1];
    }
  }

  /** The live list once the sweep has handled the first n alerts of the
      snapshot: the kept ones plus those not yet looked at. */
  function SweepPrefix(snap: seq<Alert>, u: UserId, quote: Quotes, delivered: Deliveries, n: nat): (r: seq<Alert>)
    requires n <= |snap|
    ensures multiset(snap[n..]) <= multiset(r)
  {
    if n == 0 then snap
    else
      var live := SweepPrefix(snap, u, quote, delivered, n - 1);
      var a := snap[n - 1];
      assert snap[n - 1..] == [a] + snap[n..];
      if Fires(snap, n - 1, u, quote, delivered) then
        assert a in multiset(live);
        RemoveFirst(live, a)
      else live
  }

  /** The live list part-way through the sweep holds exactly the kept alerts
      and those not yet looked at. */
  lemma {:induction false} SweepPrefixPartition(snap: seq<Alert>, u: UserId, quote: Quotes, delivered: Deliveries, n: nat)
    requires n <= |snap|
    ensures multiset(SweepPrefix(snap, u, quote, delivered, n))
            == multiset(Kept(snap, u, quote, delivered, n)) + multiset(snap[n..])
  {
    if n > 0 {
      SweepPrefixPartition(snap, u, quote, delivered, n - 1);
      SweepPartitionStep(snap, u, quote, delivered, n);
    } else {
      assert snap[0..] == snap;
    }
  }

  /** The inductive step of SweepPrefixPartition. */
  lemma SweepPartitionStep(snap: seq<Alert>, u: UserId, quote: Quotes, delivered: Deliveries, n: nat)
    requires 0 < n <= |snap|
    requires multiset(SweepPrefix(snap, u, quote, delivered, n - 1))
             == multiset(Kept(snap, u, quote, delivered, n - 1)) + multiset(snap[n - 1..])
    ensures multiset(SweepPrefix(snap, u, quote, delivered, n))
            == multiset(Kept(snap, u, quote, delivered, n)) + multiset(snap[n..])
  {
    var a := snap[n - 1];
    var live := SweepPrefix(snap, u, quote, delivered, n - 1);
    var kept := Kept(snap, u, quote, delivered, n - 1);
    var tail := multiset(snap[n - 1..]);
    var rest := multiset(snap[n..]);
    assert snap[n - 1..] == [a] + snap[n..];
    assert tail == multiset{a} + rest;
    SweepPrefixStep(snap, u, quote, delivered, n - 1);
    if Fires(snap, n - 1, u, quote, delivered) {
      RemoveFirstFromSplit(live, a, multiset(kept), tail, rest);
      assert Kept(snap, u, quote, delivered, n) == kept;
    } else {
      MultisetShift(multiset(live), multiset(kept), tail, a, rest);
      assert Kept(snap, u, quote, delivered, n) == kept + [a];
      assert multiset(kept + [a]) == multiset(kept) + multiset{a};
    }
  }

  /** One step of the sweep: the k-th alert of the snapshot is still in the
      live list, and it leaves the list exactly when it fires. */
  lemma SweepPrefixStep(snap: seq<Alert>, u: UserId, quote: Quotes, delivered: Deliveries, k: nat)
    requires k < |snap|
    ensures snap[k] in SweepPrefix(snap, u, quote, delivered, k)
    ensures Fires(snap, k, u, quote, delivered) ==>
              SweepPrefix(snap, u, quote, delivered, k + 1) == RemoveFirst(SweepPrefix(snap, u, quote, delivered, k), snap[k])
    ensures !Fires(snap, k, u, quote, delivered) ==>
              SweepPrefix(snap, u, quote, delivered, k + 1) == SweepPrefix(snap, u, quote, delivered, k)
  {
    assert snap[k..] == [snap[k]] + snap[k + 1..];
    assert snap[k] in multiset(SweepPrefix(snap, u, quote, delivered, k));
  }

  /** One user's list after the sweep. */
  function SweepUser(snap: seq<Alert>, u: UserId, quote: Quotes, delivered: Deliveries): seq<Alert>
  {
    SweepPrefix(snap, u, quote, delivered, |snap|)
  }

  /** The sweep splits a user's list into what stays and what was removed:
      nothing is added and nothing is lost. */
  lemma SweepUserPartition(snap: seq<Alert>, u: UserId, quote: Quotes, delivered: Deliveries)
    ensures multiset(SweepUser(snap, u, quote, delivered))
            + multiset(Removed(snap, u, quote, delivered, |snap|)) == multiset(snap)
    ensures multiset(SweepUser(snap, u, quote, delivered)) <= multiset(snap)
  {
    SweepPrefixPartition(snap, u, quote, delivered, |snap|);
    KeptRemovedPartition(snap, u, quote, delivered, |snap|);
    assert snap[..|snap|] == snap;
    assert snap[|snap|..] == [];
  }

  /** Every user's list after one sweep. Users are independent of each
      other, so the order in which the job visits them does not matter. A
      list the sweep empties stays in the table as an empty entry. */
  function SweepTable(m: AlertTable, quote: Quotes, delivered: Deliveries): AlertTable
  {
    map u | u in m :: SweepUser(m[u], u, quote, delivered)
  }

  /** A sweep keeps every user's entry (an emptied list stays as an empty
      entry) and only ever removes alerts. */
  lemma SweepTableShrinks(m: AlertTable, quote: Quotes, delivered: Deliveries)
    ensures SweepTable(m, quote, delivered).Keys == m.Keys
    ensures forall u | u in m :: multiset(SweepTable(m, quote, delivered)[u]) <= multiset(m[u])
  {
    forall u | u in m ensures multiset(SweepTable(m, quote, delivered)[u]) <= multiset(m[u]) {
      SweepUserPartition(m[u], u, quote, delivered);
    }
  }

  /** The table part-way through a sweep: the users in `done` have been
      swept, the others not yet. */
  ghost function SweepSome(m: AlertTable, quote: Quotes, delivered: Deliveries, done: set<UserId>): AlertTable
  {
    map u | u in m :: if u in done then SweepUser(m[u], u, quote, delivered) else m[u]
  }

  /** Sweeping one more user updates just that user's entry. */
  lemma SweepSomeStep(m: AlertTable, quote: Quotes, delivered: Deliveries, done: set<UserId>, user: UserId)
    requires user in m
    ensures SweepSome(m, quote, delivered, done + {user})
            == SweepSome(m, quote, delivered, done)[user := SweepUser(m[user], user, quote, delivered)]
  {
  }

  /** With no user swept the table is unchanged; with every user swept it is
      SweepTable. */
  lemma SweepSomeEnds(m: AlertTable, quote: Quotes, delivered: Deliveries)
    ensures SweepSome(m, quote, delivered, {}) == m
    ensures SweepSome(m, quote, delivered, m.Keys) == SweepTable(m, quote, delivered)
  {
  }

  /** An alert that did not fire (no price, not triggered, or the send
      failed) is still in the list after the sweep. */
  lemma {:induction false} NotFiredIsKept(snap: seq<Alert>, u: UserId, quote: Quotes, delivered: Deliveries, k: nat, n: nat)
    requires k < n <= |snap|
    requires !Fires(snap, k, u, quote, delivered)
    ensures snap[k] in Kept(snap, u, quote, delivered, n)
  {
    if k < n - 1 {
      NotFiredIsKept(snap, u, quote, delivered, k, n - 1);
    }
  }

  /** A sweep never drops an alert that was not both triggered and
      delivered. */
  lemma SweepKeepsUnfired(snap: seq<Alert>, u: UserId, quote: Quotes, delivered: Deliveries, k: nat)
    requires k < |snap|
    requires !Fires(snap, k, u, quote, delivered)
    ensures snap[k] in SweepUser(snap, u, quote, delivered)
  {
    NotFiredIsKept(snap, u, quote, delivered, k, |snap|);
    var kept := Kept(snap, u, quote, delivered, |snap|);
    SweepPrefixPartition(snap, u, quote, delivered, |snap|);
    assert snap[|snap|..] == [];
    assert multiset(SweepUser(snap, u, quote, delivered)) == multiset(kept);
    assert snap[k] in multiset(kept);
  }

  /** When no alert fires, the sweep leaves the list exactly as it was. */
  lemma {:induction false} QuietSweepChangesNothing(snap: seq<Alert>, u: UserId, quote: Quotes, delivered: Deliveries, n: nat)
    requires n <= |snap|
    requires forall k | 0 <= k < |snap| :: !Fires(snap, k, u, quote, delivered)
    ensures SweepPrefix(snap, u, quote, delivered, n) == snap
  {
    if n > 0 {
      QuietSweepChangesNothing(snap, u, quote, delivered, n - 1);
    }
  }

  /** A tick that stops part-way: reading a "usd" price that the answer
      lacks raises and ends the whole job, so a user's list keeps the state
      reached after its first n alerts. A sweep whose quotes have no key
      for the later alerts reaches that same state: from position n on,
      nothing changes. */
  lemma {:induction false} SweepStopsWithoutQuotes(snap: seq<Alert>, u: UserId, quote: Quotes, delivered: Deliveries, n: nat, k: nat)
    requires n <= k <= |snap|
    requires forall j | n <= j < |snap| :: (u, j) !in quote
    ensures SweepPrefix(snap, u, quote, delivered, k) == SweepPrefix(snap, u, quote, delivered, n)
  {
    if k > n {
      SweepStopsWithoutQuotes(snap, u, quote, delivered, n, k - 1);
      assert !Fires(snap, k - 1, u, quote, delivered);
    }
  }

  /** On a list without repeated alerts, an alert not yet looked at is not
      among the kept ones. */
  lemma KeptExcludesLater(snap: seq<Alert>, u: UserId, quote: Quotes, delivered: Deliveries, n: nat)
    requires NoDup(snap)
    requires n < |snap|
    ensures snap[n] !in Kept(snap, u, quote, delivered, n)
  {
    assert snap[n] !in snap[..n] by {
      forall k | 0 <= k < n ensures snap[..n][k] != snap[n] {
        assert snap[..n][k] == snap[k];
      }
    }
    var kept := Kept(snap, u, quote, delivered, n);
    KeptRemovedPartition(snap, u, quote, delivered, n);
    assert multiset(kept) <= multiset(snap[..n]);
    var x := snap[n];
    assert x in kept ==> x in multiset(kept);
  }

  /** One step of the sweep on a list without repeated alerts. */
  lemma SweepStepOrdered(snap: seq<Alert>, u: UserId, quote: Quotes, delivered: Deliveries, n: nat)
    requires NoDup(snap)
    requires 0 < n <= |snap|
    requires SweepPrefix(snap, u, quote, delivered, n - 1) == Kept(snap, u, quote, delivered, n - 1) + snap[n - 1..]
    ensures SweepPrefix(snap, u, quote, delivered, n) == Kept(snap, u, quote, delivered, n) + snap[n..]
  {
    var kept := Kept(snap, u, quote, delivered, n - 1);
    var a := snap[n - 1];
    assert snap[n - 1..] == [a] + snap[n..];
    var live := SweepPrefix(snap, u, quote, delivered, n - 1);
    assert live == kept + [a] + snap[n..];
    if Fires(snap, n - 1, u, quote, delivered) {
      KeptExcludesLater(snap, u, quote, delivered, n - 1);
      RemoveFirstAfter(kept, a, snap[n..]);
    }
  }

  /** On a list without repeated alerts the sweep removes exactly the alerts
      that fired and keeps the rest in their order. */
  lemma {:induction false} SweepPrefixOrdered(snap: seq<Alert>, u: UserId, quote: Quotes, delivered: Deliveries, n: nat)
    requires NoDup(snap)
    requires n <= |snap|
    ensures SweepPrefix(snap, u, quote, delivered, n) == Kept(snap, u, quote, delivered, n) + snap[n..]
  {
    if n > 0 {
      SweepPrefixOrdered(snap, u, quote, delivered, n - 1);
      SweepStepOrdered(snap, u, quote, delivered, n);
    }
  }

  /** A delivered alert is gone after the sweep, when the list had no
      repeated alerts. */
  lemma SweepDropsFired(snap: seq<Alert>, u: UserId, quote: Quotes, delivered: Deliveries, k: nat)
    requires NoDup(snap)
    requires k < |snap|
    requires Fires(snap, k, u, quote, delivered)
    ensures snap[k] !in SweepUser(snap, u, quote, delivered)
  {
    SweepPrefixOrdered(snap, u, quote, delivered, |snap|);
    assert snap[|snap|..] == [];
    assert SweepUser(snap, u, quote, delivered) == Kept(snap, u, quote, delivered, |snap|);
    FiredNotKept(snap, u, quote, delivered, k, |snap|);
  }

  /** On a list without repeated alerts, an alert that fired is not among
      the kept ones. */
  lemma {:induction false} FiredNotKept(snap: seq<Alert>, u: UserId, quote: Quotes, delivered: Deliveries, k: nat, n: nat)
    requires NoDup(snap)
    requires k < |snap| && n <= |snap|
    requires Fires(snap, k, u, quote, delivered)
    ensures snap[k] !in Kept(snap, u, quote, delivered, n)
  {
    if n > 0 {
      FiredNotKept(snap, u, quote, delivered, k, n - 1);
      var before := Kept(snap, u, quote, delivered, n - 1);
      if n - 1 == k {
        assert Kept(snap, u, quote, delivered, n) == before;
      } else {
        assert snap[n - 1] != snap[k];
        assert snap[k] !in [snap[n - 1]];
      }
    }
  }

  /** The price service answering p for user u's first alert. */
  function QuoteFirst(u: UserId, p: real): Quotes
  {
    map[(u, 0) := p]
  }

  /** The end-to-end scenario, first tick: an alert for bitcoin above 50000
      does not fire at 48000 and stays. */
  lemma BitcoinAlertWaits(u: UserId, delivered: Deliveries)
    ensures var m := map[u := [Alert("bitcoin", 50000.0, "above")]];
            SweepTable(m, QuoteFirst(u, 48000.0), delivered) == m
  {
    var a := Alert("bitcoin", 50000.0, "above");
    var low := QuoteFirst(u, 48000.0);
    assert !Triggered(a, 48000.0);
    assert !Fires([a], 0, u, low, delivered);
    QuietSweepChangesNothing([a], u, low, delivered, 1);
    assert SweepUser([a], u, low, delivered) == [a];
  }

  /** Second tick: at 50500 the alert fires and, once the notification is
      delivered, it is removed; the user's entry stays, empty. */
  lemma BitcoinAlertFiresOnce(u: UserId, delivered: Deliveries)
    requires (u, 0) in delivered
    ensures var m := map[u := [Alert("bitcoin", 50000.0, "above")]];
            SweepTable(m, QuoteFirst(u, 50500.0), delivered) == map[u := []]
  {
    var a := Alert("bitcoin", 50000.0, "above");
    var high := QuoteFirst(u, 50500.0);
    assert Fires([a], 0, u, high, delivered);
    SweepPrefixStep([a], u, high, delivered, 0);
    assert |RemoveFirst([a], a)| == 0;
  }

  /** Third tick: an emptied entry has nothing left to notify. */
  lemma EmptyEntryStaysEmpty(u: UserId, quote: Quotes, delivered: Deliveries)
    ensures SweepTable(map[u := []], quote, delivered) == map[u := []]
  {
    assert SweepUser([], u, quote, delivered) == [];
  }

  /** A failed delivery leaves the fired alert in place for the next tick. */
  lemma BitcoinAlertUndelivered(u: UserId, delivered: Deliveries)
    requires (u, 0) !in delivered
    ensures var m := map[u := [Alert("bitcoin", 50000.0, "above")]];
            SweepTable(m, QuoteFirst(u, 50500.0), delivered) == m
  {
    var a := Alert("bitcoin", 50000.0, "above");
    var high := QuoteFirst(u, 50500.0);
    assert !Fires([a], 0, u, high, delivered);
    QuietSweepChangesNothing([a], u, high, delivered, 1);
    assert SweepUser([a], u, high, delivered) == [a];
  }
}
