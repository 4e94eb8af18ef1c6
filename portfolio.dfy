/** Portfolios: per user, a quantity per asset. `/add` merges by addition and
    `/remove` deletes an asset's whole entry. */
module Portfolio {
  import opened Common

  /** One user's holdings: a quantity per asset. */
  type Holdings = map<AssetId, real>

  /** Every user's holdings. */
  type PortfolioTable = map<UserId, Holdings>

  /** A user's holdings; a user without an entry holds nothing. */
  function HoldingsOf(p: PortfolioTable, u: UserId): Holdings
  {
    if u in p then p[u] else map[]
  }

  /** What the handlers keep true: no user has an empty holdings entry
      (`/add` always fills the entry it creates, `/remove` drops an entry it
      empties). */
  predicate WellFormed(p: PortfolioTable)
  {
    forall u | u in p :: p[u] != map[]
  }

  /** `/add <asset> <amount>`: an asset the price service does not list
      (`listed` is its answer) is not found; otherwise the amount is added to
      the held quantity, or becomes it when the asset is not yet held. The
      amount is not checked: zero and negative amounts are added too. */
  function AddHolding(p: PortfolioTable, u: UserId, asset: AssetId, amount: real, listed: bool): (r: Step<PortfolioTable>)
    ensures r.outcome == (if listed then Ok else NotFound)
    ensures !listed ==> r.after == p
    ensures listed ==> u in r.after && asset in r.after[u]
    ensures listed && asset in HoldingsOf(p, u) ==> r.after[u][asset] == p[u][asset] + amount
    ensures listed && asset !in HoldingsOf(p, u) ==> r.after[u][asset] == amount
    ensures listed ==> r.after[u] - {asset} == HoldingsOf(p, u) - {asset}
    ensures r.after - {u} == p - {u}
    ensures WellFormed(p) ==> WellFormed(r.after)
  {
    if !listed then Step(p, NotFound)
    else
      var held := HoldingsOf(p, u);
      var updated := if asset in held then held[asset := held[asset] + amount] else held[asset := amount];
      Step(p[u := updated], Ok)
  }

  /** Adding a and then b to one asset holds the same as adding a + b once. */
  lemma AddHoldingAdditive(p: PortfolioTable, u: UserId, asset: AssetId, a: real, b: real)
    ensures AddHolding(AddHolding(p, u, asset, a, true).after, u, asset, b, true)
            == AddHolding(p, u, asset, a + b, true)
  {
    var once := AddHolding(p, u, asset, a + b, true).after;
    var twice := AddHolding(AddHolding(p, u, asset, a, true).after, u, asset, b, true).after;
    assert twice[u][asset] == once[u][asset];
    MapsEqualAt(twice[u], once[u], asset);
    MapsEqualAt(twice, once, u);
  }

  /** `/remove <asset>`: a user or asset without an entry is not found;
      otherwise the asset's whole entry is deleted (not decremented), and the
      user's entry is dropped once it is empty. */
  function RemoveHolding(p: PortfolioTable, u: UserId, asset: AssetId): (r: Step<PortfolioTable>)
    ensures r.outcome == (if asset in HoldingsOf(p, u) then Ok else NotFound)
    ensures r.outcome == NotFound ==> r.after == p
    ensures HoldingsOf(r.after, u) == HoldingsOf(p, u) - {asset}
    ensures r.outcome == Ok ==> (u in r.after <==> HoldingsOf(p, u) - {asset} != map[])
    ensures r.after - {u} == p - {u}
    ensures WellFormed(p) ==> WellFormed(r.after)
  {
    if u !in p || asset !in p[u] then Step(p, NotFound)
    else
      var rest := p[u] - {asset};
      if rest == map[] then Step(p - {u}, Ok) else Step(p[u := rest], Ok)
  }

  /** Removing an asset just added for the first time restores the table. */
  lemma AddThenRemoveRestores(p: PortfolioTable, u: UserId, asset: AssetId, amount: real)
    requires WellFormed(p)
    requires asset !in HoldingsOf(p, u)
    ensures RemoveHolding(AddHolding(p, u, asset, amount, true).after, u, asset) == Step(p, Ok)
  {
    var added := AddHolding(p, u, asset, amount, true).after;
    var removed := RemoveHolding(added, u, asset).after;
    assert HoldingsOf(added, u) - {asset} == HoldingsOf(p, u) - {asset} == HoldingsOf(p, u);
    MapsEqualAt(removed, p, u);
  }
}
