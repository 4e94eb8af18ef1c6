/** The bot's in-memory user state: the four per-user tables (alerts,
    portfolio, favorites, balance) and the state effect of every handler
    that changes them, each applied as one atomic step. */
module Store {
  import opened Common
  import opened Assets
  import opened Alerts
  import Portfolio
  import Favorites
  import opened Payments

  class UserStore {
    var alerts: AlertTable
    var portfolio: Portfolio.PortfolioTable
    var favorites: Favorites.FavoriteTable
    var balance: BalanceTable

    /** What every handler keeps true of the tables. */
    ghost predicate Valid()
      reads this
    {
      Portfolio.WellFormed(portfolio) && Favorites.WellFormed(favorites)
    }

    /** A fresh process: every table empty. */
    constructor ()
      ensures Valid()
      ensures alerts == map[] && portfolio == map[] && favorites == map[] && balance == map[]
    {
      alerts := map[];
      portfolio := map[];
      favorites := map[];
      balance := map[];
    }

    /** `/alert`: see Alerts.CreateAlert. `lookup` is what the price
        service answered for the resolved asset. */
    method CreateAlert(user: UserId, cryptoInput: string, targetPrice: real, directionInput: string, lookup: Lookup)
      returns (r: Outcome)
      requires Valid()
      modifies this
      ensures Valid()
      ensures Step(alerts, r) == Alerts.CreateAlert(old(alerts), user, cryptoInput, targetPrice, directionInput, lookup)
      ensures portfolio == old(portfolio) && favorites == old(favorites) && balance == old(balance)
    {
      var direction := Lower(directionInput);
      if direction != "above" && direction != "below" {
        return Invalid;
      }
      var cryptoId := FindCryptoId(Lower(cryptoInput));
      r := AddAlert(user, Alert(cryptoId, targetPrice, direction), lookup);
    }

    /** The table update of `/alert` for a resolved alert: see
        Alerts.AddAlert. */
    method AddAlert(user: UserId, alert: Alert, lookup: Lookup) returns (r: Outcome)
      modifies this
      ensures Step(alerts, r) == Alerts.AddAlert(old(alerts), user, alert, lookup)
      ensures portfolio == old(portfolio) && favorites == old(favorites) && balance == old(balance)
    {
      match lookup
      case Unlisted =>
        r := NotFound;
      case ListedWithoutUsd =>
        EnsureAlertEntry(user);
        r := Raised;
      case Priced =>
        AppendAlert(user, alert);
        r := Ok;
    }

    /** The first table update of `/alert`: the user gets an empty list when
        they have none. */
    method EnsureAlertEntry(user: UserId)
      modifies this
      ensures alerts == old(alerts)[user := AlertsOf(old(alerts), user)]
      ensures portfolio == old(portfolio) && favorites == old(favorites) && balance == old(balance)
    {
      if user !in alerts {
        alerts := alerts[user := []];
      }
    }

    /** The table update of `/alert`: the alert goes to the end of the
        user's list, which is created when the user has none. */
    method AppendAlert(user: UserId, alert: Alert)
      modifies this
      ensures alerts == old(alerts)[user := AlertsOf(old(alerts), user) + [alert]]
      ensures portfolio == old(portfolio) && favorites == old(favorites) && balance == old(balance)
    {
      if user !in alerts {
        alerts := alerts[user := []];
      }
      alerts := alerts[user := alerts[user] + [alert]];
    }

    /** `/delalert <n>`: see Alerts.DeleteAlert. */
    method DeleteAlert(user: UserId, n: int) returns (r: Outcome)
      requires Valid()
      modifies this
      ensures Valid()
      ensures Step(alerts, r) == Alerts.DeleteAlert(old(alerts), user, n)
      ensures portfolio == old(portfolio) && favorites == old(favorites) && balance == old(balance)
    {
      var i := n - 1;
      if user !in alerts || i < 0 || i >= |alerts[user]| {
        return NotFound;
      }
      var rest := alerts[user][..i] + alerts[user][i + 1..];
      alerts := alerts[user := rest];
      if alerts[user] == [] {
        alerts := alerts - {user};
        assert alerts == old(alerts) - {user};
      }
      r := Ok;
    }

    /** `/add <asset> <amount>`: resolves the asset, then AddHolding. */
    method AddToPortfolio(user: UserId, cryptoInput: string, amount: real, listed: bool) returns (r: Outcome)
      requires Valid()
      modifies this
      ensures Valid()
      ensures Step(portfolio, r) == Portfolio.AddHolding(old(portfolio), user, FindCryptoId(cryptoInput), amount, listed)
      ensures alerts == old(alerts) && favorites == old(favorites) && balance == old(balance)
    {
      var cryptoId := FindCryptoId(Lower(cryptoInput));
      FindCryptoIdIdempotent(cryptoInput);
      r := AddHolding(user, cryptoId, amount, listed);
    }

    /** The table update of `/add` for a resolved asset id: see
        Portfolio.AddHolding. */
    method AddHolding(user: UserId, cryptoId: AssetId, amount: real, listed: bool) returns (r: Outcome)
      requires Valid()
      modifies this
      ensures Valid()
      ensures Step(portfolio, r) == Portfolio.AddHolding(old(portfolio), user, cryptoId, amount, listed)
      ensures alerts == old(alerts) && favorites == old(favorites) && balance == old(balance)
    {
      if !listed {
        return NotFound;
      }
      var held := if user in portfolio then portfolio[user] else map[];
      if cryptoId in held {
        held := held[cryptoId := held[cryptoId] + amount];
      } else {
        held := held[cryptoId := amount];
      }
      portfolio := portfolio[user := held];
      r := Ok;
    }

    /** `/remove <asset>`: resolves the asset, then RemoveHolding. */
    method RemoveFromPortfolio(user: UserId, cryptoInput: string) returns (r: Outcome)
      requires Valid()
      modifies this
      ensures Valid()
      ensures Step(portfolio, r) == Portfolio.RemoveHolding(old(portfolio), user, FindCryptoId(cryptoInput))
      ensures alerts == old(alerts) && favorites == old(favorites) && balance == old(balance)
    {
      var cryptoId := FindCryptoId(Lower(cryptoInput));
      FindCryptoIdIdempotent(cryptoInput);
      r := RemoveHolding(user, cryptoId);
    }

    /** The table update of `/remove` for a resolved asset id: see
        Portfolio.RemoveHolding. */
    method RemoveHolding(user: UserId, cryptoId: AssetId) returns (r: Outcome)
      requires Valid()
      modifies this
      ensures Valid()
      ensures Step(portfolio, r) == Portfolio.RemoveHolding(old(portfolio), user, cryptoId)
      ensures alerts == old(alerts) && favorites == old(favorites) && balance == old(balance)
    {
      if user !in portfolio || cryptoId !in portfolio[user] {
        return NotFound;
      }
      var rest := portfolio[user] - {cryptoId};
      if rest == map[] {
        portfolio := portfolio - {user};
      } else {
        portfolio := portfolio[user := rest];
      }
      r := Ok;
    }

    /** `/fav <asset>`: resolves the asset, then AddFavoriteId. */
    method AddFavorite(user: UserId, cryptoInput: string, listed: bool) returns (r: Outcome)
      requires Valid()
      modifies this
      ensures Valid()
      ensures Step(favorites, r) == Favorites.AddFavorite(old(favorites), user, FindCryptoId(cryptoInput), listed)
      ensures alerts == old(alerts) && portfolio == old(portfolio) && balance == old(balance)
    {
      var cryptoId := FindCryptoId(Lower(cryptoInput));
      FindCryptoIdIdempotent(cryptoInput);
      r := AddFavoriteId(user, cryptoId, listed);
    }

    /** The table update of `/fav` for a resolved asset id: see
        Favorites.AddFavorite. */
    method AddFavoriteId(user: UserId, cryptoId: AssetId, listed: bool) returns (r: Outcome)
      requires Valid()
      modifies this
      ensures Valid()
      ensures Step(favorites, r) == Favorites.AddFavorite(old(favorites), user, cryptoId, listed)
      ensures alerts == old(alerts) && portfolio == old(portfolio) && balance == old(balance)
    {
      if !listed {
        return NotFound;
      }
      var favs := if user in favorites then favorites[user] else [];
      if cryptoId in favs {
        return AlreadyPresent;
      }
      favorites := favorites[user := favs + [cryptoId]];
      r := Ok;
    }

    /** `/unfav <asset>`: resolves the asset, then RemoveFavoriteId. */
    method RemoveFavorite(user: UserId, cryptoInput: string) returns (r: Outcome)
      requires Valid()
      modifies this
      ensures Valid()
      ensures Step(favorites, r) == Favorites.RemoveFavorite(old(favorites), user, FindCryptoId(cryptoInput))
      ensures alerts == old(alerts) && portfolio == old(portfolio) && balance == old(balance)
    {
      var cryptoId := FindCryptoId(Lower(cryptoInput));
      FindCryptoIdIdempotent(cryptoInput);
      r := RemoveFavoriteId(user, cryptoId);
    }

    /** The table update of `/unfav` for a resolved asset id: see
        Favorites.RemoveFavorite. */
    method RemoveFavoriteId(user: UserId, cryptoId: AssetId) returns (r: Outcome)
      requires Valid()
      modifies this
      ensures Valid()
      ensures Step(favorites, r) == Favorites.RemoveFavorite(old(favorites), user, cryptoId)
      ensures alerts == old(alerts) && portfolio == old(portfolio) && balance == old(balance)
    {
      if user !in favorites || cryptoId !in favorites[user] {
        return NotFound;
      }
      ghost var spec := Favorites.RemoveFavorite(favorites, user, cryptoId);
      Favorites.RemoveFavoriteWellFormed(favorites, user, cryptoId);
      var rest := RemoveFirst(favorites[user], cryptoId);
      if rest == [] {
        favorites := favorites - {user};
      } else {
        favorites := favorites[user := rest];
      }
      r := Ok;
      assert favorites == spec.after;
    }

    /** `/balance`: the user's balance, 0 for a user who never paid. */
    method Balance(user: UserId) returns (amount: real)
      ensures amount == BalanceOf(balance, user)
      ensures user !in balance ==> amount == 0.0
    {
      amount := if user in balance then balance[user] else 0.0;
    }

    /** The successful-payment callback: see Payments.CreditPayment.
        `payment` is the settled total in tiyin, None when the message
        carries no payment. */
    method SuccessfulPayment(user: UserId, payment: Option<int>)
      requires Valid()
      modifies this
      ensures Valid()
      ensures balance == CreditPayment(old(balance), user, payment)
      ensures payment.Some? && payment.value >= 0 ==> BalanceOf(balance, user) >= BalanceOf(old(balance), user)
      ensures alerts == old(alerts) && portfolio == old(portfolio) && favorites == old(favorites)
    {
      if payment.None? {
        return;
      }
      var amount := FromMinorUnits(payment.value);
      if user !in balance {
        balance := balance[user := 0.0];
      }
      balance := balance[user := balance[user] + amount];
    }

    /** One run of the periodic `check_alerts` job: see Alerts.SweepTable.
        Users are visited in an unspecified order; each one's alerts are
        swept by SweepUserAlerts. */
    method CheckAlerts(quote: Quotes, delivered: Deliveries)
      requires Valid()
      modifies this
      ensures Valid()
      ensures alerts == SweepTable(old(alerts), quote, delivered)
      ensures portfolio == old(portfolio) && favorites == old(favorites) && balance == old(balance)
    {
      var pending := alerts.Keys;
      SweepSomeEnds(alerts, quote, delivered);
      while pending != {}
        invariant pending <= old(alerts).Keys
        invariant alerts == SweepSome(old(alerts), quote, delivered, old(alerts).Keys - pending)
        invariant portfolio == old(portfolio) && favorites == old(favorites) && balance == old(balance)
        decreases pending
      {
        var user :| user in pending;
        SweepSomeStep(old(alerts), quote, delivered, old(alerts).Keys - pending, user);
        assert old(alerts).Keys - (pending - {user}) == (old(alerts).Keys - pending) + {user};
        SweepUserAlerts(user, quote, delivered);
        pending := pending - {user};
      }
      assert old(alerts).Keys - pending == old(alerts).Keys;
    }

    /** The inner loop of `check_alerts` for one user: it walks a copy of
        the user's list and removes an alert from the live list only after
        its notification was sent. */
    method SweepUserAlerts(user: UserId, quote: Quotes, delivered: Deliveries)
      requires user in alerts
      modifies this
      ensures alerts == old(alerts)[user := SweepUser(old(alerts)[user], user, quote, delivered)]
      ensures portfolio == old(portfolio) && favorites == old(favorites) && balance == old(balance)
    {
      var live := SweepList(alerts[user], user, quote, delivered);
      alerts := alerts[user := live];
    }
  }

  /** The walk over one user's snapshot: the live list starts as the
      snapshot, and each triggered alert whose notification was delivered
      is removed from it. */
  method SweepList(snapshot: seq<Alert>, user: UserId, quote: Quotes, delivered: Deliveries)
    returns (live: seq<Alert>)
    ensures live == SweepUser(snapshot, user, quote, delivered)
  {
    live := snapshot;
    for k := 0 to |snapshot|
      invariant live == SweepPrefix(snapshot, user, quote, delivered, k)
    {
      var alert := snapshot[k];
      SweepPrefixStep(snapshot, user, quote, delivered, k);
      if (user, k) in quote && Triggered(alert, quote[(user, k)]) {
        if (user, k) in delivered {
          live := RemoveFirst(live, alert);
        }
      }
    }
  }
}
