/** Balance top-ups through the payment provider: `/deposit` validates the
    amount and builds an invoice, the pre-checkout callback checks the
    invoice payload, and the successful-payment callback credits the
    balance. Amounts are in sum (UZS); the provider counts in tiyin, one
    hundredth of a sum. */
module Payments {
  import opened Common

  const MinDeposit: real := 1000.0
  const MaxDeposit: real := 10000000.0

  /** Tiyin per sum. */
  const MinorPerMajor: int := 100

  /** Every invoice payload this bot issues starts with this prefix. */
  const PayloadPrefix: string := "deposit_"

  // Decimal text of integers, as Python's `str(int)` writes it.

  function DigitChar(d: nat): char
    requires d < 10
  {
    ('0' as int + d) as char
  }

  function DigitValue(c: char): nat
  {
    if '0' <= c <= '9' then c as int - '0' as int else 0
  }

  /** The decimal digits of n, most significant first, without leading
      zeros. */
  function NatToString(n: nat): (s: string)
    ensures |s| >= 1
    ensures forall i | 0 <= i < |s| :: '0' <= s[i] <= '9'
  {
    if n < 10 then [DigitChar(n)] else NatToString(n / 10) + [DigitChar(n % 10)]
  }

  /** Python's `str` of an integer: a minus sign for negatives. */
  function IntToString(n: int): (s: string)
    ensures '_' !in s
  {
    if n < 0 then "-" + NatToString(-n) else NatToString(n)
  }

  /** The value of a string of decimal digits. */
  function ParseNat(s: string): nat
  {
    if s == [] then 0 else ParseNat(s[..|s| - 1]) * 10 + DigitValue(s[|s| - 1])
  }

  /** Reads back what IntToString writes. */
  function ParseInt(s: string): int
  {
    if s != [] && s[0] == '-' then -(ParseNat(s[1..]) as int) else ParseNat(s)
  }

  lemma {:induction false} ParseNatToString(n: nat)
    ensures ParseNat(NatToString(n)) == n
  {
    var s := NatToString(n);
    if n >= 10 {
      ParseNatToString(n / 10);
      assert s[..|s| - 1] == NatToString(n / 10);
    }
  }

  /** Reading back the decimal text of an integer gives the integer, so
      distinct integers have distinct texts. */
  lemma ParseIntToString(n: int)
    ensures ParseInt(IntToString(n)) == n
  {
    if n < 0 {
      ParseNatToString(-n);
      assert IntToString(n)[1..] == NatToString(-n);
    } else {
      ParseNatToString(n);
    }
  }

  predicate StartsWith(s: string, prefix: string)
  {
    |prefix| <= |s| && s[..|prefix|] == prefix
  }

  /** The invoice payload `deposit_{user}_{timestamp}`; the timestamp is the
      whole number of seconds of the clock at the request. */
  function Payload(user: UserId, timestamp: int): (p: string)
    ensures StartsWith(p, PayloadPrefix)
  {
    var p := PayloadPrefix + IntToString(user) + "_" + IntToString(timestamp);
    assert p[..|PayloadPrefix|] == PayloadPrefix;
    p
  }

  /** A string cut at the first occurrence of a separator that neither part
      before it contains: both parts are determined. */
  lemma SplitAtSeparator(x1: string, y1: string, x2: string, y2: string, sep: char)
    requires sep !in x1 && sep !in x2
    requires x1 + [sep] + y1 == x2 + [sep] + y2
    ensures x1 == x2 && y1 == y2
  {
    var s := x1 + [sep] + y1;
    var t := x2 + [sep] + y2;
    assert s[|x1|] == sep && t[|x2|] == sep;
    assert forall i | 0 <= i < |x1| :: s[i] == x1[i];
    assert forall i | 0 <= i < |x2| :: t[i] == x2[i];
    assert |x1| == |x2|;
    assert x1 == s[..|x1|] == t[..|x2|] == x2;
    assert y1 == s[|x1| + 1..] == t[|x2| + 1..] == y2;
  }

  /** Two invoices share a payload only when they were issued for the same
      user in the same second. */
  lemma PayloadInjective(u1: UserId, t1: int, u2: UserId, t2: int)
    requires Payload(u1, t1) == Payload(u2, t2)
    ensures u1 == u2 && t1 == t2
  {
    var a1, a2 := IntToString(u1), IntToString(u2);
    var b1, b2 := IntToString(t1), IntToString(t2);
    var p := Payload(u1, t1);
    var k := |PayloadPrefix|;
    assert p[k..] == a1 + "_" + b1;
    assert p[k..] == a2 + "_" + b2;
    SplitAtSeparator(a1, b1, a2, b2, '_');
    ParseIntToString(u1);
    ParseIntToString(u2);
    ParseIntToString(t1);
    ParseIntToString(t2);
  }

  /** Python's `int()` of a float: truncation toward zero. */
  function Truncate(x: real): (r: int)
    ensures x >= 0.0 ==> r as real <= x < r as real + 1.0
    ensures x < 0.0 ==> r as real - 1.0 < x <= r as real
  {
    if x >= 0.0 then x.Floor else -((-x).Floor)
  }

  /** An amount in sum converted to whole tiyin, dropping any fraction of a
      tiyin. */
  function ToMinorUnits(amount: real): int
  {
    Truncate(amount * MinorPerMajor as real)
  }

  /** A provider total in tiyin converted to sum. */
  function FromMinorUnits(total: int): real
  {
    total as real / MinorPerMajor as real
  }

  /** Every tiyin total survives conversion to sum and back. */
  lemma MinorUnitsRoundTrip(total: int)
    ensures ToMinorUnits(FromMinorUnits(total)) == total
  {
    assert FromMinorUnits(total) * 100.0 == total as real;
  }

  /** For a non-negative amount the conversion loses less than one tiyin, and
      nothing when the amount is a whole number of tiyin. */
  lemma ToMinorUnitsTruncates(amount: real)
    requires amount >= 0.0
    ensures FromMinorUnits(ToMinorUnits(amount)) <= amount < FromMinorUnits(ToMinorUnits(amount)) + 0.01
    ensures (exists t: int :: amount == FromMinorUnits(t)) ==> FromMinorUnits(ToMinorUnits(amount)) == amount
  {
    if exists t: int :: amount == FromMinorUnits(t) {
      var t: int :| amount == FromMinorUnits(t);
      MinorUnitsRoundTrip(t);
    }
  }

  /** Why `/deposit` refuses an amount. */
  datatype DepositError = PaymentsUnavailable | NotPositive | BelowMinimum | AboveMaximum

  /** The invoice sent to the provider: its payload and its total in tiyin. */
  datatype Invoice = Invoice(payload: string, minorUnits: int)

  datatype DepositResult = Issued(invoice: Invoice) | Refused(reason: DepositError)

  /** `/deposit <amount>`. `configured` says whether a provider token is set;
      the checks run in the source's order. `timestamp` is the clock reading
      the payload embeds. */
  function Deposit(configured: bool, amount: real, user: UserId, timestamp: int): (r: DepositResult)
    ensures r.Issued? <==> configured && MinDeposit <= amount <= MaxDeposit
    ensures r == Refused(PaymentsUnavailable) <==> !configured
    ensures r == Refused(NotPositive) <==> configured && amount <= 0.0
    ensures r == Refused(BelowMinimum) <==> configured && 0.0 < amount < MinDeposit
    ensures r == Refused(AboveMaximum) <==> configured && MaxDeposit < amount
    ensures r.Issued? ==> r.invoice.payload == Payload(user, timestamp)
    ensures r.Issued? ==> 100000 <= r.invoice.minorUnits <= 1000000000
    ensures r.Issued? ==> FromMinorUnits(r.invoice.minorUnits) <= amount < FromMinorUnits(r.invoice.minorUnits) + 0.01
  {
    if !configured then Refused(PaymentsUnavailable)
    else if amount <= 0.0 then Refused(NotPositive)
    else if amount < MinDeposit then Refused(BelowMinimum)
    else if amount > MaxDeposit then Refused(AboveMaximum)
    else
      ToMinorUnitsTruncates(amount);
      Issued(Invoice(Payload(user, timestamp), ToMinorUnits(amount)))
  }

  /** The boundary amounts: 999 is refused, 1000 and 10,000,000 are
      accepted, 10,000,001 is refused; 1234.56 sum is invoiced as 123456
      tiyin. */
  lemma DepositBoundaries(user: UserId, timestamp: int)
    ensures Deposit(true, 999.0, user, timestamp) == Refused(BelowMinimum)
    ensures Deposit(true, 1000.0, user, timestamp).Issued?
    ensures Deposit(true, 10000000.0, user, timestamp).Issued?
    ensures Deposit(true, 10000001.0, user, timestamp) == Refused(AboveMaximum)
    ensures Deposit(true, 1234.56, user, timestamp).invoice.minorUnits == 123456
  {
    assert 1234.56 * 100.0 == 123456.0;
  }

  /** How the pre-checkout callback answers the provider. */
  datatype CheckoutAnswer = Approve | Decline(reason: DeclineReason)

  datatype DeclineReason = WrongPaymentType | ProcessingError

  /** The pre-checkout callback: a payload without the deposit prefix is
      declined; otherwise the bot approves, and if sending the approval
      fails (`approvalSent` false) it declines instead. No other check is
      made: a payload seen before is approved again. */
  function PreCheckout(payload: string, approvalSent: bool): (r: CheckoutAnswer)
    ensures r == Decline(WrongPaymentType) <==> !StartsWith(payload, PayloadPrefix)
    ensures r == Approve <==> StartsWith(payload, PayloadPrefix) && approvalSent
  {
    if !StartsWith(payload, PayloadPrefix) then Decline(WrongPaymentType)
    else if approvalSent then Approve
    else Decline(ProcessingError)
  }

  /** Every invoice `/deposit` issues passes the pre-checkout prefix check. */
  lemma IssuedInvoicePassesPreCheckout(configured: bool, amount: real, user: UserId, timestamp: int)
    requires Deposit(configured, amount, user, timestamp).Issued?
    ensures PreCheckout(Deposit(configured, amount, user, timestamp).invoice.payload, true) == Approve
  {
  }

  /** Every user's balance in sum. */
  type BalanceTable = map<UserId, real>

  /** A user's balance; a user without an entry has 0. */
  function BalanceOf(b: BalanceTable, u: UserId): real
  {
    if u in b then b[u] else 0.0
  }

  /** The successful-payment callback: a message without a payment changes
      nothing; otherwise the payer's balance grows by the payment's total
      converted from tiyin. Nothing deduplicates repeated confirmations. */
  function CreditPayment(b: BalanceTable, u: UserId, payment: Option<int>): (r: BalanceTable)
    ensures payment.None? ==> r == b
    ensures payment.Some? ==> u in r && BalanceOf(r, u) == BalanceOf(b, u) + FromMinorUnits(payment.value)
    ensures r - {u} == b - {u}
  {
    match payment
    case None => b
    case Some(total) => b[u := BalanceOf(b, u) + FromMinorUnits(total)]
  }

  /** A payment of a non-negative total lowers nobody's balance. */
  lemma CreditNeverDecreases(b: BalanceTable, u: UserId, payment: Option<int>, v: UserId)
    requires payment.Some? ==> payment.value >= 0
    ensures BalanceOf(CreditPayment(b, u, payment), v) >= BalanceOf(b, v)
  {
    if v != u {
      assert v in CreditPayment(b, u, payment) <==> v in b by {
        assert v in CreditPayment(b, u, payment) - {u} <==> v in b - {u};
      }
      if v in b { assert CreditPayment(b, u, payment)[v] == (CreditPayment(b, u, payment) - {u})[v]; }
    }
  }

  function Sum(totals: seq<int>): int
  {
    if totals == [] then 0 else Sum(totals[..|totals| - 1]) + totals[|totals| - 1]
  }

  /** The balances after crediting the payments `totals` to u, in order. */
  function CreditAll(b: BalanceTable, u: UserId, totals: seq<int>): BalanceTable
  {
    if totals == [] then b
    else CreditPayment(CreditAll(b, u, totals[..|totals| - 1]), u, Some(totals[|totals| - 1]))
  }

  /** N payments add exactly the sum of their totals to the payer's balance. */
  lemma {:induction false} CreditAllAddsSum(b: BalanceTable, u: UserId, totals: seq<int>)
    ensures BalanceOf(CreditAll(b, u, totals), u) == BalanceOf(b, u) + FromMinorUnits(Sum(totals))
  {
    if totals != [] {
      CreditAllAddsSum(b, u, totals[..|totals| - 1]);
    }
  }

  /** A paid invoice credits what the user asked for, less any fraction of a
      tiyin, and exactly the asked amount when it is a whole number of
      tiyin. */
  lemma PaidDepositCreditsAmount(b: BalanceTable, configured: bool, amount: real, user: UserId, timestamp: int)
    requires Deposit(configured, amount, user, timestamp).Issued?
    ensures var paid := CreditPayment(b, user, Some(Deposit(configured, amount, user, timestamp).invoice.minorUnits));
            && BalanceOf(paid, user) <= BalanceOf(b, user) + amount < BalanceOf(paid, user) + 0.01
            && ((exists t: int :: amount == FromMinorUnits(t)) ==> BalanceOf(paid, user) == BalanceOf(b, user) + amount)
  {
    if exists t: int :: amount == FromMinorUnits(t) {
      var t: int :| amount == FromMinorUnits(t);
      MinorUnitsRoundTrip(t);
    }
  }
}
