/** Resolving what a user typed (an asset id or a ticker code, in any case)
    to a price-service asset id: `find_crypto_id` and its table `CRYPTO_IDS`. */
module Assets {
  import opened Common

  /** Lower-casing of one character (ASCII letters only). */
  function LowerChar(c: char): char
  {
    if 'A' <= c <= 'Z' then (c as int + 32) as char else c
  }

  /** Python's `str.lower`, restricted to ASCII letters. */
  function Lower(s: string): string
  {
    if s == [] then [] else [LowerChar(s[0])] + Lower(s[1..])
  }

  /** No ASCII upper-case letter occurs in `s`. */
  predicate IsLower(s: string)
  {
    forall i | 0 <= i < |s| :: !('A' <= s[i] <= 'Z')
  }

  /** Lower-casing keeps the length, leaves no upper-case letter behind and
      leaves an already lower-case string as it is. */
  lemma {:induction false} LowerSpec(s: string)
    ensures |Lower(s)| == |s|
    ensures IsLower(Lower(s))
    ensures IsLower(s) ==> Lower(s) == s
  {
    if s != [] {
      LowerSpec(s[1..]);
      var t := Lower(s);
      assert t == [LowerChar(s[0])] + Lower(s[1..]);
      forall i | 0 <= i < |t| ensures !('A' <= t[i] <= 'Z') {
        if i > 0 { assert t[i] == Lower(s[1..])[i - 1]; }
      }
      if IsLower(s) {
        assert IsLower(s[1..]) by {
          forall i | 0 <= i < |s[1..]| ensures !('A' <= s[1..][i] <= 'Z') { assert s[1..][i] == s[i + 1]; }
        }
        assert s == [s[0]] + s[1..];
      }
    }
  }

  /** Lower-casing twice is lower-casing once. */
  lemma LowerIdempotent(s: string)
    ensures Lower(Lower(s)) == Lower(s)
  {
    LowerSpec(s);
    LowerSpec(Lower(s));
  }

  /** The supported assets, in the table's order: (asset id, ticker code). */
  const CryptoIds: seq<(AssetId, string)> := [
    ("bitcoin", "btc"),
    ("ethereum", "eth"),
    ("binancecoin", "bnb"),
    ("solana", "sol"),
    ("cardano", "ada"),
    ("ripple", "xrp"),
    ("polkadot", "dot"),
    ("dogecoin", "doge"),
    ("tether", "usdt"),
    ("usd-coin", "usdc")
  ]

  /** The already lower-cased input names entry `i` by its id or by its
      lower-cased ticker code. */
  predicate MatchesEntry(key: string, i: nat)
    requires i < |CryptoIds|
  {
    key == CryptoIds[i].0 || key == Lower(CryptoIds[i].1)
  }

  /** The first entry at or after `from` that `key` matches. */
  function FirstMatch(key: string, from: nat): (r: Option<nat>)
    requires from <= |CryptoIds|
    ensures r.Some? ==> from <= r.value < |CryptoIds| && MatchesEntry(key, r.value)
    ensures r.Some? ==> forall j | from <= j < r.value :: !MatchesEntry(key, j)
    ensures r.None? ==> forall j | from <= j < |CryptoIds| :: !MatchesEntry(key, j)
    decreases |CryptoIds| - from
  {
    if from == |CryptoIds| then None
    else if MatchesEntry(key, from) then Some(from)
    else FirstMatch(key, from + 1)
  }

  /** `find_crypto_id`: the id of the first table entry whose id or code
      equals the lower-cased input; otherwise the lower-cased input itself. */
  function FindCryptoId(input: string): AssetId
  {
    var key := Lower(input);
    match FirstMatch(key, 0)
    case Some(i) => CryptoIds[i].0
    case None => key
  }

  /** What `find_crypto_id` resolves to: the id of the first entry the
      lower-cased input names, or the lower-cased input when it names none. */
  lemma FindCryptoIdSpec(input: string)
    ensures forall j | 0 <= j < |CryptoIds| && MatchesEntry(Lower(input), j) ::
              exists i | 0 <= i <= j :: MatchesEntry(Lower(input), i) && FindCryptoId(input) == CryptoIds[i].0
    ensures (forall j | 0 <= j < |CryptoIds| :: !MatchesEntry(Lower(input), j)) ==> FindCryptoId(input) == Lower(input)
  {
  }

  /** Every id in the table is lower-case. */
  lemma TableIdsLower()
    ensures forall i | 0 <= i < |CryptoIds| :: IsLower(CryptoIds[i].0)
  {
  }

  /** Every code in the table is lower-case, so `code.lower()` is the code. */
  lemma TableCodesLower()
    ensures forall i | 0 <= i < |CryptoIds| :: Lower(CryptoIds[i].1) == CryptoIds[i].1
  {
    forall i | 0 <= i < |CryptoIds| ensures Lower(CryptoIds[i].1) == CryptoIds[i].1 {
      assert IsLower(CryptoIds[i].1);
      LowerSpec(CryptoIds[i].1);
    }
  }

  /** The table's ids are pairwise distinct. */
  lemma TableIdsDistinct()
    ensures forall i, j | 0 <= i < |CryptoIds| && 0 <= j < |CryptoIds| && i != j :: CryptoIds[i].0 != CryptoIds[j].0
  {
  }

  /** No id is also a code. */
  lemma TableIdsAreNotCodes()
    ensures forall i, j | 0 <= i < |CryptoIds| && 0 <= j < |CryptoIds| :: CryptoIds[i].0 != CryptoIds[j].1
  {
  }

  /** An asset id matches its own entry and no other. */
  lemma IdMatchesOnlyItself(i: nat)
    requires i < |CryptoIds|
    ensures MatchesEntry(CryptoIds[i].0, i)
    ensures forall j | 0 <= j < |CryptoIds| && j != i :: !MatchesEntry(CryptoIds[i].0, j)
  {
    TableCodesLower();
    TableIdsDistinct();
    TableIdsAreNotCodes();
  }

  /** An asset id resolves to itself. */
  lemma FindCryptoIdOfId(i: nat)
    requires i < |CryptoIds|
    ensures FindCryptoId(CryptoIds[i].0) == CryptoIds[i].0
  {
    var id := CryptoIds[i].0;
    TableIdsLower();
    assert IsLower(id);
    LowerSpec(id);
    assert Lower(id) == id;
    IdMatchesOnlyItself(i);
    var m := FirstMatch(id, 0);
    assert MatchesEntry(id, i);
    assert m.Some?;
    assert MatchesEntry(id, m.value);
  }

  /** Resolving is case-insensitive and a resolved id resolves to itself. */
  lemma FindCryptoIdIdempotent(input: string)
    ensures FindCryptoId(Lower(input)) == FindCryptoId(input)
    ensures FindCryptoId(FindCryptoId(input)) == FindCryptoId(input)
  {
    LowerIdempotent(input);
    var key := Lower(input);
    match FirstMatch(key, 0)
    case Some(i) =>
      FindCryptoIdOfId(i);
    case None =>
      assert FindCryptoId(input) == key;
  }
}
