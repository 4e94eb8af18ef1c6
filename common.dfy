/** Identifiers, handler outcomes and the list operations the bot's handlers
    use on Python lists (`in`, `list.remove`). */
module Common {

  /** A chat user's numeric identity. It is never a record of its own: it is
      only the key into the per-user tables. */
  type UserId = int

  /** A price-service asset identifier such as "bitcoin". */
  type AssetId = string

  datatype Option<T> = None | Some(value: T)

  /** What a command handler reports to the user about its state effect.
      `Raised` is a handler that stopped on an exception: the user gets no
      reply, and whatever it changed before the exception stays changed. */
  datatype Outcome = Ok | NotFound | AlreadyPresent | Invalid | Raised

  /** A handler's effect on one table: the table afterwards and the outcome. */
  datatype Step<S> = Step(after: S, outcome: Outcome)

  /** No element occurs twice. */
  predicate NoDup<T(==)>(s: seq<T>)
  {
    forall i, j | 0 <= i < j < |s| :: s[i] != s[j]
  }

  /** Position of the first occurrence of `x` in `s` (Python's `list.index`). */
  function IndexOf<T(==)>(s: seq<T>, x: T): (i: nat)
    requires x in s
    ensures i < |s| && s[i] == x
    ensures x !in s[..i]
  {
    if s[0] == x then 0
    else
      assert x in s[1..] by { var k :| 0 <= k < |s| && s[k] == x; assert s[1..][k - 1] == x; }
      var i' := IndexOf(s[1..], x);
      assert s[..i' + 1] == [s[0]] + s[1..][..i'];
      1 + i'
  }

  /** Python's `list.remove(x)`: deletes the first occurrence of `x`. The
      source only calls it on lists that hold `x` (otherwise Python raises). */
  function RemoveFirst<T(==)>(s: seq<T>, x: T): (r: seq<T>)
    requires x in s
    ensures r == s[..IndexOf(s, x)] + s[IndexOf(s, x) + 1..]
    ensures |r| == |s| - 1
    ensures multiset(r) == multiset(s) - multiset{x}
  {
    var i := IndexOf(s, x);
    assert s == s[..i] + [x] + s[i + 1..];
    s[..i] + s[i + 1..]
  }

  /** Removing an element that occurs once leaves no occurrence behind, and
      keeps every other element. */
  lemma RemoveFirstOfNoDup<T>(s: seq<T>, x: T)
    requires NoDup(s) && x in s
    ensures NoDup(RemoveFirst(s, x))
    ensures x !in RemoveFirst(s, x)
    ensures forall y | y != x :: y in RemoveFirst(s, x) <==> y in s
  {
    var i := IndexOf(s, x);
    var r := RemoveFirst(s, x);
    forall a, b | 0 <= a < b < |r| ensures r[a] != r[b] {
      var a' := if a < i then a else a + 1;
      var b' := if b < i then b else b + 1;
      assert r[a] == s[a'] && r[b] == s[b'] && a' < b';
    }
    forall k | 0 <= k < |r| ensures r[k] != x {
      var k' := if k < i then k else k + 1;
      assert r[k] == s[k'] && k' != i;
    }
    forall y | y != x ensures y in r <==> y in s {
      if y in s {
        var k :| 0 <= k < |s| && s[k] == y;
        assert k != i;
        assert r[if k < i then k else k - 1] == y;
      }
    }
  }

  /** Removing an element that does not occur before position |s| removes
      it at that position. */
  lemma RemoveFirstAfter<T>(s: seq<T>, x: T, t: seq<T>)
    requires x !in s
    ensures RemoveFirst(s + [x] + t, x) == s + t
  {
    var l := s + [x] + t;
    assert l[|s|] == x;
    assert l[..|s|] == s;
    assert IndexOf(l, x) == |s|;
    assert l[|s| + 1..] == t;
  }

  /** Two maps that agree away from `k` and agree at `k` are equal. */
  lemma MapsEqualAt<K, V>(a: map<K, V>, b: map<K, V>, k: K)
    requires a - {k} == b - {k}
    requires k in a <==> k in b
    requires k in a ==> a[k] == b[k]
    ensures a == b
  {
    forall x | x in a ensures x in b && a[x] == b[x] {
      if x != k { assert x in a - {k}; }
    }
    forall x | x in b ensures x in a {
      if x != k { assert x in b - {k}; }
    }
  }

  /** Removing one occurrence of `x` from a list whose contents are
      kept + tail, where the tail holds x once more than rest, leaves
      kept + rest. */
  lemma RemoveFirstFromSplit<T>(s: seq<T>, x: T, kept: multiset<T>, tail: multiset<T>, rest: multiset<T>)
    requires x in s
    requires multiset(s) == kept + tail && tail == multiset{x} + rest
    ensures multiset(RemoveFirst(s, x)) == kept + rest
  {
  }

  /** Moving one element from the tail of a split to its kept part. */
  lemma MultisetShift<T>(whole: multiset<T>, kept: multiset<T>, tail: multiset<T>, x: T, rest: multiset<T>)
    requires whole == kept + tail && tail == multiset{x} + rest
    ensures whole == (kept + multiset{x}) + rest
  {
  }
}
