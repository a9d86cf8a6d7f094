/**
 * Sorting by a string key, standing in for Go's `sort.Strings` and `sort.Slice`.
 * The sort is an insertion sort; what callers may rely on is only what the Go
 * library promises: the output is ordered by the key and is a permutation of the input.
 */
module Sorting {
  import opened Strings

  /** No element is followed by one with a smaller key. */
  ghost predicate SortedBy<T>(s: seq<T>, key: T -> string) {
    forall i, j :: 0 <= i < j < |s| ==> !Less(key(s[j]), key(s[i]))
  }

  /** Different elements of `s` have different keys. */
  ghost predicate KeysDistinct<T>(s: seq<T>, key: T -> string) {
    forall i, j :: 0 <= i < |s| && 0 <= j < |s| && key(s[i]) == key(s[j]) ==> s[i] == s[j]
  }

  /** Places `x` before the first element whose key is not smaller than its own. */
  function InsertBy<T>(x: T, s: seq<T>, key: T -> string): (r: seq<T>)
    requires SortedBy(s, key)
    ensures SortedBy(r, key)
    ensures multiset(r) == multiset(s) + multiset{x}
  {
    if s == [] || !Less(key(s[0]), key(x)) then
      InsertFront(x, s, key);
      [x] + s
    else
      var rest := InsertBy(x, s[1..], key);
      InsertAfterHead(x, s, rest, key);
      [s[0]] + rest
  }

  lemma InsertFront<T>(x: T, s: seq<T>, key: T -> string)
    requires SortedBy(s, key)
    requires s == [] || !Less(key(s[0]), key(x))
    ensures SortedBy([x] + s, key)
  {
    forall j | 0 < j < |s| ensures !Less(key(s[j]), key(x)) {
      if Less(key(s[j]), key(x)) {
        LessTotal2(key(s[0]), key(x));
        if Less(key(x), key(s[0])) { LessTransitive(key(s[j]), key(x), key(s[0])); }
      }
    }
  }

  lemma InsertAfterHead<T>(x: T, s: seq<T>, rest: seq<T>, key: T -> string)
    requires SortedBy(s, key) && SortedBy(rest, key)
    requires s != [] && Less(key(s[0]), key(x))
    requires multiset(rest) == multiset(s[1..]) + multiset{x}
    ensures SortedBy([s[0]] + rest, key)
    ensures multiset([s[0]] + rest) == multiset(s) + multiset{x}
  {
    assert s == [s[0]] + s[1..];
    forall j | 0 <= j < |rest| ensures !Less(key(rest[j]), key(s[0])) {
      assert rest[j] in multiset(rest);
      if rest[j] == x {
        LessAsymmetric(key(s[0]), key(x));
      } else {
        assert rest[j] in multiset(s[1..]);
        var k :| 0 <= k < |s[1..]| && s[1..][k] == rest[j];
        assert s[k + 1] == rest[j];
      }
    }
  }

  lemma LessTotal2(a: string, b: string)
    ensures a == b || Less(a, b) || Less(b, a)
  {
    if a != b { LessTotal(a, b); }
  }

  /** A stable insertion sort by `key`. */
  function SortBy<T>(s: seq<T>, key: T -> string): (r: seq<T>)
    ensures SortedBy(r, key)
    ensures multiset(r) == multiset(s)
  {
    if s == [] then [] else
      assert s == [s[0]] + s[1..];
      InsertBy(s[0], SortBy(s[1..], key), key)
  }

  /**
   * When different elements have different keys, ordering by key is a strict total
   * order, so there is only one sorted arrangement of a multiset.
   */
  lemma {:induction false} SortedUnique<T>(a: seq<T>, b: seq<T>, key: T -> string)
    requires SortedBy(a, key) && SortedBy(b, key)
    requires multiset(a) == multiset(b)
    requires KeysDistinct(a, key)
    ensures a == b
    decreases |a|
  {
    assert |a| == |multiset(a)| == |b|;
    if a != [] {
      SortedHeads(a, b, key);
      Tails(a, key);
      Tails(b, key);
      SortedUnique(a[1..], b[1..], key);
    }
  }

  /** Dropping the head keeps a sequence sorted and its keys distinct, and removes one copy of the head. */
  lemma Tails<T>(a: seq<T>, key: T -> string)
    requires a != []
    ensures SortedBy(a, key) ==> SortedBy(a[1..], key)
    ensures KeysDistinct(a, key) ==> KeysDistinct(a[1..], key)
    ensures multiset(a[1..]) == multiset(a) - multiset{a[0]}
  {
    assert a == [a[0]] + a[1..];
  }

  lemma SortedHeads<T>(a: seq<T>, b: seq<T>, key: T -> string)
    requires SortedBy(a, key) && SortedBy(b, key)
    requires multiset(a) == multiset(b)
    requires KeysDistinct(a, key)
    requires a != [] && b != []
    ensures a[0] == b[0]
  {
    assert a[0] in multiset(b) && b[0] in multiset(a);
    var i :| 0 <= i < |b| && b[i] == a[0];
    var j :| 0 <= j < |a| && a[j] == b[0];
    LessTotal2(key(a[0]), key(b[0]));
    LessIrreflexive(key(a[0]));
    LessIrreflexive(key(b[0]));
  }

  /** Sorting by an identity key: Go's `sort.Strings`. */
  function SortStrings(s: seq<string>): (r: seq<string>)
    ensures multiset(r) == multiset(s)
    ensures forall i, j :: 0 <= i < j < |r| ==> !Less(r[j], r[i])
  {
    SortBy(s, (x: string) => x)
  }
}
