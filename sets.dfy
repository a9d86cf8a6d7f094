/** Counting the elements of finite sets. */
module Sets {

  /** The elements of `xs`, as a set. */
  function Elements(xs: seq<int>): set<int> {
    set i | 0 <= i < |xs| :: xs[i]
  }

  /** A strictly increasing sequence lists every element once. */
  lemma {:induction false} IncreasingElements(xs: seq<int>)
    requires forall i | 0 < i < |xs| :: xs[i - 1] < xs[i]
    ensures |Elements(xs)| == |xs|
    ensures forall i | 0 <= i < |xs| :: xs[i] <= xs[|xs| - 1]
  {
    if xs != [] {
      var ys, last := xs[..|xs| - 1], xs[|xs| - 1];
      assert forall i | 0 < i < |ys| :: ys[i - 1] < ys[i];
      IncreasingElements(ys);
      forall i | 0 <= i < |ys| ensures ys[i] < last {
        assert ys[i] <= ys[|ys| - 1] == xs[|xs| - 2] < last;
      }
      forall i | 0 <= i < |xs| ensures xs[i] <= last {
        if i < |ys| {
          assert xs[i] == ys[i];
        }
      }
      assert last !in Elements(ys);
      ElementsLast(xs);
    }
  }

  /** The elements of a non-empty sequence are those before its last, and the last. */
  lemma ElementsLast(xs: seq<int>)
    requires xs != []
    ensures Elements(xs) == Elements(xs[..|xs| - 1]) + {xs[|xs| - 1]}
  {
    var ys := xs[..|xs| - 1];
    forall x ensures x in Elements(xs) <==> x in Elements(ys) || x == xs[|xs| - 1] {
      if x in Elements(xs) && x != xs[|xs| - 1] {
        var i :| 0 <= i < |xs| && xs[i] == x;
        assert ys[i] == x;
      }
      if x in Elements(ys) {
        var i :| 0 <= i < |ys| && ys[i] == x;
        assert xs[i] == x;
      }
    }
  }

  /** The image of `s` under `f`. */
  function Image<T, U>(s: set<T>, f: T -> U): set<U> {
    set x | x in s :: f(x)
  }

  /** A map with a left inverse on `s` merges no elements, so its image is as large as `s`. */
  lemma {:induction false} InjectiveImageSize<T, U>(s: set<T>, f: T -> U, g: U -> T)
    requires forall x | x in s :: g(f(x)) == x
    ensures |Image(s, f)| == |s|
    decreases |s|
  {
    if s != {} {
      var x :| x in s;
      var s' := s - {x};
      InjectiveImageSize(s', f, g);
      assert Image(s, f) == Image(s', f) + {f(x)};
      forall y | y in s' ensures f(y) != f(x) {
        assert g(f(y)) == y != x == g(f(x));
      }
    }
  }
}
