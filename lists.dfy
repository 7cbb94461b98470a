/**
 * Sequence helpers shared by the chat relay and the admin pages: JavaScript's
 * `Array.prototype.filter`, the `[...new Set(xs)]` de-duplication idiom and the
 * "state that may not be an array" guard (`Array.isArray(xs) ? ... : []`).
 */
module Lists {

  /** No element occurs twice. */
  ghost predicate Distinct<T>(s: seq<T>) {
    forall i, j :: 0 <= i < j < |s| ==> s[i] != s[j]
  }

  /** A duplicate-free sequence has as many distinct elements as it is long. */
  lemma {:induction false} DistinctSize<T>(s: seq<T>)
    requires Distinct(s)
    ensures |(set x | x in s)| == |s|
    decreases |s|
  {
    if s != [] {
      var rest := s[1..];
      assert Distinct(rest) by {
        forall i, j | 0 <= i < j < |rest| ensures rest[i] != rest[j] { assert rest[i] == s[i + 1] && rest[j] == s[j + 1]; }
      }
      DistinctSize(rest);
      assert s[0] !in rest by {
        forall k | 0 <= k < |rest| ensures rest[k] != s[0] { assert rest[k] == s[k + 1]; }
      }
      assert (set x | x in s) == (set x | x in rest) + {s[0]} by {
        assert s == [s[0]] + rest;
      }
    }
  }

  /** The tail of a duplicate-free sequence is duplicate-free and misses the head. */
  lemma DistinctTail<T>(s: seq<T>)
    requires Distinct(s) && s != []
    ensures Distinct(s[1..]) && s[0] !in s[1..]
  {
    forall i, j | 0 <= i < j < |s[1..]| ensures s[1..][i] != s[1..][j] {
      assert s[1..][i] == s[i + 1] && s[1..][j] == s[j + 1];
    }
    forall k | 0 <= k < |s[1..]| ensures s[1..][k] != s[0] { assert s[1..][k] == s[k + 1]; }
  }

  /**
   * `s.filter(keep)`: the elements of `s` that satisfy `keep`, in their
   * original order, each as often as it occurs in `s`.
   */
  function Filter<T(!new)>(s: seq<T>, keep: T -> bool): (r: seq<T>)
    ensures |r| <= |s|
    ensures forall x :: x in r <==> x in s && keep(x)
    decreases |s|
  {
    if s == [] then []
    else
      var rest := Filter(s[1..], keep);
      assert s == [s[0]] + s[1..];
      if keep(s[0]) then [s[0]] + rest else rest
  }

  /** Filtering distributes over concatenation: it never reorders elements. */
  lemma {:induction false} FilterAppend<T(!new)>(a: seq<T>, b: seq<T>, keep: T -> bool)
    ensures Filter(a + b, keep) == Filter(a, keep) + Filter(b, keep)
    decreases |a|
  {
    if a == [] {
      assert a + b == b;
    } else {
      assert (a + b)[0] == a[0];
      assert (a + b)[1..] == a[1..] + b;
      FilterAppend(a[1..], b, keep);
    }
  }

  /** Two tests that agree on every element of `s` filter it alike. */
  lemma {:induction false} FilterCongruent<T(!new)>(s: seq<T>, keep: T -> bool, keep': T -> bool)
    requires forall x :: x in s ==> keep(x) == keep'(x)
    ensures Filter(s, keep) == Filter(s, keep')
    decreases |s|
  {
    if s != [] {
      assert s[0] in s;
      forall x | x in s[1..] ensures keep(x) == keep'(x) { assert x in s; }
      FilterCongruent(s[1..], keep, keep');
    }
  }

  /** A filter that keeps every element is the identity. */
  lemma {:induction false} FilterKeepsAll<T(!new)>(s: seq<T>, keep: T -> bool)
    requires forall x :: x in s ==> keep(x)
    ensures Filter(s, keep) == s
    decreases |s|
  {
    if s != [] {
      assert s[0] in s;
      forall x | x in s[1..] ensures keep(x) { assert x in s; }
      FilterKeepsAll(s[1..], keep);
    }
  }

  /** Filtering a duplicate-free sequence leaves it duplicate-free. */
  lemma {:induction false} FilterDistinct<T(!new)>(s: seq<T>, keep: T -> bool)
    requires Distinct(s)
    ensures Distinct(Filter(s, keep))
    decreases |s|
  {
    if s != [] {
      assert Distinct(s[1..]) by {
        forall i, j | 0 <= i < j < |s[1..]| ensures s[1..][i] != s[1..][j] {
          assert s[1..][i] == s[i + 1] && s[1..][j] == s[j + 1];
        }
      }
      FilterDistinct(s[1..], keep);
      var rest := Filter(s[1..], keep);
      if keep(s[0]) {
        assert s[0] !in s[1..] by {
          forall k | 0 <= k < |s[1..]| ensures s[1..][k] != s[0] { assert s[1..][k] == s[k + 1]; }
        }
        assert s[0] !in rest;
        var r := [s[0]] + rest;
        forall i, j | 0 <= i < j < |r| ensures r[i] != r[j] {
          if i == 0 { assert r[j] == rest[j - 1]; assert r[j] in rest; }
          else { assert r[i] == rest[i - 1] && r[j] == rest[j - 1]; }
        }
      }
    }
  }

  /**
   * `[...new Set(s)]`: the first occurrence of every element, in the order
   * of first occurrence.
   */
  function Dedup<T(==,!new)>(s: seq<T>): (r: seq<T>)
    ensures forall x :: x in r <==> x in s
    decreases |s|
  {
    if s == [] then []
    else
      var init := Dedup(s[..|s| - 1]);
      var last := s[|s| - 1];
      assert s == s[..|s| - 1] + [last];
      if last in init then init else init + [last]
  }

  /** The result of `Dedup` has no duplicates. */
  lemma {:induction false} DedupDistinct<T(!new)>(s: seq<T>)
    ensures Distinct(Dedup(s))
    decreases |s|
  {
    if s != [] {
      var init := Dedup(s[..|s| - 1]);
      var last := s[|s| - 1];
      DedupDistinct(s[..|s| - 1]);
      if last !in init {
        var r := init + [last];
        forall i, j | 0 <= i < j < |r| ensures r[i] != r[j] {
          assert r[i] == init[i];
          if j == |init| { assert r[i] in init; }
          else { assert r[j] == init[j]; }
        }
      }
    }
  }

  /** Removing duplicates from a duplicate-free sequence changes nothing. */
  lemma {:induction false} DedupOfDistinct<T(!new)>(s: seq<T>)
    requires Distinct(s)
    ensures Dedup(s) == s
    decreases |s|
  {
    if s != [] {
      var init := s[..|s| - 1];
      assert Distinct(init) by {
        forall i, j | 0 <= i < j < |init| ensures init[i] != init[j] { assert init[i] == s[i] && init[j] == s[j]; }
      }
      DedupOfDistinct(init);
      assert s[|s| - 1] !in init by {
        forall k | 0 <= k < |init| ensures init[k] != s[|s| - 1] { assert init[k] == s[k]; }
      }
      assert init + [s[|s| - 1]] == s;
    }
  }

  /**
   * `s.filter(x => !drop.includes(x))`: the elements of `s` that do not occur
   * in `drop`, in their original order.
   */
  function Without<T(==,!new)>(s: seq<T>, drop: seq<T>): (r: seq<T>)
    ensures |r| <= |s|
    ensures forall x :: x in r <==> x in s && x !in drop
    decreases |s|
  {
    if s == [] then []
    else
      var rest := Without(s[1..], drop);
      assert s == [s[0]] + s[1..];
      if s[0] in drop then rest else [s[0]] + rest
  }

  /** `Without` distributes over concatenation: it never reorders elements. */
  lemma {:induction false} WithoutAppend<T(!new)>(a: seq<T>, b: seq<T>, drop: seq<T>)
    ensures Without(a + b, drop) == Without(a, drop) + Without(b, drop)
    decreases |a|
  {
    if a == [] {
      assert a + b == b;
    } else {
      assert (a + b)[0] == a[0];
      assert (a + b)[1..] == a[1..] + b;
      WithoutAppend(a[1..], b, drop);
    }
  }

  /** One step of `Without` at the end of the sequence. */
  lemma WithoutSnoc<T(!new)>(s: seq<T>, y: T, drop: seq<T>)
    ensures Without(s + [y], drop) == if y in drop then Without(s, drop) else Without(s, drop) + [y]
  {
    WithoutAppend(s, [y], drop);
    assert [y][1..] == [];
  }

  /** Dropping nothing is the identity. */
  lemma {:induction false} WithoutNothing<T(!new)>(s: seq<T>)
    ensures Without(s, []) == s
    decreases |s|
  {
    if s != [] {
      WithoutNothing(s[1..]);
      assert s == [s[0]] + s[1..];
    }
  }

  /** Dropping elements that do not occur changes nothing. */
  lemma {:induction false} WithoutUntouched<T(!new)>(s: seq<T>, drop: seq<T>)
    requires forall x :: x in s ==> x !in drop
    ensures Without(s, drop) == s
    decreases |s|
  {
    if s != [] {
      assert s[0] in s;
      forall x | x in s[1..] ensures x !in drop { assert x in s; }
      WithoutUntouched(s[1..], drop);
      assert s == [s[0]] + s[1..];
    }
  }

  /** Dropping every element that occurs leaves nothing. */
  lemma {:induction false} WithoutAll<T(!new)>(s: seq<T>, drop: seq<T>)
    requires forall x :: x in s ==> x in drop
    ensures Without(s, drop) == []
    decreases |s|
  {
    if s != [] {
      assert s[0] in s;
      forall x | x in s[1..] ensures x in drop { assert x in s; }
      WithoutAll(s[1..], drop);
    }
  }

  /** In a duplicate-free sequence, cutting out position `k` is dropping the value there. */
  lemma {:induction false} CutIsWithout<T(!new)>(s: seq<T>, k: nat)
    requires Distinct(s) && k < |s|
    ensures Without(s, [s[k]]) == s[..k] + s[k + 1..]
    decreases |s|
  {
    DistinctTail(s);
    if k == 0 {
      WithoutUntouched(s[1..], [s[0]]);
    } else {
      assert s[1..][k - 1] == s[k];
      CutIsWithout(s[1..], k - 1);
      assert s[1..][..k - 1] == s[1..k];
      assert s[1..][k..] == s[k + 1..];
      assert [s[0]] + s[1..k] == s[..k];
    }
  }

  /** Dropping from a duplicate-free sequence leaves it duplicate-free. */
  lemma {:induction false} WithoutDistinct<T(!new)>(s: seq<T>, drop: seq<T>)
    requires Distinct(s)
    ensures Distinct(Without(s, drop))
    decreases |s|
  {
    if s != [] {
      assert Distinct(s[1..]) by {
        forall i, j | 0 <= i < j < |s[1..]| ensures s[1..][i] != s[1..][j] {
          assert s[1..][i] == s[i + 1] && s[1..][j] == s[j + 1];
        }
      }
      WithoutDistinct(s[1..], drop);
      var rest := Without(s[1..], drop);
      if s[0] !in drop {
        assert s[0] !in s[1..] by {
          forall k | 0 <= k < |s[1..]| ensures s[1..][k] != s[0] { assert s[1..][k] == s[k + 1]; }
        }
        var r := [s[0]] + rest;
        forall i, j | 0 <= i < j < |r| ensures r[i] != r[j] {
          if i == 0 { assert r[j] == rest[j - 1]; assert r[j] in rest; }
          else { assert r[i] == rest[i - 1] && r[j] == rest[j - 1]; }
        }
      }
    }
  }

  /** One step of `Dedup`: a new last element is kept only if it is not already present. */
  lemma DedupSnoc<T(!new)>(s: seq<T>, y: T)
    ensures Dedup(s + [y]) == if y in s then Dedup(s) else Dedup(s) + [y]
  {
    assert (s + [y])[..|s + [y]| - 1] == s;
  }

  /** The inductive step of `DedupAppend` when the new element is already present. */
  lemma DedupAppendStepOld<T(!new)>(a: seq<T>, b: seq<T>, y: T)
    requires Dedup(a + b) == a + Dedup(Without(b, a))
    requires y in a + b
    ensures Dedup(a + (b + [y])) == a + Dedup(Without(b + [y], a))
  {
    assert a + (b + [y]) == (a + b) + [y];
    DedupSnoc(a + b, y);
    WithoutSnoc(b, y, a);
    if y !in a {
      DedupSnoc(Without(b, a), y);
    }
  }

  /** The inductive step of `DedupAppend` when the new element is new. */
  lemma DedupAppendStepNew<T(!new)>(a: seq<T>, b: seq<T>, y: T)
    requires Dedup(a + b) == a + Dedup(Without(b, a))
    requires y !in a + b
    ensures Dedup(a + (b + [y])) == a + Dedup(Without(b + [y], a))
  {
    var w := Without(b, a);
    var d := Dedup(w);
    assert y !in w;
    calc {
      Dedup(a + (b + [y]));
    == { assert a + (b + [y]) == (a + b) + [y]; }
      Dedup((a + b) + [y]);
    == { DedupSnoc(a + b, y); }
      Dedup(a + b) + [y];
    ==
      (a + d) + [y];
    == { assert (a + d) + [y] == a + (d + [y]); }
      a + (d + [y]);
    == { DedupSnoc(w, y); }
      a + Dedup(w + [y]);
    == { WithoutSnoc(b, y, a); }
      a + Dedup(Without(b + [y], a));
    }
  }

  /**
   * De-duplicating `a + b` for a duplicate-free `a` keeps `a` as it is and
   * then appends the elements of `b` that are not in `a`, de-duplicated, in
   * the order of `b`.
   */
  lemma {:induction false} DedupAppend<T(!new)>(a: seq<T>, b: seq<T>)
    requires Distinct(a)
    ensures Dedup(a + b) == a + Dedup(Without(b, a))
    decreases |b|
  {
    if b == [] {
      assert a + b == a;
      assert Without(b, a) == [];
      DedupOfDistinct(a);
    } else {
      var b', y := b[..|b| - 1], b[|b| - 1];
      assert b == b' + [y];
      DedupAppend(a, b');
      if y in a + b' {
        DedupAppendStepOld(a, b', y);
      } else {
        DedupAppendStepNew(a, b', y);
      }
    }
  }

  /**
   * The value of a list-valued page state: either a real array or whatever
   * else the server answered with (`undefined`, an object, ...).
   */
  datatype ListState<T> = NotArray | Items(items: seq<T>)

  /** `Array.isArray(state) ? state.filter(keep) : []`. */
  function FilterState<T(!new)>(state: ListState<T>, keep: T -> bool): (r: seq<T>)
    ensures state.NotArray? ==> r == []
    ensures state.Items? ==> forall x :: x in r <==> x in state.items && keep(x)
  {
    match state
    case NotArray => []
    case Items(items) => Filter(items, keep)
  }
}
