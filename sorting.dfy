/** A stable sort keyed by lexicographically ordered integer triples.

    Both orderings the bot relies on are of this shape: the SQL
    `ORDER BY roll_type DESC, random_roll_value DESC` of the roll fetch, and
    the Python `list.sort(key=lambda x: (flag, win_count, -value))` of the
    ranking, which is stable. Elements whose keys are equal keep the order
    they had in the input. */
module StableSort {

  /** A sort key; compared component by component, like a Python tuple. */
  datatype Key = Key(major: int, middle: int, minor: int)

  predicate Less(x: Key, y: Key)
  {
    x.major < y.major ||
    (x.major == y.major && (x.middle < y.middle || (x.middle == y.middle && x.minor < y.minor)))
  }

  /** `s` is ordered by `key`: no element has a strictly smaller key than one before it. */
  ghost predicate Sorted<T>(s: seq<T>, key: T -> Key)
  {
    forall i, j :: 0 <= i < j < |s| ==> !Less(key(s[j]), key(s[i]))
  }

  /** The elements of `s` whose key is `k`, in the order they have in `s`. */
  function Matching<T>(s: seq<T>, key: T -> Key, k: Key): seq<T>
  {
    if s == [] then []
    else Own(s[0], key, k) + Matching(s[1..], key, k)
  }

  /** `r` keeps, for every key, the relative order that the equal-keyed elements have in `s`. */
  ghost predicate StableWith<T>(r: seq<T>, s: seq<T>, key: T -> Key)
  {
    forall k :: Matching(r, key, k) == Matching(s, key, k)
  }

  /** Places `x` in front of the first element whose key is not strictly smaller than its own. */
  function Insert<T>(x: T, s: seq<T>, key: T -> Key): (r: seq<T>)
    ensures |r| == |s| + 1
    ensures multiset(r) == multiset(s) + multiset{x}
  {
    if s == [] then [x]
    else if Less(key(s[0]), key(x)) then
      assert s == [s[0]] + s[1..];
      [s[0]] + Insert(x, s[1..], key)
    else [x] + s
  }

  /** Insertion sort; `Insert` keeps it stable. */
  function Sort<T>(s: seq<T>, key: T -> Key): (r: seq<T>)
    ensures |r| == |s|
    ensures multiset(r) == multiset(s)
  {
    if s == [] then []
    else
      assert s == [s[0]] + s[1..];
      Insert(s[0], Sort(s[1..], key), key)
  }

  lemma NotLessTransitive(x: Key, y: Key, z: Key)
    requires !Less(y, x) && !Less(z, y)
    ensures !Less(z, x)
  {
  }

  lemma {:induction false} InsertSorted<T>(x: T, s: seq<T>, key: T -> Key)
    requires Sorted(s, key)
    ensures Sorted(Insert(x, s, key), key)
  {
    var r := Insert(x, s, key);
    if s == [] {
    } else if Less(key(s[0]), key(x)) {
      var tail := Insert(x, s[1..], key);
      InsertSorted(x, s[1..], key);
      assert r == [s[0]] + tail;
      forall j | 0 < j < |r|
        ensures !Less(key(r[j]), key(s[0]))
      {
        var y := r[j];
        assert y in multiset(tail);
        if y != x {
          assert y in multiset(s[1..]);
          var m :| 0 <= m < |s[1..]| && s[1..][m] == y;
          assert s[m + 1] == y;
        }
      }
    } else {
      assert r == [x] + s;
      forall j | 0 < j < |r|
        ensures !Less(key(r[j]), key(x))
      {
        assert r[j] == s[j - 1];
        NotLessTransitive(key(x), key(s[0]), key(s[j - 1]));
      }
    }
  }

  /** Sort orders its result. */
  lemma {:induction false} SortSorted<T>(s: seq<T>, key: T -> Key)
    ensures Sorted(Sort(s, key), key)
  {
    if s != [] {
      SortSorted(s[1..], key);
      InsertSorted(s[0], Sort(s[1..], key), key);
    }
  }

  /** The one-element contribution of `x` to `Matching(_, key, k)`. */
  function Own<T>(x: T, key: T -> Key, k: Key): seq<T>
  {
    if key(x) == k then [x] else []
  }

  lemma MatchingCons<T>(x: T, s: seq<T>, key: T -> Key, k: Key)
    ensures Matching([x] + s, key, k) == Own(x, key, k) + Matching(s, key, k)
  {
    assert ([x] + s)[1..] == s;
  }

  lemma OwnSwap<T>(x: T, y: T, key: T -> Key, k: Key, rest: seq<T>)
    requires Less(key(y), key(x))
    ensures Own(y, key, k) + (Own(x, key, k) + rest) == Own(x, key, k) + (Own(y, key, k) + rest)
  {
  }

  lemma {:induction false} InsertMatching<T>(x: T, s: seq<T>, key: T -> Key, k: Key)
    ensures Matching(Insert(x, s, key), key, k) == Own(x, key, k) + Matching(s, key, k)
  {
    if s == [] {
      MatchingCons(x, s, key, k);
    } else if Less(key(s[0]), key(x)) {
      var tail := Insert(x, s[1..], key);
      assert Insert(x, s, key) == [s[0]] + tail;
      MatchingCons(s[0], tail, key, k);
      InsertMatching(x, s[1..], key, k);
      OwnSwap(x, s[0], key, k, Matching(s[1..], key, k));
      MatchingCons(s[0], s[1..], key, k);
      assert s == [s[0]] + s[1..];
    } else {
      assert Insert(x, s, key) == [x] + s;
      MatchingCons(x, s, key, k);
    }
  }

  /** Sort is stable: equal keys keep their input order. */
  lemma {:induction false} SortStable<T>(s: seq<T>, key: T -> Key)
    ensures StableWith(Sort(s, key), s, key)
  {
    forall k
      ensures Matching(Sort(s, key), key, k) == Matching(s, key, k)
    {
      SortMatching(s, key, k);
    }
  }

  lemma {:induction false} SortMatching<T>(s: seq<T>, key: T -> Key, k: Key)
    ensures Matching(Sort(s, key), key, k) == Matching(s, key, k)
  {
    if s != [] {
      SortMatching(s[1..], key, k);
      InsertMatching(s[0], Sort(s[1..], key), key, k);
    }
  }

  lemma {:induction false} MatchingMember<T>(s: seq<T>, key: T -> Key, k: Key, y: T)
    requires y in Matching(s, key, k)
    ensures y in s && key(y) == k
  {
    if s != [] {
      if y != s[0] || key(s[0]) != k {
        MatchingMember(s[1..], key, k, y);
      }
    }
  }

  /** A sorted sequence is fixed by its equal-key classes: sorting stably has exactly one outcome. */
  lemma {:induction false} SortedUnique<T>(a: seq<T>, b: seq<T>, key: T -> Key)
    requires Sorted(a, key) && Sorted(b, key)
    requires StableWith(a, b, key)
    ensures a == b
  {
    if a != [] {
      assert Matching(a, key, key(a[0])) != [];
      assert Matching(b, key, key(a[0])) != [];
    }
    if b != [] {
      assert Matching(b, key, key(b[0])) != [];
      assert Matching(a, key, key(b[0])) != [];
    }
    if a != [] && b != [] {
      var ka, kb := key(a[0]), key(b[0]);
      var ya := Matching(b, key, ka)[0];
      MatchingMember(b, key, ka, ya);
      var jb :| 0 <= jb < |b| && b[jb] == ya;
      var yb := Matching(a, key, kb)[0];
      MatchingMember(a, key, kb, yb);
      var ja :| 0 <= ja < |a| && a[ja] == yb;
      assert !Less(ka, kb) by { assert jb == 0 || !Less(key(b[jb]), key(b[0])); }
      assert !Less(kb, ka) by { assert ja == 0 || !Less(key(a[ja]), key(a[0])); }
      assert ka == kb;
      assert a[0] == Matching(a, key, ka)[0] == Matching(b, key, ka)[0] == b[0];
      forall k
        ensures Matching(a[1..], key, k) == Matching(b[1..], key, k)
      {
        assert Matching(a, key, k) == Own(a[0], key, k) + Matching(a[1..], key, k);
        assert Matching(b, key, k) == Own(a[0], key, k) + Matching(b[1..], key, k);
        assert Matching(a, key, k) == Matching(b, key, k);
        var n := |Own(a[0], key, k)|;
        assert Matching(a[1..], key, k) == Matching(a, key, k)[n..];
        assert Matching(b[1..], key, k) == Matching(b, key, k)[n..];
      }
      SortedUnique(a[1..], b[1..], key);
      assert a == [a[0]] + a[1..] && b == [b[0]] + b[1..];
    }
  }

  /** Sorting two elements swaps them exactly when the second has the strictly smaller key. */
  lemma SortTwo<T>(a: T, b: T, key: T -> Key)
    ensures Sort([a, b], key) == if Less(key(b), key(a)) then [b, a] else [a, b]
  {
    assert [a, b][1..] == [b];
    assert [b][1..] == [];
    assert Sort([b], key) == [b];
    if Less(key(b), key(a)) {
      assert Insert(a, [b], key) == [b] + Insert(a, [], key);
    }
  }
}
