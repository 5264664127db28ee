/** Sequence helpers standing for Ruby's `select`, `detect`, `uniq` and `join`. */
module Sequences {
  import opened Wrappers

  /** `Array#select`: the elements of `s` satisfying `p`, in their original order. */
  function Filter<T(!new)>(s: seq<T>, p: T -> bool): (r: seq<T>)
    ensures |r| <= |s|
    ensures forall i :: 0 <= i < |r| ==> p(r[i])
  {
    if s == [] then []
    else (if p(s[0]) then [s[0]] else []) + Filter(s[1..], p)
  }

  /** The selected elements are exactly the elements satisfying `p`. */
  lemma {:induction false} FilterMembers<T(!new)>(s: seq<T>, p: T -> bool)
    ensures forall x :: x in Filter(s, p) <==> x in s && p(x)
  {
    if s != [] {
      FilterMembers(s[1..], p);
      assert forall x :: x in s <==> x == s[0] || x in s[1..];
    }
  }

  lemma FilterCons<T(!new)>(x: T, s: seq<T>, p: T -> bool)
    ensures Filter([x] + s, p) == (if p(x) then [x] else []) + Filter(s, p)
  {
    assert ([x] + s)[0] == x && ([x] + s)[1..] == s;
  }

  lemma FilterSingle<T(!new)>(x: T, p: T -> bool)
    ensures Filter([x], p) == if p(x) then [x] else []
  {
    assert [x][1..] == [];
  }

  /** Two selected elements ahead of a part from which nothing is selected. */
  lemma FilterPairFirst<T(!new)>(x: T, y: T, s: seq<T>, p: T -> bool)
    requires p(x) && p(y) && Filter(s, p) == []
    ensures Filter([x, y] + s, p) == [x, y]
  {
    assert [x, y] + s == [x] + ([y] + s);
    FilterCons(y, s, p);
    FilterCons(x, [y] + s, p);
  }

  /** Nothing is selected from five elements none of which satisfies `p`. */
  lemma FilterNoneOfFive<T(!new)>(a: T, b: T, c: T, d: T, e: T, p: T -> bool)
    requires !p(a) && !p(b) && !p(c) && !p(d) && !p(e)
    ensures Filter([a, b, c, d, e], p) == []
  {
    assert Filter([e], p) == [] by { assert [e][1..] == []; }
    assert Filter([d, e], p) == [] by { assert [d, e][1..] == [e]; }
    assert Filter([c, d, e], p) == [] by { assert [c, d, e][1..] == [d, e]; }
    assert Filter([b, c, d, e], p) == [] by { assert [b, c, d, e][1..] == [c, d, e]; }
    assert [a, b, c, d, e][1..] == [b, c, d, e];
  }

  /** Selecting with a predicate no element satisfies gives nothing. */
  lemma {:induction false} FilterNone<T(!new)>(s: seq<T>, p: T -> bool)
    requires forall i :: 0 <= i < |s| ==> !p(s[i])
    ensures Filter(s, p) == []
  {
    if s != [] {
      FilterNone(s[1..], p);
    }
  }

  /** Selecting the head only. */
  lemma FilterOne<T(!new)>(x: T, s: seq<T>, p: T -> bool)
    requires p(x) && forall i :: 0 <= i < |s| ==> !p(s[i])
    ensures Filter([x] + s, p) == [x]
  {
    FilterCons(x, s, p);
    FilterNone(s, p);
  }

  /** Selecting two leading elements and none of the rest. */
  lemma FilterTwo<T(!new)>(x: T, y: T, s: seq<T>, p: T -> bool)
    requires p(x) && p(y) && forall i :: 0 <= i < |s| ==> !p(s[i])
    ensures Filter([x] + ([y] + s), p) == [x, y]
  {
    FilterOne(y, s, p);
    FilterCons(x, [y] + s, p);
  }

  /** A property of every element survives selection. */
  lemma {:induction false} FilterKeeps<T(!new)>(s: seq<T>, p: T -> bool, q: T -> bool)
    requires forall i :: 0 <= i < |s| ==> q(s[i])
    ensures forall i :: 0 <= i < |Filter(s, p)| ==> q(Filter(s, p)[i])
  {
    if s != [] {
      FilterKeeps(s[1..], p, q);
    }
  }

  /** Selecting from a concatenation selects from each part. */
  lemma {:induction false} FilterAppend<T(!new)>(a: seq<T>, b: seq<T>, p: T -> bool)
    ensures Filter(a + b, p) == Filter(a, p) + Filter(b, p)
  {
    if a == [] {
      assert a + b == b;
    } else {
      assert (a + b)[1..] == a[1..] + b;
      FilterAppend(a[1..], b, p);
    }
  }

  /** Selecting with a predicate that every element satisfies changes nothing. */
  lemma {:induction false} FilterAll<T(!new)>(s: seq<T>, p: T -> bool)
    requires forall i :: 0 <= i < |s| ==> p(s[i])
    ensures Filter(s, p) == s
  {
    if s != [] {
      FilterAll(s[1..], p);
    }
  }

  /** `Enumerable#detect`: the first element of `s` satisfying `p`, or `None`. */
  function First<T>(s: seq<T>, p: T -> bool): (r: Option<T>)
    ensures r.None? <==> forall i :: 0 <= i < |s| ==> !p(s[i])
    ensures r.Some? ==> exists i :: 0 <= i < |s| && s[i] == r.value && p(s[i]) && forall j :: 0 <= j < i ==> !p(s[j])
  {
    if s == [] then None
    else if p(s[0]) then Some(s[0])
    else
      var r := First(s[1..], p);
      assert r.Some? ==> exists i :: 1 <= i < |s| && s[i] == r.value && p(s[i]) && forall j :: 0 <= j < i ==> !p(s[j]) by {
        if r.Some? {
          var k :| 0 <= k < |s[1..]| && s[1..][k] == r.value && p(s[1..][k]) && forall j :: 0 <= j < k ==> !p(s[1..][j]);
          assert s[k + 1] == r.value && p(s[k + 1]);
          assert forall j :: 1 <= j < k + 1 ==> !p(s[j]) by {
            forall j | 1 <= j < k + 1 ensures !p(s[j]) {
              assert s[j] == s[1..][j - 1];
            }
          }
        }
      }
      r
  }

  /** The second of two elements is found when only it satisfies `p`. */
  lemma FirstSecond<T>(x: T, y: T, p: T -> bool)
    requires !p(x) && p(y)
    ensures First([x, y], p) == Some(y)
  {
    assert [x, y][1..] == [y];
  }

  /** Whether `s` holds two elements with the same key. */
  predicate DistinctBy<T, K(==)>(s: seq<T>, key: T -> K) {
    forall i, j :: 0 <= i < j < |s| ==> key(s[i]) != key(s[j])
  }

  /** Some element of `r` has the key `k`. */
  predicate HasKey<T, K(==)>(r: seq<T>, k: K, key: T -> K) {
    exists j :: 0 <= j < |r| && key(r[j]) == k
  }

  /** `x` occurs in `s`, and no element before that occurrence has its key. */
  predicate FirstWithKey<T(==), K(==)>(s: seq<T>, x: T, key: T -> K) {
    exists i :: 0 <= i < |s| && s[i] == x && forall k :: 0 <= k < i ==> key(s[k]) != key(x)
  }

  /**
   * `Array#uniq` under the equality `key(x) == key(y)`: one element per class
   * of `s`, and that element is the first of its class. `UniqByPrefix` gives
   * the order.
   */
  function UniqBy<T(!new,==), K(==)>(s: seq<T>, key: T -> K): (r: seq<T>)
    ensures DistinctBy(r, key)
    ensures forall x :: x in r ==> x in s
    ensures forall j :: 0 <= j < |r| ==> FirstWithKey(s, r[j], key)
    ensures forall i :: 0 <= i < |s| ==> HasKey(r, key(s[i]), key)
    ensures |r| <= |s|
    decreases |s|
  {
    if s == [] then []
    else
      var pre := s[..|s| - 1];
      var init := UniqBy(pre, key);
      var last := s[|s| - 1];
      assert s == pre + [last];
      if HasKey(init, key(last), key) then
        UniqStepKept(pre, last, init, key);
        UniqFirstKept(pre, last, init, key);
        init
      else
        UniqStepNew(pre, last, init, key);
        UniqFirstNew(pre, last, init, key);
        init + [last]
  }

  /** A first occurrence in `pre` stays first when an element is appended. */
  lemma UniqFirstKept<T, K>(pre: seq<T>, last: T, init: seq<T>, key: T -> K)
    requires forall j :: 0 <= j < |init| ==> FirstWithKey(pre, init[j], key)
    ensures forall j :: 0 <= j < |init| ==> FirstWithKey(pre + [last], init[j], key)
  {
    forall j | 0 <= j < |init| ensures FirstWithKey(pre + [last], init[j], key) {
      var i :| 0 <= i < |pre| && pre[i] == init[j] && forall k :: 0 <= k < i ==> key(pre[k]) != key(init[j]);
      assert (pre + [last])[i] == pre[i];
      assert forall k :: 0 <= k < i ==> (pre + [last])[k] == pre[k];
    }
  }

  /** An appended element whose class no kept element has is the first of its class. */
  lemma UniqFirstNew<T, K>(pre: seq<T>, last: T, init: seq<T>, key: T -> K)
    requires forall j :: 0 <= j < |init| ==> FirstWithKey(pre, init[j], key)
    requires forall i :: 0 <= i < |pre| ==> HasKey(init, key(pre[i]), key)
    requires !HasKey(init, key(last), key)
    ensures forall j :: 0 <= j < |init + [last]| ==> FirstWithKey(pre + [last], (init + [last])[j], key)
  {
    UniqFirstKept(pre, last, init, key);
    forall k | 0 <= k < |pre| ensures key((pre + [last])[k]) != key(last) {
      assert (pre + [last])[k] == pre[k];
    }
    assert (pre + [last])[|pre|] == last;
    assert FirstWithKey(pre + [last], last, key);
    forall j | 0 <= j < |init + [last]| ensures FirstWithKey(pre + [last], (init + [last])[j], key) {
      if j < |init| {
        assert (init + [last])[j] == init[j];
      }
    }
  }

  /** `uniq` keeps source order: removing repetitions from a prefix gives a prefix of the result. */
  lemma {:induction false} UniqByPrefix<T(!new), K>(s: seq<T>, key: T -> K, k: nat)
    requires k <= |s|
    ensures UniqBy(s[..k], key) <= UniqBy(s, key)
    decreases |s|
  {
    if k < |s| {
      var pre := s[..|s| - 1];
      assert pre[..k] == s[..k];
      UniqByPrefix(pre, key, k);
      UniqByLast(s, key);
    } else {
      assert s[..k] == s;
    }
  }

  /** A step of `UniqBy` whose last element's class is already present. */
  lemma UniqStepKept<T, K>(pre: seq<T>, last: T, init: seq<T>, key: T -> K)
    requires forall i :: 0 <= i < |pre| ==> HasKey(init, key(pre[i]), key)
    requires HasKey(init, key(last), key)
    ensures forall i :: 0 <= i < |pre + [last]| ==> HasKey(init, key((pre + [last])[i]), key)
  {
    forall i | 0 <= i < |pre + [last]| ensures HasKey(init, key((pre + [last])[i]), key) {
      if i < |pre| {
        assert (pre + [last])[i] == pre[i];
      }
    }
  }

  /** A step of `UniqBy` whose last element starts a new class. */
  lemma UniqStepNew<T, K>(pre: seq<T>, last: T, init: seq<T>, key: T -> K)
    requires DistinctBy(init, key)
    requires forall i :: 0 <= i < |pre| ==> HasKey(init, key(pre[i]), key)
    requires !HasKey(init, key(last), key)
    ensures DistinctBy(init + [last], key)
    ensures forall i :: 0 <= i < |pre + [last]| ==> HasKey(init + [last], key((pre + [last])[i]), key)
  {
    var r := init + [last];
    forall i | 0 <= i < |pre + [last]| ensures HasKey(r, key((pre + [last])[i]), key) {
      if i < |pre| {
        assert (pre + [last])[i] == pre[i];
        var j :| 0 <= j < |init| && key(init[j]) == key(pre[i]);
        assert r[j] == init[j];
      } else {
        assert r[|init|] == (pre + [last])[i];
      }
    }
    forall i, j | 0 <= i < j < |r| ensures key(r[i]) != key(r[j]) {
      if j < |init| {
        assert r[i] == init[i] && r[j] == init[j];
      } else {
        assert r[i] == init[i];
      }
    }
  }

  /** A property of every element survives removing repetitions. */
  lemma UniqByKeeps<T(!new), K>(s: seq<T>, key: T -> K, q: T -> bool)
    requires forall i :: 0 <= i < |s| ==> q(s[i])
    ensures forall i :: 0 <= i < |UniqBy(s, key)| ==> q(UniqBy(s, key)[i])
  {
    var r := UniqBy(s, key);
    forall i | 0 <= i < |r| ensures q(r[i]) {
      assert r[i] in r;
    }
  }

  /** A sequence without repetitions is left as it is. */
  lemma {:induction false} UniqByDistinct<T(!new), K>(s: seq<T>, key: T -> K)
    requires DistinctBy(s, key)
    ensures UniqBy(s, key) == s
    decreases |s|
  {
    if s != [] {
      var pre := s[..|s| - 1];
      assert DistinctBy(pre, key);
      UniqByDistinct(pre, key);
      var last := s[|s| - 1];
      assert forall j :: 0 <= j < |pre| ==> key(pre[j]) != key(last) by {
        forall j | 0 <= j < |pre| ensures key(pre[j]) != key(last) {
          assert pre[j] == s[j];
        }
      }
      UniqByLast(s, key);
      InitLast(s);
    }
  }

  lemma ConcatAssoc<T>(x: seq<T>, y: seq<T>, z: seq<T>)
    ensures x + (y + z) == (x + y) + z
  {
  }

  lemma ConcatThree<T>(a: T, b: T, c: T)
    ensures [a] + [b] + [c] == [a, b, c]
  {
  }

  /** A non-empty sequence is its prefix followed by its last element. */
  lemma InitLast<T>(s: seq<T>)
    requires s != []
    ensures s[..|s| - 1] + [s[|s| - 1]] == s
  {
  }

  /** The last element is kept exactly when no kept element before it has its key. */
  lemma UniqByLast<T(!new), K>(s: seq<T>, key: T -> K)
    requires s != []
    ensures var init := UniqBy(s[..|s| - 1], key);
            UniqBy(s, key) == if HasKey(init, key(s[|s| - 1]), key) then init else init + [s[|s| - 1]]
  {
  }

  /** `Array#join(sep)` on strings. */
  function Join(parts: seq<string>, sep: string): (r: string)
    ensures parts == [] ==> r == []
    ensures |parts| == 1 ==> r == parts[0]
    decreases |parts|
  {
    if parts == [] then ""
    else if |parts| == 1 then parts[0]
    else Join(parts[..|parts| - 1], sep) + sep + parts[|parts| - 1]
  }

  /** One more part is written after a separator. */
  lemma JoinAppend(parts: seq<string>, p: string, sep: string)
    requires parts != []
    ensures Join(parts + [p], sep) == Join(parts, sep) + sep + p
  {
    assert (parts + [p])[..|parts|] == parts;
  }

  /** A first part is followed by a separator and the join of the rest. */
  lemma {:induction false} JoinCons(p: string, parts: seq<string>, sep: string)
    requires parts != []
    ensures Join([p] + parts, sep) == p + sep + Join(parts, sep)
    decreases |parts|
  {
    if |parts| == 1 {
      assert [p] + parts == [p] + [parts[0]];
      JoinAppend([p], parts[0], sep);
    } else {
      var init := parts[..|parts| - 1];
      var last := parts[|parts| - 1];
      assert parts == init + [last];
      assert [p] + parts == ([p] + init) + [last];
      JoinCons(p, init, sep);
      JoinAppend([p] + init, last, sep);
      JoinAppend(init, last, sep);
      var x := Join(init, sep);
      ConcatAssoc(p + sep, x + sep, last);
      ConcatAssoc(p + sep, x, sep);
    }
  }

  /** The joined string's length: every part, and one separator between each two. */
  lemma {:induction false} JoinLength(parts: seq<string>, sep: string)
    requires parts != []
    ensures |Join(parts, sep)| == SumLengths(parts) + (|parts| - 1) * |sep|
    decreases |parts|
  {
    if |parts| > 1 {
      var init := parts[..|parts| - 1];
      JoinLength(init, sep);
      SumLengthsLast(parts);
    }
  }

  /** The total length of the parts. */
  function SumLengths(parts: seq<string>): nat
    decreases |parts|
  {
    if parts == [] then 0 else SumLengths(parts[..|parts| - 1]) + |parts[|parts| - 1]|
  }

  lemma SumLengthsLast(parts: seq<string>)
    requires parts != []
    ensures SumLengths(parts) == SumLengths(parts[..|parts| - 1]) + |parts[|parts| - 1]|
  {
  }

  /**
   * `h[k] = v` for each present entry in order, starting from an empty hash:
   * a later entry for a key replaces an earlier one, `None` entries are skipped.
   */
  function Store<K(==), V>(es: seq<Option<(K, V)>>): map<K, V>
    decreases |es|
  {
    if es == [] then map[]
    else
      var m := Store(es[..|es| - 1]);
      var e := es[|es| - 1];
      if e.Some? then m[e.value.0 := e.value.1] else m
  }

  /** One more entry: the assignment the loop performs for it. */
  lemma StoreStep<K, V>(es: seq<Option<(K, V)>>, i: nat)
    requires i < |es|
    ensures Store(es[..i + 1]) ==
            if es[i].Some? then Store(es[..i])[es[i].value.0 := es[i].value.1] else Store(es[..i])
  {
    assert es[..i + 1][..i] == es[..i];
  }

  lemma StoreSingle<K, V>(es: seq<Option<(K, V)>>)
    requires |es| == 1 && es[0].Some?
    ensures Store(es) == map[es[0].value.0 := es[0].value.1]
  {
    assert es[..0] == [];
  }

  /** Every stored pair was an entry. */
  lemma {:induction false} StoreOrigin<K, V>(es: seq<Option<(K, V)>>, k: K)
    requires k in Store(es)
    ensures exists i :: 0 <= i < |es| && es[i] == Some((k, Store(es)[k]))
    decreases |es|
  {
    var init := es[..|es| - 1];
    var last := |es| - 1;
    if es[last].Some? && es[last].value.0 == k {
      assert es[last] == Some((k, Store(es)[k]));
    } else {
      StoreOrigin(init, k);
      var i :| 0 <= i < |init| && init[i] == Some((k, Store(init)[k]));
      assert es[i] == init[i];
    }
  }

  /** Every entry's key is stored, with the entry's value unless a later entry has the same key. */
  lemma {:induction false} StoreLatest<K, V>(es: seq<Option<(K, V)>>, i: nat)
    requires i < |es| && es[i].Some?
    ensures es[i].value.0 in Store(es)
    ensures (forall j :: i < j < |es| && es[j].Some? ==> es[j].value.0 != es[i].value.0) ==>
              Store(es)[es[i].value.0] == es[i].value.1
    decreases |es|
  {
    var init := es[..|es| - 1];
    if i < |es| - 1 {
      assert init[i] == es[i];
      StoreLatest(init, i);
    }
  }
}
