/** Option, as used for the optional fields of the conversion data and for parse results. */
module Wrappers {
  datatype Option<+T> = None | Some(value: T)
}

/**
 * A model of Rust's `BTreeMap<String, V>` as the program uses it: a finite map whose
 * iteration visits the keys in ascending order. The map is represented by its iteration
 * sequence, a list of (key, value) entries whose keys are strictly increasing under
 * `LexLess`, the order of Rust's `Ord for str`.
 */
module SortedMap {

  /** Rust compares strings lexicographically by their UTF-8 bytes, which is the same as
      comparing their characters by code point. `LexLess(a, b)` is the strict order. */
  predicate LexLess(a: string, b: string) {
    if |a| == 0 then |b| > 0
    else if |b| == 0 then false
    else a[0] < b[0] || (a[0] == b[0] && LexLess(a[1..], b[1..]))
  }

  lemma {:induction false} LexLessIrreflexive(a: string)
    ensures !LexLess(a, a)
  {
    if |a| > 0 {
      LexLessIrreflexive(a[1..]);
    }
  }

  lemma {:induction false} LexLessTransitive(a: string, b: string, c: string)
    requires LexLess(a, b) && LexLess(b, c)
    ensures LexLess(a, c)
  {
    if |a| > 0 && |b| > 0 && |c| > 0 && a[0] == b[0] && b[0] == c[0] {
      LexLessTransitive(a[1..], b[1..], c[1..]);
    }
  }

  lemma {:induction false} LexLessTotal(a: string, b: string)
    requires a != b
    ensures LexLess(a, b) || LexLess(b, a)
  {
    if |a| > 0 && |b| > 0 && a[0] == b[0] {
      assert a == [a[0]] + a[1..] && b == [b[0]] + b[1..];
      LexLessTotal(a[1..], b[1..]);
    }
  }

  /** The keys of `es` strictly increase: the iteration order of a BTreeMap. */
  predicate Sorted<V>(es: seq<(string, V)>) {
    forall i, j :: 0 <= i < j < |es| ==> LexLess(es[i].0, es[j].0)
  }

  /** A BTreeMap, seen as its iteration sequence. */
  type Ordered<V> = es: seq<(string, V)> | Sorted(es) witness []

  /** The metadata maps of the program: `BTreeMap<String, String>`, tag name to value. */
  type Tags = Ordered<string>

  /** The abstract map an entry list denotes; a later entry wins over an earlier one. */
  function ToMap<V>(es: seq<(string, V)>): map<string, V> {
    if es == [] then map[] else map[es[0].0 := es[0].1] + ToMap(es[1..])
  }

  lemma {:induction false} ToMapKeys<V>(es: seq<(string, V)>)
    ensures ToMap(es).Keys == set i | 0 <= i < |es| :: es[i].0
  {
    if es != [] {
      ToMapKeys(es[1..]);
      var rest := set i | 0 <= i < |es[1..]| :: es[1..][i].0;
      var all := set i | 0 <= i < |es| :: es[i].0;
      assert all == {es[0].0} + rest by {
        forall k | k in all ensures k in {es[0].0} + rest {
          var i :| 0 <= i < |es| && es[i].0 == k;
          if i > 0 { assert es[1..][i - 1].0 == k; }
        }
        forall k | k in rest ensures k in all {
          var i :| 0 <= i < |es[1..]| && es[1..][i].0 == k;
          assert es[i + 1].0 == k;
        }
      }
    }
  }

  /** Every key of `es` lies above `x`, said of the entries and of the abstract map. */
  lemma {:induction false} AboveAll<V>(x: string, es: seq<(string, V)>)
    ensures (forall j :: 0 <= j < |es| ==> LexLess(x, es[j].0))
        <==> (forall key :: key in ToMap(es) ==> LexLess(x, key))
  {
    ToMapKeys(es);
    if forall key :: key in ToMap(es) ==> LexLess(x, key) {
      forall j | 0 <= j < |es| ensures LexLess(x, es[j].0) {
        assert es[j].0 in ToMap(es).Keys;
      }
    }
  }

  /** A key below the first key of a sorted list is below all of them, so it is absent. */
  lemma BelowFirst<V>(k: string, es: seq<(string, V)>)
    requires Sorted(es) && es != [] && LexLess(k, es[0].0)
    ensures forall j :: 0 <= j < |es| ==> LexLess(k, es[j].0)
    ensures k !in ToMap(es)
  {
    forall j | 1 <= j < |es| ensures LexLess(k, es[j].0) {
      LexLessTransitive(k, es[0].0, es[j].0);
    }
    AboveAll(k, es);
    LexLessIrreflexive(k);
  }

  /** The first key of a sorted list does not occur in the rest. */
  lemma FirstNotInRest<V>(es: seq<(string, V)>)
    requires Sorted(es) && es != []
    ensures es[0].0 !in ToMap(es[1..])
  {
    AboveAll(es[0].0, es[1..]);
    LexLessIrreflexive(es[0].0);
  }

  /** `BTreeMap::insert`: sets `k` to `v`, replacing an existing value, keeping the order. */
  function Insert<V>(es: Ordered<V>, k: string, v: V): (r: Ordered<V>)
    ensures ToMap(r) == ToMap(es)[k := v]
    ensures |r| == if k in ToMap(es) then |es| else |es| + 1
  {
    if es == [] then [(k, v)]
    else if es[0].0 == k then
      FirstNotInRest(es);
      [(k, v)] + es[1..]
    else if LexLess(k, es[0].0) then
      BelowFirst(k, es);
      [(k, v)] + es
    else
      LexLessTotal(k, es[0].0);
      var inserted := Insert(es[1..], k, v);
      InsertAfterFirst(es, k, v, inserted);
      [es[0]] + inserted
  }

  /** The step of `Insert` for a key above the first one: the first entry stays in front
      of the rest with the key inserted. */
  lemma InsertAfterFirst<V>(es: Ordered<V>, k: string, v: V, inserted: Ordered<V>)
    requires es != [] && LexLess(es[0].0, k)
    requires ToMap(inserted) == ToMap(es[1..])[k := v]
    requires |inserted| == if k in ToMap(es[1..]) then |es| - 1 else |es|
    ensures Sorted([es[0]] + inserted)
    ensures ToMap([es[0]] + inserted) == ToMap(es)[k := v]
    ensures |[es[0]] + inserted| == if k in ToMap(es) then |es| else |es| + 1
  {
    var first := es[0].0;
    var tail := es[1..];
    assert forall j :: 0 <= j < |tail| ==> LexLess(first, tail[j].0) by {
      forall j | 0 <= j < |tail| ensures LexLess(first, tail[j].0) {
        assert tail[j] == es[j + 1];
      }
    }
    AboveAll(first, tail);
    assert forall key :: key in ToMap(inserted) ==> LexLess(first, key) by {
      forall key | key in ToMap(inserted) ensures LexLess(first, key) {
        if key != k {
          assert key in ToMap(tail);
        }
      }
    }
    AboveAll(first, inserted);
    var r := [es[0]] + inserted;
    forall i, j | 0 <= i < j < |r| ensures LexLess(r[i].0, r[j].0) {
      assert r[j] == inserted[j - 1];
      if i > 0 {
        assert r[i] == inserted[i - 1];
      }
    }
    LexLessIrreflexive(first);
    assert r[1..] == inserted;
    assert ToMap(r) == map[first := es[0].1] + ToMap(tail)[k := v];
    assert ToMap(es) == map[first := es[0].1] + ToMap(tail);
    OverlayUpdate(map[first := es[0].1], ToMap(tail), k, v);
  }

  lemma OverlayUpdate<V>(m: map<string, V>, n: map<string, V>, k: string, v: V)
    ensures m + n[k := v] == (m + n)[k := v]
  {
    var lhs, rhs := m + n[k := v], (m + n)[k := v];
    assert lhs.Keys == rhs.Keys;
    forall key | key in lhs ensures lhs[key] == rhs[key] {}
  }

  lemma UpdateThenOverlay<V>(m: map<string, V>, k: string, v: V, n: map<string, V>)
    ensures m[k := v] + n == m + (map[k := v] + n)
  {
    var lhs, rhs := m[k := v] + n, m + (map[k := v] + n);
    assert lhs.Keys == rhs.Keys;
    forall key | key in lhs ensures lhs[key] == rhs[key] {}
  }

  /** Inserting the entries of `extra` one after another into `base`, in `extra`'s order. */
  function InsertAll(base: Tags, extra: Tags): (r: Tags)
    ensures ToMap(r) == ToMap(base) + ToMap(extra)
    decreases |extra|
  {
    if extra == [] then base
    else
      var rest: Tags := extra[1..];
      UpdateThenOverlay(ToMap(base), extra[0].0, extra[0].1, ToMap(rest));
      InsertAll(Insert(base, extra[0].0, extra[0].1), rest)
  }
}
