/**
 * `LiteMap<String, V>`, the map the blob exporter keeps its resources in: a vector
 * of key/value pairs kept in strictly increasing key order. Only the operations
 * the exporter uses are modelled: `insert`, `try_append`, `is_empty`, `clear` and
 * iteration in order.
 */
module LiteMap {
  import opened Wrappers

  /** Strict lexicographic order on strings, the order of Rust's `String`. */
  predicate StrLt(a: string, b: string) {
    if |a| == 0 then |b| > 0
    else if |b| == 0 then false
    else if a[0] != b[0] then a[0] < b[0]
    else StrLt(a[1..], b[1..])
  }

  lemma {:induction false} StrLtIrreflexive(a: string)
    ensures !StrLt(a, a)
  {
    if |a| > 0 {
      StrLtIrreflexive(a[1..]);
    }
  }

  lemma {:induction false} StrLtTransitive(a: string, b: string, c: string)
    requires StrLt(a, b) && StrLt(b, c)
    ensures StrLt(a, c)
  {
    if |a| > 0 && |b| > 0 && |c| > 0 && a[0] == b[0] && b[0] == c[0] {
      StrLtTransitive(a[1..], b[1..], c[1..]);
    }
  }

  lemma {:induction false} StrLtTotal(a: string, b: string)
    requires a != b
    ensures StrLt(a, b) || StrLt(b, a)
  {
    if |a| > 0 && |b| > 0 && a[0] == b[0] {
      assert a == [a[0]] + a[1..] && b == [b[0]] + b[1..];
      StrLtTotal(a[1..], b[1..]);
    }
  }

  /** The pairs are in strictly increasing key order, so no key appears twice. */
  predicate StrictlySorted<V>(m: seq<(string, V)>) {
    forall i, j :: 0 <= i < j < |m| ==> StrLt(m[i].0, m[j].0)
  }

  /** The keys of the map. */
  function Keys<V>(m: seq<(string, V)>): set<string> {
    set i | 0 <= i < |m| :: m[i].0
  }

  /** The keys of a map with one more pair in front. */
  lemma KeysCons<V>(e: (string, V), m: seq<(string, V)>)
    ensures Keys([e] + m) == Keys(m) + {e.0}
  {
    var r := [e] + m;
    forall k | k in Keys(r) ensures k in Keys(m) + {e.0} {
      var i :| 0 <= i < |r| && r[i].0 == k;
      if i > 0 { assert m[i - 1].0 == k; }
    }
    forall k | k in Keys(m) ensures k in Keys(r) {
      var i :| 0 <= i < |m| && m[i].0 == k;
      assert r[i + 1].0 == k;
    }
    assert r[0].0 == e.0;
  }

  /** The map the pairs stand for. */
  function ToMap<V>(m: seq<(string, V)>): (r: map<string, V>)
    ensures r.Keys == Keys(m)
  {
    if m == [] then map[]
    else
      var rest := ToMap(m[1..]);
      assert m == [m[0]] + m[1..];
      KeysCons(m[0], m[1..]);
      rest[m[0].0 := m[0].1]
  }

  /**
   * `LiteMap::insert`: put `v` under `k`, replacing the value already there. The
   * pairs stay strictly sorted and the map gains exactly that entry.
   */
  function Insert<V>(m: seq<(string, V)>, k: string, v: V): (r: seq<(string, V)>)
    requires StrictlySorted(m)
    ensures StrictlySorted(r)
    ensures Keys(r) == Keys(m) + {k}
    ensures ToMap(r) == ToMap(m)[k := v]
  {
    if m == [] then
      KeysCons((k, v), m);
      assert [(k, v)] + m == [(k, v)];
      [(k, v)]
    else if m[0].0 == k then
      InsertReplacesHead(m, v);
      [(k, v)] + m[1..]
    else if StrLt(k, m[0].0) then
      InsertBeforeHead(m, k, v);
      [(k, v)] + m
    else
      StrLtTotal(k, m[0].0);
      var rest := Insert(m[1..], k, v);
      InsertAfterHeadSorted(m, k, rest);
      InsertAfterHeadMap(m, k, v, rest);
      [m[0]] + rest
  }

  lemma InsertReplacesHead<V>(m: seq<(string, V)>, v: V)
    requires StrictlySorted(m) && m != []
    ensures StrictlySorted([(m[0].0, v)] + m[1..])
    ensures Keys([(m[0].0, v)] + m[1..]) == Keys(m)
    ensures ToMap([(m[0].0, v)] + m[1..]) == ToMap(m)[m[0].0 := v]
  {
    var r := [(m[0].0, v)] + m[1..];
    assert r == m[0 := (m[0].0, v)];
    SameKeysSorted(m, r);
    ReplaceHeadMap(m, v);
    assert m[0].0 in Keys(m);
  }

  lemma ReplaceHeadMap<V>(m: seq<(string, V)>, v: V)
    requires m != []
    ensures ToMap([(m[0].0, v)] + m[1..]) == ToMap(m)[m[0].0 := v]
  {
    var r := [(m[0].0, v)] + m[1..];
    assert r[0] == (m[0].0, v) && r[1..] == m[1..];
  }

  /** Pairs with the same keys in the same order are sorted when the originals are. */
  lemma SameKeysSorted<V>(m: seq<(string, V)>, r: seq<(string, V)>)
    requires StrictlySorted(m) && |r| == |m|
    requires forall i :: 0 <= i < |m| ==> r[i].0 == m[i].0
    ensures StrictlySorted(r)
  {
    forall i, j | 0 <= i < j < |r| ensures StrLt(r[i].0, r[j].0) {
      assert StrLt(m[i].0, m[j].0);
    }
  }

  lemma InsertBeforeHead<V>(m: seq<(string, V)>, k: string, v: V)
    requires StrictlySorted(m) && m != [] && StrLt(k, m[0].0)
    ensures StrictlySorted([(k, v)] + m)
    ensures Keys([(k, v)] + m) == Keys(m) + {k}
    ensures ToMap([(k, v)] + m) == ToMap(m)[k := v]
  {
    var r := [(k, v)] + m;
    assert r[1..] == m;
    forall j | 1 <= j < |r| ensures StrLt(r[0].0, r[j].0) {
      if j > 1 {
        StrLtTransitive(k, m[0].0, m[j - 1].0);
      }
    }
    KeysCons((k, v), m);
  }

  lemma InsertAfterHeadSorted<V>(m: seq<(string, V)>, k: string, rest: seq<(string, V)>)
    requires StrictlySorted(m) && m != [] && StrLt(m[0].0, k)
    requires StrictlySorted(rest) && Keys(rest) == Keys(m[1..]) + {k}
    ensures StrictlySorted([m[0]] + rest)
  {
    var r := [m[0]] + rest;
    assert r[1..] == rest;
    forall j | 1 <= j < |r| ensures StrLt(r[0].0, r[j].0) {
      assert r[j].0 == rest[j - 1].0;
      assert r[j].0 in Keys(rest);
      if r[j].0 != k {
        var i :| 0 <= i < |m[1..]| && m[1..][i].0 == r[j].0;
        assert StrLt(m[0].0, m[i + 1].0);
      }
    }
  }

  lemma InsertAfterHeadMap<V>(m: seq<(string, V)>, k: string, v: V, rest: seq<(string, V)>)
    requires m != [] && m[0].0 != k
    requires Keys(rest) == Keys(m[1..]) + {k}
    requires ToMap(rest) == ToMap(m[1..])[k := v]
    ensures Keys([m[0]] + rest) == Keys(m) + {k}
    ensures ToMap([m[0]] + rest) == ToMap(m)[k := v]
  {
    var r := [m[0]] + rest;
    assert r != [] && r[0] == m[0] && r[1..] == rest;
    assert ToMap(r) == ToMap(rest)[m[0].0 := m[0].1];
    assert ToMap(m) == ToMap(m[1..])[m[0].0 := m[0].1];
    UpdatesCommute(ToMap(m[1..]), k, v, m[0].0, m[0].1);
  }

  lemma UpdatesCommute<V>(base: map<string, V>, k: string, v: V, j: string, w: V)
    requires k != j
    ensures base[k := v][j := w] == base[j := w][k := v]
  {
  }

  /**
   * `LiteMap::try_append`: append the pair when `k` is greater than every key
   * already present; otherwise leave the map alone and hand the pair back.
   */
  function TryAppend<V>(m: seq<(string, V)>, k: string, v: V): (r: (seq<(string, V)>, Option<(string, V)>))
    requires StrictlySorted(m)
    ensures r.1.None? <==> (m == [] || StrLt(m[|m| - 1].0, k))
    ensures r.1.None? ==> r.0 == m + [(k, v)] && StrictlySorted(r.0)
    ensures r.1.Some? ==> r.0 == m && r.1.value == (k, v)
  {
    if m == [] || StrLt(m[|m| - 1].0, k) then
      AppendKeepsSorted(m, k, v);
      (m + [(k, v)], None)
    else
      (m, Some((k, v)))
  }

  lemma AppendKeepsSorted<V>(m: seq<(string, V)>, k: string, v: V)
    requires StrictlySorted(m)
    requires m == [] || StrLt(m[|m| - 1].0, k)
    ensures StrictlySorted(m + [(k, v)])
  {
    var r := m + [(k, v)];
    forall i | 0 <= i < |m| ensures StrLt(r[i].0, k) {
      if i < |m| - 1 {
        StrLtTransitive(m[i].0, m[|m| - 1].0, k);
      }
    }
  }

  /** A map is empty exactly when it has no pairs (`LiteMap::is_empty`). */
  lemma EmptyIffNoPairs<V>(m: seq<(string, V)>)
    ensures ToMap(m) == map[] <==> m == []
  {
    if m != [] {
      assert m[0].0 in Keys(m);
    }
  }
}
