/** PHP arrays with string keys, as ordered association lists.  A PHP array never
    holds a key twice (`DistinctKeys`); the functions are the array operations the
    core calls, and the lemmas give their meaning. */
module PhpArray {
  import opened Wrappers

  predicate HasKey<V>(m: seq<(string, V)>, k: string) {
    exists i :: 0 <= i < |m| && m[i].0 == k
  }

  predicate DistinctKeys<V>(m: seq<(string, V)>) {
    forall i, j :: 0 <= i < j < |m| ==> m[i].0 != m[j].0
  }

  predicate DistinctValues(m: seq<(string, string)>) {
    forall i, j :: 0 <= i < j < |m| ==> m[i].1 != m[j].1
  }

  /** Entry `i` is the first one whose value is `v`. */
  predicate FirstValueAt(m: seq<(string, string)>, v: string, i: int) {
    0 <= i < |m| && m[i].1 == v && forall j :: 0 <= j < i ==> m[j].1 != v
  }

  /** `count(array_intersect_key($a, $b)) > 0`: some key is in both arrays. */
  predicate KeysIntersect<V>(a: seq<(string, V)>, b: seq<(string, V)>) {
    exists i, j :: 0 <= i < |a| && 0 <= j < |b| && a[i].0 == b[j].0
  }

  /** `$m[$k] ?? null` */
  function Get<V>(m: seq<(string, V)>, k: string): Option<V> {
    if m == [] then None
    else if m[0].0 == k then Some(m[0].1)
    else Get(m[1..], k)
  }

  /** `array_search($v, $m)`: the key of the first entry whose value is `v`.  Values
      are compared as plain strings; PHP's loose comparison of numeric strings is not
      modelled. */
  function Search(m: seq<(string, string)>, v: string): Option<string> {
    if m == [] then None
    else if m[0].1 == v then Some(m[0].0)
    else Search(m[1..], v)
  }

  /** `$m[$k] = $v`: overwrites the value in place, or appends a new entry. */
  function Put<V>(m: seq<(string, V)>, k: string, v: V): seq<(string, V)> {
    if m == [] then [(k, v)]
    else if m[0].0 == k then [(k, v)] + m[1..]
    else [m[0]] + Put(m[1..], k, v)
  }

  /** `array_merge($a, $b)` for string keys: entries of `b` overwrite those of `a`
      with the same key in place; the others are appended in `b`'s order. */
  function Merge<V>(a: seq<(string, V)>, b: seq<(string, V)>): seq<(string, V)>
    decreases |b|
  {
    if b == [] then a else Merge(Put(a, b[0].0, b[0].1), b[1..])
  }

  /** `$a + $b`: entries of `b` whose key is not yet in `a` are appended; `a` wins. */
  function Union<V>(a: seq<(string, V)>, b: seq<(string, V)>): seq<(string, V)>
    decreases |b|
  {
    if b == [] then a
    else Union(if HasKey(a, b[0].0) then a else a + [b[0]], b[1..])
  }

  /** `unset($m[$k])`: drops the entry with key `k`, keeping the others in order. */
  function Remove<V>(m: seq<(string, V)>, k: string): seq<(string, V)> {
    if m == [] then []
    else if m[0].0 == k then Remove(m[1..], k)
    else [m[0]] + Remove(m[1..], k)
  }

  // ---------------------------------------------------------------- lemmas

  lemma HasKeyCons<V>(m: seq<(string, V)>, k: string)
    requires m != []
    ensures HasKey(m, k) <==> m[0].0 == k || HasKey(m[1..], k)
  {
    if HasKey(m, k) && m[0].0 != k {
      var i :| 0 <= i < |m| && m[i].0 == k;
      assert m[1..][i - 1].0 == k;
    }
    if HasKey(m[1..], k) {
      var i :| 0 <= i < |m[1..]| && m[1..][i].0 == k;
      assert m[i + 1].0 == k;
    }
  }

  lemma DistinctKeysCons<V>(m: seq<(string, V)>)
    requires m != []
    ensures DistinctKeys(m) <==> DistinctKeys(m[1..]) && !HasKey(m[1..], m[0].0)
  {
    if DistinctKeys(m) {
      forall i | 0 <= i < |m[1..]| ensures m[1..][i].0 != m[0].0 {
        assert m[1..][i] == m[i + 1];
      }
    }
    if DistinctKeys(m[1..]) && !HasKey(m[1..], m[0].0) {
      forall i, j | 0 <= i < j < |m| ensures m[i].0 != m[j].0 {
        if i == 0 { assert m[1..][j - 1].0 == m[j].0; }
        else { assert m[1..][i - 1] == m[i] && m[1..][j - 1] == m[j]; }
      }
    }
  }

  /** A read finds something exactly when the key is present. */
  lemma {:induction false} GetSomeIffHasKey<V>(m: seq<(string, V)>, k: string)
    ensures Get(m, k).Some? <==> HasKey(m, k)
  {
    if m != [] {
      HasKeyCons(m, k);
      GetSomeIffHasKey(m[1..], k);
    }
  }

  /** In an array without repeated keys, reading the key of any entry gives that entry's value. */
  lemma {:induction false} GetAt<V>(m: seq<(string, V)>, i: int)
    requires DistinctKeys(m) && 0 <= i < |m|
    ensures Get(m, m[i].0) == Some(m[i].1)
  {
    if i > 0 {
      DistinctKeysCons(m);
      assert m[i] == m[1..][i - 1];
      GetAt(m[1..], i - 1);
      assert m[i].0 != m[0].0;
    }
  }

  /** Whatever a read returns is the value of some entry with that key. */
  lemma {:induction false} GetIsEntry<V>(m: seq<(string, V)>, k: string)
    requires Get(m, k).Some?
    ensures (k, Get(m, k).value) in m
  {
    if m[0].0 != k {
      GetIsEntry(m[1..], k);
      assert (k, Get(m, k).value) in m[1..];
    }
  }

  /** Reading `a + b` finds `a`'s entry first and `b`'s otherwise. */
  lemma {:induction false} AppendGet<V>(a: seq<(string, V)>, b: seq<(string, V)>, k: string)
    ensures Get(a + b, k) == if HasKey(a, k) then Get(a, k) else Get(b, k)
  {
    if a == [] {
      assert a + b == b;
    } else {
      assert (a + b)[0] == a[0];
      assert (a + b)[1..] == a[1..] + b;
      AppendGet(a[1..], b, k);
      HasKeyCons(a, k);
    }
  }

  /** `array_search` finds nothing exactly when no value matches, and otherwise the
      key of the first match. */
  lemma {:induction false} SearchSpec(m: seq<(string, string)>, v: string)
    ensures Search(m, v).None? <==> forall i :: 0 <= i < |m| ==> m[i].1 != v
    ensures Search(m, v).Some? ==> exists i :: FirstValueAt(m, v, i) && m[i].0 == Search(m, v).value
    decreases |m|
  {
    if m != [] {
      if m[0].1 == v {
        assert FirstValueAt(m, v, 0);
      } else {
        SearchSpec(m[1..], v);
        assert forall i :: 0 < i < |m| ==> m[i] == m[1..][i - 1];
        if Search(m[1..], v).Some? {
          var i :| FirstValueAt(m[1..], v, i) && m[1..][i].0 == Search(m[1..], v).value;
          assert FirstValueAt(m, v, i + 1);
        }
      }
    }
  }

  /** Searching `a + b` finds `a`'s first match before anything in `b`. */
  lemma {:induction false} AppendSearch(a: seq<(string, string)>, b: seq<(string, string)>, v: string)
    requires Search(a, v).Some?
    ensures Search(a + b, v) == Search(a, v)
  {
    if a[0].1 != v {
      assert (a + b)[1..] == a[1..] + b;
      AppendSearch(a[1..], b, v);
    }
  }

  /** After `$m[$k] = $v`, reading `k` gives `v`; other keys read as before. */
  lemma {:induction false} PutGet<V>(m: seq<(string, V)>, k: string, v: V, k': string)
    ensures Get(Put(m, k, v), k') == if k' == k then Some(v) else Get(m, k')
  {
    if m != [] && m[0].0 != k {
      PutGet(m[1..], k, v, k');
    }
  }

  /** `$m[$k] = $v` on an absent key appends; on a present key it keeps the keys in order. */
  lemma {:induction false} PutShape<V>(m: seq<(string, V)>, k: string, v: V)
    ensures !HasKey(m, k) ==> Put(m, k, v) == m + [(k, v)]
    ensures HasKey(m, k) ==> |Put(m, k, v)| == |m| && forall i :: 0 <= i < |m| ==> Put(m, k, v)[i].0 == m[i].0
  {
    if m != [] {
      HasKeyCons(m, k);
      if m[0].0 != k {
        PutShape(m[1..], k, v);
        assert forall i :: 0 < i < |m| ==> Put(m, k, v)[i] == Put(m[1..], k, v)[i - 1];
      }
    }
  }

  /** The keys after `$m[$k] = $v` are the old keys and `k`. */
  lemma {:induction false} PutHasKey<V>(m: seq<(string, V)>, k: string, v: V, k': string)
    ensures HasKey(Put(m, k, v), k') <==> k' == k || HasKey(m, k')
  {
    PutGet(m, k, v, k');
    GetSomeIffHasKey(Put(m, k, v), k');
    GetSomeIffHasKey(m, k');
  }

  /** `$m[$k] = $v` never introduces a repeated key. */
  lemma {:induction false} PutDistinct<V>(m: seq<(string, V)>, k: string, v: V)
    requires DistinctKeys(m)
    ensures DistinctKeys(Put(m, k, v))
  {
    if m != [] {
      DistinctKeysCons(m);
      if m[0].0 == k {
        DistinctKeysCons(Put(m, k, v));
      } else {
        PutDistinct(m[1..], k, v);
        PutHasKey(m[1..], k, v, m[0].0);
        assert Put(m, k, v)[1..] == Put(m[1..], k, v);
        DistinctKeysCons(Put(m, k, v));
      }
    }
  }

  /** Overwriting the last entry of an array whose other keys differ replaces it in place. */
  lemma {:induction false} PutLast<V>(m: seq<(string, V)>, k: string, old_v: V, v: V)
    requires !HasKey(m, k)
    ensures Put(m + [(k, old_v)], k, v) == m + [(k, v)]
  {
    if m != [] {
      HasKeyCons(m, k);
      assert (m + [(k, old_v)])[1..] == m[1..] + [(k, old_v)];
      PutLast(m[1..], k, old_v, v);
    }
  }

  /** `array_merge` with an array without repeated keys: its entries win, all others stay. */
  lemma {:induction false} MergeGet<V>(a: seq<(string, V)>, b: seq<(string, V)>, k: string)
    requires DistinctKeys(b)
    ensures Get(Merge(a, b), k) == if HasKey(b, k) then Get(b, k) else Get(a, k)
    decreases |b|
  {
    if b != [] {
      DistinctKeysCons(b);
      HasKeyCons(b, k);
      MergeGet(Put(a, b[0].0, b[0].1), b[1..], k);
      PutGet(a, b[0].0, b[0].1, k);
    }
  }

  /** `array_merge` keeps every key of `a` at its position and adds no repeated key. */
  lemma {:induction false} MergeKeepsPositions<V>(a: seq<(string, V)>, b: seq<(string, V)>)
    ensures |Merge(a, b)| >= |a| && forall i :: 0 <= i < |a| ==> Merge(a, b)[i].0 == a[i].0
    ensures DistinctKeys(a) ==> DistinctKeys(Merge(a, b))
    decreases |b|
  {
    if b != [] {
      var a' := Put(a, b[0].0, b[0].1);
      PutShape(a, b[0].0, b[0].1);
      MergeKeepsPositions(a', b[1..]);
      if DistinctKeys(a) { PutDistinct(a, b[0].0, b[0].1); }
    }
  }

  lemma KeysIntersectCons<V>(a: seq<(string, V)>, b: seq<(string, V)>)
    requires b != [] && DistinctKeys(b) && !KeysIntersect(a, b)
    ensures !HasKey(a, b[0].0) && !KeysIntersect(a + [b[0]], b[1..])
  {
    forall i | 0 <= i < |a| ensures a[i].0 != b[0].0 {
      assert 0 <= 0 < |b|;
    }
    forall i, j | 0 <= i < |a + [b[0]]| && 0 <= j < |b[1..]|
      ensures (a + [b[0]])[i].0 != b[1..][j].0
    {
      assert b[1..][j] == b[j + 1];
      if i < |a| { assert (a + [b[0]])[i] == a[i]; }
    }
  }

  /** On disjoint keys, `array_merge` is concatenation. */
  lemma {:induction false} MergeDisjoint<V>(a: seq<(string, V)>, b: seq<(string, V)>)
    requires DistinctKeys(b) && !KeysIntersect(a, b)
    ensures Merge(a, b) == a + b
    decreases |b|
  {
    if b != [] {
      KeysIntersectCons(a, b);
      DistinctKeysCons(b);
      PutShape(a, b[0].0, b[0].1);
      MergeDisjoint(a + [b[0]], b[1..]);
      assert a + b == (a + [b[0]]) + b[1..];
    }
  }

  /** On disjoint keys, `+` is concatenation. */
  lemma {:induction false} UnionDisjoint<V>(a: seq<(string, V)>, b: seq<(string, V)>)
    requires DistinctKeys(b) && !KeysIntersect(a, b)
    ensures Union(a, b) == a + b
    decreases |b|
  {
    if b != [] {
      KeysIntersectCons(a, b);
      DistinctKeysCons(b);
      UnionDisjoint(a + [b[0]], b[1..]);
      assert a + b == (a + [b[0]]) + b[1..];
    }
  }

  /** `unset($m[$k])` removes the key and leaves every other lookup as it was. */
  lemma {:induction false} RemoveGet<V>(m: seq<(string, V)>, k: string)
    ensures !HasKey(Remove(m, k), k)
    ensures forall k' :: k' != k ==> Get(Remove(m, k), k') == Get(m, k')
  {
    if m != [] {
      RemoveGet(m[1..], k);
      if m[0].0 != k {
        var r := Remove(m, k);
        assert r[0] == m[0] && r[1..] == Remove(m[1..], k);
        HasKeyCons(r, k);
      }
    }
  }

  /** Without the key, `unset` changes nothing. */
  lemma {:induction false} RemoveAbsent<V>(m: seq<(string, V)>, k: string)
    requires !HasKey(m, k)
    ensures Remove(m, k) == m
  {
    if m != [] {
      HasKeyCons(m, k);
      RemoveAbsent(m[1..], k);
      assert [m[0]] + m[1..] == m;
    }
  }

  /** `unset` keeps the keys distinct. */
  lemma {:induction false} RemoveDistinct<V>(m: seq<(string, V)>, k: string)
    requires DistinctKeys(m)
    ensures DistinctKeys(Remove(m, k))
  {
    if m != [] {
      DistinctKeysCons(m);
      RemoveDistinct(m[1..], k);
      if m[0].0 != k {
        var r := Remove(m, k);
        assert r[0] == m[0] && r[1..] == Remove(m[1..], k);
        RemoveGet(m[1..], k);
        GetSomeIffHasKey(Remove(m[1..], k), m[0].0);
        GetSomeIffHasKey(m[1..], m[0].0);
        DistinctKeysCons(r);
      }
    }
  }

  /** Everything `unset` promises, together. */
  lemma RemoveSpec<V>(m: seq<(string, V)>, k: string)
    ensures !HasKey(Remove(m, k), k)
    ensures forall k' :: k' != k ==> Get(Remove(m, k), k') == Get(m, k')
    ensures !HasKey(m, k) ==> Remove(m, k) == m
    ensures DistinctKeys(m) ==> DistinctKeys(Remove(m, k))
  {
    RemoveGet(m, k);
    if !HasKey(m, k) {
      RemoveAbsent(m, k);
    }
    if DistinctKeys(m) {
      RemoveDistinct(m, k);
    }
  }
}
