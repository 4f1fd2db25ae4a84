/** `std::map<TfToken, T>`: an association list kept in ascending key
    order, so that `begin()` is the entry with the least key. Keys compare
    character by character. */
module TokenMap {
  import opened Wrappers

  /** Lexicographic order on strings. */
  predicate Less(a: string, b: string)
    decreases |a|
  {
    if |a| == 0 then |b| > 0
    else if |b| == 0 then false
    else if a[0] < b[0] then true
    else a[0] == b[0] && Less(a[1..], b[1..])
  }

  lemma {:induction false} LessIrreflexive(a: string)
    ensures !Less(a, a)
    decreases |a|
  {
    if |a| > 0 {
      LessIrreflexive(a[1..]);
    }
  }

  lemma {:induction false} LessTotal(a: string, b: string)
    requires a != b
    ensures Less(a, b) || Less(b, a)
    decreases |a|
  {
    if |a| > 0 && |b| > 0 && a[0] == b[0] {
      assert a == [a[0]] + a[1..] && b == [b[0]] + b[1..];
      LessTotal(a[1..], b[1..]);
    }
  }

  lemma {:induction false} LessTransitive(a: string, b: string, c: string)
    requires Less(a, b) && Less(b, c)
    ensures Less(a, c)
    decreases |a|
  {
    if |a| > 0 && a[0] == b[0] && b[0] == c[0] {
      LessTransitive(a[1..], b[1..], c[1..]);
    }
  }

  datatype Entry<V> = Entry(key: string, value: V)

  predicate Sorted<V(==)>(m: seq<Entry<V>>) {
    forall i, j :: 0 <= i < j < |m| ==> Less(m[i].key, m[j].key)
  }

  function Keys<V(==)>(m: seq<Entry<V>>): set<string> {
    set e | e in m :: e.key
  }

  function Find<V(==)>(m: seq<Entry<V>>, k: string): (r: Option<V>)
    ensures r.None? <==> k !in Keys(m)
    ensures r.Some? ==> Entry(k, r.value) in m
  {
    if |m| == 0 then None
    else if m[0].key == k then Some(m[0].value)
    else
      var r := Find(m[1..], k);
      KeysUncons(m);
      r
  }

  /** In a sorted map a key occurs once, so `Find` returns its only value. */
  lemma {:induction false} FindUnique<V>(m: seq<Entry<V>>, i: int)
    requires Sorted(m) && 0 <= i < |m|
    ensures Find(m, m[i].key) == Some(m[i].value)
  {
    if i > 0 {
      if m[0].key == m[i].key {
        LessIrreflexive(m[0].key);
        assert false;
      }
      FindUnique(m[1..], i - 1);
    }
  }

  /** `operator[]` assignment and `emplace` after a miss: the entry for `k`
      is replaced in place, or a new one is inserted in key order. */
  function Insert<V(==)>(m: seq<Entry<V>>, k: string, v: V): (r: seq<Entry<V>>)
    ensures Keys(r) == Keys(m) + {k}
    ensures Find(r, k) == Some(v)
    ensures forall k' :: k' != k ==> Find(r, k') == Find(m, k')
    ensures |r| > 0
  {
    if |m| == 0 then [Entry(k, v)]
    else if m[0].key == k then
      var r := [Entry(k, v)] + m[1..];
      assert r[1..] == m[1..];
      KeysUncons(m);
      KeysUncons(r);
      r
    else if Less(k, m[0].key) then
      var r := [Entry(k, v)] + m;
      assert r[1..] == m;
      KeysUncons(r);
      r
    else
      var rest := Insert(m[1..], k, v);
      var r := [m[0]] + rest;
      assert r[1..] == rest;
      KeysUncons(m);
      KeysUncons(r);
      r
  }

  /** Insertion keeps the map in key order. */
  lemma {:induction false} InsertKeepsSorted<V>(m: seq<Entry<V>>, k: string, v: V)
    requires Sorted(m)
    ensures Sorted(Insert(m, k, v))
  {
    if |m| == 0 {
    } else if m[0].key == k {
      var r := Insert(m, k, v);
      assert forall j :: 0 < j < |r| ==> r[j] == m[j];
    } else if Less(k, m[0].key) {
      forall j | 0 <= j < |m|
        ensures Less(k, m[j].key)
      {
        if j > 0 {
          LessTransitive(k, m[0].key, m[j].key);
        }
      }
      AllAbove(m, k);
      PrependKeepsSorted(m, Entry(k, v));
    } else {
      InsertKeepsSorted(m[1..], k, v);
      LessTotal(k, m[0].key);
      KeysUncons(m);
      AllAbove(m[1..], m[0].key);
      PrependKeepsSorted(Insert(m[1..], k, v), m[0]);
    }
  }

  /** Every key of a sorted tail lies above the head's key. */
  lemma AllAbove<V>(tail: seq<Entry<V>>, low: string)
    requires forall j :: 0 <= j < |tail| ==> Less(low, tail[j].key)
    ensures forall key :: key in Keys(tail) ==> Less(low, key)
  {
    forall key | key in Keys(tail)
      ensures Less(low, key)
    {
      var e :| e in tail && e.key == key;
      var t :| 0 <= t < |tail| && tail[t] == e;
    }
  }

  lemma PrependKeepsSorted<V>(m: seq<Entry<V>>, e: Entry<V>)
    requires Sorted(m)
    requires forall key :: key in Keys(m) ==> Less(e.key, key)
    ensures Sorted([e] + m)
  {
    var r := [e] + m;
    forall i, j | 0 <= i < j < |r|
      ensures Less(r[i].key, r[j].key)
    {
      if i == 0 {
        assert r[j] == m[j - 1] && m[j - 1] in m;
      } else {
        assert r[i] == m[i - 1] && r[j] == m[j - 1];
      }
    }
  }

  /** Inserting a key absent from the map adds exactly one entry. */
  lemma {:induction false} InsertLength<V>(m: seq<Entry<V>>, k: string, v: V)
    requires Sorted(m)
    ensures |Insert(m, k, v)| == if k in Keys(m) then |m| else |m| + 1
  {
    if |m| > 0 {
      KeysUncons(m);
      if Less(k, m[0].key) {
        FindAbsentWhenBelow(m, k);
      } else if m[0].key != k {
        InsertLength(m[1..], k, v);
      }
    }
  }

  lemma KeysUncons<V>(m: seq<Entry<V>>)
    requires |m| > 0
    ensures Keys(m) == {m[0].key} + Keys(m[1..])
  {
    assert forall e :: e in m <==> e == m[0] || e in m[1..];
  }

  lemma FindAbsentWhenBelow<V>(m: seq<Entry<V>>, k: string)
    requires Sorted(m) && |m| > 0 && Less(k, m[0].key)
    ensures k !in Keys(m)
  {
    if k in Keys(m) {
      var e :| e in m && e.key == k;
      var t :| 0 <= t < |m| && m[t] == e;
      if t == 0 {
        LessIrreflexive(k);
      } else {
        LessTransitive(k, m[0].key, m[t].key);
        LessIrreflexive(k);
      }
    }
  }

  /** `emplace`: an existing entry is kept. */
  function Emplace<V(==)>(m: seq<Entry<V>>, k: string, v: V): (r: seq<Entry<V>>)
    ensures k in Keys(m) ==> r == m
    ensures k !in Keys(m) ==> Find(r, k) == Some(v) && Keys(r) == Keys(m) + {k}
    ensures forall k' :: k' != k ==> Find(r, k') == Find(m, k')
  {
    if k in Keys(m) then m else Insert(m, k, v)
  }

  /** The first entry of a sorted map has the least key. */
  lemma FirstIsLeast<V>(m: seq<Entry<V>>)
    requires Sorted(m) && |m| > 0
    ensures forall k :: k in Keys(m) && k != m[0].key ==> Less(m[0].key, k)
  {
    forall k | k in Keys(m) && k != m[0].key
      ensures Less(m[0].key, k)
    {
      var e :| e in m && e.key == k;
      var t :| 0 <= t < |m| && m[t] == e;
    }
  }
}
