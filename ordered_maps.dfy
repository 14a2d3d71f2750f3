/** Python dicts with string keys, as the source uses them: entries kept in
    insertion order. `d[k] = v` replaces the value of a present key where it
    stands and appends an absent one; `del d[k]` drops the key. */
module OrderedMaps {
  import opened Wrappers

  type OMap<V> = seq<(string, V)>

  /** No key is listed twice, as in every dict. */
  ghost predicate UniqueKeys<V>(m: OMap<V>) {
    forall i, j :: 0 <= i < j < |m| ==> m[i].0 != m[j].0
  }

  /** `d.keys()` as a set. */
  function KeySet<V>(m: OMap<V>): (ks: set<string>)
    ensures forall i :: 0 <= i < |m| ==> m[i].0 in ks
  {
    if m == [] then {}
    else
      assert forall i :: 0 < i < |m| ==> m[i] == m[1..][i - 1];
      {m[0].0} + KeySet(m[1..])
  }

  /** Every key in `d.keys()` is the key of some entry. */
  lemma {:induction false} KeySetIndex<V>(m: OMap<V>, k: string)
    requires k in KeySet(m)
    ensures exists i :: 0 <= i < |m| && m[i].0 == k
  {
    if m[0].0 != k {
      KeySetIndex(m[1..], k);
      var i :| 0 <= i < |m[1..]| && m[1..][i].0 == k;
      assert m[i + 1].0 == k;
    }
  }

  /** A key no entry has is not in `d.keys()`. */
  lemma {:induction false} KeySetAbsent<V>(m: OMap<V>, k: string)
    requires forall i :: 0 <= i < |m| ==> m[i].0 != k
    ensures k !in KeySet(m)
  {
    if m != [] {
      assert forall i :: 0 <= i < |m| - 1 ==> m[1..][i] == m[i + 1];
      KeySetAbsent(m[1..], k);
    }
  }

  /** `d.get(k)`: the value stored under `k`, if any. */
  function Get<V>(m: OMap<V>, k: string): (r: Option<V>)
    ensures r.Some? <==> k in KeySet(m)
  {
    if m == [] then None
    else if m[0].0 == k then Some(m[0].1)
    else Get(m[1..], k)
  }

  /** Appending an entry adds its key. */
  lemma {:induction false} KeySetSnoc<V>(m: OMap<V>, x: (string, V))
    ensures KeySet(m + [x]) == KeySet(m) + {x.0}
  {
    if m != [] {
      assert (m + [x])[1..] == m[1..] + [x];
      KeySetSnoc(m[1..], x);
    }
  }

  /** Looking up a key after an appended entry: the earlier entries win. */
  lemma {:induction false} GetSnoc<V>(m: OMap<V>, x: (string, V), k: string)
    ensures Get(m + [x], k) ==
              if k in KeySet(m) then Get(m, k) else if x.0 == k then Some(x.1) else None
  {
    if m != [] && m[0].0 != k {
      assert (m + [x])[1..] == m[1..] + [x];
      GetSnoc(m[1..], x, k);
    }
  }

  /** A key `d.get` finds is stored with the value it returns. */
  lemma {:induction false} GetEntry<V>(m: OMap<V>, k: string)
    requires Get(m, k).Some?
    ensures (k, Get(m, k).value) in m
  {
    if m[0].0 != k {
      GetEntry(m[1..], k);
      assert forall e :: e in m[1..] ==> e in m;
    }
  }

  /** `d.get(k, d0)`. */
  function GetOr<V>(m: OMap<V>, k: string, d0: V): (r: V)
    ensures k !in KeySet(m) ==> r == d0
    ensures k in KeySet(m) ==> Some(r) == Get(m, k)
  {
    match Get(m, k)
    case Some(v) => v
    case None => d0
  }

  /** A dict with unique keys is its first entry in front of a dict with
      unique keys that lacks the first key, and conversely. */
  lemma UniqueCons<V>(x: (string, V), m: OMap<V>)
    ensures UniqueKeys([x] + m) <==> UniqueKeys(m) && x.0 !in KeySet(m)
  {
    var xm := [x] + m;
    assert forall i :: 0 < i < |xm| ==> xm[i] == m[i - 1];
    if UniqueKeys(xm) {
      forall i, j | 0 <= i < j < |m|
        ensures m[i].0 != m[j].0
      {
        assert xm[i + 1].0 != xm[j + 1].0;
      }
      forall i | 0 <= i < |m|
        ensures m[i].0 != x.0
      {
        assert xm[0].0 != xm[i + 1].0;
      }
    }
  }

  /** The value of a key in a dict with unique keys is the one its entry holds. */
  lemma {:induction false} GetUnique<V>(m: OMap<V>, i: nat)
    requires UniqueKeys(m) && i < |m|
    ensures Get(m, m[i].0) == Some(m[i].1)
  {
    if i > 0 {
      assert m[0].0 != m[i].0;
      assert m == [m[0]] + m[1..];
      UniqueCons(m[0], m[1..]);
      GetUnique(m[1..], i - 1);
    }
  }

  /** Dropping the last entry of a dict with unique keys leaves one with
      unique keys that lacks the dropped key. */
  lemma UniqueInit<V>(m: OMap<V>)
    requires UniqueKeys(m) && m != []
    ensures UniqueKeys(m[..|m| - 1]) && m[|m| - 1].0 !in KeySet(m[..|m| - 1])
    ensures m == m[..|m| - 1] + [m[|m| - 1]]
  {
    var init := m[..|m| - 1];
    forall i | 0 <= i < |init|
      ensures init[i].0 != m[|m| - 1].0
    {
      assert m[i].0 != m[|m| - 1].0;
    }
    KeySetAbsent(init, m[|m| - 1].0);
  }

  /** `d[k] = v`. */
  function Put<V>(m: OMap<V>, k: string, v: V): (r: OMap<V>)
    ensures Get(r, k) == Some(v)
    ensures forall k' :: k' != k ==> Get(r, k') == Get(m, k')
    ensures KeySet(r) == KeySet(m) + {k}
    ensures k !in KeySet(m) ==> r == m + [(k, v)]
  {
    if m == [] then [(k, v)]
    else if m[0].0 == k then [(k, v)] + m[1..]
    else [m[0]] + Put(m[1..], k, v)
  }

  /** `d[k] = v` on a present key changes no key and no position. */
  lemma {:induction false} PutInPlace<V>(m: OMap<V>, k: string, v: V)
    requires k in KeySet(m)
    ensures |Put(m, k, v)| == |m|
    ensures forall i :: 0 <= i < |m| ==> Put(m, k, v)[i].0 == m[i].0
  {
    if m[0].0 != k {
      PutInPlace(m[1..], k, v);
    }
  }

  /** `d[k] = v` keeps the keys unique. */
  lemma {:induction false} PutUnique<V>(m: OMap<V>, k: string, v: V)
    requires UniqueKeys(m)
    ensures UniqueKeys(Put(m, k, v))
  {
    if m != [] {
      assert m == [m[0]] + m[1..];
      UniqueCons(m[0], m[1..]);
      if m[0].0 == k {
        UniqueCons((k, v), m[1..]);
      } else {
        PutUnique(m[1..], k, v);
        UniqueCons(m[0], Put(m[1..], k, v));
      }
    }
  }

  /** After `d[k] = v` every entry is the new one or an entry of before. */
  lemma {:induction false} PutEntries<V>(m: OMap<V>, k: string, v: V)
    ensures forall e :: e in Put(m, k, v) ==> e == (k, v) || e in m
  {
    if m != [] && m[0].0 != k {
      PutEntries(m[1..], k, v);
      assert forall e :: e in m[1..] ==> e in m;
    }
  }

  /** `del d[k]`: the entries of other keys stay, in their order. */
  function Remove<V>(m: OMap<V>, k: string): (r: OMap<V>)
    ensures Get(r, k) == None
    ensures forall k' :: k' != k ==> Get(r, k') == Get(m, k')
    ensures KeySet(r) == KeySet(m) - {k}
    ensures k !in KeySet(m) ==> r == m
  {
    if m == [] then []
    else if m[0].0 == k then Remove(m[1..], k)
    else [m[0]] + Remove(m[1..], k)
  }

  /** In a dict, `del d[k]` cuts the one entry of `k` out and leaves the
      others in insertion order. */
  lemma {:induction false} RemoveKeepsOrder<V>(m: OMap<V>, k: string)
    requires UniqueKeys(m) && k in KeySet(m)
    ensures exists i :: 0 <= i < |m| && m[i].0 == k && Remove(m, k) == m[..i] + m[i + 1..]
  {
    assert m == [m[0]] + m[1..];
    UniqueCons(m[0], m[1..]);
    if m[0].0 == k {
      assert Remove(m, k) == m[..0] + m[0 + 1..];
    } else {
      RemoveKeepsOrder(m[1..], k);
      var j :| 0 <= j < |m| - 1 && m[1..][j].0 == k && Remove(m[1..], k) == m[1..][..j] + m[1..][j + 1..];
      CutCons(m, j);
      assert m[j + 1].0 == k && Remove(m, k) == m[..j + 1] + m[j + 1 + 1..];
    }
  }

  /** Cutting entry `j` out of the tail is cutting entry `j + 1` out of the
      whole. */
  lemma CutCons<V>(m: OMap<V>, j: nat)
    requires j + 1 < |m|
    ensures [m[0]] + (m[1..][..j] + m[1..][j + 1..]) == m[..j + 1] + m[j + 2..]
    ensures m[1..][j] == m[j + 1]
  {
    assert m[..j + 1] == [m[0]] + m[1..][..j];
    assert m[j + 2..] == m[1..][j + 1..];
  }

  /** After `del d[k]` every entry is an entry of before. */
  lemma {:induction false} RemoveEntries<V>(m: OMap<V>, k: string)
    ensures forall e :: e in Remove(m, k) ==> e in m
  {
    if m != [] {
      RemoveEntries(m[1..], k);
      assert forall e :: e in m[1..] ==> e in m;
    }
  }

  /** `del d[k]` keeps the keys unique. */
  lemma {:induction false} RemoveUnique<V>(m: OMap<V>, k: string)
    requires UniqueKeys(m)
    ensures UniqueKeys(Remove(m, k))
  {
    if m != [] {
      assert m == [m[0]] + m[1..];
      UniqueCons(m[0], m[1..]);
      RemoveUnique(m[1..], k);
      if m[0].0 != k {
        UniqueCons(m[0], Remove(m[1..], k));
      }
    }
  }

  /** Writing back the value a key already holds changes nothing. */
  lemma {:induction false} PutExisting<V>(m: OMap<V>, k: string)
    requires k in KeySet(m)
    ensures Put(m, k, Get(m, k).value) == m
  {
    if m[0].0 != k {
      PutExisting(m[1..], k);
      assert m == [m[0]] + m[1..];
    }
  }

  /** Writing a key twice is writing it once with the later value. */
  lemma {:induction false} PutPut<V>(m: OMap<V>, k: string, v1: V, v2: V)
    ensures Put(Put(m, k, v1), k, v2) == Put(m, k, v2)
  {
    if m != [] && m[0].0 != k {
      PutPut(m[1..], k, v1, v2);
      assert Put(m, k, v1)[1..] == Put(m[1..], k, v1);
    }
  }

  /** The sum of the values, `sum(d.values())`. */
  function SumValues(m: OMap<int>): int {
    if m == [] then 0 else m[0].1 + SumValues(m[1..])
  }

  lemma {:induction false} SumSnoc(m: OMap<int>, x: (string, int))
    ensures SumValues(m + [x]) == SumValues(m) + x.1
  {
    if m != [] {
      assert (m + [x])[1..] == m[1..] + [x];
      SumSnoc(m[1..], x);
    }
  }

  /** `d[k] = v` changes the sum by the difference between the new value and
      the old one (zero for a key that was absent). */
  lemma {:induction false} SumPut(m: OMap<int>, k: string, v: int)
    ensures SumValues(Put(m, k, v)) == SumValues(m) - GetOr(m, k, 0) + v
  {
    if m != [] && m[0].0 != k {
      SumPut(m[1..], k, v);
      assert Put(m, k, v)[1..] == Put(m[1..], k, v);
    }
  }
}
