/** Filter sets: the keyword arguments of `filter` and `exclude`, a Python
    dict from lookup key to expected value, kept in insertion order because
    evaluation and the cache key both depend on that order. Merging follows
    `dict.update` (main.py:74, 116-117). */
module FilterSets {
  import opened Values

  type FilterSet = seq<(string, Value)>

  function Keys(fs: FilterSet): (ks: seq<string>)
    ensures |ks| == |fs|
    ensures forall i :: 0 <= i < |fs| ==> ks[i] == fs[i].0
  {
    if fs == [] then [] else [fs[0].0] + Keys(fs[1..])
  }

  /** No key occurs twice, as in a Python dict. */
  predicate IsDict(fs: FilterSet) {
    forall i, j :: 0 <= i < j < |fs| ==> fs[i].0 != fs[j].0
  }

  /** `fs.get(k)`: the value stored under `k`. */
  function Get(fs: FilterSet, k: string): (r: Option<Value>)
    ensures r.Some? <==> k in Keys(fs)
  {
    if fs == [] then None
    else if fs[0].0 == k then Some(fs[0].1)
    else Get(fs[1..], k)
  }

  /** `fs[k] = v`: an existing key keeps its position and takes the new
      value; a new key is appended. */
  function Update(fs: FilterSet, k: string, v: Value): (r: FilterSet) {
    if fs == [] then [(k, v)]
    else if fs[0].0 == k then [(k, v)] + fs[1..]
    else [fs[0]] + Update(fs[1..], k, v)
  }

  /** An existing key keeps its position, a new key is appended, and either
      way the key then holds `v`. */
  lemma {:induction false} UpdateSpec(fs: FilterSet, k: string, v: Value)
    ensures k in Keys(fs) ==> Keys(Update(fs, k, v)) == Keys(fs)
    ensures k !in Keys(fs) ==> Update(fs, k, v) == fs + [(k, v)]
    ensures Get(Update(fs, k, v), k) == Some(v)
  {
    if fs != [] {
      var r := Update(fs, k, v);
      assert Keys(fs) == [fs[0].0] + Keys(fs[1..]);
      if fs[0].0 == k {
        assert Keys(r) == [k] + Keys(fs[1..]);
      } else {
        UpdateSpec(fs[1..], k, v);
        var rest := Update(fs[1..], k, v);
        assert r == [fs[0]] + rest;
        assert Keys(r) == [fs[0].0] + Keys(rest);
        assert fs == [fs[0]] + fs[1..];
        if k !in Keys(fs) {
          AppendAssoc([fs[0]], fs[1..], [(k, v)]);
        }
      }
    }
  }

  lemma {:induction false} UpdateGetOther(fs: FilterSet, k: string, v: Value, k': string)
    requires k' != k
    ensures Get(Update(fs, k, v), k') == Get(fs, k')
  {
    if fs != [] && fs[0].0 != k {
      UpdateGetOther(fs[1..], k, v, k');
    }
  }

  lemma UpdateIsDict(fs: FilterSet, k: string, v: Value)
    requires IsDict(fs)
    ensures IsDict(Update(fs, k, v))
  {
    var r := Update(fs, k, v);
    UpdateSpec(fs, k, v);
    if k in Keys(fs) {
      forall i, j | 0 <= i < j < |r|
        ensures r[i].0 != r[j].0
      {
        assert r[i].0 == Keys(r)[i] == Keys(fs)[i] == fs[i].0;
        assert r[j].0 == Keys(r)[j] == Keys(fs)[j] == fs[j].0;
      }
    } else {
      forall i, j | 0 <= i < j < |r|
        ensures r[i].0 != r[j].0
      {
        assert r[i] == fs[i];
        if j == |fs| {
          assert r[j].0 == k && Keys(fs)[i] == fs[i].0;
        } else {
          assert r[j] == fs[j];
        }
      }
    }
  }

  /** `dict(fs)` followed by `.update(kw)`: the entries of `kw` are stored in
      their order over those of `fs`. */
  function Merge(fs: FilterSet, kw: FilterSet): (r: FilterSet)
    decreases |kw|
  {
    if kw == [] then fs
    else Merge(Update(fs, kw[0].0, kw[0].1), kw[1..])
  }

  /** After `fs[k] = v` the keys are those of `fs` and `k`. */
  lemma UpdateKeys(fs: FilterSet, k: string, v: Value)
    ensures forall x :: x in Keys(Update(fs, k, v)) <==> x in Keys(fs) || x == k
  {
    UpdateSpec(fs, k, v);
    if k !in Keys(fs) {
      assert Keys(Update(fs, k, v)) == Keys(fs) + [k];
    }
  }

  /** Merging into a dict gives a dict. */
  lemma {:induction false} MergeIsDict(fs: FilterSet, kw: FilterSet)
    requires IsDict(fs)
    ensures IsDict(Merge(fs, kw))
    decreases |kw|
  {
    if kw != [] {
      UpdateIsDict(fs, kw[0].0, kw[0].1);
      MergeIsDict(Update(fs, kw[0].0, kw[0].1), kw[1..]);
    }
  }

  /** Every key of a merged set comes from one of the two sets, and every
      key of either set is in it. */
  lemma {:induction false} MergeKeys(fs: FilterSet, kw: FilterSet)
    ensures forall k :: k in Keys(Merge(fs, kw)) <==> k in Keys(fs) || k in Keys(kw)
    decreases |kw|
  {
    if kw != [] {
      var fs1 := Update(fs, kw[0].0, kw[0].1);
      MergeKeys(fs1, kw[1..]);
      UpdateKeys(fs, kw[0].0, kw[0].1);
      assert Keys(kw) == [kw[0].0] + Keys(kw[1..]);
    }
  }

  /** Looking a key up in a merged set finds the value `kw` gives it, and
      otherwise the value `fs` gives it. */
  lemma {:induction false} MergeGet(fs: FilterSet, kw: FilterSet, k: string)
    requires IsDict(kw)
    ensures Get(Merge(fs, kw), k) == if k in Keys(kw) then Get(kw, k) else Get(fs, k)
    decreases |kw|
  {
    if kw != [] {
      var fs1 := Update(fs, kw[0].0, kw[0].1);
      assert IsDict(kw[1..]);
      assert Keys(kw) == [kw[0].0] + Keys(kw[1..]);
      MergeGet(fs1, kw[1..], k);
      UpdateSpec(fs, kw[0].0, kw[0].1);
      if k == kw[0].0 {
        assert k !in Keys(kw[1..]);
      } else {
        UpdateGetOther(fs, kw[0].0, kw[0].1, k);
      }
    }
  }

  /** Updating an empty set gives the keyword arguments themselves, so the
      two branches of `exclude` (main.py:73-76) agree. */
  lemma MergeIntoEmpty(kw: FilterSet)
    requires IsDict(kw)
    ensures Merge([], kw) == kw
  {
    MergeOnto([], kw);
  }

  lemma {:induction false} MergeOnto(fs: FilterSet, kw: FilterSet)
    requires IsDict(fs + kw)
    ensures Merge(fs, kw) == fs + kw
    decreases |kw|
  {
    if kw != [] {
      NextKeyIsNew(fs, kw);
      UpdateSpec(fs, kw[0].0, kw[0].1);
      assert kw == [kw[0]] + kw[1..];
      AppendAssoc(fs, [kw[0]], kw[1..]);
      MergeOnto(fs + [kw[0]], kw[1..]);
    }
  }

  lemma NextKeyIsNew(fs: FilterSet, kw: FilterSet)
    requires IsDict(fs + kw) && kw != []
    ensures kw[0].0 !in Keys(fs)
  {
    var all := fs + kw;
    assert all[|fs|] == kw[0];
    forall i | 0 <= i < |fs|
      ensures Keys(fs)[i] != kw[0].0
    {
      assert all[i] == fs[i];
    }
  }

  /** `any(kw.values())`. */
  predicate AnyTruthy(kw: FilterSet) {
    exists i :: 0 <= i < |kw| && Truthy(kw[i].1)
  }
}
