/** The ordering of `order_by` (main.py:202-210): a leading `-` asks for
    descending order, the records are sorted by the field's value with
    Python's stable `sorted`, and a record lacking the field raises. */
module Ordering {
  import opened Values

  /** `s.replace(c, '')`: every occurrence of `c` removed, every other
      character kept in order. */
  function RemoveAll(s: string, c: char): (r: string)
    ensures c !in r
    ensures |r| == |s| - multiset(s)[c]
    ensures IsSubsequence(r, s)
    ensures c !in s ==> r == s
  {
    if s == [] then []
    else
      var rest := RemoveAll(s[1..], c);
      assert s == [s[0]] + s[1..];
      assert multiset(s) == multiset{s[0]} + multiset(s[1..]);
      if s[0] == c then
        SubsequenceCons(rest, s[1..], s[0]);
        rest
      else
        assert ([s[0]] + rest)[1..] == rest;
        [s[0]] + rest
  }

  /** The field to sort by and whether the order is descending: a field
      starting with `-` is descending and has every `-` removed. */
  function SortKey(spec: string): (r: (string, bool))
    ensures r.1 <==> spec != [] && spec[0] == '-'
    ensures r.1 ==> '-' !in r.0 && |r.0| == |spec| - multiset(spec)['-'] && IsSubsequence(r.0, spec)
    ensures !r.1 ==> r.0 == spec
  {
    if spec != [] && spec[0] == '-' then (RemoveAll(spec, '-'), true) else (spec, false)
  }

  /** A `-` in front of a field name without hyphens sorts that field in
      descending order: `-age` sorts by `age`. */
  lemma SortKeyDescending(field: string)
    requires '-' !in field
    ensures SortKey("-" + field) == (field, true)
  {
    var spec := "-" + field;
    assert spec[1..] == field;
    assert RemoveAll(spec, '-') == RemoveAll(spec[1..], '-');
  }

  /** Python's `a < b` on sort keys of the same kind. */
  predicate KeyLess(a: Value, b: Value) {
    (a.Int? && b.Int? && a.i < b.i) || (a.Str? && b.Str? && StrLess(a.s, b.s))
  }

  /** Every record has the field, and the values are all integers or all
      strings, so that any two of them can be compared. */
  predicate Comparable(rows: seq<Record>, field: string) {
    (forall i :: 0 <= i < |rows| ==> field in rows[i] && rows[i][field].Int?) ||
    (forall i :: 0 <= i < |rows| ==> field in rows[i] && rows[i][field].Str?)
  }

  predicate HasField(rows: seq<Record>, field: string) {
    forall i :: 0 <= i < |rows| ==> field in rows[i]
  }

  /** Record `a` comes strictly before record `b`: its key is smaller, or
      larger when the order is descending. */
  predicate Before(a: Record, b: Record, field: string, desc: bool)
    requires field in a && field in b
  {
    if desc then KeyLess(b[field], a[field]) else KeyLess(a[field], b[field])
  }

  predicate SameKind(a: Record, b: Record, field: string) {
    field in a && field in b &&
    ((a[field].Int? && b[field].Int?) || (a[field].Str? && b[field].Str?))
  }

  /** Insert `x` in front of the first record not strictly before it, so a
      record is never moved past one with an equal key. */
  function Insert(x: Record, s: seq<Record>, field: string, desc: bool): (r: seq<Record>)
    requires field in x && HasField(s, field)
    ensures |r| == |s| + 1 && HasField(r, field)
    ensures multiset(r) == multiset(s) + multiset{x}
  {
    if s == [] || !Before(s[0], x, field, desc) then [x] + s
    else
      var rest := Insert(x, s[1..], field, desc);
      assert s == [s[0]] + s[1..];
      [s[0]] + rest
  }

  /** `sorted(rows, key=lambda d: d[field], reverse=desc)`, as a stable
      insertion sort. */
  function SortBy(rows: seq<Record>, field: string, desc: bool): (r: seq<Record>)
    requires HasField(rows, field)
    ensures |r| == |rows| && HasField(r, field)
    ensures multiset(r) == multiset(rows)
  {
    if rows == [] then []
    else
      assert rows == [rows[0]] + rows[1..];
      Insert(rows[0], SortBy(rows[1..], field, desc), field, desc)
  }

  /** The sort step of `order_by(spec)`: a record lacking the field raises
      KeyError; keys that cannot be compared raise TypeError (comparisons
      happen only with two or more records); otherwise the sorted records. */
  function OrderRows(rows: seq<Record>, spec: string): (r: Result<seq<Record>>) {
    var (field, desc) := SortKey(spec);
    if !HasField(rows, field) then Err(KeyError(field))
    else if |rows| >= 2 && !Comparable(rows, field) then Err(TypeMismatch)
    else Ok(SortBy(rows, field, desc))
  }

  /** In sorted order no record is strictly before an earlier one. */
  predicate SortedBy(s: seq<Record>, field: string, desc: bool)
    requires HasField(s, field)
  {
    forall i, j :: 0 <= i < j < |s| ==> !Before(s[j], s[i], field, desc)
  }

  /** The records whose key equals `k`, in order. */
  function WithKey(s: seq<Record>, field: string, k: Value): seq<Record> {
    if s == [] then []
    else (if field in s[0] && s[0][field] == k then [s[0]] else []) + WithKey(s[1..], field, k)
  }

  /** "Not strictly before" is transitive for keys of one kind. */
  lemma NotBeforeTransitive(a: Record, b: Record, c: Record, field: string, desc: bool)
    requires SameKind(a, b, field) && SameKind(b, c, field)
    requires !Before(b, a, field, desc) && !Before(c, b, field, desc)
    ensures !Before(c, a, field, desc)
  {
    if a[field].Str? {
      if desc {
        StrNotLessTransitive(c[field].s, b[field].s, a[field].s);
      } else {
        StrNotLessTransitive(a[field].s, b[field].s, c[field].s);
      }
    }
  }

  /** Of two records with keys of one kind, if one is strictly before the
      other, the other is not strictly before the first. */
  lemma BeforeAsymmetric(a: Record, b: Record, field: string, desc: bool)
    requires SameKind(a, b, field) && Before(a, b, field, desc)
    ensures !Before(b, a, field, desc)
  {
    if a[field].Str? {
      if desc {
        StrLessAsymmetric(b[field].s, a[field].s);
      } else {
        StrLessAsymmetric(a[field].s, b[field].s);
      }
    }
  }

  /** A record strictly before another has a different key. */
  lemma BeforeDistinct(a: Record, b: Record, field: string, desc: bool)
    requires field in a && field in b && Before(a, b, field, desc)
    ensures a[field] != b[field]
  {
    if a[field] == b[field] && a[field].Str? {
      StrLessIrreflexive(a[field].s);
    }
  }

  predicate AllSameKind(s: seq<Record>, x: Record, field: string) {
    forall i :: 0 <= i < |s| ==> SameKind(s[i], x, field)
  }

  /** Every record of `Insert(x, s)` is `x` or a record of `s`. */
  lemma InsertElems(x: Record, s: seq<Record>, field: string, desc: bool)
    requires field in x && HasField(s, field)
    ensures forall y :: y in Insert(x, s, field, desc) ==> y == x || y in s
  {
    var r := Insert(x, s, field, desc);
    forall y | y in r
      ensures y == x || y in s
    {
      assert y in multiset(r);
    }
  }

  /** Inserting into a sorted list of keys of one kind keeps it sorted. */
  lemma {:induction false} InsertSorted(x: Record, s: seq<Record>, field: string, desc: bool)
    requires SameKind(x, x, field) && HasField(s, field) && AllSameKind(s, x, field)
    requires SortedBy(s, field, desc)
    ensures SortedBy(Insert(x, s, field, desc), field, desc)
    decreases |s|, 1
  {
    if s == [] {
    } else if !Before(s[0], x, field, desc) {
      forall j | 1 <= j < |s|
        ensures !Before(s[j], x, field, desc)
      {
        NotBeforeTransitive(x, s[0], s[j], field, desc);
      }
      SortedCons(x, s, field, desc);
    } else {
      InsertSortedLater(x, s, field, desc);
    }
  }

  /** The case of `InsertSorted` where `x` goes after the first record. */
  lemma {:induction false} InsertSortedLater(x: Record, s: seq<Record>, field: string, desc: bool)
    requires SameKind(x, x, field) && HasField(s, field) && AllSameKind(s, x, field)
    requires SortedBy(s, field, desc)
    requires s != [] && Before(s[0], x, field, desc)
    ensures SortedBy(Insert(x, s, field, desc), field, desc)
    decreases |s|, 0
  {
    var tail := s[1..];
    assert forall i :: 0 <= i < |tail| ==> tail[i] == s[i + 1];
    InsertSorted(x, tail, field, desc);
    var rest := Insert(x, tail, field, desc);
    BeforeAsymmetric(s[0], x, field, desc);
    InsertElems(x, tail, field, desc);
    forall j | 0 <= j < |rest|
      ensures !Before(rest[j], s[0], field, desc)
    {
      if rest[j] != x {
        assert rest[j] in rest;
        assert rest[j] in tail;
        var k :| 0 <= k < |tail| && tail[k] == rest[j];
        assert s[k + 1] == rest[j];
      }
    }
    SortedCons(s[0], rest, field, desc);
  }

  /** Putting a record in front of a sorted list that it does not come
      after keeps the list sorted. */
  lemma SortedCons(x: Record, s: seq<Record>, field: string, desc: bool)
    requires field in x && HasField(s, field) && SortedBy(s, field, desc)
    requires forall j :: 0 <= j < |s| ==> !Before(s[j], x, field, desc)
    ensures HasField([x] + s, field) && SortedBy([x] + s, field, desc)
  {
    var r := [x] + s;
    forall i, j | 0 <= i < j < |r|
      ensures !Before(r[j], r[i], field, desc)
    {
      assert r[j] == s[j - 1];
      if i > 0 {
        assert r[i] == s[i - 1];
      }
    }
  }

  /** The sorted records are in order. */
  lemma {:induction false} SortBySorted(rows: seq<Record>, field: string, desc: bool)
    requires HasField(rows, field) && Comparable(rows, field)
    ensures SortedBy(SortBy(rows, field, desc), field, desc)
  {
    if |rows| == 1 {
      assert SortBy(rows, field, desc) == [rows[0]];
    } else if |rows| > 1 {
      var tail := rows[1..];
      assert forall i :: 0 <= i < |tail| ==> tail[i] == rows[i + 1];
      SortBySorted(tail, field, desc);
      var s := SortBy(tail, field, desc);
      forall i | 0 <= i < |s|
        ensures SameKind(s[i], rows[0], field)
      {
        assert s[i] in multiset(tail);
        var k :| 0 <= k < |tail| && tail[k] == s[i];
      }
      InsertSorted(rows[0], s, field, desc);
    }
  }

  lemma WithKeyCons(y: Record, t: seq<Record>, field: string, k: Value)
    ensures WithKey([y] + t, field, k) == (if field in y && y[field] == k then [y] else []) + WithKey(t, field, k)
  {
    assert ([y] + t)[1..] == t;
  }

  /** Inserting `x` puts it in front of every record with the same key. */
  lemma {:induction false} InsertWithKey(x: Record, s: seq<Record>, field: string, desc: bool, k: Value)
    requires field in x && HasField(s, field)
    ensures WithKey(Insert(x, s, field, desc), field, k) ==
      (if x[field] == k then [x] else []) + WithKey(s, field, k)
  {
    if s == [] || !Before(s[0], x, field, desc) {
      WithKeyCons(x, s, field, k);
    } else {
      var tail := s[1..];
      InsertWithKey(x, tail, field, desc, k);
      var rest := Insert(x, tail, field, desc);
      assert Insert(x, s, field, desc) == [s[0]] + rest;
      assert s == [s[0]] + tail;
      WithKeyCons(s[0], rest, field, k);
      WithKeyCons(s[0], tail, field, k);
      BeforeDistinct(s[0], x, field, desc);
      var wx: seq<Record> := if x[field] == k then [x] else [];
      var w0: seq<Record> := if s[0][field] == k then [s[0]] else [];
      assert wx == [] || w0 == [];
      AppendAssoc(w0, wx, WithKey(tail, field, k));
      AppendAssoc(wx, w0, WithKey(tail, field, k));
      assert w0 + wx == wx + w0;
    }
  }

  /** Stability: the records with any one key come out in their original
      order. */
  lemma {:induction false} SortByStable(rows: seq<Record>, field: string, desc: bool, k: Value)
    requires HasField(rows, field)
    ensures WithKey(SortBy(rows, field, desc), field, k) == WithKey(rows, field, k)
  {
    if rows != [] {
      var tail := rows[1..];
      SortByStable(tail, field, desc, k);
      InsertWithKey(rows[0], SortBy(tail, field, desc), field, desc, k);
    }
  }

  /** What `order_by` promises about its records: sorted by the field
      (descending for a `-` prefix), a rearrangement of the input, and
      stable; the two error cases are exactly a missing field and keys that
      cannot be compared. */
  lemma OrderRowsMeaning(rows: seq<Record>, spec: string)
    ensures var (field, desc) := SortKey(spec);
      OrderRows(rows, spec).Ok? ==>
        HasField(OrderRows(rows, spec).value, field) &&
        SortedBy(OrderRows(rows, spec).value, field, desc) &&
        multiset(OrderRows(rows, spec).value) == multiset(rows) &&
        forall k :: WithKey(OrderRows(rows, spec).value, field, k) == WithKey(rows, field, k)
    ensures var (field, desc) := SortKey(spec);
      OrderRows(rows, spec) == Err(KeyError(field)) <==> !HasField(rows, field)
    ensures var (field, desc) := SortKey(spec);
      OrderRows(rows, spec) == Err(TypeMismatch) <==>
        HasField(rows, field) && |rows| >= 2 && !Comparable(rows, field)
  {
    var (field, desc) := SortKey(spec);
    if OrderRows(rows, spec).Ok? && |rows| >= 2 {
      SortBySorted(rows, field, desc);
    }
    if OrderRows(rows, spec).Ok? {
      forall k {
        SortByStable(rows, field, desc, k);
      }
    }
  }

  /** In ascending order the keys do not decrease, in descending order they
      do not increase. */
  lemma SortedKeys(s: seq<Record>, field: string, desc: bool, i: nat, j: nat)
    requires HasField(s, field) && SortedBy(s, field, desc)
    requires i < j < |s| && s[i][field].Int? && s[j][field].Int?
    ensures !desc ==> s[i][field].i <= s[j][field].i
    ensures desc ==> s[i][field].i >= s[j][field].i
  {
    assert !Before(s[j], s[i], field, desc);
  }
}
