/** Exclusion, `_exclude_results` (main.py:80-94): a record is removed when
    the number of exclusion lookups equals the flag that records whether any
    of them hit it. A lookup hits a record when the record's value for the
    field is truthy and the command holds. Since the flag is 0 or 1, only a
    set of exactly one lookup ever removes anything. */
module Exclusion {
  import opened Values
  import opened Lookups
  import opened Predicates
  import opened FilterSets
  import opened Matcher

  /** One exclusion lookup applied to a record (main.py:88-91): the parse
      error if the key does not parse; otherwise a hit when the record's
      value (`row.get(field)`, None when absent) is truthy and the command
      holds. The command is evaluated only for a truthy value. */
  function Step(row: Record, p: Result<Lookup>): (r: Result<bool>) {
    match p
    case Err(e) => Err(e)
    case Ok(l) =>
      var a := GetOrNull(row, l.field);
      if Truthy(a) then CheckCommandCondition(l.cmd, a, l.value) else Ok(false)
  }

  /** `b || res`, unless `res` raised. */
  function OrElse(b: bool, res: Result<bool>): Result<bool> {
    match res
    case Ok(x) => Ok(b || x)
    case Err(e) => Err(e)
  }

  /** The inner loop of `_exclude_results` for one record: every lookup is
      applied in order (there is no early exit), the first error raised
      propagates, and the result says whether any lookup hit. */
  function RowHit(row: Record, ps: seq<Result<Lookup>>): (r: Result<bool>) {
    if ps == [] then Ok(false)
    else
      match Step(row, ps[0])
      case Err(e) => Err(e)
      case Ok(h) => OrElse(h, RowHit(row, ps[1..]))
  }

  /** Some lookup hits the record. */
  predicate Hits(row: Record, ps: seq<Result<Lookup>>) {
    exists i :: 0 <= i < |ps| && Step(row, ps[i]) == Ok(true)
  }

  /** The per-record flag is set exactly when some lookup hits, and the
      record raises exactly when some lookup raises on it. */
  lemma {:induction false} RowHitMeaning(row: Record, ps: seq<Result<Lookup>>)
    ensures RowHit(row, ps).Ok? ==> (RowHit(row, ps).value <==> Hits(row, ps))
    ensures RowHit(row, ps).Err? <==> exists i :: 0 <= i < |ps| && Step(row, ps[i]).Err?
  {
    if ps != [] {
      RowHitMeaning(row, ps[1..]);
      assert forall i :: 1 <= i < |ps| ==> ps[i] == ps[1..][i - 1];
      if Hits(row, ps[1..]) {
        var i :| 0 <= i < |ps[1..]| && Step(row, ps[1..][i]) == Ok(true);
        assert Step(row, ps[i + 1]) == Ok(true);
      }
      if exists i :: 0 <= i < |ps[1..]| && Step(row, ps[1..][i]).Err? {
        var i :| 0 <= i < |ps[1..]| && Step(row, ps[1..][i]).Err?;
        assert Step(row, ps[i + 1]).Err?;
      }
    }
  }

  /** The `to_remove` list: the records, in order, for which the number of
      lookups `n` equals the 0-or-1 flag; the first error stops the loop. */
  function ToRemove(rows: seq<Record>, ps: seq<Result<Lookup>>, n: nat): (r: Result<seq<Record>>) {
    if rows == [] then Ok([])
    else
      match RowHit(rows[0], ps)
      case Err(e) => Err(e)
      case Ok(h) => Prepend(if n == (if h then 1 else 0) then [rows[0]] else [], ToRemove(rows[1..], ps, n))
  }

  /** `[r for r in rows if r not in rm]`: removal compares records by value. */
  function Without(rows: seq<Record>, rm: seq<Record>): (r: seq<Record>) {
    if rows == [] then []
    else (if rows[0] !in rm then [rows[0]] else []) + Without(rows[1..], rm)
  }

  /** `_exclude_results(rows, ex)`: an empty exclusion set returns the records
      unchanged; otherwise the records collected in `to_remove` are dropped. */
  function Excluded(rows: seq<Record>, ex: FilterSet): (r: Result<seq<Record>>)
    requires WellFormedSet(ex)
  {
    if ex == [] then Ok(rows)
    else
      match ToRemove(rows, ParseLookups(ex), |ex|)
      case Err(e) => Err(e)
      case Ok(rm) => Ok(Without(rows, rm))
  }

  /** The records no lookup hits, in order. */
  function Kept(rows: seq<Record>, ps: seq<Result<Lookup>>): seq<Record> {
    if rows == [] then []
    else (if !Hits(rows[0], ps) then [rows[0]] else []) + Kept(rows[1..], ps)
  }

  /** A record is listed for removal exactly when it is one of the records,
      the set holds a single lookup, and that lookup hits the record. */
  lemma {:induction false} ToRemoveMembers(rows: seq<Record>, ps: seq<Result<Lookup>>, n: nat)
    requires n >= 1
    requires ToRemove(rows, ps, n).Ok?
    ensures forall r :: r in ToRemove(rows, ps, n).value <==> r in rows && n == 1 && Hits(r, ps)
    ensures forall r :: r in rows ==> RowHit(r, ps).Ok?
  {
    if rows != [] {
      ToRemoveMembers(rows[1..], ps, n);
      RowHitMeaning(rows[0], ps);
      assert rows == [rows[0]] + rows[1..];
    }
  }

  /** Dropping the records of `rm` keeps exactly the others, in order. */
  lemma {:induction false} WithoutKept(rows: seq<Record>, rm: seq<Record>, ps: seq<Result<Lookup>>)
    requires forall r :: r in rows ==> (r in rm <==> Hits(r, ps))
    ensures Without(rows, rm) == Kept(rows, ps)
  {
    if rows != [] {
      WithoutKept(rows[1..], rm, ps);
    }
  }

  lemma {:induction false} WithoutAll(rows: seq<Record>, rm: seq<Record>)
    requires forall r :: r in rows ==> r !in rm
    ensures Without(rows, rm) == rows
  {
    if rows != [] {
      WithoutAll(rows[1..], rm);
      assert rows == [rows[0]] + rows[1..];
    }
  }

  lemma {:induction false} WithoutSubsequence(rows: seq<Record>, rm: seq<Record>)
    ensures IsSubsequence(Without(rows, rm), rows)
  {
    if rows != [] {
      WithoutSubsequence(rows[1..], rm);
      var w := Without(rows[1..], rm);
      if rows[0] !in rm {
        assert ([rows[0]] + w)[1..] == w;
      } else {
        assert [] + w == w;
        SubsequenceCons(w, rows[1..], rows[0]);
      }
    }
  }

  /** An empty exclusion set leaves the records as they are. */
  lemma ExcludeNothing(rows: seq<Record>)
    ensures Excluded(rows, []) == Ok(rows)
  {
  }

  /** With exactly one exclusion lookup, the records it hits are removed and
      all others are kept, in order. */
  lemma ExcludeSingle(rows: seq<Record>, ex: FilterSet)
    requires WellFormedSet(ex) && |ex| == 1
    requires Excluded(rows, ex).Ok?
    ensures Excluded(rows, ex).value == Kept(rows, ParseLookups(ex))
  {
    var ps := ParseLookups(ex);
    ToRemoveMembers(rows, ps, 1);
    WithoutKept(rows, ToRemove(rows, ps, 1).value, ps);
  }

  /** With two or more exclusion lookups the flag, which is at most 1, never
      equals the number of lookups, so no record is removed. */
  lemma ExcludeSeveral(rows: seq<Record>, ex: FilterSet)
    requires WellFormedSet(ex) && |ex| >= 2
    requires Excluded(rows, ex).Ok?
    ensures Excluded(rows, ex).value == rows
  {
    var ps := ParseLookups(ex);
    ToRemoveMembers(rows, ps, |ex|);
    WithoutAll(rows, ToRemove(rows, ps, |ex|).value);
  }

  /** Exclusion only removes records; the others keep their order. */
  lemma ExcludeSubsequence(rows: seq<Record>, ex: FilterSet)
    requires WellFormedSet(ex)
    requires Excluded(rows, ex).Ok?
    ensures IsSubsequence(Excluded(rows, ex).value, rows)
  {
    if ex == [] {
      WithoutSubsequence(rows, []);
      WithoutAll(rows, []);
    } else {
      WithoutSubsequence(rows, ToRemove(rows, ParseLookups(ex), |ex|).value);
    }
  }

  /** `to_remove` raises exactly when some lookup raises on some record;
      every record and every lookup is visited. */
  lemma {:induction false} ToRemoveErr(rows: seq<Record>, ps: seq<Result<Lookup>>, n: nat)
    ensures ToRemove(rows, ps, n).Err? <==> exists i :: 0 <= i < |rows| && RowHit(rows[i], ps).Err?
  {
    if rows != [] {
      ToRemoveErr(rows[1..], ps, n);
      assert forall i :: 1 <= i < |rows| ==> rows[i] == rows[1..][i - 1];
      if exists i :: 0 <= i < |rows[1..]| && RowHit(rows[1..][i], ps).Err? {
        var i :| 0 <= i < |rows[1..]| && RowHit(rows[1..][i], ps).Err?;
        assert rows[i + 1] == rows[1..][i];
      }
    }
  }

  /** Every parse either failed with IndexError or has one of the nine
      commands. */
  predicate KnownParses(ps: seq<Result<Lookup>>) {
    forall i :: 0 <= i < |ps| ==>
      (ps[i].Ok? ==> ps[i].value.cmd in Commands) && (ps[i].Err? ==> ps[i].error == IndexError)
  }

  /** The parsed exclusion lookups are such parses. */
  lemma ParseLookupsKnown(ex: FilterSet)
    requires WellFormedSet(ex)
    ensures KnownParses(ParseLookups(ex))
  {
    forall i | 0 <= i < |ex|
      ensures ParseLookup(ex[i]).Ok? ==> ParseLookup(ex[i]).value.cmd in Commands
    {
      ParseLookupKnown(ex[i]);
    }
  }

  /** The per-record flag never raises UnknownCommand on such parses. */
  lemma {:induction false} RowHitKnown(row: Record, ps: seq<Result<Lookup>>)
    requires KnownParses(ps)
    ensures RowHit(row, ps).Err? ==> !RowHit(row, ps).error.UnknownCommand?
  {
    if ps != [] {
      assert KnownParses(ps[1..]) by {
        forall i | 0 <= i < |ps[1..]|
          ensures (ps[1..][i].Ok? ==> ps[1..][i].value.cmd in Commands) && (ps[1..][i].Err? ==> ps[1..][i].error == IndexError)
        {
          assert ps[1..][i] == ps[i + 1];
        }
      }
      assert (ps[0].Ok? ==> ps[0].value.cmd in Commands) && (ps[0].Err? ==> ps[0].error == IndexError);
      RowHitKnown(row, ps[1..]);
    }
  }

  /** Nor does the `to_remove` loop. */
  lemma {:induction false} ToRemoveKnown(rows: seq<Record>, ps: seq<Result<Lookup>>, n: nat)
    requires KnownParses(ps)
    ensures ToRemove(rows, ps, n).Err? ==> !ToRemove(rows, ps, n).error.UnknownCommand?
  {
    if rows != [] {
      RowHitKnown(rows[0], ps);
      ToRemoveKnown(rows[1..], ps, n);
    }
  }

  /** `_exclude_results` never raises UnknownCommand. */
  lemma ExcludedKnown(rows: seq<Record>, ex: FilterSet)
    requires WellFormedSet(ex)
    ensures Excluded(rows, ex).Err? ==> !Excluded(rows, ex).error.UnknownCommand?
  {
    if ex != [] {
      ParseLookupsKnown(ex);
      ToRemoveKnown(rows, ParseLookups(ex), |ex|);
    }
  }

  /** One exclusion lookup applied to one record (main.py:88-90): parse the
      key, read the field with `get`, and evaluate the command only when the
      value is truthy. */
  method HitOne(row: Record, entry: (string, Value)) returns (r: Result<bool>)
    requires WellFormedKey(entry.0)
    ensures r == Step(row, ParseLookup(entry))
  {
    var parsed := ParseFilter(entry.0);
    ParseLookupFields(entry);
    if parsed.Err? {
      return Err(parsed.error);
    }
    var (field, cmd) := parsed.value;
    var attr := GetOrNull(row, field);
    if Truthy(attr) {
      r := CheckCommandCondition(cmd, attr, entry.1);
    } else {
      r := Ok(false);
    }
  }

  /** The inner loop of `_exclude_results` (main.py:86-91) for one record:
      apply every lookup and set the flag when one hits. */
  method HitRow(row: Record, ex: FilterSet) returns (r: Result<bool>)
    requires WellFormedSet(ex)
    ensures r == RowHit(row, ParseLookups(ex))
  {
    ghost var ps := ParseLookups(ex);
    var passed := 0;
    var j := 0;
    assert ps[j..] == ps;
    while j < |ex|
      invariant 0 <= j <= |ex|
      invariant passed == 0 || passed == 1
      invariant RowHit(row, ps) == OrElse(passed == 1, RowHit(row, ps[j..]))
    {
      RowHitStep(row, ps, j, passed == 1);
      var hit := HitOne(row, ex[j]);
      assert hit == Step(row, ps[j]);
      if hit.Err? {
        return Err(hit.error);
      }
      if hit.value {
        passed := 1;
      }
      j := j + 1;
    }
    assert ps[j..] == [];
    return Ok(passed == 1);
  }

  lemma RowHitStep(row: Record, ps: seq<Result<Lookup>>, j: nat, b: bool)
    requires j < |ps|
    ensures OrElse(b, RowHit(row, ps[j..])) ==
      match Step(row, ps[j])
      case Err(e) => Err(e)
      case Ok(h) => OrElse(b || h, RowHit(row, ps[j + 1..]))
  {
    assert ps[j..][0] == ps[j] && ps[j..][1..] == ps[j + 1..];
  }

  /** `[r for r in results if r not in to_remove]`. */
  method DropListed(results: seq<Record>, toRemove: seq<Record>) returns (kept: seq<Record>)
    ensures kept == Without(results, toRemove)
  {
    kept := [];
    var m := 0;
    assert results[m..] == results;
    while m < |results|
      invariant 0 <= m <= |results|
      invariant Without(results, toRemove) == kept + Without(results[m..], toRemove)
    {
      assert results[m..][1..] == results[m + 1..];
      if results[m] !in toRemove {
        kept := kept + [results[m]];
      }
      m := m + 1;
    }
    assert results[m..] == [];
    assert kept + [] == kept;
  }

  /** `_exclude_results` (main.py:80-94) as the source runs it: count the
      lookups, collect `to_remove` record by record, then keep the records
      not in it. */
  method ExcludeResults(results: seq<Record>, ex: FilterSet) returns (r: Result<seq<Record>>)
    requires WellFormedSet(ex)
    ensures r == Excluded(results, ex)
  {
    var n := |ex|;
    if n == 0 {
      return Ok(results);
    }
    ghost var ps := ParseLookups(ex);
    var toRemove: seq<Record> := [];
    var k := 0;
    assert results[k..] == results;
    assert ToRemove(results, ps, n).Ok? ==> [] + ToRemove(results, ps, n).value == ToRemove(results, ps, n).value;
    while k < |results|
      invariant 0 <= k <= |results|
      invariant ToRemove(results, ps, n) == Prepend(toRemove, ToRemove(results[k..], ps, n))
    {
      var row := results[k];
      assert results[k..][1..] == results[k + 1..];
      var hit := HitRow(row, ex);
      if hit.Err? {
        return Err(hit.error);
      }
      var passed := if hit.value then 1 else 0;
      if n == passed {
        PrependAppend(toRemove, row, ToRemove(results[k + 1..], ps, n));
        toRemove := toRemove + [row];
      } else {
        PrependNothing(toRemove, ToRemove(results[k + 1..], ps, n));
      }
      k := k + 1;
    }
    assert results[k..] == [];
    assert toRemove + [] == toRemove;
    var kept := DropListed(results, toRemove);
    return Ok(kept);
  }

  lemma PrependNothing(rs: seq<Record>, res: Result<seq<Record>>)
    ensures Prepend(rs, Prepend([], res)) == Prepend(rs, res)
  {
    if res.Ok? {
      assert [] + res.value == res.value;
    }
  }
}
