/** The row matcher of `filter` (main.py:127-187): every lookup of the
    merged filter set is parsed and classified as AND, OR or OR-ALL, then each
    record of the source is checked against the lookups in order, with the
    counters, the skipping of further OR lookups once one passed, and the
    early exit on a failing AND lookup that the source uses. */
module Matcher {
  import opened Values
  import opened Lookups
  import opened Predicates
  import opened FilterSets

  /** One lookup of a filter set: its key and expected value, the field and
      command `parse_filter` extracts from the key, and its conjunction. */
  datatype Lookup = Lookup(key: string, value: Value, field: string, cmd: string, conj: Conj)

  /** Every key of the filter set names at most one command. */
  predicate WellFormedSet(fs: FilterSet) {
    forall i :: 0 <= i < |fs| ==> WellFormedKey(fs[i].0)
  }

  /** The lookup a key-value entry stands for, or the error parsing raises. */
  function ParseLookup(entry: (string, Value)): (r: Result<Lookup>)
    requires WellFormedKey(entry.0)
    ensures r.Ok? ==> r.value.key == entry.0 && r.value.value == entry.1 && r.value.conj == ConjOf(entry.0)
    ensures r.Err? ==> r.error == IndexError
  {
    var (field, cmd) :- ParseFilter(entry.0);
    Ok(Lookup(entry.0, entry.1, field, cmd, ConjOf(entry.0)))
  }

  /** The lookup of an entry carries the field and command `ParseFilter`
      finds, and fails with its error. */
  lemma ParseLookupFields(entry: (string, Value))
    requires WellFormedKey(entry.0)
    ensures ParseFilter(entry.0).Err? ==> ParseLookup(entry) == Err(ParseFilter(entry.0).error)
    ensures ParseFilter(entry.0).Ok? ==>
      ParseLookup(entry).Ok? &&
      ParseLookup(entry).value.field == ParseFilter(entry.0).value.0 &&
      ParseLookup(entry).value.cmd == ParseFilter(entry.0).value.1
  {
  }

  /** The parse of every entry of the filter set, in the set's order. */
  function ParseLookups(fs: FilterSet): (rs: seq<Result<Lookup>>)
    requires WellFormedSet(fs)
    ensures |rs| == |fs|
  {
    seq(|fs|, i requires 0 <= i < |fs| => ParseLookup(fs[i]))
  }

  /** All the values when there is no error, else the first error. */
  function Collect(rs: seq<Result<Lookup>>): (r: Result<seq<Lookup>>)
    ensures r.Ok? ==> |r.value| == |rs|
    ensures r.Err? ==> exists i :: 0 <= i < |rs| && rs[i] == Err(r.error)
  {
    if rs == [] then Ok([])
    else
      var init := rs[..|rs| - 1];
      assert forall i :: 0 <= i < |init| ==> init[i] == rs[i];
      match Collect(init)
      case Err(e) => Err(e)
      case Ok(ls) =>
        match rs[|rs| - 1]
        case Err(e) => Err(e)
        case Ok(l) => Ok(ls + [l])
  }

  /** A collection that succeeds holds every value at its position. */
  lemma {:induction false} CollectEntries(rs: seq<Result<Lookup>>)
    requires Collect(rs).Ok?
    ensures forall i :: 0 <= i < |rs| ==> rs[i] == Ok(Collect(rs).value[i])
  {
    if rs != [] {
      var init := rs[..|rs| - 1];
      assert forall i :: 0 <= i < |init| ==> init[i] == rs[i];
      CollectEntries(init);
      var ls := Collect(init).value;
      var l := rs[|rs| - 1].value;
      assert Collect(rs).value == ls + [l];
      forall i | 0 <= i < |rs|
        ensures rs[i] == Ok(Collect(rs).value[i])
      {
        if i < |init| {
          assert (ls + [l])[i] == ls[i];
        }
      }
    }
  }

  /** A collection fails exactly when some element is an error. */
  lemma {:induction false} CollectFails(rs: seq<Result<Lookup>>)
    ensures Collect(rs).Err? <==> exists i :: 0 <= i < |rs| && rs[i].Err?
  {
    if rs != [] {
      var init := rs[..|rs| - 1];
      assert forall i :: 0 <= i < |init| ==> init[i] == rs[i];
      CollectFails(init);
      if exists i :: 0 <= i < |rs| && rs[i].Err? {
        var i :| 0 <= i < |rs| && rs[i].Err?;
        if i < |init| {
          assert init[i].Err?;
        }
      }
    }
  }

  /** Collecting one more element appends its value. */
  lemma CollectStep(rs: seq<Result<Lookup>>, i: nat)
    requires i < |rs|
    requires Collect(rs[..i]).Ok? && rs[i].Ok?
    ensures Collect(rs[..i + 1]) == Ok(Collect(rs[..i]).value + [rs[i].value])
  {
    var p := rs[..i + 1];
    assert p[..|p| - 1] == rs[..i];
    assert p[|p| - 1] == rs[i];
  }

  /** `lookups_parsed` and `lookups_conditionals` together: every entry of the
      filter set parsed and classified, in the set's order; the whole step
      raises as soon as one key does not parse. */
  function Classify(fs: FilterSet): (r: Result<seq<Lookup>>)
    requires WellFormedSet(fs)
    ensures r.Ok? ==> |r.value| == |fs|
    ensures r.Err? ==> r.error == IndexError
  {
    var rs := ParseLookups(fs);
    var r := Collect(rs);
    assert r.Err? ==> exists i :: 0 <= i < |fs| && ParseLookup(fs[i]) == Err(r.error);
    r
  }

  /** Classification succeeds exactly when every key parses, and then holds
      the parsed lookup of every entry at the entry's position. */
  lemma ClassifyEntries(fs: FilterSet)
    requires WellFormedSet(fs)
    ensures Classify(fs).Ok? ==> forall i :: 0 <= i < |fs| ==> ParseLookup(fs[i]) == Ok(Classify(fs).value[i])
    ensures Classify(fs).Err? <==> exists i :: 0 <= i < |fs| && ParseLookup(fs[i]).Err?
  {
    var rs := ParseLookups(fs);
    CollectFails(rs);
    if Classify(fs).Ok? {
      CollectEntries(rs);
    }
    assert forall i :: 0 <= i < |fs| ==> rs[i] == ParseLookup(fs[i]);
  }

  /** The number of lookups with conjunction `c`: `filters_number`,
      `filters_number_or` and `filters_number_ora`. */
  function CountConj(ls: seq<Lookup>, c: Conj): (n: nat)
    ensures n <= |ls|
  {
    if ls == [] then 0 else (if ls[0].conj == c then 1 else 0) + CountConj(ls[1..], c)
  }

  lemma {:induction false} CountConjAppend(ls: seq<Lookup>, l: Lookup, c: Conj)
    ensures CountConj(ls + [l], c) == CountConj(ls, c) + (if l.conj == c then 1 else 0)
  {
    if ls != [] {
      assert (ls + [l])[1..] == ls[1..] + [l];
      CountConjAppend(ls[1..], l, c);
    }
  }

  /** No lookup has conjunction `c` exactly when none is counted. */
  lemma {:induction false} CountConjZero(ls: seq<Lookup>, c: Conj)
    ensures CountConj(ls, c) == 0 <==> forall i :: 0 <= i < |ls| ==> ls[i].conj != c
  {
    if ls != [] {
      CountConjZero(ls[1..], c);
      assert forall i :: 1 <= i < |ls| ==> ls[i] == ls[1..][i - 1];
    }
  }

  /** The result of the classification loop: the lookups and the three
      counters it fills. */
  datatype Classified = Classified(lookups: seq<Lookup>, numAnd: nat, numOr: nat, numOrAll: nat)

  /** The classification loop of `filter` (main.py:127-145). It yields the
      lookups of `Classify`, counts each conjunction, and fails exactly when
      `Classify` does. */
  method ClassifyLookups(fs: FilterSet) returns (r: Result<Classified>)
    requires WellFormedSet(fs)
    ensures Classify(fs).Err? ==> r == Err(IndexError)
    ensures Classify(fs).Ok? ==> r.Ok? && r.value.lookups == Classify(fs).value
    ensures r.Ok? ==> r.value.numAnd == CountConj(r.value.lookups, And)
    ensures r.Ok? ==> r.value.numOr == CountConj(r.value.lookups, Or)
    ensures r.Ok? ==> r.value.numOrAll == CountConj(r.value.lookups, OrAll)
  {
    var ls: seq<Lookup> := [];
    var numAnd, numOr, numOrAll := 0, 0, 0;
    ghost var rs := ParseLookups(fs);
    var i := 0;
    while i < |fs|
      invariant 0 <= i <= |fs|
      invariant Collect(rs[..i]) == Ok(ls)
      invariant numAnd == CountConj(ls, And) && numOr == CountConj(ls, Or)
      invariant numOrAll == CountConj(ls, OrAll)
    {
      var key := fs[i].0;
      var parsed := ParseFilter(key);
      assert rs[i] == ParseLookup(fs[i]);
      if parsed.Err? {
        CollectFails(rs);
        return Err(IndexError);
      }
      var l := Lookup(key, fs[i].1, parsed.value.0, parsed.value.1, ConjOf(key));
      assert rs[i] == Ok(l);
      CollectStep(rs, i);
      CountConjAppend(ls, l, And);
      CountConjAppend(ls, l, Or);
      CountConjAppend(ls, l, OrAll);
      ls := ls + [l];
      if !HasSeparator(key) {
        numAnd := numAnd + 1;
      } else if EndsWith(key, "_or") {
        numOr := numOr + 1;
      } else if EndsWith(key, "ora") {
        numOrAll := numOrAll + 1;
      } else {
        numAnd := numAnd + 1;
      }
      i := i + 1;
    }
    assert rs[..i] == rs;
    return Ok(Classified(ls, numAnd, numOr, numOrAll));
  }

  /** Applying one lookup to a record (main.py:167-171): an empty field name
      is an error, reading a field the record lacks raises KeyError, and
      otherwise the evaluator decides. */
  function Eval(l: Lookup, row: Record): (r: Result<bool>)
    ensures l.field == "" ==> r == Err(EmptyLookup)
    ensures l.field != "" && l.field !in row ==> r == Err(KeyError(l.field))
    ensures l.field != "" && l.field in row ==> r == CheckCommandCondition(l.cmd, row[l.field], l.value)
  {
    if l.field == "" then Err(EmptyLookup)
    else if l.field !in row then Err(KeyError(l.field))
    else CheckCommandCondition(l.cmd, row[l.field], l.value)
  }

  /** The three per-record counters: `filters_passed`, `filters_passed_or`
      and `filters_passed_ora`. */
  datatype Tally = Tally(passed: nat, passedOr: nat, passedOrAll: nat)

  function Bump(t: Tally, c: Conj): Tally {
    match c
    case And => t.(passed := t.passed + 1)
    case Or => t.(passedOr := t.passedOr + 1)
    case OrAll => t.(passedOrAll := t.passedOrAll + 1)
  }

  /** The inner loop over the lookups for one record, from counters `t`:
      an OR lookup is skipped once an OR lookup passed, an error propagates,
      a passing lookup bumps the counter of its conjunction, and a failing
      AND lookup ends the loop. */
  function ScanFrom(row: Record, ls: seq<Lookup>, t: Tally): (r: Result<Tally>) {
    if ls == [] then Ok(t)
    else if ls[0].conj == Or && t.passedOr > 0 then ScanFrom(row, ls[1..], t)
    else
      match Eval(ls[0], row)
      case Err(e) => Err(e)
      case Ok(pass) =>
        if pass then ScanFrom(row, ls[1..], Bump(t, ls[0].conj))
        else if ls[0].conj == And then Ok(t)
        else ScanFrom(row, ls[1..], t)
  }

  function Scan(row: Record, ls: seq<Lookup>): (r: Result<Tally>) {
    ScanFrom(row, ls, Tally(0, 0, 0))
  }

  /** The inclusion test after the inner loop (main.py:181-184). */
  predicate Admits(ls: seq<Lookup>, t: Tally) {
    CountConj(ls, And) == t.passed &&
    ((CountConj(ls, Or) == 0 && CountConj(ls, OrAll) == 0) ||
     t.passedOr > 0 ||
     (CountConj(ls, OrAll) > 0 && CountConj(ls, OrAll) == t.passedOrAll))
  }

  predicate Passes(row: Record, l: Lookup) {
    Eval(l, row) == Ok(true)
  }

  predicate AllPass(row: Record, ls: seq<Lookup>, c: Conj) {
    forall i :: 0 <= i < |ls| && ls[i].conj == c ==> Passes(row, ls[i])
  }

  predicate SomePasses(row: Record, ls: seq<Lookup>, c: Conj) {
    exists i :: 0 <= i < |ls| && ls[i].conj == c && Passes(row, ls[i])
  }

  /** The number of lookups with conjunction `c` that pass on `row`. */
  function PassCount(row: Record, ls: seq<Lookup>, c: Conj): (n: nat)
    ensures n <= CountConj(ls, c)
  {
    if ls == [] then 0
    else (if ls[0].conj == c && Passes(row, ls[0]) then 1 else 0) + PassCount(row, ls[1..], c)
  }

  /** The rule a record is selected by, stated without counters: every AND
      lookup passes, and either there are no OR or OR-ALL lookups, or some OR
      lookup passes, or there are OR-ALL lookups and all of them pass. */
  predicate RowMatches(row: Record, ls: seq<Lookup>) {
    AllPass(row, ls, And) &&
    ((CountConj(ls, Or) == 0 && CountConj(ls, OrAll) == 0) ||
     SomePasses(row, ls, Or) ||
     (CountConj(ls, OrAll) > 0 && AllPass(row, ls, OrAll)))
  }

  lemma AllPassCons(row: Record, ls: seq<Lookup>, c: Conj)
    requires ls != []
    ensures AllPass(row, ls, c) <==> (ls[0].conj == c ==> Passes(row, ls[0])) && AllPass(row, ls[1..], c)
  {
    assert forall i :: 1 <= i < |ls| ==> ls[i] == ls[1..][i - 1];
  }

  lemma SomePassesCons(row: Record, ls: seq<Lookup>, c: Conj)
    requires ls != []
    ensures SomePasses(row, ls, c) <==> (ls[0].conj == c && Passes(row, ls[0])) || SomePasses(row, ls[1..], c)
  {
    assert forall i :: 1 <= i < |ls| ==> ls[i] == ls[1..][i - 1];
    if SomePasses(row, ls[1..], c) {
      var i :| 0 <= i < |ls[1..]| && ls[1..][i].conj == c && Passes(row, ls[1..][i]);
      assert ls[i + 1] == ls[1..][i];
    }
  }

  /** All lookups of a conjunction pass exactly when the number passing is
      the number there are. */
  lemma {:induction false} PassCountFull(row: Record, ls: seq<Lookup>, c: Conj)
    ensures PassCount(row, ls, c) == CountConj(ls, c) <==> AllPass(row, ls, c)
  {
    if ls != [] {
      PassCountFull(row, ls[1..], c);
      AllPassCons(row, ls, c);
    }
  }

  /** What the inner loop computes. It counts every AND lookup as passed
      exactly when all of them pass (a failing one ends the loop), and when
      they do, the OR counter is positive exactly when some OR lookup passed
      and the OR-ALL counter is the number of OR-ALL lookups that pass. */
  lemma {:induction false} ScanOutcome(row: Record, ls: seq<Lookup>, t: Tally, t': Tally)
    requires ScanFrom(row, ls, t) == Ok(t')
    ensures t'.passed == t.passed + CountConj(ls, And) <==> AllPass(row, ls, And)
    ensures AllPass(row, ls, And) ==> t'.passedOrAll == t.passedOrAll + PassCount(row, ls, OrAll)
    ensures AllPass(row, ls, And) ==> (t'.passedOr > 0 <==> t.passedOr > 0 || SomePasses(row, ls, Or))
  {
    if ls != [] {
      AllPassCons(row, ls, And);
      SomePassesCons(row, ls, Or);
      var l := ls[0];
      if l.conj == Or && t.passedOr > 0 {
        ScanOutcome(row, ls[1..], t, t');
      } else {
        var pass := Eval(l, row).value;
        if pass {
          ScanOutcome(row, ls[1..], Bump(t, l.conj), t');
        } else if l.conj == And {
          assert !AllPass(row, ls, And);
          assert t' == t;
        } else {
          ScanOutcome(row, ls[1..], t, t');
        }
      }
    }
  }

  /** The counters decide inclusion exactly as the declarative rule does. */
  lemma ScanDecides(row: Record, ls: seq<Lookup>)
    requires Scan(row, ls).Ok?
    ensures Admits(ls, Scan(row, ls).value) <==> RowMatches(row, ls)
  {
    var t := Scan(row, ls).value;
    ScanOutcome(row, ls, Tally(0, 0, 0), t);
    PassCountFull(row, ls, OrAll);
  }

  /** The inner loop raises only when some lookup it reaches raises: a
      record on which every lookup evaluates is always decided. */
  lemma {:induction false} ScanTotal(row: Record, ls: seq<Lookup>, t: Tally)
    requires forall i :: 0 <= i < |ls| ==> Eval(ls[i], row).Ok?
    ensures ScanFrom(row, ls, t).Ok?
  {
    if ls != [] {
      assert Eval(ls[0], row).Ok?;
      assert forall i :: 0 <= i < |ls[1..]| ==> ls[1..][i] == ls[i + 1];
      if ls[0].conj == Or && t.passedOr > 0 {
        ScanTotal(row, ls[1..], t);
      } else if Eval(ls[0], row).value {
        ScanTotal(row, ls[1..], Bump(t, ls[0].conj));
      } else if ls[0].conj != And {
        ScanTotal(row, ls[1..], t);
      }
    }
  }

  /** Once an OR lookup passed, further OR lookups are not evaluated, so
      even lookups that would raise leave the counters as they are. */
  lemma {:induction false} ScanSkipsOr(row: Record, ls: seq<Lookup>, t: Tally)
    requires t.passedOr > 0
    requires forall i :: 0 <= i < |ls| ==> ls[i].conj == Or
    ensures ScanFrom(row, ls, t) == Ok(t)
  {
    if ls != [] {
      assert forall i :: 0 <= i < |ls[1..]| ==> ls[1..][i] == ls[i + 1];
      ScanSkipsOr(row, ls[1..], t);
    }
  }

  /** The lookups that are not OR lookups, in order. */
  function NonOr(ls: seq<Lookup>): (r: seq<Lookup>)
    ensures |r| <= |ls|
    ensures forall i :: 0 <= i < |r| ==> r[i].conj != Or && r[i] in ls
  {
    if ls == [] then [] else (if ls[0].conj == Or then [] else [ls[0]]) + NonOr(ls[1..])
  }

  /** Once an OR lookup passed, the rest of the loop behaves as if the OR
      lookups were not there at all, whatever AND and OR-ALL lookups are
      mixed among them: the same counters, or the same error. */
  lemma {:induction false} ScanIgnoresOr(row: Record, ls: seq<Lookup>, t: Tally)
    requires t.passedOr > 0
    ensures ScanFrom(row, ls, t) == ScanFrom(row, NonOr(ls), t)
  {
    if ls != [] {
      var rest := NonOr(ls[1..]);
      if ls[0].conj == Or {
        assert NonOr(ls) == rest;
        ScanIgnoresOr(row, ls[1..], t);
      } else {
        var m := [ls[0]] + rest;
        assert NonOr(ls) == m;
        assert m[0] == ls[0] && m[1..] == rest;
        match Eval(ls[0], row)
        case Err(_) =>
        case Ok(pass) =>
          if pass {
            ScanIgnoresOr(row, ls[1..], Bump(t, ls[0].conj));
          } else if ls[0].conj != And {
            ScanIgnoresOr(row, ls[1..], t);
          }
      }
    }
  }

  /** With only AND lookups a record is selected exactly when every lookup
      passes. */
  lemma AndOnly(row: Record, ls: seq<Lookup>)
    requires forall i :: 0 <= i < |ls| ==> ls[i].conj == And
    ensures RowMatches(row, ls) <==> forall i :: 0 <= i < |ls| ==> Passes(row, ls[i])
  {
    CountConjZero(ls, Or);
    CountConjZero(ls, OrAll);
  }

  /** `results + rest`, unless computing `rest` raised. */
  function Prepend(rs: seq<Record>, res: Result<seq<Record>>): (r: Result<seq<Record>>)
    ensures res.Ok? ==> r == Ok(rs + res.value)
    ensures res.Err? ==> r == res
  {
    match res
    case Ok(v) => Ok(rs + v)
    case Err(e) => Err(e)
  }

  lemma PrependAppend(rs: seq<Record>, row: Record, res: Result<seq<Record>>)
    ensures Prepend(rs, Prepend([row], res)) == Prepend(rs + [row], res)
  {
    if res.Ok? {
      assert rs + ([row] + res.value) == (rs + [row]) + res.value;
    }
  }

  /** The outer loop over the source (main.py:147-187): the records admitted
      by the inclusion test in source order, only the first of them when
      `firstOnly`; the first error raised by a record stops the scan. */
  function Select(rows: seq<Record>, ls: seq<Lookup>, firstOnly: bool): (r: Result<seq<Record>>) {
    if rows == [] then Ok([])
    else
      match Scan(rows[0], ls)
      case Err(e) => Err(e)
      case Ok(t) =>
        if Admits(ls, t) then
          if firstOnly then Ok([rows[0]]) else Prepend([rows[0]], Select(rows[1..], ls, false))
        else Select(rows[1..], ls, firstOnly)
  }

  /** The records that satisfy the declarative rule, in source order. */
  function Matching(rows: seq<Record>, ls: seq<Lookup>): seq<Record> {
    if rows == [] then []
    else (if RowMatches(rows[0], ls) then [rows[0]] else []) + Matching(rows[1..], ls)
  }

  /** A scan that does not raise selects exactly the matching records. */
  lemma {:induction false} SelectMatches(rows: seq<Record>, ls: seq<Lookup>)
    requires Select(rows, ls, false).Ok?
    ensures Select(rows, ls, false).value == Matching(rows, ls)
  {
    if rows != [] {
      ScanDecides(rows[0], ls);
      SelectMatches(rows[1..], ls);
    }
  }

  /** With `firstOnly` the scan selects the first matching record, or none. */
  lemma {:induction false} SelectFirst(rows: seq<Record>, ls: seq<Lookup>)
    requires Select(rows, ls, true).Ok?
    ensures Select(rows, ls, true).value ==
      if Matching(rows, ls) == [] then [] else [Matching(rows, ls)[0]]
  {
    if rows != [] {
      ScanDecides(rows[0], ls);
      if !RowMatches(rows[0], ls) {
        SelectFirst(rows[1..], ls);
      }
    }
  }

  /** The scan raises exactly when the inner loop raises on some record; in
      the full scan every record is visited. */
  lemma {:induction false} SelectErr(rows: seq<Record>, ls: seq<Lookup>)
    ensures Select(rows, ls, false).Err? <==> exists i :: 0 <= i < |rows| && Scan(rows[i], ls).Err?
  {
    if rows != [] {
      SelectErr(rows[1..], ls);
      assert forall i :: 1 <= i < |rows| ==> rows[i] == rows[1..][i - 1];
      if exists i :: 0 <= i < |rows[1..]| && Scan(rows[1..][i], ls).Err? {
        var i :| 0 <= i < |rows[1..]| && Scan(rows[1..][i], ls).Err?;
        assert rows[i + 1] == rows[1..][i];
      }
    }
  }

  /** A record is selected exactly when it occurs in the source and matches,
      and the selection keeps the source order. */
  lemma {:induction false} MatchingMembers(rows: seq<Record>, ls: seq<Lookup>)
    ensures forall r :: r in Matching(rows, ls) <==> r in rows && RowMatches(r, ls)
    ensures IsSubsequence(Matching(rows, ls), rows)
  {
    if rows != [] {
      MatchingMembers(rows[1..], ls);
      assert rows == [rows[0]] + rows[1..];
      var m := Matching(rows[1..], ls);
      if RowMatches(rows[0], ls) {
        assert ([rows[0]] + m)[1..] == m;
      } else {
        assert [] + m == m;
        SubsequenceCons(m, rows[1..], rows[0]);
      }
    }
  }

  /** The scan keeps records in source order, with or without `firstOnly`;
      with `firstOnly` it keeps at most one. */
  lemma {:induction false} SelectSubsequence(rows: seq<Record>, ls: seq<Lookup>, firstOnly: bool)
    requires Select(rows, ls, firstOnly).Ok?
    ensures IsSubsequence(Select(rows, ls, firstOnly).value, rows)
    ensures firstOnly ==> |Select(rows, ls, firstOnly).value| <= 1
  {
    if rows != [] {
      var out := Select(rows, ls, firstOnly).value;
      var t := Scan(rows[0], ls).value;
      if Admits(ls, t) {
        if firstOnly {
          assert out == [rows[0]] && out[1..] == [];
        } else {
          SelectSubsequence(rows[1..], ls, false);
          assert out[1..] == Select(rows[1..], ls, false).value;
        }
      } else {
        SelectSubsequence(rows[1..], ls, firstOnly);
        SubsequenceCons(out, rows[1..], rows[0]);
        assert rows == [rows[0]] + rows[1..];
      }
    }
  }

  /** An empty filter set selects every record. */
  lemma {:induction false} NoLookupsSelectsAll(rows: seq<Record>)
    ensures Select(rows, [], false) == Ok(rows)
  {
    if rows != [] {
      NoLookupsSelectsAll(rows[1..]);
      assert rows == [rows[0]] + rows[1..];
    }
  }

  /** Every lookup carries one of the nine commands. */
  predicate KnownCommands(ls: seq<Lookup>) {
    forall i :: 0 <= i < |ls| ==> ls[i].cmd in Commands
  }

  /** A parsed lookup's command is one of the nine: `parse_filter` returns
      either a command segment of the key or `exact`. */
  lemma ParseLookupKnown(entry: (string, Value))
    requires WellFormedKey(entry.0)
    ensures ParseLookup(entry).Ok? ==> ParseLookup(entry).value.cmd in Commands
  {
    TakeCommandSpec(StripConjunction(Split(entry.0)));
  }

  /** Classification yields only lookups with one of the nine commands. */
  lemma ClassifyKnown(fs: FilterSet)
    requires WellFormedSet(fs)
    ensures Classify(fs).Ok? ==> KnownCommands(Classify(fs).value)
  {
    ClassifyEntries(fs);
    forall i | 0 <= i < |fs|
      ensures ParseLookup(fs[i]).Ok? ==> ParseLookup(fs[i]).value.cmd in Commands
    {
      ParseLookupKnown(fs[i]);
    }
  }

  /** The inner loop never raises UnknownCommand on lookups it classified. */
  lemma {:induction false} ScanFromKnown(row: Record, ls: seq<Lookup>, t: Tally)
    requires KnownCommands(ls)
    ensures ScanFrom(row, ls, t).Err? ==> !ScanFrom(row, ls, t).error.UnknownCommand?
  {
    if ls != [] {
      assert KnownCommands(ls[1..]) by {
        forall i | 0 <= i < |ls[1..]| ensures ls[1..][i].cmd in Commands {
          assert ls[1..][i] == ls[i + 1];
        }
      }
      assert ls[0].cmd in Commands;
      ScanFromKnown(row, ls[1..], t);
      ScanFromKnown(row, ls[1..], Bump(t, ls[0].conj));
    }
  }

  /** Nor does the outer loop over the source. */
  lemma {:induction false} SelectKnown(rows: seq<Record>, ls: seq<Lookup>, firstOnly: bool)
    requires KnownCommands(ls)
    ensures Select(rows, ls, firstOnly).Err? ==> !Select(rows, ls, firstOnly).error.UnknownCommand?
  {
    if rows != [] {
      ScanFromKnown(rows[0], ls, Tally(0, 0, 0));
      SelectKnown(rows[1..], ls, false);
      SelectKnown(rows[1..], ls, firstOnly);
    }
  }

  /** The inner loop of `filter` (main.py:149-179) over the classified
      lookups for one record: the counters it ends with, or the error it
      raises, are the ones `Scan` describes. */
  method ScanRow(row: Record, ls: seq<Lookup>) returns (r: Result<Tally>)
    ensures r == Scan(row, ls)
  {
    var passed, passedOr, passedOrAll := 0, 0, 0;
    var i := 0;
    while i < |ls|
      invariant 0 <= i <= |ls|
      invariant Scan(row, ls) == ScanFrom(row, ls[i..], Tally(passed, passedOr, passedOrAll))
    {
      var l := ls[i];
      assert ls[i..][1..] == ls[i + 1..];
      var isOr, isOrAll := false, false;
      if l.conj == Or {
        if passedOr > 0 {
          i := i + 1;
          continue;
        }
        isOr := true;
      } else if l.conj == OrAll {
        isOrAll := true;
      }
      if l.field == "" {
        return Err(EmptyLookup);
      }
      if l.field !in row {
        return Err(KeyError(l.field));
      }
      var ok := CheckCommandCondition(l.cmd, row[l.field], l.value);
      if ok.Err? {
        return Err(ok.error);
      }
      if ok.value {
        if isOr {
          passedOr := passedOr + 1;
        } else if isOrAll {
          passedOrAll := passedOrAll + 1;
        } else {
          passed := passed + 1;
        }
      } else if !isOr && !isOrAll {
        return Ok(Tally(passed, passedOr, passedOrAll));
      }
      i := i + 1;
    }
    return Ok(Tally(passed, passedOr, passedOrAll));
  }

  /** The outer loop of `filter` (main.py:147-187) over the records, with
      the counts of the classification: the result is the one `Select`
      describes. */
  method SelectRows(source: seq<Record>, c: Classified, firstOnly: bool) returns (r: Result<seq<Record>>)
    requires c.numAnd == CountConj(c.lookups, And)
    requires c.numOr == CountConj(c.lookups, Or)
    requires c.numOrAll == CountConj(c.lookups, OrAll)
    ensures r == Select(source, c.lookups, firstOnly)
  {
    var ls := c.lookups;
    var results: seq<Record> := [];
    var k := 0;
    assert source[k..] == source;
    assert Select(source, ls, firstOnly).Ok? ==> [] + Select(source, ls, firstOnly).value == Select(source, ls, firstOnly).value;
    while k < |source|
      invariant 0 <= k <= |source|
      invariant firstOnly ==> results == []
      invariant Select(source, ls, firstOnly) == Prepend(results, Select(source[k..], ls, firstOnly))
    {
      var row := source[k];
      assert source[k..][1..] == source[k + 1..];
      var scanned := ScanRow(row, ls);
      if scanned.Err? {
        return Err(scanned.error);
      }
      var t := scanned.value;
      if c.numAnd == t.passed && ((c.numOr == 0 && c.numOrAll == 0) || t.passedOr > 0 ||
                                  (c.numOrAll > 0 && c.numOrAll == t.passedOrAll)) {
        PrependAppend(results, row, Select(source[k + 1..], ls, firstOnly));
        results := results + [row];
        if firstOnly {
          return Ok(results);
        }
      }
      k := k + 1;
    }
    assert source[k..] == [];
    assert results + [] == results;
    return Ok(results);
  }
}
