/** The predicate evaluator `check_command_condition` (main.py:43-63): applies
    one command to an actual value and an expected value. */
module Predicates {
  import opened Values
  import opened Lookups

  /** Python's ordered comparison `a < b` (or `a <= b` when `orEqual`) on the
      pairs this model orders: two integers or two strings. Any other pair is
      a type error. */
  function Less(a: Value, b: Value, orEqual: bool): (r: Result<bool>)
    ensures r.Ok? <==> (a.Int? && b.Int?) || (a.Str? && b.Str?)
  {
    if a.Int? && b.Int? then Ok(if orEqual then a.i <= b.i else a.i < b.i)
    else if a.Str? && b.Str? then Ok(if orEqual then !StrLess(b.s, a.s) else StrLess(a.s, b.s))
    else Err(TypeMismatch)
  }

  /** Python's `a in b`: membership in a list, or a substring test when both
      are strings; any other container is a type error. */
  function Member(a: Value, b: Value): (r: Result<bool>)
    ensures b.List? ==> r == Ok(a in b.items)
    ensures r.Ok? <==> b.List? || (a.Str? && b.Str?)
  {
    match b
    case List(xs) => Ok(a in xs)
    case Str(t) => if a.Str? then Ok(IsSubstring(a.s, t)) else Err(TypeMismatch)
    case _ => Err(TypeMismatch)
  }

  /** `check_command_condition(cmd, first, second)`. The first two tests of
      the source are `cmd in 'exact'` and `cmd in 'ne'`, substring tests on
      strings, so any substring of `exact` (such as `e` or the empty string)
      selects equality and any other substring of `ne` selects inequality. */
  function CheckCommandCondition(cmd: string, first: Value, second: Value): (r: Result<bool>)
    ensures cmd in Commands ==> r.Ok? || r == Err(TypeMismatch)
    ensures r.Err? && r.error.UnknownCommand? <==>
      !IsSubstring(cmd, "exact") && !IsSubstring(cmd, "ne") && cmd !in Commands
    ensures r.Err? ==> r == Err(TypeMismatch) || r == Err(UnknownCommand(cmd))
  {
    if IsSubstring(cmd, "exact") then Ok(first == second)
    else if IsSubstring(cmd, "ne") then Ok(first != second)
    else if cmd == "gt" then Less(second, first, false)
    else if cmd == "gte" then Less(second, first, true)
    else if cmd == "lt" then Less(first, second, false)
    else if cmd == "lte" then Less(first, second, true)
    else if cmd == "in" then Member(first, second)
    else if cmd == "nin" then
      match Member(first, second)
      case Ok(m) => Ok(!m)
      case Err(e) => Err(e)
    else if cmd == "isnull" then Ok(Bool(first == Null) == second)
    else Err(UnknownCommand(cmd))
  }

  lemma {:induction false} SubstringBound(a: string, b: string)
    requires IsSubstring(a, b)
    ensures |a| <= |b|
    ensures a != [] ==> a[0] in b
    decreases |b|
  {
    if !IsPrefix(a, b) {
      SubstringBound(a, b[1..]);
    } else if a != [] {
      assert b[0] == a[0];
    }
  }

  /** A string whose first character does not occur in `b`, or that is
      longer than `b`, is not a substring of `b`. */
  lemma NotSubstring(a: string, b: string)
    requires |a| > |b| || (a != [] && a[0] !in b)
    ensures !IsSubstring(a, b)
  {
    if IsSubstring(a, b) {
      SubstringBound(a, b);
    }
  }

  /** The order commands fall through both substring tests. */
  lemma OrderCommandsSkipEquality()
    ensures !IsSubstring("gt", "exact") && !IsSubstring("gt", "ne")
    ensures !IsSubstring("gte", "exact") && !IsSubstring("gte", "ne")
    ensures !IsSubstring("lt", "exact") && !IsSubstring("lt", "ne")
    ensures !IsSubstring("lte", "exact") && !IsSubstring("lte", "ne")
  {
    NotSubstring("gt", "exact");
    NotSubstring("gt", "ne");
    NotSubstring("gte", "exact");
    NotSubstring("gte", "ne");
    NotSubstring("lt", "exact");
    NotSubstring("lt", "ne");
    NotSubstring("lte", "exact");
    NotSubstring("lte", "ne");
  }

  /** Of the members of QS_COMMANDS only `exact` passes the test
      `cmd in 'exact'`, and only `ne` the test `cmd in 'ne'`. */
  lemma CommandsAreNotSubstrings(cmd: string)
    requires cmd in Commands
    ensures IsSubstring(cmd, "exact") <==> cmd == "exact"
    ensures cmd != "exact" ==> (IsSubstring(cmd, "ne") <==> cmd == "ne")
  {
    assert cmd == "exact" || cmd == "ne" || cmd == "gte" || cmd == "gt" || cmd == "lte"
      || cmd == "lt" || cmd == "in" || cmd == "nin" || cmd == "isnull";
    assert IsPrefix(cmd, cmd);
    if IsSubstring(cmd, "exact") {
      SubstringBound(cmd, "exact");
    }
    if IsSubstring(cmd, "ne") {
      SubstringBound(cmd, "ne");
    }
  }

  /** The command table, equality part: `exact` compares for equality and
      `ne` for inequality, on values of any kind. */
  lemma EqualityCommands(a: Value, b: Value)
    ensures CheckCommandCondition("exact", a, b) == Ok(a == b)
    ensures CheckCommandCondition("ne", a, b) == Ok(a != b)
  {
    assert IsPrefix("exact", "exact") && IsPrefix("ne", "ne");
    NotSubstring("ne", "exact");
  }

  /** The command table, order part: `gt`, `gte`, `lt` and `lte` compare two
      integers or two strings, the actual value on the left. */
  lemma OrderCommands(a: Value, b: Value)
    ensures a.Int? && b.Int? ==>
      CheckCommandCondition("gt", a, b) == Ok(a.i > b.i) && CheckCommandCondition("gte", a, b) == Ok(a.i >= b.i) &&
      CheckCommandCondition("lt", a, b) == Ok(a.i < b.i) && CheckCommandCondition("lte", a, b) == Ok(a.i <= b.i)
    ensures a.Str? && b.Str? ==>
      CheckCommandCondition("gt", a, b) == Ok(StrLess(b.s, a.s)) && CheckCommandCondition("gte", a, b) == Ok(!StrLess(a.s, b.s)) &&
      CheckCommandCondition("lt", a, b) == Ok(StrLess(a.s, b.s)) && CheckCommandCondition("lte", a, b) == Ok(!StrLess(b.s, a.s))
  {
    OrderCommandsSkipEquality();
  }

  /** The order commands raise a type error on any pair other than two
      integers or two strings. */
  lemma OrderMismatch(a: Value, b: Value)
    requires !((a.Int? && b.Int?) || (a.Str? && b.Str?))
    ensures CheckCommandCondition("gt", a, b) == Err(TypeMismatch)
    ensures CheckCommandCondition("gte", a, b) == Err(TypeMismatch)
    ensures CheckCommandCondition("lt", a, b) == Err(TypeMismatch)
    ensures CheckCommandCondition("lte", a, b) == Err(TypeMismatch)
  {
    OrderCommandsSkipEquality();
  }

  /** The command table, membership part: `in` and `nin` test membership in
      a list, and `isnull` compares the expected value with whether the
      actual value is null. */
  lemma MembershipCommands(a: Value, b: Value)
    ensures b.List? ==> CheckCommandCondition("in", a, b) == Ok(a in b.items)
    ensures b.List? ==> CheckCommandCondition("nin", a, b) == Ok(a !in b.items)
    ensures CheckCommandCondition("isnull", a, b) == Ok(b.Bool? && b.b == (a == Null))
  {
    NotSubstring("in", "exact");
    NotSubstring("in", "ne");
    NotSubstring("nin", "exact");
    NotSubstring("nin", "ne");
    NotSubstring("isnull", "exact");
    NotSubstring("isnull", "ne");
  }

  /** `gte` and `lte` are the negations of `lt` and `gt` on the pairs that
      can be ordered. */
  lemma OrderDuality(a: Value, b: Value)
    requires (a.Int? && b.Int?) || (a.Str? && b.Str?)
    ensures CheckCommandCondition("gte", a, b) == Ok(!CheckCommandCondition("lt", a, b).value)
    ensures CheckCommandCondition("lte", a, b) == Ok(!CheckCommandCondition("gt", a, b).value)
  {
    OrderCommandsSkipEquality();
  }
}
