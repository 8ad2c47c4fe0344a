/** The lookup parser: a filter key such as `age__gt__or` names a field, an
    optional comparison command and an optional conjunction, separated by
    double underscores (main.py:100-113); the conjunction of a key is read off
    its suffix when a filter set is classified (main.py:132-145). */
module Lookups {
  import opened Values

  /** QS_COMMANDS, in the order the source lists them. */
  const Commands: seq<string> := ["exact", "ne", "gte", "gt", "lte", "lt", "in", "nin", "isnull"]

  /** How a lookup takes part in a row's decision: mandatory (AND), one of a
      group of which one must pass (OR, key ends in `_or`) or one of a group
      of which all must pass (OR-ALL, key ends in `ora`). */
  datatype Conj = And | Or | OrAll

  /** Python's `'__' in s`. */
  predicate HasSeparator(s: string)
    decreases |s|
  {
    |s| >= 2 && ((s[0] == '_' && s[1] == '_') || HasSeparator(s[1..]))
  }

  predicate EndsWithUnderscore(t: string) {
    t != [] && t[|t| - 1] == '_'
  }

  /** Python's `s[-n:] == suffix` for a suffix of length n. */
  predicate EndsWith(s: string, suffix: string) {
    |s| >= |suffix| && s[|s| - |suffix|..] == suffix
  }

  /** Python's `s.split('__')`: cut at every double underscore, scanning from
      the left, so that `a___b` gives `a` and `_b`. */
  function Split(s: string): (r: seq<string>)
    ensures |r| >= 1
    decreases |s|
  {
    if |s| < 2 then [s]
    else if s[0] == '_' && s[1] == '_' then [""] + Split(s[2..])
    else
      var rest := Split(s[1..]);
      [[s[0]] + rest[0]] + rest[1..]
  }

  /** Python's `'__'.join(ts)`, the inverse of `Split`. */
  function Join(ts: seq<string>): string
    requires |ts| >= 1
  {
    if |ts| == 1 then ts[0] else ts[0] + "__" + Join(ts[1..])
  }

  /** The token lists `Split` produces: no token holds a separator, and no
      token but the last ends in an underscore. */
  predicate CanonicalTokens(ts: seq<string>) {
    forall i :: 0 <= i < |ts| ==> !HasSeparator(ts[i]) && (i < |ts| - 1 ==> !EndsWithUnderscore(ts[i]))
  }

  lemma JoinHead(c: char, ts: seq<string>)
    requires |ts| >= 1
    ensures Join([[c] + ts[0]] + ts[1..]) == [c] + Join(ts)
  {
    var us := [[c] + ts[0]] + ts[1..];
    if |ts| > 1 {
      assert us[1..] == ts[1..];
      var rest := Join(ts[1..]);
      var sep: string := "__";
      assert Join(us) == (([c] + ts[0]) + sep) + rest;
      assert Join(ts) == (ts[0] + sep) + rest;
      AppendAssoc([c] + ts[0], sep, rest);
      AppendAssoc([c], ts[0], sep + rest);
      AppendAssoc(ts[0], sep, rest);
    }
  }

  /** Joining the pieces of a split gives back the key. */
  lemma {:induction false} SplitJoin(s: string)
    ensures Join(Split(s)) == s
    decreases |s|
  {
    if |s| < 2 {
    } else if s[0] == '_' && s[1] == '_' {
      SplitJoin(s[2..]);
      var us := [""] + Split(s[2..]);
      assert us[1..] == Split(s[2..]);
      assert s == "__" + s[2..];
    } else {
      SplitJoin(s[1..]);
      JoinHead(s[0], Split(s[1..]));
      assert s == [s[0]] + s[1..];
    }
  }

  lemma {:induction false} SplitNoSeparator(x: string)
    requires !HasSeparator(x)
    ensures Split(x) == [x]
    decreases |x|
  {
    if |x| >= 2 {
      SplitNoSeparator(x[1..]);
      assert x == [x[0]] + x[1..];
    }
  }

  lemma {:induction false} SplitAtFirstSeparator(x: string, y: string)
    requires !HasSeparator(x) && !EndsWithUnderscore(x)
    ensures Split(x + "__" + y) == [x] + Split(y)
    decreases |x|
  {
    var s := x + "__" + y;
    if x == [] {
      assert s[2..] == y;
    } else {
      assert s[1..] == x[1..] + "__" + y;
      if |x| >= 2 {
        assert !(x[0] == '_' && x[1] == '_');
      }
      SplitAtFirstSeparator(x[1..], y);
      assert [s[0]] + x[1..] == x;
    }
  }

  /** Splitting the join of canonical tokens gives back the tokens. */
  lemma {:induction false} JoinSplit(ts: seq<string>)
    requires |ts| >= 1 && CanonicalTokens(ts)
    ensures Split(Join(ts)) == ts
    decreases |ts|
  {
    if |ts| == 1 {
      SplitNoSeparator(ts[0]);
    } else {
      assert CanonicalTokens(ts[1..]) by {
        forall i | 0 <= i < |ts[1..]|
          ensures !HasSeparator(ts[1..][i]) && (i < |ts[1..]| - 1 ==> !EndsWithUnderscore(ts[1..][i]))
        {
          assert ts[1..][i] == ts[i + 1];
        }
      }
      JoinSplit(ts[1..]);
      SplitAtFirstSeparator(ts[0], Join(ts[1..]));
      assert [ts[0]] + ts[1..] == ts;
    }
  }

  /** Every split is canonical, so `Split` and `Join` are inverse bijections
      between keys and canonical token lists. */
  lemma {:induction false} SplitCanonical(s: string)
    ensures CanonicalTokens(Split(s))
    decreases |s|
  {
    if |s| < 2 {
    } else if s[0] == '_' && s[1] == '_' {
      SplitCanonical(s[2..]);
      var rs := Split(s[2..]);
      forall i | 0 <= i < |[""] + rs|
        ensures !HasSeparator(([""] + rs)[i]) && (i < |[""] + rs| - 1 ==> !EndsWithUnderscore(([""] + rs)[i]))
      {
        if i > 0 {
          assert ([""] + rs)[i] == rs[i - 1];
        }
      }
    } else {
      SplitCanonical(s[1..]);
      SplitJoin(s[1..]);
      var rest := Split(s[1..]);
      var head := [s[0]] + rest[0];
      var r := [head] + rest[1..];
      if |rest| > 1 {
        assert s[1..] == rest[0] + "__" + Join(rest[1..]);
      } else {
        assert s[1..] == rest[0];
      }
      if rest[0] != [] {
        assert rest[0][0] == s[1];
        assert head[1..] == rest[0];
      }
      assert !HasSeparator(head);
      assert |rest| > 1 ==> !EndsWithUnderscore(head);
      forall i | 0 <= i < |r|
        ensures !HasSeparator(r[i]) && (i < |r| - 1 ==> !EndsWithUnderscore(r[i]))
      {
        if i > 0 {
          assert r[i] == rest[i];
        }
      }
    }
  }

  /** Python's `ts.remove(t)`: drop the first occurrence of `t`. */
  function RemoveFirst(ts: seq<string>, t: string): (r: seq<string>)
    requires t in ts
    ensures |r| == |ts| - 1
  {
    if ts[0] == t then ts[1..] else [ts[0]] + RemoveFirst(ts[1..], t)
  }

  /** `remove` takes out exactly one occurrence of `t`. */
  lemma {:induction false} RemoveFirstMultiset(ts: seq<string>, t: string)
    requires t in ts
    ensures multiset(RemoveFirst(ts, t)) == multiset(ts) - multiset{t}
  {
    assert ts == [ts[0]] + ts[1..];
    if ts[0] != t {
      RemoveFirstMultiset(ts[1..], t);
    }
  }

  /** Removing the first `t` keeps every other token and adds none. */
  lemma {:induction false} RemoveFirstMembers(ts: seq<string>, t: string)
    requires t in ts
    ensures forall x :: x in RemoveFirst(ts, t) ==> x in ts
    ensures forall x :: x != t && x in ts ==> x in RemoveFirst(ts, t)
  {
    if ts[0] != t {
      RemoveFirstMembers(ts[1..], t);
      assert forall x :: x in ts[1..] ==> x in ts;
      assert forall x :: x in ts && x != ts[0] ==> x in ts[1..];
    }
  }

  /** The position of the first occurrence of `t`. */
  function FirstIndex(ts: seq<string>, t: string): (i: nat)
    requires t in ts
    ensures i < |ts| && ts[i] == t
    ensures forall j :: 0 <= j < i ==> ts[j] != t
  {
    if ts[0] == t then 0 else 1 + FirstIndex(ts[1..], t)
  }

  /** Removing `t` whose first occurrence is at `i` splices out position `i`. */
  lemma {:induction false} RemoveFirstAt(ts: seq<string>, t: string, i: nat)
    requires i < |ts| && ts[i] == t
    requires forall j :: 0 <= j < i ==> ts[j] != t
    ensures RemoveFirst(ts, t) == ts[..i] + ts[i + 1..]
  {
    if i > 0 {
      var tail := ts[1..];
      assert tail[i - 1] == t;
      RemoveFirstAt(tail, t, i - 1);
      assert ts[..i] == [ts[0]] + tail[..i - 1];
      assert ts[i + 1..] == tail[i..];
      AppendAssoc([ts[0]], tail[..i - 1], tail[i..]);
    }
  }

  /** `list.remove(t)` cuts out the first occurrence of `t` and nothing
      else: the tokens before it and the tokens after it stay, in order. */
  lemma RemoveFirstSplice(ts: seq<string>, t: string)
    requires t in ts
    ensures exists i :: 0 <= i < |ts| && ts[i] == t && t !in ts[..i] && RemoveFirst(ts, t) == ts[..i] + ts[i + 1..]
  {
    var i := FirstIndex(ts, t);
    RemoveFirstAt(ts, t, i);
    assert t !in ts[..i];
  }

  /** The first member of `cs` that occurs among the tokens. */
  function FindCommand(ts: seq<string>, cs: seq<string>): (r: Option<string>)
    ensures r.Some? ==> r.value in cs && r.value in ts
    ensures r.None? ==> forall c :: c in cs ==> c !in ts
  {
    if cs == [] then None
    else if cs[0] in ts then Some(cs[0])
    else FindCommand(ts, cs[1..])
  }

  /** At most one distinct command token: then the source's choice by
      `set.pop()` among the command tokens is determined. */
  predicate AtMostOneCommand(ts: seq<string>) {
    forall c1, c2 :: c1 in ts && c2 in ts && c1 in Commands && c2 in Commands ==> c1 == c2
  }

  predicate WellFormedKey(key: string) {
    AtMostOneCommand(Split(key))
  }

  /** The number of tokens `ParseFilter` consumes as conjunction and command. */
  function ConsumedTokens(ts: seq<string>): nat {
    (if "or" in ts || "ora" in ts then 1 else 0) + (if exists c :: c in Commands && c in ts then 1 else 0)
  }

  /** The first step of `parse_filter` after the split: remove one `or`
      token, or else one `ora` token. */
  function StripConjunction(ts: seq<string>): (r: seq<string>)
    ensures |r| == |ts| - (if "or" in ts || "ora" in ts then 1 else 0)
  {
    if "or" in ts then RemoveFirst(ts, "or")
    else if "ora" in ts then RemoveFirst(ts, "ora")
    else ts
  }

  /** Stripping the conjunction adds no token and keeps every command token. */
  lemma StripConjunctionMembers(ts: seq<string>)
    ensures forall t :: t in StripConjunction(ts) ==> t in ts
    ensures forall c :: c in Commands ==> (c in StripConjunction(ts) <==> c in ts)
  {
    ConjNotCommand();
    if "or" in ts {
      RemoveFirstMembers(ts, "or");
    } else if "ora" in ts {
      RemoveFirstMembers(ts, "ora");
    }
  }

  /** The command step of `parse_filter`: take out the command token, or
      default to `exact`; returns the command and the tokens left. */
  function TakeCommand(ts: seq<string>): (r: (string, seq<string>))
  {
    match FindCommand(ts, Commands)
    case Some(cmd) => (cmd, RemoveFirst(ts, cmd))
    case None => ("exact", ts)
  }

  /** The command taken is a command token of `ts`, or `exact` when `ts`
      holds none; it is taken out and nothing is added. */
  lemma TakeCommandSpec(ts: seq<string>)
    ensures var r := TakeCommand(ts);
      && r.0 in Commands
      && ((exists c :: c in Commands && c in ts) ==> r.0 in ts && |r.1| == |ts| - 1)
      && ((forall c :: c in Commands ==> c !in ts) ==> r == ("exact", ts))
      && (forall t :: t in r.1 ==> t in ts)
  {
    match FindCommand(ts, Commands)
    case Some(cmd) =>
      RemoveFirstMembers(ts, cmd);
    case None =>
  }

  /** `parse_filter`: split the key, drop one `or` (or else one `ora`) token,
      take out the command token (`exact` when there is none) and return the
      last token left as the field name. */
  function ParseFilter(key: string): (r: Result<(string, string)>)
    requires WellFormedKey(key)
    ensures r.Err? ==> r.error == IndexError
  {
    ParseTokens(Split(key))
  }

  /** `parse_filter` after the split. */
  function ParseTokens(ts: seq<string>): (r: Result<(string, string)>) {
    var taken := TakeCommand(StripConjunction(ts));
    if |taken.1| == 0 then Err(IndexError) else Ok((taken.1[|taken.1| - 1], taken.0))
  }

  /** The field is one of the key's segments; the command is the key's
      command segment, or `exact` when it has none; and parsing fails exactly
      when the conjunction and command segments are all the key has. */
  lemma ParseFilterSpec(key: string)
    requires WellFormedKey(key)
    ensures var r := ParseFilter(key);
      && (r.Ok? ==> r.value.0 in Split(key))
      && (r.Ok? ==> forall c :: c in Commands && c in Split(key) ==> r.value.1 == c)
      && (r.Ok? && (forall c :: c in Commands ==> c !in Split(key)) ==> r.value.1 == "exact")
      && (r.Err? <==> |Split(key)| == ConsumedTokens(Split(key)))
  {
    var ts := Split(key);
    var stripped := StripConjunction(ts);
    StripConjunctionMembers(ts);
    TakeCommandSpec(stripped);
    var (cmd, rest) := TakeCommand(stripped);
    if rest != [] {
      assert rest[|rest| - 1] in rest;
    }
  }

  lemma {:induction false} RemoveFirstKeepsLast(ts: seq<string>, t: string)
    requires t in ts && t != ts[|ts| - 1]
    ensures var r := RemoveFirst(ts, t); |r| >= 1 && r[|r| - 1] == ts[|ts| - 1]
  {
    if ts[0] != t {
      assert ts[1..][|ts[1..]| - 1] == ts[|ts| - 1];
      if |ts| > 1 {
        RemoveFirstKeepsLast(ts[1..], t);
      }
    }
  }

  /** When the last segment of a key is neither a conjunction nor a command
      token, that segment is the field name: `gt__or__age` looks up `age`.
      Keys that end in a conjunction or a command, such as `age__gt__or`, are
      covered by ParseFilterLastPlain. */
  lemma ParseFilterField(key: string)
    requires WellFormedKey(key)
    requires var last := Split(key)[|Split(key)| - 1]; last != "or" && last != "ora" && last !in Commands
    ensures ParseFilter(key).Ok? && ParseFilter(key).value.0 == Split(key)[|Split(key)| - 1]
  {
    ParseTokensField(Split(key));
  }

  lemma ParseTokensField(ts: seq<string>)
    requires |ts| >= 1
    requires var last := ts[|ts| - 1]; last != "or" && last != "ora" && last !in Commands
    ensures ParseTokens(ts).Ok? && ParseTokens(ts).value.0 == ts[|ts| - 1]
  {
    KeepsLast(ts);
  }

  /** The conjunction and command steps leave a last token that is neither. */
  lemma KeepsLast(ts: seq<string>)
    requires |ts| >= 1 && ts[|ts| - 1] != "or" && ts[|ts| - 1] != "ora" && ts[|ts| - 1] !in Commands
    ensures var r := TakeCommand(StripConjunction(ts)).1; |r| >= 1 && r[|r| - 1] == ts[|ts| - 1]
  {
    StripConjunctionKeepsLast(ts);
    TakeCommandKeepsLast(StripConjunction(ts));
  }

  lemma StripConjunctionKeepsLast(ts: seq<string>)
    requires |ts| >= 1 && ts[|ts| - 1] != "or" && ts[|ts| - 1] != "ora"
    ensures var r := StripConjunction(ts); |r| >= 1 && r[|r| - 1] == ts[|ts| - 1]
  {
    if "or" in ts {
      RemoveFirstKeepsLast(ts, "or");
    } else if "ora" in ts {
      RemoveFirstKeepsLast(ts, "ora");
    }
  }

  lemma TakeCommandKeepsLast(ts: seq<string>)
    requires |ts| >= 1 && ts[|ts| - 1] !in Commands
    ensures var r := TakeCommand(ts).1; |r| >= 1 && r[|r| - 1] == ts[|ts| - 1]
  {
    match FindCommand(ts, Commands)
    case Some(c) =>
      RemoveFirstKeepsLast(ts, c);
    case None =>
  }

  /** The conjunction tokens. */
  const Conjunctions: seq<string> := ["or", "ora"]

  /** A segment that is neither a conjunction nor a command: only such
      segments can be left over for the field name. */
  predicate Plain(t: string) {
    t !in Conjunctions && t !in Commands
  }

  /** The plain segments, in order. */
  function Plains(ts: seq<string>): (r: seq<string>)
    ensures |r| <= |ts|
  {
    if ts == [] then [] else (if Plain(ts[0]) then [ts[0]] else []) + Plains(ts[1..])
  }

  /** How many of the tokens are members of `vs`, counting repeats. */
  function CountIn(ts: seq<string>, vs: seq<string>): (n: nat)
    ensures n <= |ts|
  {
    if ts == [] then 0 else (if ts[0] in vs then 1 else 0) + CountIn(ts[1..], vs)
  }

  lemma {:induction false} CountInNone(ts: seq<string>, vs: seq<string>)
    ensures CountIn(ts, vs) == 0 <==> forall i :: 0 <= i < |ts| ==> ts[i] !in vs
  {
    if ts != [] {
      CountInNone(ts[1..], vs);
      assert forall i :: 1 <= i < |ts| ==> ts[i] == ts[1..][i - 1];
    }
  }

  lemma {:induction false} CountInTwo(ts: seq<string>, vs: seq<string>, a: string, b: string)
    requires a != b && a in ts && b in ts && a in vs && b in vs
    ensures CountIn(ts, vs) >= 2
  {
    if ts[0] == a || ts[0] == b {
      var other := if ts[0] == a then b else a;
      assert other in ts[1..];
      var i :| 0 <= i < |ts[1..]| && ts[1..][i] == other;
      CountInNone(ts[1..], vs);
    } else {
      CountInTwo(ts[1..], vs, a, b);
    }
  }

  /** Removing one token lowers the count of `vs` members by one exactly
      when the token is a member. */
  lemma {:induction false} RemoveFirstCount(ts: seq<string>, t: string, vs: seq<string>)
    requires t in ts
    ensures CountIn(RemoveFirst(ts, t), vs) == CountIn(ts, vs) - (if t in vs then 1 else 0)
  {
    if ts[0] != t {
      var r := RemoveFirst(ts, t);
      assert r[0] == ts[0] && r[1..] == RemoveFirst(ts[1..], t);
      RemoveFirstCount(ts[1..], t, vs);
    }
  }

  /** Removing a token that is not plain leaves the plain segments alone. */
  lemma {:induction false} RemoveFirstPlains(ts: seq<string>, t: string)
    requires t in ts && !Plain(t)
    ensures Plains(RemoveFirst(ts, t)) == Plains(ts)
  {
    if ts[0] != t {
      var r := RemoveFirst(ts, t);
      assert r[0] == ts[0] && r[1..] == RemoveFirst(ts[1..], t);
      RemoveFirstPlains(ts[1..], t);
    }
  }

  lemma {:induction false} AllPlain(ts: seq<string>)
    requires CountIn(ts, Conjunctions) == 0 && CountIn(ts, Commands) == 0
    ensures Plains(ts) == ts
  {
    if ts != [] {
      AllPlain(ts[1..]);
      assert ts == [ts[0]] + ts[1..];
    }
  }

  /** There are no plain segments exactly when every segment is a
      conjunction or a command. */
  lemma {:induction false} NoPlains(ts: seq<string>)
    ensures Plains(ts) == [] <==> forall k :: 0 <= k < |ts| ==> !Plain(ts[k])
  {
    if ts != [] {
      NoPlains(ts[1..]);
      assert forall k :: 1 <= k < |ts| ==> ts[k] == ts[1..][k - 1];
    }
  }

  /** The last plain segment is the last element of `Plains`. */
  lemma {:induction false} PlainsLast(ts: seq<string>, j: nat)
    requires j < |ts| && Plain(ts[j]) && forall k :: j < k < |ts| ==> !Plain(ts[k])
    ensures Plains(ts) != [] && Plains(ts)[|Plains(ts)| - 1] == ts[j]
  {
    if j == 0 {
      NoPlains(ts[1..]);
      assert forall k :: 0 <= k < |ts[1..]| ==> ts[1..][k] == ts[k + 1];
    } else {
      PlainsLast(ts[1..], j - 1);
    }
  }

  /** With at most one command occurrence there is at most one distinct
      command token. */
  lemma OneCommandCount(ts: seq<string>)
    requires CountIn(ts, Commands) <= 1
    ensures AtMostOneCommand(ts)
  {
    forall c1, c2 | c1 in ts && c2 in ts && c1 in Commands && c2 in Commands
      ensures c1 == c2
    {
      if c1 != c2 {
        CountInTwo(ts, Commands, c1, c2);
      }
    }
  }

  /** Stripping the conjunction when there is at most one: none is left,
      the command count and the plain segments are unchanged. */
  lemma StripOneConjunction(ts: seq<string>)
    requires CountIn(ts, Conjunctions) <= 1
    ensures var s := StripConjunction(ts);
      CountIn(s, Conjunctions) == 0 && CountIn(s, Commands) == CountIn(ts, Commands) && Plains(s) == Plains(ts)
  {
    ConjNotCommand();
    if "or" in ts || "ora" in ts {
      var t := if "or" in ts then "or" else "ora";
      assert t in Conjunctions && !Plain(t);
      var i :| 0 <= i < |ts| && ts[i] == t;
      CountInNone(ts, Conjunctions);
      RemoveFirstCount(ts, t, Conjunctions);
      RemoveFirstCount(ts, t, Commands);
      RemoveFirstPlains(ts, t);
    } else {
      CountInNone(ts, Conjunctions);
    }
  }

  /** Taking the command when there is at most one, and no conjunction:
      only plain segments are left. */
  lemma TakeOneCommand(ts: seq<string>)
    requires CountIn(ts, Conjunctions) == 0 && CountIn(ts, Commands) <= 1
    ensures TakeCommand(ts).1 == Plains(ts)
  {
    match FindCommand(ts, Commands)
    case Some(c) =>
      CommandToken(c);
      assert c !in Conjunctions && !Plain(c);
      var i :| 0 <= i < |ts| && ts[i] == c;
      CountInNone(ts, Commands);
      RemoveFirstCount(ts, c, Commands);
      RemoveFirstCount(ts, c, Conjunctions);
      RemoveFirstPlains(ts, c);
      AllPlain(RemoveFirst(ts, c));
    case None =>
      CountInNone(ts, Commands);
      AllPlain(ts);
  }

  /** With at most one conjunction and at most one command occurrence,
      `parse_filter` leaves exactly the plain segments; the field is the last
      of them, and IndexError is raised when there is none. */
  lemma ParseTokensPlains(ts: seq<string>)
    requires CountIn(ts, Conjunctions) <= 1 && CountIn(ts, Commands) <= 1
    ensures Plains(ts) == [] ==> ParseTokens(ts) == Err(IndexError)
    ensures Plains(ts) != [] ==> ParseTokens(ts).Ok? && ParseTokens(ts).value.0 == Plains(ts)[|Plains(ts)| - 1]
  {
    StripOneConjunction(ts);
    TakeOneCommand(StripConjunction(ts));
  }

  /** `parse_filter` on any key with at most one conjunction segment and at
      most one command segment, wherever they stand (`age__or__gt`,
      `x__age__gt`, `a__b__or`): the field is the last segment that is
      neither a conjunction nor a command, the command is the key's command
      segment or `exact`, and IndexError is raised exactly when every segment
      is a conjunction or a command. */
  lemma ParseFilterPlains(key: string)
    requires CountIn(Split(key), Conjunctions) <= 1 && CountIn(Split(key), Commands) <= 1
    ensures WellFormedKey(key)
    ensures var ts := Split(key);
      && (ParseFilter(key) == Err(IndexError) <==> forall k :: 0 <= k < |ts| ==> !Plain(ts[k]))
      && (Plains(ts) != [] ==> ParseFilter(key).Ok? && ParseFilter(key).value.0 == Plains(ts)[|Plains(ts)| - 1])
      && (ParseFilter(key).Ok? ==> forall c :: c in Commands && c in ts ==> ParseFilter(key).value.1 == c)
      && (ParseFilter(key).Ok? && (forall c :: c in Commands ==> c !in ts) ==> ParseFilter(key).value.1 == "exact")
  {
    var ts := Split(key);
    OneCommandCount(ts);
    ParseTokensPlains(ts);
    NoPlains(ts);
    ParseFilterSpec(key);
  }

  /** The same, by position: when segment `j` is plain and every later
      segment is a conjunction or a command, segment `j` is the field. */
  lemma ParseFilterLastPlain(key: string, j: nat)
    requires CountIn(Split(key), Conjunctions) <= 1 && CountIn(Split(key), Commands) <= 1
    requires j < |Split(key)| && Plain(Split(key)[j])
    requires forall k :: j < k < |Split(key)| ==> !Plain(Split(key)[k])
    ensures WellFormedKey(key)
    ensures ParseFilter(key).Ok? && ParseFilter(key).value.0 == Split(key)[j]
  {
    OneCommandCount(Split(key));
    ParseTokensLastPlain(Split(key), j);
  }

  lemma ParseTokensLastPlain(ts: seq<string>, j: nat)
    requires CountIn(ts, Conjunctions) <= 1 && CountIn(ts, Commands) <= 1
    requires j < |ts| && Plain(ts[j]) && forall k :: j < k < |ts| ==> !Plain(ts[k])
    ensures ParseTokens(ts).Ok? && ParseTokens(ts).value.0 == ts[j]
  {
    ParseTokensPlains(ts);
    PlainsLast(ts, j);
  }

  /** The command `parse_filter` returns is the key's command token, or
      `exact` when there is none. */
  lemma ParseTokensCommand(ts: seq<string>)
    requires AtMostOneCommand(ts)
    ensures ParseTokens(ts).Ok? ==> forall c :: c in Commands && c in ts ==> ParseTokens(ts).value.1 == c
    ensures ParseTokens(ts).Ok? && (forall c :: c in Commands ==> c !in ts) ==> ParseTokens(ts).value.1 == "exact"
  {
    var stripped := StripConjunction(ts);
    StripConjunctionMembers(ts);
    TakeCommandSpec(stripped);
  }

  /** The segments of a key built by the lookup grammar:
      `field[__cmd][__or|__ora]`. */
  function EncodeTokens(field: string, cmd: Option<string>, conj: Conj): (ts: seq<string>)
    ensures |ts| >= 1 && ts[0] == field
  {
    var cmdTokens := if cmd.Some? then [cmd.value] else [];
    var conjTokens := match conj case And => [] case Or => ["or"] case OrAll => ["ora"];
    [field] + cmdTokens + conjTokens
  }

  function EncodeKey(field: string, cmd: Option<string>, conj: Conj): string {
    Join(EncodeTokens(field, cmd, conj))
  }

  /** A field name the grammar can carry: no separator, no trailing
      underscore, and not itself a command or conjunction token. */
  predicate PlainField(field: string) {
    !HasSeparator(field) && !EndsWithUnderscore(field) && field !in Commands && field != "or" && field != "ora"
  }

  lemma {:induction false} EndsWithAppend(x: string, y: string, suffix: string)
    requires |y| >= |suffix|
    ensures EndsWith(x + y, suffix) <==> EndsWith(y, suffix)
  {
    assert (x + y)[|x + y| - |suffix|..] == y[|y| - |suffix|..];
  }

  lemma {:induction false} SeparatorInJoin(x: string, y: string)
    ensures HasSeparator(x + "__" + y)
    decreases |x|
  {
    if x != [] {
      SeparatorInJoin(x[1..], y);
      assert (x + "__" + y)[1..] == x[1..] + "__" + y;
    }
  }

  lemma {:induction false} RemoveFirstAppended(ts: seq<string>, t: string)
    requires t !in ts
    ensures RemoveFirst(ts + [t], t) == ts
  {
    if ts != [] {
      assert (ts + [t])[1..] == ts[1..] + [t];
      RemoveFirstAppended(ts[1..], t);
    }
  }

  /** A segment without underscores holds no separator. */
  lemma {:induction false} NoUnderscoreNoSeparator(s: string)
    requires forall i :: 0 <= i < |s| ==> s[i] != '_'
    ensures !HasSeparator(s)
    decreases |s|
  {
    if |s| >= 2 {
      NoUnderscoreNoSeparator(s[1..]);
    }
  }

  /** The command tokens are plain segments: no underscore, two letters or
      more, and neither conjunction token. */
  lemma CommandToken(c: string)
    requires c in Commands
    ensures |c| >= 2 && c != "or" && c != "ora" && !EndsWith(c, "ora")
    ensures forall i :: 0 <= i < |c| ==> c[i] != '_'
  {
  }

  lemma ConjNotCommand()
    ensures "or" !in Commands && "ora" !in Commands
  {
  }

  lemma EncodeSplit(field: string, cmd: Option<string>, conj: Conj)
    requires PlainField(field)
    requires cmd.Some? ==> cmd.value in Commands
    ensures Split(EncodeKey(field, cmd, conj)) == EncodeTokens(field, cmd, conj)
  {
    var ts := EncodeTokens(field, cmd, conj);
    if cmd.Some? {
      CommandToken(cmd.value);
      NoUnderscoreNoSeparator(cmd.value);
    }
    NoUnderscoreNoSeparator("or");
    NoUnderscoreNoSeparator("ora");
    assert forall i :: 0 <= i < |ts| ==> ts[i] == field || (cmd.Some? && ts[i] == cmd.value) || ts[i] == "or" || ts[i] == "ora";
    assert CanonicalTokens(ts);
    JoinSplit(ts);
  }

  lemma FindCommandUnique(ts: seq<string>, c: string)
    requires AtMostOneCommand(ts) && c in ts && c in Commands
    ensures TakeCommand(ts).0 == c
  {
  }

  lemma EncodeOneCommand(field: string, cmd: Option<string>, conj: Conj)
    requires PlainField(field)
    ensures AtMostOneCommand(EncodeTokens(field, cmd, conj))
  {
    var ts := EncodeTokens(field, cmd, conj);
    ConjNotCommand();
    forall c1, c2 | c1 in ts && c2 in ts && c1 in Commands && c2 in Commands
      ensures c1 == c2
    {
      assert c1 == cmd.value && c2 == cmd.value;
    }
  }

  lemma EncodeStrip(field: string, cmd: Option<string>, conj: Conj)
    requires PlainField(field)
    requires cmd.Some? ==> cmd.value in Commands
    ensures StripConjunction(EncodeTokens(field, cmd, conj)) == [field] + (if cmd.Some? then [cmd.value] else [])
  {
    var front := [field] + (if cmd.Some? then [cmd.value] else []);
    if cmd.Some? {
      CommandToken(cmd.value);
    }
    assert "or" !in front && "ora" !in front;
    match conj
    case And =>
      assert EncodeTokens(field, cmd, conj) == front;
    case Or =>
      assert EncodeTokens(field, cmd, conj) == front + ["or"];
      RemoveFirstAppended(front, "or");
    case OrAll =>
      assert EncodeTokens(field, cmd, conj) == front + ["ora"];
      assert "or" !in front + ["ora"];
      RemoveFirstAppended(front, "ora");
  }

  lemma EncodeParse(field: string, cmd: Option<string>, conj: Conj)
    requires PlainField(field)
    requires cmd.Some? ==> cmd.value in Commands
    ensures var ts := EncodeTokens(field, cmd, conj);
      && AtMostOneCommand(ts)
      && TakeCommand(StripConjunction(ts)) == (if cmd.Some? then cmd.value else "exact", [field])
  {
    EncodeOneCommand(field, cmd, conj);
    EncodeStrip(field, cmd, conj);
    var ts1 := StripConjunction(EncodeTokens(field, cmd, conj));
    match cmd
    case Some(c) =>
      assert ts1 == [field, c];
      assert AtMostOneCommand(ts1);
      FindCommandUnique(ts1, c);
      assert RemoveFirst(ts1, c) == [field];
    case None =>
      assert ts1 == [field];
      assert forall c :: c in Commands ==> c !in ts1;
  }

  /** `"__" + t` ends in `_or` only for `t == "or"` and in `ora` only for
      `t == "ora"`, among the command and conjunction tokens. */
  lemma SegmentSuffix(t: string)
    requires |t| >= 2 && forall i :: 0 <= i < |t| - 2 ==> t[i] != '_'
    ensures EndsWith("__" + t, "_or") <==> t == "or"
    ensures EndsWith("__" + t, "ora") <==> EndsWith(t, "ora")
  {
    var k := "__" + t;
    if |t| == 2 {
      assert k[|k| - 3..] == "_" + t;
      assert ("_" + t)[0] == '_' && ("_" + t)[1..] == t;
    } else {
      assert k[|k| - 3..] == t[|t| - 3..];
      assert t[|t| - 3] != '_';
    }
  }

  lemma CommandSuffix(c: string)
    requires c in Commands
    ensures !EndsWith("__" + c, "_or") && !EndsWith("__" + c, "ora")
  {
    CommandToken(c);
    SegmentSuffix(c);
  }

  lemma ConjSuffix(t: string)
    requires t == "or" || t == "ora"
    ensures EndsWith("__" + t, "_or") <==> t == "or"
    ensures EndsWith("__" + t, "ora") <==> t == "ora"
  {
    SegmentSuffix(t);
  }

  lemma EncodeConj(field: string, cmd: Option<string>, conj: Conj)
    requires PlainField(field)
    requires cmd.Some? ==> cmd.value in Commands
    ensures ConjOf(EncodeKey(field, cmd, conj)) == conj
  {
    var ts := EncodeTokens(field, cmd, conj);
    var key := EncodeKey(field, cmd, conj);
    match (cmd, conj)
    case (None, And) =>
      assert key == field;
    case (Some(c), And) =>
      assert ts == [field, c] && ts[1..] == [c];
      assert key == Join(ts) == field + "__" + Join(ts[1..]);
      AppendAssoc(field, "__", c);
      SeparatorInJoin(field, c);
      EndsWithAppend(field, "__" + c, "_or");
      EndsWithAppend(field, "__" + c, "ora");
      CommandSuffix(c);
    case (None, _) =>
      var t := if conj == Or then "or" else "ora";
      assert ts == [field, t] && ts[1..] == [t];
      assert key == Join(ts) == field + "__" + Join(ts[1..]);
      AppendAssoc(field, "__", t);
      SeparatorInJoin(field, t);
      EndsWithAppend(field, "__" + t, "_or");
      EndsWithAppend(field, "__" + t, "ora");
      ConjSuffix(t);
    case (Some(c), _) =>
      var t := if conj == Or then "or" else "ora";
      assert ts == [field, c, t];
      assert ts[1..] == [c, t] && ts[1..][1..] == [t];
      assert Join(ts[1..]) == c + "__" + Join(ts[1..][1..]);
      assert key == Join(ts) == field + "__" + Join(ts[1..]);
      assert key == field + "__" + (c + "__" + t);
      AppendAssoc(c, "__", t);
      AppendAssoc(field + "__", c, "__" + t);
      SeparatorInJoin(field, c + "__" + t);
      EndsWithAppend(field + "__" + c, "__" + t, "_or");
      EndsWithAppend(field + "__" + c, "__" + t, "ora");
      ConjSuffix(t);
  }

  /** Round trip of the lookup grammar: parsing an encoded key gives back its
      field and command (`exact` when none was written), and classifying it
      gives back its conjunction. */
  lemma EncodeKeyRoundTrip(field: string, cmd: Option<string>, conj: Conj)
    requires PlainField(field)
    requires cmd.Some? ==> cmd.value in Commands
    ensures WellFormedKey(EncodeKey(field, cmd, conj))
    ensures ParseFilter(EncodeKey(field, cmd, conj)) == Ok((field, if cmd.Some? then cmd.value else "exact"))
    ensures ConjOf(EncodeKey(field, cmd, conj)) == conj
  {
    EncodeSplit(field, cmd, conj);
    EncodeParse(field, cmd, conj);
    EncodeConj(field, cmd, conj);
  }

  /** The conjunction of a key, as the classification loop of `filter`
      decides it: a key without `__` is AND; otherwise its last three
      characters decide (`_or`: OR, `ora`: OR-ALL, anything else: AND). */
  function ConjOf(key: string): (c: Conj) {
    if !HasSeparator(key) then And
    else if EndsWith(key, "_or") then Or
    else if EndsWith(key, "ora") then OrAll
    else And
  }
}
