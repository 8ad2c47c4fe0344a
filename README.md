# An in-memory JSON query engine, modelled in Dafny

The system is a small in-memory query engine, the `QuerySet` class of
`main.py`. It runs Django-style lookups such as `age__gt__or=5` over a list of
JSON records. This project models the whole engine except loading the
records from a file. It covers:

- **The lookup parser** `parse_filter`. It splits a key on `__`, drops one
  `or` (or else one `ora`) segment and takes out the command segment, `exact`
  when there is none. The last remaining segment is the field.
- **The predicate evaluator** `check_command_condition`, with its nine
  commands and its error for an unknown one.
- **The row matcher inside `filter`.**
  - Each key is classified as AND, OR (suffix `_or`) or OR-ALL (suffix
    `ora`).
  - The source is scanned with the three counters, skipping further OR lookups
    once one has passed and stopping at a failing AND lookup.
  - The inclusion test decides each record, and the first-only mode stops
    after one record.
- **The exclusion filter** `_exclude_results`.
- **The process-wide result cache** `qs_cache`, modelled as an explicit
  `QueryCache` object shared by every handle.
- **The handle operations** `filter`, `exclude`, `first`, `order_by`,
  `values_list`, `count`/`len`, truth value and `in`.

Files, leaves first:

| file | module | contents |
|---|---|---|
| values.dfy | `Values` | record values, errors, `Result`/`Option`, truthiness, string order and substring |
| lookups.dfy | `Lookups` | key splitting, `ParseFilter`, the conjunction of a key, and an encoder of keys whose round trip through the parser is proved |
| predicates.dfy | `Predicates` | `CheckCommandCondition` and its meaning per command |
| filtersets.dfy | `FilterSets` | filter sets as insertion-ordered dicts, `dict.update` as `Update`/`Merge` |
| matcher.dfy | `Matcher` | classification, the counter-based scan as functions and as loop methods, and the declarative rule `RowMatches` it is proved to decide |
| exclusion.dfy | `Exclusion` | `_exclude_results` as functions and as loop methods, and what it removes |
| ordering.dfy | `Ordering` | the sort of `order_by`: sorted, a permutation, stable, and its errors |
| queryset.dfy | `QuerySets` | the `QuerySet` and `QueryCache` classes and their methods |

Every Python exception becomes an `Err` of `Values.Error`:

| Python exception | `Values.Error` |
|---|---|
| `KeyError` for a missing field | `KeyError(field)` |
| `ValueError('Empty lookup')` | `EmptyLookup` |
| `pop` from an empty list | `IndexError` |
| `ValueError` for an unknown command | `UnknownCommand(cmd)` |
| a comparison Python refuses | `TypeMismatch` |

The loaded records are a constructor parameter.

A filter set is a `seq<(string, Value)>` with distinct keys, kept in
insertion order. Iteration order drives `continue`/`break` in the scan, and
`str(dict)` in the cache key depends on it. The cache maps the merged filter
set itself to the handle.

### Behaviour of the code that one might not expect

- **Exclusion with several lookups.** One might expect a record to be
  excluded when all exclusion lookups succeed. The code in fact sets the flag
  to 1 instead of counting (main.py:91), so a set of two or more lookups
  removes nothing. A set of exactly one lookup removes the records it hits
  (`Exclusion.ExcludeSeveral`, `Exclusion.ExcludeSingle`).
- **Exclusion is not the complement of `filter`.** A record whose value is
  absent or falsy is never excluded (main.py:90).
- **`exclude` works on the handle's current results.** It never re-derives
  them from the source (main.py:77).
- **What the cache key ignores.** The key is only the merged filter set
  (main.py:119). A cached handle is returned whatever `get_first_only` and the
  exclusion set of the caller are (`QuerySets.FirstOnlyThenAll`).
- **`order_by` mutates cached handles.** One might expect a materialised
  handle never to change. The code in fact overwrites the results of the
  handle `filter()` returns, which may be the cached one (main.py:208-209).
- **Classification and parsing can disagree about `or`.** One might expect
  the conjunction segment to count wherever it stands in a key.
  Classification in fact looks only at the key's last three characters
  (main.py:137-143), while the parser removes an `or`/`ora` segment wherever
  it is. `a__or__gt` is parsed as (`a`, `gt`) but classified as AND.
- **The sign of a descending sort.** A leading `-` asks for descending order,
  and every `-` in the field name is removed (main.py:204).
- **Key order matters.** One might expect the order of the keys not to
  affect results. In the code, once one OR lookup has passed the remaining OR
  lookups are skipped (main.py:161-162), so which error (if any) a record
  raises depends on the order.

## Model

| member | source | states |
|---|---|---|
| Values.Truthy | main.py:90 | Python's truth value of a field value: None, False, 0, the empty string and the empty list are false; RowHitMeaning states that exclusion hits only truthy values |
| Values.GetOrNull | main.py:89 | `result.get(lookup)`: the field's value, or None when the record lacks the field; Exclusion.Step uses it |
| Values.IsSubstring | main.py:44-59 | Python's `a in b` on two strings, a contiguous occurrence (the empty string occurs everywhere); CommandsAreNotSubstrings and Member state what it decides |
| Values.StrLess | main.py:48-55 | Python's `<` on strings, lexicographic on code points; StrLessIrreflexive, StrLessAsymmetric, StrLessTransitive and StrLessTotal state it is a strict total order |
| Values.StrLessIrreflexive | main.py:48-55 | no string is less than itself |
| Values.StrLessAsymmetric | main.py:48-55 | `a < b` excludes `b < a` |
| Values.StrLessTransitive | main.py:48-55 | `a < b` and `b < c` give `a < c` |
| Values.StrLessTotal | main.py:48-55 | two distinct strings are ordered one way or the other |
| Lookups.HasSeparator | main.py:134 | Python's `'__' in lookup`: two adjacent underscores occur somewhere in the key; ConjOf uses it to send keys without `__` to AND |
| Lookups.EndsWith | main.py:137-141 | Python's `lookup[-3:] == v` for a three-character `v`; EncodeConj states the conjunction it recovers |
| Lookups.Split | main.py:101 | splitting on `__` yields at least one segment |
| Lookups.SplitJoin | main.py:101 | joining the segments of a split with `__` gives back the key |
| Lookups.JoinSplit | main.py:101 | splitting the join of canonical segments gives back the segments |
| Lookups.SplitNoSeparator | main.py:101 | a key without `__` splits into the one segment that is the key itself |
| Lookups.SplitCanonical | main.py:101 | the segments of a split have no `__` inside and, except the last, do not end in `_` |
| Lookups.RemoveFirst | main.py:103-109 | `list.remove(t)`: its meaning is stated by RemoveFirstSplice, RemoveFirstMultiset and RemoveFirstMembers |
| Lookups.RemoveFirstAt | main.py:103-109 | removing `t` whose first occurrence is at position `i` gives the tokens before `i` followed by those after it |
| Lookups.RemoveFirstSplice | main.py:103-109 | `list.remove(t)` cuts out the first occurrence of `t`: the result is the tokens before it followed by the tokens after it |
| Lookups.RemoveFirstMultiset | main.py:102-109 | `list.remove` takes out exactly one occurrence: the multiset loses one copy of the token |
| Lookups.RemoveFirstMembers | main.py:102-109 | after `list.remove(t)` every token was there before, and every other token is still there |
| Lookups.StripConjunction | main.py:102-105 | one token is dropped exactly when `or` or `ora` is among the tokens |
| Lookups.StripConjunctionMembers | main.py:102-105 | dropping the conjunction adds no token and keeps every command token |
| Lookups.FindCommand | main.py:106-108 | a command found is a command token of the key; none found means the key has no command token |
| Lookups.TakeCommand | main.py:106-111 | the command segment taken out of the tokens, or `exact`; its meaning is stated by TakeCommandSpec |
| Lookups.TakeCommandSpec | main.py:106-111 | the command is always one of the nine; it is the key's command token, removed once, or `exact` with the tokens untouched |
| Lookups.ParseFilter | main.py:100-113 | the only error parsing raises is IndexError |
| Lookups.ParseTokens | main.py:102-113 | `parse_filter` after the split; its meaning is stated by ParseTokensPlains, ParseTokensField and ParseTokensCommand |
| Lookups.ParseFilterSpec | main.py:100-113 | the field is a segment of the key; the command is the key's command segment or `exact`; parsing fails exactly when only conjunction and command segments are left |
| Lookups.ParseFilterField | main.py:100-113 | when the key's last segment is neither a conjunction nor a command, parsing succeeds and that segment is the field |
| Lookups.ParseTokensField | main.py:102-112 | the same on the split tokens: the last plain token is what `pop` returns |
| Lookups.ParseTokensPlains | main.py:102-112 | with at most one conjunction and at most one command token, parsing fails with IndexError exactly when no token is plain, and otherwise the field is the last plain token |
| Lookups.ParseTokensLastPlain | main.py:102-112 | under the same conditions, a plain token followed only by conjunction and command tokens is the field |
| Lookups.ParseTokensCommand | main.py:106-111 | with at most one distinct command token, the command is that token, or `exact` when there is none |
| Lookups.ParseFilterPlains | main.py:100-113 | for a key with at most one conjunction segment and at most one command segment: parsing raises IndexError exactly when every segment is a conjunction or a command; otherwise the field is the last segment that is neither, and the command is the key's command segment or `exact` |
| Lookups.ParseFilterLastPlain | main.py:100-113 | for such a key, a segment that is neither a conjunction nor a command and is followed only by such segments is the field (`age__or__gt` gives `age`, `x__age__gt` gives `age`, `a__b__or` gives `b`) |
| Lookups.RemoveFirstKeepsLast | main.py:103-109 | removing a token other than the last keeps the last token last |
| Lookups.EncodeSplit | main.py:101 | a key built from a plain field, an optional command and a conjunction splits into exactly those segments |
| Lookups.EncodeStrip | main.py:102-105 | stripping the conjunction from such a key leaves the field and the command |
| Lookups.EncodeParse | main.py:100-113 | parsing the segments of such a key gives back the field and the command (`exact` when none) |
| Lookups.EncodeConj | main.py:134-143 | classification gives back the conjunction the key was built with |
| Lookups.ConjOf | main.py:134-143 | the conjunction of a key from its last three characters; EncodeConj and Matcher.ParseLookup state what it yields |
| Lookups.EncodeKeyRoundTrip | main.py:100-145 | round trip: an encoded key is well formed, parses to its field and command, and classifies to its conjunction |
| Predicates.Less | main.py:48-55 | ordering succeeds exactly on two integers or two strings |
| Predicates.Member | main.py:56-59 | `in` on a list is list membership; it succeeds exactly on a list, or on two strings |
| Predicates.CheckCommandCondition | main.py:43-63 | a command of the nine never raises UnknownCommand and fails only on operands it cannot compare; a command outside the nine that is a substring of `exact` or `ne` (such as `e`, `n` or the empty string) selects equality or inequality; any other command raises UnknownCommand and nothing else |
| Predicates.CommandsAreNotSubstrings | main.py:44-47 | among the nine commands, `cmd in 'exact'` holds only for `exact` and `cmd in 'ne'` only for `ne` |
| Predicates.EqualityCommands | main.py:44-47 | `exact` is equality and `ne` is inequality, on any values |
| Predicates.OrderCommands | main.py:48-55 | `gt`, `gte`, `lt`, `lte` are the integer order on integers and lexicographic order on strings, each of the four stated for both kinds |
| Predicates.OrderMismatch | main.py:48-55 | the four order commands raise TypeMismatch on any other pair of values |
| Predicates.MembershipCommands | main.py:56-61 | `in`/`nin` are list membership and its negation; `isnull` is `(first is None) == second` |
| Predicates.OrderDuality | main.py:48-55 | `gte` is the negation of `lt`, and `lte` the negation of `gt` |
| FilterSets.Get | main.py:154 | a value is found exactly for a key of the set |
| FilterSets.Update | main.py:117 | `d[k] = v` on an insertion-ordered dict; UpdateSpec, UpdateGetOther, UpdateIsDict and UpdateKeys state its meaning |
| FilterSets.Merge | main.py:116-117 | `dict.update(kw)` as one `d[k] = v` per entry in order; MergeIsDict, MergeKeys and MergeGet state its meaning |
| FilterSets.UpdateSpec | main.py:117 | `d[k] = v`: an existing key keeps its place, a new key is appended, and `k` now maps to `v` |
| FilterSets.UpdateGetOther | main.py:117 | updating `k` leaves every other key's value alone |
| FilterSets.UpdateIsDict | main.py:117 | updating keeps the keys distinct |
| FilterSets.UpdateKeys | main.py:117 | the keys after an update are the old keys and `k` |
| FilterSets.MergeIsDict | main.py:116-117 | `dict.update` keeps the keys distinct |
| FilterSets.MergeKeys | main.py:116-117 | the merged keys are exactly the keys of both sets |
| FilterSets.MergeGet | main.py:116-117 | a merged key has the new value if the update names it, and the old value otherwise |
| FilterSets.AnyTruthy | main.py:70 | `any(kwargs.values())`: some value of the set is truthy; QuerySet.Exclude's early return is taken exactly when it is false |
| FilterSets.MergeIntoEmpty | main.py:73-76 | updating an empty dict with `kw` gives `kw` |
| FilterSets.MergeOnto | main.py:116-117 | with no shared keys, the update appends the new entries in order |
| Matcher.ParseLookup | main.py:132-133 | a parsed lookup keeps its key and value and takes its conjunction from the key; parsing fails only with IndexError |
| Matcher.ParseLookupFields | main.py:132-133 | a lookup's field and command are what `parse_filter` returns, and its error is `parse_filter`'s |
| Matcher.Classify | main.py:130-145 | classification yields one lookup per entry, or IndexError |
| Matcher.ClassifyEntries | main.py:132-145 | classification fails exactly when some key does not parse, and otherwise holds each entry's lookup at its position |
| Matcher.CollectFails | main.py:132-133 | collecting the parses fails exactly when one of them fails |
| Matcher.ClassifyLookups | main.py:127-145 | the classification loop yields the parsed lookups and counts the AND, OR and OR-ALL lookups exactly |
| Matcher.Eval | main.py:167-171 | an empty field raises EmptyLookup, a missing field raises KeyError, and otherwise the evaluator decides |
| Matcher.ScanFrom | main.py:153-179 | the inner loop from given counters; ScanOutcome, ScanTotal and ScanSkipsOr state its meaning |
| Matcher.Scan | main.py:149-179 | the inner loop from zero counters; ScanOutcome and ScanDecides state its meaning |
| Matcher.Admits | main.py:181-184 | the inclusion test on the counters; ScanDecides proves it equivalent to the declarative rule |
| Matcher.Select | main.py:147-187 | the outer loop over the source; SelectMatches, SelectFirst, SelectErr and SelectSubsequence state its meaning |
| Matcher.CountConj | main.py:127-145 | the counters `filters_number`, `filters_number_or` and `filters_number_ora`: the lookups with a given conjunction; ClassifyLookups states that the classification loop computes them exactly |
| Matcher.PassCount | main.py:149-177 | no more lookups of a conjunction pass than there are |
| Matcher.ScanOutcome | main.py:149-179 | after the inner loop, the AND counter is full exactly when every AND lookup passes; then the OR-ALL counter counts the passing OR-ALL lookups, and the OR counter is positive exactly when some OR lookup passes |
| Matcher.ScanDecides | main.py:149-184 | the counter-based inclusion test admits a record exactly when the declarative rule holds |
| Matcher.ScanTotal | main.py:153-179 | the inner loop raises only if some lookup raises on the record |
| Matcher.ScanSkipsOr | main.py:158-163 | once an OR lookup has passed, a tail made only of OR lookups is skipped whole: the counters stay as they are, even where a lookup would raise |
| Matcher.NonOr | main.py:158-163 | the lookups that are not OR lookups, in order: none of them is an OR lookup and each is one of the given lookups |
| Matcher.ScanIgnoresOr | main.py:153-179 | once an OR lookup has passed, the rest of the loop, with AND and OR-ALL lookups mixed in, gives the same counters or the same error as the loop over its non-OR lookups alone |
| Matcher.AndOnly | main.py:181-184 | with AND lookups only, a record matches exactly when every lookup passes |
| Matcher.SelectMatches | main.py:147-185 | a scan that does not raise returns exactly the matching records, in source order |
| Matcher.SelectFirst | main.py:185-187 | in first-only mode the scan returns the first matching record, or nothing |
| Matcher.SelectErr | main.py:147-179 | the scan raises exactly when some record raises |
| Matcher.MatchingMembers | main.py:181-185 | the matching records are exactly the source records that satisfy the rule, as a subsequence of the source |
| Matcher.SelectSubsequence | main.py:147-187 | the selected records are a subsequence of the source, at most one in first-only mode |
| Matcher.NoLookupsSelectsAll | main.py:147-185 | with no lookups every source record is selected |
| Matcher.ParseLookupKnown | main.py:106-111 | a parsed lookup's command is one of the nine |
| Matcher.ClassifyKnown | main.py:132-133 | every classified lookup carries one of the nine commands |
| Matcher.ScanFromKnown | main.py:153-179 | the inner loop over such lookups never raises UnknownCommand |
| Matcher.SelectKnown | main.py:147-187 | the outer loop over such lookups never raises UnknownCommand |
| Matcher.ScanRow | main.py:149-179 | the loop over the lookups of one record computes the counters of `Scan`, or its error |
| Matcher.SelectRows | main.py:147-187 | the loop over the source with the counter test returns what `Select` specifies |
| Exclusion.RowHitMeaning | main.py:86-91 | the per-record flag is set exactly when some lookup hits a truthy value, and the record raises exactly when some lookup raises |
| Exclusion.Step | main.py:88-91 | one exclusion lookup on one record; HitOne and RowHitMeaning state its meaning |
| Exclusion.RowHit | main.py:86-91 | the per-record flag; RowHitMeaning states when it is set and when it raises |
| Exclusion.RowHitKnown | main.py:86-91 | the per-record flag never raises UnknownCommand on parsed lookups |
| Exclusion.ToRemoveMembers | main.py:84-93 | a record is put in `to_remove` exactly when there is one lookup and it hits the record |
| Exclusion.ToRemoveErr | main.py:85-91 | building `to_remove` raises exactly when some record raises |
| Exclusion.ToRemove | main.py:84-93 | the `to_remove` list; ToRemoveMembers and ToRemoveErr state its meaning |
| Exclusion.ToRemoveKnown | main.py:84-93 | building `to_remove` never raises UnknownCommand |
| Exclusion.Without | main.py:94 | the comprehension; WithoutKept, WithoutAll and WithoutSubsequence state its meaning |
| Exclusion.WithoutKept | main.py:94 | dropping the listed records keeps exactly the records no lookup hits |
| Exclusion.WithoutAll | main.py:94 | dropping records none of which are listed changes nothing |
| Exclusion.WithoutSubsequence | main.py:94 | what is kept is a subsequence of the input |
| Exclusion.ExcludeNothing | main.py:81-83 | an empty exclusion set returns the records unchanged |
| Exclusion.ExcludeSingle | main.py:80-94 | one lookup removes exactly the records it hits, and keeps the others in order |
| Exclusion.ExcludeSeveral | main.py:86-93 | two or more lookups remove nothing, since the flag is never above 1 |
| Exclusion.ExcludeSubsequence | main.py:80-94 | exclusion returns an order-preserving subsequence of its input |
| Exclusion.Excluded | main.py:80-94 | `_exclude_results`; ExcludeNothing, ExcludeSingle, ExcludeSeveral and ExcludeSubsequence state its meaning |
| Exclusion.ExcludedKnown | main.py:80-94 | `_exclude_results` never raises UnknownCommand |
| Exclusion.HitOne | main.py:88-91 | one lookup applied to one record: its parse error, or a hit on a truthy value that satisfies the command |
| Exclusion.HitRow | main.py:86-91 | the loop over the lookups computes the flag of `RowHit`, or its error |
| Exclusion.DropListed | main.py:94 | the comprehension keeps the records not in `to_remove`, in order |
| Exclusion.ExcludeResults | main.py:80-94 | the two loops return what `Excluded` specifies |
| Ordering.RemoveAll | main.py:204 | `replace('-', '')` leaves no `-`, drops exactly the `-` characters (its length falls by their number) and keeps the rest in order; it is the identity when there is none |
| Ordering.SortKey | main.py:203-207 | descending exactly when the spec starts with `-`; then the field is the spec without any of its `-` characters; otherwise the field is the spec |
| Ordering.SortKeyDescending | main.py:203-205 | `-field` for a field without `-` sorts by `field`, descending |
| Ordering.Insert | main.py:209 | inserting into a sorted run adds exactly that record |
| Ordering.SortBy | main.py:209 | sorting is a permutation |
| Ordering.SortBySorted | main.py:209 | with comparable keys the result is sorted, descending when asked |
| Ordering.SortByStable | main.py:209 | stability: the records with any one key keep their relative order, in both directions |
| Ordering.OrderRowsMeaning | main.py:202-209 | `order_by`'s records are sorted, a permutation and stable; it raises KeyError exactly when a record lacks the field, and TypeMismatch exactly when two or more keys cannot be compared |
| Ordering.OrderRows | main.py:202-209 | the records `order_by` sorts into; OrderRowsMeaning states its meaning |
| Ordering.SortedKeys | main.py:209 | integer keys do not decrease in ascending order and do not increase in descending order |
| QuerySets.MergeWellFormed | main.py:116-117 | merging sets of well-formed keys gives a set of well-formed keys |
| QuerySets.Updated | main.py:116-117 | `dict(fs or {})` updated with `kw` is a dict of well-formed keys |
| QuerySets.Pipeline | main.py:127-191 | the records a cache miss stores; PipelineSubsequence, PipelineMatches, PipelineNoFilters and PipelineKnownCommands state its meaning |
| QuerySets.PipelineSubsequence | main.py:127-191 | what `filter` stores is a subsequence of the source, at most one record in first-only mode |
| QuerySets.PipelineNoFilters | main.py:127-191 | with no filters and no exclusions `filter` returns the whole source |
| QuerySets.PipelineMatches | main.py:127-187 | without exclusions `filter` returns the matching records, or the first of them in first-only mode |
| QuerySets.RunPipeline | main.py:127-191 | classification, scan and exclusion together compute `Pipeline` |
| QuerySets.PipelineKnownCommands | main.py:127-191 | `filter` never raises the unknown-command error, since every command it evaluates comes from `parse_filter` |
| QuerySets.Head | main.py:196-200 | `first` returns the first record, None for an empty result or an IndexError, and re-raises other errors |
| QuerySets.Column | main.py:214 | the comprehension succeeds exactly when every record has the field, and then lists each record's value in order |
| QuerySets.QueryCache.constructor | main.py:9 | the cache starts empty |
| QuerySets.QuerySet.constructor | main.py:21-28 | a new handle holds the given filter sets and source, and no results |
| QuerySets.QuerySet.Count | main.py:39-40 | the count is zero exactly when the handle is falsy |
| QuerySets.QuerySet.NonEmpty | main.py:30-31 | the truth value of a handle; Count states that it is false exactly when the count is zero |
| QuerySets.QuerySet.Contains | main.py:18-19 | `x in qs` is membership in the handle's results |
| QuerySets.QuerySet.ValuesList | main.py:212-214 | `values_list` has one value per result, the parsed field's value of each result; it fails with IndexError from parsing or KeyError for a record without the field |
| QuerySets.QuerySet.GetNewQs | main.py:96-97 | a fresh handle with the same filter sets and no results |
| QuerySets.QuerySet.Filter | main.py:115-194 | a cache hit returns the cached handle and changes nothing; a miss scans once and caches a fresh handle holding the records of `Pipeline` under the merged set; an error caches nothing |
| QuerySets.QuerySet.Exclude | main.py:68-78 | with no truthy value the new handle keeps these results; otherwise it merges the exclusion sets and holds `Excluded` of these results |
| QuerySets.QuerySet.First | main.py:196-200 | `first` is the head of the cached results on a hit, which leaves the cache as it was; on a miss it is the head of the first-only pipeline, a fresh handle with those records is cached under the merged set, and an error caches nothing |
| QuerySets.QuerySet.Rederive | main.py:208 | `get_new_qs().filter()` is the cached handle for this filter set, or a fresh scan with this handle's exclusion set, now cached |
| QuerySets.QuerySet.SortResults | main.py:208-209 | the results are replaced by their ordering, or left alone when ordering raises |
| QuerySets.QuerySet.OrderBy | main.py:202-210 | the re-derived handle, possibly the cached one, now holds the ordering of its records; after a miss whose sort raises, the newly cached handle holds the unsorted records; no other handle's results change, and no handle's filter sets change |
| QuerySets.RepeatFilter | main.py:119-122 | a repeated `filter` returns the identical handle and scans at most once in all |
| QuerySets.FirstOnlyThenAll | main.py:119-122 | after a first-only miss, a plain `filter` with the same filters returns that handle of at most one record |

## Left out

- Loading `source.json` in the constructor (main.py:27-28) is file I/O. The
  records are a constructor parameter.
- `__str__` and `__repr__` (main.py:33-37) are presentation only.
- Floats and JSON objects as field values are not modelled. A `Value` is
  null, a boolean, an integer, a string or a list.
- Predicates.EqualityCommands: equality is structural on `Value`. Python's
  `True == 1` and `1 in [True]` are not modelled.
- Predicates.OrderCommands: only int/int and str/str are ordered. Python 2's
  ordering of mixed or other types (None, booleans, lists) is not modelled, and
  gives TypeMismatch instead (see Predicates.OrderMismatch).
- Predicates.MembershipCommands: only list membership and string-in-string
  are modelled. `in` on other right-hand operands gives TypeMismatch.
- Ordering.OrderRowsMeaning: sorting by keys that are not all integers or all
  strings gives TypeMismatch. Python 2 would sort them by its mixed-type order.
- Lookups.ParseFilter: it requires that a key holds at most one distinct
  command segment. With two, Python's `set.pop` picks one arbitrarily
  (main.py:106-108).
- Iteration order is modelled as insertion order. Python 2 iterates a dict
  in hash order.
- The cache key is the merged filter set rather than `str()` of it. For string
  keys and the modelled values the two are in one-to-one correspondence.
- Sharing of list objects between handles is not modelled, because results
  are values here. The code never mutates a result list in place: `order_by`
  assigns a new list.
- Concurrency: the code has none, and the cache is an explicit object.
- QueryCache.scans is a ghost counter of source scans. It is a proof device
  used to state that a cache hit does not scan, not part of the system.
- QuerySets.QuerySet.OrderBy: the records it sorts are returned as a ghost
  out-parameter `unsorted`. That lets the contract name the records of a
  cache hit, which are not otherwise visible after the call.
