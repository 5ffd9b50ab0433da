/** Which records form the rows of an environment, and in which order:
    `getQualificationsForEnvironment` and the start-date sort. */
module Filtering {
  import opened Sequences
  import opened Calendar
  import opened Records

  /** The value of the environment and team selectors that disables them. */
  const All := "all"

  /** The view's filters: environment selector, team selector, search box. */
  datatype Filters = Filters(environment: string, team: string, searchTerm: string)

  /** `toLowerCase` on one character, for ASCII and the Latin-1 capitals. */
  function LowerChar(c: char): (l: char)
    ensures ('A' <= c <= 'Z' || ('À' <= c <= 'Þ' && c != '×')) ==> l as int == c as int + 32
    ensures !('A' <= c <= 'Z' || ('À' <= c <= 'Þ' && c != '×')) ==> l == c
  {
    if 'A' <= c <= 'Z' || ('À' <= c <= 'Þ' && c != '×') then (c as int + 32) as char else c
  }

  function ToLower(s: string): (r: string)
    ensures |r| == |s| && forall i :: 0 <= i < |s| ==> r[i] == LowerChar(s[i])
  {
    seq(|s|, i requires 0 <= i < |s| => LowerChar(s[i]))
  }

  /** Lower-casing twice changes nothing more than lower-casing once. */
  lemma ToLowerIdempotent(s: string)
    ensures ToLower(ToLower(s)) == ToLower(s)
  {
  }

  /** `needle` occurs in `hay` starting at index `i`. */
  predicate OccursAt(hay: string, needle: string, i: int) {
    0 <= i <= |hay| - |needle| && hay[i..i + |needle|] == needle
  }

  /** `hay.includes(needle)`: `needle` occurs in `hay` at some position. */
  function Includes(hay: string, needle: string): (b: bool)
    ensures b <==> exists i :: OccursAt(hay, needle, i)
    decreases |hay|
  {
    if |needle| > |hay| then false
    else if hay[..|needle|] == needle then (assert OccursAt(hay, needle, 0); true)
    else
      assert hay[0..|needle|] == hay[..|needle|];
      assert !OccursAt(hay, needle, 0);
      assert forall i :: i != 0 && OccursAt(hay, needle, i) ==> OccursAt(hay[1..], needle, i - 1);
      assert forall j :: OccursAt(hay[1..], needle, j) ==> OccursAt(hay, needle, j + 1);
      Includes(hay[1..], needle)
  }

  /** The search box: empty, or a case-insensitive substring of the name, the
      description or the team. */
  predicate MatchesSearch(q: Qualification, searchTerm: string) {
    searchTerm == "" ||
    Includes(ToLower(q.name), ToLower(searchTerm)) ||
    Includes(ToLower(q.description), ToLower(searchTerm)) ||
    Includes(ToLower(q.team), ToLower(searchTerm))
  }

  /** The four conditions of `getQualificationsForEnvironment`. */
  predicate Matches(q: Qualification, environmentName: string, filters: Filters) {
    q.environment == environmentName &&
    (filters.environment == All || q.environment == filters.environment) &&
    (filters.team == All || q.team == filters.team) &&
    MatchesSearch(q, filters.searchTerm)
  }

  function QualificationsForEnvironment(qs: seq<Qualification>, environmentName: string, filters: Filters): seq<Qualification> {
    Filter(qs, (q: Qualification) => Matches(q, environmentName, filters))
  }

  /** An environment's records are exactly the matching records, in their
      order in the list, each as often as it occurs there. */
  lemma QualificationsForEnvironmentSpec(qs: seq<Qualification>, environmentName: string, filters: Filters)
    ensures forall q :: q in QualificationsForEnvironment(qs, environmentName, filters) <==>
              q in qs && Matches(q, environmentName, filters)
    ensures forall q :: multiset(QualificationsForEnvironment(qs, environmentName, filters))[q] ==
              if Matches(q, environmentName, filters) then multiset(qs)[q] else 0
    ensures IsSubsequence(QualificationsForEnvironment(qs, environmentName, filters), qs)
  {
    var p := (q: Qualification) => Matches(q, environmentName, filters);
    forall q ensures q in Filter(qs, p) <==> q in qs && p(q) {
      FilterMembership(qs, p, q);
    }
    forall q ensures multiset(Filter(qs, p))[q] == if p(q) then multiset(qs)[q] else 0 {
      FilterMultiplicity(qs, p, q);
    }
    FilterIsSubsequence(qs, p);
  }

  /** A record shows up under one environment at most. */
  lemma EnvironmentsDisjoint(qs: seq<Qualification>, env1: string, env2: string, filters: Filters, q: Qualification)
    requires env1 != env2
    ensures !(q in QualificationsForEnvironment(qs, env1, filters) && q in QualificationsForEnvironment(qs, env2, filters))
  {
    QualificationsForEnvironmentSpec(qs, env1, filters);
    QualificationsForEnvironmentSpec(qs, env2, filters);
  }

  /** With every filter off, an environment lists all its records. */
  lemma NoFilterListsEnvironment(qs: seq<Qualification>, environmentName: string, q: Qualification)
    ensures q in QualificationsForEnvironment(qs, environmentName, Filters(All, All, "")) <==>
              q in qs && q.environment == environmentName
  {
    QualificationsForEnvironmentSpec(qs, environmentName, Filters(All, All, ""));
  }

  // ---------------------------------------------------------------------------
  // Row order

  /** The comparator `(a, b) => a.startDate - b.startDate`. */
  function CompareStart(a: Qualification, b: Qualification): int {
    a.startDate - b.startDate
  }

  predicate SortedByStart(s: seq<Qualification>) {
    forall i, j :: 0 <= i < j < |s| ==> CompareStart(s[i], s[j]) <= 0
  }

  /** Insert `x` before the first element that does not start earlier. */
  function Insert(x: Qualification, s: seq<Qualification>): seq<Qualification> {
    if s == [] || CompareStart(x, s[0]) <= 0 then [x] + s else [s[0]] + Insert(x, s[1..])
  }

  /** `[...records].sort(CompareStart)`: a stable sort, as `Array.prototype.sort`
      has been required to be since ECMAScript 2019. */
  function SortByStart(s: seq<Qualification>): seq<Qualification> {
    if s == [] then [] else Insert(s[0], SortByStart(s[1..]))
  }

  /** The records starting on day `k`. */
  function StartsOn(k: Day): Qualification -> bool {
    (q: Qualification) => q.startDate == k
  }

  lemma {:induction false} InsertMultiset(x: Qualification, s: seq<Qualification>)
    ensures multiset(Insert(x, s)) == multiset(s) + multiset{x}
  {
    if s != [] && CompareStart(x, s[0]) > 0 {
      InsertMultiset(x, s[1..]);
      assert s == [s[0]] + s[1..];
    }
  }

  lemma {:induction false} InsertSorted(x: Qualification, s: seq<Qualification>)
    requires SortedByStart(s)
    ensures SortedByStart(Insert(x, s))
  {
    if s != [] && CompareStart(x, s[0]) > 0 {
      var rest := Insert(x, s[1..]);
      InsertSorted(x, s[1..]);
      InsertMultiset(x, s[1..]);
      assert Insert(x, s) == [s[0]] + rest;
      forall j | 0 <= j < |rest| ensures CompareStart(s[0], rest[j]) <= 0 {
        var y := rest[j];
        assert y in multiset(rest);
        if y != x {
          assert y in multiset(s[1..]);
        }
      }
    }
  }

  lemma {:induction false} InsertStable(x: Qualification, s: seq<Qualification>, k: Day)
    ensures Filter(Insert(x, s), StartsOn(k)) == Filter([x], StartsOn(k)) + Filter(s, StartsOn(k))
  {
    if s == [] || CompareStart(x, s[0]) <= 0 {
      FilterConcat([x], s, StartsOn(k));
    } else {
      var rest := Insert(x, s[1..]);
      InsertStable(x, s[1..], k);
      assert Insert(x, s) == [s[0]] + rest;
      FilterConcat([s[0]], rest, StartsOn(k));
      FilterConcat([s[0]], s[1..], StartsOn(k));
      assert s == [s[0]] + s[1..];
      assert !(StartsOn(k)(x) && StartsOn(k)(s[0]));
    }
  }

  /** Sorting yields a start-date order, holds the same records, and keeps
      records with equal starts in their original relative order. */
  lemma {:induction false} SortByStartSpec(s: seq<Qualification>)
    ensures SortedByStart(SortByStart(s))
    ensures multiset(SortByStart(s)) == multiset(s)
    ensures forall k :: Filter(SortByStart(s), StartsOn(k)) == Filter(s, StartsOn(k))
  {
    if s != [] {
      SortByStartSpec(s[1..]);
      InsertSorted(s[0], SortByStart(s[1..]));
      InsertMultiset(s[0], SortByStart(s[1..]));
      assert s == [s[0]] + s[1..];
      forall k ensures Filter(SortByStart(s), StartsOn(k)) == Filter(s, StartsOn(k)) {
        InsertStable(s[0], SortByStart(s[1..]), k);
        FilterConcat([s[0]], s[1..], StartsOn(k));
      }
    }
  }

  /** The rows of one environment, shared by the label column and the bar
      column. */
  function Rows(qs: seq<Qualification>, environmentName: string, filters: Filters): seq<Qualification> {
    SortByStart(QualificationsForEnvironment(qs, environmentName, filters))
  }

  /** The rows are the matching records, in start-date order; records that
      start on the same day keep their order in the list. */
  lemma RowsSpec(qs: seq<Qualification>, environmentName: string, filters: Filters)
    ensures SortedByStart(Rows(qs, environmentName, filters))
    ensures multiset(Rows(qs, environmentName, filters)) == multiset(QualificationsForEnvironment(qs, environmentName, filters))
    ensures forall q :: q in Rows(qs, environmentName, filters) <==> q in qs && Matches(q, environmentName, filters)
    ensures forall k :: Filter(Rows(qs, environmentName, filters), StartsOn(k)) ==
              Filter(QualificationsForEnvironment(qs, environmentName, filters), StartsOn(k))
  {
    var filtered := QualificationsForEnvironment(qs, environmentName, filters);
    SortByStartSpec(filtered);
    QualificationsForEnvironmentSpec(qs, environmentName, filters);
    forall q ensures q in Rows(qs, environmentName, filters) <==> q in filtered {
      assert q in multiset(Rows(qs, environmentName, filters)) <==> q in multiset(filtered);
    }
  }
}
