/**
 * Literal matching of a name inside one console line, as done by a
 * `Pattern.compile(Pattern.quote(name))` matcher: `Find` is one call of
 * `Matcher.find()`, `Matches` the positions a `while (m.find())` loop visits,
 * and `Scan` the line that `appendReplacement`/`appendTail` build when
 * every match is replaced by a fixed text, with the number of matches.
 */
module LiteralMatch {
  import opened Wrappers

  /** `name` occurs literally in `line` starting at index `q`. */
  predicate Occurs(line: string, name: string, q: nat)
  {
    q + |name| <= |line| && line[q..q + |name|] == name
  }

  /**
   * Where the matcher resumes searching after a match at `j`: right after the
   * match, or one further when the match was empty (an empty name matches the
   * empty string everywhere, and `find()` must make progress).
   */
  function NextSearch(j: nat, name: string): (k: nat)
    ensures j + |name| <= k && j < k
  {
    if name == [] then j + 1 else j + |name|
  }

  /** The first occurrence of `name` at or after index `from` (`Matcher.find()`). */
  function Find(line: string, name: string, from: nat): (r: Option<nat>)
    requires from <= |line| + 1
    ensures r.Some? ==> from <= r.value && r.value + |name| <= |line|
    decreases |line| + 1 - from
  {
    if from + |name| > |line| then None
    else if Occurs(line, name, from) then Some(from)
    else Find(line, name, from + 1)
  }

  /** `Find` returns the leftmost occurrence at or after `from`, and nothing only when there is none. */
  lemma {:induction false} FindSpec(line: string, name: string, from: nat)
    requires from <= |line| + 1
    ensures Find(line, name, from).Some? ==> Occurs(line, name, Find(line, name, from).value)
    ensures Find(line, name, from).Some? ==>
      forall q: nat :: from <= q < Find(line, name, from).value ==> !Occurs(line, name, q)
    ensures Find(line, name, from).None? ==> forall q: nat :: from <= q ==> !Occurs(line, name, q)
    decreases |line| + 1 - from
  {
    if from + |name| <= |line| && !Occurs(line, name, from) {
      FindSpec(line, name, from + 1);
    }
  }

  /**
   * What `appendReplacement`/`appendTail` build from the match found at or
   * after `search` on, when the text copied so far ends at `last` and every
   * match is replaced by `rep`; paired with the number of matches replaced.
   */
  function ScanFrom(line: string, name: string, rep: string, search: nat, last: nat): (string, nat)
    requires last <= search <= |line| + 1 && last <= |line|
    decreases |line| + 1 - search
  {
    match Find(line, name, search)
    case None => (line[last..], 0)
    case Some(j) =>
      var (out, k) := ScanFrom(line, name, rep, NextSearch(j, name), j + |name|);
      (line[last..j] + rep + out, k + 1)
  }

  /**
   * Helper of `CountGreetings.LineFilter.Mark`: one turn of its
   * `while (m.find())` loop, unfolding `ScanFrom` once. After copying `acc`,
   * the match at `j` appends the text before it and the replacement, and the
   * scan resumes after the match with one more match counted.
   */
  lemma ScanStep(line: string, name: string, rep: string, search: nat, last: nat, acc: string, j: nat)
    requires last <= search <= |line| + 1 && last <= |line|
    requires Find(line, name, search) == Some(j)
    ensures last <= j && j + |name| <= NextSearch(j, name) <= |line| + 1
    ensures acc + ScanFrom(line, name, rep, search, last).0
      == (acc + (line[last..j] + rep)) + ScanFrom(line, name, rep, NextSearch(j, name), j + |name|).0
    ensures ScanFrom(line, name, rep, search, last).1 == ScanFrom(line, name, rep, NextSearch(j, name), j + |name|).1 + 1
  {
  }

  /** The whole line scanned: the rewritten line and how many matches were replaced. */
  function Scan(line: string, name: string, rep: string): (string, nat)
  {
    ScanFrom(line, name, rep, 0, 0)
  }

  /** Concatenation regrouped the way `ScanFromInserts` needs it. */
  lemma Regroup(a: string, p: string, n: string, t: string)
    ensures a + (p + n) + t == a + p + (n + t)
  {
  }

  /** The start indices of the matches a `while (m.find())` loop visits, searching from `from`. */
  function Matches(line: string, name: string, from: nat): (ps: seq<nat>)
    requires from <= |line| + 1
    decreases |line| + 1 - from
  {
    match Find(line, name, from)
    case None => []
    case Some(j) => [j] + Matches(line, name, NextSearch(j, name))
  }

  /** Some element of `ps` starts a match of length `n` that covers index `q` without starting there. */
  ghost predicate Overlapped(ps: seq<nat>, n: nat, q: nat)
  {
    exists i :: 0 <= i < |ps| && ps[i] < q < ps[i] + n
  }

  /** Every element of `ps` is an occurrence of `name` at or after `from`. */
  ghost predicate Chosen(line: string, name: string, from: nat, ps: seq<nat>)
  {
    forall i :: 0 <= i < |ps| ==> from <= ps[i] && Occurs(line, name, ps[i])
  }

  /** The elements of `ps` ascend, each at or after where the search resumes after the one before. */
  ghost predicate Ascending(name: string, ps: seq<nat>)
  {
    forall i, k :: 0 <= i < k < |ps| ==> NextSearch(ps[i], name) <= ps[k]
  }

  /** Every occurrence from `from` on that is not in `ps` overlaps an element of `ps`. */
  ghost predicate Covers(line: string, name: string, from: nat, ps: seq<nat>)
  {
    forall q: nat :: from <= q && Occurs(line, name, q) ==> q in ps || Overlapped(ps, |name|, q)
  }

  /**
   * `ps` is the leftmost, non-overlapping set of occurrences of `name` from
   * index `from` on: every element is an occurrence, the elements ascend and
   * do not overlap, and every occurrence that is not chosen overlaps a chosen
   * one that starts before it.
   */
  ghost predicate Greedy(line: string, name: string, from: nat, ps: seq<nat>)
  {
    Chosen(line, name, from, ps) && Ascending(name, ps) && Covers(line, name, from, ps)
  }

  /** The matcher finds exactly the leftmost non-overlapping occurrences. */
  lemma MatchesGreedy(line: string, name: string, from: nat)
    requires from <= |line| + 1
    ensures Greedy(line, name, from, Matches(line, name, from))
  {
    MatchesChosen(line, name, from);
    MatchesAscending(line, name, from);
    MatchesCover(line, name, from);
  }

  /** Helper of `MatchesGreedy`: every match found is an occurrence at or after `from`. */
  lemma {:induction false} MatchesChosen(line: string, name: string, from: nat)
    requires from <= |line| + 1
    ensures Chosen(line, name, from, Matches(line, name, from))
    decreases |line| + 1 - from
  {
    FindSpec(line, name, from);
    match Find(line, name, from)
    case None =>
    case Some(j) =>
      var rest := Matches(line, name, NextSearch(j, name));
      MatchesChosen(line, name, NextSearch(j, name));
      assert Matches(line, name, from) == [j] + rest;
  }

  /** Helper of `MatchesGreedy`: each match found starts where the search resumed after the one before. */
  lemma {:induction false} MatchesAscending(line: string, name: string, from: nat)
    requires from <= |line| + 1
    ensures Ascending(name, Matches(line, name, from))
    decreases |line| + 1 - from
  {
    match Find(line, name, from)
    case None =>
    case Some(j) =>
      var next := NextSearch(j, name);
      var rest := Matches(line, name, next);
      var ps := [j] + rest;
      assert Matches(line, name, from) == ps;
      MatchesAscending(line, name, next);
      MatchesChosen(line, name, next);
      forall i, k | 0 <= i < k < |ps| ensures NextSearch(ps[i], name) <= ps[k] {
        assert ps[k] == rest[k - 1];
        if i > 0 {
          assert ps[i] == rest[i - 1];
        }
      }
  }

  /** Helper of `MatchesGreedy`: an occurrence the matcher skips overlaps a match it found. */
  lemma {:induction false} MatchesCover(line: string, name: string, from: nat)
    requires from <= |line| + 1
    ensures Covers(line, name, from, Matches(line, name, from))
    decreases |line| + 1 - from
  {
    FindSpec(line, name, from);
    match Find(line, name, from)
    case None =>
    case Some(j) =>
      var next := NextSearch(j, name);
      var rest := Matches(line, name, next);
      var ps := [j] + rest;
      assert Matches(line, name, from) == ps;
      MatchesCover(line, name, next);
      forall q: nat | from <= q && Occurs(line, name, q)
        ensures q in ps || Overlapped(ps, |name|, q)
      {
        if q == j {
        } else if q < next {
          assert ps[0] < q < ps[0] + |name|;
        } else if q !in rest {
          var i :| 0 <= i < |rest| && rest[i] < q < rest[i] + |name|;
          assert ps[i + 1] == rest[i];
        }
      }
  }

  /** Helper of `GreedyIsMatches`: dropping the first element keeps the rest chosen from the next search index. */
  lemma TailChosen(line: string, name: string, from: nat, ps: seq<nat>)
    requires Chosen(line, name, from, ps) && Ascending(name, ps) && ps != []
    ensures Chosen(line, name, NextSearch(ps[0], name), ps[1..]) && Ascending(name, ps[1..])
  {
  }

  /** Helper of `GreedyIsMatches`: occurrences after the first element are still covered by the rest. */
  lemma TailCovers(line: string, name: string, from: nat, ps: seq<nat>)
    requires Covers(line, name, from, ps) && ps != [] && from <= ps[0]
    ensures Covers(line, name, NextSearch(ps[0], name), ps[1..])
  {
  }

  /** Helper of `GreedyIsMatches`: a non-empty chosen set starts with an occurrence at or after `from`. */
  lemma ChosenHead(line: string, name: string, from: nat, ps: seq<nat>)
    requires Chosen(line, name, from, ps)
    ensures ps != [] ==> from <= ps[0] && Occurs(line, name, ps[0])
  {
  }

  /**
   * There is only one leftmost non-overlapping set of occurrences: any set
   * of that shape is the one the matcher finds.
   */
  lemma {:induction false} GreedyIsMatches(line: string, name: string, from: nat, ps: seq<nat>)
    requires from <= |line| + 1
    requires Greedy(line, name, from, ps)
    ensures ps == Matches(line, name, from)
    decreases |line| + 1 - from
  {
    FindSpec(line, name, from);
    match Find(line, name, from)
    case None =>
      ChosenHead(line, name, from, ps);
    case Some(j) =>
      assert j in ps;
      ChosenHead(line, name, from, ps);
      assert ps[0] == j by {
        var k :| 0 <= k < |ps| && ps[k] == j;
        assert k == 0 || NextSearch(ps[0], name) <= ps[k];
      }
      TailChosen(line, name, from, ps);
      TailCovers(line, name, from, ps);
      GreedyIsMatches(line, name, NextSearch(j, name), ps[1..]);
      assert ps == [j] + ps[1..];
  }

  /** How many times the matcher finds `name` in `line`. */
  function Count(line: string, name: string): nat
  {
    |Matches(line, name, 0)|
  }

  /** The scan replaces exactly the matches `Matches` lists. */
  lemma {:induction false} ScanFromCounts(line: string, name: string, rep: string, search: nat, last: nat)
    requires last <= search <= |line| + 1 && last <= |line|
    ensures ScanFrom(line, name, rep, search, last).1 == |Matches(line, name, search)|
    decreases |line| + 1 - search
  {
    match Find(line, name, search)
    case None =>
    case Some(j) => ScanFromCounts(line, name, rep, NextSearch(j, name), j + |name|);
  }

  lemma ScanCounts(line: string, name: string, rep: string)
    ensures Scan(line, name, rep).1 == Count(line, name)
  {
    ScanFromCounts(line, name, rep, 0, 0);
  }

  /** The count is the number of leftmost non-overlapping literal occurrences: whatever set has that shape has this size. */
  lemma CountIsGreedy(line: string, name: string, ps: seq<nat>)
    requires Greedy(line, name, 0, ps)
    ensures Count(line, name) == |ps|
  {
    GreedyIsMatches(line, name, 0, ps);
  }

  /**
   * The line from `last` on with `p` inserted immediately before every match
   * found from `search` on, and nothing else changed.
   */
  function InsertBefore(line: string, name: string, p: string, search: nat, last: nat): string
    requires last <= search <= |line| + 1 && last <= |line|
    decreases |line| + 1 - search
  {
    match Find(line, name, search)
    case None => line[last..]
    case Some(j) => line[last..j] + p + InsertBefore(line, name, p, NextSearch(j, name), j)
  }

  /** Helper of `ScanInserts`: moving the copy start forward splits off the text in between. */
  lemma InsertBeforeShift(line: string, name: string, p: string, search: nat, a: nat, b: nat)
    requires a <= b <= search <= |line| + 1 && b <= |line|
    ensures InsertBefore(line, name, p, search, a) == line[a..b] + InsertBefore(line, name, p, search, b)
  {
  }

  /** Replacing each match by `p` followed by the name inserts `p` before each match. */
  lemma {:induction false} ScanFromInserts(line: string, name: string, p: string, search: nat, last: nat)
    requires last <= search <= |line| + 1 && last <= |line|
    ensures ScanFrom(line, name, p + name, search, last).0 == InsertBefore(line, name, p, search, last)
    decreases |line| + 1 - search
  {
    FindSpec(line, name, search);
    match Find(line, name, search)
    case None =>
    case Some(j) =>
      var next := NextSearch(j, name);
      var e := j + |name|;
      ScanFromInserts(line, name, p, next, e);
      InsertBeforeShift(line, name, p, next, j, e);
      var tail := InsertBefore(line, name, p, next, e);
      assert ScanFrom(line, name, p + name, search, last).0 == line[last..j] + (p + name) + tail;
      assert InsertBefore(line, name, p, search, last) == line[last..j] + p + (line[j..e] + tail);
      assert line[j..e] == name;
      Regroup(line[last..j], p, name, tail);
  }

  /** Inserting nothing leaves the line as it is. */
  lemma {:induction false} InsertNothing(line: string, name: string, search: nat, last: nat)
    requires last <= search <= |line| + 1 && last <= |line|
    ensures InsertBefore(line, name, [], search, last) == line[last..]
    decreases |line| + 1 - search
  {
    match Find(line, name, search)
    case None =>
    case Some(j) =>
      InsertNothing(line, name, NextSearch(j, name), j);
      assert line[last..] == line[last..j] + line[j..];
  }

  /**
   * The rewritten line is the input with `p` inserted immediately before each
   * match, and deleting those insertions gives the input back.
   */
  lemma ScanInserts(line: string, name: string, p: string)
    ensures Scan(line, name, p + name).0 == InsertBefore(line, name, p, 0, 0)
    ensures InsertBefore(line, name, [], 0, 0) == line
  {
    ScanFromInserts(line, name, p, 0, 0);
    InsertNothing(line, name, 0, 0);
  }

  /** Replacing every match by the name itself gives the line back. */
  lemma EraseAnnotations(line: string, name: string)
    ensures Scan(line, name, name).0 == line
  {
    ScanInserts(line, name, []);
    assert [] + name == name;
  }

  /** A line is left unchanged, and counts nothing, exactly when the name does not occur in it. */
  lemma NoOccurrence(line: string, name: string, rep: string)
    ensures Count(line, name) == 0 <==> forall q: nat :: !Occurs(line, name, q)
    ensures Count(line, name) == 0 ==> Scan(line, name, rep).0 == line
  {
    MatchesGreedy(line, name, 0);
    ScanCounts(line, name, rep);
    FindSpec(line, name, 0);
    if Count(line, name) != 0 {
      assert Occurs(line, name, Matches(line, name, 0)[0]);
    }
  }

  /** The matcher never finds more than one match per character of the line, plus one. */
  lemma {:induction false} MatchesBound(line: string, name: string, from: nat)
    requires from <= |line| + 1
    ensures |Matches(line, name, from)| <= |line| + 1 - from
    decreases |line| + 1 - from
  {
    match Find(line, name, from)
    case None =>
    case Some(j) => MatchesBound(line, name, NextSearch(j, name));
  }

  /** An empty name matches at every index, the end of the line included. */
  lemma {:induction false} EmptyNameMatches(line: string, from: nat)
    requires from <= |line| + 1
    ensures |Matches(line, [], from)| == |line| + 1 - from
    decreases |line| + 1 - from
  {
    if from <= |line| {
      assert Occurs(line, [], from);
      EmptyNameMatches(line, from + 1);
    }
  }

  lemma EmptyNameCount(line: string)
    ensures Count(line, []) == |line| + 1
  {
    EmptyNameMatches(line, 0);
  }

  /** A stretch of the line without the first character of the name holds no match. */
  lemma {:induction false} FindSkip(line: string, name: string, from: nat, to: nat)
    requires name != [] && from <= to <= |line|
    requires name[0] !in line[from..to]
    ensures Find(line, name, from) == Find(line, name, to)
    decreases |line| - from
  {
    if from < to && from + |name| <= |line| {
      assert line[from] == line[from..to][0];
      assert line[from..from + |name|][0] == line[from] != name[0];
      assert line[from + 1..to] == line[from..to][1..];
      FindSkip(line, name, from + 1, to);
    }
  }

  /** Matching is literal: `a.b` is found in `a.b` but not in `axb`. */
  lemma LiteralDot()
    ensures Count("axb", "a.b") == 0
    ensures Count("a.b", "a.b") == 1
  {
    forall q: nat ensures !Occurs("axb", "a.b", q) {
      if q == 0 { assert "axb"[1] != "a.b"[1]; }
    }
    NoOccurrence("axb", "a.b", "");
    assert Occurs("a.b", "a.b", 0);
    assert Find("a.b", "a.b", 0) == Some(0);
    assert Matches("a.b", "a.b", 3) == [];
  }
}
