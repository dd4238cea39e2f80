/**
 * VersionOverlapChecker: once the application context is refreshed, every URL pattern of every
 * registered request mapping is added to one set of strings; the first pattern that is already
 * in the set (other than "/error") aborts start-up with a RuntimeException naming it.
 *
 * The route table is a sequence of request mappings in the order the key set is iterated; each
 * mapping contributes its path-patterns condition, None when that condition is null.
 */
module VersionOverlapChecker {
  import opened Wrappers
  import opened JavaText
  import opened PathExpansion

  /** The pattern of Spring Boot's error page, which may be registered more than once. */
  const ErrorPattern: string := "/error"

  const MessagePrefix: string := "Ambiguous version mapping found with the following URL: "

  /** The RuntimeException thrown on a duplicate, carrying the offending pattern. */
  datatype OverlapError = Ambiguous(pattern: string)

  /** The exception message: the fixed text followed by the pattern. */
  function Message(e: OverlapError): string {
    MessagePrefix + e.pattern
  }

  /** doesNotEqualError */
  predicate DoesNotEqualError(pattern: string) {
    pattern != ErrorPattern
  }

  /** The patterns a mapping contributes: none when its path-patterns condition is null. */
  function PatternsOf(condition: Option<seq<string>>): seq<string> {
    if condition.Some? then condition.value else []
  }

  /** All patterns in scan order: mapping by mapping, each mapping's patterns in order. */
  function AllPatterns(requestMappings: seq<Option<seq<string>>>): seq<string>
    decreases |requestMappings|
  {
    if requestMappings == [] then []
    else AllPatterns(requestMappings[..|requestMappings| - 1]) + PatternsOf(requestMappings[|requestMappings| - 1])
  }

  /** The set findDuplicate has built after the patterns ps went through without failure. */
  function Seen(ps: seq<string>): set<string>
    decreases |ps|
  {
    if ps == [] then {}
    else Seen(ps[..|ps| - 1]) + (if DoesNotEqualError(ps[|ps| - 1]) then {ps[|ps| - 1]} else {})
  }

  /**
   * The outcome of scanning ps in order: the first pattern already kept fails the scan, and
   * nothing after it is looked at.
   */
  function Scan(ps: seq<string>): Outcome<OverlapError>
    decreases |ps|
  {
    if ps == [] then Pass
    else
      var front := ps[..|ps| - 1];
      var last := ps[|ps| - 1];
      if Scan(front).Fail? then Scan(front)
      else if DoesNotEqualError(last) && last in Seen(front) then Fail(Ambiguous(last))
      else Pass
  }

  /** No pattern other than "/error" occurs twice. */
  predicate NoRepeats(ps: seq<string>) {
    forall i, j :: 0 <= i < j < |ps| && ps[i] == ps[j] ==> !DoesNotEqualError(ps[i])
  }

  // ---------------------------------------------------------------------------------------
  // The scan
  // ---------------------------------------------------------------------------------------

  /** The HashSet<String> of patterns kept so far. */
  class PatternSet {
    var elements: set<string>

    constructor ()
      ensures elements == {}
    {
      elements := {};
    }

    /** HashSet.add: true exactly when the element was not there yet; it is there afterwards. */
    method Add(e: string) returns (added: bool)
      modifies this
      ensures added <==> e !in old(elements)
      ensures elements == old(elements) + {e}
    {
      added := e !in elements;
      elements := elements + {e};
    }
  }

  /**
   * findDuplicate: "/error" is skipped; any other pattern is added, and fails when it was
   * already there.
   */
  method FindDuplicate(pattern: string, patterns: PatternSet) returns (outcome: Outcome<OverlapError>)
    modifies patterns
    ensures patterns.elements == old(patterns.elements) + (if DoesNotEqualError(pattern) then {pattern} else {})
    ensures outcome.Fail? <==> DoesNotEqualError(pattern) && pattern in old(patterns.elements)
    ensures outcome.Fail? ==> outcome.error == Ambiguous(pattern)
  {
    if DoesNotEqualError(pattern) {
      var success := patterns.Add(pattern);
      if !success {
        return Fail(Ambiguous(pattern));
      }
    }
    return Pass;
  }

  /**
   * onApplicationEvent: every pattern of every mapping with a path-patterns condition goes
   * through findDuplicate against one fresh set; the first failure ends the scan.
   */
  method OnApplicationEvent(requestMappings: seq<Option<seq<string>>>) returns (outcome: Outcome<OverlapError>)
    ensures outcome == Scan(AllPatterns(requestMappings))
  {
    var patterns := new PatternSet();
    ghost var scanned: seq<string> := [];
    var i := 0;
    while i < |requestMappings|
      invariant i <= |requestMappings|
      invariant scanned == AllPatterns(requestMappings[..i])
      invariant patterns.elements == Seen(scanned) && Scan(scanned) == Pass
    {
      AllPatternsStep(requestMappings, i);
      var condition := requestMappings[i];
      if condition.Some? {
        var found := ScanMapping(condition.value, patterns, scanned);
        if found.Fail? {
          ScanStopsAfter(requestMappings, i + 1);
          return found;
        }
      } else {
        assert scanned + PatternsOf(condition) == scanned;
      }
      scanned := scanned + PatternsOf(condition);
      i := i + 1;
    }
    assert requestMappings[..i] == requestMappings;
    return Pass;
  }

  /**
   * The inner loop of onApplicationEvent: findDuplicate on each pattern of one mapping, in order,
   * after the patterns `scanned` have gone through without failure.
   */
  method ScanMapping(pathPatterns: seq<string>, patterns: PatternSet, ghost scanned: seq<string>) returns (outcome: Outcome<OverlapError>)
    requires patterns.elements == Seen(scanned) && Scan(scanned) == Pass
    modifies patterns
    ensures outcome == Scan(scanned + pathPatterns)
    ensures outcome.Pass? ==> patterns.elements == Seen(scanned + pathPatterns)
  {
    var m := 0;
    assert scanned + pathPatterns[..m] == scanned;
    while m < |pathPatterns|
      invariant m <= |pathPatterns|
      invariant patterns.elements == Seen(scanned + pathPatterns[..m])
      invariant Scan(scanned + pathPatterns[..m]) == Pass
    {
      var pathPattern := pathPatterns[m];
      var found := FindDuplicate(pathPattern, patterns);
      ScanExtends(scanned, pathPatterns, m);
      if found.Fail? {
        ScanStopsWithin(scanned, pathPatterns, m + 1);
        return found;
      }
      m := m + 1;
    }
    assert pathPatterns[..m] == pathPatterns;
    return Pass;
  }

  // ---------------------------------------------------------------------------------------
  // Helpers for the loops
  // ---------------------------------------------------------------------------------------

  lemma ScanStep(ps: seq<string>, x: string)
    ensures Seen(ps + [x]) == Seen(ps) + (if DoesNotEqualError(x) then {x} else {})
    ensures Scan(ps + [x]) == if Scan(ps).Fail? then Scan(ps)
                              else if DoesNotEqualError(x) && x in Seen(ps) then Fail(Ambiguous(x))
                              else Pass
  {
    assert (ps + [x])[..|ps|] == ps;
  }

  /** ScanStep for one more pattern of the mapping being scanned. */
  lemma ScanExtends(scanned: seq<string>, ps: seq<string>, m: nat)
    requires m < |ps|
    ensures Seen(scanned + ps[..m + 1]) == Seen(scanned + ps[..m]) + (if DoesNotEqualError(ps[m]) then {ps[m]} else {})
    ensures Scan(scanned + ps[..m + 1]) == if Scan(scanned + ps[..m]).Fail? then Scan(scanned + ps[..m])
                                           else if DoesNotEqualError(ps[m]) && ps[m] in Seen(scanned + ps[..m]) then Fail(Ambiguous(ps[m]))
                                           else Pass
  {
    assert scanned + ps[..m + 1] == scanned + ps[..m] + [ps[m]];
    ScanStep(scanned + ps[..m], ps[m]);
  }

  /** A failure within the mapping being scanned is the outcome of scanning all of it. */
  lemma ScanStopsWithin(scanned: seq<string>, ps: seq<string>, m: nat)
    requires m <= |ps| && Scan(scanned + ps[..m]).Fail?
    ensures Scan(scanned + ps) == Scan(scanned + ps[..m])
  {
    assert (scanned + ps)[..|scanned| + m] == scanned + ps[..m];
    ScanKeepsFailure(scanned + ps, |scanned| + m);
  }

  lemma AllPatternsStep(requestMappings: seq<Option<seq<string>>>, i: nat)
    requires i < |requestMappings|
    ensures AllPatterns(requestMappings[..i + 1]) == AllPatterns(requestMappings[..i]) + PatternsOf(requestMappings[i])
  {
    assert requestMappings[..i + 1][..i] == requestMappings[..i];
  }

  /** The scan of a prefix of the table is a prefix of the scan of the table. */
  lemma {:induction false} AllPatternsPrefix(requestMappings: seq<Option<seq<string>>>, n: nat)
    requires n <= |requestMappings|
    ensures var all := AllPatterns(requestMappings);
      |AllPatterns(requestMappings[..n])| <= |all| && all[..|AllPatterns(requestMappings[..n])|] == AllPatterns(requestMappings[..n])
    decreases |requestMappings| - n
  {
    if n < |requestMappings| {
      AllPatternsPrefix(requestMappings, n + 1);
      AllPatternsStep(requestMappings, n);
    } else {
      assert requestMappings[..n] == requestMappings;
    }
  }

  /** A table of two mappings scans the first one's patterns, then the second one's. */
  lemma AllPatternsPair(first: seq<string>, second: seq<string>)
    ensures AllPatterns([Some(first), Some(second)]) == first + second
  {
    var table := [Some(first), Some(second)];
    assert table[..1] == [Some(first)];
    assert [Some(first)][..0] == [];
    assert AllPatterns([Some(first)]) == [] + first == first;
  }

  /** Pattern p of mapping a sits in the scan right after the patterns of the mappings before a. */
  lemma AllPatternsAt(requestMappings: seq<Option<seq<string>>>, a: nat, p: nat) returns (n: nat)
    requires a < |requestMappings| && p < |PatternsOf(requestMappings[a])|
    ensures |AllPatterns(requestMappings[..a])| <= n < |AllPatterns(requestMappings[..a + 1])|
    ensures n < |AllPatterns(requestMappings)| && AllPatterns(requestMappings)[n] == PatternsOf(requestMappings[a])[p]
  {
    var upTo := AllPatterns(requestMappings[..a + 1]);
    var all := AllPatterns(requestMappings);
    n := |AllPatterns(requestMappings[..a])| + p;
    AllPatternsStep(requestMappings, a);
    assert upTo[n] == PatternsOf(requestMappings[a])[p];
    AllPatternsPrefix(requestMappings, a + 1);
    assert all[..|upTo|][n] == all[n];
  }

  /** More mappings scanned, no fewer patterns. */
  lemma AllPatternsGrow(requestMappings: seq<Option<seq<string>>>, m: nat, n: nat)
    requires m <= n <= |requestMappings|
    ensures |AllPatterns(requestMappings[..m])| <= |AllPatterns(requestMappings[..n])|
  {
    AllPatternsPrefix(requestMappings[..n], m);
    assert requestMappings[..n][..m] == requestMappings[..m];
  }

  /** A scan that has failed on a prefix has failed for good. */
  lemma {:induction false} ScanKeepsFailure(ps: seq<string>, n: nat)
    requires n <= |ps| && Scan(ps[..n]).Fail?
    ensures Scan(ps) == Scan(ps[..n])
    decreases |ps| - n
  {
    if n == |ps| {
      assert ps[..n] == ps;
    } else {
      var front := ps[..|ps| - 1];
      assert front[..n] == ps[..n];
      ScanKeepsFailure(front, n);
    }
  }

  /** A scan that has failed on the first n mappings has failed for good. */
  lemma ScanStopsAfter(requestMappings: seq<Option<seq<string>>>, n: nat)
    requires n <= |requestMappings| && Scan(AllPatterns(requestMappings[..n])).Fail?
    ensures Scan(AllPatterns(requestMappings)) == Scan(AllPatterns(requestMappings[..n]))
  {
    AllPatternsPrefix(requestMappings, n);
    ScanKeepsFailure(AllPatterns(requestMappings), |AllPatterns(requestMappings[..n])|);
  }

  // ---------------------------------------------------------------------------------------
  // What the scan promises
  // ---------------------------------------------------------------------------------------

  /** The seen-set holds exactly the patterns scanned so far other than "/error". */
  lemma {:induction false} SeenContains(ps: seq<string>, x: string)
    ensures x in Seen(ps) <==> x in ps && DoesNotEqualError(x)
    decreases |ps|
  {
    if ps != [] {
      var front := ps[..|ps| - 1];
      SeenContains(front, x);
      assert ps == front + [ps[|ps| - 1]];
    }
  }

  /** The scan completes exactly when the patterns other than "/error" are pairwise distinct. */
  lemma {:induction false} ScanPassIff(ps: seq<string>)
    ensures Scan(ps) == Pass <==> NoRepeats(ps)
    decreases |ps|
  {
    if ps != [] {
      var front := ps[..|ps| - 1];
      var last := ps[|ps| - 1];
      ScanPassIff(front);
      SeenContains(front, last);
      assert ps == front + [last];
      if NoRepeats(ps) {
        assert NoRepeats(front) by {
          forall i, j | 0 <= i < j < |front| && front[i] == front[j]
            ensures !DoesNotEqualError(front[i])
          {
            assert ps[i] == front[i] && ps[j] == front[j];
          }
        }
      }
      if Scan(ps) == Pass {
        forall i, j | 0 <= i < j < |ps| && ps[i] == ps[j]
          ensures !DoesNotEqualError(ps[i])
        {
          if j < |ps| - 1 {
            assert front[i] == front[j];
          } else {
            assert front[i] in front;
          }
        }
      }
    }
  }

  /**
   * A failure names the first repeat: the pattern at some position j that is not "/error", was
   * seen before j, and no pattern before j was repeated.
   */
  lemma {:induction false} ScanFailureIsFirstRepeat(ps: seq<string>)
    requires Scan(ps).Fail?
    ensures exists j :: 0 <= j < |ps| && DoesNotEqualError(ps[j]) && ps[j] in ps[..j] && NoRepeats(ps[..j])
                        && Scan(ps) == Fail(Ambiguous(ps[j]))
    decreases |ps|
  {
    var front := ps[..|ps| - 1];
    if Scan(front).Fail? {
      ScanFailureIsFirstRepeat(front);
      var j :| 0 <= j < |front| && DoesNotEqualError(front[j]) && front[j] in front[..j] && NoRepeats(front[..j])
               && Scan(front) == Fail(Ambiguous(front[j]));
      assert front[..j] == ps[..j];
      assert ps[j] == front[j];
    } else {
      ScanPassIff(front);
      SeenContains(front, ps[|ps| - 1]);
      assert ps[..|ps| - 1] == front;
    }
  }

  /** Conversely, the first repeat of a pattern other than "/error" is the failure reported. */
  lemma ScanFailsAtFirstRepeat(ps: seq<string>, j: nat)
    requires j < |ps| && DoesNotEqualError(ps[j]) && ps[j] in ps[..j] && NoRepeats(ps[..j])
    ensures Scan(ps) == Fail(Ambiguous(ps[j]))
  {
    ScanPassIff(ps[..j]);
    SeenContains(ps[..j], ps[j]);
    assert ps[..j + 1] == ps[..j] + [ps[j]];
    ScanStep(ps[..j], ps[j]);
    ScanKeepsFailure(ps, j + 1);
  }

  /** "/error" is never blamed, however often it occurs. */
  lemma ScanNeverBlamesError(ps: seq<string>)
    ensures Scan(ps) != Fail(Ambiguous(ErrorPattern))
  {
    if Scan(ps).Fail? {
      ScanFailureIsFirstRepeat(ps);
    }
  }

  /** ps without its "/error" entries. */
  function WithoutError(ps: seq<string>): (r: seq<string>)
    ensures forall x :: x in r <==> x in ps && DoesNotEqualError(x)
    decreases |ps|
  {
    if ps == [] then []
    else if DoesNotEqualError(ps[|ps| - 1]) then WithoutError(ps[..|ps| - 1]) + [ps[|ps| - 1]]
    else WithoutError(ps[..|ps| - 1])
  }

  /** Removing every "/error" from the scan changes nothing. */
  lemma {:induction false} ScanIgnoresError(ps: seq<string>)
    ensures Scan(ps) == Scan(WithoutError(ps))
    decreases |ps|
  {
    if ps != [] {
      var front := ps[..|ps| - 1];
      var last := ps[|ps| - 1];
      ScanIgnoresError(front);
      forall y
        ensures y in Seen(WithoutError(front)) <==> y in Seen(front)
      {
        SeenContains(WithoutError(front), y);
        SeenContains(front, y);
      }
      assert Seen(WithoutError(front)) == Seen(front);
      if DoesNotEqualError(last) {
        ScanStep(WithoutError(front), last);
      }
    }
  }

  /**
   * A pattern other than "/error" registered by two different mappings (as pattern p of mapping
   * a and pattern q of mapping b) makes the scan fail.
   */
  lemma SharedPatternFails(requestMappings: seq<Option<seq<string>>>, a: nat, b: nat, x: string, p: nat, q: nat)
    requires a < b < |requestMappings|
    requires p < |PatternsOf(requestMappings[a])| && PatternsOf(requestMappings[a])[p] == x
    requires q < |PatternsOf(requestMappings[b])| && PatternsOf(requestMappings[b])[q] == x
    requires DoesNotEqualError(x)
    ensures Scan(AllPatterns(requestMappings)).Fail?
  {
    var i, j := SharedPositions(requestMappings, a, b, p, q);
    RepeatFails(AllPatterns(requestMappings), i, j);
  }

  /** Where pattern p of mapping a and pattern q of a later mapping b sit in the scan. */
  lemma SharedPositions(requestMappings: seq<Option<seq<string>>>, a: nat, b: nat, p: nat, q: nat) returns (i: nat, j: nat)
    requires a < b < |requestMappings|
    requires p < |PatternsOf(requestMappings[a])| && q < |PatternsOf(requestMappings[b])|
    ensures i < j < |AllPatterns(requestMappings)|
    ensures AllPatterns(requestMappings)[i] == PatternsOf(requestMappings[a])[p]
    ensures AllPatterns(requestMappings)[j] == PatternsOf(requestMappings[b])[q]
  {
    i := AllPatternsAt(requestMappings, a, p);
    j := AllPatternsAt(requestMappings, b, q);
    AllPatternsGrow(requestMappings, a + 1, b);
  }

  /** A pattern other than "/error" at two positions fails the scan. */
  lemma RepeatFails(ps: seq<string>, i: nat, j: nat)
    requires i < j < |ps| && ps[i] == ps[j] && DoesNotEqualError(ps[i])
    ensures Scan(ps).Fail?
  {
    ScanPassIff(ps);
  }

  /** "/error" has no digit, and every rewritten pattern has one. */
  lemma VersionedIsNotError(base: string, path: string, prefix: string, version: int)
    requires EndsWith(base, path)
    ensures DoesNotEqualError(Versioned(base, path, prefix, version))
  {
    VersionedHasDigit(base, path, prefix, version);
    assert forall i :: 0 <= i < |ErrorPattern| ==> !IsDigit(ErrorPattern[i]);
  }

  /**
   * Two versioned mappings whose ranges share a version v, on a base pattern and an annotation
   * path they have in common, make start-up fail.
   */
  lemma OverlappingRangesFail(requestMappings: seq<Option<seq<string>>>, a: nat, b: nat,
                              basesA: seq<string>, pathsA: seq<string>, oldestA: int, newestA: int,
                              basesB: seq<string>, pathsB: seq<string>, oldestB: int, newestB: int,
                              prefix: string, base: string, path: string, v: int)
    requires a < b < |requestMappings|
    requires requestMappings[a] == Some(Expand(basesA, pathsA, Rewrite(prefix), oldestA, newestA))
    requires requestMappings[b] == Some(Expand(basesB, pathsB, Rewrite(prefix), oldestB, newestB))
    requires base in basesA && base in basesB && path in pathsA && path in pathsB && EndsWith(base, path)
    requires oldestA <= v <= newestA && oldestB <= v <= newestB
    ensures Scan(AllPatterns(requestMappings)).Fail?
  {
    var x := Rewrite(prefix)(base, path, v);
    ExpandContains(basesA, pathsA, Rewrite(prefix), oldestA, newestA, x);
    ExpandContains(basesB, pathsB, Rewrite(prefix), oldestB, newestB, x);
    VersionedIsNotError(base, path, prefix, v);
    var p :| 0 <= p < |PatternsOf(requestMappings[a])| && PatternsOf(requestMappings[a])[p] == x;
    var q :| 0 <= q < |PatternsOf(requestMappings[b])| && PatternsOf(requestMappings[b])[q] == x;
    SharedPatternFails(requestMappings, a, b, x, p, q);
  }

  /** Two mappings of one base and path with disjoint ranges, alone in the table, pass. */
  lemma DisjointRangesPass(base: string, path: string, prefix: string, oldest1: int, newest1: int, oldest2: int, newest2: int)
    requires EndsWith(base, path)
    requires newest1 < oldest2 || newest2 < oldest1
    ensures Scan(AllPatterns([Some(Expand([base], [path], Rewrite(prefix), oldest1, newest1)),
                              Some(Expand([base], [path], Rewrite(prefix), oldest2, newest2))])) == Pass
  {
    var first := Expand([base], [path], Rewrite(prefix), oldest1, newest1);
    var second := Expand([base], [path], Rewrite(prefix), oldest2, newest2);
    SingleExpandDistinct(base, path, prefix, oldest1, newest1);
    SingleExpandDistinct(base, path, prefix, oldest2, newest2);
    forall x | x in first
      ensures x !in second
    {
      DisjointRangesShareNothing(base, path, prefix, oldest1, newest1, oldest2, newest2, x);
    }
    DistinctPairPasses(first, second);
  }

  /** Two mappings whose patterns are distinct within each and shared by none pass. */
  lemma DistinctPairPasses(first: seq<string>, second: seq<string>)
    requires Distinct(first) && Distinct(second)
    requires forall x :: x in first ==> x !in second
    ensures Scan(AllPatterns([Some(first), Some(second)])) == Pass
  {
    var all := first + second;
    AllPatternsPair(first, second);
    forall i, j | 0 <= i < j < |all|
      ensures all[i] != all[j]
    {
      if j < |first| {
        assert all[i] == first[i] && all[j] == first[j];
      } else if i < |first| {
        assert all[i] == first[i] && all[j] == second[j - |first|];
        assert all[i] in first && all[j] in second;
      } else {
        assert all[i] == second[i - |first|] && all[j] == second[j - |first|];
      }
    }
    ScanPassIff(all);
  }

  /** The message names the pattern: different failures have different messages. */
  lemma MessageNamesPattern(e1: OverlapError, e2: OverlapError)
    ensures Message(e1) == Message(e2) <==> e1 == e2
  {
    if Message(e1) == Message(e2) {
      assert e1.pattern == Message(e1)[|MessagePrefix|..];
      assert e2.pattern == Message(e2)[|MessagePrefix|..];
    }
  }
}
