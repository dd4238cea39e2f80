/**
 * The controllers of the repository's own tests, stated on the model: each lemma takes one
 * declaration (its class-level pattern, annotation path and versions) and states the URL
 * patterns the handler mapping produces for it, or how start-up fails. The runtime class of
 * the annotation instance, which the JVM names, is a parameter: only a failure mentions it.
 */
module Scenarios {
  import opened Wrappers
  import opened JavaText
  import opened PathExpansion
  import opened AnnotationValues
  import VersionMapping
  import LegacyVersionMapping
  import VersionOverlapChecker

  /** The prefix used when none is configured. */
  const DefaultPrefix: string := "v"

  /** One base and one path over a range of single-digit versions: entry i carries the digit of oldest + i. */
  lemma SingleDigitRange(front: string, path: string, prefix: string, oldest: int, newest: int)
    requires 0 <= oldest && newest < 10
    ensures var r := Expand([front + path], [path], Rewrite(prefix), oldest, newest);
      |r| == RangeSize(oldest, newest)
      && forall i :: 0 <= i < |r| ==> r[i] == front + "/" + prefix + [DigitChar(oldest + i)] + path
  {
    var base := front + path;
    var r := Expand([base], [path], Rewrite(prefix), oldest, newest);
    SingleExpandLength(base, path, Rewrite(prefix), oldest, newest);
    assert base[..|base| - |path|] == front && base[|base| - |path|..] == path;
    forall i | 0 <= i < |r|
      ensures r[i] == front + "/" + prefix + [DigitChar(oldest + i)] + path
    {
      SingleExpandAt(base, path, Rewrite(prefix), oldest, newest, i);
      assert IntToString(oldest + i) == [DigitChar(oldest + i)];
    }
  }

  /** The URLs the test of versions {2, 9} on "/api/a" requests. */
  const ApiA: seq<string> := ["/api/v2/a", "/api/v3/a", "/api/v4/a", "/api/v5/a", "/api/v6/a", "/api/v7/a", "/api/v8/a", "/api/v9/a"]

  lemma SpelledApiA()
    ensures forall v :: 2 <= v <= 9 ==> "/api" + "/" + DefaultPrefix + [DigitChar(v)] + "/a" == ApiA[v - 2]
  {
  }

  /**
   * @GetVersionMapping(path = "/a", versions = {2, 9}) in a controller mapped to "/api":
   * "/api/v2/a" up to "/api/v9/a", in ascending order.
   */
  lemma RangeOfVersions(annotationClass: string)
    ensures VersionMapping.VersionedPaths(["/api/a"], AnnotationValues(Some([2, 9]), Some(["/a"])), annotationClass, DefaultPrefix)
         == Success(ApiA)
  {
    assert "/api/a" == "/api" + "/a";
    var r := Expand(["/api" + "/a"], ["/a"], Rewrite(DefaultPrefix), 2, 9);
    SingleDigitRange("/api", "/a", DefaultPrefix, 2, 9);
    SpelledApiA();
    assert forall i :: 0 <= i < |r| ==> r[i] == ApiA[i];
    assert r == ApiA;
  }

  /**
   * @GetVersionMapping(value = "/pathVariable/{pv}", version = 2) with no class-level mapping:
   * the value attribute stands in for the empty path attribute, the braces are escaped for the
   * regex and kept in the result, "/v2/pathVariable/{pv}".
   */
  lemma PathVariable(annotationClass: string)
    ensures var values := Of(Some([2]), Some(["/pathVariable/{pv}"]), Some([]));
      && values == AnnotationValues(Some([2]), Some(["/pathVariable/{pv}"]))
      && VersionMapping.Modelled(values, DefaultPrefix)
      && VersionMapping.VersionedPaths(["/pathVariable/{pv}"], values, annotationClass, DefaultPrefix)
         == Success(["/v2/pathVariable/{pv}"])
  {
    var path := "/pathVariable/{pv}";
    PathVariableIsPlain();
    assert path == "" + path;
    var r := Expand(["" + path], [path], Rewrite(DefaultPrefix), 2, 2);
    SingleDigitRange("", path, DefaultPrefix, 2, 2);
    SpelledPathVariable();
    assert r == ["/v2/pathVariable/{pv}"];
  }

  /** The path of the path-variable handler holds no metacharacter besides its escaped braces. */
  lemma PathVariableIsPlain()
    ensures PlainPath("/pathVariable/{pv}", true)
  {
    var path := "/pathVariable/{pv}";
    assert forall i :: 0 <= i < |path| ==> path[i] !in "\\^$.|?*+()[]";
  }

  lemma SpelledPathVariable()
    ensures "" + "/" + DefaultPrefix + [DigitChar(2)] + "/pathVariable/{pv}" == "/v2/pathVariable/{pv}"
  {
  }

  /**
   * Three versions are rejected with the versions, the runtime class of the annotation
   * instance (whatever the JVM names it) and the paths.
   */
  lemma ThreeVersions(annotationClass: string)
    ensures VersionMapping.VersionedPaths(["/api/a"], AnnotationValues(Some([1, 5, 9]), Some(["/a"])), annotationClass, DefaultPrefix)
         == Failure(TooManyVersions([1, 5, 9], annotationClass, Some(["/a"])))
  {
  }

  /** The URLs the test of the older variant requests on "/api/b". */
  const ApiB: seq<string> := ["/api/v1/b", "/api/v2/b", "/api/v3/b", "/api/v4/b", "/api/v5/b", "/api/v6/b", "/api/v7/b", "/api/v8/b", "/api/v9/b"]

  lemma SpelledApiB()
    ensures forall v :: 1 <= v <= 9 ==> "/api" + "/" + DefaultPrefix + [DigitChar(v)] + "/b" == ApiB[v - 1]
  {
  }

  /**
   * The older variant, with @GetVersionMapping(path = "/b") on versions {1, 3}, {4, 6} and
   * {7, 9} in a controller mapped to "/api": together exactly "/api/v1/b" up to "/api/v9/b",
   * each once, as if one handler declared {1, 9}.
   */
  lemma AdjacentRanges()
    ensures var b1 := LegacyVersionMapping.LegacyVersionedPaths(["/api/b"], LegacyVersionMapping.GetVersionMapping([1, 3], ["/b"]), DefaultPrefix);
      var b4 := LegacyVersionMapping.LegacyVersionedPaths(["/api/b"], LegacyVersionMapping.GetVersionMapping([4, 6], ["/b"]), DefaultPrefix);
      var b7 := LegacyVersionMapping.LegacyVersionedPaths(["/api/b"], LegacyVersionMapping.GetVersionMapping([7, 9], ["/b"]), DefaultPrefix);
      && b1.Success? && b4.Success? && b7.Success?
      && b1.value + b4.value + b7.value == Expand(["/api/b"], ["/b"], Rewrite(DefaultPrefix), 1, 9)
      && b1.value + b4.value + b7.value == ApiB
      && Distinct(ApiB)
  {
    var entry := Rewrite(DefaultPrefix);
    ExpandSplit(["/api/b"], ["/b"], entry, 1, 3, 9);
    ExpandSplit(["/api/b"], ["/b"], entry, 4, 6, 9);
    assert "/api/b" == "/api" + "/b";
    var all := Expand(["/api" + "/b"], ["/b"], entry, 1, 9);
    SingleDigitRange("/api", "/b", DefaultPrefix, 1, 9);
    SpelledApiB();
    assert forall i :: 0 <= i < |all| ==> all[i] == ApiB[i];
    assert all == ApiB;
    SingleExpandDistinct("/api" + "/b", "/b", DefaultPrefix, 1, 9);
  }

  lemma SpelledA()
    ensures forall v :: 1 <= v <= 3 ==> "" + "/" + DefaultPrefix + [DigitChar(v)] + "/a" == ["/v1/a", "/v2/a", "/v3/a"][v - 1]
  {
  }

  /** The handler of versions {oldest, newest} on "/a", for single-digit versions. */
  lemma HandlerOnA(oldest: int, newest: int, annotationClass: string)
    requires 1 <= oldest <= newest <= 3
    ensures VersionMapping.VersionedPaths(["/a"], AnnotationValues(Some([oldest, newest]), Some(["/a"])), annotationClass, DefaultPrefix)
         == Success(["/v1/a", "/v2/a", "/v3/a"][oldest - 1..newest])
  {
    var values := AnnotationValues(Some([oldest, newest]), Some(["/a"]));
    VersionMapping.WellDeclaredExpands(["/a"], values, annotationClass, DefaultPrefix);
    assert VersionMapping.Oldest(values) == oldest && VersionMapping.Newest(values) == newest;
    assert "/a" == "" + "/a";
    var r := Expand(["" + "/a"], ["/a"], Rewrite(DefaultPrefix), oldest, newest);
    SingleDigitRange("", "/a", DefaultPrefix, oldest, newest);
    SpelledA();
    var expected := ["/v1/a", "/v2/a", "/v3/a"][oldest - 1..newest];
    assert forall i :: 0 <= i < |r| ==> r[i] == expected[i];
    assert r == expected;
  }

  /** Three different patterns go through the scan, and each one other than "/error" is kept. */
  lemma ThreeDifferent(x: string, y: string, z: string)
    requires x != y && x != z && y != z
    ensures VersionOverlapChecker.Scan([x, y, z]) == Pass
    ensures VersionOverlapChecker.DoesNotEqualError(x) ==> x in VersionOverlapChecker.Seen([x, y, z])
    ensures VersionOverlapChecker.DoesNotEqualError(z) ==> z in VersionOverlapChecker.Seen([x, y, z])
  {
    assert [] + [x] == [x] && [x] + [y] == [x, y] && [x, y] + [z] == [x, y, z];
    VersionOverlapChecker.ScanStep([], x);
    VersionOverlapChecker.ScanStep([x], y);
    VersionOverlapChecker.ScanStep([x, y], z);
  }

  /** Two handlers whose patterns are [x, y, z] and [z]: in either order the scan stops at the second z. */
  lemma RepeatedLast(x: string, y: string, z: string)
    requires x != y && x != z && y != z && VersionOverlapChecker.DoesNotEqualError(z)
    ensures VersionOverlapChecker.Scan(VersionOverlapChecker.AllPatterns([Some([x, y, z]), Some([z])])) == Fail(VersionOverlapChecker.Ambiguous(z))
    ensures VersionOverlapChecker.Scan(VersionOverlapChecker.AllPatterns([Some([z]), Some([x, y, z])])) == Fail(VersionOverlapChecker.Ambiguous(z))
  {
    VersionOverlapChecker.AllPatternsPair([x, y, z], [z]);
    VersionOverlapChecker.AllPatternsPair([z], [x, y, z]);
    assert [x, y, z] + [z] == [x, y, z, z];
    assert [z] + [x, y, z] == [z, x, y] + [z];
    ThreeDifferent(x, y, z);
    ThreeDifferent(z, x, y);
    VersionOverlapChecker.ScanStep([x, y, z], z);
    VersionOverlapChecker.ScanStep([z, x, y], z);
  }

  /**
   * @GetVersionMapping(value = "/a", versions = {1, 3}) and @GetVersionMapping(value = "/a",
   * versions = {3, 3}) in one controller: whichever handler is scanned first, start-up fails on
   * "/v3/a" with the message the test expects.
   */
  lemma OverlappingHandlers(annotationClass: string)
    ensures var a1 := VersionMapping.VersionedPaths(["/a"], AnnotationValues(Some([1, 3]), Some(["/a"])), annotationClass, DefaultPrefix);
      var a2 := VersionMapping.VersionedPaths(["/a"], AnnotationValues(Some([3, 3]), Some(["/a"])), annotationClass, DefaultPrefix);
      && a1.Success? && a2.Success?
      && VersionOverlapChecker.Scan(VersionOverlapChecker.AllPatterns([Some(a1.value), Some(a2.value)]))
         == Fail(VersionOverlapChecker.Ambiguous("/v3/a"))
      && VersionOverlapChecker.Scan(VersionOverlapChecker.AllPatterns([Some(a2.value), Some(a1.value)]))
         == Fail(VersionOverlapChecker.Ambiguous("/v3/a"))
  {
    HandlerOnA(1, 3, annotationClass);
    HandlerOnA(3, 3, annotationClass);
    assert ["/v1/a", "/v2/a", "/v3/a"][0..3] == ["/v1/a", "/v2/a", "/v3/a"];
    assert ["/v1/a", "/v2/a", "/v3/a"][2..3] == ["/v3/a"];
    RepeatedLast("/v1/a", "/v2/a", "/v3/a");
  }

  /** The message of that failure, as the test expects it. */
  lemma OverlapMessage()
    ensures VersionOverlapChecker.Message(VersionOverlapChecker.Ambiguous("/v3/a"))
         == "Ambiguous version mapping found with the following URL: /v3/a"
  {
  }
}
