/**
 * The older handler mapping (package nl.boukenijhuis.dynamicversionurl): @GetVersionMapping
 * declares versions {first, last} and paths; the annotation path is used as a regex without
 * escaping, and the versions array is read at index 0 and 1 without any length check.
 */
module LegacyVersionMapping {
  import opened Wrappers
  import opened JavaText
  import opened PathExpansion
  import AnnotationValues
  import VersionMapping

  /** The attributes of @GetVersionMapping; Java annotation arrays are never null. */
  datatype GetVersionMapping = GetVersionMapping(versions: seq<int>, path: seq<string>)

  /**
   * What the legacy updatePaths returns or throws: versions[0] and versions[1] are read before the
   * first iteration, so fewer than two versions fail on the first missing index, and elements
   * after the second are ignored.
   */
  function LegacyVersionedPaths(patternValues: seq<string>, annotation: GetVersionMapping, prefix: string): Result<seq<string>, MappingError> {
    if |annotation.versions| == 0 then Failure(VersionIndexOutOfBounds(0))
    else if |annotation.versions| == 1 then Failure(VersionIndexOutOfBounds(1))
    else Success(Expand(patternValues, annotation.path, Rewrite(prefix), annotation.versions[0], annotation.versions[1]))
  }

  /** The paths the regex model covers: no metacharacter at all, since the path is not escaped. */
  predicate Modelled(annotation: GetVersionMapping, prefix: string) {
    PlainReplacement(prefix) && PlainPaths(annotation.path, false)
  }

  /**
   * updatePaths: for every v from versions[0] to versions[1], for every annotation path, for
   * every pattern value, the pattern value with the path replaced at its end by "/" + prefix + v + path.
   */
  method UpdatePaths(patternValues: seq<string>, annotation: GetVersionMapping, prefix: string)
    returns (r: Result<seq<string>, MappingError>)
    requires Modelled(annotation, prefix)
    ensures r == LegacyVersionedPaths(patternValues, annotation, prefix)
  {
    var versions := annotation.versions;
    if |versions| == 0 {
      return Failure(VersionIndexOutOfBounds(0));
    }
    var first := versions[0];
    if |versions| == 1 {
      return Failure(VersionIndexOutOfBounds(1));
    }
    var paths := annotation.path;
    var versionedPaths: seq<string> := [];
    var v := first;
    while v <= versions[1]
      invariant v == first || first < v <= versions[1] + 1
      invariant versionedPaths == Expand(patternValues, paths, Rewrite(prefix), first, v - 1)
      decreases versions[1] - v
    {
      versionedPaths := AppendForVersion(versionedPaths, patternValues, paths, prefix, v);
      ExpandStep(patternValues, paths, Rewrite(prefix), first, v);
      v := v + 1;
    }
    return Success(versionedPaths);
  }

  /**
   * The middle loop of updatePaths: for every annotation path in declaration order, the block
   * of rewritten pattern values, appended to the list built so far.
   */
  method AppendForVersion(versionedPaths: seq<string>, patternValues: seq<string>, paths: seq<string>, prefix: string, v: int)
    returns (r: seq<string>)
    requires PlainReplacement(prefix) && PlainPaths(paths, false)
    ensures r == versionedPaths + ForVersion(patternValues, paths, Rewrite(prefix), v)
  {
    r := versionedPaths;
    var j := 0;
    while j < |paths|
      invariant j <= |paths|
      invariant r == versionedPaths + ForVersion(patternValues, paths[..j], Rewrite(prefix), v)
    {
      var annotationPath := paths[j];
      assert PlainPath(annotationPath, false);
      var next := AppendForPath(r, patternValues, annotationPath, prefix, v);
      ForVersionAppend(versionedPaths, r, patternValues, paths, Rewrite(prefix), v, j, next);
      r := next;
      j := j + 1;
    }
    assert paths[..j] == paths;
  }

  /**
   * The innermost loop of updatePaths: every pattern value, in order, with the (unescaped)
   * annotation path replaced at its end, appended to the list built so far.
   */
  method AppendForPath(versionedPaths: seq<string>, patternValues: seq<string>, annotationPath: string, prefix: string, v: int)
    returns (r: seq<string>)
    requires PlainReplacement(prefix) && PlainPath(annotationPath, false)
    ensures r == versionedPaths + ForPath(patternValues, annotationPath, Rewrite(prefix), v)
  {
    r := versionedPaths;
    var k := 0;
    while k < |patternValues|
      invariant k <= |patternValues|
      invariant r == versionedPaths + ForPath(patternValues[..k], annotationPath, Rewrite(prefix), v)
    {
      var patternValue := patternValues[k];
      var replacement := "/" + prefix + IntToString(v) + annotationPath;
      ReplaceFirstIsVersioned(patternValue, annotationPath, prefix, v, false);
      var versionedPath := ReplaceFirstEndAnchored(patternValue, annotationPath, replacement);
      ForPathAppend(versionedPaths, r, patternValues, annotationPath, Rewrite(prefix), v, k, versionedPath);
      r := r + [versionedPath];
      k := k + 1;
    }
    assert patternValues[..k] == patternValues;
  }

  // ---------------------------------------------------------------------------------------
  // What the legacy updatePaths promises
  // ---------------------------------------------------------------------------------------

  /** Exactly (versions[1] - versions[0] + 1) * |paths| * |patternValues| patterns, none when the range is reversed. */
  lemma LegacyCount(patternValues: seq<string>, annotation: GetVersionMapping, prefix: string)
    requires |annotation.versions| >= 2
    ensures var r := LegacyVersionedPaths(patternValues, annotation, prefix);
      r.Success? && |r.value| == RangeSize(annotation.versions[0], annotation.versions[1]) * |annotation.path| * |patternValues|
  {
    ExpandLength(patternValues, annotation.path, Rewrite(prefix), annotation.versions[0], annotation.versions[1]);
  }

  /** Versions ascending, then annotation paths, then pattern values. */
  lemma LegacyOrder(patternValues: seq<string>, annotation: GetVersionMapping, prefix: string, v: int, j: int, k: int)
    requires |annotation.versions| >= 2
    requires annotation.versions[0] <= v <= annotation.versions[1] && 0 <= j < |annotation.path| && 0 <= k < |patternValues|
    ensures var r := LegacyVersionedPaths(patternValues, annotation, prefix);
      var i := ((v - annotation.versions[0]) * |annotation.path| + j) * |patternValues| + k;
      r.Success? && 0 <= i < |r.value| && r.value[i] == Versioned(patternValues[k], annotation.path[j], prefix, v)
  {
    ExpandAt(patternValues, annotation.path, Rewrite(prefix), annotation.versions[0], annotation.versions[1], v, j, k);
    assert Rewrite(prefix)(patternValues[k], annotation.path[j], v) == Versioned(patternValues[k], annotation.path[j], prefix, v);
  }

  /** Elements after the second version are never read. */
  lemma LegacyIgnoresExtraVersions(patternValues: seq<string>, annotation: GetVersionMapping, prefix: string, extra: seq<int>)
    requires |annotation.versions| >= 2
    ensures LegacyVersionedPaths(patternValues, annotation.(versions := annotation.versions[..2] + extra), prefix)
         == LegacyVersionedPaths(patternValues, annotation, prefix)
  {
  }

  /**
   * The two variants on the same declaration: the same result for an empty array and for two
   * versions; one version is enough for the current variant but an index error here; more than
   * two are rejected by the current variant but read as a range here.
   */
  lemma VariantsCompared(patternValues: seq<string>, versions: seq<int>, paths: seq<string>, annotationClass: string, prefix: string)
    ensures var current := VersionMapping.VersionedPaths(patternValues, AnnotationValues.AnnotationValues(Some(versions), Some(paths)), annotationClass, prefix);
      var legacy := LegacyVersionedPaths(patternValues, GetVersionMapping(versions, paths), prefix);
      && (|versions| == 0 || |versions| == 2 ==> current == legacy)
      && (|versions| == 1 ==> current.Success? && legacy == Failure(VersionIndexOutOfBounds(1)))
      && (|versions| > 2 ==> current.Failure? && legacy.Success?)
  {
  }

  /**
   * getMappingForMethod: unchanged without @GetVersionMapping; with it, the patterns are replaced
   * by the versioned ones, and a null mapping is dereferenced.
   */
  method GetMappingForMethod(info: Option<RequestMappingInfo>, annotation: Option<GetVersionMapping>, prefix: string)
    returns (r: Result<Option<RequestMappingInfo>, MappingError>)
    requires annotation.Some? && info.Some? ==> Modelled(annotation.value, prefix)
    ensures annotation.None? ==> r == Success(info)
    ensures annotation.Some? && info.None? ==> r == Failure(NullPointer)
    ensures annotation.Some? && info.Some? ==>
      var expected := LegacyVersionedPaths(info.value.patternValues, annotation.value, prefix);
      && (r.Success? <==> expected.Success?)
      && (r.Success? ==> r.value == Some(info.value.(patternValues := expected.value)))
      && (r.Failure? ==> r.error == expected.error)
  {
    if annotation.Some? {
      if info.None? {
        return Failure(NullPointer);
      }
      var versionPaths := UpdatePaths(info.value.patternValues, annotation.value, prefix);
      if versionPaths.Failure? {
        return Failure(versionPaths.error);
      }
      return Success(Some(info.value.(patternValues := versionPaths.value)));
    }
    return Success(info);
  }
}
