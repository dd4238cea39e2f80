/**
 * The current handler mapping (package io.github.boukenijhuis.dynamicversionurl): a method whose
 * version annotation declares versions [oldest] or [oldest, newest] and paths gets, instead of
 * the patterns Spring computed, one pattern per version, per path, per computed pattern.
 */
module VersionMapping {
  import opened Wrappers
  import opened JavaText
  import opened PathExpansion
  import opened AnnotationValues

  /**
   * getNewestVersion: the only element of a one-element array, the second of a two-element
   * array; any other length is rejected with the versions, the runtime class of the annotation
   * instance and the paths.
   */
  function NewestVersion(versions: seq<int>, paths: Option<seq<string>>, annotationClass: string): (r: Result<int, MappingError>)
    ensures r.Success? <==> 1 <= |versions| <= 2
    ensures r.Success? ==> r.value == versions[|versions| - 1]
    ensures r.Failure? ==> r.error == TooManyVersions(versions, annotationClass, paths)
  {
    if |versions| == 1 then Success(versions[0])
    else if |versions| == 2 then Success(versions[1])
    else Failure(TooManyVersions(versions, annotationClass, paths))
  }

  /**
   * What updatePaths returns or throws. A null versions array and a null paths array are
   * dereferenced (the paths only once the range is non-empty); versions[0] is read before the
   * length is checked, so an empty array fails on that index.
   */
  function VersionedPaths(patternValues: seq<string>, values: AnnotationValues, annotationClass: string, prefix: string): Result<seq<string>, MappingError> {
    match values.versions
    case None => Failure(NullPointer)
    case Some(versions) =>
      if |versions| == 0 then Failure(VersionIndexOutOfBounds(0))
      else
        match NewestVersion(versions, values.path, annotationClass)
        case Failure(e) => Failure(e)
        case Success(newest) =>
          if newest < versions[0] then Success([])
          else
            match values.path
            case None => Failure(NullPointer)
            case Some(paths) => Success(Expand(patternValues, paths, Rewrite(prefix), versions[0], newest))
  }

  /** The paths the regex model covers: no metacharacter but braces, which updatePaths escapes. */
  predicate Modelled(values: AnnotationValues, prefix: string) {
    PlainReplacement(prefix) && (values.path.Some? ==> PlainPaths(values.path.value, true))
  }

  /**
   * updatePaths: for every version from oldest to newest, for every annotation path, for every
   * pattern value, the pattern value with the escaped path replaced at its end by
   * "/" + prefix + version + path.
   */
  method UpdatePaths(patternValues: seq<string>, values: AnnotationValues, annotationClass: string, prefix: string)
    returns (r: Result<seq<string>, MappingError>)
    requires Modelled(values, prefix)
    ensures r == VersionedPaths(patternValues, values, annotationClass, prefix)
  {
    if values.versions.None? {
      return Failure(NullPointer);
    }
    var versions := values.versions.value;
    if |versions| == 0 {
      return Failure(VersionIndexOutOfBounds(0));
    }
    var oldestVersion := versions[0];
    var newest := NewestVersion(versions, values.path, annotationClass);
    if newest.Failure? {
      return Failure(newest.error);
    }
    var newestVersion := newest.value;
    var versionedPaths: seq<string> := [];
    var version := oldestVersion;
    while version <= newestVersion
      invariant version == oldestVersion || oldestVersion < version <= newestVersion + 1
      invariant values.path.Some? || version == oldestVersion
      invariant version > oldestVersion ==>
        versionedPaths == Expand(patternValues, values.path.value, Rewrite(prefix), oldestVersion, version - 1)
      invariant version == oldestVersion ==> versionedPaths == []
      decreases newestVersion - version
    {
      if values.path.None? {
        return Failure(NullPointer);
      }
      var paths := values.path.value;
      versionedPaths := AppendForVersion(versionedPaths, patternValues, paths, prefix, version);
      ExpandStep(patternValues, paths, Rewrite(prefix), oldestVersion, version);
      version := version + 1;
    }
    return Success(versionedPaths);
  }

  /**
   * The middle loop of updatePaths: for every annotation path in declaration order, the block
   * of rewritten pattern values, appended to the list built so far.
   */
  method AppendForVersion(versionedPaths: seq<string>, patternValues: seq<string>, paths: seq<string>, prefix: string, version: int)
    returns (r: seq<string>)
    requires PlainReplacement(prefix) && PlainPaths(paths, true)
    ensures r == versionedPaths + ForVersion(patternValues, paths, Rewrite(prefix), version)
  {
    r := versionedPaths;
    var j := 0;
    while j < |paths|
      invariant j <= |paths|
      invariant r == versionedPaths + ForVersion(patternValues, paths[..j], Rewrite(prefix), version)
    {
      var annotationPath := paths[j];
      assert PlainPath(annotationPath, true);
      var next := AppendForPath(r, patternValues, annotationPath, prefix, version);
      ForVersionAppend(versionedPaths, r, patternValues, paths, Rewrite(prefix), version, j, next);
      r := next;
      j := j + 1;
    }
    assert paths[..j] == paths;
  }

  /**
   * The innermost loop of updatePaths: every pattern value, in order, with the brace-escaped
   * annotation path replaced at its end, appended to the list built so far.
   */
  method AppendForPath(versionedPaths: seq<string>, patternValues: seq<string>, annotationPath: string, prefix: string, version: int)
    returns (r: seq<string>)
    requires PlainReplacement(prefix) && PlainPath(annotationPath, true)
    ensures r == versionedPaths + ForPath(patternValues, annotationPath, Rewrite(prefix), version)
  {
    r := versionedPaths;
    var k := 0;
    while k < |patternValues|
      invariant k <= |patternValues|
      invariant r == versionedPaths + ForPath(patternValues[..k], annotationPath, Rewrite(prefix), version)
    {
      var patternValue := patternValues[k];
      var escapedAnnotationPath := EscapeBraces(annotationPath);
      var replacement := "/" + prefix + IntToString(version) + annotationPath;
      ReplaceFirstIsVersioned(patternValue, annotationPath, prefix, version, true);
      var versionedPath := ReplaceFirstEndAnchored(patternValue, escapedAnnotationPath, replacement);
      ForPathAppend(versionedPaths, r, patternValues, annotationPath, Rewrite(prefix), version, k, versionedPath);
      r := r + [versionedPath];
      k := k + 1;
    }
    assert patternValues[..k] == patternValues;
  }

  // ---------------------------------------------------------------------------------------
  // What updatePaths promises
  // ---------------------------------------------------------------------------------------

  /** Declared versions, declared paths: the oldest and newest version of a one- or two-element array. */
  predicate WellDeclared(values: AnnotationValues) {
    values.versions.Some? && 1 <= |values.versions.value| <= 2 && values.path.Some?
  }

  function Oldest(values: AnnotationValues): int
    requires WellDeclared(values)
  {
    values.versions.value[0]
  }

  function Newest(values: AnnotationValues): int
    requires WellDeclared(values)
  {
    values.versions.value[|values.versions.value| - 1]
  }

  /** For a well-declared annotation updatePaths returns the expansion over the declared range. */
  lemma WellDeclaredExpands(patternValues: seq<string>, values: AnnotationValues, annotationClass: string, prefix: string)
    requires WellDeclared(values)
    ensures VersionedPaths(patternValues, values, annotationClass, prefix)
         == Success(Expand(patternValues, values.path.value, Rewrite(prefix), Oldest(values), Newest(values)))
  {
  }

  /** One pattern per version in range, per declared path, per pattern value; nothing is dropped or merged. */
  lemma VersionedPathsCount(patternValues: seq<string>, values: AnnotationValues, annotationClass: string, prefix: string)
    requires WellDeclared(values)
    ensures var r := VersionedPaths(patternValues, values, annotationClass, prefix);
      r.Success? && |r.value| == RangeSize(Oldest(values), Newest(values)) * |values.path.value| * |patternValues|
  {
    WellDeclaredExpands(patternValues, values, annotationClass, prefix);
    ExpandLength(patternValues, values.path.value, Rewrite(prefix), Oldest(values), Newest(values));
  }

  /**
   * Versions ascending, then declared paths in order, then pattern values in order: entry
   * ((v - oldest) * |paths| + j) * |patternValues| + k is pattern value k rewritten for path j at version v.
   */
  lemma VersionedPathsOrder(patternValues: seq<string>, values: AnnotationValues, annotationClass: string, prefix: string, v: int, j: int, k: int)
    requires WellDeclared(values)
    requires Oldest(values) <= v <= Newest(values) && 0 <= j < |values.path.value| && 0 <= k < |patternValues|
    ensures var r := VersionedPaths(patternValues, values, annotationClass, prefix);
      var i := ((v - Oldest(values)) * |values.path.value| + j) * |patternValues| + k;
      r.Success? && 0 <= i < |r.value| && r.value[i] == Versioned(patternValues[k], values.path.value[j], prefix, v)
  {
    var paths := values.path.value;
    WellDeclaredExpands(patternValues, values, annotationClass, prefix);
    ExpandAt(patternValues, paths, Rewrite(prefix), Oldest(values), Newest(values), v, j, k);
    assert Rewrite(prefix)(patternValues[k], paths[j], v) == Versioned(patternValues[k], paths[j], prefix, v);
  }

  /** A pattern is produced exactly when it is some pattern value rewritten for some declared path at some version in range. */
  lemma VersionedPathsContents(patternValues: seq<string>, values: AnnotationValues, annotationClass: string, prefix: string, x: string)
    requires WellDeclared(values)
    ensures var r := VersionedPaths(patternValues, values, annotationClass, prefix);
      r.Success? &&
      (x in r.value <==> exists v, b, p :: Oldest(values) <= v <= Newest(values) && b in patternValues && p in values.path.value
                                          && x == Versioned(b, p, prefix, v))
  {
    var paths := values.path.value;
    WellDeclaredExpands(patternValues, values, annotationClass, prefix);
    ExpandContains(patternValues, paths, Rewrite(prefix), Oldest(values), Newest(values), x);
    forall v, b, p ensures Rewrite(prefix)(b, p, v) == Versioned(b, p, prefix, v) {
    }
  }

  /** Two versions in descending order give no pattern at all and no error, even without paths. */
  lemma VersionedPathsReversed(patternValues: seq<string>, values: AnnotationValues, annotationClass: string, prefix: string)
    requires values.versions.Some? && |values.versions.value| == 2
    requires values.versions.value[1] < values.versions.value[0]
    ensures VersionedPaths(patternValues, values, annotationClass, prefix) == Success([])
  {
  }

  /** A single declared version v gives patterns for v only: each pattern value rewritten for each path. */
  lemma VersionedPathsSingle(patternValues: seq<string>, values: AnnotationValues, annotationClass: string, prefix: string, v: int, x: string)
    requires values.versions == Some([v]) && values.path.Some?
    ensures var r := VersionedPaths(patternValues, values, annotationClass, prefix);
      r.Success? && |r.value| == |values.path.value| * |patternValues|
      && (x in r.value <==> exists b, p :: b in patternValues && p in values.path.value && x == Versioned(b, p, prefix, v))
  {
    VersionedPathsCount(patternValues, values, annotationClass, prefix);
    VersionedPathsContents(patternValues, values, annotationClass, prefix, x);
  }

  /**
   * The failures: a null versions array, an empty one (on versions[0]), more than two versions
   * (with the versions, the annotation class and the paths), and a null paths array once the
   * range is non-empty.
   */
  lemma VersionedPathsFailures(patternValues: seq<string>, values: AnnotationValues, annotationClass: string, prefix: string)
    ensures var r := VersionedPaths(patternValues, values, annotationClass, prefix);
      && (values.versions.None? ==> r == Failure(NullPointer))
      && (values.versions == Some([]) ==> r == Failure(VersionIndexOutOfBounds(0)))
      && (values.versions.Some? && |values.versions.value| > 2 ==>
            r == Failure(TooManyVersions(values.versions.value, annotationClass, values.path)))
      && (values.versions.Some? && 1 <= |values.versions.value| <= 2 && values.path.None? ==>
            (r.Failure? <==> values.versions.value[0] <= values.versions.value[|values.versions.value| - 1]))
      && (r.Failure? <==> !WellDeclared(values) && !(values.versions.Some? && 1 <= |values.versions.value| <= 2
                                                       && values.versions.value[|values.versions.value| - 1] < values.versions.value[0]))
  {
  }

  /**
   * The version annotation found on a method: the runtime class of the annotation instance
   * (what annotation.getClass() returns, a JDK proxy class rather than the annotation type)
   * and its attribute values.
   */
  datatype FoundAnnotation = FoundAnnotation(annotationClass: string, values: AnnotationValues)

  /**
   * getMappingForMethod: the mapping Spring computed comes back unchanged unless a version
   * annotation was found, the mapping is non-null and the annotation declares versions; then
   * only its patterns are replaced by the versioned ones.
   */
  method GetMappingForMethod(info: Option<RequestMappingInfo>, annotation: Option<FoundAnnotation>, prefix: string)
    returns (r: Result<Option<RequestMappingInfo>, MappingError>)
    requires annotation.Some? && info.Some? && annotation.value.values.versions.Some? ==> Modelled(annotation.value.values, prefix)
    ensures annotation.None? || info.None? || annotation.value.values.versions.None? ==> r == Success(info)
    ensures annotation.Some? && info.Some? && annotation.value.values.versions.Some? ==>
      var expected := VersionedPaths(info.value.patternValues, annotation.value.values, annotation.value.annotationClass, prefix);
      && (r.Success? <==> expected.Success?)
      && (r.Success? ==> r.value == Some(info.value.(patternValues := expected.value)))
      && (r.Failure? ==> r.error == expected.error)
  {
    if annotation.Some? && info.Some? && annotation.value.values.versions.Some? {
      var versionPaths := UpdatePaths(info.value.patternValues, annotation.value.values, annotation.value.annotationClass, prefix);
      if versionPaths.Failure? {
        return Failure(versionPaths.error);
      }
      return Success(Some(info.value.(patternValues := versionPaths.value)));
    }
    return Success(info);
  }
}
