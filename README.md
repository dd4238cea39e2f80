# dynamic-version-url, modelled in Dafny

dynamic-version-url is a Spring Boot extension. It lets one controller method serve a range of
API versions. A handler annotated with, say, `@GetVersionMapping(path = "/a", versions = {2, 9})`
in a controller mapped to `/api` is registered under `/api/v2/a`, `/api/v3/a`, … `/api/v9/a`.
The version prefix (`v` by default) is configurable.

This project models three pieces and proves what they promise:

- **The request-mapping rewrite.** This is `getMappingForMethod`, `updatePaths` and
  `getNewestVersion`. It exists twice: the current handler mapping in package
  `io.github.boukenijhuis.dynamicversionurl` and the older one in package
  `nl.boukenijhuis.dynamicversionurl`.
  - Each pattern value Spring computed becomes one pattern per version in the range, per
    annotation path, per pattern value. In each one, the trailing occurrence of the annotation
    path is replaced by `"/" + prefix + version + path`.
  - The current variant accepts one or two versions. It rejects more and escapes `{` and `}`
    in the path before using it as a regex.
  - The older variant reads `versions[0]` and `versions[1]` unchecked and does not escape the
    path.
- **`AnnotationValues.of` / `returnValueOrPath`.** These normalise the attributes of a
  version annotation. The `path` attribute is used when it has values; otherwise `value` is.
- **`VersionOverlapChecker`.** Once the context is refreshed, it adds every URL pattern of
  every registered mapping to a `HashSet`. The first pattern already there, other than
  `/error`, aborts start-up with "Ambiguous version mapping found with the following URL: …".

Structure of the model:

- Java `null` arrays are `Option`s. Thrown exceptions are `Failure`/`Fail` values:
  - `VersionIndexOutOfBounds(i)`
  - `NullPointer`
  - `TooManyVersions(versions, annotationClass, paths)`. Here `annotationClass` is the runtime
    class of the annotation instance, `annotation.getClass()`. That is a JDK proxy class, not the
    annotation type.
  - `Ambiguous(pattern)`
- The nested loops of `updatePaths` are methods proved against the recursive functions
  `ForPath`, `ForVersion` and `Expand`. Those functions take the rewrite of one entry as a
  parameter; the program's rewrite is `Rewrite(prefix)`.
- `String.replaceFirst(regex + "$", replacement)` is modelled for the literal fragment of
  `java.util.regex`. Lemma `ReplaceFirstIsVersioned` proves that, there, it is exactly the
  suffix rewrite `Versioned`.
- The `HashSet` of the overlap checker is the class `PatternSet`. The scan is proved against
  the function `Scan`.

Modules and files:

| file | module | contents |
|---|---|---|
| `wrappers.dfy` | `Wrappers` | `Option`, `Result`, `Outcome` |
| `java_text.dfy` | `JavaText` | `Integer.toString`, `String.replace` of one character, the literal regex fragment, `replaceFirst` with `$` |
| `path_expansion.dfy` | `PathExpansion` | the specification of the loop nest shared by both variants, and its lemmas |
| `annotation_values.dfy` | `AnnotationValues` | the `AnnotationValues` record |
| `version_mapping.dfy` | `VersionMapping` | the current handler mapping |
| `legacy_version_mapping.dfy` | `LegacyVersionMapping` | the older handler mapping |
| `overlap_checker.dfy` | `VersionOverlapChecker` | the overlap checker |
| `scenarios.dfy` | `Scenarios` | the controllers of the repository's tests, stated on the model |

## Model

| member | source | states |
|---|---|---|
| AnnotationValues.ReturnValueOrPath | src/main/java/io/github/boukenijhuis/dynamicversionurl/AnnotationValues.java:21-25 | the path array when it is non-null and non-empty, the value array (possibly null or empty) otherwise |
| AnnotationValues.Of | src/main/java/io/github/boukenijhuis/dynamicversionurl/AnnotationValues.java:5-13 | the record keeps the versions attribute unchanged and holds the array returnValueOrPath chooses |
| AnnotationValues.ReturnValueOrPathHasValues | src/main/java/io/github/boukenijhuis/dynamicversionurl/AnnotationValues.java:15-25 | the result is one of the two arrays, and it has values exactly when either attribute has |
| AnnotationValues.ReturnValueOrPathAlias | src/main/java/io/github/boukenijhuis/dynamicversionurl/AnnotationValues.java:21-25 | value and path are aliases: when only one has values, that one is chosen whichever attribute it was given in |
| JavaText.IntToString | src/main/java/io/github/boukenijhuis/dynamicversionurl/ApiVersionRequestMappingHandlerMapping.java:130 | the shape of the version's rendering in the replacement: non-empty, digits, with a leading minus exactly for negative numbers |
| JavaText.IntToStringValue | src/main/java/io/github/boukenijhuis/dynamicversionurl/ApiVersionRequestMappingHandlerMapping.java:130 | the rendering spells the version: read back as a decimal number it gives the version itself |
| JavaText.IntToStringInjective | src/main/java/io/github/boukenijhuis/dynamicversionurl/ApiVersionRequestMappingHandlerMapping.java:130 | different versions are rendered as different strings |
| JavaText.ReplaceCharConcat | src/main/java/io/github/boukenijhuis/dynamicversionurl/ApiVersionRequestMappingHandlerMapping.java:129 | String.replace of one character distributes over concatenation |
| JavaText.EscapedPathIsLiteral | src/main/java/io/github/boukenijhuis/dynamicversionurl/ApiVersionRequestMappingHandlerMapping.java:129 | a path whose only metacharacters are braces, with its braces escaped, is a regex that matches exactly the path itself |
| JavaText.PlainPathIsLiteral | src/main/java/nl/boukenijhuis/dynamicversionurl/ApiVersionRequestMappingHandlerMapping.java:57 | a path without metacharacters, used unescaped as a regex, matches exactly itself |
| JavaText.FindEndAnchored | src/main/java/io/github/boukenijhuis/dynamicversionurl/ApiVersionRequestMappingHandlerMapping.java:131 | the search for `literal$` succeeds exactly when the input ends with the literal, at the position where that suffix starts |
| JavaText.ReplaceFirstEndAnchored | src/main/java/io/github/boukenijhuis/dynamicversionurl/ApiVersionRequestMappingHandlerMapping.java:131 | replaceFirst with a `$`-anchored literal replaces the trailing literal by the replacement and leaves an input without it unchanged |
| PathExpansion.ReplaceFirstIsVersioned | src/main/java/io/github/boukenijhuis/dynamicversionurl/ApiVersionRequestMappingHandlerMapping.java:129-131 | the escaped path plus `$`, applied with replacement "/" + prefix + version + path, is the suffix rewrite Versioned (braces escaped or not) |
| PathExpansion.ExpandLength | src/main/java/io/github/boukenijhuis/dynamicversionurl/ApiVersionRequestMappingHandlerMapping.java:121-133 | the loop nest yields (newest - oldest + 1) * paths * pattern values entries, none for a reversed range |
| PathExpansion.ExpandAt | src/main/java/io/github/boukenijhuis/dynamicversionurl/ApiVersionRequestMappingHandlerMapping.java:121-133 | entry ((v - oldest) * paths + j) * bases + k is base k rewritten for path j at version v: versions outermost, then paths, then pattern values |
| PathExpansion.ExpandContains | src/main/java/io/github/boukenijhuis/dynamicversionurl/ApiVersionRequestMappingHandlerMapping.java:121-133 | an entry is produced exactly when it is some base rewritten for some path at some version in range |
| PathExpansion.ExpandSplit | src/main/java/io/github/boukenijhuis/dynamicversionurl/ApiVersionRequestMappingHandlerMapping.java:121 | the expansion of oldest..newest is the expansion of oldest..middle followed by that of middle+1..newest |
| PathExpansion.VersionedInjective | src/main/java/io/github/boukenijhuis/dynamicversionurl/ApiVersionRequestMappingHandlerMapping.java:130-131 | a pattern ending in the path is rewritten differently for different versions |
| PathExpansion.SingleExpandDistinct | src/main/java/io/github/boukenijhuis/dynamicversionurl/ApiVersionRequestMappingHandlerMapping.java:121-133 | one base and one path over a range never give the same pattern twice |
| PathExpansion.DisjointRangesShareNothing | src/main/java/io/github/boukenijhuis/dynamicversionurl/ApiVersionRequestMappingHandlerMapping.java:121-133 | two handlers on the same base and path with disjoint version ranges share no pattern |
| PathExpansion.VersionedHasDigit | src/main/java/io/github/boukenijhuis/dynamicversionurl/ApiVersionRequestMappingHandlerMapping.java:130-131 | every rewritten pattern contains a decimal digit |
| VersionMapping.NewestVersion | src/main/java/io/github/boukenijhuis/dynamicversionurl/ApiVersionRequestMappingHandlerMapping.java:151-168 | succeeds exactly for one or two versions, with the last one; otherwise fails with the versions, the runtime class of the annotation instance and the paths |
| VersionMapping.UpdatePaths | src/main/java/io/github/boukenijhuis/dynamicversionurl/ApiVersionRequestMappingHandlerMapping.java:110-141 | returns or fails exactly as VersionedPaths: null versions, versions[0] on an empty array, too many versions, null paths with a non-empty range, otherwise the expansion over versions[0]..newest |
| VersionMapping.AppendForVersion | src/main/java/io/github/boukenijhuis/dynamicversionurl/ApiVersionRequestMappingHandlerMapping.java:123-133 | appends, for each annotation path in order, the block of rewritten pattern values for one version |
| VersionMapping.AppendForPath | src/main/java/io/github/boukenijhuis/dynamicversionurl/ApiVersionRequestMappingHandlerMapping.java:125-133 | appends each pattern value, in order, with the brace-escaped annotation path replaced at its end |
| VersionMapping.VersionedPathsCount | src/main/java/io/github/boukenijhuis/dynamicversionurl/ApiVersionRequestMappingHandlerMapping.java:117-139 | with declared versions and paths: one pattern per version in range, per path, per pattern value |
| VersionMapping.VersionedPathsOrder | src/main/java/io/github/boukenijhuis/dynamicversionurl/ApiVersionRequestMappingHandlerMapping.java:117-139 | with declared versions and paths: the pattern at position ((v - oldest) * paths + j) * values + k is pattern value k rewritten for path j at version v |
| VersionMapping.VersionedPathsContents | src/main/java/io/github/boukenijhuis/dynamicversionurl/ApiVersionRequestMappingHandlerMapping.java:117-139 | with declared versions and paths: a pattern is produced exactly when it is a pattern value rewritten for a declared path at a version in range |
| VersionMapping.VersionedPathsReversed | src/main/java/io/github/boukenijhuis/dynamicversionurl/ApiVersionRequestMappingHandlerMapping.java:117-121 | two versions in descending order give no pattern and no error, even with a null path array |
| VersionMapping.VersionedPathsSingle | src/main/java/io/github/boukenijhuis/dynamicversionurl/ApiVersionRequestMappingHandlerMapping.java:154-155 | a single version v gives exactly the patterns of version v |
| VersionMapping.VersionedPathsFailures | src/main/java/io/github/boukenijhuis/dynamicversionurl/ApiVersionRequestMappingHandlerMapping.java:112-123 | each failure and its cause, and the exact condition under which updatePaths fails at all |
| VersionMapping.GetMappingForMethod | src/main/java/io/github/boukenijhuis/dynamicversionurl/ApiVersionRequestMappingHandlerMapping.java:32-52 | the mapping is returned unchanged without an annotation, without a mapping or without versions, whatever the annotation's paths; otherwise only its patterns are replaced by the versioned ones, or updatePaths' failure is passed on |
| LegacyVersionMapping.UpdatePaths | src/main/java/nl/boukenijhuis/dynamicversionurl/ApiVersionRequestMappingHandlerMapping.java:42-65 | returns or fails exactly as LegacyVersionedPaths: versions[0] or versions[1] missing fails on that index, otherwise the expansion over versions[0]..versions[1] with the unescaped path |
| LegacyVersionMapping.AppendForVersion | src/main/java/nl/boukenijhuis/dynamicversionurl/ApiVersionRequestMappingHandlerMapping.java:53-59 | appends, for each annotation path in order, the block of rewritten pattern values for one version |
| LegacyVersionMapping.AppendForPath | src/main/java/nl/boukenijhuis/dynamicversionurl/ApiVersionRequestMappingHandlerMapping.java:55-59 | appends each pattern value, in order, with the annotation path replaced at its end |
| LegacyVersionMapping.LegacyCount | src/main/java/nl/boukenijhuis/dynamicversionurl/ApiVersionRequestMappingHandlerMapping.java:51-60 | (versions[1] - versions[0] + 1) * paths * pattern values patterns, none for a reversed range |
| LegacyVersionMapping.LegacyOrder | src/main/java/nl/boukenijhuis/dynamicversionurl/ApiVersionRequestMappingHandlerMapping.java:51-60 | versions ascending, then annotation paths, then pattern values, each entry the rewrite of its pattern value |
| LegacyVersionMapping.LegacyIgnoresExtraVersions | src/main/java/nl/boukenijhuis/dynamicversionurl/ApiVersionRequestMappingHandlerMapping.java:51 | versions after the second are never read |
| LegacyVersionMapping.VariantsCompared | src/main/java/nl/boukenijhuis/dynamicversionurl/ApiVersionRequestMappingHandlerMapping.java:45-51 | the two variants agree on zero and two versions; with one version only the current one succeeds; with more than two only the older one does |
| LegacyVersionMapping.GetMappingForMethod | src/main/java/nl/boukenijhuis/dynamicversionurl/ApiVersionRequestMappingHandlerMapping.java:24-40 | unchanged without the annotation; with it, a null mapping fails whatever the annotation's paths, and otherwise only its patterns are replaced, or updatePaths' failure is passed on |
| VersionOverlapChecker.PatternSet.Add | src/main/java/io/github/boukenijhuis/dynamicversionurl/VersionOverlapChecker.java:36 | HashSet.add is true exactly when the element was new; the element is in the set afterwards and nothing else changes |
| VersionOverlapChecker.FindDuplicate | src/main/java/io/github/boukenijhuis/dynamicversionurl/VersionOverlapChecker.java:33-43 | "/error" is skipped; any other pattern is added, and fails naming itself exactly when it was already present |
| VersionOverlapChecker.OnApplicationEvent | src/main/java/io/github/boukenijhuis/dynamicversionurl/VersionOverlapChecker.java:18-31 | the outcome is Scan of every pattern of every mapping with a path-patterns condition, in iteration order |
| VersionOverlapChecker.ScanMapping | src/main/java/io/github/boukenijhuis/dynamicversionurl/VersionOverlapChecker.java:26-28 | after a clean prefix, the outcome is Scan of the prefix followed by this mapping's patterns, and on success the set holds exactly the non-"/error" patterns seen |
| VersionOverlapChecker.SeenContains | src/main/java/io/github/boukenijhuis/dynamicversionurl/VersionOverlapChecker.java:35-36 | the set holds exactly the scanned patterns other than "/error" |
| VersionOverlapChecker.ScanPassIff | src/main/java/io/github/boukenijhuis/dynamicversionurl/VersionOverlapChecker.java:18-43 | start-up passes exactly when the patterns other than "/error" are pairwise distinct |
| VersionOverlapChecker.ScanFailureIsFirstRepeat | src/main/java/io/github/boukenijhuis/dynamicversionurl/VersionOverlapChecker.java:36-40 | a failure names a non-"/error" pattern seen earlier, at the first position where any repeat occurs |
| VersionOverlapChecker.ScanFailsAtFirstRepeat | src/main/java/io/github/boukenijhuis/dynamicversionurl/VersionOverlapChecker.java:36-40 | conversely, the first repeat of a non-"/error" pattern is the failure reported |
| VersionOverlapChecker.ScanNeverBlamesError | src/main/java/io/github/boukenijhuis/dynamicversionurl/VersionOverlapChecker.java:34-35 | "/error" is never reported, however often it occurs |
| VersionOverlapChecker.ScanIgnoresError | src/main/java/io/github/boukenijhuis/dynamicversionurl/VersionOverlapChecker.java:45-47 | removing every "/error" from the patterns does not change the outcome |
| VersionOverlapChecker.SharedPatternFails | src/main/java/io/github/boukenijhuis/dynamicversionurl/VersionOverlapChecker.java:24-30 | a non-"/error" pattern registered by two different mappings makes start-up fail |
| VersionOverlapChecker.OverlappingRangesFail | src/main/java/io/github/boukenijhuis/dynamicversionurl/VersionOverlapChecker.java:24-40 | two versioned mappings whose ranges share a version, on a shared base and path, make start-up fail |
| VersionOverlapChecker.DisjointRangesPass | src/main/java/io/github/boukenijhuis/dynamicversionurl/VersionOverlapChecker.java:24-40 | two mappings of one base and path with disjoint ranges pass |
| VersionOverlapChecker.MessageNamesPattern | src/main/java/io/github/boukenijhuis/dynamicversionurl/VersionOverlapChecker.java:39-40 | different duplicates give different messages |
| Scenarios.RangeOfVersions | src/test/java/io/github/boukenijhuis/dynamicversionurl/version/VersionControllerTest.java:21-28 | versions {2, 9} on "/a" under "/api" give exactly "/api/v2/a" … "/api/v9/a", in order |
| Scenarios.PathVariable | src/test/java/io/github/boukenijhuis/dynamicversionurl/pathvariable/PathVariableController.java:10 | value "/pathVariable/{pv}" at version 2 stands in for the empty path and gives exactly "/v2/pathVariable/{pv}" |
| Scenarios.ThreeVersions | src/main/java/io/github/boukenijhuis/dynamicversionurl/ApiVersionRequestMappingHandlerMapping.java:162-165 | versions {1, 5, 9} are rejected with those versions, the runtime class of the annotation instance and the paths |
| Scenarios.AdjacentRanges | src/test/java/nl/boukenijhuis/dynamicversionurl/GetVersionController.java:27-40 | in the older variant, {1, 3}, {4, 6} and {7, 9} on "/b" together give "/api/v1/b" … "/api/v9/b", each once, as one handler on {1, 9} would |
| Scenarios.OverlappingHandlers | src/test/java/io/github/boukenijhuis/dynamicversionurl/overlapping/OverlappingController.java:9-17 | handlers on {1, 3} and {3, 3} for "/a" make start-up fail on "/v3/a", whichever is scanned first |
| Scenarios.OverlapMessage | src/test/java/io/github/boukenijhuis/dynamicversionurl/overlapping/OverlappingControllerTest.java:23 | the message of that failure is "Ambiguous version mapping found with the following URL: /v3/a" |

## Left out

- VersionMapping.UpdatePaths: modelled only for annotation paths whose only regex metacharacters
  are `{` and `}`, and for a prefix without `$` or `\`. Other paths would be read as real regular
  expressions by `replaceFirst`, and this model does not implement `java.util.regex`.
- VersionMapping.AppendForVersion, VersionMapping.AppendForPath: the same restriction, since
  they are the loops of UpdatePaths that build the regex.
- VersionMapping.GetMappingForMethod: the same restriction, but only on the branch that calls
  UpdatePaths: a mapping, an annotation and a versions array are all present. Every other
  input, whatever its paths, is modelled.
- LegacyVersionMapping.UpdatePaths: modelled only for annotation paths without any regex
  metacharacter, since the older variant does not escape them, and for a prefix without `$`
  or `\`.
- LegacyVersionMapping.AppendForVersion, LegacyVersionMapping.AppendForPath: the same
  restriction, since they are the loops of UpdatePaths that build the regex.
- LegacyVersionMapping.GetMappingForMethod: the same restriction, but only on the branch that
  calls UpdatePaths: the annotation is present and the mapping is not null. Every other input,
  whatever its paths, is modelled.
- JavaText.ReplaceFirstEndAnchored: `$` is taken to match only at the very end of the input.
  `java.util.regex` also lets it match before a final line terminator, which URL patterns do
  not contain.
- VersionMapping.UpdatePaths, LegacyVersionMapping.UpdatePaths: versions are unbounded
  integers. The Java `int` loop counter would overflow, and the loop never end, when the
  newest version is `Integer.MAX_VALUE`.
- Iteration order of the pattern-value `Set` and of the handler methods' key set: both are
  sequences here, in whatever order Java iterates them. The order lemmas hold for that order,
  and the overlap lemmas (`ScanPassIff`, `OverlappingHandlers`) hold for every order.
- Spring itself is not modelled:
  - computing the original `RequestMappingInfo` (`super.getMappingForMethod`);
  - normalising the patterns it holds (`mutate().paths(..).build()`); only the pattern list
    and, standing in for the rest, a name and the HTTP methods are kept;
  - Spring keeps a mapping's patterns as a set. A pattern that one handler's expansion
    produces twice therefore reaches the overlap checker once. An example is a base that does
    not end in the path, over two versions. The model passes each mapping's patterns to the
    checker as a sequence, which would report that repeat. No lemma here states that case;
    `OverlappingRangesFail`, `DisjointRangesPass` and the scenarios concern patterns that
    differ within each mapping, or repeats across mappings;
  - routing requests to handlers.
- `getFirstAnnotation` and `getAnnotationValues` are not modelled. They use reflection and
  `AnnotationUtils` to find the first annotation whose package matches and read its
  attributes, with the `VersionMapping` special case. The model starts from the annotation
  found: the runtime class of the instance and its attribute values.
- The `ClassCastException` of `AnnotationValues.of` is not modelled: annotation attributes are
  already typed here.
- The text of the "Too many versions" `RuntimeException` is not modelled: `Arrays.toString`
  and `Class.toString` belong to the Java runtime. The failure carries what that text is made
  from: the versions, the paths and the class `annotation.getClass()`. That class is the
  runtime class of the annotation instance, a JDK proxy class. So the message names the proxy
  after `@`, not the annotation type. The class is a string parameter here, and the scenarios
  leave it open.
- The `ApplicationContext`, the `ContextRefreshedEvent` and the bean lookup of the overlap
  checker are not modelled. The checker receives the path-patterns conditions of the
  registered mappings directly.
- The `prefix` field comes from the `version.prefix` property, default `v`, in
  `DynamicVersionUrlMvcAutoConfiguration`. Here it is a parameter; the scenarios use `v`.
- The controllers of the current variant's tests are not stated, except those cited in the
  table. `GetVersionController` of the `version` test package, whose expectations
  `Scenarios.RangeOfVersions` restates, is not part of this model. `VersionMappingController`
  and `ReadMeController` are not stated.
