/**
 * The attribute values of a version annotation, normalised: the versions array as given, and one
 * path array chosen from the annotation's `path` and `value` attributes. A Java null array is None.
 */
module AnnotationValues {
  import opened Wrappers

  /** The record AnnotationValues(int[] versions, String[] path). */
  datatype AnnotationValues = AnnotationValues(versions: Option<seq<int>>, path: Option<seq<string>>)

  /** A non-null array with at least one element. */
  predicate HasValues(a: Option<seq<string>>) {
    a.Some? && |a.value| > 0
  }

  /**
   * returnValueOrPath: `path` when it is non-null and non-empty, otherwise `value` (which may be
   * empty or null as well).
   */
  function ReturnValueOrPath(value: Option<seq<string>>, path: Option<seq<string>>): (r: Option<seq<string>>)
    ensures HasValues(path) ==> r == path
    ensures !HasValues(path) ==> r == value
  {
    if path.Some? && |path.value| > 0 then path else value
  }

  /** AnnotationValues.of: the versions unchanged, the path chosen by ReturnValueOrPath. */
  function Of(versionsAttribute: Option<seq<int>>, valueAttribute: Option<seq<string>>, pathAttribute: Option<seq<string>>): (r: AnnotationValues)
    ensures r.versions == versionsAttribute
    ensures r.path == ReturnValueOrPath(valueAttribute, pathAttribute)
  {
    AnnotationValues(versionsAttribute, ReturnValueOrPath(valueAttribute, pathAttribute))
  }

  /** The chosen array is one of the two attributes, and it has values exactly when either attribute does. */
  lemma ReturnValueOrPathHasValues(value: Option<seq<string>>, path: Option<seq<string>>)
    ensures ReturnValueOrPath(value, path) == path || ReturnValueOrPath(value, path) == value
    ensures HasValues(ReturnValueOrPath(value, path)) <==> HasValues(path) || HasValues(value)
  {
  }

  /** `value` and `path` are aliases: when only one of them has values, that one is chosen either way round. */
  lemma ReturnValueOrPathAlias(declared: seq<string>, other: Option<seq<string>>)
    requires |declared| > 0 && !HasValues(other)
    ensures ReturnValueOrPath(Some(declared), other) == Some(declared)
    ensures ReturnValueOrPath(other, Some(declared)) == Some(declared)
  {
  }
}
