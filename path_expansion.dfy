/**
 * What both versions of `updatePaths` compute: for every version from oldest to newest, for
 * every declared annotation path, for every base pattern Spring computed, the base pattern with
 * its trailing annotation path replaced by "/" + prefix + version + path.
 *
 * The functions here are the specification the two loops are proved against. The loops build
 * each entry with String.replaceFirst; ReplaceFirstIsVersioned shows that, for the paths the
 * model covers, that call is the suffix rewrite Versioned.
 */
module PathExpansion {
  import opened Wrappers
  import opened JavaText

  /** What building the versioned mapping can throw. */
  datatype MappingError =
    | VersionIndexOutOfBounds(index: nat)  // ArrayIndexOutOfBoundsException reading versions[index]
    // RuntimeException of getNewestVersion, naming the versions, the runtime class of the
    // annotation instance (annotation.getClass(), a JDK proxy class) and the paths
    | TooManyVersions(versions: seq<int>, annotationClass: string, paths: Option<seq<string>>)
    | NullPointer  // NullPointerException dereferencing a null array or mapping

  /** A Spring RequestMappingInfo: its URL patterns and, standing for everything else, its name and HTTP methods. */
  datatype RequestMappingInfo = RequestMappingInfo(patternValues: seq<string>, name: Option<string>, methods: set<string>)

  /** Every declared path is one the literal regex model covers. */
  predicate PlainPaths(paths: seq<string>, bracesEscaped: bool) {
    forall i :: 0 <= i < |paths| ==> PlainPath(paths[i], bracesEscaped)
  }

  /** The regex built from an annotation path, with or without its braces escaped. */
  function PathRegex(path: string, bracesEscaped: bool): string {
    if bracesEscaped then EscapeBraces(path) else path
  }

  /** "/" + prefix + version + path: what replaces the trailing path. */
  function Replacement(prefix: string, version: int, path: string): string {
    "/" + prefix + IntToString(version) + path
  }

  /**
   * One entry of the output: a base ending in the path has that trailing occurrence, and
   * only that one, replaced by "/" + prefix + version + path; any other base is kept as is.
   */
  function Versioned(base: string, path: string, prefix: string, version: int): string {
    if EndsWith(base, path) then base[..|base| - |path|] + Replacement(prefix, version, path) else base
  }

  lemma ReplacementIsPlain(prefix: string, version: int, path: string, bracesEscaped: bool)
    requires PlainReplacement(prefix) && PlainPath(path, bracesEscaped)
    ensures PlainReplacement(Replacement(prefix, version, path))
  {
    var r := Replacement(prefix, version, path);
    var v := IntToString(version);
    forall i | 0 <= i < |r| ensures r[i] != '$' && r[i] != '\\' {
      if i == 0 {
      } else if i < 1 + |prefix| {
        assert r[i] == prefix[i - 1];
      } else if i < 1 + |prefix| + |v| {
        assert r[i] == v[i - 1 - |prefix|];
      } else {
        assert r[i] == path[i - 1 - |prefix| - |v|];
      }
    }
  }

  /** The regex built from a plain path matches exactly that path. */
  lemma PathRegexIsLiteral(path: string, bracesEscaped: bool)
    requires PlainPath(path, bracesEscaped)
    ensures RegexLiteral(PathRegex(path, bracesEscaped)) == Some(path)
  {
    if bracesEscaped {
      EscapedPathIsLiteral(path);
    } else {
      PlainPathIsLiteral(path);
    }
  }

  /**
   * `base.replaceFirst(regex + "$", "/" + prefix + version + path)`, the regex built from a
   * plain path, is the suffix rewrite Versioned.
   */
  lemma ReplaceFirstIsVersioned(base: string, path: string, prefix: string, version: int, bracesEscaped: bool)
    requires PlainPath(path, bracesEscaped) && PlainReplacement(prefix)
    ensures RegexLiteral(PathRegex(path, bracesEscaped)).Some?
    ensures PlainReplacement(Replacement(prefix, version, path))
    ensures ReplaceFirstEndAnchored(base, PathRegex(path, bracesEscaped), Replacement(prefix, version, path))
         == Versioned(base, path, prefix, version)
    ensures ReplaceFirstEndAnchored(base, PathRegex(path, bracesEscaped), Replacement(prefix, version, path))
         == Rewrite(prefix)(base, path, version)
  {
    PathRegexIsLiteral(path, bracesEscaped);
    ReplacementIsPlain(prefix, version, path, bracesEscaped);
  }

  /** How one base pattern is rewritten for one annotation path at one version. */
  type Entry = (string, string, int) -> string

  /** The rewrite both variants apply: Versioned with the configured prefix. */
  function Rewrite(prefix: string): Entry {
    (base, path, version) => Versioned(base, path, prefix, version)
  }

  /** The innermost loop: one entry per base pattern, in iteration order. */
  function ForPath(bases: seq<string>, path: string, entry: Entry, version: int): (r: seq<string>)
    ensures |r| == |bases|
    decreases |bases|
  {
    if bases == [] then []
    else ForPath(bases[..|bases| - 1], path, entry, version) + [entry(bases[|bases| - 1], path, version)]
  }

  /** The middle loop: one block of |bases| entries per annotation path, in declaration order. */
  function ForVersion(bases: seq<string>, paths: seq<string>, entry: Entry, version: int): seq<string>
    decreases |paths|
  {
    if paths == [] then []
    else ForVersion(bases, paths[..|paths| - 1], entry, version) + ForPath(bases, paths[|paths| - 1], entry, version)
  }

  /** How many versions lie in the inclusive range oldest..newest. */
  function RangeSize(oldest: int, newest: int): nat {
    if oldest <= newest then newest - oldest + 1 else 0
  }

  /** The outer loop: one block of |paths| * |bases| entries per version, ascending. */
  function Expand(bases: seq<string>, paths: seq<string>, entry: Entry, oldest: int, newest: int): seq<string>
    decreases RangeSize(oldest, newest)
  {
    if newest < oldest then []
    else Expand(bases, paths, entry, oldest, newest - 1) + ForVersion(bases, paths, entry, newest)
  }

  // ---------------------------------------------------------------------------------------
  // One loop iteration at a time
  // ---------------------------------------------------------------------------------------

  /** One more pattern value processed appends its rewrite. */
  lemma ForPathStep(bases: seq<string>, path: string, entry: Entry, version: int, k: nat)
    requires k < |bases|
    ensures ForPath(bases[..k + 1], path, entry, version) == ForPath(bases[..k], path, entry, version) + [entry(bases[k], path, version)]
  {
    assert bases[..k + 1][..k] == bases[..k];
  }

  /** The innermost loop's invariant survives appending x, the rewrite of base pattern k. */
  lemma ForPathAppend(acc: seq<string>, r: seq<string>, bases: seq<string>, path: string, entry: Entry, version: int, k: nat, x: string)
    requires k < |bases|
    requires r == acc + ForPath(bases[..k], path, entry, version)
    requires x == entry(bases[k], path, version)
    ensures r + [x] == acc + ForPath(bases[..k + 1], path, entry, version)
  {
    ForPathStep(bases, path, entry, version, k);
  }

  /** One more annotation path processed appends its block. */
  lemma ForVersionStep(bases: seq<string>, paths: seq<string>, entry: Entry, version: int, j: nat)
    requires j < |paths|
    ensures ForVersion(bases, paths[..j + 1], entry, version) == ForVersion(bases, paths[..j], entry, version) + ForPath(bases, paths[j], entry, version)
  {
    assert paths[..j + 1][..j] == paths[..j];
  }

  /** The middle loop's invariant survives appending the block of annotation path j. */
  lemma ForVersionAppend(acc: seq<string>, r: seq<string>, bases: seq<string>, paths: seq<string>, entry: Entry, version: int, j: nat, next: seq<string>)
    requires j < |paths|
    requires r == acc + ForVersion(bases, paths[..j], entry, version)
    requires next == r + ForPath(bases, paths[j], entry, version)
    ensures next == acc + ForVersion(bases, paths[..j + 1], entry, version)
  {
    ForVersionStep(bases, paths, entry, version, j);
  }

  /** One more version processed appends its block. */
  lemma ExpandStep(bases: seq<string>, paths: seq<string>, entry: Entry, oldest: int, version: int)
    requires oldest <= version
    ensures Expand(bases, paths, entry, oldest, version) == Expand(bases, paths, entry, oldest, version - 1) + ForVersion(bases, paths, entry, version)
  {
  }

  // ---------------------------------------------------------------------------------------
  // Count and order
  // ---------------------------------------------------------------------------------------

  /** Where block `count` starts in a sequence of blocks of `size` entries: count * size. */
  function BlockStart(count: nat, size: nat): nat {
    if count == 0 then 0 else BlockStart(count - 1, size) + size
  }

  lemma {:induction false} BlockStartIsProduct(count: nat, size: nat)
    ensures BlockStart(count, size) == count * size
  {
    if count > 0 {
      BlockStartIsProduct(count - 1, size);
      assert (count - 1) * size + size == count * size;
    }
  }

  lemma {:induction false} ForVersionSize(bases: seq<string>, paths: seq<string>, entry: Entry, version: int)
    ensures |ForVersion(bases, paths, entry, version)| == BlockStart(|paths|, |bases|)
    decreases |paths|
  {
    if paths != [] {
      ForVersionSize(bases, paths[..|paths| - 1], entry, version);
    }
  }

  lemma {:induction false} ExpandSize(bases: seq<string>, paths: seq<string>, entry: Entry, oldest: int, newest: int)
    ensures |Expand(bases, paths, entry, oldest, newest)|
         == BlockStart(RangeSize(oldest, newest), BlockStart(|paths|, |bases|))
    decreases RangeSize(oldest, newest)
  {
    if oldest <= newest {
      var count, size := RangeSize(oldest, newest - 1), BlockStart(|paths|, |bases|);
      var front := Expand(bases, paths, entry, oldest, newest - 1);
      var block := ForVersion(bases, paths, entry, newest);
      assert Expand(bases, paths, entry, oldest, newest) == front + block;
      ExpandSize(bases, paths, entry, oldest, newest - 1);
      ForVersionSize(bases, paths, entry, newest);
      assert |front + block| == BlockStart(count, size) + size;
      assert RangeSize(oldest, newest) == count + 1;
    }
  }

  lemma MulAssoc(a: int, b: int, c: int)
    ensures a * b * c == a * (b * c)
  {
  }

  /** Nothing is filtered or merged: one entry per version, per path, per base pattern. */
  lemma ExpandLength(bases: seq<string>, paths: seq<string>, entry: Entry, oldest: int, newest: int)
    ensures |Expand(bases, paths, entry, oldest, newest)| == RangeSize(oldest, newest) * |paths| * |bases|
  {
    var count := RangeSize(oldest, newest);
    ExpandSize(bases, paths, entry, oldest, newest);
    BlockStartIsProduct(|paths|, |bases|);
    BlockStartIsProduct(count, |paths| * |bases|);
    MulAssoc(count, |paths|, |bases|);
  }

  lemma {:induction false} ForPathEntry(bases: seq<string>, path: string, entry: Entry, version: int, k: nat)
    requires k < |bases|
    ensures ForPath(bases, path, entry, version)[k] == entry(bases[k], path, version)
    decreases |bases|
  {
    var n := |bases| - 1;
    if k < n {
      ForPathEntry(bases[..n], path, entry, version, k);
      assert bases[..n][k] == bases[k];
    }
  }

  lemma {:induction false} ForVersionEntry(bases: seq<string>, paths: seq<string>, entry: Entry, version: int, j: nat, k: nat)
    requires j < |paths| && k < |bases|
    ensures BlockStart(j, |bases|) + k < |ForVersion(bases, paths, entry, version)|
    ensures ForVersion(bases, paths, entry, version)[BlockStart(j, |bases|) + k]
         == entry(bases[k], paths[j], version)
    decreases |paths|
  {
    var n := |paths| - 1;
    var init := paths[..n];
    var front := ForVersion(bases, init, entry, version);
    var last := ForPath(bases, paths[n], entry, version);
    assert ForVersion(bases, paths, entry, version) == front + last;
    ForVersionSize(bases, init, entry, version);
    if j < n {
      ForVersionEntry(bases, init, entry, version, j, k);
      assert init[j] == paths[j];
      assert (front + last)[BlockStart(j, |bases|) + k] == front[BlockStart(j, |bases|) + k];
    } else {
      ForPathEntry(bases, paths[n], entry, version, k);
      assert BlockStart(j, |bases|) == |front|;
      assert (front + last)[|front| + k] == last[k];
    }
  }

  /** The block for version v starts right after the blocks of the versions before it. */
  lemma ExpandBlockAfter(bases: seq<string>, paths: seq<string>, entry: Entry, oldest: int, newest: int, v: int, t: nat, n: nat, e: string)
    requires oldest <= v <= newest && t < |ForVersion(bases, paths, entry, v)|
    requires n == BlockStart(v - oldest, BlockStart(|paths|, |bases|)) + t
    requires ForVersion(bases, paths, entry, v)[t] == e
    ensures n < |Expand(bases, paths, entry, oldest, newest)|
    ensures Expand(bases, paths, entry, oldest, newest)[n] == e
  {
    var before := Expand(bases, paths, entry, oldest, v - 1);
    var block := ForVersion(bases, paths, entry, v);
    var after := Expand(bases, paths, entry, v + 1, newest);
    ExpandBefore(bases, paths, entry, oldest, v);
    ExpandSplit(bases, paths, entry, oldest, v, newest);
    ExpandStep(bases, paths, entry, oldest, v);
    IndexMiddle(Expand(bases, paths, entry, oldest, newest), before, block, after, t, n);
  }

  /** Index |a| + t of a + b + c is index t of b. */
  lemma IndexMiddle<T>(whole: seq<T>, a: seq<T>, b: seq<T>, c: seq<T>, t: nat, n: nat)
    requires whole == a + b + c && n == |a| + t && t < |b|
    ensures n < |whole| && whole[n] == b[t]
  {
  }

  /** The versions before v fill v - oldest whole blocks. */
  lemma ExpandBefore(bases: seq<string>, paths: seq<string>, entry: Entry, oldest: int, v: int)
    requires oldest <= v
    ensures |Expand(bases, paths, entry, oldest, v - 1)| == BlockStart(v - oldest, BlockStart(|paths|, |bases|))
  {
    ExpandSize(bases, paths, entry, oldest, v - 1);
    assert RangeSize(oldest, v - 1) == v - oldest;
  }

  /** Entry k of path j's block inside version v's block, at the index i the blocks add up to. */
  lemma ExpandEntry(bases: seq<string>, paths: seq<string>, entry: Entry, oldest: int, newest: int, v: int, j: nat, k: nat)
    requires oldest <= v <= newest && j < |paths| && k < |bases|
    ensures BlockStart(v - oldest, BlockStart(|paths|, |bases|)) + (BlockStart(j, |bases|) + k)
          < |Expand(bases, paths, entry, oldest, newest)|
    ensures Expand(bases, paths, entry, oldest, newest)
              [BlockStart(v - oldest, BlockStart(|paths|, |bases|)) + (BlockStart(j, |bases|) + k)]
         == entry(bases[k], paths[j], v)
  {
    ForVersionEntry(bases, paths, entry, v, j, k);
    ExpandBlockAfter(bases, paths, entry, oldest, newest, v, BlockStart(j, |bases|) + k,
                     BlockStart(v - oldest, BlockStart(|paths|, |bases|)) + (BlockStart(j, |bases|) + k),
                     entry(bases[k], paths[j], v));
  }

  lemma BlockIndex(c: int, paths: int, j: int, bases: int, k: int)
    ensures (c * paths + j) * bases + k == c * (paths * bases) + (j * bases + k)
  {
  }

  /**
   * Entry ((v - oldest) * |paths| + j) * |bases| + k is base k rewritten for path j at
   * version v: versions ascending, then paths in declaration order, then base patterns.
   */
  lemma ExpandAt(bases: seq<string>, paths: seq<string>, entry: Entry, oldest: int, newest: int, v: int, j: int, k: int)
    requires oldest <= v <= newest && 0 <= j < |paths| && 0 <= k < |bases|
    ensures 0 <= ((v - oldest) * |paths| + j) * |bases| + k < |Expand(bases, paths, entry, oldest, newest)|
    ensures Expand(bases, paths, entry, oldest, newest)[((v - oldest) * |paths| + j) * |bases| + k]
         == entry(bases[k], paths[j], v)
  {
    ExpandEntry(bases, paths, entry, oldest, newest, v, j, k);
    BlockStartIsProduct(|paths|, |bases|);
    BlockStartIsProduct(v - oldest, |paths| * |bases|);
    BlockStartIsProduct(j, |bases|);
    BlockIndex(v - oldest, |paths|, j, |bases|, k);
    assert ((v - oldest) * |paths| + j) * |bases| + k
        == BlockStart(v - oldest, BlockStart(|paths|, |bases|)) + (BlockStart(j, |bases|) + k);
  }

  // ---------------------------------------------------------------------------------------
  // Contents
  // ---------------------------------------------------------------------------------------

  lemma {:induction false} ForPathContains(bases: seq<string>, path: string, entry: Entry, version: int, x: string)
    ensures x in ForPath(bases, path, entry, version)
        <==> exists b :: b in bases && x == entry(b, path, version)
  {
    var r := ForPath(bases, path, entry, version);
    if x in r {
      var k :| 0 <= k < |r| && r[k] == x;
      ForPathEntry(bases, path, entry, version, k);
      assert bases[k] in bases;
    }
    if exists b :: b in bases && x == entry(b, path, version) {
      var b :| b in bases && x == entry(b, path, version);
      var k :| 0 <= k < |bases| && bases[k] == b;
      ForPathEntry(bases, path, entry, version, k);
      assert r[k] == x;
    }
  }

  lemma {:induction false} ForVersionContains(bases: seq<string>, paths: seq<string>, entry: Entry, version: int, x: string)
    ensures x in ForVersion(bases, paths, entry, version)
        <==> exists b, p :: b in bases && p in paths && x == entry(b, p, version)
    decreases |paths|
  {
    if paths != [] {
      var init, last := paths[..|paths| - 1], paths[|paths| - 1];
      assert paths == init + [last];
      ForVersionContains(bases, init, entry, version, x);
      ForPathContains(bases, last, entry, version, x);
      if exists b, p :: b in bases && p in paths && x == entry(b, p, version) {
        var b, p :| b in bases && p in paths && x == entry(b, p, version);
        assert p in init || p == last;
      }
    }
  }

  /** An entry is in the output exactly when it is some base rewritten for some path and version in range. */
  lemma {:induction false} ExpandContains(bases: seq<string>, paths: seq<string>, entry: Entry, oldest: int, newest: int, x: string)
    ensures x in Expand(bases, paths, entry, oldest, newest)
        <==> exists v, b, p :: oldest <= v <= newest && b in bases && p in paths && x == entry(b, p, v)
    decreases RangeSize(oldest, newest)
  {
    if oldest <= newest {
      ExpandContains(bases, paths, entry, oldest, newest - 1, x);
      ForVersionContains(bases, paths, entry, newest, x);
      if exists v, b, p :: oldest <= v <= newest && b in bases && p in paths && x == entry(b, p, v) {
        var v, b, p :| oldest <= v <= newest && b in bases && p in paths && x == entry(b, p, v);
        if v < newest {
          assert oldest <= v <= newest - 1;
        }
      }
    }
  }

  /** Expanding a range equals expanding its lower part followed by its upper part. */
  lemma {:induction false} ExpandSplit(bases: seq<string>, paths: seq<string>, entry: Entry, oldest: int, middle: int, newest: int)
    requires oldest - 1 <= middle <= newest
    ensures Expand(bases, paths, entry, oldest, newest)
         == Expand(bases, paths, entry, oldest, middle) + Expand(bases, paths, entry, middle + 1, newest)
    decreases newest - middle
  {
    if middle == newest {
      assert Expand(bases, paths, entry, middle + 1, newest) == [];
    } else {
      ExpandSplit(bases, paths, entry, oldest, middle, newest - 1);
    }
  }

  // ---------------------------------------------------------------------------------------
  // Distinct versions give distinct patterns
  // ---------------------------------------------------------------------------------------

  lemma CancelAround(front: string, a: string, b: string, back: string)
    requires front + a + back == front + b + back
    ensures a == b
  {
    var s := front + a + back;
    assert |a| == |b|;
    assert a == s[|front|..|front| + |a|];
    assert b == (front + b + back)[|front|..|front| + |b|];
  }

  /** The whole base is kept up to the trailing path, even where it contains the path again. */
  lemma VersionedKeepsPrefix(front: string, path: string, prefix: string, version: int)
    ensures Versioned(front + path, path, prefix, version) == front + "/" + prefix + IntToString(version) + path
  {
    var base := front + path;
    assert base[|base| - |path|..] == path;
    assert base[..|base| - |path|] == front;
  }

  /** A base ending in the path is rewritten differently for different versions. */
  lemma VersionedInjective(base: string, path: string, prefix: string, v: int, w: int)
    requires EndsWith(base, path)
    requires Versioned(base, path, prefix, v) == Versioned(base, path, prefix, w)
    ensures v == w
  {
    var front := base[..|base| - |path|];
    assert base == front + path;
    VersionedKeepsPrefix(front, path, prefix, v);
    VersionedKeepsPrefix(front, path, prefix, w);
    CancelAround(front + "/" + prefix, IntToString(v), IntToString(w), path);
    IntToStringInjective(v, w);
  }

  /** For one base and one path, entry i is version oldest + i. */
  lemma SingleExpandAt(base: string, path: string, entry: Entry, oldest: int, newest: int, i: int)
    requires 0 <= i < RangeSize(oldest, newest)
    ensures |Expand([base], [path], entry, oldest, newest)| == RangeSize(oldest, newest)
    ensures Expand([base], [path], entry, oldest, newest)[i] == entry(base, path, oldest + i)
  {
    ExpandSize([base], [path], entry, oldest, newest);
    ExpandEntry([base], [path], entry, oldest, newest, oldest + i, 0, 0);
    assert BlockStart(1, 1) == 1;
    BlockStartIsProduct(i, 1);
    BlockStartIsProduct(RangeSize(oldest, newest), 1);
    assert BlockStart(i, BlockStart(1, 1)) + (BlockStart(0, 1) + 0) == i;
  }

  lemma SingleExpandLength(base: string, path: string, entry: Entry, oldest: int, newest: int)
    ensures |Expand([base], [path], entry, oldest, newest)| == RangeSize(oldest, newest)
  {
    ExpandSize([base], [path], entry, oldest, newest);
    assert BlockStart(1, 1) == 1;
    BlockStartIsProduct(RangeSize(oldest, newest), 1);
  }

  /** Every pattern one base and one path produce is that base rewritten at a version in range. */
  lemma SingleExpandMember(base: string, path: string, entry: Entry, oldest: int, newest: int, x: string)
    requires x in Expand([base], [path], entry, oldest, newest)
    ensures exists v :: oldest <= v <= newest && x == entry(base, path, v)
  {
    var r := Expand([base], [path], entry, oldest, newest);
    SingleExpandLength(base, path, entry, oldest, newest);
    var i :| 0 <= i < |r| && r[i] == x;
    SingleExpandAt(base, path, entry, oldest, newest, i);
  }

  /** The rewrite of this base for this path tells every two versions apart. */
  ghost predicate SeparatesVersions(entry: Entry, base: string, path: string) {
    forall v, w :: entry(base, path, v) == entry(base, path, w) ==> v == w
  }

  lemma RewriteSeparatesVersions(base: string, path: string, prefix: string)
    requires EndsWith(base, path)
    ensures SeparatesVersions(Rewrite(prefix), base, path)
  {
    forall v, w | Rewrite(prefix)(base, path, v) == Rewrite(prefix)(base, path, w) ensures v == w {
      VersionedInjective(base, path, prefix, v, w);
    }
  }

  /** No two positions hold the same pattern. */
  predicate Distinct(s: seq<string>) {
    forall i, j :: 0 <= i < j < |s| ==> s[i] != s[j]
  }

  /** One handler with one path and one base never produces the same pattern twice. */
  lemma SingleExpandDistinct(base: string, path: string, prefix: string, oldest: int, newest: int)
    requires EndsWith(base, path)
    ensures Distinct(Expand([base], [path], Rewrite(prefix), oldest, newest))
  {
    var r := Expand([base], [path], Rewrite(prefix), oldest, newest);
    RewriteSeparatesVersions(base, path, prefix);
    SingleExpandLength(base, path, Rewrite(prefix), oldest, newest);
    forall i, j | 0 <= i < j < |r| ensures r[i] != r[j] {
      SingleExpandAt(base, path, Rewrite(prefix), oldest, newest, i);
      SingleExpandAt(base, path, Rewrite(prefix), oldest, newest, j);
    }
  }

  /** Two handlers on the same base and path with disjoint version ranges share no pattern. */
  lemma DisjointRangesShareNothing(base: string, path: string, prefix: string, oldest1: int, newest1: int, oldest2: int, newest2: int, x: string)
    requires EndsWith(base, path)
    requires newest1 < oldest2 || newest2 < oldest1
    ensures !(x in Expand([base], [path], Rewrite(prefix), oldest1, newest1) && x in Expand([base], [path], Rewrite(prefix), oldest2, newest2))
  {
    if x in Expand([base], [path], Rewrite(prefix), oldest1, newest1) && x in Expand([base], [path], Rewrite(prefix), oldest2, newest2) {
      RewriteSeparatesVersions(base, path, prefix);
      SingleExpandMember(base, path, Rewrite(prefix), oldest1, newest1, x);
      SingleExpandMember(base, path, Rewrite(prefix), oldest2, newest2, x);
    }
  }

  /** A pattern rewritten for a version contains a decimal digit (the version's last). */
  lemma VersionedHasDigit(base: string, path: string, prefix: string, version: int)
    requires EndsWith(base, path)
    ensures exists i :: 0 <= i < |Versioned(base, path, prefix, version)| && IsDigit(Versioned(base, path, prefix, version)[i])
  {
    var front := base[..|base| - |path|];
    assert base == front + path;
    VersionedKeepsPrefix(front, path, prefix, version);
    var r := Versioned(base, path, prefix, version);
    var s := IntToString(version);
    var i := |front| + 1 + |prefix| + |s| - 1;
    assert r[i] == s[|s| - 1];
  }
}
