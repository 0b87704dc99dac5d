/** The policy table of the file size checker: which policies exist, how a
    policy's pattern is matched against a file path, and which table is in
    force (the configured one, or the built-in defaults). */
module PolicyTable {

  datatype Option<T> = None | Some(value: T)

  /** A numeric option of a policy. It is checked only when it is present and
      non-zero, since an absent option and 0 are both falsy in the guards of
      the checker. */
  predicate Limited(bound: Option<nat>) {
    bound.Some? && bound.value != 0
  }

  /** One policy object: a byte limit, whether the file is probed as an
      image, and the four optional dimension bounds. */
  datatype Policy = Policy(
    maxSize: Option<nat>,
    image: bool,
    minWidth: Option<nat>,
    minHeight: Option<nat>,
    maxWidth: Option<nat>,
    maxHeight: Option<nat>)

  /** The patterns of the table, restricted to the two shapes the default
      table uses: a literal alternation that must end the path (`\.(a|b)$`)
      or that may occur anywhere in it (`\.(a|b)`). */
  datatype Pattern =
    | EndsWithAny(alternatives: seq<string>)
    | ContainsAny(alternatives: seq<string>)

  /** A table row: the pattern key and the policy it selects. */
  datatype Entry = Entry(pattern: Pattern, policy: Policy)

  predicate IsSuffix(s: string, path: string) {
    |s| <= |path| && path[|path| - |s|..] == s
  }

  predicate IsPrefix(s: string, path: string) {
    |s| <= |path| && path[..|s|] == s
  }

  /** `s` occurs somewhere in `path`. */
  predicate Occurs(s: string, path: string)
    ensures Occurs(s, path) ==> |s| <= |path|
    decreases |path|
  {
    IsPrefix(s, path) || (|path| > 0 && Occurs(s, path[1..]))
  }

  /** `new RegExp(pattern).test(path)` for the two pattern shapes: some
      alternative ends the path, or occurs in it. */
  predicate Matches(pattern: Pattern, path: string)
    ensures Matches(pattern, path) ==>
      exists i :: 0 <= i < |pattern.alternatives| && |pattern.alternatives[i]| <= |path|
  {
    match pattern
    case EndsWithAny(alts) => exists i :: 0 <= i < |alts| && IsSuffix(alts[i], path)
    case ContainsAny(alts) => exists i :: 0 <= i < |alts| && Occurs(alts[i], path)
  }

  const NoBounds := Policy(None, false, None, None, None, None)

  /** `\.(jpe?g|png)$`: the only pattern of the defaults that is probed. */
  const ImagePattern := EndsWithAny([".jpg", ".jpeg", ".png"])
  const ImagePolicy := Policy(Some(1000000), true, Some(640), Some(480), Some(2048), Some(1536))

  /** `\.svg$` */
  const SvgPattern := EndsWithAny([".svg"])
  /** `\.(mp4|m4v|ogv)`, not anchored at the end. */
  const VideoPattern := ContainsAny([".mp4", ".m4v", ".ogv"])
  /** `\.(mp3|ogg|aac|m4a)`, not anchored at the end. */
  const AudioPattern := ContainsAny([".mp3", ".ogg", ".aac", ".m4a"])

  /** The built-in table, in its declaration order. */
  const DefaultTable: seq<Entry> := [
    Entry(ImagePattern, ImagePolicy),
    Entry(SvgPattern, NoBounds.(maxSize := Some(1000000))),
    Entry(VideoPattern, NoBounds.(maxSize := Some(10000000))),
    Entry(AudioPattern, NoBounds.(maxSize := Some(2000000)))
  ]

  /** The table in force: a configured table (any object, even an empty one)
      replaces the defaults wholesale; without one the defaults apply. */
  function ActiveTable(configured: Option<seq<Entry>>): (table: seq<Entry>)
    ensures configured.Some? ==> table == configured.value
    ensures configured.None? ==> table == DefaultTable
  {
    match configured
    case Some(t) => t
    case None => DefaultTable
  }

  /** A path that ends in one of the extensions of the svg, video or audio
      rows is never matched by the image row of the defaults, so such a file
      is never probed with the default table. */
  lemma OtherExtensionsAreNotImages(ext: string, path: string)
    requires ext in [".svg", ".mp4", ".m4v", ".ogv", ".mp3", ".ogg", ".aac", ".m4a"]
    requires IsSuffix(ext, path)
    ensures !Matches(ImagePattern, path)
  {
    SuffixTail(ext, path);
    forall i | 0 <= i < |ImagePattern.alternatives|
      ensures !IsSuffix(ImagePattern.alternatives[i], path)
    {
      var img := ImagePattern.alternatives[i];
      if IsSuffix(img, path) {
        SuffixTail(img, path);
        assert false;
      }
    }
  }

  /** A suffix of at least two characters fixes the path's last two. */
  lemma SuffixTail(s: string, path: string)
    requires IsSuffix(s, path) && |s| >= 2
    ensures path[|path| - 2] == s[|s| - 2] && path[|path| - 1] == s[|s| - 1]
  {
    assert path[|path| - 2] == path[|path| - |s|..][|s| - 2];
  }

  /** Where `s` occurs, its first two characters occur side by side. */
  lemma {:induction false} OccursPair(s: string, path: string)
    requires Occurs(s, path) && |s| >= 2
    ensures exists j :: 0 <= j < |path| - 1 && path[j] == s[0] && path[j + 1] == s[1]
    decreases |path|
  {
    if IsPrefix(s, path) {
      assert path[0] == s[0] && path[1] == s[1];
    } else {
      OccursPair(s, path[1..]);
      var j :| 0 <= j < |path[1..]| - 1 && path[1..][j] == s[0] && path[1..][j + 1] == s[1];
      assert path[j + 1] == s[0] && path[j + 2] == s[1];
    }
  }

  /** The video and audio rows of the defaults only match a path in which a
      dot is followed by `m`, `o` or `a`. */
  lemma MediaPatternsNeedDot(path: string)
    requires forall j :: 0 <= j < |path| - 1 && path[j] == '.' ==> path[j + 1] !in "moa"
    ensures !Matches(VideoPattern, path) && !Matches(AudioPattern, path)
  {
    if Matches(VideoPattern, path) || Matches(AudioPattern, path) {
      var alts := if Matches(VideoPattern, path) then VideoPattern.alternatives else AudioPattern.alternatives;
      var i :| 0 <= i < |alts| && Occurs(alts[i], path);
      OccursPair(alts[i], path);
    }
  }

  /** `s` occurs in any path that has it between some prefix and some
      suffix. */
  lemma {:induction false} OccursInside(pre: string, s: string, post: string)
    ensures Occurs(s, pre + s + post)
    decreases |pre|
  {
    if pre == [] {
      assert (pre + s + post)[..|s|] == s;
    } else {
      OccursInside(pre[1..], s, post);
      assert (pre + s + post)[1..] == pre[1..] + s + post;
    }
  }

  /** The video and audio rows of the defaults are not anchored: their
      extensions match wherever they appear in the path, not only at its
      end. */
  lemma MediaExtensionsMatchAnywhere(pre: string, ext: string, post: string)
    ensures ext in VideoPattern.alternatives ==> Matches(VideoPattern, pre + ext + post)
    ensures ext in AudioPattern.alternatives ==> Matches(AudioPattern, pre + ext + post)
  {
    OccursInside(pre, ext, post);
  }

  /** Where `s` occurs in `path`, it is the slice of `path` at some
      offset. */
  lemma {:induction false} OccursAt(s: string, path: string) returns (k: nat)
    requires Occurs(s, path)
    ensures k + |s| <= |path| && path[k..k + |s|] == s
    decreases |path|
  {
    if IsPrefix(s, path) {
      k := 0;
    } else {
      var j := OccursAt(s, path[1..]);
      assert path[1..][j..j + |s|] == path[j + 1..j + 1 + |s|];
      k := j + 1;
    }
  }

  /** The test searches the whole path: a match survives a directory put in
      front of the path, and a pattern without `$` also survives anything
      put after it. */
  lemma MatchSurvivesExtension(pattern: Pattern, pre: string, path: string, post: string)
    ensures Matches(pattern, path) ==> Matches(pattern, pre + path)
    ensures pattern.ContainsAny? && Matches(pattern, path) ==> Matches(pattern, pre + path + post)
  {
    if Matches(pattern, path) {
      var alts := pattern.alternatives;
      match pattern
      case EndsWithAny(_) =>
        var i :| 0 <= i < |alts| && IsSuffix(alts[i], path);
        assert (pre + path)[|pre + path| - |alts[i]|..] == path[|path| - |alts[i]|..];
      case ContainsAny(_) =>
        var i :| 0 <= i < |alts| && Occurs(alts[i], path);
        var s := alts[i];
        var k := OccursAt(s, path);
        assert pre + path == (pre + path[..k]) + s + path[k + |s|..];
        assert pre + path + post == (pre + path[..k]) + s + (path[k + |s|..] + post);
        OccursInside(pre + path[..k], s, path[k + |s|..]);
        OccursInside(pre + path[..k], s, path[k + |s|..] + post);
    }
  }
}
