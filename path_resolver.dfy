/**
 * `extractRepoPath`: from the reference an image shows to a path inside the
 * site repository (`"public"` + the pathname from its asset marker onward), or
 * nothing.
 *
 * Resolving the reference against the page origin (`new URL(src, origin)`) is
 * the browser's URL parser; it is the parameter `pathnameOf`, whose `None`
 * stands for the constructor throwing (the `catch` then yields `null`).
 */
module PathResolver {

  import opened Wrappers
  import opened Text

  const AssetRoot := "public"
  const AssetsMarker := "/assets/images/"
  const ImagesMarker := "/images/"
  const DataScheme := "data:"

  /** A repository path: the asset root followed by the pathname from one of the two markers onward. */
  predicate IsRepoPath(r: string) {
    StartsWith(r, AssetRoot + AssetsMarker) || StartsWith(r, AssetRoot + ImagesMarker)
  }

  /** The marker search of lines 40-48 on a resolved pathname. */
  function ResolvePathname(path: string): (r: Option<string>)
    ensures r.Some? ==> IsRepoPath(r.value)
    ensures r.Some? ==> StartsWith(r.value, AssetRoot) && EndsWith(path, r.value[|AssetRoot|..])
  {
    match IndexOf(path, AssetsMarker)
    case Some(i) =>
      assert path[i..][..|AssetsMarker|] == AssetsMarker;
      Some(AssetRoot + path[i..])
    case None =>
      match IndexOf(path, ImagesMarker)
      case Some(j) =>
        assert path[j..][..|ImagesMarker|] == ImagesMarker;
        Some(AssetRoot + path[j..])
      case None => None
  }

  /** `extractRepoPath(src)`, with `None` for a `null` (or `undefined`) reference. */
  function ExtractRepoPath(src: Option<string>, pathnameOf: string -> Option<string>): (r: Option<string>)
    ensures src.None? || src.value == [] || StartsWith(src.value, DataScheme) ==> r.None?
    ensures r.Some? ==> IsRepoPath(r.value)
  {
    if src.None? || src.value == [] then None
    else if StartsWith(src.value, DataScheme) then None
    else
      match pathnameOf(src.value)
      case None => None
      case Some(path) => ResolvePathname(path)
  }

  /** `/assets/images/` contains `/images/`, seven characters in. */
  lemma AssetsMarkerHoldsImagesMarker(path: string, i: nat)
    requires OccursAt(path, AssetsMarker, i)
    ensures OccursAt(path, ImagesMarker, i + 7)
  {
    assert path[i + 7..i + 7 + |ImagesMarker|] == path[i..i + |AssetsMarker|][7..];
  }

  /** A pathname holding `/assets/images/` anywhere resolves from its first such occurrence. */
  lemma {:induction false} ResolvePrefersAssetsMarker(path: string, i: nat)
    requires OccursAt(path, AssetsMarker, i)
    ensures var r := ResolvePathname(path);
      && r.Some?
      && StartsWith(r.value, AssetRoot + AssetsMarker)
      && exists f :: f <= i && IndexOf(path, AssetsMarker) == Some(f) && r.value == AssetRoot + path[f..]
  {
    var f := IndexOf(path, AssetsMarker);
    assert f.Some?;
    assert path[f.value..][..|AssetsMarker|] == AssetsMarker;
  }

  /** Only when `/assets/images/` is absent does the `/images/` fallback apply. */
  lemma {:induction false} ResolveFallsBackToImagesMarker(path: string, j: nat)
    requires forall i: nat :: !OccursAt(path, AssetsMarker, i)
    requires OccursAt(path, ImagesMarker, j)
    ensures var r := ResolvePathname(path);
      && r.Some?
      && StartsWith(r.value, AssetRoot + ImagesMarker)
      && exists f :: f <= j && IndexOf(path, ImagesMarker) == Some(f) && r.value == AssetRoot + path[f..]
  {
    var f := IndexOf(path, ImagesMarker);
    assert f.Some?;
    assert path[f.value..][..|ImagesMarker|] == ImagesMarker;
  }

  /** A pathname resolves exactly when it contains `/images/` (with or without the `/assets` in front). */
  lemma {:induction false} ResolvesIffImagesMarker(path: string)
    ensures ResolvePathname(path).Some? <==> exists j: nat :: OccursAt(path, ImagesMarker, j)
  {
    match IndexOf(path, AssetsMarker)
    case Some(i) =>
      AssetsMarkerHoldsImagesMarker(path, i);
    case None =>
  }

  /**
   * The resolution of a reference that is neither empty nor a `data:` URL is
   * that of its pathname, so it is present exactly when the pathname holds `/images/`.
   */
  lemma {:induction false} ExtractFollowsPathname(src: string, path: string, pathnameOf: string -> Option<string>)
    requires src != [] && !StartsWith(src, DataScheme)
    requires pathnameOf(src) == Some(path)
    ensures ExtractRepoPath(Some(src), pathnameOf) == ResolvePathname(path)
    ensures ExtractRepoPath(Some(src), pathnameOf).Some? <==> exists j: nat :: OccursAt(path, ImagesMarker, j)
  {
    ResolvesIffImagesMarker(path);
  }
}
