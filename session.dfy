/**
 * The edit session: the module-level `currentEl`, the click handler that sets
 * it and the file-input `change` handler that previews the chosen image,
 * resolves the repository path and commits it.
 *
 * The asynchronous steps are inputs: what the file read produced, what the
 * revision lookup answered and what the upload answered. The handler's
 * observable effects are the element's new state, the calls and notices it
 * issues (`Event`s, in order) and whether it clears `currentEl`.
 */
module Session {

  import opened Wrappers
  import opened Text
  import opened CssUrl
  import opened PathResolver
  import opened CommitClient
  import opened Scanner

  const CannotResolveNotice := "Cannot resolve GitHub path for this image. Updated locally only."
  const SuccessNotice := "Image updated successfully on GitHub."
  const FailureNotice := "Upload failed. Check console for details."

  /** `this.files[0]` and what `toBase64` made of it: no file, a rejected read, or the data URL. */
  datatype FileRead = NoFile | ReadFailed | Read(data: string)

  /** What the handler does that is seen outside the page: a settled revision lookup, an upload, a notice. */
  datatype Event = ShaLookup(path: string) | Upload(path: string, request: CommitRequest) | Alert(text: string)

  /** The element's state afterwards, the events issued, and whether `currentEl` was reset to `null`. */
  datatype Outcome = Outcome(element: ElementState, events: seq<Event>, released: bool)

  /** The shape of a data URL `FileReader.readAsDataURL` produces for an image file. */
  predicate IsEncodedFile(d: string) {
    && StartsWith(d, DataScheme)
    && (forall k :: 0 <= k < |d| ==> d[k] != ')' && !IsLineTerminator(d[k]))
    && !IsQuote(d[|d| - 1])
  }

  /** The optimistic preview (lines 139-143): the new image becomes the `src` or the inline background. */
  function Preview(st: ElementState, data: string): (r: ElementState)
    ensures r.tagName == st.tagName && r.sheetBg == st.sheetBg
    ensures r.editableDone == st.editableDone && r.editableBgDone == st.editableBgDone && r.listeners == st.listeners
    ensures IsImg(st.tagName) ==> r.src == Some(data) && r.styleBg == st.styleBg
    ensures !IsImg(st.tagName) ==> r.src == st.src && r.styleBg == Opening + data + ")"
  {
    if IsImg(st.tagName) then st.(src := Some(data)) else st.(styleBg := Opening + data + ")")
  }

  /** The reference the element shows (lines 146-153): its `src`, or the `url(...)` capture of its background. */
  function ReadBack(st: ElementState): (r: Option<string>)
    ensures IsImg(st.tagName) ==> r == st.src
    ensures !IsImg(st.tagName) ==> r == UrlOf(ComputedBg(st))
    ensures !IsImg(st.tagName) && r.Some? ==> forall k :: 0 <= k < |r.value| ==> r.value[k] != ')'
  {
    if IsImg(st.tagName) then st.src
    else
      var bg := if st.styleBg != [] then st.styleBg else ComputedBg(st);
      UrlOf(bg)
  }

  /** Lines 155-172, once the preview is shown and the path resolution is known. */
  function Finish(shown: ElementState, repoPath: Option<string>, data: string, sha: ShaResponse, upload: UploadResult): (o: Outcome)
    ensures o.element == shown
    ensures repoPath.None? ==> o.events == [Alert(CannotResolveNotice)] && o.released
    ensures repoPath.Some? ==>
      && |o.events| >= 2
      && o.events[0] == ShaLookup(repoPath.value)
      && o.events[1] == Upload(repoPath.value, RequestFor(repoPath.value, data, LatestSha(sha)))
      && (upload.UploadThrew? <==> |o.events| == 2)
      && (upload.Answered? ==> o.events[2] == Alert(if upload.hasCommit then SuccessNotice else FailureNotice))
    ensures repoPath.Some? && upload.Answered? ==> |o.events| == 3
    ensures o.released <==> !(repoPath.Some? && upload.UploadThrew?)
  {
    match repoPath
    case None => Outcome(shown, [Alert(CannotResolveNotice)], true)
    case Some(path) =>
      var calls := [ShaLookup(path), Upload(path, RequestFor(path, data, LatestSha(sha)))];
      match upload
      case UploadThrew => Outcome(shown, calls, false)
      case Answered(hasCommit) =>
        Outcome(shown, calls + [Alert(if hasCommit then SuccessNotice else FailureNotice)], true)
  }

  /** The handler as written: the preview is applied first, and the reference is read back from the previewed element. */
  function StepAsWritten(st: ElementState, data: string, pathnameOf: string -> Option<string>, sha: ShaResponse, upload: UploadResult): (o: Outcome)
    ensures o.element == Preview(st, data)
    ensures |o.events| >= 1
    ensures o.events[0] == Alert(CannotResolveNotice) <==> ExtractRepoPath(ReadBack(Preview(st, data)), pathnameOf).None?
    ensures o.events[0].ShaLookup? ==> IsRepoPath(o.events[0].path)
    ensures var r := ExtractRepoPath(ReadBack(Preview(st, data)), pathnameOf); r.Some? ==> o.events[0] == ShaLookup(r.value)
  {
    var shown := Preview(st, data);
    Finish(shown, ExtractRepoPath(ReadBack(shown), pathnameOf), data, sha, upload)
  }

  /** The handler with the original reference read before the preview replaces it. */
  function Step(st: ElementState, data: string, pathnameOf: string -> Option<string>, sha: ShaResponse, upload: UploadResult): (o: Outcome)
    ensures o.element == Preview(st, data)
    ensures |o.events| >= 1
    ensures o.events[0] == Alert(CannotResolveNotice) <==> ExtractRepoPath(ReadBack(st), pathnameOf).None?
    ensures o.events[0].ShaLookup? ==> IsRepoPath(o.events[0].path)
    ensures var r := ExtractRepoPath(ReadBack(st), pathnameOf); r.Some? ==> o.events[0] == ShaLookup(r.value)
  {
    var original := ReadBack(st);
    Finish(Preview(st, data), ExtractRepoPath(original, pathnameOf), data, sha, upload)
  }

  /** Without a repository path there is one notice, no lookup and no upload, and the session ends. */
  lemma UnresolvedStaysLocal(st: ElementState, data: string, pathnameOf: string -> Option<string>, sha: ShaResponse, upload: UploadResult)
    requires ExtractRepoPath(ReadBack(st), pathnameOf).None?
    ensures var o := Step(st, data, pathnameOf, sha, upload);
      && o.events == [Alert(CannotResolveNotice)]
      && o.released
  {
  }

  /**
   * Whatever the path and the network answers: every upload goes to a
   * repository path, carries the request built for that path and the looked-up
   * revision, and comes after the settled lookup for the same path.
   */
  lemma {:induction false} LookupSettlesBeforeUpload(st: ElementState, data: string, pathnameOf: string -> Option<string>, sha: ShaResponse, upload: UploadResult)
    ensures var o := Step(st, data, pathnameOf, sha, upload);
      forall j :: 0 <= j < |o.events| && o.events[j].Upload? ==>
        && IsRepoPath(o.events[j].path)
        && o.events[j].request == RequestFor(o.events[j].path, data, LatestSha(sha))
        && exists i :: 0 <= i < j && o.events[i] == ShaLookup(o.events[j].path)
  {
    var o := Step(st, data, pathnameOf, sha, upload);
    var repoPath := ExtractRepoPath(ReadBack(st), pathnameOf);
    if repoPath.Some? {
      assert o.events[0] == ShaLookup(repoPath.value);
      assert o.events[1] == Upload(repoPath.value, RequestFor(repoPath.value, data, LatestSha(sha)));
      assert forall j :: 2 <= j < |o.events| ==> o.events[j].Alert?;
    }
  }

  /** Success is reported exactly when a path resolved and the upload's answer has a `commit`; the session then ends. */
  lemma SuccessIffCommit(st: ElementState, data: string, pathnameOf: string -> Option<string>, sha: ShaResponse, upload: UploadResult)
    ensures var o := Step(st, data, pathnameOf, sha, upload);
      var resolved := ExtractRepoPath(ReadBack(st), pathnameOf).Some?;
      && (Alert(SuccessNotice) in o.events <==> resolved && upload == Answered(true))
      && (Alert(FailureNotice) in o.events <==> resolved && upload == Answered(false))
      && (o.released <==> !(resolved && upload.UploadThrew?))
  {
  }

  /**
   * The handler as written never commits a freshly read file: the previewed
   * element shows the new `data:` URL, whose resolution fails, so there is
   * only the "updated locally only" notice.
   */
  lemma {:induction false} AsWrittenNeverUploads(st: ElementState, data: string, pathnameOf: string -> Option<string>, sha: ShaResponse, upload: UploadResult)
    requires IsEncodedFile(data)
    ensures StepAsWritten(st, data, pathnameOf, sha, upload).events == [Alert(CannotResolveNotice)]
    ensures StepAsWritten(st, data, pathnameOf, sha, upload).released
  {
    var shown := Preview(st, data);
    if !IsImg(st.tagName) {
      UrlOfWrapped(data);
      assert ReadBack(shown) == Some(data);
    }
    assert ReadBack(shown) == Some(data);
  }

  /** With the read-back first, an element showing a resolvable reference is looked up and uploaded under its path. */
  lemma {:induction false} ResolvableReferenceIsCommitted(st: ElementState, src: string, path: string, data: string,
                                                          pathnameOf: string -> Option<string>, sha: ShaResponse, upload: UploadResult)
    requires ReadBack(st) == Some(src) && src != [] && !StartsWith(src, DataScheme)
    requires pathnameOf(src) == Some(path)
    requires exists j: nat :: OccursAt(path, ImagesMarker, j)
    ensures var o := Step(st, data, pathnameOf, sha, upload);
      var repoPath := ResolvePathname(path).value;
      && ResolvePathname(path).Some?
      && |o.events| >= 2
      && o.events[0] == ShaLookup(repoPath)
      && o.events[1] == Upload(repoPath, RequestFor(repoPath, data, LatestSha(sha)))
  {
    ResolvesIffImagesMarker(path);
  }

  /** The banner example, as written: the new image shows, nothing is committed. */
  lemma BannerAsWritten(pathnameOf: string -> Option<string>)
    ensures StepAsWritten(ElementState("IMG", Some("/assets/images/banner.png"), "", "none", true, false, 1),
                          "data:image/png;base64,iVBORw0KGgo", pathnameOf, OkBody(Some("abc123")), Answered(true)).events
         == [Alert(CannotResolveNotice)]
  {
    var d := "data:image/png;base64,iVBORw0KGgo";
    assert StartsWith(d, DataScheme);
    assert d[|d| - 1] == 'o';
    AsWrittenNeverUploads(ElementState("IMG", Some("/assets/images/banner.png"), "", "none", true, false, 1),
                          d, pathnameOf, OkBody(Some("abc123")), Answered(true));
  }

  lemma {:induction false} AssetPathResolves(name: string, pathnameOf: string -> Option<string>)
    requires pathnameOf(AssetsMarker + name) == Some(AssetsMarker + name)
    ensures ExtractRepoPath(Some(AssetsMarker + name), pathnameOf) == Some(AssetRoot + AssetsMarker + name)
  {
    var src := AssetsMarker + name;
    assert src[..|AssetsMarker|] == AssetsMarker;
    assert OccursAt(src, AssetsMarker, 0);
    assert IndexOf(src, AssetsMarker) == Some(0);
    assert src[0..|DataScheme|][0] != DataScheme[0];
    assert src != [];
    assert ResolvePathname(src) == Some(AssetRoot + src[0..]);
    assert src[0..] == src;
    assert AssetRoot + src == AssetRoot + AssetsMarker + name;
  }

  /**
   * The worked example of an image `/assets/images/<name>` replaced by a PNG, with
   * the read-back first: lookup, upload with the revision found, success notice.
   */
  lemma {:induction false} AssetImageCommitted(name: string, payload: string, sha: string, pathnameOf: string -> Option<string>)
    requires pathnameOf(AssetsMarker + name) == Some(AssetsMarker + name)
    requires ',' !in payload && sha != []
    ensures var path := AssetRoot + AssetsMarker + name;
      var o := Step(ElementState("IMG", Some(AssetsMarker + name), "", "none", true, false, 1),
                    "data:image/png;base64," + payload, pathnameOf, OkBody(Some(sha)), Answered(true));
      o.events == [
        ShaLookup(path),
        Upload(path, CommitRequest("Update " + path, Some(payload), "main", Some(sha))),
        Alert(SuccessNotice)]
  {
    assert IsImg("IMG");
    AssetPathResolves(name, pathnameOf);
    DataPartOfDataUrl("data:image/png;base64", payload);
    assert "data:image/png;base64" + [','] + payload == "data:image/png;base64," + payload;
  }

  /** Lines 139-143 on the element itself. */
  method ShowPreview(el: Element, data: string)
    modifies el
    ensures el.State() == Preview(old(el.State()), data)
  {
    if IsImg(el.tagName) {
      el.src := Some(data);
    } else {
      el.styleBg := Opening + data + ")";
    }
  }

  /** The page's edit session: the element whose image is being replaced, and the events issued so far. */
  class Editor {
    var currentEl: Element?
    var log: seq<Event>

    constructor ()
      ensures currentEl == null && log == []
    {
      currentEl := null;
      log := [];
    }

    /** `onClickEditable` (lines 123-129): remember the clicked element; the file chooser opens. */
    method OnClickEditable(el: Element)
      modifies this
      ensures currentEl == el && log == old(log)
    {
      currentEl := el;
    }

    /**
     * The `change` handler (lines 132-173), reading the element's reference
     * before the preview replaces it. Without a file or an element, or when
     * the file read rejects, nothing happens; otherwise the element, the
     * events and `currentEl` are those `Step` gives.
     */
    method OnFileChange(file: FileRead, pathnameOf: string -> Option<string>, sha: ShaResponse, upload: UploadResult)
      modifies this, currentEl
      ensures old(currentEl) == null || !file.Read? ==>
        currentEl == old(currentEl) && log == old(log) && (old(currentEl) != null ==> unchanged(old(currentEl)))
      ensures old(currentEl) != null && file.Read? ==>
        var o := Step(old(currentEl.State()), file.data, pathnameOf, sha, upload);
        && old(currentEl).State() == o.element
        && log == old(log) + o.events
        && currentEl == (if o.released then null else old(currentEl))
    {
      if file.NoFile? || currentEl == null {
        return;
      }
      if file.ReadFailed? {
        return;
      }
      var el := currentEl;
      var data := file.data;
      var src := ReadBack(el.State());
      ShowPreview(el, data);
      var repoPath := ExtractRepoPath(src, pathnameOf);
      ghost var o := Finish(el.State(), repoPath, data, sha, upload);
      assert o == Step(old(el.State()), data, pathnameOf, sha, upload);
      Settle(el.State(), repoPath, data, sha, upload);
    }

    /**
     * Lines 155-172 once the path resolution is known: the notice, or the
     * lookup and the upload followed by the notice their answer calls for,
     * then `currentEl` is reset unless the upload threw.
     */
    method Settle(shown: ElementState, repoPath: Option<string>, data: string, sha: ShaResponse, upload: UploadResult)
      modifies this
      ensures var o := Finish(shown, repoPath, data, sha, upload);
        && log == old(log) + o.events
        && currentEl == (if o.released then null else old(currentEl))
    {
      ghost var o := Finish(shown, repoPath, data, sha, upload);
      if repoPath.None? {
        log := log + [Alert(CannotResolveNotice)];
        currentEl := null;
        return;
      }
      var path := repoPath.value;
      var latest := LatestSha(sha);
      log := log + [ShaLookup(path)];
      var request := RequestFor(path, data, latest);
      log := log + [Upload(path, request)];
      assert log == old(log) + o.events[..2];
      if upload.UploadThrew? {
        assert o.events == o.events[..2];
        return;
      }
      log := log + [Alert(if upload.hasCommit then SuccessNotice else FailureNotice)];
      currentEl := null;
      assert o.events == o.events[..2] + [o.events[2]];
    }
  }
}
