# Dynamic image editor: verified model

A Dafny model of the core of `assets/js/common/image_editor.js`. This browser script lets a
site editor click an image and replace it. The image is either an `<img>` or an element painted
with a CSS `background-image`. The replacement is committed to the site's GitHub repository.

The model covers five parts:

- **Path resolution** (`PathResolver`). `extractRepoPath` maps the reference an image shows to
  `"public"` + the pathname from its first `/assets/images/` onward. If that marker is absent, it
  uses the first `/images/` instead. A missing or empty reference, a `data:` URL, or a pathname
  with neither marker gives `null`.
- **Background reference extraction** (`CssUrl`). This is the regular expression
  `/url\(["']?(.*?)["']?\)/`. It is modelled as the backtracking matcher it is: leftmost start,
  greedy optional quote, lazy capture that never crosses a line terminator. The lemmas prove:
  - the leftmost `url(` that can be closed wins, whatever unclosable ones come before it;
  - one opening quote is dropped;
  - the capture never contains `)`;
  - nothing is extracted when no `url(` is followed by a reachable `)`.
- **Commit payload** (`CommitClient`). It has:
  - the message `"Update " + path`;
  - the branch `"main"`;
  - `content` = `split(",")[1]` of the data URL: the text after the first comma, up to the next
    one. For a payload with no comma, such as the base64 output of `FileReader`, that is all of it
    (`DataPartOfDataUrl`). Section 3 of RFC 2397 (`data:[<mediatype>][;base64],<data>`) allows
    commas in `<data>`, and those are cut off;
  - a `sha` key exactly when the revision lookup gave a truthy one.
- **Surface marking** (`Scanner`). `markEditableImages` runs over a sequence of `Element` objects,
  updated in place. It is proved idempotent, and every listener it attaches comes with a flag it
  newly sets.
- **The edit session** (`Session`). The `Editor` class holds `currentEl`. It has the click handler
  and the file-input `change` handler. The network and file-reader outcomes are inputs. The
  handler's observable effects are a sequence of events: the settled revision lookup, the
  upload, and the notices shown.

`Text` holds the string primitives the script uses (`indexOf`, `startsWith`, `split`, ASCII
`toLowerCase`). `Wrappers` holds `Option`.

Behaviour of the code that the model keeps as written:

- Every reference, bare repository-relative strings included, goes through `new URL(src, origin)`
  (the parameter `pathnameOf`) before the marker search. There is no separate bare-path branch.
- When `new URL` throws, the `catch` makes the result `null` (`pathnameOf` returns `None`).
- The upload has no `try`. If its `fetch` or `res.json()` rejects, the handler stops without a
  notice and `currentEl` stays set. The event sequence ends after the upload and `released` is
  false.
- A lookup that throws or answers with a non-ok status gives no `sha`.
- The inline background the preview writes is `url(<data>)`, unquoted. A browser reads it back as
  `url("<data>")`. Both forms give the data URL back (`UrlOfWrapped`, `UrlOfQuoted`).

## Model

| member | source | states |
|---|---|---|
| `Text.IndexOf` | assets/js/common/image_editor.js:40-43 | `indexOf`: the result is an occurrence of the pattern, no occurrence comes before it, and `None` exactly when there is none |
| `Text.Split` | assets/js/common/image_editor.js:75 | `split(",")`: at least one piece, no piece contains the separator, at least two pieces exactly when the separator occurs |
| `Text.JoinSplit` | assets/js/common/image_editor.js:75 | joining the pieces with the separator gives back the string |
| `Text.SplitJoin` | assets/js/common/image_editor.js:75 | splitting a join of separator-free pieces gives back the pieces |
| `Text.ToLowerAscii` | assets/js/common/image_editor.js:139 | lower-casing keeps the length, turns each ASCII capital into the letter 32 code points above it, keeps every other character, and leaves no capital |
| `CssUrl.CaptureEnd` | assets/js/common/image_editor.js:112 | the lazy capture stops at the first index where `["']?\)` matches, crossing no line terminator, and stops exactly when a `)` is reachable |
| `CssUrl.MatchAt` | assets/js/common/image_editor.js:112 | at one start position: matches exactly when `url(` is there and a `)` is reachable; the capture starts past one optional quote and is the shortest one the closing tail can follow; it holds no `)` and no line terminator |
| `CssUrl.FirstMatch` | assets/js/common/image_editor.js:112 | the match position is the leftmost one |
| `CssUrl.UrlOf` | assets/js/common/image_editor.js:112-113 | some capture exactly when some `url(` has a reachable `)`; the capture holds no `)` |
| `CssUrl.FirstOpeningWins` | assets/js/common/image_editor.js:112 | when the first `url(` can be closed, its capture is the result |
| `CssUrl.LeftmostClosableWins` | assets/js/common/image_editor.js:112 | the capture at the leftmost position where `url(` has a reachable `)` is the result, whatever unclosable `url(`s precede it |
| `CssUrl.NoMatchNoUrl` | assets/js/common/image_editor.js:112-113 | without a closable `url(` nothing is extracted |
| `CssUrl.UrlOfWrapped` | assets/js/common/image_editor.js:142 | the value `url(<d>)` the preview writes reads back as `d` |
| `CssUrl.UrlOfQuoted` | assets/js/common/image_editor.js:150-152 | the browser form `url("<d>")` reads back as `d` |
| `PathResolver.ResolvePathname` | assets/js/common/image_editor.js:40-48 | a resolved path starts with `public/assets/images/` or `public/images/`, and after `public` it is a suffix of the pathname |
| `PathResolver.ExtractRepoPath` | assets/js/common/image_editor.js:33-49 | a missing, empty or `data:` reference gives `null`; any result is a repository path |
| `PathResolver.ResolvePrefersAssetsMarker` | assets/js/common/image_editor.js:40-41 | a pathname holding `/assets/images/` anywhere resolves to `public` + the pathname from its first occurrence |
| `PathResolver.ResolveFallsBackToImagesMarker` | assets/js/common/image_editor.js:43-44 | when `/assets/images/` is absent, `/images/` gives `public` + the pathname from its first occurrence |
| `PathResolver.ResolvesIffImagesMarker` | assets/js/common/image_editor.js:40-48 | a pathname resolves exactly when it contains `/images/`; with neither marker the result is `null` |
| `PathResolver.ExtractFollowsPathname` | assets/js/common/image_editor.js:33-48 | a non-empty, non-`data:` reference resolves to exactly what its pathname resolves to, so the first-occurrence rules of `ResolvePathname` carry over; it resolves exactly when its pathname contains `/images/` |
| `CommitClient.LatestSha` | assets/js/common/image_editor.js:51-70 | a `sha` comes only from an ok response body |
| `CommitClient.DataPart` | assets/js/common/image_editor.js:75 | `split(",")[1]` exists exactly when the data holds a comma and never holds one itself |
| `CommitClient.RequestFor` | assets/js/common/image_editor.js:72-78 | message `Update <path>`, branch `main`, content the data part, `sha` present exactly when the given one is truthy |
| `CommitClient.DataPartFollowsFirstComma` | assets/js/common/image_editor.js:75 | the content sent is the text right after the first comma, up to the next comma or the end; the header before it is never sent |
| `CommitClient.DataPartOfDataUrl` | assets/js/common/image_editor.js:75 | for a data URL `header,payload`, exactly the payload is sent |
| `CommitClient.ShaKeyFollowsLookup` | assets/js/common/image_editor.js:62-78 | the request carries `sha` exactly when the lookup answered ok with a non-empty one |
| `Scanner.IsImg` | assets/js/common/image_editor.js:139 | `tagName.toLowerCase() === "img"` holds exactly for the three-letter names `i`/`I`, `m`/`M`, `g`/`G`; the same test at lines 100 and 147 |
| `Scanner.ComputedBg` | assets/js/common/image_editor.js:111 | the background seen is the inline value when it is set and the style-sheet value otherwise |
| `Scanner.MarkImage` | assets/js/common/image_editor.js:100-105 | the image callback on one element: other fields are kept; `editableDone` ends set exactly when it was set or the element is an `<img>`; one listener is added exactly when the flag is newly set |
| `Scanner.MarkBackground` | assets/js/common/image_editor.js:109-118 | the background callback on one element: other fields are kept; `editableBgDone` ends set exactly when it was set or the computed background has a non-empty `url(...)` capture; one listener is added exactly when the flag is newly set |
| `Scanner.Element.MarkAsImage` | assets/js/common/image_editor.js:101-105 | an `<img>` ends in its image-pass state: flagged with one more listener unless already flagged |
| `Scanner.Element.MarkAsBackground` | assets/js/common/image_editor.js:110-118 | an element ends in its background-pass state: flagged with one more listener when not yet flagged and its background has a non-empty `url(...)` capture |
| `Scanner.Scan` | assets/js/common/image_editor.js:96-120 | marking keeps tag, `src` and backgrounds, and never clears a flag |
| `Scanner.ScanIdempotent` | assets/js/common/image_editor.js:100-119 | a second run changes nothing: no new flag, no new listener |
| `Scanner.ScanAttachesOncePerFlag` | assets/js/common/image_editor.js:100-119 | each listener attached comes with a newly set flag; one listener per set flag is preserved |
| `Scanner.ScanFlagsExactly` | assets/js/common/image_editor.js:100-119 | an unflagged element gets `editableDone` exactly when it is an `<img>`, and `editableBgDone` exactly when its background has a non-empty `url(...)` capture |
| `Scanner.ImagesIn` | assets/js/common/image_editor.js:100 | `querySelectorAll("img")` selects exactly the `<img>` elements of the subtree |
| `Scanner.MarkImageIdempotent` | assets/js/common/image_editor.js:101 | the `editableDone` guard makes the image pass idempotent |
| `Scanner.MarkBackgroundIdempotent` | assets/js/common/image_editor.js:110 | the `editableBgDone` guard makes the background pass idempotent |
| `Scanner.MarkImages` | assets/js/common/image_editor.js:100-106 | every `<img>` ends in its image-pass state, even when listed twice |
| `Scanner.MarkBackgrounds` | assets/js/common/image_editor.js:109-119 | every element ends in its background-pass state, even when listed twice |
| `Scanner.MarkEditableImages` | assets/js/common/image_editor.js:96-120 | every element ends in the state `Scan` gives its starting state |
| `Session.Preview` | assets/js/common/image_editor.js:139-143 | an `<img>` gets the data URL as `src`; any other element gets it as inline background; flags and listeners are untouched |
| `Session.ShowPreview` | assets/js/common/image_editor.js:139-143 | the element ends in its `Preview` state |
| `Session.ReadBack` | assets/js/common/image_editor.js:145-153 | an `<img>` gives its `src`; any other element gives the `url(...)` capture of its inline background, or of the computed one when the inline one is empty; such a capture holds no `)` |
| `Session.Finish` | assets/js/common/image_editor.js:155-172 | without a path: only the local-only notice and `currentEl` reset; with one: the lookup, then the upload with the request built from the looked-up revision, then, unless the upload threw, the success or failure notice by `commit` as the last of three events; `currentEl` is reset unless the upload threw |
| `Session.StepAsWritten` | assets/js/common/image_editor.js:132-173 | the handler as written: the element ends previewed; the first event is the local-only notice exactly when the reference read back from the previewed element does not resolve, and otherwise the lookup of the path it resolves to |
| `Session.Step` | assets/js/common/image_editor.js:132-173 | the handler with the reference read before the preview: the element ends previewed; the first event is the local-only notice exactly when the original reference does not resolve, and otherwise the lookup of the path it resolves to |
| `Session.UnresolvedStaysLocal` | assets/js/common/image_editor.js:155-160 | without a path: only the local-only notice, no lookup, no upload, `currentEl` reset |
| `Session.LookupSettlesBeforeUpload` | assets/js/common/image_editor.js:162-163 | every upload goes to a repository path with the request built from the looked-up revision, after the lookup for that path |
| `Session.SuccessIffCommit` | assets/js/common/image_editor.js:165-172 | the success notice appears exactly when a path resolved and the answer has `commit`; `currentEl` is reset unless the upload threw |
| `Session.AsWrittenNeverUploads` | assets/js/common/image_editor.js:139-160 | as written, a freshly read file never reaches the lookup or the upload: only the local-only notice, and `currentEl` is reset |
| `Session.BannerAsWritten` | assets/js/common/image_editor.js:139-160 | the example `<img src="/assets/images/banner.png">`, as written: nothing is committed |
| `Session.ResolvableReferenceIsCommitted` | assets/js/common/image_editor.js:146-163 | with the read-back first, an element showing a resolvable reference is looked up, then uploaded under its path |
| `Session.AssetPathResolves` | assets/js/common/image_editor.js:33-41 | `/assets/images/<name>` resolves to `public/assets/images/<name>` |
| `Session.AssetImageCommitted` | assets/js/common/image_editor.js:132-173 | example: an image under `/assets/images/` with a known revision is looked up, uploaded with message, payload, branch and `sha`, and reported as a success |
| `Session.Editor.OnClickEditable` | assets/js/common/image_editor.js:123-129 | the clicked element becomes `currentEl` |
| `Session.Editor.Settle` | assets/js/common/image_editor.js:155-172 | once the resolution is known, the event log grows by exactly the events `Finish` gives, and `currentEl` is reset exactly when `Finish` says the session is released |
| `Session.Editor.OnFileChange` | assets/js/common/image_editor.js:132-173 | nothing happens without a file or a current element, or when the read rejects; otherwise the element, the event log and `currentEl` are those `Step` gives |

## Left out

- The HTTP requests (lines 53-61, 80-91): URL building from owner, repository and token, and the headers. Their outcomes are inputs: `ShaResponse` for the lookup and `UploadResult` for the upload. The `sha` rule of `getLatestSha` is `LatestSha`.
- `toBase64` and `FileReader` (lines 24-31): the data URL is an input (`FileRead.Read`). A rejected read is `FileRead.ReadFailed`.
- `new URL(src, window.location.origin)` (line 37): the browser's URL parser is the parameter `pathnameOf`.
- `getComputedStyle`: the model takes the inline background when set and the style sheets' value otherwise (`ComputedBg`). The rest of the CSS cascade (`!important`, inheritance, serialisation) is not modelled.
- `classList.add("editable-image")`, `style.cursor`, `preventDefault`, `stopPropagation`, and resetting and opening the file input: DOM presentation, with no effect on the marking flags or the session.
- `addEventListener` ignores a second registration of the same listener. `listeners` counts the registration calls the scanner makes, not the distinct listeners the DOM keeps.
- `querySelectorAll` is not modelled as a tree walk: the elements of the subtree are given as a sequence. It returns descendants only, so an `<img>` inserted directly as an observed node is not itself among them. The model does not capture that.
- The `MutationObserver` and `DOMContentLoaded` wiring (lines 176-188): event plumbing. Each of their calls is one `MarkEditableImages` run on the elements of a subtree.
- `localStorage` reads (lines 8-10), `console` output, and the injected CSS (lines 191-202). `alert` is modelled as an `Alert` event carrying the text.
- Overlapping edits that overwrite the shared `currentEl` across awaits: concurrency. The model runs one handler call at a time.
- `Text.ToLowerAscii`: lower-cases ASCII letters only, unlike the full Unicode `toLowerCase`. For comparing a tag name with `"img"` the two agree.
- `Session.Editor.OnFileChange`: implements the corrected order (read the reference, then preview). The order as written is `Session.StepAsWritten`. See Findings.

## Findings

| source | as written | input that shows it | evidently intended | confidence | as-written member | corrected member |
|---|---|---|---|---|---|---|
| assets/js/common/image_editor.js:139-155 | The preview replaces `src` or the inline background before the "original src or bg URL" is read back. The read-back therefore returns the new `data:` URL, which `extractRepoPath` rejects. No edit is ever committed; every edit ends with "Updated locally only". | `<img src="/assets/images/banner.png">` replaced by any image file, lookup `sha` `abc123`, upload answering with `commit` (`Session.BannerAsWritten`; for every data URL, `Session.AsWrittenNeverUploads`) | Read the original reference before applying the preview. The image is then committed to `public/assets/images/banner.png` with the revision found (`Session.AssetImageCommitted`). | not executed; high | `Session.StepAsWritten` | `Session.Step` |
