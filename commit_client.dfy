/**
 * The commit client: the request body `uploadToGitHub` sends to the contents
 * API, and what `getLatestSha` makes of the lookup response. The HTTP calls
 * themselves are not modelled; their outcomes are values of `ShaResponse` and
 * `UploadResult`.
 */
module CommitClient {

  import opened Wrappers
  import opened Text

  const Branch := "main"
  const MessagePrefix := "Update "

  /**
   * The JSON body of the PUT request. `content` is `None` when
   * `split(",")[1]` is `undefined` (JSON.stringify then omits the key);
   * `sha` is `None` when the key was never added.
   */
  datatype CommitRequest = CommitRequest(message: string, content: Option<string>, branch: string, sha: Option<string>)

  /** How the revision lookup ended: the fetch or the JSON parse threw, a non-ok status, or an ok body with or without a `sha`. */
  datatype ShaResponse = LookupThrew | NotOk | OkBody(sha: Option<string>)

  /** What the upload's `res.json()` gave: it threw, or a body that has or lacks a truthy `commit` field. */
  datatype UploadResult = UploadThrew | Answered(hasCommit: bool)

  /** `getLatestSha`: the body's `sha` on an ok response, `null` otherwise or on a throw. */
  function LatestSha(resp: ShaResponse): (r: Option<string>)
    ensures r.Some? ==> resp.OkBody? && resp.sha == r
  {
    match resp
    case OkBody(sha) => sha
    case _ => None
  }

  /** JavaScript truthiness of an optional string: present and non-empty. */
  predicate Truthy(s: Option<string>) {
    s.Some? && s.value != []
  }

  /** `data.split(",")[1]`: the text between the first and the second comma. */
  function DataPart(data: string): (r: Option<string>)
    ensures r.Some? <==> ',' in data
    ensures r.Some? ==> ',' !in r.value
  {
    var parts := Split(data, ',');
    if |parts| >= 2 then Some(parts[1]) else None
  }

  /** The payload built at lines 73-78: fixed message and branch, `sha` only when truthy. */
  function RequestFor(repoPath: string, data: string, sha: Option<string>): (p: CommitRequest)
    ensures p.message == MessagePrefix + repoPath && p.branch == Branch
    ensures p.content == DataPart(data)
    ensures p.sha.Some? <==> Truthy(sha)
    ensures p.sha.Some? ==> p.sha == sha
  {
    var payload := CommitRequest(MessagePrefix + repoPath, DataPart(data), Branch, None);
    if Truthy(sha) then payload.(sha := sha) else payload
  }

  /**
   * The content sent is exactly the text right after the first comma of the
   * data string, up to the next comma or the end: the `data:...;base64`
   * header is never part of it.
   */
  lemma {:induction false} DataPartFollowsFirstComma(data: string)
    requires ',' in data
    ensures var c := DataPart(data).value; var h := Split(data, ',')[0];
      && ',' !in h
      && |h| + 1 + |c| <= |data|
      && data[..|h| + 1 + |c|] == h + [','] + c
      && (|h| + 1 + |c| == |data| || data[|h| + 1 + |c|] == ',')
  {
    var parts := Split(data, ',');
    JoinSplit(data, ',');
    var h, c := parts[0], parts[1];
    if |parts| == 2 {
      assert Join(parts[1..], ',') == c;
      assert data == h + [','] + c;
    } else {
      assert Join(parts[1..], ',') == c + [','] + Join(parts[2..], ',');
      assert data == h + [','] + c + [','] + Join(parts[2..], ',');
    }
  }

  /** The round trip for a FileReader data URL `header,payload`: the payload is what is sent. */
  lemma {:induction false} DataPartOfDataUrl(header: string, payload: string)
    requires ',' !in header && ',' !in payload
    ensures DataPart(header + [','] + payload) == Some(payload)
  {
    SplitAtSeparator(header, payload, ',');
    SplitWithoutSeparator(payload, ',');
  }

  /** The lookup result decides the `sha` key: present exactly when an ok body carried a non-empty one. */
  lemma ShaKeyFollowsLookup(repoPath: string, data: string, resp: ShaResponse)
    ensures RequestFor(repoPath, data, LatestSha(resp)).sha.Some?
        <==> resp.OkBody? && resp.sha.Some? && resp.sha.value != []
  {
  }
}
