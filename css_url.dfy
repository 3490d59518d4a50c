/**
 * The background-image reference extraction `bg.match(/url\(["']?(.*?)["']?\)/)`,
 * with `match[1]` as the result.
 *
 * The model follows the regular-expression engine: it tries every start
 * position from the left; at a start position it takes the literal `url(`,
 * then the greedy optional quote (first taking the quote, and only on failure
 * not taking it), then the lazy capture, which grows one character at a time
 * (never over a line terminator, which `.` does not match) until the greedy
 * optional quote and `)` can follow.
 */
module CssUrl {

  import opened Wrappers
  import opened Text

  const Opening := "url("

  predicate IsQuote(c: char) {
    c == '"' || c == '\''
  }

  /** The characters JavaScript's `.` does not match. */
  predicate IsLineTerminator(c: char) {
    c == '\n' || c == '\r' || c == '\U{2028}' || c == '\U{2029}'
  }

  /** The tail `["']?\)` of the pattern matches at index `e`. */
  predicate ClosesAt(s: string, e: nat) {
    e < |s| && (s[e] == ')' || (IsQuote(s[e]) && e + 1 < |s| && s[e + 1] == ')'))
  }

  predicate NoLineTerminator(s: string, i: nat, e: nat)
    requires i <= e <= |s|
  {
    forall k :: i <= k < e ==> !IsLineTerminator(s[k])
  }

  /** Some `)` at or after `i` can be reached by `.*?` from `i`. */
  ghost predicate ParenReachable(s: string, i: nat) {
    exists e :: i <= e < |s| && s[e] == ')' && NoLineTerminator(s, i, e)
  }

  /** The whole pattern matches starting at `p`. */
  ghost predicate MatchesAt(s: string, p: nat) {
    OccursAt(s, Opening, p) && ParenReachable(s, p + |Opening|)
  }

  lemma ReachableStep(s: string, i: nat)
    requires i < |s| && s[i] != ')' && !IsLineTerminator(s[i])
    ensures ParenReachable(s, i) <==> ParenReachable(s, i + 1)
  {
    if ParenReachable(s, i) {
      var e :| i <= e < |s| && s[e] == ')' && NoLineTerminator(s, i, e);
      assert NoLineTerminator(s, i + 1, e);
    }
    if ParenReachable(s, i + 1) {
      var e :| i + 1 <= e < |s| && s[e] == ')' && NoLineTerminator(s, i + 1, e);
      assert NoLineTerminator(s, i, e);
    }
  }

  /**
   * Where the lazy capture started at `i` stops: the first index at which the
   * tail of the pattern matches, unless a line terminator or the end of the
   * string comes first.
   */
  function CaptureEnd(s: string, i: nat): (r: Option<nat>)
    requires i <= |s|
    ensures r.Some? ==> i <= r.value < |s| && ClosesAt(s, r.value) && NoLineTerminator(s, i, r.value)
    ensures r.Some? ==> forall k :: i <= k < r.value ==> !ClosesAt(s, k)
    ensures r.Some? <==> ParenReachable(s, i)
    decreases |s| - i
  {
    if i == |s| then None
    else if ClosesAt(s, i) then
      assert s[i] != ')' ==> NoLineTerminator(s, i, i + 1);
      Some(i)
    else if IsLineTerminator(s[i]) then None
    else
      ReachableStep(s, i);
      CaptureEnd(s, i + 1)
  }

  /** The capture `(.*?)` started at `c`, if the rest of the pattern can follow it. */
  function CaptureFrom(s: string, c: nat): (r: Option<string>)
    requires c <= |s|
    ensures r.Some? <==> ParenReachable(s, c)
    ensures r.Some? ==>
      && c + |r.value| < |s|
      && r.value == s[c..c + |r.value|]
      && ClosesAt(s, c + |r.value|)
      && forall k :: c <= k < c + |r.value| ==> !ClosesAt(s, k)
    ensures r.Some? ==> forall k :: 0 <= k < |r.value| ==> r.value[k] != ')' && !IsLineTerminator(r.value[k])
  {
    match CaptureEnd(s, c)
    case Some(e) =>
      assert forall k :: 0 <= k < e - c ==> s[c..e][k] == s[c + k] && !ClosesAt(s, c + k);
      Some(s[c..e])
    case None => None
  }

  /** Where the capture begins after an opening at `p`: past one quote, if one follows. */
  function CaptureStart(s: string, p: nat): nat {
    var q := p + |Opening|;
    if q < |s| && IsQuote(s[q]) then q + 1 else q
  }

  /**
   * The pattern tried at start position `p`. When a quote follows `url(`, the
   * engine first tries the branch that takes it and falls back to the branch
   * that does not.
   */
  function MatchAt(s: string, p: nat): (r: Option<string>)
    requires p <= |s|
    ensures r.Some? <==> MatchesAt(s, p)
    ensures r.Some? ==> var c := CaptureStart(s, p);
      && c + |r.value| < |s|
      && r.value == s[c..c + |r.value|]
      && ClosesAt(s, c + |r.value|)
      && forall k :: c <= k < c + |r.value| ==> !ClosesAt(s, k)
    ensures r.Some? ==> forall k :: 0 <= k < |r.value| ==> r.value[k] != ')' && !IsLineTerminator(r.value[k])
  {
    if !OccursAt(s, Opening, p) then None
    else
      var q := p + |Opening|;
      var quoted := if q < |s| && IsQuote(s[q]) then CaptureFrom(s, q + 1) else None;
      if quoted.Some? then quoted
      else
        assert q < |s| && IsQuote(s[q]) ==> !ParenReachable(s, q) by {
          if q < |s| && IsQuote(s[q]) {
            ReachableStep(s, q);
          }
        }
        CaptureFrom(s, q)
  }

  /** The leftmost start position at or after `p` where the pattern matches. */
  function FirstMatch(s: string, p: nat): (r: Option<nat>)
    requires p <= |s|
    ensures r.Some? ==> p <= r.value <= |s| && MatchesAt(s, r.value)
    ensures r.Some? ==> forall j :: p <= j < r.value ==> !MatchesAt(s, j)
    ensures r.None? ==> forall j :: p <= j ==> !MatchesAt(s, j)
    decreases |s| - p
  {
    if MatchAt(s, p).Some? then Some(p)
    else if p == |s| then None
    else FirstMatch(s, p + 1)
  }

  /** `match && match[1]`'s string: the capture of the leftmost match, if any. */
  function UrlOf(bg: string): (r: Option<string>)
    ensures r.Some? <==> exists p :: MatchesAt(bg, p)
    ensures r.Some? ==> forall k :: 0 <= k < |r.value| ==> r.value[k] != ')' && !IsLineTerminator(r.value[k])
  {
    match FirstMatch(bg, 0)
    case Some(p) => MatchAt(bg, p)
    case None => None
  }

  /** The capture that ends at the first closing position after `c` is determined by it. */
  lemma CaptureDetermined(s: string, c: nat, x: string, n: nat)
    requires c + |x| < |s| && x == s[c..c + |x|] && ClosesAt(s, c + |x|)
    requires forall k :: c <= k < c + |x| ==> !ClosesAt(s, k)
    requires c + n < |s| && ClosesAt(s, c + n) && forall k :: c <= k < c + n ==> !ClosesAt(s, k)
    ensures x == s[c..c + n]
  {
  }

  /** When the first `url(` of the value can be closed, its capture is the result: the first `url(` wins. */
  lemma {:induction false} FirstOpeningWins(bg: string, p: nat)
    requires IndexOf(bg, Opening) == Some(p)
    requires ParenReachable(bg, p + |Opening|)
    ensures UrlOf(bg) == MatchAt(bg, p)
  {
    assert MatchesAt(bg, p);
    var k := FirstMatch(bg, 0);
    assert k.Some?;
    assert OccursAt(bg, Opening, k.value);
    assert !(k.value < p);
  }

  /**
   * The leftmost position where the whole pattern matches gives the result,
   * even when earlier `url(`s cannot be closed: the first closable `url(` wins.
   */
  lemma {:induction false} LeftmostClosableWins(bg: string, p: nat)
    requires MatchesAt(bg, p)
    requires forall j :: 0 <= j < p ==> !MatchesAt(bg, j)
    ensures UrlOf(bg) == MatchAt(bg, p)
  {
    var k := FirstMatch(bg, 0);
    assert k.Some?;
    assert !(k.value < p);
    assert !(p < k.value);
  }

  /** A value with no `url(` followed somewhere by a reachable `)` yields nothing. */
  lemma NoMatchNoUrl(bg: string)
    requires forall p: nat :: OccursAt(bg, Opening, p) ==> !ParenReachable(bg, p + |Opening|)
    ensures UrlOf(bg) == None
  {
  }

  /** The unquoted form the editor writes: `url(` + d + `)` gives back `d`. */
  lemma {:induction false} UrlOfWrapped(d: string)
    requires forall k :: 0 <= k < |d| ==> d[k] != ')' && !IsLineTerminator(d[k])
    requires d != [] ==> !IsQuote(d[0]) && !IsQuote(d[|d| - 1])
    ensures UrlOf(Opening + d + ")") == Some(d)
  {
    var s := Opening + d + ")";
    var n := |Opening| + |d|;
    assert s[n] == ')';
    assert NoLineTerminator(s, |Opening|, n);
    assert OccursAt(s, Opening, 0);
    assert MatchesAt(s, 0);
    assert FirstMatch(s, 0) == Some(0);
    assert CaptureStart(s, 0) == |Opening|;
    var r := MatchAt(s, 0);
    assert forall k :: |Opening| <= k < n ==> !ClosesAt(s, k) by {
      forall k | |Opening| <= k < n ensures !ClosesAt(s, k) {
        assert s[k] == d[k - |Opening|];
        if k + 1 < n { assert s[k + 1] == d[k + 1 - |Opening|]; }
      }
    }
    CaptureDetermined(s, |Opening|, r.value, |d|);
    assert s[|Opening|..n] == d;
  }

  /** The quoted form a browser serialises: `url("` + d + `")` gives back `d`. */
  lemma {:induction false} UrlOfQuoted(d: string)
    requires forall k :: 0 <= k < |d| ==> d[k] != ')' && !IsLineTerminator(d[k])
    ensures UrlOf(Opening + "\"" + d + "\")") == Some(d)
  {
    var s := Opening + "\"" + d + "\")";
    var c := |Opening| + 1;
    var n := c + |d|;
    assert |s| == n + 2;
    assert s[..|Opening|] == Opening;
    assert s[|Opening|] == '"';
    assert s[n] == '"' && s[n + 1] == ')';
    assert NoLineTerminator(s, |Opening|, n + 1);
    assert ParenReachable(s, |Opening| + 1) by {
      assert c <= n + 1 < |s| && s[n + 1] == ')' && NoLineTerminator(s, c, n + 1);
    }
    assert OccursAt(s, Opening, 0);
    assert MatchesAt(s, 0);
    assert FirstMatch(s, 0) == Some(0);
    assert CaptureStart(s, 0) == c;
    var r := MatchAt(s, 0);
    assert forall k :: c <= k < n ==> !ClosesAt(s, k) by {
      forall k | c <= k < n ensures !ClosesAt(s, k) {
        assert s[k] == d[k - c];
        if k + 1 < n { assert s[k + 1] == d[k + 1 - c]; }
      }
    }
    CaptureDetermined(s, c, r.value, |d|);
    assert s[c..n] == d;
  }
}
