/**
 * The embed address of `VideoPlayer` (components.tsx): with no address a
 * placeholder is shown; otherwise `/\/watch.* /` and then `/\/edit.* /` are
 * replaced by `/view?embed`. Neither pattern has the global flag, so each
 * replaces the text from its FIRST match to the end of the string (`.`
 * matches every character: addresses are taken to hold no line break).
 */
module Video {
  import opened Util

  const Watch := "/watch"
  const Edit := "/edit"
  const EmbedSuffix := "/view?embed"

  /** What the player renders before it is tapped. */
  datatype Player = Placeholder | Embedded(src: string)

  /** `s.replace(/<pat>.* /, rep)`: everything from the first `pat` on becomes `rep`. */
  function ReplaceFromFirst(s: string, pat: string, rep: string): (r: string)
    ensures !Contains(s, pat) ==> r == s
    ensures Contains(s, pat) ==>
      && |rep| <= |r| && |r| - |rep| <= |s|
      && r == s[..|r| - |rep|] + rep
      && OccursAt(s, pat, |r| - |rep|)
      && forall j :: j < |r| - |rep| ==> !OccursAt(s, pat, j)
  {
    match IndexOf(s, pat)
    case None => s
    case Some(i) => s[..i] + rep
  }

  /** A `/watch` or an `/edit` starts at position `k` of `s`. */
  predicate MarkerAt(s: string, k: int) {
    OccursAt(s, Watch, k) || OccursAt(s, Edit, k)
  }

  /** `k` is the first position of `s` where a marker of either kind starts. */
  predicate FirstMarkerAt(s: string, k: int) {
    0 <= k <= |s| && MarkerAt(s, k) && forall j :: 0 <= j < k ==> !MarkerAt(s, j)
  }

  /**
   * The address given to the iframe. The `/edit` rewrite runs on the result
   * of the `/watch` rewrite; together they cut the address at its first
   * marker of either kind.
   */
  function EmbedUrl(url: string): (r: string)
    ensures !Contains(url, Watch) && !Contains(url, Edit) ==> r == url
    ensures Contains(url, Watch) || Contains(url, Edit) ==>
      exists k :: FirstMarkerAt(url, k) && r == url[..k] + EmbedSuffix
  {
    CutAtFirstMarker(url);
    ReplaceFromFirst(ReplaceFromFirst(url, Watch, EmbedSuffix), Edit, EmbedSuffix)
  }

  /** `if (!videoUrl)`: a missing or empty address shows the placeholder. */
  function PlayerFor(videoUrl: Option<string>): (p: Player)
    ensures p.Placeholder? <==> videoUrl.None? || videoUrl.value == ""
    ensures p.Embedded? ==> p.src == EmbedUrl(videoUrl.value)
  {
    if videoUrl.None? || videoUrl.value == "" then Placeholder
    else Embedded(EmbedUrl(videoUrl.value))
  }

  /** An address with neither marker is used as it is. */
  lemma EmbedPlainUrl(url: string)
    requires !Contains(url, Watch) && !Contains(url, Edit)
    ensures EmbedUrl(url) == url
  {
  }

  /** The two markers start with '/', have no other '/', and their second character is not 'v'. */
  lemma MarkerShape(pat: string)
    requires pat == Watch || pat == Edit
    ensures 2 <= |pat| && pat[0] == '/' && pat[1] != 'v'
    ensures forall k :: 1 <= k < |pat| ==> pat[k] != '/'
  {
  }

  /** The suffix starts with "/v" and has no other '/'. */
  lemma SuffixShape()
    ensures EmbedSuffix[0] == '/' && EmbedSuffix[1] == 'v'
    ensures forall k :: 1 <= k < |EmbedSuffix| ==> EmbedSuffix[k] != '/'
  {
  }

  /** The text before the first occurrence of a non-empty pattern contains no occurrence of it. */
  lemma BeforeFirst(s: string, pat: string, i: nat)
    requires 1 <= |pat| && i <= |s|
    requires forall j :: j < i ==> !OccursAt(s, pat, j)
    ensures !Contains(s[..i], pat)
  {
    forall j ensures !OccursAt(s[..i], pat, j) {
      if 0 <= j && j + |pat| <= i {
        assert s[..i][j..j + |pat|] == s[j..j + |pat|];
        assert !OccursAt(s, pat, j);
      }
    }
  }

  /** Appending the suffix to a text without a marker creates no marker, not even across the seam. */
  lemma SuffixAddsNoMarker(p: string, pat: string)
    requires pat == Watch || pat == Edit
    requires !Contains(p, pat)
    ensures !Contains(p + EmbedSuffix, pat)
  {
    var t := p + EmbedSuffix;
    forall i ensures !OccursAt(t, pat, i) {
      if 0 <= i && i + |pat| <= |t| {
        NoMarkerAt(p, pat, i);
      }
    }
  }

  /** No marker starts at position `i` of the text with the suffix appended. */
  lemma NoMarkerAt(p: string, pat: string, i: nat)
    requires pat == Watch || pat == Edit
    requires !Contains(p, pat)
    requires i + |pat| <= |p + EmbedSuffix|
    ensures (p + EmbedSuffix)[i..i + |pat|] != pat
  {
    if i + |pat| <= |p| {
      assert (p + EmbedSuffix)[i..i + |pat|] == p[i..i + |pat|];
      assert !OccursAt(p, pat, i);
    } else {
      SeamFree(p, pat, i);
    }
  }

  /** A marker never straddles the seam before the suffix, nor lies inside the suffix. */
  lemma SeamFree(p: string, pat: string, j: nat)
    requires pat == Watch || pat == Edit
    ensures |p| < j + |pat| ==> !OccursAt(p + EmbedSuffix, pat, j)
  {
    var t := p + EmbedSuffix;
    if |p| < j + |pat| && j + |pat| <= |t| {
      MarkerShape(pat);
      SuffixShape();
      var w := t[j..j + |pat|];
      if j < |p| {
        var k := |p| - j;
        assert w[k] == t[|p|] == '/';
        assert pat[k] != '/';
      } else if j == |p| {
        assert w[1] == EmbedSuffix[1] == 'v';
      } else {
        assert w[0] == EmbedSuffix[j - |p|] != '/';
      }
    }
  }

  /** A marker found in the text with the suffix appended lies wholly in the text. */
  lemma MarkerInPrefix(p: string, pat: string, j: nat)
    requires pat == Watch || pat == Edit
    requires OccursAt(p + EmbedSuffix, pat, j)
    ensures j + |pat| <= |p| && OccursAt(p, pat, j)
  {
    SeamFree(p, pat, j);
    assert (p + EmbedSuffix)[j..j + |pat|] == p[j..j + |pat|];
  }

  /** An `/edit` cannot overlap the start of a `/watch`: its later characters are not '/'. */
  lemma EditNotAcrossWatch(url: string, i: nat, j: nat)
    requires OccursAt(url, Watch, i) && j < i < j + |Edit|
    ensures !OccursAt(url, Edit, j)
  {
    MarkerShape(Edit);
    MarkerShape(Watch);
    if j + |Edit| <= |url| {
      assert url[j..j + |Edit|][i - j] == url[i];
      assert url[i..i + |Watch|][0] == url[i];
    }
  }

  /** The text before the first `/watch` holds no `/edit` once the suffix is added: the cut is at that `/watch`. */
  lemma CutAtWatch(url: string, i: nat)
    requires OccursAt(url, Watch, i) && forall j :: 0 <= j < i ==> !OccursAt(url, Watch, j)
    requires !Contains(url[..i] + EmbedSuffix, Edit)
    ensures FirstMarkerAt(url, i)
  {
    var u1 := url[..i] + EmbedSuffix;
    forall j | 0 <= j < i ensures !OccursAt(url, Edit, j) {
      if j + |Edit| <= i {
        assert !OccursAt(u1, Edit, j);
        assert u1[j..j + |Edit|] == url[j..j + |Edit|];
      } else {
        EditNotAcrossWatch(url, i, j);
      }
    }
  }

  /** The first `/edit` left before the first `/watch` is the first marker of the address. */
  lemma CutAtEdit(url: string, i: nat, k: nat)
    requires OccursAt(url, Watch, i) && forall j :: 0 <= j < i ==> !OccursAt(url, Watch, j)
    requires OccursAt(url[..i] + EmbedSuffix, Edit, k)
    requires forall j :: 0 <= j < k ==> !OccursAt(url[..i] + EmbedSuffix, Edit, j)
    ensures k + |Edit| <= i && FirstMarkerAt(url, k)
    ensures (url[..i] + EmbedSuffix)[..k] == url[..k]
  {
    var u1 := url[..i] + EmbedSuffix;
    MarkerInPrefix(url[..i], Edit, k);
    assert url[..i][k..k + |Edit|] == url[k..k + |Edit|];
    forall j | 0 <= j < k ensures !MarkerAt(url, j) {
      assert !OccursAt(u1, Edit, j);
      assert u1[j..j + |Edit|] == url[j..j + |Edit|];
    }
  }

  /** Without a `/watch`, only the `/edit` rewrite acts, and it cuts at the first marker. */
  lemma CutWithoutWatch(url: string)
    requires !Contains(url, Watch) && Contains(url, Edit)
    ensures exists k :: FirstMarkerAt(url, k) && ReplaceFromFirst(url, Edit, EmbedSuffix) == url[..k] + EmbedSuffix
  {
    var r := ReplaceFromFirst(url, Edit, EmbedSuffix);
    var k := |r| - |EmbedSuffix|;
    assert FirstMarkerAt(url, k);
  }

  /** With a `/watch`, the two rewrites cut at the first marker, whichever kind it is. */
  lemma CutWithWatch(url: string)
    requires Contains(url, Watch)
    ensures var r := ReplaceFromFirst(ReplaceFromFirst(url, Watch, EmbedSuffix), Edit, EmbedSuffix);
      exists k :: FirstMarkerAt(url, k) && r == url[..k] + EmbedSuffix
  {
    var u1 := ReplaceFromFirst(url, Watch, EmbedSuffix);
    var r := ReplaceFromFirst(u1, Edit, EmbedSuffix);
    var i := |u1| - |EmbedSuffix|;
    assert u1 == url[..i] + EmbedSuffix;
    if !Contains(u1, Edit) {
      CutAtWatch(url, i);
      assert r == url[..i] + EmbedSuffix;
    } else {
      var k := |r| - |EmbedSuffix|;
      CutAtEdit(url, i, k);
      assert r == url[..k] + EmbedSuffix;
    }
  }

  /** The two rewrites in sequence cut the address at its first marker of either kind. */
  lemma CutAtFirstMarker(url: string)
    ensures var r := ReplaceFromFirst(ReplaceFromFirst(url, Watch, EmbedSuffix), Edit, EmbedSuffix);
      && (!Contains(url, Watch) && !Contains(url, Edit) ==> r == url)
      && (Contains(url, Watch) || Contains(url, Edit) ==>
            exists k :: FirstMarkerAt(url, k) && r == url[..k] + EmbedSuffix)
  {
    if Contains(url, Watch) {
      CutWithWatch(url);
    } else if Contains(url, Edit) {
      CutWithoutWatch(url);
    }
  }

  /** Replacing from the first marker leaves no marker behind, and keeps a text free of the other marker free of it. */
  lemma ReplaceRemovesMarker(s: string, pat: string, other: string)
    requires pat == Watch || pat == Edit
    requires other == Watch || other == Edit
    ensures !Contains(ReplaceFromFirst(s, pat, EmbedSuffix), pat)
    ensures !Contains(s, other) ==> !Contains(ReplaceFromFirst(s, pat, EmbedSuffix), other)
  {
    var r := ReplaceFromFirst(s, pat, EmbedSuffix);
    if Contains(s, pat) {
      var i := |r| - |EmbedSuffix|;
      MarkerShape(pat);
      BeforeFirst(s, pat, i);
      SuffixAddsNoMarker(s[..i], pat);
      if !Contains(s, other) {
        NotContainsPrefix(s, other, i);
        SuffixAddsNoMarker(s[..i], other);
      }
    }
  }

  /** The embed address contains neither marker. */
  lemma EmbedHasNoMarker(url: string)
    ensures !Contains(EmbedUrl(url), Watch) && !Contains(EmbedUrl(url), Edit)
  {
    var u1 := ReplaceFromFirst(url, Watch, EmbedSuffix);
    ReplaceRemovesMarker(url, Watch, Edit);
    ReplaceRemovesMarker(u1, Edit, Watch);
  }

  /** Rewriting is idempotent: an embed address is its own embed address. */
  lemma EmbedIdempotent(url: string)
    ensures EmbedUrl(EmbedUrl(url)) == EmbedUrl(url)
  {
    EmbedHasNoMarker(url);
  }

  /** An address with either marker ends in the embed suffix after rewriting. */
  lemma EmbedEndsWithSuffix(url: string)
    requires Contains(url, Watch) || Contains(url, Edit)
    ensures |EmbedSuffix| <= |EmbedUrl(url)|
    ensures EmbedUrl(url)[|EmbedUrl(url)| - |EmbedSuffix|..] == EmbedSuffix
  {
    var u1 := ReplaceFromFirst(url, Watch, EmbedSuffix);
    if Contains(url, Watch) {
      var u2 := EmbedUrl(url);
      if !Contains(u1, Edit) {
        assert u2 == u1;
      }
    } else {
      assert u1 == url;
    }
  }

  /** An address with a `/watch` and no `/edit` before it keeps its text up to the `/watch`. */
  lemma EmbedWatchUrl(url: string, i: nat)
    requires OccursAt(url, Watch, i) && forall j :: j < i ==> !OccursAt(url, Watch, j)
    requires !Contains(url[..i], Edit)
    ensures EmbedUrl(url) == url[..i] + EmbedSuffix
  {
    var u1 := ReplaceFromFirst(url, Watch, EmbedSuffix);
    assert Contains(url, Watch);
    assert u1 == url[..i] + EmbedSuffix;
    SuffixAddsNoMarker(url[..i], Edit);
  }
}
