/**
 * The URL helpers: extracting a YouTube video id or a Medal clip id from a
 * link, building the embed and thumbnail URLs from an id.
 *
 * Regular expressions are modelled by what they match under ECMAScript
 * semantics: a pattern without the `s` flag lets `.` match anything but a
 * line terminator, an unanchored pattern matches at the first start
 * position where it can, and a greedy `.*` gives back characters one at a
 * time, so the rightmost possible continuation wins.
 */
module Util {
  import opened Strings

  /** The characters `.` does not match: LF, CR, LINE SEPARATOR and PARAGRAPH SEPARATOR. */
  predicate IsLineTerminator(c: char) {
    c == '\n' || c == '\r' || c == '\U{2028}' || c == '\U{2029}'
  }

  /** `\w`: ASCII letters, digits and the underscore. */
  predicate IsWordChar(c: char) {
    ('a' <= c <= 'z') || ('A' <= c <= 'Z') || ('0' <= c <= '9') || c == '_'
  }

  /** No line terminator in `s[a..b]`: positions `a` and `b` lie on the same line. */
  predicate SameLine(s: string, a: nat, b: nat)
    requires a <= b <= |s|
  {
    forall k :: a <= k < b ==> !IsLineTerminator(s[k])
  }

  /**
   * The end of the maximal run of characters outside `excluded` that starts
   * at `i`: the greedy `[^...]*`.
   */
  function RunEnd(s: string, i: nat, excluded: set<char>): (j: nat)
    requires i <= |s|
    ensures i <= j <= |s|
    ensures forall k :: i <= k < j ==> s[k] !in excluded
    ensures j == |s| || s[j] in excluded
    decreases |s| - i
  {
    if i == |s| || s[i] in excluded then i else RunEnd(s, i + 1, excluded)
  }

  /** The characters the YouTube id stops at: `[^#\&\?]`. */
  const IdStops: set<char> := {'#', '&', '?'}

  /**
   * A character JavaScript holds in one UTF-16 code unit. Without the `u`
   * flag, `.` consumes one code unit, so it can stand for such a character
   * only; a character beyond U+FFFF is two code units.
   */
  predicate OneCodeUnit(c: char) {
    (c as int) < 0x1_0000
  }

  /**
   * The length of the alternative of `(?:youtu.be\/|v\/|u\/\w\/|embed\/|watch\?v=)`
   * that matches at `q`, tried in order, or 0 when none does.
   */
  function MarkerLen(s: string, q: nat): nat {
    if OccursAt(s, "youtu", q) && q + 9 <= |s| && OneCodeUnit(s[q + 5]) && !IsLineTerminator(s[q + 5])
       && OccursAt(s, "be/", q + 6) then 9
    else if OccursAt(s, "v/", q) then 2
    else if q + 4 <= |s| && s[q] == 'u' && s[q + 1] == '/' && IsWordChar(s[q + 2]) && s[q + 3] == '/' then 4
    else if OccursAt(s, "embed/", q) then 6
    else if OccursAt(s, "watch?v=", q) then 8
    else 0
  }

  /** A marker lies inside the string, does not cross a line break and ends in `/` or `=`. */
  lemma MarkerShape(s: string, q: nat)
    requires MarkerLen(s, q) > 0
    ensures q + MarkerLen(s, q) <= |s|
    ensures SameLine(s, q, q + MarkerLen(s, q))
    ensures s[q + MarkerLen(s, q) - 1] == '/' || s[q + MarkerLen(s, q) - 1] == '='
  {
    var n := MarkerLen(s, q);
    forall k | q <= k < q + n
      ensures !IsLineTerminator(s[k])
    {
      if n == 9 {
        assert s[q..q + 5] == "youtu" && s[q + 6..q + 9] == "be/";
        if k < q + 5 {
          assert s[k] == s[q..q + 5][k - q];
        } else if k > q + 5 {
          assert s[k] == s[q + 6..q + 9][k - q - 6];
        }
      } else if n == 2 {
        assert s[k] == s[q..q + 2][k - q];
      } else if n == 6 {
        assert s[k] == s[q..q + 6][k - q];
      } else if n == 8 {
        assert s[k] == s[q..q + 8][k - q];
      }
    }
    if n == 9 {
      assert s[q + 8] == s[q + 6..q + 9][2];
    } else if n == 2 {
      assert s[q + 1] == s[q..q + 2][1];
    } else if n == 6 {
      assert s[q + 5] == s[q..q + 6][5];
    } else if n == 8 {
      assert s[q + 7] == s[q..q + 8][7];
    }
  }

  /** The first line terminator at or after `p`, or the end of the string. */
  function LineEnd(s: string, p: nat): (e: nat)
    requires p <= |s|
    ensures p <= e <= |s|
    ensures SameLine(s, p, e)
    ensures e == |s| || IsLineTerminator(s[e])
    decreases |s| - p
  {
    if p == |s| || IsLineTerminator(s[p]) then p else LineEnd(s, p + 1)
  }

  /** The rightmost position in `[lo, hi)` that satisfies `p`, or -1. */
  function LastWhere(lo: nat, hi: nat, p: nat -> bool): (q: int)
    requires lo <= hi
    ensures q == -1 ==> forall k :: lo <= k < hi ==> !p(k)
    ensures q != -1 ==> lo <= q < hi && p(q)
    ensures q != -1 ==> forall k :: q < k < hi ==> !p(k)
    decreases hi - lo
  {
    if hi == lo then -1
    else if p(hi - 1) then hi - 1
    else LastWhere(lo, hi - 1, p)
  }

  /** The rightmost marker position in `[lo, hi)`, or -1: the backtracking of the greedy `.*`. */
  function LastMarker(s: string, lo: nat, hi: nat): (q: int)
    requires lo <= hi
    ensures q == -1 ==> forall k :: lo <= k < hi ==> MarkerLen(s, k) == 0
    ensures q != -1 ==> lo <= q < hi && MarkerLen(s, q) > 0
    ensures q != -1 ==> forall k :: q < k < hi ==> MarkerLen(s, k) == 0
  {
    var p := (k: nat) => MarkerLen(s, k) > 0;
    assert forall k: nat :: p(k) == (MarkerLen(s, k) > 0);
    LastWhere(lo, hi, p)
  }

  /**
   * The marker the pattern uses: it sits on the first line that holds any
   * marker, and is the rightmost marker on that line.
   */
  ghost predicate Chosen(s: string, q: nat) {
    && q < |s| && MarkerLen(s, q) > 0
    && (forall k :: q < k < |s| && SameLine(s, q, k) ==> MarkerLen(s, k) == 0)
    && (forall k :: 0 <= k < q && !SameLine(s, k, q) ==> MarkerLen(s, k) == 0)
  }

  /** At most one marker is chosen: a chosen marker rules out every other position. */
  lemma ChosenUnique(s: string, q: nat, q': nat)
    requires Chosen(s, q) && q' != q
    ensures !Chosen(s, q')
  {
    if q < q' < |s| {
      if SameLine(s, q, q') {
        assert MarkerLen(s, q') == 0;
      }
    } else if q' < q {
      if !SameLine(s, q', q) {
        assert MarkerLen(s, q') == 0;
      }
    }
  }

  /** Markers cannot start at a line terminator. */
  lemma NoMarkerAtBreak(s: string, k: nat)
    requires k < |s| && IsLineTerminator(s[k])
    ensures MarkerLen(s, k) == 0
  {
    if MarkerLen(s, k) > 0 {
      MarkerShape(s, k);
      assert false;
    }
  }

  /**
   * The scan over the lines from the line starting at `p`, where no line
   * before holds a marker: the chosen marker, or -1 when there is none.
   */
  function Scan(s: string, p: nat): (q: int)
    requires p <= |s|
    requires p == 0 || IsLineTerminator(s[p - 1])
    requires forall k :: 0 <= k < p ==> MarkerLen(s, k) == 0
    ensures q == -1 ==> forall k :: 0 <= k < |s| ==> MarkerLen(s, k) == 0
    ensures q != -1 ==> 0 <= q && Chosen(s, q)
    decreases |s| - p
  {
    var e := LineEnd(s, p);
    var q := LastMarker(s, p, e);
    if q != -1 then
      ScanChosen(s, p, e, q);
      q
    else if e == |s| then -1
    else
      NoMarkerAtBreak(s, e);
      assert forall k :: 0 <= k < e + 1 ==> MarkerLen(s, k) == 0 by {
        forall k | 0 <= k < e + 1
          ensures MarkerLen(s, k) == 0
        {
          if k < p {
          } else if k < e {
          }
        }
      }
      Scan(s, e + 1)
  }

  lemma ScanChosen(s: string, p: nat, e: nat, q: nat)
    requires p <= q < e <= |s|
    requires p == 0 || IsLineTerminator(s[p - 1])
    requires forall k :: 0 <= k < p ==> MarkerLen(s, k) == 0
    requires SameLine(s, p, e) && (e == |s| || IsLineTerminator(s[e]))
    requires MarkerLen(s, q) > 0 && forall k :: q < k < e ==> MarkerLen(s, k) == 0
    ensures Chosen(s, q)
  {
    forall k | e < k <= |s|
      ensures !SameLine(s, q, k)
    {
      assert q <= e < k && IsLineTerminator(s[e]);
    }
    forall k | q < k < |s| && SameLine(s, q, k)
      ensures MarkerLen(s, k) == 0
    {
      if k == e {
        NoMarkerAtBreak(s, e);
      }
    }
    forall k | 0 <= k < q && !SameLine(s, k, q)
      ensures MarkerLen(s, k) == 0
    {
      var t :| k <= t < q && IsLineTerminator(s[t]);
      assert t < p;
    }
  }

  /** The scan finds the only chosen marker: no other position is chosen. */
  lemma ScanUnique(s: string)
    ensures forall q: nat :: q != Scan(s, 0) ==> !Chosen(s, q)
  {
    var r := Scan(s, 0);
    forall q: nat | q != r
      ensures !Chosen(s, q)
    {
      if r != -1 {
        ChosenUnique(s, r, q);
      }
    }
  }

  /**
   * `getYoutubeIdFromUrl`: the text after the chosen marker up to the first
   * `#`, `&` or `?`, or the empty string when the URL holds no marker.
   */
  function YoutubeId(url: string): (id: string)
    ensures Avoids(id, IdStops)
  {
    var q := Scan(url, 0);
    if q == -1 then []
    else
      ChosenFacts(url, q);
      var start := q + MarkerLen(url, q);
      url[start..RunEnd(url, start, IdStops)]
  }

  /** A URL without any marker gives the empty id. */
  lemma YoutubeIdNone(url: string)
    requires forall k :: 0 <= k < |url| ==> MarkerLen(url, k) == 0
    ensures YoutubeId(url) == []
  {
    assert Scan(url, 0) == -1;
  }

  /** The id is the maximal run after the chosen marker up to the first `#`, `&` or `?`. */
  lemma YoutubeIdChosen(url: string, q: nat)
    requires Chosen(url, q)
    ensures q + MarkerLen(url, q) <= |url|
    ensures YoutubeId(url) == url[q + MarkerLen(url, q)..RunEnd(url, q + MarkerLen(url, q), IdStops)]
  {
    ScanUnique(url);
    assert Scan(url, 0) == q;
    ChosenFacts(url, q);
  }

  /**
   * A character beyond U+FFFF where `youtu.be/` has its `.` makes no marker:
   * `.` takes the first half of the surrogate pair and `b` fails on the second.
   */
  lemma AstralDotNoMarker()
    ensures YoutubeId("youtu\U{1F600}be/abc") == []
  {
    var s := "youtu\U{1F600}be/abc";
    assert !OneCodeUnit(s[5]);
    forall k | 0 <= k < |s|
      ensures MarkerLen(s, k) == 0
    {
      if k + 2 <= |s| {
        assert s[k..k + 2][0] == s[k];
      }
      if k + 5 <= |s| {
        assert s[k..k + 5][0] == s[k];
      }
      if k + 6 <= |s| {
        assert s[k..k + 6][0] == s[k] && s[k..k + 6][1] == s[k + 1];
      }
      if k + 8 <= |s| {
        assert s[k..k + 8][0] == s[k];
      }
    }
    YoutubeIdNone(s);
  }

  /** What `YoutubeId` needs of the chosen marker: it lies inside the URL and is the only one chosen. */
  lemma ChosenFacts(s: string, q: nat)
    requires Chosen(s, q)
    ensures q < |s| && MarkerLen(s, q) > 0 && q + MarkerLen(s, q) <= |s|
    ensures forall q': nat :: Chosen(s, q') ==> q' == q
  {
    MarkerShape(s, q);
    forall q': nat | Chosen(s, q')
      ensures q' == q
    {
      if q' != q {
        ChosenUnique(s, q, q');
      }
    }
  }

  /** The literal `medal.tv/clip/` of the Medal pattern. */
  const ClipPath := "medal.tv/clip/"

  /** `medal\.tv\/clip\/([^/]+)` can start at `p`: the literal, then at least one character other than `/`. */
  predicate MedalAt(s: string, p: nat) {
    OccursAt(s, ClipPath, p) && p + |ClipPath| < |s| && s[p + |ClipPath|] != '/'
  }

  /** The leftmost start of a Medal match at or after `p`, or -1. */
  function FirstMedal(s: string, p: nat): (r: int)
    requires p <= |s|
    ensures r == -1 ==> forall k :: p <= k <= |s| ==> !MedalAt(s, k)
    ensures r != -1 ==> p <= r <= |s| && MedalAt(s, r) && forall k :: p <= k < r ==> !MedalAt(s, k)
    decreases |s| - p
  {
    if MedalAt(s, p) then p
    else if p == |s| then -1
    else FirstMedal(s, p + 1)
  }

  /**
   * `getMedalIdFromUrl`: the non-empty run of characters other than `/`
   * after the leftmost `medal.tv/clip/` that has one, or the empty string.
   */
  function MedalId(url: string): (id: string)
    ensures (forall p :: 0 <= p <= |url| ==> !MedalAt(url, p)) <==> id == []
    ensures '/' !in id
    ensures forall p :: 0 <= p <= |url| && MedalAt(url, p) && (forall k :: 0 <= k < p ==> !MedalAt(url, k)) ==>
              id == url[p + |ClipPath|..RunEnd(url, p + |ClipPath|, {'/'})]
  {
    var p := FirstMedal(url, 0);
    if p == -1 then []
    else
      var start := p + |ClipPath|;
      var id := url[start..RunEnd(url, start, {'/'})];
      assert id[0] == url[start];
      assert forall k :: 0 <= k < |id| ==> id[k] == url[start + k];
      id
  }

  /** `embedMedal`. */
  function EmbedMedal(clipId: string): string {
    "https://medal.tv/clip/" + clipId + "?embed=true"
  }

  /** The YouTube embed URL prefix of `embed`. */
  const YoutubeEmbed := "https://www.youtube.com/embed/"

  /** `embed`: Medal links with a clip id become Medal embeds, other Medal links stay as they are, the rest YouTube embeds. */
  function Embed(video: string): (r: string)
    ensures Contains(video, "medal.tv") && MedalId(video) != [] ==> r == EmbedMedal(MedalId(video))
    ensures Contains(video, "medal.tv") && MedalId(video) == [] ==> r == video
    ensures !Contains(video, "medal.tv") ==> r == YoutubeEmbed + YoutubeId(video)
  {
    if Contains(video, "medal.tv") then
      var clipId := MedalId(video);
      if clipId != [] then EmbedMedal(clipId) else video
    else
      YoutubeEmbed + YoutubeId(video)
  }

  /** `getThumbnailFromId`. */
  function Thumbnail(id: string): string {
    "https://img.youtube.com/vi/" + id + "/mqdefault.jpg"
  }

  /** The characters of a YouTube video id: `\w` and `-`. */
  predicate IsVideoIdChar(c: char) {
    IsWordChar(c) || c == '-'
  }

  predicate IsVideoId(id: string) {
    forall k :: 0 <= k < |id| ==> IsVideoIdChar(id[k])
  }

  lemma EmbedPrefixPlain(id: string, j: nat)
    requires j < 30
    ensures (YoutubeEmbed + id)[j] == YoutubeEmbed[j]
    ensures !IsLineTerminator(YoutubeEmbed[j])
  {
  }

  /** No marker starts in `embed/` after its first letter. */
  lemma EmbedTailNoMarker(id: string, k: nat)
    requires IsVideoId(id) && 24 < k
    ensures MarkerLen(YoutubeEmbed + id, k) == 0
  {
    var s := YoutubeEmbed + id;
    if MarkerLen(s, k) > 0 {
      MarkerShape(s, k);
      assert false;
    }
  }

  /** An embed URL has no line terminator. */
  lemma EmbedOneLine(id: string)
    requires IsVideoId(id)
    ensures forall j :: 0 <= j < |YoutubeEmbed + id| ==> !IsLineTerminator((YoutubeEmbed + id)[j])
  {
    var s := YoutubeEmbed + id;
    forall j | 0 <= j < |s|
      ensures !IsLineTerminator(s[j])
    {
      if j < 30 {
        EmbedPrefixPlain(id, j);
      } else {
        assert s[j] == id[j - 30];
      }
    }
  }

  /** The `embed/` of the prefix is a marker of length 6. */
  lemma EmbedMarker(id: string)
    ensures MarkerLen(YoutubeEmbed + id, 24) == 6
  {
    var s := YoutubeEmbed + id;
    assert s[..30] == YoutubeEmbed;
    assert s[24..30] == s[..30][24..30] == "embed/";
    assert s[24] == 'e';
    assert !OccursAt(s, "youtu", 24) by { assert s[24..29][0] == 'e'; }
    assert !OccursAt(s, "v/", 24) by { assert s[24..26][0] == 'e'; }
    assert OccursAt(s, "embed/", 24);
  }

  /** The marker of an embed URL is the `embed/` of the prefix. */
  lemma EmbedChosen(id: string)
    requires IsVideoId(id)
    ensures Chosen(YoutubeEmbed + id, 24)
  {
    var s := YoutubeEmbed + id;
    EmbedMarker(id);
    EmbedOneLine(id);
    forall k | 24 < k < |s|
      ensures MarkerLen(s, k) == 0
    {
      EmbedTailNoMarker(id, k);
    }
  }

  /**
   * An embed URL built from a video id gives that id back: the marker is
   * the `embed/` of the prefix and the id runs to the end.
   */
  lemma YoutubeIdOfEmbed(id: string)
    requires IsVideoId(id)
    ensures YoutubeId(YoutubeEmbed + id) == id
  {
    var s := YoutubeEmbed + id;
    EmbedChosen(id);
    EmbedMarker(id);
    YoutubeIdChosen(s, 24);
    forall j | 30 <= j < |s|
      ensures s[j] !in IdStops
    {
      assert s[j] == id[j - 30];
    }
    assert RunEnd(s, 30, IdStops) == |s|;
    assert s[30..] == id;
  }

  /** No `m` of the embed prefix has a dot five places after it, as `medal.tv` would need. */
  lemma PrefixNoMedal(p: nat)
    requires p + 5 < 30
    ensures !(YoutubeEmbed[p] == 'm' && YoutubeEmbed[p + 5] == '.')
  {
  }

  /** An embed URL built from a video id does not mention Medal. */
  lemma EmbedNotMedal(id: string)
    requires IsVideoId(id)
    ensures !Contains(YoutubeEmbed + id, "medal.tv")
  {
    var s := YoutubeEmbed + id;
    forall p: nat | p <= |s|
      ensures !OccursAt(s, "medal.tv", p)
    {
      if p + 8 <= |s| {
        assert s[p..p + 8][5] == s[p + 5] && s[p..p + 8][0] == s[p];
        if p + 5 >= 30 {
          assert s[p + 5] == id[p + 5 - 30];
        } else {
          EmbedPrefixPlain(id, p + 5);
          EmbedPrefixPlain(id, p);
          PrefixNoMedal(p);
        }
      }
    }
  }

  /** Embedding is a fixed point on YouTube embed URLs: embedding an embed URL changes nothing. */
  lemma EmbedYoutubeFixed(id: string)
    requires IsVideoId(id)
    ensures Embed(YoutubeEmbed + id) == YoutubeEmbed + id
  {
    EmbedNotMedal(id);
    YoutubeIdOfEmbed(id);
  }

  /** The leftmost Medal match of a clip URL starts after the scheme. */
  lemma ClipUrlMatch(id: string, rest: string)
    requires id != [] && '/' !in id
    ensures MedalAt("https://medal.tv/clip/" + id + rest, 8)
    ensures forall k :: 0 <= k < 8 ==> !MedalAt("https://medal.tv/clip/" + id + rest, k)
    ensures OccursAt("https://medal.tv/clip/" + id + rest, "medal.tv", 8)
  {
    var pre := "https://medal.tv/clip/";
    var s := pre + id + rest;
    assert s[..22] == pre;
    assert s[8..22] == s[..22][8..22] == ClipPath;
    assert s[22] == id[0];
    forall k | 0 <= k < 8
      ensures !MedalAt(s, k)
    {
      assert s[k] == pre[k];
      if k + 14 <= |s| {
        assert s[k..k + 14][0] == s[k];
      }
    }
    assert s[8..16] == s[8..22][..8] == ClipPath[..8] == "medal.tv";
  }

  /** The clip id of a clip URL runs up to the `/` that starts the rest, or to the end. */
  lemma ClipUrlRun(id: string, rest: string)
    requires '/' !in id
    requires rest == [] || rest[0] == '/'
    ensures RunEnd("https://medal.tv/clip/" + id + rest, 22, {'/'}) == 22 + |id|
    ensures ("https://medal.tv/clip/" + id + rest)[22..22 + |id|] == id
  {
    var s := "https://medal.tv/clip/" + id + rest;
    forall j | 22 <= j < 22 + |id|
      ensures s[j] != '/'
    {
      assert s[j] == id[j - 22];
    }
    if rest != [] {
      assert s[22 + |id|] == rest[0];
    }
  }

  /**
   * A Medal clip URL gives back its clip id, and embedding it gives the
   * Medal embed URL of that id.
   */
  lemma MedalIdOfClipUrl(id: string, rest: string)
    requires id != [] && '/' !in id
    requires rest == [] || rest[0] == '/'
    ensures MedalId("https://medal.tv/clip/" + id + rest) == id
    ensures Embed("https://medal.tv/clip/" + id + rest) == EmbedMedal(id)
  {
    ClipUrlMatch(id, rest);
    ClipUrlRun(id, rest);
  }

  /** The Medal embed URL of a clip id gives back the id followed by the `?embed=true` query. */
  lemma MedalIdOfEmbed(id: string)
    requires id != [] && '/' !in id
    ensures MedalId(EmbedMedal(id)) == id + "?embed=true"
  {
    assert EmbedMedal(id) == "https://medal.tv/clip/" + (id + "?embed=true") + [];
    MedalIdOfClipUrl(id + "?embed=true", []);
  }

  /** Distinct ids have distinct thumbnails. */
  lemma ThumbnailInjective(a: string, b: string)
    requires Thumbnail(a) == Thumbnail(b)
    ensures a == b
  {
    var n := |"https://img.youtube.com/vi/"|;
    assert |a| == |b|;
    assert Thumbnail(a)[n..n + |a|] == a;
    assert Thumbnail(b)[n..n + |b|] == b;
  }
}
