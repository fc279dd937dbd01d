/**
 * The regular expressions of the service. Each is described twice: by
 * `Split`/`IsMatch`, which say declaratively which substring the
 * JavaScript engine reports, and by `MatchAt`/`Leftmost`, which compute it;
 * `MatchAtIff` and the contract of `Leftmost` tie the two together.
 *
 *   Base64Image    data:image\/[a-zA-Z0-9.+-]+;base64,[A-Za-z0-9+/=]+
 *   MimeGroup      data:(.*?);base64
 *   DataUrlHeader  ^data:image\/\w+;base64,
 */
module Patterns {
  import opened Wrappers
  import opened Text

  datatype Pattern = Base64Image | MimeGroup | DataUrlHeader

  datatype CharClass = MimeSubtype | Base64Body | Word

  predicate IsAsciiAlnum(c: char) {
    'a' <= c <= 'z' || 'A' <= c <= 'Z' || '0' <= c <= '9'
  }

  /** `[a-zA-Z0-9.+-]`, `[A-Za-z0-9+/=]` and `\w`. */
  predicate InClass(k: CharClass, c: char) {
    match k
    case MimeSubtype => IsAsciiAlnum(c) || c == '.' || c == '+' || c == '-'
    case Base64Body => IsAsciiAlnum(c) || c == '+' || c == '/' || c == '='
    case Word => IsAsciiAlnum(c) || c == '_'
  }

  /** The characters `.` does not match. */
  predicate IsLineTerminator(c: char) {
    c == '\n' || c == '\r' || c == '\U{2028}' || c == '\U{2029}'
  }

  /** Every character of `s[i..j]` is in class `k`. */
  ghost predicate AllIn(k: CharClass, s: string, i: nat, j: nat) {
    i <= j <= |s| && forall x :: i <= x < j ==> InClass(k, s[x])
  }

  /** Where a greedy run of class `k` starting at `i` stops. */
  function RunEnd(k: CharClass, s: string, i: nat): (e: nat)
    requires i <= |s|
    decreases |s| - i
    ensures i <= e <= |s| && AllIn(k, s, i, e)
    ensures e == |s| || !InClass(k, s[e])
  {
    if i == |s| || !InClass(k, s[i]) then i else RunEnd(k, s, i + 1)
  }

  const ImagePrefix: string := "data:image/"
  const SchemePrefix: string := "data:"
  const Base64Marker: string := ";base64,"
  const Base64Tag: string := ";base64"
  const DefaultMime: string := "image/png"

  /** The data URL `data:<mime>;base64,<data>`. */
  function DataUrl(mime: string, data: string): string {
    SchemePrefix + mime + Base64Marker + data
  }

  /**
   * The engine reports a match of `p` on `s[i..e]` whose ";base64" starts at
   * `k`. A greedy body runs as far as it can; a lazy group stops at the first
   * ";base64"; `.` stops at a line terminator; `^` anchors at 0.
   */
  ghost predicate Split(p: Pattern, s: string, i: nat, k: nat, e: nat) {
    match p
    case Base64Image =>
      && OccursAt(s, ImagePrefix, i)
      && i + |ImagePrefix| < k && AllIn(MimeSubtype, s, i + |ImagePrefix|, k)
      && OccursAt(s, Base64Marker, k)
      && k + |Base64Marker| < e && AllIn(Base64Body, s, k + |Base64Marker|, e)
      && (e == |s| || !InClass(Base64Body, s[e]))
    case MimeGroup =>
      && OccursAt(s, SchemePrefix, i)
      && i + |SchemePrefix| <= k && OccursAt(s, Base64Tag, k) && e == k + |Base64Tag|
      && (forall j :: i + |SchemePrefix| <= j < k ==> !IsLineTerminator(s[j]) && !OccursAt(s, Base64Tag, j))
    case DataUrlHeader =>
      && i == 0 && OccursAt(s, ImagePrefix, 0)
      && |ImagePrefix| < k && AllIn(Word, s, |ImagePrefix|, k)
      && OccursAt(s, Base64Marker, k) && e == k + |Base64Marker|
  }

  /** The engine, trying position `i`, reports the match `s[i..e]`. */
  ghost predicate IsMatch(p: Pattern, s: string, i: nat, e: nat) {
    exists k: nat :: Split(p, s, i, k, e)
  }

  /** The lazy `(.*?);base64` from `k`: the first ";base64" unless a line terminator comes first. */
  function LazyTag(s: string, k: nat): (r: Option<nat>)
    requires k <= |s|
    decreases |s| - k
    ensures r.Some? ==> k <= r.value && OccursAt(s, Base64Tag, r.value)
    ensures r.Some? ==> forall j :: k <= j < r.value ==> !IsLineTerminator(s[j]) && !OccursAt(s, Base64Tag, j)
  {
    if OccursAt(s, Base64Tag, k) then Some(k)
    else if k == |s| || IsLineTerminator(s[k]) then None
    else LazyTag(s, k + 1)
  }

  lemma {:induction false} LazyTagComplete(s: string, k: nat, r: nat)
    requires k <= r && OccursAt(s, Base64Tag, r)
    requires forall j :: k <= j < r ==> !IsLineTerminator(s[j]) && !OccursAt(s, Base64Tag, j)
    ensures LazyTag(s, k) == Some(r)
    decreases r - k
  {
    if k < r {
      LazyTagComplete(s, k + 1, r);
    }
  }

  /** The end of the match the engine reports when it tries position `i`, if any. */
  function MatchAt(p: Pattern, s: string, i: nat): (r: Option<nat>)
    requires i <= |s|
    ensures r.Some? ==> i < r.value <= |s|
  {
    match p
    case Base64Image =>
      if !OccursAt(s, ImagePrefix, i) then None
      else
        var k := RunEnd(MimeSubtype, s, i + |ImagePrefix|);
        if k == i + |ImagePrefix| || !OccursAt(s, Base64Marker, k) then None
        else
          var e := RunEnd(Base64Body, s, k + |Base64Marker|);
          if e == k + |Base64Marker| then None else Some(e)
    case MimeGroup =>
      if !OccursAt(s, SchemePrefix, i) then None
      else
        (match LazyTag(s, i + |SchemePrefix|)
         case Some(k) => Some(k + |Base64Tag|)
         case None => None)
    case DataUrlHeader =>
      if i != 0 || !OccursAt(s, ImagePrefix, 0) then None
      else
        var k := RunEnd(Word, s, |ImagePrefix|);
        if k == |ImagePrefix| || !OccursAt(s, Base64Marker, k) then None
        else Some(k + |Base64Marker|)
  }

  lemma RunEndUnique(k: CharClass, s: string, i: nat, e: nat)
    requires AllIn(k, s, i, e) && (e == |s| || !InClass(k, s[e]))
    ensures RunEnd(k, s, i) == e
  {
  }

  lemma MarkerStart(s: string, k: nat)
    requires OccursAt(s, Base64Tag, k)
    ensures s[k] == ';'
  {
    assert s[k] == s[k..k + |Base64Tag|][0];
  }

  lemma MarkerIsTag(s: string, k: nat)
    requires OccursAt(s, Base64Marker, k)
    ensures OccursAt(s, Base64Tag, k)
  {
    assert s[k..k + |Base64Tag|] == s[k..k + |Base64Marker|][..|Base64Tag|];
  }

  /** The executable matcher agrees with the declarative description, both ways. */
  lemma MatchAtIff(p: Pattern, s: string, i: nat, e: nat)
    requires i <= |s|
    ensures MatchAt(p, s, i) == Some(e) <==> IsMatch(p, s, i, e)
  {
    match p
    case Base64Image => ImageMatchAtIff(s, i, e);
    case MimeGroup => MimeMatchAtIff(s, i, e);
    case DataUrlHeader => HeaderMatchAtIff(s, i, e);
  }

  lemma ImageMatchAtIff(s: string, i: nat, e: nat)
    requires i <= |s|
    ensures MatchAt(Base64Image, s, i) == Some(e) <==> IsMatch(Base64Image, s, i, e)
  {
    if MatchAt(Base64Image, s, i) == Some(e) {
      var k := RunEnd(MimeSubtype, s, i + |ImagePrefix|);
      assert Split(Base64Image, s, i, k, e);
    }
    if IsMatch(Base64Image, s, i, e) {
      var k: nat :| Split(Base64Image, s, i, k, e);
      MarkerIsTag(s, k);
      MarkerStart(s, k);
      RunEndUnique(MimeSubtype, s, i + |ImagePrefix|, k);
      RunEndUnique(Base64Body, s, k + |Base64Marker|, e);
    }
  }

  lemma MimeMatchAtIff(s: string, i: nat, e: nat)
    requires i <= |s|
    ensures MatchAt(MimeGroup, s, i) == Some(e) <==> IsMatch(MimeGroup, s, i, e)
  {
    if MatchAt(MimeGroup, s, i) == Some(e) {
      var k := LazyTag(s, i + |SchemePrefix|).value;
      assert Split(MimeGroup, s, i, k, e);
    }
    if IsMatch(MimeGroup, s, i, e) {
      var k: nat :| Split(MimeGroup, s, i, k, e);
      LazyTagComplete(s, i + |SchemePrefix|, k);
    }
  }

  lemma HeaderMatchAtIff(s: string, i: nat, e: nat)
    requires i <= |s|
    ensures MatchAt(DataUrlHeader, s, i) == Some(e) <==> IsMatch(DataUrlHeader, s, i, e)
  {
    if MatchAt(DataUrlHeader, s, i) == Some(e) {
      var k := RunEnd(Word, s, |ImagePrefix|);
      assert Split(DataUrlHeader, s, i, k, e);
    }
    if IsMatch(DataUrlHeader, s, i, e) {
      var k: nat :| Split(DataUrlHeader, s, i, k, e);
      MarkerIsTag(s, k);
      MarkerStart(s, k);
      RunEndUnique(Word, s, |ImagePrefix|, k);
    }
  }

  /** A match lies inside the string. */
  lemma MatchInside(p: Pattern, s: string, i: nat, e: nat)
    requires IsMatch(p, s, i, e)
    ensures i < e <= |s|
  {
  }

  lemma NoMatchAt(p: Pattern, s: string, i: nat)
    requires i <= |s| && MatchAt(p, s, i).None?
    ensures forall e: nat :: !IsMatch(p, s, i, e)
  {
    forall e: nat ensures !IsMatch(p, s, i, e) {
      MatchAtIff(p, s, i, e);
    }
  }

  lemma NoMatchBeyond(p: Pattern, s: string)
    ensures forall i: nat, e: nat :: |s| <= i ==> !IsMatch(p, s, i, e)
  {
    forall i: nat, e: nat | |s| <= i && IsMatch(p, s, i, e) ensures false {
      MatchInside(p, s, i, e);
    }
  }

  /** The engine tries `from`, `from + 1`, ... and reports the first match it finds. */
  function Leftmost(p: Pattern, s: string, from: nat): (r: Option<(nat, nat)>)
    requires from <= |s|
    decreases |s| - from
    ensures r.Some? ==> from <= r.value.0 < r.value.1 <= |s| && IsMatch(p, s, r.value.0, r.value.1)
    ensures forall i: nat, e: nat :: from <= i && (r.None? || i < r.value.0) ==> !IsMatch(p, s, i, e)
  {
    match MatchAt(p, s, from)
    case Some(e) =>
      MatchAtIff(p, s, from, e);
      Some((from, e))
    case None =>
      NoMatchAt(p, s, from);
      if from == |s| then NoMatchBeyond(p, s); None else Leftmost(p, s, from + 1)
  }

  /** A match at position 0 is the one `exec` reports. */
  lemma ExecAtZero(p: Pattern, s: string, e: nat)
    requires IsMatch(p, s, 0, e)
    ensures Leftmost(p, s, 0) == Some((0, e))
  {
    LeftmostUnique(p, s, 0, e);
  }

  /** `text.match(BASE64_IMAGE_REGEX)?.[0]`: the leftmost embedded image data URL. */
  function FindImageDataUrl(text: string): (r: Option<string>)
    ensures r.None? <==> forall i: nat, e: nat :: !IsMatch(Base64Image, text, i, e)
    ensures r.Some? ==> exists i: nat, e: nat :: (i < e <= |text| && IsMatch(Base64Image, text, i, e)
      && r.value == text[i..e]
      && forall i': nat, e': nat :: i' < i ==> !IsMatch(Base64Image, text, i', e'))
  {
    match Leftmost(Base64Image, text, 0)
    case Some((i, e)) => Some(text[i..e])
    case None => None
  }

  /** `s[i..e]` is the match `exec` reports: a match, and no match starts earlier. */
  ghost predicate IsLeftmost(p: Pattern, s: string, i: nat, e: nat) {
    IsMatch(p, s, i, e) && forall i': nat, e': nat :: i' < i ==> !IsMatch(p, s, i', e')
  }

  /** The scan from 0 reports exactly the leftmost match. */
  lemma LeftmostUnique(p: Pattern, s: string, i: nat, e: nat)
    requires IsLeftmost(p, s, i, e)
    ensures Leftmost(p, s, 0) == Some((i, e))
  {
    var r := Leftmost(p, s, 0);
    MatchInside(p, s, i, e);
    assert r.Some? && r.value.0 == i;
    MatchAtIff(p, s, i, e);
    MatchAtIff(p, s, i, r.value.1);
  }

  /** The captured group of `/data:(.*?);base64/`, or "image/png" when it is absent or empty. */
  function MimeType(url: string): (m: string)
    ensures m != ""
    ensures (forall i: nat, e: nat :: !IsMatch(MimeGroup, url, i, e)) ==> m == DefaultMime
    ensures forall i: nat, e: nat :: IsLeftmost(MimeGroup, url, i, e) ==>
      i + |SchemePrefix| <= e - |Base64Tag| <= |url|
      && m == (if url[i + |SchemePrefix|..e - |Base64Tag|] == "" then DefaultMime
               else url[i + |SchemePrefix|..e - |Base64Tag|])
  {
    match Leftmost(MimeGroup, url, 0)
    case Some((i, e)) =>
      MimeGroupBounds(url, i, e);
      assert forall i': nat, e': nat :: IsLeftmost(MimeGroup, url, i', e') ==> i' == i && e' == e by {
        forall i': nat, e': nat | IsLeftmost(MimeGroup, url, i', e') ensures i' == i && e' == e {
          LeftmostUnique(MimeGroup, url, i', e');
        }
      }
      var group := url[i + |SchemePrefix|..e - |Base64Tag|];
      if group == "" then DefaultMime else group
    case None => DefaultMime
  }

  lemma MimeGroupBounds(s: string, i: nat, e: nat)
    requires IsMatch(MimeGroup, s, i, e)
    ensures i + |SchemePrefix| <= e - |Base64Tag| && e <= |s|
  {
  }

  /** `url.replace(/^data:image\/\w+;base64,/, "")`: drops a leading image data-URL header. */
  function StripDataUrlHeader(url: string): (r: string)
    ensures |r| <= |url| && r == url[|url| - |r|..]
    ensures r != url <==> exists e: nat :: IsMatch(DataUrlHeader, url, 0, e)
    ensures forall e: nat :: IsMatch(DataUrlHeader, url, 0, e) ==> r == url[e..]
  {
    match MatchAt(DataUrlHeader, url, 0)
    case Some(e) =>
      MatchAtIff(DataUrlHeader, url, 0, e);
      assert forall e': nat :: IsMatch(DataUrlHeader, url, 0, e') ==> e' == e by {
        forall e': nat | IsMatch(DataUrlHeader, url, 0, e') ensures e' == e {
          MatchAtIff(DataUrlHeader, url, 0, e');
        }
      }
      url[e..]
    case None =>
      NoMatchAt(DataUrlHeader, url, 0);
      url
  }

  /** Where the pieces of a data URL sit. */
  lemma DataUrlLayout(mime: string, data: string)
    ensures var u := DataUrl(mime, data);
      && |u| == |SchemePrefix| + |mime| + |Base64Marker| + |data|
      && OccursAt(u, SchemePrefix, 0)
      && u[|SchemePrefix|..|SchemePrefix| + |mime|] == mime
      && (forall x :: 0 <= x < |mime| ==> u[|SchemePrefix| + x] == mime[x])
      && OccursAt(u, Base64Marker, |SchemePrefix| + |mime|)
      && u[|SchemePrefix| + |mime| + |Base64Marker|..] == data
      && (forall x :: 0 <= x < |data| ==> u[|SchemePrefix| + |mime| + |Base64Marker| + x] == data[x])
  {
  }

  /** The substring a match covers starts with "data:image/" and holds ";base64,". */
  lemma MatchShape(text: string, i: nat, k: nat, e: nat)
    requires Split(Base64Image, text, i, k, e)
    ensures StartsWith(text[i..e], ImagePrefix)
    ensures OccursAt(text[i..e], Base64Marker, k - i)
  {
    OccursInWhole(text, i, e, ImagePrefix, i);
    OccursInWhole(text, i, e, Base64Marker, k);
  }

  /** What the engine reports for an embedded image is an image data URL. */
  lemma ImageDataUrlShape(text: string)
    requires FindImageDataUrl(text).Some?
    ensures StartsWith(FindImageDataUrl(text).value, ImagePrefix)
    ensures Contains(FindImageDataUrl(text).value, Base64Marker)
  {
    var r := Leftmost(Base64Image, text, 0);
    var i, e := r.value.0, r.value.1;
    var k: nat :| Split(Base64Image, text, i, k, e);
    MatchShape(text, i, k, e);
  }

  /** An image data URL with a well-formed subtype and body is found whole. */
  lemma ImageDataUrlRoundTrip(subtype: string, body: string)
    requires subtype != [] && AllIn(MimeSubtype, subtype, 0, |subtype|)
    requires body != [] && AllIn(Base64Body, body, 0, |body|)
    ensures FindImageDataUrl(DataUrl("image/" + subtype, body)) == Some(DataUrl("image/" + subtype, body))
  {
    var mime := "image/" + subtype;
    var u := DataUrl(mime, body);
    DataUrlLayout(mime, body);
    var k := |ImagePrefix| + |subtype|;
    assert u[..|ImagePrefix|] == SchemePrefix + "image/";
    assert forall x :: |ImagePrefix| <= x < k ==> u[x] == subtype[x - |ImagePrefix|];
    assert Split(Base64Image, u, 0, k, |u|);
    ExecAtZero(Base64Image, u, |u|);
    assert u[0..|u|] == u;
  }

  /** The mime type written into a data URL is the one read back. */
  lemma MimeTypeOfDataUrl(mime: string, data: string)
    requires mime != []
    requires forall x :: 0 <= x < |mime| ==> mime[x] != ';' && !IsLineTerminator(mime[x])
    ensures MimeType(DataUrl(mime, data)) == mime
  {
    var u := DataUrl(mime, data);
    DataUrlLayout(mime, data);
    var k := |SchemePrefix| + |mime|;
    MarkerIsTag(u, k);
    forall j | |SchemePrefix| <= j < k ensures !IsLineTerminator(u[j]) && !OccursAt(u, Base64Tag, j) {
      if OccursAt(u, Base64Tag, j) {
        MarkerStart(u, j);
      }
    }
    assert Split(MimeGroup, u, 0, k, k + |Base64Tag|);
    ExecAtZero(MimeGroup, u, k + |Base64Tag|);
  }

  /** The header of an image data URL with a `\w+` subtype is dropped, leaving the payload. */
  lemma StripDataUrlHeaderOfDataUrl(subtype: string, data: string)
    requires subtype != [] && AllIn(Word, subtype, 0, |subtype|)
    ensures StripDataUrlHeader(DataUrl("image/" + subtype, data)) == data
  {
    var mime := "image/" + subtype;
    var u := DataUrl(mime, data);
    DataUrlLayout(mime, data);
    var k := |ImagePrefix| + |subtype|;
    assert u[..|ImagePrefix|] == SchemePrefix + "image/";
    assert forall x :: |ImagePrefix| <= x < k ==> u[x] == subtype[x - |ImagePrefix|];
    assert Split(DataUrlHeader, u, 0, k, k + |Base64Marker|);
  }

  /**
   * A subtype outside `\w+`, such as "svg+xml", keeps the header: the whole
   * data URL is left in place.
   */
  lemma StripKeepsOtherSubtypes(subtype: string, data: string, bad: nat)
    requires bad < |subtype| && !InClass(Word, subtype[bad])
    requires forall x :: 0 <= x < |subtype| ==> subtype[x] != ';'
    ensures StripDataUrlHeader(DataUrl("image/" + subtype, data)) == DataUrl("image/" + subtype, data)
  {
    var mime := "image/" + subtype;
    var u := DataUrl(mime, data);
    DataUrlLayout(mime, data);
    forall e: nat ensures !IsMatch(DataUrlHeader, u, 0, e) {
      if IsMatch(DataUrlHeader, u, 0, e) {
        HeaderNeedsWordSubtype(subtype, data, e);
      }
    }
  }

  /** The header pattern matches such a data URL only when its whole subtype is `\w+`. */
  lemma HeaderNeedsWordSubtype(subtype: string, data: string, e: nat)
    requires forall x :: 0 <= x < |subtype| ==> subtype[x] != ';'
    requires IsMatch(DataUrlHeader, DataUrl("image/" + subtype, data), 0, e)
    ensures AllIn(Word, subtype, 0, |subtype|)
  {
    var u := DataUrl("image/" + subtype, data);
    ImageUrlLayout(subtype, data);
    var k: nat :| Split(DataUrlHeader, u, 0, k, e);
    MarkerIsTag(u, k);
    MarkerStart(u, k);
    assert |ImagePrefix| + |subtype| <= k;
    forall x | 0 <= x < |subtype| ensures InClass(Word, subtype[x]) {
      assert InClass(Word, u[|ImagePrefix| + x]);
    }
  }

  /** An image data URL is the image prefix, the subtype, the marker and the payload. */
  lemma ImageUrlLayout(subtype: string, data: string)
    ensures var u := DataUrl("image/" + subtype, data);
      && u == ImagePrefix + subtype + Base64Marker + data
      && |u| == |ImagePrefix| + |subtype| + |Base64Marker| + |data|
      && (forall x :: 0 <= x < |subtype| ==> u[|ImagePrefix| + x] == subtype[x])
  {
    var u := DataUrl("image/" + subtype, data);
    assert u == ImagePrefix + subtype + Base64Marker + data;
  }
}
