/**
  The call-button tracking of the landing page (phone-tracking.js): `getCookie` reads one cookie
  out of `document.cookie`, and `handlePhoneClick` reports the click when the page carries a
  visit id and then dials the number.
 */
module PhoneTracking {
  import opened Maybe
  import opened Strings

  /**
    What `getCookie` produces: `null`, the decoded value, or the URIError that
    `decodeURIComponent` throws on a malformed escape.
   */
  datatype CookieValue = Absent | Present(value: string) | Malformed

  /** The trimmed segment starts with `name=`; a longer name sharing the prefix does not match. */
  predicate SegmentMatches(segment: string, name: string) {
    StartsWith(JsTrim(segment), name + "=")
  }

  /** `decodeURIComponent(cookie.substring(name.length + 1))` on a matching segment. */
  function DecodeRest(segment: string, name: string, decode: string -> Option<string>): CookieValue
    requires SegmentMatches(segment, name)
  {
    Decoded(decode(JsTrim(segment)[|name| + 1..]))
  }

  /** The value `decodeURIComponent` returns, or the error it throws. */
  function Decoded(d: Option<string>): CookieValue {
    match d
    case Some(v) => Present(v)
    case None => Malformed
  }

  /** The first matching segment decides; without one the result is `null`. */
  function FirstCookie(segments: seq<string>, name: string, decode: string -> Option<string>): CookieValue {
    if |segments| == 0 then Absent
    else if SegmentMatches(segments[0], name) then DecodeRest(segments[0], name, decode)
    else FirstCookie(segments[1..], name, decode)
  }

  /** `getCookie(name)` against the cookie string: an empty string gives `null`. */
  function CookieOf(cookies: string, name: string, decode: string -> Option<string>): CookieValue {
    if cookies == "" then Absent else FirstCookie(Split(cookies, ';'), name, decode)
  }

  /** No matching segment gives `null`, and a match never gives `null`. */
  lemma {:induction false} FirstCookieAbsentIff(segments: seq<string>, name: string, decode: string -> Option<string>)
    ensures FirstCookie(segments, name, decode) == Absent <==>
            forall j :: 0 <= j < |segments| ==> !SegmentMatches(segments[j], name)
  {
    if |segments| > 0 && !SegmentMatches(segments[0], name) {
      FirstCookieAbsentIff(segments[1..], name, decode);
      assert forall j :: 1 <= j < |segments| ==> segments[j] == segments[1..][j - 1];
    }
  }

  /**
    When segment k is the first to match, the result is the decoding of everything after its
    `name=` (further "=" included), whatever the later segments hold.
   */
  lemma {:induction false} FirstCookieWins(segments: seq<string>, name: string, decode: string -> Option<string>, k: nat)
    requires k < |segments| && SegmentMatches(segments[k], name)
    requires forall j :: 0 <= j < k ==> !SegmentMatches(segments[j], name)
    ensures FirstCookie(segments, name, decode) == DecodeRest(segments[k], name, decode)
  {
    if k > 0 {
      var rest := segments[1..];
      assert !SegmentMatches(segments[0], name);
      assert rest[k - 1] == segments[k];
      forall j | 0 <= j < k - 1
        ensures !SegmentMatches(rest[j], name)
      {
        assert rest[j] == segments[j + 1];
      }
      FirstCookieWins(rest, name, decode, k - 1);
    }
  }

  /** A cookie whose name extends the queried one by any character other than "=" is skipped. */
  lemma LongerNameSkipped(name: string, c: char, rest: string)
    requires c != '='
    requires var seg := name + [c] + rest; !IsJsSpace(seg[0]) && !IsJsSpace(seg[|seg| - 1])
    ensures !SegmentMatches(name + [c] + rest, name)
  {
    var seg := name + [c] + rest;
    TrimUnchanged(seg, IsJsSpace);
    assert seg[|name|] == c;
  }

  /**
    A cookie string holding the single cookie `name=v`, with no whitespace at its ends, yields
    the decoding of all of `v`, any "=" in it included.
   */
  lemma SingleCookie(name: string, v: string, decode: string -> Option<string>)
    requires var c := name + "=" + v; ';' !in c && !IsJsSpace(c[0]) && !IsJsSpace(c[|c| - 1])
    ensures CookieOf(name + "=" + v, name, decode) == Decoded(decode(v))
  {
    var c := name + "=" + v;
    SplitNoSeparator(c, ';');
    TrimUnchanged(c, IsJsSpace);
    assert c[..|name| + 1] == name + "=";
    assert c[|name| + 1..] == v;
    FirstCookieWins([c], name, decode, 0);
  }

  /** The `for` loop over the segments, with its `break` at the first match. */
  method GetCookie(cookies: string, name: string, decode: string -> Option<string>) returns (r: CookieValue)
    ensures r == CookieOf(cookies, name, decode)
  {
    r := Absent;
    if cookies != "" {
      var segments := Split(cookies, ';');
      assert CookieOf(cookies, name, decode) == FirstCookie(segments, name, decode);
      var i := 0;
      while i < |segments|
        invariant 0 <= i <= |segments|
        invariant forall j :: 0 <= j < i ==> !SegmentMatches(segments[j], name)
      {
        var cookie := JsTrim(segments[i]);
        if StartsWith(cookie, name + "=") {
          FirstCookieWins(segments, name, decode, i);
          r := Decoded(decode(cookie[|name| + 1..]));
          assert r == DecodeRest(segments[i], name, decode);
          return;
        }
        i := i + 1;
      }
      FirstCookieAbsentIff(segments, name, decode);
    }
  }

  /** The request `handlePhoneClick` posts: the visit id and the CSRF token header. */
  datatype Post = Post(visitId: string, csrfToken: Option<string>)

  /** What one click does: the report it posts, if any, and the page it navigates to, if any. */
  datatype Click = Click(post: Option<Post>, navigation: Option<string>)

  /**
    `handlePhoneClick`. `visitIdData` is the `data-visit-id` of the page, absent when the
    element or attribute is missing. The cookie is read before anything else, so a malformed
    CSRF cookie rejects the handler before it posts or navigates; otherwise the click is posted
    exactly when the visit id is non-empty, and the browser goes to "tel:" + the number whether
    or not the post succeeds.
   */
  method HandlePhoneClick(cookies: string, visitIdData: Option<string>, phoneNumber: string,
                          decode: string -> Option<string>)
    returns (click: Click)
    ensures var token := CookieOf(cookies, "csrftoken", decode);
            var visitId := visitIdData.GetOr("");
            && (click.navigation.Some? <==> !token.Malformed?)
            && (click.navigation.Some? ==> click.navigation.value == "tel:" + phoneNumber)
            && (click.post.Some? <==> !token.Malformed? && visitId != "")
            && (click.post.Some? ==> click.post.value == Post(visitId, if token.Present? then Some(token.value) else None))
  {
    var visitId := visitIdData.GetOr("");
    var csrftoken := GetCookie(cookies, "csrftoken", decode);
    if csrftoken.Malformed? {
      return Click(None, None);
    }
    var post := None;
    if visitId != "" {
      post := Some(Post(visitId, if csrftoken.Present? then Some(csrftoken.value) else None));
    }
    click := Click(post, Some("tel:" + phoneNumber));
  }
}
