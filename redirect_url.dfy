/**
 * The redirect target computed by THttpResponse::httpRedirect and
 * TCallbackResponseAdapter::httpRedirect: a URL starting with '/' gets the
 * request's base URL in front, then every '&amp;' becomes '&'.
 */
module Redirect {
  import opened Text

  /** `$url[0]==='/'`; the empty URL has no first character and is taken as relative. */
  predicate IsRootRelative(url: string) {
    |url| > 0 && url[0] == '/'
  }

  /** The URL a redirect to `url` goes to, given the request's base URL. */
  function RedirectTarget(url: string, baseUrl: string): (r: string)
    ensures |r| <= |baseUrl| + |url|
  {
    DecodeAmp(if IsRootRelative(url) then baseUrl + url else url)
  }

  /** Text free of '&' in front of the rest passes through the rewrite unchanged. */
  lemma {:induction false} DecodeAmpKeepsPlainPrefix(a: string, b: string)
    requires '&' !in a
    ensures DecodeAmp(a + b) == a + DecodeAmp(b)
    decreases |a|
  {
    if a != [] {
      var s := a + b;
      assert s[0] == a[0] != '&';
      assert !(|s| >= 5 && s[..5] == EncodedAmp) by {
        if |s| >= 5 {
          assert s[..5][0] == a[0];
        }
      }
      assert DecodeAmp(s) == [a[0]] + DecodeAmp(s[1..]);
      assert s[1..] == a[1..] + b;
      assert '&' !in a[1..] by {
        assert forall c :: c in a[1..] ==> c in a;
      }
      DecodeAmpKeepsPlainPrefix(a[1..], b);
      AppendAssociates([a[0]], a[1..], DecodeAmp(b));
      assert [a[0]] + a[1..] == a;
    } else {
      assert a + b == b;
    }
  }

  /** Escaping keeps the first character's role: the escaped URL is root-relative exactly when the URL is. */
  lemma EncodeAmpKeepsRootRelative(url: string)
    ensures IsRootRelative(EncodeAmp(url)) <==> IsRootRelative(url)
  {
    if url != [] && url[0] == '&' {
      assert EncodeAmp(url)[0] == '&';
    } else if url != [] {
      assert EncodeAmp(url)[0] == url[0];
    }
  }

  /**
   * A URL whose ampersands were HTML-escaped redirects to the unescaped URL:
   * as it is when relative, behind the base URL when it starts with '/'
   * (for a base URL without '&').
   */
  lemma RedirectUnescapes(url: string, baseUrl: string)
    requires '&' !in baseUrl
    ensures IsRootRelative(url) ==> RedirectTarget(EncodeAmp(url), baseUrl) == baseUrl + url
    ensures !IsRootRelative(url) ==> RedirectTarget(EncodeAmp(url), baseUrl) == url
  {
    EncodeAmpKeepsRootRelative(url);
    DecodeEncodeAmp(url);
    if IsRootRelative(url) {
      DecodeAmpKeepsPlainPrefix(baseUrl, EncodeAmp(url));
    }
  }
}
