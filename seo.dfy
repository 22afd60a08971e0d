/** The `SEO` component's URL handling: the canonical URL and the share
    image are made absolute against the site's base URL. */
module Seo {
  import opened Base
  import opened Strings

  const BASE_URL: string := "https://priolab.devoria.me"
  const DEFAULT_IMAGE: string := "/og-image.png"
  const DEFAULT_URL: string := "https://priolab.devoria.me"

  /** A value that already starts with "http" is kept; anything else is
      appended to the base URL. */
  function Absolute(u: string): (r: string)
    ensures StartsWith(u, "http") ==> r == u
    ensures !StartsWith(u, "http") ==> r == BASE_URL + u
  {
    if StartsWith(u, "http") then u else BASE_URL + u
  }

  /** The normalised URL always starts with "http", since the base URL does. */
  lemma AbsoluteStartsWithHttp(u: string)
    ensures StartsWith(Absolute(u), "http")
  {
    if !StartsWith(u, "http") {
      assert (BASE_URL + u)[..4] == BASE_URL[..4];
    }
  }

  /** Normalising twice is normalising once. */
  lemma AbsoluteIdempotent(u: string)
    ensures Absolute(Absolute(u)) == Absolute(u)
  {
    AbsoluteStartsWithHttp(u);
  }

  /** The component's two links: `fullImageUrl` and `fullUrl`, with an
      omitted prop replaced by its default. */
  function SeoLinks(image: Option<string>, url: Option<string>): (r: (string, string))
    ensures StartsWith(r.0, "http") && StartsWith(r.1, "http")
    ensures r.0 == Absolute(if image.Some? then image.value else DEFAULT_IMAGE)
    ensures r.1 == Absolute(if url.Some? then url.value else DEFAULT_URL)
  {
    var img := if image.Some? then image.value else DEFAULT_IMAGE;
    var page := if url.Some? then url.value else DEFAULT_URL;
    AbsoluteStartsWithHttp(img);
    AbsoluteStartsWithHttp(page);
    (Absolute(img), Absolute(page))
  }

  /** The defaults: the page URL is already absolute and passes through,
      and the image path is placed under the base URL. */
  lemma DefaultLinks()
    ensures SeoLinks(None, None) == (BASE_URL + DEFAULT_IMAGE, DEFAULT_URL)
  {
    assert StartsWith(DEFAULT_URL, "http") by {
      assert DEFAULT_URL[..4] == "http";
    }
    assert !StartsWith(DEFAULT_IMAGE, "http") by {
      assert DEFAULT_IMAGE[0] == '/';
    }
  }
}
