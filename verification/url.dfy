/**
 The first thing the `/capture` handler does with the submitted address
 (server.js line 80): an address that does not already begin with the four
 letters `http` is given the `https://` scheme. The test is a plain,
 case-sensitive prefix test on the raw text.
 */
module Url {

  /** The prefix the handler looks for. */
  const HttpPrefix: string := "http"

  /** The scheme prepended when the prefix is missing. */
  const DefaultScheme: string := "https://"

  /** JavaScript's `String.prototype.startsWith` on a non-empty prefix. */
  predicate StartsWith(s: string, prefix: string) {
    |prefix| <= |s| && s[..|prefix|] == prefix
  }

  /** The address the rest of the handler works with. */
  function Normalize(url: string): (r: string)
    ensures StartsWith(r, HttpPrefix)
    ensures r == url <==> StartsWith(url, HttpPrefix)
    ensures r != url ==> r == DefaultScheme + url
  {
    if StartsWith(url, HttpPrefix) then url
    else
      var r := DefaultScheme + url;
      assert r[..|HttpPrefix|] == HttpPrefix;
      r
  }

  /** The submitted address survives normalisation intact, at its end. */
  lemma NormalizeKeepsAddress(url: string)
    ensures var r := Normalize(url);
      |url| <= |r| && r[|r| - |url|..] == url
  {
    var r := Normalize(url);
    if r != url {
      assert r == DefaultScheme + url;
      assert r[|DefaultScheme|..] == url;
    }
  }

  /** Normalising an already normalised address changes nothing. */
  lemma NormalizeIdempotent(url: string)
    ensures Normalize(Normalize(url)) == Normalize(url)
  {
  }

  /** The prefix test is literal and case-sensitive: an upper-case scheme is
      not recognised, so the address gets a second scheme in front of it. */
  lemma NormalizeUpperCaseScheme()
    ensures Normalize("HTTPS://x") == "https://HTTPS://x"
  {
    var u := "HTTPS://x";
    assert u[0] == 'H';
    assert !StartsWith(u, HttpPrefix);
  }

  /** A bare host whose name happens to begin with `http` is taken to carry
      a scheme already and is left as it is. */
  lemma NormalizeHttpNamedHost()
    ensures Normalize("httpbin.org") == "httpbin.org"
  {
    var u := "httpbin.org";
    assert u[..4] == HttpPrefix;
  }

  /** A bare host and path get the `https://` scheme. */
  lemma NormalizeBareHost()
    ensures Normalize("example.com/play") == "https://example.com/play"
  {
    var u := "example.com/play";
    assert u[0] == 'e';
    assert !StartsWith(u, HttpPrefix);
  }
}
