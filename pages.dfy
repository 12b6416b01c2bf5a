/**
 * Redirect targets on the web site. Error pages carry their message in the `error`
 * query parameter, passed through `encodeURIComponent`.
 */
module Pages {
  import opened Common
  import opened Uri

  const STRAVA_ERROR := "https://www.reggie.run/strava/error"
  const STRAVA_SUCCESS := "https://www.reggie.run/strava/success"
  const PREFERENCES_ERROR := "https://www.reggie.run/preferences/error"
  const PREFERENCES_PAUSED := "https://www.reggie.run/preferences/paused"
  const PREFERENCES_DISCONNECTED := "https://www.reggie.run/preferences/disconnected"

  /** `${page}?error=${encodeURIComponent(msg)}`: the page, then one query parameter whose
      value decodes back to the message and holds no delimiter that could end it early. */
  function WithError(page: string, msg: string): (loc: string)
    ensures |loc| >= |page| + 7 && loc[..|page| + 7] == page + "?error="
    ensures DecodeURIComponent(loc[|page| + 7..]) == Some(msg)
    ensures '&' !in loc[|page| + 7..] && '#' !in loc[|page| + 7..]
  {
    EncodeURIComponentRoundTrip(msg);
    EncodedHasNoDelimiter(msg);
    var loc := page + "?error=" + EncodeURIComponent(msg);
    assert loc[|page| + 7..] == EncodeURIComponent(msg);
    loc
  }

  /** Two error redirects to the same page are equal only for equal messages. */
  lemma WithErrorInjective(page: string, m1: string, m2: string)
    requires WithError(page, m1) == WithError(page, m2)
    ensures m1 == m2
  {
    var l := WithError(page, m1);
    assert Some(m1) == DecodeURIComponent(l[|page| + 7..]) == Some(m2);
  }
}
