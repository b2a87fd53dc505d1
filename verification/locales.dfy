/**
  The site's locales: "en" (the default), "ja" and "zh"; reading the locale
  off a URL path and prefixing a path with a locale.
 */
module Locales {
  import opened Common

  const DefaultLocale: string := "en"
  const LocaleList: seq<string> := ["en", "ja", "zh"]

  /** `isLocale`. */
  predicate IsLocale(value: string) {
    value in LocaleList
  }

  /** `getLocaleFromPath`: the first non-empty '/'-segment when it is a
      locale, otherwise the default. */
  function GetLocaleFromPath(path: string): (r: string)
    ensures IsLocale(r)
  {
    var segments := NonEmpty(Split(path, '/'));
    if |segments| > 0 && segments[0] != "" && IsLocale(segments[0]) then segments[0] else DefaultLocale
  }

  /** `localePath`: the path itself for the default locale, otherwise the
      path under "/<locale>". */
  function LocalePath(path: string, locale: string): string
    requires IsLocale(locale)
  {
    if locale == DefaultLocale then path else "/" + locale + path
  }

  // ---------------------------------------------------------------------------
  // Properties
  // ---------------------------------------------------------------------------

  lemma IsLocaleExactly(value: string)
    ensures IsLocale(value) <==> value == "en" || value == "ja" || value == "zh"
  {
  }

  /** The first non-empty segment when there is one. */
  lemma {:induction false} FirstNonEmpty(pieces: seq<string>, k: nat)
    requires k < |pieces| && pieces[k] != "" && forall i :: 0 <= i < k ==> pieces[i] == ""
    ensures |NonEmpty(pieces)| > 0 && NonEmpty(pieces)[0] == pieces[k]
  {
    if k > 0 {
      FirstNonEmpty(pieces[1..], k - 1);
    }
  }

  /** Empty segments are skipped: "//ja/x" is a Japanese path. */
  lemma EmptySegmentsSkipped()
    ensures GetLocaleFromPath("//ja/x") == "ja"
  {
    SplitAtFirst("", "/ja/x", '/');
    SplitAtFirst("", "ja/x", '/');
    SplitAtFirst("ja", "x", '/');
    assert "" + ['/'] + "/ja/x" == "//ja/x";
    assert "" + ['/'] + "ja/x" == "/ja/x";
    assert "ja" + ['/'] + "x" == "ja/x";
    FirstNonEmpty(Split("//ja/x", '/'), 2);
  }

  /** A path without a locale segment reads as the default locale. */
  lemma NoLocaleIsDefault(path: string)
    requires forall s :: s in Split(path, '/') ==> !IsLocale(s)
    ensures GetLocaleFromPath(path) == DefaultLocale
  {
    NonEmptyMembers(Split(path, '/'));
  }

  /** Prefixing an absolute path with a locale other than the default and
      reading the locale back gives that locale; the default locale leaves
      the path as it is. */
  lemma LocalePathRoundTrip(path: string, locale: string)
    requires IsLocale(locale) && |path| > 0 && path[0] == '/'
    ensures locale == DefaultLocale ==> LocalePath(path, locale) == path
    ensures locale != DefaultLocale ==> GetLocaleFromPath(LocalePath(path, locale)) == locale
  {
    if locale != DefaultLocale {
      var rest := path[1..];
      assert '/' !in locale;
      SplitAtFirst("", locale + path, '/');
      assert "/" + locale + path == "" + ['/'] + (locale + path);
      assert locale + path == locale + ['/'] + rest;
      SplitAtFirst(locale, rest, '/');
      FirstNonEmpty(Split("/" + locale + path, '/'), 1);
    }
  }
}
