/** `LocalesViewSet.list` (`tweets2cash/locale/api.py`): the languages the
    site offers, with their writing direction. */
module LocaleApi {

  datatype Locale = Locale(code: string, name: string, bidi: bool)

  /** The languages of the `LANGUAGES` setting that are not commented out,
      and `LANGUAGES_BIDI`. */
  const Languages: seq<(string, string)> := [("en", "English (US)")]
  const LanguagesBidi: seq<string> := ["he", "ar", "fa", "ur"]

  /** One entry per configured language, in order, with its code and name
      copied and `bidi` telling whether the code is a right-to-left one. */
  function Locales(languages: seq<(string, string)>, bidiCodes: seq<string>): (r: seq<Locale>)
    ensures |r| == |languages|
    ensures forall i :: 0 <= i < |r| ==>
              r[i].code == languages[i].0 && r[i].name == languages[i].1 &&
              (r[i].bidi <==> languages[i].0 in bidiCodes)
  {
    if |languages| == 0 then []
    else [Locale(languages[0].0, languages[0].1, languages[0].0 in bidiCodes)] + Locales(languages[1..], bidiCodes)
  }

  /** With the configured settings there is one left-to-right locale. */
  lemma ConfiguredLocales()
    ensures Locales(Languages, LanguagesBidi) == [Locale("en", "English (US)", false)]
  {
    var r := Locales(Languages, LanguagesBidi);
    assert "en" !in LanguagesBidi;
    assert r[0] == Locale("en", "English (US)", false);
  }
}
