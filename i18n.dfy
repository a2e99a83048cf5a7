/** The language store and the bilingual field resolvers (`src/lib/i18n.ts`).
    A record is a map from column name to a nullable value: a key that is not
    in the map is `undefined`, a key mapped to `None` is `null`. */
module I18n {
  import opened Common

  datatype Language = En | Vi

  function Suffix(lang: Language): string {
    match lang
    case En => "en"
    case Vi => "vi"
  }

  /** The column `${field}_${lang}`. */
  function Key(field: string, lang: Language): string {
    field + "_" + Suffix(lang)
  }

  type TextRecord = map<string, Option<string>>
  type ListRecord = map<string, Option<seq<string>>>

  /** The process-wide language preference. Persisting it to local storage
      is not modelled. */
  class LanguageStore {
    var language: Language

    constructor ()
      ensures language == En
    {
      language := En;
    }

    method SetLanguage(lang: Language)
      modifies this
      ensures language == lang
    {
      language := lang;
    }
  }

  /** `data[key]` read as a JavaScript value is truthy: present, not null and,
      for a string, not empty. */
  predicate TruthyText(data: TextRecord, key: string) {
    key in data && data[key].Some? && data[key].value != ""
  }

  predicate PresentList(data: ListRecord, key: string) {
    key in data && data[key].Some?
  }

  /** `data[key] || data[field_en] || ''` */
  function GetBilingualContent(data: TextRecord, lang: Language, field: string): (r: string)
    ensures TruthyText(data, Key(field, lang)) ==> r == data[Key(field, lang)].value
    ensures !TruthyText(data, Key(field, lang)) && TruthyText(data, Key(field, En)) ==>
              r == data[Key(field, En)].value
    ensures !TruthyText(data, Key(field, lang)) && !TruthyText(data, Key(field, En)) ==> r == ""
  {
    var key := Key(field, lang);
    if TruthyText(data, key) then data[key].value
    else if TruthyText(data, Key(field, En)) then data[Key(field, En)].value
    else ""
  }

  /** `data[key] || data[field_en] || []`: an array, even an empty one, is
      truthy, so only a null or missing column falls back. */
  function GetBilingualArray(data: ListRecord, lang: Language, field: string): (r: seq<string>)
    ensures PresentList(data, Key(field, lang)) ==> r == data[Key(field, lang)].value
    ensures !PresentList(data, Key(field, lang)) && PresentList(data, Key(field, En)) ==>
              r == data[Key(field, En)].value
    ensures !PresentList(data, Key(field, lang)) && !PresentList(data, Key(field, En)) ==> r == []
  {
    var key := Key(field, lang);
    if PresentList(data, key) then data[key].value
    else if PresentList(data, Key(field, En)) then data[Key(field, En)].value
    else []
  }

  /** The value a column holds as a string, `""` when it is null or missing. */
  function TextOrEmpty(data: TextRecord, key: string): string {
    if key in data then data[key].GetOr("") else ""
  }

  /** The two languages name different columns, so the English fallback is
      never the requested column itself unless English was requested. */
  lemma {:induction false} KeysDiffer(field: string)
    ensures Key(field, En) != Key(field, Vi)
  {
    var n := |field| + 1;
    assert Key(field, En)[n] == 'e';
    assert Key(field, Vi)[n] == 'v';
  }

  /** In English the result is the English column, or `""` when that is
      null, missing or empty. */
  lemma EnglishIsEnglishColumn(data: TextRecord, field: string)
    ensures GetBilingualContent(data, En, field) == TextOrEmpty(data, Key(field, En))
  {
  }

  /** A non-empty result comes from one of the two named columns, and an
      empty one means neither holds a non-empty string. */
  lemma ContentSource(data: TextRecord, lang: Language, field: string)
    ensures var r := GetBilingualContent(data, lang, field);
      && (r != "" ==> (Key(field, lang) in data && data[Key(field, lang)] == Some(r)) ||
                      (Key(field, En) in data && data[Key(field, En)] == Some(r)))
      && (r == "" <==> !TruthyText(data, Key(field, lang)) && !TruthyText(data, Key(field, En)))
  {
  }

  /** The resolvers read only the two columns the convention names: records
      that agree on them resolve alike, whatever else they hold. */
  lemma ContentReadsOnlyItsColumns(d1: TextRecord, d2: TextRecord, lang: Language, field: string)
    requires forall k | k == Key(field, lang) || k == Key(field, En) ::
               (k in d1 <==> k in d2) && (k in d1 ==> d1[k] == d2[k])
    ensures GetBilingualContent(d1, lang, field) == GetBilingualContent(d2, lang, field)
  {
    assert Key(field, lang) in d1 <==> Key(field, lang) in d2;
    assert Key(field, En) in d1 <==> Key(field, En) in d2;
  }

  lemma ArrayReadsOnlyItsColumns(d1: ListRecord, d2: ListRecord, lang: Language, field: string)
    requires forall k | k == Key(field, lang) || k == Key(field, En) ::
               (k in d1 <==> k in d2) && (k in d1 ==> d1[k] == d2[k])
    ensures GetBilingualArray(d1, lang, field) == GetBilingualArray(d2, lang, field)
  {
    assert Key(field, lang) in d1 <==> Key(field, lang) in d2;
    assert Key(field, En) in d1 <==> Key(field, En) in d2;
  }

  /** The null-coalescing reading `data[key] ?? data[field_en] ?? ''`, under
      which an empty string is a value and does not fall back. */
  function NullishContent(data: TextRecord, lang: Language, field: string): string {
    var key := Key(field, lang);
    if key in data && data[key].Some? then data[key].value
    else if Key(field, En) in data && data[Key(field, En)].Some? then data[Key(field, En)].value
    else ""
  }

  /** `||` and `??` agree unless a requested column holds the empty string. */
  lemma ContentAgreesWithNullishWithoutEmptyStrings(data: TextRecord, lang: Language, field: string)
    requires Key(field, lang) in data ==> data[Key(field, lang)] != Some("")
    requires Key(field, En) in data ==> data[Key(field, En)] != Some("")
    ensures GetBilingualContent(data, lang, field) == NullishContent(data, lang, field)
  {
  }

  /** ... and they differ when the Vietnamese column is `""` and the English
      one is not: `||` shows the English text, `??` would show nothing. */
  lemma {:induction false} EmptyVietnameseFallsBack(data: TextRecord, field: string, en: string)
    requires Key(field, Vi) in data && data[Key(field, Vi)] == Some("")
    requires Key(field, En) in data && data[Key(field, En)] == Some(en) && en != ""
    ensures GetBilingualContent(data, Vi, field) == en
    ensures NullishContent(data, Vi, field) == ""
  {
    KeysDiffer(field);
  }

  /** An empty Vietnamese list is a value: it is shown as it is, and the
      English list is not consulted. */
  lemma {:induction false} EmptyListDoesNotFallBack(data: ListRecord, field: string)
    requires Key(field, Vi) in data && data[Key(field, Vi)] == Some([])
    ensures GetBilingualArray(data, Vi, field) == []
  {
  }
}
