/**
 * The paragraph block of the bundled revision (dist/paragraph_i18n.mjs), in
 * which the active language is one module-wide value shared by every
 * instance. Each operation receives that value as `lang`; the language
 * store (module LanguageStore) owns it. The saved data maps each language
 * code to its HTML string.
 */
module GlobalParagraph {
  import opened Wrappers
  import Text
  import opened BlockView

  /** The `translations` record of the saved data. */
  type Translations = map<Language, string>

  /**
   * The shapes of `data` the constructor and the conversion import meet.
   * `Record` is any object: `text` is `None` unless the field holds a string,
   * `translations` is `None` unless the field holds a translation record.
   */
  datatype SavedData =
    | Nullish                           // undefined or null
    | Primitive(truthy: bool)           // a number or a boolean
    | Raw(s: string)                    // a bare string
    | Record(text: Option<string>, translations: Option<Translations>)

  /** JavaScript truthiness of the constructor's `data` argument. */
  predicate Truthy(d: SavedData)
  {
    match d
    case Nullish => false
    case Primitive(t) => t
    case Raw(s) => s != ""
    case Record(_, _) => true
  }

  datatype Block = Block(
    translations: Translations,
    placeholder: string,
    preserveBlank: bool,
    readOnly: bool,
    view: View,
    repaintPending: bool)   // a requestAnimationFrame repaint is queued

  /** The slot of `lang`, `None` standing for JavaScript's `undefined`. */
  function Slot(t: Translations, lang: Language): Option<string>
  {
    if lang in t then Some(t[lang]) else None
  }

  /**
   * `normalizeData(t)`, tried in order: a bare string and a string `text`
   * field become the text of `lang`; a translation record is kept, with the
   * slot of `lang` created empty if it is missing; anything else falls back
   * to an empty text for `lang`. Every outcome has a slot for `lang`.
   * Reading `t.text` of `undefined` or `null` throws.
   */
  function Normalize(d: SavedData, lang: Language): (r: Translations)
    requires !d.Nullish?
    ensures lang in r
    ensures d.Raw? ==> r == map[lang := d.s]
    ensures d.Record? && d.text.Some? ==> r == map[lang := d.text.value]
    ensures d.Record? && d.text.None? && d.translations.Some? ==>
      && r.Keys == d.translations.value.Keys + {lang}
      && (forall k :: k in d.translations.value ==> r[k] == d.translations.value[k])
      && (lang !in d.translations.value ==> r[lang] == "")
    ensures d.Primitive? || (d.Record? && d.text.None? && d.translations.None?) ==>
      r == map[lang := ""]
  {
    match d
    case Raw(s) => map[lang := s]
    case Record(Some(text), _) => map[lang := text]
    case Record(None, Some(t)) => if lang in t then t else t[lang := ""]
    case _ => map[lang := ""]
  }

  /**
   * The constructor: truthy data is normalized, otherwise the map gets an
   * empty slot for the current language. (Registering the repaint callback
   * is the language store's part.)
   */
  function Construct(data: SavedData, config: Config, readOnly: bool, lang: Language): (b: Block)
    ensures lang in b.translations
    ensures Truthy(data) ==> b.translations == Normalize(data, lang)
    ensures !Truthy(data) ==> b.translations == map[lang := ""]
    ensures b.placeholder == PlaceholderOf(config) && b.preserveBlank == PreserveBlankOf(config)
    ensures b.readOnly == readOnly && b.view == None && !b.repaintPending
  {
    var translations := if Truthy(data) then Normalize(data, lang) else map[lang := ""];
    Block(translations, PlaceholderOf(config), PreserveBlankOf(config), readOnly, None, false)
  }

  /**
   * `render()`: creates the container and fills it with the text of `lang`,
   * leaving it empty when there is none.
   */
  function Render(b: Block, lang: Language): (r: Block)
    ensures r.view == Some(TextOrEmpty(Slot(b.translations, lang)))
    ensures r.translations == b.translations && r.repaintPending == b.repaintPending
    ensures r == b.(view := r.view, translations := r.translations, repaintPending := r.repaintPending)
  {
    b.(view := Some(TextOrEmpty(Slot(b.translations, lang))))
  }

  /** The key-up listener, attached to rendered blocks that are not read-only. */
  function KeyUp(b: Block, code: string, textContent: string): (r: Block)
    ensures b.readOnly ==> r == b
    ensures b.view.None? ==> r == b
    ensures r.translations == b.translations
    ensures r.view != b.view ==>
      && r.view == Some("") && textContent == ""
      && (code == "Backspace" || code == "Delete")
    ensures !b.readOnly && b.view.Some? && (code == "Backspace" || code == "Delete") && textContent == "" ==>
      r.view == Some("")
    ensures r == b.(view := r.view)
  {
    if b.readOnly then b else b.(view := OnKeyUp(b.view, code, textContent))
  }

  /**
   * `merge(t)` as written: the incoming text of `lang` is appended with
   * JavaScript's `+=`, so when this block has no slot for `lang` (possible
   * once the language has changed after construction) the stored text starts
   * with the string "undefined". A missing incoming slot makes the fragment
   * builder throw, but only after the own slot has already had "undefined"
   * appended; the requires rules out that partially applied call. Before
   * `render()` nothing happens.
   */
  function MergeAsWritten(b: Block, lang: Language, incoming: Translations): (r: Block)
    requires b.view.Some? ==> lang in incoming
    ensures b.view.None? ==> r == b
    ensures b.view.Some? ==>
      && r.translations.Keys == b.translations.Keys + {lang}
      && (forall k :: k in b.translations && k != lang ==> r.translations[k] == b.translations[k])
      && r.view == Some(AppendFragment(b.view.value, incoming[lang]))
    ensures b.view.Some? && lang in b.translations ==>
      r.translations[lang] == b.translations[lang] + incoming[lang]
    ensures b.view.Some? && lang !in b.translations ==>
      lang in r.translations && r.translations[lang] == "undefined" + incoming[lang]
    ensures r == b.(translations := r.translations, view := r.view)
  {
    if b.view.None? then b
    else
      var own := if lang in b.translations then b.translations[lang] else "undefined";
      b.(translations := b.translations[lang := own + incoming[lang]],
         view := Some(AppendFragment(b.view.value, incoming[lang])))
  }

  /**
   * `merge(t)` with a missing own slot read as empty text: the incoming text
   * of `lang` is appended to this block's text of `lang` and to its
   * container; other languages are untouched. Before `render()` nothing
   * happens.
   */
  function Merge(b: Block, lang: Language, incoming: Translations): (r: Block)
    requires b.view.Some? ==> lang in incoming
    ensures b.view.None? ==> r == b
    ensures b.view.Some? ==>
      && r.translations.Keys == b.translations.Keys + {lang}
      && r.translations[lang] == TextOrEmpty(Slot(b.translations, lang)) + incoming[lang]
      && (forall k :: k in b.translations && k != lang ==> r.translations[k] == b.translations[k])
      && r.view == Some(AppendFragment(b.view.value, incoming[lang]))
    ensures r.repaintPending == b.repaintPending
    ensures r == b.(view := r.view, translations := r.translations, repaintPending := r.repaintPending)
  {
    if b.view.None? then b
    else
      var own := TextOrEmpty(Slot(b.translations, lang));
      b.(translations := b.translations[lang := own + incoming[lang]],
         view := Some(AppendFragment(b.view.value, incoming[lang])))
  }

  /** The correction only changes the case of a missing own slot: otherwise both merges agree. */
  lemma MergeAgreesWhenSlotPresent(b: Block, lang: Language, incoming: Translations)
    requires b.view.Some? ==> lang in incoming
    requires lang in b.translations
    ensures Merge(b, lang, incoming) == MergeAsWritten(b, lang, incoming)
  {
  }

  /**
   * A rendered block whose only slot is "en" (one built while the language
   * was "en"), merged while the language is "fr", stores "undefinedSalut" as
   * its French text; the corrected merge stores "Salut".
   */
  lemma MergeAfterSwitchStoresUndefined()
    ensures var b := Block(map["en" := "Hi"], "", false, false, Some("Hi"), false);
      && "fr" !in b.translations
      && MergeAsWritten(b, "fr", map["fr" := "Salut"]).translations["fr"] == "undefinedSalut"
      && Merge(b, "fr", map["fr" := "Salut"]).translations["fr"] == "Salut"
  {
    var b := Block(map["en" := "Hi"], "", false, false, Some("Hi"), false);
    assert "fr" != "en";
    assert "undefined" + "Salut" == "undefinedSalut";
  }

  /**
   * `validate(t)`: rejected exactly when the text of `lang` is blank and
   * blank paragraphs are not preserved (a missing slot would throw on `trim`).
   */
  function Validate(b: Block, lang: Language, saved: Translations): (ok: bool)
    requires lang in saved
    ensures !ok <==> Text.IsBlank(saved[lang]) && !b.preserveBlank
  {
    !(Text.Trim(saved[lang]) == "" && !b.preserveBlank)
  }

  /**
   * `save(container)`: the container's HTML becomes the text of `lang`, and
   * the whole map is returned as the saved data.
   */
  function Save(b: Block, lang: Language, containerHtml: string): (r: (Block, Translations))
    ensures r.1 == r.0.translations
    ensures r.1.Keys == b.translations.Keys + {lang} && r.1[lang] == containerHtml
    ensures forall k :: k in b.translations && k != lang ==> r.1[k] == b.translations[k]
    ensures r.0 == b.(translations := r.1)
  {
    var saved := b.translations[lang := containerHtml];
    (b.(translations := saved), saved)
  }

  /**
   * `onPaste(event)`: the pasted HTML replaces the text of `lang` at once; the
   * container is repainted on the next animation frame.
   */
  function OnPaste(b: Block, lang: Language, pasted: string): (r: Block)
    ensures r.translations.Keys == b.translations.Keys + {lang} && r.translations[lang] == pasted
    ensures forall k :: k in b.translations && k != lang ==> r.translations[k] == b.translations[k]
    ensures r.repaintPending && r.view == b.view
    ensures r == b.(view := r.view, translations := r.translations, repaintPending := r.repaintPending)
  {
    b.(translations := b.translations[lang := pasted], repaintPending := true)
  }

  /**
   * The repaint callback, run for the language current at that frame: a
   * rendered container gets the text of `lang`, or is emptied when there is none.
   */
  function Repaint(b: Block, lang: Language): (r: Block)
    ensures b.view.Some? ==> r.view == Some(TextOrEmpty(Slot(b.translations, lang)))
    ensures b.view.None? ==> r.view == None
    ensures r == b.(view := r.view)
  {
    if b.view.Some? then b.(view := Some(TextOrEmpty(Slot(b.translations, lang)))) else b
  }

  /** The animation frame: runs the queued repaint, if any. */
  function FlushFrame(b: Block, lang: Language): (r: Block)
    ensures !r.repaintPending && r.translations == b.translations
    ensures b.repaintPending && b.view.Some? ==> r.view == Some(TextOrEmpty(Slot(b.translations, lang)))
    ensures !(b.repaintPending && b.view.Some?) ==> r.view == b.view
    ensures r == b.(view := r.view, translations := r.translations, repaintPending := r.repaintPending)
  {
    (if b.repaintPending then Repaint(b, lang) else b).(repaintPending := false)
  }

  /** `conversionConfig.export`: the text of `lang`, or `undefined` when there is none. */
  function Export(saved: Translations, lang: Language): (r: Option<string>)
    ensures lang in saved ==> r == Some(saved[lang])
    ensures lang !in saved ==> r == None
  {
    Slot(saved, lang)
  }

  /**
   * `conversionConfig.import`: a string is taken as it is, else a non-empty
   * `text`, else the text of `lang` in `translations`; otherwise `undefined`.
   * Reading `.text` of `undefined` or `null` throws.
   */
  function Import(d: SavedData, lang: Language): (r: Option<string>)
    requires !d.Nullish?
    ensures d.Raw? ==> r == Some(d.s)
    ensures d.Record? && d.text.Some? && d.text.value != "" ==> r == d.text
    ensures d.Record? && (d.text.None? || d.text == Some("")) ==>
      r == (if d.translations.Some? then Export(d.translations.value, lang) else None)
    ensures d.Primitive? ==> r == None
  {
    match d
    case Raw(s) => Some(s)
    case Record(text, translations) =>
      if text.Some? && text.value != "" then text
      else if translations.Some? then Export(translations.value, lang)
      else None
    case _ => None
  }

  /** Normalizing a map that is already normalized returns it unchanged. */
  lemma NormalizeIdempotent(d: SavedData, lang: Language)
    requires !d.Nullish?
    ensures Normalize(Record(None, Some(Normalize(d, lang))), lang) == Normalize(d, lang)
  {
  }

  /**
   * The constructor's truthiness test only guards against `undefined` and
   * `null`: for every other input it agrees with `normalizeData`, the empty
   * string, `0` and `false` included.
   */
  lemma ConstructAgreesWithNormalize(d: SavedData, config: Config, readOnly: bool, lang: Language)
    requires !d.Nullish?
    ensures Construct(d, config, readOnly, lang).translations == Normalize(d, lang)
  {
  }

  /**
   * Round trip: the saved map, normalized again in the same language, is the
   * same map, so a block reconstructed from it saves the same data again.
   */
  lemma SaveNormalizeRoundTrip(b: Block, lang: Language, html: string, config: Config)
    ensures var saved := Save(b, lang, html).1;
      && Normalize(Record(None, Some(saved)), lang) == saved
      && Save(Construct(Record(None, Some(saved)), config, b.readOnly, lang), lang, html).1 == saved
  {
    var saved := Save(b, lang, html).1;
    assert saved[lang := html] == saved;
  }

  /**
   * Conversion round trip: a paragraph created from an imported string
   * exports that string back, and importing saved data reads the same slot
   * the export reads.
   */
  lemma ConversionRoundTrip(s: string, saved: Translations, config: Config, readOnly: bool, lang: Language)
    ensures Import(Raw(s), lang) == Some(s)
    ensures Export(Construct(Raw(s), config, readOnly, lang).translations, lang) == Some(s)
    ensures Import(Record(None, Some(saved)), lang) == Export(saved, lang)
  {
  }

  /** After a paste and the next frame in the same language, a rendered block shows the pasted HTML. */
  lemma PasteThenFlushShowsPasted(b: Block, lang: Language, pasted: string)
    requires b.view.Some?
    ensures FlushFrame(OnPaste(b, lang, pasted), lang).view == Some(pasted)
  {
  }
}
