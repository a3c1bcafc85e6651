/**
 * The paragraph block of the revision in which every instance carries its
 * own active language (src/index.ts). The saved data maps each language
 * code to a `{text}` record.
 */
module InstanceParagraph {
  import opened Wrappers
  import Text
  import opened BlockView

  /** One language's paragraph: its HTML content. */
  datatype ParagraphData = ParagraphData(text: string)

  /** The `translations` record of the saved data. */
  type Translations = map<Language, ParagraphData>

  /** The `data` the host hands to the constructor. */
  datatype SavedData =
    | NoData                            // undefined or null
    | I18n(translations: Translations)  // has a `translations` field
    | Legacy(paragraph: ParagraphData)  // pre-i18n `{text}` data

  /** The injected translation service, (text, source, target) to translated text. */
  type Translator = (string, Language, Language) -> string

  datatype Block = Block(
    active: Language,
    translations: Translations,
    placeholder: string,
    preserveBlank: bool,
    readOnly: bool,
    view: View,
    repaintPending: bool)   // a requestAnimationFrame repaint is queued

  /** The text of the active language, when that slot exists. */
  function ActiveText(b: Block): Option<string>
  {
    if b.active in b.translations then Some(b.translations[b.active].text) else None
  }

  /**
   * The constructor. Data without a `translations` field is upgraded: the
   * whole object becomes the entry of the active language in an otherwise
   * empty map. I18n data is adopted as it is; no data leaves the map empty.
   */
  function Construct(data: SavedData, config: Config, readOnly: bool, active: Language): (b: Block)
    ensures b.active == active && b.readOnly == readOnly
    ensures b.placeholder == PlaceholderOf(config) && b.preserveBlank == PreserveBlankOf(config)
    ensures b.view == None && !b.repaintPending
    ensures data.NoData? ==> b.translations == map[]
    ensures data.I18n? ==> b.translations == data.translations
    ensures data.Legacy? ==>
      b.translations.Keys == {active} && b.translations[active] == data.paragraph
  {
    var translations :=
      match data
      case NoData => map[]
      case I18n(t) => t
      case Legacy(p) => map[active := p];
    Block(active, translations, PlaceholderOf(config), PreserveBlankOf(config), readOnly, None, false)
  }

  /**
   * `render()`: creates the container and fills it with the active text,
   * leaving it empty when there is no such text.
   */
  function Render(b: Block): (r: Block)
    ensures r.view == Some(TextOrEmpty(ActiveText(b)))
    ensures r.translations == b.translations && r.repaintPending == b.repaintPending
    ensures r == b.(view := r.view, translations := r.translations, repaintPending := r.repaintPending)
  {
    b.(view := Some(TextOrEmpty(ActiveText(b))))
  }

  /** The key-up listener, attached to rendered blocks that are not read-only. */
  function KeyUp(b: Block, code: string, textContent: string): (r: Block)
    ensures b.readOnly ==> r == b
    ensures b.view.None? ==> r == b
    ensures r.translations == b.translations && r.active == b.active
    ensures r.view != b.view ==>
      && r.view == Some("") && textContent == ""
      && (code == "Backspace" || code == "Delete")
    ensures !b.readOnly && b.view.Some? && (code == "Backspace" || code == "Delete") && textContent == "" ==>
      r.view == Some("")
    ensures r == b.(view := r.view)
  {
    if b.readOnly then b else b.(view := OnKeyUp(b.view, code, textContent))
  }

  /**
   * `merge(data)`: the host joins the next block into this one. The incoming
   * active text is appended to this block's active text and to its
   * container; every other language is left as it was. Before `render()`
   * the call does nothing. Both active slots must exist: reading `.text` of
   * an absent slot throws.
   */
  function Merge(b: Block, incoming: Translations): (r: Block)
    requires b.view.Some? ==> b.active in b.translations && b.active in incoming
    ensures b.view.None? ==> r == b
    ensures b.view.Some? ==>
      && r.translations.Keys == b.translations.Keys
      && r.translations[b.active].text == b.translations[b.active].text + incoming[b.active].text
      && (forall k :: k in b.translations && k != b.active ==> r.translations[k] == b.translations[k])
      && r.view == Some(AppendFragment(b.view.value, incoming[b.active].text))
    ensures r.repaintPending == b.repaintPending
    ensures r == b.(view := r.view, translations := r.translations, repaintPending := r.repaintPending)
  {
    if b.view.None? then b
    else
      var joined := b.translations[b.active].text + incoming[b.active].text;
      b.(translations := b.translations[b.active := ParagraphData(joined)],
         view := Some(AppendFragment(b.view.value, incoming[b.active].text)))
  }

  /**
   * `validate(savedData)`: the data is rejected exactly when its active text
   * is blank and blank paragraphs are not preserved.
   */
  function Validate(b: Block, saved: Translations): (ok: bool)
    requires b.active in saved
    ensures !ok <==> Text.IsBlank(saved[b.active].text) && !b.preserveBlank
  {
    !(Text.Trim(saved[b.active].text) == "" && !b.preserveBlank)
  }

  /**
   * `translate(target)`: without a translator, fails and changes nothing.
   * With one, the translator receives the active text with the active and
   * target languages, its answer becomes the target's text (the slot is
   * created if absent) and the call succeeds; no other slot changes.
   */
  function Translate(b: Block, translator: Option<Translator>, target: Language): (r: (Block, bool))
    requires translator.Some? ==> b.active in b.translations
    ensures translator.None? ==> r == (b, false)
    ensures translator.Some? ==>
      && r.1
      && r.0.translations.Keys == b.translations.Keys + {target}
      && r.0.translations[target].text
           == translator.value(b.translations[b.active].text, b.active, target)
      && (forall k :: k in b.translations && k != target ==> r.0.translations[k] == b.translations[k])
      && r.0 == b.(translations := r.0.translations)
  {
    match translator
    case None => (b, false)
    case Some(t) =>
      var translated := t(b.translations[b.active].text, b.active, target);
      (b.(translations := b.translations[target := ParagraphData(translated)]), true)
  }

  /** `save(container)`: the stored map; the container's HTML is not read back. */
  function Save(b: Block, container: string): (r: Translations)
    ensures r == b.translations
  {
    b.translations
  }

  /**
   * `onPaste(event)`: the pasted HTML replaces the active slot at once; the
   * container is repainted on the next animation frame.
   */
  function OnPaste(b: Block, pasted: string): (r: Block)
    ensures r.translations.Keys == b.translations.Keys + {b.active}
    ensures r.translations[b.active] == ParagraphData(pasted)
    ensures forall k :: k in b.translations && k != b.active ==> r.translations[k] == b.translations[k]
    ensures r.repaintPending && r.view == b.view
    ensures r == b.(view := r.view, translations := r.translations, repaintPending := r.repaintPending)
  {
    b.(translations := b.translations[b.active := ParagraphData(pasted)], repaintPending := true)
  }

  /**
   * The animation frame: a queued repaint writes the active text into a
   * rendered container (an absent slot would throw on `.text`).
   */
  function FlushFrame(b: Block): (r: Block)
    requires b.repaintPending && b.view.Some? ==> b.active in b.translations
    ensures !r.repaintPending
    ensures r.translations == b.translations && r.active == b.active
    ensures b.repaintPending && b.view.Some? ==> r.view == Some(b.translations[b.active].text)
    ensures !(b.repaintPending && b.view.Some?) ==> r.view == b.view
    ensures r == b.(view := r.view, translations := r.translations, repaintPending := r.repaintPending)
  {
    if b.repaintPending && b.view.Some? then
      b.(view := Some(b.translations[b.active].text), repaintPending := false)
    else
      b.(repaintPending := false)
  }

  /** Saving twice with no edit in between gives equal maps, whatever the containers hold. */
  lemma SaveIsStable(b: Block, container1: string, container2: string)
    ensures Save(b, container1) == Save(b, container2) == b.translations
  {
  }

  /**
   * Round trip: a block constructed from what another block saved, in the
   * same language, holds and saves the same map.
   */
  lemma SaveConstructRoundTrip(b: Block, container: string, config: Config)
    ensures Construct(I18n(Save(b, container)), config, b.readOnly, b.active).translations == b.translations
    ensures Save(Construct(I18n(Save(b, container)), config, b.readOnly, b.active), container) == Save(b, container)
  {
  }

  /**
   * Legacy `{text}` data is upgraded without loss: after a save and a
   * reload it is the active slot and the only one.
   */
  lemma LegacyUpgradeKeepsText(p: ParagraphData, config: Config, readOnly: bool, active: Language, container: string)
    ensures var saved := Save(Construct(Legacy(p), config, readOnly, active), container);
      saved == map[active := p] && Construct(I18n(saved), config, readOnly, active).translations == saved
  {
  }

  /** After a paste and the next frame, a rendered block shows exactly the pasted HTML. */
  lemma PasteThenFlushShowsPasted(b: Block, pasted: string)
    requires b.view.Some?
    ensures FlushFrame(OnPaste(b, pasted)).view == Some(pasted)
    ensures ActiveText(FlushFrame(OnPaste(b, pasted))) == Some(pasted)
  {
  }

  /**
   * Translating into another language leaves the source slot as it was, so
   * the text can be translated again with the same answer.
   */
  lemma TranslateKeepsSource(b: Block, t: Translator, target: Language)
    requires b.active in b.translations && target != b.active
    ensures var r := Translate(b, Some(t), target);
      && ActiveText(r.0) == ActiveText(b)
      && Translate(r.0, Some(t), target) == r
  {
    var r := Translate(b, Some(t), target);
    assert r.0.translations[target := r.0.translations[target]] == r.0.translations;
  }
}
