/**
 * What both revisions of the paragraph block share: the tool configuration
 * with its defaults, and the rendered container abstracted to its HTML.
 *
 * The container is `None` until `render()` has created it (the source's
 * `_element === null`) and `Some(html)` afterwards, `html` being its
 * `innerHTML`. Values the DOM computes from the container (its
 * `textContent`, a pasted element's `innerHTML`) are passed in as strings.
 */
module BlockView {
  import opened Wrappers
  import Text

  /** A language code, the key of a translation map. */
  type Language = string

  type View = Option<string>

  /** The tool configuration; a field the host omitted is `None`. */
  datatype Config = Config(placeholder: Option<string>, preserveBlank: Option<bool>)

  /** `DEFAULT_PLACEHOLDER`. */
  const DefaultPlaceholder: string := ""

  /**
   * `config.placeholder ? config.placeholder : DEFAULT_PLACEHOLDER`: the
   * configured placeholder whenever one is given (an empty one is falsy and
   * falls back to the default, which is the same empty string).
   */
  function PlaceholderOf(config: Config): (r: string)
    ensures config.placeholder.Some? ==> r == config.placeholder.value
    ensures config.placeholder.None? ==> r == DefaultPlaceholder
  {
    match config.placeholder
    case Some(p) => if p != "" then p else DefaultPlaceholder
    case None => DefaultPlaceholder
  }

  /** `config.preserveBlank ?? false`: blank paragraphs are dropped unless the host opts in. */
  function PreserveBlankOf(config: Config): (r: bool)
    ensures r <==> config.preserveBlank == Some(true)
  {
    config.preserveBlank.GetOr(false)
  }

  /**
   * The key-up handler: after Backspace or Delete has emptied the text of a
   * rendered container, its stray markup (a `<br>` some browsers insert) is
   * cleared. Any other key, or a block not yet rendered, leaves the view alone.
   */
  function OnKeyUp(view: View, code: string, textContent: string): (r: View)
    ensures r != view <==>
      && view.Some? && view.value != ""
      && (code == "Backspace" || code == "Delete")
      && textContent == ""
    ensures r != view ==> r == Some("")
  {
    if code != "Backspace" && code != "Delete" then view
    else if view.None? then view
    else if textContent == "" then Some("")
    else view
  }

  /**
   * The container after the fragment built from `html` (which is trimmed
   * before parsing) has been appended and text nodes coalesced.
   */
  function AppendFragment(html: string, fragment: string): (r: string)
    ensures |html| <= |r| <= |html| + |fragment|
    ensures r[..|html|] == html
    ensures r[|html|..] == Text.Trim(fragment)
  {
    html + Text.Trim(fragment)
  }

  /** What a repaint writes into the container: the slot's text, or `""` when there is none. */
  function TextOrEmpty(slot: Option<string>): (r: string)
    ensures slot.Some? ==> r == slot.value
    ensures slot.None? ==> r == ""
  {
    slot.GetOr("")
  }
}
