/**
 * The configuration constants the core consumes (config.py), the closed
 * vocabulary of gesture labels and reader actions, and the gesture -> action
 * table together with the action names the reader window dispatches on.
 */
module Config {
  import opened Wrappers

  // Font size (config.py:13-16)
  const DEFAULT_FONT_SIZE := 18
  const MIN_FONT_SIZE := 12
  const MAX_FONT_SIZE := 48
  const FONT_SIZE_STEP := 2

  // Line spacing, counted in quarters of a line: 1.5, 1.0, 3.0 and 0.25
  // (config.py:19-22) are all exact binary fractions.
  const DEFAULT_SPACING_QUARTERS := 6
  const MIN_SPACING_QUARTERS := 4
  const MAX_SPACING_QUARTERS := 12
  const SPACING_STEP_QUARTERS := 1

  // Speech rate in words per minute (config.py:67-69)
  const TTS_DEFAULT_RATE := 150
  const TTS_MIN_RATE := 80
  const TTS_MAX_RATE := 250

  // Seconds between two dispatched gestures (config.py:73)
  const GESTURE_COOLDOWN: real := 1.0

  /** The labels the classifier can produce. */
  datatype Gesture = ThumbsUp | ThumbsDown | OpenPalm | Fist | PointUp | Peace

  /** The actions the reader window knows how to run. */
  datatype Action = IncreaseFont | DecreaseFont | ToggleTts | StopTts | NextPage | PreviousPage

  function GestureName(g: Gesture): string
  {
    match g
    case ThumbsUp => "thumbs_up"
    case ThumbsDown => "thumbs_down"
    case OpenPalm => "open_palm"
    case Fist => "fist"
    case PointUp => "point_up"
    case Peace => "peace"
  }

  function ActionName(a: Action): string
  {
    match a
    case IncreaseFont => "increase_font"
    case DecreaseFont => "decrease_font"
    case ToggleTts => "toggle_tts"
    case StopTts => "stop_tts"
    case NextPage => "next_page"
    case PreviousPage => "previous_page"
  }

  /** The gesture -> action table (config.py:77-83). */
  function ActionFor(g: Gesture): Action
  {
    match g
    case ThumbsUp => IncreaseFont
    case ThumbsDown => DecreaseFont
    case OpenPalm => ToggleTts
    case Fist => StopTts
    case PointUp => NextPage
    case Peace => PreviousPage
  }

  /** Looks an action name up in the reader's table of known actions; unknown names give None. */
  function ParseAction(s: string): (r: Option<Action>)
    ensures r.Some? ==> ActionName(r.value) == s
  {
    if s == "increase_font" then Some(IncreaseFont)
    else if s == "decrease_font" then Some(DecreaseFont)
    else if s == "next_page" then Some(NextPage)
    else if s == "previous_page" then Some(PreviousPage)
    else if s == "toggle_tts" then Some(ToggleTts)
    else if s == "stop_tts" then Some(StopTts)
    else None
  }

  /** Every action name parses back to its action: the two tables agree. */
  lemma ParseActionName(a: Action)
    ensures ParseAction(ActionName(a)) == Some(a)
  {
  }

  /** Distinct gestures have distinct names, so a label is identified by its name. */
  lemma GestureNameInjective(g: Gesture, h: Gesture)
    ensures GestureName(g) == GestureName(h) ==> g == h
  {
  }

  /**
   * Each reader action is reached from exactly one gesture: the table is a
   * bijection between the six gestures and the six actions.
   */
  lemma ActionForBijective(a: Action)
    ensures exists g :: ActionFor(g) == a
    ensures forall g, h :: ActionFor(g) == a && ActionFor(h) == a ==> g == h
  {
    var g := match a
      case IncreaseFont => ThumbsUp
      case DecreaseFont => ThumbsDown
      case ToggleTts => OpenPalm
      case StopTts => Fist
      case NextPage => PointUp
      case PreviousPage => Peace;
    assert ActionFor(g) == a;
  }
}
