/**
 * The reader window's state logic (gui.py:17-61, 365-532, 691-712) with the
 * widgets taken away: pagination of the loaded text, font size and line
 * spacing within their bounds, page navigation, the play/pause controls and
 * the table that turns a gesture's action name into one of these operations.
 */
module Reader {
  import opened Wrappers
  import opened Config
  import opened Text
  import opened Speech

  const CHARS_PER_PAGE := 2000
  const EMPTY_TEXT_PAGE := "No content to display."

  // ---------------------------------------------------------------------
  // Pagination, specified

  /** The text the page builder accumulates for paragraphs lo up to hi: each followed by a blank line. */
  function Group(paras: seq<string>, lo: nat, hi: nat): string
    requires lo <= hi <= |paras|
    decreases hi
  {
    if hi == lo then "" else Group(paras, lo, hi - 1) + paras[hi - 1] + SEPARATOR
  }

  /** The page made of paragraphs lo up to hi. */
  ghost function Page(paras: seq<string>, lo: nat, hi: nat): string
    requires lo <= hi <= |paras|
  {
    Strip(Group(paras, lo, hi))
  }

  /** Paragraph j still fits on the page that began with paragraph lo. */
  ghost predicate FitsAt(paras: seq<string>, lo: nat, j: nat, limit: nat)
    requires lo <= j < |paras|
  {
    |Group(paras, lo, j)| + |paras[j]| < limit
  }

  /** Every paragraph after the first of lo up to hi fitted when it was added. */
  ghost predicate Fits(paras: seq<string>, lo: nat, hi: nat, limit: nat)
    requires lo <= hi <= |paras|
  {
    forall j :: lo < j < hi ==> FitsAt(paras, lo, j, limit)
  }

  /** Strictly increasing page boundaries from 0 up to last. */
  ghost predicate CutsUpTo(cuts: seq<nat>, last: nat, n: nat)
  {
    && |cuts| >= 1 && cuts[0] == 0 && cuts[|cuts| - 1] == last && last <= n
    && (forall a, b :: 0 <= a < b < |cuts| ==> cuts[a] < cuts[b])
  }

  /**
   * cuts are the page boundaries of the greedy pagination of paras: page i
   * holds the paragraphs cuts[i] up to cuts[i+1]; a paragraph joins the page
   * being built exactly when it fits under limit, and otherwise starts the
   * next one.
   */
  ghost predicate GreedyCuts(paras: seq<string>, limit: nat, cuts: seq<nat>)
  {
    && CutsUpTo(cuts, |paras|, |paras|) && |cuts| >= 2
    && (forall i :: 0 <= i < |cuts| - 1 ==> Fits(paras, cuts[i], cuts[i + 1], limit))
    && (forall i :: 0 <= i < |cuts| - 2 ==> !FitsAt(paras, cuts[i], cuts[i + 1], limit))
  }

  /** pages are the stripped groups between the boundaries, the last one dropped when it is blank. */
  ghost predicate PagesOf(paras: seq<string>, cuts: seq<nat>, pages: seq<string>)
    requires CutsUpTo(cuts, |paras|, |paras|) && |cuts| >= 2
  {
    && |pages| == (if Page(paras, cuts[|cuts| - 2], |paras|) == "" then |cuts| - 2 else |cuts| - 1)
    && (forall i :: 0 <= i < |pages| ==> pages[i] == Page(paras, cuts[i], cuts[i + 1]))
  }

  /** pages is the greedy pagination of paras, with page boundaries cuts. */
  ghost predicate Paginated(paras: seq<string>, limit: nat, cuts: seq<nat>, pages: seq<string>)
  {
    GreedyCuts(paras, limit, cuts) && PagesOf(paras, cuts, pages)
  }

  lemma GroupAppend(paras: seq<string>, lo: nat, hi: nat, limit: nat)
    requires lo <= hi < |paras| && Fits(paras, lo, hi, limit)
    ensures Group(paras, lo, hi + 1) == Group(paras, lo, hi) + paras[hi] + SEPARATOR
    ensures lo < hi ==> Group(paras, lo, hi) != ""
    ensures lo < hi && FitsAt(paras, lo, hi, limit) ==> Fits(paras, lo, hi + 1, limit)
    ensures lo == hi ==> Group(paras, lo, hi + 1) == paras[hi] + SEPARATOR && Fits(paras, lo, hi + 1, limit)
  {
  }

  /** A group starts with the first character of its first paragraph. */
  lemma {:induction false} GroupStart(paras: seq<string>, hi: nat)
    requires 0 < hi <= |paras| && paras[0] != []
    ensures Group(paras, 0, hi) != [] && Group(paras, 0, hi)[0] == paras[0][0]
    decreases hi
  {
    if hi > 1 {
      GroupStart(paras, hi - 1);
    }
  }

  /** Each text stripped. */
  function StripAll(ts: seq<string>): (r: seq<string>)
    ensures |r| == |ts|
  {
    if ts == [] then [] else StripAll(ts[..|ts| - 1]) + [Strip(ts[|ts| - 1])]
  }

  lemma {:induction false} StripAllIndex(ts: seq<string>)
    ensures forall i :: 0 <= i < |ts| ==> StripAll(ts)[i] == Strip(ts[i])
  {
    if ts != [] {
      StripAllIndex(ts[..|ts| - 1]);
    }
  }

  /** The groups closed so far while building, with start the first paragraph of the open one. */
  ghost predicate Building(paras: seq<string>, limit: nat, cuts: seq<nat>, groups: seq<string>, start: nat)
  {
    && CutsUpTo(cuts, start, |paras|) && start < |paras|
    && (forall i :: 0 <= i < |cuts| - 1 ==> Fits(paras, cuts[i], cuts[i + 1], limit))
    && (forall i :: 0 <= i < |cuts| - 1 ==> !FitsAt(paras, cuts[i], cuts[i + 1], limit))
    && |groups| == |cuts| - 1
    && (forall i :: 0 <= i < |groups| ==> groups[i] == Group(paras, cuts[i], cuts[i + 1]))
  }

  lemma ExtendCuts(cuts: seq<nat>, start: nat, j: nat, n: nat)
    requires CutsUpTo(cuts, start, n) && start < j <= n
    ensures CutsUpTo(cuts + [j], j, n)
    ensures forall i :: 0 <= i < |cuts| ==> (cuts + [j])[i] == cuts[i]
  {
    var cuts' := cuts + [j];
    forall a, b | 0 <= a < b < |cuts'|
      ensures cuts'[a] < cuts'[b]
    {
      if b < |cuts| {
        assert cuts'[a] == cuts[a] && cuts'[b] == cuts[b];
      } else {
        assert cuts'[a] == cuts[a] <= start;
      }
    }
  }

  /** Closing the open group at j, where paragraph j did not fit, keeps the building invariant. */
  lemma BuildingClose(paras: seq<string>, limit: nat, cuts: seq<nat>, groups: seq<string>, start: nat, j: nat)
    requires Building(paras, limit, cuts, groups, start)
    requires start < j < |paras| && Fits(paras, start, j, limit) && !FitsAt(paras, start, j, limit)
    ensures Building(paras, limit, cuts + [j], groups + [Group(paras, start, j)], j)
  {
    ExtendCuts(cuts, start, j, |paras|);
  }

  /** Closing the last group at the end of the paragraphs completes the greedy boundaries. */
  lemma BuildingFinishCuts(paras: seq<string>, limit: nat, cuts: seq<nat>, groups: seq<string>, start: nat)
    requires Building(paras, limit, cuts, groups, start)
    requires Fits(paras, start, |paras|, limit)
    ensures GreedyCuts(paras, limit, cuts + [|paras|])
  {
    ExtendCuts(cuts, start, |paras|, |paras|);
  }

  /** Stripping the closed groups and the last one, g, gives the pages of those boundaries. */
  lemma BuildingFinishPages(paras: seq<string>, limit: nat, cuts: seq<nat>, groups: seq<string>, start: nat, g: string)
    requires Building(paras, limit, cuts, groups, start)
    requires g == Group(paras, start, |paras|)
    requires CutsUpTo(cuts + [|paras|], |paras|, |paras|)
    ensures PagesOf(paras, cuts + [|paras|],
                    if Strip(g) == "" then StripAll(groups) else StripAll(groups) + [Strip(g)])
  {
    ExtendCuts(cuts, start, |paras|, |paras|);
    StripAllIndex(groups);
  }

  /**
   * The page-building loop of gui.py:377-383 and the final page of
   * gui.py:385-386, over the paragraphs of the stripped text.
   */
  method BuildPages(paras: seq<string>, limit: nat) returns (pages: seq<string>)
    requires paras != []
    ensures exists cuts :: Paginated(paras, limit, cuts, pages)
  {
    pages := [];
    var current := "";
    ghost var cuts: seq<nat> := [0];
    ghost var groups: seq<string> := [];
    ghost var start := 0;
    var j := 0;
    while j < |paras|
      invariant 0 <= start <= j <= |paras|
      invariant j > 0 ==> start < j
      invariant Building(paras, limit, cuts, groups, start)
      invariant pages == StripAll(groups)
      invariant current == Group(paras, start, j)
      invariant Fits(paras, start, j, limit)
    {
      var para := paras[j];
      GroupAppend(paras, start, j, limit);
      if |current| + |para| < limit {
        current := current + para + SEPARATOR;
      } else {
        if current != "" {
          BuildingClose(paras, limit, cuts, groups, start, j);
          assert (groups + [current])[..|groups|] == groups;
          pages := pages + [Strip(current)];
          groups := groups + [current];
          cuts := cuts + [j];
          start := j;
          GroupAppend(paras, start, j, limit);
        }
        current := para + SEPARATOR;
      }
      j := j + 1;
    }
    BuildingFinishCuts(paras, limit, cuts, groups, start);
    BuildingFinishPages(paras, limit, cuts, groups, start, current);
    if Strip(current) != "" {
      pages := pages + [Strip(current)];
    }
    assert Paginated(paras, limit, cuts + [|paras|], pages);
  }

  /** When the first paragraph starts with a visible character there is at least one page. */
  lemma PaginatedNonEmpty(paras: seq<string>, limit: nat, cuts: seq<nat>, pages: seq<string>)
    requires Paginated(paras, limit, cuts, pages)
    requires paras[0] != [] && !IsSpace(paras[0][0])
    ensures |pages| > 0
  {
    if |cuts| == 2 {
      GroupStart(paras, |paras|);
      StripKeepsVisibleStart(Group(paras, 0, |paras|));
    }
  }

  /** Every page is whitespace-stripped: stripping it again changes nothing. */
  lemma PagesAreStripped(paras: seq<string>, limit: nat, cuts: seq<nat>, pages: seq<string>, i: nat)
    requires Paginated(paras, limit, cuts, pages) && i < |pages|
    ensures Strip(pages[i]) == pages[i]
  {
    StripIdempotent(Group(paras, cuts[i], cuts[i + 1]));
  }

  /** A page that holds two or more paragraphs is shorter than the page limit. */
  lemma ShortMultiParagraphPages(paras: seq<string>, limit: nat, cuts: seq<nat>, pages: seq<string>, i: nat)
    requires Paginated(paras, limit, cuts, pages) && i < |pages|
    requires cuts[i + 1] - cuts[i] >= 2
    ensures |pages[i]| < limit
  {
    var lo, hi := cuts[i], cuts[i + 1];
    var before := Group(paras, lo, hi - 1) + paras[hi - 1];
    assert pages[i] == Strip(Group(paras, lo, hi));
    assert Group(paras, lo, hi) == before + SEPARATOR;
    assert Fits(paras, lo, hi, limit);
    assert FitsAt(paras, lo, hi - 1, limit);
    StripOfTerminated(before);
  }

  /** The page that paragraph j falls on. */
  lemma GroupOf(cuts: seq<nat>, n: nat, j: nat) returns (i: nat)
    requires CutsUpTo(cuts, n, n) && j < n
    ensures i < |cuts| - 1 && cuts[i] <= j < cuts[i + 1]
    ensures forall k :: 0 <= k < |cuts| - 1 && cuts[k] <= j < cuts[k + 1] ==> k == i
  {
    i := 0;
    while cuts[i + 1] <= j
      invariant i < |cuts| - 1 && cuts[i] <= j
      decreases |cuts| - i
    {
      i := i + 1;
    }
  }

  /** A paragraph at least as long as the limit starts a page of its own and is alone on it. */
  lemma LongParagraphStandsAlone(paras: seq<string>, limit: nat, cuts: seq<nat>, j: nat)
    requires GreedyCuts(paras, limit, cuts) && j < |paras| && |paras[j]| >= limit
    ensures exists i :: 0 <= i < |cuts| - 1 && cuts[i] == j && cuts[i + 1] == j + 1
  {
    var i := GroupOf(cuts, |paras|, j);
    var lo, hi := cuts[i], cuts[i + 1];
    assert Fits(paras, lo, hi, limit);
    assert lo < j ==> FitsAt(paras, lo, j, limit);
    assert lo == j;
    assert j + 1 < hi ==> FitsAt(paras, j, j + 1, limit);
  }

  /** Two greedy boundary lists that agree on where page i starts agree on where it ends. */
  lemma NextCutDetermined(paras: seq<string>, limit: nat, c1: seq<nat>, c2: seq<nat>, i: nat)
    requires GreedyCuts(paras, limit, c1) && GreedyCuts(paras, limit, c2)
    requires i + 1 < |c1| && i + 1 < |c2| && c1[i] == c2[i]
    ensures c1[i + 1] == c2[i + 1]
  {
    var lo := c1[i];
    assert Fits(paras, lo, c1[i + 1], limit) && Fits(paras, lo, c2[i + 1], limit);
  }

  /** The greedy rule determines the page boundaries. */
  lemma GreedyCutsUnique(paras: seq<string>, limit: nat, c1: seq<nat>, c2: seq<nat>)
    requires GreedyCuts(paras, limit, c1) && GreedyCuts(paras, limit, c2)
    ensures c1 == c2
  {
    var i := 0;
    while i + 1 < |c1| && i + 1 < |c2|
      invariant 0 <= i < |c1| && i < |c2|
      invariant forall k :: 0 <= k <= i ==> c1[k] == c2[k]
      decreases |c1| - i
    {
      NextCutDetermined(paras, limit, c1, c2, i);
      i := i + 1;
    }
    assert |c1| == |c2|;
  }

  /**
   * The specification determines the pagination: two greedy paginations of
   * the same paragraphs have the same boundaries and the same pages.
   */
  lemma PaginationUnique(paras: seq<string>, limit: nat, c1: seq<nat>, p1: seq<string>, c2: seq<nat>, p2: seq<string>)
    requires Paginated(paras, limit, c1, p1) && Paginated(paras, limit, c2, p2)
    ensures c1 == c2 && p1 == p2
  {
    GreedyCutsUnique(paras, limit, c1, c2);
    assert |p1| == |p2|;
    forall k | 0 <= k < |p1|
      ensures p1[k] == p2[k]
    {
      assert p1[k] == Page(paras, c1[k], c1[k + 1]);
    }
  }

  // ---------------------------------------------------------------------
  // The reader window

  class ReaderWindow {
    var fullText: string
    var pages: seq<string>
    var currentPage: int
    var fontSize: int
    var spacingQuarters: int
    var gesturesEnabled: bool
    const charsPerPage: nat
    const tts: SpeechEngine

    ghost predicate Valid()
      reads this
    {
      && 0 <= currentPage < |pages|
      && MIN_FONT_SIZE <= fontSize <= MAX_FONT_SIZE && fontSize % FONT_SIZE_STEP == 0
      && MIN_SPACING_QUARTERS <= spacingQuarters <= MAX_SPACING_QUARTERS
    }

    /** The line spacing factor the text widget is configured with. */
    function LineSpacing(): (r: real)
      reads this
      requires Valid()
      ensures 1.0 <= r <= 3.0
    {
      spacingQuarters as real / 4.0
    }

    /** A window showing text, at the default size and spacing, speech stopped, gestures off. */
    constructor (text: string)
      ensures Valid() && fresh(tts)
      ensures fullText == text && currentPage == 0 && charsPerPage == CHARS_PER_PAGE
      ensures fontSize == DEFAULT_FONT_SIZE && spacingQuarters == DEFAULT_SPACING_QUARTERS
      ensures !gesturesEnabled && tts.GetState() == Stopped
      ensures !tts.shouldStop && !tts.isPaused
      ensures tts.currentRate == TTS_DEFAULT_RATE && tts.currentVoice == DEFAULT_VOICE
      ensures |pages| > 0
      ensures IsBlank(text) ==> pages == [EMPTY_TEXT_PAGE]
      ensures !IsBlank(text) ==> exists cuts :: Paginated(Split(Strip(text)), CHARS_PER_PAGE, cuts, pages)
    {
      fullText := text;
      pages := [];
      currentPage := 0;
      fontSize := DEFAULT_FONT_SIZE;
      spacingQuarters := DEFAULT_SPACING_QUARTERS;
      gesturesEnabled := false;
      charsPerPage := CHARS_PER_PAGE;
      tts := new SpeechEngine();
      new;
      Paginate();
    }

    /**
     * Splits fullText into pages and returns to the first page. A blank text
     * gives the single placeholder page.
     */
    method Paginate()
      modifies this`pages, this`currentPage
      ensures currentPage == 0 && |pages| > 0
      ensures IsBlank(fullText) ==> pages == [EMPTY_TEXT_PAGE]
      ensures !IsBlank(fullText) ==> exists cuts :: Paginated(Split(Strip(fullText)), charsPerPage, cuts, pages)
    {
      pages := [];
      var text := Strip(fullText);
      StripSpec(fullText);
      if text == "" {
        pages := [EMPTY_TEXT_PAGE];
        currentPage := 0;
        return;
      }
      var paragraphs := Split(text);
      var built := BuildPages(paragraphs, charsPerPage);
      StripIdempotent(fullText);
      SplitFirstPart(text);
      ghost var cuts :| Paginated(paragraphs, charsPerPage, cuts, built);
      PaginatedNonEmpty(paragraphs, charsPerPage, cuts, built);
      pages := if built == [] then [text] else built;
      currentPage := 0;
    }

    /**
     * _paginate_text exactly as gui.py:365-391 has it: the early return for a
     * blank text leaves current_page where it was.
     */
    method PaginateAsWritten()
      modifies this`pages, this`currentPage
      ensures |pages| > 0
      ensures IsBlank(fullText) ==> pages == [EMPTY_TEXT_PAGE] && currentPage == old(currentPage)
      ensures !IsBlank(fullText) ==> currentPage == 0
      ensures !IsBlank(fullText) ==> exists cuts :: Paginated(Split(Strip(fullText)), charsPerPage, cuts, pages)
    {
      pages := [];
      var text := Strip(fullText);
      StripSpec(fullText);
      if text == "" {
        pages := [EMPTY_TEXT_PAGE];
        return;
      }
      var paragraphs := Split(text);
      var built := BuildPages(paragraphs, charsPerPage);
      StripIdempotent(fullText);
      SplitFirstPart(text);
      ghost var cuts :| Paginated(paragraphs, charsPerPage, cuts, built);
      PaginatedNonEmpty(paragraphs, charsPerPage, cuts, built);
      pages := if built == [] then [text] else built;
      currentPage := 0;
    }

    method IncreaseFont()
      requires Valid()
      modifies this`fontSize
      ensures Valid()
      ensures fontSize == if old(fontSize) < MAX_FONT_SIZE then old(fontSize) + FONT_SIZE_STEP else old(fontSize)
    {
      if fontSize < MAX_FONT_SIZE {
        fontSize := fontSize + FONT_SIZE_STEP;
      }
    }

    method DecreaseFont()
      requires Valid()
      modifies this`fontSize
      ensures Valid()
      ensures fontSize == if old(fontSize) > MIN_FONT_SIZE then old(fontSize) - FONT_SIZE_STEP else old(fontSize)
    {
      if fontSize > MIN_FONT_SIZE {
        fontSize := fontSize - FONT_SIZE_STEP;
      }
    }

    method IncreaseSpacing()
      requires Valid()
      modifies this`spacingQuarters
      ensures Valid()
      ensures spacingQuarters == if old(spacingQuarters) < MAX_SPACING_QUARTERS
                                 then old(spacingQuarters) + SPACING_STEP_QUARTERS else old(spacingQuarters)
    {
      if spacingQuarters < MAX_SPACING_QUARTERS {
        spacingQuarters := spacingQuarters + SPACING_STEP_QUARTERS;
      }
    }

    method DecreaseSpacing()
      requires Valid()
      modifies this`spacingQuarters
      ensures Valid()
      ensures spacingQuarters == if old(spacingQuarters) > MIN_SPACING_QUARTERS
                                 then old(spacingQuarters) - SPACING_STEP_QUARTERS else old(spacingQuarters)
    {
      if spacingQuarters > MIN_SPACING_QUARTERS {
        spacingQuarters := spacingQuarters - SPACING_STEP_QUARTERS;
      }
    }

    /** Stops speech and shows the next page; on the last page nothing happens. */
    method NextPage()
      requires Valid()
      modifies this`currentPage, tts`shouldStop, tts`isPaused, tts`isSpeaking
      ensures Valid()
      ensures old(currentPage) < |pages| - 1 ==> currentPage == old(currentPage) + 1 && StoppedByReader(tts)
      ensures old(currentPage) == |pages| - 1 ==> currentPage == old(currentPage) && unchanged(tts)
    {
      if currentPage < |pages| - 1 {
        TtsStop();
        currentPage := currentPage + 1;
      }
    }

    /** Stops speech and shows the previous page; on the first page nothing happens. */
    method PreviousPage()
      requires Valid()
      modifies this`currentPage, tts`shouldStop, tts`isPaused, tts`isSpeaking
      ensures Valid()
      ensures old(currentPage) > 0 ==> currentPage == old(currentPage) - 1 && StoppedByReader(tts)
      ensures old(currentPage) == 0 ==> currentPage == 0 && unchanged(tts)
    {
      if currentPage > 0 {
        TtsStop();
        currentPage := currentPage - 1;
      }
    }

    /** Reads the current page aloud from its beginning. */
    method TtsPlay()
      requires Valid()
      modifies tts`shouldStop, tts`isPaused, tts`isSpeaking
      ensures IsBlank(pages[currentPage]) ==> StoppedByReader(tts)
      ensures !IsBlank(pages[currentPage]) ==> tts.GetState() == Playing && !tts.shouldStop
    {
      if |pages| > 0 {
        var text := pages[currentPage];
        tts.Speak(text, 0);
      }
    }

    /** Pauses playing speech or resumes paused speech; stopped speech stays stopped. */
    method TtsPause()
      modifies tts`isPaused
      ensures old(tts.GetState()) == Playing ==> tts.GetState() == Paused
      ensures old(tts.GetState()) == Paused ==> tts.GetState() == Playing
      ensures old(tts.GetState()) == Stopped ==> unchanged(tts)
    {
      var state := tts.GetState();
      if state == Playing {
        var _ := tts.Pause();
      } else if state == Paused {
        var _ := tts.Resume();
      }
    }

    method TtsStop()
      modifies tts`shouldStop, tts`isPaused, tts`isSpeaking
      ensures StoppedByReader(tts)
    {
      tts.Stop();
    }

    /** The play/pause control: starts reading when stopped, otherwise pauses or resumes. */
    method TtsToggle()
      requires Valid()
      modifies tts`shouldStop, tts`isPaused, tts`isSpeaking
      ensures old(tts.GetState()) == Stopped && IsBlank(pages[currentPage]) ==> StoppedByReader(tts)
      ensures old(tts.GetState()) == Stopped && !IsBlank(pages[currentPage]) ==>
                tts.GetState() == Playing && !tts.shouldStop
      ensures old(tts.GetState()) == Playing ==> tts.GetState() == Paused
      ensures old(tts.GetState()) == Paused ==> tts.GetState() == Playing
      ensures old(tts.GetState()) != Stopped ==>
                tts.shouldStop == old(tts.shouldStop) && tts.isSpeaking == old(tts.isSpeaking)
    {
      var state := tts.GetState();
      if state == Stopped {
        TtsPlay();
      } else if state == Playing {
        TtsPause();
      } else if state == Paused {
        TtsPause();
      }
    }

    /**
     * Runs the reader operation a gesture's action names (gui.py:691-712).
     * Nothing happens while gestures are disabled or for an unknown action.
     */
    method ExecuteGestureAction(gesture: Gesture, action: string)
      requires Valid()
      modifies this`fontSize, this`currentPage, tts`shouldStop, tts`isPaused, tts`isSpeaking
      ensures Valid()
      ensures Requested(old(gesturesEnabled), action).None? ==>
                (fontSize == old(fontSize) && currentPage == old(currentPage) && unchanged(tts))
      ensures Requested(old(gesturesEnabled), action) == Some(Action.IncreaseFont) ==>
                (fontSize == (if old(fontSize) < MAX_FONT_SIZE then old(fontSize) + FONT_SIZE_STEP else old(fontSize))
                 && currentPage == old(currentPage) && unchanged(tts))
      ensures Requested(old(gesturesEnabled), action) == Some(Action.DecreaseFont) ==>
                (fontSize == (if old(fontSize) > MIN_FONT_SIZE then old(fontSize) - FONT_SIZE_STEP else old(fontSize))
                 && currentPage == old(currentPage) && unchanged(tts))
      ensures Requested(old(gesturesEnabled), action) == Some(Action.NextPage) ==>
                (fontSize == old(fontSize)
                 && currentPage == (if old(currentPage) < |pages| - 1 then old(currentPage) + 1 else old(currentPage))
                 && (old(currentPage) < |pages| - 1 ==> StoppedByReader(tts))
                 && (old(currentPage) == |pages| - 1 ==> unchanged(tts)))
      ensures Requested(old(gesturesEnabled), action) == Some(Action.PreviousPage) ==>
                (fontSize == old(fontSize)
                 && currentPage == (if old(currentPage) > 0 then old(currentPage) - 1 else old(currentPage))
                 && (old(currentPage) > 0 ==> StoppedByReader(tts))
                 && (old(currentPage) == 0 ==> unchanged(tts)))
      ensures Requested(old(gesturesEnabled), action) == Some(Action.ToggleTts) ==>
                (fontSize == old(fontSize) && currentPage == old(currentPage)
                 && (old(tts.GetState()) == Stopped && IsBlank(pages[currentPage]) ==> StoppedByReader(tts))
                 && (old(tts.GetState()) == Stopped && !IsBlank(pages[currentPage]) ==>
                       tts.GetState() == Playing && !tts.shouldStop)
                 && (old(tts.GetState()) == Playing ==> tts.GetState() == Paused)
                 && (old(tts.GetState()) == Paused ==> tts.GetState() == Playing)
                 && (old(tts.GetState()) != Stopped ==>
                       tts.shouldStop == old(tts.shouldStop) && tts.isSpeaking == old(tts.isSpeaking)))
      ensures Requested(old(gesturesEnabled), action) == Some(Action.StopTts) ==>
                (fontSize == old(fontSize) && currentPage == old(currentPage) && StoppedByReader(tts))
    {
      if !gesturesEnabled {
        return;
      }
      var parsed := ParseAction(action);
      if parsed.Some? {
        match parsed.value
        case IncreaseFont => IncreaseFont();
        case DecreaseFont => DecreaseFont();
        case NextPage => NextPage();
        case PreviousPage => PreviousPage();
        case ToggleTts => TtsToggle();
        case StopTts => TtsStop();
      }
    }
  }

  /** The reader operation a gesture's action name asks for, if gestures are enabled and the name is known. */
  function Requested(gesturesEnabled: bool, action: string): (r: Option<Action>)
    ensures r.Some? ==> gesturesEnabled && ActionName(r.value) == action
  {
    if gesturesEnabled then ParseAction(action) else None
  }

  /** The speech engine was stopped from the reader: stop flag set, nothing playing. */
  ghost predicate StoppedByReader(e: SpeechEngine)
    reads e
  {
    e.shouldStop && !e.isPaused && !e.isSpeaking
  }

  /**
   * The finding about the blank-text path of the code as written: a reader on
   * its second page or later that re-paginates a blank text is left with a
   * current page past its only page.
   */
  method BlankTextLeavesStalePage(r: ReaderWindow)
    requires r.Valid() && r.currentPage >= 1
    modifies r`fullText, r`pages, r`currentPage
    ensures r.pages == [EMPTY_TEXT_PAGE] && r.currentPage >= |r.pages|
  {
    r.fullText := "";
    r.PaginateAsWritten();
  }
}
