/** The dialogue box (DialogueBox) and its nested choice menu (SelectBox): paged
    text revealed a little per frame, a confirm action that advances pages and
    fires a scheduled follow-up event once, and a clamped selection index over
    parallel options/events/params arrays. Window layout and label widgets are
    not modelled; `shown` stands for the text the label currently shows. */
module Dialogue {
  import opened Wrappers
  import opened TextLayout

  /** An event key with its parameter string, handed to the event dispatcher. */
  datatype Dispatch = Dispatch(key: string, params: string)

  /** Math.round of a non-negative count of tenths, as a count of units. */
  function RoundTenths(t: nat): (r: nat)
    ensures 10 * r <= t + 5 < 10 * r + 10
  {
    (t + 5) / 10
  }

  /** Adding less than one unit moves the rounded count up by at most one. */
  lemma RoundStep(t: nat, step: nat)
    requires step < 10
    ensures RoundTenths(t) <= RoundTenths(t + step) <= RoundTenths(t) + 1
  {
  }

  /** The placeholder question a new dialogue box asks. */
  const PIAZZA_QUESTION: string := "A" + "re you sure you want to sleep at the Piazza? This will cost you 10 energy"

  lemma PiazzaQuestionDisplayable(width: int)
    requires width > 0
    ensures Displayable(PIAZZA_QUESTION, width)
  {
    assert PIAZZA_QUESTION[0] == 'A';
    StartsDisplayable(PIAZZA_QUESTION, width);
  }

  class SelectBox {
    var options: seq<string>
    var events: seq<string>
    var eventParams: seq<string>
    var choiceIndex: int
    var visible: bool

    /** The three parallel arrays are set and agree in length. */
    ghost predicate Filled()
      reads this
    {
      |options| > 0 && |events| == |options| && |eventParams| == |options|
    }

    ghost predicate Valid()
      reads this
    {
      Filled() && 0 <= choiceIndex < |options|
    }

    /** A new selection window is visible and holds no options yet. */
    constructor ()
      ensures options == [] && events == [] && eventParams == []
      ensures choiceIndex == 0 && visible
    {
      options, events, eventParams := [], [], [];
      choiceIndex := 0;
      visible := true;
    }

    /** Replaces the options, points at the first one and shows the menu. */
    method SetOptions(opts: seq<string>, evs: seq<string>, params: seq<string>)
      requires |opts| > 0 && |evs| == |opts| && |params| == |opts|
      modifies this
      ensures Valid()
      ensures options == opts && events == evs && eventParams == params
      ensures choiceIndex == 0 && visible
    {
      options := opts;
      events := evs;
      eventParams := params;
      SetChoice(0);
      Show();
    }

    /** The two-argument overload: every event gets the empty parameter string. */
    method SetOptionsNoParams(opts: seq<string>, evs: seq<string>)
      requires |opts| > 0 && |evs| == |opts|
      modifies this
      ensures Valid()
      ensures options == opts && events == evs
      ensures |eventParams| == |evs| && forall i :: 0 <= i < |evs| ==> eventParams[i] == ""
      ensures choiceIndex == 0 && visible
    {
      var params := new string[|evs|];
      for i := 0 to |evs|
        invariant forall j :: 0 <= j < i ==> params[j] == ""
      {
        params[i] := "";
      }
      SetOptions(opts, evs, params[..]);
    }

    /** Moves the pointer up one option; at the top it stays put. */
    method ChoiceUp()
      requires Valid()
      modifies this`choiceIndex
      ensures Valid()
      ensures choiceIndex == if old(choiceIndex) == 0 then 0 else old(choiceIndex) - 1
    {
      choiceIndex := choiceIndex - 1;
      if choiceIndex < 0 {
        choiceIndex := 0;
      }
    }

    /** Moves the pointer down one option; at the bottom it stays put. */
    method ChoiceDown()
      requires Valid()
      modifies this`choiceIndex
      ensures Valid()
      ensures choiceIndex == if old(choiceIndex) == |options| - 1 then old(choiceIndex) else old(choiceIndex) + 1
    {
      choiceIndex := choiceIndex + 1;
      if choiceIndex >= |options| {
        choiceIndex := |options| - 1;
      }
    }

    method SetChoice(index: int)
      requires Filled() && 0 <= index < |options|
      modifies this`choiceIndex
      ensures Valid() && choiceIndex == index
    {
      choiceIndex := index;
    }

    /** The event key of the option the pointer is at. */
    method GetChoice() returns (key: string)
      requires Valid()
      ensures key == events[choiceIndex] && key in events
    {
      key := events[choiceIndex];
    }

    /** The parameter string of the option the pointer is at. */
    method GetParams() returns (params: string)
      requires Valid()
      ensures params == eventParams[choiceIndex] && params in eventParams
    {
      params := eventParams[choiceIndex];
    }

    method Hide()
      modifies this`visible
      ensures !visible
      ensures old(Valid()) ==> Valid()
    {
      visible := false;
    }

    method Show()
      modifies this`visible
      ensures visible
      ensures old(Valid()) ==> Valid()
    {
      visible := true;
    }

    method IsVisible() returns (v: bool)
      ensures v == visible
    {
      v := visible;
    }
  }

  class DialogueBox {
    const selectBox: SelectBox
    /** MAXCHARS: the column limit the text is wrapped at. */
    const maxChars: int
    /** The pages of the current text (`textLines`). */
    var textLines: seq<string>
    var linePointer: nat
    /** The follow-up event scheduled by setText; None stands for null. */
    var eventKey: Option<string>
    var eventParams: Option<string>
    /** The reveal counter, in tenths of a character. */
    var textCounter: nat
    var scrollingText: bool
    var visible: bool
    /** The text the label widget shows. */
    var shown: string

    /** The select box is set up, and a scheduled event always has its parameters. */
    ghost predicate Wired()
      reads this, selectBox
    {
      selectBox.Valid() && maxChars > 0 && (eventKey.Some? ==> eventParams.Some?)
    }

    /** There is at least one page, no page is empty, and while text scrolls the
        rounded reveal count is still short of the current page's length. */
    ghost predicate Valid()
      reads this, selectBox
    {
      && Wired()
      && |textLines| > 0
      && (forall i :: 0 <= i < |textLines| ==> |textLines[i]| > 0)
      && (scrollingText ==> linePointer < |textLines| && RoundTenths(textCounter) < |textLines[linePointer]|)
    }

    /** The box shows the first page of `text` and starts revealing it. */
    ghost predicate Says(text: string)
      reads this
    {
      && textLines == Paginate(text, maxChars) && |textLines| > 0 && shown == textLines[0]
      && linePointer == 0 && scrollingText && textCounter == 0
    }

    /** The scheduled follow-up event is as it was. */
    twostate predicate EventKept()
      reads this
    {
      eventKey == old(eventKey) && eventParams == old(eventParams)
    }

    /** The menu holds what it held; only its visibility may have changed. */
    twostate predicate MenuKept()
      reads this, selectBox
    {
      && selectBox.options == old(selectBox.options) && selectBox.events == old(selectBox.events)
      && selectBox.eventParams == old(selectBox.eventParams) && selectBox.choiceIndex == old(selectBox.choiceIndex)
    }

    /** setText(text) was called, after hideSelectBox() when `menuClosed`;
        nothing else about the box changed. */
    twostate predicate Replied(text: string, menuClosed: bool)
      reads this, selectBox
    {
      && Says(text) && EventKept() && MenuKept() && visible == old(visible)
      && selectBox.visible == (old(selectBox.visible) && !menuClosed)
    }

    /** setText(text) was called and the menu was filled with the given
        options and opened at the first one. */
    twostate predicate Asked(text: string, opts: seq<string>, evs: seq<string>, params: seq<string>)
      reads this, selectBox
    {
      && Says(text) && EventKept() && visible == old(visible)
      && selectBox.options == opts && selectBox.events == evs && selectBox.eventParams == params
      && selectBox.choiceIndex == 0 && selectBox.visible
    }

    /** hide() was called: the box and its menu are closed, text and menu kept. */
    twostate predicate Closed()
      reads this, selectBox
    {
      && !visible && !selectBox.visible && EventKept() && MenuKept()
      && textLines == old(textLines) && shown == old(shown) && linePointer == old(linePointer)
      && scrollingText == old(scrollingText) && textCounter == old(textCounter)
    }

    /** The dialogue box starts visible, asking the placeholder question with a
        Yes/No menu open. */
    constructor ()
      ensures Valid() && fresh(selectBox) && maxChars == MAXCHARS
      ensures textLines == Paginate(PIAZZA_QUESTION, maxChars)
      ensures linePointer == 0 && scrollingText && textCounter == 0
      ensures eventKey == None && eventParams == None && visible
      ensures selectBox.options == ["Yes", "No"] && selectBox.events == ["piazza", "close"]
      ensures selectBox.choiceIndex == 0 && selectBox.visible
    {
      selectBox := new SelectBox();
      maxChars := MAXCHARS;
      textLines := [];
      linePointer := 0;
      eventKey := None;
      eventParams := None;
      textCounter := 0;
      scrollingText := false;
      visible := true;
      shown := PIAZZA_QUESTION;
      new;
      selectBox.SetOptionsNoParams(["Yes", "No"], ["piazza", "close"]);
      PiazzaQuestionDisplayable(maxChars);
      SetText(PIAZZA_QUESTION);
    }

    /** Wraps and pages the text, shows its first page and rewinds to it. */
    method InitialiseLabelText(text: string)
      requires Displayable(text, maxChars)
      modifies this`textLines, this`shown, this`linePointer
      ensures textLines == Paginate(text, maxChars) && |textLines| > 0
      ensures forall i :: 0 <= i < |textLines| ==> |textLines[i]| > 0
      ensures shown == textLines[0] && linePointer == 0
    {
      var wrapped := WrapText(text, maxChars);
      var pieces := JavaText.Split(wrapped, '\n');
      var pages := GroupPages(pieces);
      GroupShape(pieces);
      textLines := pages;
      shown := pages[0];
      linePointer := 0;
    }

    /** setText(text): new pages, scrolling from the start; the scheduled event
        is left as it was. */
    method SetText(text: string)
      requires Wired() && Displayable(text, maxChars)
      modifies this`textLines, this`shown, this`linePointer, this`scrollingText, this`textCounter
      ensures Valid()
      ensures textLines == Paginate(text, maxChars) && shown == textLines[0]
      ensures linePointer == 0 && scrollingText && textCounter == 0
    {
      InitialiseLabelText(text);
      scrollingText := true;
      textCounter := 0;
    }

    /** setText(text, eventKey): as SetText, and schedules eventKey with empty parameters. */
    method SetTextWithEvent(text: string, key: string)
      requires Wired() && Displayable(text, maxChars)
      modifies this`textLines, this`shown, this`linePointer, this`scrollingText, this`textCounter,
        this`eventKey, this`eventParams
      ensures Valid()
      ensures textLines == Paginate(text, maxChars) && shown == textLines[0]
      ensures linePointer == 0 && scrollingText && textCounter == 0
      ensures eventKey == Some(key) && eventParams == Some("")
    {
      InitialiseLabelText(text);
      eventKey := Some(key);
      eventParams := Some("");
      scrollingText := true;
      textCounter := 0;
    }

    /** setText(text, eventKey, eventParams): as SetText, and schedules the event
        with the given parameters. */
    method SetTextWithEventParams(text: string, key: string, params: string)
      requires Wired() && Displayable(text, maxChars)
      modifies this`textLines, this`shown, this`linePointer, this`scrollingText, this`textCounter,
        this`eventKey, this`eventParams
      ensures Valid()
      ensures textLines == Paginate(text, maxChars) && shown == textLines[0]
      ensures linePointer == 0 && scrollingText && textCounter == 0
      ensures eventKey == Some(key) && eventParams == Some(params)
    {
      InitialiseLabelText(text);
      eventKey := Some(key);
      eventParams := Some(params);
      scrollingText := true;
      textCounter := 0;
    }

    /** One frame of the typewriter effect with a step of `speed` tenths (the
        game uses 8). The label shows the rounded count of characters of the
        current page, which never runs past the page; scrolling stops on the
        tick that reaches the page's length. */
    method ScrollText(speed: nat)
      requires Valid() && speed < 10
      modifies this`textCounter, this`scrollingText, this`shown
      ensures Valid()
      ensures !old(scrollingText) ==> textCounter == old(textCounter) && !scrollingText && shown == old(shown)
      ensures old(scrollingText) ==>
        && textCounter == old(textCounter) + speed
        && RoundTenths(textCounter) <= |textLines[linePointer]|
        && shown == textLines[linePointer][..RoundTenths(textCounter)]
        && (scrollingText <==> RoundTenths(textCounter) < |textLines[linePointer]|)
    {
      if scrollingText {
        RoundStep(textCounter, speed);
        textCounter := textCounter + speed;
        var page := textLines[linePointer];
        if RoundTenths(textCounter) >= |page| {
          scrollingText := false;
          shown := page;
        }
        shown := page[..RoundTenths(textCounter)];
      }
    }

    /** Confirm pressed: with the menu open, closes it and hands back the chosen
        option's event; otherwise advances the text. */
    method Enter() returns (fired: Option<Dispatch>)
      requires Valid()
      modifies this, selectBox`visible
      ensures Valid()
      ensures textLines == old(textLines) && eventParams == old(eventParams)
      ensures old(selectBox.visible) ==>
        && !selectBox.visible
        && fired == Some(Dispatch(selectBox.events[selectBox.choiceIndex], selectBox.eventParams[selectBox.choiceIndex]))
        && linePointer == old(linePointer) && scrollingText == old(scrollingText)
        && textCounter == old(textCounter) && eventKey == old(eventKey)
        && visible == old(visible) && shown == old(shown)
      ensures !old(selectBox.visible) ==> AdvancedText(old(linePointer), old(scrollingText), old(eventKey), old(eventParams), old(visible), old(selectBox.visible), old(shown), fired)
    {
      if selectBox.visible {
        selectBox.Hide();
        var key := selectBox.GetChoice();
        var params := selectBox.GetParams();
        fired := Some(Dispatch(key, params));
      } else {
        fired := AdvanceText();
      }
    }

    /** The outcome of advanceText from the given earlier state:
        - while scrolling, the whole page is shown and the page does not move;
        - otherwise the next page starts scrolling; or, past the last page, the
          box closes and a scheduled event fires once and is cleared.
        Only closing the box touches the menu (it is hidden with the box). */
    ghost predicate AdvancedText(linePointer0: nat, scrolling0: bool, eventKey0: Option<string>,
                                 eventParams0: Option<string>, visible0: bool, menuVisible0: bool,
                                 shown0: string, fired: Option<Dispatch>)
      reads this, selectBox
    {
      if scrolling0 then
        && linePointer == linePointer0 && !scrollingText && textCounter == 0
        && linePointer < |textLines| && shown == textLines[linePointer]
        && eventKey == eventKey0 && visible == visible0 && selectBox.visible == menuVisible0 && fired == None
      else if linePointer0 + 1 >= |textLines| then
        && linePointer == linePointer0 + 1 && !scrollingText && textCounter == 0
        && !visible && !selectBox.visible && eventKey == None && shown == shown0
        && (if eventKey0.Some? && eventParams0.Some?
            then fired == Some(Dispatch(eventKey0.value, eventParams0.value))
            else fired == None)
      else
        && linePointer == linePointer0 + 1 && scrollingText && textCounter == 0
        && eventKey == eventKey0 && visible == visible0 && selectBox.visible == menuVisible0
        && shown == shown0 && fired == None
    }

    method AdvanceText() returns (fired: Option<Dispatch>)
      requires Valid()
      modifies this, selectBox`visible
      ensures Valid()
      ensures textLines == old(textLines) && eventParams == old(eventParams)
      ensures AdvancedText(old(linePointer), old(scrollingText), old(eventKey), old(eventParams), old(visible), old(selectBox.visible), old(shown), fired)
    {
      fired := None;
      if scrollingText {
        scrollingText := false;
        textCounter := 0;
        shown := textLines[linePointer];
      } else {
        linePointer := linePointer + 1;
        if linePointer >= |textLines| {
          Hide();
          scrollingText := false;
          textCounter := 0;
          if eventKey.Some? {
            fired := Some(Dispatch(eventKey.value, eventParams.value));
            eventKey := None;
          }
        } else {
          textCounter := 0;
          scrollingText := true;
        }
      }
    }

    method Show()
      modifies this`visible
      ensures visible
      ensures old(Valid()) ==> Valid()
    {
      visible := true;
    }

    /** Hides the box together with its menu. */
    method Hide()
      modifies this`visible, selectBox`visible
      ensures !visible && !selectBox.visible
      ensures old(Valid()) ==> Valid()
    {
      visible := false;
      selectBox.Hide();
    }

    method HideSelectBox()
      modifies selectBox`visible
      ensures !selectBox.visible
      ensures old(Valid()) ==> Valid()
    {
      selectBox.Hide();
    }

    method IsVisible() returns (v: bool)
      ensures v == visible
    {
      v := visible;
    }
  }
}
