/**
 * Assets/Scripts/Interface/ClickableButton.cs: a menu button whose caption is either
 * replaced wholesale or, for a "~value" update, rebuilt as "<initial caption>: value".
 */
module ClickableButton {
  import opened Common

  /** What a button does when clicked (dispatched by the game manager). */
  datatype ButtonAction =
    | Unknown | SwitchInterface | QuitGame
    | StartGame | ModifyMap | ModifyMatchDuration | ModifyPlayerNumber | ModifyAINumber
    | ToggleSoundtrack | ToggleTouchControls
    | TogglePause | ReturnToMainMenu | Back

  /** The caption shown for a value-only update. */
  function ValueCaption(initialText: string, v: string): (caption: string)
    ensures |caption| == |initialText| + 2 + |v|
    ensures caption[..|initialText|] == initialText
    ensures caption[|initialText|..|initialText| + 2] == ": "
    ensures caption[|initialText| + 2..] == v
  {
    initialText + ": " + v
  }

  /** The (caption, value) pair the Text setter stores when it is given newText. */
  function SetterResult(initialText: string, newText: string): (r: (string, Option<string>))
    ensures StartsWith(newText, "~") ==> r == (ValueCaption(initialText, newText[1..]), Some(newText[1..]))
    ensures !StartsWith(newText, "~") ==> r == (newText, None)
  {
    if StartsWith(newText, "~") then (ValueCaption(initialText, newText[1..]), Some(newText[1..]))
    else (newText, None)
  }

  /** The caption after a series of Text assignments, starting from `caption`. */
  function CaptionAfter(initialText: string, caption: string, newText: seq<string>): string
    decreases |newText|
  {
    if newText == [] then caption
    else CaptionAfter(initialText, SetterResult(initialText, newText[0]).0, newText[1..])
  }

  /**
   * "~" updates never accumulate: after any series of assignments the caption depends
   * only on the initial caption and the last newText string.
   */
  lemma {:induction false} CaptionAfterLast(initialText: string, caption: string, newText: seq<string>)
    requires newText != []
    ensures CaptionAfter(initialText, caption, newText) == SetterResult(initialText, newText[|newText| - 1]).0
    decreases |newText|
  {
    if |newText| > 1 {
      CaptionAfterLast(initialText, SetterResult(initialText, newText[0]).0, newText[1..]);
    }
  }

  class ClickableButton {
    const action: ButtonAction
    /** The caption captured once, when the button wakes up. */
    var initialText: string
    /** The text component's current text. */
    var text: string
    /** The value part of the last "~" update, None after a full-text update. */
    var theValue: Option<string>
    /** The Button component's interactable flag. */
    var interactable: bool

    /**
     * Awake: the initial caption is the text the button was authored with. Awake leaves
     * the Button's interactable flag as it was authored.
     */
    constructor Awake(action: ButtonAction, authoredText: string, authoredInteractable: bool)
      ensures this.action == action
      ensures text == authoredText && initialText == authoredText
      ensures theValue == None && interactable == authoredInteractable
    {
      this.action := action;
      text := authoredText;
      initialText := authoredText;
      theValue := None;
      interactable := authoredInteractable;
    }

    /** The Text property's setter. */
    method SetText(newText: string)
      modifies this
      ensures (text, theValue) == SetterResult(initialText, newText)
      ensures initialText == old(initialText) && interactable == old(interactable)
    {
      if StartsWith(newText, "~") {
        theValue := Some(newText[1..]);
        text := initialText + ": " + theValue.value;
      } else {
        theValue := None;
        text := newText;
      }
    }

    method SetInteractable(value: bool)
      modifies this
      ensures interactable == value
      ensures text == old(text) && theValue == old(theValue) && initialText == old(initialText)
    {
      interactable := value;
    }
  }
}
