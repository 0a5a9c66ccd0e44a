/**
 * Assets/Scripts/Interface/InterfaceHolder.cs: the interface switcher. Each interface
 * (main menu, lobby, options, pause, HUD, touch HUD) is a UI object with an active
 * flag; the holder formats the match timer, toggles the touch HUD and switches the
 * active interface.
 */
module InterfaceHolder {
  import opened Common
  import opened ClickableButton

  datatype InterfaceType = NoInterface | MainMenu | MatchLobby | Options | Pause | HUD | TouchScreenHUD

  // ---------------------------------------------------------------------------
  // UpdateTimerValue: "mm:ss" from a float number of seconds
  // ---------------------------------------------------------------------------

  /** C#'s (int) cast of a float: truncation toward zero. */
  function Truncate(v: real): (t: int)
    ensures v >= 0.0 ==> t == v.Floor && t >= 0
    ensures v < 0.0 ==> t <= 0 && t as real <= -v.Floor as real
    ensures (t as real) * (if v >= 0.0 then 1.0 else -1.0) <= (if v >= 0.0 then v else -v)
  {
    if v >= 0.0 then v.Floor else -((-v).Floor)
  }

  /** C#'s integer `/` by a positive divisor: the quotient truncated toward zero. */
  function TruncDiv(a: int, b: int): (q: int)
    requires b > 0
    ensures a >= 0 ==> q == a / b
    ensures a < 0 ==> q == -((-a) / b)
  {
    if a >= 0 then a / b else -((-a) / b)
  }

  /** C#'s integer `%` by a positive divisor: the remainder takes the sign of a. */
  function TruncRem(a: int, b: int): (r: int)
    requires b > 0
    ensures a == b * TruncDiv(a, b) + r
    ensures a >= 0 ==> 0 <= r < b
    ensures a < 0 ==> -b < r <= 0
  {
    a - b * TruncDiv(a, b)
  }

  /** One field of the timer: a "0" in front of values below 10, then the number. */
  function TimerField(n: int): string {
    (if n < 10 then "0" else "") + IntToString(n)
  }

  /** The timer text for `value` seconds: minutes, ':' and seconds, each field at least two digits. */
  function FormatTimer(value: real): string {
    TimerField(TruncDiv(Truncate(value), 60)) + ":" + TimerField(TruncRem(Truncate(value), 60))
  }

  /**
   * For a non-negative value the text is a numeral of the whole minutes, a ':' third
   * from the end, and a two-digit numeral of the remaining seconds.
   */
  lemma FormatTimerFields(value: real)
    requires value >= 0.0
    ensures var text := FormatTimer(value); var k := |text| - 3;
      |text| >= 5 && text[k] == ':' && AllDigits(text[..k]) && AllDigits(text[k + 1..]) &&
      ParseNat(text[..k]) == Truncate(value) / 60 && ParseNat(text[k + 1..]) == Truncate(value) % 60
  {
    var t := Truncate(value);
    var m := TimerField(TruncDiv(t, 60));
    var sec := TimerField(TruncRem(t, 60));
    var text := m + ":" + sec;
    assert FormatTimer(value) == text;
    TimerFieldDigits(TruncDiv(t, 60));
    TimerFieldDigits(TruncRem(t, 60));
    assert text[..|text| - 3] == m;
    assert text[|text| - 2..] == sec;
  }

  /** Reading the fields back from a well-formed timer text lands on the whole seconds. */
  function ParseTimer(text: string): (r: Option<nat>)
    ensures r.Some? <==> ':' in text
  {
    var k := IndexOfChar(text, ':');
    if k < 0 then None else Some(60 * ParseNat(text[..k]) + ParseNat(text[k + 1..]))
  }

  /** A leading zero does not change a numeral's value. */
  lemma {:induction false} ParseNatLeadingZero(s: string)
    ensures ParseNat("0" + s) == ParseNat(s)
    decreases |s|
  {
    if s == [] {
      assert ("0" + s)[..0] == [];
    } else {
      ParseNatLeadingZero(s[..|s| - 1]);
      assert ("0" + s)[..|"0" + s| - 1] == "0" + s[..|s| - 1];
    }
  }

  /** A non-negative field is all digits, at least two of them, and reads back as n; below 100 it is exactly two. */
  lemma TimerFieldDigits(n: int)
    requires n >= 0
    ensures |TimerField(n)| >= 2 && AllDigits(TimerField(n)) && ParseNat(TimerField(n)) == n
    ensures n < 100 ==> |TimerField(n)| == 2
  {
    ParseNatToString(n);
    if n < 10 {
      ParseNatLeadingZero(NatToString(n));
    } else {
      assert TimerField(n) == NatToString(n);
      if n < 100 {
        assert NatToString(n) == NatToString(n / 10) + [Digit(n % 10)];
      }
    }
  }

  /** The timer field split: seconds lie in 0..59 and 60 * minutes + seconds is the whole-second count. */
  lemma TimerSplit(value: real)
    requires value >= 0.0
    ensures 0 <= TruncRem(Truncate(value), 60) < 60
    ensures 60 * TruncDiv(Truncate(value), 60) + TruncRem(Truncate(value), 60) == value.Floor
  {
  }

  /** The seconds field is always exactly two characters, so the ':' sits third from the end. */
  lemma TimerShape(value: real)
    requires value >= 0.0
    ensures FormatTimer(value) == TimerField(Truncate(value) / 60) + ":" + TimerField(Truncate(value) % 60)
    ensures |TimerField(Truncate(value) % 60)| == 2 && |TimerField(Truncate(value) / 60)| >= 2
  {
    TimerFieldDigits(Truncate(value) % 60);
    TimerFieldDigits(Truncate(value) / 60);
  }

  /** In a digits field followed by ':', the first ':' is the one after the field. */
  lemma IndexAfterDigits(m: string, sec: string)
    requires AllDigits(m)
    ensures IndexOfChar(m + ":" + sec, ':') == |m|
  {
    var text := m + ":" + sec;
    assert text[|m|] == ':';
    assert forall j :: 0 <= j < |m| ==> text[j] == m[j];
  }

  /** A minutes field, a ':' and a seconds field read back as 60 * minutes + seconds. */
  lemma ParseTimerFields(m: string, sec: string)
    requires AllDigits(m)
    ensures var r := ParseTimer(m + ":" + sec); r.Some? && r.value == 60 * ParseNat(m) + ParseNat(sec)
  {
    var text := m + ":" + sec;
    IndexAfterDigits(m, sec);
    assert text[..|m|] == m;
    assert text[|m| + 1..] == sec;
  }

  /** Round trip: parsing the displayed timer gives back the whole seconds of the value. */
  lemma TimerRoundTrip(value: real)
    requires value >= 0.0
    ensures var r := ParseTimer(FormatTimer(value)); r.Some? && r.value == value.Floor
  {
    TimerShape(value);
    TimerFieldDigits(Truncate(value) / 60);
    TimerFieldDigits(Truncate(value) % 60);
    ParseTimerFields(TimerField(Truncate(value) / 60), TimerField(Truncate(value) % 60));
  }

  // ---------------------------------------------------------------------------
  // Switching interfaces over a map of active flags
  // ---------------------------------------------------------------------------

  /** The search order used to remember which interface was showing. */
  const SearchOrder: seq<InterfaceType> := [MainMenu, Pause, Options, MatchLobby, HUD]

  /** LINQ First over the search order: the first active interface, None when none is active. */
  function FirstActive(active: map<InterfaceType, bool>, order: seq<InterfaceType>): Option<InterfaceType>
    requires forall t :: t in order ==> t in active
  {
    if order == [] then None
    else if active[order[0]] then Some(order[0])
    else FirstActive(active, order[1..])
  }

  /** FirstActive finds nothing exactly when no interface in the order is active, and otherwise the earliest active one. */
  lemma {:induction false} FirstActiveIsFirst(active: map<InterfaceType, bool>, order: seq<InterfaceType>)
    requires forall t :: t in order ==> t in active
    ensures var r := FirstActive(active, order);
      (r.None? <==> forall j :: 0 <= j < |order| ==> !active[order[j]]) &&
      (r.Some? ==> exists j :: 0 <= j < |order| && order[j] == r.value && active[r.value] &&
                     forall i :: 0 <= i < j ==> !active[order[i]])
  {
    if order != [] && !active[order[0]] {
      var tail := order[1..];
      assert forall t :: t in tail ==> t in order;
      FirstActiveIsFirst(active, tail);
      var r := FirstActive(active, tail);
      if r.Some? {
        var j :| 0 <= j < |tail| && tail[j] == r.value && active[r.value] &&
          forall i :: 0 <= i < j ==> !active[tail[i]];
        assert order[j + 1] == r.value && forall i :: 0 <= i < j + 1 ==> !active[order[i]];
      } else {
        assert forall j :: 1 <= j < |order| ==> order[j] == tail[j - 1];
      }
    }
  }

  /** Every interface except the touch HUD switched off. */
  function AllButTouchOff(active: map<InterfaceType, bool>): (r: map<InterfaceType, bool>)
    ensures r.Keys == active.Keys
    ensures forall u :: u in r ==> r[u] == (u == TouchScreenHUD && active[u])
  {
    map u | u in active :: if u != TouchScreenHUD then false else active[u]
  }

  /** The active flags after SetActiveInterface(requested, deactivate) while the game is (not) paused. */
  function AfterSetActive(active: map<InterfaceType, bool>, requested: InterfaceType, deactivate: bool, paused: bool)
    : (r: map<InterfaceType, bool>)
    requires HUD in active && (requested != NoInterface ==> requested in active)
    ensures r.Keys == active.Keys
    ensures requested != NoInterface ==> r[requested]
    ensures paused ==> r[HUD]
    ensures TouchScreenHUD in active && requested != TouchScreenHUD ==> r[TouchScreenHUD] == active[TouchScreenHUD]
    ensures forall u :: u in active && u != requested && !(paused && u == HUD) && u != TouchScreenHUD ==>
              r[u] == (active[u] && !deactivate)
  {
    var cleared := if deactivate then AllButTouchOff(active) else active;
    var withHUD := if paused then cleared[HUD := true] else cleared;
    if requested != NoInterface then withHUD[requested := true] else withHUD
  }

  /** The flag and touch-HUD state after ToggleTouchControls. */
  function Toggled(enabled: bool, active: map<InterfaceType, bool>): (r: (bool, map<InterfaceType, bool>))
    ensures r.0 == !enabled && r.1.Keys == active.Keys + {TouchScreenHUD}
    ensures r.1[TouchScreenHUD] == r.0
    ensures forall u :: u in active && u != TouchScreenHUD ==> r.1[u] == active[u]
  {
    (!enabled, active[TouchScreenHUD := !enabled])
  }

  /** Toggling twice restores the flag, and restores the flags whenever the touch HUD was showing the flag. */
  lemma ToggleTwice(enabled: bool, active: map<InterfaceType, bool>)
    requires TouchScreenHUD in active && active[TouchScreenHUD] == enabled
    ensures Toggled(Toggled(enabled, active).0, Toggled(enabled, active).1) == (enabled, active)
  {
    var once := Toggled(enabled, active);
    var twice := Toggled(once.0, once.1);
    assert twice.1 == active;
  }

  /** LINQ First over a button list: the first button that performs the action. */
  function FirstWithAction(buttons: seq<ClickableButton>, action: ButtonAction): (r: Option<ClickableButton>)
    ensures r.None? <==> forall j :: 0 <= j < |buttons| ==> buttons[j].action != action
    ensures r.Some? ==> r.value in buttons && r.value.action == action
    ensures r.Some? ==> exists j :: (0 <= j < |buttons| && buttons[j] == r.value &&
      forall i :: 0 <= i < j ==> buttons[i].action != action)
  {
    if buttons == [] then None
    else if buttons[0].action == action then Some(buttons[0])
    else
      var r := FirstWithAction(buttons[1..], action);
      if r.Some? then
        ghost var j :| 0 <= j < |buttons[1..]| && buttons[1..][j] == r.value &&
          forall i :: 0 <= i < j ==> buttons[1..][i].action != action;
        assert buttons[j + 1] == r.value && forall i :: 0 <= i < j + 1 ==> buttons[i].action != action;
        r
      else
        r
  }

  class InterfaceHolder {
    /** Whether each interface's UI object is active (the interface dictionary). */
    var active: map<InterfaceType, bool>
    var previouslyActiveInterface: InterfaceType
    var areTouchControlsEnabled: bool
    /** The HUD's pause background. */
    var backgroundPauseActive: bool
    var timerText: string
    /** The clickable buttons found under each interface, in hierarchy order. */
    const buttons: map<InterfaceType, seq<ClickableButton>>

    /** Every interface the switcher may touch is present in the dictionary. */
    predicate Valid()
      reads this
    {
      forall t :: t != NoInterface ==> t in active
    }

    /** Start: the dictionary built from the scene, nothing remembered yet, touch controls off. */
    constructor Start(active: map<InterfaceType, bool>, buttons: map<InterfaceType, seq<ClickableButton>>)
      ensures this.active == active && this.buttons == buttons
      ensures previouslyActiveInterface == NoInterface && !areTouchControlsEnabled
      ensures Valid() <==> forall t :: t != NoInterface ==> t in active
    {
      this.active := active;
      this.buttons := buttons;
      previouslyActiveInterface := NoInterface;
      areTouchControlsEnabled := false;
      backgroundPauseActive := false;
      timerText := "";
    }

    method UpdateTimerValue(value: real)
      modifies this
      ensures timerText == FormatTimer(value)
      ensures active == old(active) && areTouchControlsEnabled == old(areTouchControlsEnabled)
      ensures previouslyActiveInterface == old(previouslyActiveInterface)
      ensures backgroundPauseActive == old(backgroundPauseActive)
    {
      var t := Truncate(value);
      var minutes := TruncDiv(t, 60);
      var minuteString := "";
      if minutes < 10 {
        minuteString := minuteString + "0";
      }
      minuteString := minuteString + IntToString(minutes);
      assert minuteString == TimerField(minutes);
      var seconds := TruncRem(t, 60);
      var secondString := "";
      if seconds < 10 {
        secondString := secondString + "0";
      }
      secondString := secondString + IntToString(seconds);
      assert secondString == TimerField(seconds);
      timerText := minuteString + ":" + secondString;
    }

    method ToggleTouchControls() returns (enabled: bool)
      requires Valid()
      modifies this
      ensures (enabled, active) == Toggled(old(areTouchControlsEnabled), old(active))
      ensures areTouchControlsEnabled == enabled && Valid()
      ensures previouslyActiveInterface == old(previouslyActiveInterface)
      ensures backgroundPauseActive == old(backgroundPauseActive) && timerText == old(timerText)
    {
      areTouchControlsEnabled := !areTouchControlsEnabled;
      if areTouchControlsEnabled {
        active := active[TouchScreenHUD := true];
      } else {
        active := active[TouchScreenHUD := false];
      }
      enabled := areTouchControlsEnabled;
    }

    /**
     * SetActiveInterface. When none of the searched interfaces is active, LINQ First
     * throws before any flag changes: `threw` reports that outcome.
     */
    method SetActiveInterface(requested: InterfaceType, deactivateCurrentOnes: bool, gameIsPaused: bool)
      returns (threw: bool)
      requires Valid()
      modifies this
      ensures threw <==> FirstActive(old(active), SearchOrder).None?
      ensures threw ==> active == old(active) && previouslyActiveInterface == old(previouslyActiveInterface)
                        && backgroundPauseActive == old(backgroundPauseActive)
      ensures !threw ==> previouslyActiveInterface == FirstActive(old(active), SearchOrder).value
      ensures !threw ==> active == AfterSetActive(old(active), requested, deactivateCurrentOnes, gameIsPaused)
      ensures !threw ==> backgroundPauseActive == gameIsPaused
      ensures Valid() && areTouchControlsEnabled == old(areTouchControlsEnabled) && timerText == old(timerText)
    {
      var first := FirstActive(active, SearchOrder);
      if first.None? {
        return true;
      }
      threw := false;
      previouslyActiveInterface := first.value;
      SwitchFlags(requested, deactivateCurrentOnes, gameIsPaused);
    }

    /** The flag updates of SetActiveInterface once the current interface is remembered. */
    method SwitchFlags(requested: InterfaceType, deactivateCurrentOnes: bool, gameIsPaused: bool)
      requires Valid()
      modifies this
      ensures active == AfterSetActive(old(active), requested, deactivateCurrentOnes, gameIsPaused)
      ensures backgroundPauseActive == gameIsPaused && previouslyActiveInterface == old(previouslyActiveInterface)
      ensures Valid() && areTouchControlsEnabled == old(areTouchControlsEnabled) && timerText == old(timerText)
    {
      var cleared := if deactivateCurrentOnes then AllButTouchOff(active) else active;
      var withHUD := if gameIsPaused then cleared[HUD := true] else cleared;
      backgroundPauseActive := gameIsPaused;
      active := if requested != NoInterface then withHUD[requested := true] else withHUD;
    }

    /**
     * ModifyButtonText: hands the text to the Text setter of the first button of that
     * interface with that action; `threw` when there is none.
     */
    method ModifyButtonText(interfaceType: InterfaceType, action: ButtonAction, text: string) returns (threw: bool)
      modifies if interfaceType in buttons then set b | b in buttons[interfaceType] else {}
      ensures threw <==> interfaceType !in buttons || FirstWithAction(buttons[interfaceType], action).None?
      ensures !threw ==>
        var b := FirstWithAction(buttons[interfaceType], action).value;
        (b.text, b.theValue) == SetterResult(b.initialText, text) && b.initialText == old(b.initialText) &&
        forall o :: o in buttons[interfaceType] && o != b ==> o.text == old(o.text) && o.theValue == old(o.theValue)
      ensures threw && interfaceType in buttons ==>
        forall o :: o in buttons[interfaceType] ==> o.text == old(o.text) && o.theValue == old(o.theValue)
      ensures interfaceType in buttons ==>
        forall o :: o in buttons[interfaceType] ==> o.interactable == old(o.interactable) && o.initialText == old(o.initialText)
    {
      if interfaceType !in buttons {
        return true;
      }
      var found := FirstWithAction(buttons[interfaceType], action);
      if found.None? {
        return true;
      }
      threw := false;
      found.value.SetText(text);
    }

    /** ModifyButtonInteraction: sets the interactable flag of that same first button. */
    method ModifyButtonInteraction(interfaceType: InterfaceType, action: ButtonAction, interactible: bool)
      returns (threw: bool)
      modifies if interfaceType in buttons then set b | b in buttons[interfaceType] else {}
      ensures threw <==> interfaceType !in buttons || FirstWithAction(buttons[interfaceType], action).None?
      ensures !threw ==>
        var b := FirstWithAction(buttons[interfaceType], action).value;
        b.interactable == interactible &&
        forall o :: o in buttons[interfaceType] && o != b ==> o.interactable == old(o.interactable)
      ensures threw && interfaceType in buttons ==>
        forall o :: o in buttons[interfaceType] ==> o.interactable == old(o.interactable)
      ensures interfaceType in buttons ==>
        forall o :: o in buttons[interfaceType] ==>
          o.text == old(o.text) && o.theValue == old(o.theValue) && o.initialText == old(o.initialText)
    {
      if interfaceType !in buttons {
        return true;
      }
      var found := FirstWithAction(buttons[interfaceType], action);
      if found.None? {
        return true;
      }
      threw := false;
      found.value.SetInteractable(interactible);
    }
  }
}
