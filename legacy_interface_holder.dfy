/**
 * Assets/Scripts/InterfaceHolder.cs: the older menu system. Menus are found by name:
 * categories hold stages, stages hold buttons, and button captions are rewritten by
 * searching every text mesh whose parent's name contains a given fragment.
 */
module LegacyInterfaceHolder {
  import opened Common
  import Timer = InterfaceHolder

  // ---------------------------------------------------------------------------
  // The colon-suffix caption rewrite
  // ---------------------------------------------------------------------------

  /**
   * Replacing the suffix that starts at the first ':' only ever matches once, at
   * that ':': every earlier position holds a character other than ':'.
   */
  lemma {:induction false} ReplaceSuffixFrom(text: string, j: nat, k: nat, rep: string)
    requires j <= k < |text| && text[k] == ':'
    requires forall i :: j <= i < k ==> text[i] != ':'
    ensures ReplaceAll(text[j..], text[k..], rep) == text[j..k] + rep
    decreases k - j
  {
    var pat := text[k..];
    if j == k {
      assert text[j..][..|pat|] == pat;
      assert text[j..][|pat|..] == [];
    } else {
      assert text[j..][..|pat|][0] == text[j];
      assert text[j..][1..] == text[j + 1..];
      ReplaceSuffixFrom(text, j + 1, k, rep);
      assert [text[j]] + text[j + 1..k] == text[j..k];
    }
  }

  /**
   * The caption after `text.Replace(text.Substring(text.IndexOf(':')), ": " + value)`.
   * Substring(-1) throws when the caption has no ':': that outcome is None.
   */
  function ColonRewrite(text: string, value: string): (r: Option<string>)
    ensures r.None? <==> ':' !in text
    ensures r.Some? ==>
      var k := IndexOfChar(text, ':');
      r.value == text[..k] + ": " + value
  {
    var k := IndexOfChar(text, ':');
    if k < 0 then None
    else
      ReplaceSuffixFrom(text, 0, k, ": " + value);
      assert text[0..] == text;
      Some(ReplaceAll(text, text[k..], ": " + value))
  }

  /** Rewriting a caption twice keeps only the newest value. */
  lemma ColonRewriteTwice(text: string, v1: string, v2: string)
    requires ':' in text
    ensures ':' in ColonRewrite(text, v1).value
    ensures ColonRewrite(ColonRewrite(text, v1).value, v2) == ColonRewrite(text, v2)
  {
    var k := IndexOfChar(text, ':');
    var once := ColonRewrite(text, v1).value;
    assert once == text[..k] + ": " + v1;
    assert once[k] == ':';
    assert forall i :: 0 <= i < k ==> once[i] == text[i];
    assert IndexOfChar(once, ':') == k;
    assert once[..k] == text[..k];
  }

  /** The caption a matching text mesh gets: the whole value, or the colon rewrite. */
  function NewCaption(text: string, value: string, completelyChange: bool): Option<string> {
    if completelyChange then Some(value) else ColonRewrite(text, value)
  }

  // ---------------------------------------------------------------------------
  // Scene objects the holder keeps references to
  // ---------------------------------------------------------------------------

  /** A menu category or menu stage: its name, its parent and whether it is active. */
  class MenuObject {
    const name: string
    const parent: MenuObject?
    var active: bool

    constructor (name: string, parent: MenuObject?, active: bool)
      ensures this.name == name && this.parent == parent && this.active == active
    {
      this.name := name;
      this.parent := parent;
      this.active := active;
    }
  }

  /** A button's Button component. */
  class MenuButton {
    var interactable: bool

    constructor (interactable: bool)
      ensures this.interactable == interactable
    {
      this.interactable := interactable;
    }
  }

  /** A text mesh inside a menu button; its parent is the button object. */
  class MenuText {
    var text: string
    const parentName: string
    const button: MenuButton

    constructor (text: string, parentName: string, button: MenuButton)
      ensures this.text == text && this.parentName == parentName && this.button == button
    {
      this.text := text;
      this.parentName := parentName;
      this.button := button;
    }
  }

  /** The first index of a text whose parent's name contains the fragment, or |texts|. */
  function FirstNamed(texts: seq<MenuText>, buttonName: string): (r: nat)
    ensures r <= |texts|
    ensures r < |texts| ==> Contains(texts[r].parentName, buttonName)
    ensures forall i :: 0 <= i < r ==> !Contains(texts[i].parentName, buttonName)
  {
    if texts == [] then 0
    else if Contains(texts[0].parentName, buttonName) then 0
    else 1 + FirstNamed(texts[1..], buttonName)
  }

  /** The first index of a stage with a matching name under a matching category, or |stages|. */
  function FirstStage(stages: seq<MenuObject>, category: string, stage: string): (r: nat)
    requires forall s :: s in stages ==> s.parent != null
    ensures r <= |stages|
    ensures r < |stages| ==> Contains(stages[r].name, stage) && Contains(stages[r].parent.name, category)
    ensures forall i :: 0 <= i < r ==> !(Contains(stages[i].name, stage) && Contains(stages[i].parent.name, category))
  {
    if stages == [] then 0
    else if Contains(stages[0].name, stage) && Contains(stages[0].parent.name, category) then 0
    else 1 + FirstStage(stages[1..], category, stage)
  }

  /** The captions of the texts, in order. */
  function Captions(texts: seq<MenuText>): (r: seq<string>)
    reads set t | t in texts
    ensures |r| == |texts| && forall j :: 0 <= j < |texts| ==> r[j] == texts[j].text
  {
    if texts == [] then [] else [texts[0].text] + Captions(texts[1..])
  }

  /** A caption once the loop has (`rewritten`) or has not yet rewritten it. */
  function CaptionSoFar(caption: string, rewritten: bool, value: string, completelyChange: bool): string {
    if rewritten && NewCaption(caption, value, completelyChange).Some?
    then NewCaption(caption, value, completelyChange).value
    else caption
  }

  /** The body of the text loop for one matching text: its new caption, or false where the colon rewrite throws. */
  method Rewrite(t: MenuText, value: string, completelyChange: bool) returns (ok: bool)
    modifies t
    ensures ok <==> NewCaption(old(t.text), value, completelyChange).Some?
    ensures t.text == CaptionSoFar(old(t.text), ok, value, completelyChange)
  {
    var caption := value;
    if !completelyChange {
      var k := IndexOfChar(t.text, ':');
      if k < 0 {
        return false;
      }
      ReplaceSuffixFrom(t.text, 0, k, ": " + value);
      assert t.text[0..] == t.text;
      caption := ReplaceAll(t.text, t.text[k..], ": " + value);
    }
    t.text := caption;
    ok := true;
  }

  /** Pairwise distinct text objects. */
  predicate DistinctTexts(texts: seq<MenuText>) {
    forall i, j :: 0 <= i < j < |texts| ==> texts[i] != texts[j]
  }

  /**
   * The text loop after its first i texts: `found` says whether one of them matched,
   * each matching one had a caption that could be rewritten and now carries it, and
   * every other text keeps its caption.
   */
  predicate Progress(texts: seq<MenuText>, before: seq<string>, i: nat, found: bool,
                     buttonName: string, value: string, completelyChange: bool)
    reads set t | t in texts
    requires i <= |texts| == |before|
  {
    (found <==> exists j :: 0 <= j < i && Contains(texts[j].parentName, buttonName)) &&
    (forall j :: 0 <= j < i && Contains(texts[j].parentName, buttonName) ==>
      NewCaption(before[j], value, completelyChange).Some?) &&
    (forall j :: 0 <= j < |texts| ==>
      texts[j].text == CaptionSoFar(before[j], Contains(texts[j].parentName, buttonName) && j < i, value, completelyChange))
  }

  /** One turn of the text loop: either the loop goes on past text i, or text i throws and nothing changed. */
  method RewriteStep(texts: seq<MenuText>, ghost before: seq<string>, i: nat, found: bool,
                     buttonName: string, value: string, completelyChange: bool)
    returns (ok: bool, found': bool)
    requires i < |texts| == |before| && DistinctTexts(texts)
    requires Progress(texts, before, i, found, buttonName, value, completelyChange)
    modifies texts[i]
    ensures ok ==> Progress(texts, before, i + 1, found', buttonName, value, completelyChange)
    ensures !ok ==> Contains(texts[i].parentName, buttonName) && NewCaption(before[i], value, completelyChange).None? &&
                    Progress(texts, before, i, found, buttonName, value, completelyChange)
  {
    var t := texts[i];
    assert forall j :: 0 <= j < |texts| && j != i ==> texts[j] != t;
    found' := found;
    ok := true;
    if Contains(t.parentName, buttonName) {
      ok := Rewrite(t, value, completelyChange);
      found' := true;
    }
  }

  /**
   * The texts when the loop throws at index `stop`: that text matches and its caption
   * cannot be rewritten, the matching texts before it are rewritten, the rest keep
   * their captions `before`.
   */
  predicate StoppedAt(texts: seq<MenuText>, before: seq<string>, stop: nat,
                      buttonName: string, value: string, completelyChange: bool)
    reads set t | t in texts
    requires stop < |texts| == |before|
  {
    Contains(texts[stop].parentName, buttonName) && NewCaption(before[stop], value, completelyChange).None? &&
    forall i :: 0 <= i < |texts| ==>
      if i < stop && Contains(texts[i].parentName, buttonName)
      then NewCaption(before[i], value, completelyChange).Some? &&
           texts[i].text == NewCaption(before[i], value, completelyChange).value
      else texts[i].text == before[i]
  }

  lemma ProgressStops(texts: seq<MenuText>, before: seq<string>, stop: nat, found: bool,
                      buttonName: string, value: string, completelyChange: bool)
    requires stop < |texts| == |before| && Progress(texts, before, stop, found, buttonName, value, completelyChange)
    requires Contains(texts[stop].parentName, buttonName) && NewCaption(before[stop], value, completelyChange).None?
    ensures StoppedAt(texts, before, stop, buttonName, value, completelyChange)
  {
  }

  class InterfaceHolder {
    const menuCategories: seq<MenuObject>
    const menuStages: seq<MenuObject>
    const menuTextMeshes: seq<MenuText>
    var currentActiveMenu: MenuObject?

    var areTouchControlsEnabled: bool
    var timerText: string
    var timerActive: bool
    var pauseButtonActive: bool
    var movementStickActive: bool
    var actionButtonActive: bool

    /**
     * What Start builds: distinct text meshes, stages whose parents are categories,
     * and no object that is both a category and a stage.
     */
    predicate Valid()
      reads this
    {
      DistinctTexts(menuTextMeshes) &&
      (forall s :: s in menuStages ==> s.parent != null && s.parent in menuCategories) &&
      (forall s :: s in menuStages ==> s !in menuCategories) &&
      (currentActiveMenu != null ==> currentActiveMenu in menuStages)
    }

    constructor Start(categories: seq<MenuObject>, stages: seq<MenuObject>, texts: seq<MenuText>)
      requires DistinctTexts(texts)
      requires forall s :: s in stages ==> s.parent != null && s.parent in categories
      requires forall s :: s in stages ==> s !in categories
      ensures Valid() && currentActiveMenu == null && !areTouchControlsEnabled
      ensures menuCategories == categories && menuStages == stages && menuTextMeshes == texts
    {
      menuCategories := categories;
      menuStages := stages;
      menuTextMeshes := texts;
      currentActiveMenu := null;
      areTouchControlsEnabled := false;
      timerText := "";
      timerActive := false;
      pauseButtonActive := false;
      movementStickActive := false;
      actionButtonActive := false;
    }

    /**
     * UpdateMenuButtonTextValue: every text whose parent's name contains the fragment
     * gets its new caption; `logged` is the "not found" error. A colon rewrite of a
     * caption without ':' throws, leaving the earlier texts already updated.
     */
    method UpdateMenuButtonTextValue(buttonName: string, value: string, completelyChange: bool)
      returns (threw: bool, logged: bool)
      requires Valid()
      modifies set t | t in menuTextMeshes
      ensures !threw ==> forall i :: 0 <= i < |menuTextMeshes| ==>
        if Contains(menuTextMeshes[i].parentName, buttonName)
        then NewCaption(old(menuTextMeshes[i].text), value, completelyChange).Some? &&
             menuTextMeshes[i].text == NewCaption(old(menuTextMeshes[i].text), value, completelyChange).value
        else menuTextMeshes[i].text == old(menuTextMeshes[i].text)
      ensures threw ==> exists stop :: (0 <= stop < |menuTextMeshes| &&
        StoppedAt(menuTextMeshes, old(Captions(menuTextMeshes)), stop, buttonName, value, completelyChange))
      ensures logged <==> !threw && forall i :: 0 <= i < |menuTextMeshes| ==> !Contains(menuTextMeshes[i].parentName, buttonName)
    {
      var texts := menuTextMeshes;
      ghost var before := Captions(texts);
      var foundButton := false;
      var i := 0;
      while i < |texts|
        invariant 0 <= i <= |texts|
        invariant Progress(texts, before, i, foundButton, buttonName, value, completelyChange)
      {
        var ok, found := RewriteStep(texts, before, i, foundButton, buttonName, value, completelyChange);
        if !ok {
          ProgressStops(texts, before, i, foundButton, buttonName, value, completelyChange);
          return true, false;
        }
        foundButton := found;
        i := i + 1;
      }
      threw := false;
      logged := !foundButton;
    }

    /** The two-argument overload: a colon rewrite. */
    method UpdateMenuButtonValue(buttonName: string, value: string) returns (threw: bool, logged: bool)
      requires Valid()
      modifies set t | t in menuTextMeshes
      ensures logged ==> !threw
      ensures !threw ==> forall i :: 0 <= i < |menuTextMeshes| ==>
        if Contains(menuTextMeshes[i].parentName, buttonName)
        then ColonRewrite(old(menuTextMeshes[i].text), value).Some? &&
             menuTextMeshes[i].text == ColonRewrite(old(menuTextMeshes[i].text), value).value
        else menuTextMeshes[i].text == old(menuTextMeshes[i].text)
      ensures threw ==> exists stop :: (0 <= stop < |menuTextMeshes| &&
        StoppedAt(menuTextMeshes, old(Captions(menuTextMeshes)), stop, buttonName, value, false))
      ensures logged <==> !threw && forall i :: 0 <= i < |menuTextMeshes| ==> !Contains(menuTextMeshes[i].parentName, buttonName)
    {
      threw, logged := UpdateMenuButtonTextValue(buttonName, value, false);
    }

    /** SetButtonInteractible: only the first matching text's button changes; `logged` when none matches. */
    method SetButtonInteractible(buttonName: string, interactible: bool) returns (logged: bool)
      requires Valid()
      modifies set t | t in menuTextMeshes :: t.button
      ensures var k := FirstNamed(menuTextMeshes, buttonName);
        (logged <==> k == |menuTextMeshes|) &&
        (k < |menuTextMeshes| ==> (menuTextMeshes[k].button.interactable == interactible &&
          forall t :: t in menuTextMeshes && t.button != menuTextMeshes[k].button ==>
            t.button.interactable == old(t.button.interactable)))
      ensures logged ==> forall t :: t in menuTextMeshes ==> t.button.interactable == old(t.button.interactable)
    {
      var i := 0;
      while i < |menuTextMeshes|
        invariant 0 <= i <= |menuTextMeshes|
        invariant forall j :: 0 <= j < i ==> !Contains(menuTextMeshes[j].parentName, buttonName)
      {
        if Contains(menuTextMeshes[i].parentName, buttonName) {
          assert FirstNamed(menuTextMeshes, buttonName) == i by {
            FirstNamedAt(menuTextMeshes, buttonName, i);
          }
          menuTextMeshes[i].button.interactable := interactible;
          return false;
        }
        i := i + 1;
      }
      FirstNamedAt(menuTextMeshes, buttonName, |menuTextMeshes|);
      logged := true;
    }

    method UpdateTimerValue(value: real)
      modifies this
      ensures timerText == Timer.FormatTimer(value)
      ensures timerActive == old(timerActive) && currentActiveMenu == old(currentActiveMenu)
      ensures areTouchControlsEnabled == old(areTouchControlsEnabled)
      ensures movementStickActive == old(movementStickActive) && actionButtonActive == old(actionButtonActive)
      ensures pauseButtonActive == old(pauseButtonActive)
    {
      timerText := Timer.FormatTimer(value);
    }

    /** ToggleTouchControls: the touch controls follow the new flag only while the game is paused. */
    method ToggleTouchControls(gameIsPaused: bool) returns (enabled: bool)
      modifies this
      ensures enabled == !old(areTouchControlsEnabled) && areTouchControlsEnabled == enabled
      ensures gameIsPaused ==> movementStickActive == enabled && actionButtonActive == enabled
      ensures !gameIsPaused ==> movementStickActive == old(movementStickActive) && actionButtonActive == old(actionButtonActive)
      ensures timerActive == old(timerActive) && pauseButtonActive == old(pauseButtonActive)
      ensures timerText == old(timerText) && currentActiveMenu == old(currentActiveMenu)
    {
      areTouchControlsEnabled := !areTouchControlsEnabled;
      if gameIsPaused {
        SetInGameTouchInterfaceActive(areTouchControlsEnabled);
      }
      enabled := areTouchControlsEnabled;
    }

    method SetInGameTouchInterfaceActive(value: bool)
      modifies this
      ensures movementStickActive == value && actionButtonActive == value
      ensures timerActive == old(timerActive) && pauseButtonActive == old(pauseButtonActive)
      ensures areTouchControlsEnabled == old(areTouchControlsEnabled)
      ensures timerText == old(timerText) && currentActiveMenu == old(currentActiveMenu)
    {
      movementStickActive := value;
      actionButtonActive := value;
    }

    /** SetInGameInterfaceActive: pause button and timer always, touch controls only when enabled. */
    method SetInGameInterfaceActive(value: bool)
      modifies this
      ensures pauseButtonActive == value && timerActive == value
      ensures areTouchControlsEnabled ==> movementStickActive == value && actionButtonActive == value
      ensures !areTouchControlsEnabled ==> movementStickActive == old(movementStickActive) && actionButtonActive == old(actionButtonActive)
      ensures areTouchControlsEnabled == old(areTouchControlsEnabled)
      ensures timerText == old(timerText) && currentActiveMenu == old(currentActiveMenu)
    {
      pauseButtonActive := value;
      timerActive := value;
      if areTouchControlsEnabled {
        SetInGameTouchInterfaceActive(value);
      }
    }

    /** DisableAllActiveMenus: every category and every stage is switched off. */
    method DisableAllActiveMenus()
      requires Valid()
      modifies set o | o in menuCategories + menuStages
      ensures forall o :: o in menuCategories + menuStages ==> !o.active
    {
      var i := 0;
      while i < |menuCategories|
        invariant 0 <= i <= |menuCategories|
        invariant forall j :: 0 <= j < i ==> !menuCategories[j].active
      {
        menuCategories[i].active := false;
        i := i + 1;
      }
      i := 0;
      while i < |menuStages|
        invariant 0 <= i <= |menuStages|
        invariant forall j :: 0 <= j < |menuCategories| ==> !menuCategories[j].active
        invariant forall j :: 0 <= j < i ==> !menuStages[j].active
      {
        menuStages[i].active := false;
        i := i + 1;
      }
    }

    /**
     * SetActiveMenu: switches everything off, then shows the first stage whose name
     * contains `stage` and whose category's name contains `category`, with its category.
     * With no match the previous menu reappears and None is returned; with no previous
     * menu that dereference throws.
     */
    method SetActiveMenu(category: string, stage: string) returns (shown: Option<MenuObject>, threw: bool)
      requires Valid()
      modifies this, set o | o in menuCategories + menuStages
      ensures Valid()
      ensures areTouchControlsEnabled == old(areTouchControlsEnabled) && timerText == old(timerText)
      ensures timerActive == old(timerActive) && pauseButtonActive == old(pauseButtonActive)
      ensures movementStickActive == old(movementStickActive) && actionButtonActive == old(actionButtonActive)
      ensures var k := FirstStage(menuStages, category, stage);
        if k < |menuStages| then
          shown == Some(menuStages[k]) && !threw && currentActiveMenu == menuStages[k] &&
          forall o :: o in menuCategories + menuStages ==>
            (o.active <==> o == menuStages[k] || o == menuStages[k].parent)
        else
          shown == None && currentActiveMenu == old(currentActiveMenu) &&
          (threw <==> old(currentActiveMenu) == null) &&
          forall o :: o in menuCategories + menuStages ==>
            (o.active <==> !threw && (o == old(currentActiveMenu) || o == old(currentActiveMenu).parent))
    {
      DisableAllActiveMenus();
      var i := 0;
      while i < |menuStages|
        invariant 0 <= i <= |menuStages|
        invariant forall j :: 0 <= j < i ==> !(Contains(menuStages[j].name, stage) && Contains(menuStages[j].parent.name, category))
      {
        var s := menuStages[i];
        if Contains(s.name, stage) && Contains(s.parent.name, category) {
          FirstStageAt(menuStages, category, stage, i);
          currentActiveMenu := s;
          s.active := true;
          s.parent.active := true;
          return Some(s), false;
        }
        i := i + 1;
      }
      FirstStageAt(menuStages, category, stage, |menuStages|);
      if currentActiveMenu == null {
        return None, true;
      }
      currentActiveMenu.active := true;
      currentActiveMenu.parent.active := true;
      return None, false;
    }
  }

  /** FirstNamed is the index before which nothing matches and at which the text matches. */
  lemma {:induction false} FirstNamedAt(texts: seq<MenuText>, buttonName: string, i: nat)
    requires i <= |texts|
    requires forall j :: 0 <= j < i ==> !Contains(texts[j].parentName, buttonName)
    requires i < |texts| ==> Contains(texts[i].parentName, buttonName)
    ensures FirstNamed(texts, buttonName) == i
    decreases i
  {
    if i > 0 {
      FirstNamedAt(texts[1..], buttonName, i - 1);
    }
  }

  lemma {:induction false} FirstStageAt(stages: seq<MenuObject>, category: string, stage: string, i: nat)
    requires forall s :: s in stages ==> s.parent != null
    requires i <= |stages|
    requires forall j :: 0 <= j < i ==> !(Contains(stages[j].name, stage) && Contains(stages[j].parent.name, category))
    requires i < |stages| ==> Contains(stages[i].name, stage) && Contains(stages[i].parent.name, category)
    ensures FirstStage(stages, category, stage) == i
    decreases i
  {
    if i > 0 {
      assert forall s :: s in stages[1..] ==> s in stages;
      FirstStageAt(stages[1..], category, stage, i - 1);
    }
  }
}
