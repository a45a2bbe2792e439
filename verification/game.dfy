/** The game screen (GameScreen) and its event manager (EventManager): the
    player's numbers and clock, the keyboard handling that opens and drives
    the dialogue box, and the events the dialogue box fires. The numbers are
    specified through GameState.World, so every operation below is stated as
    a function of the state before it. */
module Game {
  import opened Wrappers
  import opened JavaText
  import opened TextLayout
  import opened Dialogue
  import opened GameRules
  import opened Maps
  import opened GameState
  import opened Messages

  /** The topics a chat can be about. */
  const TOPICS: seq<string> :=
    ["Dogs", "Cats", "Exams", "Celebrities", "Flatmates", "Video games", "Sports", "Food", "Fashion"]

  predicate Distinct(s: seq<string>)
  {
    forall i, j :: 0 <= i < j < |s| ==> s[i] != s[j]
  }

  /** The strings of a sequence, as a set. */
  function Elems(s: seq<string>): (r: set<string>)
    ensures forall x :: x in r <==> x in s
  {
    if |s| == 0 then {} else {s[0]} + Elems(s[1..])
  }

  /** A sequence without repetitions has as many elements as its set. */
  lemma {:induction false} DistinctCard(s: seq<string>)
    requires Distinct(s)
    ensures |Elems(s)| == |s|
  {
    if |s| > 0 {
      assert Distinct(s[1..]) by {
        forall i, j | 0 <= i < j < |s[1..]| ensures s[1..][i] != s[1..][j] {
          assert s[1..][i] == s[i + 1] && s[1..][j] == s[j + 1];
        }
      }
      DistinctCard(s[1..]);
      assert s[0] !in s[1..];
    }
  }

  lemma DistinctSnoc(s: seq<string>, x: string)
    requires Distinct(s) && x !in s
    ensures Distinct(s + [x])
  {
  }

  lemma TopicsDistinct()
    ensures Distinct(TOPICS) && |TOPICS| == 9
  {
  }

  /** The event parameters split at ';' (an empty string gives no argument). */
  function Args(params: string): seq<string>
  {
    if params == "" then [] else Split(params, ';')
  }

  /** No argument holds a ';'; there is no argument exactly when the
      parameters are empty or only ';'s, and parameters that start with
      something other than ';' give at least the first, args[0], which tree,
      chest and cook read. */
  lemma ArgsShape(params: string)
    ensures Args(params) == [] <==> params == "" || AllChar(params, ';')
    ensures NoneContain(Args(params), ';')
    ensures params != "" && params[0] != ';' ==> |Args(params)| >= 1
  {
    if params != "" {
      SplitRestores(params, ';');
      SplitEmptyIff(params, ';');
      if params[0] != ';' {
        SplitNonEmpty(params, ';');
      }
    }
  }

  /** A join never loses its last part. */
  lemma {:induction false} JoinKeepsLast(parts: seq<string>, sep: char)
    requires |parts| >= 1
    ensures |Join(parts, sep)| >= |parts[|parts| - 1]|
  {
    if |parts| > 1 {
      JoinKeepsLast(parts[1..], sep);
    }
  }

  /** Parameters written as ';'-joined arguments (none holding ';', the last
      one non-empty) are read back as exactly those arguments. */
  lemma ArgsRoundTrip(args: seq<string>)
    requires |args| >= 1 && NoneContain(args, ';') && args[|args| - 1] != ""
    ensures Args(Join(args, ';')) == args
  {
    JoinKeepsLast(args, ';');
    SplitJoin(args, ';');
  }

  /** What the game cannot compute itself: the hours a chat lasts (a random
      1 to 3), the map files on disk, and which strings Float.parseFloat
      accepts. */
  datatype Env = Env(chatHours: int, disk: map<string, TiledMap>, isFloat: string -> bool)

  /** How an event or key press ended: normally, or with an uncaught Java
      exception that stops the game. */
  datatype Outcome = Done | Crash(exception: string)

  /** The keys the game screen reacts to: Escape, confirm (E, Enter or
      Space), up (W or Up), down (S or Down), and any other key. */
  datatype Key = Escape | Confirm | Up | Down | Other

  /** The object the player stands nearest to, as the map gives it: its
      "event" and "text" properties (None when absent) and its parameters. */
  datatype NearObject = NearObject(event: Option<string>, params: string, text: Option<string>)

  /** The question asked before an object's event: the catalog's prompt,
      except that a key naming a teleporter reads "teleport"; an object
      outside the catalog is asked about by name. */
  function Prompt(event: string): string
  {
    if event in CATALOG then (if Contains(event, "teleport") then "teleport" else CATALOG[event].text)
    else InteractText(event)
  }

  /** Every catalog prompt starts on a line of text. */
  lemma CatalogPromptsStart(key: string)
    requires key in CATALOG
    ensures CATALOG[key].text != "" && CATALOG[key].text[0] != '\n'
  {
    var text := CATALOG[key].text;
    if key == "chest" {
      assert text == "Open the chest?" && text[0] == 'O';
    } else if key == "comp_sci" {
      assert text == "Would you like to study?" && text[0] == 'W';
    } else if key == "chat" {
      assert text == "Would you like to chat to your friends?" && text[0] == 'W';
    } else if key == "basketball" {
      assert text == "Would you like to play basketball?" && text[0] == 'W';
    } else if key == "eat" {
      assert text == "Would you like to eat?" && text[0] == 'W';
    } else if key == "accomodation" {
      assert text == "Go to sleep for the night?\n" + "Your alarm is set for 8am." && text[0] == 'G';
    } else if key == "rch" {
      assert text == "Would you like to study in the Ron Cook Hub?" && text[0] == 'W';
    } else if key == "tree" {
      assert text == "Speak to the tree?" && text[0] == 'S';
    } else if key == "teleport" {
      assert text == "Would you like to move location?" && text[0] == 'W';
    } else if key == "ducks" {
      assert text == "Would you like to feed the ducks?" && text[0] == 'W';
    } else if key == "cook" {
      assert text == "Would you like to cook?" && text[0] == 'W';
    }
  }

  // ---------------------------------------------------------------------------
  // What each event does, as a relation between the game before (`w`, the
  // numbers as they were) and after it

  /** Before 8:00 the activities refuse to start. */
  predicate Early(w: World)
  {
    w.daySeconds <= 8 * 60
  }

  /** The first argument, when there is one, names the catalog entry that
      is marked as performed. */
  function Performed(w: World, args: seq<string>): World
  {
    if |args| >= 1 then w.(performed := Perform(w.performed, args[0])) else w
  }

  /** The options of the study question, their events and their parameters. */
  const STUDY_OPTIONS: seq<string> := ["2 Hours (20)", "3 Hours (30)", "4 Hours (40)"]
  const STUDY_EVENTS: seq<string> := ["comp_sci", "comp_sci", "comp_sci"]
  const STUDY_HOURS: seq<string> := ["2", "3", "4"]
  const CHAT_EVENTS: seq<string> := ["chat", "chat", "chat"]

  /** tree: the tree does not answer; the menu closes. */
  twostate predicate TreeDone(gs: GameScreen, w: World, args: seq<string>)
    reads gs, gs.eventManager, gs.dialogueBox, gs.dialogueBox.selectBox
  {
    gs.Answered(Performed(w, args), TREE_TEXT, true)
  }

  /** chest: the chest text, the menu closed; the first argument is read
      even when there is none (then the game stops with an exception). */
  twostate predicate ChestDone(gs: GameScreen, w: World, args: seq<string>, outcome: Outcome)
    reads gs, gs.eventManager, gs.dialogueBox, gs.dialogueBox.selectBox
  {
    && gs.Answered(Performed(w, args), CHEST_TEXT, true)
    && outcome == if |args| == 0 then Crash("ArrayIndexOutOfBoundsException") else Done
  }

  /** chat: refused before 8:00 or below 10 energy; without an argument it
      asks for one of three different topics; with one, the chat lasts
      `hours` hours at 10 energy an hour. */
  twostate predicate ChatDone(gs: GameScreen, w: World, args: seq<string>, hours: int)
    reads gs, gs.eventManager, gs.dialogueBox, gs.dialogueBox.selectBox
  {
    if Early(w) then gs.Answered(w, CHAT_EARLY, false)
    else if w.energy < 10 then gs.Answered(w, CHAT_TIRED, false)
    else if |args| == 0 then
      var topics := gs.dialogueBox.selectBox.options;
      && gs.State() == w && gs.escapeMenuVisible == old(gs.escapeMenuVisible)
      && |topics| == 3 && Distinct(topics) && (forall i :: 0 <= i < 3 ==> topics[i] in TOPICS)
      && gs.dialogueBox.Asked(CHAT_QUESTION, topics, CHAT_EVENTS, topics)
    else gs.Answered(Chat(w, hours, 10, args[0]), ChatText(args[0], hours), false)
  }

  /** comp_sci and rch: refused before 8:00 or below 20 energy (closing the
      menu); without an argument it asks for 2, 3 or 4 hours; an argument
      that is not an int stops the game; otherwise each hour costs 20
      energy, and the study is refused when the total is more than the
      player has. */
  twostate predicate StudyDone(gs: GameScreen, w: World, args: seq<string>, outcome: Outcome)
    reads gs, gs.eventManager, gs.dialogueBox, gs.dialogueBox.selectBox
  {
    if Early(w) then outcome == Done && gs.Answered(w, STUDY_EARLY, false)
    else if w.energy < 20 then outcome == Done && gs.Answered(w, STUDY_TIRED, true)
    else if |args| == 0 then
      && outcome == Done && gs.State() == w && gs.escapeMenuVisible == old(gs.escapeMenuVisible)
      && gs.dialogueBox.Asked(STUDY_QUESTION, STUDY_OPTIONS, STUDY_EVENTS, STUDY_HOURS)
    else if ParseInt(args[0]).None? then outcome == Crash("NumberFormatException") && gs.Untouched(w)
    else
      var hours := ParseInt(args[0]).value;
      var cost := Wrap32(hours * 20);
      && outcome == Done
      && if w.energy < cost then gs.Answered(w, STUDY_TOO_LONG, false)
         else gs.Answered(Study(w, hours, 20, args[0]), StudyText(args[0], cost), false)
  }

  /** eat: the first argument, or "eat", names the entry whose cost is paid;
      refused before 8:00 or when too tired; a name outside the catalog
      stops the game; the meal named is the one served when eating starts. */
  twostate predicate EatDone(gs: GameScreen, w: World, args: seq<string>, outcome: Outcome)
    reads gs, gs.eventManager, gs.dialogueBox, gs.dialogueBox.selectBox
  {
    var key := if |args| >= 1 then args[0] else "eat";
    if Early(w) then outcome == Done && gs.Answered(w, EAT_EARLY, false)
    else if key !in CATALOG then outcome == Crash("NullPointerException") && gs.Untouched(w)
    else
      var cost := CATALOG[key].energyCost;
      && outcome == Done
      && if w.energy < cost then gs.Answered(w, EAT_TIRED, false)
         else gs.Answered(Meal(w, cost, key), EatText(MealAt(w.daySeconds), cost), false)
  }

  /** accomodation: the player falls asleep, the dialogue box closes, and the
      night's sleep, up to the next 8:00, waits behind the fade to black. */
  twostate predicate AccomDone(gs: GameScreen, w: World)
    reads gs, gs.eventManager, gs.dialogueBox, gs.dialogueBox.selectBox
  {
    var slept := SecondsSlept(w.daySeconds);
    && gs.State() == w.(sleeping := true, pending := w.pending + [SleepAction(HoursSlept(slept), slept)])
    && gs.escapeMenuVisible == old(gs.escapeMenuVisible)
    && gs.dialogueBox.Closed()
  }

  /** The teleport's arguments get as far as loadMap: a map path, then
      either nothing or a spawn point "x,y" whose coordinates parse as floats. */
  predicate TeleportAttempt(args: seq<string>, isFloat: string -> bool)
  {
    || |args| == 1
    || (|args| >= 2 && var coords := Split(args[1], ','); |coords| >= 2 && isFloat(coords[0]) && isFloat(coords[1]))
  }

  /** loadMap(path) as the teleport calls it: the map found is cached and
      made current with its layers; when it loads (the callback included),
      the dialogue box closes, and otherwise it says "Teleport failed!". The
      numbers do not change. */
  twostate predicate TeleportedTo(gs: GameScreen, w: World, path: string, disk: map<string, TiledMap>)
    reads gs, gs.eventManager, gs.dialogueBox, gs.dialogueBox.selectBox, gs.mapManager
  {
    var found := MapAt(path, old(gs.mapManager.loadedMaps), disk);
    && gs.State() == w && gs.escapeMenuVisible == old(gs.escapeMenuVisible)
    && (found.None? ==> unchanged(gs.mapManager))
    && (found.Some? ==>
          && gs.mapManager.loadedMaps == old(gs.mapManager.loadedMaps)[path := found.value]
          && gs.mapManager.currentMap == found && gs.mapManager.mapProperties == found.value.properties
          && (MapManager.LayersOk(found.value.properties) ==> gs.mapManager.LayersRead(found.value.properties)))
    && if Loads(path, old(gs.mapManager.loadedMaps), disk) then gs.dialogueBox.Closed()
       else gs.dialogueBox.Replied(TELEPORT_FAILED, false)
  }

  /** teleport: loadMap is reached with the first argument as the path when
      the arguments are well formed; any failure on the way says
      "Teleport failed!". */
  twostate predicate TeleportDone(gs: GameScreen, w: World, args: seq<string>, env: Env)
    reads gs, gs.eventManager, gs.dialogueBox, gs.dialogueBox.selectBox, gs.mapManager
  {
    if !TeleportAttempt(args, env.isFloat) then
      gs.Answered(w, TELEPORT_FAILED, false) && unchanged(gs.mapManager)
    else TeleportedTo(gs, w, args[0], env.disk)
  }

  /** ducks and basketball: refused before 8:00 or when too tired; otherwise
      an hour of recreation for `cost` energy. */
  twostate predicate RecreationDone(gs: GameScreen, w: World, cost: int, early: string, tired: string, done: string)
    reads gs, gs.eventManager, gs.dialogueBox, gs.dialogueBox.selectBox
  {
    if Early(w) then gs.Answered(w, early, false)
    else if w.energy < cost then gs.Answered(w, tired, false)
    else gs.Answered(Recreation(w, cost), done, false)
  }

  /** cook: refused before 8:00 or below 30 energy; otherwise an hour of
      cooking the meal served at that time. */
  twostate predicate CookDone(gs: GameScreen, w: World, args: seq<string>)
    reads gs, gs.eventManager, gs.dialogueBox, gs.dialogueBox.selectBox
  {
    if Early(w) then gs.Answered(w, COOK_EARLY, false)
    else if w.energy < 30 then gs.Answered(w, COOK_TIRED, false)
    else gs.Answered(Performed(PassTime(DecreaseEnergy(w, 30), 60), args), CookText(MealAt(w.daySeconds), 30), false)
  }

  /** The sleep callback: if the player still sleeps, the box opens on the
      night's report (with "fadefromblack" to follow), energy is set from the
      hours slept, the night passes and the hours are recorded. */
  twostate predicate SleptDone(gs: GameScreen, w: World, hours: int, seconds: int)
    reads gs, gs.eventManager, gs.dialogueBox, gs.dialogueBox.selectBox
  {
    if w.sleeping then
      && gs.State() == Sleep(w, hours, seconds) && gs.escapeMenuVisible == old(gs.escapeMenuVisible)
      && gs.dialogueBox.visible && gs.dialogueBox.Says(SleepText(hours))
      && gs.dialogueBox.eventKey == Some("fadefromblack") && gs.dialogueBox.eventParams == Some("")
      && gs.dialogueBox.MenuKept() && gs.dialogueBox.selectBox.visible == old(gs.dialogueBox.selectBox.visible)
    else gs.Untouched(w)
  }

  /** The wake-up callback: if the player still sleeps, the box opens on the
      wake-up message for the day reached and the player is awake. */
  twostate predicate WokenDone(gs: GameScreen, w: World)
    reads gs, gs.eventManager, gs.dialogueBox, gs.dialogueBox.selectBox
  {
    if w.sleeping then
      && gs.State() == w.(sleeping := false) && gs.escapeMenuVisible == old(gs.escapeMenuVisible)
      && gs.dialogueBox.visible && gs.dialogueBox.Says(WakeUpMessage(w.day))
      && gs.dialogueBox.EventKept() && gs.dialogueBox.MenuKept()
      && gs.dialogueBox.selectBox.visible == old(gs.dialogueBox.selectBox.visible)
    else gs.Untouched(w)
  }

  /** The first switch of event(): fadefromblack queues the wake-up behind
      the fade back in (only while sleeping), gameover ends the game, and
      fadetoblack only darkens the screen. */
  function SystemEffect(w: World, key: string): World
  {
    if key == "fadefromblack" && w.sleeping then w.(pending := w.pending + [WakeAction])
    else if key == "gameover" then GameOver(w)
    else w
  }

  /** The last cases of event()'s second switch: basketball, ducks, cook,
      and for any other key "This is a <key>!", after the effect of the
      first switch for its three keys. */
  twostate predicate LeisureDone(gs: GameScreen, w: World, key: string, args: seq<string>)
    reads gs, gs.eventManager, gs.dialogueBox, gs.dialogueBox.selectBox
  {
    if key == "basketball" then RecreationDone(gs, w, 20, BASKETBALL_EARLY, BASKETBALL_TIRED, BasketballText(20))
    else if key == "ducks" then RecreationDone(gs, w, 10, DUCKS_EARLY, DUCKS_TIRED, DucksText(10))
    else if key == "cook" then CookDone(gs, w, args)
    else gs.Answered(SystemEffect(w, key), ObjectText(key), true)
  }

  /** What event() does for a key other than teleport, which leaves the
      map manager alone. */
  twostate predicate ScreenDone(gs: GameScreen, w: World, key: string, args: seq<string>, chatHours: int, outcome: Outcome)
    reads gs, gs.eventManager, gs.dialogueBox, gs.dialogueBox.selectBox
  {
    if key == "tree" then outcome == Done && TreeDone(gs, w, args)
    else if key == "chest" then ChestDone(gs, w, args, outcome)
    else if key == "exit" then
      outcome == Done && gs.State() == w && gs.escapeMenuVisible == old(gs.escapeMenuVisible) && gs.dialogueBox.Closed()
    else if key == "accomodation" then outcome == Done && AccomDone(gs, w)
    else if key == "chat" then outcome == Done && ChatDone(gs, w, args, chatHours)
    else if key == "eat" then EatDone(gs, w, args, outcome)
    else if key == "comp_sci" || key == "rch" then StudyDone(gs, w, args, outcome)
    else outcome == Done && LeisureDone(gs, w, key, args)
  }

  /** event(key, params): what the handler of the key does with the
      parameters split at ';'. A key without a handler of its own, the three
      keys of the first switch included, gets "This is a <key>!". Only
      teleport touches the map manager. */
  twostate predicate EventDone(gs: GameScreen, w: World, key: string, args: seq<string>, env: Env, outcome: Outcome)
    reads gs, gs.eventManager, gs.dialogueBox, gs.dialogueBox.selectBox, gs.mapManager
  {
    if key == "teleport" then outcome == Done && TeleportDone(gs, w, args, env)
    else unchanged(gs.mapManager) && ScreenDone(gs, w, key, args, env.chatHours, outcome)
  }

  class EventManager {
    /** The per-day flags of objectInteractions: the keys of the CATALOG
        entries performed today. */
    var performed: set<string>
    const talkTopics: seq<string>

    ghost predicate Valid()
    {
      talkTopics == TOPICS
    }

    constructor ()
      ensures Valid() && performed == {}
    {
      performed := {};
      talkTopics := TOPICS;
    }

    /** advanceDay: every interaction's per-day flag is cleared; prompts and
        costs stay. */
    method AdvanceDay()
      modifies this`performed
      ensures performed == ResetAll(old(performed))
    {
      var keys := CATALOG.Keys;
      while keys != {}
        invariant keys <= CATALOG.Keys
        invariant performed == old(performed) - (CATALOG.Keys - keys)
        decreases keys
      {
        var k :| k in keys;
        performed := performed - {k};
        keys := keys - {k};
      }
    }

    /** hasCustomObjectInteraction: the key has an entry in the catalog. */
    method HasCustomObjectInteraction(key: string) returns (b: bool)
      ensures b <==> key in CATALOG
    {
      b := key in CATALOG;
    }

    /** getObjectInteraction: a key naming a teleporter reads "teleport";
        otherwise the key's catalog prompt, and a key outside the catalog is a
        null dereference (None). */
    method GetObjectInteraction(key: string) returns (r: Option<string>)
      ensures Contains(key, "teleport") ==> r == Some("teleport")
      ensures !Contains(key, "teleport") && key in CATALOG ==> r == Some(CATALOG[key].text)
      ensures !Contains(key, "teleport") && key !in CATALOG ==> r == None
    {
      if Contains(key, "teleport") {
        r := Some("teleport");
      } else if key in CATALOG {
        r := Some(CATALOG[key].text);
      } else {
        r := None;
      }
    }

    /** The question keyDown asks before an object's event: the custom
        interaction text when the catalog has one, else "Interact with
        <event>?". */
    method PromptText(event: string, width: int) returns (text: string)
      requires width > 0
      ensures text == Prompt(event) && Displayable(text, width)
    {
      var custom := HasCustomObjectInteraction(event);
      if custom {
        var prompt := GetObjectInteraction(event);
        text := prompt.value;
        if !Contains(event, "teleport") {
          CatalogPromptsStart(event);
        }
      } else {
        text := InteractText(event);
      }
      StartsDisplayable(text, width);
    }

    /** randomTopics: `amount` different topics, in the order drawn. A draw
        that repeats an earlier topic is retried, so each kept draw is one of
        the topics not yet chosen. */
    method RandomTopics(amount: nat) returns (topics: seq<string>)
      requires Distinct(talkTopics) && amount <= |talkTopics|
      ensures |topics| == amount && Distinct(topics)
      ensures forall i :: 0 <= i < |topics| ==> topics[i] in talkTopics
    {
      DistinctCard(talkTopics);
      topics := [];
      var remaining := Elems(talkTopics);
      while |topics| < amount
        invariant |topics| <= amount && Distinct(topics)
        invariant forall x :: x in remaining ==> x in talkTopics
        invariant forall i :: 0 <= i < |topics| ==> topics[i] in talkTopics && topics[i] !in remaining
        invariant |remaining| + |topics| == |talkTopics|
        decreases amount - |topics|
      {
        var choice :| choice in remaining;
        DistinctSnoc(topics, choice);
        topics := topics + [choice];
        remaining := remaining - {choice};
      }
    }

    // -------------------------------------------------------------------------
    // Event handlers; `gs` is the game screen the manager belongs to

    /** perform() on the entry under `key`, if there is one. */
    method Perform(key: string)
      modifies this`performed
      ensures performed == GameState.Perform(old(performed), key)
    {
      if key in CATALOG {
        performed := performed + {key};
      }
    }

    /** hideSelectBox() when `hideMenu`, then setText(text). */
    method Say(gs: GameScreen, text: string, hideMenu: bool)
      requires gs.Valid() && gs.eventManager == this && Displayable(text, gs.dialogueBox.maxChars)
      modifies gs.dialogueBox, gs.dialogueBox.selectBox`visible
      ensures gs.Valid() && gs.Answered(old(gs.State()), text, hideMenu)
    {
      if hideMenu {
        gs.dialogueBox.HideSelectBox();
      }
      gs.dialogueBox.SetText(text);
    }

    /** treeEvent, then perform() on the entry the argument names. */
    method TreeEvent(gs: GameScreen, args: seq<string>)
      requires gs.Valid() && gs.eventManager == this
      modifies gs.dialogueBox, gs.dialogueBox.selectBox`visible, this`performed
      ensures gs.Valid() && TreeDone(gs, old(gs.State()), args)
    {
      StartsDisplayable(TREE_TEXT, gs.dialogueBox.maxChars);
      Say(gs, TREE_TEXT, true);
      if |args| >= 1 {
        Perform(args[0]);
      }
    }

    /** chestEvent, then perform() on the entry the first argument names. */
    method ChestEvent(gs: GameScreen, args: seq<string>) returns (outcome: Outcome)
      requires gs.Valid() && gs.eventManager == this
      modifies gs.dialogueBox, gs.dialogueBox.selectBox`visible, this`performed
      ensures gs.Valid() && ChestDone(gs, old(gs.State()), args, outcome)
    {
      StartsDisplayable(CHEST_TEXT, gs.dialogueBox.maxChars);
      Say(gs, CHEST_TEXT, true);
      if |args| == 0 {
        return Crash("ArrayIndexOutOfBoundsException");
      }
      Perform(args[0]);
      outcome := Done;
    }

    /** objectEvent: the text for an object without a handler of its own. */
    method ObjectEvent(gs: GameScreen, key: string)
      requires gs.Valid() && gs.eventManager == this
      modifies gs.dialogueBox, gs.dialogueBox.selectBox`visible
      ensures gs.Valid() && gs.Answered(old(gs.State()), ObjectText(key), true)
    {
      StartsDisplayable(ObjectText(key), gs.dialogueBox.maxChars);
      Say(gs, ObjectText(key), true);
    }

    /** decreaseEnergy(cost), then passTime(minutes): the first two steps
        of every activity. */
    method Spend(gs: GameScreen, cost: int, minutes: int)
      requires gs.Valid() && gs.eventManager == this
      modifies gs`energy, gs`daySeconds, gs`day, gs`gameOvers, this`performed
      ensures gs.Valid() && gs.State() == PassTime(DecreaseEnergy(old(gs.State()), cost), minutes)
    {
      gs.DecreaseEnergy(cost);
      gs.PassTime(minutes);
    }

    /** chatEvent; `hours` is the random chat length. */
    method ChatEvent(gs: GameScreen, args: seq<string>, hours: int)
      requires gs.Valid() && gs.eventManager == this && 1 <= hours <= 3
      modifies gs, gs.dialogueBox, gs.dialogueBox.selectBox, this`performed
      ensures gs.Valid() && ChatDone(gs, old(gs.State()), args, hours)
    {
      if gs.daySeconds > 8 * 60 {
        CatalogCosts();
        var energyCost := CATALOG["chat"].energyCost;
        if gs.energy < energyCost {
          StartsDisplayable(CHAT_TIRED, gs.dialogueBox.maxChars);
          Say(gs, CHAT_TIRED, false);
        } else if |args| == 0 {
          AskTopic(gs);
        } else {
          StartsDisplayable(ChatText(args[0], hours), gs.dialogueBox.maxChars);
          ChatFor(gs, args[0], hours, ChatText(args[0], hours), energyCost);
        }
      } else {
        StartsDisplayable(CHAT_EARLY, gs.dialogueBox.maxChars);
        Say(gs, CHAT_EARLY, false);
      }
    }

    /** chatEvent without a topic: three different topics to choose from. */
    method AskTopic(gs: GameScreen)
      requires gs.Valid() && gs.eventManager == this
      modifies gs.dialogueBox, gs.dialogueBox.selectBox
      ensures gs.Valid() && gs.State() == old(gs.State()) && gs.escapeMenuVisible == old(gs.escapeMenuVisible)
      ensures var topics := gs.dialogueBox.selectBox.options;
        && |topics| == 3 && Distinct(topics) && (forall i :: 0 <= i < 3 ==> topics[i] in TOPICS)
        && gs.dialogueBox.Asked(CHAT_QUESTION, topics, CHAT_EVENTS, topics)
    {
      TopicsDistinct();
      var topics := RandomTopics(3);
      StartsDisplayable(CHAT_QUESTION, gs.dialogueBox.maxChars);
      gs.dialogueBox.SetText(CHAT_QUESTION);
      gs.dialogueBox.selectBox.SetOptions(topics, CHAT_EVENTS, topics);
    }

    /** chatEvent with a topic: setText(text), then the chat lasts `hours`
        hours at `cost` energy an hour, and the topic's entry, if any, is
        performed. */
    method ChatFor(gs: GameScreen, topic: string, hours: int, text: string, cost: int)
      requires gs.Valid() && gs.eventManager == this && 1 <= hours <= 3 && Displayable(text, gs.dialogueBox.maxChars)
      modifies gs, gs.dialogueBox, this`performed
      ensures gs.Valid()
      ensures gs.Answered(GameState.Chat(old(gs.State()), hours, cost, topic), text, false)
    {
      gs.dialogueBox.SetText(text);
      SpendChat(gs, topic, hours, cost);
    }

    /** The numbers of a chat: `hours` hours at `cost` energy an hour, the
        recreational hours recorded, the topic's entry performed. */
    method SpendChat(gs: GameScreen, topic: string, hours: int, cost: int)
      requires gs.Valid() && gs.eventManager == this
      modifies gs`energy, gs`daySeconds, gs`day, gs`gameOvers, gs`hoursRecreational, this`performed
      ensures gs.Valid() && gs.State() == GameState.Chat(old(gs.State()), hours, cost, topic)
    {
      Spend(gs, Wrap32(cost * hours), Wrap32(hours * 60));
      gs.AddRecreationalHours(hours);
      Perform(topic);
    }

    /** compSciEvent, the handler of comp_sci and rch. */
    method CompSciEvent(gs: GameScreen, args: seq<string>) returns (outcome: Outcome)
      requires gs.Valid() && gs.eventManager == this
      modifies gs, gs.dialogueBox, gs.dialogueBox.selectBox, this`performed
      ensures gs.Valid() && StudyDone(gs, old(gs.State()), args, outcome)
    {
      outcome := Done;
      if gs.daySeconds > 8 * 60 {
        CatalogCosts();
        var energyCost := CATALOG["comp_sci"].energyCost;
        if gs.energy < energyCost {
          StartsDisplayable(STUDY_TIRED, gs.dialogueBox.maxChars);
          Say(gs, STUDY_TIRED, true);
        } else if |args| == 0 {
          AskHours(gs);
        } else {
          outcome := StudyArg(gs, args[0], energyCost);
        }
      } else {
        StartsDisplayable(STUDY_EARLY, gs.dialogueBox.maxChars);
        Say(gs, STUDY_EARLY, false);
      }
    }

    /** compSciEvent without an argument: 2, 3 or 4 hours to choose from. */
    method AskHours(gs: GameScreen)
      requires gs.Valid() && gs.eventManager == this
      modifies gs.dialogueBox, gs.dialogueBox.selectBox
      ensures gs.Valid() && gs.State() == old(gs.State()) && gs.escapeMenuVisible == old(gs.escapeMenuVisible)
      ensures gs.dialogueBox.Asked(STUDY_QUESTION, STUDY_OPTIONS, STUDY_EVENTS, STUDY_HOURS)
    {
      StartsDisplayable(STUDY_QUESTION, gs.dialogueBox.maxChars);
      gs.dialogueBox.SetText(STUDY_QUESTION);
      gs.dialogueBox.selectBox.SetOptions(STUDY_OPTIONS, STUDY_EVENTS, STUDY_HOURS);
    }

    /** compSciEvent with an argument: it must parse as an int, the number of
        hours; the study is refused when hours * cost is more energy than
        the player has. */
    method StudyArg(gs: GameScreen, arg: string, cost: int) returns (outcome: Outcome)
      requires gs.Valid() && gs.eventManager == this
      modifies gs, gs.dialogueBox, gs.dialogueBox.selectBox`visible, this`performed
      ensures gs.Valid()
      ensures ParseInt(arg).None? ==> outcome == Crash("NumberFormatException") && gs.Untouched(old(gs.State()))
      ensures ParseInt(arg).Some? ==>
        var hours := ParseInt(arg).value;
        var total := Wrap32(hours * cost);
        && outcome == Done
        && if old(gs.energy) < total then gs.Answered(old(gs.State()), STUDY_TOO_LONG, false)
           else gs.Answered(GameState.Study(old(gs.State()), hours, cost, arg), StudyText(arg, total), false)
    {
      var hours := ParseInt(arg);
      if hours.None? {
        return Crash("NumberFormatException");
      }
      outcome := Done;
      var total := Wrap32(hours.value * cost);
      if gs.energy < total {
        StartsDisplayable(STUDY_TOO_LONG, gs.dialogueBox.maxChars);
        Say(gs, STUDY_TOO_LONG, false);
      } else {
        var text := StudyText(arg, total);
        StartsDisplayable(text, gs.dialogueBox.maxChars);
        StudyFor(gs, arg, hours.value, text, cost);
      }
    }

    /** compSciEvent with the hours chosen: setText(text), then `hours` hours
        of study at `cost` energy an hour; the entry named by the hours, if
        any, is performed. */
    method StudyFor(gs: GameScreen, arg: string, hours: int, text: string, cost: int)
      requires gs.Valid() && gs.eventManager == this && Displayable(text, gs.dialogueBox.maxChars)
      modifies gs, gs.dialogueBox, this`performed
      ensures gs.Valid()
      ensures gs.Answered(GameState.Study(old(gs.State()), hours, cost, arg), text, false)
    {
      gs.dialogueBox.SetText(text);
      SpendStudy(gs, arg, hours, cost);
    }

    /** The numbers of a study session: hours * cost energy, the study hours
        recorded, then the hours pass and the entry is performed. */
    method SpendStudy(gs: GameScreen, arg: string, hours: int, cost: int)
      requires gs.Valid() && gs.eventManager == this
      modifies gs`energy, gs`daySeconds, gs`day, gs`gameOvers, gs`hoursStudied, this`performed
      ensures gs.Valid() && gs.State() == GameState.Study(old(gs.State()), hours, cost, arg)
    {
      gs.DecreaseEnergy(Wrap32(cost * hours));
      gs.AddStudyHours(hours);
      gs.PassTime(Wrap32(hours * 60));
      Perform(arg);
    }

    /** eatEvent: the first argument, or "eat", names the entry paid for. */
    method EatEvent(gs: GameScreen, args: seq<string>) returns (outcome: Outcome)
      requires gs.Valid() && gs.eventManager == this
      modifies gs, gs.dialogueBox, gs.dialogueBox.selectBox, this`performed
      ensures gs.Valid() && EatDone(gs, old(gs.State()), args, outcome)
    {
      var key := "eat";
      if |args| >= 1 {
        key := args[0];
      }
      outcome := Done;
      if gs.daySeconds > 8 * 60 {
        if key !in CATALOG {
          return Crash("NullPointerException");
        }
        var energyCost := CATALOG[key].energyCost;
        if gs.energy < energyCost {
          StartsDisplayable(EAT_TIRED, gs.dialogueBox.maxChars);
          Say(gs, EAT_TIRED, false);
        } else {
          var text := EatText(MealAt(gs.daySeconds), energyCost);
          StartsDisplayable(text, gs.dialogueBox.maxChars);
          EatFor(gs, key, text, energyCost);
        }
      } else {
        StartsDisplayable(EAT_EARLY, gs.dialogueBox.maxChars);
        Say(gs, EAT_EARLY, false);
      }
    }

    /** eatEvent once the gates are passed: setText(text), an hour passes for
        `cost` energy and the entry under `key` is performed. */
    method EatFor(gs: GameScreen, key: string, text: string, cost: int)
      requires gs.Valid() && gs.eventManager == this && Displayable(text, gs.dialogueBox.maxChars)
      modifies gs, gs.dialogueBox, this`performed
      ensures gs.Valid()
      ensures gs.Answered(GameState.Meal(old(gs.State()), cost, key), text, false)
    {
      gs.dialogueBox.SetText(text);
      SpendMeal(gs, key, cost);
    }

    /** The numbers of a meal: an hour passes for `cost` energy and the
        entry under `key` is performed. */
    method SpendMeal(gs: GameScreen, key: string, cost: int)
      requires gs.Valid() && gs.eventManager == this
      modifies gs`energy, gs`daySeconds, gs`day, gs`gameOvers, this`performed
      ensures gs.Valid() && gs.State() == GameState.Meal(old(gs.State()), cost, key)
    {
      Spend(gs, cost, 60);
      Perform(key);
    }

    /** accomEvent: the player falls asleep, the dialogue box closes, and the
        night's sleep up to the next 8:00 is queued behind the fade to black. */
    method AccomEvent(gs: GameScreen)
      requires gs.Valid() && gs.eventManager == this
      modifies gs, gs.dialogueBox, gs.dialogueBox.selectBox
      ensures gs.Valid() && AccomDone(gs, old(gs.State()))
    {
      gs.SetSleeping(true);
      gs.dialogueBox.Hide();
      var secondsSlept;
      if gs.daySeconds < 60 * 8 {
        secondsSlept := 60 * 8 - gs.daySeconds;
      } else {
        secondsSlept := (60 * 8 + 1440) - gs.daySeconds;
      }
      // Math.round(secondsSlept / 60f) for a whole number of minutes
      var hoursSlept := (secondsSlept + 30) / 60;
      FadeToBlack(gs, SleepAction(hoursSlept, secondsSlept));
    }

    /** fadeToBlack(runnable): the runnable waits for the end of the fade. */
    method FadeToBlack(gs: GameScreen, a: Action)
      modifies gs`pending
      ensures gs.State() == old(gs.State()).(pending := old(gs.pending) + [a])
    {
      gs.pending := gs.pending + [a];
    }

    /** fadeFromBlack: while the player sleeps, the wake-up waits for the
        end of the fade back in. */
    method FadeFromBlack(gs: GameScreen)
      modifies gs`pending
      ensures gs.State() == SystemEffect(old(gs.State()), "fadefromblack")
    {
      if gs.sleeping {
        gs.pending := gs.pending + [WakeAction];
      }
    }

    /** teleportEvent: the spawn point, when given, must be two floats
        separated by a comma before loadMap is called; every failure is
        caught and reported. */
    method TeleportEvent(gs: GameScreen, args: seq<string>, env: Env)
      requires gs.Valid() && gs.eventManager == this
      modifies gs.dialogueBox, gs.dialogueBox.selectBox`visible, gs.mapManager
      ensures gs.Valid() && TeleportDone(gs, old(gs.State()), args, env)
    {
      if TeleportAttempt(args, env.isFloat) {
        TeleportTo(gs, args[0], env.disk);
      } else {
        StartsDisplayable(TELEPORT_FAILED, gs.dialogueBox.maxChars);
        Say(gs, TELEPORT_FAILED, false);
      }
    }

    /** teleportEvent once the arguments are read: loadMap(path), then the
        dialogue box is hidden; a failure of loadMap is reported instead. */
    method TeleportTo(gs: GameScreen, path: string, disk: map<string, TiledMap>)
      requires gs.Valid() && gs.eventManager == this
      modifies gs.dialogueBox, gs.dialogueBox.selectBox`visible, gs.mapManager
      ensures gs.Valid() && TeleportedTo(gs, old(gs.State()), path, disk)
    {
      var loaded := gs.mapManager.LoadMap(path, disk);
      ReportTeleport(gs, loaded.Ok?);
    }

    /** The end of teleportEvent: hide() once the map has loaded, otherwise
        the failure is caught and "Teleport failed!" is shown. */
    method ReportTeleport(gs: GameScreen, loaded: bool)
      requires gs.Valid() && gs.eventManager == this
      modifies gs.dialogueBox, gs.dialogueBox.selectBox`visible
      ensures gs.Valid() && gs.State() == old(gs.State()) && gs.escapeMenuVisible == old(gs.escapeMenuVisible)
      ensures if loaded then gs.dialogueBox.Closed() else gs.dialogueBox.Replied(TELEPORT_FAILED, false)
    {
      if loaded {
        gs.dialogueBox.Hide();
      } else {
        StartsDisplayable(TELEPORT_FAILED, gs.dialogueBox.maxChars);
        Say(gs, TELEPORT_FAILED, false);
      }
    }

    /** ducksEvent and basketballEvent: refused before 8:00 or when too
        tired, otherwise an hour of recreation. */
    method RecreationEvent(gs: GameScreen, cost: int, early: string, tired: string, done: string)
      requires gs.Valid() && gs.eventManager == this
      requires Displayable(early, gs.dialogueBox.maxChars) && Displayable(tired, gs.dialogueBox.maxChars)
      requires Displayable(done, gs.dialogueBox.maxChars)
      modifies gs, gs.dialogueBox, gs.dialogueBox.selectBox`visible, this`performed
      ensures gs.Valid() && RecreationDone(gs, old(gs.State()), cost, early, tired, done)
    {
      if gs.daySeconds > 8 * 60 {
        if gs.energy < cost {
          Say(gs, tired, false);
        } else {
          RecreationFor(gs, cost, done);
        }
      } else {
        Say(gs, early, false);
      }
    }

    /** ducksEvent and basketballEvent once the gates are passed. */
    method RecreationFor(gs: GameScreen, cost: int, text: string)
      requires gs.Valid() && gs.eventManager == this && Displayable(text, gs.dialogueBox.maxChars)
      modifies gs, gs.dialogueBox, this`performed
      ensures gs.Valid() && gs.Answered(GameState.Recreation(old(gs.State()), cost), text, false)
    {
      gs.dialogueBox.SetText(text);
      SpendRecreation(gs, cost);
    }

    /** The numbers of an hour of recreation: `cost` energy, then one
        recreational hour. */
    method SpendRecreation(gs: GameScreen, cost: int)
      requires gs.Valid() && gs.eventManager == this
      modifies gs`energy, gs`daySeconds, gs`day, gs`gameOvers, gs`hoursRecreational, this`performed
      ensures gs.Valid() && gs.State() == GameState.Recreation(old(gs.State()), cost)
    {
      Spend(gs, cost, 60);
      gs.AddRecreationalHours(1);
    }

    /** cookEvent: refused before 8:00 or when too tired, otherwise an hour
        of cooking the meal served at that time. */
    method CookEvent(gs: GameScreen, args: seq<string>)
      requires gs.Valid() && gs.eventManager == this
      modifies gs, gs.dialogueBox, gs.dialogueBox.selectBox`visible, this`performed
      ensures gs.Valid() && CookDone(gs, old(gs.State()), args)
    {
      if gs.daySeconds > 8 * 60 {
        CatalogCosts();
        var energyCost := CATALOG["cook"].energyCost;
        if gs.energy < energyCost {
          StartsDisplayable(COOK_TIRED, gs.dialogueBox.maxChars);
          Say(gs, COOK_TIRED, false);
        } else {
          var text := CookText(MealAt(gs.daySeconds), energyCost);
          StartsDisplayable(text, gs.dialogueBox.maxChars);
          CookFor(gs, args, text, energyCost);
        }
      } else {
        StartsDisplayable(COOK_EARLY, gs.dialogueBox.maxChars);
        Say(gs, COOK_EARLY, false);
      }
    }

    /** cookEvent once the gates are passed. */
    method CookFor(gs: GameScreen, args: seq<string>, text: string, cost: int)
      requires gs.Valid() && gs.eventManager == this && Displayable(text, gs.dialogueBox.maxChars)
      modifies gs, gs.dialogueBox, this`performed
      ensures gs.Valid() && gs.Answered(Performed(PassTime(DecreaseEnergy(old(gs.State()), cost), 60), args), text, false)
    {
      gs.dialogueBox.SetText(text);
      SpendCook(gs, args, cost);
    }

    /** The numbers of an hour of cooking: `cost` energy, then the entry the
        first argument names, if any, is performed. */
    method SpendCook(gs: GameScreen, args: seq<string>, cost: int)
      requires gs.Valid() && gs.eventManager == this
      modifies gs`energy, gs`daySeconds, gs`day, gs`gameOvers, this`performed
      ensures gs.Valid() && gs.State() == Performed(PassTime(DecreaseEnergy(old(gs.State()), cost), 60), args)
    {
      Spend(gs, cost, 60);
      if |args| >= 1 {
        Perform(args[0]);
      }
    }

    /** The first switch of event(): fadefromblack, fadetoblack (the screen
        darkens, nothing else) and gameover. */
    method SystemEvent(gs: GameScreen, key: string)
      modifies gs`pending, gs`gameOvers
      ensures gs.State() == SystemEffect(old(gs.State()), key)
    {
      if key == "fadefromblack" {
        FadeFromBlack(gs);
      } else if key == "gameover" {
        gs.GameOver();
      }
    }

    /** A key of the first switch: its effect, then objectEvent, since the
        second switch has no case for it. */
    method SystemObjectEvent(gs: GameScreen, key: string)
      requires gs.Valid() && gs.eventManager == this
      modifies gs`pending, gs`gameOvers, gs.dialogueBox, gs.dialogueBox.selectBox`visible
      ensures gs.Valid() && gs.Answered(SystemEffect(old(gs.State()), key), ObjectText(key), true)
    {
      SystemEvent(gs, key);
      ObjectEvent(gs, key);
    }

    /** The sleep callback queued by accomEvent, run when the fade to black
        ends; it does nothing once the player is awake. */
    method SleptCallback(gs: GameScreen, hours: int, seconds: int)
      requires gs.Valid() && gs.eventManager == this
      modifies gs, gs.dialogueBox, this`performed
      ensures gs.Valid() && SleptDone(gs, old(gs.State()), hours, seconds)
    {
      if gs.sleeping {
        var text := SleepText(hours);
        StartsDisplayable(text, gs.dialogueBox.maxChars);
        gs.dialogueBox.Show();
        gs.dialogueBox.SetTextWithEvent(text, "fadefromblack");
        SpendNight(gs, hours, seconds);
      }
    }

    /** The numbers of a night: energy set from the hours slept, the night
        passes, then the slept hours are recorded. */
    method SpendNight(gs: GameScreen, hours: int, seconds: int)
      requires gs.Valid() && gs.eventManager == this
      modifies gs`energy, gs`daySeconds, gs`day, gs`gameOvers, gs`hoursSlept, this`performed
      ensures gs.Valid() && gs.State() == Sleep(old(gs.State()), hours, seconds)
    {
      gs.SetEnergy(Wrap32(hours * 13));
      gs.PassTime(seconds);
      gs.AddSleptHours(hours);
    }

    /** The wake-up callback queued by fadeFromBlack, run when the fade back
        in ends; it does nothing once the player is awake. */
    method WokenCallback(gs: GameScreen)
      requires gs.Valid() && gs.eventManager == this
      modifies gs`sleeping, gs.dialogueBox
      ensures gs.Valid() && WokenDone(gs, old(gs.State()))
    {
      if gs.sleeping {
        gs.ShowWakeUpMessage();
        gs.SetSleeping(false);
      }
    }

    /** The end of a fade: the oldest queued callback is taken off the queue
        and run. */
    method RunPending(gs: GameScreen)
      requires gs.Valid() && gs.eventManager == this
      modifies gs, gs.dialogueBox, this`performed
      ensures gs.Valid()
      ensures old(gs.pending) == [] ==> gs.Untouched(old(gs.State()))
      ensures old(gs.pending) != [] ==>
        var w := old(gs.State()).(pending := old(gs.pending)[1..]);
        match old(gs.pending)[0]
        case SleepAction(hours, seconds) => SleptDone(gs, w, hours, seconds)
        case WakeAction => WokenDone(gs, w)
    {
      if gs.pending != [] {
        var a := gs.pending[0];
        gs.pending := gs.pending[1..];
        match a
        case SleepAction(hours, seconds) => SleptCallback(gs, hours, seconds);
        case WakeAction => WokenCallback(gs);
      }
    }

    /** event(key, params): the parameters are split at ';', then the key's
        handler runs. */
    method Event(gs: GameScreen, key: string, params: string, env: Env) returns (outcome: Outcome)
      requires gs.Valid() && gs.eventManager == this && 1 <= env.chatHours <= 3
      modifies gs, gs.dialogueBox, gs.dialogueBox.selectBox, gs.mapManager, this`performed
      ensures gs.Valid() && EventDone(gs, old(gs.State()), key, Args(params), env, outcome)
      ensures gs.escapeMenuVisible == old(gs.escapeMenuVisible)
    {
      var args := Args(params);
      if key == "teleport" {
        TeleportEvent(gs, args, env);
        outcome := Done;
      } else {
        outcome := ScreenEvent(gs, key, args, env.chatHours);
      }
    }

    /** event() for a key other than teleport: tree, chest, exit and
        accomodation here, the rest by ActivityEvent. */
    method ScreenEvent(gs: GameScreen, key: string, args: seq<string>, chatHours: int) returns (outcome: Outcome)
      requires gs.Valid() && gs.eventManager == this && 1 <= chatHours <= 3
      modifies gs, gs.dialogueBox, gs.dialogueBox.selectBox, this`performed
      ensures gs.Valid() && ScreenDone(gs, old(gs.State()), key, args, chatHours, outcome)
    {
      outcome := Done;
      if key == "tree" {
        TreeEvent(gs, args);
      } else if key == "chest" {
        outcome := ChestEvent(gs, args);
      } else if key == "exit" {
        gs.dialogueBox.Hide();
      } else if key == "accomodation" {
        AccomEvent(gs);
      } else {
        outcome := ActivityEvent(gs, key, args, chatHours);
      }
    }

    /** The rest of event()'s second switch: chat, eat and study, then the
        remaining keys. */
    method ActivityEvent(gs: GameScreen, key: string, args: seq<string>, chatHours: int) returns (outcome: Outcome)
      requires gs.Valid() && gs.eventManager == this && 1 <= chatHours <= 3
      modifies gs, gs.dialogueBox, gs.dialogueBox.selectBox, this`performed
      ensures gs.Valid()
      ensures if key == "chat" then outcome == Done && ChatDone(gs, old(gs.State()), args, chatHours)
        else if key == "eat" then EatDone(gs, old(gs.State()), args, outcome)
        else if key == "comp_sci" || key == "rch" then StudyDone(gs, old(gs.State()), args, outcome)
        else outcome == Done && LeisureDone(gs, old(gs.State()), key, args)
    {
      outcome := Done;
      if key == "chat" {
        ChatEvent(gs, args, chatHours);
      } else if key == "eat" {
        outcome := EatEvent(gs, args);
      } else if key == "comp_sci" || key == "rch" {
        outcome := CompSciEvent(gs, args);
      } else {
        LeisureEvent(gs, key, args);
      }
    }

    /** The last cases of event()'s second switch: basketball, ducks and
        cook, then objectEvent for any other key. */
    method LeisureEvent(gs: GameScreen, key: string, args: seq<string>)
      requires gs.Valid() && gs.eventManager == this
      modifies gs, gs.dialogueBox, gs.dialogueBox.selectBox`visible, this`performed
      ensures gs.Valid() && LeisureDone(gs, old(gs.State()), key, args)
    {
      if key == "basketball" {
        BasketballEvent(gs);
      } else if key == "ducks" {
        DucksEvent(gs);
      } else if key == "cook" {
        CookEvent(gs, args);
      } else if key == "fadefromblack" || key == "fadetoblack" || key == "gameover" {
        SystemObjectEvent(gs, key);
      } else {
        ObjectEvent(gs, key);
      }
    }

    /** basketballEvent: 20 energy for an hour of basketball. */
    method BasketballEvent(gs: GameScreen)
      requires gs.Valid() && gs.eventManager == this
      modifies gs, gs.dialogueBox, gs.dialogueBox.selectBox`visible, this`performed
      ensures gs.Valid() && RecreationDone(gs, old(gs.State()), 20, BASKETBALL_EARLY, BASKETBALL_TIRED, BasketballText(20))
    {
      CatalogCosts();
      var cost := CATALOG["basketball"].energyCost;
      StartsDisplayable(BASKETBALL_EARLY, gs.dialogueBox.maxChars);
      StartsDisplayable(BASKETBALL_TIRED, gs.dialogueBox.maxChars);
      StartsDisplayable(BasketballText(cost), gs.dialogueBox.maxChars);
      RecreationEvent(gs, cost, BASKETBALL_EARLY, BASKETBALL_TIRED, BasketballText(cost));
    }

    /** ducksEvent: 10 energy for an hour of feeding the ducks. */
    method DucksEvent(gs: GameScreen)
      requires gs.Valid() && gs.eventManager == this
      modifies gs, gs.dialogueBox, gs.dialogueBox.selectBox`visible, this`performed
      ensures gs.Valid() && RecreationDone(gs, old(gs.State()), 10, DUCKS_EARLY, DUCKS_TIRED, DucksText(10))
    {
      CatalogCosts();
      var cost := CATALOG["ducks"].energyCost;
      StartsDisplayable(DUCKS_EARLY, gs.dialogueBox.maxChars);
      StartsDisplayable(DUCKS_TIRED, gs.dialogueBox.maxChars);
      StartsDisplayable(DucksText(cost), gs.dialogueBox.maxChars);
      RecreationEvent(gs, cost, DUCKS_EARLY, DUCKS_TIRED, DucksText(cost));
    }
  }

  /** The path of the map a new game starts on. */
  const MAP_PATH: string := "MapAssetsV2/Maps/Accomodation.tmx"

  /** How many whole days `t` minutes hold, given that the loop took `k` of
      them off and stopped below one day. */
  lemma WrapsCount(t: int, k: nat)
    requires t - DAY_LENGTH * k < DAY_LENGTH
    requires k > 0 ==> 0 <= t - DAY_LENGTH * k
    ensures Wraps(t) == k
  {
    if k > 0 {
      assert DAY_LENGTH * k <= t < DAY_LENGTH * (k + 1);
    }
  }

  class GameScreen {
    var energy: int
    var hoursStudied: int
    var hoursRecreational: int
    var hoursSlept: int
    /** Minutes since midnight of the current day (daySeconds). */
    var daySeconds: int
    var day: int
    var sleeping: bool
    var escapeMenuVisible: bool
    /** The scores handed to the leaderboard by GameOver, in order. */
    var gameOvers: seq<int>
    /** Callbacks queued on the black screen behind a fade, oldest first. */
    var pending: seq<Action>
    const eventManager: EventManager
    const dialogueBox: DialogueBox
    const mapManager: MapManager

    /** The game's numbers as a value. */
    ghost function State(): World
      reads this, eventManager
    {
      World(energy, hoursStudied, hoursRecreational, hoursSlept, daySeconds, day, sleeping,
            gameOvers, pending, eventManager.performed)
    }

    /** The dialogue box and topic list are well formed and the clock reads a
        time before midnight. */
    ghost predicate Valid()
      reads this, dialogueBox, dialogueBox.selectBox
    {
      dialogueBox.Valid() && eventManager.Valid() && daySeconds < DAY_LENGTH
    }

    /** The numbers are now `w`, the escape menu is as it was, and the dialogue
        box answered with `text` (after hiding its menu when `menuClosed`). */
    twostate predicate Answered(w: World, text: string, menuClosed: bool)
      reads this, eventManager, dialogueBox, dialogueBox.selectBox
    {
      State() == w && escapeMenuVisible == old(escapeMenuVisible) && dialogueBox.Replied(text, menuClosed)
    }

    /** The numbers are `w`, and neither the escape menu nor the dialogue box changed. */
    twostate predicate Untouched(w: World)
      reads this, eventManager, dialogueBox, dialogueBox.selectBox
    {
      State() == w && escapeMenuVisible == old(escapeMenuVisible) && unchanged(dialogueBox, dialogueBox.selectBox)
    }

    /** A new game: day 1 at 8:00 with full energy and no hours, the escape
        menu closed and the dialogue box hidden. The constructor's map loading
        is LoadStartingMap and its closing greeting ShowWakeUpMessage. */
    constructor ()
      ensures Valid()
      ensures State() == InitialWorld()
      ensures !escapeMenuVisible
      ensures !dialogueBox.visible && !dialogueBox.selectBox.visible && dialogueBox.eventKey == None
      ensures mapManager.currentMap.None?
      ensures fresh(dialogueBox) && fresh(dialogueBox.selectBox) && fresh(eventManager) && fresh(mapManager)
    {
      energy := 100;
      hoursStudied, hoursRecreational, hoursSlept := 0, 0, 0;
      daySeconds := 8 * 60;
      day := 1;
      sleeping := false;
      escapeMenuVisible := false;
      gameOvers := [];
      pending := [];
      eventManager := new EventManager();
      mapManager := new MapManager();
      dialogueBox := new DialogueBox();
      new;
      dialogueBox.Hide();
    }

    /** The good-morning message: the dialogue box opens on the number of
        days left before the exam; its menu and scheduled event are kept. */
    method ShowWakeUpMessage()
      requires Valid()
      modifies dialogueBox
      ensures Valid()
      ensures dialogueBox.visible && dialogueBox.Says(WakeUpMessage(day))
      ensures dialogueBox.EventKept() && dialogueBox.MenuKept() && dialogueBox.selectBox.visible == old(dialogueBox.selectBox.visible)
    {
      dialogueBox.Show();
      WakeUpDisplayable(day, dialogueBox.maxChars);
      dialogueBox.SetText(WakeUpMessage(day));
    }

    /** The constructor's map loading: the starting map, then the spawn point
        on it; either failing is an exception that stops the game. */
    method LoadStartingMap(disk: map<string, TiledMap>) returns (r: Result<Point, Failure>)
      modifies mapManager
      ensures MAP_PATH !in old(mapManager.loadedMaps) && MAP_PATH !in disk ==>
        r == Err(RuntimeError("Failed to load the map"))
      ensures r.Ok? ==> mapManager.currentMap.Some? && mapManager.Spawn() == r
      ensures !Loads(MAP_PATH, old(mapManager.loadedMaps), disk) ==> r.Err?
      ensures var found := MapAt(MAP_PATH, old(mapManager.loadedMaps), disk);
        found.Some? && !Loads(MAP_PATH, old(mapManager.loadedMaps), disk) ==>
          r == Err(InstallOutcome(found.value).error)
      ensures Loads(MAP_PATH, old(mapManager.loadedMaps), disk) ==>
        var m := MapAt(MAP_PATH, old(mapManager.loadedMaps), disk).value;
        var k := m.properties["interactLayer"].number;
        0 <= k < |m.layers| && r == FindSpawn(m.layers[k])
    {
      var m := mapManager.LoadMap(MAP_PATH, disk);
      if m.Err? {
        return Err(m.error);
      }
      r := mapManager.Spawn();
    }

    // -------------------------------------------------------------------------
    // Setters, each specified by its GameState counterpart

    method SetEnergy(e: int)
      modifies this`energy
      ensures State() == GameState.SetEnergy(old(State()), e)
    {
      energy := e;
      if energy > 100 {
        energy := 100;
      }
    }

    method DecreaseEnergy(amount: int)
      modifies this`energy
      ensures State() == GameState.DecreaseEnergy(old(State()), amount)
    {
      energy := Wrap32(energy - amount);
      if energy < 0 {
        energy := 0;
      }
    }

    method AddStudyHours(hours: int)
      modifies this`hoursStudied
      ensures State() == GameState.AddStudyHours(old(State()), hours)
    {
      hoursStudied := Wrap32(hoursStudied + hours);
    }

    method AddRecreationalHours(hours: int)
      modifies this`hoursRecreational
      ensures State() == GameState.AddRecreationalHours(old(State()), hours)
    {
      hoursRecreational := Wrap32(hoursRecreational + hours);
    }

    method AddSleptHours(hours: int)
      modifies this`hoursSlept
      ensures State() == GameState.AddSleptHours(old(State()), hours)
    {
      hoursSlept := Wrap32(hoursSlept + hours);
    }

    method SetSleeping(b: bool)
      modifies this`sleeping
      ensures State() == old(State()).(sleeping := b)
    {
      sleeping := b;
    }

    /** GameOver: the score goes to the leaderboard (here: is recorded). */
    method GameOver()
      modifies this`gameOvers
      ensures State() == GameState.GameOver(old(State()))
    {
      gameOvers := gameOvers + [Score(hoursStudied, hoursRecreational, hoursSlept)];
    }

    /** passTime: the clock moves on by `delta` minutes, then advanceDay. */
    method PassTime(delta: int)
      requires Valid()
      modifies this`daySeconds, this`day, this`gameOvers, eventManager`performed
      ensures Valid()
      ensures State() == GameState.PassTime(old(State()), delta)
    {
      PassTimeKeepsClock(State(), delta);
      daySeconds := daySeconds + delta;
      AdvanceDay();
    }

    /** advanceDay: while the clock reads a full day or more, a day is taken
        off it, the day counter goes up and the catalog starts a new day;
        then, from day 8 on, the game is over. */
    method AdvanceDay()
      modifies this`daySeconds, this`day, this`gameOvers, eventManager`performed
      ensures State() == GameState.AdvanceDay(old(State()))
    {
      ghost var w0 := State();
      ghost var k: nat := 0;
      while daySeconds >= DAY_LENGTH
        invariant daySeconds == w0.daySeconds - DAY_LENGTH * k && day == w0.day + k
        invariant eventManager.performed == if k > 0 then ResetAll(w0.performed) else w0.performed
        invariant k > 0 ==> 0 <= daySeconds
        invariant gameOvers == w0.gameOvers
        decreases daySeconds
      {
        daySeconds := daySeconds - DAY_LENGTH;
        day := day + 1;
        eventManager.AdvanceDay();
        assert ResetAll(ResetAll(w0.performed)) == ResetAll(w0.performed);
        k := k + 1;
      }
      WrapsCount(w0.daySeconds, k);
      if day >= 8 {
        GameOver();
      }
    }

    // -------------------------------------------------------------------------
    // The keyboard

    /** The object's question is open: the box shows the prompt for `event`
        with "Yes" firing the event with its parameters and "No" firing exit,
        the pointer on "Yes". */
    twostate predicate Prompted(event: string, params: string)
      reads this, dialogueBox, dialogueBox.selectBox
    {
      && dialogueBox.visible && dialogueBox.Says(Prompt(event)) && dialogueBox.EventKept()
      && dialogueBox.selectBox.options == ["Yes", "No"] && dialogueBox.selectBox.events == [event, "exit"]
      && dialogueBox.selectBox.eventParams == [params, ""] && dialogueBox.selectBox.choiceIndex == 0
      && dialogueBox.selectBox.visible
    }

    /** The event confirm hands on when the box is open: the option under
        the pointer when the menu is open; otherwise, once the last page has
        been read, the event scheduled with the text. */
    twostate predicate Entered(new fired: Option<Dispatch>)
      reads this, dialogueBox, dialogueBox.selectBox
    {
      if old(dialogueBox.selectBox.visible) then
        var i := old(dialogueBox.selectBox.choiceIndex);
        && 0 <= i < |old(dialogueBox.selectBox.events)| && i < |old(dialogueBox.selectBox.eventParams)|
        && fired == Some(Dispatch(old(dialogueBox.selectBox.events)[i], old(dialogueBox.selectBox.eventParams)[i]))
      else if !old(dialogueBox.scrollingText) && old(dialogueBox.linePointer) + 1 >= |old(dialogueBox.textLines)|
              && old(dialogueBox.eventKey).Some? && old(dialogueBox.eventParams).Some? then
        fired == Some(Dispatch(old(dialogueBox.eventKey).value, old(dialogueBox.eventParams).value))
      else fired == None
    }

    /** Confirm with the escape menu closed: an open dialogue box takes it
        (and the event it hands on runs); otherwise, next to an object and
        awake, the object's question opens, or its text is shown. */
    twostate predicate Interacted(near: Option<NearObject>, new fired: Option<Dispatch>, new outcome: Outcome)
      reads this, eventManager, dialogueBox, dialogueBox.selectBox, mapManager
    {
      if old(dialogueBox.visible) then
        && Entered(fired) && escapeMenuVisible == old(escapeMenuVisible)
        && (fired.None? ==>
              && outcome == Done && State() == old(State()) && unchanged(mapManager)
              && dialogueBox.textLines == old(dialogueBox.textLines) && dialogueBox.eventParams == old(dialogueBox.eventParams)
              && dialogueBox.AdvancedText(old(dialogueBox.linePointer), old(dialogueBox.scrollingText), old(dialogueBox.eventKey),
                                          old(dialogueBox.eventParams), old(dialogueBox.visible), old(dialogueBox.selectBox.visible),
                                          old(dialogueBox.shown), fired)
              && dialogueBox.MenuKept())
      else fired == None && Approached(near, outcome)
    }

    /** Confirm with no dialogue box open, next to `near`. */
    twostate predicate Approached(near: Option<NearObject>, new outcome: Outcome)
      reads this, eventManager, dialogueBox, dialogueBox.selectBox
    {
      && State() == old(State()) && escapeMenuVisible == old(escapeMenuVisible)
      && if near.None? || old(sleeping) then outcome == Done && unchanged(dialogueBox, dialogueBox.selectBox)
         else if near.value.event.Some? then outcome == Done && Prompted(near.value.event.value, near.value.params)
         else if near.value.text.None? then outcome == Done && unchanged(dialogueBox, dialogueBox.selectBox)
         else if !Displayable(near.value.text.value, dialogueBox.maxChars) then outcome == Crash("IndexOutOfBoundsException")
         else
           && outcome == Done && dialogueBox.visible && dialogueBox.Says(near.value.text.value)
           && dialogueBox.EventKept() && dialogueBox.MenuKept()
           && dialogueBox.selectBox.visible == old(dialogueBox.selectBox.visible)
    }

    /** A key that neither toggles the escape menu nor confirms: while the
        menu of an open dialogue box is up (and the escape menu is not), the
        key is taken, and up and down move the pointer; otherwise it is
        passed on. Nothing else changes. */
    twostate predicate Soaked(key: Key, handled: bool)
      reads this, eventManager, dialogueBox, dialogueBox.selectBox
    {
      var choice := old(dialogueBox.selectBox.choiceIndex);
      var last := |old(dialogueBox.selectBox.options)| - 1;
      && State() == old(State()) && escapeMenuVisible == old(escapeMenuVisible)
      && handled == (old(dialogueBox.visible) && old(dialogueBox.selectBox.visible) && !old(escapeMenuVisible))
      && dialogueBox.selectBox.choiceIndex ==
           (if handled && key == Up then (if choice == 0 then 0 else choice - 1)
            else if handled && key == Down then (if choice == last then choice else choice + 1)
            else choice)
      && unchanged(dialogueBox)
      && dialogueBox.selectBox.options == old(dialogueBox.selectBox.options)
      && dialogueBox.selectBox.events == old(dialogueBox.selectBox.events)
      && dialogueBox.selectBox.eventParams == old(dialogueBox.selectBox.eventParams)
      && dialogueBox.selectBox.visible == old(dialogueBox.selectBox.visible)
    }

    /** keyDown: Escape toggles the escape menu; confirm with the escape menu
        closed interacts; any other key may be soaked up by an open menu.
        `near` is the object the player stands next to, if any. */
    method KeyDown(key: Key, near: Option<NearObject>, env: Env) returns (handled: bool, fired: Option<Dispatch>, outcome: Outcome)
      requires Valid() && 1 <= env.chatHours <= 3
      modifies this, dialogueBox, dialogueBox.selectBox, mapManager, eventManager`performed
      ensures Valid()
      ensures key == Escape ==>
        && handled && fired == None && outcome == Done
        && escapeMenuVisible == !old(escapeMenuVisible) && State() == old(State())
        && unchanged(dialogueBox, dialogueBox.selectBox)
      ensures key == Confirm && !old(escapeMenuVisible) ==> handled && Interacted(near, fired, outcome)
      ensures key != Escape && (key != Confirm || old(escapeMenuVisible)) ==>
        fired == None && outcome == Done && Soaked(key, handled)
    {
      fired, outcome := None, Done;
      if key == Escape {
        escapeMenuVisible := !escapeMenuVisible;
        return true, None, Done;
      }
      if key == Confirm && !escapeMenuVisible {
        fired, outcome := Interact(near, env);
        return true, fired, outcome;
      }
      handled := Soak(key);
    }

    /** The confirm key with the escape menu closed. */
    method Interact(near: Option<NearObject>, env: Env) returns (fired: Option<Dispatch>, outcome: Outcome)
      requires Valid() && 1 <= env.chatHours <= 3
      modifies this, dialogueBox, dialogueBox.selectBox, mapManager, eventManager`performed
      ensures Valid() && Interacted(near, fired, outcome)
    {
      if dialogueBox.visible {
        fired := dialogueBox.Enter();
        outcome := Done;
        if fired.Some? {
          outcome := Fire(fired.value, env);
        }
      } else {
        fired := None;
        outcome := Approach(near);
      }
    }

    /** dialogueBox.enter hands the chosen or scheduled event to
        eventManager.event, which does what EventDone says for its key and
        parameters split at ';'. */
    method Fire(d: Dispatch, env: Env) returns (outcome: Outcome)
      requires Valid() && 1 <= env.chatHours <= 3
      modifies this, dialogueBox, dialogueBox.selectBox, mapManager, eventManager`performed
      ensures Valid() && escapeMenuVisible == old(escapeMenuVisible)
      ensures EventDone(this, old(State()), d.key, Args(d.params), env, outcome)
    {
      outcome := eventManager.Event(this, d.key, d.params, env);
    }

    /** Confirm with no dialogue box open: only next to an object, and
        awake, does anything happen. */
    method Approach(near: Option<NearObject>) returns (outcome: Outcome)
      requires Valid()
      modifies dialogueBox, dialogueBox.selectBox
      ensures Valid() && Approached(near, outcome)
    {
      outcome := Done;
      if near.Some? && !sleeping {
        if near.value.event.Some? {
          PromptObject(near.value.event.value, near.value.params);
        } else if near.value.text.Some? {
          outcome := ShowObjectText(near.value.text.value);
        }
      }
    }

    /** An object with an event: its question opens with "Yes" and "No". */
    method PromptObject(event: string, params: string)
      requires Valid()
      modifies dialogueBox, dialogueBox.selectBox
      ensures Valid() && Prompted(event, params)
    {
      var text := eventManager.PromptText(event, dialogueBox.maxChars);
      OpenQuestion(text, ["Yes", "No"], [event, "exit"], [params, ""]);
    }

    /** The steps keyDown takes to open a question: show(), setOptions,
        setText(text), show() and the menu's show(). */
    method OpenQuestion(text: string, opts: seq<string>, evs: seq<string>, params: seq<string>)
      requires Valid() && Displayable(text, dialogueBox.maxChars)
      requires |opts| > 0 && |evs| == |opts| && |params| == |opts|
      modifies dialogueBox, dialogueBox.selectBox
      ensures Valid() && dialogueBox.visible && dialogueBox.Says(text) && dialogueBox.EventKept()
      ensures dialogueBox.selectBox.options == opts && dialogueBox.selectBox.events == evs
      ensures dialogueBox.selectBox.eventParams == params && dialogueBox.selectBox.choiceIndex == 0
      ensures dialogueBox.selectBox.visible
    {
      dialogueBox.Show();
      dialogueBox.selectBox.SetOptions(opts, evs, params);
      dialogueBox.SetText(text);
      dialogueBox.Show();
      dialogueBox.selectBox.Show();
    }

    /** A text object: the box opens on its text; a text that wraps to no
        page at all fails when its first page is read. */
    method ShowObjectText(text: string) returns (outcome: Outcome)
      requires Valid()
      modifies dialogueBox
      ensures Valid()
      ensures !Displayable(text, dialogueBox.maxChars) ==> outcome == Crash("IndexOutOfBoundsException")
      ensures Displayable(text, dialogueBox.maxChars) ==>
        outcome == Done && dialogueBox.visible && dialogueBox.Says(text) && dialogueBox.EventKept()
    {
      dialogueBox.Show();
      if !Displayable(text, dialogueBox.maxChars) {
        return Crash("IndexOutOfBoundsException");
      }
      dialogueBox.SetText(text);
      outcome := Done;
    }

    /** Any key other than Escape, and confirm while the escape menu is open. */
    method Soak(key: Key) returns (handled: bool)
      requires Valid()
      modifies dialogueBox.selectBox`choiceIndex
      ensures Valid() && Soaked(key, handled)
    {
      handled := dialogueBox.visible && dialogueBox.selectBox.visible && !escapeMenuVisible;
      if handled {
        if key == Up {
          dialogueBox.selectBox.ChoiceUp();
        } else if key == Down {
          dialogueBox.selectBox.ChoiceDown();
        }
      }
    }
  }
}
