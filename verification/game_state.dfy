/** The game's numbers as a value: energy, the three hour counters, the
    clock, the sleeping flag, the game-over scores recorded so far, the
    deferred callbacks waiting behind a fade, and the catalog entries
    performed today.
    The game screen's setters and the event handlers are specified as
    functions on this value. */
module GameState {
  import opened JavaText
  import opened GameRules

  /** One entry of the interaction catalog: the prompt shown before the
      interaction and its energy cost. Both are fixed when the event manager
      is built; only the per-day "performed" flags change afterwards, and
      those are kept apart as the set of keys performed today. */
  datatype Interaction = Interaction(text: string, energyCost: int)

  /** The catalog the event manager builds (objectInteractions). */
  const CATALOG: map<string, Interaction> := map[
    "chest" := Interaction("Open the chest?", 0),
    "comp_sci" := Interaction("Would you like to study?", 20),
    "chat" := Interaction("Would you like to chat to your friends?", 10),
    "basketball" := Interaction("Would you like to play basketball?", 20),
    "eat" := Interaction("Would you like to eat?", 10),
    "accomodation" := Interaction("Go to sleep for the night?\n" + "Your alarm is set for 8am.", 0),
    "rch" := Interaction("Would you like to study in the Ron Cook Hub?", 10),
    "tree" := Interaction("Speak to the tree?", 5),
    "teleport" := Interaction("Would you like to move location?", 0),
    "ducks" := Interaction("Would you like to feed the ducks?", 10),
    "cook" := Interaction("Would you like to cook?", 30)
  ]

  /** perform() on the entry under `key`: it is marked as done today; the
      caller checks containsKey first, so any other key changes nothing. */
  function Perform(done: set<string>, key: string): set<string>
  {
    if key in CATALOG then done + {key} else done
  }

  /** dayAdvanced() on every entry of the catalog: all flags cleared. */
  function ResetAll(done: set<string>): set<string>
  {
    done - CATALOG.Keys
  }

  /** Only catalog entries are ever marked; marking is idempotent; a new
      day clears every mark that can have been made. */
  lemma CatalogOperations(done: set<string>, key: string)
    ensures key in Perform(done, key) <==> key in CATALOG || key in done
    ensures Perform(done, key) - {key} == done - {key}
    ensures Perform(Perform(done, key), key) == Perform(done, key)
    ensures done <= CATALOG.Keys ==> Perform(done, key) <= CATALOG.Keys && ResetAll(done) == {}
    ensures ResetAll(Perform(done, key)) == ResetAll(done)
  {
  }

  /** The energy costs the event handlers read from the catalog. */
  lemma CatalogCosts()
    ensures "chat" in CATALOG && CATALOG["chat"].energyCost == 10
    ensures "comp_sci" in CATALOG && CATALOG["comp_sci"].energyCost == 20
    ensures "ducks" in CATALOG && CATALOG["ducks"].energyCost == 10
    ensures "basketball" in CATALOG && CATALOG["basketball"].energyCost == 20
    ensures "cook" in CATALOG && CATALOG["cook"].energyCost == 30
    ensures "eat" in CATALOG && CATALOG["eat"].energyCost == 10
  {
  }

  /** A callback queued behind a fade; the presentation layer runs it when
      the fade ends. */
  datatype Action =
    | SleepAction(hoursSlept: int, secondsSlept: int)  // the callback accomEvent queues
    | WakeAction                                       // the callback fadeFromBlack queues

  datatype World = World(
    energy: int,
    studied: int,
    recreational: int,
    slept: int,
    daySeconds: int,
    day: int,
    sleeping: bool,
    gameOvers: seq<int>,
    pending: seq<Action>,
    performed: set<string>)

  /** The state a new game starts in: 8:00 on day 1, full energy, no hours. */
  function InitialWorld(): World
  {
    World(100, 0, 0, 0, 480, 1, false, [], [], {})
  }

  // ---------------------------------------------------------------------------
  // Setters of the game screen

  /** setEnergy: capped at 100 and not clamped below. */
  function SetEnergy(w: World, energy: int): World
  {
    w.(energy := if energy > 100 then 100 else energy)
  }

  /** decreaseEnergy: an int subtraction, floored at 0. */
  function DecreaseEnergy(w: World, amount: int): World
  {
    var e := Wrap32(w.energy - amount);
    w.(energy := if e < 0 then 0 else e)
  }

  function AddStudyHours(w: World, hours: int): World
  {
    w.(studied := Wrap32(w.studied + hours))
  }

  function AddRecreationalHours(w: World, hours: int): World
  {
    w.(recreational := Wrap32(w.recreational + hours))
  }

  function AddSleptHours(w: World, hours: int): World
  {
    w.(slept := Wrap32(w.slept + hours))
  }

  /** GameOver: records the score that goes to the leaderboard. */
  function GameOver(w: World): World
  {
    w.(gameOvers := w.gameOvers + [Score(w.studied, w.recreational, w.slept)])
  }

  /** How many times a clock reading wraps past midnight. */
  function Wraps(t: int): (k: nat)
  {
    if t < DAY_LENGTH then 0 else t / DAY_LENGTH
  }

  /** advanceDay: every full day is taken off the clock and added to the day
      counter (the catalog's flags are cleared once per day, so once or not at
      all); from day 8 on, every call ends the game. */
  function AdvanceDay(w: World): World
  {
    var k := Wraps(w.daySeconds);
    var w' := w.(daySeconds := w.daySeconds - DAY_LENGTH * k, day := w.day + k,
                 performed := if k > 0 then ResetAll(w.performed) else w.performed);
    if w'.day >= 8 then GameOver(w') else w'
  }

  /** passTime: adds to the clock, then advances the day. */
  function PassTime(w: World, delta: int): World
  {
    AdvanceDay(w.(daySeconds := w.daySeconds + delta))
  }

  lemma WrapsExact(t: int)
    ensures t >= 0 ==> 0 <= t - DAY_LENGTH * Wraps(t) < DAY_LENGTH
    ensures t < DAY_LENGTH ==> Wraps(t) == 0
  {
  }

  /** passTime keeps the clock before midnight, loses no time (the minutes
      taken off the clock are whole days added to the counter), and records a
      game over exactly when the day reached is 8 or later. */
  lemma PassTimeKeepsClock(w: World, delta: int)
    requires w.daySeconds < DAY_LENGTH
    ensures var r := PassTime(w, delta);
      && r.daySeconds < DAY_LENGTH
      && (w.daySeconds + delta >= 0 ==> 0 <= r.daySeconds)
      && r.day >= w.day
      && r.daySeconds + DAY_LENGTH * (r.day - w.day) == w.daySeconds + delta
      && r.gameOvers == w.gameOvers + (if r.day >= 8 then [Score(w.studied, w.recreational, w.slept)] else [])
      && r.energy == w.energy && r.studied == w.studied && r.recreational == w.recreational && r.slept == w.slept
      && r.sleeping == w.sleeping && r.pending == w.pending
  {
    WrapsExact(w.daySeconds + delta);
  }

  /** A day passes exactly when the clock crosses midnight, and then every
      catalog flag is cleared. */
  lemma PassTimeNewDay(w: World, delta: int)
    requires w.daySeconds < DAY_LENGTH && delta >= 0
    ensures var r := PassTime(w, delta);
      && (r.day > w.day <==> w.daySeconds + delta >= DAY_LENGTH)
      && (r.day > w.day ==> r.performed == ResetAll(w.performed))
      && (r.day == w.day ==> r.performed == w.performed)
  {
    WrapsExact(w.daySeconds + delta);
  }

  /** Energy never goes below 0; a cost the player can afford is taken off
      exactly; a negative amount raises energy, with no cap at 100. */
  lemma DecreaseEnergyBounds(w: World, amount: int)
    requires InInt32(w.energy) && InInt32(amount)
    ensures var e := DecreaseEnergy(w, amount).energy;
      && 0 <= e
      && (0 <= amount <= w.energy ==> e == w.energy - amount)
      && (0 <= w.energy < amount ==> e == 0)
      && (0 <= w.energy && amount < 0 && w.energy - amount <= INT_MAX ==> e == w.energy - amount)
  {
  }

  /** Energy set by setEnergy is at most 100, and any value up to 100 is kept,
      negative ones included. */
  lemma SetEnergyCaps(w: World, energy: int)
    ensures SetEnergy(w, energy).energy <= 100
    ensures energy <= 100 ==> SetEnergy(w, energy).energy == energy
  {
  }

  // ---------------------------------------------------------------------------
  // Effects of the activities once their gates are passed

  /** ducks and basketball: pay the cost, an hour passes, one recreational hour. */
  function Recreation(w: World, cost: int): World
  {
    AddRecreationalHours(PassTime(DecreaseEnergy(w, cost), 60), 1)
  }

  /** eat and cook: pay the cost, an hour passes, the named entry is performed. */
  function Meal(w: World, cost: int, key: string): World
  {
    var w' := PassTime(DecreaseEnergy(w, cost), 60);
    w'.(performed := Perform(w'.performed, key))
  }

  /** comp_sci and rch with `hours` chosen: pay hours * cost, record the study
      hours, then the hours pass (all in int arithmetic). */
  function Study(w: World, hours: int, cost: int, arg: string): World
  {
    var w' := PassTime(AddStudyHours(DecreaseEnergy(w, Wrap32(cost * hours)), hours), Wrap32(hours * 60));
    w'.(performed := Perform(w'.performed, arg))
  }

  /** chat for `hours`: pay hours * cost, the hours pass, then the recreational
      hours are recorded. */
  function Chat(w: World, hours: int, cost: int, arg: string): World
  {
    var w' := AddRecreationalHours(PassTime(DecreaseEnergy(w, Wrap32(cost * hours)), Wrap32(hours * 60)), hours);
    w'.(performed := Perform(w'.performed, arg))
  }

  /** accomEvent: minutes from the given time to the next 8:00. */
  function SecondsSlept(daySeconds: int): int
  {
    if daySeconds < 60 * 8 then 60 * 8 - daySeconds else (60 * 8 + DAY_LENGTH) - daySeconds
  }

  /** Math.round of the slept minutes in hours. */
  function HoursSlept(secondsSlept: int): int
  {
    (secondsSlept + 30) / 60
  }

  /** The deferred sleep callback: energy set from the hours slept, the
      night passes, then the slept hours are recorded. */
  function Sleep(w: World, hours: int, seconds: int): World
  {
    AddSleptHours(PassTime(SetEnergy(w, Wrap32(hours * 13)), seconds), hours)
  }

  /** Sleeping from any time of day ends at the next 8:00: before 8:00 the
      same morning, otherwise the next morning, after between 1 and 1440
      minutes; the hours slept are the minutes rounded to the nearest hour. */
  lemma SleepEndsAtEight(daySeconds: int)
    requires 0 <= daySeconds < DAY_LENGTH
    ensures var s := SecondsSlept(daySeconds);
      && 0 < s <= DAY_LENGTH
      && (daySeconds + s) % DAY_LENGTH == 480
      && (daySeconds < 480 <==> daySeconds + s < DAY_LENGTH)
      && 0 <= HoursSlept(s) <= 24
      && 60 * HoursSlept(s) - 30 <= s < 60 * HoursSlept(s) + 30
  {
  }

  /** The catalog marks after an activity whose hour(s) took the clock from
      `w` to `r`: cleared if a day passed, then `key` performed. */
  function MarksAfter(w: World, r: World, key: string): set<string>
  {
    Perform(if r.day > w.day then ResetAll(w.performed) else w.performed, key)
  }

  /** Ducks and basketball: the cost comes off the energy, the clock moves on
      one hour with no time lost, one recreational hour is added, and no
      other counter changes. */
  lemma RecreationEffect(w: World, cost: int)
    requires 0 <= w.daySeconds < DAY_LENGTH
    ensures var r := Recreation(w, cost);
      && r.recreational == Wrap32(w.recreational + 1) && r.studied == w.studied && r.slept == w.slept
      && (InInt32(w.energy) && 0 <= cost <= w.energy ==> r.energy == w.energy - cost)
      && 0 <= r.daySeconds < DAY_LENGTH && r.day >= w.day
      && r.daySeconds + DAY_LENGTH * (r.day - w.day) == w.daySeconds + 60
      && r.performed == (if r.day > w.day then ResetAll(w.performed) else w.performed)
      && r.sleeping == w.sleeping && r.pending == w.pending
  {
    var e := DecreaseEnergy(w, cost);
    PassTimeKeepsClock(e, 60);
    PassTimeNewDay(e, 60);
  }

  /** Eating and cooking: the cost comes off the energy, the clock moves on
      one hour, no hour counter changes, and the meal's entry is performed. */
  lemma MealEffect(w: World, cost: int, key: string)
    requires 0 <= w.daySeconds < DAY_LENGTH
    ensures var r := Meal(w, cost, key);
      && r.studied == w.studied && r.recreational == w.recreational && r.slept == w.slept
      && (InInt32(w.energy) && 0 <= cost <= w.energy ==> r.energy == w.energy - cost)
      && 0 <= r.daySeconds < DAY_LENGTH && r.day >= w.day
      && r.daySeconds + DAY_LENGTH * (r.day - w.day) == w.daySeconds + 60
      && r.performed == MarksAfter(w, r, key)
      && r.sleeping == w.sleeping && r.pending == w.pending
  {
    var e := DecreaseEnergy(w, cost);
    PassTimeKeepsClock(e, 60);
    PassTimeNewDay(e, 60);
  }

  /** Studying for `hours`: hours * cost comes off the energy, the study
      hours are added, the clock moves on by the hours with no time lost, the
      other counters are kept and the entry is performed. */
  lemma StudyEffect(w: World, hours: int, cost: int, arg: string)
    requires 0 <= w.daySeconds < DAY_LENGTH && 0 <= hours <= INT_MAX / 60
    ensures var r := Study(w, hours, cost, arg);
      && r.studied == Wrap32(w.studied + hours) && r.recreational == w.recreational && r.slept == w.slept
      && (InInt32(w.energy) && 0 <= cost * hours <= w.energy ==> r.energy == w.energy - cost * hours)
      && 0 <= r.daySeconds < DAY_LENGTH && r.day >= w.day
      && r.daySeconds + DAY_LENGTH * (r.day - w.day) == w.daySeconds + hours * 60
      && r.performed == MarksAfter(w, r, arg)
      && r.sleeping == w.sleeping && r.pending == w.pending
  {
    var e := AddStudyHours(DecreaseEnergy(w, Wrap32(cost * hours)), hours);
    PassTimeKeepsClock(e, hours * 60);
    PassTimeNewDay(e, hours * 60);
  }

  /** Chatting for `hours`: hours * cost comes off the energy, the clock
      moves on by the hours, the recreational hours are added afterwards, the
      other counters are kept and the entry is performed. */
  lemma ChatEffect(w: World, hours: int, cost: int, arg: string)
    requires 0 <= w.daySeconds < DAY_LENGTH && 0 <= hours <= INT_MAX / 60
    ensures var r := Chat(w, hours, cost, arg);
      && r.recreational == Wrap32(w.recreational + hours) && r.studied == w.studied && r.slept == w.slept
      && (InInt32(w.energy) && 0 <= cost * hours <= w.energy ==> r.energy == w.energy - cost * hours)
      && 0 <= r.daySeconds < DAY_LENGTH && r.day >= w.day
      && r.daySeconds + DAY_LENGTH * (r.day - w.day) == w.daySeconds + hours * 60
      && r.performed == MarksAfter(w, r, arg)
      && r.sleeping == w.sleeping && r.pending == w.pending
  {
    var e := DecreaseEnergy(w, Wrap32(cost * hours));
    PassTimeKeepsClock(e, hours * 60);
    PassTimeNewDay(e, hours * 60);
  }

  /** The night accomEvent schedules, from any time of day: the player wakes
      at 8:00 (the same day before 8:00, otherwise the next), energy is 13 per
      hour slept capped at 100, and the slept hours are added. */
  lemma SleepEffect(w: World)
    requires 0 <= w.daySeconds < DAY_LENGTH
    ensures var s := SecondsSlept(w.daySeconds);
      var h := HoursSlept(s);
      var r := Sleep(w, h, s);
      && r.daySeconds == 480 && r.day == (if w.daySeconds < 480 then w.day else w.day + 1)
      && r.energy == (if 13 * h > 100 then 100 else 13 * h)
      && r.slept == Wrap32(w.slept + h) && r.studied == w.studied && r.recreational == w.recreational
      && r.sleeping == w.sleeping && r.pending == w.pending
  {
    var s := SecondsSlept(w.daySeconds);
    var h := HoursSlept(s);
    SleepEndsAtEight(w.daySeconds);
    var e := SetEnergy(w, Wrap32(h * 13));
    PassTimeKeepsClock(e, s);
  }

  /** Sleeping at 23:00 lasts 540 minutes, 9 hours, and energy is refilled to
      100 (9 * 13 = 117, capped); the player wakes at 8:00 the next day. */
  lemma SleepAtElevenPm(w: World)
    requires w.daySeconds == 1380 && w.day == 3
    ensures SecondsSlept(1380) == 540 && HoursSlept(540) == 9
    ensures var r := Sleep(w, 9, 540);
      r.energy == 100 && r.daySeconds == 480 && r.day == 4 && r.slept == Wrap32(w.slept + 9)
  {
  }

  /** Studying for 2 hours at 9:00 with full energy costs 40 energy, moves
      the clock to 11:00 and adds 2 study hours. */
  lemma StudyTwoHoursAtNine(w: World)
    requires w.energy == 100 && w.daySeconds == 540 && w.day == 1 && InInt32(w.studied + 2)
    ensures var r := Study(w, 2, 20, "2");
      r.energy == 60 && r.daySeconds == 660 && r.day == 1 && r.studied == w.studied + 2
      && r.gameOvers == w.gameOvers
  {
  }
}
