# Hustle game core in Dafny

This project models the game logic of a small campus life-simulation game
written in Java on libGDX. The player walks around a tiled map, talks to
objects, and spends energy and time studying, eating, relaxing and sleeping
over seven days before an exam. Four parts of the game are modelled.

- **The dialogue box** (`DialogueBox` and its inner `SelectBox`), in
  `dialogue.dfy`. The wrap-and-page text formatter is in `text_layout.dfy`.
  - The formatter is a character-by-character wrap pass with a 35-column
    limit. It then groups the lines into pages of three.
  - A typewriter reveal counts in tenths of a character.
  - A confirm/advance state machine fires a scheduled follow-up event.
  - A Yes/No style choice menu holds a clamped choice index.
- **The event manager** (`EventManager`), in `game.dfy`.
  - It splits parameters at `;` and routes each event key through its two
    switches.
  - Each activity passes its gates in order: time of day, energy against the
    catalog cost, then asking for an argument or applying the effect.
  - The sleep protocol queues callbacks behind a fade to black.
- **The game screen** (`GameScreen`), in `game.dfy`, `game_state.dfy` and
  `game_rules.dfy`.
  - State: energy, the hour counters, the minute clock with its day rollover,
    and game over from day 8 with its score.
  - Text: 12-hour time formatting, the meal served at each hour, and the
    wake-up message.
  - The key-press routing that opens the interaction question and moves the
    menu pointer.
- **The map manager** (`MapManager`), in `maps.dfy`.
  - The comma-separated layer-list parser.
  - The cache of loaded maps.
  - The current-map, viewport-scalar and spawn-point queries.

`java_text.dfy` gives the Java library behaviour the game relies on:
- `String.split`, which drops trailing empty strings;
- `Integer.parseInt`;
- `%d` and `%02d` formatting;
- ASCII `toLowerCase`;
- 32-bit `int` wrap-around.

`wrappers.dfy` holds `Option` and `Result`. `messages.dfy` holds the texts
the handlers show.

The game's numbers are a value, `GameState.World`. Each event handler and
setter of the game screen is a method on the `Game.GameScreen` and
`Game.EventManager` objects. Its `ensures` ties the new state to a function
of the old `World`. The properties of those functions are proved as lemmas.

The following are parameters of the model:
- the hours of a chat, which the game draws at random;
- the map files on disk;
- which strings `Float.parseFloat` accepts.

They are gathered in `Game.Env`. The object the player stands next to is an
argument of `Game.GameScreen.KeyDown`.

## Model

| member | source | states |
|---|---|---|
| JavaText.Wrap32 | core/src/screens/GameScreen.java:641-651 | an `int` sum or product is the mathematical value reduced into the 32-bit range: equal when it fits, otherwise differing by a multiple of 2^32 |
| JavaText.StripTrailingEmpty | core/src/com/skloch/game/DialogueBox.java:346 | `split` keeps a prefix of the pieces whose last piece is non-empty, and only empty pieces are dropped |
| JavaText.JoinPieces | core/src/com/skloch/game/DialogueBox.java:346 | joining the pieces of a string at the separator gives the string back |
| JavaText.PiecesHaveNoSeparator | core/src/com/skloch/game/DialogueBox.java:346 | no piece contains the separator |
| JavaText.PiecesJoin | core/src/com/skloch/game/DialogueBox.java:346 | splitting a join of separator-free parts gives the parts back |
| JavaText.SplitRestores | core/src/com/skloch/game/EventManager.java:55 | `Split`: `split` of a non-empty string is the pieces with only trailing empties removed; the pieces rejoin to the string and none contains the separator |
| JavaText.SplitJoin | core/src/com/skloch/game/MapManager.java:160 | `split` inverts the join of separator-free parts whose last part is non-empty |
| JavaText.SplitEmptyIff | core/src/com/skloch/game/DialogueBox.java:346 | `split` gives no pieces exactly when the string is non-empty and made only of separators (so "\n" gives none) |
| JavaText.FirstPieceStart | core/src/com/skloch/game/DialogueBox.java:346 | a string not starting with the separator has a first piece starting with its first character |
| JavaText.SplitNonEmpty | core/src/com/skloch/game/DialogueBox.java:346 | the empty string, or one not starting with the separator, splits into at least one piece |
| JavaText.ParseInt | core/src/com/skloch/game/EventManager.java:250 | `Integer.parseInt` only yields values in the `int` range |
| JavaText.NatDigitsValue | core/src/com/skloch/game/EventManager.java:256 | the decimal digits written for n read back as n |
| JavaText.ParseFormattedInt | core/src/com/skloch/game/EventManager.java:256 | `IntToString` (%d): `%d` of any `int` parses back to that `int` |
| JavaText.IntToStringInjective | core/src/com/skloch/game/EventManager.java:256 | two `int`s with the same `%d` text are equal |
| JavaText.TwoDigits | core/src/screens/GameScreen.java:494 | `%02d` of a number below 100 is two digits reading back as the number |
| JavaText.ToLower | core/src/com/skloch/game/EventManager.java:196 | `toLowerCase` keeps the length and lower-cases each character in place |
| TextLayout.Step | core/src/com/skloch/game/DialogueBox.java:305-339 | one iteration keeps the loop invariant: the recorded space lies before `totalIndex`, and `totalIndex` stays within the output. The output grows by exactly one character in every branch |
| TextLayout.WrapPrefix | core/src/com/skloch/game/DialogueBox.java:305-339 | after n characters the output is n characters long and the invariant holds |
| TextLayout.StepChanges | core/src/com/skloch/game/DialogueBox.java:313-338 | an iteration only turns earlier characters into line breaks and appends either the character or a line break |
| TextLayout.WrapPrefixChars | core/src/com/skloch/game/DialogueBox.java:305-339 | each output position holds the input character at that position or a line break, and the first character is always kept |
| TextLayout.WrapText | core/src/com/skloch/game/DialogueBox.java:298-339 | specified by `Wrap`: the StringBuilder loop, with its substring splice, computes the wrap function |
| TextLayout.CopiesWhileFitting | core/src/com/skloch/game/DialogueBox.java:305-339 | while every character is reached below the column limit, the input is copied unchanged, with `index` equal to the column counter and `totalIndex` to the count |
| TextLayout.BreakPersists | core/src/com/skloch/game/DialogueBox.java:313-328 | a line break once emitted is never undone by later iterations |
| TextLayout.OverflowStep | core/src/com/skloch/game/DialogueBox.java:313-328 | at the limit, a space is emitted as the break itself; any other character puts a break either at the recorded space or at the end |
| TextLayout.OverflowBreak | core/src/com/skloch/game/DialogueBox.java:313-328 | the break placed on reaching the limit survives in the final output |
| TextLayout.FirstOverflowChanges | core/src/com/skloch/game/DialogueBox.java:313-328 | the first character reached at the limit makes the output differ from the input |
| TextLayout.OverflowChanges | core/src/com/skloch/game/DialogueBox.java:305-339 | a text with any line over the limit comes out changed |
| TextLayout.FitsExtend | core/src/com/skloch/game/DialogueBox.java:307-309 | a '\n' resets the column counter, so the fitting prefix grows past it |
| TextLayout.WrapIdentityIff | core/src/com/skloch/game/DialogueBox.java:305-339 | the wrap pass leaves a text unchanged exactly when every character is reached while the column counter is below the limit; a '\n' resets the counter and is itself counted |
| TextLayout.HardBreaksPrefix | core/src/com/skloch/game/DialogueBox.java:320-322 | for a word without spaces or breaks, the hard-break branch replaces every 36th character with '\n'. `lastSpace` stays 0 and `totalIndex` skips each dropped character |
| TextLayout.HardBreakDropsCharacter | core/src/com/skloch/game/DialogueBox.java:320-322 | the wrap of such a word is the word with every 36th character replaced by a line break, so that character is lost |
| TextLayout.GroupShape | core/src/com/skloch/game/DialogueBox.java:342-359 | there is one page per three lines, rounded up, and every page is non-empty |
| TextLayout.GroupConcat | core/src/com/skloch/game/DialogueBox.java:346-356 | paging a run of whole pages and then the rest gives the two sets of pages in order |
| TextLayout.PartialStep | core/src/com/skloch/game/DialogueBox.java:353-355 | a line added to a partial page is appended with its '\n' |
| TextLayout.PageStep | core/src/com/skloch/game/DialogueBox.java:347-351 | the third line closes the page without a trailing '\n' |
| TextLayout.GroupLoopStep | core/src/com/skloch/game/DialogueBox.java:346-356 | each loop iteration either closes a page or extends the partial one, as the page function says |
| TextLayout.GroupSmall | core/src/com/skloch/game/DialogueBox.java:357-359 | a non-empty leftover is added as the last page, and an empty one is not |
| TextLayout.GroupLoopEnd | core/src/com/skloch/game/DialogueBox.java:346-359 | the pages are the whole pages followed by the leftover page |
| TextLayout.GroupPages | core/src/com/skloch/game/DialogueBox.java:342-359 | specified by `Group`: the `numBreaks` loop computes the page function |
| TextLayout.JoinSnoc | core/src/com/skloch/game/DialogueBox.java:346 | joining one more part appends the separator and the part |
| TextLayout.GroupJoin | core/src/com/skloch/game/DialogueBox.java:342-359 | the pages joined by '\n' are the lines joined by '\n', plus one '\n' when the last page is partial |
| TextLayout.PagesReproducePieces | core/src/com/skloch/game/DialogueBox.java:342-359 | `Paginate`: read back in order, the pages give exactly the split lines. When the last page is partial there is one extra empty piece from its final '\n' |
| TextLayout.DisplayableIff | core/src/com/skloch/game/DialogueBox.java:361 | `textLines.get(0)` exists exactly when the wrapped text is not made only of line breaks |
| TextLayout.StartsDisplayable | core/src/com/skloch/game/DialogueBox.java:361 | a text that is empty or does not start with '\n' always yields a first page |
| GameRules.FormatTime | core/src/screens/GameScreen.java:491-505 | the time text ends in ":" followed by two characters and "am" or "pm" |
| GameRules.ClockSlices | core/src/screens/GameScreen.java:498-504 | a time text splits back into the hour, minutes and suffix |
| GameRules.FormatTimeParts | core/src/screens/GameScreen.java:491-505 | hour 0 shows as 12 am, hour 12 as 12 pm, hours above 12 as h-12 pm, others as h am, with two-digit minutes |
| GameRules.ShownHourReadsBack | core/src/screens/GameScreen.java:497-504 | the shown hour is 1 to 12, and with the suffix it determines the 24-hour hour |
| GameRules.FormatTimeRoundTrip | core/src/screens/GameScreen.java:491-505 | reading a formatted time of the day gives back its minute |
| GameRules.FormatTimeInjective | core/src/screens/GameScreen.java:491-505 | two minutes of the day never share a time text |
| GameRules.FormatTimeNextMidnight | core/src/screens/GameScreen.java:497-498 | hour 24 reads like hour 0, as 12:MMam |
| GameRules.MealWindows | core/src/screens/GameScreen.java:656-671 | `MealAt` (getMeal): breakfast exactly from 7:00 to 10:59, lunch from 11:00 to 16:59, dinner from 17:00 to 21:59, and "food" at every other time |
| GameRules.WakeUpDisplayable | core/src/screens/GameScreen.java:676-683 | the wake-up message always yields a page |
| GameRules.CountedMessagesDistinct | core/src/screens/GameScreen.java:679 | two counted messages are equal only for the same count text |
| GameRules.CountedMessageNotTomorrow | core/src/screens/GameScreen.java:678-682 | no counted message equals the exam-tomorrow message |
| GameRules.WakeUpMessageDistinct | core/src/screens/GameScreen.java:676-683 | `WakeUpMessage` (getWakeUpMessage): different days give different messages, so exactly one day left (day 7) has its own message |
| GameRules.ScoreValue | core/src/screens/GameScreen.java:718 | `Score`: the score is `(studied + recreational + slept) * 100` in `int` arithmetic, exact whenever it fits |
| Maps.LayerArrayFromProperties | core/src/com/skloch/game/MapManager.java:156-176 | specified by `LayerArray`: the loop filling the `int[]` computes the layer list, or the "Error loading layer: key" failure |
| Maps.LayerListEmpty | core/src/com/skloch/game/MapManager.java:160-162 | an empty property, or one with an empty first field, gives no layers |
| Maps.FirstPieceEmpty | core/src/com/skloch/game/MapManager.java:161 | a property starting with a comma has an empty first field or no fields |
| Maps.LayerListFields | core/src/com/skloch/game/MapManager.java:164-170 | one layer per field after trailing empties are dropped; an empty field gives 0 and any other its parsed integer |
| Maps.LayerListFailure | core/src/com/skloch/game/MapManager.java:165-175 | parsing fails exactly when, past a non-empty first field, some non-empty field is not an integer |
| Maps.IntToStringHasNoComma | core/src/com/skloch/game/MapManager.java:160 | a written integer has no comma |
| Maps.SplitJoinInts | core/src/com/skloch/game/MapManager.java:160 | a comma-joined list of written integers splits back into them |
| Maps.LayerListRoundTrip | core/src/com/skloch/game/MapManager.java:156-171 | a comma-separated list of `int`s parses back to the same layers |
| Maps.JoinNonEmpty | core/src/com/skloch/game/MapManager.java:161 | a join starting with a non-empty part is non-empty |
| Maps.FindSpawnFirst | core/src/com/skloch/game/MapManager.java:104-116 | `FindSpawn`: "Spawn not set" exactly when no object has a spawn property; otherwise the point is that of an object with one, the first such |
| Maps.FindSpawnUnboxing | core/src/com/skloch/game/MapManager.java:108-112 | on the first spawn object, a missing x is a null dereference and a non-float x a cast failure, whether or not y is present; only then does a missing or non-float y fail the same way |
| Maps.MapManager.constructor | core/src/com/skloch/game/MapManager.java:36-40 | the cache starts empty, with no current map and no viewport scalar |
| Maps.MapManager.GetLayers | core/src/com/skloch/game/MapManager.java:145-154 | the four layer fields are read from the map properties, and a failure of any of them is "Error loading layers" |
| Maps.MapManager.LoadMap | core/src/com/skloch/game/MapManager.java:42-68 | a cached path is reused and an uncached one is loaded and cached; a path in neither place fails with "Failed to load the map" and leaves the manager entirely unchanged. The map found becomes current even when a later step fails. The result is the install outcome: "Error loading layers", then a non-float viewport scalar, then the exceptions of the `teleported()` callback. Whenever the layer properties read, the four layer fields hold them, and the viewport scalar is stored once it is a float |
| Maps.MapManager.FetchMap | core/src/com/skloch/game/MapManager.java:43-54 | the cache lookup, or a load that is put in the cache |
| Maps.MapManager.Install | core/src/com/skloch/game/MapManager.java:56-67 | the map becomes current with its properties; the result is the install outcome (layers, then the viewport scalar cast, then the callback); whenever the layer properties read, the background and foreground lists and the collision and interaction layers hold them, and the scalar is stored when it is a float |
| Maps.MapManager.GetCurrentMap | core/src/com/skloch/game/MapManager.java:70-75 | "No map loaded yet" exactly when there is no current map, and otherwise that map |
| Maps.MapManager.ViewportScalar | core/src/com/skloch/game/MapManager.java:130-135 | 1 when the scalar is unset, otherwise the scalar |
| Maps.MapManager.Spawn | core/src/com/skloch/game/MapManager.java:104-116 | with no map a null dereference; an interact layer that does not exist is an index error; otherwise the first spawn object on that layer, with x unboxed before y |
| Maps.Teleported | core/src/screens/GameScreen.java:198-214 | the callback loadMap runs last fails exactly when width, height or tilewidth is not an int property or the collision or interaction layer does not exist, and in that order |
| Maps.LoadsIff | core/src/com/skloch/game/MapManager.java:42-68 | a path loads exactly when its map is found, its layer properties read, its scale is a float if set, its width, height and tile width are ints, and both layers it names exist |
| Dialogue.RoundTenths | core/src/com/skloch/game/DialogueBox.java:280 | `Math.round` of a counter held in tenths is the nearest whole number, halves rounded up |
| Dialogue.RoundStep | core/src/com/skloch/game/DialogueBox.java:279-280 | a step below one character moves the rounded count by at most one |
| Dialogue.PiazzaQuestionDisplayable | core/src/com/skloch/game/DialogueBox.java:54 | the text the box is built with yields a page |
| Dialogue.SelectBox.constructor | core/src/com/skloch/game/DialogueBox.java:69-83 | no options yet, the choice at 0, and the window visible |
| Dialogue.SelectBox.SetOptions | core/src/com/skloch/game/DialogueBox.java:94-127 | the three parallel arrays are stored, the choice is 0, and the box is shown |
| Dialogue.SelectBox.SetOptionsNoParams | core/src/com/skloch/game/DialogueBox.java:130-136 | as SetOptions, with one empty parameter per event |
| Dialogue.SelectBox.ChoiceUp | core/src/com/skloch/game/DialogueBox.java:142-151 | the choice moves up one, and stays at 0 at the top |
| Dialogue.SelectBox.ChoiceDown | core/src/com/skloch/game/DialogueBox.java:156-164 | the choice moves down one, and stays on the last option at the bottom |
| Dialogue.SelectBox.SetChoice | core/src/com/skloch/game/DialogueBox.java:218-225 | the choice becomes the given index |
| Dialogue.SelectBox.GetChoice | core/src/com/skloch/game/DialogueBox.java:173-175 | the event of the chosen option |
| Dialogue.SelectBox.GetParams | core/src/com/skloch/game/DialogueBox.java:177-179 | the parameters of the chosen option |
| Dialogue.SelectBox.Hide | core/src/com/skloch/game/DialogueBox.java:193-195 | the box is hidden |
| Dialogue.SelectBox.Show | core/src/com/skloch/game/DialogueBox.java:200-202 | the box is shown |
| Dialogue.SelectBox.IsVisible | core/src/com/skloch/game/DialogueBox.java:209-211 | whether the box is shown |
| Dialogue.DialogueBox.constructor | core/src/com/skloch/game/DialogueBox.java:27-56 | limit 35, the Piazza question paged and scrolling from page 0, the menu Yes/No for "piazza"/"close", and no scheduled event |
| Dialogue.DialogueBox.InitialiseLabelText | core/src/com/skloch/game/DialogueBox.java:297-363 | the pages are those of the wrapped text, all non-empty; page 0 is shown and the pointer reset |
| Dialogue.DialogueBox.SetText | core/src/com/skloch/game/DialogueBox.java:248-252 | the text is paged, the pointer is 0, scrolling starts from 0, and the scheduled event is untouched |
| Dialogue.DialogueBox.SetTextWithEvent | core/src/com/skloch/game/DialogueBox.java:254-262 | as SetText, and the event is scheduled with empty parameters |
| Dialogue.DialogueBox.SetTextWithEventParams | core/src/com/skloch/game/DialogueBox.java:269-276 | as SetText, and the event is scheduled with its parameters |
| Dialogue.DialogueBox.ScrollText | core/src/com/skloch/game/DialogueBox.java:278-287 | while scrolling, the counter grows by the step and the shown prefix stays within the page. Scrolling stops on the first tick that reaches the page length. When not scrolling nothing changes |
| Dialogue.DialogueBox.Enter | core/src/com/skloch/game/DialogueBox.java:384-391 | with the menu open, the menu closes and the chosen event is fired with its parameters, the text untouched; otherwise the text advances. The scheduled parameters are never changed |
| Dialogue.DialogueBox.AdvanceText | core/src/com/skloch/game/DialogueBox.java:396-418 | scrolling text is finished without moving the pointer. Otherwise the next page starts; past the last page the box closes with its menu and the scheduled event fires once and is cleared. Only closing the box touches the menu |
| Dialogue.DialogueBox.Show | core/src/com/skloch/game/DialogueBox.java:368-370 | the box is shown |
| Dialogue.DialogueBox.Hide | core/src/com/skloch/game/DialogueBox.java:375-378 | the box and its menu are hidden |
| Dialogue.DialogueBox.HideSelectBox | core/src/com/skloch/game/DialogueBox.java:423-425 | only the menu is hidden |
| Dialogue.DialogueBox.IsVisible | core/src/com/skloch/game/DialogueBox.java:431-433 | whether the box is shown |
| GameState.CatalogOperations | core/src/com/skloch/game/EventManager.java:124-128 | only catalog entries are marked performed, marking is idempotent and touches no other key, and a new day clears every mark |
| GameState.CatalogCosts | core/src/com/skloch/game/EventManager.java:34-44 | `CATALOG` (the `objectInteractions` entries): chat 10, comp_sci 20, ducks 10, basketball 20, cook 30 and eat 10 |
| GameState.PassTimeKeepsClock | core/src/screens/GameScreen.java:480-519 | `PassTime` and `AdvanceDay`: from a clock before midnight, the clock ends before midnight and no time is lost (whole days go to the day counter). A score is recorded exactly when day 8 or later is reached. Nothing else changes |
| GameState.PassTimeNewDay | core/src/screens/GameScreen.java:508-514 | the day advances exactly when the clock crosses midnight, and the catalog marks are then cleared |
| GameState.DecreaseEnergyBounds | core/src/screens/GameScreen.java:627-633 | `DecreaseEnergy`: energy never goes below 0; an affordable cost is taken exactly and a larger one leaves 0 |
| GameState.SetEnergyCaps | core/src/screens/GameScreen.java:607-613 | `SetEnergy`: energy is capped at 100 with no lower clamp |
| GameState.SleepEndsAtEight | core/src/com/skloch/game/EventManager.java:312-319 | `SecondsSlept` and `HoursSlept`: sleep lasts 1 to 1440 minutes and ends at 8:00, the same morning exactly when it starts before 8:00; the hours are the minutes rounded to the nearest hour |
| GameState.SleepAtElevenPm | core/src/com/skloch/game/EventManager.java:312-329 | sleeping at 23:00 lasts 9 hours, refills energy to 100 and wakes at 8:00 the next day |
| GameState.StudyTwoHoursAtNine | core/src/com/skloch/game/EventManager.java:249-263 | two hours of study at 9:00 cost 40 energy, end at 11:00 and add 2 study hours |
| GameState.RecreationEffect | core/src/com/skloch/game/EventManager.java:363-366 | `Recreation` (ducks, basketball): an affordable cost comes off the energy exactly, the clock moves on one hour with no time lost, one recreational hour is added and no other counter changes |
| GameState.MealEffect | core/src/com/skloch/game/EventManager.java:286-291 | `Meal` (eat, cook): an affordable cost comes off the energy exactly, the clock moves on one hour, no hour counter changes, and the entry is performed after a day change clears the marks |
| GameState.StudyEffect | core/src/com/skloch/game/EventManager.java:257-262 | `Study`: an affordable hours times cost comes off the energy exactly, the study hours are added, the clock moves on by the hours with no time lost, the other counters are kept and the entry is performed |
| GameState.ChatEffect | core/src/com/skloch/game/EventManager.java:197-202 | `Chat`: an affordable hours times cost comes off the energy exactly, the clock moves on by the hours, the recreational hours are added, the other counters are kept and the entry is performed |
| GameState.SleepEffect | core/src/com/skloch/game/EventManager.java:310-330 | `Sleep` from any time of day: the player wakes at 8:00, the same day exactly when sleep starts before 8:00; energy is 13 per hour slept capped at 100, and the slept hours are added |
| Game.TopicsDistinct | core/src/com/skloch/game/EventManager.java:47-48 | the nine chat topics are different |
| Game.CatalogPromptsStart | core/src/com/skloch/game/EventManager.java:34-44 | every catalog prompt is non-empty and starts on a line of text |
| Game.ArgsShape | core/src/com/skloch/game/EventManager.java:53-58 | `Args`: no argument holds a ';'; there are none exactly when the parameters are empty or only ';'s; parameters not starting with ';' give at least `args[0]` |
| Game.ArgsRoundTrip | core/src/com/skloch/game/EventManager.java:53-58 | `Args`: parameters written as ';'-joined arguments, none holding ';' and the last non-empty, read back as exactly those arguments |
| Game.EventManager.constructor | core/src/com/skloch/game/EventManager.java:29-50 | nothing performed yet, and the topic list set |
| Game.EventManager.AdvanceDay | core/src/com/skloch/game/EventManager.java:124-128 | the loop over the catalog clears every entry's performed flag |
| Game.EventManager.HasCustomObjectInteraction | core/src/com/skloch/game/EventManager.java:146-148 | exactly the catalog keys have a custom interaction |
| Game.EventManager.GetObjectInteraction | core/src/com/skloch/game/EventManager.java:135-141 | "teleport" for any key containing it, else the catalog prompt; a key outside the catalog is a null dereference |
| Game.EventManager.PromptText | core/src/screens/GameScreen.java:563-567 | specified by `Prompt`: the question is the custom prompt or "Interact with key?", and it always yields a page |
| Game.EventManager.RandomTopics | core/src/com/skloch/game/EventManager.java:213-228 | the retrying loop returns the requested number of different topics, all from the list |
| Game.EventManager.Perform | core/src/com/skloch/game/EventManager.java:82-84 | a key with a catalog entry is marked performed, and any other key changes nothing |
| Game.EventManager.TreeEvent | core/src/com/skloch/game/EventManager.java:74-79 | the menu closes and the tree's text is shown; the first argument, if any, is marked performed (handler at lines 153-156) |
| Game.EventManager.ChestEvent | core/src/com/skloch/game/EventManager.java:80-85 | the menu closes and the chest's text is shown. With no argument the game stops on an index exception (handler at lines 159-163) |
| Game.EventManager.ObjectEvent | core/src/com/skloch/game/EventManager.java:168-171 | the menu closes and "This is a key!" is shown, with no change to the numbers |
| Game.EventManager.ChatEvent | core/src/com/skloch/game/EventManager.java:179-207 | in order: too early up to 8:00, too tired below 10 energy, a question with three different topics when there is no argument; otherwise `hours` hours at 10 energy each, then that many recreational hours |
| Game.EventManager.AskTopic | core/src/com/skloch/game/EventManager.java:186-191 | the chat question with three different topics, each firing chat with itself as parameter |
| Game.EventManager.ChatFor | core/src/com/skloch/game/EventManager.java:193-202 | the chat report is shown and the chat's effect applied |
| Game.EventManager.SpendChat | core/src/com/skloch/game/EventManager.java:197-202 | energy, clock, recreational hours and marks change as the chat function says |
| Game.EventManager.CompSciEvent | core/src/com/skloch/game/EventManager.java:235-268 | in order: too early, too tired below 20 (closing the menu), the 2/3/4 hours question, a non-integer argument stopping the game, too long when energy is below hours times 20, and otherwise the study |
| Game.EventManager.AskHours | core/src/com/skloch/game/EventManager.java:242-248 | options "2 Hours (20)", "3 Hours (30)" and "4 Hours (40)", all comp_sci, with parameters "2", "3" and "4" |
| Game.EventManager.StudyArg | core/src/com/skloch/game/EventManager.java:249-263 | a non-integer argument stops the game. Energy below hours times cost refuses. Otherwise the study is done and its report shown |
| Game.EventManager.StudyFor | core/src/com/skloch/game/EventManager.java:255-262 | the study report is shown and the study's effect applied |
| Game.EventManager.SpendStudy | core/src/com/skloch/game/EventManager.java:257-262 | energy, study hours, clock and marks change as the study function says |
| Game.EventManager.EatEvent | core/src/com/skloch/game/EventManager.java:276-297 | the entry is the first argument or "eat". In order: too early, an entry outside the catalog stopping the game, too tired; otherwise an hour's meal named for the time of day |
| Game.EventManager.EatFor | core/src/com/skloch/game/EventManager.java:285-291 | the meal report is shown and the meal's effect applied |
| Game.EventManager.SpendMeal | core/src/com/skloch/game/EventManager.java:287-291 | energy, clock and marks change as the meal function says |
| Game.EventManager.AccomEvent | core/src/com/skloch/game/EventManager.java:306-334 | the player sleeps and the box closes. The night until the next 8:00 is queued behind the fade |
| Game.EventManager.FadeToBlack | core/src/com/skloch/game/EventManager.java:418-420 | the callback is queued last |
| Game.EventManager.FadeFromBlack | core/src/com/skloch/game/EventManager.java:425-443 | the wake-up callback is queued only while the player sleeps |
| Game.EventManager.TeleportEvent | core/src/com/skloch/game/EventManager.java:336-355 | without a path, or with a spawn point that does not parse, "Teleport failed!" with the maps untouched; otherwise the map is loaded |
| Game.EventManager.TeleportTo | core/src/com/skloch/game/EventManager.java:339-350 | the map is cached and made current with its layers, and a missing map changes nothing in the map manager; the box closes when the map loads, callback included, and otherwise says "Teleport failed!" |
| Game.EventManager.ReportTeleport | core/src/com/skloch/game/EventManager.java:350-353 | the box closes after a load, or says "Teleport failed!" |
| Game.EventManager.RecreationEvent | core/src/com/skloch/game/EventManager.java:357-387 | too early, then too tired, otherwise an hour for the cost and one recreational hour |
| Game.EventManager.RecreationFor | core/src/com/skloch/game/EventManager.java:362-366 | the report is shown and the hour's effect applied |
| Game.EventManager.SpendRecreation | core/src/com/skloch/game/EventManager.java:364-366 | energy, clock and recreational hours change as the recreation function says |
| Game.EventManager.DucksEvent | core/src/com/skloch/game/EventManager.java:357-371 | feeding the ducks costs 10 energy and an hour, and adds one recreational hour |
| Game.EventManager.BasketballEvent | core/src/com/skloch/game/EventManager.java:373-387 | basketball costs 20 energy and an hour, and adds one recreational hour |
| Game.EventManager.CookEvent | core/src/com/skloch/game/EventManager.java:389-405 | too early, then too tired below 30, otherwise an hour of cooking the meal of the time of day with the first argument marked performed |
| Game.EventManager.CookFor | core/src/com/skloch/game/EventManager.java:394-400 | the cooking report is shown and its effect applied |
| Game.EventManager.SpendCook | core/src/com/skloch/game/EventManager.java:396-400 | energy, clock and marks change as cooking does |
| Game.EventManager.SystemEvent | core/src/com/skloch/game/EventManager.java:60-70 | the first switch: fadefromblack queues the wake-up while sleeping, gameover records the score, and fadetoblack changes no numbers |
| Game.EventManager.SystemObjectEvent | core/src/com/skloch/game/EventManager.java:60-119 | those three keys also fall into the second switch's default branch and show "This is a key!" |
| Game.EventManager.SleptCallback | core/src/com/skloch/game/EventManager.java:322-331 | only while sleeping: the box opens on the sleep report with fadefromblack to follow, energy is hours times 13 capped at 100, the night passes and the hours are added |
| Game.EventManager.SpendNight | core/src/com/skloch/game/EventManager.java:327-329 | energy, clock and slept hours change as the sleep function says |
| Game.EventManager.WokenCallback | core/src/com/skloch/game/EventManager.java:429-436 | only while sleeping: the box opens on the wake-up message and the player wakes |
| Game.EventManager.RunPending | core/src/com/skloch/game/EventManager.java:418-443 | the oldest queued callback runs with the effect of its kind, and an empty queue changes nothing |
| Game.EventManager.Event | core/src/com/skloch/game/EventManager.java:52-122 | parameters are split at ';' (none when empty). The key's handler runs; any other key, the three system keys included, gets "This is a key!". Only teleport touches the maps |
| Game.EventManager.ScreenEvent | core/src/com/skloch/game/EventManager.java:73-121 | the second switch for every key but teleport, exit closing the box |
| Game.EventManager.ActivityEvent | core/src/com/skloch/game/EventManager.java:86-97 | chat, eat, comp_sci and rch go to their handlers, and the rest go on |
| Game.EventManager.LeisureEvent | core/src/com/skloch/game/EventManager.java:104-119 | basketball, ducks and cook go to their handlers; every other key gets the default text after its first-switch effect |
| Game.GameScreen.constructor | core/src/screens/GameScreen.java:65-141 | day 1 at 8:00 with 100 energy and no hours; not sleeping, no callbacks, the escape menu and dialogue box closed, no map yet |
| Game.GameScreen.ShowWakeUpMessage | core/src/screens/GameScreen.java:194-195 | the box opens on the wake-up message for the current day |
| Game.GameScreen.LoadStartingMap | core/src/screens/GameScreen.java:180-189 | a starting map that does not load stops the game, with the install outcome's exception when the map was found; one that loads has an existing interaction layer, and the spawn is the first spawn object on it |
| Game.GameScreen.SetEnergy | core/src/screens/GameScreen.java:607-613 | energy becomes the value capped at 100 |
| Game.GameScreen.DecreaseEnergy | core/src/screens/GameScreen.java:627-633 | energy drops by the amount in `int` arithmetic, floored at 0 |
| Game.GameScreen.AddStudyHours | core/src/screens/GameScreen.java:641-643 | study hours grow by exactly the argument |
| Game.GameScreen.AddRecreationalHours | core/src/screens/GameScreen.java:649-651 | recreational hours grow by exactly the argument |
| Game.GameScreen.AddSleptHours | core/src/screens/GameScreen.java:703-705 | slept hours grow by exactly the argument |
| Game.GameScreen.SetSleeping | core/src/screens/GameScreen.java:689-691 | only the sleeping flag changes |
| Game.GameScreen.GameOver | core/src/screens/GameScreen.java:717-721 | the current score is recorded for the leaderboard |
| Game.GameScreen.PassTime | core/src/screens/GameScreen.java:480-483 | the clock moves on and the day advances, as the pass-time function says, and the clock stays before midnight |
| Game.GameScreen.AdvanceDay | core/src/screens/GameScreen.java:508-519 | the while loop takes every whole day off the clock, counts it and starts a new catalog day, then records a game over from day 8 |
| Game.GameScreen.KeyDown | core/src/screens/GameScreen.java:529-597 | Escape toggles the escape menu. Confirm with the escape menu closed interacts: on an open box the menu choice or the scheduled event fires, or else the text advances exactly as the dialogue box says with nothing else changed; with no box open the nearby object is approached. Up and down move the pointer only while the box and its menu are open; other keys are not handled |
| Game.GameScreen.Interact | core/src/screens/GameScreen.java:546-580 | with the box open, confirm enters it: the event it hands on is fired, and the escape menu stays as it was; when nothing fires, the numbers, the map manager and the menu contents are kept and the box advances its text. Otherwise the nearby object is approached |
| Game.GameScreen.Fire | core/src/com/skloch/game/DialogueBox.java:387 | the event handed on does what `Game.EventManager.Event` states for its key and its parameters split at ';', and the escape menu is kept |
| Game.GameScreen.Approach | core/src/screens/GameScreen.java:553-577 | nothing when asleep or near nothing; an event object opens its question; a sign shows its text (a text with no page stops the game) |
| Game.GameScreen.PromptObject | core/src/screens/GameScreen.java:556-570 | the question for the event, Yes firing the event with its parameters and No firing exit, pointer on Yes |
| Game.GameScreen.OpenQuestion | core/src/screens/GameScreen.java:558-569 | the box and menu open with the given text, options, events and parameters, the choice at 0 |
| Game.GameScreen.ShowObjectText | core/src/screens/GameScreen.java:572-576 | the sign's text opens in the box, or the game stops when it has no page |
| Game.GameScreen.Soak | core/src/screens/GameScreen.java:582-593 | with the box and menu open and no escape menu, up and down move the choice and the key is handled; otherwise it is not |

## Left out

- Rendering, cameras, viewports, window sizes and positions, the escape menu's widgets, the interaction label, the energy bar and sound are not modelled. They are framework calls with no game logic.
- Time is whole minutes. The per-frame `passTime(Gdx.graphics.getDeltaTime())` and the fractional part of the float `daySeconds` are not modelled.
- The reveal counter is whole tenths of a character. `Dialogue.DialogueBox.ScrollText` takes a step below ten tenths; the game passes 0.8.
- Each chat's random hours come in as `Env.chatHours`, between 1 and 3.
- `Game.EventManager.RandomTopics` draws from the topics not yet chosen, which is what the retry loop amounts to. How likely each draw is, and how many retries happen, are not modelled.
- The fades of the black screen are the `pending` queue of `GameScreen`. The environment runs the oldest callback with `Game.EventManager.RunPending`. The fade animations and their duration are not modelled.
- `objectInteractions` is the constant `GameState.CATALOG` and the set `EventManager.performed` of entries performed today. The `Event` class itself is not part of this model.
- A map is a list of layers of object property maps, with a property map of its own. `TmxMapLoader` is the `disk` map of paths to maps.
- Maps.MapManager.LoadMap: the renderer it builds is not modelled. Of its call back into `GameScreen.teleported()`, only the exceptions are modelled; the player's new position, collision and interaction objects and bounds are not, because the `Player` class is not part of this model. So are `setCamera`, the two render calls and `dispose`. The constructor without a game (which runs no callback) is not modelled; the game always passes itself.
- Game.EventManager.TeleportEvent: whether `Float.parseFloat` accepts a coordinate comes in as `Env.isFloat`. The player's new position is not modelled, because the `Player` class is not part of this model.
- Game.GameScreen.KeyDown: when confirm fires an event, the event's effect is stated on `Game.GameScreen.Fire` (as on `Game.EventManager.Event`), relative to the state after the box has been entered, and not on this member. The case where nothing fires is stated in full.
- Game.GameScreen.Interact: as for `KeyDown`, the effect of a fired event is stated on `Game.GameScreen.Fire` rather than here.
- Game.GameScreen.LoadStartingMap states where the spawn point comes from. The cache and layer effects of loading are those stated on `Maps.MapManager.LoadMap`.
- The constructor's map loading and closing greeting are `Game.GameScreen.LoadStartingMap` and `Game.GameScreen.ShowWakeUpMessage`, called after `Game.GameScreen.constructor`. The player's avatar and starting position are not modelled.
- The object nearest the player is an argument of `Game.GameScreen.KeyDown`. `Player.nearObject` and `getClosestObject` belong to the unseen `Player` class.
- Dialogue.DialogueBox.InitialiseLabelText and the three `SetText` methods require a text that yields a page. In the game, any other text stops with an index exception at `textLines.get(0)`. The one text that can come from outside, a sign's text, is checked in `Game.GameScreen.ShowObjectText`, which models that crash.
- Dialogue.SelectBox.SetOptions and Dialogue.SelectBox.SetOptionsNoParams require at least one option, with the arrays of equal length, as every caller passes. With no options `setChoice(0)` would throw.
- Dialogue.SelectBox.SetChoice requires an index within the options; the game only passes 0.
- Dialogue.DialogueBox.AdvanceText returns the scheduled event to fire and clears it before the caller runs it; the game clears it after the event returns. No event handler schedules a new event during its run, so the two orders agree.
- `Game.EventManager.Event` requires `Env.chatHours` between 1 and 3, the range `nextInt(1, 4)` draws from.
- JavaText.ToLower lower-cases ASCII letters only; the chat topics are ASCII.
- TextLayout.WrapText counts columns in characters (Unicode scalar values), where the game counts UTF-16 code units from `toCharArray()`. A character outside the Basic Multilingual Plane takes two columns in the game and one here, and the game's hard break can split such a character's surrogate pair, which a string here cannot hold. The texts written in the game's code are all ASCII; sign texts and object names come from the map files.
- JavaText.ParseInt reads ASCII digits only. `Integer.parseInt` also accepts the decimal digits of other scripts, such as Arabic-Indic digits; the arguments it reads come from the game's own menus and map files, which use ASCII digits.
- The leaderboard is the sequence of scores recorded by `GameOver`. The switch to the game-over screen, and the `HustleGame`, `Leaderboard` and `GameObject` classes, are not part of this model.
- The menu and game-over screens and the sound manager are not modelled.
