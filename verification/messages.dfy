/** The texts the event handlers put in the dialogue box. Texts that take a
    value are functions of it; `%d` is IntToString and `%s` the string itself. */
module Messages {
  import opened JavaText

  const TREE_TEXT: string := "The tree doesn't say anything back."

  const CHEST_TEXT: string :=
    "Wow! This chest is full of so many " + "magical items! I wonder how they will help you out on your journey! "
    + "Boy, this is an awfully long piece of text, I wonder if someone is testing something?\n...\n...\n...\nHow cool!"

  /** objectEvent: the text for an object without a dedicated handler. */
  function ObjectText(key: string): string
  {
    "This is a " + key + "!"
  }

  /** The question asked before an object's event, when the catalog has no prompt for it. */
  function InteractText(key: string): string
  {
    "Interact with " + key + "?"
  }

  const CHAT_EARLY: string := "It's too early in the morning" + " to meet your friends, go to bed!"
  const CHAT_TIRED: string := "You are too tired to meet " + "your friends right now!"
  const CHAT_QUESTION: string := "What do you want to chat about?"

  function ChatText(topic: string, hours: int): string
  {
    "You talked about " + ToLower(topic) + " for " + IntToString(hours) + " hours!"
  }

  const STUDY_EARLY: string := "It's too early in the morning" + " to study, go to bed!"
  const STUDY_TIRED: string := "You are too tired to study right now!"
  const STUDY_QUESTION: string := "Study for how long?"
  const STUDY_TOO_LONG: string := "You don't have the energy " + "to study for this long!"

  function StudyText(hours: string, lost: int): string
  {
    "You studied for " + hours + " hours!\nYou lost " + IntToString(lost) + " energy"
  }

  const EAT_EARLY: string := "It's too early in the morning" + " to eat food, go to bed!"
  const EAT_TIRED: string := "You are too tired to eat right now!"

  function EatText(meal: string, cost: int): string
  {
    "You took an hour to eat " + meal + "!\nYou lost " + IntToString(cost) + " energy!"
  }

  /** The report of the night's sleep; the energy shown is capped at 100. */
  function SleepText(hours: int): string
  {
    var recovered := Wrap32(hours * 13);
    "You slept for " + IntToString(hours) + " hours!\nYou recovered "
      + IntToString(if recovered < 100 then recovered else 100) + " energy!"
  }

  const TELEPORT_FAILED: string := "Teleport failed!"

  const DUCKS_EARLY: string := "It's too early in the morning" + " to feed the ducks, the ducks are asleep!"
  const DUCKS_TIRED: string := "You are too tired to feed " + "the ducks right now!"

  function DucksText(cost: int): string
  {
    "You fed the ducks for an hour!\nYou lost " + IntToString(cost) + " energy!"
  }

  const BASKETBALL_EARLY: string := "It's too early in the morning" + " to play basketball!"
  const BASKETBALL_TIRED: string := "You are too tired to play " + "basketball right now!"

  function BasketballText(cost: int): string
  {
    "You played for an hour!\nYou lost " + IntToString(cost) + " energy!"
  }

  const COOK_EARLY: string := "It's too early in the morning" + " to cook a meal."
  const COOK_TIRED: string := "You are too tired to cook " + "right now. You might burn the house down!"

  function CookText(meal: string, cost: int): string
  {
    "You took an hour to cook " + meal + ".\nYou lost " + IntToString(cost) + " energy!"
  }
}
