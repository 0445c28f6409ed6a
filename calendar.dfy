/** The calendar controller of App.tsx: the unlock day, the state loaded at start-up, the
    lock gate and fill-on-miss of `openCard`, the close and reset transitions, and the grid's
    labels. localStorage is two fields holding what was stored under `xmas_user_desc` and
    `xmas_card_history`; JSON is not modelled, a stored history is either absent, a text that
    does not parse, or a parsed day map. The content generator is an oracle. */
module Calendar {
  import opened Wrappers
  import opened Types
  import Notifications
  import GeminiService

  /** `getInitialDay`, reading the month (0-based) and the day of the month from the clock. */
  function GetInitialDay(month: int, date: int): (day: int)
    ensures month != 11 ==> day == 5
    ensures month == 11 ==> day <= 25 && (day == date || day == 25) && (date <= 25 ==> day == date)
    ensures 1 <= date <= 31 ==> 1 <= day <= 25
  {
    if month == 11 then (if date < 25 then date else 25) else 5
  }

  /** What localStorage holds under `xmas_card_history`. */
  datatype StoredHistory = Absent | Unparsable | Saved(days: map<int, CardContent>)

  /** The initial `cardHistory`: a missing or unparsable history is the empty map. */
  function LoadHistory(stored: StoredHistory): (history: map<int, CardContent>)
    ensures stored.Saved? ==> history == stored.days
    ensures !stored.Saved? ==> history == map[]
  {
    match stored
    case Saved(days) => days
    case _ => map[]
  }

  /** The initial `userDesc`: `localStorage.getItem(...) || ''`. */
  function InitialDesc(stored: Option<string>): (desc: string)
    ensures stored.Some? ==> desc == stored.value
    ensures stored.None? ==> desc == ""
  {
    stored.GetOr("")
  }

  /** The initial `appState`: onboarding exactly when no non-empty description is stored
      (the empty string is falsy). */
  function InitialAppState(stored: Option<string>): (s: AppState)
    ensures s == AppState.Onboarding <==> stored.None? || stored.value == ""
    ensures s != AppState.Onboarding ==> s == AppState.Calendar
  {
    if stored.Some? && stored.value != "" then AppState.Calendar else AppState.Onboarding
  }

  /** The start screen follows from the description the app starts with. */
  lemma StartsOnboardingIffNoDescription(stored: Option<string>)
    ensures InitialAppState(stored) == AppState.Onboarding <==> InitialDesc(stored) == ""
  {
  }

  /** `Array.from({ length: 25 }, (_, i) => i + 1)`. */
  function DaysGrid(): (grid: seq<int>)
    ensures |grid| == 25
    ensures forall i :: 0 <= i < 25 ==> grid[i] == i + 1
  {
    seq(25, i => i + 1)
  }

  /** The grid shows exactly the days 1 to 25. */
  lemma GridIsDecember(d: int)
    ensures d in DaysGrid() <==> 1 <= d <= 25
  {
    if 1 <= d <= 25 {
      assert DaysGrid()[d - 1] == d;
    }
  }

  /** A cell's label text. */
  datatype CellLabel = Locked | Opened | Open

  /** A cell is LOCKED when its day is after the current day, otherwise OPENED when its
      content is in the history and OPEN when it is not. */
  function Label(day: int, currentDay: int, history: map<int, CardContent>): (l: CellLabel)
    ensures l == Locked <==> day > currentDay
    ensures l == Opened <==> day <= currentDay && day in history
    ensures l == Open <==> day <= currentDay && day !in history
  {
    if day > currentDay then Locked else if day in history then Opened else Open
  }

  /** The labels of the whole grid. */
  function GridLabels(currentDay: int, history: map<int, CardContent>): (labels: seq<CellLabel>)
    ensures |labels| == 25
    ensures forall i :: 0 <= i < 25 ==> labels[i] == Label(i + 1, currentDay, history)
  {
    seq(25, i requires 0 <= i < 25 => Label(DaysGrid()[i], currentDay, history))
  }

  /** Any integer day set through the debug input is tolerated: below 1 every cell is
      locked, from 25 on none is, and in between exactly the days up to it are open. */
  lemma LockedCellsFollowCurrentDay(currentDay: int, history: map<int, CardContent>)
    ensures var labels := GridLabels(currentDay, history);
            && (currentDay < 1 ==> forall i :: 0 <= i < 25 ==> labels[i] == Locked)
            && (currentDay >= 25 ==> forall i :: 0 <= i < 25 ==> labels[i] != Locked)
            && (forall i :: 0 <= i < 25 ==> (labels[i] == Locked <==> i >= currentDay))
  {
  }

  /** What the generator answers for one `generateCardContent(day, userDesc)` call. */
  type Generator = (int, string) -> Reply<CardContent>

  /** services/geminiService.ts as the generator, for given answers of its model calls. */
  function GeminiGenerator(
    textCall: (int, string) -> Reply<GeminiService.TextResponse>,
    parse: string -> GeminiService.Json,
    imageCall: string -> Reply<GeminiService.ImageResponse>): (g: Generator)
    ensures forall day, desc :: g(day, desc).Returned?
  {
    (day, desc) => Returned(GeminiService.GenerateCardContent(day, desc, textCall, parse, imageCall))
  }

  /** The App component's state. `storedDesc` and `storedHistory` are what localStorage
      holds; `generationRequests` logs the generator calls made. */
  class App {
    var userDesc: string
    var appState: AppState
    var cardHistory: map<int, CardContent>
    var currentDay: int
    var selectedDay: Option<int>
    var isLoadingCard: bool
    var storedDesc: Option<string>
    var storedHistory: StoredHistory
    var generationRequests: seq<(int, string)>

    /** Between two user actions nothing is loading, the saved history is the current one
        (the effect on `cardHistory` writes it after every change), and the description in
        memory is the stored one or empty. */
    ghost predicate Valid()
      reads this
    {
      && !isLoadingCard
      && storedHistory == Saved(cardHistory)
      && userDesc == InitialDesc(storedDesc)
    }

    /** Mounting the component: the lazy initial states, `getInitialDay()`, and the first
        run of the persisting effect. */
    constructor (savedDesc: Option<string>, savedHistory: StoredHistory, month: int, date: int)
      ensures Valid()
      ensures userDesc == InitialDesc(savedDesc) && storedDesc == savedDesc
      ensures appState == InitialAppState(savedDesc)
      ensures cardHistory == LoadHistory(savedHistory)
      ensures currentDay == GetInitialDay(month, date)
      ensures selectedDay == None && generationRequests == []
    {
      userDesc := InitialDesc(savedDesc);
      storedDesc := savedDesc;
      appState := InitialAppState(savedDesc);
      cardHistory := LoadHistory(savedHistory);
      currentDay := GetInitialDay(month, date);
      selectedDay := None;
      isLoadingCard := false;
      storedHistory := Saved(cardHistory);
      generationRequests := [];
    }

    /** The debug input: `setCurrentDay(Number(value))`, any integer. */
    method SetCurrentDay(day: int)
      modifies this`currentDay
      ensures currentDay == day
    {
      currentDay := day;
    }

    /** `openCard(day)`, as one atomic step. A locked day changes nothing. An unlocked day is
        selected and shown; its content is generated only when the history lacks it, and
        a generated card (whatever it is) is added under `day` and nowhere else. */
    method OpenCard(day: int, generate: Generator)
      requires Valid()
      modifies this
      ensures Valid()
      ensures currentDay == old(currentDay) && userDesc == old(userDesc) && storedDesc == old(storedDesc)
      ensures day > currentDay ==>
                && selectedDay == old(selectedDay) && appState == old(appState)
                && cardHistory == old(cardHistory) && generationRequests == old(generationRequests)
      ensures day <= currentDay ==> selectedDay == Some(day) && appState == AppState.ViewingCard
      ensures day <= currentDay && day in old(cardHistory) ==>
                cardHistory == old(cardHistory) && generationRequests == old(generationRequests)
      ensures day <= currentDay && day !in old(cardHistory) ==>
                && generationRequests == old(generationRequests) + [(day, userDesc)]
                && cardHistory == match generate(day, userDesc)
                                  case Returned(card) => old(cardHistory)[day := card]
                                  case Threw => old(cardHistory)
      ensures forall d :: d in old(cardHistory) ==> d in cardHistory && cardHistory[d] == old(cardHistory)[d]
    {
      if day > currentDay {
        return;
      }
      selectedDay := Some(day);
      appState := AppState.ViewingCard;
      if day in cardHistory {
        return;
      }
      isLoadingCard := true;
      generationRequests := generationRequests + [(day, userDesc)];
      var reply := generate(day, userDesc);
      if reply.Returned? {
        cardHistory := cardHistory[day := reply.value];
        storedHistory := Saved(cardHistory);
      }
      isLoadingCard := false;
    }

    /** `closeCard`. */
    method CloseCard()
      requires Valid()
      modifies this
      ensures Valid()
      ensures selectedDay == None && appState == AppState.Calendar
      ensures cardHistory == old(cardHistory) && storedHistory == old(storedHistory)
      ensures userDesc == old(userDesc) && storedDesc == old(storedDesc) && currentDay == old(currentDay)
      ensures generationRequests == old(generationRequests)
    {
      selectedDay := None;
      appState := AppState.Calendar;
    }

    /** `handleResetProfile`, after the user answers `window.confirm`: a confirmed reset
        clears the stored description and returns to onboarding; the cards are kept. */
    method HandleResetProfile(confirmed: bool)
      requires Valid()
      modifies this
      ensures Valid()
      ensures !confirmed ==> appState == old(appState) && userDesc == old(userDesc) && storedDesc == old(storedDesc)
      ensures confirmed ==> storedDesc == None && userDesc == "" && appState == AppState.Onboarding
      ensures cardHistory == old(cardHistory) && storedHistory == old(storedHistory)
      ensures selectedDay == old(selectedDay) && currentDay == old(currentDay)
      ensures generationRequests == old(generationRequests)
    {
      if confirmed {
        storedDesc := None;
        appState := AppState.Onboarding;
        userDesc := "";
      }
    }

    /** `handleOnboardingComplete(desc)`: the description is stored and the calendar shown.
        Returns whether permission is to be requested (it is while still `default`). */
    method HandleOnboardingComplete(desc: string, permission: Notifications.Permission)
      returns (askPermission: bool)
      requires Valid()
      modifies this
      ensures Valid()
      ensures storedDesc == Some(desc) && userDesc == desc && appState == AppState.Calendar
      ensures askPermission <==> permission == Notifications.Default
      ensures cardHistory == old(cardHistory) && storedHistory == old(storedHistory)
      ensures selectedDay == old(selectedDay) && currentDay == old(currentDay)
      ensures generationRequests == old(generationRequests)
    {
      storedDesc := Some(desc);
      userDesc := desc;
      appState := AppState.Calendar;
      askPermission := permission == Notifications.Default;
    }

    /** The label shown on the cell of `day` in the current state. */
    function CellLabelOf(day: int): CellLabel
      reads this
    {
      Label(day, currentDay, cardHistory)
    }
  }

  /** Opening the same unlocked day twice: a cached day makes no generator call; a missing
      day whose first generation returns makes exactly one call, with the description held
      before; and the second open shows the content the first one stored. */
  method OpenTwice(app: App, day: int, first: Generator, second: Generator)
    requires app.Valid() && day <= app.currentDay
    modifies app
    ensures app.Valid()
    ensures app.userDesc == old(app.userDesc) && app.currentDay == old(app.currentDay)
    ensures app.selectedDay == Some(day) && app.appState == AppState.ViewingCard
    ensures day in old(app.cardHistory) ==> app.generationRequests == old(app.generationRequests)
    ensures day !in old(app.cardHistory) && first(day, old(app.userDesc)).Returned? ==>
              app.generationRequests == old(app.generationRequests) + [(day, old(app.userDesc))]
    ensures first(day, old(app.userDesc)).Returned? || day in old(app.cardHistory) ==>
              && day in app.cardHistory
              && app.CellLabelOf(day) == Opened
              && app.cardHistory[day] == (if day in old(app.cardHistory) then old(app.cardHistory)[day]
                                         else first(day, old(app.userDesc)).value)
  {
    app.OpenCard(day, first);
    ghost var afterFirst := app.cardHistory;
    ghost var requestsAfterFirst := app.generationRequests;
    app.OpenCard(day, second);
    assert day in afterFirst ==> app.generationRequests == requestsAfterFirst;
  }
}
