# Xmas Whisper advent calendar: a Dafny model

This project models the deterministic policies of "Xmas Whisper", a 25-day advent-calendar
web app. Each unlocked day shows one postcard: a literary quote and a generated image.
The model covers five parts of the app:

- **Calendar controller** (`calendar.dfy`, module `Calendar`, from `App.tsx`). It covers the
  unlock day, the state loaded at start-up, and the lock gate and fill-on-miss of
  `openCard`. It also covers closing a card, resetting the profile, completing onboarding,
  and the LOCKED / OPENED / OPEN label of each grid cell. The component is a class `App`
  with the fields `cardHistory`, `appState`, `selectedDay`, `isLoadingCard`, `currentDay`
  and `userDesc`. It has two more fields for what localStorage holds, and a log of the
  calls made to the content generator.
- **Notification gate** (`notifications.dfy`, module `Notifications`, from
  `hooks/useNotifications.ts`). A notification is sent at most once per date, and only at
  or after 07:30. The message is chosen by day of month modulo 10. The hook is a class
  holding the permission, the stored last-notified date key and a log of the notifications
  sent. A pure function `Check` specifies one check, and `RunChecks` chains any number of
  checks.
- **Offline cache strategy** (`service_worker.dfy`, module `ServiceWorker`, from
  `service-worker.js`). Install pre-fills one versioned cache. Activate deletes every other
  cache, in a loop over the cache names. Fetch is network-first for navigations and
  cache-first for everything else. CacheStorage is a class holding named caches and their
  creation order.
- **Card assembly** (`gemini.dfy`, module `GeminiService`, from `services/geminiService.ts`).
  This is the post-processing of the two model calls: the loop that picks the first inline
  image, the copying of the text fields, the image prompt, and the fixed fallback record
  returned when anything throws.
- **Onboarding guard** (`onboarding.dfy`, module `Onboarding`, from
  `components/Onboarding.tsx`). Submitting is accepted exactly when the description is not
  empty after JavaScript's `trim`, and the button is disabled by the same test.

`types.dfy` holds the records of `types.ts` (`CardContent`, `AppState`) and a small
`Option` / `Reply` wrapper module.

Things outside the program are parameters:

- **Clock.** The month and date for `getInitialDay`, and the date key, hour, minute and
  day of month for each notification check.
- **Model calls.** The two Gemini SDK calls and `JSON.parse` are functions from their input
  to a reply that may be a thrown error.
- **Network.** A fetch is a value that is either a response or a network error. Install
  takes a function from URL to such a value.
- **User answers.** `window.confirm` and the answer to the permission prompt are inputs.
- **Notifications.** The Notification API is a log of the notifications created.

Some modelling choices follow details of the code:

- `App.tsx` has no per-day in-flight marker: a second `openCard` of a day whose generation
  is pending would start another one. The model takes `openCard` as one atomic step.
- The four text fields of `CardContent` are copied from the parsed JSON without any check.
  So they are `Option<string>` here, and `None` stands for JavaScript's `undefined`.
- `caches.match` searches every cache in creation order, not only `CACHE_NAME`, so the
  model keeps the caches' names in that order.
- The activate handler runs only after a successful install. A rejected install promise
  discards the new worker, and the older caches stay.
- `generateCardContent` never rejects. `GeminiGenerator` packages it as a generator that
  always returns, so the `catch` branch of `openCard` (`App.tsx:89`) is unreachable through
  it. `OpenCard` still models that branch for an arbitrary generator: the history is then
  left unchanged.
- If the image answer's `candidates` array is empty, reading `candidates[0].content`
  throws. A first candidate without `content` throws too. Either way the result is the
  fallback record, not the default image.
- A missing `imagePrompt` makes the image prompt start with the text "undefined".

## Model

| member | source | states |
|---|---|---|
| Calendar.GetInitialDay | App.tsx:12-19 | In December (month 11) the day is the date capped at 25; in any other month it is 5; for dates 1..31 it is always in 1..25 |
| Calendar.InitialDesc | App.tsx:23-25 | The description starts as the stored one, or empty when none is stored |
| Calendar.InitialAppState | App.tsx:27-30 | The app starts in ONBOARDING exactly when no non-empty description is stored, and in CALENDAR otherwise |
| Calendar.StartsOnboardingIffNoDescription | App.tsx:23-30 | The start screen is ONBOARDING exactly when the initial description is empty |
| Calendar.LoadHistory | App.tsx:32-40 | A missing or unparsable saved history gives the empty map; a parsed one is used as it is |
| Calendar.DaysGrid | App.tsx:102 | The grid is the 25 days 1, 2, ..., 25 in order |
| Calendar.GridIsDecember | App.tsx:102 | A day is in the grid exactly when it is between 1 and 25 |
| Calendar.Label | App.tsx:195 | LOCKED exactly when the day is after the current day; otherwise OPENED exactly when the history has the day, else OPEN |
| Calendar.GridLabels | App.tsx:150-153 | The cell of day i+1 carries the label of day i+1 for the current day and history |
| Calendar.LockedCellsFollowCurrentDay | App.tsx:151 | For any integer current day: below 1 every cell is locked; from 25 on none is; in general cell i is locked exactly when i+1 is after the current day |
| Calendar.GeminiGenerator | App.tsx:86-93 | The generator built from generateCardContent answers every call with a card; it never throws |
| Calendar.App.constructor | App.tsx:23-52 | The mounted state has the initial description, screen and history, `getInitialDay()`, nothing selected, no calls made, and the loaded history written back |
| Calendar.App.SetCurrentDay | App.tsx:234 | The debug input sets the current day to any integer |
| Calendar.App.OpenCard | App.tsx:74-94 | A locked day changes nothing. An unlocked day becomes selected with VIEWING_CARD. A day in the history makes no generator call and keeps the history. A missing day makes exactly one call with (day, userDesc) and adds exactly that key when the call returns. No entry ever changes or disappears, and loading is false afterwards |
| Calendar.App.CloseCard | App.tsx:96-99 | Nothing is selected and the screen is CALENDAR; the history, the description and the current day are unchanged |
| Calendar.App.HandleResetProfile | App.tsx:66-72 | A confirmed reset clears the stored and in-memory description and shows ONBOARDING; a declined one changes nothing; the history is kept either way |
| Calendar.App.HandleOnboardingComplete | App.tsx:54-64 | The description is stored and held and the screen is CALENDAR; permission is asked for exactly when it is still `default`; the history is unchanged |
| Calendar.OpenTwice | App.tsx:80-88 | Opening the same unlocked day twice keeps the description and the current day. A cached day makes no call. A missing day whose first call returns makes exactly one call, with (day, the description held before). After the second open the day is selected with VIEWING_CARD, and the history holds the card the first open stored |
| Notifications.IsAfterSevenThirty | hooks/useNotifications.ts:54 | For minutes 0..59 the time test holds exactly when hour*60 + minute >= 450, with no upper bound |
| Notifications.MessageIndex | hooks/useNotifications.ts:59 | The message index is always within the 10-element list and is congruent to the day modulo 10 |
| Notifications.Check | hooks/useNotifications.ts:39-71 | A check on an already-notified date sends nothing and stores nothing. Otherwise it sends exactly one notification, titled "Xmas Whisper Calendar" with the daily icon and body `NOTIFICATION_MESSAGES[day % 10]`, exactly when the time is at or after 07:30, and then stores today's key. Otherwise the stored key is kept |
| Notifications.NotifiedDayIsQuiet | hooks/useNotifications.ts:43-45 | Once a date is stored as notified, any number of checks on that date send nothing and keep the key |
| Notifications.RunChecks | hooks/useNotifications.ts:73-77 | A run of checks sends at most one notification per check, every one with the daily title and icon. The stored key afterwards is the initial one or the date of one of the checks |
| Notifications.AtMostOncePerDay | hooks/useNotifications.ts:41-69 | Any number of checks with one date key send exactly one notification if the date was not yet notified and some check was at or after 07:30, and none otherwise |
| Notifications.NotificationCenter.constructor | hooks/useNotifications.ts:17-19 | The hook starts with the browser's permission, the stored key and no notification sent |
| Notifications.NotificationCenter.RequestPermission | hooks/useNotifications.ts:21-34 | Without Notification support nothing changes. Otherwise the answer becomes the permission, and a granted answer sends one confirmation notification |
| Notifications.NotificationCenter.CheckAndNotify | hooks/useNotifications.ts:39-71 | The stored key and the sent log change exactly as `Check` says |
| Notifications.NotificationCenter.Tick | hooks/useNotifications.ts:36-37 | Without granted permission no check runs, nothing is sent and nothing is stored; with it, one check runs |
| ServiceWorker.StrategyFor | service-worker.js:34 | Network-first exactly for navigation requests, cache-first for every other mode |
| ServiceWorker.MatchAll | service-worker.js:44 | The cache lookup finds nothing exactly when no cache holds the URL, and otherwise answers with the entry of the first cache, in creation order, that holds it |
| ServiceWorker.AddAll | service-worker.js:8 | addAll succeeds exactly when every URL fetches an OK response. It then stores each under its URL and keeps the other entries; otherwise nothing is stored |
| ServiceWorker.CacheFirstAnswer | service-worker.js:52-53 | A cache hit is returned without using the network; a miss returns the network's response, or nothing on a network error |
| ServiceWorker.CacheStorage.Open | service-worker.js:7 | Opening a name creates an empty cache, last in order, only when none exists |
| ServiceWorker.CacheStorage.Install | service-worker.js:4-11 | After install `CACHE_NAME` exists, appended last in order only when it was new. On success it is the old `CACHE_NAME` cache extended by addAll, with every URL of `urlsToCache` holding its fetched response. On failure it is the old cache, or empty if new. No other cache and no other name changes |
| ServiceWorker.CacheStorage.Activate | service-worker.js:13-27 | After activate only `CACHE_NAME` remains, with its contents untouched, or no cache at all if it did not exist |
| ServiceWorker.CacheStorage.DeleteAllBut | service-worker.js:16-23 | The loop over `caches.keys()` deletes every cache whose name differs from the kept one |
| ServiceWorker.CacheStorage.DeleteUnlessKept | service-worker.js:18-21 | One turn of the activate loop deletes exactly the visited name and its cache when it is not the kept one, and changes nothing otherwise |
| ServiceWorker.CacheStorage.Delete | service-worker.js:20 | Deleting removes exactly that name and its cache |
| ServiceWorker.CacheStorage.HandleFetch | service-worker.js:29-56 | A navigation with a network response returns it and stores it in `CACHE_NAME` under the URL; only that entry changes, and the name order changes only by appending a new `CACHE_NAME`. A navigation with a network error returns the cache lookup, which may be absent, and changes nothing. Any other request is answered by the cache-first rule, and no cache changes |
| ServiceWorker.InstallThenActivate | service-worker.js:1-27 | Activate runs only after a successful install. It then leaves `CACHE_NAME` as the only cache, and every shell URL is answered from it with the response fetched at install. A failed install leaves every other cache and the name order as they were |
| GeminiService.FindImageUrl | services/geminiService.ts:88-98 | The loop with `break` computes the URL of the first part carrying inline data, or the default |
| GeminiService.FirstImagePartWins | services/geminiService.ts:91-97 | The URL is `data:image/png;base64,` + the data of the first part that has it; later parts are ignored |
| GeminiService.NoImagePartKeepsDefault | services/geminiService.ts:88-98 | With no part carrying inline data the URL is `https://picsum.photos/600/800` |
| GeminiService.DefaultIffNoImagePart | services/geminiService.ts:88-98 | The URL is the default exactly when no part carries inline data |
| GeminiService.ImageUrlOf | services/geminiService.ts:88-98 | Missing `candidates` gives the default URL. Reading throws exactly when `candidates` is an empty array or its first element has no `content`. Otherwise a missing `parts` gives the default URL, and present parts give the URL selected from them |
| GeminiService.ParseText | services/geminiService.ts:67 | Missing or empty text parses as the empty object without calling the parser; other text goes to the parser |
| GeminiService.ImagePrompt | services/geminiService.ts:71-72 | The image prompt is the `imagePrompt` property, or "undefined" when it is missing, then ", " and the fixed stylistic suffix |
| GeminiService.GenerateCardContent | services/geminiService.ts:27-118 | Every outcome of the try block gives a card, and a thrown one gives the fixed fallback record |
| GeminiService.EveryExceptionGivesFallback | services/geminiService.ts:108-117 | A thrown text call, an unparsable or null answer, a thrown image call, or an unreadable first candidate each give exactly the Little Prince record with its Unsplash URL |
| GeminiService.SuccessCopiesFields | services/geminiService.ts:100-106 | On the success path `quoteJp`, `quoteZh`, `source` and `workTitle` are copied verbatim from the parsed JSON, and `imageUrl` is the selected URL |
| GeminiService.ImageUrlShapes | services/geminiService.ts:88-117 | Every card is the fallback record, or has the default URL, or has a PNG data URI with non-empty data |
| Onboarding.TrimEmptyIffAllTrimmable | components/Onboarding.tsx:12 | `trim()` gives the empty string exactly when every character is white space or a line terminator |
| Onboarding.CanSubmitIffVisibleChar | components/Onboarding.tsx:12 | The submit guard accepts exactly a description with a character that `trim` keeps |
| Onboarding.DisabledIffRejected | components/Onboarding.tsx:48 | The button is disabled exactly when the submit guard would reject |
| Onboarding.HandleSubmit | components/Onboarding.tsx:10-15 | Default submission is always prevented. `onComplete` is called exactly when the description has a non-white-space character, and then with the untrimmed description |
| Onboarding.BlankNeverCompletes | components/Onboarding.tsx:12-13 | An empty or white-space-only description never calls `onComplete` |

## Left out

- Gemini SDK calls, prompt text and response schema: the two `generateContent` calls are
  oracles, and their prompts are product copy.
- JSON: `JSON.parse` and `JSON.stringify` are not modelled. A saved history is absent,
  unparsable, or a parsed day map. A text that parses to some other JSON value is not
  modelled.
- JSON properties that are not strings: parsed fields are string-valued. A JSON scalar or
  array answer behaves like an object without these properties.
- localStorage as a store: each key the core uses is a field.
- Async ordering and cancellation: `openCard` is one atomic step. A second open while a
  generation is pending is not modelled, and neither is a card closed before its content
  arrives.
- Browser APIs: `Date`, `toDateString`, `setInterval` timing and the Notification
  constructor are left out. Their results are inputs, and the notifications they create go
  to a log.
- The first `Notification.permission` read throws in a browser without Notification
  support. That is not modelled.
- Service-worker runtime: `skipWaiting`, `clients.claim`, `waitUntil`, `respondWith`,
  `Response.clone()` and URL resolution are left out. Cache keys are URLs, and every
  request is taken to be a GET.
- `cache.put` is not awaited, so a put that fails after the response is returned is not
  modelled.
- `caches.open` and `caches.keys` never fail in the model.
- Fractional debug day values are left out: `currentDay` is an integer.
- Rendering: JSX, CSS, the "today" ring, the day-25 styling, components/Postcard.tsx,
  components/InstallPrompt.tsx and components/SantaTracker.tsx are presentation only.
- types.ts `DayCard` and `UserProfile` are declared but not used by the core.
