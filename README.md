# Live presence client: a verified model

This project models the logic of the personal-dashboard client josephi.dev.
The client has three parts:

- **The presence stream session** (`useStream`). It holds one event source
  to the presence stream. It reconnects with exponential backoff after an
  `error`. Six named events (`presence.init`, `music.updated`,
  `steam.updated`, `steam.history.updated`, `steam.recent.updated` and
  `music.history.updated`) feed slices of state: the music snapshot, the
  Steam presence, the three lists, the loading flag and the playback
  position. While music plays, a one-second interval advances the
  position. The hook also derives `progressPercent` and `timeLabel`.
- **The time-text helpers** (`parseTimePart`, `parseProgress`,
  `formatSeconds`). They turn `"1:02:03"`, `"3:05 / 4:00"` and second counts
  into each other.
- **The widget rules.**
  - The game card: URL classification, status copy, session labels, avatar
    and background fallbacks, and the live elapsed-time ticker.
  - The contribution calendar: levels, colours, ordinals, weekday labels and
    the month header.
  - The recently-played filter.
  - The about-me status badge and avatar.

The files are:

| file | module | what |
|---|---|---|
| `wrappers.dfy` | `Wrappers` | `Option` |
| `js_text.dfy` | `JsText` | `trim`, `split`/`join`, `toLowerCase`, `endsWith`, `slice(0, n)`, decimal `String(n)` and `Number(s)` on the restricted domain described below |
| `music_time.dfy` | `MusicTime` | `src/utils/music.ts` |
| `stream.dfy` | `Stream` | `src/hooks/use-stream.ts` |
| `steam_widget.dfy` | `SteamWidget` | `src/components/widgets/steam-widget.tsx` |
| `github_widget.dfy` | `GitHubWidget` | `src/components/widgets/github-widget.tsx` |
| `recently_played.dfy` | `RecentlyPlayed` | `src/components/widgets/recently-played-widget.tsx` |
| `about_me.dfy` | `AboutMe` | `src/components/widgets/about-me.tsx` |

## How the model is built

**The session is a class.** `Stream.Session` has one field per piece of
hook state:

- `connection` and `attempt`;
- `pendingDelay`, which is the armed reconnect timer together with its
  delay;
- `sources`, the open/closed flag of every event source opened so far;
- `current`, which is `eventSourceRef`;
- `mounted`;
- the nine presence slices.

Each browser callback runs to completion, so it is one method. The data
events require the current source to be open, because a closed source
dispatches nothing. The timer-fire event requires an armed timer.

**Each data event is specified by a pure reducer.** Every data-event method
ensures `State() == ReduceX(old(State()), body)` and leaves the link state
unchanged. The properties are then proved about the pure reducers
(`ApplyMusic`, `ReduceInit`, …).

**Payload encodings.**

| source | model |
|---|---|
| a body that `JSON.parse` rejects, or one the handler throws on | `Body.Malformed` |
| a list body that parses to something other than an array | `Parsed(None)` |
| a number checked with `Number.isFinite` | `Option<int>` or `Option<real>`; `None` is missing or not finite |
| `Date.now()` | an integer parameter |
| `new Date(...).toLocaleString(...)` in the calendar | a parameter `monthOf: string -> Option<string>` |

**Numbers.**

- `Math.round(x)` is `(x + 0.5).Floor`.
- `Math.round(ms / 1000)` on whole milliseconds is `(ms + 500) / 1000`.
- The level thresholds `count / max <= 0.25` etc. are compared by exact
  cross-multiplication.
- JavaScript's `%` is modelled with the sign of the dividend
  (`GitHubWidget.JsRem`).

**Where the code does something other than the obvious thing, the model follows the code.**

- A body that fails to parse *clears* its slice rather than keeping the old
  value (`MalformedClears`). A failed `music.updated` or `presence.init`
  clears the music but leaves `isPlaying`, so the playback tick keeps
  running.
- A parsed position can exceed its total: `"5:00/3:00"` gives
  `currentSec = 300` with `totalSec = 180`.
- A negative `progressPercent` gives a negative `currentSec`. Then
  `progressPercent` can come out negative. That is why `ProgressPercent`
  promises `>= 0` only for a non-negative position.
- The "already pending" guard of the `error` handler can never fire. The
  timer is only armed while no source is open (`Session.TimerOnlyWhenClosed`, which `OnError`, `OnOpen` and
  `OnTimerFire` preserve), and a closed source raises no error. The model
  keeps the guard as written.
- `lastMonth` in the calendar's first pass is written but never read. It is
  not modelled.
- The game card's `baseElapsedMs` memo and its tick effect read
  `Date.now()` at two different moments. They are two parameters
  (`memoNow`, `effectNow`) of `LiveTicker.Start`.

## Model

| member | source | states |
|---|---|---|
| JsText.TrimPadded | src/utils/music.ts:7 | `trim` removes exactly the white space around a text that neither starts nor ends with white space |
| JsText.TrimKeeps | src/utils/music.ts:7 | `trim` keeps every non-space character |
| JsText.JoinOfSplit | src/utils/music.ts:9 | joining the pieces of a split with the separator gives the text back |
| JsText.SplitOfJoin | src/utils/music.ts:9 | splitting a join of separator-free pieces gives the pieces back |
| JsText.SplitAtSeparator | src/utils/music.ts:23 | splitting at a first separator yields the text before it followed by the split of the rest |
| JsText.DigitsOfNat | src/utils/music.ts:36-38 | the decimal text of a number reads back as that number |
| JsText.Take | src/components/widgets/recently-played-widget.tsx:20-21 | `slice(0, n)` has `min(n, length)` elements, which are the first ones, in order |
| MusicTime.ParseTimePart | src/utils/music.ts:6-20 | definition of `parseTimePart`, without a contract of its own; its rules are the `Parse…` lemmas below |
| MusicTime.ParseThreeSegments | src/utils/music.ts:13-15 | three numeric segments give `h·3600 + m·60 + s` |
| MusicTime.ParseTwoSegments | src/utils/music.ts:16-18 | two numeric segments give `m·60 + s` |
| MusicTime.ParseOneSegment | src/utils/music.ts:19 | one numeric segment gives its value |
| MusicTime.ParseFourSegments | src/utils/music.ts:19 | with four segments only the first counts |
| MusicTime.ParseJoin | src/utils/music.ts:9-19 | any colon-joined list of digit segments parses to its combined value |
| MusicTime.ParseBlank | src/utils/music.ts:7-8 | a blank part gives 0 |
| MusicTime.ParseNonNumeric | src/utils/music.ts:9-12 | a character that is no digit, colon or white space makes the whole part 0, in the digits-only reading of `Number` (JavaScript also reads `"1.5"` as 1.5; see Left out) |
| MusicTime.ParseSegmentsNaN | src/utils/music.ts:10-11 | one NaN segment makes the whole segment list NaN |
| MusicTime.ParseProgress | src/utils/music.ts:22-27 | definition of `parseProgress`, without a contract of its own; stated by `ParseProgressNoSlash`, `ParseProgressFirstTwo` and `ParseProgressOfLabel` |
| MusicTime.ParseProgressNoSlash | src/utils/music.ts:22-27 | without a '/' the text is the position and the total is 0 |
| MusicTime.ParseProgressFirstTwo | src/utils/music.ts:22-27 | only the first two '/'-pieces are read; further pieces are ignored |
| MusicTime.SafeSeconds | src/utils/music.ts:30 | non-finite or negative seconds become 0; otherwise the floor |
| MusicTime.FormatSeconds | src/utils/music.ts:29-39 | definition of `formatSeconds` (`FormatClock` of `SafeSeconds`), without a contract of its own; stated by the `FormatSeconds…`, `Clock…` and `ParseFormat…` lemmas |
| MusicTime.FormatSecondsClamps | src/utils/music.ts:30 | negative and non-finite inputs print as "0:00" |
| MusicTime.FormatSecondsFloors | src/utils/music.ts:30 | a fractional input prints as its floor |
| MusicTime.Pad2 | src/utils/music.ts:36-38 | `padStart(2, '0')` gives digits reading back as the number, two of them below 100 |
| MusicTime.ClockShape | src/utils/music.ts:31-38 | two colons exactly from 3600 on, else one; the seconds are always the last two digits; in the hour form the two digits before the last colon are the zero-padded minutes |
| MusicTime.ClockLeadingZero | src/utils/music.ts:35-38 | the clock starts with '0' exactly below one minute: minutes are padded only in the hour form |
| MusicTime.ParseFormatClock | src/utils/music.ts:6-39 | parsing the printed clock of `n` gives `n` back |
| MusicTime.ParseFormatSeconds | src/utils/music.ts:6-39 | for every `n >= 0`, `parseTimePart(formatSeconds(n)) == n` |
| MusicTime.ParsePaddedClock | src/utils/music.ts:6-39 | the round trip survives surrounding white space |
| MusicTime.ParseProgressOfLabel | src/utils/music.ts:22-39 | `parseProgress` of `"a / b"` built by `formatSeconds` gives `(a, b)` |
| MusicTime.FormatIntClock | src/utils/music.ts:29-30 | a whole number prints as the clock of its non-negative part |
| Stream.RoundHalfUp | src/hooks/use-stream.ts:124 | `Math.round` is the nearest integer, halves up |
| Stream.ApplyMusic | src/hooks/use-stream.ts:109-126 | definition of `applyMusicUpdate` on the state value, without a contract of its own; stated by `ApplyMusicStores` (the payload becomes the music, `isPlaying` iff PLAYING, position kept without text or usable percent) and the lemmas from `NullMusicKeepsPosition` to `ApplyMusicCommutes` |
| Stream.ReduceInit | src/hooks/use-stream.ts:144-157 | definition of the `presence.init` handler; stated by `ParsedEventsReplace` (steam, music and an array history are set), `InitIdempotent`, `EventsEndLoading` and `MalformedClears` |
| Stream.ReduceMusic | src/hooks/use-stream.ts:159-167 | definition of the `music.updated` handler; stated by `ApplyMusicStores` (a parsed payload becomes the music, `isPlaying` by state), `MusicIdempotent`, `MusicCommutes` and `MalformedClears` |
| Stream.ReduceSteam | src/hooks/use-stream.ts:169-177 | definition of the `steam.updated` handler; stated by `ParsedEventsReplace` (a parsed body replaces steam), `SlicesIdempotent`, `ListsCommute` and `NonArrayKeepsList` |
| Stream.ReduceSteamHistory | src/hooks/use-stream.ts:179-189 | definition of the `steam.history.updated` handler; stated by `ParsedEventsReplace` (an array replaces the list), `SlicesIdempotent` and `NonArrayKeepsList` |
| Stream.ReduceSteamRecent | src/hooks/use-stream.ts:191-201 | definition of the `steam.recent.updated` handler; stated by `ParsedEventsReplace` (an array replaces the list), `SlicesIdempotent`, `ListsCommute` and `NonArrayKeepsList` |
| Stream.ReduceMusicHistory | src/hooks/use-stream.ts:203-213 | definition of the `music.history.updated` handler; stated by `ParsedEventsReplace` (an array replaces the list), `SlicesIdempotent`, `ListsCommute` and `NonArrayKeepsList` |
| Stream.ApplyMusicStores | src/hooks/use-stream.ts:109-126 | a non-null payload is stored as the music and `isPlaying` holds iff its state is PLAYING, text or not; without text and without a usable percent, position and total stay; `music.updated` with it does the same |
| Stream.ParsedEventsReplace | src/hooks/use-stream.ts:144-213 | a parsed event replaces its slice: init sets steam and music, and the history when it is an array; `steam.updated` sets steam; each list event given an array sets its list to it |
| Stream.NullMusicKeepsPosition | src/hooks/use-stream.ts:110-114 | a null payload clears music, stops playback, keeps position and total |
| Stream.ProgressTextWins | src/hooks/use-stream.ts:116-122 | a non-empty progress text sets position and total to its parse whatever the percent; `isPlaying` iff PLAYING |
| Stream.PercentRescales | src/hooks/use-stream.ts:123-125 | without text, a finite percent and a known total set the position to the rounded share and keep the total |
| Stream.ApplyMusicIdempotent | src/hooks/use-stream.ts:109-126 | applying the same payload twice equals applying it once |
| Stream.ApplyMusicFrame | src/hooks/use-stream.ts:109-126 | the update writes only music, position, total and `isPlaying` |
| Stream.ApplyMusicCommutes | src/hooks/use-stream.ts:109-126 | the update reads only music, position, total and `isPlaying` |
| Stream.InitIdempotent | src/hooks/use-stream.ts:144-157 | `presence.init` delivered twice equals delivered once |
| Stream.MusicIdempotent | src/hooks/use-stream.ts:159-167 | `music.updated` delivered twice equals delivered once |
| Stream.SlicesIdempotent | src/hooks/use-stream.ts:169-213 | each Steam and list event delivered twice equals delivered once |
| Stream.MusicCommutes | src/hooks/use-stream.ts:159-213 | a music event commutes with each of `steam.updated`, `steam.history.updated`, `steam.recent.updated` and `music.history.updated` |
| Stream.ListsCommute | src/hooks/use-stream.ts:169-213 | `steam.updated` commutes with each of the three list events |
| Stream.EventsEndLoading | src/hooks/use-stream.ts:144-213 | every named event ends loading, parsed or not |
| Stream.MalformedClears | src/hooks/use-stream.ts:144-213 | a failed parse clears that event's slice (init: music and steam, not history) and changes nothing else |
| Stream.NonArrayKeepsList | src/hooks/use-stream.ts:169-213 | a non-array list body keeps the list; a null `steam.updated` clears steam |
| Stream.TickStep | src/hooks/use-stream.ts:253-258 | a tick adds one second, held at a known total, so the position never passes it |
| Stream.TicksClosedForm | src/hooks/use-stream.ts:252-259 | `k` ticks reach `min(prev + k, total)` from at or below a known total, and for `k > 0` from above it too; `prev + k` without a total |
| Stream.ReconnectDelay | src/hooks/use-stream.ts:222 | the delay lies between 1000 and 10000 ms |
| Stream.DelaySchedule | src/hooks/use-stream.ts:222 | the delays are 1000, 2000, 4000, 8000, then 10000 |
| Stream.DelayDoubles | src/hooks/use-stream.ts:222 | each further attempt doubles the delay up to the cap |
| Stream.DelayCapped | src/hooks/use-stream.ts:222 | from attempt 4 on the delay is the 10 s cap |
| Stream.ProgressPercent | src/hooks/use-stream.ts:264-272 | at most 100; `current/total·100` for a known total, exactly 100 at or past it; without a total, the server's percent clamped to 0..100, or 0 with no percent |
| Stream.TimeLabel | src/hooks/use-stream.ts:274-277 | definition of `timeLabel`, without a contract of its own; stated by `TimeLabelParses`, `TimeLabelWithoutTotal` and `ServerLabelShownBack` |
| Stream.TimeLabelParses | src/hooks/use-stream.ts:274-276 | with a known total, the label parses back to `(currentSec, totalSec)` |
| Stream.TimeLabelWithoutTotal | src/hooks/use-stream.ts:274-277 | without a total, the label is the music's text, or "--:--" without music |
| Stream.ServerLabelShownBack | src/hooks/use-stream.ts:274-277 | a server label in "a / b" form is shown back unchanged after `music.updated` |
| Stream.ReconnectScenario | src/hooks/use-stream.ts:215-228 | example without a contract: three failures in a row arm reconnect timers of 1 s, 2 s and 4 s; an open resets the attempt, so the next failure waits 1 s again |
| Stream.Session.constructor | src/hooks/use-stream.ts:90-107 | the initial slices, then one open source with `connecting` |
| Stream.Session.Connect | src/hooks/use-stream.ts:129-137 | closes the current source, opens exactly one new one; `reconnecting` iff `attempt > 0` |
| Stream.Session.OnOpen | src/hooks/use-stream.ts:139-142 | `live` and `attempt := 0`; nothing else changes |
| Stream.Session.OnError | src/hooks/use-stream.ts:215-228 | closes the source, `reconnecting`; without a pending timer, one timer with `ReconnectDelay(attempt)` and `attempt + 1`; with one, nothing more |
| Stream.Session.OnTimerFire | src/hooks/use-stream.ts:224-227 | the slot is cleared before `connect()`; one open source afterwards |
| Stream.Session.Teardown | src/hooks/use-stream.ts:233-240 | every source closed and no reconnect pending |
| Stream.Session.ApplyMusicUpdate | src/hooks/use-stream.ts:109-126 | state becomes `ApplyMusic` of the old state; the link is untouched |
| Stream.Session.OnPresenceInit | src/hooks/use-stream.ts:144-157 | state becomes `ReduceInit` of the old state |
| Stream.Session.OnMusicUpdated | src/hooks/use-stream.ts:159-167 | state becomes `ReduceMusic` of the old state |
| Stream.Session.OnSteamUpdated | src/hooks/use-stream.ts:169-177 | state becomes `ReduceSteam` of the old state |
| Stream.Session.OnSteamHistoryUpdated | src/hooks/use-stream.ts:179-189 | state becomes `ReduceSteamHistory` of the old state |
| Stream.Session.OnSteamRecentUpdated | src/hooks/use-stream.ts:191-201 | state becomes `ReduceSteamRecent` of the old state |
| Stream.Session.OnMusicHistoryUpdated | src/hooks/use-stream.ts:203-213 | state becomes `ReduceMusicHistory` of the old state |
| Stream.Session.Tick | src/hooks/use-stream.ts:247-262 | only while playing; position becomes `TickStep`, never past a known total |
| SteamWidget.IsMediaVideo | src/components/widgets/steam-widget.tsx:12 | definition of `isMediaVideo`; stated by the `UrlKinds…` lemmas |
| SteamWidget.IsImageUrl | src/components/widgets/steam-widget.tsx:14-22 | definition of `isImageUrl`; stated by the `UrlKinds…` lemmas |
| SteamWidget.UrlKindsExclusive | src/components/widgets/steam-widget.tsx:12-22 | no URL is both video and image; a null URL is neither |
| SteamWidget.UrlKindsBySuffix | src/components/widgets/steam-widget.tsx:12-22 | any URL whose ending lowercases to ".webm" is a video, and any whose ending lowercases to ".png", ".jpg", ".jpeg", ".webp" or ".gif" is an image, whatever the case of its letters |
| SteamWidget.UrlKindsOtherEnding | src/components/widgets/steam-widget.tsx:12-22 | a URL ending in no listed extension's last letter is neither |
| SteamWidget.StatusCopyOf | src/components/widgets/steam-widget.tsx:24-37 | definition of `getStatusCopy`; stated by `StatusLabels` |
| SteamWidget.StatusLabels | src/components/widgets/steam-widget.tsx:24-37 | known states have distinct labels; exactly a missing or unknown state reads "Unknown" |
| SteamWidget.RoundSeconds | src/components/widgets/steam-widget.tsx:43 | `Math.round(ms / 1000)` is within half a second of `ms / 1000` |
| SteamWidget.DurationTextRule | src/components/widgets/steam-widget.tsx:39-56 | a label wins; else a finite count prints, reading back as its rounded non-negative seconds; else nothing |
| SteamWidget.SessionLabel | src/components/widgets/steam-widget.tsx:39-46 | definition of `getSessionLabel`; stated by `SessionLabelRule` and `DurationTextRule` |
| SteamWidget.SessionLabelRule | src/components/widgets/steam-widget.tsx:39-46 | no session: "--:--"; else label, else formatted count, else "--:--" |
| SteamWidget.LastSessionLabel | src/components/widgets/steam-widget.tsx:48-56 | definition of `getLastSessionLabel`; stated by `LastSessionLabelNewestOnly` and `DurationTextRule` |
| SteamWidget.LastSessionLabelNewestOnly | src/components/widgets/steam-widget.tsx:48-56 | an empty history gives null; only the first entry is read |
| SteamWidget.BackgroundUrl | src/components/widgets/steam-widget.tsx:61 | definition of `backgroundUrl`; stated by `BackgroundFallback` |
| SteamWidget.BackgroundFallback | src/components/widgets/steam-widget.tsx:61 | large, else small, else none |
| SteamWidget.AvatarUrl | src/components/widgets/steam-widget.tsx:62-64 | definition of `avatarUrl`; stated by `AvatarFallback` |
| SteamWidget.AvatarFallback | src/components/widgets/steam-widget.tsx:62-64 | an image profile URL wins; else the avatar; else the profile URL, or "" without one; and the result is always one of these |
| SteamWidget.BaseElapsedMs | src/components/widgets/steam-widget.tsx:74-81 | definition of the `baseElapsedMs` memo; stated by `BaseElapsedRule` |
| SteamWidget.TickElapsedMs | src/components/widgets/steam-widget.tsx:93-95 | definition of the elapsed milliseconds one tick reads; stated by `LiveSecondsMonotone`, `LiveSecondsAdvance` and `StartedSessionCountsFromStart` |
| SteamWidget.BaseElapsedRule | src/components/widgets/steam-widget.tsx:74-81 | null without a session or numbers; a finite count as is; else `max(0, now − startedAt)` |
| SteamWidget.LiveSecondsMonotone | src/components/widgets/steam-widget.tsx:92-97 | the shown seconds never decrease as time advances |
| SteamWidget.LiveSecondsAdvance | src/components/widgets/steam-widget.tsx:92-97 | an extrapolated tick shows `k` more seconds `1000·k` ms later |
| SteamWidget.StartedSessionCountsFromStart | src/components/widgets/steam-widget.tsx:89-97 | a truthy start time is used over the base |
| SteamWidget.ElapsedSessionStartsAtBase | src/components/widgets/steam-widget.tsx:90-99 | the first tick of an elapsed-count session shows the count in seconds |
| SteamWidget.LiveTicker.constructor | src/components/widgets/steam-widget.tsx:72 | `liveSeconds` starts null with no interval |
| SteamWidget.LiveTicker.Start | src/components/widgets/steam-widget.tsx:83-102 | without a base, `liveSeconds` is cleared and nothing runs; else captures start and base, ticks once and runs |
| SteamWidget.LiveTicker.Tick | src/components/widgets/steam-widget.tsx:92-97 | `liveSeconds` is the floored elapsed seconds, never negative; the capture is unchanged |
| SteamWidget.LiveTicker.Stop | src/components/widgets/steam-widget.tsx:101 | the interval stops; nothing else changes |
| SteamWidget.IsPlaying | src/components/widgets/steam-widget.tsx:70 | definition of the card's `isPlaying` (PLAYING and a game); stated by `DisplayedTimeRule` and `AboutMe.BadgeAgreesWithGameCard` |
| SteamWidget.LiveLabel | src/components/widgets/steam-widget.tsx:104 | definition of `liveLabel` (the live seconds as a clock, else the session label); stated by `DisplayedTimeRule` |
| SteamWidget.DisplayedTime | src/components/widgets/steam-widget.tsx:204 | definition of the time the card shows (with `liveLabel` of line 104); stated by `DisplayedTimeRule` |
| SteamWidget.DisplayedTimeRule | src/components/widgets/steam-widget.tsx:204 | while playing, the live seconds (reading back as themselves) or the session label; else the last session's label, or "--:--" when there is none |
| SteamWidget.RecentItems | src/components/widgets/steam-widget.tsx:105 | the first `min(3, n)` recent items, in order |
| GitHubWidget.Level | src/components/widgets/github-widget.tsx:8-16 | the level lies in 0..4 |
| GitHubWidget.LevelZero | src/components/widgets/github-widget.tsx:9-10 | 0 exactly when `count <= 0`; 1 for a positive count with no positive maximum |
| GitHubWidget.LevelBands | src/components/widgets/github-widget.tsx:11-15 | levels 1–4 are the ratio bands ≤ ¼, ≤ ½, ≤ ¾, above |
| GitHubWidget.LevelMonotone | src/components/widgets/github-widget.tsx:8-16 | more contributions never give a lower level |
| GitHubWidget.LevelAtMax | src/components/widgets/github-widget.tsx:11-15 | `count == max > 0` gives 4 |
| GitHubWidget.CellColor | src/components/widgets/github-widget.tsx:173-174 | definition of a cell's colour class; stated by `CellColorIsLevel` |
| GitHubWidget.CellColorIsLevel | src/components/widgets/github-widget.tsx:173-174 | the colour is `COLORS[level]`, the fallback is never taken; colours differ iff levels do |
| GitHubWidget.MaxCount | src/components/widgets/github-widget.tsx:56 | at least 0 and every count; 0 or one of the counts |
| GitHubWidget.LevelOfDay | src/components/widgets/github-widget.tsx:173 | a day with contributions gets a level from 1 to 4 |
| GitHubWidget.JsRem | src/components/widgets/github-widget.tsx:19-21 | `a % b` is `a - b·trunc(a / b)`: Euclidean for `a >= 0`, in `(-b, 0]` for `a < 0` |
| GitHubWidget.Ordinal | src/components/widgets/github-widget.tsx:18-31 | definition of `getOrdinal`; stated by `OrdinalRule` and `OrdinalExamples` |
| GitHubWidget.OrdinalRule | src/components/widgets/github-widget.tsx:18-31 | the decimal day then "th" for 11–13 past a hundred, else "st"/"nd"/"rd" for 1/2/3, else "th"; negatives get "th" |
| GitHubWidget.OrdinalExamples | src/components/widgets/github-widget.tsx:18-31 | 1st, 2nd, 3rd, 4th, 11th–13th, 21st–23rd, 31st, 101st, 111th |
| GitHubWidget.WeekdayLabel | src/components/widgets/github-widget.tsx:41-52 | definition of `getWeekdayLabel`; stated by `WeekdayLabels` |
| GitHubWidget.WeekdayLabels | src/components/widgets/github-widget.tsx:41-52 | non-empty exactly for 1, 3, 5: Mon, Wed, Fri |
| GitHubWidget.WeekCount | src/components/widgets/github-widget.tsx:65 | `ceil(n / 7)` |
| GitHubWidget.FirstMonth | src/components/widgets/github-widget.tsx:69-80 | the month the `forEach` of the first pass leaves in one week, as a left fold over its days; stated by `FirstMonthIsFirst` and `FillWeekMonths` |
| GitHubWidget.FirstMonthIsFirst | src/components/widgets/github-widget.tsx:69-80 | a week's month is that of its first day with a month, or "" without one |
| GitHubWidget.VisitStep | src/components/widgets/github-widget.tsx:69-80 | visiting day `k` changes only week `k / 7` |
| GitHubWidget.FillWeekMonths | src/components/widgets/github-widget.tsx:65-80 | the week array is the week-by-week first month |
| GitHubWidget.TotalSpanIsLength | src/components/widgets/github-widget.tsx:82-96 | the spans cover as many weeks as they expand to |
| GitHubWidget.BuildSpans | src/components/widgets/github-widget.tsx:82-96 | spans of length ≥ 1 with neighbours labelled differently, expanding back to the weeks and summing to their count |
| GitHubWidget.MonthLabels | src/components/widgets/github-widget.tsx:57-99 | `weekCount = ceil(n / 7)`; no days give no labels; the labels run-length encode the week months |
| RecentlyPlayed.IsSameTrack | src/components/widgets/recently-played-widget.tsx:9-16 | definition of `isSameTrack`; stated by `FilteredWithoutMatchable` and `MatchIgnoresOtherFields` |
| RecentlyPlayed.Filtered | src/components/widgets/recently-played-widget.tsx:19 | no longer than the list; every survivor is listed and not the current track |
| RecentlyPlayed.FilteredMembers | src/components/widgets/recently-played-widget.tsx:19 | an entry survives iff it is listed and is not the current track |
| RecentlyPlayed.FilteredAppend | src/components/widgets/recently-played-widget.tsx:19 | filtering keeps order: it distributes over concatenation |
| RecentlyPlayed.FilteredNoMatch | src/components/widgets/recently-played-widget.tsx:19 | with no matching entry the list comes back whole |
| RecentlyPlayed.FilteredWithoutMatchable | src/components/widgets/recently-played-widget.tsx:9-15 | no current track, or one without a listen URL, filters nothing |
| RecentlyPlayed.MatchIgnoresOtherFields | src/components/widgets/recently-played-widget.tsx:11-15 | matching ignores id, cover and timestamps |
| RecentlyPlayed.Trimmed | src/components/widgets/recently-played-widget.tsx:20 | definition of `trimmed`; stated by `CardIsPrefixOfDialog` |
| RecentlyPlayed.ModalItems | src/components/widgets/recently-played-widget.tsx:21 | definition of `modalItems`; stated by `CardIsPrefixOfDialog` |
| RecentlyPlayed.CardIsPrefixOfDialog | src/components/widgets/recently-played-widget.tsx:20-21 | at most 4 and 9 entries; the card is a prefix of the dialog |
| AboutMe.Status | src/components/widgets/about-me.tsx:10-32 | definition of `getStatus`; stated by `StatusPriority`, `GameWinsOverMusic` and `StoppedTrackOffline` |
| AboutMe.AvatarOf | src/components/widgets/about-me.tsx:36 | definition of the avatar choice; stated by `AvatarRule` |
| AboutMe.StatusPriority | src/components/widgets/about-me.tsx:10-32 | always one of three badges: Playing iff steam PLAYING; else Working iff a PLAYING/PAUSED track; else Offline |
| AboutMe.GameWinsOverMusic | src/components/widgets/about-me.tsx:11-17 | PLAYING steam gives "Playing" whatever the music |
| AboutMe.StoppedTrackOffline | src/components/widgets/about-me.tsx:19-36 | a stopped track shows "Offline" with the laptop avatar |
| AboutMe.AvatarRule | src/components/widgets/about-me.tsx:36 | the laptop exactly when there is music |
| AboutMe.BadgeAgreesWithGameCard | src/components/widgets/about-me.tsx:11-17 | the game card's playing implies the "Playing" badge, not conversely |

## Left out

- The transport is left out: `EventSource`, `JSON.parse`, `setTimeout`/`setInterval`/`clearTimeout`/`clearInterval`. Events arrive as method calls with an already-parsed body. A timer is a pending slot with an explicit fire event.
- `Date.now()` is an integer parameter; no clock is modelled.
- React scheduling is not modelled: `useState` batching, effect ordering, `useMemo`. `totalSecRef` is taken to equal `totalSec` when an event runs. The tick interval is re-created whenever `isPlaying` or `totalSec` changes, so its captured total is the current one.
- After teardown the hook leaves the stale timer id in `reconnectTimeoutRef`. The model clears the slot, because the cancelled timer can no longer fire and nothing reads the ref again.
- The stream URL and API base are environment configuration and are not modelled.
- `Number(segment)` in `parseTimePart` is modelled only on digit strings, where the empty string reads as 0. Surrounding white space is trimmed. Anything else reads as NaN. Decimals, signs, exponents and hexadecimal that JavaScript also accepts are not modelled.
- `trim` uses a fixed set of white space: space, tab, LF, CR, VT, FF, NBSP and BOM. Other Unicode spaces are not handled, and `toLowerCase` changes only ASCII letters.
- Music.progressText is always a string, as its type says. The empty string stands for a missing text. A payload that omitted the field entirely would show "--:--" from `timeLabel`, where the model shows "".
- SteamWidget.TickElapsedMs: a start time of `Infinity` is treated as missing, whereas JavaScript treats it as truthy and shows 0.
- GitHubWidget.Level compares ratios exactly. The floating-point quotient can round onto a threshold only for counts beyond 2^52, and that case is not modelled.
- Wrap-around and precision loss of JavaScript numbers beyond 2^53 are not modelled; integers are unbounded.
- Date parsing and locale formatting (`formatTooltipDate`, the month names) are left out. The day tooltip text and the contribution total are not modelled; `getOrdinal`, which the tooltip uses, is.
- The contribution fetch (`use-gitHub-contributions.ts`) is I/O with no further logic.
- The music card's SVG ring uses floating-point π and is not modelled. The marquee text, visualizer bars, `App` and the build configuration are presentation only.
- All JSX markup, CSS class choices and animation are left out. The one exception is the class names that `getStatusCopy` and `getStatus` return, which are modelled.
