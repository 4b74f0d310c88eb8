# d23Next page state, in Dafny

d23Next is a Next.js front end for a debate platform. Its pages keep their
state in React `useState` hooks and change it in small event handlers. This
project models those handlers as pure functions from the old page state (plus
the event's input) to the new one. It then proves what each handler promises:
bounds, order preservation, round trips, idempotence, involutions, and that
nothing else changes.

One module per page:

- `Schedule` covers the schedule page: the 42-cell month calendar grid, month
  navigation, and the per-weekday availability toggles.
- `TopicDiscussion` covers the topic discussion room: the `m:ss` countdown
  and its tick, the chat send, and the add-resource form.
- `Tournaments` covers the create-tournament form: validation, defaults,
  prepend and reset. It also covers the filter reset.
- `Dashboard` covers the notifications, the unread badge, the debate-room
  search and filters, and the manual opponent entry.
- `Settings` covers the preferred topics, the notification, accessibility and
  privacy switches, and the single open-modal slot.
- `Onboarding` covers the four-step wizard, its step indicator, and the
  interest chips.
- `Rankings` covers the leaderboard search.
- `DebateRoom` covers the reaction counters, the microphone and camera
  switches, and the side-panel tabs. The group debate room and the AI debate
  room declare this state and these handlers identically, so one module
  models both. The table cites both files: the AI room declares the
  reaction handler at the same lines (40-45) as the group room.

The pages share some JavaScript built-ins. Two helper modules state them once:

- `Seqs` holds `Array.prototype.filter` (by value and by index), `map`, the
  "includes ? filter out : append" toggle, and the subsequence relation.
- `Text` holds `trim`, ASCII `toLowerCase`/`toUpperCase`, `includes`,
  `split`/`join` on one character, integer printing, `padStart` and
  `Number.parseInt`.

Some inputs are nondeterministic, so they become parameters:

- `Date.now()` becomes a fresh-id parameter.
- `Math.random()` becomes a roll parameter with the range of its `Math.floor`.
- The JavaScript `Date` calendar becomes (year, month) arithmetic in the
  proleptic Gregorian calendar.

## Model

| member | source | states |
|---|---|---|
| Schedule.GenerateCalendarDays | src/app/schedule/page.tsx:143-175 | the built grid has `GridSize` cells: the first `startingDayOfWeek` are blank, day `d` sits at index `startingDayOfWeek + d - 1`, and everything after the last day is blank |
| Schedule.MonthGridShape | src/app/schedule/page.tsx:158-174 | for a start weekday 0..6 and a 28..31-day month the grid has exactly 42 cells, exactly `totalDays` of them hold days, and the days increase left to right |
| Schedule.GridDayCount | src/app/schedule/page.tsx:164-172 | the number of non-blank cells equals `totalDays` for any start and length |
| Schedule.DaysInMonth | src/app/schedule/page.tsx:152-153 | the last day of a month lies in 28..31 |
| Schedule.FirstWeekday | src/app/schedule/page.tsx:148-149 | the weekday of the 1st is a value 0..6, with Sunday as 0 |
| Schedule.FirstWeekdayAdvances | src/app/schedule/page.tsx:148-153 | the next month starts on the weekday after this month's last day, which ties the weekday formula to the month lengths |
| Schedule.SelectedMonthGrid | src/app/schedule/page.tsx:143-175 | the grid for any selected (year, month) has 42 cells holding exactly that month's days |
| Schedule.ShiftMonth | src/app/schedule/page.tsx:185-192 | the new date is the 1st, and its month index `12 * year + month` is the old one plus the step |
| Schedule.NextThenPrevious | src/app/schedule/page.tsx:185-192 | next month followed by previous month returns to the same year and month, on day 1 |
| Schedule.PreviousThenNext | src/app/schedule/page.tsx:185-192 | previous month followed by next month returns to the same year and month, on day 1 |
| Schedule.GoToPreviousMonth | src/app/schedule/page.tsx:185-187 | the arrow moves to day 1 of the month exactly one before the current one, counting months across years |
| Schedule.GoToNextMonth | src/app/schedule/page.tsx:190-192 | the arrow moves to day 1 of the month exactly one after the current one, counting months across years |
| Schedule.InitialAvailabilityNoDuplicates | src/app/schedule/page.tsx:32-45 | the opening availability lists no period twice on any weekday |
| Schedule.NextMonthCarries | src/app/schedule/page.tsx:190-192 | December moves to January of the next year; any other month moves to the following month of the same year |
| Schedule.PreviousMonthBorrows | src/app/schedule/page.tsx:185-187 | January moves to December of the previous year; any other month moves to the month before in the same year |
| Schedule.ToggleAvailabilityPeriod | src/app/schedule/page.tsx:195-218 | a present period is removed from that weekday (the rest keep their order) and an absent one is appended at the end; other weekdays, timezone, notifications and autoSync are unchanged |
| Schedule.ToggleAvailabilityTwice | src/app/schedule/page.tsx:195-218 | toggling the same (weekday, period) twice restores the membership of every period on every weekday |
| Schedule.ToggleAvailabilityNoDuplicates | src/app/schedule/page.tsx:200-215 | a toggle never puts a period on a weekday twice |
| Schedule.SaveAvailabilityPreferences | src/app/schedule/page.tsx:221-225 | saving closes the availability modal and leaves the preferences and the rest of the page as they were |
| TopicDiscussion.FormatTimeShape | src/app/topic-discussion/page.tsx:206-210 | for `s >= 0` the clock is `floor(s / 60)` in decimal, a colon, and `s mod 60` as two digits |
| TopicDiscussion.FormatTimeSecondsField | src/app/topic-discussion/page.tsx:208-209 | the seconds field is always the last two characters, both digits, with a value in 0..59, right after the only colon |
| TopicDiscussion.FormatTimeSplits | src/app/topic-discussion/page.tsx:206-210 | for `s >= 0` the clock splits at its colon into exactly two pieces: the minutes and the two seconds digits |
| TopicDiscussion.FormatTimeRoundTrip | src/app/topic-discussion/page.tsx:206-210 | reading `mins * 60 + secs` back from the clock gives the original seconds for every `s >= 0` |
| TopicDiscussion.JsRemainder | src/app/topic-discussion/page.tsx:208 | JavaScript's `%` result lies in `0..59` for a non-negative dividend and in `-59..0` for a negative one |
| TopicDiscussion.Tick | src/app/topic-discussion/page.tsx:153 | one tick takes a positive count down by exactly 1 and leaves anything else at 0, so the count is never negative |
| TopicDiscussion.TicksClampAtZero | src/app/topic-discussion/page.tsx:151-156 | after `n` ticks from `t >= 0` the count is `t - n` while that is positive, and 0 from then on |
| TopicDiscussion.HandleResourceSubmit | src/app/topic-discussion/page.tsx:47-67 | a submit with an empty title, type, source or description changes nothing; a complete one resets every field to empty and no file, and closes the modal |
| TopicDiscussion.ResourceFileNotRequired | src/app/topic-discussion/page.tsx:51-53 | whether a submit is accepted does not depend on the attached file |
| TopicDiscussion.ResourceSubmitIdempotent | src/app/topic-discussion/page.tsx:59-66 | a second submit right after a first changes nothing more |
| TopicDiscussion.HandleSendMessage | src/app/topic-discussion/page.tsx:212-217 | sending leaves the room unchanged exactly when every character of the input is JavaScript whitespace; otherwise only the input changes, to "" |
| TopicDiscussion.SendMessageIdempotent | src/app/topic-discussion/page.tsx:212-217 | pressing send twice is the same as pressing it once |
| TopicDiscussion.FormatTime | src/app/topic-discussion/page.tsx:206-210 | the clock text always has at least four characters: some minutes, a colon and two seconds characters |
| TopicDiscussion.OpeningCountdown | src/app/topic-discussion/page.tsx:35 | the room opens at five minutes, so after `n` ticks the clock holds `300 - n` while `n <= 300` and 0 from then on |
| Tournaments.Validate | src/app/tournaments/page.tsx:141-146 | an error is reported exactly for each of name, description, start date and end date that is empty, and for nothing else |
| Tournaments.ValidateInCheckOrder | src/app/tournaments/page.tsx:141-146 | at most four errors, listed in the order the fields are checked: name, description, start date, end date |
| Tournaments.AppendLaterCheck | src/app/tournaments/page.tsx:141-146 | the error of a later check, appended after those of earlier checks, keeps the list in check order |
| Tournaments.OptionalFieldsNeverRequired | src/app/tournaments/page.tsx:142-146 | registration deadline, prize pool, maximum participants, format and skill level never affect validation |
| Tournaments.MaxParticipants | src/app/tournaments/page.tsx:162 | the participant limit is never 0: an unparsable or zero field falls back to 32 |
| Tournaments.MaxParticipantsDefaults | src/app/tournaments/page.tsx:162 | a typed-in integer `n` becomes the limit unless it is 0, and an empty field gives 32 |
| Tournaments.NewTournament | src/app/tournaments/page.tsx:155-172 | the record carries the click's id, the form's name and end date (as deadline), 0 participants, status "Registration Open" and the new-flag; empty format, prize pool and skill level fall back to "Single Elimination", "$5,000" and "Intermediate"; there are three rounds, none completed |
| Tournaments.HandleCreateTournament | src/app/tournaments/page.tsx:140-193 | with any validation error the page is unchanged; otherwise the active list is the new record followed by the old list, the form is back to its defaults and the modal is closed; the upcoming list and the filters are untouched either way |
| Tournaments.CreateKeepsIdsDistinct | src/app/tournaments/page.tsx:156 | a creation whose clock reading is not an existing id keeps every tournament id on the page unique |
| Tournaments.ResetFiltersIdempotent | src/app/tournaments/page.tsx:195-199 | resetting the filters twice is the same as resetting them once |
| Tournaments.ResetFilters | src/app/tournaments/page.tsx:195-199 | the search, skill level and date range return to "", "all" and an empty range; the selected tab filter, the lists and the form are kept |
| Dashboard.MarkAllAsRead | src/app/dashboard/page.tsx:141-148 | every notification stays in place with all its fields, except that read is true |
| Dashboard.MarkAllAsReadClearsBadge | src/app/dashboard/page.tsx:141-148 | after marking all as read the unread badge is off, and marking again changes nothing |
| Dashboard.BadgeIff | src/app/dashboard/page.tsx:544 | the badge is shown exactly when some notification is unread |
| Dashboard.DeleteNotification | src/app/dashboard/page.tsx:150-152 | a notification is kept exactly when its id differs from the deleted one, and the kept ones stay in order |
| Dashboard.DeleteUnknownIsNoop | src/app/dashboard/page.tsx:150-152 | deleting an id that no notification carries leaves the list unchanged |
| Dashboard.DeletePresentRemovesOne | src/app/dashboard/page.tsx:150-152 | with unique ids, deleting the id at position `k` removes exactly position `k` |
| Dashboard.DeleteThenMarkCommute | src/app/dashboard/page.tsx:141-152 | deleting and marking all as read give the same list in either order |
| Dashboard.FilteredRooms | src/app/dashboard/page.tsx:416-423 | a room is listed exactly when the lower-cased query occurs in its lower-cased name or topic, and its format and difficulty each match the select or the select is "all"; the listed rooms keep their order |
| Dashboard.InitialFiltersShowAll | src/app/dashboard/page.tsx:134-137 | with the initial empty query and both selects on "all", every room is listed |
| Dashboard.SearchIgnoresCase | src/app/dashboard/page.tsx:418-419 | an upper-cased query lists the same rooms as the query itself |
| Dashboard.FirstChars | src/app/dashboard/page.tsx:193-196 | joining each word's first character gives at most one character per word, and exactly each word's first character when no word is empty |
| Dashboard.Initials | src/app/dashboard/page.tsx:193-197 | the initials are the upper-cased first characters of the non-empty space-separated words, one each, in order; empty words from extra spaces add nothing |
| Dashboard.FirstCharsSkipsEmptyWords | src/app/dashboard/page.tsx:195-196 | the joined first characters of a word list equal those of its non-empty words alone |
| Dashboard.EmptyWordContributesNothing | src/app/dashboard/page.tsx:195-196 | removing any one empty word from the list leaves the joined first characters unchanged |
| Dashboard.InitialsSkipExtraSpaces | src/app/dashboard/page.tsx:193-197 | the name " ann  lee ", with leading, doubled and trailing spaces, gets the initials "AL" |
| Dashboard.InitialsOfWords | src/app/dashboard/page.tsx:193-197 | a name of non-empty words joined by single spaces gets one upper-cased initial per word, in order |
| Dashboard.HandleAddManualOpponent | src/app/dashboard/page.tsx:191-208 | a blank input changes nothing; otherwise one opponent is appended with the name as typed, its initials, rating 4.5, wins in 50..149 and debates in 100..149, and the input is cleared |
| Dashboard.AddManualOpponentBlankIff | src/app/dashboard/page.tsx:192 | the opponent list grows exactly when the input has a character that is not whitespace |
| Settings.HandleAddTopic | src/app/settings/page.tsx:103-115 | only Enter acts; a trimmed input that is non-empty and not listed is appended at the end and the field is cleared; a blank or listed topic leaves both list and field alone |
| Settings.AddTopicKeepsWellFormed | src/app/settings/page.tsx:106-112 | adding keeps the topics trimmed, non-empty and free of duplicates |
| Settings.HandleRemoveTopic | src/app/settings/page.tsx:118-121 | the index filter removes exactly that position and keeps the rest in order; an out-of-range index changes nothing |
| Settings.RemoveTopicKeepsWellFormed | src/app/settings/page.tsx:118-121 | removing keeps the topics trimmed, non-empty and free of duplicates |
| Settings.AddThenRemoveRestores | src/app/settings/page.tsx:103-121 | removing the topic just added at the end gives back the original preferences |
| Settings.InitialTopicsWellFormed | src/app/settings/page.tsx:65 | the three initial topics are trimmed, non-empty and distinct |
| Settings.ToggleNotification | src/app/settings/page.tsx:517-523 | a notification switch flips its own key and leaves the other seven keys and the rest of the page unchanged |
| Settings.ToggleNotificationTwice | src/app/settings/page.tsx:564-570 | flipping the same notification switch twice restores the page |
| Settings.ToggleAccessibility | src/app/settings/page.tsx:742-748 | an accessibility switch flips its own key and leaves the other key, font size, contrast and the rest of the page unchanged |
| Settings.ToggleAccessibilityTwice | src/app/settings/page.tsx:742-748 | flipping the same accessibility switch twice restores the page |
| Settings.ConfirmPrivacyChange | src/app/settings/page.tsx:896 | the confirm button negates the asked privacy key, keeps every other key and both visibilities, closes the modal, and leaves notifications, preferences, accessibility and the topic input as they were |
| Settings.HandlePrivacyChange | src/app/settings/page.tsx:90-100 | the given privacy key takes the given value, the other keys and visibilities are kept, and no modal is open afterwards |
| Settings.PrivacyConfirmFlips | src/app/settings/page.tsx:896 | asking and confirming flips exactly that privacy key and closes the modal; doing it twice restores the privacy settings |
| Settings.PrivacyCancelKeeps | src/app/settings/page.tsx:890 | opening a privacy confirmation and cancelling changes no setting and leaves no modal open |
| Settings.OpenModal | src/app/settings/page.tsx:664 | opening a modal makes it the only open one and changes no setting |
| Settings.CloseModal | src/app/settings/page.tsx:768 | closing leaves no modal open and changes no setting |
| Settings.AtMostOneModal | src/app/settings/page.tsx:31 | the page never shows two different modals at once; this follows from the single `openModal` state by construction |
| Onboarding.Click | src/components/onboarding-page.tsx:30-36 | a rendered Continue adds one to the step, a rendered Previous subtracts one, and a button that is not rendered leaves the step alone |
| Onboarding.ClicksStayInRange | src/components/onboarding-page.tsx:462-472 | whatever the user clicks, a step in 1..4 stays in 1..4 |
| Onboarding.ClickStaysInRange | src/components/onboarding-page.tsx:30-36 | a single click on a rendered button keeps the step in 1..4 |
| Onboarding.NextThenPrevious | src/components/onboarding-page.tsx:30-36 | Continue then Previous returns to the same step wherever Continue is offered |
| Onboarding.PreviousThenNext | src/components/onboarding-page.tsx:30-36 | Previous then Continue returns to the same step wherever Previous is offered |
| Onboarding.ContinueReachesEveryStep | src/components/onboarding-page.tsx:19 | starting from step 1, pressing Continue `n` times (n up to 3) reaches step `1 + n` |
| Onboarding.IndicatorsShowProgress | src/components/onboarding-page.tsx:90-106 | on step `c` exactly the first `c` indicators are coloured, and the connector before an indicator is filled exactly when that indicator is |
| Onboarding.HandleInterestToggle | src/components/onboarding-page.tsx:38-45 | a selected interest is removed (the rest keep their order), an unselected one is appended at the end, and every other form field is unchanged |
| Onboarding.InterestToggleTwice | src/components/onboarding-page.tsx:38-45 | toggling the same interest twice restores every interest's membership |
| Onboarding.InterestToggleTwiceFromUnselected | src/components/onboarding-page.tsx:41-43 | selecting an unselected interest and deselecting it restores the form exactly |
| Onboarding.InterestToggleNoDuplicates | src/components/onboarding-page.tsx:41-43 | the interest list never holds an interest twice |
| Rankings.FilteredDebaters | src/app/rankings/page.tsx:161-165 | a debater is listed exactly when the lower-cased query occurs in the lower-cased name or title, and the listed debaters keep their ranking order |
| Rankings.EmptyQueryKeepsAll | src/app/rankings/page.tsx:161-165 | an empty query lists every debater |
| Rankings.SearchIgnoresCase | src/app/rankings/page.tsx:162-164 | a query and its upper-cased form list the same debaters |
| Rankings.SelectsDoNotFilter | src/app/rankings/page.tsx:13-14 | the time and category selects do not change the list; the filter never reads them, so this holds by construction |
| Rankings.TypingNarrowsList | src/app/rankings/page.tsx:161-165 | extending the query can only remove debaters from the list |
| DebateRoom.HandleReaction | src/app/group-debate-room/page.tsx:40-45 | the chosen counter grows by exactly 1; the other two counters and the rest of the room are unchanged |
| DebateRoom.ReactCounts | src/app/group-debate-room/page.tsx:34-45 | after a series of reactions each counter has grown by the number of its own clicks, and nothing else changed |
| DebateRoom.OpeningCounters | src/app/group-debate-room/page.tsx:34-38 | from the opening 24 likes, 3 dislikes and 12 stars, each counter reads its opening value plus the number of its own clicks |
| DebateRoom.CountersNeverDecrease | src/app/ai-debate-room/page.tsx:34-45 | reactions never take a counter down |
| DebateRoom.ToggleMute | src/app/group-debate-room/page.tsx:280 | the microphone button flips mute and nothing else |
| DebateRoom.ToggleVideo | src/app/group-debate-room/page.tsx:294 | the camera button flips video and nothing else |
| DebateRoom.TogglesAreInvolutions | src/app/ai-debate-room/page.tsx:191-205 | each switch pressed twice restores the room, and the two switches commute |
| DebateRoom.ParseTab | src/app/group-debate-room/page.tsx:324-362 | only the four tab names read as a tab, and a tab read back prints as the same string |
| DebateRoom.ParseTabName | src/app/ai-debate-room/page.tsx:235-256 | every tab's name reads back as that tab, so `activeTab` names exactly one of chat, arguments, notes and rules |
| DebateRoom.SelectTab | src/app/group-debate-room/page.tsx:324-362 | a tab button makes its tab active and changes nothing else |
| DebateRoom.SelectTabIdempotent | src/app/group-debate-room/page.tsx:324-362 | selecting the active tab changes nothing, and selecting twice is the same as selecting once |
| Text.ParseIntOfIntToString | src/app/tournaments/page.tsx:162 | `Number.parseInt` reads back every integer printed in decimal |
| Text.ParseIntWithoutDigits | src/app/tournaments/page.tsx:162 | `Number.parseInt` yields NaN for an input none of whose characters is a digit in radix 10 or 16 |
| Text.TrimEmptyIff | src/app/topic-discussion/page.tsx:213 | a string trims to "" exactly when all of its characters are JavaScript whitespace |
| Text.JoinSplit | src/app/dashboard/page.tsx:193-196 | joining the pieces of a split with the same separator gives back the string |
| Text.SplitJoin | src/app/dashboard/page.tsx:193-194 | splitting a join of separator-free pieces gives back the pieces |
| Text.IncludesIff | src/app/rankings/page.tsx:163-164 | `includes` holds exactly when the needle occurs at some position of the string |
| Text.LowerOfUpper | src/app/rankings/page.tsx:162-164 | lower-casing an upper-cased string is lower-casing the original |
| Seqs.FilterMembers | src/app/dashboard/page.tsx:151 | the result holds exactly the elements of the list that pass the test |
| Seqs.FilterMultiset | src/app/dashboard/page.tsx:151 | each element that passes occurs in the result as often as in the list, and a rejected one not at all |
| Seqs.FilterAppend | src/app/dashboard/page.tsx:151 | filtering a concatenation is concatenating the filtered parts |
| Seqs.FilterIsSubsequence | src/app/rankings/page.tsx:161 | a filter keeps the survivors in their original order |
| Seqs.Toggle | src/components/onboarding-page.tsx:41-43 | the toggled value's membership flips, every other value's is kept, an absent value is appended at the end, and a present one is removed while the rest keep their order |
| Seqs.ToggleTwiceAbsentRestores | src/app/schedule/page.tsx:200-215 | toggling an absent value twice restores the list exactly |
| Seqs.ToggleNoDuplicates | src/components/onboarding-page.tsx:41-43 | toggling never introduces a duplicate |
| Seqs.FilterIndexIsRemoveAt | src/app/settings/page.tsx:119 | the filter on `i !== index` removes exactly position `index` |

## Left out

- JSX rendering, Tailwind classes, icons and images are left out. They decide how the state looks, not what it is.
- ECharts option objects and the chart set-up effect are left out. They are configuration for an opaque chart library, over floating-point data.
- `alert`, `toast`, `console.log` and `window.location.href` are left out. They are browser side effects. The text of the tournament error alert is not built either; `FormError.Message` only holds the four messages.
- Timer-driven simulations are left out: `handleFindOpponents`, room creation, AI debate start and the confetti timer. They are delays and canned data. The countdown tick is modelled as the interval's updater, `TopicDiscussion.Tick`, without the timer.
- The click-outside listener, `scrollIntoView` and `FileReader` are left out. They are DOM and I/O. The resource form's file is an optional name.
- `Date.now()` ids and `Math.random()` rolls are parameters, not generated values.
- `getMonthName` (`toLocaleString`) is left out. Locale formatting is outside the model.
- The JavaScript `Date` is modelled as proleptic Gregorian (year, month) arithmetic. Years below 100, which `new Date` maps into 1900-1999, are not modelled. The time of day and time zones are not modelled either. A JavaScript `Date` only holds instants within 8.64e15 ms of 1970, about years -271821 to 275760; beyond that it is an invalid date and the calendar shows 42 blank cells.
- Schedule.SelectedMonthGrid: holds for every integer year, while the page shows 42 blank cells once the selected date leaves the JavaScript `Date` range.
- Schedule.PreviousThenNext: holds for every integer year, while from January of year 100 the page steps back to December of year 99 and then, because `new Date` maps years below 100 into the 1900s, forward to January 2000.
- Schedule.NextThenPrevious: holds for every integer year, while the page's arrows produce an invalid date past the edges of the JavaScript `Date` range.
- Text.ToLower: folds only ASCII letters, because full Unicode case mapping (one character to several, locale rules) is outside the model. The search lemmas hold for this folding.
- Text.ParseInt: reads arbitrarily long digit runs exactly, while JavaScript rounds values beyond 2^53 to the nearest double.
- Dashboard.HandleAddManualOpponent: keeps the rating in tenths (45 for 4.5), because the model has no floating point. Its initials are upper-cased through `Text.ToUpper`, so only ASCII letters change case.
- Dashboard.FirstChars: takes the first whole character of each word, while JavaScript's `word[0]` is one UTF-16 code unit. For a word that starts with a character outside the Basic Multilingual Plane, such as an emoji, the page shows a lone surrogate and the model shows the whole character.
- Dashboard.InitialsOfWords: states one initial per word with ASCII upper-casing only. JavaScript's `toUpperCase` also maps "é" to "É" and turns "ß" into "SS", two characters for one word, which the model does not.
- Text.ToUpper: changes only the ASCII letters a-z. JavaScript's `toUpperCase` applies full Unicode case mapping, for example "é" to "É" and "ß" to "SS".
- Upcoming tournaments keep the extra fields the page shows (early-bird discount and the like) out of the model. Only the fields the handlers read or write are kept.
- Other toggles with no named handler are left out: the topic room's raised hand and its mute switch, the settings sections, font size and contrast buttons, and the dashboard's tab and menu flags. The settings page's option setters are left out for the same reason: default format, difficulty level, auto-matchmaking and preparation time (src/app/settings/page.tsx:388, 406, 452 and 469), and profile and debate-history visibility (src/app/settings/page.tsx:598 and 619). Each is a single `setX(!x)`, `setX(value)` or `setX({ ...x, field: value })`.
- The room's `currentSpeaker`, `timeRemaining` and `showControls` are carried in `DebateRoom.Room` but never change. The pages declare no handler for them.
- Pages with no state-changing logic are not part of this model: my-debates, whose filters are never applied, the landing and registration-success pages, the layout and the Next.js config.
