# Mystic Match: a Dafny model of the memory-match game and its login checks

Mystic Match is a browser memory game. Its board is a shuffled deck of
face-down cards, each image on exactly two of them. The player turns up
two cards per move. Equal images stay matched. Different images are turned
back down after a short delay.

The difficulty mode comes from the page's `mode` query value:
- easy: 6 pairs, no move limit, a clock that counts up;
- medium: 8 pairs and 20 moves;
- hard: 10 pairs, 35 moves and a 180-second countdown.

The countdown sounds a buzzer once, at ten seconds left. A round is won when
every pair is matched. It is lost when the moves run out (medium, hard) or
the countdown reaches zero (hard). The login page shows the player's age
in years, months and days. Before a submission is sent, it checks that
every field is filled and that the name starts with two letters.

The project is built as follows:

- `wrappers.dfy`: `Option`.
- `game_rules.dfy` (`GameRules`): the constants, and the values derived
  from the mode. These are the pair count, the move limit (`Infinity` is
  `Unbounded`), whether the clock counts down, the end verdict of
  `checkEnd`, and the moves counter the page shows.
- `game_clock.dfy` (`GameClock`): `formatTime`, with the decimal rendering
  and `padStart(2, "0")`. The lemmas show that the text reads back to the
  seconds it was made from.
- `game_deck.dfy` (`GameDeck`): the in-place Fisher-Yates `shuffle` on an
  `array`, `pickRandomImages`, and `buildBoard`'s deck. The shuffle is
  proved to be a permutation, the picked images to be a duplicate-free
  prefix of the shuffled pool within 1..14, and the deck to hold each of
  its images on exactly two cards.
- `game_round.dfy` (`GameRound`): the page state as a value (`Round`),
  with one function per event and lemmas that every event keeps the
  invariant `Inv`. The invariant covers:
  - the settings agree with the mode;
  - the board is a deck;
  - the turn's shape fits the face-up cards;
  - there are two matched cards per match, and the moves left are the
    limit minus the moves made;
  - a running countdown has time left.
- `game_session.dfy` (`GameSession`): the same state held in the fields of
  a `Session` object, with one method per event. Each method is specified
  as `State() == F(old(State()))` for the `GameRound` function `F`. The
  event methods (`ResetAndStart`, `StartTimer`, `StartTimerAsWritten`,
  `HandleLoss`, `Tick`, `CheckEnd`, `Activate`, `Resolve`) and the
  constructor establish or keep `Valid()`. `ResetState`, `BuildBoard`,
  `StopTimer` and `SecondPick` are steps inside those events and are
  specified by their functions alone. The `mode` query value is fixed
  when the session is made, as `location.search` is for the page.
- `login.dfy` (`Login`): the age arithmetic, as a method that updates its
  variables step by step. Also `trim`, the name pattern, and the order of
  the submit checks.

Inputs from the environment are parameters of the model:
- `Math.random()` is a `picks` sequence: `picks[i]` is the swap partner
  `j <= i` chosen at step `i`.
- `location.search` is the `mode` value, passed as a string. A missing or
  empty value is `""`.
- Whether a buzzer audio element exists is the `hasBuzzer` flag.
- `new Date(y, m, 0).getDate()` is the `prevMonthLastDay` parameter, in
  28..31. `LastDayOfPreviousMonth` is its calendar definition.
- `setTimeout` and `setInterval` callbacks are separate events. Each event
  is atomic, and the caller chooses the order. The callbacks are
  `StartTimer` 250 ms after a restart, `Tick` each second, and `Resolve`
  300 or 650 ms after a second pick.

Two behaviours of the code worth knowing:
- The buzzer sounds when `timeRemaining === 10` after a decrement (`script/game.js:184`).
- A restart keeps the old interval running and leaves pending callbacks
  scheduled (see Findings). It only resets the variables.

## Model

| member | source | states |
|---|---|---|
| GameRules.ParseMode | script/game.js:26-27 | the mode is medium or hard exactly when the query value names it. Any other value, including a missing one, gives easy. |
| GameRules.ModeFor | script/game.js:304-305 | on restart, an empty value keeps the current mode. Any other value is read as on load. |
| GameRules.RestartKeepsMode | script/game.js:26-27 | restarting on the loaded page repeats the mode chosen on load |
| GameRules.PairCount | script/game.js:5 | 6, 8 or 10 pairs by mode, always between 1 and 14 |
| GameRules.MaxMoves | script/game.js:33-37 | the limit is unbounded exactly in easy mode. Otherwise it is floor(pairs x factor), stated as a two-sided bound; medium is 20 and hard is 35. |
| GameRules.MoveLimitFactor | script/game.js:6 | the factor is infinite exactly in easy mode. Otherwise it is the exact ratio 2.5 for medium or 3.5 for hard. |
| GameRules.IsCountdown | script/game.js:50 | `countdownMode = gameMode === "hard"` |
| GameRules.Decrement | script/game.js:145-148 | `movesRemaining--` lowers a bounded limit by one and leaves `Infinity` unbounded |
| GameRules.Remaining | script/game.js:297 | the moves left plus the moves made equal the limit, and `Infinity` stays unbounded |
| GameRules.RemainingStep | script/game.js:145-148 | one more move made is one more decrement of what remains |
| GameRules.Exhausted | script/game.js:219 | `movesRemaining <= 0`, never true of `Infinity` |
| GameRules.EndVerdict | script/game.js:212-225 | won exactly when every pair is matched. Lost on moves exactly when not won, in medium or hard, with no moves left. Otherwise no verdict. Never a time loss. |
| GameRules.LastMoveWin | script/game.js:212-225 | matching the last pair on the last allowed move wins, because the win test comes first |
| GameRules.EasyNeverRunsOutOfMoves | script/game.js:218-224 | easy mode never loses on moves |
| GameRules.MovesDisplay | script/game.js:281-287 | the counter is never negative. It shows the moves made in easy mode. Otherwise it shows the moves left floored at zero, and it is zero exactly when none are left. |
| GameRules.MovesDisplayCountsDown | script/game.js:281-287 | in medium and hard the counter never rises as moves are made, and it equals the limit minus the moves made |
| GameClock.DigitValue | script/game.js:56-59 | reading a digit back inverts writing it |
| GameClock.PadStart2 | script/game.js:56-59 | `padStart(2, "0")`. The result is at least two long and ends with the input. Everything before the input is zeros. |
| GameClock.Decimal | script/game.js:56-57 | `Number.prototype.toString` of a non-negative integer. The text is non-empty and its last digit is `n % 10`. |
| GameClock.DecimalDenotes | script/game.js:56-59 | the decimal text is all digits, non-empty and denotes its number. Below 100 it is at most two digits. |
| GameClock.LeadingZero | script/game.js:56-59 | a leading zero keeps the value of a digit string |
| GameClock.PadKeepsValue | script/game.js:56-59 | padding keeps a digit string's value |
| GameClock.PaddedField | script/game.js:56-59 | a padded field is two or more digits and denotes its number. Below 100 it is exactly two digits. |
| GameClock.FormatTime | script/game.js:55-61 | `formatTime`: padded minutes, a colon, padded seconds. Its properties are stated by FormatTimeFields, FormatTimeRoundTrip and FormatTimeInjective. |
| GameClock.FormatTimeFields | script/game.js:55-61 | the clock text is minutes, a colon, and exactly two second digits. They denote seconds / 60 and seconds % 60. Below 100 minutes the text is five characters long. |
| GameClock.FormatTimeRoundTrip | script/game.js:55-61 | reading `formatTime(s)` back as minutes and seconds gives `s` |
| GameClock.FormatTimeInjective | script/game.js:55-61 | different second counts never show the same text |
| GameClock.FormatTimeConstants | script/game.js:191 | the start of the count-up and the hard countdown show "00:00" and "03:00" |
| GameDeck.SwapAt | script/game.js:66 | the swap exchanges positions i and j and leaves every other position as it was |
| GameDeck.SwapPermutes | script/game.js:66 | a swap keeps the multiset, and keeps distinct elements distinct |
| GameDeck.ShuffleDown | script/game.js:64-67 | the swap loop from `i` down to 1, one swap with `picks[i]` per step. The result has the input's length. |
| GameDeck.ShuffleDownPermutes | script/game.js:64-67 | the loop from `i` down to 1 keeps the length and the multiset, and keeps distinct elements distinct |
| GameDeck.Shuffled | script/game.js:63-69 | `shuffle` on a sequence, with the same length as the input |
| GameDeck.ShuffledPermutes | script/game.js:63-69 | `shuffle` is a permutation that keeps distinct elements distinct |
| GameDeck.Shuffle | script/game.js:63-69 | the array ends as the specification function of the swap loop says, and as a permutation of its old contents |
| GameDeck.Pool | script/game.js:72 | the pool is 1..14 in order |
| GameDeck.PoolDistinct | script/game.js:72 | the pool has no duplicates and holds exactly the indices 1..14 |
| GameDeck.PickRandomImages | script/game.js:71-76 | the choice is the first n of the shuffled pool (at most 14), all different, all within 1..14 |
| GameDeck.DistinctOnce | script/game.js:74 | an element of a duplicate-free sequence occurs once |
| GameDeck.DistinctElements | script/game.js:74 | a duplicate-free sequence has as many different elements as it is long |
| GameDeck.DoubledIsDeck | script/game.js:108-110 | a shuffle of two copies of a distinct choice is a deck: each image on exactly two cards, with the chosen images and no others |
| GameDeck.Deal | script/game.js:107-110 | the deal has twice as many cards as pairs (at most 14 pairs) |
| GameDeck.DealIsDeck | script/game.js:107-110 | every deal is a deck of `pairs` pairs with that many different images |
| GameDeck.BuildDeck | script/game.js:107-117 | computed with the array shuffles, the deck is the deal and is a deck |
| GameRound.Symbols | script/game.js:113-116 | the images read position by position off the board |
| GameRound.SymbolsKeep | script/game.js:119-127 | flipping a card never changes which image any card shows |
| GameRound.CountFaceUpdate | script/game.js:155-156 | changing one card's face moves the count of that face by at most one, as the old and new face say |
| GameRound.CountFaceRange | script/game.js:212-213 | the count of a face is all cards exactly when every card shows it, and zero exactly when none does |
| GameRound.SetFace | script/game.js:119-127 | a flip keeps the images and the length, and updates the matched count by the old and new face |
| GameRound.FirstPickTurn | script/game.js:135-140 | a first pick was face down and is now the only revealed card |
| GameRound.MatchTurn | script/game.js:154-157 | an equal second pick marks both cards matched, leaves no card revealed, and adds two matched cards |
| GameRound.MismatchTurn | script/game.js:165 | a different second pick leaves exactly the two picks revealed |
| GameRound.ResolveMatchTurn | script/game.js:159-163 | after a match, clearing the picks gives an idle turn |
| GameRound.ResolveMismatchTurn | script/game.js:166-172 | after a mismatch, both picks face down again gives an idle turn with the matched count unchanged |
| GameRound.Board | script/game.js:112-116 | the rendered board shows the deck's images in order, all face down |
| GameRound.Loaded | script/game.js:26-53 | on page load the settings agree with the mode and no interval is live |
| GameRound.Dealt | script/game.js:107-117 | `buildBoard`: the new cards show the deal's images, all face down, and nothing else changes |
| GameRound.Cleared | script/game.js:289-301 | `resetState`: no picks and nothing counted. Elapsed time is zero, 180 s remain, and the display shows zero. The moves left are the unchanged move limit. The mode and settings, the board, the buzzer flag, a pending resolution, the outcome and the timer are unchanged. |
| GameRound.Restarted | script/game.js:303-318 | `resetAndStart`: the mode is re-read and the settings agree with it. The interval is untouched, no resolution is pending and the overlay is hidden. |
| GameRound.Stopped | script/game.js:207-210 | `stopTimer`: no interval is held afterwards, and a round with no stray interval keeps having none |
| GameRound.StartedAsWritten | script/game.js:177-205 | `startTimer` as written: one more live interval, held in `timerInterval`. A countdown restarts at 180 s with the buzzer flag cleared. A count-up restarts at 0 elapsed. The display shows the start value, and nothing but the clock changes. |
| GameRound.Started | script/game.js:177-205 | the corrected start: an interval is held, and a round with no stray interval keeps having none. It resets the clock as `startTimer` does. The mode, the board, the score and the outcome are unchanged. |
| GameRound.LostBy | script/game.js:227-230 | `handleLoss`: the loss is shown with its reason and no interval is held |
| GameRound.Buzzes | script/game.js:184 | the buzzer condition: countdown mode, ten seconds left after the decrement, an audio element, and not yet sounded |
| GameRound.Ticked | script/game.js:182-203 | one tick: a countdown loses exactly one second, and the buzzer flag is raised exactly when the buzzer sounds. The mode, the board and the score are unchanged. |
| GameRound.Ignored | script/game.js:130-133 | the four guard clauses of `onCardActivate`: a locked board, a card not on the board, the first pick again, a matched card |
| GameRound.Resolved | script/game.js:159-173 | the resolution callback: the board unlocks, the picks are cleared, nothing is pending, and the moves, matches and moves left are unchanged |
| GameRound.Ended | script/game.js:212-225 | `checkEnd` follows the verdict. With one, the outcome is shown and the interval cleared. Without one, nothing changes. Only the timer and the outcome are ever touched. |
| GameRound.Activated | script/game.js:129-141 | an ignored activation changes nothing. The picks stay on the board. Only the board, the turn and the score can change; the settings, the clock, the timer and the outcome never do. |
| GameRound.SecondPicked | script/game.js:142-158 | a second pick keeps the picks on the board and the board's size |
| GameRound.Unlocked | script/game.js:166-171 | the resolution before its end test keeps the interval fields and the moves, matches and moves left exactly as they were |
| GameRound.RestartedFresh | script/game.js:303-318 | a restart satisfies the invariant in the re-read mode. The board is face down, dealt from the picks. Nothing is counted, and the interval is exactly as it was. |
| GameRound.StopIsIdempotent | script/game.js:207-210 | `stopTimer` leaves no interval held, clears a live one exactly when there was one, changes nothing else, and is safe to repeat |
| GameRound.StartedKeeps | script/game.js:177-205 | starting the timer keeps the invariant, as written and corrected. The corrected start leaves the board, moves, matches and moves left unchanged. |
| GameRound.EndedKeeps | script/game.js:207-230 | `stopTimer`, `handleLoss` and `checkEnd` keep the invariant |
| GameRound.TickedKeeps | script/game.js:182-203 | a tick keeps the invariant. Counting up adds one second. Counting down removes one, and the clock stops with a time loss exactly at zero. After a buzz the next tick does not buzz. The moves, matches and moves left are unchanged. |
| GameRound.Ticks | script/game.js:182-203 | repeated ticks keep the timer consistent with the live intervals |
| GameRound.TicksSnoc | script/game.js:182-196 | a run of n + 1 ticks is a run of n ticks followed by one more |
| GameRound.TicksCount | script/game.js:182-196 | along a run the mode stays, a countdown loses exactly one second per tick, and a raised buzzer flag stays raised |
| GameRound.BuzzerFlagStays | script/game.js:184-185 | once the buzzer flag is up at some tick of a run, it is up at every later tick |
| GameRound.BuzzesOnce | script/game.js:184-188 | the buzzer sounds at most once in a run of ticks: two ticks that sound it are the same tick, and the flag stays raised after it |
| GameRound.HardRoundLasts180 | script/game.js:177-196 | a started countdown keeps running through 179 ticks, and the 180th ends the round with a time loss |
| GameRound.CountdownRunsOut | script/game.js:182-196 | a countdown with k seconds left runs through k - 1 ticks. On the k-th it stops with a time loss and "00:00". |
| GameRound.FirstPickKeeps | script/game.js:135-140 | a first pick keeps the invariant, reveals exactly that card and counts nothing |
| GameRound.MatchKeeps | script/game.js:142-164 | an equal second pick keeps the invariant and adds one move and one match |
| GameRound.MismatchKeeps | script/game.js:142-153 | a different second pick keeps the invariant and adds one move, not a match |
| GameRound.ActivatedKeeps | script/game.js:129-175 | an activation keeps the invariant. It counts a move exactly on a second pick, and schedules the match callback exactly when the two images agree. |
| GameRound.ActivatedKeepsMatched | script/game.js:133 | an activation never changes an image and never turns a matched card back |
| GameRound.SecondPickLocks | script/game.js:130-143 | after a second pick every activation is ignored until the resolution |
| GameRound.ResolvedKeeps | script/game.js:159-173 | the resolution keeps the invariant and unlocks the board with nothing revealed. It turns the mismatched cards face down and leaves the matched cards matched. The moves, matches and moves left are unchanged. |
| GameRound.WonIffAllMatched | script/game.js:213 | `matches === totalPairs` holds exactly when every card is matched |
| GameRound.RestartLeaksTicker | script/game.js:177-205 | as written, a restart while the timer runs leaves two live intervals, and one stays live after `stopTimer` |
| GameRound.RestartKeepsOneTicker | script/game.js:303-318 | corrected, a restart leaves exactly one live interval, the one `timerInterval` holds, and none after `stopTimer` |
| GameSession.Session.TimerText | script/game.js:181-202 | the timer display's text reads back to the seconds the clock shows |
| GameSession.Session.constructor | script/game.js:26-53 | page load followed by the first `resetAndStart()`. The session is valid, keeps the page's query, and only the interval it holds can be live. |
| GameSession.Session.ResetState | script/game.js:289-301 | the state becomes `Cleared` of the old state |
| GameSession.Session.BuildBoard | script/game.js:107-117 | the board becomes a face-down board of the deal |
| GameSession.Session.ResetAndStart | script/game.js:303-318 | the state becomes `Restarted` of the old one with the page's query. It is valid, and the mode stays the one chosen on load. |
| GameSession.Session.StopTimer | script/game.js:207-210 | the state becomes `Stopped` of the old one |
| GameSession.Session.StartTimerAsWritten | script/game.js:177-205 | the state becomes `StartedAsWritten` of the old one, and stays valid |
| GameSession.Session.StartTimer | script/game.js:177-205 | the corrected start: `Started` of the old state, and still valid |
| GameSession.Session.HandleLoss | script/game.js:227-230 | the state becomes `LostBy` of the old one, and stays valid |
| GameSession.Session.Tick | script/game.js:182-203 | the state becomes `Ticked` of the old one and stays valid. The buzzer sounds exactly when `Buzzes` says. |
| GameSession.Session.CheckEnd | script/game.js:212-225 | the state becomes `Ended` of the old one, and stays valid |
| GameSession.Session.Activate | script/game.js:129-141 | the state becomes `Activated` of the old one, and stays valid |
| GameSession.Session.SecondPick | script/game.js:142-158 | the state becomes `SecondPicked` of the old one |
| GameSession.Session.Resolve | script/game.js:159-173 | the state becomes `Resolved` of the old one, and stays valid |
| Login.DaysInMonth | script/login.js:70-74 | 28 to 31 days. February has 29 exactly in a Gregorian leap year. |
| Login.LastDayOfPreviousMonth | script/login.js:70-74 | the last day of the previous month is 28 to 31. Before January it is December's 31. |
| Login.Age | script/login.js:64-80 | the step-by-step borrows give the closed-formula age. Months are 0..11. Days borrow the previous month's length exactly when the day difference is negative. A year is taken off exactly when the borrowed month difference is negative. Days are non-negative exactly when that borrow covers the gap. |
| Login.AgePartsSplit | script/login.js:77-80 | the closed formula equals a month borrow on the month difference |
| Login.AgeMonthsBound | script/login.js:64-80 | the age in months never exceeds the calendar month difference. It is equal, with zero days, when the day of the month is the same. |
| Login.TrimStart | script/login.js:90 | the result is no longer than the input and does not start with white space |
| Login.TrimEnd | script/login.js:90 | the result is no longer than the input and does not end with white space |
| Login.TrimStartSuffix | script/login.js:90 | the leading trim keeps a suffix of the input and removes only white space |
| Login.TrimEndPrefix | script/login.js:90 | the trailing trim keeps a prefix of the input and removes only white space |
| Login.Trim | script/login.js:90-94 | `s.trim()`, never longer than its input. TrimIsCore states what it keeps and what it removes. |
| Login.TrimIsCore | script/login.js:90-94 | the trimmed text is a contiguous part of the input with only white space around it, and it neither starts nor ends with white space |
| Login.TrimIdempotent | script/login.js:90-94 | trimming twice is trimming once |
| Login.BlankTrimsEmpty | script/login.js:99 | a field of only white space counts as empty |
| Login.LeadingLetters | script/login.js:112 | the run of ASCII letters at the start is maximal |
| Login.NameOk | script/login.js:112 | `/^[A-Za-z]{2,}/.test(name)`: the first two characters are ASCII letters |
| Login.NameOkIsLetterRun | script/login.js:112 | `/^[A-Za-z]{2,}/` matches exactly when the leading letter run is at least two |
| Login.NameSuffixFree | script/login.js:112 | whatever follows the first two characters does not change the name check |
| Login.Missing | script/login.js:99 | some field is empty: the name, date or country after trimming, or the gender as given (no choice counts as empty) |
| Login.Submit | script/login.js:90-115 | a missing field is reported exactly when some trimmed field (or the gender) is empty. An invalid name is reported exactly when all are filled and the name lacks two leading letters. Acceptance means a name of at least two characters and a chosen gender. |
| Login.MissingBeforeName | script/login.js:99-115 | for every input with an empty date and a malformed name, the missing field is reported, because that check comes first |
| Login.SubmitSeesTrimmed | script/login.js:90-94 | submitting already-trimmed fields gives the same verdict |

## Left out

- Rendering is not modelled: the DOM, `renderCard`, `flipCard`'s classes and ARIA attributes, the mode tag, and the text of the counters. The board is a sequence of cards with an image index and a face.
- Image paths are modelled as their indices 1..14. `card<i>.png` differs for each index, so comparing paths is comparing indices.
- Audio playback is not modelled. `Tick` only reports whether the buzzer sounds. The win sound is left out.
- `showResult` is modelled only as the outcome it shows, set at once by `checkEnd`. In the page it runs 200 ms after a win. A restart, or a tick of a leaked interval, can come in between, and the model does not capture that ordering. Its title, messages and statistics list are not modelled.
- `hideOverlay` and the overlay animation are not modelled. Every restart sets the outcome back to `Playing`. For the replay button this stands for `hideOverlay` (`script/game.js:334-337`).
- `GameRound.Restarted` also clears the outcome on a restart-button restart (`script/game.js:343-345`). That path calls `resetAndStart` without `hideOverlay`, so a result overlay already shown would stay visible.
- The restart button's `confirm` dialog is taken as answered yes.
- Timing is not modelled. Each `setTimeout`/`setInterval` callback is an event that the caller schedules.
- `GameSession.Session.Tick` is the callback of the interval `timerInterval` holds. Ticks of the stray interval a restart leaves behind are not modelled as events. They appear only in the `liveIntervals` count.
- A resolution callback still pending at a restart is dropped. In the page it would still run, on the new round's variables.
- `GameSession.Session.ResetAndStart` takes the board choices as pick sequences, and `Math.random` is not modelled. Any picks within range give a valid deck.
- `sessionStorage`, the player name and greeting, and the info and back buttons are navigation only. `script/game_info.js` is not part of this model.
- On the login page, the following are not modelled:
  - the country list fetched from restcountries and its `localeCompare` sort;
  - the flag image;
  - EmailJS sending;
  - SweetAlert dialogs;
  - parsing the date text with `new Date`;
  - the `yearsOnly` computation (`script/login.js:117-119`);
  - blanking an empty date (`script/login.js:57-60`).
- `Login.Age` takes the dates already split into year, month and day. Month lengths are given by `prevMonthLastDay`, not computed inside.
- `Login.Age` states only what the arithmetic gives. `days` can come out negative, for example on 1 March for a birth day of 31 with a 28-day February, and the model says exactly when.
- The page's many global variables are grouped into a few record-valued fields of `Session`.

## Findings

| source | as written | input that shows it | evidently intended | confidence | as-written member | corrected member |
|---|---|---|---|---|---|---|
| script/game.js:177-205, script/game.js:303-318 | `startTimer` assigns a new `setInterval` to `timerInterval` without clearing the one it may hold. `resetAndStart` never calls `stopTimer`. | Restart while the timer runs. Two intervals tick afterwards, and after `stopTimer` (for example on a win) one still runs. In hard mode it can still end the round with a time loss after the win. | Stop the running interval before starting a new one. | not executed | GameRound.RestartLeaksTicker | GameRound.RestartKeepsOneTicker |
