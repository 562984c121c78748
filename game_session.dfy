/**
 * The game page's module-level state as one object, with a method per
 * event. The page's variables are kept in fields grouped by what they
 * describe: the settings derived from the mode, the board, the current
 * turn, the score and the clock. Each method is specified by the matching
 * function of `GameRound` on the state's value, `State()`. The event
 * methods keep `Valid()`; `ResetState`, `BuildBoard`, `StopTimer` and
 * `SecondPick` are steps inside an event and need not.
 *
 * Each event is one atomic step; which event comes next (a click, a
 * `setTimeout` or `setInterval` callback) is the caller's choice.
 */
module GameSession {
  import opened Wrappers
  import opened GameRules
  import opened GameClock
  import opened GameDeck
  import opened GameRound

  /** `gameMode`, `pairs` (= `totalPairs`), `maxMoves` and `countdownMode`. */
  datatype Settings = Settings(mode: Mode, totalPairs: nat, maxMoves: MoveLimit, countdownMode: bool)

  /** `firstCard`, `secondCard`, `boardLocked`, and the resolution callback scheduled by a second pick. */
  datatype Turn = Turn(firstCard: Option<nat>, secondCard: Option<nat>, boardLocked: bool, pending: Pending)

  /** `moves`, `movesRemaining` and `matches`. */
  datatype Score = Score(moves: nat, movesRemaining: MoveLimit, matches: nat)

  /**
   * `timeElapsed`, `timeRemaining`, `buzzerPlayed`; whether `timerInterval`
   * holds a live interval; how many intervals are live, including any no
   * variable refers to; and the seconds the timer display shows.
   */
  datatype Clock = Clock(timeElapsed: nat, timeRemaining: int, buzzerPlayed: bool,
                         timerInterval: bool, liveIntervals: nat, shows: nat)

  class Session {
    /** Whether the page has a buzzer audio element. */
    const hasBuzzer: bool
    /** The page's `mode` query value (`""` when absent); `location.search` never changes. */
    const query: string

    var settings: Settings
    /** The board: `cardImages` together with each card's classes. */
    var cards: seq<Card>
    var turn: Turn
    var score: Score
    var clock: Clock
    /** The result overlay last shown. */
    var outcome: Outcome

    /** The state as a value. */
    function State(): Round
      reads this
    {
      Round(settings.mode, settings.totalPairs, settings.maxMoves, settings.countdownMode,
            cards, turn.firstCard, turn.secondCard, turn.boardLocked, turn.pending,
            score.moves, score.movesRemaining, score.matches,
            clock.timeElapsed, clock.timeRemaining, clock.buzzerPlayed,
            clock.timerInterval, clock.liveIntervals, clock.shows,
            outcome)
    }

    /** The invariant of the round, in the mode the page's query gives. */
    ghost predicate Valid()
      reads this
    {
      Inv(State()) && settings.mode == ParseMode(query)
    }

    /** The text of the timer display. */
    function TimerText(): (t: string)
      reads this`clock
      ensures |t| >= 3 && AllDigits(t[..|t| - 3]) && AllDigits(t[|t| - 2..])
      ensures ClockSeconds(t) == clock.shows
    {
      FormatTimeRoundTrip(clock.shows);
      FormatTime(clock.shows)
    }

    /** Page load: the mode from the query string, then `resetAndStart()`. */
    constructor (query: string, hasBuzzer: bool, poolPicks: seq<nat>, deckPicks: seq<nat>)
      requires PicksFor(poolPicks, ImageCount)
      requires PicksFor(deckPicks, 2 * PairCount(ParseMode(query)))
      ensures Valid() && NoStrayTicker(State()) && this.hasBuzzer == hasBuzzer && this.query == query
      ensures State() == Restarted(Loaded(query), query, poolPicks, deckPicks)
    {
      this.hasBuzzer := hasBuzzer;
      this.query := query;
      var m := ParseMode(query);
      settings := Settings(m, PairCount(m), MaxMoves(m), IsCountdown(m));
      cards := [];
      turn := Turn(None, None, false, Idle);
      score := Score(0, MaxMoves(m), 0);
      clock := Clock(0, DefaultHardTime, false, false, 0, 0);
      outcome := Playing;
      new;
      ResetAndStart(poolPicks, deckPicks);
    }

    /** `resetState`. */
    method ResetState()
      modifies this
      ensures State() == Cleared(old(State()))
    {
      turn := turn.(firstCard := None, secondCard := None, boardLocked := false);
      score := Score(0, settings.maxMoves, 0);
      clock := clock.(timeElapsed := 0, timeRemaining := DefaultHardTime, shows := 0);
    }

    /** `buildBoard`. */
    method BuildBoard(poolPicks: seq<nat>, deckPicks: seq<nat>)
      requires settings.totalPairs <= ImageCount
      requires PicksFor(poolPicks, ImageCount) && PicksFor(deckPicks, 2 * settings.totalPairs)
      modifies this
      ensures State() == Dealt(old(State()), poolPicks, deckPicks)
    {
      var deck := BuildDeck(settings.totalPairs, poolPicks, deckPicks);
      cards := Board(deck);
    }

    /**
     * `resetAndStart`; the timer start it defers by 250 ms is the `StartTimer`
     * event. The query is the one read on load, so the mode stays.
     */
    method ResetAndStart(poolPicks: seq<nat>, deckPicks: seq<nat>)
      requires ClockSane(State()) && settings.mode == ParseMode(query)
      requires PicksFor(poolPicks, ImageCount)
      requires PicksFor(deckPicks, 2 * PairCount(settings.mode))
      modifies this
      ensures Valid() && settings.mode == old(settings.mode)
      ensures State() == Restarted(old(State()), query, poolPicks, deckPicks)
    {
      RestartKeepsMode(query);
      RestartedFresh(State(), query, poolPicks, deckPicks);
      var m := ModeFor(query, settings.mode);
      settings := Settings(m, PairCount(m), MaxMoves(m), IsCountdown(m));
      clock := clock.(timeRemaining := DefaultHardTime);
      ResetState();
      BuildBoard(poolPicks, deckPicks);
      // A resolution callback still pending from the previous round is not kept.
      turn := turn.(pending := Idle);
      // The replay button hides the overlay before restarting.
      outcome := Playing;
    }

    /** `stopTimer`: safe to repeat. */
    method StopTimer()
      requires ClockSane(State())
      modifies this
      ensures State() == Stopped(old(State()))
    {
      if clock.timerInterval {
        clock := clock.(liveIntervals := clock.liveIntervals - 1);
      }
      clock := clock.(timerInterval := false);
    }

    /** `startTimer` as written: the interval `timerInterval` may hold is overwritten, not cleared. */
    method StartTimerAsWritten()
      requires Valid()
      modifies this
      ensures Valid()
      ensures State() == StartedAsWritten(old(State()))
    {
      StartedKeeps(State());
      if settings.countdownMode {
        clock := clock.(buzzerPlayed := false, timeRemaining := DefaultHardTime, shows := DefaultHardTime);
      } else {
        clock := clock.(timeElapsed := 0, shows := 0);
      }
      clock := clock.(timerInterval := true, liveIntervals := clock.liveIntervals + 1);
    }

    /** `startTimer` corrected: the running interval is stopped first. */
    method StartTimer()
      requires Valid()
      modifies this
      ensures Valid()
      ensures State() == Started(old(State()))
    {
      StartedKeeps(State());
      StopTimer();
      if settings.countdownMode {
        clock := clock.(buzzerPlayed := false, timeRemaining := DefaultHardTime, shows := DefaultHardTime);
      } else {
        clock := clock.(timeElapsed := 0, shows := 0);
      }
      clock := clock.(timerInterval := true, liveIntervals := clock.liveIntervals + 1);
    }

    /** `handleLoss(reason)`. */
    method HandleLoss(reason: LossReason)
      requires Valid()
      modifies this
      ensures Valid()
      ensures State() == LostBy(old(State()), reason)
    {
      EndedKeeps(State(), reason);
      StopTimer();
      outcome := Lost(reason);
    }

    /** One call of the interval callback; `buzz` is whether the buzzer sounds. */
    method Tick() returns (buzz: bool)
      requires Valid() && clock.timerInterval
      modifies this
      ensures Valid()
      ensures State() == Ticked(old(State()), hasBuzzer)
      ensures buzz == Buzzes(old(State()), hasBuzzer)
    {
      TickedKeeps(State(), hasBuzzer);
      buzz := false;
      if settings.countdownMode {
        clock := clock.(timeRemaining := clock.timeRemaining - 1);
        if clock.timeRemaining == BuzzerThreshold && hasBuzzer && !clock.buzzerPlayed {
          clock := clock.(buzzerPlayed := true);
          buzz := true;
        }
        if clock.timeRemaining <= 0 {
          // clearInterval(timerInterval): handleLoss's own stopTimer() then
          // finds nothing left to clear.
          StopTimer();
          clock := clock.(shows := 0);
          HandleLoss(Time);
          return;
        }
        clock := clock.(shows := clock.timeRemaining as nat);
      } else {
        clock := clock.(timeElapsed := clock.timeElapsed + 1);
        clock := clock.(shows := clock.timeElapsed);
      }
    }

    /** `checkEnd`. */
    method CheckEnd()
      requires Valid()
      modifies this
      ensures Valid()
      ensures State() == Ended(old(State()))
    {
      EndedKeeps(State(), Moves);
      if score.matches == settings.totalPairs {
        StopTimer();
        // showResult(true) runs 200 ms later; the outcome is recorded at once,
        // so a restart or a leaked tick within those 200 ms is not ordered here.
        outcome := Won;
        return;
      }
      if settings.mode == Medium || settings.mode == Hard {
        if Exhausted(score.movesRemaining) {
          StopTimer();
          HandleLoss(Moves);
          return;
        }
      }
    }

    /** `onCardActivate` for the card at position `i`. */
    method Activate(i: int)
      requires Valid()
      modifies this
      ensures Valid()
      ensures State() == Activated(old(State()), i)
    {
      ActivatedKeeps(State(), i);
      if turn.boardLocked { return; }
      if !(0 <= i < |cards|) { return; }
      if turn.firstCard.Some? && turn.firstCard.value == i { return; }
      if cards[i].face == Matched { return; }

      cards := SetFace(cards, i, Revealed);
      if turn.firstCard.None? {
        turn := turn.(firstCard := Some(i));
        return;
      }
      SecondPick(i);
    }

    /** The rest of `onCardActivate` for a second pick at `i`, its card already revealed. */
    method SecondPick(i: nat)
      requires PicksOnBoard(State()) && turn.firstCard.Some? && i < |cards|
      modifies this
      ensures State() == SecondPicked(old(State()), i)
    {
      turn := turn.(secondCard := Some(i), boardLocked := true);
      score := score.(moves := score.moves + 1);
      if settings.mode == Medium || settings.mode == Hard {
        score := score.(movesRemaining := Decrement(score.movesRemaining));
      }
      var f := turn.firstCard.value;
      if cards[f].symbol == cards[i].symbol {
        cards := SetFace(SetFace(cards, f, Matched), i, Matched);
        score := score.(matches := score.matches + 1);
        turn := turn.(pending := AfterMatch);
      } else {
        turn := turn.(pending := AfterMismatch);
      }
    }

    /** The `setTimeout` body a second pick schedules. */
    method Resolve()
      requires Valid() && turn.pending != Idle
      modifies this
      ensures Valid()
      ensures State() == Resolved(old(State()))
    {
      ResolvedKeeps(State());
      var f, s := turn.firstCard.value, turn.secondCard.value;
      if turn.pending == AfterMismatch {
        cards := SetFace(SetFace(cards, f, Hidden), s, Hidden);
      }
      turn := Turn(None, None, false, Idle);
      EndedKeeps(State(), Moves);
      CheckEnd();
    }
  }
}
