/**
 * The round state of the memory-match game as a value, and one function per
 * event that changes it: a card activation, the deferred resolution of a
 * completed turn, the per-second timer tick, the end test, the timer's
 * start and stop, and reset/restart. The source keeps this state in
 * module-level variables; `GameSession.Session` holds it in fields and is
 * specified by these functions.
 */
module GameRound {
  import opened Wrappers
  import opened GameRules
  import opened GameDeck

  /** A card's classes: neither, `flipped`, or `flipped matched`. */
  datatype Face = Hidden | Revealed | Matched

  /** A card: its image index and its face. */
  datatype Card = Card(symbol: int, face: Face)

  /** The deferred resolution callback scheduled by a second pick, if any. */
  datatype Pending = Idle | AfterMatch | AfterMismatch

  function Symbols(cs: seq<Card>): (r: seq<int>)
    ensures |r| == |cs| && forall k :: 0 <= k < |cs| ==> r[k] == cs[k].symbol
  {
    seq(|cs|, k requires 0 <= k < |cs| => cs[k].symbol)
  }

  /** Changing a face keeps the layout of images. */
  lemma SymbolsKeep(cs: seq<Card>, i: nat, c: Card)
    requires i < |cs| && c.symbol == cs[i].symbol
    ensures Symbols(cs[i := c]) == Symbols(cs)
  {
    assert forall k :: 0 <= k < |cs| ==> Symbols(cs[i := c])[k] == Symbols(cs)[k];
  }

  /** Number of cards showing face `f`. */
  function CountFace(cs: seq<Card>, f: Face): nat
    decreases |cs|
  {
    if cs == [] then 0 else (if cs[0].face == f then 1 else 0) + CountFace(cs[1..], f)
  }

  lemma {:induction false} CountFaceUpdate(cs: seq<Card>, i: nat, c: Card, f: Face)
    requires i < |cs|
    ensures CountFace(cs[i := c], f)
         == CountFace(cs, f) - (if cs[i].face == f then 1 else 0) + (if c.face == f then 1 else 0)
    decreases |cs|
  {
    if i > 0 {
      assert cs[i := c][1..] == cs[1..][i - 1 := c];
      CountFaceUpdate(cs[1..], i - 1, c, f);
    } else {
      assert cs[i := c][1..] == cs[1..];
    }
  }

  /** The count is at most the number of cards; it is all of them, or none, exactly when every card, or no card, shows `f`. */
  lemma {:induction false} CountFaceRange(cs: seq<Card>, f: Face)
    ensures CountFace(cs, f) <= |cs|
    ensures CountFace(cs, f) == |cs| <==> forall k :: 0 <= k < |cs| ==> cs[k].face == f
    ensures CountFace(cs, f) == 0 <==> forall k :: 0 <= k < |cs| ==> cs[k].face != f
    decreases |cs|
  {
    if cs != [] {
      var t := cs[1..];
      CountFaceRange(t, f);
      assert forall k :: 1 <= k < |cs| ==> cs[k] == t[k - 1];
    }
  }

  /** The cards showing `Revealed` are exactly those at the positions in `sel`. */
  predicate RevealedExactly(cs: seq<Card>, sel: set<int>)
  {
    forall k :: 0 <= k < |cs| ==> (cs[k].face == Revealed <==> k in sel)
  }

  /** The positions held as picks. */
  function Picked(first: Option<nat>): set<int>
  {
    if first.Some? then {first.value as int} else {}
  }

  /** A board of `pairs` pairs, read off the cards. */
  predicate DeckOk(cs: seq<Card>, pairs: nat)
  {
    |cs| == 2 * pairs && IsDeck(Symbols(cs), pairs)
  }

  /**
   * The turn on a board: unlocked, the only revealed card is the first pick;
   * locked, there is a second, different pick and the scheduled callback fits
   * the comparison (both matched, or both still revealed with different images).
   */
  predicate TurnShape(cs: seq<Card>, first: Option<nat>, second: Option<nat>, locked: bool, pending: Pending)
  {
    && (locked <==> second.Some?)
    && (locked <==> pending != Idle)
    && (second.Some? ==> first.Some?)
    && (first.Some? ==> first.value < |cs|)
    && (second.Some? ==> second.value < |cs| && second.value != first.value)
    && (pending == Idle ==> RevealedExactly(cs, Picked(first)))
    && (pending == AfterMatch ==>
          && RevealedExactly(cs, {})
          && cs[first.value].face == Matched
          && cs[second.value].face == Matched)
    && (pending == AfterMismatch ==>
          && RevealedExactly(cs, {first.value as int, second.value as int})
          && cs[first.value].symbol != cs[second.value].symbol)
  }

  /** With a face as the new value of one card. */
  function SetFace(cs: seq<Card>, i: nat, f: Face): (r: seq<Card>)
    requires i < |cs|
    ensures |r| == |cs| && Symbols(r) == Symbols(cs)
    ensures CountFace(r, Matched) == CountFace(cs, Matched)
                                    - (if cs[i].face == Matched then 1 else 0) + (if f == Matched then 1 else 0)
  {
    var r := cs[i := Card(cs[i].symbol, f)];
    SymbolsKeep(cs, i, r[i]);
    CountFaceUpdate(cs, i, r[i], Matched);
    r
  }

  /** A first pick: the card was face down, and is now the one revealed card. */
  lemma FirstPickTurn(cs: seq<Card>, i: nat)
    requires TurnShape(cs, None, None, false, Idle) && i < |cs| && cs[i].face != Matched
    ensures cs[i].face == Hidden
    ensures TurnShape(SetFace(cs, i, Revealed), Some(i), None, false, Idle)
    ensures CountFace(SetFace(cs, i, Revealed), Matched) == CountFace(cs, Matched)
  {
  }

  /** A second pick with the same image: revealed, then both cards matched, two more matched cards. */
  lemma MatchTurn(cs: seq<Card>, f: nat, i: nat)
    requires TurnShape(cs, Some(f), None, false, Idle)
    requires i < |cs| && i != f && cs[i].face != Matched && cs[f].symbol == cs[i].symbol
    ensures var r := SetFace(SetFace(SetFace(cs, i, Revealed), f, Matched), i, Matched);
      && TurnShape(r, Some(f), Some(i), true, AfterMatch)
      && CountFace(r, Matched) == CountFace(cs, Matched) + 2
  {
    assert cs[f].face == Revealed && cs[i].face == Hidden;
    var shown := SetFace(cs, i, Revealed);
    var r := SetFace(SetFace(shown, f, Matched), i, Matched);
    assert forall k :: 0 <= k < |cs| ==> r[k].face != Revealed;
  }

  /** A second pick with a different image: it is revealed beside the first. */
  lemma MismatchTurn(cs: seq<Card>, f: nat, i: nat)
    requires TurnShape(cs, Some(f), None, false, Idle)
    requires i < |cs| && i != f && cs[i].face != Matched && cs[f].symbol != cs[i].symbol
    ensures TurnShape(SetFace(cs, i, Revealed), Some(f), Some(i), true, AfterMismatch)
    ensures CountFace(SetFace(cs, i, Revealed), Matched) == CountFace(cs, Matched)
  {
    assert cs[i].face == Hidden;
  }

  /** Resolving a match: nothing is left revealed, so clearing the picks gives an idle turn. */
  lemma ResolveMatchTurn(cs: seq<Card>, f: nat, s: nat)
    requires TurnShape(cs, Some(f), Some(s), true, AfterMatch)
    ensures TurnShape(cs, None, None, false, Idle)
  {
  }

  /** Resolving a mismatch: both cards face down again, matched count unchanged. */
  lemma ResolveMismatchTurn(cs: seq<Card>, f: nat, s: nat)
    requires TurnShape(cs, Some(f), Some(s), true, AfterMismatch)
    ensures var r := SetFace(SetFace(cs, f, Hidden), s, Hidden);
      TurnShape(r, None, None, false, Idle) && CountFace(r, Matched) == CountFace(cs, Matched)
  {
  }

  /** A board dealt face down from a deck of images. */
  function Board(deck: seq<int>): (cs: seq<Card>)
    ensures Symbols(cs) == deck
    ensures forall k :: 0 <= k < |cs| ==> cs[k].face == Hidden
  {
    seq(|deck|, k requires 0 <= k < |deck| => Card(deck[k], Hidden))
  }

  /**
   * The module-level state of one page of the game. `timerInterval` is
   * whether the variable of that name holds a live interval; `liveIntervals`
   * counts the intervals set and not yet cleared, whether or not a variable
   * still refers to them; `timerShows` is the number of seconds the timer
   * display shows; `outcome` is the result overlay last shown.
   */
  datatype Round = Round(
    mode: Mode, totalPairs: nat, maxMoves: MoveLimit, countdownMode: bool,
    cards: seq<Card>, firstCard: Option<nat>, secondCard: Option<nat>, boardLocked: bool, pending: Pending,
    moves: nat, movesRemaining: MoveLimit, matches: nat,
    timeElapsed: nat, timeRemaining: int, buzzerPlayed: bool,
    timerInterval: bool, liveIntervals: nat, timerShows: nat,
    outcome: Outcome)

  /** The values derived from the mode agree with it. */
  predicate ModeOk(r: Round)
  {
    && r.totalPairs == PairCount(r.mode)
    && r.maxMoves == MaxMoves(r.mode)
    && r.countdownMode == IsCountdown(r.mode)
  }

  /** Two matched cards per match, and the moves left are the limit minus the moves made. */
  predicate ScoreOk(r: Round)
  {
    && CountFace(r.cards, Matched) == 2 * r.matches
    && r.matches <= r.totalPairs
    && r.movesRemaining == Remaining(r.maxMoves, r.moves)
  }

  /** `timerInterval` refers to a live interval only if there is one. */
  predicate ClockSane(r: Round)
  {
    r.timerInterval ==> r.liveIntervals >= 1
  }

  /** A running countdown has time left. */
  predicate ClockOk(r: Round)
  {
    && ClockSane(r)
    && r.timeRemaining <= DefaultHardTime
    && (r.countdownMode && r.timerInterval ==> r.timeRemaining >= 1)
  }

  predicate Inv(r: Round)
  {
    && ModeOk(r)
    && DeckOk(r.cards, r.totalPairs)
    && TurnShape(r.cards, r.firstCard, r.secondCard, r.boardLocked, r.pending)
    && ScoreOk(r)
    && ClockOk(r)
    && (r.outcome == Won ==> r.matches == r.totalPairs)
  }

  /** At most one interval is live, and it is the one `timerInterval` holds. */
  predicate NoStrayTicker(r: Round)
  {
    r.liveIntervals == if r.timerInterval then 1 else 0
  }

  /** The state on page load, before the first `resetAndStart()`. */
  function Loaded(query: string): (r: Round)
    ensures ModeOk(r) && NoStrayTicker(r) && !r.timerInterval
  {
    var m := ParseMode(query);
    Round(m, PairCount(m), MaxMoves(m), IsCountdown(m),
          [], None, None, false, Idle,
          0, MaxMoves(m), 0,
          0, DefaultHardTime, false,
          false, 0, 0,
          Playing)
  }

  /** `resetState`: no picks, nothing counted, the full time and move budget. */
  function Cleared(r: Round): (c: Round)
    ensures c.moves == 0 && c.matches == 0 && c.movesRemaining == Remaining(c.maxMoves, c.moves)
    ensures c.firstCard.None? && c.secondCard.None? && !c.boardLocked
    ensures c.timerShows == 0 && c.timeRemaining == DefaultHardTime
    ensures c.timeElapsed == 0 && c.maxMoves == r.maxMoves && c.movesRemaining == r.maxMoves
    ensures c.buzzerPlayed == r.buzzerPlayed && c.pending == r.pending
    ensures c.mode == r.mode && c.totalPairs == r.totalPairs && c.countdownMode == r.countdownMode
    ensures c.cards == r.cards && c.outcome == r.outcome
    ensures c.timerInterval == r.timerInterval && c.liveIntervals == r.liveIntervals
  {
    r.(firstCard := None, secondCard := None, boardLocked := false,
       moves := 0, matches := 0, timeElapsed := 0, timeRemaining := DefaultHardTime,
       movesRemaining := r.maxMoves, timerShows := 0)
  }

  /** `buildBoard`: a fresh face-down board for the current number of pairs. */
  function Dealt(r: Round, poolPicks: seq<nat>, deckPicks: seq<nat>): (d: Round)
    requires r.totalPairs <= ImageCount
    requires PicksFor(poolPicks, ImageCount) && PicksFor(deckPicks, 2 * r.totalPairs)
    ensures Symbols(d.cards) == Deal(r.totalPairs, poolPicks, deckPicks)
    ensures forall k :: 0 <= k < |d.cards| ==> d.cards[k].face == Hidden
    ensures d.(cards := r.cards) == r
  {
    r.(cards := Board(Deal(r.totalPairs, poolPicks, deckPicks)))
  }

  /**
   * `resetAndStart`: the mode is re-read (an absent or empty value keeps the
   * current one) and everything derived from it recomputed, then the state
   * is cleared and a new board dealt. The overlay is hidden and a pending
   * resolution is dropped. The interval is left as it was: the timer is
   * started 250 ms later, by `Started`.
   */
  function Restarted(r: Round, query: string, poolPicks: seq<nat>, deckPicks: seq<nat>): (n: Round)
    requires PicksFor(poolPicks, ImageCount)
    requires PicksFor(deckPicks, 2 * PairCount(ModeFor(query, r.mode)))
    ensures ModeOk(n) && n.mode == ModeFor(query, r.mode)
    ensures n.timerInterval == r.timerInterval && n.liveIntervals == r.liveIntervals
    ensures n.pending == Idle && n.outcome == Playing
  {
    var m := ModeFor(query, r.mode);
    var derived := r.(mode := m, totalPairs := PairCount(m), maxMoves := MaxMoves(m),
                      countdownMode := IsCountdown(m), timeRemaining := DefaultHardTime);
    Dealt(Cleared(derived), poolPicks, deckPicks).(pending := Idle, outcome := Playing)
  }

  /** `stopTimer`: clears the interval `timerInterval` holds, if any. */
  function Stopped(r: Round): (s: Round)
    requires ClockSane(r)
    ensures !s.timerInterval && ClockSane(s)
    ensures NoStrayTicker(r) ==> NoStrayTicker(s)
  {
    if r.timerInterval then r.(timerInterval := false, liveIntervals := r.liveIntervals - 1)
    else r
  }

  /**
   * `startTimer` as written: a new interval, without clearing the one
   * `timerInterval` may hold. A countdown restarts from 180 s, a count-up
   * from zero.
   */
  function StartedAsWritten(r: Round): (s: Round)
    ensures s.timerInterval && ClockSane(s) && s.liveIntervals == r.liveIntervals + 1
    ensures s.timerShows == if r.countdownMode then DefaultHardTime else 0
    ensures r.countdownMode ==> s.timeRemaining == DefaultHardTime && !s.buzzerPlayed && s.timeElapsed == r.timeElapsed
    ensures !r.countdownMode ==> s.timeElapsed == 0 && s.timeRemaining == r.timeRemaining && s.buzzerPlayed == r.buzzerPlayed
    ensures s.(timerInterval := r.timerInterval, liveIntervals := r.liveIntervals, timerShows := r.timerShows,
               timeRemaining := r.timeRemaining, timeElapsed := r.timeElapsed, buzzerPlayed := r.buzzerPlayed) == r
  {
    var shown := if r.countdownMode then r.(buzzerPlayed := false, timeRemaining := DefaultHardTime, timerShows := DefaultHardTime)
                 else r.(timeElapsed := 0, timerShows := 0);
    shown.(timerInterval := true, liveIntervals := r.liveIntervals + 1)
  }

  /** `startTimer` corrected: it stops the running interval first. */
  function Started(r: Round): (s: Round)
    requires ClockSane(r)
    ensures s.timerInterval && ClockSane(s)
    ensures NoStrayTicker(r) ==> NoStrayTicker(s)
    ensures s.timerShows == if r.countdownMode then DefaultHardTime else 0
    ensures r.countdownMode ==> s.timeRemaining == DefaultHardTime && !s.buzzerPlayed
    ensures !r.countdownMode ==> s.timeElapsed == 0
    ensures s.mode == r.mode && s.countdownMode == r.countdownMode && s.cards == r.cards && s.outcome == r.outcome
    ensures s.moves == r.moves && s.matches == r.matches && s.movesRemaining == r.movesRemaining
  {
    StartedAsWritten(Stopped(r))
  }

  /** `handleLoss(reason)`: the clock stops and the loss is shown. */
  function LostBy(r: Round, reason: LossReason): (l: Round)
    requires ClockSane(r)
    ensures l.outcome == Lost(reason) && !l.timerInterval && ClockSane(l)
  {
    Stopped(r).(outcome := Lost(reason))
  }

  /** Whether this tick sounds the buzzer: the countdown reaches ten seconds, and it has not sounded this run. */
  predicate Buzzes(r: Round, hasBuzzer: bool)
  {
    r.countdownMode && r.timeRemaining - 1 == BuzzerThreshold && hasBuzzer && !r.buzzerPlayed
  }

  /**
   * One call of the interval callback: in countdown mode one second less,
   * the buzzer flag raised when it sounds, and at zero the clock stopped
   * with a time loss; otherwise one second more.
   */
  function Ticked(r: Round, hasBuzzer: bool): (t: Round)
    requires ClockSane(r)
    ensures ClockSane(t) && t.countdownMode == r.countdownMode && t.mode == r.mode
    ensures t.cards == r.cards && t.moves == r.moves && t.matches == r.matches && t.movesRemaining == r.movesRemaining
    ensures r.countdownMode ==> t.timeRemaining == r.timeRemaining - 1
    ensures t.buzzerPlayed == (r.buzzerPlayed || Buzzes(r, hasBuzzer))
  {
    if r.countdownMode then
      var t := r.timeRemaining - 1;
      var r1 := r.(timeRemaining := t, buzzerPlayed := r.buzzerPlayed || Buzzes(r, hasBuzzer));
      if t <= 0 then LostBy(Stopped(r1).(timerShows := 0), Time)
      else r1.(timerShows := t as nat)
    else
      r.(timeElapsed := r.timeElapsed + 1, timerShows := r.timeElapsed + 1)
  }

  /** `checkEnd`: a win when every pair is matched, else in medium and hard a loss when no moves remain. */
  function Ended(r: Round): (e: Round)
    requires ClockSane(r)
    ensures var v := EndVerdict(r.matches, r.totalPairs, r.mode, r.movesRemaining);
      && (v.Some? ==> e.outcome == v.value && !e.timerInterval
                      && e.liveIntervals == r.liveIntervals - (if r.timerInterval then 1 else 0))
      && (v.None? ==> e == r)
    ensures e.(timerInterval := r.timerInterval, liveIntervals := r.liveIntervals, outcome := r.outcome) == r
  {
    if r.matches == r.totalPairs then Stopped(r).(outcome := Won)
    else if (r.mode == Medium || r.mode == Hard) && Exhausted(r.movesRemaining) then LostBy(Stopped(r), Moves)
    else r
  }

  /** The guard clauses of `onCardActivate`: a locked board, an unknown card, the first pick again, a matched card. */
  predicate Ignored(r: Round, i: int)
  {
    || r.boardLocked
    || !(0 <= i < |r.cards|)
    || (r.firstCard.Some? && r.firstCard.value == i)
    || r.cards[i].face == Matched
  }

  /** A held pick refers to a card on the board. */
  predicate PicksOnBoard(r: Round)
  {
    && (r.firstCard.Some? ==> r.firstCard.value < |r.cards|)
    && (r.secondCard.Some? ==> r.secondCard.value < |r.cards|)
  }

  /**
   * `onCardActivate` on the card at position `i`: the card is revealed; as a
   * first pick it is held; as a second pick the board locks, one move is
   * counted (and spent in medium and hard), and the two cards are matched or
   * left revealed for the resolution callback.
   */
  function Activated(r: Round, i: int): (a: Round)
    requires PicksOnBoard(r)
    ensures Ignored(r, i) ==> a == r
    ensures PicksOnBoard(a) && |a.cards| == |r.cards|
    ensures a.(cards := r.cards, firstCard := r.firstCard, secondCard := r.secondCard, boardLocked := r.boardLocked,
               pending := r.pending, moves := r.moves, movesRemaining := r.movesRemaining, matches := r.matches) == r
  {
    if Ignored(r, i) then r
    else
      var shown := r.(cards := SetFace(r.cards, i, Revealed));
      if r.firstCard.None? then shown.(firstCard := Some(i))
      else SecondPicked(shown, i)
  }

  /** The second pick at `i`, its card already revealed. */
  function SecondPicked(r: Round, i: nat): (a: Round)
    requires PicksOnBoard(r) && r.firstCard.Some? && i < |r.cards|
    ensures PicksOnBoard(a) && |a.cards| == |r.cards|
  {
    var f := r.firstCard.value;
    var counted := r.(secondCard := Some(i), boardLocked := true, moves := r.moves + 1,
                      movesRemaining := if r.mode == Medium || r.mode == Hard then Decrement(r.movesRemaining)
                                        else r.movesRemaining);
    if r.cards[f].symbol == r.cards[i].symbol then
      counted.(cards := SetFace(SetFace(r.cards, f, Matched), i, Matched), matches := r.matches + 1,
               pending := AfterMatch)
    else
      counted.(pending := AfterMismatch)
  }

  /**
   * The callback a second pick schedules: after a mismatch both cards are
   * turned face down; then the picks are dropped, the board unlocks and the
   * end test runs.
   */
  function Resolved(r: Round): (n: Round)
    requires PicksOnBoard(r) && r.firstCard.Some? && r.secondCard.Some? && ClockSane(r)
    ensures !n.boardLocked && n.firstCard.None? && n.secondCard.None? && n.pending == Idle
    ensures n.moves == r.moves && n.matches == r.matches && n.movesRemaining == r.movesRemaining
  {
    Ended(Unlocked(r))
  }

  /** The resolution before its end test. */
  function Unlocked(r: Round): (u: Round)
    requires PicksOnBoard(r) && r.firstCard.Some? && r.secondCard.Some?
    ensures u.timerInterval == r.timerInterval && u.liveIntervals == r.liveIntervals
    ensures u.moves == r.moves && u.matches == r.matches && u.movesRemaining == r.movesRemaining
  {
    var f, s := r.firstCard.value, r.secondCard.value;
    var cs := if r.pending == AfterMismatch then SetFace(SetFace(r.cards, f, Hidden), s, Hidden) else r.cards;
    r.(cards := cs, firstCard := None, secondCard := None, boardLocked := false, pending := Idle)
  }

  /**
   * A restart gives a round that satisfies the invariant, in the re-read
   * mode, on a new face-down board dealt from the picks, with nothing counted
   * and the interval exactly as it was.
   */
  lemma RestartedFresh(r: Round, query: string, poolPicks: seq<nat>, deckPicks: seq<nat>)
    requires ClockSane(r)
    requires PicksFor(poolPicks, ImageCount)
    requires PicksFor(deckPicks, 2 * PairCount(ModeFor(query, r.mode)))
    ensures var n := Restarted(r, query, poolPicks, deckPicks);
      && Inv(n)
      && n.mode == ModeFor(query, r.mode)
      && Symbols(n.cards) == Deal(PairCount(n.mode), poolPicks, deckPicks)
      && (forall k :: 0 <= k < |n.cards| ==> n.cards[k].face == Hidden)
      && n.moves == 0 && n.matches == 0 && n.firstCard.None? && n.outcome == Playing
      && n.timerInterval == r.timerInterval && n.liveIntervals == r.liveIntervals
  {
    var n := Restarted(r, query, poolPicks, deckPicks);
    DealIsDeck(PairCount(n.mode), poolPicks, deckPicks);
    CountFaceRange(n.cards, Matched);
  }

  /**
   * `stopTimer` leaves no interval in `timerInterval`, clears one live
   * interval exactly when there was one there, changes nothing else, and is
   * safe to repeat.
   */
  lemma StopIsIdempotent(r: Round)
    requires ClockSane(r)
    ensures var s := Stopped(r);
      && !s.timerInterval
      && s.liveIntervals == r.liveIntervals - (if r.timerInterval then 1 else 0)
      && s.(timerInterval := r.timerInterval, liveIntervals := r.liveIntervals) == r
      && Stopped(s) == s
  {
  }

  /** Starting the timer, as written or corrected, keeps the invariant and leaves the board and the score alone. */
  lemma StartedKeeps(r: Round)
    requires Inv(r)
    ensures Inv(StartedAsWritten(r)) && Inv(Started(r))
    ensures var s := Started(r);
      s.cards == r.cards && s.moves == r.moves && s.matches == r.matches && s.movesRemaining == r.movesRemaining
  {
  }

  /** The loss and end events keep the invariant. */
  lemma EndedKeeps(r: Round, reason: LossReason)
    requires Inv(r)
    ensures Inv(Stopped(r)) && Inv(LostBy(r, reason)) && Inv(Ended(r))
  {
  }

  /**
   * A tick keeps the invariant. Counting up, the elapsed time grows by one
   * and the display follows it; counting down, the remaining time drops by
   * one, the display follows it, and the clock stops with a time loss
   * exactly when it reaches zero. The buzzer sounds at most once a run.
   */
  lemma TickedKeeps(r: Round, hasBuzzer: bool)
    requires Inv(r) && r.timerInterval
    ensures var t := Ticked(r, hasBuzzer);
      && Inv(t)
      && (!r.countdownMode ==>
            t.timeElapsed == r.timeElapsed + 1 == t.timerShows && t.timerInterval && t.outcome == r.outcome)
      && (r.countdownMode ==>
            && t.timeRemaining == r.timeRemaining - 1 == t.timerShows
            && (t.timerInterval <==> t.timeRemaining > 0)
            && (t.timeRemaining == 0 ==> t.outcome == Lost(Time) && t.liveIntervals == r.liveIntervals - 1)
            && (t.timeRemaining > 0 ==> t.outcome == r.outcome))
      && (Buzzes(r, hasBuzzer) ==> t.buzzerPlayed && !Buzzes(t, hasBuzzer))
      && t.moves == r.moves && t.matches == r.matches && t.movesRemaining == r.movesRemaining
  {
  }

  /** `n` ticks of the interval callback in a row. */
  function Ticks(r: Round, hasBuzzer: bool, n: nat): (t: Round)
    requires ClockSane(r)
    ensures ClockSane(t)
    decreases n
  {
    if n == 0 then r else Ticks(Ticked(r, hasBuzzer), hasBuzzer, n - 1)
  }

  /**
   * A running countdown with `k` seconds left keeps running for `k - 1`
   * ticks and ends with a time loss, the timer stopped and "00:00" shown, on
   * the `k`-th. So a hard round started at 180 s lasts exactly 180 ticks.
   */
  lemma {:induction false} CountdownRunsOut(r: Round, hasBuzzer: bool, k: nat)
    requires Inv(r) && r.countdownMode && r.timerInterval && r.timeRemaining == k
    ensures forall j :: 0 <= j < k ==> Ticks(r, hasBuzzer, j).timerInterval
    ensures var e := Ticks(r, hasBuzzer, k);
      !e.timerInterval && e.outcome == Lost(Time) && e.timerShows == 0 && e.timeRemaining == 0
    decreases k
  {
    var t := Ticked(r, hasBuzzer);
    TickedKeeps(r, hasBuzzer);
    if k == 1 {
      assert Ticks(r, hasBuzzer, 1) == Ticks(t, hasBuzzer, 0) == t;
    } else {
      CountdownRunsOut(t, hasBuzzer, k - 1);
      forall j | 0 <= j < k
        ensures Ticks(r, hasBuzzer, j).timerInterval
      {
        if j > 0 {
          assert Ticks(r, hasBuzzer, j) == Ticks(t, hasBuzzer, j - 1);
        }
      }
    }
  }

  /** A hard round's countdown, once started, ends in a time loss after exactly 180 ticks. */
  lemma HardRoundLasts180(r: Round, hasBuzzer: bool)
    requires Inv(r) && r.countdownMode
    ensures forall j :: 0 <= j < DefaultHardTime ==> Ticks(Started(r), hasBuzzer, j).timerInterval
    ensures Ticks(Started(r), hasBuzzer, DefaultHardTime).outcome == Lost(Time)
  {
    StartedKeeps(r);
    CountdownRunsOut(Started(r), hasBuzzer, DefaultHardTime);
  }

  /** One more tick at the end of a run. */
  lemma {:induction false} TicksSnoc(r: Round, hasBuzzer: bool, n: nat)
    requires ClockSane(r)
    ensures Ticks(r, hasBuzzer, n + 1) == Ticked(Ticks(r, hasBuzzer, n), hasBuzzer)
    decreases n
  {
    if n > 0 {
      TicksSnoc(Ticked(r, hasBuzzer), hasBuzzer, n - 1);
    }
  }

  /**
   * Along a run the mode stays, a countdown loses exactly one second per
   * tick, and once the buzzer flag is raised it stays raised.
   */
  lemma {:induction false} TicksCount(r: Round, hasBuzzer: bool, n: nat)
    requires ClockSane(r)
    ensures var t := Ticks(r, hasBuzzer, n);
      && t.countdownMode == r.countdownMode && t.mode == r.mode
      && (r.countdownMode ==> t.timeRemaining == r.timeRemaining - n)
      && (r.buzzerPlayed ==> t.buzzerPlayed)
    decreases n
  {
    if n > 0 {
      TicksCount(Ticked(r, hasBuzzer), hasBuzzer, n - 1);
    }
  }

  /** The buzzer flag, once up at tick `i`, is still up at every later tick. */
  lemma {:induction false} BuzzerFlagStays(r: Round, hasBuzzer: bool, i: nat, j: nat)
    requires ClockSane(r) && i <= j && Ticks(r, hasBuzzer, i).buzzerPlayed
    ensures Ticks(r, hasBuzzer, j).buzzerPlayed
    decreases j - i
  {
    if j > i {
      BuzzerFlagStays(r, hasBuzzer, i, j - 1);
      TicksSnoc(r, hasBuzzer, j - 1);
    }
  }

  /**
   * The buzzer sounds at most once in a run of ticks: two ticks that both
   * sound it are the same tick, and after it sounds the flag stays raised
   * for the rest of the run.
   */
  lemma BuzzesOnce(r: Round, hasBuzzer: bool, j: nat, k: nat)
    requires ClockSane(r) && Buzzes(Ticks(r, hasBuzzer, j), hasBuzzer) && Buzzes(Ticks(r, hasBuzzer, k), hasBuzzer)
    ensures j == k
    ensures forall m :: j < m ==> Ticks(r, hasBuzzer, m).buzzerPlayed
  {
    TicksCount(r, hasBuzzer, j);
    TicksCount(r, hasBuzzer, k);
    TicksSnoc(r, hasBuzzer, j);
    forall m | j < m
      ensures Ticks(r, hasBuzzer, m).buzzerPlayed
    {
      BuzzerFlagStays(r, hasBuzzer, j + 1, m);
    }
  }

  /** A first pick keeps the invariant: the card is the one revealed card, and nothing is counted. */
  lemma FirstPickKeeps(r: Round, i: int)
    requires Inv(r) && !Ignored(r, i) && r.firstCard.None?
    ensures var a := Activated(r, i);
      Inv(a) && a.moves == r.moves && a.matches == r.matches && RevealedExactly(a.cards, {i})
  {
    FirstPickTurn(r.cards, i);
  }

  /** A second pick on the same image keeps the invariant: both cards matched, one match and one move more. */
  lemma MatchKeeps(r: Round, i: int)
    requires Inv(r) && !Ignored(r, i) && r.firstCard.Some?
    requires r.cards[r.firstCard.value].symbol == r.cards[i].symbol
    ensures var a := Activated(r, i);
      Inv(a) && a.moves == r.moves + 1 && a.matches == r.matches + 1 && a.pending == AfterMatch
  {
    var f := r.firstCard.value;
    RemainingStep(r.maxMoves, r.moves);
    MatchTurn(r.cards, f, i);
    CountFaceRange(SetFace(SetFace(SetFace(r.cards, i, Revealed), f, Matched), i, Matched), Matched);
  }

  /** A second pick on a different image keeps the invariant: both cards revealed, one move more. */
  lemma MismatchKeeps(r: Round, i: int)
    requires Inv(r) && !Ignored(r, i) && r.firstCard.Some?
    requires r.cards[r.firstCard.value].symbol != r.cards[i].symbol
    ensures var a := Activated(r, i);
      Inv(a) && a.moves == r.moves + 1 && a.matches == r.matches && a.pending == AfterMismatch
  {
    RemainingStep(r.maxMoves, r.moves);
    MismatchTurn(r.cards, r.firstCard.value, i);
  }

  /**
   * An activation keeps the invariant; it counts a move exactly when it is a
   * second pick, and a second pick matches exactly when the two images agree.
   */
  lemma ActivatedKeeps(r: Round, i: int)
    requires Inv(r)
    ensures var a := Activated(r, i);
      && Inv(a)
      && a.moves == r.moves + (if !Ignored(r, i) && r.firstCard.Some? then 1 else 0)
      && (!Ignored(r, i) && r.firstCard.Some? ==>
            (a.pending == AfterMatch <==> r.cards[r.firstCard.value].symbol == r.cards[i].symbol))
  {
    if !Ignored(r, i) {
      if r.firstCard.None? {
        FirstPickKeeps(r, i);
      } else if r.cards[r.firstCard.value].symbol == r.cards[i].symbol {
        MatchKeeps(r, i);
      } else {
        MismatchKeeps(r, i);
      }
    }
  }

  /** An activation never turns a matched card back, and never changes which image a card shows. */
  lemma ActivatedKeepsMatched(r: Round, i: int)
    requires PicksOnBoard(r)
    ensures var a := Activated(r, i);
      && Symbols(a.cards) == Symbols(r.cards)
      && forall k :: 0 <= k < |r.cards| && r.cards[k].face == Matched ==> a.cards[k].face == Matched
  {
  }

  /** After a second pick the board is locked: every further activation is ignored until the resolution. */
  lemma SecondPickLocks(r: Round, i: int, j: int)
    requires Inv(r) && !Ignored(r, i) && r.firstCard.Some?
    ensures Activated(r, i).boardLocked && Activated(Activated(r, i), j) == Activated(r, i)
  {
    ActivatedKeeps(r, i);
  }

  /**
   * The resolution keeps the invariant and unlocks the board with no card
   * revealed; after a mismatch the two cards are face down again, and
   * matched cards stay matched.
   */
  lemma ResolvedKeeps(r: Round)
    requires Inv(r) && r.pending != Idle
    ensures var n := Resolved(r);
      && Inv(n)
      && !n.boardLocked && n.firstCard.None? && RevealedExactly(n.cards, {})
      && (r.pending == AfterMismatch ==>
            n.cards[r.firstCard.value].face == Hidden == n.cards[r.secondCard.value].face)
      && (forall k :: 0 <= k < |r.cards| && r.cards[k].face == Matched ==> n.cards[k].face == Matched)
      && n.moves == r.moves && n.matches == r.matches && n.movesRemaining == r.movesRemaining
  {
    var f, s := r.firstCard.value, r.secondCard.value;
    if r.pending == AfterMismatch {
      ResolveMismatchTurn(r.cards, f, s);
    } else {
      ResolveMatchTurn(r.cards, f, s);
    }
    EndedKeeps(Unlocked(r), Moves);
  }

  /** A round is won exactly when every card on the board is matched. */
  lemma WonIffAllMatched(r: Round)
    requires Inv(r)
    ensures r.matches == r.totalPairs <==> forall k :: 0 <= k < |r.cards| ==> r.cards[k].face == Matched
  {
    CountFaceRange(r.cards, Matched);
  }

  /**
   * As written, a restart while the timer runs leaves the old interval live:
   * after the deferred `startTimer` two intervals tick, and even a
   * `stopTimer` afterwards leaves one of them running.
   */
  lemma RestartLeaksTicker(r: Round, query: string, poolPicks: seq<nat>, deckPicks: seq<nat>)
    requires Inv(r) && NoStrayTicker(r) && r.timerInterval
    requires PicksFor(poolPicks, ImageCount)
    requires PicksFor(deckPicks, 2 * PairCount(ModeFor(query, r.mode)))
    ensures var n := StartedAsWritten(Restarted(r, query, poolPicks, deckPicks));
      && n.liveIntervals == 2 && !NoStrayTicker(n)
      && !Stopped(n).timerInterval && Stopped(n).liveIntervals == 1
  {
    RestartedFresh(r, query, poolPicks, deckPicks);
  }

  /**
   * Corrected, the restart and the deferred start leave exactly one live
   * interval, the one `timerInterval` holds, and stopping it leaves none.
   */
  lemma RestartKeepsOneTicker(r: Round, query: string, poolPicks: seq<nat>, deckPicks: seq<nat>)
    requires Inv(r) && NoStrayTicker(r)
    requires PicksFor(poolPicks, ImageCount)
    requires PicksFor(deckPicks, 2 * PairCount(ModeFor(query, r.mode)))
    ensures var n := Started(Restarted(r, query, poolPicks, deckPicks));
      && n.timerInterval && n.liveIntervals == 1 && NoStrayTicker(n)
      && Stopped(n).liveIntervals == 0
  {
    RestartedFresh(r, query, poolPicks, deckPicks);
  }
}
