/**
 * Difficulty modes of the memory-match game and the values derived from a
 * mode: pair count, move limit, countdown, the end-of-round verdict and the
 * moves counter shown to the player.
 */
module GameRules {
  import opened Wrappers

  /** Number of card images available (card1.png .. card14.png). */
  const ImageCount: nat := 14
  /** Length of the hard-mode countdown, in seconds. */
  const DefaultHardTime: nat := 180
  /** Remaining seconds at which the one-shot buzzer sounds. */
  const BuzzerThreshold: int := 10

  datatype Mode = Easy | Medium | Hard

  /** A move limit; `Unbounded` stands for the JavaScript `Infinity`. */
  datatype MoveLimit = Unbounded | Bounded(n: int)

  /** The per-mode move-limit factor: infinite, or the rational num/den. */
  datatype Factor = Infinite | Ratio(num: nat, den: nat)

  datatype LossReason = Time | Moves

  /** The result overlay last shown, or none yet. */
  datatype Outcome = Playing | Won | Lost(reason: LossReason)

  /** The mode named by the query string; anything but "medium" or "hard" (including a missing value) is easy. */
  function ParseMode(requested: string): (m: Mode)
    ensures m == Medium <==> requested == "medium"
    ensures m == Hard <==> requested == "hard"
    ensures m == Easy <==> requested != "medium" && requested != "hard"
  {
    if requested == "medium" then Medium
    else if requested == "hard" then Hard
    else Easy
  }

  /**
   * The mode chosen on a restart: a missing or empty query value keeps the
   * current mode, any other value is parsed as on page load.
   */
  function ModeFor(requested: string, current: Mode): (m: Mode)
    ensures requested == "" ==> m == current
    ensures requested != "" ==> (m == Hard <==> requested == "hard") && (m == Medium <==> requested == "medium")
  {
    if requested == "" then current else ParseMode(requested)
  }

  /** Restarting on the page that was loaded keeps the mode chosen on load. */
  lemma RestartKeepsMode(requested: string)
    ensures ModeFor(requested, ParseMode(requested)) == ParseMode(requested)
  {
  }

  function PairCount(m: Mode): (r: nat)
    ensures 0 < r <= ImageCount
    ensures m == Easy ==> r == 6
    ensures m == Medium ==> r == 8
    ensures m == Hard ==> r == 10
  {
    match m
    case Easy => 6
    case Medium => 8
    case Hard => 10
  }

  /** 2.5 for medium and 3.5 for hard, written as exact ratios. */
  function MoveLimitFactor(m: Mode): (f: Factor)
    ensures f.Infinite? <==> m == Easy
    ensures f.Ratio? ==> f.den > 0 && 2 * f.num == (if m == Medium then 5 else 7) * f.den
  {
    match m
    case Easy => Infinite
    case Medium => Ratio(5, 2)
    case Hard => Ratio(7, 2)
  }

  /** floor(pairs x factor), or unbounded for an infinite factor. */
  function MaxMoves(m: Mode): (r: MoveLimit)
    ensures r.Unbounded? <==> m == Easy
    ensures r.Bounded? ==> MoveLimitFactor(m).Ratio? && 0 <= r.n
    ensures r.Bounded? ==>
      var f := MoveLimitFactor(m);
      r.n * f.den <= PairCount(m) * f.num < (r.n + 1) * f.den
    ensures m == Medium ==> r == Bounded(20)
    ensures m == Hard ==> r == Bounded(35)
  {
    match MoveLimitFactor(m)
    case Infinite => Unbounded
    case Ratio(num, den) => Bounded(PairCount(m) * num / den)
  }

  function IsCountdown(m: Mode): bool
  {
    m == Hard
  }

  /** One `movesRemaining--`; `Infinity - 1` is still `Infinity`. */
  function Decrement(l: MoveLimit): (r: MoveLimit)
    ensures r.Unbounded? <==> l.Unbounded?
    ensures l.Bounded? ==> r.n == l.n - 1
  {
    match l
    case Unbounded => Unbounded
    case Bounded(n) => Bounded(n - 1)
  }

  /** The limit left after `moves` recorded moves (what `movesRemaining` holds). */
  function Remaining(limit: MoveLimit, moves: nat): (r: MoveLimit)
    ensures r.Unbounded? <==> limit.Unbounded?
    ensures limit.Bounded? ==> r.n + moves == limit.n
  {
    match limit
    case Unbounded => Unbounded
    case Bounded(n) => Bounded(n - moves)
  }

  /** Recording one more move is one decrement of what remains. */
  lemma {:induction false} RemainingStep(limit: MoveLimit, moves: nat)
    ensures Remaining(limit, moves + 1) == Decrement(Remaining(limit, moves))
  {
  }

  /** `movesRemaining <= 0`; never true of `Infinity`. */
  predicate Exhausted(l: MoveLimit)
  {
    l.Bounded? && l.n <= 0
  }

  /**
   * The end test run after every resolved pair: the win test comes first,
   * then, in medium and hard only, the move-exhaustion test.
   */
  function EndVerdict(matches: nat, totalPairs: nat, m: Mode, remaining: MoveLimit): (r: Option<Outcome>)
    ensures r == Some(Won) <==> matches == totalPairs
    ensures r == Some(Lost(Moves)) <==> matches != totalPairs && m != Easy && Exhausted(remaining)
    ensures r == None <==> matches != totalPairs && (m == Easy || !Exhausted(remaining))
    ensures r != Some(Lost(Time)) && r != Some(Playing)
  {
    if matches == totalPairs then Some(Won)
    else if (m.Medium? || m.Hard?) && Exhausted(remaining) then Some(Lost(Moves))
    else None
  }

  /** Matching the last pair on the last allowed move wins. */
  lemma LastMoveWin(totalPairs: nat, m: Mode, moves: nat)
    requires m != Easy && moves == MaxMoves(m).n
    ensures Exhausted(Remaining(MaxMoves(m), moves))
    ensures EndVerdict(totalPairs, totalPairs, m, Remaining(MaxMoves(m), moves)) == Some(Won)
  {
  }

  /** Easy mode never loses on moves, however many are made. */
  lemma EasyNeverRunsOutOfMoves(matches: nat, totalPairs: nat, moves: nat)
    ensures EndVerdict(matches, totalPairs, Easy, Remaining(MaxMoves(Easy), moves)) != Some(Lost(Moves))
  {
  }

  /**
   * The moves counter on screen: moves made in easy mode, otherwise the
   * moves remaining floored at zero.
   */
  function MovesDisplay(m: Mode, moves: nat, remaining: MoveLimit): (r: int)
    requires m != Easy ==> remaining.Bounded?
    ensures r >= 0
    ensures m == Easy ==> r == moves
    ensures m != Easy ==> (r == 0 <==> remaining.n <= 0) && (remaining.n >= 0 ==> r == remaining.n)
  {
    if m == Easy then moves
    else if remaining.n < 0 then 0 else remaining.n
  }

  /**
   * In a bounded mode the displayed count is the limit minus the moves made,
   * never negative, and it never goes up as moves are made.
   */
  lemma {:induction false} MovesDisplayCountsDown(m: Mode, moves: nat, later: nat)
    requires m != Easy && moves <= later
    ensures MovesDisplay(m, later, Remaining(MaxMoves(m), later)) <= MovesDisplay(m, moves, Remaining(MaxMoves(m), moves))
    ensures moves <= MaxMoves(m).n ==> MovesDisplay(m, moves, Remaining(MaxMoves(m), moves)) == MaxMoves(m).n - moves
  {
  }
}
