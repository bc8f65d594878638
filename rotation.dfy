/**
 * The daily rotation of actions/quickie.go: the index deck that `shuffle`
 * deals, the staleness rules `shuffleCurrent` and `checkShuffle` apply, and
 * the refresh decision of `getShuffleData`.
 */
module Rotation {
  import opened Common
  import opened Calendar
  import Random

  /** The number of random transpositions `shuffle` performs. */
  const SwapCount: nat := 10000

  /** `0, 1, ..., n - 1`: the deck before shuffling. */
  function Identity(n: nat): (s: seq<int>)
    ensures |s| == n && forall i :: 0 <= i < n ==> s[i] == i
  {
    seq(n, i => i)
  }

  /** `s[x], s[y] = s[y], s[x]`. */
  function Swap(s: seq<int>, x: int, y: int): (t: seq<int>)
    requires 0 <= x < |s| && 0 <= y < |s|
    ensures |t| == |s|
  {
    s[x := s[y]][y := s[x]]
  }

  lemma SwapPreservesMultiset(s: seq<int>, x: int, y: int)
    requires 0 <= x < |s| && 0 <= y < |s|
    ensures multiset(Swap(s, x, y)) == multiset(s)
  {
    if x != y {
      var t := s[x := s[y]];
      assert multiset(t) == multiset(s) - multiset{s[x]} + multiset{s[y]};
      assert multiset(t[y := s[x]]) == multiset(t) - multiset{t[y]} + multiset{s[x]};
    }
  }

  /**
   * The deck after `rounds` more transpositions, each swapping the entries
   * at the two indices the next two draws give.
   */
  function SwapRounds(s: seq<int>, source: nat -> nat, next: nat, rounds: nat): (t: seq<int>)
    requires |s| > 0
    ensures |t| == |s|
    decreases rounds
  {
    if rounds == 0 then s
    else
      var x := Random.Rng.Draw(source, next, |s|);
      var y := Random.Rng.Draw(source, next + 1, |s|);
      SwapRounds(Swap(s, x, y), source, next + 2, rounds - 1)
  }

  /** `k + 1` rounds are `k` rounds followed by the transposition the draws after them give. */
  lemma {:induction false} SwapRoundsSnoc(s: seq<int>, source: nat -> nat, next: nat, k: nat)
    requires |s| > 0
    ensures SwapRounds(s, source, next, k + 1) ==
      Swap(SwapRounds(s, source, next, k),
           Random.Rng.Draw(source, next + 2 * k, |s|), Random.Rng.Draw(source, next + 2 * k + 1, |s|))
    decreases k
  {
    if k > 0 {
      var x := Random.Rng.Draw(source, next, |s|);
      var y := Random.Rng.Draw(source, next + 1, |s|);
      SwapRoundsSnoc(Swap(s, x, y), source, next + 2, k - 1);
    }
  }

  /** The deck `shuffle(size)` deals from the draws starting at position `next`. */
  function Dealt(size: nat, source: nat -> nat, next: nat): (t: seq<int>)
    requires size > 0
    ensures |t| == size
  {
    SwapRounds(Identity(size), source, next, SwapCount)
  }

  /** `t` holds each of 0..n-1 exactly once. */
  predicate IsPermutationOfRange(t: seq<int>, n: nat) {
    |t| == n && multiset(t) == multiset(Identity(n))
  }

  lemma {:induction false} SwapRoundsPreservesMultiset(s: seq<int>, source: nat -> nat, next: nat, rounds: nat)
    requires |s| > 0
    ensures multiset(SwapRounds(s, source, next, rounds)) == multiset(s)
    decreases rounds
  {
    if rounds > 0 {
      var x := Random.Rng.Draw(source, next, |s|);
      var y := Random.Rng.Draw(source, next + 1, |s|);
      SwapPreservesMultiset(s, x, y);
      SwapRoundsPreservesMultiset(Swap(s, x, y), source, next + 2, rounds - 1);
    }
  }

  /** Whatever the draws, the dealt deck is a permutation of 0..size-1. */
  lemma DealtIsPermutation(size: nat, source: nat -> nat, next: nat)
    requires size > 0
    ensures IsPermutationOfRange(Dealt(size, source, next), size)
  {
    SwapRoundsPreservesMultiset(Identity(size), source, next, SwapCount);
  }

  /** A permutation of 0..n-1 holds only indices below `n`, and every one of them. */
  lemma PermutationCoversRange(t: seq<int>, n: nat)
    requires IsPermutationOfRange(t, n)
    ensures forall j :: 0 <= j < |t| ==> 0 <= t[j] < n
    ensures forall v :: 0 <= v < n ==> v in t
  {
    forall j | 0 <= j < |t|
      ensures 0 <= t[j] < n
    {
      assert t[j] in multiset(t);
      assert t[j] in multiset(Identity(n));
      assert t[j] in Identity(n);
    }
    forall v | 0 <= v < n
      ensures v in t
    {
      assert Identity(n)[v] == v;
      assert v in multiset(Identity(n));
      assert v in multiset(t);
    }
  }

  // ---------------------------------------------------------------
  // Staleness
  // ---------------------------------------------------------------

  /**
   * `ShuffleData`: how many conversations the shuffled table holds, the
   * server day of the last shuffle, and the correction (nanoseconds) from
   * the local clock to the database server's.
   */
  datatype ShuffleData = ShuffleData(size: int, shuffledDay: Time, servCor: int)

  predicate ValidShuffleData(s: ShuffleData) {
    ValidTime(s.shuffledDay)
  }

  /**
   * `shuffleCurrent`: the server's notion of now has the same day-of-year as
   * the shuffle, or had it five minutes ago.
   */
  predicate ShuffleCurrent(now: Time, s: ShuffleData)
    requires ValidTime(now) && ValidShuffleData(s)
  {
    var server := AddDuration(now, s.servCor);
    YearDay(server.date) == YearDay(s.shuffledDay.date)
    || YearDay(AddDuration(server, -FiveMinutes).date) == YearDay(s.shuffledDay.date)
  }

  /** A shuffle made on the server's current day is current. */
  lemma ShuffledTodayIsCurrent(now: Time, s: ShuffleData)
    requires ValidTime(now) && ValidShuffleData(s)
    requires AddDuration(now, s.servCor).date == s.shuffledDay.date
    ensures ShuffleCurrent(now, s)
  {
  }

  /** Just after midnight, yesterday's shuffle still counts for five minutes. */
  lemma YesterdayCurrentForFiveMinutes(now: Time, s: ShuffleData)
    requires ValidTime(now) && ValidShuffleData(s)
    requires AddDuration(now, s.servCor).date == NextDay(s.shuffledDay.date)
    requires AddDuration(now, s.servCor).nanos < FiveMinutes
    ensures ShuffleCurrent(now, s)
  {
    var server := AddDuration(now, s.servCor);
    FiveMinutesBackPrevDay(server);
    NextPrev(s.shuffledDay.date);
  }

  /** Once five minutes of the next day have passed, yesterday's shuffle is stale. */
  lemma YesterdayStaleAfterFiveMinutes(now: Time, s: ShuffleData)
    requires ValidTime(now) && ValidShuffleData(s)
    requires AddDuration(now, s.servCor).date == NextDay(s.shuffledDay.date)
    requires AddDuration(now, s.servCor).nanos >= FiveMinutes
    ensures !ShuffleCurrent(now, s)
  {
    var server := AddDuration(now, s.servCor);
    FiveMinutesBackSameDay(server);
    YearDayOfNextDay(s.shuffledDay.date);
  }

  /** Only the day-of-year number is compared, whatever the years. */
  lemma SameYearDayIsCurrent(now: Time, s: ShuffleData)
    requires ValidTime(now) && ValidShuffleData(s)
    requires YearDay(AddDuration(now, s.servCor).date) == YearDay(s.shuffledDay.date)
    ensures ShuffleCurrent(now, s)
  {
  }

  /**
   * Examples of `SameYearDayIsCurrent`: a shuffle made on the same date a
   * year earlier counts as current, and so, across a leap day, does one
   * made on a different date with the same day-of-year number (2024-02-29
   * and 2023-03-01 are both day 60).
   */
  lemma YearOldShuffleIsCurrent()
    ensures ShuffleCurrent(Time(Date(2023, 5, 10), 0),
                           ShuffleData(1, Time(Date(2022, 5, 10), 0), FiveMinutes))
    ensures ShuffleCurrent(Time(Date(2024, 2, 29), 0),
                           ShuffleData(1, Time(Date(2023, 3, 1), 0), FiveMinutes))
  {
    assert AddDuration(Time(Date(2023, 5, 10), 0), FiveMinutes) == Time(Date(2023, 5, 10), FiveMinutes);
    assert AddDuration(Time(Date(2024, 2, 29), 0), FiveMinutes) == Time(Date(2024, 2, 29), FiveMinutes);
    assert YearDay(Date(2024, 2, 29)) == 60 == YearDay(Date(2023, 3, 1));
  }

  /**
   * `checkShuffle` reshuffles when the day-of-month of the last shuffle
   * differs from today's (`Time.Day`).
   */
  predicate DeckStale(shuffledDay: Time, now: Time) {
    shuffledDay.date.day != now.date.day
  }

  /** Only the day of the month is compared, whatever the months and years. */
  lemma SameMonthDayNotStale(shuffledDay: Time, now: Time)
    requires shuffledDay.date.day == now.date.day
    ensures !DeckStale(shuffledDay, now)
  {
  }

  /**
   * Examples of `SameMonthDayNotStale` and `DeckStale`: a deck dealt a month
   * earlier is not stale, one dealt the day before is.
   */
  lemma MonthOldDeckNotStale()
    ensures !DeckStale(Time(Date(2024, 1, 5), 0), Time(Date(2024, 2, 5), 0))
    ensures DeckStale(Time(Date(2024, 1, 5), 0), Time(Date(2024, 1, 6), 0))
  {
  }

  // ---------------------------------------------------------------
  // getShuffleData
  // ---------------------------------------------------------------

  /**
   * What `getShuffleData` leaves behind: its result, the session's shuffle
   * data afterwards, and how many times it called `shuffleConversations`.
   */
  datatype ShuffleOutcome = ShuffleOutcome(result: Result<ShuffleData>, session: Option<ShuffleData>, reshuffles: nat)

  /**
   * `getShuffleData`. `reshuffle(k)` is the result of the k-th call (from 0)
   * to `shuffleConversations`, which runs the deck procedure in the database.
   * Missing session data is fetched first; data that is not current is then
   * replaced by another reshuffle. An error stops the procedure and leaves
   * the session as it stood.
   */
  function GetShuffleData(now: Time, session: Option<ShuffleData>, reshuffle: nat -> Result<ShuffleData>): (o: ShuffleOutcome)
    requires ValidTime(now)
    requires forall k :: reshuffle(k).Ok? ==> ValidShuffleData(reshuffle(k).value)
    requires session.Some? ==> ValidShuffleData(session.value)
    ensures o.reshuffles <= 2
  {
    var (start, calls) :=
      if session.Some? then (Ok(session.value), 0) else (reshuffle(0), 1);
    match start
    case Err(e) => ShuffleOutcome(Err(e), session, calls)
    case Ok(s) =>
      if ShuffleCurrent(now, s) then ShuffleOutcome(Ok(s), Some(s), calls)
      else
        match reshuffle(calls)
        case Err(e) => ShuffleOutcome(Err(e), Some(s), calls + 1)
        case Ok(s') => ShuffleOutcome(Ok(s'), Some(s'), calls + 1)
  }

  /**
   * The session always ends holding what is returned; current session data
   * is returned without reshuffling; data returned without a reshuffle is
   * current.
   */
  lemma GetShuffleDataSpec(now: Time, session: Option<ShuffleData>, reshuffle: nat -> Result<ShuffleData>)
    requires ValidTime(now)
    requires forall k :: reshuffle(k).Ok? ==> ValidShuffleData(reshuffle(k).value)
    requires session.Some? ==> ValidShuffleData(session.value)
    ensures var o := GetShuffleData(now, session, reshuffle);
      (o.result.Ok? ==> o.session == Some(o.result.value))
      && (session.Some? && ShuffleCurrent(now, session.value) ==> o == ShuffleOutcome(Ok(session.value), session, 0))
      && (o.result.Ok? && o.reshuffles == 0 ==> session == Some(o.result.value) && ShuffleCurrent(now, o.result.value))
      && (o.result.Ok? && !ShuffleCurrent(now, o.result.value) ==> o.result == reshuffle(o.reshuffles - 1))
  {
  }

  /** Without session data, a failing first reshuffle is reported and nothing is stored. */
  lemma GetShuffleDataFirstFailure(now: Time, reshuffle: nat -> Result<ShuffleData>)
    requires ValidTime(now)
    requires forall k :: reshuffle(k).Ok? ==> ValidShuffleData(reshuffle(k).value)
    requires reshuffle(0).Err?
    ensures GetShuffleData(now, None, reshuffle) == ShuffleOutcome(reshuffle(0), None, 1)
  {
  }

  /**
   * The session lookup in `getShuffleData` is keyed by a newly allocated
   * pointer, so it never finds the data an earlier request stored: every
   * call takes the `None` branch and reshuffles at least once. A current
   * first deal is returned and stored as it is.
   */
  lemma MissingSessionReshuffles(now: Time, reshuffle: nat -> Result<ShuffleData>)
    requires ValidTime(now)
    requires forall k :: reshuffle(k).Ok? ==> ValidShuffleData(reshuffle(k).value)
    ensures GetShuffleData(now, None, reshuffle).reshuffles >= 1
    ensures reshuffle(0).Ok? && ShuffleCurrent(now, reshuffle(0).value) ==>
      GetShuffleData(now, None, reshuffle) == ShuffleOutcome(reshuffle(0), Some(reshuffle(0).value), 1)
  {
  }
}
