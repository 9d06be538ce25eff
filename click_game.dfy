/**
 * The timed click game with sessions (javascript/game-2D/2Dgame.js). A
 * session lasts while a one-second countdown runs from 20; clicking the
 * piece scores the time left, restarts the countdown at 20 and makes the
 * piece smaller; when the countdown ends the session's score goes to the
 * front of the score history. Every handler changes the page's globals in
 * place, so the state is a class and each handler a method. Timer ticks are
 * explicit calls of `Countdown`.
 */
module ClickGame {

  /** `currentDifficulty`: one of the keys of `DIFFICULTY_LEVELS`. */
  datatype Difficulty = Easy | Normal | Hard

  /** `DIFFICULTY_LEVELS[level].size`, the piece's width and height in pixels. */
  function SizeOf(d: Difficulty): nat {
    match d
    case Easy => 70
    case Normal => 50
    case Hard => 30
  }

  /** The step `increaseDifficulty` takes; `hard` stays `hard`. */
  function Harder(d: Difficulty): Difficulty {
    match d
    case Easy => Normal
    case Normal => Hard
    case Hard => Hard
  }

  /** The step `decreaseDifficulty` takes; `easy` stays `easy`. */
  function Easier(d: Difficulty): Difficulty {
    match d
    case Hard => Normal
    case Normal => Easy
    case Easy => Easy
  }

  /** The position of a level on the ladder easy (0), normal (1), hard (2). */
  function Rank(d: Difficulty): (r: nat)
    ensures r <= 2
  {
    match d
    case Easy => 0
    case Normal => 1
    case Hard => 2
  }

  /** A record of `scoreHistory`; the wall-clock timestamp is not modelled. */
  datatype ScoreItem = ScoreItem(score: nat, difficulty: Difficulty, session: nat)

  /** `increaseDifficulty` climbs one rung of the ladder and stops at the
      top; `decreaseDifficulty` goes down one rung and stops at the bottom. */
  lemma LadderSteps(d: Difficulty)
    ensures Rank(Harder(d)) == if Rank(d) == 2 then 2 else Rank(d) + 1
    ensures Rank(Easier(d)) == if Rank(d) == 0 then 0 else Rank(d) - 1
  {
  }

  /** The piece shrinks by 20 pixels a rung: 70, 50, 30. */
  lemma SizeByRank(d: Difficulty)
    ensures SizeOf(d) == 70 - 20 * Rank(d)
  {
  }

  /** A step up undone by a step down, and the other way round, except at
      the ends of the ladder. */
  lemma LadderRoundTrip(d: Difficulty)
    ensures d != Hard ==> Easier(Harder(d)) == d
    ensures d != Easy ==> Harder(Easier(d)) == d
  {
  }

  /** Two steps up from anywhere reach `hard`; two steps down reach `easy`. */
  lemma LadderEnds(d: Difficulty)
    ensures Harder(Harder(d)) == Hard && Easier(Easier(d)) == Easy
  {
  }

  class Game {
    var time: int
    var points: nat
    var sessionPoints: nat
    var currentSession: nat
    var isTimerOn: bool
    var difficulty: Difficulty
    /** The piece's width and height, as `setDifficulty` writes them. */
    var size: nat
    var history: seq<ScoreItem>

    /** The countdown stays within 0..20; the piece has its level's size; a
        session's points are part of the total; the history names only
        sessions already started, newest first. */
    ghost predicate Valid()
      reads this
    {
      && 0 <= time <= 20
      && size == SizeOf(difficulty)
      && sessionPoints <= points
      && (forall i :: 0 <= i < |history| ==> history[i].session <= currentSession)
      && (forall i, j :: 0 <= i < j < |history| ==> history[j].session <= history[i].session)
    }

    /** The page as loaded, after `setDifficulty('normal')`. */
    constructor ()
      ensures Valid()
      ensures time == 0 && points == 0 && sessionPoints == 0 && currentSession == 0
      ensures !isTimerOn && difficulty == Normal && size == 50 && history == []
    {
      time, points, sessionPoints, currentSession := 0, 0, 0, 0;
      isTimerOn := false;
      history := [];
      difficulty, size := Normal, SizeOf(Normal);
    }

    /** `setDifficulty(level)`: the level and the piece's size. */
    method SetDifficulty(level: Difficulty)
      modifies this`difficulty, this`size
      ensures difficulty == level && size == SizeOf(level)
    {
      difficulty := level;
      size := SizeOf(level);
    }

    /** `increaseDifficulty()`. */
    method IncreaseDifficulty()
      modifies this`difficulty, this`size
      requires size == SizeOf(difficulty)
      ensures difficulty == Harder(old(difficulty)) && size == SizeOf(difficulty)
    {
      match difficulty
      case Easy => SetDifficulty(Normal);
      case Normal => SetDifficulty(Hard);
      case Hard =>
    }

    /** `decreaseDifficulty()`. */
    method DecreaseDifficulty()
      modifies this`difficulty, this`size
      requires size == SizeOf(difficulty)
      ensures difficulty == Easier(old(difficulty)) && size == SizeOf(difficulty)
    {
      match difficulty
      case Hard => SetDifficulty(Normal);
      case Normal => SetDifficulty(Easy);
      case Easy =>
    }

    /** `handleDifficultyIncrease()`: refused while the timer runs. */
    method HandleDifficultyIncrease()
      requires Valid()
      modifies this`difficulty, this`size
      ensures Valid()
      ensures difficulty == if old(isTimerOn) then old(difficulty) else Harder(old(difficulty))
    {
      if isTimerOn {
        return;
      }
      IncreaseDifficulty();
    }

    /** `handleDifficultyDecrease()`: refused while the timer runs. */
    method HandleDifficultyDecrease()
      requires Valid()
      modifies this`difficulty, this`size
      ensures Valid()
      ensures difficulty == if old(isTimerOn) then old(difficulty) else Easier(old(difficulty))
    {
      if isTimerOn {
        return;
      }
      DecreaseDifficulty();
    }

    /** `startNewSession()`: the next session, no points yet, 20 seconds on
        a running timer. */
    method StartNewSession()
      requires Valid()
      modifies this`currentSession, this`sessionPoints, this`time, this`isTimerOn
      ensures Valid()
      ensures currentSession == old(currentSession) + 1
      ensures sessionPoints == 0 && time == 20 && isTimerOn
    {
      currentSession := currentSession + 1;
      sessionPoints := 0;
      time := 20;
      isTimerOn := true;
    }

    /** `handleSession()`: a new session only when the timer is off. */
    method HandleSession()
      requires Valid()
      modifies this`currentSession, this`sessionPoints, this`time, this`isTimerOn
      ensures Valid()
      ensures old(isTimerOn) ==>
        (currentSession == old(currentSession) && sessionPoints == old(sessionPoints) &&
         time == old(time) && isTimerOn)
      ensures !old(isTimerOn) ==>
        (currentSession == old(currentSession) + 1 && sessionPoints == 0 && time == 20 && isTimerOn)
    {
      if !isTimerOn {
        StartNewSession();
      }
    }

    /** `addToScoreHistory(score, difficulty, session)`: the new record goes
        to the front. */
    method AddToScoreHistory(score: nat, level: Difficulty, session: nat)
      modifies this`history
      ensures history == [ScoreItem(score, level, session)] + old(history)
    {
      history := [ScoreItem(score, level, session)] + history;
    }

    /** `endSession()`: the timer stops and the session's score is recorded. */
    method EndSession()
      requires Valid()
      modifies this`isTimerOn, this`history
      ensures Valid() && !isTimerOn
      ensures history == [ScoreItem(sessionPoints, difficulty, currentSession)] + old(history)
    {
      isTimerOn := false;
      AddToScoreHistory(sessionPoints, difficulty, currentSession);
    }

    /** `countdown()`, one tick of the one-second interval: a second less
        while time is left, otherwise the end of the session. */
    method Countdown()
      requires Valid()
      modifies this`time, this`isTimerOn, this`history
      ensures Valid()
      ensures old(time) > 0 ==> time == old(time) - 1 && isTimerOn == old(isTimerOn) && history == old(history)
      ensures old(time) == 0 ==>
        (time == 0 && !isTimerOn &&
         history == [ScoreItem(sessionPoints, difficulty, currentSession)] + old(history))
    {
      if time > 0 {
        time := time - 1;
      } else {
        EndSession();
      }
    }

    /** `pieceClick()`: the time left is added to both scores; with time
        left, the countdown restarts at 20 and the piece gets harder; with
        none, a new session starts. */
    method PieceClick()
      requires Valid()
      modifies this`points, this`sessionPoints, this`time, this`difficulty, this`size,
        this`currentSession, this`isTimerOn
      ensures Valid()
      ensures points == old(points) + old(time)
      ensures old(time) > 0 ==>
        (sessionPoints == old(sessionPoints) + old(time) && time == 20 &&
         difficulty == Harder(old(difficulty)) && currentSession == old(currentSession) &&
         isTimerOn == old(isTimerOn))
      ensures old(time) == 0 ==>
        (sessionPoints == 0 && time == 20 && isTimerOn &&
         difficulty == old(difficulty) && currentSession == old(currentSession) + 1)
    {
      points := points + time;
      sessionPoints := sessionPoints + time;
      if time > 0 {
        time := 20;
        IncreaseDifficulty();
      } else {
        StartNewSession();
      }
    }
  }
}
