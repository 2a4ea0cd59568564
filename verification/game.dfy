/** The game logic of `NumberGuessingGame`: four state fields and the two
    transitions behind the "Start/Restart Game" and "Guess" buttons. The
    random draw of the target is a parameter, and the text of every popup
    and label is replaced by an `Outcome` value. */
module Game {
  import opened Wrappers
  import IntParse

  /** `number_to_guess`, `attempts`, `low` and `high`. */
  datatype State = State(target: Option<int>, attempts: nat, low: int, high: int)

  /** The fields as the constructor sets them: no game in progress. */
  const Initial: State := State(None, 0, 0, 0)

  /** A game is in progress exactly when a target is present. */
  predicate Active(s: State) {
    s.target.Some?
  }

  /** The bounds of one of the three difficulty ranges. */
  predicate IsTableRange(low: int, high: int) {
    low == 1 && (high == 50 || high == 100 || high == 200)
  }

  /** While a game is in progress its range is one of the difficulty ranges
      and the target lies inside it. */
  predicate Valid(s: State) {
    Active(s) ==> IsTableRange(s.low, s.high) && s.low <= s.target.value <= s.high
  }

  /** The inclusive range chosen by a difficulty code; the radio buttons
      carry the codes 1 (easy), 2 (medium) and 3 (hard). */
  function RangeOf(code: int): (r: Option<(int, int)>)
    ensures r.Some? <==> 1 <= code <= 3
    ensures r.Some? ==> IsTableRange(r.value.0, r.value.1)
  {
    if code == 1 then Some((1, 50))
    else if code == 2 then Some((1, 100))
    else if code == 3 then Some((1, 200))
    else None
  }

  /** The random draw for a known code lies in that code's range. */
  predicate DrawFits(code: int, draw: int) {
    RangeOf(code).Some? ==> RangeOf(code).value.0 <= draw <= RangeOf(code).value.1
  }

  datatype StartOutcome = Started(low: int, high: int) | InvalidDifficulty

  /** `start_game`: for a known code, set the range, take `draw` as the
      target and reset the attempt count; for any other code, change nothing. */
  function Start(s: State, code: int, draw: int): (r: (State, StartOutcome))
    requires DrawFits(code, draw)
    ensures r.1.InvalidDifficulty? <==> RangeOf(code).None?
    ensures r.1.InvalidDifficulty? ==> r.0 == s
    ensures code == 1 ==> r.0.low == 1 && r.0.high == 50
    ensures code == 2 ==> r.0.low == 1 && r.0.high == 100
    ensures code == 3 ==> r.0.low == 1 && r.0.high == 200
    ensures r.1.Started? ==> r.1 == Started(r.0.low, r.0.high)
    ensures r.1.Started? ==> r.0.target == Some(draw) && r.0.attempts == 0
    ensures r.1.Started? ==> Valid(r.0)
    ensures Valid(s) ==> Valid(r.0)
  {
    match RangeOf(code)
    case None => (s, InvalidDifficulty)
    case Some((low, high)) => (State(Some(draw), 0, low, high), Started(low, high))
  }

  /** What `check_guess` reports. The counts carried by `TooLow`, `TooHigh`
      and `Correct` are the attempt numbers the messages show. */
  datatype Outcome =
    | NotStarted
    | EmptyInput
    | InvalidNumber
    | OutOfRange
    | TooLow(attempt: nat)
    | TooHigh(attempt: nat)
    | Correct(attempt: nat)
  {
    /** The guess parsed, so it was counted as an attempt. */
    predicate Counted() {
      OutOfRange? || TooLow? || TooHigh? || Correct?
    }

    /** The outcome reports an attempt number. */
    predicate Reports() {
      TooLow? || TooHigh? || Correct?
    }
  }

  /** `check_guess` on the entry text `text`. */
  function Check(s: State, text: string): (r: (State, Outcome))
    ensures r.1.NotStarted? <==> !Active(s)
    ensures !r.1.Counted() ==> r.0 == s
    ensures r.1.Counted() ==> r.0.attempts == s.attempts + 1
    ensures r.1.Reports() ==> r.1.attempt == r.0.attempts
    ensures r.0.low == s.low && r.0.high == s.high
    ensures r.0.target == (if r.1.Correct? then None else s.target)
    ensures r.1.Counted() <==> Active(s) && text != "" && IntParse.Parse(text).Some?
    ensures Valid(s) ==> Valid(r.0)
  {
    if s.target.None? then (s, NotStarted)
    else if text == "" then (s, EmptyInput)
    else
      var parsed := IntParse.Parse(text);
      if parsed.None? then (s, InvalidNumber) else Judge(s, parsed.value)
  }

  /** The part of `check_guess` after a successful parse: count the attempt,
      then classify the guess against the range and then the target. */
  function Judge(s: State, guess: int): (r: (State, Outcome))
    requires Active(s)
    ensures r.1.Counted()
    ensures r.0.attempts == s.attempts + 1
    ensures r.1.Reports() ==> r.1.attempt == r.0.attempts
    ensures r.0.low == s.low && r.0.high == s.high
    ensures r.0.target == (if r.1.Correct? then None else s.target)
    ensures Valid(s) ==> Valid(r.0)
  {
    var counted := s.(attempts := s.attempts + 1);
    var n := counted.attempts;
    if guess < s.low || guess > s.high then (counted, OutOfRange)
    else if guess < s.target.value then (counted, TooLow(n))
    else if guess > s.target.value then (counted, TooHigh(n))
    else (counted.(target := None), Correct(n))
  }

  /** With a game in progress, a guess that parses is classified by where
      it lies against the range and the target, each case exactly when its
      condition holds; out of range takes precedence, so such a guess is
      never correct. */
  lemma ClassifyGuess(s: State, text: string, guess: int)
    requires Valid(s) && Active(s)
    requires text != "" && IntParse.Parse(text) == Some(guess)
    ensures var o := Check(s, text).1;
      && (o == OutOfRange <==> guess < s.low || guess > s.high)
      && (o == TooLow(s.attempts + 1) <==> s.low <= guess < s.target.value)
      && (o == TooHigh(s.attempts + 1) <==> s.target.value < guess <= s.high)
      && (o == Correct(s.attempts + 1) <==> guess == s.target.value)
  {
  }

  /** The refusals come in the source's order: no game, then empty text,
      then text that is not an integer; only after these is an attempt counted. */
  lemma RefusalPrecedence(s: State, text: string)
    ensures !Active(s) ==> Check(s, text) == (s, NotStarted)
    ensures Active(s) && text == "" ==> Check(s, text) == (s, EmptyInput)
    ensures Active(s) && text != "" && IntParse.Parse(text).None? ==> Check(s, text) == (s, InvalidNumber)
  {
  }

  /** Text of whitespace alone is not "empty": it reaches the integer parse
      and is refused there, still without counting an attempt. */
  lemma BlankTextIsInvalid(s: State, text: string)
    requires Active(s) && text != "" && IntParse.AllSpace(text)
    ensures Check(s, text) == (s, InvalidNumber)
  {
    IntParse.BlankIsNotANumber(text);
  }

  /** Typing the digits of the target wins the game in progress, and the
      result reports the attempt count that includes this guess. */
  lemma TypingTargetWins(s: State)
    requires Valid(s) && Active(s)
    ensures Check(s, IntParse.ShowInt(s.target.value)) ==
      (s.(target := None, attempts := s.attempts + 1), Correct(s.attempts + 1))
  {
    var text := IntParse.ShowInt(s.target.value);
    IntParse.ShowLength(s.target.value, 3);
    IntParse.ParseShowInt(s.target.value);
    assert Check(s, text) == Judge(s, s.target.value);
  }

  /** Guessing the target wins, and the win is followed by refusals until
      the next start. */
  lemma WinEndsGame(s: State, later: string)
    requires Valid(s) && Active(s)
    ensures Judge(s, s.target.value).1 == Correct(s.attempts + 1)
    ensures Check(Judge(s, s.target.value).0, later) == (Judge(s, s.target.value).0, NotStarted)
  {
  }

  /** A restart in the middle of a game discards the old target and count. */
  lemma RestartDiscardsGame(s: State, code: int, draw: int)
    requires Active(s) && 1 <= code <= 3 && DrawFits(code, draw)
    ensures Start(s, code, draw).0 == State(Some(draw), 0, RangeOf(code).value.0, RangeOf(code).value.1)
  {
  }

  lemma InitialIsValid()
    ensures Valid(Initial) && !Active(Initial)
  {
  }
}
