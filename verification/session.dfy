/** A run of guesses submitted one after another against the game state,
    and what holds of the whole run: every reported count is the number of
    attempts counted since the last start, and after a win every further
    guess is refused. */
module Session {
  import opened Wrappers
  import IntParse
  import opened Game

  /** The state after submitting each text of `texts` in order, and the
      outcome of each submission. */
  function Run(s: State, texts: seq<string>): (r: (State, seq<Outcome>))
    ensures |r.1| == |texts|
    ensures Valid(s) ==> Valid(r.0)
    ensures r.0.low == s.low && r.0.high == s.high
    ensures !Active(s) ==> r.0 == s && forall i :: 0 <= i < |r.1| ==> r.1[i] == NotStarted
    decreases |texts|
  {
    if |texts| == 0 then (s, [])
    else
      var step := Check(s, texts[0]);
      var rest := Run(step.0, texts[1..]);
      (rest.0, [step.1] + rest.1)
  }

  /** How many of `outcomes` counted an attempt. */
  function CountedIn(outcomes: seq<Outcome>): nat
    decreases |outcomes|
  {
    if |outcomes| == 0 then 0
    else (if outcomes[0].Counted() then 1 else 0) + CountedIn(outcomes[1..])
  }

  /** The attempt counter grows by exactly the number of counted outcomes. */
  lemma {:induction false} RunCountsAttempts(s: State, texts: seq<string>)
    ensures Run(s, texts).0.attempts == s.attempts + CountedIn(Run(s, texts).1)
    decreases |texts|
  {
    if |texts| > 0 {
      var step := Check(s, texts[0]);
      var r := Run(s, texts);
      assert r.1[1..] == Run(step.0, texts[1..]).1;
      RunCountsAttempts(step.0, texts[1..]);
    }
  }

  /** Every count a run reports is the state's count before the run plus the
      counted outcomes up to and including the reporting one. */
  lemma {:induction false} RunReportsCount(s: State, texts: seq<string>, i: nat)
    requires i < |texts| && Run(s, texts).1[i].Reports()
    ensures Run(s, texts).1[i].attempt == s.attempts + CountedIn(Run(s, texts).1[..i + 1])
    decreases |texts|
  {
    var step := Check(s, texts[0]);
    var rest := Run(step.0, texts[1..]);
    var os := Run(s, texts).1;
    assert os == [step.1] + rest.1;
    if i == 0 {
      assert os[..1] == [step.1];
      assert os[..1][1..] == [];
    } else {
      assert os[i] == rest.1[i - 1];
      RunReportsCount(step.0, texts[1..], i - 1);
      assert os[..i + 1][1..] == rest.1[..i];
    }
  }

  /** Once a guess wins, every later guess of the run is refused and the
      run ends with no game in progress. */
  lemma {:induction false} RunEndsAtWin(s: State, texts: seq<string>, i: nat)
    requires i < |texts| && Run(s, texts).1[i].Correct?
    ensures forall j :: i < j < |texts| ==> Run(s, texts).1[j] == NotStarted
    ensures !Active(Run(s, texts).0)
    decreases |texts|
  {
    var step := Check(s, texts[0]);
    var rest := Run(step.0, texts[1..]);
    var os := Run(s, texts).1;
    assert os == [step.1] + rest.1;
    if i == 0 {
      assert !Active(step.0);
      forall j | 0 < j < |texts|
        ensures os[j] == NotStarted
      {
        assert os[j] == rest.1[j - 1];
      }
    } else {
      assert os[i] == rest.1[i - 1];
      RunEndsAtWin(step.0, texts[1..], i - 1);
      forall j | i < j < |texts|
        ensures os[j] == NotStarted
      {
        assert os[j] == rest.1[j - 1];
      }
    }
  }

  /** After a successful start, the count a win reports is the number of
      attempts counted since that start. */
  lemma WinCountSinceStart(s: State, code: int, draw: int, texts: seq<string>, i: nat)
    requires 1 <= code <= 3 && DrawFits(code, draw)
    requires i < |texts| && Run(Start(s, code, draw).0, texts).1[i].Correct?
    ensures Run(Start(s, code, draw).0, texts).1[i].attempt ==
      CountedIn(Run(Start(s, code, draw).0, texts).1[..i + 1])
  {
    RunReportsCount(Start(s, code, draw).0, texts, i);
  }

  /** Easy game with target 37: "20" is too low on attempt 1, "45" too high
      on attempt 2, "37" correct on attempt 3, which ends the game. */
  lemma EasyScenario()
    ensures Start(Initial, 1, 37) == (State(Some(37), 0, 1, 50), Started(1, 50))
    ensures Check(State(Some(37), 0, 1, 50), "20") == (State(Some(37), 1, 1, 50), TooLow(1))
    ensures Check(State(Some(37), 1, 1, 50), "45") == (State(Some(37), 2, 1, 50), TooHigh(2))
    ensures Check(State(Some(37), 2, 1, 50), "37") == (State(None, 3, 1, 50), Correct(3))
  {
    ParseTwoDigits("20", 20);
    ParseTwoDigits("45", 45);
    ParseTwoDigits("37", 37);
  }

  /** A two-digit text reads as its decimal value. */
  lemma ParseTwoDigits(text: string, n: int)
    requires |text| == 2 && IntParse.IsDigit(text[0]) && IntParse.IsDigit(text[1])
    requires n == 10 * IntParse.DigitValue(text[0]) + IntParse.DigitValue(text[1])
    ensures IntParse.Parse(text) == Some(n)
  {
    assert IntParse.AllDigits(text);
    var head := text[..1];
    assert head[..0] == [] && head[0] == text[0];
    assert IntParse.DigitsValue(head) == IntParse.DigitValue(text[0]);
    assert text[..|text| - 1] == head;
    assert IntParse.DigitsValue(text) == n;
  }

  /** Submitting empty text before any guess of a fresh game is refused and
      the attempt count stays at zero. */
  lemma EmptyFirstGuess(code: int, draw: int)
    requires 1 <= code <= 3 && DrawFits(code, draw)
    ensures Check(Start(Initial, code, draw).0, "").1 == EmptyInput
    ensures Check(Start(Initial, code, draw).0, "").0.attempts == 0
  {
  }
}
