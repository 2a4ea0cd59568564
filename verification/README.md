# Number guessing game — game logic model

This project models the game logic of the `NumberGuessingGame` window: the four state fields
(`number_to_guess`, `attempts`, `low`, `high`) and the two transitions behind the
"Start/Restart Game" button (`start_game`) and the "Guess" button or Enter key (`check_guess`).
The tkinter widgets and popups are gone. Each transition is a pure function that returns the new
state together with an outcome value, which replaces the message a popup or label would show.

- `wrappers.dfy`: `Option`, used for Python's `None`.
- `int_parse.dfy` (`IntParse`): reading the entry text as an integer, by a subset of the grammar of CPython's `int`: ASCII whitespace, an optional sign and ASCII digits, without digit-group underscores.
  It skips surrounding whitespace, takes an optional sign, then reads 1 to 4300 decimal digits.
  4300 is CPython's default limit on converting text to an integer.
  The module proves that `Parse` accepts exactly these literals.
  It also holds a decimal printer (`ShowInt`) that the parser is proved to read back.
- `game.dfy` (`Game`): the state, the difficulty table, `Start` (`start_game`) and `Check` (`check_guess`).
  It also holds the lemmas about single transitions.
- `session.dfy` (`Session`): `Run` submits a sequence of texts one after another.
  Its lemmas cover whole runs: how attempts are counted, what a win reports, and refusal after a win.
  It also holds the worked "target 37" game.

The target's random draw (`random.randint`) is a parameter `draw` of `Start`.
A precondition states that the draw lies in the chosen range, as `randint` guarantees.

Points where the code's behaviour may be unexpected:
- Only the exact empty text counts as "empty input" (`if not guess_str`).
  Text made only of whitespace goes on to `int` and is refused there as an invalid number.
  Both cases leave the state unchanged (`Game.BlankTextIsInvalid`).
- A difficulty is the integer code carried by the radio buttons.
  Any code other than 1, 2 or 3 is refused and changes no field, even during a game in progress.
- A win clears the target but keeps `attempts`, `low` and `high`. The state starts at `low = high = 0`.

## Model

| member | source | states |
|---|---|---|
| Game.InitialIsValid | gui_no_guessing_game.py:48-51 | The constructor's state has no game in progress and meets the state invariant. |
| Game.RangeOf | gui_no_guessing_game.py:58-67 | A difficulty code is accepted exactly when it is 1, 2 or 3. An accepted code yields one of the three ranges, each starting at 1. |
| Game.Start | gui_no_guessing_game.py:57-70 | Codes 1, 2 and 3 set the range to (1,50), (1,100) and (1,200), take the draw as the target and reset attempts to 0. They report the range, and the resulting state meets the invariant. Any other code reports an invalid difficulty and returns the state unchanged. |
| Game.RestartDiscardsGame | gui_no_guessing_game.py:69-70 | Starting during a game replaces the old target and count with the new draw and zero. |
| Game.Check | gui_no_guessing_game.py:77-109 | The guess is refused as "not started" exactly when no target is present. A guess counts an attempt exactly when a game is in progress and the text is non-empty and parses. A refused guess changes nothing. A counted guess adds exactly one attempt. Reported attempt numbers equal the new count. The range never changes. Only a correct guess clears the target. The invariant is preserved. |
| Game.Judge | gui_no_guessing_game.py:90-106 | A parsed guess is always counted, adds one attempt and keeps the range. It keeps the target unless it is correct, and it preserves the invariant. |
| Game.ClassifyGuess | gui_no_guessing_game.py:92-98 | For a parsed guess in a valid game, each outcome holds exactly when its condition holds. Out of range iff outside [low, high]. Too low iff in range and below the target. Too high iff in range and above it. Correct iff equal to the target. So an out-of-range guess is never correct. |
| Game.RefusalPrecedence | gui_no_guessing_game.py:79-89 | The refusals come in order: no game first, then empty text, then text that does not parse. Each returns the state unchanged. |
| Game.BlankTextIsInvalid | gui_no_guessing_game.py:85-89 | Non-empty whitespace-only text passes the emptiness test but fails the parse. It yields an invalid number with the state unchanged. |
| Game.TypingTargetWins | gui_no_guessing_game.py:98-102 | Typing the target's decimal form wins. It clears the target and reports the count including this guess. |
| Game.WinEndsGame | gui_no_guessing_game.py:98-102 | A parsed guess equal to the target is correct on the next attempt number. Right after that win, any further guess is refused as "not started" and changes nothing. |
| IntParse.StripLeft | gui_no_guessing_game.py:89 | Leading whitespace removal keeps a suffix of the text. Everything dropped is whitespace, and what remains does not start with whitespace. |
| IntParse.StripRight | gui_no_guessing_game.py:89 | Trailing whitespace removal keeps a prefix of the text. Everything dropped is whitespace, and what remains does not end with whitespace. |
| IntParse.Parse | gui_no_guessing_game.py:89 | An accepted text contains a decimal digit. A string of 1 to 4300 digits reads as its decimal value. |
| IntParse.ParseExactlyLiterals | gui_no_guessing_game.py:89 | `Parse` returns `Some(v)` if and only if the text is whitespace, an optional `+` or `-`, 1 to 4300 digits, then whitespace, with value `v`. Every other text is refused. That includes every text on which Python's `int` raises `ValueError`, and also underscore-grouped or non-ASCII text that Python accepts. |
| IntParse.ParseReadsLiteral | gui_no_guessing_game.py:89 | Every whitespace-padded, optionally signed literal of 1 to 4300 digits reads as its signed decimal value. |
| IntParse.ParseOnlyLiterals | gui_no_guessing_game.py:89 | Every text `Parse` accepts is such a literal, and the value read is that literal's value. |
| IntParse.ParseShowInt | gui_no_guessing_game.py:89 | Every integer of at most 4300 digits, written in decimal with a leading `-` when negative, reads back as itself. |
| IntParse.ParseIgnoresSurroundingSpace | gui_no_guessing_game.py:89 | Whitespace added before or after the text does not change the number read. |
| IntParse.BlankIsNotANumber | gui_no_guessing_game.py:89 | Text made only of whitespace, including the empty text, is not a number. |
| Session.Run | gui_no_guessing_game.py:77-112 | Submitting a sequence of texts gives one outcome per text and preserves the invariant and the range. Without a game in progress, every outcome is "not started" and the state is unchanged. |
| Session.RunCountsAttempts | gui_no_guessing_game.py:89-90 | Over any run, the attempt counter grows by exactly the number of outcomes that counted an attempt. |
| Session.RunReportsCount | gui_no_guessing_game.py:90-99 | Every attempt number a run reports is the count before the run plus the counted outcomes up to and including that one. |
| Session.RunEndsAtWin | gui_no_guessing_game.py:98-106 | After the winning guess of a run, every later guess is refused as "not started", and the run ends with no game in progress. |
| Session.WinCountSinceStart | gui_no_guessing_game.py:69-99 | After a successful start, the count a win reports is the number of attempts counted since that start. |
| Session.EasyScenario | gui_no_guessing_game.py:59-106 | In an easy game with target 37, "20" is too low on attempt 1 and "45" is too high on attempt 2. "37" is correct on attempt 3 and clears the target. |
| Session.EmptyFirstGuess | gui_no_guessing_game.py:85-87 | Empty text as the first guess of a fresh game is refused, and attempts stay at 0. |

## Left out

- All tkinter work is left out. This covers the window, style, layout, enabling and disabling the entry and button, focus, clearing the entry and key bindings. None of it affects the state fields.
- Popup and label texts are left out. Each is represented by an `Outcome` or `StartOutcome` value.
- `random.randint` is not modelled. The draw is a parameter whose precondition places it in the range, and uniformity is not modelled.
- IntParse.Parse: fixes the digit limit at CPython's default of 4300. Setting `PYTHONINTMAXSTRDIGITS`, calling `sys.set_int_max_str_digits`, or running on a Python release without the limit changes it, and the model does not follow that.
- IntParse.Parse: models only part of Python's `int` on text. It accepts ASCII whitespace (space, tab, line feed, vertical tab, form feed, carriage return), an optional sign and ASCII decimal digits. It refuses digit-group underscores, non-ASCII digits and non-ASCII whitespace, which Python's `int` accepts.
- The `__main__` event loop is left out. `Session.Run` stands for a sequence of button presses.
- Reading `difficulty_var` is left out. The `code` parameter of `Start` replaces it.
