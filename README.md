# Provably fair non-transitive dice — a Dafny model

This project models the game core of `dice_game.js`. The game is a
two-party dice game played in a terminal. The computer and the player
produce every random value together, using a commitment round:

- The computer picks a secret number and a fresh key.
- It shows MAC(key, decimal numeral of the secret) before the player answers.
- It discloses the key and the secret afterwards.

A game has these steps:

1. The dice given on the command line are validated.
2. A first-move round over 0..1: the player guesses the computer's bit,
   and a flag `userMovesFirst` is set when the guess misses.
3. The player picks one of the dice after the first; the first die is the
   computer's.
4. Two throw rounds over 0..5. In each, the player's number is added to the
   computer's modulo 6, and the sum indexes a die: first the computer's
   die, then the player's.
5. The higher face wins. Equal faces tie.

The model is functional, like the program: every step is a function of its
inputs. The modules are:

- `Decimal` (`decimal.dfy`): the decimal numeral that is committed to, and
  the `parseInt` of the all-digit strings a player types.
- `Commitment` (`commitment.dfy`): a round's key, secret and commitment,
  what it reveals, and the player's check. The MAC is a function-valued
  parameter `mac`.
- `Prompt` (`prompt.dfy`): JavaScript's `trim`, and how each prompt reads
  one line as exit, help, an error or an accepted answer.
- `DiceConfig` (`dice_config.dfy`): the dice validation, the order in
  which its errors are reported, and its messages.
- `FairValue` (`fair_value.dfy`): the first-move round, the throw round,
  and the combination `(computer + player) % 6`.
- `Game` (`game.dfy`): the whole game as a `Run` (failed, exited, help
  shown, or finished with everything the game discloses), and the
  winner rule.
- `Fairness` (`fairness.dfy`): whatever the player types, the number of
  pairs of computer numbers that make the player win stays the same.

The first-move flag (`userMovesFirst`, dice_game.js line 130) is computed
but neither printed nor used: only the bit and its key are printed. The
player always picks a die, and the computer always throws first.
`Game.MoveOrderDecidesNothing` states this. The model keeps the flag in
the `Played` record so that this can be stated.

An answer outside a prompt's allowed set throws an error. `playGame`
catches it, so the game ends with its message; no prompt is asked again.
The model returns `Failed(message)`.

The secrets come from `Math.random`, not from a cryptographic source. The
model takes them as parameters.

## Model

| member | source | states |
|---|---|---|
| Decimal.DecimalString | dice_game.js:43 | the numeral of a number is non-empty and all digits; it starts with '0' only for 0; it has one digit exactly below 10 |
| Decimal.ParseDecimalString | dice_game.js:43 | reading a numeral back gives the number it was written from |
| Decimal.DecimalStringOfParse | dice_game.js:67 | writing out the value of a canonical numeral gives the numeral back (with the line above, a bijection) |
| Decimal.DecimalStringInjective | dice_game.js:43 | distinct secrets are committed through distinct messages |
| Commitment.Begin | dice_game.js:41-43 | a round keeps its key and secret, and its commitment is one the pair verifies against |
| Commitment.RevealVerifies | dice_game.js:66 | the disclosed key and secret reproduce the commitment shown before the player answered |
| Commitment.Binding | dice_game.js:43 | with a MAC that is collision-free across keys and messages, no other secret opens a round's commitment, whatever key is disclosed with it |
| Prompt.Trim | dice_game.js:53 | the result is the slice of the line between its leading and trailing white space, every cut character being white space, and the result has none at either end |
| Prompt.TrimIdempotent | dice_game.js:53 | trimming twice is trimming once |
| Prompt.ClassifyDigit | dice_game.js:53-64 | exit iff the trimmed line is x or X; help iff it is ?; accepted iff it is one digit below the bound, whose value is returned; otherwise the given error |
| Prompt.ClassifyGuess | dice_game.js:53-64 | the first-move prompt accepts exactly "0" and "1" after trimming, returns their value, and reports exit, help and its own error message |
| Prompt.ClassifyThrow | dice_game.js:86-97 | the throw prompt accepts exactly one digit 0..5 after trimming, returns its value, and reports exit, help and its own error message |
| Prompt.ClassifyDiceChoice | dice_game.js:140-151 | the dice prompt accepts exactly a non-empty all-digit line whose value is below the number of dice offered, returns that value, and reports exit, help and its own error message |
| DiceConfig.CheckDiceFrom | dice_game.js:17-24 | the per-die loop succeeds iff every remaining die is valid, and otherwise reports the first invalid die, for its face count if that is wrong and for its values if not |
| DiceConfig.ValidateDice | dice_game.js:12-25 | valid iff 3 or 4 dice of 6 positive integers; a wrong dice count is reported exactly when the count is wrong; otherwise the first invalid die is reported |
| DiceConfig.ErrorMessageInjective | dice_game.js:14-22 | the error message determines the error, die number included |
| FairValue.Combine | dice_game.js:100 | the throw result is in 0..5 |
| FairValue.Uncombine | dice_game.js:100 | for each player number, every result in range comes from a computer number in range |
| FairValue.CombineInjective | dice_game.js:100 | for a fixed player number, distinct computer numbers give distinct results |
| FairValue.ExactlyOneSecretPerResult | dice_game.js:72-100 | each result is produced by exactly one computer number, so a uniform computer number gives a uniform result whatever the player enters |
| FairValue.FirstMoveEvenOdds | dice_game.js:42-67 | for each guess, exactly one of the two bits lets the player move first |
| FairValue.DetermineFirstMove | dice_game.js:40-68 | exit and help pass through; a guess is accepted iff it is "0" or "1"; the player moves first iff the guess differs from the bit; the bit and key are disclosed |
| FairValue.FairThrow | dice_game.js:70-105 | exit and help pass through; a number is accepted iff it is one digit 0..5; the result is (computer number + player number) mod 6; the number and key are disclosed |
| Game.DetermineWinner | dice_game.js:115-121 | the player wins iff the player's face is higher, the computer wins iff it is lower, tie iff equal |
| Game.WinnerSymmetric | dice_game.js:115-121 | swapping the faces swaps the winner and keeps a tie |
| Game.ThrowDice | dice_game.js:107-121 | the computer's round comes first and stops the game at that prompt if not accepted; then an unaccepted player answer stops it at the player's prompt; two accepted answers finish, each face being its own die read at its own round's result, compared by the winner rule |
| Game.FinishedDuel | dice_game.js:107-121 | two finished throws show results equal to each round's sum mod 6, faces read at those results, the winner of the two faces, and both rounds' disclosures |
| Game.ChooseAndThrow | dice_game.js:133-155 | an unaccepted dice choice stops the game at the dice prompt; after an accepted choice the game finishes exactly when the throws do, and otherwise stops where they stopped; a finished game chose an offered die by its accepted index, gave the computer die 0 and the player die index + 1 |
| Game.PlayWithDice | dice_game.js:130-155 | an answer to the first-move prompt that is not accepted stops the game at that prompt; an accepted one leads to the dice prompt |
| Game.PlayGame | dice_game.js:124-159 | an invalid configuration ends the game with its error message before any prompt; a valid one is played with its dice |
| Game.ExitBeforeAnyThrow | dice_game.js:53-57 | exit at the first prompt ends a valid game there |
| Game.FinishedGame | dice_game.js:124-159 | a finished game shows the chosen index as typed, the first-move rule, each result as its round's sum mod 6, the faces as configured at those results, the winner, and all three disclosures |
| Game.MoveOrderDecidesNothing | dice_game.js:130-155 | two accepted guesses lead to the same game except for the first-move flag |
| Game.ChooseAndThrowIgnoresMoveOrder | dice_game.js:133-155 | the part after the first-move round depends on that round only through its disclosure |
| Game.FinishedGameVerifies | dice_game.js:66-101 | every key and secret a finished game discloses verifies against the commitment its round showed |
| Game.ExampleGame | dice_game.js:124-159 | a worked game on the dice 2,2,4,4,9,9 / 1,1,6,6,8,8 / 3,3,5,5,7,7 is finished, with its results, faces and winner |
| Fairness.RowWinsUnbiased | dice_game.js:100-113 | the player's number in the player's throw round does not change how many computer numbers make the player win against a given face |
| Fairness.UserInputDoesNotBias | dice_game.js:100-113 | the player's number in the player's own throw round does not change the number of winning pairs of computer numbers |
| Fairness.ComputerRoundInputDoesNotBias | dice_game.js:100-108 | the player's number in the computer's throw round does not change that number either |
| Fairness.PlayerInputsDoNotBias | dice_game.js:100-121 | whatever the player enters in the two throw rounds, the number of winning pairs of computer numbers is the one for the face pairs themselves |

## Left out

- Console output, and reading a line with `readline-sync`: each prompt's line is a parameter. A finished game returns the values the program prints (throws, disclosures, winner) as data. The "Error: " prefix of the caught message is not modelled.
- A game stopped at a later prompt (`Failed`, `Exited`, `HelpShown`) carries only where and why it stopped. The program has by then already printed the first-move bit and key (line 66), and, when it stops at the player's throw prompt, the computer's number, key, result and face (lines 101-109). The model drops these.
- `process.exit()` at an exit command: the game ends with `Exited(stage)`.
- The help command re-asks by recursion, and the model stops with `HelpShown(stage)` instead. What the program does next depends on the prompt. At the first-move prompt (line 60) it repeats the first-move round with a fresh secret and key. At a throw prompt (line 93) it repeats only that throw round, with a fresh secret and key, in the same game. The first move, the dice choice and, at the player's prompt, the computer's throw all stand. At the dice prompt (line 147) it restarts the whole game, first-move round included. Only this last case is a new `PlayGame` call with new inputs. The other continuations are not modelled.
- `getRandomNumber` (`Math.random`) and `crypto.randomBytes`: the secrets and keys are parameters. Uniformity is stated by counting (`FairValue.ExactlyOneSecretPerResult`, `Fairness.PlayerInputsDoNotBias`), not with probabilities.
- `generateHMAC` (HMAC-SHA256): the MAC is a parameter. `Commitment.Binding` assumes that no two different messages have the same digest, under any keys. This is an idealisation of a cryptographic MAC.
- `displayHelpTable`: static text.
- Reading the command line with `split(",")` and `Number`: the configuration is given already split into faces. `Number` results that are not integers (fractions, NaN, infinities) are the single `NonInteger` face. The `Array.isArray` checks always pass on such input.
- `toLowerCase() === "x"` is modelled as the trimmed line being "x" or "X". Only these two strings lower-case to "x".
- Prompt.ClassifyDiceChoice: `parseInt` is modelled as the exact value of the digit string. JavaScript loses precision above 2^53. Such values are far above the number of dice offered, so the accept/reject verdict is the same.
