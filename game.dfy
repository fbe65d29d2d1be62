/** One game: validate the dice, play the first-move round, let the player
    pick a die among all but the first (the first is the computer's), play
    the computer's throw round and then the player's, and compare the two
    faces. Each prompt takes one line of input here; the rounds' keys and
    secrets are parameters. */
module Game {
  import opened Decimal
  import opened Commitment
  import opened Prompt
  import opened DiceConfig
  import opened FairValue

  /** A validated die: six face values. */
  type Die = d: seq<int> | |d| == 6 witness [1, 1, 1, 1, 1, 1]

  function DieOf(faces: seq<Face>): Die
    requires IsValidDie(faces)
  {
    seq(6, k requires 0 <= k < 6 => faces[k].value)
  }

  /** The die of a valid face list shows the same positive values. */
  lemma DieOfFace(faces: seq<Face>, k: nat)
    requires IsValidDie(faces) && k < 6
    ensures faces[k] == Integer(DieOf(faces)[k]) && DieOf(faces)[k] > 0
  {
  }

  datatype Outcome = UserWins | ComputerWins | Tie

  /** The higher face wins; equal faces tie. */
  function DetermineWinner(userFace: int, computerFace: int): (o: Outcome)
    ensures o == UserWins <==> userFace > computerFace
    ensures o == ComputerWins <==> userFace < computerFace
    ensures o == Tie <==> userFace == computerFace
  {
    if userFace > computerFace then UserWins
    else if userFace < computerFace then ComputerWins
    else Tie
  }

  /** The rule is the same from either side: swapping the two faces swaps
      the winner and keeps a tie. */
  lemma WinnerSymmetric(userFace: int, computerFace: int)
    ensures DetermineWinner(userFace, computerFace) == UserWins <==> DetermineWinner(computerFace, userFace) == ComputerWins
    ensures DetermineWinner(userFace, computerFace) == Tie <==> DetermineWinner(computerFace, userFace) == Tie
  {
  }

  /** The prompt at which a game stopped for exit or help. */
  datatype Stage = FirstMoveStage | DiceChoiceStage | ComputerThrowStage | UserThrowStage

  /** How a part of the game ends: an error message (the program catches it
      and prints it), an exit, a help request (the program shows its table
      and asks again: that round afresh, or at the dice prompt the whole game), or a value. */
  datatype Run<T> =
    | Failed(message: string)
    | Exited(at: Stage)
    | HelpShown(at: Stage)
    | Finished(value: T)

  /** A prompt answer that was not accepted, as a way the game stops. */
  function Interrupted<T, U>(a: Answer<T>, at: Stage): (r: Run<U>)
    requires !a.Accepted?
    ensures !r.Finished?
    ensures r.Exited? <==> a.Exit?
    ensures r.HelpShown? <==> a.Help?
    ensures r.Failed? <==> a.Invalid?
    ensures r.Failed? ==> r.message == a.message
    ensures !r.Failed? ==> r.at == at
  {
    match a
    case Exit => Exited(at)
    case Help => HelpShown(at)
    case Invalid(m) => Failed(m)
  }

  /** The two throws and their comparison. */
  datatype Duel = Duel(computerThrow: Throw, userThrow: Throw,
                       computerFace: int, userFace: int, outcome: Outcome)

  /** The computer's throw round first, then the player's; each die is read
      at the result of its own round, and the faces are compared. */
  function ThrowDice(userDie: Die, computerDie: Die, computer: Round, user: Round,
                     computerInput: string, userInput: string): (r: Run<Duel>)
    requires computer.secret < Modulus && user.secret < Modulus
    ensures !FairThrow(computer, computerInput).Accepted? ==>
      r == Interrupted(FairThrow(computer, computerInput), ComputerThrowStage)
    ensures FairThrow(computer, computerInput).Accepted? && !FairThrow(user, userInput).Accepted? ==>
      r == Interrupted(FairThrow(user, userInput), UserThrowStage)
    ensures FairThrow(computer, computerInput).Accepted? && FairThrow(user, userInput).Accepted? ==>
      r.Finished?
    ensures r.Finished? ==>
      var d := r.value;
      && FairThrow(computer, computerInput) == Accepted(d.computerThrow)
      && FairThrow(user, userInput) == Accepted(d.userThrow)
      && d.computerFace == computerDie[d.computerThrow.result]
      && d.userFace == userDie[d.userThrow.result]
      && d.outcome == DetermineWinner(d.userFace, d.computerFace)
  {
    match FairThrow(computer, computerInput)
    case Accepted(ct) =>
      (match FairThrow(user, userInput)
       case Accepted(ut) =>
         var computerFace, userFace := computerDie[ct.result], userDie[ut.result];
         Finished(Duel(ct, ut, computerFace, userFace, DetermineWinner(userFace, computerFace)))
       case _ => Interrupted(FairThrow(user, userInput), UserThrowStage))
    case _ => Interrupted(FairThrow(computer, computerInput), ComputerThrowStage)
  }

  /** A game stopped in the middle of its throws stops the whole game. */
  function Restage<T, U>(r: Run<T>): (r': Run<U>)
    requires !r.Finished?
    ensures !r'.Finished?
    ensures r.Failed? ==> r' == Failed(r.message)
    ensures r.Exited? ==> r' == Exited(r.at)
    ensures r.HelpShown? ==> r' == HelpShown(r.at)
  {
    match r
    case Failed(m) => Failed(m)
    case Exited(at) => Exited(at)
    case HelpShown(at) => HelpShown(at)
  }

  /** A game played to the end. `userMovesFirst` is computed but neither
      shown nor used: the player always picks, and the computer always
      throws first. */
  datatype Played = Played(userMovesFirst: bool, firstMoveReveal: Reveal, userChoice: nat, duel: Duel)

  /** The keys, secrets and commitments of the three rounds of a game. */
  predicate RoundsInRange(order: Round, computer: Round, user: Round) {
    order.secret <= 1 && computer.secret < Modulus && user.secret < Modulus
  }

  /** The dice of a valid configuration. */
  function DiceOf(config: seq<seq<Face>>): (dice: seq<Die>)
    requires IsValidConfiguration(config)
    ensures |dice| == |config|
  {
    seq(|config|, i requires 0 <= i < |config| => DieOf(config[i]))
  }

  /** The part of the game after the first-move round: the dice prompt,
      which offers every die but the first, then the two throws with the
      first die for the computer and the chosen one for the player. */
  function ChooseAndThrow(dice: seq<Die>, first: FirstMove, computer: Round, user: Round,
                          choiceInput: string, computerInput: string, userInput: string): (r: Run<Played>)
    requires |dice| > 0 && computer.secret < Modulus && user.secret < Modulus
    ensures !ClassifyDiceChoice(choiceInput, |dice| - 1).Accepted? ==>
      r == Interrupted(ClassifyDiceChoice(choiceInput, |dice| - 1), DiceChoiceStage)
    ensures ClassifyDiceChoice(choiceInput, |dice| - 1).Accepted? ==>
      var duel := ThrowDice(dice[ClassifyDiceChoice(choiceInput, |dice| - 1).value + 1], dice[0],
                            computer, user, computerInput, userInput);
      && (r.Finished? <==> duel.Finished?)
      && (!duel.Finished? ==> r == Restage(duel))
    ensures r.Finished? ==>
      var g := r.value;
      && g.userMovesFirst == first.userMovesFirst && g.firstMoveReveal == first.disclosure
      && ClassifyDiceChoice(choiceInput, |dice| - 1) == Accepted(g.userChoice)
      && g.userChoice + 1 < |dice|
      && ThrowDice(dice[g.userChoice + 1], dice[0], computer, user, computerInput, userInput)
         == Finished(g.duel)
  {
    var choice := ClassifyDiceChoice(choiceInput, |dice| - 1);
    if !choice.Accepted? then Interrupted(choice, DiceChoiceStage)
    else
      var duel := ThrowDice(dice[choice.value + 1], dice[0], computer, user, computerInput, userInput);
      if duel.Finished? then
        Finished(Played(first.userMovesFirst, first.disclosure, choice.value, duel.value))
      else
        Restage(duel)
  }

  /** The game once the dice are known to be valid: the first-move prompt,
      then the rest. */
  function PlayWithDice(dice: seq<Die>, order: Round, computer: Round, user: Round,
                        guessInput: string, choiceInput: string,
                        computerInput: string, userInput: string): (r: Run<Played>)
    requires |dice| > 0 && RoundsInRange(order, computer, user)
    ensures !DetermineFirstMove(order, guessInput).Accepted? ==>
      r == Interrupted(DetermineFirstMove(order, guessInput), FirstMoveStage)
    ensures DetermineFirstMove(order, guessInput).Accepted? ==>
      r == ChooseAndThrow(dice, DetermineFirstMove(order, guessInput).value, computer, user,
                          choiceInput, computerInput, userInput)
  {
    var firstMove := DetermineFirstMove(order, guessInput);
    if !firstMove.Accepted? then Interrupted(firstMove, FirstMoveStage)
    else ChooseAndThrow(dice, firstMove.value, computer, user, choiceInput, computerInput, userInput)
  }

  /** The whole game: the dice are validated before anything is asked, and
      an invalid configuration ends the game with its error message. */
  function PlayGame(config: seq<seq<Face>>, order: Round, computer: Round, user: Round,
                    guessInput: string, choiceInput: string,
                    computerInput: string, userInput: string): (r: Run<Played>)
    requires RoundsInRange(order, computer, user)
    ensures ValidateDice(config).Invalid? ==> r == Failed(ErrorMessage(ValidateDice(config).error))
    ensures IsValidConfiguration(config) ==>
      r == PlayWithDice(DiceOf(config), order, computer, user, guessInput, choiceInput, computerInput, userInput)
  {
    match ValidateDice(config)
    case Invalid(e) => Failed(ErrorMessage(e))
    case Valid => PlayWithDice(DiceOf(config), order, computer, user, guessInput, choiceInput, computerInput, userInput)
  }

  /** An exit at the first prompt of a valid game ends it before any die is
      chosen or thrown. */
  lemma ExitBeforeAnyThrow(config: seq<seq<Face>>, order: Round, computer: Round, user: Round,
                           guessInput: string, choiceInput: string, computerInput: string, userInput: string)
    requires RoundsInRange(order, computer, user)
    requires IsValidConfiguration(config) && IsExit(Trim(guessInput))
    ensures PlayGame(config, order, computer, user, guessInput, choiceInput, computerInput, userInput)
         == Exited(FirstMoveStage)
  {
  }

  /** What a finished game shows, in terms of the configuration and the
      rounds: the computer's face is on the first die and the player's on
      the chosen one, each at the sum modulo 6 of its round's two numbers,
      and the winner is the higher face. */
  lemma FinishedGame(config: seq<seq<Face>>, order: Round, computer: Round, user: Round,
                     guessInput: string, choiceInput: string, computerInput: string, userInput: string)
    requires RoundsInRange(order, computer, user)
    requires PlayGame(config, order, computer, user, guessInput, choiceInput, computerInput, userInput).Finished?
    ensures var g := PlayGame(config, order, computer, user, guessInput, choiceInput, computerInput, userInput).value;
      var d := g.duel;
      && g.userChoice + 1 < |config|
      && g.userChoice == ParseDecimal(Trim(choiceInput))
      && (g.userMovesFirst <==> ParseDecimal(Trim(guessInput)) != order.secret)
      && d.computerThrow.result == (computer.secret + ParseDecimal(Trim(computerInput))) % 6
      && d.userThrow.result == (user.secret + ParseDecimal(Trim(userInput))) % 6
      && config[0][d.computerThrow.result] == Integer(d.computerFace)
      && config[g.userChoice + 1][d.userThrow.result] == Integer(d.userFace)
      && (d.outcome == UserWins <==> d.userFace > d.computerFace)
      && (d.outcome == ComputerWins <==> d.userFace < d.computerFace)
      && (d.outcome == Tie <==> d.userFace == d.computerFace)
      && g.firstMoveReveal == RevealOf(order)
      && d.computerThrow.disclosure == RevealOf(computer)
      && d.userThrow.disclosure == RevealOf(user)
  {
    assert IsValidConfiguration(config);
    var dice := DiceOf(config);
    var first := DetermineFirstMove(order, guessInput);
    assert first.Accepted?;
    var r := ChooseAndThrow(dice, first.value, computer, user, choiceInput, computerInput, userInput);
    assert r == PlayGame(config, order, computer, user, guessInput, choiceInput, computerInput, userInput);
    var g := r.value;
    FinishedDuel(dice[g.userChoice + 1], dice[0], computer, user, computerInput, userInput, g.duel);
    DieOfFace(config[0], g.duel.computerThrow.result);
    DieOfFace(config[g.userChoice + 1], g.duel.userThrow.result);
  }

  /** What two finished throws show: each result is the sum modulo 6 of
      its round's numbers, each face is read at its own result, and each
      round's secret and key are disclosed. */
  lemma FinishedDuel(userDie: Die, computerDie: Die, computer: Round, user: Round,
                     computerInput: string, userInput: string, d: Duel)
    requires computer.secret < Modulus && user.secret < Modulus
    requires ThrowDice(userDie, computerDie, computer, user, computerInput, userInput) == Finished(d)
    ensures d.computerThrow.result == (computer.secret + ParseDecimal(Trim(computerInput))) % 6
    ensures d.userThrow.result == (user.secret + ParseDecimal(Trim(userInput))) % 6
    ensures d.computerFace == computerDie[d.computerThrow.result]
    ensures d.userFace == userDie[d.userThrow.result]
    ensures d.outcome == DetermineWinner(d.userFace, d.computerFace)
    ensures d.computerThrow.disclosure == RevealOf(computer) && d.userThrow.disclosure == RevealOf(user)
  {
    assert FairThrow(computer, computerInput) == Accepted(d.computerThrow);
    assert FairThrow(user, userInput) == Accepted(d.userThrow);
  }

  /** The move-order result is informational: two accepted guesses lead to
      the same game except for the unused first-move flag. */
  lemma MoveOrderDecidesNothing(config: seq<seq<Face>>, order: Round, computer: Round, user: Round,
                                guess1: string, guess2: string, choiceInput: string,
                                computerInput: string, userInput: string)
    requires RoundsInRange(order, computer, user)
    requires ClassifyGuess(guess1).Accepted? && ClassifyGuess(guess2).Accepted?
    ensures var r1 := PlayGame(config, order, computer, user, guess1, choiceInput, computerInput, userInput);
            var r2 := PlayGame(config, order, computer, user, guess2, choiceInput, computerInput, userInput);
            && (r1.Finished? <==> r2.Finished?)
            && (r1.Finished? ==> r1.value.(userMovesFirst := r2.value.userMovesFirst) == r2.value)
            && (!r1.Finished? ==> r1 == r2)
  {
    if IsValidConfiguration(config) {
      var dice := DiceOf(config);
      var f1, f2 := DetermineFirstMove(order, guess1), DetermineFirstMove(order, guess2);
      assert f1.Accepted? && f2.Accepted? && f1.value.disclosure == f2.value.disclosure;
      ChooseAndThrowIgnoresMoveOrder(dice, f1.value, f2.value, computer, user, choiceInput, computerInput, userInput);
    }
  }

  /** The rest of the game reads nothing of the first-move round but its
      disclosure. */
  lemma ChooseAndThrowIgnoresMoveOrder(dice: seq<Die>, first1: FirstMove, first2: FirstMove,
                                       computer: Round, user: Round,
                                       choiceInput: string, computerInput: string, userInput: string)
    requires |dice| > 0 && computer.secret < Modulus && user.secret < Modulus
    requires first1.disclosure == first2.disclosure
    ensures var r1 := ChooseAndThrow(dice, first1, computer, user, choiceInput, computerInput, userInput);
            var r2 := ChooseAndThrow(dice, first2, computer, user, choiceInput, computerInput, userInput);
            && (r1.Finished? <==> r2.Finished?)
            && (r1.Finished? ==> r1.value.(userMovesFirst := r2.value.userMovesFirst) == r2.value)
            && (!r1.Finished? ==> r1 == r2)
  {
  }

  /** Rounds started with the MAC `mac`: each commitment was computed from
      its round's key and secret. */
  predicate BegunWith(mac: Mac, r: Round) {
    r == Begin(mac, r.key, r.secret)
  }

  /** Every pair a finished game discloses reproduces the commitment shown
      before the player answered in that round. */
  lemma FinishedGameVerifies(mac: Mac, config: seq<seq<Face>>, order: Round, computer: Round, user: Round,
                             guessInput: string, choiceInput: string, computerInput: string, userInput: string)
    requires RoundsInRange(order, computer, user)
    requires BegunWith(mac, order) && BegunWith(mac, computer) && BegunWith(mac, user)
    requires PlayGame(config, order, computer, user, guessInput, choiceInput, computerInput, userInput).Finished?
    ensures var g := PlayGame(config, order, computer, user, guessInput, choiceInput, computerInput, userInput).value;
      && Verifies(mac, g.firstMoveReveal.key, g.firstMoveReveal.secret, order.commitment)
      && Verifies(mac, g.duel.computerThrow.disclosure.key, g.duel.computerThrow.disclosure.secret, computer.commitment)
      && Verifies(mac, g.duel.userThrow.disclosure.key, g.duel.userThrow.disclosure.secret, user.commitment)
  {
    FinishedGame(config, order, computer, user, guessInput, choiceInput, computerInput, userInput);
  }

  /** A worked game with the dice 2,2,4,4,9,9 / 1,1,6,6,8,8 / 3,3,5,5,7,7:
      the computer holds bit 0 and the player guesses 1, so the unused
      first-move flag is true; the player picks die 0 of those offered, that is
      1,1,6,6,8,8; the computer's number 3 plus the player's 2 gives index 5
      and face 9 on the computer's die; the computer's number 1 plus the
      player's 4 gives index 5 and face 8 on the player's die; the computer
      wins. */
  lemma ExampleGame(order: Round, computer: Round, user: Round)
    requires order.secret == 0 && computer.secret == 3 && user.secret == 1
    ensures var r := PlayGame(ExampleDice(), order, computer, user, "1", "0", "2", "4");
      && r.Finished?
      && r.value.userMovesFirst
      && r.value.userChoice == 0
      && r.value.duel.computerThrow.result == 5 && r.value.duel.computerFace == 9
      && r.value.duel.userThrow.result == 5 && r.value.duel.userFace == 8
      && r.value.duel.outcome == ComputerWins
  {
    ExampleDiceValid();
    var dice := DiceOf(ExampleDice());
    TrimKeeps("0");
    TrimKeeps("1");
    ParseDigit('0');
    ParseDigit('1');
    var first := DetermineFirstMove(order, "1");
    assert first == Accepted(FirstMove(true, RevealOf(order)));
    assert ClassifyDiceChoice("0", 2) == Accepted(0);
    var duel := ExampleDuel(computer, user);
    assert ChooseAndThrow(dice, first.value, computer, user, "0", "2", "4")
        == Finished(Played(true, RevealOf(order), 0, duel));
  }

  lemma ExampleDiceValid()
    ensures IsValidConfiguration(ExampleDice())
    ensures DiceOf(ExampleDice())[0] == [2, 2, 4, 4, 9, 9]
    ensures DiceOf(ExampleDice())[1] == [1, 1, 6, 6, 8, 8]
  {
    assert IsValidConfiguration(ExampleDice());
  }

  /** The two throws of the worked game. */
  lemma ExampleDuel(computer: Round, user: Round) returns (duel: Duel)
    requires computer.secret == 3 && user.secret == 1
    ensures duel == Duel(Throw(2, 5, RevealOf(computer)), Throw(4, 5, RevealOf(user)), 9, 8, ComputerWins)
    ensures ThrowDice([1, 1, 6, 6, 8, 8], [2, 2, 4, 4, 9, 9], computer, user, "2", "4") == Finished(duel)
  {
    TrimKeeps("2");
    TrimKeeps("4");
    ParseDigit('2');
    ParseDigit('4');
    assert FairThrow(computer, "2") == Accepted(Throw(2, 5, RevealOf(computer)));
    assert FairThrow(user, "4") == Accepted(Throw(4, 5, RevealOf(user)));
    duel := Duel(Throw(2, 5, RevealOf(computer)), Throw(4, 5, RevealOf(user)), 9, 8, ComputerWins);
  }

  /** The dice of the worked game: 2,2,4,4,9,9 for the computer, then
      1,1,6,6,8,8 and 3,3,5,5,7,7. */
  function ExampleDice(): seq<seq<Face>> {
    [[Integer(2), Integer(2), Integer(4), Integer(4), Integer(9), Integer(9)],
     [Integer(1), Integer(1), Integer(6), Integer(6), Integer(8), Integer(8)],
     [Integer(3), Integer(3), Integer(5), Integer(5), Integer(7), Integer(7)]]
  }
}
