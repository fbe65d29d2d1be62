/** The two rounds built on a commitment: the first-move round, where the
    player guesses the computer's bit, and the throw round, where the
    player's number is added to the computer's modulo 6. The computer's
    secret and key are parameters (the program draws them at random). */
module FairValue {
  import opened Decimal
  import opened Commitment
  import opened Prompt

  const Modulus := 6

  /** The throw result: the two numbers added modulo 6. Both numbers are
      naturals, so the remainder agrees with the program's `%`. */
  function Combine(computerNumber: nat, userNumber: nat): (r: nat)
    ensures r < Modulus
  {
    (computerNumber + userNumber) % Modulus
  }

  /** The computer number that, with the player's number `userNumber`,
      produces `result`. */
  function Uncombine(result: nat, userNumber: nat): (c: nat)
    requires result < Modulus && userNumber < Modulus
    ensures c < Modulus && Combine(c, userNumber) == result
  {
    (result + Modulus - userNumber) % Modulus
  }

  /** For a fixed player number, different computer numbers in range give
      different results. */
  lemma CombineInjective(c1: nat, c2: nat, userNumber: nat)
    requires c1 < Modulus && c2 < Modulus
    requires Combine(c1, userNumber) == Combine(c2, userNumber)
    ensures c1 == c2
  {
    var q1, q2 := (c1 + userNumber) / Modulus, (c2 + userNumber) / Modulus;
    assert c1 + userNumber == q1 * Modulus + Combine(c1, userNumber);
    assert c2 + userNumber == q2 * Modulus + Combine(c2, userNumber);
    assert c1 - c2 == (q1 - q2) * Modulus;
  }

  /** Every result in range comes from exactly one computer number in range,
      whatever the player chose; a computer number drawn uniformly from 0..5
      therefore gives a result that is uniform on 0..5. */
  lemma ExactlyOneSecretPerResult(result: nat, userNumber: nat)
    requires result < Modulus && userNumber < Modulus
    ensures (set c: nat | c < Modulus && Combine(c, userNumber) == result) == {Uncombine(result, userNumber)}
  {
    var u := Uncombine(result, userNumber);
    forall c: nat | c < Modulus && Combine(c, userNumber) == result
      ensures c == u
    {
      CombineInjective(c, u, userNumber);
    }
  }

  /** The first-move rule: the player moves first exactly when the guess
      misses the computer's bit. */
  function UserMovesFirst(secret: nat, guess: nat): bool
  {
    guess != secret
  }

  /** For each guess, exactly one of the two bits the computer may hold lets
      the player move first, so a uniform bit gives even odds. */
  lemma FirstMoveEvenOdds(guess: nat)
    requires guess <= 1
    ensures (set s: nat | s <= 1 && UserMovesFirst(s, guess)) == {1 - guess}
  {
  }

  /** The outcome of the first-move round once a guess is accepted. */
  datatype FirstMove = FirstMove(userMovesFirst: bool, disclosure: Reveal)

  /** The first-move prompt of a round whose bit is 0 or 1: exit and help
      pass through, an accepted guess is compared with the bit, and the bit
      and key are disclosed. */
  function DetermineFirstMove(round: Round, input: string): (a: Answer<FirstMove>)
    requires round.secret <= 1
    ensures a == Exit <==> IsExit(Trim(input))
    ensures a == Help <==> IsHelp(Trim(input))
    ensures a.Invalid? ==> a.message == "Invalid input. Please enter 0 or 1."
    ensures a.Accepted? <==> Trim(input) == "0" || Trim(input) == "1"
    ensures a.Accepted? ==>
      && (a.value.userMovesFirst <==> ParseDecimal(Trim(input)) != round.secret)
      && a.value.disclosure == RevealOf(round)
  {
    match ClassifyGuess(input)
    case Exit => Exit
    case Help => Help
    case Invalid(m) => Invalid(m)
    case Accepted(guess) => Accepted(FirstMove(UserMovesFirst(round.secret, guess), RevealOf(round)))
  }

  /** The outcome of a throw round once the player's number is accepted. */
  datatype Throw = Throw(userNumber: nat, result: nat, disclosure: Reveal)

  /** The throw prompt of a round whose number is in 0..5: an accepted
      number is added to the computer's modulo 6, and the computer's number
      and key are disclosed. */
  function FairThrow(round: Round, input: string): (a: Answer<Throw>)
    requires round.secret < Modulus
    ensures a == Exit <==> IsExit(Trim(input))
    ensures a == Help <==> IsHelp(Trim(input))
    ensures a.Invalid? ==> a.message == "Invalid input. Please select a number between 0 and 5."
    ensures a.Accepted? <==> |Trim(input)| == 1 && '0' <= Trim(input)[0] <= '5'
    ensures a.Accepted? ==>
      && a.value.userNumber == ParseDecimal(Trim(input))
      && a.value.result < Modulus
      && a.value.result == Combine(round.secret, a.value.userNumber)
      && a.value.disclosure == RevealOf(round)
  {
    match ClassifyThrow(input)
    case Exit => Exit
    case Help => Help
    case Invalid(m) => Invalid(m)
    case Accepted(u) => Accepted(Throw(u, Combine(round.secret, u), RevealOf(round)))
  }
}
