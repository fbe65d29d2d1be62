/** Why the throw rounds are fair to the player: a computer number drawn
    uniformly from 0..5 makes the throw result uniform whatever the player
    enters, so the player's chance of winning depends on the two dice only. */
module Fairness {
  import opened FairValue
  import opened Game

  /** The sum of the six terms f(0), ..., f(5). */
  function Sum6(f: nat -> nat): nat {
    f(0) + f(1) + f(2) + f(3) + f(4) + f(5)
  }

  /** Sums whose terms agree agree. */
  lemma SumPointwise(f: nat -> nat, g: nat -> nat)
    requires forall i: nat :: i < Modulus ==> f(i) == g(i)
    ensures Sum6(f) == Sum6(g)
  {
  }

  /** Adding a fixed number modulo 6 only reorders the six terms. */
  lemma SumRotation(f: nat -> nat, u: nat)
    requires u < Modulus
    ensures Sum6((i: nat) => f(Combine(i, u))) == Sum6(f)
  {
    assert forall i: nat :: i < Modulus ==> Combine(i, u) == if i + u < Modulus then i + u else i + u - Modulus;
  }

  /** 1 when the player wins with these faces, 0 otherwise. */
  function Wins(userFace: int, computerFace: int): (w: nat)
    ensures w <= 1 && (w == 1 <==> DetermineWinner(userFace, computerFace) == UserWins)
  {
    if userFace > computerFace then 1 else 0
  }

  /** For one computer face, the number of the six computer numbers of the
      player's throw round with which the player wins, the player having
      entered `userRoundInput`. */
  function RowWins(userDie: Die, computerFace: int, userRoundInput: nat): nat {
    Sum6((us: nat) => Wins(userDie[Combine(us, userRoundInput)], computerFace))
  }

  /** The number of the 36 pairs of computer numbers (one per throw round)
      with which the player wins, given what the player entered in the two
      rounds. */
  function WinningSecrets(userDie: Die, computerDie: Die, computerRoundInput: nat, userRoundInput: nat): nat {
    Sum6((cs: nat) => RowWins(userDie, computerDie[Combine(cs, computerRoundInput)], userRoundInput))
  }

  lemma RowWinsUnbiased(userDie: Die, computerFace: int, userRoundInput: nat)
    requires userRoundInput < Modulus
    ensures RowWins(userDie, computerFace, userRoundInput) == RowWins(userDie, computerFace, 0)
  {
    var f := (j: nat) => Wins(userDie[Combine(j, 0)], computerFace);
    SumRotation(f, userRoundInput);
    assert forall i: nat :: i < Modulus ==> Combine(Combine(i, userRoundInput), 0) == Combine(i, userRoundInput);
  }

  /** Neither party's own numbers tilt the game: whatever the player enters
      in the two throw rounds, the same number of pairs of computer numbers
      makes the player win as when the player enters 0 and 0, which is the
      number of face pairs in which the player's face is higher. With
      uniform computer numbers the player's chance is that count over 36. */
  lemma PlayerInputsDoNotBias(userDie: Die, computerDie: Die, computerRoundInput: nat, userRoundInput: nat)
    requires computerRoundInput < Modulus && userRoundInput < Modulus
    ensures WinningSecrets(userDie, computerDie, computerRoundInput, userRoundInput)
         == WinningSecrets(userDie, computerDie, 0, 0)
  {
    UserInputDoesNotBias(userDie, computerDie, computerRoundInput, userRoundInput);
    ComputerRoundInputDoesNotBias(userDie, computerDie, computerRoundInput);
  }

  /** The player's number in the player's own throw round changes nothing. */
  lemma UserInputDoesNotBias(userDie: Die, computerDie: Die, computerRoundInput: nat, userRoundInput: nat)
    requires userRoundInput < Modulus
    ensures WinningSecrets(userDie, computerDie, computerRoundInput, userRoundInput)
         == WinningSecrets(userDie, computerDie, computerRoundInput, 0)
  {
    var g := (cs: nat) => RowWins(userDie, computerDie[Combine(cs, computerRoundInput)], userRoundInput);
    var h := (cs: nat) => RowWins(userDie, computerDie[Combine(cs, computerRoundInput)], 0);
    forall cs: nat | cs < Modulus ensures g(cs) == h(cs) {
      RowWinsUnbiased(userDie, computerDie[Combine(cs, computerRoundInput)], userRoundInput);
    }
    SumPointwise(g, h);
  }

  /** The player's number in the computer's throw round changes nothing. */
  lemma ComputerRoundInputDoesNotBias(userDie: Die, computerDie: Die, computerRoundInput: nat)
    requires computerRoundInput < Modulus
    ensures WinningSecrets(userDie, computerDie, computerRoundInput, 0)
         == WinningSecrets(userDie, computerDie, 0, 0)
  {
    var h := (cs: nat) => RowWins(userDie, computerDie[Combine(cs, computerRoundInput)], 0);
    var f := (i: nat) => RowWins(userDie, computerDie[Combine(i, 0)], 0);
    forall i: nat | i < Modulus ensures h(i) == f(Combine(i, computerRoundInput)) {
      assert Combine(Combine(i, computerRoundInput), 0) == Combine(i, computerRoundInput);
    }
    SumPointwise(h, (i: nat) => f(Combine(i, computerRoundInput)));
    SumRotation(f, computerRoundInput);
  }
}
