/** Validation of the dice given on the command line: 3 or 4 dice, each with
    exactly 6 faces, each face a positive integer. The checks run in a fixed
    order and the first failure is the one reported: the number of dice
    before anything else, then the dice one by one from the first, and within
    one die its number of faces before its values. */
module DiceConfig {
  import opened Decimal

  /** One face as `Number(...)` produced it: an integer, or anything else
      (a fraction, NaN, an infinity), which `Number.isInteger` rejects. */
  datatype Face = Integer(value: int) | NonInteger

  /** The reasons a configuration is refused; dice are numbered from 1. */
  datatype ConfigError =
    | WrongDiceCount
    | WrongFaceCount(dieNumber: nat)
    | InvalidFaceValue(dieNumber: nat)

  datatype Validation = Valid | Invalid(error: ConfigError)

  const FacesPerDie := 6

  predicate IsPositiveInteger(f: Face) {
    f.Integer? && f.value > 0
  }

  predicate IsValidDie(d: seq<Face>) {
    |d| == FacesPerDie && forall k :: 0 <= k < |d| ==> IsPositiveInteger(d[k])
  }

  predicate IsValidConfiguration(dice: seq<seq<Face>>) {
    3 <= |dice| <= 4 && forall i :: 0 <= i < |dice| ==> IsValidDie(dice[i])
  }

  /** What the check of the die at `index` reports, if it fails, and
      nothing else: the error names die `index + 1`. */
  predicate ReportsDie(dice: seq<seq<Face>>, index: nat, e: ConfigError)
    requires index < |dice|
  {
    if |dice[index]| != FacesPerDie then e == WrongFaceCount(index + 1)
    else e == InvalidFaceValue(index + 1) && !IsValidDie(dice[index])
  }

  /** The per-die loop, from die `from` on. */
  function CheckDiceFrom(dice: seq<seq<Face>>, from: nat): (v: Validation)
    requires from <= |dice|
    ensures v.Valid? <==> forall i :: from <= i < |dice| ==> IsValidDie(dice[i])
    ensures v.Invalid? ==>
      exists i :: from <= i < |dice| && (forall j :: from <= j < i ==> IsValidDie(dice[j]))
        && !IsValidDie(dice[i]) && ReportsDie(dice, i, v.error)
    decreases |dice| - from
  {
    if from == |dice| then Valid
    else if |dice[from]| != FacesPerDie then Invalid(WrongFaceCount(from + 1))
    else if !IsValidDie(dice[from]) then Invalid(InvalidFaceValue(from + 1))
    else CheckDiceFrom(dice, from + 1)
  }

  /** The whole validation: succeeds exactly on valid configurations; a
      wrong number of dice is reported before any die is looked at; and
      otherwise the error names the first invalid die, for its number of
      faces if that is wrong and for its values if not. */
  function ValidateDice(dice: seq<seq<Face>>): (v: Validation)
    ensures v.Valid? <==> IsValidConfiguration(dice)
    ensures v == Invalid(WrongDiceCount) <==> |dice| < 3 || |dice| > 4
    ensures v.Invalid? && v.error != WrongDiceCount ==>
      exists i :: 0 <= i < |dice| && (forall j :: 0 <= j < i ==> IsValidDie(dice[j]))
        && !IsValidDie(dice[i]) && ReportsDie(dice, i, v.error)
  {
    if |dice| < 3 || |dice| > 4 then Invalid(WrongDiceCount)
    else CheckDiceFrom(dice, 0)
  }

  /** The message the program shows for each error. */
  function ErrorMessage(e: ConfigError): string {
    match e
    case WrongDiceCount =>
      "Invalid number of dice sets. You must provide 3 or 4 sets."
    case WrongFaceCount(n) =>
      "Invalid dice configuration for set " + DecimalString(n)
        + ". Each set must contain exactly 6 numbers."
    case InvalidFaceValue(n) =>
      "Invalid values in dice set " + DecimalString(n)
        + ". Dice must contain only positive integers."
  }

  /** The message determines the error, the die number included. */
  lemma ErrorMessageInjective(e1: ConfigError, e2: ConfigError)
    requires ErrorMessage(e1) == ErrorMessage(e2)
    ensures e1 == e2
  {
    MessageKind(e1);
    MessageKind(e2);
    match e1
    case WrongDiceCount =>
    case WrongFaceCount(n1) =>
      FramedEqual("Invalid dice configuration for set ", DecimalString(n1), DecimalString(e2.dieNumber),
        ". Each set must contain exactly 6 numbers.");
      DecimalStringInjective(n1, e2.dieNumber);
    case InvalidFaceValue(n1) =>
      FramedEqual("Invalid values in dice set ", DecimalString(n1), DecimalString(e2.dieNumber),
        ". Dice must contain only positive integers.");
      DecimalStringInjective(n1, e2.dieNumber);
  }

  /** The fifth character from the end of each message tells its kind. */
  function KindLetter(e: ConfigError): char {
    match e
    case WrongDiceCount => 's'
    case WrongFaceCount(_) => 'b'
    case InvalidFaceValue(_) => 'g'
  }

  lemma MessageKind(e: ConfigError)
    ensures |ErrorMessage(e)| >= 5 && ErrorMessage(e)[|ErrorMessage(e)| - 5] == KindLetter(e)
  {
    match e
    case WrongDiceCount =>
    case WrongFaceCount(n) =>
      SuffixAt("Invalid dice configuration for set ", DecimalString(n), ". Each set must contain exactly 6 numbers.", 5);
    case InvalidFaceValue(n) =>
      SuffixAt("Invalid values in dice set ", DecimalString(n), ". Dice must contain only positive integers.", 5);
  }

  lemma SuffixAt(prefix: string, middle: string, suffix: string, i: nat)
    requires 0 < i <= |suffix|
    ensures (prefix + middle + suffix)[|prefix + middle + suffix| - i] == suffix[|suffix| - i]
  {
  }

  /** Two strings framed by the same prefix and the same suffix are equal
      when the framed strings are. */
  lemma FramedEqual(prefix: string, a: string, b: string, suffix: string)
    requires prefix + a + suffix == prefix + b + suffix
    ensures a == b
  {
    var s := prefix + a + suffix;
    assert |a| == |b|;
    assert a == s[|prefix|..|prefix| + |a|] == b;
  }
}
