/** Classification of what a player types at a prompt. Every prompt trims
    the line first; then "x" in either case means exit, exactly "?" means
    help (the program shows its table and asks again), and everything outside
    the prompt's own answers is an error. */
module Prompt {
  import opened Decimal

  /** How one line of input is read at a prompt. */
  datatype Answer<T> =
    | Exit
    | Help
    | Invalid(message: string)
    | Accepted(value: T)

  /** The white space and line terminators that String.prototype.trim
      removes. */
  predicate IsSpace(c: char) {
    || c == '\t' || c == '\n' || c == '\U{000B}' || c == '\U{000C}' || c == '\r' || c == ' '
    || c == '\U{00A0}' || c == '\U{1680}' || ('\U{2000}' <= c <= '\U{200A}')
    || c == '\U{2028}' || c == '\U{2029}' || c == '\U{202F}' || c == '\U{205F}'
    || c == '\U{3000}' || c == '\U{FEFF}'
  }

  /** The number of white-space characters `s` starts with. */
  function LeadingSpace(s: string): (n: nat)
    ensures n <= |s|
    ensures forall k :: 0 <= k < n ==> IsSpace(s[k])
    ensures n < |s| ==> !IsSpace(s[n])
  {
    if s != [] && IsSpace(s[0]) then 1 + LeadingSpace(s[1..]) else 0
  }

  /** The end of `s[start..end]` once its trailing white space is cut. */
  function TrimmedEnd(s: string, start: nat, end: nat): (e: nat)
    requires start <= end <= |s|
    ensures start <= e <= end
    ensures forall k :: e <= k < end ==> IsSpace(s[k])
    ensures e > start ==> !IsSpace(s[e - 1])
    decreases end
  {
    if end > start && IsSpace(s[end - 1]) then TrimmedEnd(s, start, end - 1) else end
  }

  /** `s` without white space at either end: the slice of `s` from its
      first character that is not white space to its last, everything cut
      off being white space. */
  function Trim(s: string): (r: string)
    ensures LeadingSpace(s) + |r| <= |s|
    ensures r == s[LeadingSpace(s)..LeadingSpace(s) + |r|]
    ensures forall k :: LeadingSpace(s) + |r| <= k < |s| ==> IsSpace(s[k])
    ensures r != [] ==> !IsSpace(r[0]) && !IsSpace(r[|r| - 1])
  {
    var start := LeadingSpace(s);
    s[start..TrimmedEnd(s, start, |s|)]
  }

  /** Trimming a line that has no white space at its ends leaves it as it
      is. */
  lemma {:induction false} TrimKeeps(s: string)
    requires s != [] ==> !IsSpace(s[0]) && !IsSpace(s[|s| - 1])
    ensures Trim(s) == s
  {
    assert LeadingSpace(s) == 0;
  }

  /** Trimming twice is trimming once. */
  lemma TrimIdempotent(s: string)
    ensures Trim(Trim(s)) == Trim(s)
  {
    TrimKeeps(Trim(s));
  }

  /** The exit command: `toLowerCase()` of the trimmed line is "x". */
  predicate IsExit(t: string) {
    t == "x" || t == "X"
  }

  predicate IsHelp(t: string) {
    t == "?"
  }

  /** `t` is one of the numerals "0" to "count - 1". */
  predicate SingleDigitBelow(t: string, count: nat) {
    |t| == 1 && IsDigit(t[0]) && DigitValue(t[0]) < count
  }

  /** A prompt whose answers are the single digits "0" to "count - 1"
      (the first-move prompt has two, the throw prompt six). */
  function ClassifyDigit(input: string, count: nat, message: string): (a: Answer<nat>)
    requires count <= 10
    ensures a == Exit <==> IsExit(Trim(input))
    ensures a == Help <==> IsHelp(Trim(input))
    ensures a.Accepted? <==> SingleDigitBelow(Trim(input), count)
    ensures a.Accepted? ==> a.value < count && Trim(input) == [DigitChar(a.value)]
    ensures a.Accepted? ==> AllDigits(Trim(input)) && ParseDecimal(Trim(input)) == a.value
    ensures a.Invalid? ==> a.message == message
  {
    var t := Trim(input);
    if IsExit(t) then Exit
    else if IsHelp(t) then Help
    else if SingleDigitBelow(t, count) then
      assert t == [t[0]];
      ParseDigit(t[0]);
      Accepted(DigitValue(t[0]))
    else Invalid(message)
  }

  /** The first-move prompt: a guess of the computer's bit. */
  function ClassifyGuess(input: string): (a: Answer<nat>)
    ensures a == Exit <==> IsExit(Trim(input))
    ensures a == Help <==> IsHelp(Trim(input))
    ensures a.Invalid? ==> a.message == "Invalid input. Please enter 0 or 1."
    ensures a.Accepted? <==> Trim(input) == "0" || Trim(input) == "1"
    ensures a.Accepted? ==> a.value <= 1 && a.value == ParseDecimal(Trim(input))
  {
    ClassifyDigit(input, 2, "Invalid input. Please enter 0 or 1.")
  }

  /** The throw prompt: the player's number to add modulo 6. */
  function ClassifyThrow(input: string): (a: Answer<nat>)
    ensures a == Exit <==> IsExit(Trim(input))
    ensures a == Help <==> IsHelp(Trim(input))
    ensures a.Invalid? ==> a.message == "Invalid input. Please select a number between 0 and 5."
    ensures a.Accepted? <==> |Trim(input)| == 1 && '0' <= Trim(input)[0] <= '5'
    ensures a.Accepted? ==> a.value <= 5 && a.value == ParseDecimal(Trim(input))
  {
    ClassifyDigit(input, 6, "Invalid input. Please select a number between 0 and 5.")
  }

  /** The dice prompt: any string of ASCII digits whose value is below the
      number of dice offered (leading zeros are allowed). */
  function ClassifyDiceChoice(input: string, offered: nat): (a: Answer<nat>)
    ensures a == Exit <==> IsExit(Trim(input))
    ensures a == Help <==> IsHelp(Trim(input))
    ensures a.Accepted? <==>
      |Trim(input)| > 0 && AllDigits(Trim(input)) && ParseDecimal(Trim(input)) < offered
    ensures a.Accepted? ==> a.value == ParseDecimal(Trim(input)) < offered
    ensures a.Invalid? ==> a.message == "Invalid selection. Choose a valid dice set index."
  {
    var t := Trim(input);
    if IsExit(t) then Exit
    else if IsHelp(t) then Help
    else if |t| == 0 || !AllDigits(t) || ParseDecimal(t) >= offered then
      Invalid("Invalid selection. Choose a valid dice set index.")
    else Accepted(ParseDecimal(t))
  }
}
