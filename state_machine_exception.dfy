/**
 * Model of Tokenize/StateMachine/StateMachineException.cs.
 *
 * The exception a run raises when no transition of the current state accepts a bit.
 * Its three get-only properties are the datatype's fields; the datatype constructor is
 * the C# constructor, which stores its arguments unchanged.  The exception message is
 * `Message`.  `typeof(T).Name` and `unexpectedBit.ToString()` are .NET formatting the
 * model does not reproduce: they are passed in as the strings `typeName` and `bitText`.
 */
module StateMachineExceptions {

  datatype StateMachineException<T> = StateMachineException(unexpectedBit: T, position: int, state: int)
  {
    /** The message passed to the `Exception` base constructor. */
    function Message(typeName: string, bitText: string): string
    {
      "Unexpected " + typeName + " \"" + bitText + "\" at state " + IntToString(state)
        + ", position " + IntToString(position) + "."
    }
  }

  /** The decimal digit character of `d`. */
  function DigitChar(d: nat): (c: char)
    requires d < 10
    ensures '0' <= c <= '9'
  {
    (48 + d) as char
  }

  /** The value of a decimal digit character. */
  function DigitValue(c: char): nat
  {
    if '0' <= c <= '9' then c as int - 48 else 0
  }

  /** Decimal digits of `n`, most significant first, without leading zeros. */
  function NatToString(n: nat): (s: string)
    ensures s != [] && forall i :: 0 <= i < |s| ==> '0' <= s[i] <= '9'
    ensures |s| > 1 ==> s[0] != '0'
  {
    if n < 10 then [DigitChar(n)] else NatToString(n / 10) + [DigitChar(n % 10)]
  }

  /** `int.ToString()` in the invariant culture: a minus sign, then the digits of the magnitude. */
  function IntToString(n: int): string
  {
    if n < 0 then "-" + NatToString(-n) else NatToString(n)
  }

  /** Reads a string of decimal digits as a number. */
  function ParseNat(s: string): nat
  {
    if s == [] then 0 else ParseNat(s[..|s| - 1]) * 10 + DigitValue(s[|s| - 1])
  }

  /** Reads an optionally signed decimal integer. */
  function ParseInt(s: string): int
  {
    if s != [] && s[0] == '-' then -(ParseNat(s[1..]) as int) else ParseNat(s)
  }

  lemma {:induction false} NatToStringRoundTrip(n: nat)
    ensures ParseNat(NatToString(n)) == n
  {
    if n >= 10 {
      var q, r := n / 10, n % 10;
      NatToStringRoundTrip(q);
      var s := NatToString(n);
      assert s == NatToString(q) + [DigitChar(r)];
      assert s[..|s| - 1] == NatToString(q) && s[|s| - 1] == DigitChar(r);
      assert n == q * 10 + r;
    }
  }

  /** The decimal text that `IntToString` produces reads back as the same integer. */
  lemma {:induction false} IntToStringRoundTrip(n: int)
    ensures ParseInt(IntToString(n)) == n
  {
    if n < 0 {
      var digits := NatToString(-n);
      NatToStringRoundTrip(-n);
      assert IntToString(n) == ['-'] + digits;
      assert (['-'] + digits)[1..] == digits;
    } else {
      var digits := NatToString(n);
      NatToStringRoundTrip(n);
      assert '0' <= digits[0] <= '9';
    }
  }

  /**
   * The message reads "Unexpected <type> "<bit>" at state <state>, position <position>.",
   * where the state and the position are written as decimal text that reads back as the
   * exception's `State` and `Position`.
   */
  lemma {:induction false} MessageReportsStateAndPosition<T>(e: StateMachineException<T>, typeName: string, bitText: string)
    ensures exists stateText, positionText ::
      && e.Message(typeName, bitText) == "Unexpected " + typeName + " \"" + bitText + "\" at state "
           + stateText + ", position " + positionText + "."
      && ParseInt(stateText) == e.state
      && ParseInt(positionText) == e.position
  {
    IntToStringRoundTrip(e.state);
    IntToStringRoundTrip(e.position);
    var stateText, positionText := IntToString(e.state), IntToString(e.position);
    assert e.Message(typeName, bitText) == "Unexpected " + typeName + " \"" + bitText + "\" at state "
           + stateText + ", position " + positionText + ".";
  }
}
