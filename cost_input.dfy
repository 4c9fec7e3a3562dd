/**
 * The placement-cost field: the display keeps only the digits typed, the
 * form receives their value (0 for none), and the form's value is shown
 * back, with 0 shown as an empty field.  The currency suffix appears
 * whenever the display is not empty.
 */
module CostInput {
  import opened Wrappers
  import Text

  /** `value ? value.toString() : ''`. */
  function Shown(value: nat): (r: string)
    ensures Text.AllDigitsIn(r, 10)
    ensures r == "" <==> value == 0
    ensures r != "" ==> Text.ParseInt(r) == Some(value as int)
  {
    if value == 0 then ""
    else
      Text.ParseIntNatToString(value);
      Text.NatToString(value)
  }

  /** `digits ? parseInt(digits, 10) : 0` for a string of decimal digits. */
  function Entered(digits: string): (v: nat)
    requires Text.AllDigitsIn(digits, 10)
    ensures digits == "" ==> v == 0
    ensures digits != "" ==> Text.ParseInt(digits) == Some(v as int)
  {
    if digits == "" then 0
    else
      Text.ParseIntOfDigits(digits);
      Text.ValueIn(digits, 10)
  }

  /** Typing the shown value back in gives the value. */
  lemma EnteredShown(value: nat)
    ensures Entered(Text.KeepDigits(Shown(value))) == value
  {
    Text.KeepDigitsOfDigits(Shown(value));
    if value != 0 {
      Text.NatToStringRoundTrip(value);
    }
  }

  /** Digits without a leading zero are shown back exactly as typed once the form's value returns. */
  lemma ShownEntered(digits: string)
    requires Text.AllDigitsIn(digits, 10)
    requires digits == "" || digits[0] != '0'
    ensures Shown(Entered(digits)) == digits
  {
    if digits != "" {
      LeadingDigitValue(digits);
      NatToStringOfValue(digits);
    }
  }

  lemma {:induction false} LeadingDigitValue(s: string)
    requires s != [] && Text.AllDigitsIn(s, 10) && s[0] != '0'
    ensures Text.ValueIn(s, 10) >= 1
  {
    if |s| > 1 {
      LeadingDigitValue(s[..|s| - 1]);
    }
  }

  lemma {:induction false} NatToStringOfValue(s: string)
    requires s != [] && Text.AllDigitsIn(s, 10) && s[0] != '0'
    ensures Text.NatToString(Text.ValueIn(s, 10)) == s
  {
    var v := Text.ValueIn(s, 10);
    if |s| == 1 {
      assert s[..|s| - 1] == [];
      assert Text.ValueIn(s[..|s| - 1], 10) == 0;
      assert v == Text.ValueIn(s[..|s| - 1], 10) * 10 + Text.HexValue(s[0]);
      assert s == [Text.DigitChar(v)];
    } else {
      var prefix := s[..|s| - 1];
      var d := Text.HexValue(s[|s| - 1]);
      LeadingDigitValue(prefix);
      NatToStringOfValue(prefix);
      assert v == Text.ValueIn(prefix, 10) * 10 + d;
      assert v / 10 == Text.ValueIn(prefix, 10) && v % 10 == d;
      assert s == prefix + [Text.DigitChar(d)];
    }
  }

  class CostField {
    /** The `displayValue` state. */
    var displayValue: string
    /** The values handed to `onChange`, oldest first. */
    var emitted: seq<nat>

    predicate Valid()
      reads this
    {
      Text.AllDigitsIn(displayValue, 10)
    }

    constructor(value: nat)
      ensures Valid()
      ensures displayValue == Shown(value) && emitted == []
      ensures ShowsCurrency() <==> value != 0
    {
      displayValue := Shown(value);
      emitted := [];
    }

    /** `handleChange`: keep the digits, show them, hand their value to the form. */
    method HandleChange(raw: string)
      modifies this
      ensures Valid()
      ensures displayValue == Text.KeepDigits(raw)
      ensures emitted == old(emitted) + [Entered(Text.KeepDigits(raw))]
    {
      var numbersOnly := Text.KeepDigits(raw);
      displayValue := numbersOnly;
      var numericValue := 0;
      if numbersOnly != "" {
        Text.ParseIntOfDigits(numbersOnly);
        numericValue := Text.ParseInt(numbersOnly).value;
      }
      emitted := emitted + [numericValue];
    }

    /** The effect on the form's value. */
    method SyncWithValue(value: nat)
      modifies this
      ensures Valid()
      ensures displayValue == Shown(value) && emitted == old(emitted)
      ensures ShowsCurrency() <==> value != 0
    {
      displayValue := Shown(value);
    }

    /** The 'тенге' suffix. */
    predicate ShowsCurrency()
      reads this
    {
      displayValue != ""
    }
  }
}
