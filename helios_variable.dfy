/**
 * One variable of the Helios device: its number, access rights, value length, register
 * count, value type and optional bounds. A descriptor is set up by one of four
 * constructors and never changed afterwards, so it is a datatype here.
 */
module HeliosVariable {
  import opened Wrappers
  import opened JavaText

  type int32 = x: int | -0x8000_0000 <= x < 0x8000_0000
  type int64 = x: int | -0x8000_0000_0000_0000 <= x < 0x8000_0000_0000_0000

  const ACCESS_R: int32 := 1
  const ACCESS_W: int32 := 2
  const ACCESS_RW: int32 := 3

  const TYPE_INTEGER: int32 := 1
  const TYPE_FLOAT: int32 := 2
  const TYPE_STRING: int32 := 3

  /** A bound as the descriptor keeps it, boxed in an Object: an Integer, a Long or a Double. */
  datatype Number = Integer(intValue: int32) | Long(longValue: int64) | Double(doubleValue: real)

  /**
   * The descriptor's fields: the variable number, the access code (ACCESS_*), the value
   * length in characters, the register count of a read, the type code (TYPE_*), and the
   * minimum and maximum value, None where the source has null.
   */
  datatype Variable = Variable(
    variable: int32,
    access: int32,
    length: int32,
    count: int32,
    dataType: int32,
    minVal: Option<Number>,
    maxVal: Option<Number>)

  /** The bound shapes the four constructors can produce: none, (Integer, Integer), (Integer, Long) or (Double, Double). */
  predicate WellFormed(v: Variable)
  {
    match (v.minVal, v.maxVal)
    case (None, None) => true
    case (Some(Integer(_)), Some(Integer(_))) => true
    case (Some(Integer(_)), Some(Long(_))) => true
    case (Some(Double(_)), Some(Double(_))) => true
    case _ => false
  }

  /** Either both bounds are set or neither is. */
  lemma BoundsTogether(v: Variable)
    requires WellFormed(v)
    ensures v.minVal.None? <==> v.maxVal.None?
  {
  }

  /** The unbounded constructor: both bounds null. */
  function New(variable: int32, access: int32, length: int32, count: int32, dataType: int32): (v: Variable)
    ensures WellFormed(v) && v.minVal.None? && v.maxVal.None?
    ensures v.variable == variable && v.access == access && v.length == length
    ensures v.count == count && v.dataType == dataType
  {
    Variable(variable, access, length, count, dataType, None, None)
  }

  /** The constructor with int bounds: the unbounded descriptor with two Integer bounds added. */
  function NewIntBounded(variable: int32, access: int32, length: int32, count: int32, dataType: int32,
                         minVal: int32, maxVal: int32): (v: Variable)
    ensures WellFormed(v) && v.minVal == Some(Integer(minVal)) && v.maxVal == Some(Integer(maxVal))
    ensures v.variable == variable && v.access == access && v.length == length
    ensures v.count == count && v.dataType == dataType
    ensures v.(minVal := None, maxVal := None) == New(variable, access, length, count, dataType)
  {
    New(variable, access, length, count, dataType).(minVal := Some(Integer(minVal)), maxVal := Some(Integer(maxVal)))
  }

  /** The constructor with an int minimum and a long maximum: an Integer and a Long bound. */
  function NewLongBounded(variable: int32, access: int32, length: int32, count: int32, dataType: int32,
                          minVal: int32, maxVal: int64): (v: Variable)
    ensures WellFormed(v) && v.minVal == Some(Integer(minVal)) && v.maxVal == Some(Long(maxVal))
    ensures v.variable == variable && v.access == access && v.length == length
    ensures v.count == count && v.dataType == dataType
    ensures v.(minVal := None, maxVal := None) == New(variable, access, length, count, dataType)
  {
    New(variable, access, length, count, dataType).(minVal := Some(Integer(minVal)), maxVal := Some(Long(maxVal)))
  }

  /** The constructor with double bounds: two Double bounds. */
  function NewDoubleBounded(variable: int32, access: int32, length: int32, count: int32, dataType: int32,
                            minVal: real, maxVal: real): (v: Variable)
    ensures WellFormed(v) && v.minVal == Some(Double(minVal)) && v.maxVal == Some(Double(maxVal))
    ensures v.variable == variable && v.access == access && v.length == length
    ensures v.count == count && v.dataType == dataType
    ensures v.(minVal := None, maxVal := None) == New(variable, access, length, count, dataType)
  {
    New(variable, access, length, count, dataType).(minVal := Some(Double(minVal)), maxVal := Some(Double(maxVal)))
  }

  /** The command naming a variable: 'v', then its number in decimal, left-padded with '0' to five characters. */
  function VariableString(v: Variable): string
  {
    var digits := DecimalString(v.variable);
    "v" + Repeat('0', if |digits| < 5 then 5 - |digits| else 0) + digits
  }

  /** getVariableString: pads the decimal number with '0' one character at a time, then puts 'v' in front. */
  method GetVariableString(v: Variable) returns (s: string)
    ensures s == VariableString(v)
  {
    var digits := DecimalString(v.variable);
    hide DecimalString, Digits;
    var t := digits;
    assert t == Repeat('0', 0) + digits;
    while |t| < 5
      invariant |digits| <= |t|
      invariant |digits| < 5 ==> |t| <= 5
      invariant |digits| >= 5 ==> t == digits
      invariant t == Repeat('0', |t| - |digits|) + digits
    {
      assert Repeat('0', |t| + 1 - |digits|) == "0" + Repeat('0', |t| - |digits|);
      t := "0" + t;
    }
    s := "v" + t;
  }

  /** The command for variable 20 is "v00020". */
  lemma VariableStringExample(v: Variable)
    requires v.variable == 20
    ensures VariableString(v) == "v00020"
  {
    assert Digits(20) == "20";
  }

  /**
   * For a non-negative number the command is 'v' and digits only, the digits read back
   * as the number, and numbers up to 99999 give exactly six characters.
   */
  lemma VariableStringShape(v: Variable)
    requires v.variable >= 0
    ensures var s := VariableString(v);
      && s[0] == 'v'
      && AllDigits(s[1..])
      && ParseDigits(s[1..]) == v.variable
      && (v.variable <= 99999 ==> |s| == 6)
  {
    hide VariableString, DecimalString, Digits;
    var digits := Digits(v.variable);
    var k := if |digits| < 5 then 5 - |digits| else 0;
    var s := VariableString(v);
    NonNegativeVariableString(v);
    assert s[1..] == Repeat('0', k) + digits;
    LeadingZeros(k, digits);
    ParseDigitsOfDigits(v.variable);
    if v.variable <= 99999 {
      DigitsFit(v.variable, 5);
    }
  }

  /** For a non-negative number the command is 'v', the padding zeros, then the digits. */
  lemma NonNegativeVariableString(v: Variable)
    requires v.variable >= 0
    ensures var digits := Digits(v.variable);
      VariableString(v) == "v" + (Repeat('0', if |digits| < 5 then 5 - |digits| else 0) + digits)
  {
  }

  /** Distinct non-negative variable numbers give distinct commands. */
  lemma VariableStringInjective(v: Variable, w: Variable)
    requires v.variable >= 0 && w.variable >= 0
    requires VariableString(v) == VariableString(w)
    ensures v.variable == w.variable
  {
    VariableStringShape(v);
    VariableStringShape(w);
  }

  /**
   * compareTo: -1, 0 or 1 as this descriptor's number is below, equal to or above the
   * other's.
   */
  function CompareTo(a: Variable, b: Variable): (r: int)
    ensures -1 <= r <= 1
    ensures r == 0 <==> a.variable == b.variable
    ensures r < 0 <==> a.variable < b.variable
  {
    if a.variable < b.variable then -1
    else if a.variable == b.variable then 0
    else 1
  }

  lemma CompareToAntisymmetric(a: Variable, b: Variable)
    ensures CompareTo(a, b) == -CompareTo(b, a)
  {
  }

  lemma CompareToTransitive(a: Variable, b: Variable, c: Variable)
    requires CompareTo(a, b) <= 0 && CompareTo(b, c) <= 0
    ensures CompareTo(a, c) <= 0
    ensures CompareTo(a, b) < 0 || CompareTo(b, c) < 0 ==> CompareTo(a, c) < 0
  {
  }
}
