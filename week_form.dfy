/**
 * The entry form: five fields, initialised from today's date, and a submit
 * that checks the hours field, emits one entry and clears part of the form.
 */
module WeekForm {
  import opened Wrappers
  import opened Calendar
  import opened Strings
  import opened Overtime

  /** The index of the first exponent marker `e` or `E`, or |s|. */
  function IndexOfExponent(s: string): (i: nat)
    ensures i <= |s|
    ensures i < |s| ==> s[i] == 'e' || s[i] == 'E'
    ensures forall j :: 0 <= j < i ==> s[j] != 'e' && s[j] != 'E'
  {
    if s == [] then 0
    else if s[0] == 'e' || s[0] == 'E' then 0
    else 1 + IndexOfExponent(s[1..])
  }

  /** 10 to the power k, for any integer k. */
  function Scale(k: int): (r: real)
    ensures r > 0.0
  {
    if k >= 0 then Pow10(k) as real else 1.0 / Pow10(-k) as real
  }

  /** The value of whole digits, a dot and fraction digits. */
  function DecimalValue(whole: string, frac: string): (v: real)
    requires AllDigits(whole) && AllDigits(frac)
    ensures v >= DigitsValue(whole) as real
  {
    DigitsValue(whole) as real + DigitsValue(frac) as real / Pow10(|frac|) as real
  }

  function ParseMantissa(s: string): (r: Option<real>)
    ensures r.Some? ==> r.value >= 0.0
  {
    var dot := IndexOf(s, '.');
    if dot == |s| then
      if s != [] && AllDigits(s) then Some(DigitsValue(s) as real) else None
    else
      var whole, frac := s[..dot], s[dot + 1..];
      if AllDigits(whole) && AllDigits(frac) && frac != [] then Some(DecimalValue(whole, frac))
      else None
  }

  /** The exponent after `e`: an optional sign and at least one digit. */
  function ParseExponent(s: string): (r: Option<int>)
  {
    var negative := s != [] && s[0] == '-';
    var digits := if s != [] && (s[0] == '-' || s[0] == '+') then s[1..] else s;
    if digits != [] && AllDigits(digits) then
      Some(if negative then -(DigitsValue(digits) as int) else DigitsValue(digits))
    else None
  }

  /** An unsigned number: a mantissa and an optional exponent. */
  function ParseUnsigned(body: string): (r: Option<real>)
  {
    var e := IndexOfExponent(body);
    var mantissa := ParseMantissa(body[..e]);
    var exponent := if e == |body| then Some(0) else ParseExponent(body[e + 1..]);
    if mantissa.Some? && exponent.Some? then Some(mantissa.value * Scale(exponent.value)) else None
  }

  /**
   * The value of a text in the grammar of a number input's value, the HTML
   * "valid floating-point number": an optional `-`, digits with an optional
   * fraction of at least one digit (or a fraction alone), and an optional
   * exponent.  `None` for any other text; a number input never holds one.
   */
  function ParseFloat(s: string): (r: Option<real>)
    ensures s == "" ==> r.None?
  {
    if s != [] && s[0] == '-' then
      var v := ParseUnsigned(s[1..]);
      if v.Some? then Some(-v.value) else None
    else ParseUnsigned(s)
  }

  /** `Number(text)`: the empty text is 0. */
  function JsNumber(s: string): (r: Option<real>)
    ensures s == "" ==> r == Some(0.0)
    ensures s != "" ==> r == ParseFloat(s)
  {
    if s == "" then Some(0.0) else ParseFloat(s)
  }

  lemma {:induction false} DigitsHaveNoMarkers(s: string)
    requires AllDigits(s)
    ensures IndexOf(s, '.') == |s| && IndexOfExponent(s) == |s|
    decreases |s|
  {
    if s != [] {
      assert IsDigit(s[0]);
      assert AllDigits(s[1..]) by {
        forall i | 0 <= i < |s[1..]| ensures IsDigit(s[1..][i]) {
          assert s[1..][i] == s[i + 1];
        }
      }
      DigitsHaveNoMarkers(s[1..]);
    }
  }

  /** A digit string has no exponent and is a mantissa without a fraction. */
  lemma MantissaOfDigits(s: string)
    requires s != [] && AllDigits(s)
    ensures IndexOfExponent(s) == |s| && ParseMantissa(s[..|s|]) == Some(DigitsValue(s) as real)
  {
    DigitsHaveNoMarkers(s);
    assert s[..|s|] == s;
  }

  /** A plain digit string is read as the number it denotes. */
  lemma ParseUnsignedOfDigits(s: string)
    requires s != [] && AllDigits(s)
    ensures ParseUnsigned(s) == Some(DigitsValue(s) as real)
  {
    MantissaOfDigits(s);
    var m := DigitsValue(s) as real;
    assert m * Scale(0) == m;
  }

  lemma ParseFloatOfDigits(s: string)
    requires s != [] && AllDigits(s)
    ensures ParseFloat(s) == Some(DigitsValue(s) as real)
  {
    assert s[0] != '-' by {
      assert IsDigit(s[0]);
    }
    ParseUnsignedOfDigits(s);
  }

  /** Whole numbers, as `f"{n}"` writes them, read back as themselves. */
  lemma ParseFloatOfInt(n: int)
    ensures ParseFloat(IntToString(n)) == Some(n as real)
  {
    if n >= 0 {
      ParseFloatOfNat(n);
    } else {
      ParseFloatOfNegativeInt(n);
    }
  }

  lemma ParseFloatOfNat(n: nat)
    ensures ParseFloat(IntToString(n)) == Some(n as real)
  {
    var s := IntToString(n);
    ParseFloatOfDigits(s);
  }

  lemma ParseFloatOfNegativeInt(n: int)
    requires n < 0
    ensures ParseFloat(IntToString(n)) == Some(n as real)
  {
    ParseFloatOfSigned(IntToString(n), n);
  }

  /** A minus sign followed by the digits of -n reads as n. */
  lemma ParseFloatOfSigned(s: string, n: int)
    requires |s| >= 2 && s[0] == '-' && AllDigits(s[1..]) && DigitsValue(s[1..]) == -n
    ensures ParseFloat(s) == Some(n as real)
  {
    ParseUnsignedOfDigits(s[1..]);
    var v: int := DigitsValue(s[1..]);
    assert -(v as real) == n as real;
  }

  lemma ParseFloatOfFraction()
    ensures ParseFloat("2.5") == Some(2.5)
  {
    var s := "2.5";
    assert IndexOfExponent(s) == 3 && s[..3] == s;
    assert IndexOf(s, '.') == 1 && s[..1] == "2" && s[2..] == "5";
    assert DigitsValue("2") == 2 && DigitsValue("5") == 5;
    assert ParseMantissa(s) == Some(2.5);
    assert Scale(0) == 1.0;
  }

  lemma ParseFloatOfNegativeFraction()
    ensures ParseFloat("-.5") == Some(-0.5)
  {
    var s := "-.5";
    var body := s[1..];
    assert body == ".5";
    assert IndexOfExponent(body) == 2 && body[..2] == body;
    assert IndexOf(body, '.') == 0 && body[..0] == "" && body[1..] == "5";
    assert DigitsValue("") == 0 && DigitsValue("5") == 5;
    assert ParseMantissa(body) == Some(0.5);
    assert Scale(0) == 1.0;
  }

  lemma ParseFloatOfExponent()
    ensures ParseFloat("1e2") == Some(100.0)
  {
    var s := "1e2";
    assert IndexOfExponent(s) == 1 && s[..1] == "1" && s[2..] == "2";
    assert IndexOf("1", '.') == 1;
    assert DigitsValue("1") == 1 && DigitsValue("2") == 2;
    assert ParseExponent("2") == Some(2);
    assert Scale(2) == 100.0;
  }

  /**
   * Texts outside a number input's grammar have no value here: a trailing
   * dot, a leading `+` and letters.  (`Number("5.")` and `Number("+5")` are
   * 5 in JavaScript, but a number input never holds these texts.)
   */
  lemma OutsideNumberInputGrammar()
    ensures ParseFloat("5.") == None && ParseFloat("+5") == None && ParseFloat("abc") == None
  {
    var s := "5.";
    assert IndexOfExponent(s) == 2 && s[..2] == s;
    assert IndexOf(s, '.') == 1 && s[2..] == "";
    var p := "+5";
    assert IndexOfExponent(p) == 2 && p[..2] == p;
    assert IndexOf(p, '.') == 2 && !IsDigit(p[0]);
    var t := "abc";
    assert IndexOfExponent(t) == 3 && t[..3] == t;
    assert IndexOf(t, '.') == 3;
    assert !IsDigit(t[0]);
  }

  /** Whole digits, a dot and fraction digits hold no exponent marker. */
  lemma DecimalHasNoExponent(whole: string, frac: string)
    requires AllDigits(whole) && AllDigits(frac)
    ensures IndexOfExponent(whole + "." + frac) == |whole + "." + frac|
  {
    var t := whole + "." + frac;
    forall j | 0 <= j < |t| ensures t[j] != 'e' && t[j] != 'E' {
      if j < |whole| {
        assert t[j] == whole[j] && IsDigit(whole[j]);
      } else if j > |whole| {
        assert t[j] == frac[j - |whole| - 1] && IsDigit(frac[j - |whole| - 1]);
      }
    }
  }

  /** The first dot of whole digits, a dot and fraction digits follows the whole digits. */
  lemma DecimalDot(whole: string, frac: string)
    requires AllDigits(whole)
    ensures IndexOf(whole + "." + frac, '.') == |whole|
  {
    var t := whole + "." + frac;
    assert t[|whole|] == '.';
    forall j | 0 <= j < |whole| ensures t[j] != '.' {
      assert t[j] == whole[j] && IsDigit(whole[j]);
    }
  }

  /** Whole digits, a dot and fraction digits are a mantissa worth whole + fraction / 10^|fraction|. */
  lemma MantissaOfDecimal(whole: string, frac: string)
    requires AllDigits(whole) && AllDigits(frac) && frac != []
    ensures ParseMantissa(whole + "." + frac) == Some(DecimalValue(whole, frac))
  {
    var t := whole + "." + frac;
    DecimalDot(whole, frac);
    assert t[..|whole|] == whole;
    assert t[|whole| + 1..] == frac;
  }

  /** Whole digits, a dot and fraction digits read as whole + fraction / 10^|fraction|. */
  lemma ParseUnsignedOfDecimal(whole: string, frac: string)
    requires AllDigits(whole) && AllDigits(frac) && frac != []
    ensures ParseUnsigned(whole + "." + frac) == ParseMantissa(whole + "." + frac)
  {
    var t := whole + "." + frac;
    DecimalHasNoExponent(whole, frac);
    assert t[..|t|] == t;
    MantissaOfDecimal(whole, frac);
    var m := ParseMantissa(t).value;
    assert m * Scale(0) == m;
  }

  /**
   * Every decimal text, whole digits (possibly none), a dot and at least one
   * fraction digit, reads as whole + fraction / 10^|fraction|, and with a
   * leading `-` as its negation.
   */
  lemma ParseFloatOfDecimal(whole: string, frac: string)
    requires AllDigits(whole) && AllDigits(frac) && frac != []
    ensures ParseFloat(whole + "." + frac) == Some(DecimalValue(whole, frac))
    ensures ParseFloat("-" + (whole + "." + frac)) == Some(-DecimalValue(whole, frac))
  {
    var t := whole + "." + frac;
    MantissaOfDecimal(whole, frac);
    ParseUnsignedOfDecimal(whole, frac);
    if whole == [] {
      assert t[0] == '.';
    } else {
      assert t[0] == whole[0] && IsDigit(whole[0]);
    }
    assert ("-" + t)[1..] == t;
  }

  /** The reduction field: the number 0 until edited, then the input's text. */
  datatype FieldValue = Num(number: real) | Text(text: string)

  /** `Number(reduction) || 0`: 0 and NaN both fall back to 0. */
  function ReductionValue(v: FieldValue): (r: real)
    ensures v.Num? ==> r == v.number
    ensures v.Text? && JsNumber(v.text).Some? ==> r == JsNumber(v.text).value
    ensures v.Text? && JsNumber(v.text).None? ==> r == 0.0
  {
    var n := match v
      case Num(x) => Some(x)
      case Text(s) => JsNumber(s);
    if n.Some? && n.value != 0.0 then n.value else 0.0
  }

  /**
   * What a submit emits for the given field values: nothing when the hours
   * text is empty, otherwise one entry built from the fields, its reduction
   * always present.
   */
  function SubmittedEntry(year: int, week: int, hoursWorked: string, isHoliday: bool, reduction: FieldValue): (r: Option<WeekEntry>)
    requires hoursWorked == "" || ParseFloat(hoursWorked).Some?
    ensures r.None? <==> hoursWorked == ""
    ensures r.Some? ==> r.value.year == year && r.value.week == week && r.value.isHoliday == isHoliday
    ensures r.Some? ==> Some(r.value.hoursWorked) == ParseFloat(hoursWorked)
    ensures r.Some? ==> r.value.reduction == Some(ReductionValue(reduction))
  {
    if hoursWorked == "" then None
    else Some(WeekEntry(year, week, JsNumber(hoursWorked).value, isHoliday, Some(ReductionValue(reduction))))
  }

  /** `"0"` hours is not empty: it is submitted, as 0 hours. */
  lemma ZeroHoursAreSubmitted(year: int, week: int, isHoliday: bool, reduction: FieldValue)
    ensures SubmittedEntry(year, week, "0", isHoliday, reduction).Some?
    ensures SubmittedEntry(year, week, "0", isHoliday, reduction).value.hoursWorked == 0.0
  {
    ParseFloatOfDigits("0");
    assert DigitsValue("0") == 0;
  }

  /** A cleared or unreadable reduction is submitted as 0. */
  lemma ReductionFallsBackToZero(s: string)
    requires s == "" || ParseFloat(s).None?
    ensures ReductionValue(Text(s)) == 0.0
  {
  }

  /** The form's state. */
  class WeekForm {
    var year: int
    var week: int
    var hoursWorked: string
    var isHoliday: bool
    var reduction: FieldValue

    /** The hours input holds the empty text or a valid number, as number inputs do. */
    ghost predicate Valid()
      reads this
    {
      hoursWorked == "" || ParseFloat(hoursWorked).Some?
    }

    /**
     * The initial state.  The year and the week are read from two separate
     * clock readings, `clockForYear` and `clockForWeek`; the week goes
     * through `getCurrentWeekNumber` as written, which is the ISO week from
     * year 101 on.
     */
    constructor (clockForYear: Date, clockForWeek: Date)
      requires ValidDate(clockForYear) && ValidDate(clockForWeek)
      ensures year == GetCurrentYear(clockForYear) && week == GetCurrentWeekNumberAsWritten(clockForWeek)
      ensures clockForWeek.year >= 101 ==> week == GetCurrentWeekNumber(clockForWeek)
      ensures hoursWorked == "" && !isHoliday && reduction == Num(0.0)
      ensures Valid()
    {
      year := GetCurrentYear(clockForYear);
      week := GetCurrentWeekNumberAsWritten(clockForWeek);
      hoursWorked := "";
      isHoliday := false;
      reduction := Num(0.0);
    }

    /** The target shown next to the holiday checkbox. */
    function DisplayedTarget(): (h: real)
      reads this
      ensures h == TargetHours(isHoliday)
      ensures h == 40.0 <==> isHoliday
    {
      TargetHours(isHoliday)
    }

    method SetYear(value: int)
      modifies this`year
      ensures year == value
    {
      year := value;
    }

    method SetWeek(value: int)
      modifies this`week
      ensures week == value
    {
      week := value;
    }

    method SetHoursWorked(value: string)
      requires value == "" || ParseFloat(value).Some?
      modifies this`hoursWorked
      ensures hoursWorked == value
    {
      hoursWorked := value;
    }

    method SetIsHoliday(checked: bool)
      modifies this`isHoliday
      ensures isHoliday == checked
    {
      isHoliday := checked;
    }

    method SetReduction(value: string)
      modifies this`reduction
      ensures reduction == Text(value)
    {
      reduction := Text(value);
    }

    /**
     * `handleSubmit`: with empty hours nothing is emitted and nothing
     * changes; otherwise the entry is emitted and hours, reduction and the
     * holiday flag are reset while year and week stay.
     */
    method Submit() returns (emitted: Option<WeekEntry>)
      requires Valid()
      modifies this
      ensures emitted == SubmittedEntry(old(year), old(week), old(hoursWorked), old(isHoliday), old(reduction))
      ensures old(hoursWorked) == "" ==> unchanged(this)
      ensures old(hoursWorked) != "" ==>
        year == old(year) && week == old(week) && hoursWorked == "" && reduction == Num(0.0) && !isHoliday
      ensures Valid()
    {
      if hoursWorked == "" {
        return None;
      }
      emitted := SubmittedEntry(year, week, hoursWorked, isHoliday, reduction);
      hoursWorked := "";
      reduction := Num(0.0);
      isHoliday := false;
    }
  }
}
