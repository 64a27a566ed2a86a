/**
 * The cell normalisers of src/app/services.py: digit extraction, the two
 * provider-id normalisers (one per ledger) and amount cleaning. Each is a
 * total function from one spreadsheet cell to a cleaned value: malformed
 * cells degrade to "no identifier" or to 0, never to an error.
 */
module Normalizers {
  import opened Wrappers
  import opened Strings

  /** A spreadsheet cell after the tabular read: empty (NaN) or its `str()` text. */
  datatype Cell = Missing | Text(text: string)

  /** The 9-digit base of the shared provider-code space. */
  const BASE_BALANCE_PREFIX: nat := 400000000

  /** Balance ids are zero-padded to this many digits. */
  const BALANCE_ID_WIDTH: nat := 9

  /** The leading five digits of BASE_BALANCE_PREFIX, put in front of every DDP code. */
  const DDP_PREFIX: string := "40000"

  /** `_extract_digits`: the digits of the stripped text, or no identifier. */
  function ExtractDigits(value: Cell): (r: Option<string>)
    ensures value.Missing? ==> r == None
    ensures r.Some? ==> r.value != [] && AllDigits(r.value)
  {
    match value
    case Missing => None
    case Text(t) =>
      var text := Strip(t);
      if text == [] then None
      else
        var digits := Digits(text);
        if digits == [] then None else Some(digits)
  }

  /**
   * Stripping plays no part in what is extracted: a text has an identifier
   * exactly when it holds a digit, and the identifier is the subsequence of
   * its digits in order. A blank text (white space only) has none.
   */
  lemma ExtractDigitsOfText(t: string)
    ensures ExtractDigits(Text(t)) == if Digits(t) == [] then None else Some(Digits(t))
    ensures ExtractDigits(Text(t)).Some? ==> IsSubsequence(ExtractDigits(Text(t)).value, t)
    ensures AllSpaces(t) ==> ExtractDigits(Text(t)) == None
    ensures ExtractDigits(Text(t)).Some? <==> exists i | 0 <= i < |t| :: IsDigit(t[i])
  {
    DigitsEmpty(t);
    DigitsOfStrip(t);
    DigitsIsSubsequence(t);
    if AllSpaces(t) {
      DigitsOfSpaces(t);
    }
  }

  /** `_normalize_balance_id`: the digits, left-padded with zeros to width 9. */
  function NormalizeBalanceId(value: Cell): (r: Option<string>)
    ensures r.Some? <==> ExtractDigits(value).Some?
    ensures r.Some? ==>
      var d := ExtractDigits(value).value;
      && |r.value| == (if |d| < BALANCE_ID_WIDTH then BALANCE_ID_WIDTH else |d|)
      && AllDigits(r.value)
      && r.value == Zeros(|r.value| - |d|) + d
  {
    match ExtractDigits(value)
    case None => None
    case Some(digits) =>
      var id := ZFill(digits, BALANCE_ID_WIDTH);
      AllDigitsConcat(Zeros(|id| - |digits|), digits);
      Some(id)
  }

  /**
   * `normalize_ddp_id`: no identifier without digits; otherwise the DDP id of
   * the extracted digits.
   */
  function NormalizeDdpId(value: Cell): (r: Option<string>)
    ensures r.Some? <==> ExtractDigits(value).Some?
    ensures r.Some? ==>
      && |r.value| == 9
      && r.value[..5] == DDP_PREFIX
      && AllDigits(r.value)
      && 1000 <= ParseNat(r.value[5..]) <= 9999
  {
    match ExtractDigits(value)
    case None => None
    case Some(digits) => Some(DdpIdOfDigits(digits))
  }

  /**
   * The value of the last four digits, with 0 read as 1 and then values
   * below 1000 raised by 1000.
   */
  function DdpIdOfDigits(digits: string): (id: string)
    requires AllDigits(digits)
    ensures |id| == 9 && id[..5] == DDP_PREFIX && AllDigits(id)
    ensures 1000 <= ParseNat(id[5..]) <= 9999
  {
    LastFourValue(digits);
    var parsed := ParseNat(LastFour(digits));
    var nonZero := if parsed == 0 then 1 else parsed;
    var number := if nonZero < 1000 then nonZero + 1000 else nonZero;
    DdpIdOfCode(number)
  }

  /** `f"40000{number:04d}"` for a four-digit number. */
  function DdpIdOfCode(number: nat): (id: string)
    requires 1000 <= number <= 9999
    ensures |id| == 9 && id[..5] == DDP_PREFIX && AllDigits(id)
    ensures ParseNat(id[5..]) == number
  {
    var code := Format04(number);
    AllDigitsConcat(DDP_PREFIX, code);
    assert (DDP_PREFIX + code)[..5] == DDP_PREFIX && (DDP_PREFIX + code)[5..] == code;
    DDP_PREFIX + code
  }

  /** The four-digit code of a DDP id: its last four digits as a number. */
  function DdpCode(digits: string): (c: nat)
    requires AllDigits(digits)
    ensures 1000 <= c <= 9999
  {
    var v := ParseNat(digits) % 10000;
    if v == 0 then 1001 else if v < 1000 then v + 1000 else v
  }

  lemma ParseNatDdpPrefix()
    ensures AllDigits(DDP_PREFIX) && ParseNat(DDP_PREFIX) == 40000
  {
    assert DDP_PREFIX[..4] == "4000" && "4000"[..3] == "400" && "400"[..2] == "40" && "40"[..1] == "4";
    assert "4"[..0] == "";
  }

  /**
   * Read as a number, the DDP id of digits `d` is BASE_BALANCE_PREFIX plus
   * the code of `d`, and that code depends on `d` only through its value
   * modulo 10000: only the last four digits count.
   */
  lemma DdpIdValue(value: Cell)
    requires ExtractDigits(value).Some?
    ensures var id := NormalizeDdpId(value).value;
      ParseNat(id) == BASE_BALANCE_PREFIX + DdpCode(ExtractDigits(value).value)
    ensures ParseNat(NormalizeDdpId(value).value[5..]) == DdpCode(ExtractDigits(value).value)
  {
    var d := ExtractDigits(value).value;
    LastFourValue(d);
    var id := NormalizeDdpId(value).value;
    assert id == DDP_PREFIX + id[5..];
    ParseNatDdpPrefix();
    ParseNatConcat(DDP_PREFIX, id[5..]);
    assert Pow10(4) == 10000;
  }

  /** Two cells whose digits agree modulo 10000 get the same DDP id. */
  lemma DdpIdLastFourDigits(a: Cell, b: Cell)
    requires ExtractDigits(a).Some? && ExtractDigits(b).Some?
    requires ParseNat(ExtractDigits(a).value) % 10000 == ParseNat(ExtractDigits(b).value) % 10000
    ensures NormalizeDdpId(a) == NormalizeDdpId(b)
  {
    var da, db := ExtractDigits(a).value, ExtractDigits(b).value;
    DdpIdOfDigitsMod(da, db);
    assert NormalizeDdpId(a) == Some(DdpIdOfDigits(da));
    assert NormalizeDdpId(b) == Some(DdpIdOfDigits(db));
  }

  lemma DdpIdOfDigitsMod(da: string, db: string)
    requires AllDigits(da) && AllDigits(db) && ParseNat(da) % 10000 == ParseNat(db) % 10000
    ensures DdpIdOfDigits(da) == DdpIdOfDigits(db)
  {
    LastFourValue(da);
    LastFourValue(db);
  }

  /** DDP ids are determined by their code, and distinct codes give distinct ids. */
  lemma DdpIdsEqualIffCodesEqual(a: Cell, b: Cell)
    requires ExtractDigits(a).Some? && ExtractDigits(b).Some?
    ensures NormalizeDdpId(a) == NormalizeDdpId(b)
        <==> DdpCode(ExtractDigits(a).value) == DdpCode(ExtractDigits(b).value)
  {
    DdpIdValue(a);
    DdpIdValue(b);
    LastFourValue(ExtractDigits(a).value);
    LastFourValue(ExtractDigits(b).value);
  }

  /** A normalised Balance id normalises to itself. */
  lemma BalanceIdIdempotent(value: Cell)
    requires NormalizeBalanceId(value).Some?
    ensures NormalizeBalanceId(Text(NormalizeBalanceId(value).value)) == NormalizeBalanceId(value)
  {
    var id := NormalizeBalanceId(value).value;
    DigitsOfDigits(id);
    ExtractDigitsOfText(id);
  }

  /** A normalised DDP id normalises to itself. */
  lemma DdpIdIdempotent(value: Cell)
    requires NormalizeDdpId(value).Some?
    ensures NormalizeDdpId(Text(NormalizeDdpId(value).value)) == NormalizeDdpId(value)
  {
    var id := NormalizeDdpId(value).value;
    DigitsOfDigits(id);
    ExtractDigitsOfText(id);
    assert LastFour(id) == id[5..];
    var code := ParseNat(id[5..]);
    assert id == DdpIdOfCode(code) by {
      var d := ExtractDigits(value).value;
      var parsed := ParseNat(LastFour(d));
      var nonZero := if parsed == 0 then 1 else parsed;
      var number := if nonZero < 1000 then nonZero + 1000 else nonZero;
      assert id == DdpIdOfCode(number);
    }
  }

  /**
   * A DDP id is already a Balance id: the Balance normaliser leaves it as it
   * is, so ids of both ledgers live in one key space.
   */
  lemma DdpIdIsBalanceId(value: Cell)
    requires NormalizeDdpId(value).Some?
    ensures NormalizeBalanceId(Text(NormalizeDdpId(value).value)) == NormalizeDdpId(value)
  {
    var id := NormalizeDdpId(value).value;
    DigitsOfDigits(id);
    ExtractDigitsOfText(id);
  }

  /** The DDP id of digits `d` is the id of the code of `d`. */
  lemma DdpIdByCode(d: string)
    requires AllDigits(d)
    ensures DdpIdOfDigits(d) == DdpIdOfCode(DdpCode(d))
  {
    LastFourValue(d);
  }

  /** A cell of digits only has itself as digits, and its DDP id is that of its code. */
  lemma DdpIdOfDigitText(d: string)
    requires d != [] && AllDigits(d)
    ensures NormalizeDdpId(Text(d)) == Some(DdpIdOfCode(DdpCode(d)))
  {
    DigitsOfDigits(d);
    ExtractDigitsOfText(d);
    DdpIdByCode(d);
  }

  /** A four-digit code is written out as its own decimal text after the prefix. */
  lemma DdpIdOfCodeText(n: nat)
    requires 1000 <= n <= 9999
    ensures DdpIdOfCode(n) == DDP_PREFIX + ToDecimal(n)
  {
    assert Pow10(4) == 10000 && Pow10(3) == 1000;
    ToDecimalLength(n, 4);
    ToDecimalLengthAtLeast(n, 4);
  }

  /**
   * A cell holding `str(n)` gets the prefix followed by the decimal text of
   * `n % 10000`, with 0 read as 1001 and codes below 1000 raised by 1000.
   */
  lemma DdpIdOfNumber(n: nat, t: string, code: nat)
    requires t == ToDecimal(n)
    requires var v := n % 10000; code == if v == 0 then 1001 else if v < 1000 then v + 1000 else v
    ensures NormalizeDdpId(Text(t)) == Some(DDP_PREFIX + ToDecimal(code))
  {
    DdpIdOfDigitText(t);
    ParseNatToDecimal(n);
    DdpIdOfCodeText(code);
  }

  /** Only the digits of a cell count: cells with the same digits get the same DDP id. */
  lemma DdpIdOfSameDigits(a: string, b: string)
    requires Digits(a) == Digits(b)
    ensures NormalizeDdpId(Text(a)) == NormalizeDdpId(Text(b))
  {
    ExtractDigitsOfText(a);
    ExtractDigitsOfText(b);
  }

  lemma TextOfZero()
    ensures ToDecimal(0) == "0" && ToDecimal(1001) == "1001" && DDP_PREFIX + "1001" == "400001001"
  {
    assert ToDecimal(1001) == "1001";
  }

  lemma TextOf2500()
    ensures ToDecimal(2500) == "2500" && DDP_PREFIX + "2500" == "400002500"
  {
    assert ToDecimal(2500) == "2500";
  }

  /** `normalize_ddp_id("0") == "400001001"`: a zero code is read as 1 and then raised by 1000. */
  lemma DdpIdOfZero()
    ensures NormalizeDdpId(Text("0")) == Some("400001001")
  {
    TextOfZero();
    DdpIdOfNumber(0, "0", 1001);
  }

  /** `normalize_ddp_id("2500") == "400002500"`: a four-digit code is kept. */
  lemma DdpIdOfFourDigits()
    ensures NormalizeDdpId(Text("2500")) == Some("400002500")
  {
    TextOf2500();
    DdpIdOfNumber(2500, "2500", 2500);
  }

  /** A cell without digits, or an empty one, has no DDP id. */
  lemma DdpIdOfNoDigits()
    ensures NormalizeDdpId(Text("n/a")) == None && NormalizeDdpId(Missing) == None
  {
    assert Digits("n/a") == [];
    ExtractDigitsOfText("n/a");
  }

  /**
   * Python's `float(s)` on its decimal forms: surrounding white space, an
   * optional sign, then digits with at most one '.', at least one digit.
   */
  function ParseFloat(s: string): (r: Option<real>)
    ensures Strip(s) == [] ==> r == None
  {
    ParseSigned(Strip(s))
  }

  function ParseSigned(s: string): (r: Option<real>)
    ensures r.Some? && r.value < 0.0 ==> s != [] && s[0] == '-'
    ensures r.Some? && s != [] && s[0] == '-' ==> r.value <= 0.0
  {
    if s != [] && (s[0] == '-' || s[0] == '+') then
      match ParseUnsigned(s[1..])
      case Some(x) => Some(if s[0] == '-' then -x else x)
      case None => None
    else
      ParseUnsigned(s)
  }

  /** The value of the digits `whole` '.' `fraction`. */
  function PointValue(whole: string, fraction: string): (x: real)
    requires AllDigits(whole) && AllDigits(fraction)
    ensures x >= 0.0
  {
    ParseNat(whole) as real + ParseNat(fraction) as real / Pow10(|fraction|) as real
  }

  function ParseUnsigned(s: string): (r: Option<real>)
    ensures r.Some? ==> r.value >= 0.0
  {
    if '.' in s then
      var k := IndexOf(s, '.');
      var whole, fraction := s[..k], s[k + 1..];
      if AllDigits(whole) && AllDigits(fraction) && (whole != [] || fraction != []) then
        Some(PointValue(whole, fraction))
      else
        None
    else if s != [] && AllDigits(s) then
      Some(ParseNat(s) as real)
    else
      None
  }

  /** The value of a parse, 0 when it failed. */
  function OrZero(x: Option<real>): real
  {
    if x.Some? then x.value else 0.0
  }

  /** `_clean_amount`: blank gives 0, otherwise the number with its commas removed, 0 if it does not parse. */
  function CleanAmount(value: Cell): (r: real)
    ensures value.Missing? ==> r == 0.0
  {
    match value
    case Missing => 0.0
    case Text(t) =>
      var text := Strip(t);
      if text == [] then 0.0 else OrZero(ParseFloat(RemoveCommas(text)))
  }

  /** A cell holding only white space cleans to 0. */
  lemma CleanAmountBlank(t: string)
    requires AllSpaces(t)
    ensures CleanAmount(Text(t)) == 0.0
  {
    StripSpaces(t);
  }

  /** Commas anywhere in the text are thousands separators: removing them first changes nothing. */
  lemma CleanAmountIgnoresCommas(s: string)
    ensures CleanAmount(Text(s)) == CleanAmount(Text(RemoveCommas(s)))
  {
    var rc := RemoveCommas(s);
    StripRemoveCommas(s);
    StripKeepsAbsent(rc, ',');
    RemoveCommasNone(Strip(rc));
    StripIdempotent(rc);
  }

  /** A comma-free text with no white space at its ends cleans to what `float` makes of it, 0 if nothing. */
  lemma CleanAmountOfTidy(t: string)
    requires t != [] && !IsSpace(t[0]) && !IsSpace(t[|t| - 1]) && ',' !in t
    ensures CleanAmount(Text(t)) == OrZero(ParseSigned(t))
  {
    StripUnpadded(t);
    RemoveCommasNone(t);
  }

  /** The text `str(n)` of an integer `n`. */
  function IntText(n: int): string
  {
    if n < 0 then "-" + ToDecimal(-n) else ToDecimal(n)
  }

  lemma ParseUnsignedOfDecimal(m: nat)
    ensures ParseUnsigned(ToDecimal(m)) == Some(m as real)
  {
    ParseNatToDecimal(m);
    var digits := ToDecimal(m);
    assert '.' !in digits by {
      assert forall i | 0 <= i < |digits| :: IsDigit(digits[i]);
    }
  }

  /** `float(str(n)) == n` for every integer `n`. */
  lemma ParseSignedOfInt(n: int)
    ensures ParseSigned(IntText(n)) == Some(n as real)
  {
    var m: nat := if n < 0 then -n else n;
    ParseUnsignedOfDecimal(m);
    var t := IntText(n);
    if n < 0 {
      assert t[1..] == ToDecimal(m);
    } else {
      assert t[0] != '-' && t[0] != '+' by { assert IsDigit(t[0]); }
    }
  }

  /** Amount cleaning reads back the integer it is given as text. */
  lemma CleanAmountOfInteger(n: int)
    ensures CleanAmount(Text(IntText(n))) == n as real
  {
    var t := IntText(n);
    assert t != [] && !IsSpace(t[0]) && !IsSpace(t[|t| - 1]) && ',' !in t by {
      var m: nat := if n < 0 then -n else n;
      var digits := ToDecimal(m);
      assert IsDigit(digits[|digits| - 1]);
      assert t[|t| - 1] == digits[|digits| - 1];
      assert forall i | 0 <= i < |digits| :: digits[i] != ',';
      assert n < 0 ==> t == "-" + digits;
    }
    CleanAmountOfTidy(t);
    ParseSignedOfInt(n);
  }

  /** `float` parses digits around one '.' as the whole part plus the fraction. */
  lemma ParseUnsignedOfPoint(w: string, f: string)
    requires AllDigits(w) && AllDigits(f) && (w != [] || f != [])
    ensures ParseUnsigned(w + "." + f) == Some(PointValue(w, f))
  {
    var t := w + "." + f;
    assert t[|w|] == '.';
    assert '.' !in w by {
      assert forall i | 0 <= i < |w| :: IsDigit(w[i]);
    }
    assert IndexOf(t, '.') == |w| by {
      assert forall k | 0 <= k < |w| :: t[k] == w[k];
      assert forall k | |w| < k <= |t| :: t[..k][|w|] == '.';
    }
    assert t[..|w|] == w && t[|w| + 1..] == f;
  }

  /** Digits around one '.' make a comma-free text that is neither signed nor padded. */
  lemma PointTextTidy(w: string, f: string)
    requires AllDigits(w) && AllDigits(f) && (w != [] || f != [])
    ensures var t := w + "." + f;
      && !IsSpace(t[0]) && !IsSpace(t[|t| - 1]) && ',' !in t
      && t[0] != '-' && t[0] != '+'
  {
    var t := w + "." + f;
    assert t[0] == if w != [] then w[0] else '.';
    assert t[|t| - 1] == if f != [] then f[|f| - 1] else '.';
    forall i | 0 <= i < |t| ensures t[i] != ',' {
      if i < |w| { assert t[i] == w[i]; }
      else if i > |w| { assert t[i] == f[i - |w| - 1]; }
    }
  }

  /** A cell holding digits around one '.' cleans to their decimal value. */
  lemma CleanAmountOfPoint(w: string, f: string)
    requires AllDigits(w) && AllDigits(f) && (w != [] || f != [])
    ensures CleanAmount(Text(w + "." + f)) == PointValue(w, f)
  {
    var t := w + "." + f;
    PointTextTidy(w, f);
    CleanAmountOfTidy(t);
    ParseUnsignedOfPoint(w, f);
    assert ParseSigned(t) == ParseUnsigned(t);
  }

  /** A leading '-' negates the amount of a comma-free unsigned number. */
  lemma CleanAmountOfMinus(u: string)
    requires u != [] && !IsSpace(u[|u| - 1]) && ',' !in u && ParseUnsigned(u).Some?
    ensures CleanAmount(Text("-" + u)) == -ParseUnsigned(u).value
  {
    var t := "-" + u;
    assert t[|t| - 1] == u[|u| - 1] && t[1..] == u;
    assert ',' !in t by {
      forall i | 0 <= i < |t| ensures t[i] != ',' {
        if i > 0 { assert t[i] == u[i - 1]; }
      }
    }
    CleanAmountOfTidy(t);
  }

  /** `float` succeeds only on text that holds a digit. */
  lemma ParseUnsignedNeedsDigit(x: string)
    requires ParseUnsigned(x).Some?
    ensures Digits(x) != []
  {
    if '.' in x {
      var k := IndexOf(x, '.');
      var whole, fraction := x[..k], x[k + 1..];
      assert x == whole + [x[k]] + fraction;
      DigitsConcat(whole + [x[k]], fraction);
      DigitsConcat(whole, [x[k]]);
      if whole != [] {
        DigitsOfDigits(whole);
      } else {
        DigitsOfDigits(fraction);
      }
    } else {
      DigitsOfDigits(x);
    }
  }

  lemma ParseSignedNeedsDigit(x: string)
    requires ParseSigned(x).Some?
    ensures Digits(x) != []
  {
    if x != [] && (x[0] == '-' || x[0] == '+') {
      ParseUnsignedNeedsDigit(x[1..]);
      assert x == [x[0]] + x[1..];
      DigitsConcat([x[0]], x[1..]);
    } else {
      ParseUnsignedNeedsDigit(x);
    }
  }

  /** A cell without a single digit cleans to 0: it is blank or does not parse. */
  lemma CleanAmountWithoutDigits(t: string)
    requires Digits(t) == []
    ensures CleanAmount(Text(t)) == 0.0
  {
    var x := Strip(RemoveCommas(Strip(t)));
    DigitsOfStrip(t);
    DigitsOfRemoveCommas(Strip(t));
    DigitsOfStrip(RemoveCommas(Strip(t)));
    if ParseSigned(x).Some? {
      ParseSignedNeedsDigit(x);
    }
  }

  lemma ThousandsTexts()
    ensures RemoveCommas("1,234.5") == "1234.5" && "1234" + "." + "5" == "1234.5"
  {
    assert RemoveCommas("1,234.5") == "1234.5";
  }

  lemma ThousandsValue()
    ensures AllDigits("1234") && AllDigits("5") && PointValue("1234", "5") == 1234.5
  {
    assert ParseNat("1234") == 1234 by {
      assert "1234"[..3] == "123" && "123"[..2] == "12" && "12"[..1] == "1" && "1"[..0] == "";
    }
    assert ParseNat("5") == 5 by { assert "5"[..0] == ""; }
  }

  /** `_clean_amount("1,234.5") == 1234.5`: the comma is a thousands separator. */
  lemma CleanAmountOfThousands()
    ensures CleanAmount(Text("1,234.5")) == 1234.5
  {
    ThousandsTexts();
    ThousandsValue();
    CleanAmountIgnoresCommas("1,234.5");
    CleanAmountOfPoint("1234", "5");
  }
}
