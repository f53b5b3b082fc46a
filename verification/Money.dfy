/**
 * Money between minor units and strings: the printer, the parser for what
 * users type, and the parser for what providers send. All arithmetic is on
 * exact integers; a result outside the safe range is None.
 */
module Money {
  import opened Wrappers
  import opened Digits

  const MAX_SAFE_INTEGER: int := 9007199254740991

  const ZERO_DECIMAL_CURRENCIES: set<string> := {
    "BIF", "CLP", "DJF", "GNF", "ISK", "JPY", "KMF", "KRW", "MGA", "PYG", "RWF", "UGX", "VND", "VUV", "XAF", "XOF",
    "XPF"
  }

  function Upper(s: string): string {
    seq(|s|, i requires 0 <= i < |s| => if 'a' <= s[i] <= 'z' then (s[i] as int - 32) as char else s[i])
  }

  predicate ZeroDecimal(currency: string) {
    Upper(currency) in ZERO_DECIMAL_CURRENCIES
  }

  function CurrencyDecimals(currency: string): nat {
    if ZeroDecimal(currency) then 0 else 2
  }

  function Scale(currency: string): (scale: nat)
    ensures scale == Pow10(CurrencyDecimals(currency)) && 0 < scale
  {
    if ZeroDecimal(currency) then 1
    else
      assert Pow10(2) == 10 * Pow10(1) && Pow10(1) == 10 * Pow10(0);
      100
  }

  predicate Safe(m: int) {
    -MAX_SAFE_INTEGER <= m <= MAX_SAFE_INTEGER
  }

  // ---- strings ----

  predicate IsSpace(c: char) {
    var n := c as int;
    || 9 <= n <= 13 || n == 32 || n == 0xA0 || n == 0x1680 || 0x2000 <= n <= 0x200A
    || n == 0x2028 || n == 0x2029 || n == 0x202F || n == 0x205F || n == 0x3000 || n == 0xFEFF
  }

  function TrimStart(s: string): string {
    if s != [] && IsSpace(s[0]) then TrimStart(s[1..]) else s
  }

  function TrimEnd(s: string): string {
    if s != [] && IsSpace(s[|s| - 1]) then TrimEnd(s[..|s| - 1]) else s
  }

  function Trim(s: string): string {
    TrimEnd(TrimStart(s))
  }

  /** What comes before the first dot, and after it if there is one. */
  function SplitAtDot(s: string): (r: (string, Option<string>)) {
    if s == [] then ("", None)
    else if s[0] == '.' then ("", Some(s[1..]))
    else
      var rest := SplitAtDot(s[1..]);
      ([s[0]] + rest.0, rest.1)
  }

  lemma {:induction false} SplitJoined(w: string, f: Option<string>)
    requires forall i :: 0 <= i < |w| ==> w[i] != '.'
    ensures SplitAtDot(w + if f.Some? then "." + f.value else "") == (w, f)
  {
    var tail := if f.Some? then "." + f.value else "";
    if w == [] {
      assert w + tail == tail;
      if f.Some? {
        assert tail[1..] == f.value;
      }
    } else {
      assert (w + tail)[1..] == w[1..] + tail;
      SplitJoined(w[1..], f);
      assert w == [w[0]] + w[1..];
    }
  }

  lemma TrimKeeps(s: string)
    requires s != [] ==> !IsSpace(s[0]) && !IsSpace(s[|s| - 1])
    ensures Trim(s) == s
  {
  }

  /** `digits` filled up with zeros on the right. */
  function PadEnd(digits: string, n: nat): (r: string)
    requires AllDigits(digits)
    ensures AllDigits(r) && |r| == Max(|digits|, n)
    decreases n - |digits|
  {
    if n <= |digits| then digits else PadEnd(digits + "0", n)
  }

  function PadStart(digits: string, n: nat): (r: string)
    requires AllDigits(digits)
    ensures AllDigits(r) && |r| == Max(|digits|, n)
    decreases n - |digits|
  {
    if n <= |digits| then digits else PadStart("0" + digits, n)
  }

  // ---- what users type ----

  /** \d{1,3}(,\d{3})+ */
  predicate Grouped(w: string) {
    && 5 <= |w| && w[|w| - 4] == ',' && AllDigits(w[|w| - 3..])
    && var first := w[..|w| - 4];
       (|first| <= 3 && AllDigits(first)) || Grouped(first)
  }

  predicate GroupedInteger(w: string) {
    (w != [] && AllDigits(w)) || Grouped(w)
  }

  function Ungroup(w: string): string {
    if w == [] then [] else if w[|w| - 1] == ',' then Ungroup(w[..|w| - 1]) else Ungroup(w[..|w| - 1]) + [w[|w| - 1]]
  }

  lemma {:induction false} UngroupJoin(a: string, b: string)
    ensures Ungroup(a + b) == Ungroup(a) + Ungroup(b)
  {
    if b == [] {
      assert a + b == a;
    } else {
      assert (a + b)[..|a + b| - 1] == a + b[..|b| - 1];
      UngroupJoin(a, b[..|b| - 1]);
    }
  }

  lemma {:induction false} UngroupDigits(w: string)
    requires AllDigits(w)
    ensures Ungroup(w) == w
  {
    if w != [] {
      UngroupDigits(w[..|w| - 1]);
    }
  }

  lemma {:induction false} UngroupGrouped(w: string)
    requires Grouped(w)
    ensures AllDigits(Ungroup(w)) && 3 < |Ungroup(w)|
  {
    var first, comma, last := w[..|w| - 4], w[|w| - 4..|w| - 3], w[|w| - 3..];
    assert w == first + (comma + last);
    UngroupJoin(first, comma + last);
    UngroupJoin(comma, last);
    assert comma == ",";
    UngroupDigits(last);
    if |first| <= 3 && AllDigits(first) {
      UngroupDigits(first);
    } else {
      UngroupGrouped(first);
    }
  }

  lemma UngroupInteger(w: string)
    requires GroupedInteger(w)
    ensures Ungroup(w) != [] && AllDigits(Ungroup(w))
  {
    if AllDigits(w) {
      UngroupDigits(w);
    } else {
      UngroupGrouped(w);
    }
  }

  /** The whole part is an integer, grouped or not; two-decimal currencies also take a dot and up to two digits. */
  predicate DisplayForm(w: string, f: Option<string>, currency: string) {
    && GroupedInteger(w)
    && (f.Some? ==> !ZeroDecimal(currency) && |f.value| <= 2 && AllDigits(f.value))
  }

  function ParseDisplay(input: string, currency: string): Option<int> {
    var (w, f) := SplitAtDot(Trim(input));
    if !DisplayForm(w, f, currency) then None
    else
      UngroupInteger(w);
      var integer := Value(Ungroup(w));
      if !Safe(integer) then None
      else if ZeroDecimal(currency) then Some(integer)
      else if integer * 100 > MAX_SAFE_INTEGER then None
      else
        var minor := integer * 100 + Value(PadEnd(if f.Some? then f.value else "", 2));
        if Safe(minor) then Some(minor) else None
  }

  // ---- what providers send ----

  function Unsigned(text: string): string {
    if text != [] && (text[0] == '-' || text[0] == '+') then text[1..] else text
  }

  function Sign(text: string): int {
    if text != [] && text[0] == '-' then -1 else 1
  }

  predicate ProviderForm(w: string, f: Option<string>) {
    w != [] && AllDigits(w) && (f.Some? ==> f.value != [] && AllDigits(f.value))
  }

  function Prefix(s: string, n: nat): string {
    s[..Min(n, |s|)]
  }

  function ParseProvider(value: string, currency: string): Option<int> {
    var text := Trim(value);
    var (w, f) := SplitAtDot(Unsigned(text));
    if !ProviderForm(w, f) then None
    else
      var decimals := CurrencyDecimals(currency);
      var whole := Value(w);
      if !Safe(whole) || whole * Scale(currency) > MAX_SAFE_INTEGER then None
      else
        var fraction := if f.Some? then f.value else "";
        var kept := Value(PadEnd(Prefix(fraction, decimals), decimals));
        var roundUp := decimals < |fraction| && 5 <= DigitValue(fraction[decimals]);
        var minor := Sign(text) * (whole * Scale(currency) + kept + if roundUp then 1 else 0);
        if Safe(minor) then Some(minor) else None
  }

  // ---- the printer ----

  function ToDisplay(m: int, currency: string): string
    requires Safe(m)
  {
    var abs := if m < 0 then -m else m;
    var scale := Scale(currency);
    var fraction := abs % scale;
    var whole := (abs - fraction) / scale;
    (if m < 0 then "-" else "") + Numeral(whole)
    + if ZeroDecimal(currency) then "" else "." + PadStart(Numeral(fraction), 2)
  }

  // ---- the provider parser is exact ----

  /** The digits of a decimal string, taken as one number, in units of its last digit. */
  function Magnitude(w: string, f: string): nat
    requires AllDigits(w) && AllDigits(f)
  {
    Value(w + f)
  }

  /** The value of a digit string in minor units, rounded half up. */
  function Rounded(w: string, f: string, currency: string): nat
    requires AllDigits(w) && AllDigits(f)
  {
    HalfUp(Magnitude(w, f) * Scale(currency), Pow10(|f|))
  }

  lemma ValueOfZero(digits: string)
    requires AllDigits(digits)
    ensures Value(digits + "0") == Value(digits) * 10
  {
    assert (digits + "0")[..|digits + "0"| - 1] == digits;
  }

  /** Whole currencies: the fraction only decides the rounding. */
  lemma RoundedWhole(w: string, f: string)
    requires AllDigits(w) && AllDigits(f)
    ensures HalfUp(Value(w + f) * 1, Pow10(|f|)) == Value(w) + if f != [] && 5 <= DigitValue(f[0]) then 1 else 0
  {
    hide Value, HalfUp, Pow10;
    ValueOfJoin(w, f);
    ValueBound(f);
    HalfUpOf(Value(w), Pow10(|f|), Value(f));
    HalfIsFirstDigit(f);
  }

  /** Two digits are kept; the rest of the fraction only decides the rounding. */
  lemma RoundedCents(w: string, kept: string, rest: string)
    requires AllDigits(w) && AllDigits(kept) && AllDigits(rest) && |kept| == 2
    ensures AllDigits(kept + rest)
    ensures HalfUp(Value(w + (kept + rest)) * 100, Pow10(|kept + rest|))
            == Value(w) * 100 + Value(kept) + if rest != [] && 5 <= DigitValue(rest[0]) then 1 else 0
  {
    hide Value, HalfUp;
    ValueOfJoin(w, kept);
    ValueOfJoin(w + kept, rest);
    assert w + (kept + rest) == (w + kept) + rest;
    ValueBound(rest);
    HalfIsFirstDigit(rest);
    var p := Pow10(|rest|);
    PowOfTwoMore(|rest|);
    assert Pow10(2) == 10 * Pow10(1) && Pow10(1) == 10 * Pow10(0);
    var q := Value(w) * 100 + Value(kept);
    HalfUpScaled(q, p, Value(rest));
  }

  lemma PowOfTwoMore(n: nat)
    ensures Pow10(n + 2) == 100 * Pow10(n)
  {
    assert Pow10(n + 2) == 10 * Pow10(n + 1);
  }

  /** Scaling numerator and denominator by a hundred does not change the rounding. */
  lemma HalfUpScaled(q: nat, p: nat, r: nat)
    requires r < p
    ensures HalfUp((q * p + r) * 100, 100 * p) == q + if p <= 2 * r then 1 else 0
  {
    assert (q * p + r) * 100 == q * (100 * p) + r * 100;
    HalfUpOf(q, 100 * p, r * 100);
  }

  lemma PadOne(f: string)
    requires AllDigits(f) && |f| == 1
    ensures PadEnd(f, 2) == f + "0" && Value(f + "0") == Value(f) * 10
  {
    ValueOfZero(f);
  }

  lemma PadNone(f: string)
    requires f == []
    ensures PadEnd(f, 2) == "00" && Value("00") == 0
  {
    assert f + "0" == "0";
    assert "0" + "0" == "00";
    assert PadEnd("0", 2) == PadEnd("00", 2);
    ValueOfZero("0");
    ValueOfZero([]);
    assert [] + "0" == "0";
  }

  /** The kept digits and the rounding together are the exact value rounded half up. */
  lemma KeptIsRounded(w: string, f: string, currency: string)
    requires AllDigits(w) && AllDigits(f)
    ensures var d := CurrencyDecimals(currency);
            Rounded(w, f, currency)
            == Value(w) * Scale(currency) + Value(PadEnd(Prefix(f, d), d))
              + if d < |f| && 5 <= DigitValue(f[d]) then 1 else 0
  {
    hide HalfUp, Value;
    if ZeroDecimal(currency) {
      RoundedWhole(w, f);
      assert Prefix(f, 0) == [];
      EmptyIsZero();
    } else if 2 <= |f| {
      RoundedCents(w, f[..2], f[2..]);
      assert f[..2] + f[2..] == f;
    } else {
      ShortFraction(w, f);
      if |f| == 1 {
        assert Prefix(f, 2) == f;
        PadOne(f);
      } else {
        assert Prefix(f, 2) == f;
        PadNone(f);
      }
    }
  }

  lemma EmptyIsZero()
    ensures Value([]) == 0
  {
  }

  /** Fewer than two fraction digits: nothing to round. */
  lemma ShortFraction(w: string, f: string)
    requires AllDigits(w) && AllDigits(f) && |f| < 2
    ensures HalfUp(Value(w + f) * 100, Pow10(|f|)) == Value(w) * 100 + if |f| == 1 then Value(f) * 10 else 0
  {
    ValueOfJoin(w, f);
    EmptyIsZero();
    assert Pow10(1) == 10 * Pow10(0);
    if |f| == 1 {
      HalfUpOf(Value(w) * 100 + Value(f) * 10, 10, 0);
      hide Value;
    } else {
      assert f == [];
      HalfUpOf(Value(w) * 100, 1, 0);
      hide Value;
    }
  }

  /**
   * For digit strings of any length: the parser returns the exact value in
   * minor units, rounded half up in magnitude, and None exactly when that is
   * not a safe integer.
   */
  lemma ProviderAmountIsExact(value: string, currency: string)
    ensures var text := Trim(value); var (w, f) := SplitAtDot(Unsigned(text));
            if ProviderForm(w, f) then
              var r := Sign(text) * Rounded(w, if f.Some? then f.value else "", currency);
              ParseProvider(value, currency) == if Safe(r) then Some(r) else None
            else ParseProvider(value, currency).None?
  {
    hide Rounded, Value, Trim, SplitAtDot, PadEnd;
    var text := Trim(value);
    var (w, f) := SplitAtDot(Unsigned(text));
    if ProviderForm(w, f) {
      KeptIsRounded(w, if f.Some? then f.value else "", currency);
    }
  }

  /**
   * What users type: None unless it is an integer, grouped or not, and for
   * two-decimal currencies maybe a dot and up to two digits; then its exact
   * value in minor units, and None exactly when that is not a safe integer.
   */
  lemma DisplayAmountIsExact(input: string, currency: string)
    ensures var (w, f) := SplitAtDot(Trim(input));
            if && GroupedInteger(w)
               && (f.Some? ==> CurrencyDecimals(currency) == 2 && |f.value| <= 2 && AllDigits(f.value))
            then
              && AllDigits(Ungroup(w))
              && var r := Rounded(Ungroup(w), if f.Some? then f.value else "", currency);
                 ParseDisplay(input, currency) == if Safe(r) then Some(r) else None
            else ParseDisplay(input, currency).None?
  {
    hide Rounded, Value, Trim, SplitAtDot, PadEnd, Ungroup, GroupedInteger;
    var (w, f) := SplitAtDot(Trim(input));
    if DisplayForm(w, f, currency) {
      UngroupInteger(w);
      var fraction := if f.Some? then f.value else "";
      KeptIsRounded(Ungroup(w), fraction, currency);
      if ZeroDecimal(currency) {
        assert Prefix("", 0) == "";
        PadEmpty();
        EmptyIsZero();
      } else {
        assert Prefix(fraction, 2) == fraction;
      }
    }
  }

  /** A number as providers write it, with any sign or none: its exact value, rounded half up in magnitude. */
  lemma ProviderReads(sign: string, w: string, f: Option<string>, currency: string)
    requires sign in {"", "+", "-"} && ProviderForm(w, f)
    ensures var r := (if sign == "-" then -1 else 1) * Rounded(w, if f.Some? then f.value else "", currency);
            ParseProvider(sign + Written(w, f), currency) == if Safe(r) then Some(r) else None
  {
    hide Rounded, Value, Trim, SplitAtDot, ParseProvider;
    var text := sign + Written(w, f);
    NumeralHasNoDot(w);
    WrittenReads(w, f);
    LastIsNoSpace(w, f);
    assert Written(w, f)[0] == w[0];
    assert Unsigned(text) == Written(w, f) && Sign(text) == if sign == "-" then -1 else 1;
    TrimKeeps(text);
    ProviderAmountIsExact(text, currency);
  }

  // ---- round trips ----

  lemma NumeralHasNoDot(w: string)
    requires AllDigits(w)
    ensures forall i :: 0 <= i < |w| ==> w[i] != '.' && !IsSpace(w[i]) && w[i] != '-' && w[i] != '+'
  {
  }

  /** The printed fraction has two digits and the right value. */
  lemma PaddedFraction(fraction: nat)
    requires fraction < 100
    ensures var s := PadStart(Numeral(fraction), 2); |s| == 2 && Value(s) == fraction
  {
    NumeralDenotes(fraction);
    if fraction < 10 {
      var d := [DigitChar(fraction)];
      assert Numeral(fraction) == d;
      assert PadStart(d, 2) == "0" + d;
      ValueOfJoin("0", d);
      ValueOfDigit('0');
    } else {
      assert |Numeral(fraction / 10)| == 1;
    }
  }

  /** A number as it is written, without sign: digits, and maybe a dot and more digits. */
  function Written(w: string, f: Option<string>): string {
    w + if f.Some? then "." + f.value else ""
  }

  /** No spaces to trim, and the dot is where the whole part ends. */
  lemma WrittenReads(w: string, f: Option<string>)
    requires w != [] && (forall i :: 0 <= i < |w| ==> w[i] != '.' && !IsSpace(w[i])) && (f.Some? ==> AllDigits(f.value))
    ensures Trim(Written(w, f)) == Written(w, f) && SplitAtDot(Written(w, f)) == (w, f)
    ensures Trim("-" + Written(w, f)) == "-" + Written(w, f)
  {
    SplitJoined(w, f);
    LastIsNoSpace(w, f);
    TrimKeeps(Written(w, f));
    TrimKeeps("-" + Written(w, f));
  }

  lemma LastIsNoSpace(w: string, f: Option<string>)
    requires w != [] && (forall i :: 0 <= i < |w| ==> !IsSpace(w[i])) && (f.Some? ==> AllDigits(f.value))
    ensures !IsSpace(Written(w, f)[0]) && !IsSpace(Written(w, f)[|Written(w, f)| - 1])
  {
    if f.Some? && f.value != [] {
      NumeralHasNoDot(f.value);
      assert Written(w, f)[|Written(w, f)| - 1] == f.value[|f.value| - 1];
    }
  }

  function PrintedWhole(m: int, currency: string): (w: string)
    ensures w != [] && AllDigits(w)
  {
    var abs: nat := if m < 0 then -m else m;
    Numeral((abs - abs % Scale(currency)) / Scale(currency))
  }

  function PrintedFraction(m: int, currency: string): (f: Option<string>)
    ensures f.Some? ==> AllDigits(f.value)
    ensures f.Some? <==> !ZeroDecimal(currency)
  {
    var abs: nat := if m < 0 then -m else m;
    if ZeroDecimal(currency) then None else Some(PadStart(Numeral(abs % Scale(currency)), 2))
  }

  lemma PrintedForm(m: int, currency: string)
    requires Safe(m)
    ensures ToDisplay(m, currency)
            == (if m < 0 then "-" else "") + Written(PrintedWhole(m, currency), PrintedFraction(m, currency))
  {
    hide Numeral, PadStart;
  }

  lemma PrintedValue(m: int, currency: string)
    ensures var w, f := PrintedWhole(m, currency), PrintedFraction(m, currency);
            && (f.Some? ==> |f.value| == 2)
            && Value(w) * Scale(currency) + (if f.Some? then Value(f.value) else 0) == if m < 0 then -m else m
  {
    hide Value, Numeral, PadStart;
    var abs: nat := if m < 0 then -m else m;
    NumeralDenotes((abs - abs % Scale(currency)) / Scale(currency));
    if !ZeroDecimal(currency) {
      PaddedFraction(abs % Scale(currency));
    }
  }

  /** What the printer prints: sign, whole part, and for two-decimal currencies two more digits. */
  lemma Printed(m: int, currency: string)
    requires Safe(m)
    ensures var text := ToDisplay(m, currency); var w, f := PrintedWhole(m, currency), PrintedFraction(m, currency);
            && Trim(text) == text
            && Sign(text) == (if m < 0 then -1 else 1)
            && SplitAtDot(Unsigned(text)) == (w, f)
            && (0 <= m ==> Unsigned(text) == text)
  {
    hide PrintedWhole, PrintedFraction, ToDisplay, Trim, SplitAtDot;
    var w, f := PrintedWhole(m, currency), PrintedFraction(m, currency);
    PrintedForm(m, currency);
    NumeralHasNoDot(w);
    WrittenReads(w, f);
    assert Written(w, f)[0] == w[0];
    assert m < 0 ==> ("-" + Written(w, f))[1..] == Written(w, f);
    assert "" + Written(w, f) == Written(w, f);
  }

  lemma PadFull(f: string)
    requires AllDigits(f) && |f| == 2
    ensures PadEnd(Prefix(f, 2), 2) == f
  {
    assert f[..2] == f;
  }

  /** Printing and reading back is the identity on every safe integer. */
  lemma ProviderRoundTrip(m: int, currency: string)
    requires Safe(m)
    ensures ParseProvider(ToDisplay(m, currency), currency) == Some(m)
  {
    hide ToDisplay, Trim, SplitAtDot, Value, PadEnd, PrintedWhole, PrintedFraction;
    Printed(m, currency);
    PrintedValue(m, currency);
    var f := PrintedFraction(m, currency);
    if f.Some? {
      PadFull(f.value);
    } else {
      assert Prefix("", 0) == "";
      PadEmpty();
    }
    EmptyIsZero();
  }

  lemma PadEmpty()
    ensures PadEnd("", 0) == ""
  {
  }

  lemma DisplayRoundTrip(m: int, currency: string)
    requires 0 <= m && Safe(m)
    ensures ParseDisplay(ToDisplay(m, currency), currency) == Some(m)
  {
    hide ToDisplay, Trim, SplitAtDot, Value, PadEnd, Ungroup, PrintedWhole, PrintedFraction;
    Printed(m, currency);
    PrintedValue(m, currency);
    UngroupDigits(PrintedWhole(m, currency));
    var f := PrintedFraction(m, currency);
    if f.Some? {
      PadFull(f.value);
      assert Prefix(f.value, 2) == f.value;
    }
  }

  // ---- grouping ----

  /** Grouped and ungrouped input parse alike. */
  lemma GroupingIsIrrelevant(w: string, f: Option<string>, currency: string)
    requires GroupedInteger(w) && (f.Some? ==> AllDigits(f.value))
    ensures ParseDisplay(Written(w, f), currency) == ParseDisplay(Written(Ungroup(w), f), currency)
  {
    hide Value, PadEnd, Trim, SplitAtDot, Ungroup, Grouped, Written;
    UngroupInteger(w);
    UngroupDigits(Ungroup(w));
    GroupedHasNoDot(w);
    NumeralHasNoDot(Ungroup(w));
    WrittenReads(w, f);
    WrittenReads(Ungroup(w), f);
  }

  lemma {:induction false} GroupedHasNoDot(w: string)
    requires GroupedInteger(w)
    ensures w != [] && forall i :: 0 <= i < |w| ==> w[i] != '.' && !IsSpace(w[i])
  {
    if !AllDigits(w) {
      var first := w[..|w| - 4];
      if !(|first| <= 3 && AllDigits(first)) {
        GroupedHasNoDot(first);
      }
      assert w == first + "," + w[|w| - 3..];
    }
  }

  /** Commas between every three digits, from the right. */
  function Group(digits: string): string
    requires AllDigits(digits)
  {
    if |digits| <= 3 then digits else Group(digits[..|digits| - 3]) + "," + digits[|digits| - 3..]
  }

  lemma OneMoreGroup(g: string, last: string)
    requires Grouped(g) || (g != [] && |g| <= 3 && AllDigits(g))
    requires |last| == 3 && AllDigits(last)
    ensures Grouped(g + ("," + last)) && Ungroup(g + ("," + last)) == Ungroup(g) + last
  {
    var grouped := g + ("," + last);
    assert grouped[..|grouped| - 4] == g;
    assert grouped[|grouped| - 3..] == last;
    UngroupJoin(g, "," + last);
    UngroupJoin(",", last);
    UngroupDigits(last);
    assert Ungroup(",") == [];
  }

  lemma GroupSplits(digits: string)
    requires AllDigits(digits) && 3 < |digits|
    ensures var init, last := digits[..|digits| - 3], digits[|digits| - 3..];
            && AllDigits(init) && AllDigits(last) && init + last == digits
            && Group(digits) == Group(init) + ("," + last)
  {
    var init, last := digits[..|digits| - 3], digits[|digits| - 3..];
    assert Group(digits) == Group(init) + "," + last;
  }

  /** Proper grouping of any digit string is accepted, and undone. */
  lemma {:induction false} GroupIsAccepted(digits: string)
    requires AllDigits(digits) && digits != []
    ensures Ungroup(Group(digits)) == digits
    ensures if 3 < |digits| then Grouped(Group(digits)) else Group(digits) == digits
  {
    hide Grouped, Ungroup;
    if |digits| <= 3 {
      UngroupDigits(digits);
    } else {
      hide Group, AllDigits;
      GroupSplits(digits);
      var init, last := digits[..|digits| - 3], digits[|digits| - 3..];
      GroupIsAccepted(init);
      OneMoreGroup(Group(init), last);
    }
  }
}
