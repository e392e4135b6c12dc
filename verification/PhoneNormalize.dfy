/** Normalising phone numbers to digits-only WhatsApp addresses, and when doing it twice is
    doing it once. */
module PhoneNormalize {

  const DEFAULT_COUNTRY_CODE: string := "965"

  /** The zeros of the decimal digit sets of Unicode 15 beyond ASCII: \d also matches these and
      the nine code points after each. */
  const DECIMAL_ZEROS: seq<int> := [
    0x660, 0x6f0, 0x7c0, 0x966, 0x9e6, 0xa66, 0xae6, 0xb66, 0xbe6, 0xc66, 0xce6, 0xd66, 0xde6,
    0xe50, 0xed0, 0xf20, 0x1040, 0x1090, 0x17e0, 0x1810, 0x1946, 0x19d0, 0x1a80, 0x1a90, 0x1b50,
    0x1bb0, 0x1c40, 0x1c50, 0xa620, 0xa8d0, 0xa900, 0xa9d0, 0xa9f0, 0xaa50, 0xabf0, 0xff10, 0x104a0,
    0x10d30, 0x11066, 0x110f0, 0x11136, 0x111d0, 0x112f0, 0x11450, 0x114d0, 0x11650, 0x116c0,
    0x11730, 0x118e0, 0x11950, 0x11c50, 0x11d50, 0x11da0, 0x11f50, 0x16a60, 0x16ac0, 0x16b50,
    0x1d7ce, 0x1d7d8, 0x1d7e2, 0x1d7ec, 0x1d7f6, 0x1e140, 0x1e2f0, 0x1e4f0, 0x1e950, 0x1fbf0]

  predicate IsOtherDigit(c: char) {
    exists i :: 0 <= i < |DECIMAL_ZEROS| && DECIMAL_ZEROS[i] <= c as int <= DECIMAL_ZEROS[i] + 9
  }

  predicate IsDigit(c: char) {
    '0' <= c <= '9' || IsOtherDigit(c)
  }

  /** The string with every non-digit removed. */
  function Digits(s: string): string {
    if s == "" then ""
    else (if IsDigit(s[0]) then [s[0]] else "") + Digits(s[1..])
  }

  predicate StartsWith(s: string, prefix: string) {
    prefix <= s
  }

  function StripZeros(s: string): (r: string)
    ensures |r| <= |s|
  {
    if s != "" && s[0] == '0' then StripZeros(s[1..]) else s
  }

  /** The country code in force: its digits, or the default when it has none. */
  function CountryDigits(countryCode: string): string {
    if Digits(countryCode) == "" then DEFAULT_COUNTRY_CODE else Digits(countryCode)
  }

  /** Dial code of an upper-cased country code; Kuwait's for the blank and the unknown. */
  function CountryDial(country: string): string {
    match country
    case "SA" => "966"
    case "AE" => "971"
    case "QA" => "974"
    case "BH" => "973"
    case "OM" => "968"
    case _ => DEFAULT_COUNTRY_CODE
  }

  function DropExit(digits: string): string {
    if StartsWith(digits, "00") then digits[2..] else digits
  }

  /** The number after the exit prefix is gone. */
  function Localise(digits: string, cc: string): string {
    if StartsWith(digits, "0") && cc == DEFAULT_COUNTRY_CODE then cc + digits[1..]
    else if !StartsWith(digits, cc) && |digits| <= 11 && StripZeros(digits) != "" then cc + StripZeros(digits)
    else digits
  }

  function NormalizeWhatsappPhone(value: string, countryCode: string): string {
    var digits := Digits(value);
    if digits == "" then "" else Localise(DropExit(digits), CountryDigits(countryCode))
  }

  predicate PhonesMatch(left: string, right: string, countryCode: string) {
    var l := NormalizeWhatsappPhone(left, countryCode);
    var r := NormalizeWhatsappPhone(right, countryCode);
    l != "" && r != "" && l == r
  }

  // ----- digit strings

  ghost predicate AllDigits(s: string) {
    forall i :: 0 <= i < |s| ==> IsDigit(s[i])
  }

  lemma {:induction false} DigitsAreDigits(s: string)
    ensures AllDigits(Digits(s))
  {
    if s != "" {
      DigitsAreDigits(s[1..]);
    }
  }

  lemma {:induction false} DigitsOfDigits(s: string)
    requires AllDigits(s)
    ensures Digits(s) == s
  {
    if s != "" {
      assert AllDigits(s[1..]);
      DigitsOfDigits(s[1..]);
    }
  }

  lemma {:induction false} StripZerosLeads(s: string)
    ensures StripZeros(s) == "" || StripZeros(s)[0] != '0'
    ensures AllDigits(s) ==> AllDigits(StripZeros(s))
  {
    if s != "" && s[0] == '0' {
      StripZerosLeads(s[1..]);
    }
  }

  lemma DefaultIsDigits()
    ensures AllDigits(DEFAULT_COUNTRY_CODE)
  {
  }

  lemma LocalisedIsDigits(d: string, cc: string)
    requires AllDigits(d) && AllDigits(cc)
    ensures AllDigits(Localise(d, cc))
  {
    StripZerosLeads(d);
  }

  /** Normal forms are digits only, so normalising one starts from itself. */
  lemma NormalFormIsDigits(value: string, countryCode: string)
    ensures var n := NormalizeWhatsappPhone(value, countryCode); AllDigits(n) && Digits(n) == n
  {
    DigitsAreDigits(value);
    DigitsAreDigits(countryCode);
    DefaultIsDigits();
    LocalisedIsDigits(DropExit(Digits(value)), CountryDigits(countryCode));
    DigitsOfDigits(NormalizeWhatsappPhone(value, countryCode));
  }

  // ----- spellings of one number

  /** Only the digits of the input matter, in their order: signs and spaces anywhere do not. */
  lemma {:induction false} DigitsConcat(s: string, t: string)
    ensures Digits(s + t) == Digits(s) + Digits(t)
  {
    if s == "" {
      assert s + t == t;
    } else {
      assert (s + t)[0] == s[0] && (s + t)[1..] == s[1..] + t;
      DigitsConcat(s[1..], t);
    }
  }

  lemma {:induction false} SignsHaveNoDigits(s: string)
    requires forall i :: 0 <= i < |s| ==> !IsDigit(s[i])
    ensures Digits(s) == ""
  {
    if s != "" {
      SignsHaveNoDigits(s[1..]);
    }
  }

  /** A subscriber number as it is dialled from inside the country, without trunk zero. */
  predicate IsLocal(d: string, cc: string) {
    1 <= |d| <= 11 && d[0] != '0' && !StartsWith(d, cc)
  }

  /** The input spells the local number `d` of the country: bare, with the trunk zero, or
      internationally, with or without the exit prefix. */
  predicate Spells(value: string, d: string, cc: string) {
    || Digits(value) == d
    || (Digits(value) == "0" + d && (cc == "965" || |d| <= 10))
    || Digits(value) == cc + d
    || Digits(value) == "00" + cc + d
  }

  lemma StripTrunkZero(d: string)
    requires d != "" && d[0] != '0'
    ensures StripZeros(d) == d && StripZeros("0" + d) == d
  {
    assert ("0" + d)[1..] == d;
  }

  lemma BareSpelling(d: string, cc: string)
    requires cc != "" && cc[0] != '0' && IsLocal(d, cc)
    ensures Localise(DropExit(d), cc) == cc + d
  {
    StripTrunkZero(d);
  }

  lemma TrunkSpelling(d: string, cc: string)
    requires cc != "" && cc[0] != '0' && IsLocal(d, cc) && (cc == "965" || |d| <= 10)
    ensures Localise(DropExit("0" + d), cc) == cc + d
  {
    StripTrunkZero(d);
    assert ("0" + d)[0] == '0' && ("0" + d)[1..] == d;
    assert ("0" + d)[1] == d[0];
  }

  lemma InternationalSpelling(d: string, cc: string)
    requires cc != "" && cc[0] != '0'
    ensures Localise(DropExit(cc + d), cc) == cc + d
    ensures Localise(DropExit("00" + cc + d), cc) == cc + d
  {
    assert (cc + d)[0] == cc[0];
    assert ("00" + cc + d)[2..] == cc + d;
    assert (cc + d)[..|cc|] == cc;
  }

  /** All spellings of one local number normalise to its country code and itself. */
  lemma SpellingsAgree(value: string, countryCode: string, d: string)
    requires CountryDigits(countryCode)[0] != '0'
    requires IsLocal(d, CountryDigits(countryCode)) && Spells(value, d, CountryDigits(countryCode))
    ensures NormalizeWhatsappPhone(value, countryCode) == CountryDigits(countryCode) + d
  {
    var cc := CountryDigits(countryCode);
    BareSpelling(d, cc);
    InternationalSpelling(d, cc);
    if Digits(value) == "0" + d && (cc == "965" || |d| <= 10) {
      TrunkSpelling(d, cc);
    }
  }

  /** A number that is already international, or too long to be local, is kept as it is, with or
      without the exit prefix. */
  lemma ForeignIsKept(value: string, countryCode: string, d: string)
    requires d != "" && d[0] != '0' && (|d| > 11 || StartsWith(d, CountryDigits(countryCode)))
    requires Digits(value) == d || Digits(value) == "00" + d
    ensures NormalizeWhatsappPhone(value, countryCode) == d
  {
    assert ("00" + d)[2..] == d;
  }

  /** Nothing is left exactly of inputs without digits and of a bare exit prefix. */
  lemma EmptyExactly(value: string, countryCode: string)
    ensures NormalizeWhatsappPhone(value, countryCode) == "" <==> Digits(value) == "" || Digits(value) == "00"
  {
    var digits := Digits(value);
    if StartsWith(digits, "00") {
      assert digits == "00" + digits[2..];
    }
  }

  /** The numbers an import stores for the countries it knows. */
  lemma DialCodes(country: string)
    ensures country == "KW" ==> CountryDial(country) == "965"
    ensures country == "SA" ==> CountryDial(country) == "966"
    ensures country == "AE" ==> CountryDial(country) == "971"
    ensures country == "QA" ==> CountryDial(country) == "974"
    ensures country == "BH" ==> CountryDial(country) == "973"
    ensures country == "OM" ==> CountryDial(country) == "968"
    ensures country !in {"KW", "SA", "AE", "QA", "BH", "OM"} ==> CountryDial(country) == "965"
  {
  }

  // ----- idempotence

  /** The country code goes in front: the guard of the branch for every code. */
  predicate IsPrefixed(d: string, cc: string) {
    !StartsWith(d, cc) && |d| <= 11 && StripZeros(d) != ""
  }

  /** Localising is the identity on what it returned, except where that begins with the exit
      prefix 00. */
  lemma LocalisedIsStable(d: string, cc: string)
    ensures var n := Localise(d, cc); !StartsWith(n, "00") ==> Localise(DropExit(n), cc) == n
  {
    StripZerosLeads(d);
  }

  lemma DefaultNeverLeavesZeros(d: string)
    ensures !StartsWith(Localise(d, DEFAULT_COUNTRY_CODE), "00")
  {
    var n := Localise(d, DEFAULT_COUNTRY_CODE);
    if d != "" && d[0] == '0' {
      assert StartsWith(d, "0");
      assert n[0] == DEFAULT_COUNTRY_CODE[0];
    } else {
      assert n != "" ==> n[0] == DEFAULT_COUNTRY_CODE[0] || n[0] == d[0];
    }
  }

  /** With the default code (any code without digits of its own counts as it), normalising is
      idempotent on every input. */
  lemma NormalizeTwiceDefault(value: string, countryCode: string)
    requires CountryDigits(countryCode) == DEFAULT_COUNTRY_CODE
    ensures var n := NormalizeWhatsappPhone(value, countryCode); NormalizeWhatsappPhone(n, countryCode) == n
  {
    var d := DropExit(Digits(value));
    NormalFormIsDigits(value, countryCode);
    LocalisedIsStable(d, DEFAULT_COUNTRY_CODE);
    DefaultNeverLeavesZeros(d);
  }

  /** The zeros and the rest are put back by the code itself: it is zeros only, and what it
      was put before is short enough to be prefixed again. */
  predicate ComesBack(zeros: string, local: string) {
    StripZeros(zeros) == "" && local != "" && |zeros| + |local| <= 13
  }

  /** The numbers (after an exit prefix) that a code other than the default normalises to
      something else the second time: the result begins with an exit prefix, either because the
      code does or because nothing was prefixed, and does not come back. */
  predicate ChangesTwice(d: string, cc: string) {
    if IsPrefixed(d, cc) then StartsWith(cc, "00") && !ComesBack(cc, StripZeros(d))
    else StartsWith(d, "00") && !(d == cc + StripZeros(d) && ComesBack(cc, StripZeros(d)))
  }

  lemma {:induction false} StripZerosAppend(s: string, t: string)
    ensures StripZeros(s + t) == if StripZeros(s) == "" then StripZeros(t) else StripZeros(s) + t
  {
    if s == "" {
      assert s + t == t;
    } else {
      assert (s + t)[0] == s[0] && (s + t)[1..] == s[1..] + t;
      if s[0] == '0' {
        StripZerosAppend(s[1..], t);
      }
    }
  }

  lemma {:induction false} AllZeros(s: string, i: nat)
    requires StripZeros(s) == "" && i < |s|
    ensures s[i] == '0'
  {
    if i > 0 {
      AllZeros(s[1..], i - 1);
    }
  }

  lemma DropsTwoZeros(s: string)
    requires StartsWith(s, "00")
    ensures StripZeros(s) == StripZeros(s[2..])
  {
    assert s[1..][1..] == s[2..];
  }

  /** A code put before a number and then robbed of its exit prefix is put back exactly if it
      is made of zeros. */
  lemma CodeComesBack(cc: string, local: string)
    requires StartsWith(cc, "00") && local != "" && local[0] != '0'
    ensures var m := cc[2..] + local;
            IsPrefixed(m, cc) && StripZeros(m) == local <==> ComesBack(cc, local)
  {
    var m := cc[2..] + local;
    DropsTwoZeros(cc);
    StripZerosAppend(cc[2..], local);
    if ComesBack(cc, local) {
      AllZeros(cc, |cc| - 2);
      assert m[|cc| - 2] == local[0];
    }
  }

  lemma CodeLeads(cc: string, local: string)
    requires cc != "" && local != "" && local[0] != '0'
    ensures StartsWith(cc + local, "00") <==> StartsWith(cc, "00")
  {
    assert (cc + local)[0] == cc[0] && (cc + local)[1] == if |cc| == 1 then local[0] else cc[1];
  }

  lemma PrefixedComesBack(d: string, cc: string)
    requires IsPrefixed(d, cc) && StartsWith(cc, "00")
    ensures var n := cc + StripZeros(d); Localise(n[2..], cc) == n <==> ComesBack(cc, StripZeros(d))
  {
    var local := StripZeros(d);
    StripZerosLeads(d);
    CodeComesBack(cc, local);
    var m := cc[2..] + local;
    assert (cc + local)[2..] == m;
    assert |m| < |cc + local|;
    assert Localise(m, cc) == cc + local <==> IsPrefixed(m, cc) && cc + StripZeros(m) == cc + local;
    SameTail(cc, StripZeros(m), local);
  }

  lemma SameTail(s: string, a: string, b: string)
    ensures s + a == s + b <==> a == b
  {
    assert a == (s + a)[|s|..] && b == (s + b)[|s|..];
  }

  lemma UnprefixedComesBack(d: string, cc: string)
    requires StartsWith(d, "00") && cc != DEFAULT_COUNTRY_CODE && cc != ""
    ensures Localise(d[2..], cc) == d <==> d == cc + StripZeros(d) && ComesBack(cc, StripZeros(d))
  {
    var local := StripZeros(d);
    StripZerosLeads(d);
    DropsTwoZeros(d);
    assert Localise(d[2..], cc) == d <==> IsPrefixed(d[2..], cc) && d == cc + local;
    if d == cc + local && local != "" {
      CodeLeads(cc, local);
      assert d[2..] == cc[2..] + local;
      CodeComesBack(cc, local);
    }
  }

  /** A number that begins with an exit prefix after localising loses it the second time, and
      keeps its value exactly when the code, made of zeros, is put back. */
  lemma ZerosLeftBehind(d: string, cc: string)
    requires cc != "" && cc != DEFAULT_COUNTRY_CODE
    ensures var n := Localise(d, cc); Localise(DropExit(n), cc) == n <==> !ChangesTwice(d, cc)
  {
    StripZerosLeads(d);
    LocalisedIsStable(d, cc);
    if IsPrefixed(d, cc) {
      CodeLeads(cc, StripZeros(d));
      if StartsWith(cc, "00") {
        PrefixedComesBack(d, cc);
      }
    } else if StartsWith(d, "00") {
      UnprefixedComesBack(d, cc);
    }
  }

  /** With any other code, normalising is idempotent exactly outside that family. */
  lemma NormalizeTwiceOther(value: string, countryCode: string)
    requires CountryDigits(countryCode) != DEFAULT_COUNTRY_CODE
    ensures var n := NormalizeWhatsappPhone(value, countryCode);
            NormalizeWhatsappPhone(n, countryCode) == n
            <==> !ChangesTwice(DropExit(Digits(value)), CountryDigits(countryCode))
  {
    NormalFormIsDigits(value, countryCode);
    ZerosLeftBehind(DropExit(Digits(value)), CountryDigits(countryCode));
  }

  /** Every other code has such an input: four zeros become two, and then nothing. */
  lemma FourZeros(countryCode: string)
    requires CountryDigits(countryCode) != DEFAULT_COUNTRY_CODE
    ensures var n := NormalizeWhatsappPhone("0000", countryCode);
            n == "00" && NormalizeWhatsappPhone(n, countryCode) == ""
  {
    DigitsOfDigits("0000");
    DigitsOfDigits("00");
    assert StripZeros("00") == StripZeros("0") == StripZeros("") == "";
  }
}
