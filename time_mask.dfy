/**
 * `TimeMaskTextField` of Helper.swift: the text field modifier that turns typed
 * digits into `[m:]ss.cc` on every change of the bound text. Only ASCII digits
 * count as numbers here.
 */
module TimeMask {
  import opened Wrappers
  import opened Helper

  /** `text.filter { $0.isNumber }`. */
  function OnlyDigits(s: string): (r: string)
    ensures AllDigits(r)
    ensures |r| <= |s|
  {
    if s == [] then [] else (if IsDigit(s[0]) then [s[0]] else []) + OnlyDigits(s[1..])
  }

  lemma {:induction false} OnlyDigitsConcat(a: string, b: string)
    ensures OnlyDigits(a + b) == OnlyDigits(a) + OnlyDigits(b)
  {
    if a == [] {
      assert a + b == b;
    } else {
      var c := a + b;
      assert c[0] == a[0] && c[1..] == a[1..] + b;
      OnlyDigitsConcat(a[1..], b);
      var h := if IsDigit(a[0]) then [a[0]] else [];
      assert OnlyDigits(c) == h + (OnlyDigits(a[1..]) + OnlyDigits(b));
      assert OnlyDigits(a) == h + OnlyDigits(a[1..]);
    }
  }

  lemma {:induction false} OnlyDigitsOfDigits(s: string)
    requires AllDigits(s)
    ensures OnlyDigits(s) == s
  {
    if s != [] {
      OnlyDigitsOfDigits(s[1..]);
    }
  }

  /** `replacingOccurrences(of: "^0+", with: "", options: .regularExpression)`. */
  function StripLeadingZeros(s: string): (r: string)
    ensures r == [] || r[0] != '0'
    ensures |r| <= |s|
  {
    if s != [] && s[0] == '0' then StripLeadingZeros(s[1..]) else s
  }

  /** What `StripLeadingZeros` removes is a run of zeros at the front, and nothing else. */
  lemma {:induction false} StripLeadingZerosSuffix(s: string)
    ensures var r := StripLeadingZeros(s);
            r == s[|s| - |r|..] && forall i :: 0 <= i < |s| - |r| ==> s[i] == '0'
  {
    if s != [] && s[0] == '0' {
      StripLeadingZerosSuffix(s[1..]);
      var r := StripLeadingZeros(s);
      assert s[1..][|s| - 1 - |r|..] == s[|s| - |r|..];
      forall i | 0 <= i < |s| - |r| ensures s[i] == '0' {
        if i > 0 { assert s[i] == s[1..][i - 1]; }
      }
    }
  }

  /** `count` zero characters (`repeatElement("0", count:)`). */
  function Zeros(count: nat): (z: string)
    ensures |z| == count && AllDigits(z)
  {
    if count == 0 then [] else "0" + Zeros(count - 1)
  }

  lemma ZerosPrefixSplits(k: nat, d: string)
    requires k > 0
    ensures (Zeros(k) + d)[0] == '0' && (Zeros(k) + d)[1..] == Zeros(k - 1) + d
  {
    assert Zeros(k) == "0" + Zeros(k - 1);
  }

  lemma {:induction false} StripZerosPrefix(k: nat, d: string)
    ensures StripLeadingZeros(Zeros(k) + d) == StripLeadingZeros(d)
  {
    if k > 0 {
      ZerosPrefixSplits(k, d);
      StripZerosPrefix(k - 1, d);
    } else {
      assert Zeros(k) + d == d;
    }
  }

  lemma {:induction false} DigitsValueOfZerosPrefix(k: nat, d: string)
    requires AllDigits(d)
    ensures AllDigits(Zeros(k) + d) && DigitsValue(Zeros(k) + d) == DigitsValue(d)
  {
    DigitsValueConcat(Zeros(k), d);
    ZerosValue(k);
  }

  lemma {:induction false} ZerosValue(k: nat)
    ensures DigitsValue(Zeros(k)) == 0
  {
    if k > 0 {
      var z := Zeros(k);
      assert z == "0" + Zeros(k - 1);
      assert z[..|z| - 1] == Zeros(k - 1) by {
        assert z[..|z| - 1] == Zeros(k)[..k - 1];
        ZerosInit(k);
      }
      ZerosValue(k - 1);
    }
  }

  lemma {:induction false} ZerosInit(k: nat)
    requires k > 0
    ensures Zeros(k)[..k - 1] == Zeros(k - 1)
  {
    if k > 1 {
      ZerosInit(k - 1);
      assert Zeros(k)[..k - 1] == "0" + Zeros(k - 1)[..k - 2];
    }
  }

  /** `.prefix(6)`. */
  function Prefix(s: string, n: nat): (r: string)
    ensures |r| <= n && r <= s
    ensures |s| <= n ==> r == s
  {
    if |s| <= n then s else s[..n]
  }

  /** The digits the non-dotted branch keeps: numbers only, no leading zeros, at most six. */
  function EnteredDigits(text: string): (d: string)
    ensures AllDigits(d) && |d| <= 6
    ensures d == [] || d[0] != '0'
  {
    var stripped := StripLeadingZeros(OnlyDigits(text));
    StripLeadingZerosSuffix(OnlyDigits(text));
    var d := Prefix(stripped, 6);
    assert AllDigits(d) by {
      forall i | 0 <= i < |d| ensures IsDigit(d[i]) {
        assert d[i] == stripped[i];
        assert stripped[i] == OnlyDigits(text)[|OnlyDigits(text)| - |stripped| + i];
      }
    }
    d
  }

  /**
   * The text the non-dotted branch produces from up to six digits: "0.0d" or
   * "0.dd" for one or two digits, otherwise a '.' before the last two digits and,
   * once that text is longer than five, a ':' before its last five. The mask
   * only hands it up to six digits.
   */
  function FormatDigits(d: string): string {
    var n := |d|;
    if n == 0 then []
    else if n <= 2 then "0." + Zeros(2 - n) + d
    else if n <= 4 then d[..n - 2] + "." + d[n - 2..]
    else d[..n - 4] + ":" + d[n - 4..n - 2] + "." + d[n - 2..]
  }

  /**
   * The shape of a formatted text: nothing for no digits, "0.0d" and "0.dd" for
   * one and two, and otherwise the digits with a '.' before the last two and,
   * from five digits on, a ':' before the last four.
   */
  lemma FormatDigitsShape(d: string)
    ensures var r := FormatDigits(d);
            && (|d| == 0 <==> r == [])
            && (|d| == 1 ==> r == ['0', '.', '0', d[0]])
            && (|d| == 2 ==> r == ['0', '.', d[0], d[1]])
            && (3 <= |d| <= 4 ==> |r| == |d| + 1 && r[|r| - 3] == '.' && r[|r| - 2..] == d[|d| - 2..])
            && (5 <= |d| ==> |r| == |d| + 2 && r[|r| - 3] == '.' && r[|r| - 6] == ':'
                             && r[|r| - 2..] == d[|d| - 2..])
  {
    if |d| == 1 {
      assert Zeros(1) == "0";
    } else if |d| == 2 {
      assert Zeros(0) == [];
    }
  }

  /** From three digits on, the formatted text holds exactly the digits it was made from. */
  lemma FormatDigitsKeepsDigits(d: string)
    requires AllDigits(d) && 3 <= |d| <= 6
    ensures OnlyDigits(FormatDigits(d)) == d
  {
    var n := |d|;
    if n <= 4 {
      FormattedSecondsKeepDigits(d, d[..n - 2], d[n - 2..]);
    } else {
      FormattedMinutesKeepDigits(d, d[..n - 4], d[n - 4..n - 2], d[n - 2..]);
    }
  }

  lemma FormattedSecondsKeepDigits(d: string, whole: string, cents: string)
    requires AllDigits(d) && 3 <= |d| <= 4 && whole == d[..|d| - 2] && cents == d[|d| - 2..]
    ensures OnlyDigits(FormatDigits(d)) == d
  {
    OnlyDigitsOfDigits(whole);
    OnlyDigitsOfDigits(cents);
    assert OnlyDigits(".") == [];
    OnlyDigitsConcat(whole, ".");
    OnlyDigitsConcat(whole + ".", cents);
    assert whole + [] == whole;
    assert d == whole + cents;
  }

  lemma FormattedMinutesKeepDigits(d: string, mins: string, secs: string, cents: string)
    requires AllDigits(d) && 5 <= |d| <= 6 && mins == d[..|d| - 4] && secs == d[|d| - 4..|d| - 2] && cents == d[|d| - 2..]
    ensures OnlyDigits(FormatDigits(d)) == d
  {
    OnlyDigitsOfDigits(mins);
    OnlyDigitsOfDigits(secs);
    OnlyDigitsOfDigits(cents);
    assert OnlyDigits(".") == [] && OnlyDigits(":") == [];
    OnlyDigitsConcat(mins, ":");
    OnlyDigitsConcat(mins + ":", secs);
    OnlyDigitsConcat(mins + ":" + secs, ".");
    OnlyDigitsConcat(mins + ":" + secs + ".", cents);
    assert mins + [] == mins;
    assert mins + secs + [] == mins + secs;
    assert d == mins + secs + cents;
  }

  /** The number of '.' characters. */
  function DotCount(s: string): (n: nat)
    ensures n <= |s|
    ensures n == 0 <==> '.' !in s
  {
    if s == [] then 0 else (if s[0] == '.' then 1 else 0) + DotCount(s[1..])
  }

  /**
   * The filter of the dotted branch: digits and dots are kept, except that the
   * first dot is dropped when `dropFirstDot` holds.
   */
  function KeepDigitsAndDots(s: string, dropFirstDot: bool): (r: string)
    ensures DotCount(r) == if dropFirstDot && DotCount(s) > 0 then DotCount(s) - 1 else DotCount(s)
  {
    if s == [] then []
    else if dropFirstDot && s[0] == '.' then KeepDigitsAndDots(s[1..], false)
    else if IsDigit(s[0]) || s[0] == '.' then [s[0]] + KeepDigitsAndDots(s[1..], dropFirstDot)
    else KeepDigitsAndDots(s[1..], dropFirstDot)
  }

  lemma {:induction false} DotCountOfSuffix(s: string, k: nat)
    requires k <= |s| && forall i :: 0 <= i < k ==> s[i] == '0'
    ensures DotCount(s[k..]) == DotCount(s)
  {
    if k > 0 {
      assert s[1..][k - 1..] == s[k..];
      DotCountOfSuffix(s[1..], k - 1);
    }
  }

  /** The index of the first `c` in `s` (`firstIndex(of:)` on text that has one). */
  function FirstIndexOf(s: string, c: char): (i: nat)
    requires c in s
    ensures i < |s| && s[i] == c
    ensures forall j :: 0 <= j < i ==> s[j] != c
  {
    if s[0] == c then 0 else FirstIndexOf(s[1..], c) + 1
  }

  /**
   * The characters the dotted branch keeps before it cuts its window: digits and
   * dots (without the first of exactly two dots), less the leading zeros. A '.'
   * in the text leaves a '.' in them.
   */
  function DottedFiltered(text: string): (r: string)
    ensures DotCount(text) >= 1 ==> '.' in r
  {
    var dotCount := DotCount(text);
    var kept := KeepDigitsAndDots(text, dotCount == 2);
    var filtered := StripLeadingZeros(kept);
    StripLeadingZerosSuffix(kept);
    DotCountOfSuffix(kept, |kept| - |filtered|);
    filtered
  }

  /**
   * At most two characters before the first '.' of `s`, the '.' itself and at
   * most two after it (`filtered[from..<to]`).
   */
  function DotWindow(s: string): (r: string)
    requires '.' in s
    ensures '.' in r && |r| <= 5
    ensures FirstIndexOf(r, '.') <= 2
  {
    var dotIndex := FirstIndexOf(s, '.');
    var from := if dotIndex >= 2 then dotIndex - 2 else 0;
    var to := if dotIndex + 3 <= |s| then dotIndex + 3 else |s|;
    var r := s[from..to];
    var k := dotIndex - from;
    assert k <= 2 && r[k] == '.';
    r
  }

  /** The text of the dotted branch: it always finds the '.' it cuts around. */
  function DottedWindow(text: string): (r: string)
    requires DotCount(text) >= 1
    ensures '.' in r && |r| <= 5
  {
    DotWindow(DottedFiltered(text))
  }

  /** Whether the user is typing a '.' of their own after one refilter. */
  predicate UserDottedAfter(text: string, userDotted: bool) {
    if text == "." || (|text| > 1 && |text| < 6 && text[|text| - 1] == '.' && DotCount(text) < 3) then true
    else if DotCount(text) == 0 then false
    else userDotted
  }

  /** The state of the modifier: the bound text and whether the user typed a dot. */
  class TimeMaskTextField {
    var text: string
    var userDotted: bool

    constructor (text: string)
      ensures this.text == text && !userDotted
    {
      this.text := text;
      userDotted := false;
    }

    /** `refilter()`: rewrites `text` in place and updates `userDotted`. */
    method Refilter()
      modifies this
      ensures userDotted == UserDottedAfter(old(text), old(userDotted))
      ensures userDotted ==> DotCount(old(text)) >= 1 && text == DottedWindow(old(text))
      ensures !userDotted ==> text == FormatDigits(EnteredDigits(old(text)))
    {
      var filtered: string;
      var dotCount := DotCount(text);
      if text == "." || (|text| > 1 && |text| < 6 && text[|text| - 1] == '.' && dotCount < 3) {
        userDotted := true;
      } else if dotCount == 0 {
        userDotted := false;
      }
      if userDotted {
        filtered := DottedWindow(text);
      } else {
        filtered := EnteredDigits(text);
        ghost var d := filtered;
        if |filtered| > 2 {
          filtered := filtered[..|filtered| - 2] + "." + filtered[|filtered| - 2..];
        } else if |filtered| > 0 {
          filtered := "0." + Zeros(2 - |filtered|) + filtered;
        }
        if |filtered| > 5 {
          filtered := filtered[..|filtered| - 5] + ":" + filtered[|filtered| - 5..];
        }
        InsertionsFormat(d);
      }
      text := filtered;
    }
  }

  lemma {:induction false} DigitsValueBelowPow10(s: string)
    requires AllDigits(s)
    ensures DigitsValue(s) < Pow10(|s|)
  {
    if s != [] {
      DigitsValueBelowPow10(s[..|s| - 1]);
    }
  }

  /** The two in-place insertions of `refilter()` build `FormatDigits`. */
  lemma InsertionsFormat(d: string)
    ensures var n := |d|;
            var f := if n > 2 then d[..n - 2] + "." + d[n - 2..]
                     else if n > 0 then "0." + Zeros(2 - n) + d
                     else d;
            FormatDigits(d) == if |f| > 5 then f[..|f| - 5] + ":" + f[|f| - 5..] else f
  {
    var n := |d|;
    if n > 2 {
      var f := d[..n - 2] + "." + d[n - 2..];
      if |f| > 5 {
        assert f[..|f| - 5] == d[..n - 4];
        assert f[|f| - 5..] == d[n - 4..n - 2] + "." + d[n - 2..];
      }
    } else if n > 0 {
      assert |"0." + Zeros(2 - n) + d| == 4;
    }
  }

  /** The digits a formatted text re-yields are the digits it was formatted from. */
  lemma FormatDigitsReentered(d: string)
    requires AllDigits(d) && |d| <= 6 && (d == [] || d[0] != '0')
    ensures EnteredDigits(FormatDigits(d)) == d
  {
    var r := FormatDigits(d);
    var n := |d|;
    if 1 <= n <= 2 {
      assert r == "0" + ("." + (Zeros(2 - n) + d));
      OnlyDigitsConcat("0", "." + (Zeros(2 - n) + d));
      OnlyDigitsConcat(".", Zeros(2 - n) + d);
      OnlyDigitsOfDigits(Zeros(2 - n) + d) by {
        DigitsValueOfZerosPrefix(2 - n, d);
      }
      assert OnlyDigits(r) == Zeros(1) + (Zeros(2 - n) + d);
      StripZerosPrefix(1, Zeros(2 - n) + d);
      StripZerosPrefix(2 - n, d);
    } else if n >= 3 {
      FormatDigitsKeepsDigits(d);
    }
  }

  /**
   * Refiltering is idempotent: the text the non-dotted branch produces leaves
   * `userDotted` false and is produced again from itself.
   */
  lemma RefilterFixedPoint(text: string)
    ensures var out := FormatDigits(EnteredDigits(text));
            !UserDottedAfter(out, false) && FormatDigits(EnteredDigits(out)) == out
  {
    var d := EnteredDigits(text);
    FormatDigitsReentered(d);
    FormatDigitsEndsInDigit(d);
  }

  /** A formatted text is empty or ends in the last digit, so it never reads as a typed dot. */
  lemma FormatDigitsEndsInDigit(d: string)
    requires AllDigits(d)
    ensures var out := FormatDigits(d);
            (d == [] <==> out == []) && (d != [] ==> out[|out| - 1] == d[|d| - 1] && out[|out| - 1] != '.')
  {
    FormatDigitsShape(d);
    if d != [] {
      assert IsDigit(d[|d| - 1]);
    }
  }


  /** The seconds a masked digit string stands for: `[m]m:ss.cc` read as minutes and seconds. */
  function MaskedSeconds(d: string): real
    requires AllDigits(d) && |d| <= 6
  {
    var n := |d|;
    if n <= 4 then DigitsValue(d) as real / 100.0
    else DigitsValue(d[..n - 4]) as real * 60.0 + DigitsValue(d[n - 4..]) as real / 100.0
  }

  /** `timeFromStr` reads back the masked text as the time the digits spell, and never traps on it. */
  lemma MaskedTextParses(d: string)
    requires AllDigits(d) && 1 <= |d| <= 6
    ensures TimeFromStr(FormatDigits(d)) == Done(Some(MaskedSeconds(d)))
  {
    if |d| <= 2 {
      MaskedCentisParse(d);
    } else if |d| <= 4 {
      MaskedSecondsParse(d);
    } else {
      MaskedMinutesParse(d);
    }
  }

  lemma MaskedCentisParse(d: string)
    requires AllDigits(d) && 1 <= |d| <= 2
    ensures TimeFromStr(FormatDigits(d)) == Done(Some(MaskedSeconds(d)))
  {
    var n := |d|;
    var r := FormatDigits(d);
    var frac := Zeros(2 - n) + d;
    assert AllDigits(frac) by {
      DigitsValueOfZerosPrefix(2 - n, d);
    }
    assert r == "0" + "." + frac;
    assert ParseDouble(r) == Some(DecimalValue("0", frac)) by {
      ParseDecimalText("0", frac);
    }
    assert DecimalValue("0", frac) == MaskedSeconds(d) by {
      DigitsValueOfZerosPrefix(2 - n, d);
      assert DigitsValue("0") == 0;
      assert Pow10(|frac|) == 100;
    }
    assert ':' !in r by {
      NoSeparatorInDigits(frac, ':');
      assert r == ['0', '.'] + frac;
    }
    TimeFromStrSeconds(r);
  }

  lemma MaskedSecondsParse(d: string)
    requires AllDigits(d) && 3 <= |d| <= 4
    ensures TimeFromStr(FormatDigits(d)) == Done(Some(MaskedSeconds(d)))
  {
    var n := |d|;
    var r := FormatDigits(d);
    var whole, cents := d[..n - 2], d[n - 2..];
    assert r == whole + "." + cents;
    assert ParseDouble(r) == Some(DecimalValue(whole, cents)) by {
      ParseDecimalText(whole, cents);
    }
    assert DecimalValue(whole, cents) == MaskedSeconds(d) by {
      assert d == whole + cents;
      DigitsValueConcat(whole, cents);
      assert Pow10(|cents|) == 100;
    }
    assert ':' !in r by {
      NoSeparatorInDigits(whole, ':');
      NoSeparatorInDigits(cents, ':');
    }
    TimeFromStrSeconds(r);
  }

  lemma MaskedMinutesParse(d: string)
    requires AllDigits(d) && 5 <= |d| <= 6
    ensures TimeFromStr(FormatDigits(d)) == Done(Some(MaskedSeconds(d)))
  {
    var n := |d|;
    var r := FormatDigits(d);
    var mins, secs, cents := d[..n - 4], d[n - 4..n - 2], d[n - 2..];
    var tail := secs + "." + cents;
    assert r == mins + ":" + tail;
    assert ParseDouble(tail) == Some(DecimalValue(secs, cents)) by {
      ParseDecimalText(secs, cents);
    }
    assert DecimalValue(secs, cents) == DigitsValue(d[n - 4..]) as real / 100.0 by {
      assert d[n - 4..] == secs + cents;
      DigitsValueConcat(secs, cents);
      assert Pow10(|cents|) == 100;
    }
    assert ':' !in tail by {
      NoSeparatorInDigits(secs, ':');
      NoSeparatorInDigits(cents, ':');
    }
    assert DigitsValue(mins) < UIntLimit by {
      DigitsValueBelowPow10(mins);
      assert Pow10(|mins|) <= 100;
    }
    TimeFromStrMinutes(mins, tail);
  }
}
