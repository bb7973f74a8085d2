/** The few JavaScript string built-ins the handlers rely on:
    `String.prototype.trim`, `String.prototype.toLowerCase` and the global `parseInt`. */
module JsText {
  import opened Common

  /** WhiteSpace and LineTerminator code points of ECMAScript; both `trim` and
      `parseInt` strip exactly these. */
  predicate IsWhite(c: char)
  {
    ('\t' <= c <= '\r') || c == ' ' || c == '\U{A0}' || c == '\U{1680}' ||
    ('\U{2000}' <= c <= '\U{200A}') || c == '\U{2028}' || c == '\U{2029}' ||
    c == '\U{202F}' || c == '\U{205F}' || c == '\U{3000}' || c == '\U{FEFF}'
  }

  predicate AllWhite(s: string)
  {
    forall i :: 0 <= i < |s| ==> IsWhite(s[i])
  }

  /** `s` without its leading white space. */
  function TrimStart(s: string): (r: string)
    ensures |r| <= |s|
    ensures r == [] || !IsWhite(r[0])
  {
    if |s| > 0 && IsWhite(s[0]) then TrimStart(s[1..]) else s
  }

  /** What `TrimStart` removes is a white prefix; what it keeps is the rest. */
  lemma {:induction false} TrimStartShape(s: string)
    ensures TrimStart(s) == s[|s| - |TrimStart(s)|..]
    ensures AllWhite(s[..|s| - |TrimStart(s)|])
  {
    if |s| > 0 && IsWhite(s[0]) {
      TrimStartShape(s[1..]);
      var r := TrimStart(s);
      assert s[1..][..|s| - 1 - |r|] == s[1..|s| - |r|];
    }
  }

  /** `s` without its trailing white space. */
  function TrimEnd(s: string): (r: string)
    ensures |r| <= |s|
  {
    if |s| > 0 && IsWhite(s[|s| - 1]) then TrimEnd(s[..|s| - 1]) else s
  }

  /** What `TrimEnd` removes is a white suffix; what it keeps is a prefix that
      does not end in white space. */
  lemma {:induction false} TrimEndShape(s: string)
    ensures TrimEnd(s) == s[..|TrimEnd(s)|]
    ensures AllWhite(s[|TrimEnd(s)|..])
    ensures TrimEnd(s) == [] || !IsWhite(TrimEnd(s)[|TrimEnd(s)| - 1])
  {
    if |s| > 0 && IsWhite(s[|s| - 1]) {
      var init := s[..|s| - 1];
      TrimEndShape(init);
      var r := TrimEnd(s);
      assert r == TrimEnd(init);
      assert init[..|r|] == s[..|r|];
      assert s[|r|..] == init[|r|..] + [s[|s| - 1]];
    }
  }

  /** `s.trim()`: white space removed from both ends. */
  function Trim(s: string): (r: string)
    ensures |r| <= |s|
    ensures r == [] || (!IsWhite(r[0]) && !IsWhite(r[|r| - 1]))
  {
    var t := TrimStart(s);
    TrimEndShape(t);
    TrimEnd(t)
  }

  /** `Trim(s)` is a contiguous slice of `s`, and what was cut off on either side
      is all white space. */
  lemma TrimShape(s: string)
    ensures exists i :: 0 <= i <= |s| - |Trim(s)| && Trim(s) == s[i..i + |Trim(s)|]
                        && AllWhite(s[..i]) && AllWhite(s[i + |Trim(s)|..])
  {
    var t := TrimStart(s);
    TrimStartShape(s);
    TrimEndShape(t);
    var r := Trim(s);
    var i := |s| - |t|;
    assert r == s[i..i + |r|];
    assert s[i + |r|..] == t[|r|..];
  }

  /** Trimming an already trimmed string changes nothing. */
  lemma TrimIdempotent(s: string)
    ensures Trim(Trim(s)) == Trim(s)
  {
    var r := Trim(s);
    TrimmedIsFixed(r);
  }

  lemma TrimmedIsFixed(r: string)
    requires r == [] || (!IsWhite(r[0]) && !IsWhite(r[|r| - 1]))
    ensures Trim(r) == r
  {
  }

  /** `Trim(s)` is empty exactly when `s` is all white space. */
  lemma TrimEmptyIffAllWhite(s: string)
    ensures Trim(s) == "" <==> AllWhite(s)
  {
    var t := TrimStart(s);
    TrimStartShape(s);
    TrimEndShape(t);
    assert s[..|s|] == s;
    if t != [] {
      assert t[0] == s[|s| - |t|];
    }
  }

  /** `toLowerCase` on one code point; only the ASCII letters A-Z are mapped. */
  function LowerChar(c: char): (d: char)
    ensures 'A' <= c <= 'Z' ==> 'a' <= d <= 'z' && d as int - c as int == 32
    ensures !('A' <= c <= 'Z') ==> d == c
  {
    if 'A' <= c <= 'Z' then (c as int + 32) as char else c
  }

  /** `s.toLowerCase()`, character by character. */
  function ToLower(s: string): (r: string)
    ensures |r| == |s|
    ensures forall i :: 0 <= i < |s| ==> r[i] == LowerChar(s[i])
  {
    if s == [] then [] else [LowerChar(s[0])] + ToLower(s[1..])
  }

  /** `t.toLowerCase()` is "yes" or "true", stated one character at a time. */
  predicate YesOrTrue(t: string)
  {
    || (|t| == 3 && LowerChar(t[0]) == 'y' && LowerChar(t[1]) == 'e' && LowerChar(t[2]) == 's')
    || (|t| == 4 && LowerChar(t[0]) == 't' && LowerChar(t[1]) == 'r' && LowerChar(t[2]) == 'u'
                 && LowerChar(t[3]) == 'e')
  }

  /** Comparing the lower-cased text with "yes" and "true" is `YesOrTrue`. */
  lemma LowerIsYesOrTrue(t: string)
    ensures (ToLower(t) == "yes" || ToLower(t) == "true") <==> YesOrTrue(t)
  {
    var l := ToLower(t);
    if |t| == 3 && LowerChar(t[0]) == 'y' && LowerChar(t[1]) == 'e' && LowerChar(t[2]) == 's' {
      assert l == [l[0], l[1], l[2]];
    }
    if |t| == 4 && LowerChar(t[0]) == 't' && LowerChar(t[1]) == 'r' && LowerChar(t[2]) == 'u' && LowerChar(t[3]) == 'e' {
      assert l == [l[0], l[1], l[2], l[3]];
    }
  }

  /** Lower-casing twice is lower-casing once. */
  lemma ToLowerIdempotent(s: string)
    ensures ToLower(ToLower(s)) == ToLower(s)
  {
  }

  // ---------------------------------------------------------------- parseInt

  /** The value of a character as a digit in radix up to 36, or 36 when it is none. */
  function DigitValue(c: char): (v: nat)
    ensures v <= 36
    ensures '0' <= c <= '9' <==> v < 10
  {
    if '0' <= c <= '9' then c as int - '0' as int
    else if 'a' <= c <= 'z' then c as int - 'a' as int + 10
    else if 'A' <= c <= 'Z' then c as int - 'A' as int + 10
    else 36
  }

  predicate IsDigitIn(c: char, radix: nat)
  {
    DigitValue(c) < radix
  }

  /** The longest prefix of `s` made of digits of the radix: where `parseInt`
      stops reading. */
  function DigitRun(s: string, radix: nat): (r: string)
    ensures |r| <= |s| && r == s[..|r|]
    ensures forall i :: 0 <= i < |r| ==> IsDigitIn(r[i], radix)
    ensures |r| == |s| || !IsDigitIn(s[|r|], radix)
  {
    if |s| > 0 && IsDigitIn(s[0], radix) then [s[0]] + DigitRun(s[1..], radix) else []
  }

  /** Positional value of a digit string, most significant digit first. */
  function DigitsValue(ds: string, radix: nat): nat
  {
    if ds == [] then 0
    else DigitsValue(ds[..|ds| - 1], radix) * radix + DigitValue(ds[|ds| - 1])
  }

  /** Global `parseInt(s)` with no radix: skip leading white space, read an
      optional sign, then the unsigned part. No digit at all gives NaN, here `None`. */
  function ParseInt(s: string): (r: Option<int>)
    ensures AllWhite(s) ==> r.None?
    ensures var t := TrimStart(s);
            t != [] && t[0] != '-' && t[0] != '+' && !IsDigitIn(t[0], 10) ==> r.None?
    ensures r.Some? && r.value < 0 ==> TrimStart(s) != [] && TrimStart(s)[0] == '-'
  {
    TrimStartShape(s);
    ParseSigned(TrimStart(s))
  }

  /** `parseInt` after the white space: an optional sign, then the unsigned part. */
  function ParseSigned(t: string): Option<int>
  {
    if |t| > 0 && t[0] == '-' then Negated(ParseUnsigned(t[1..]))
    else if |t| > 0 && t[0] == '+' then Widened(ParseUnsigned(t[1..]))
    else Widened(ParseUnsigned(t))
  }

  function Negated(p: Option<nat>): Option<int>
  {
    if p.None? then None else Some(-(p.value as int))
  }

  function Widened(p: Option<nat>): Option<int>
  {
    if p.None? then None else Some(p.value)
  }

  /** The unsigned part of `parseInt`: radix 16 after a "0x"/"0X" prefix and radix
      10 otherwise, read up to the first character that is not a digit of that radix. */
  function ParseUnsigned(u: string): Option<nat>
  {
    if |u| >= 2 && u[0] == '0' && (u[1] == 'x' || u[1] == 'X') then
      var ds := DigitRun(u[2..], 16);
      if ds == [] then None else Some(DigitsValue(ds, 16))
    else
      var ds := DigitRun(u, 10);
      if ds == [] then None else Some(DigitsValue(ds, 10))
  }

  // ------------------------------------------- decimal notation, for round trips

  function DigitChar(d: nat): (c: char)
    requires d < 10
    ensures DigitValue(c) == d
  {
    ('0' as int + d) as char
  }

  /** The decimal notation of a natural number, without leading zeros. */
  function Decimal(n: nat): (r: string)
    ensures |r| > 0
  {
    if n < 10 then [DigitChar(n)] else Decimal(n / 10) + [DigitChar(n % 10)]
  }

  /** The decimal notation of an integer, with a leading '-' when negative. */
  function IntString(i: int): string
  {
    if i < 0 then "-" + Decimal(-i) else Decimal(i)
  }

  lemma {:induction false} DecimalShape(n: nat)
    ensures forall k :: 0 <= k < |Decimal(n)| ==> IsDigitIn(Decimal(n)[k], 10)
    ensures Decimal(n)[0] == '0' ==> n == 0
    ensures DigitsValue(Decimal(n), 10) == n
  {
    if n >= 10 {
      DecimalShape(n / 10);
      var d := Decimal(n);
      assert d[..|d| - 1] == Decimal(n / 10);
    }
  }

  /** `DigitRun` reads exactly a run of digits that is followed by a non-digit. */
  lemma {:induction false} DigitRunStopsAtNonDigit(ds: string, t: string, radix: nat)
    requires forall k :: 0 <= k < |ds| ==> IsDigitIn(ds[k], radix)
    requires t == [] || !IsDigitIn(t[0], radix)
    ensures DigitRun(ds + t, radix) == ds
  {
    if ds != [] {
      assert (ds + t)[1..] == ds[1..] + t;
      DigitRunStopsAtNonDigit(ds[1..], t, radix);
    }
  }

  /** The unsigned part of `parseInt` reads back a decimal notation followed by
      text that does not continue the number (an 'x' after a lone "0" would switch
      to radix 16, so it is excluded). */
  lemma UnsignedReadsDecimal(n: nat, t: string)
    requires t == [] || (!IsDigitIn(t[0], 10) && t[0] != 'x' && t[0] != 'X')
    ensures ParseUnsigned(Decimal(n) + t) == Some(n)
  {
    var d := Decimal(n);
    DecimalShape(n);
    var u := d + t;
    assert !(|u| >= 2 && u[0] == '0' && (u[1] == 'x' || u[1] == 'X')) by {
      if |u| >= 2 && u[0] == '0' {
        assert d[0] == '0';
        if |d| >= 2 { assert false; }
        else { assert u[1] == t[0]; }
      }
    }
    DigitRunStopsAtNonDigit(d, t, 10);
  }

  /** `parseInt` reads back the decimal notation of every integer, whatever white
      space precedes it and whatever text not continuing the number follows it. */
  lemma ParseIntReadsDecimal(w: string, i: int, t: string)
    requires AllWhite(w)
    requires t == [] || (!IsDigitIn(t[0], 10) && t[0] != 'x' && t[0] != 'X')
    ensures ParseInt(w + IntString(i) + t) == Some(i)
  {
    var core := IntString(i) + t;
    IntStringReads(i, t);
    ParseIntSkipsWhite(w, core);
    assert w + IntString(i) + t == w + core;
  }

  /** Leading white space is skipped, whatever follows it. */
  lemma ParseIntSkipsWhite(w: string, s: string)
    requires AllWhite(w)
    requires s == [] || !IsWhite(s[0])
    ensures ParseInt(w + s) == ParseSigned(s)
  {
    TrimStartSkipsWhite(w, s);
  }

  /** The notation of an integer, followed by text that does not continue it,
      starts with no white space and reads back as that integer. */
  lemma IntStringReads(i: int, t: string)
    requires t == [] || (!IsDigitIn(t[0], 10) && t[0] != 'x' && t[0] != 'X')
    ensures !IsWhite((IntString(i) + t)[0])
    ensures ParseSigned(IntString(i) + t) == Some(i)
  {
    var u := IntString(i) + t;
    if i < 0 {
      var n: nat := -i;
      var v := "-" + (Decimal(n) + t);
      assert IntString(i) == "-" + Decimal(n);
      assert u == v;
      SignedReadsDecimal(n, t);
    } else {
      var v := Decimal(i) + t;
      assert u == v;
      UnsignedReadsDecimalAfterSign(i, t);
    }
  }

  /** A minus sign followed by a decimal notation reads as the negated number. */
  lemma SignedReadsDecimal(n: nat, t: string)
    requires t == [] || (!IsDigitIn(t[0], 10) && t[0] != 'x' && t[0] != 'X')
    ensures !IsWhite(("-" + (Decimal(n) + t))[0])
    ensures ParseSigned("-" + (Decimal(n) + t)) == Some(-(n as int))
  {
    UnsignedReadsDecimal(n, t);
    var u := "-" + (Decimal(n) + t);
    assert u[1..] == Decimal(n) + t;
  }

  /** A decimal notation with no sign reads as the number. */
  lemma UnsignedReadsDecimalAfterSign(n: nat, t: string)
    requires t == [] || (!IsDigitIn(t[0], 10) && t[0] != 'x' && t[0] != 'X')
    ensures !IsWhite((Decimal(n) + t)[0])
    ensures ParseSigned(Decimal(n) + t) == Some(n)
  {
    UnsignedReadsDecimal(n, t);
    DecimalShape(n);
    var u := Decimal(n) + t;
    assert u[0] == Decimal(n)[0];
    assert IsDigitIn(u[0], 10);
  }

  lemma {:induction false} TrimStartSkipsWhite(w: string, s: string)
    requires AllWhite(w)
    requires s == [] || !IsWhite(s[0])
    ensures TrimStart(w + s) == s
  {
    if w != [] {
      assert (w + s)[1..] == w[1..] + s;
      TrimStartSkipsWhite(w[1..], s);
    }
  }
}
