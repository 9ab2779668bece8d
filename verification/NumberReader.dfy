/**
 Reading a number whose author may have used either decimal convention. A lone separator that
 forms groups of exactly three digits is taken for thousands; otherwise it is the decimal point.
 */
module NumberReader {
  import opened Text

  /** A decimal number as written: its digits, and how many of them follow the point. */
  datatype Decimal = Decimal(negative: bool, digits: nat, scale: nat)

  predicate IsNoise(c: char) {
    IsSpace(c) || c == '\U{20ac}' || c == '$' || c == '\U{a3}' || c == '%'
  }

  /** White space, currency and percent signs are ignored wherever they stand. */
  function Clean(s: string): string {
    if s == "" then "" else (if IsNoise(s[0]) then "" else [s[0]]) + Clean(s[1..])
  }

  function Unsigned(s: string): string {
    if s != "" && (s[0] == '+' || s[0] == '-') then s[1..] else s
  }

  /** The index of the last occurrence among the first n characters, or -1. */
  function LastBefore(s: string, c: char, n: nat): (i: int)
    requires n <= |s|
    ensures -1 <= i < n
    ensures i >= 0 ==> s[i] == c
    ensures forall k :: i < k < n ==> s[k] != c
  {
    if n == 0 then -1 else if s[n - 1] == c then n - 1 else LastBefore(s, c, n - 1)
  }

  function LastIndex(s: string, c: char): int {
    LastBefore(s, c, |s|)
  }

  function ReplaceFirst(s: string, from: char, to: char): string {
    if s == "" then "" else if s[0] == from then [to] + s[1..] else [s[0]] + ReplaceFirst(s[1..], from, to)
  }

  /** One to three digits, then groups of exactly three, each behind the separator; at least one group. */
  predicate PureGroups(s: string, separator: char) {
    && |s| >= 5
    && s[|s| - 4] == separator && AllDigits(s[|s| - 3..])
    && ((|s| <= 7 && AllDigits(s[..|s| - 4])) || PureGroups(s[..|s| - 4], separator))
  }

  /** The text with the point as its decimal separator and no thousands separators, if it is a number. */
  function Canonical(t: string): string {
    if ',' in t && '.' in t then
      var decimal := if LastIndex(t, ',') > LastIndex(t, '.') then ',' else '.';
      var thousands := if decimal == ',' then '.' else ',';
      ReplaceFirst(Without(t, thousands), decimal, '.')
    else if ',' in t then
      if PureGroups(t, ',') then Without(t, ',') else ReplaceFirst(t, ',', '.')
    else if '.' in t && PureGroups(t, '.') then Without(t, '.')
    else t
  }

  function DigitsValue(s: string): nat
    requires AllDigits(s)
  {
    if s == "" then 0 else 10 * DigitsValue(s[..|s| - 1]) + (s[|s| - 1] as int - '0' as int)
  }

  /** Digits with at most one point, which has digits on both sides. */
  function Plain(t: string): Option<(nat, nat)> {
    if t != "" && AllDigits(t) then Some((DigitsValue(t), 0))
    else
      var i := LastIndex(t, '.');
      if 0 < i < |t| - 1 && AllDigits(t[..i]) && AllDigits(t[i + 1..]) then
        Some((DigitsValue(t[..i] + t[i + 1..]), |t| - 1 - i))
      else None
  }

  function AsNumber(s: string): Option<Decimal> {
    var cleaned := Clean(s);
    if cleaned == "" then None
    else
      match Plain(Canonical(Unsigned(cleaned)))
      case None => None
      case Some((digits, scale)) => Some(Decimal(cleaned[0] == '-', digits, scale))
  }

  // ---- Both conventions are treated alike ----

  function SwapChar(c: char): char {
    if c == ',' then '.' else if c == '.' then ',' else c
  }

  function Swap(s: string): (r: string)
    ensures |r| == |s|
    ensures forall i :: 0 <= i < |s| ==> r[i] == SwapChar(s[i])
  {
    seq(|s|, i requires 0 <= i < |s| => SwapChar(s[i]))
  }

  lemma SwapMembers(s: string)
    ensures ',' in Swap(s) <==> '.' in s
    ensures '.' in Swap(s) <==> ',' in s
  {
    forall i | 0 <= i < |s|
      ensures s[i] == '.' ==> ',' in Swap(s)
      ensures s[i] == ',' ==> '.' in Swap(s)
    {
      assert Swap(s)[i] == SwapChar(s[i]);
    }
  }

  lemma SwapCons(c: char, s: string)
    ensures Swap([c] + s) == [SwapChar(c)] + Swap(s)
  {
  }

  lemma {:induction false} SwapWithout(s: string, c: char)
    ensures Without(Swap(s), SwapChar(c)) == Swap(Without(s, c))
  {
    if s != "" {
      assert Swap(s)[1..] == Swap(s[1..]);
      SwapWithout(s[1..], c);
      SwapCons(s[0], Without(s[1..], c));
    }
  }

  lemma {:induction false} SwapClean(s: string)
    ensures Clean(Swap(s)) == Swap(Clean(s))
  {
    if s == "" {
    } else {
      assert Swap(s)[1..] == Swap(s[1..]);
      SwapClean(s[1..]);
      SwapCons(s[0], Clean(s[1..]));
    }
  }

  lemma SwapLastIndex(s: string, c: char)
    ensures LastIndex(Swap(s), SwapChar(c)) == LastIndex(s, c)
  {
    SwapLastBefore(s, c, |s|);
  }

  lemma {:induction false} SwapLastBefore(s: string, c: char, n: nat)
    requires n <= |s|
    ensures LastBefore(Swap(s), SwapChar(c), n) == LastBefore(s, c, n)
  {
    if n > 0 {
      SwapLastBefore(s, c, n - 1);
    }
  }

  lemma {:induction false} SwapPureGroups(s: string, c: char)
    ensures PureGroups(Swap(s), SwapChar(c)) == PureGroups(s, c)
  {
    if |s| >= 5 {
      var head, tail := s[..|s| - 4], s[|s| - 3..];
      assert Swap(s)[..|s| - 4] == Swap(head) && Swap(s)[|s| - 3..] == Swap(tail);
      SwapAllDigits(head);
      SwapAllDigits(tail);
      SwapPureGroups(head, c);
    }
  }

  lemma SwapAllDigits(s: string)
    ensures AllDigits(Swap(s)) <==> AllDigits(s)
  {
    forall i | 0 <= i < |s|
      ensures IsDigit(Swap(s)[i]) <==> IsDigit(s[i])
    {
    }
  }

  lemma {:induction false} ReplaceFirstAt(s: string, from: char, to: char) returns (i: nat)
    requires from in s
    ensures i < |s| && s[i] == from && from !in s[..i]
    ensures ReplaceFirst(s, from, to) == s[i := to]
  {
    if s[0] == from {
      i := 0;
    } else {
      i := ReplaceFirstAt(s[1..], from, to);
      i := i + 1;
      assert s[..i] == [s[0]] + s[1..][..i - 1];
    }
  }

  /** Nothing with a comma or with two points is a plain number. */
  lemma PlainHasOneSeparator(t: string, i: nat, j: nat)
    requires i < |t| && j < |t| && i != j
    requires t[i] == ',' || (t[i] == '.' && t[j] == '.')
    ensures Plain(t) == None
  {
    var k := LastIndex(t, '.');
    var odd := if t[i] == ',' || i != k then i else j;
    assert !IsDigit(t[odd]);
    if 0 < k < |t| - 1 {
      assert odd < k ==> t[..k][odd] == t[odd];
      assert odd > k ==> t[k + 1..][odd - k - 1] == t[odd];
    }
  }

  /** With commas alone, replacing the first by a point reads like replacing them all. */
  lemma LoneComma(t: string)
    requires ',' in t && '.' !in t
    ensures Plain(ReplaceFirst(t, ',', '.')) == Plain(Swap(t))
  {
    var i := ReplaceFirstAt(t, ',', '.');
    var r := t[i := '.'];
    if j :| 0 <= j < |t| && j != i && t[j] == ',' {
      PlainHasOneSeparator(r, j, i);
      PlainHasOneSeparator(Swap(t), i, j);
    } else {
      assert r == Swap(t);
    }
  }

  /** The comma is the decimal separator, or the only one. */
  predicate CommaConvention(t: string) {
    ',' in t && LastIndex(t, ',') > LastIndex(t, '.')
  }

  /** The canonical text when both separators occur: what is not the decimal goes. */
  lemma CanonicalOfBoth(t: string, decimal: char, thousands: char)
    requires (decimal == ',' && thousands == '.') || (decimal == '.' && thousands == ',')
    requires thousands in t && LastIndex(t, decimal) > LastIndex(t, thousands)
    ensures Canonical(t) == ReplaceFirst(Without(t, thousands), decimal, '.')
  {
    assert decimal in t;
  }

  lemma CommaDecidesBoth(t: string)
    requires CommaConvention(t) && '.' in t
    ensures Plain(Canonical(Swap(t))) == Plain(Canonical(t))
  {
    var w := Without(t, '.');
    CanonicalOfBoth(t, ',', '.');
    WithoutKeeps(t, '.', ',');
    LoneComma(w);
    assert Canonical(Swap(t)) == Swap(w) by {
      SwapMembers(t);
      SwapLastIndex(t, ',');
      SwapLastIndex(t, '.');
      CanonicalOfBoth(Swap(t), '.', ',');
      SwapWithout(t, '.');
      SwapMembers(w);
      var i := ReplaceFirstAt(Swap(w), '.', '.');
    }
  }

  lemma CommaAlone(t: string)
    requires ',' in t && '.' !in t
    ensures Plain(Canonical(Swap(t))) == Plain(Canonical(t))
  {
    SwapMembers(t);
    SwapPureGroups(t, ',');
    if PureGroups(t, ',') {
      SwapWithout(t, ',');
      WithoutSubset(t, ',', '.');
      SwapUnchanged(Without(t, ','));
    } else {
      LoneComma(t);
    }
  }

  lemma {:induction false} WithoutKeeps(s: string, c: char, kept: char)
    requires kept in s && kept != c
    ensures kept in Without(s, c)
  {
    if s[0] != kept {
      WithoutKeeps(s[1..], c, kept);
    }
  }

  lemma {:induction false} WithoutSubset(s: string, c: char, other: char)
    requires other !in s
    ensures other !in Without(s, c)
  {
    if s != "" {
      WithoutSubset(s[1..], c, other);
    }
  }

  lemma SwapUnchanged(s: string)
    ensures ',' !in s && '.' !in s ==> Swap(s) == s
  {
  }

  lemma SwapTwice(s: string)
    ensures Swap(Swap(s)) == s
  {
  }

  lemma CanonicalSwaps(t: string)
    ensures Plain(Canonical(Swap(t))) == Plain(Canonical(t))
  {
    SwapMembers(t);
    SwapTwice(t);
    if ',' in t && '.' in t {
      if LastIndex(t, ',') > LastIndex(t, '.') {
        CommaDecidesBoth(t);
      } else {
        assert t[LastIndex(t, ',')] != t[LastIndex(t, '.')];
        SwapLastIndex(t, ',');
        SwapLastIndex(t, '.');
        CommaDecidesBoth(Swap(t));
      }
    } else if ',' in t {
      CommaAlone(t);
    } else if '.' in t {
      CommaAlone(Swap(t));
    } else {
      SwapUnchanged(t);
    }
  }

  /** Writing every comma as a point and every point as a comma never changes the reading. */
  lemma LocaleSymmetric(s: string)
    ensures AsNumber(Swap(s)) == AsNumber(s)
  {
    SwapClean(s);
    var cleaned := Clean(s);
    if cleaned != "" {
      assert Unsigned(Swap(cleaned)) == Swap(Unsigned(cleaned));
      CanonicalSwaps(Unsigned(cleaned));
    }
  }

  // ---- Formatting, in either convention ----

  /** Groups of three digits from the right. */
  function Grouped(whole: string, separator: char): string {
    if |whole| <= 3 then whole
    else Grouped(whole[..|whole| - 3], separator) + [separator] + whole[|whole| - 3..]
  }

  function Format(whole: string, fraction: string, decimal: char, grouping: bool): string {
    (if grouping then Grouped(whole, SwapChar(decimal)) else whole)
    + (if fraction == "" then "" else [decimal] + fraction)
  }

  /** The one form that is misread: at most three digits, a lone separator, exactly three more digits. */
  predicate Ambiguous(whole: string, fraction: string) {
    |whole| <= 3 && |fraction| == 3
  }

  lemma NotInDigits(s: string, c: char)
    requires AllDigits(s) && !IsDigit(c)
    ensures c !in s
  {
  }

  lemma {:induction false} GroupedIsPure(whole: string, separator: char)
    requires AllDigits(whole) && |whole| > 3
    ensures PureGroups(Grouped(whole, separator), separator)
    ensures Grouped(whole, separator)[0] == whole[0]
  {
    var head, tail := whole[..|whole| - 3], whole[|whole| - 3..];
    var g := Grouped(head, separator) + [separator] + tail;
    assert g[|g| - 3..] == tail && g[..|g| - 4] == Grouped(head, separator);
    if |head| > 3 {
      GroupedIsPure(head, separator);
    }
  }

  lemma {:induction false} WithoutConcat(s: string, t: string, c: char)
    ensures Without(s + t, c) == Without(s, c) + Without(t, c)
  {
    if s == "" {
      assert s + t == t;
    } else {
      assert (s + t)[1..] == s[1..] + t;
      WithoutConcat(s[1..], t, c);
    }
  }

  /** Taking the separators out gives the digits back, and nothing but separators was put in. */
  lemma {:induction false} GroupedWithout(whole: string, separator: char)
    requires AllDigits(whole) && !IsDigit(separator)
    ensures Without(Grouped(whole, separator), separator) == whole
    ensures forall c :: c in Grouped(whole, separator) ==> c == separator || IsDigit(c)
  {
    NotInDigits(whole, separator);
    if |whole| > 3 {
      var head, tail := whole[..|whole| - 3], whole[|whole| - 3..];
      GroupedWithout(head, separator);
      WithoutConcat(Grouped(head, separator) + [separator], tail, separator);
      WithoutConcat(Grouped(head, separator), [separator], separator);
      NotInDigits(tail, separator);
      assert Without([separator], separator) == "";
      assert head + "" + tail == whole;
    }
  }

  lemma {:induction false} ReplaceFirstAfter(s: string, from: char, to: char, rest: string)
    requires from !in s
    ensures ReplaceFirst(s + [from] + rest, from, to) == s + [to] + rest
  {
    var t := s + [from] + rest;
    if s == "" {
      assert t == [from] + rest;
    } else {
      assert t[1..] == s[1..] + [from] + rest;
      ReplaceFirstAfter(s[1..], from, to, rest);
    }
  }

  lemma PlainPointed(whole: string, fraction: string)
    requires AllDigits(whole) && AllDigits(fraction) && whole != "" && fraction != ""
    ensures Plain(whole + "." + fraction) == Some((DigitsValue(whole + fraction), |fraction|))
  {
    var t := whole + "." + fraction;
    assert t[|whole|] == '.';
    LastPoint(whole, fraction);
    assert t[..|whole|] == whole && t[|whole| + 1..] == fraction;
  }

  lemma LastPoint(whole: string, fraction: string)
    requires AllDigits(fraction)
    ensures LastIndex(whole + "." + fraction, '.') == |whole|
  {
    var t := whole + "." + fraction;
    assert t[|whole|] == '.';
    assert forall k :: |whole| < k < |t| ==> t[k] == fraction[k - |whole| - 1];
  }

  lemma PlainWhole(whole: string)
    requires AllDigits(whole) && whole != ""
    ensures Plain(whole) == Some((DigitsValue(whole), 0))
  {
  }

  /** A number without thousands separators. */
  lemma CanonicalUngrouped(whole: string, fraction: string, decimal: char)
    requires decimal == ',' || decimal == '.'
    requires AllDigits(whole) && AllDigits(fraction) && whole != "" && fraction != ""
    ensures Canonical(whole + [decimal] + fraction)
            == if Ambiguous(whole, fraction) then whole + fraction else whole + "." + fraction
  {
    var t := whole + [decimal] + fraction;
    UngroupedIsPure(whole, fraction, decimal);
    LoneSeparator(whole, fraction, decimal);
    NotInDigits(whole, decimal);
    if Ambiguous(whole, fraction) {
      UngroupedWithout(whole, fraction, decimal);
    } else {
      ReplaceFirstAfter(whole, decimal, '.', fraction);
    }
  }

  lemma LoneSeparator(whole: string, fraction: string, decimal: char)
    requires decimal == ',' || decimal == '.'
    requires AllDigits(whole) && AllDigits(fraction)
    ensures ',' in whole + [decimal] + fraction <==> decimal == ','
    ensures '.' in whole + [decimal] + fraction <==> decimal == '.'
  {
    var t := whole + [decimal] + fraction;
    assert t[|whole|] == decimal;
    assert forall k :: 0 <= k < |t| && k != |whole| ==> IsDigit(t[k]);
  }

  lemma UngroupedWithout(whole: string, fraction: string, decimal: char)
    requires AllDigits(whole) && AllDigits(fraction) && !IsDigit(decimal)
    ensures Without(whole + [decimal] + fraction, decimal) == whole + fraction
  {
    NotInDigits(whole, decimal);
    NotInDigits(fraction, decimal);
    WithoutConcat(whole + [decimal], fraction, decimal);
    WithoutConcat(whole, [decimal], decimal);
    assert Without([decimal], decimal) == "";
    assert whole + "" + fraction == whole + fraction;
  }

  lemma UngroupedIsPure(whole: string, fraction: string, decimal: char)
    requires !IsDigit(decimal)
    requires AllDigits(whole) && AllDigits(fraction) && whole != "" && fraction != ""
    ensures PureGroups(whole + [decimal] + fraction, decimal) <==> Ambiguous(whole, fraction)
  {
    var t := whole + [decimal] + fraction;
    assert forall k :: 0 <= k < |t| && k != |whole| ==> IsDigit(t[k]);
    if |fraction| == 3 {
      assert t[|t| - 3..] == fraction && t[..|t| - 4] == whole;
      assert |whole| >= 4 ==> IsDigit(whole[|whole| - 4]);
    }
  }

  lemma CanonicalGroupedWhole(whole: string, separator: char)
    requires separator == ',' || separator == '.'
    requires AllDigits(whole) && |whole| > 3
    ensures Canonical(Grouped(whole, separator)) == whole
  {
    GroupedIsPure(whole, separator);
    GroupedWithout(whole, separator);
    var g := Grouped(whole, separator);
    assert g[|g| - 4] == separator;
  }

  lemma CanonicalGrouped(whole: string, fraction: string, decimal: char)
    requires decimal == ',' || decimal == '.'
    requires AllDigits(whole) && AllDigits(fraction) && |whole| > 3 && fraction != ""
    ensures Canonical(Grouped(whole, SwapChar(decimal)) + ([decimal] + fraction)) == whole + "." + fraction
  {
    var thousands := SwapChar(decimal);
    var g := Grouped(whole, thousands);
    assert thousands in g by {
      GroupedIsPure(whole, thousands);
      assert g[|g| - 4] == thousands;
    }
    GroupedWithout(whole, thousands);
    NotInDigits(whole, decimal);
    NotInDigits(fraction, thousands);
    CanonicalOfParts(g, whole, fraction, decimal, thousands);
  }

  lemma CanonicalOfParts(g: string, whole: string, fraction: string, decimal: char, thousands: char)
    requires (decimal == ',' && thousands == '.') || (decimal == '.' && thousands == ',')
    requires thousands in g && Without(g, thousands) == whole
    requires decimal !in whole && thousands !in fraction
    ensures Canonical(g + ([decimal] + fraction)) == whole + "." + fraction
  {
    var tail := [decimal] + fraction;
    SeparatorsInOrder(g, tail, decimal, thousands);
    CanonicalOfBoth(g + tail, decimal, thousands);
    WithoutConcat(g, tail, thousands);
    assert whole + ([decimal] + fraction) == whole + [decimal] + fraction;
    ReplaceFirstAfter(whole, decimal, '.', fraction);
  }

  lemma SeparatorsInOrder(g: string, tail: string, decimal: char, thousands: char)
    requires thousands in g && thousands !in tail && tail != "" && tail[0] == decimal
    ensures thousands in g + tail
    ensures LastIndex(g + tail, decimal) > LastIndex(g + tail, thousands)
  {
    assert (g + tail)[|g|] == decimal;
    assert forall k :: |g| <= k < |g + tail| ==> (g + tail)[k] == tail[k - |g|];
  }

  lemma FormatReadsBack(whole: string, fraction: string, decimal: char, grouping: bool)
    requires decimal == ',' || decimal == '.'
    requires AllDigits(whole) && AllDigits(fraction) && whole != ""
    ensures Plain(Canonical(Format(whole, fraction, decimal, grouping)))
            == Some((DigitsValue(whole + fraction), if Ambiguous(whole, fraction) then 0 else |fraction|))
    ensures IsDigit(Format(whole, fraction, decimal, grouping)[0])
  {
    var t := Format(whole, fraction, decimal, grouping);
    assert IsDigit(whole[0]);
    assert AllDigits(whole + fraction);
    if fraction != "" {
      PlainPointed(whole, fraction);
    } else {
      assert whole + fraction == whole;
    }
    if grouping && |whole| > 3 {
      GroupedIsPure(whole, SwapChar(decimal));
      if fraction == "" {
        assert t == Grouped(whole, SwapChar(decimal));
        CanonicalGroupedWhole(whole, SwapChar(decimal));
        PlainWhole(whole);
      } else {
        CanonicalGrouped(whole, fraction, decimal);
      }
    } else if fraction != "" {
      assert t == whole + [decimal] + fraction;
      CanonicalUngrouped(whole, fraction, decimal);
    } else {
      assert t == whole;
      NotInDigits(whole, ',');
      NotInDigits(whole, '.');
    }
  }

  /** What may stand anywhere in a number: white space, the euro, dollar and pound signs, and percent. */
  predicate MayStandAnywhere(c: char) {
    || c in {'\t', '\n', '\U{b}', '\U{c}', '\r', ' ', '\U{a0}', '\U{1680}'}
    || c in {'\U{2000}', '\U{2001}', '\U{2002}', '\U{2003}', '\U{2004}', '\U{2005}', '\U{2006}', '\U{2007}'}
    || c in {'\U{2008}', '\U{2009}', '\U{200a}', '\U{2028}', '\U{2029}', '\U{202f}', '\U{205f}', '\U{3000}', '\U{feff}'}
    || c in {'€', '$', '£', '%'}
  }

  /** s is t with such characters put in, at any places and any number of them. */
  predicate SpelledWith(s: string, t: string)
    decreases |s|
  {
    if s == "" then t == ""
    else if MayStandAnywhere(s[0]) then SpelledWith(s[1..], t)
    else t != "" && s[0] == t[0] && SpelledWith(s[1..], t[1..])
  }

  lemma NoiseIsThese(c: char)
    ensures IsNoise(c) <==> MayStandAnywhere(c)
  {
  }

  lemma {:induction false} CleanOfSpelled(s: string, t: string)
    requires SpelledWith(s, t)
    ensures Clean(s) == t
    decreases |s|
  {
    if s != "" {
      NoiseIsThese(s[0]);
      if MayStandAnywhere(s[0]) {
        CleanOfSpelled(s[1..], t);
      } else {
        CleanOfSpelled(s[1..], t[1..]);
        assert t == [t[0]] + t[1..];
      }
    }
  }

  /**
   A number formatted in either convention, with a sign or none, grouped or not (a space groups too, and
   currency may stand anywhere). The digits and the sign always come back; the place of the point comes
   back except in the ambiguous form, which is read as a whole number.
   */
  lemma ReadsFormatted(s: string, sign: string, whole: string, fraction: string, decimal: char, grouping: bool)
    requires decimal == ',' || decimal == '.'
    requires sign in {"", "+", "-"} && AllDigits(whole) && AllDigits(fraction) && whole != ""
    requires SpelledWith(s, sign + Format(whole, fraction, decimal, grouping))
    ensures AsNumber(s) == Some(Decimal(sign == "-",
                                        DigitsValue(whole + fraction),
                                        if Ambiguous(whole, fraction) then 0 else |fraction|))
  {
    CleanOfSpelled(s, sign + Format(whole, fraction, decimal, grouping));
    ReadsClean(s, sign, whole, fraction, decimal, grouping);
  }

  lemma ReadsClean(s: string, sign: string, whole: string, fraction: string, decimal: char, grouping: bool)
    requires decimal == ',' || decimal == '.'
    requires sign in {"", "+", "-"} && AllDigits(whole) && AllDigits(fraction) && whole != ""
    requires Clean(s) == sign + Format(whole, fraction, decimal, grouping)
    ensures AsNumber(s) == Some(Decimal(sign == "-",
                                        DigitsValue(whole + fraction),
                                        if Ambiguous(whole, fraction) then 0 else |fraction|))
  {
    var t := Format(whole, fraction, decimal, grouping);
    FormatReadsBack(whole, fraction, decimal, grouping);
    SignedText(sign, t);
  }

  lemma SignedText(sign: string, t: string)
    requires sign in {"", "+", "-"} && t != "" && IsDigit(t[0])
    ensures Unsigned(sign + t) == t
    ensures (sign + t)[0] == '-' <==> sign == "-"
  {
    if sign == "" {
      assert sign + t == t;
    } else {
      assert sign == "+" || sign == "-";
      assert (sign + t)[1..] == t;
    }
  }

  function PowerOfTen(n: nat): (p: nat)
    ensures p > 0
  {
    if n == 0 then 1 else 10 * PowerOfTen(n - 1)
  }

  predicate SameNumber(a: Decimal, b: Decimal) {
    a.negative == b.negative && a.digits * PowerOfTen(b.scale) == b.digits * PowerOfTen(a.scale)
  }

  /** Exactly the ambiguous form of a number other than zero is read as a different number. */
  lemma ReadsBackIff(s: string, sign: string, whole: string, fraction: string, decimal: char, grouping: bool)
    requires decimal == ',' || decimal == '.'
    requires sign in {"", "+", "-"} && AllDigits(whole) && AllDigits(fraction) && whole != ""
    requires SpelledWith(s, sign + Format(whole, fraction, decimal, grouping))
    ensures var written := Decimal(sign == "-", DigitsValue(whole + fraction), |fraction|);
            && AsNumber(s).Some?
            && (SameNumber(AsNumber(s).value, written)
                <==> !(Ambiguous(whole, fraction) && written.digits != 0))
  {
    ReadsFormatted(s, sign, whole, fraction, decimal, grouping);
    assert PowerOfTen(0) == 1 && PowerOfTen(3) == 1000;
  }

  /** An eighth, written the usual way, is read as a hundred and twenty-five. */
  lemma EighthIsMisread(s: string, whole: string, fraction: string)
    requires whole == "0" && fraction == "125" && s == whole + "." + fraction
    ensures AsNumber(s) == Some(Decimal(false, 125, 0))
  {
    ValueOf0125(whole + fraction);
    CleanEighth(s);
    PlainlyWritten(s, whole, fraction);
  }

  lemma CleanEighth(s: string)
    requires s == "0.125"
    ensures Clean(s) == s
  {
    assert forall i :: 0 <= i < |s| ==> s[i] in {'0', '.', '1', '2', '5'};
    NoNoise(s);
  }

  lemma PlainlyWritten(s: string, whole: string, fraction: string)
    requires s == whole + "." + fraction && Clean(s) == s
    requires AllDigits(whole) && AllDigits(fraction) && whole != "" && fraction != ""
    ensures AsNumber(s) == Some(Decimal(false, DigitsValue(whole + fraction),
                                        if Ambiguous(whole, fraction) then 0 else |fraction|))
  {
    var sign := "";
    UngroupedFormat(sign, whole, fraction);
    ReadsClean(s, sign, whole, fraction, '.', false);
  }

  lemma UngroupedFormat(sign: string, whole: string, fraction: string)
    requires sign == "" && fraction != ""
    ensures sign + Format(whole, fraction, '.', false) == whole + "." + fraction
  {
  }

  lemma ValueOf0125(s: string)
    requires s == "0125"
    ensures AllDigits(s) && DigitsValue(s) == 125
  {
    assert s[..3][..2] == s[..2] && s[..2][..1] == s[..1] && s[..1][..0] == "";
    assert DigitsValue(s[..1]) == 0;
    assert DigitsValue(s[..2]) == 1;
    assert DigitsValue(s[..3]) == 12;
  }

  lemma {:induction false} NoNoise(s: string)
    requires forall i :: 0 <= i < |s| ==> !IsNoise(s[i])
    ensures Clean(s) == s
  {
    if s != "" {
      NoNoise(s[1..]);
    }
  }

  /** With both separators the groups in front may have any size: the last separator decides. */
  lemma LooseGroupsAreRead(s: string, sign: string, front: string, whole: string, fraction: string, decimal: char)
    requires (decimal == ',' || decimal == '.') && sign in {"", "+", "-"}
    requires SwapChar(decimal) in front && Without(front, SwapChar(decimal)) == whole
    requires AllDigits(whole) && AllDigits(fraction) && whole != "" && fraction != ""
    requires SpelledWith(s, sign + (front + ([decimal] + fraction)))
    ensures AsNumber(s) == Some(Decimal(sign == "-", DigitsValue(whole + fraction), |fraction|))
  {
    var thousands, t := SwapChar(decimal), front + ([decimal] + fraction);
    CleanOfSpelled(s, sign + t);
    NotInDigits(whole, decimal);
    NotInDigits(fraction, thousands);
    CanonicalOfParts(front, whole, fraction, decimal, thousands);
    PlainPointed(whole, fraction);
    NoSignInFront(front, thousands);
    SignTakenOff(sign, t);
  }

  lemma NoSignInFront(front: string, separator: char)
    requires AllDigits(Without(front, separator)) && front != "" && (separator == ',' || separator == '.')
    ensures front[0] != '+' && front[0] != '-'
  {
    if front[0] != separator {
      assert Without(front, separator)[0] == front[0];
    }
  }

  lemma SignTakenOff(sign: string, t: string)
    requires sign in {"", "+", "-"} && t != "" && t[0] != '+' && t[0] != '-'
    ensures Unsigned(sign + t) == t
    ensures (sign + t)[0] == '-' <==> sign == "-"
  {
    if sign == "" {
      assert sign + t == t;
    } else {
      assert sign == "+" || sign == "-";
      assert (sign + t)[1..] == t;
    }
  }

  // ---- What the digits are worth ----

  /** The last so many decimal digits of a number, zeros in front. */
  function LastDigits(n: nat, width: nat): string {
    if width == 0 then "" else LastDigits(n / 10, width - 1) + ["0123456789"[n % 10]]
  }

  /** The value of a string of digits is the number that those digits write. */
  lemma {:induction false} DigitsWriteTheirValue(s: string)
    requires AllDigits(s)
    ensures LastDigits(DigitsValue(s), |s|) == s
    ensures DigitsValue(s) < PowerOfTen(|s|)
  {
    if s != "" {
      var n := |s| - 1;
      DigitsWriteTheirValue(s[..n]);
      DigitAt(s[n]);
      var v := DigitsValue(s[..n]);
      assert DigitsValue(s) == 10 * v + (s[n] as int - '0' as int);
      assert DigitsValue(s) / 10 == v && DigitsValue(s) % 10 == s[n] as int - '0' as int;
      assert s == s[..n] + [s[n]];
    }
  }

  lemma DigitAt(c: char)
    requires IsDigit(c)
    ensures 0 <= c as int - '0' as int < 10 && "0123456789"[c as int - '0' as int] == c
  {
  }

  // ---- What is no number ----

  lemma {:induction false} WithoutKeepsOthers(t: string, c: char, d: char)
    requires c in t && c != d
    ensures c in Without(t, d)
  {
    if t[0] != c {
      WithoutKeepsOthers(t[1..], c, d);
    }
  }

  lemma {:induction false} ReplaceKeepsOthers(t: string, from: char, to: char, c: char)
    requires c in t && c != from
    ensures c in ReplaceFirst(t, from, to)
  {
    if t[0] != from && t[0] != c {
      ReplaceKeepsOthers(t[1..], from, to, c);
    }
  }

  lemma CanonicalKeepsForeign(t: string, c: char)
    requires c in t && c != ',' && c != '.'
    ensures c in Canonical(t)
  {
    WithoutKeepsOthers(t, c, ',');
    WithoutKeepsOthers(t, c, '.');
    ReplaceKeepsOthers(t, ',', '.', c);
    if ',' in t && '.' in t {
      var decimal := if LastIndex(t, ',') > LastIndex(t, '.') then ',' else '.';
      var thousands := if decimal == ',' then '.' else ',';
      ReplaceKeepsOthers(Without(t, thousands), decimal, '.', c);
    }
  }

  lemma PlainHasNoForeign(t: string, c: char)
    requires c in t && !IsDigit(c) && c != '.'
    ensures Plain(t).None?
  {
    var k :| 0 <= k < |t| && t[k] == c;
    var i := LastIndex(t, '.');
    if 0 < i < |t| - 1 {
      if k < i {
        assert t[..i][k] == c;
      } else {
        assert k > i && t[i + 1..][k - i - 1] == c;
      }
    }
  }

  /**
   Behind an optional sign, any character that is no digit, comma or point, and none of those that may
   stand anywhere, makes the text no number; and so does a text without any character but those.
   */
  lemma ForeignIsNoNumber(s: string, sign: string, t: string)
    requires SpelledWith(s, sign + t) && sign in {"", "+", "-"}
    requires sign + t == "" || exists k :: 0 <= k < |t| && !('0' <= t[k] <= '9') && t[k] != ',' && t[k] != '.'
                                           && (sign == "" ==> k > 0 || (t[k] != '+' && t[k] != '-'))
    ensures AsNumber(s).None?
  {
    CleanOfSpelled(s, sign + t);
    if sign + t != "" {
      var k :| 0 <= k < |t| && !('0' <= t[k] <= '9') && t[k] != ',' && t[k] != '.'
               && (sign == "" ==> k > 0 || (t[k] != '+' && t[k] != '-'));
      var body := Unsigned(sign + t);
      assert t[k] in body by {
        if sign == "" {
          assert sign + t == t;
          if body == t[1..] {
            assert k > 0 ==> body[k - 1] == t[k];
          }
        } else {
          assert sign == "+" || sign == "-";
          assert (sign + t)[1..] == t;
        }
      }
      CanonicalKeepsForeign(body, t[k]);
      PlainHasNoForeign(Canonical(body), t[k]);
    }
  }
}
