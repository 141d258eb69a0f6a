/** Exact decimal rendering of base-unit amounts: Format and Parse of utils/units/units.go. */
module Units {
  import opened TxTypes
  import opened Decimal

  /** unicode.IsSpace. */
  predicate IsSpace(c: char) {
    || '\U{9}' <= c <= '\U{D}' || c == ' ' || c == '\U{85}' || c == '\U{A0}' || c == '\U{1680}'
    || '\U{2000}' <= c <= '\U{200A}' || c == '\U{2028}' || c == '\U{2029}' || c == '\U{202F}' || c == '\U{205F}' ||
        c == '\U{3000}'
  }

  function TrimSpace(s: string): string {
    if s == "" then s
    else if IsSpace(s[0]) then TrimSpace(s[1..])
    else if IsSpace(s[|s| - 1]) then TrimSpace(s[..|s| - 1])
    else s
  }

  function TrimRightZeros(s: string): (r: string)
    ensures |r| <= |s| && s == r + Zeros(|s| - |r|)
    ensures r != "" ==> r[|r| - 1] != '0'
  {
    if s != "" && s[|s| - 1] == '0' then
      var r := TrimRightZeros(s[..|s| - 1]);
      assert s == s[..|s| - 1] + "0";
      r
    else s
  }

  /** strings.Cut at the first dot. */
  function DotIndex(s: string): (r: nat)
    ensures r <= |s| && (r < |s| ==> s[r] == '.') && forall i :: 0 <= i < r ==> s[i] != '.'
  {
    if s == "" || s[0] == '.' then 0 else 1 + DotIndex(s[1..])
  }

  function Abs(a: int): nat {
    if a < 0 then -a else a
  }

  /** The digits of n with at least one before the decimal point. */
  function Padded(n: nat, decimals: nat): (r: string)
    ensures |r| > decimals
  {
    var s := Digits(n);
    if decimals + 1 > |s| then Zeros(decimals + 1 - |s|) + s else s
  }

  function FormatDigits(n: nat, decimals: nat): string {
    if decimals == 0 then Digits(n)
    else
      var s := Padded(n, decimals);
      var whole := s[..|s| - decimals];
      var frac := TrimRightZeros(s[|s| - decimals..]);
      if frac == "" then whole else whole + "." + frac
  }

  function Minus(negative: bool): string {
    if negative then "-" else ""
  }

  /** A missing amount is zero. */
  function Format(amount: Option<int>, decimals: nat): string {
    if amount.None? then "0" else Minus(amount.value < 0) + FormatDigits(Abs(amount.value), decimals)
  }

  predicate Signed(s: string) {
    s != "" && (s[0] == '-' || s[0] == '+')
  }

  /** The unsigned part: digits around at most one dot, no more fraction digits than decimals. */
  function ParseDigits(value: string, decimals: nat): Option<nat> {
    ParseParts(WholeOf(value), FracOf(value), decimals)
  }

  /** What strings.Cut leaves before the dot. */
  function WholeOf(value: string): string {
    value[..DotIndex(value)]
  }

  /** What it leaves after the dot. */
  function FracOf(value: string): string {
    if DotIndex(value) < |value| then value[DotIndex(value) + 1..] else ""
  }

  function ParseParts(whole: string, frac: string, decimals: nat): Option<nat> {
    if whole == "" && frac == "" then None
    else if |frac| > decimals then None
    else
      var digits := whole + frac + Zeros(decimals - |frac|);
      if AllDigits(digits) then Some(Value(digits)) else None
  }

  function WithSign(negative: bool, n: nat): int {
    if negative then 0 - n else n
  }

  /** None is an error. */
  function Parse(text: string, decimals: nat): Option<int> {
    var trimmed := TrimSpace(text);
    var n := ParseDigits(if Signed(trimmed) then trimmed[1..] else trimmed, decimals);
    if n.None? then None else Some(WithSign(Signed(trimmed) && trimmed[0] == '-', n.value))
  }

  // ----- printing -----

  lemma PaddedValue(n: nat, decimals: nat)
    ensures AllDigits(Padded(n, decimals)) && Value(Padded(n, decimals)) == n
  {
    hide Digits, Value, Zeros, Pow10;
    var s := Digits(n);
    ReadPrinted(n);
    if decimals + 1 > |s| {
      ValueConcat(Zeros(decimals + 1 - |s|), s);
      ValueOfZeros(decimals + 1 - |s|);
    }
  }

  /** What Format prints after the sign: digits, and after a dot a fraction that does not end in zero. */
  ghost predicate Rendering(body: string, whole: string, frac: string, amount: nat, decimals: nat) {
    && Canonical(whole) && AllDigits(frac) && |frac| <= decimals
    && (frac != "" ==> frac[|frac| - 1] != '0')
    && body == (if frac == "" then whole else whole + "." + frac)
    && AllDigits(whole + frac + Zeros(decimals - |frac|))
    && Value(whole + frac + Zeros(decimals - |frac|)) == amount
  }

  lemma PaddedWhole(n: nat, decimals: nat)
    ensures Canonical(Padded(n, decimals)[..|Padded(n, decimals)| - decimals])
  {
    hide Digits, Value;
    ReadPrinted(n);
  }

  lemma Split(s: string, decimals: nat)
    requires decimals < |s| && AllDigits(s)
    ensures
      var whole, frac := s[..|s| - decimals], TrimRightZeros(s[|s| - decimals..]);
      AllDigits(frac) && whole + frac + Zeros(decimals - |frac|) == s
  {
    hide TrimRightZeros, Zeros;
    var tail := s[|s| - decimals..];
    var frac := TrimRightZeros(tail);
    assert tail == frac + Zeros(decimals - |frac|);
    assert forall i :: 0 <= i < |frac| ==> frac[i] == tail[i];
  }

  lemma FormatRenders(n: nat, decimals: nat) returns (whole: string, frac: string)
    ensures Rendering(FormatDigits(n, decimals), whole, frac, n, decimals)
  {
    hide Digits, Value, Zeros, TrimRightZeros, Canonical, Padded, AllDigits;
    if decimals == 0 {
      ReadPrinted(n);
      whole, frac := Digits(n), "";
      assert whole + frac + Zeros(0) == whole;
      CanonicalDigits(whole);
    } else {
      var s := Padded(n, decimals);
      PaddedValue(n, decimals);
      PaddedWhole(n, decimals);
      Split(s, decimals);
      whole := s[..|s| - decimals];
      frac := TrimRightZeros(s[|s| - decimals..]);
    }
  }

  lemma CanonicalDigits(s: string)
    requires Canonical(s)
    ensures s != "" && AllDigits(s) && AllDigits("")
  {
  }

  /** A text with no space at either end is left alone. */
  lemma TrimmedAlready(s: string)
    requires s != "" && !IsSpace(s[0]) && !IsSpace(s[|s| - 1])
    ensures TrimSpace(s) == s
  {
  }

  lemma DotFound(whole: string, frac: string)
    requires AllDigits(whole)
    ensures DotIndex(whole) == |whole| && DotIndex(whole + "." + frac) == |whole|
  {
    var s := whole + "." + frac;
    assert forall i :: 0 <= i < |whole| ==> s[i] == whole[i];
    assert s[|whole|] == '.';
  }

  lemma DigitsNoSpace(c: char)
    requires IsDigit(c) || c == '-'
    ensures !IsSpace(c)
  {
  }

  // ----- what a text means -----

  /** Whole and fraction at their places, in base units. */
  function Places(whole: string, frac: string, decimals: nat): nat
    requires AllDigits(whole) && AllDigits(frac) && |frac| <= decimals
  {
    Value(whole) * Pow10(decimals) + Value(frac) * Pow10(decimals - |frac|)
  }

  lemma JoinedPlaces(whole: string, frac: string, decimals: nat)
    requires AllDigits(whole) && AllDigits(frac) && |frac| <= decimals
    ensures AllDigits(whole + frac + Zeros(decimals - |frac|))
    ensures Value(whole + frac + Zeros(decimals - |frac|)) == Places(whole, frac, decimals)
  {
    hide Value, Zeros, Pow10;
    var zeros := Zeros(decimals - |frac|);
    ValueOfZeros(|zeros|);
    ValueConcat(frac, zeros);
    ValueConcat(whole, frac + zeros);
    assert whole + frac + zeros == whole + (frac + zeros);
  }

  /** A minus only below zero, a whole part without leading zeros, a fraction, if any, that does not end in zero, and
      the amount at its places. A missing amount is zero. */
  lemma FormatMeans(amount: int, decimals: nat) returns (whole: string, frac: string)
    ensures Canonical(whole) && AllDigits(frac) && |frac| <= decimals && (frac != "" ==> frac[|frac| - 1] != '0')
    ensures Places(whole, frac, decimals) == Abs(amount)
    ensures Format(Some(amount), decimals) ==
            (if amount < 0 then "-" else "") + (if frac == "" then whole else whole + "." + frac)
    ensures Format(None, decimals) == "0"
  {
    hide FormatDigits, Value, Zeros, Pow10, Canonical;
    whole, frac := FormatRenders(Abs(amount), decimals);
    RenderedDigits(whole, frac, Abs(amount), decimals);
    JoinedPlaces(whole, frac, decimals);
  }

  lemma RenderedDigits(whole: string, frac: string, n: nat, decimals: nat)
    requires Rendering(FormatDigits(n, decimals), whole, frac, n, decimals)
    ensures AllDigits(whole)
  {
  }

  predicate AllSpace(s: string) {
    forall i :: 0 <= i < |s| ==> IsSpace(s[i])
  }

  /** An optional sign and digits around at most one dot, at least one digit and no more of them after the dot than
      decimals. */
  predicate AmountText(core: string, sign: string, whole: string, rest: string, frac: string, decimals: nat) {
    && core == sign + whole + rest && (sign == "" || sign == "+" || sign == "-")
    && AllDigits(whole) && AllDigits(frac) && |frac| <= decimals && whole + frac != ""
    && (rest == "." + frac || (rest == "" && frac == ""))
  }

  lemma {:induction false} Trimmed(left: string, core: string, right: string)
    requires AllSpace(left) && AllSpace(right)
    requires core != "" && !IsSpace(core[0]) && !IsSpace(core[|core| - 1])
    ensures TrimSpace(left + core + right) == core
    decreases |left| + |right|
  {
    hide IsSpace;
    var s := left + core + right;
    if left != "" {
      assert s[1..] == left[1..] + core + right;
      Trimmed(left[1..], core, right);
    } else if right != "" {
      assert s[0] == core[0] && s[..|s| - 1] == left + core + right[..|right| - 1];
      Trimmed(left, core, right[..|right| - 1]);
    } else {
      assert s == core;
    }
  }

  lemma {:induction false} TrimSplits(s: string) returns (left: string, right: string)
    ensures AllSpace(left) && AllSpace(right) && s == left + TrimSpace(s) + right
    decreases |s|
  {
    hide IsSpace, AllSpace;
    left, right := "", "";
    NoSpace();
    if s != "" && IsSpace(s[0]) {
      left, right := TrimSplits(s[1..]);
      assert s == [s[0]] + s[1..];
      SpaceMore(s[0], left);
      left := [s[0]] + left;
    } else if s != "" && IsSpace(s[|s| - 1]) {
      left, right := TrimSplits(s[..|s| - 1]);
      assert s == s[..|s| - 1] + [s[|s| - 1]];
      SpaceMore(s[|s| - 1], right);
      right := right + [s[|s| - 1]];
    }
  }

  lemma NoSpace()
    ensures AllSpace("")
  {
  }

  lemma SpaceMore(c: char, s: string)
    requires IsSpace(c) && AllSpace(s)
    ensures AllSpace([c] + s) && AllSpace(s + [c])
  {
    hide IsSpace;
  }

  lemma AmountEnds(core: string, sign: string, whole: string, rest: string, frac: string, decimals: nat)
    requires AmountText(core, sign, whole, rest, frac, decimals)
    ensures core != "" && !IsSpace(core[0]) && !IsSpace(core[|core| - 1])
    ensures Signed(core) <==> sign != ""
    ensures (if Signed(core) then core[1..] else core) == whole + rest
    ensures Signed(core) && core[0] == '-' <==> sign == "-"
  {
    assert forall i :: 0 <= i < |core| ==> IsDigit(core[i]) || core[i] in ['-', '+', '.'];
    assert core[1..] == (sign + (whole + rest))[1..];
    if sign == "" {
      assert core == whole + rest;
    } else {
      assert core[1..] == whole + rest;
    }
  }

  /** The unsigned part of such a text, read. */
  lemma BodyRead(whole: string, rest: string, frac: string, decimals: nat)
    requires AllDigits(whole) && AllDigits(frac) && |frac| <= decimals && whole + frac != ""
    requires rest == "." + frac || (rest == "" && frac == "")
    ensures ParseDigits(whole + rest, decimals) == Some(Places(whole, frac, decimals))
  {
    hide Value, Zeros, WholeOf, FracOf, Places;
    var value := whole + rest;
    BodyParts(whole, rest, frac);
    JoinedPlaces(whole, frac, decimals);
  }

  lemma BodyParts(whole: string, rest: string, frac: string)
    requires AllDigits(whole) && (rest == "." + frac || (rest == "" && frac == ""))
    ensures WholeOf(whole + rest) == whole && FracOf(whole + rest) == frac
  {
    hide DotIndex;
    var value := whole + rest;
    DotFound(whole, frac);
    assert rest != "" ==> value == whole + "." + frac;
    assert rest == "" ==> value == whole;
    assert value[..|whole|] == whole;
    assert rest != "" ==> value[|whole| + 1..] == frac;
  }

  /** Surrounding space is dropped, a plus changes nothing, a minus negates, and whole and fraction are read at their
      places, exactly and never rounded. */
  lemma ParseMeans(left: string, right: string, core: string, sign: string, whole: string, rest: string, frac: string,
                   decimals: nat)
    requires AllSpace(left) && AllSpace(right) && AmountText(core, sign, whole, rest, frac, decimals)
    ensures Parse(left + core + right, decimals) ==
            Some(WithSign(sign == "-", Places(whole, frac, decimals)))
  {
    hide ParseDigits, IsSpace, TrimSpace, AllSpace, AllDigits, Places, Signed;
    AmountEnds(core, sign, whole, rest, frac, decimals);
    Trimmed(left, core, right);
    BodyRead(whole, rest, frac, decimals);
  }

  lemma BodySplit(value: string, decimals: nat) returns (whole: string, rest: string, frac: string)
    requires ParseDigits(value, decimals).Some?
    ensures value == whole + rest && AllDigits(whole) && AllDigits(frac) && |frac| <= decimals && whole + frac != ""
    ensures rest == "." + frac || (rest == "" && frac == "")
  {
    hide Value;
    whole, rest, frac := WholeOf(value), value[DotIndex(value)..], FracOf(value);
    DigitsApart(whole, frac, Zeros(decimals - |frac|));
  }

  lemma DigitsApart(a: string, b: string, c: string)
    requires AllDigits(a + b + c)
    ensures AllDigits(a) && AllDigits(b)
  {
    var s := a + b + c;
    assert forall i :: 0 <= i < |a| ==> s[i] == a[i];
    assert forall i :: 0 <= i < |b| ==> s[|a| + i] == b[i];
  }

  /** Nothing else is accepted. */
  lemma ParseOnly(text: string, decimals: nat)
    returns (left: string, right: string, core: string, sign: string, whole: string, rest: string, frac: string)
    requires Parse(text, decimals).Some?
    ensures text == left + core + right && AllSpace(left) && AllSpace(right)
    ensures AmountText(core, sign, whole, rest, frac, decimals)
  {
    hide ParseDigits, IsSpace, TrimSpace, AllSpace, AllDigits;
    left, right := TrimSplits(text);
    core := TrimSpace(text);
    sign := if Signed(core) then core[..1] else "";
    var value := if Signed(core) then core[1..] else core;
    whole, rest, frac := BodySplit(value, decimals);
    assert core == sign + value;
    assert core == sign + whole + rest;
  }

  // ----- the round trip -----

  /** Print then parse: every integer at every precision comes back exactly. */
  lemma ParseFormat(amount: int, decimals: nat)
    ensures Parse(Format(Some(amount), decimals), decimals) == Some(amount)
  {
    hide Format, Parse, Places, Canonical;
    var whole, frac := FormatMeans(amount, decimals);
    CanonicalDigits(whole);
    var text, sign, rest :=
      Format(Some(amount), decimals), if amount < 0 then "-" else "", if frac == "" then "" else "." + frac;
    assert text == sign + whole + rest && text == "" + text + "" && |whole + frac| > 0;
    ParseMeans("", "", text, sign, whole, rest, frac, decimals);
  }

  /** Hence two amounts never print alike. */
  lemma FormatInjective(a: int, b: int, decimals: nat)
    requires Format(Some(a), decimals) == Format(Some(b), decimals)
    ensures a == b
  {
    ParseFormat(a, decimals);
    ParseFormat(b, decimals);
  }

  /** Parse then print normalises: parsing the print of what was parsed changes nothing. */
  lemma ParseIsStable(text: string, decimals: nat)
    requires Parse(text, decimals).Some?
    ensures Parse(Format(Parse(text, decimals), decimals), decimals) == Parse(text, decimals)
  {
    ParseFormat(Parse(text, decimals).value, decimals);
  }
}
