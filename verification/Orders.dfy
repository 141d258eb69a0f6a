/** Polymarket V2 orders: the field checks, the amounts and the decimal readers of utils/polymarket/order.go. */
module Orders {
  import opened TxTypes
  import opened Decimal
  import U = Units

  const PRICE_SCALE: nat := 1_000_000
  const SIZE_GRID: nat := 10_000
  const MAX_SALT: nat := 0x1F_FFFF_FFFF_FFFF
  const MAX_TIMESTAMP: nat := 0x7FFF_FFFF_FFFF_FFFF
  const UINT256: nat := 0x1_0000000000000000_0000000000000000_0000000000000000_0000000000000000
  const MAX_DIGITS: nat := 78
  const POLY_1271: nat := 3
  const BUY: nat := 0
  const SELL: nat := 1

  datatype Order = Order(salt: nat, maker: Address, signer: Address, tokenId: string, makerAmount: string,
                         takerAmount: string, side: nat, signatureType: nat, timestamp: nat, metadata: nat,
                         builder: nat)

  /** Missing big integers are None. */
  datatype BuildOrderInput = Input(salt: nat, maker: Address, signer: Address, tokenId: Option<int>, priceE6: nat,
                                   sizeE6: Option<int>, tickSizeE6: nat, side: nat, signatureType: nat, timestamp: nat,
                                   metadata: nat, builder: nat)

  /** big.Int.BitLen() > 256 of a positive number. */
  predicate PositiveUint256(n: Option<int>) {
    n.Some? && 0 < n.value < UINT256
  }

  predicate SupportedTickSizeE6(tick: nat) {
    tick == 100_000 || tick == 10_000 || tick == 5_000 || tick == 2_500 || tick == 1_000 || tick == 100
  }

  /** BUY rounds the collateral up, SELL down. None is an error. */
  function NormalizeOrderAmounts(side: nat, priceE6: nat, sizeE6: Option<int>): Option<(nat, nat)> {
    if side != BUY && side != SELL then None
    else if priceE6 == 0 || priceE6 >= PRICE_SCALE || !PositiveUint256(sizeE6) then None
    else
      var product := priceE6 * sizeE6.value;
      if side == BUY then
        var maker := (product + (PRICE_SCALE - 1)) / PRICE_SCALE;
        if maker >= UINT256 then None else Some((maker, sizeE6.value))
      else
        var taker := product / PRICE_SCALE;
        if taker <= 0 || taker >= UINT256 then None else Some((sizeE6.value, taker))
  }

  /** big.Int.SetString in base 10: an optional sign, then at least one digit. */
  function SetString(raw: string): Option<int> {
    var digits := if U.Signed(raw) then raw[1..] else raw;
    if digits == "" || !AllDigits(digits) then None
    else Some(U.WithSign(U.Signed(raw) && raw[0] == '-', Value(digits)))
  }

  predicate IsCanonicalUint256(raw: string, allowZero: bool) {
    if raw == "" || |raw| > MAX_DIGITS || U.TrimSpace(raw) != raw || (|raw| > 1 && raw[0] == '0') then false
    else
      var value := SetString(raw);
      value.Some? && 0 <= value.value < UINT256 && (allowZero || value.value > 0)
  }

  predicate Validate(o: Order) {
    && o.maker != 0 && o.signer != 0 && o.salt <= MAX_SALT
    && IsCanonicalUint256(o.tokenId, false)
    && IsCanonicalUint256(o.makerAmount, false) && IsCanonicalUint256(o.takerAmount, false)
    && (o.side == BUY || o.side == SELL) && o.signatureType == POLY_1271
    && 0 < o.timestamp <= MAX_TIMESTAMP
  }

  /** The checks buildOrder makes itself, before it derives anything. */
  predicate FieldsOk(input: BuildOrderInput) {
    && input.maker != 0 && input.signer != 0
    && PositiveUint256(input.tokenId)
    && 0 < input.priceE6 < PRICE_SCALE
    && PositiveUint256(input.sizeE6) && input.sizeE6.value % SIZE_GRID == 0
    && SupportedTickSizeE6(input.tickSizeE6) && input.priceE6 % input.tickSizeE6 == 0
    && (input.side == BUY || input.side == SELL)
    && input.signatureType == POLY_1271 && input.salt <= MAX_SALT
    && 0 < input.timestamp <= MAX_TIMESTAMP
  }

  /** None is an error. */
  function BuildOrder(input: BuildOrderInput): Option<Order> {
    if !FieldsOk(input) then None
    else
      var amounts := NormalizeOrderAmounts(input.side, input.priceE6, input.sizeE6);
      if amounts.None? then None
      else
        var order := Order(input.salt, input.maker, input.signer, Digits(input.tokenId.value), Digits(amounts.value.0),
                           Digits(amounts.value.1), input.side, input.signatureType, input.timestamp, input.metadata,
                           input.builder);
        if Validate(order) then Some(order) else None
  }

  // ----- amounts -----

  /** For any price and size, on the grid or off it: BUY pays the ceiling, SELL receives the floor. */
  lemma AmountsRoundOneWay(side: nat, priceE6: nat, sizeE6: Option<int>)
    requires NormalizeOrderAmounts(side, priceE6, sizeE6).Some?
    ensures
      var (maker, taker) := NormalizeOrderAmounts(side, priceE6, sizeE6).value;
      if side == BUY then
        taker == sizeE6.value && priceE6 * sizeE6.value <= maker * PRICE_SCALE < priceE6 * sizeE6.value + PRICE_SCALE
      else
        maker == sizeE6.value && taker * PRICE_SCALE <= priceE6 * sizeE6.value < taker * PRICE_SCALE + PRICE_SCALE
  {
  }

  /** Every supported tick is a multiple of 100 and sizes are multiples of 10000, so products on the grid divide. */
  lemma GridDivides(priceE6: nat, tickSizeE6: nat, size: nat)
    requires SupportedTickSizeE6(tickSizeE6) && priceE6 % tickSizeE6 == 0 && size % SIZE_GRID == 0
    ensures priceE6 * size == (priceE6 / 100) * (size / SIZE_GRID) * PRICE_SCALE
  {
    OnHundreds(priceE6, tickSizeE6);
    var p, s := priceE6 / 100, size / SIZE_GRID;
    assert priceE6 == 100 * p && size == SIZE_GRID * s;
    Regroup(p, s);
  }

  lemma OnHundreds(priceE6: nat, tickSizeE6: nat)
    requires SupportedTickSizeE6(tickSizeE6) && priceE6 % tickSizeE6 == 0
    ensures priceE6 % 100 == 0
  {
    MultipleOfHundreds(priceE6, tickSizeE6, tickSizeE6 / 100);
  }

  lemma MultipleOfHundreds(price: nat, tick: nat, hundreds: nat)
    requires tick > 0 && tick == 100 * hundreds && price % tick == 0
    ensures price % 100 == 0
  {
    var ticks := price / tick;
    Exact(price, tick);
    HundredTimes(ticks, hundreds);
    Hundredfold(ticks * hundreds);
  }

  lemma Exact(x: nat, y: nat)
    requires y > 0 && x % y == 0
    ensures x == (x / y) * y
  {
  }

  lemma Hundredfold(x: nat)
    ensures (100 * x) % 100 == 0
  {
  }

  lemma HundredTimes(x: nat, y: nat)
    ensures x * (100 * y) == 100 * (x * y)
  {
  }

  lemma Regroup(p: nat, s: nat)
    ensures (100 * p) * (SIZE_GRID * s) == p * s * PRICE_SCALE
  {
  }

  lemma LessTimes(a: nat, b: nat, size: nat)
    requires a < b && size > 0
    ensures a * size < b * size
  {
    assert b * size == a * size + (b - a) * size;
  }

  /** A price below the scale buys for less than the size. */
  lemma Below(price: nat, size: nat, exact: nat, scale: nat)
    requires 0 < price < scale && size > 0 && price * size == exact * scale
    ensures 0 < exact < size
  {
    LessTimes(0, price, size);
    LessTimes(price, scale, size);
    if exact >= size {
      NotMore(size, exact, scale);
    }
  }

  lemma NotMore(a: nat, b: nat, scale: nat)
    requires a <= b
    ensures scale * a <= b * scale
  {
    assert b * scale == scale * a + (b - a) * scale;
  }

  lemma RoundsNothing(exact: nat)
    ensures (exact * PRICE_SCALE + (PRICE_SCALE - 1)) / PRICE_SCALE == exact
    ensures exact * PRICE_SCALE / PRICE_SCALE == exact
  {
  }

  /** A collateral strictly between zero and the size: neither normalisation error can occur. */
  lemma NormalizeSucceeds(input: BuildOrderInput)
    requires FieldsOk(input)
    ensures NormalizeOrderAmounts(input.side, input.priceE6, input.sizeE6).Some?
    ensures
      var (maker, taker) := NormalizeOrderAmounts(input.side, input.priceE6, input.sizeE6).value;
      var collateral, size := if input.side == BUY then maker else taker, if input.side == BUY then taker else maker;
      && size == input.sizeE6.value
      && collateral * PRICE_SCALE == input.priceE6 * size && 0 < collateral < size
  {
    FieldsOnGrid(input);
    var size: nat := input.sizeE6.value;
    var exact := Collateral(input.priceE6, size);
    hide FieldsOk, SupportedTickSizeE6, Collateral;
    Below(input.priceE6, size, exact, PRICE_SCALE);
    RoundsNothing(exact);
    Normalized(input.side, input.priceE6, size, exact);
  }

  function Collateral(priceE6: nat, size: nat): nat {
    (priceE6 / 100) * (size / SIZE_GRID)
  }

  lemma FieldsOnGrid(input: BuildOrderInput)
    requires FieldsOk(input)
    ensures 0 < input.priceE6 < PRICE_SCALE && 0 < input.sizeE6.value < UINT256 &&
      (input.side == BUY || input.side == SELL)
    ensures input.priceE6 * input.sizeE6.value == Collateral(input.priceE6, input.sizeE6.value) * PRICE_SCALE
  {
    hide Collateral;
    CollateralIs(input.priceE6, input.tickSizeE6, input.sizeE6.value);
  }

  lemma CollateralIs(priceE6: nat, tickSizeE6: nat, size: nat)
    requires SupportedTickSizeE6(tickSizeE6) && priceE6 % tickSizeE6 == 0 && size % SIZE_GRID == 0
    ensures priceE6 * size == Collateral(priceE6, size) * PRICE_SCALE
  {
    GridDivides(priceE6, tickSizeE6, size);
  }

  /** The amounts when the product of price and size divides. */
  lemma Normalized(side: nat, priceE6: nat, size: nat, exact: nat)
    requires (side == BUY || side == SELL) && 0 < priceE6 < PRICE_SCALE && 0 < exact < size < UINT256
    requires priceE6 * size == exact * PRICE_SCALE
    requires (exact * PRICE_SCALE + (PRICE_SCALE - 1)) / PRICE_SCALE == exact &&
      exact * PRICE_SCALE / PRICE_SCALE == exact
    ensures
      var amounts := if side == BUY then (exact, size) else (size, exact);
      NormalizeOrderAmounts(side, priceE6, Some(size)) == Some(amounts)
  {
  }

  // ----- canonical integers -----

  lemma PowJoin(a: nat, x: nat, b: nat, y: nat)
    requires Pow10(a) == x && Pow10(b) == y
    ensures Pow10(a + b) == x * y
  {
    PowAdds(a, b);
  }

  lemma PowOne()
    ensures Pow10(1) == 10
  {
  }

  lemma Uint256Digits()
    ensures UINT256 <= Pow10(MAX_DIGITS)
  {
    hide Pow10;
    PowOne();
    PowJoin(1, 10, 1, 10);
    PowJoin(2, 100, 2, 100);
    PowJoin(4, 10_000, 4, 10_000);
    PowJoin(8, 100_000_000, 8, 100_000_000);
    PowJoin(16, 10_000_000_000_000_000, 16, 10_000_000_000_000_000);
    PowJoin(32, 100_000_000_000_000_000_000_000_000_000_000, 32, 100_000_000_000_000_000_000_000_000_000_000);
    PowJoin(8, 100_000_000, 4, 10_000);
    PowJoin(12, 1_000_000_000_000, 2, 100);
    PowJoin(64, 100_000_000_000_000_000_000_000_000_000_000 * 100_000_000_000_000_000_000_000_000_000_000, 14,
            100_000_000_000_000);
  }

  lemma DigitsNotSpace(s: string)
    requires Canonical(s)
    ensures U.TrimSpace(s) == s && !U.Signed(s)
  {
    U.DigitsNoSpace(s[0]);
    U.DigitsNoSpace(s[|s| - 1]);
    U.TrimmedAlready(s);
  }

  /** The canonical base-10 text of a uint256. */
  predicate PrintedUint256(raw: string, allowZero: bool) {
    Canonical(raw) && Value(raw) < UINT256 && (allowZero || Value(raw) > 0)
  }

  /** What the reader accepts beyond canonical text: a plus before at most 77 digits, zeros included, and, where zero
      is allowed, a minus before nothing but zeros. */
  predicate SignedUint256(raw: string, allowZero: bool) {
    && U.Signed(raw) && 1 < |raw| <= MAX_DIGITS && AllDigits(raw[1..])
    && (if raw[0] == '-' then allowZero && Value(raw[1..]) == 0
        else Value(raw[1..]) < UINT256 && (allowZero || Value(raw[1..]) > 0))
  }

  lemma PlainAccepted(raw: string, allowZero: bool)
    requires !U.Signed(raw)
    ensures IsCanonicalUint256(raw, allowZero) <==> PrintedUint256(raw, allowZero)
  {
    hide U.IsSpace, Pow10;
    if PrintedUint256(raw, allowZero) {
      PrintRead(raw);
      Uint256Digits();
      DigitsBounded(Value(raw), MAX_DIGITS);
      DigitsNotSpace(raw);
    }
  }

  lemma SignedAccepted(raw: string, allowZero: bool)
    requires U.Signed(raw)
    ensures IsCanonicalUint256(raw, allowZero) <==> SignedUint256(raw, allowZero)
  {
    hide U.IsSpace, U.TrimSpace, Value;
    if |raw| > 1 && AllDigits(raw[1..]) {
      assert raw[|raw| - 1] == raw[1..][|raw| - 2];
      SignNoSpace(raw[0]);
      U.DigitsNoSpace(raw[|raw| - 1]);
      U.TrimmedAlready(raw);
    }
  }

  lemma SignNoSpace(c: char)
    requires c == '+' || c == '-'
    ensures !U.IsSpace(c)
  {
  }

  /** Exactly what the reader accepts, and exactly when it does what its name says: on every text that is not one of
      the signed ones, it accepts the canonical texts of uint256 numbers and nothing else. */
  lemma CanonicalIff(raw: string, allowZero: bool)
    ensures IsCanonicalUint256(raw, allowZero) <==> PrintedUint256(raw, allowZero) || SignedUint256(raw, allowZero)
    ensures (IsCanonicalUint256(raw, allowZero) <==> PrintedUint256(raw, allowZero)) <==> !SignedUint256(raw, allowZero)
  {
    hide IsCanonicalUint256, Value;
    if U.Signed(raw) {
      SignedAccepted(raw, allowZero);
    } else {
      PlainAccepted(raw, allowZero);
    }
  }

  /** The canonical texts are the printed numbers. */
  lemma PrintedIsCanonical(n: nat, allowZero: bool)
    requires n < UINT256 && (allowZero || n > 0)
    ensures IsCanonicalUint256(Digits(n), allowZero)
  {
    ReadPrinted(n);
    CanonicalIff(Digits(n), allowZero);
  }

  /** The reader is wider than its name: two texts it accepts that no number prints as. */
  lemma SignsAreAccepted()
    ensures IsCanonicalUint256("+007", false) && !PrintedUint256("+007", false)
    ensures IsCanonicalUint256("-0", true) && !PrintedUint256("-0", true)
  {
    hide IsCanonicalUint256;
    var plus, minus := "+007", "-0";
    assert plus[1..] == "007" && minus[1..] == "0";
    assert "007"[..2] == "00" && "00"[..1] == "0" && "0"[..0] == "";
    assert Value("0") == 0;
    assert Value("00") == 0;
    assert Value("007") == 7;
    CanonicalIff(plus, false);
    CanonicalIff(minus, true);
  }

  // ----- the whole builder -----

  /** BuildOrder succeeds exactly on inputs that pass its own field checks; the amounts are then exact, BUY and SELL
      swap maker and taker, and every signed number reads back. */
  lemma BuildOrderExact(input: BuildOrderInput)
    ensures BuildOrder(input).Some? <==> FieldsOk(input)
    ensures BuildOrder(input).Some? ==>
      var o := BuildOrder(input).value;
      var maker, taker := SetString(o.makerAmount), SetString(o.takerAmount);
      && Validate(o) && maker.Some? && taker.Some?
      && SetString(o.tokenId) == input.tokenId
      && (if o.side == BUY then taker == input.sizeE6 && maker.value * PRICE_SCALE == input.priceE6 * taker.value
          else maker == input.sizeE6 && taker.value * PRICE_SCALE == input.priceE6 * maker.value)
      && o.side == input.side && o.salt == input.salt && o.maker == input.maker && o.signer == input.signer
      && o.timestamp == input.timestamp && o.metadata == input.metadata && o.builder == input.builder
  {
    hide NormalizeOrderAmounts, IsCanonicalUint256, SetString;
    if FieldsOk(input) {
      NormalizeSucceeds(input);
      var amounts := NormalizeOrderAmounts(input.side, input.priceE6, input.sizeE6).value;
      PrintedIsCanonical(input.tokenId.value, false);
      PrintedIsCanonical(amounts.0, false);
      PrintedIsCanonical(amounts.1, false);
      SetStringReads(input.tokenId.value);
      SetStringReads(amounts.0);
      SetStringReads(amounts.1);
    }
  }

  lemma SetStringReads(n: nat)
    ensures SetString(Digits(n)) == Some(n)
  {
    ReadPrinted(n);
    DigitsNotSpace(Digits(n));
  }

  /** The two sides of one price and size trade the same two amounts. */
  lemma SidesSwap(input: BuildOrderInput)
    requires FieldsOk(input)
    ensures
      var buy, sell := BuildOrder(input.(side := BUY)), BuildOrder(input.(side := SELL));
      && buy.Some? && sell.Some?
      && buy.value.makerAmount == sell.value.takerAmount && buy.value.takerAmount == sell.value.makerAmount
  {
    hide Validate, NormalizeOrderAmounts, SetString;
    BuildOrderExact(input.(side := BUY));
    BuildOrderExact(input.(side := SELL));
    NormalizeSucceeds(input.(side := BUY));
    NormalizeSucceeds(input.(side := SELL));
  }

  // ----- ParseFixedPoint -----

  predicate ContainsAny(s: string, chars: string) {
    exists i :: 0 <= i < |s| && s[i] in chars
  }

  /** The parts of a text around its dots: more than two are malformed. None is an error. */
  function ParseFixedPoint(raw: string, decimals: int): Option<nat> {
    if decimals < 0 || decimals > 256 || raw == "" || |raw| > MAX_DIGITS + decimals + 1
       || U.TrimSpace(raw) != raw || ContainsAny(raw, "eE+") then None
    else
      var dot := U.DotIndex(raw);
      var whole := raw[..dot];
      var hasFraction := dot < |raw|;
      var fraction := if hasFraction then raw[dot + 1..] else "";
      if '.' in fraction || whole == "" then None
      else if |whole| > 1 && whole[0] == '0' then None
      else if hasFraction && (fraction == "" || |fraction| > decimals) then None
      else if !AllDigits(whole + fraction) then None
      else
        var combined := whole + fraction + Zeros(decimals - |fraction|);
        if Value(combined) >= UINT256 then None else Some(Value(combined))
  }

  /** An unsigned decimal with no leading zeros and, after a dot, at least one and at most decimals digits, whose
      value is a uint256. */
  predicate FixedPointText(raw: string, whole: string, frac: string, decimals: int) {
    && 0 <= decimals <= 256 && Canonical(whole) && AllDigits(frac) && |frac| <= decimals
    && raw == (if frac == "" then whole else whole + "." + frac) && U.Places(whole, frac, decimals) < UINT256
  }

  /** The bound on the length never refuses such a text. */
  lemma FixedPointLength(raw: string, whole: string, frac: string, decimals: int)
    requires FixedPointText(raw, whole, frac, decimals)
    ensures |raw| <= MAX_DIGITS + decimals + 1
  {
    hide Pow10, Value;
    var n := Value(whole);
    WholeIsLess(n, Pow10(decimals), Value(frac) * Pow10(decimals - |frac|));
    Uint256Digits();
    DigitsBounded(n, MAX_DIGITS);
    PrintRead(whole);
  }

  lemma WholeIsLess(n: nat, scale: nat, rest: nat)
    requires scale >= 1
    ensures n <= n * scale + rest
  {
    NotMore(1, scale, n);
  }

  lemma FixedPointShape(raw: string, whole: string, frac: string)
    requires Canonical(whole) && AllDigits(frac) && raw == (if frac == "" then whole else whole + "." + frac)
    ensures U.TrimSpace(raw) == raw && !ContainsAny(raw, "eE+") && '.' !in frac
    ensures U.DotIndex(raw) == |whole| && raw[..|whole|] == whole && (frac != "" ==> raw[|whole| + 1..] == frac)
    ensures |whole| < |raw| <==> frac != ""
  {
    hide Value, U.TrimSpace, U.IsSpace;
    U.DotFound(whole, frac);
    U.DigitsNoSpace(raw[0]);
    assert raw[|raw| - 1] == if frac == "" then whole[|whole| - 1] else frac[|frac| - 1];
    U.DigitsNoSpace(raw[|raw| - 1]);
    U.TrimmedAlready(raw);
    assert forall i :: 0 <= i < |raw| ==> IsDigit(raw[i]) || raw[i] == '.';
  }

  /** What such a text means. */
  lemma FixedPointMeans(raw: string, whole: string, frac: string, decimals: int)
    requires FixedPointText(raw, whole, frac, decimals)
    ensures ParseFixedPoint(raw, decimals) == Some(U.Places(whole, frac, decimals))
  {
    hide Value, Zeros, Pow10, U.TrimSpace, U.DotIndex, ContainsAny, U.Places;
    FixedPointLength(raw, whole, frac, decimals);
    FixedPointShape(raw, whole, frac);
    U.JoinedPlaces(whole, frac, decimals);
    U.DigitsApart(whole, frac, Zeros(decimals - |frac|));
    assert AllDigits(whole + frac);
  }

  /** And nothing else is accepted. */
  lemma FixedPointOnly(raw: string, decimals: int) returns (whole: string, frac: string)
    requires ParseFixedPoint(raw, decimals).Some?
    ensures FixedPointText(raw, whole, frac, decimals)
  {
    hide Value, Zeros, Pow10, U.TrimSpace, ContainsAny, U.Places;
    var dot := U.DotIndex(raw);
    whole, frac := raw[..dot], if dot < |raw| then raw[dot + 1..] else "";
    assert whole + frac + "" == whole + frac;
    U.DigitsApart(whole, frac, "");
    U.JoinedPlaces(whole, frac, decimals);
  }

  /** Hence the reader accepts a text exactly when it is one. */
  lemma FixedPointIff(raw: string, decimals: int)
    ensures ParseFixedPoint(raw, decimals).Some? <==>
            exists whole, frac :: FixedPointText(raw, whole, frac, decimals)
  {
    hide ParseFixedPoint, FixedPointText;
    if ParseFixedPoint(raw, decimals).Some? {
      var whole, frac := FixedPointOnly(raw, decimals);
    }
    forall whole, frac | FixedPointText(raw, whole, frac, decimals) ensures ParseFixedPoint(raw, decimals).Some? {
      FixedPointMeans(raw, whole, frac, decimals);
    }
  }

  /** The two packages agree: what units.Format prints of a uint256, order.ParseFixedPoint reads back exactly. */
  lemma FixedPointReadsFormat(n: nat, decimals: nat)
    requires n < UINT256 && decimals <= 256
    ensures ParseFixedPoint(U.Format(Some(n), decimals), decimals) == Some(n)
  {
    hide Value, Zeros, Pow10, ParseFixedPoint, U.Places, U.Format;
    var whole, frac := U.FormatMeans(n, decimals);
    var text := U.Format(Some(n), decimals);
    assert "" + text == text;
    FixedPointMeans(text, whole, frac, decimals);
  }

  /** Where both readers accept a text, they agree on its value. */
  lemma ReadersAgree(raw: string, decimals: nat)
    requires ParseFixedPoint(raw, decimals).Some?
    ensures U.Parse(raw, decimals) == Some(ParseFixedPoint(raw, decimals).value)
  {
    hide ParseFixedPoint, U.Parse, U.Places, Pow10, Value;
    var whole, frac := FixedPointOnly(raw, decimals);
    FixedPointMeans(raw, whole, frac, decimals);
    var rest := if frac == "" then "" else "." + frac;
    assert raw == "" + whole + rest && raw == "" + raw + "" && |whole + frac| > 0;
    U.ParseMeans("", "", raw, "", whole, rest, frac, decimals);
  }
}
