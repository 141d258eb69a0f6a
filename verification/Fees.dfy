/** Fee selection of evm/txmngr/txmngr.go: bumping, component-wise floors and suggestions. */
module Fees {
  import opened TxTypes

  const PRIORITY_COEFFICIENT: nat := 15

  /** A fee with absent components, as *big.Int fields that may be nil. */
  datatype GasFee = GasFee(gasPrice: Option<nat>, tipCap: Option<nat>, feeCap: Option<nat>)

  /** What the node suggested for one signing. */
  datatype Suggestion = Suggestion(gasPrice: nat, baseFee: nat, tipCap: nat)

  /** Raise a price by coef percent, and by at least one wei when it is positive. */
  function BumpGasPrice(price: Option<nat>, coef: nat): nat {
    if price.None? then 0 else
    var bumped := price.value * (100 + coef) / 100;
    if price.value > 0 && bumped <= price.value then price.value + 1 else bumped
  }

  function MaxBigInt(left: Option<nat>, right: Option<nat>): (r: Option<nat>)
    ensures r.None? <==> left.None? && right.None?
    ensures left.Some? ==> left.value <= r.value
    ensures right.Some? ==> right.value <= r.value
    ensures r == left || r == right
  {
    if left.None? then right
    else if right.None? || left.value >= right.value then left
    else right
  }

  function HighestGasFee(left: Option<GasFee>, right: Option<GasFee>): Option<GasFee> {
    if left.None? then right
    else if right.None? then left
    else Some(GasFee(
      MaxBigInt(left.value.gasPrice, right.value.gasPrice),
      MaxBigInt(left.value.tipCap, right.value.tipCap),
      MaxBigInt(left.value.feeCap, right.value.feeCap)))
  }

  /** The three fee accessors of a signed transaction. */
  function FeeOf(fees: TxTypes.Fees): GasFee {
    match fees
    case Legacy(p) => GasFee(Some(p), Some(p), Some(p))
    case SetCode(t, c) => GasFee(Some(c), Some(t), Some(c))
  }

  function SuggestGasPrice(suggested: nat, current: Option<GasFee>, coef: nat): GasFee {
    var base :=
      if current.Some? && current.value.gasPrice.Some? && current.value.gasPrice.value > suggested
      then current.value.gasPrice.value else suggested;
    GasFee(Some(BumpGasPrice(Some(base), coef)), None, None)
  }

  function SuggestEip1559GasFee(baseFee: nat, suggestedTip: nat, current: Option<GasFee>, coef: nat): GasFee {
    var tipBase :=
      if current.Some? && current.value.tipCap.Some? && current.value.tipCap.value > suggestedTip
      then current.value.tipCap.value else suggestedTip;
    var tip := BumpGasPrice(Some(tipBase), coef);
    var cap := baseFee * 2 + tip;
    var feeCap :=
      if current.Some? && current.value.feeCap.Some? && BumpGasPrice(current.value.feeCap, coef) > cap
      then BumpGasPrice(current.value.feeCap, coef) else cap;
    GasFee(None, Some(tip), Some(feeCap))
  }

  /** The fees signAttempt puts in the envelope. */
  function NextFees(setCode: bool, node: Suggestion, previous: Option<TxTypes.Fees>, floor: Option<GasFee>, coef: nat)
    : TxTypes.Fees
  {
    var current := HighestGasFee(if previous.Some? then Some(FeeOf(previous.value)) else None, floor);
    if setCode then
      var fee := SuggestEip1559GasFee(node.baseFee, node.tipCap, current, coef);
      SetCode(fee.tipCap.value, fee.feeCap.value)
    else
      Legacy(SuggestGasPrice(node.gasPrice, current, coef).gasPrice.value)
  }

  /** A usable fee for its kind; section "Specification" of EIP-1559: the tip cap is at most the fee cap. */
  predicate FitsKind(fees: TxTypes.Fees, setCode: bool) {
    fees.SetCode? == setCode && (setCode ==> fees.tipCap <= fees.feeCap)
  }

  /** Every component is at least eleven tenths of the one it replaces. */
  predicate OneTenthAbove(old': TxTypes.Fees, new': TxTypes.Fees) {
    match (old', new')
    case (Legacy(p), Legacy(q)) => 10 * q >= 11 * p
    case (SetCode(t, c), SetCode(u, d)) => 10 * u >= 11 * t && 10 * d >= 11 * c
    case _ => false
  }

  predicate NoLower(old': TxTypes.Fees, new': TxTypes.Fees) {
    match (old', new')
    case (Legacy(p), Legacy(q)) => q >= p
    case (SetCode(t, c), SetCode(u, d)) => u >= t && d >= c
    case _ => false
  }

  predicate PositiveFee(fees: TxTypes.Fees) {
    match fees
    case Legacy(p) => p > 0
    case SetCode(t, c) => t > 0 || c > 0
  }

  /** The floor covers a fee: no component of the fee exceeds it. */
  predicate Covers(floor: GasFee, fee: GasFee) {
    && (fee.gasPrice.Some? ==> floor.gasPrice.Some? && fee.gasPrice.value <= floor.gasPrice.value)
    && (fee.tipCap.Some? ==> floor.tipCap.Some? && fee.tipCap.value <= floor.tipCap.value)
    && (fee.feeCap.Some? ==> floor.feeCap.Some? && fee.feeCap.value <= floor.feeCap.value)
  }

  lemma BumpRaises(price: nat, coef: nat)
    ensures price > 0 ==> BumpGasPrice(Some(price), coef) > price
    ensures BumpGasPrice(Some(price), coef) >= price
  {
    assert price * (100 + coef) == 100 * price + price * coef;
    assert price * (100 + coef) / 100 >= price;
  }

  lemma BumpMonotone(p: nat, q: nat, coef: nat)
    requires p <= q
    ensures BumpGasPrice(Some(p), coef) <= BumpGasPrice(Some(q), coef)
  {
    BumpRaises(q, coef);
    if p < q {
      var k := 100 + coef;
      MulMonotone(p, q, k);
      DivMonotone(p * k, q * k);
    }
  }

  lemma MulMonotone(p: nat, q: nat, k: nat)
    requires p <= q
    ensures p * k <= q * k
  {
    assert q * k == p * k + (q - p) * k;
  }

  lemma DivMonotone(x: nat, y: nat)
    requires x <= y
    ensures x / 100 <= y / 100
  {
  }

  /** A replacement's coefficient is at least 30, which outbids any price by a tenth. */
  lemma BumpOutbidsByATenth(price: nat, coef: nat)
    requires coef >= 2 * PRIORITY_COEFFICIENT
    ensures 10 * BumpGasPrice(Some(price), coef) >= 11 * price
  {
    BumpRaises(price, coef);
    assert price * (100 + coef) >= price * 130;
    var scaled := price * 130;
    assert price * (100 + coef) / 100 >= scaled / 100;
  }

  /** The fee ladder: whatever the node suggests and whatever the collision floor is, a
      replacement raises each component of its predecessor by at least one tenth. */
  lemma FeeLadder(setCode: bool, node: Suggestion, previous: TxTypes.Fees, floor: Option<GasFee>, attemptNumber: nat)
    requires previous.SetCode? == setCode
    requires attemptNumber >= 2
    ensures OneTenthAbove(previous,
                          NextFees(setCode, node, Some(previous), floor, PRIORITY_COEFFICIENT * attemptNumber))
  {
    var coef := PRIORITY_COEFFICIENT * attemptNumber;
    var current := HighestGasFee(Some(FeeOf(previous)), floor).value;
    match previous
    case Legacy(p) =>
      BumpOutbidsByATenth(p, coef);
      BumpMonotone(p, if current.gasPrice.value > node.gasPrice then current.gasPrice.value else node.gasPrice, coef);
    case SetCode(t, c) =>
      BumpOutbidsByATenth(t, coef);
      BumpMonotone(t, if current.tipCap.value > node.tipCap then current.tipCap.value else node.tipCap, coef);
      BumpOutbidsByATenth(c, coef);
      BumpMonotone(c, current.feeCap.value, coef);
  }

  /** No component is below the floor's. */
  predicate AtLeast(fees: TxTypes.Fees, floor: GasFee) {
    match fees
    case Legacy(p) => floor.gasPrice.Some? ==> p >= floor.gasPrice.value
    case SetCode(t, c) =>
      && (floor.tipCap.Some? ==> t >= floor.tipCap.value)
      && (floor.feeCap.Some? ==> c >= floor.feeCap.value)
  }

  /** Fees fit the transaction's kind, set-code fees keep the tip cap at or below the fee cap, and no component is
      below the floor. */
  lemma NextFeesFit(setCode: bool, node: Suggestion, previous: Option<TxTypes.Fees>, floor: Option<GasFee>, coef: nat)
    ensures FitsKind(NextFees(setCode, node, previous, floor, coef), setCode)
    ensures floor.Some? ==> AtLeast(NextFees(setCode, node, previous, floor, coef), floor.value)
  {
    var current := HighestGasFee(if previous.Some? then Some(FeeOf(previous.value)) else None, floor);
    if current.Some? {
      var fee := current.value;
      if fee.gasPrice.Some? {
        BumpRaises(if fee.gasPrice.value > node.gasPrice then fee.gasPrice.value else node.gasPrice, coef);
      }
      if fee.tipCap.Some? {
        BumpRaises(if fee.tipCap.value > node.tipCap then fee.tipCap.value else node.tipCap, coef);
      }
      if fee.feeCap.Some? {
        BumpRaises(fee.feeCap.value, coef);
      }
    }
  }

  /** Signing above a floor that covers a positive fee can not reproduce that fee. */
  lemma FloorSeparates(setCode: bool, node: Suggestion, previous: Option<TxTypes.Fees>, floor: GasFee, coef: nat,
                       recorded: TxTypes.Fees)
    requires recorded.SetCode? == setCode
    requires Covers(floor, FeeOf(recorded))
    requires match floor
      case GasFee(p, t, c) => if setCode then t.value > 0 || c.value > 0 else p.value > 0
    ensures NextFees(setCode, node, previous, Some(floor), coef) != recorded
  {
    var current := HighestGasFee(if previous.Some? then Some(FeeOf(previous.value)) else None, Some(floor)).value;
    if setCode {
      var base := if current.tipCap.value > node.tipCap then current.tipCap.value else node.tipCap;
      BumpRaises(base, coef);
      BumpRaises(current.feeCap.value, coef);
    } else {
      BumpRaises(if current.gasPrice.value > node.gasPrice then current.gasPrice.value else node.gasPrice, coef);
    }
  }

  /** r is p raised by coef percent, rounded down, and by at least one wei when p is positive. */
  predicate Bumped(p: nat, coef: nat, r: nat) {
    && p * (100 + coef) < 100 * (r + 1) && (p > 0 ==> r > p)
    && (100 * r <= p * (100 + coef) || (p > 0 && r == p + 1))
  }

  /** How much a bump adds, without division: exactly one price is the bump of another. */
  lemma BumpExact(p: nat, coef: nat, r: nat)
    ensures r == BumpGasPrice(Some(p), coef) <==> Bumped(p, coef, r)
  {
    BumpRaises(p, coef);
    var scaled := p * (100 + coef);
    assert scaled == 100 * (scaled / 100) + scaled % 100;
  }

  /** base is the highest of the node's own figure and what is known of the previous attempt and the floor. */
  predicate Highest(base: nat, own: nat, previous: Option<nat>, floor: Option<nat>) {
    && own <= base && (previous.Some? ==> previous.value <= base) && (floor.Some? ==> floor.value <= base)
    && (base == own || previous == Some(base) || floor == Some(base))
  }

  function Parts(fee: Option<GasFee>): (Option<nat>, Option<nat>, Option<nat>) {
    if fee.None? then (None, None, None) else (fee.value.gasPrice, fee.value.tipCap, fee.value.feeCap)
  }

  /** The fees are bumped from the highest of what the node suggests, the previous attempt paid and the floor demands;
      the fee cap leaves room for a doubled base fee. */
  ghost predicate Answers(fees: TxTypes.Fees, node: Suggestion, previous: Option<TxTypes.Fees>, floor: Option<GasFee>,
                          coef: nat) {
    var old', least := Parts(if previous.Some? then Some(FeeOf(previous.value)) else None), Parts(floor);
    match fees
    case Legacy(p) =>
      p >= node.gasPrice && exists base: nat :: Highest(base, node.gasPrice, old'.0, least.0) && Bumped(base, coef, p)
    case SetCode(t, c) =>
      && t >= node.tipCap && c >= 2 * node.baseFee + t
      && (exists base: nat :: Highest(base, node.tipCap, old'.1, least.1) && Bumped(base, coef, t))
      && (if old'.2.None? && least.2.None? then c == 2 * node.baseFee + t
          else exists base: nat, r: nat ::
            Highest(base, 0, old'.2, least.2) && Bumped(base, coef, r) && c == Larger(2 * node.baseFee + t, r))
  }

  function Larger(x: nat, y: nat): nat {
    if x >= y then x else y
  }

  lemma FeesAnswerTheNode(setCode: bool, node: Suggestion, previous: Option<TxTypes.Fees>, floor: Option<GasFee>,
                          coef: nat)
    ensures Answers(NextFees(setCode, node, previous, floor, coef), node, previous, floor, coef)
  {
    hide Bumped;
    var current := HighestGasFee(if previous.Some? then Some(FeeOf(previous.value)) else None, floor);
    var fees := NextFees(setCode, node, previous, floor, coef);
    if setCode {
      var base :=
        if current.Some? && current.value.tipCap.Some? && current.value.tipCap.value > node.tipCap
        then current.value.tipCap.value else node.tipCap;
      BumpRaises(base, coef);
      BumpExact(base, coef, fees.tipCap);
      if current.Some? && current.value.feeCap.Some? {
        BumpRaises(current.value.feeCap.value, coef);
        BumpExact(current.value.feeCap.value, coef, BumpGasPrice(current.value.feeCap, coef));
      }
    } else {
      var base :=
        if current.Some? && current.value.gasPrice.Some? && current.value.gasPrice.value > node.gasPrice
        then current.value.gasPrice.value else node.gasPrice;
      BumpRaises(base, coef);
      BumpExact(base, coef, fees.gasPrice);
    }
  }

  lemma OneTenthAboveNoLower(old': TxTypes.Fees, new': TxTypes.Fees)
    requires OneTenthAbove(old', new')
    ensures NoLower(old', new')
  {
  }

  /** The attempt counts for the floor: same sender, chain and transaction type. */
  predicate Comparable(a: Attempt, lane: Lane, setCode: bool) {
    a.tx.lane == lane && a.tx.fees.SetCode? == setCode
  }

  /** The component-wise least upper bound of the comparable attempts' fees, or nothing when there are none;
      an own attempt whose record contradicts its envelope is an error. */
  method HighestAttemptFee(attempts: seq<Attempt>, lane: Lane, setCode: bool) returns (floor: Option<GasFee>, ok: bool)
    ensures ok <==> forall i :: 0 <= i < |attempts| && Comparable(attempts[i], lane, setCode)
                      ==> attempts[i].tx == attempts[i].hash && attempts[i].tx.nonce == attempts[i].nonce
    ensures ok ==> (floor.None? <==> forall i :: 0 <= i < |attempts| ==> !Comparable(attempts[i], lane, setCode))
    ensures ok ==> forall i :: 0 <= i < |attempts| && Comparable(attempts[i], lane, setCode)
                     ==> floor.Some? && Covers(floor.value, FeeOf(attempts[i].tx.fees))
    ensures ok && floor.Some? ==> Attained(floor.value, attempts, lane, setCode)
  {
    hide HighestGasFee, FeeOf, Attained, Covers;
    floor, ok := None, true;
    for k := 0 to |attempts|
      invariant ok
      invariant forall i :: 0 <= i < k && Comparable(attempts[i], lane, setCode)
                  ==> attempts[i].tx == attempts[i].hash && attempts[i].tx.nonce == attempts[i].nonce
      invariant floor.None? <==> forall i :: 0 <= i < k ==> !Comparable(attempts[i], lane, setCode)
      invariant forall i :: 0 <= i < k && Comparable(attempts[i], lane, setCode)
                  ==> floor.Some? && Covers(floor.value, FeeOf(attempts[i].tx.fees))
      invariant floor.Some? ==> Attained(floor.value, attempts[..k], lane, setCode)
    {
      if Comparable(attempts[k], lane, setCode) {
        if attempts[k].tx != attempts[k].hash || attempts[k].tx.nonce != attempts[k].nonce {
          return None, false;
        }
        var fee := FeeOf(attempts[k].tx.fees);
        HighestCovers(floor, fee, attempts, k, lane, setCode);
        floor := HighestGasFee(floor, Some(fee));
      }
      if floor.Some? && !Comparable(attempts[k], lane, setCode) {
        AttainedGrows(floor.value, attempts, k, lane, setCode);
      }
    }
    assert attempts[..|attempts|] == attempts;
  }

  predicate Component(price: Option<nat>, which: int, a: Attempt) {
    var fee := FeeOf(a.tx.fees);
    price == (if which == 0 then fee.gasPrice else if which == 1 then fee.tipCap else fee.feeCap)
  }

  predicate Somewhere(price: Option<nat>, which: int, attempts: seq<Attempt>, lane: Lane, setCode: bool) {
    exists i :: 0 <= i < |attempts| && Comparable(attempts[i], lane, setCode) && Component(price, which, attempts[i])
  }

  /** Each component of the floor is some comparable attempt's own. */
  predicate Attained(floor: GasFee, attempts: seq<Attempt>, lane: Lane, setCode: bool) {
    && Somewhere(floor.gasPrice, 0, attempts, lane, setCode)
    && Somewhere(floor.tipCap, 1, attempts, lane, setCode)
    && Somewhere(floor.feeCap, 2, attempts, lane, setCode)
  }

  lemma ComponentGrows(price: Option<nat>, which: int, attempts: seq<Attempt>, k: nat, lane: Lane, setCode: bool)
    requires k < |attempts| && Somewhere(price, which, attempts[..k], lane, setCode)
    ensures Somewhere(price, which, attempts[..k + 1], lane, setCode)
  {
    var i :| 0 <= i < k && Comparable(attempts[..k][i], lane, setCode) && Component(price, which, attempts[..k][i]);
    assert attempts[..k + 1][i] == attempts[..k][i];
  }

  lemma AttainedGrows(floor: GasFee, attempts: seq<Attempt>, k: nat, lane: Lane, setCode: bool)
    requires k < |attempts| && Attained(floor, attempts[..k], lane, setCode)
    ensures Attained(floor, attempts[..k + 1], lane, setCode)
  {
    ComponentGrows(floor.gasPrice, 0, attempts, k, lane, setCode);
    ComponentGrows(floor.tipCap, 1, attempts, k, lane, setCode);
    ComponentGrows(floor.feeCap, 2, attempts, k, lane, setCode);
  }

  lemma HighestCovers(floor: Option<GasFee>, fee: GasFee, attempts: seq<Attempt>, k: nat, lane: Lane, setCode: bool)
    requires k < |attempts| && Comparable(attempts[k], lane, setCode) && fee == FeeOf(attempts[k].tx.fees)
    requires floor.Some? ==> Attained(floor.value, attempts[..k], lane, setCode)
    ensures
      var highest := HighestGasFee(floor, Some(fee));
      && highest.Some? && Covers(highest.value, fee)
      && (forall f: GasFee :: floor.Some? && Covers(floor.value, f) ==> Covers(highest.value, f))
      && Attained(highest.value, attempts[..k + 1], lane, setCode)
  {
    var highest := HighestGasFee(floor, Some(fee)).value;
    assert attempts[..k + 1][k] == attempts[k];
    assert Component(fee.gasPrice, 0, attempts[k]) && Component(fee.tipCap, 1, attempts[k]) &&
      Component(fee.feeCap, 2, attempts[k]);
    if floor.Some? {
      AttainedGrows(floor.value, attempts, k, lane, setCode);
    }
  }
}
