/**
 * Positional record addresses of the orders index.
 *
 * Every order owns the record slots `{order_id}-0`, `{order_id}-1`, ...; the
 * slot number is the position of the record in one projection pass. The model
 * keys the remote index by the pair `Address(orderId, recordIndex)` and keeps
 * the string form `ToString` at the serialisation boundary; `ParseInverts`
 * shows that the string form loses nothing, so keying by pairs and keying by
 * strings are the same thing.
 */
module ObjectIds {
  import opened Wrappers

  /** A WooCommerce order identifier. */
  type OrderId = nat

  /** The slot `{orderId}-{recordIndex}` of the remote index. */
  datatype Address = Address(orderId: OrderId, recordIndex: nat)

  predicate IsDigit(c: char) {
    '0' <= c <= '9'
  }

  predicate AllDigits(s: string) {
    forall i :: 0 <= i < |s| ==> IsDigit(s[i])
  }

  function DigitChar(d: nat): (c: char)
    requires d < 10
    ensures IsDigit(c)
    ensures c as int - '0' as int == d
  {
    ('0' as int + d) as char
  }

  function DigitValue(c: char): (d: nat)
    requires IsDigit(c)
    ensures d < 10
  {
    c as int - '0' as int
  }

  /** PHP's conversion of a non-negative integer to its decimal string. */
  function Decimal(n: nat): (s: string)
    ensures |s| > 0
    ensures AllDigits(s)
    ensures |s| > 1 ==> s[0] != '0'
    decreases n
  {
    if n < 10 then [DigitChar(n)] else Decimal(n / 10) + [DigitChar(n % 10)]
  }

  /** Reads a string of decimal digits back as a number. */
  function ParseDecimal(s: string): (n: nat)
    requires AllDigits(s)
  {
    if |s| == 0 then 0 else ParseDecimal(s[..|s| - 1]) * 10 + DigitValue(s[|s| - 1])
  }

  lemma {:induction false} ParseDecimalInverts(n: nat)
    ensures ParseDecimal(Decimal(n)) == n
    decreases n
  {
    if n >= 10 {
      var s := Decimal(n);
      assert s[..|s| - 1] == Decimal(n / 10);
      ParseDecimalInverts(n / 10);
    }
  }

  /** The objectID string `{orderId}-{recordIndex}` of an address. */
  function ToString(a: Address): (s: string) {
    Decimal(a.orderId) + "-" + Decimal(a.recordIndex)
  }

  /** The position of the first `-` in `s`, if any. */
  function FirstDash(s: string): (k: Option<nat>)
    ensures k.Some? ==> k.value < |s| && s[k.value] == '-'
    ensures k.Some? ==> forall i :: 0 <= i < k.value ==> s[i] != '-'
    ensures k.None? ==> forall i :: 0 <= i < |s| ==> s[i] != '-'
  {
    if |s| == 0 then None
    else if s[0] == '-' then Some(0)
    else match FirstDash(s[1..])
      case None => None
      case Some(k) => Some(k + 1)
  }

  /** Splits an objectID string back into its address; `None` for any other string. */
  function Parse(s: string): (a: Option<Address>)
    ensures a.Some? ==> exists k :: 0 < k < |s| - 1 && s[k] == '-'
  {
    match FirstDash(s)
    case None => None
    case Some(k) =>
      var head, tail := s[..k], s[k + 1..];
      if 0 < |head| && 0 < |tail| && AllDigits(head) && AllDigits(tail)
      then Some(Address(ParseDecimal(head), ParseDecimal(tail)))
      else None
  }

  lemma {:induction false} FirstDashAfterDigits(d: string, t: string)
    requires AllDigits(d)
    ensures FirstDash(d + "-" + t) == Some(|d|)
    decreases |d|
  {
    if |d| > 0 {
      assert (d + "-" + t)[1..] == d[1..] + "-" + t;
      FirstDashAfterDigits(d[1..], t);
    }
  }

  /** Parsing the objectID string of an address gives the address back. */
  lemma ParseInverts(a: Address)
    ensures Parse(ToString(a)) == Some(a)
  {
    var d, e := Decimal(a.orderId), Decimal(a.recordIndex);
    var s := ToString(a);
    FirstDashAfterDigits(d, e);
    assert s[..|d|] == d;
    assert s[|d| + 1..] == e;
    ParseDecimalInverts(a.orderId);
    ParseDecimalInverts(a.recordIndex);
  }

  /** Two different addresses never share an objectID string. */
  lemma ToStringInjective(a: Address, b: Address)
    ensures ToString(a) == ToString(b) <==> a == b
  {
    ParseInverts(a);
    ParseInverts(b);
  }

  /**
   * The candidate stale addresses `{id}-0 .. {id}-(count-1)` that `delete_item`
   * collects with its counting loop; empty when the count is zero or negative.
   */
  function ObjectIdRange(id: OrderId, count: int): (ids: seq<Address>)
    ensures |ids| == (if count <= 0 then 0 else count)
    ensures forall i :: 0 <= i < |ids| ==> ids[i] == Address(id, i)
    ensures forall a :: a in ids <==> a.orderId == id && a.recordIndex < count
    decreases count
  {
    if count <= 0 then [] else ObjectIdRange(id, count - 1) + [Address(id, count - 1)]
  }
}
