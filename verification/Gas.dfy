/** Gas arithmetic on 64-bit words: intrinsic and floor gas of a message, and the block gas pool. */
module Gas {
  import opened Words

  const TX_GAS := 21000
  const TX_GAS_CONTRACT_CREATION := 53000
  const TX_DATA_ZERO_GAS := 4
  const TX_DATA_NON_ZERO_GAS_FRONTIER := 68
  const TX_DATA_NON_ZERO_GAS_EIP2028 := 16
  const TX_TOKEN_PER_NON_ZERO_BYTE := 4
  const TX_COST_FLOOR_PER_TOKEN := 10
  const TX_ACCESS_LIST_ADDRESS_GAS := 2400
  const TX_ACCESS_LIST_STORAGE_KEY_GAS := 1900
  const TX_AUTH_TUPLE_GAS := 12500
  const CALL_NEW_ACCOUNT_GAS := 25000
  const INIT_CODE_WORD_GAS := 2
  const REFUND_QUOTIENT := 2
  const REFUND_QUOTIENT_EIP3529 := 5
  const BLOB_GAS_PER_BLOB := 131072
  const BLOB_TX_MAX_BLOBS := 6
  const MAX_TX_GAS := 16777216
  const MAX_INIT_CODE_SIZE := 49152

  type Byte = b: int | 0 <= b < 256

  datatype GasResult = GasOk(gas: Word) | GasUintOverflow

  function CountZero(data: seq<Byte>): (z: nat)
    ensures z <= |data|
  {
    if data == [] then 0 else CountZero(data[..|data| - 1]) + if data[|data| - 1] == 0 then 1 else 0
  }

  /** It counts exactly the bytes that are zero. */
  lemma {:induction false} CountZeroCounts(data: seq<Byte>)
    ensures CountZero(data) == multiset(data)[0]
  {
    if data != [] {
      CountZeroCounts(data[..|data| - 1]);
      assert data == data[..|data| - 1] + [data[|data| - 1]];
    }
  }

  /** A checked product: sum plus count units of price, or an overflow. */
  function AddUnits(sum: Word, count: nat, price: nat): (r: GasResult)
    requires price > 0
    ensures r == if sum + count * price <= MAX_UINT64 then GasOk(sum + count * price) else GasUintOverflow
  {
    FitsIff(sum, count, price);
    if (MAX_UINT64 - sum) / price < count then GasUintOverflow else GasOk(sum + count * price)
  }

  /** The division test is exactly the overflow test. */
  lemma FitsIff(sum: Word, count: nat, price: nat)
    requires price > 0
    ensures (MAX_UINT64 - sum) / price < count <==> sum + count * price > MAX_UINT64
  {
    var room := MAX_UINT64 - sum;
    var q := room / price;
    assert room == q * price + room % price;
    if q < count {
      MulMonotone(q + 1, count, price);
      assert (q + 1) * price == q * price + price;
    } else {
      MulMonotone(count, q, price);
    }
  }

  lemma MulMonotone(a: nat, b: nat, c: nat)
    requires a <= b
    ensures a * c <= b * c
  {
    assert b * c == a * c + (b - a) * c;
  }

  /** The number of 32-byte words of a size, rounded up, without overflowing on the way. */
  function ToWordSize(size: Word): (words: Word)
    ensures 32 * words >= size && (words > 0 ==> 32 * (words - 1) < size)
  {
    if size > MAX_UINT64 - 31 then MAX_UINT64 / 32 + 1 else (size + 31) / 32
  }

  /** What the data of a message costs, in unbounded arithmetic. */
  function DataCost(data: seq<Byte>, creation: bool, homestead: bool, eip2028: bool, eip3860: bool): nat {
    var z := CountZero(data);
    (if creation && homestead then TX_GAS_CONTRACT_CREATION else TX_GAS)
    + (|data| - z) * (if eip2028 then TX_DATA_NON_ZERO_GAS_EIP2028 else TX_DATA_NON_ZERO_GAS_FRONTIER)
    + z * TX_DATA_ZERO_GAS
    + (if creation && eip3860 then (|data| + 31) / 32 * INIT_CODE_WORD_GAS else 0)
  }

  /** A call costs 21000 gas, every zero byte 4 more, and any other byte 16 more, 68 before Istanbul. */
  lemma ByteCost(data: seq<Byte>, b: Byte, homestead: bool, eip2028: bool, eip3860: bool)
    ensures DataCost([], false, homestead, eip2028, eip3860) == 21000
    ensures DataCost(data + [b], false, homestead, eip2028, eip3860) ==
            DataCost(data, false, homestead, eip2028, eip3860) + if b == 0 then 4 else if eip2028 then 16 else 68
  {
    assert (data + [b])[..|data|] == data;
  }

  /** A creation costs as much as the call, 32000 more from Homestead on and 2 more per word from Shanghai on. */
  lemma CreationCost(data: seq<Byte>, homestead: bool, eip2028: bool, eip3860: bool)
    ensures DataCost(data, true, homestead, eip2028, eip3860) ==
            DataCost(data, false, homestead, eip2028, eip3860)
            + (if homestead then 32000 else 0) + (if eip3860 then 2 * ((|data| + 31) / 32) else 0)
  {
  }

  /** The cost and the token count of data without zero bytes, and of data with nothing else. */
  lemma UniformCost(data: seq<Byte>, homestead: bool, eip2028: bool, eip3860: bool)
    ensures (forall i | 0 <= i < |data| :: data[i] == 0) ==>
              && DataCost(data, false, homestead, eip2028, eip3860) == 21000 + 4 * |data| && Tokens(data) == |data|
    ensures 0 !in data ==>
              && DataCost(data, false, homestead, eip2028, eip3860) == 21000 + (if eip2028 then 16 else 68) * |data|
              && Tokens(data) == 4 * |data|
  {
    CountZeroCounts(data);
    if forall i | 0 <= i < |data| :: data[i] == 0 {
      AllZero(data);
    }
  }

  lemma {:induction false} AllZero(data: seq<Byte>)
    requires forall i | 0 <= i < |data| :: data[i] == 0
    ensures CountZero(data) == |data|
  {
    if data != [] {
      AllZero(data[..|data| - 1]);
    }
  }

  /** Four tokens for every byte that is not zero, one for every zero. */
  function Tokens(data: seq<Byte>): nat {
    TX_TOKEN_PER_NON_ZERO_BYTE * (|data| - CountZero(data)) + CountZero(data)
  }

  /** The checked part of the intrinsic gas. */
  method DataGas(data: seq<Byte>, creation: bool, homestead: bool, eip2028: bool, eip3860: bool) returns (r: GasResult)
    requires |data| <= MAX_UINT64
    ensures var cost := DataCost(data, creation, homestead, eip2028, eip3860);
            r == if cost <= MAX_UINT64 then GasOk(cost) else GasUintOverflow
  {
    r := GasOk(if creation && homestead then TX_GAS_CONTRACT_CREATION else TX_GAS);
    if |data| > 0 {
      var z := CountZero(data);
      r := AddUnits(r.gas, |data| - z, if eip2028 then TX_DATA_NON_ZERO_GAS_EIP2028 else TX_DATA_NON_ZERO_GAS_FRONTIER);
      if r.GasUintOverflow? {
        return;
      }
      r := AddUnits(r.gas, z, TX_DATA_ZERO_GAS);
      if r.GasUintOverflow? {
        return;
      }
      if creation && eip3860 {
        var words := ToWordSize(|data|);
        assert words == (|data| + 31) / 32;
        r := AddUnits(r.gas, words, INIT_CODE_WORD_GAS);
      }
    }
  }

  lemma WrapTwice(x: nat, y: nat)
    ensures (x % TWO_64 + y) % TWO_64 == (x + y) % TWO_64
  {
  }

  /**
   The intrinsic gas of a message: an overflow is reported exactly when the data cost
   exceeds 64 bits; the list costs are added without a check and wrap.
   */
  method IntrinsicGas(data: seq<Byte>, addresses: nat, storageKeys: nat, auths: nat,
                      creation: bool, homestead: bool, eip2028: bool, eip3860: bool)
    returns (r: GasResult)
    requires |data| <= MAX_UINT64
    ensures r.GasUintOverflow? <==> DataCost(data, creation, homestead, eip2028, eip3860) > MAX_UINT64
    ensures r.GasOk? ==>
              r.gas == (DataCost(data, creation, homestead, eip2028, eip3860)
                        + (addresses * TX_ACCESS_LIST_ADDRESS_GAS + storageKeys * TX_ACCESS_LIST_STORAGE_KEY_GAS)
                        + auths * CALL_NEW_ACCOUNT_GAS) % TWO_64
  {
    r := DataGas(data, creation, homestead, eip2028, eip3860);
    if r.GasUintOverflow? {
      return;
    }
    var gas := r.gas;
    var a, k, t := addresses * TX_ACCESS_LIST_ADDRESS_GAS, storageKeys * TX_ACCESS_LIST_STORAGE_KEY_GAS,
        auths * CALL_NEW_ACCOUNT_GAS;
    WrapTwice(gas + a, k);
    WrapTwice(gas + a + k, t);
    return GasOk((((gas + a) % TWO_64 + k) % TWO_64 + t) % TWO_64);
  }

  /** The least gas a message must use for its data; the token count itself is a wrapping 64-bit sum. */
  method FloorDataGas(data: seq<Byte>) returns (r: GasResult)
    ensures var floor := TX_GAS + Tokens(data) % TWO_64 * TX_COST_FLOOR_PER_TOKEN;
            r == if floor <= MAX_UINT64 then GasOk(floor) else GasUintOverflow
  {
    var z := CountZero(data);
    var tokens := ((|data| - z) * TX_TOKEN_PER_NON_ZERO_BYTE + z) % TWO_64;
    r := AddUnits(TX_GAS, tokens, TX_COST_FLOOR_PER_TOKEN);
  }

  /** The gas still available in a block. */
  class GasPool {
    var gas: Word

    constructor ()
      ensures gas == 0
    {
      gas := 0;
    }

    /** Panics if the pool would exceed 64 bits; callers have to rule that out. */
    method AddGas(amount: Word)
      requires gas <= MAX_UINT64 - amount
      modifies this
      ensures gas == old(gas) + amount
    {
      gas := gas + amount;
    }

    /** Fails, and then takes nothing, exactly if not enough is left. */
    method SubGas(amount: Word) returns (ok: bool)
      modifies this
      ensures ok <==> amount <= old(gas)
      ensures gas == if ok then old(gas) - amount else old(gas)
    {
      if gas < amount {
        return false;
      }
      gas := gas - amount;
      return true;
    }
  }
}
