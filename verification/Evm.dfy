/** The EVM's words and addresses, and calls that either commit or revert. */
module Evm {

  const MAX_UINT256: nat := 0xFFFF_FFFF_FFFF_FFFF_FFFF_FFFF_FFFF_FFFF_FFFF_FFFF_FFFF_FFFF_FFFF_FFFF_FFFF_FFFF

  type uint256 = x: nat | x <= MAX_UINT256

  const ADDRESS_SPACE: nat := 0x1_0000_0000_0000_0000_0000_0000_0000_0000_0000_0000

  type Address = x: nat | x < ADDRESS_SPACE

  const ZERO_ADDRESS: Address := 0

  /** Every reason for which a call to one of the contracts can revert. */
  datatype Error =
      // checked arithmetic, and a high-level call to an address without code
    | Overflow | NotAContract
      // tokens
    | InsufficientAllowance | InsufficientBalance | AlreadyClaimed
      // market
    | InsufficientOutput | InvalidAmount | InvalidPrice | ReentrantCall
    | TokenTransferFailed | UnsupportedAsset
      // both
    | Unauthorized | ZeroAddress

  datatype Outcome<+T> = Ok(value: T) | Revert(error: Error) {
    predicate IsFailure() { Revert? }

    function PropagateFailure<U>(): Outcome<U>
      requires Revert?
    {
      Revert(error)
    }

    function Extract(): T
      requires Ok?
    {
      value
    }

    /** The state after the call: the new one, or the old one when the call reverted. */
    function GetOr(before: T): T {
      match this
      case Ok(v) => v
      case Revert(_) => before
    }
  }

  function CheckedAdd(a: uint256, b: uint256): Outcome<uint256> {
    if a + b > MAX_UINT256 then Revert(Overflow) else Ok(a + b)
  }

  function CheckedMul(a: uint256, b: uint256): Outcome<uint256> {
    if a * b > MAX_UINT256 then Revert(Overflow) else Ok(a * b)
  }

  /** Subtraction inside an `unchecked` block: it wraps around. */
  function UncheckedSub(a: uint256, b: uint256): (d: uint256)
    ensures (d + b) % (MAX_UINT256 + 1) == a
  {
    if a >= b then a - b else a + (MAX_UINT256 + 1 - b)
  }
}

/** Sums over the values of a finite map. */
module MapSums {

  function Get<K>(m: map<K, nat>, k: K): nat {
    if k in m then m[k] else 0
  }

  ghost function Sum<K>(m: map<K, nat>): nat {
    if m == map[] then 0 else var k :| k in m; m[k] + Sum(m - {k})
  }

  lemma {:induction false} SumSplit<K>(m: map<K, nat>, k: K)
    requires k in m
    ensures Sum(m) == m[k] + Sum(m - {k})
    decreases |m|
  {
    var j :| j in m && Sum(m) == m[j] + Sum(m - {j});
    if j != k {
      SumSplit(m - {j}, k);
      SumSplit(m - {k}, j);
      assert m - {j} - {k} == m - {k} - {j};
    }
  }

  lemma SumUpdate<K>(m: map<K, nat>, k: K, v: nat)
    ensures Sum(m[k := v]) == Sum(m) - Get(m, k) + v
  {
    SumSplit(m[k := v], k);
    assert m[k := v] - {k} == m - {k};
    if k in m {
      SumSplit(m, k);
    } else {
      assert m - {k} == m;
    }
  }

  lemma {:induction false} SumAtLeast<K>(m: map<K, nat>, k: K)
    ensures Get(m, k) <= Sum(m)
  {
    if k in m {
      SumSplit(m, k);
    }
  }
}
