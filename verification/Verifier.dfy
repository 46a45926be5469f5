/** The API's check that a transaction is a purchase: the decision logic of `verify_purchase`,
    with the answers of the RPC node as inputs. */
module Verifier {
  import opened Options
  import opened Ascii
  import opened Hex

  const BUY_SELECTOR: string := "a59ac6dd"
  const PURCHASED_TOPIC: string := "0x" + "a326259ec721617acd3cb2a00bcbeac9" + "1eefe409880e49aa2bbf473ed648da49"

  datatype Transaction = Transaction(from: string, to: Option<string>, input: string)
  datatype Receipt = Receipt(status: string, logs: seq<Log>)
  datatype Log = Log(address: string, topics: seq<string>, data: string)

  /** What came back from one RPC request: no usable response or an error object, a response
      whose `result` is null or missing, or a result. */
  datatype Reply<+T> = Unusable | Null | Reply(result: T)

  datatype VerifyError = InvalidTransactionHash | Pending | Reverted | Mismatch | Rpc

  datatype Decimal = Decimal(mantissa: nat, scale: nat)

  /** `Decimal::from_i128_with_scale` panics on a mantissa of more than 96 bits. */
  datatype Conversion = Converted(value: Decimal) | TooWide | Panics

  datatype Verdict =
    | Verified(amountUsdc: Decimal, tokenAmount: Decimal)
    | Rejected(error: VerifyError)
    | Panicked

  predicate SameAddress(left: string, right: string) {
    EqIgnoreAsciiCase(left, right)
  }

  predicate ValidHash(value: string) {
    |value| == 66 && "0x" <= value && AllDigits(value[2..])
  }

  function DecodeBuy(input: string): Option<(string, nat)> {
    var input :- StripPrefix(input, "0x");
    if |input| < 8 + 64 * 3 || !EqIgnoreAsciiCase(input[..8], BUY_SELECTOR) then None
    else
      var assetWord, amountWord := input[8..72], input[72..136];
      var amount :- FromStrRadix16(amountWord);
      Some(("0x" + assetWord[24..], amount))
  }

  function TopicAddress(topic: string): Option<string> {
    var topic :- StripPrefix(topic, "0x");
    if |topic| == 64 then Some("0x" + topic[24..]) else None
  }

  predicate TopicIs(topic: string, address: string) {
    var decoded := TopicAddress(topic);
    decoded.Some? && SameAddress(decoded.value, address)
  }

  function DecodePurchase(log: Log, wallet: string, market: string, asset: string): Option<(nat, nat)> {
    if !SameAddress(log.address, market)
       || |log.topics| != 3
       || !EqIgnoreAsciiCase(log.topics[0], PURCHASED_TOPIC)
       || !TopicIs(log.topics[1], wallet)
       || !TopicIs(log.topics[2], asset)
    then None
    else
      var data :- StripPrefix(log.data, "0x");
      if |data| != 128 then None
      else
        var amount :- FromStrRadix16(data[..64]);
        var tokens :- FromStrRadix16(data[64..]);
        Some((amount, tokens))
  }

  function ParseHexU128(value: string): Option<nat> {
    var digits :- StripPrefix(value, "0x");
    FromStrRadix16(digits)
  }

  function ToDecimal(value: nat, scale: nat): Conversion {
    if value >= TWO_127 then TooWide
    else if value >= TWO_96 then Panics
    else Converted(Decimal(value, scale))
  }

  type int64 = x: int | -0x8000_0000_0000_0000 <= x < 0x8000_0000_0000_0000

  /** A signed 64-bit integer cast to an unsigned 128-bit one. */
  function AsU128(value: int64): nat {
    if value < 0 then value + TWO_128 else value
  }

  function FindPurchase(logs: seq<Log>, wallet: string, market: string, asset: string): Option<(nat, nat)>
    decreases logs
  {
    if logs == [] then None
    else
      var decoded := DecodePurchase(logs[0], wallet, market, asset);
      if decoded.Some? then decoded else FindPurchase(logs[1..], wallet, market, asset)
  }

  /** `rpc::<Option<T>>`: a null result is absent already for the response, so it is an error. */
  function Optional<T>(reply: Reply<T>): Option<Option<T>> {
    if reply.Reply? then Some(Some(reply.result)) else None
  }

  function VerifyReceipt(transaction: Transaction, receipt: Receipt, wallet: string, market: string, asset: string)
    : Verdict
  {
    if receipt.status != "0x1" then Rejected(Reverted)
    else if !SameAddress(transaction.from, wallet)
            || transaction.to.None? || !SameAddress(transaction.to.value, market)
    then Rejected(Mismatch)
    else
      match DecodeBuy(transaction.input)
      case None => Rejected(Mismatch)
      case Some((calledAsset, calledAmount)) =>
        if !SameAddress(calledAsset, asset) then Rejected(Mismatch)
        else
          match FindPurchase(receipt.logs, wallet, market, asset)
          case None => Rejected(Mismatch)
          case Some((eventAmount, tokenAmount)) =>
            if calledAmount != eventAmount then Rejected(Mismatch)
            else Amounts(eventAmount, tokenAmount)
  }

  function Amounts(eventAmount: nat, tokenAmount: nat): Verdict {
    match ToDecimal(eventAmount, 6)
    case TooWide => Rejected(Mismatch)
    case Panics => Panicked
    case Converted(amountUsdc) =>
      match ToDecimal(tokenAmount, 18)
      case TooWide => Rejected(Mismatch)
      case Panics => Panicked
      case Converted(tokens) => Verified(amountUsdc, tokens)
  }

  function VerifyPurchase(
    chain: Reply<string>, transaction: Reply<Transaction>, receipt: Reply<Receipt>,
    txHash: string, wallet: string, market: string, asset: string, chainId: int64): Verdict
  {
    if !ValidHash(txHash) then Rejected(InvalidTransactionHash)
    else if !chain.Reply? || ParseHexU128(chain.result).None? then Rejected(Rpc)
    else if ParseHexU128(chain.result).value != AsU128(chainId) then Rejected(Mismatch)
    else
      match Optional(transaction)
      case None => Rejected(Rpc)
      case Some(None) => Rejected(Pending)
      case Some(Some(t)) =>
        match Optional(receipt)
        case None => Rejected(Rpc)
        case Some(None) => Rejected(Pending)
        case Some(Some(r)) => VerifyReceipt(t, r, wallet, market, asset)
  }
}
