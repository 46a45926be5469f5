/**
 The Solidity ABI's encodings of a `buy` call and of the market's events, and what the
 verifier makes of them. Words are 64 hex digits, addresses 40, in either letter case.
 */
module AbiEncoding {
  import opened Evm
  import opened Options
  import opened Ascii
  import opened Hex
  import opened Reentrancy
  import opened Verifier

  ghost predicate SpellsAddress(s: string, a: Address) {
    "0x" <= s && Spells(s[2..], a, 40)
  }

  ghost predicate SpellsWord(s: string, v: uint256) {
    "0x" <= s && Spells(s[2..], v, 64)
  }

  /** Words have 64 digits and addresses 40: no more and no fewer fit. */
  lemma SizesFit()
    ensures Pow16(64) == MAX_UINT256 + 1 && Pow16(40) == ADDRESS_SPACE
  {
    PowersOfTwo();
    Pow16Sum(32, 32);
  }

  /** A transaction hash is well formed exactly when it is the text of a 32-byte word. */
  lemma ValidHashIsWord(s: string)
    ensures ValidHash(s) <==> exists v: uint256 :: SpellsWord(s, v)
  {
    if ValidHash(s) {
      ValueIsBounded(s[2..]);
      SizesFit();
      assert SpellsWord(s, Value(s[2..]));
    }
  }

  /** The topics of the market's other events; their hashes differ from `Purchased`'s. */
  datatype Topics = Topics(sold: uint256, assetPriceUpdated: uint256, ownershipTransferred: uint256)
  {
    predicate Distinct() {
      PurchasedTopic() !in {sold, assetPriceUpdated, ownershipTransferred}
    }
  }

  function PurchasedTopic(): uint256 {
    PurchasedTopicIsHex();
    Value(PURCHASED_TOPIC[2..])
  }

  lemma HalvesAreHex()
    ensures AllDigits("a326259ec721617acd3cb2a00bcbeac9") && AllDigits("1eefe409880e49aa2bbf473ed648da49")
  {
  }

  lemma PurchasedTopicIsHex()
    ensures "0x" <= PURCHASED_TOPIC && AllDigits(PURCHASED_TOPIC[2..]) && |PURCHASED_TOPIC| == 66
    ensures Value(PURCHASED_TOPIC[2..]) <= MAX_UINT256
  {
    HalvesAreHex();
    HexWord("a326259ec721617acd3cb2a00bcbeac9", "1eefe409880e49aa2bbf473ed648da49");
  }

  lemma HexWord(high: string, low: string)
    requires AllDigits(high) && AllDigits(low) && |high| == |low| == 32
    ensures var s := "0x" + high + low;
      "0x" <= s && |s| == 66 && AllDigits(s[2..]) && Value(s[2..]) <= MAX_UINT256
  {
    assert ("0x" + high + low)[2..] == high + low;
    ValueIsBounded(high + low);
    PowersOfTwo();
    Pow16Sum(32, 32);
  }

  ghost predicate EncodesBuy(input: string, asset: Address, amountUsdc: uint256, minimum: uint256) {
    && |input| == 2 + 8 + 3 * 64
    && "0x" <= input
    && EqIgnoreAsciiCase(input[2..10], BUY_SELECTOR)
    && Spells(input[10..74], asset, 64)
    && Spells(input[74..138], amountUsdc, 64)
    && Spells(input[138..], minimum, 64)
  }

  function IndexedWords(event: Event, topics: Topics): seq<uint256>
    requires !event.Foreign?
  {
    match event
    case Purchased(buyer, asset, _, _) => [PurchasedTopic(), buyer, asset]
    case Sold(seller, asset, _, _) => [topics.sold, seller, asset]
    case AssetPriceUpdated(asset, _) => [topics.assetPriceUpdated, asset]
    case OwnershipTransferred(previousOwner, newOwner) => [topics.ownershipTransferred, previousOwner, newOwner]
  }

  function DataWords(event: Event): seq<uint256>
    requires !event.Foreign?
  {
    match event
    case Purchased(_, _, amountUsdc, tokenAmount) => [amountUsdc, tokenAmount]
    case Sold(_, _, tokenAmount, amountUsdc) => [tokenAmount, amountUsdc]
    case AssetPriceUpdated(_, price) => [price]
    case OwnershipTransferred(_, _) => []
  }

  function WordAt(data: string, i: nat): string
    requires |data| >= 66 + 64 * i
  {
    data[2 + 64 * i..66 + 64 * i]
  }

  /** `log` is the receipt's rendering of `event`. Nothing is known about the topics and data
      of a log that another contract emitted. */
  ghost predicate EncodesLog(log: Log, self: Address, event: Event, topics: Topics) {
    if event.Foreign? then event.emitter != self && SpellsAddress(log.address, event.emitter)
    else
      var indexed, words := IndexedWords(event, topics), DataWords(event);
      && SpellsAddress(log.address, self)
      && |log.topics| == |indexed|
      && (forall i :: 0 <= i < |indexed| ==> "0x" <= log.topics[i] && Spells(log.topics[i][2..], indexed[i], 64))
      && |log.data| == 2 + 64 * |words|
      && "0x" <= log.data
      && forall i :: 0 <= i < |words| ==> Spells(WordAt(log.data, i), words[i], 64)
  }

  ghost predicate EncodesLogs(logs: seq<Log>, self: Address, events: seq<Event>, topics: Topics) {
    && |logs| == |events|
    && forall i :: 0 <= i < |logs| ==> EncodesLog(logs[i], self, events[i], topics)
  }

  // The encoder

  function EncodeWord(v: uint256): string {
    Encode(v, 64)
  }

  lemma EncodeWordSpells(v: uint256)
    ensures Spells(EncodeWord(v), v, 64)
  {
    PowersOfTwo();
    Pow16Sum(32, 32);
  }

  function EncodeAddress(a: Address): string {
    "0x" + Encode(a, 40)
  }

  lemma EncodeAddressSpells(a: Address)
    ensures SpellsAddress(EncodeAddress(a), a)
  {
    PowersOfTwo();
    assert EncodeAddress(a)[2..] == Encode(a, 40);
  }

  function EncodeBuy(asset: Address, amountUsdc: uint256, minimum: uint256): string {
    "0x" + BUY_SELECTOR + EncodeWord(asset) + EncodeWord(amountUsdc) + EncodeWord(minimum)
  }

  function EncodeWords(words: seq<uint256>): (s: string)
    ensures |s| == 64 * |words|
  {
    if words == [] then "" else EncodeWord(words[0]) + EncodeWords(words[1..])
  }

  function EncodeTopics(words: seq<uint256>): seq<string> {
    if words == [] then [] else ["0x" + EncodeWord(words[0])] + EncodeTopics(words[1..])
  }

  /** The receipt's rendering of an event; a foreign log gets some topics and data. */
  function EncodeLog(self: Address, event: Event, topics: Topics, foreign: Log): Log {
    if event.Foreign? then foreign.(address := EncodeAddress(event.emitter))
    else Log(EncodeAddress(self), EncodeTopics(IndexedWords(event, topics)), "0x" + EncodeWords(DataWords(event)))
  }

  lemma WordAfter(head: string, tail: string, i: nat)
    requires |head| == 64 && |tail| >= 64 * i
    ensures WordAt("0x" + (head + tail), i) == if i == 0 then head else WordAt("0x" + tail, i - 1)
  {
    var s, u := "0x" + (head + tail), "0x" + tail;
    if i > 0 {
      assert s[66..] == tail && u[2..] == tail;
      assert s[2 + 64 * i..66 + 64 * i] == tail[64 * i - 64..64 * i];
      assert u[64 * i - 62..64 * i + 2] == tail[64 * i - 64..64 * i];
    }
  }

  lemma {:induction false} EncodeWordsAt(words: seq<uint256>, i: nat)
    requires i < |words|
    ensures WordAt("0x" + EncodeWords(words), i) == EncodeWord(words[i])
  {
    WordAfter(EncodeWord(words[0]), EncodeWords(words[1..]), i);
    if i > 0 {
      EncodeWordsAt(words[1..], i - 1);
    }
  }

  lemma {:induction false} EncodeTopicsAt(words: seq<uint256>, i: nat)
    requires i < |words|
    ensures |EncodeTopics(words)| == |words|
    ensures EncodeTopics(words)[i] == "0x" + EncodeWord(words[i])
  {
    if |words| > 1 {
      EncodeTopicsAt(words[1..], if i == 0 then 0 else i - 1);
    }
  }

  /** Every call has an encoding. */
  lemma EncodeBuyEncodes(asset: Address, amountUsdc: uint256, minimum: uint256)
    ensures EncodesBuy(EncodeBuy(asset, amountUsdc, minimum), asset, amountUsdc, minimum)
  {
    EncodeWordSpells(asset);
    EncodeWordSpells(amountUsdc);
    EncodeWordSpells(minimum);
    var s := EncodeBuy(asset, amountUsdc, minimum);
    assert s[2..10] == BUY_SELECTOR;
    assert s[10..74] == EncodeWord(asset);
    assert s[74..138] == EncodeWord(amountUsdc);
    assert s[138..] == EncodeWord(minimum);
  }

  /** Two encodings of one call differ in letter case only. */
  lemma OneEncodingOfBuy(input: string, other: string, asset: Address, amountUsdc: uint256, minimum: uint256)
    requires EncodesBuy(input, asset, amountUsdc, minimum) && EncodesBuy(other, asset, amountUsdc, minimum)
    ensures EqIgnoreAsciiCase(input, other)
  {
    SameValueSameText(input[10..74], other[10..74]);
    SameValueSameText(input[74..138], other[74..138]);
    SameValueSameText(input[138..], other[138..]);
    forall i | 0 <= i < |input| ensures LowerChar(input[i]) == LowerChar(other[i]) {
      if 2 <= i < 10 {
        assert input[i] == input[2..10][i - 2] && other[i] == other[2..10][i - 2];
      } else if 10 <= i < 74 {
        assert input[i] == input[10..74][i - 10] && other[i] == other[10..74][i - 10];
      } else if 74 <= i < 138 {
        assert input[i] == input[74..138][i - 74] && other[i] == other[74..138][i - 74];
      } else if 138 <= i {
        assert input[i] == input[138..][i - 138] && other[i] == other[138..][i - 138];
      }
    }
  }

  /** Every event has an encoding. */
  lemma EncodeLogEncodes(self: Address, event: Event, topics: Topics, foreign: Log)
    requires event.Foreign? ==> event.emitter != self
    ensures EncodesLog(EncodeLog(self, event, topics, foreign), self, event, topics)
  {
    EncodeAddressSpells(if event.Foreign? then event.emitter else self);
    if !event.Foreign? {
      var indexed, words := IndexedWords(event, topics), DataWords(event);
      EncodeTopicsAt(indexed, 0);
      forall i | 0 <= i < |indexed|
        ensures var topic := EncodeTopics(indexed)[i]; "0x" <= topic && Spells(topic[2..], indexed[i], 64)
      {
        EncodeTopicsAt(indexed, i);
        EncodeWordSpells(indexed[i]);
        assert ("0x" + EncodeWord(indexed[i]))[2..] == EncodeWord(indexed[i]);
      }
      forall i | 0 <= i < |words| ensures Spells(WordAt("0x" + EncodeWords(words), i), words[i], 64) {
        EncodeWordsAt(words, i);
        EncodeWordSpells(words[i]);
      }
    }
  }

  // Addresses

  lemma SameAddressIsEquality(s: string, a: Address, t: string, b: Address)
    requires SpellsAddress(s, a) && SpellsAddress(t, b)
    ensures SameAddress(s, t) <==> a == b
  {
    SameValueSameText(s[2..], t[2..]);
    assert EqIgnoreAsciiCase(s, t) ==> EqIgnoreAsciiCase(s[2..], t[2..]);
    if EqIgnoreAsciiCase(s[2..], t[2..]) {
      forall i | 0 <= i < |s| ensures LowerChar(s[i]) == LowerChar(t[i]) {
        if i >= 2 {
          assert s[i] == s[2..][i - 2] && t[i] == t[2..][i - 2];
        }
      }
    }
  }

  lemma LastTwentyBytes(word: string, a: Address)
    requires Spells(word, a, 64)
    ensures SpellsAddress("0x" + word[24..], a)
  {
    PowersOfTwo();
    LowDigits(word, a, 24);
    assert ("0x" + word[24..])[2..] == word[24..];
  }

  /** An indexed address topic is recognised exactly when it is the expected address. */
  lemma TopicIsAddress(topic: string, a: Address, text: string, b: Address)
    requires SpellsWord(topic, a) && SpellsAddress(text, b)
    ensures TopicIs(topic, text) <==> a == b
  {
    LastTwentyBytes(topic[2..], a);
    SameAddressIsEquality("0x" + topic[2..][24..], a, text, b);
  }

  lemma WordParses(word: string, v: nat)
    requires Spells(word, v, 64)
    ensures FromStrRadix16(word) == if v < TWO_128 then Some(v) else None
  {
    assert IsDigit(word[0]) && word[0] != '+';
    ParseIsValue(word);
  }

  // Calldata

  /** Decoding inverts the encoding of a `buy` call for amounts below 2^128, whatever the
      letter case, and refuses larger ones. */
  lemma DecodeBuyInverts(input: string, asset: Address, amountUsdc: uint256, minimum: uint256)
    requires EncodesBuy(input, asset, amountUsdc, minimum)
    ensures match DecodeBuy(input)
            case None => amountUsdc >= TWO_128
            case Some((text, amount)) => amountUsdc < TWO_128 && amount == amountUsdc && SpellsAddress(text, asset)
  {
    var body := input[2..];
    assert body[..8] == input[2..10];
    assert body[8..72] == input[10..74];
    assert body[72..136] == input[74..138];
    LastTwentyBytes(body[8..72], asset);
    WordParses(body[72..136], amountUsdc);
  }

  // Logs

  /** What a log must be to count as the purchase that is looked for. */
  function Recognised(event: Event, wallet: Address, asset: Address): Option<(nat, nat)> {
    if event.Purchased? && event.buyer == wallet && event.asset == asset
       && event.amountUsdc < TWO_128 && event.tokenAmount < TWO_128
    then Some((event.amountUsdc, event.tokenAmount)) else None
  }

  lemma FirstTopic(topic: string, v: nat)
    requires "0x" <= topic && Spells(topic[2..], v, 64)
    ensures EqIgnoreAsciiCase(topic, PURCHASED_TOPIC) <==> v == PurchasedTopic()
  {
    PurchasedTopicIsHex();
    SameValueSameText(topic[2..], PURCHASED_TOPIC[2..]);
    assert EqIgnoreAsciiCase(topic, PURCHASED_TOPIC) ==> EqIgnoreAsciiCase(topic[2..], PURCHASED_TOPIC[2..]);
    if EqIgnoreAsciiCase(topic[2..], PURCHASED_TOPIC[2..]) {
      forall i | 0 <= i < |topic| ensures LowerChar(topic[i]) == LowerChar(PURCHASED_TOPIC[i]) {
        if i >= 2 {
          assert topic[i] == topic[2..][i - 2] && PURCHASED_TOPIC[i] == PURCHASED_TOPIC[2..][i - 2];
        }
      }
    }
  }

  lemma PurchasedLogDecodes(log: Log, self: Address, event: Event, topics: Topics,
                            wallet: string, market: string, asset: string, w: Address, a: Address)
    requires event.Purchased? && EncodesLog(log, self, event, topics)
    requires SpellsAddress(wallet, w) && SpellsAddress(market, self) && SpellsAddress(asset, a)
    ensures DecodePurchase(log, wallet, market, asset) == Recognised(event, w, a)
  {
    SameAddressIsEquality(log.address, self, market, self);
    FirstTopic(log.topics[0], PurchasedTopic());
    TopicIsAddress(log.topics[1], event.buyer, wallet, w);
    TopicIsAddress(log.topics[2], event.asset, asset, a);
    var data := log.data[2..];
    assert data[..64] == WordAt(log.data, 0) && data[64..] == WordAt(log.data, 1);
    WordParses(data[..64], event.amountUsdc);
    WordParses(data[64..], event.tokenAmount);
  }

  /** Of all logs that the market or anyone else emits, exactly the market's purchases of
      this asset by this wallet decode, and they decode to their own amounts. */
  lemma DecodePurchaseInverts(log: Log, self: Address, event: Event, topics: Topics,
                              wallet: string, market: string, asset: string, w: Address, a: Address)
    requires topics.Distinct() && EncodesLog(log, self, event, topics)
    requires SpellsAddress(wallet, w) && SpellsAddress(market, self) && SpellsAddress(asset, a)
    ensures DecodePurchase(log, wallet, market, asset) == Recognised(event, w, a)
  {
    match event
    case Purchased(_, _, _, _) =>
      PurchasedLogDecodes(log, self, event, topics, wallet, market, asset, w, a);
    case Foreign(emitter) =>
      SameAddressIsEquality(log.address, emitter, market, self);
    case _ =>
      FirstTopic(log.topics[0], IndexedWords(event, topics)[0]);
  }

  function FirstRecognised(events: seq<Event>, wallet: Address, asset: Address): Option<(nat, nat)>
    decreases events
  {
    if events == [] then None
    else if Recognised(events[0], wallet, asset).Some? then Recognised(events[0], wallet, asset)
    else FirstRecognised(events[1..], wallet, asset)
  }

  lemma {:induction false} FindPurchaseFinds(logs: seq<Log>, self: Address, events: seq<Event>, topics: Topics,
                                             wallet: string, market: string, asset: string, w: Address, a: Address)
    requires topics.Distinct() && EncodesLogs(logs, self, events, topics)
    requires SpellsAddress(wallet, w) && SpellsAddress(market, self) && SpellsAddress(asset, a)
    ensures FindPurchase(logs, wallet, market, asset) == FirstRecognised(events, w, a)
    decreases logs
  {
    if logs != [] {
      DecodePurchaseInverts(logs[0], self, events[0], topics, wallet, market, asset, w, a);
      FindPurchaseFinds(logs[1..], self, events[1..], topics, wallet, market, asset, w, a);
    }
  }

  lemma {:induction false} RecognisedIsLogged(events: seq<Event>, wallet: Address, asset: Address)
    ensures match FirstRecognised(events, wallet, asset)
            case None => true
            case Some((x, t)) => x < TWO_128 && t < TWO_128 && Purchased(wallet, asset, x, t) in events
    decreases events
  {
    if events != [] {
      RecognisedIsLogged(events[1..], wallet, asset);
    }
  }

  // What the verifier accepts, text by text

  /** The calldata calls `buy`, for this asset and amount. Anything may follow. */
  ghost predicate CallsBuy(input: string, asset: string, amount: nat) {
    && |input| >= 202 && "0x" <= input
    && EqIgnoreAsciiCase(input[2..10], "a59ac6dd")
    && EqIgnoreAsciiCase("0x" + input[34..74], asset)
    && Parses(input[74..138], amount)
  }

  /** The last twenty bytes of a topic are this address. */
  ghost predicate TopicSpells(topic: string, address: string) {
    |topic| == 66 && "0x" <= topic && EqIgnoreAsciiCase("0x" + topic[26..], address)
  }

  /** The market logged a purchase of the asset by the wallet, with these amounts. */
  ghost predicate LogsPurchase(log: Log, wallet: string, market: string, asset: string, amountUsdc: nat, tokenAmount: nat) {
    && EqIgnoreAsciiCase(log.address, market)
    && |log.topics| == 3
    && EqIgnoreAsciiCase(log.topics[0], "0x" + "a326259ec721617acd3cb2a00bcbeac9" + "1eefe409880e49aa2bbf473ed648da49")
    && TopicSpells(log.topics[1], wallet) && TopicSpells(log.topics[2], asset)
    && |log.data| == 130 && "0x" <= log.data
    && Parses(log.data[2..66], amountUsdc) && Parses(log.data[66..], tokenAmount)
  }

  /** The first purchase among the logs. */
  ghost predicate FirstPurchase(logs: seq<Log>, wallet: string, market: string, asset: string, amountUsdc: nat, tokenAmount: nat)
  {
    exists i ::
      && 0 <= i < |logs| && LogsPurchase(logs[i], wallet, market, asset, amountUsdc, tokenAmount)
      && forall j, x: nat, t: nat :: 0 <= j < i ==> !LogsPurchase(logs[j], wallet, market, asset, x, t)
  }

  /** All that makes a transaction a purchase. */
  ghost predicate IsPurchase(transaction: Transaction, receipt: Receipt, wallet: string, market: string, asset: string,
                             amountUsdc: nat, tokenAmount: nat) {
    && receipt.status == "0x1"
    && EqIgnoreAsciiCase(transaction.from, wallet)
    && transaction.to.Some? && EqIgnoreAsciiCase(transaction.to.value, market)
    && CallsBuy(transaction.input, asset, amountUsdc)
    && FirstPurchase(receipt.logs, wallet, market, asset, amountUsdc, tokenAmount)
  }

  lemma DecodeBuyIsExact(input: string, asset: string, amount: nat)
    ensures (DecodeBuy(input).Some? && SameAddress(DecodeBuy(input).value.0, asset) && DecodeBuy(input).value.1 == amount)
            <==> CallsBuy(input, asset, amount)
  {
    if |input| >= 202 && "0x" <= input {
      var body := input[2..];
      assert body[..8] == input[2..10] && body[8..72][24..] == input[34..74] && body[72..136] == input[74..138];
      ParserReads(input[74..138], amount);
    }
  }

  lemma TopicIsExact(topic: string, address: string)
    ensures TopicIs(topic, address) <==> TopicSpells(topic, address)
  {
    if |topic| == 66 && "0x" <= topic {
      assert topic[2..][24..] == topic[26..];
    }
  }

  lemma DecodePurchaseIsExact(log: Log, wallet: string, market: string, asset: string, amountUsdc: nat, tokenAmount: nat)
    ensures DecodePurchase(log, wallet, market, asset) == Some((amountUsdc, tokenAmount)) <==>
            LogsPurchase(log, wallet, market, asset, amountUsdc, tokenAmount)
  {
    if |log.topics| == 3 {
      TopicIsExact(log.topics[1], wallet);
      TopicIsExact(log.topics[2], asset);
    }
    if |log.data| == 130 && "0x" <= log.data {
      assert log.data[2..][..64] == log.data[2..66] && log.data[2..][64..] == log.data[66..];
      ParserReads(log.data[2..66], amountUsdc);
      ParserReads(log.data[66..], tokenAmount);
    }
  }

  lemma {:induction false} FindPurchaseIsExact(logs: seq<Log>, wallet: string, market: string, asset: string, x: nat, t: nat)
    ensures FindPurchase(logs, wallet, market, asset) == Some((x, t)) <==> FirstPurchase(logs, wallet, market, asset, x, t)
    decreases logs
  {
    if logs != [] {
      var found := DecodePurchase(logs[0], wallet, market, asset);
      forall x': nat, t': nat ensures found == Some((x', t')) <==> LogsPurchase(logs[0], wallet, market, asset, x', t') {
        DecodePurchaseIsExact(logs[0], wallet, market, asset, x', t');
      }
      FindPurchaseIsExact(logs[1..], wallet, market, asset, x, t);
      if found.Some? {
        assert LogsPurchase(logs[0], wallet, market, asset, found.value.0, found.value.1);
      } else {
        LaterPurchase(logs, wallet, market, asset, x, t);
      }
    }
  }

  lemma LaterPurchase(logs: seq<Log>, wallet: string, market: string, asset: string, x: nat, t: nat)
    requires logs != [] && forall x': nat, t': nat :: !LogsPurchase(logs[0], wallet, market, asset, x', t')
    ensures FirstPurchase(logs, wallet, market, asset, x, t) <==> FirstPurchase(logs[1..], wallet, market, asset, x, t)
  {
    var rest := logs[1..];
    if FirstPurchase(logs, wallet, market, asset, x, t) {
      var i :| 0 <= i < |logs| && LogsPurchase(logs[i], wallet, market, asset, x, t)
               && forall j, x': nat, t': nat :: 0 <= j < i ==> !LogsPurchase(logs[j], wallet, market, asset, x', t');
      assert rest[i - 1] == logs[i];
      forall j, x': nat, t': nat | 0 <= j < i - 1 ensures !LogsPurchase(rest[j], wallet, market, asset, x', t') {
        assert rest[j] == logs[j + 1];
      }
    }
    if FirstPurchase(rest, wallet, market, asset, x, t) {
      var i :| 0 <= i < |rest| && LogsPurchase(rest[i], wallet, market, asset, x, t)
               && forall j, x': nat, t': nat :: 0 <= j < i ==> !LogsPurchase(rest[j], wallet, market, asset, x', t');
      forall j, x': nat, t': nat | 0 <= j < i + 1 ensures !LogsPurchase(logs[j], wallet, market, asset, x', t') {
        if j > 0 {
          assert logs[j] == rest[j - 1];
        }
      }
      assert logs[i + 1] == rest[i];
    }
  }

  /** The verdict on any transaction and receipt: a purchase is verified with its amounts when
      both are below 2^96, and what is no purchase is refused. */
  lemma ReceiptVerdictIsExact(transaction: Transaction, receipt: Receipt, wallet: string, market: string, asset: string)
    ensures var verdict := VerifyReceipt(transaction, receipt, wallet, market, asset);
      && (verdict == Rejected(Reverted) <==> receipt.status != "0x1")
      && (forall x: nat, t: nat :: IsPurchase(transaction, receipt, wallet, market, asset, x, t) ==>
            verdict == if x < TWO_96 && t < TWO_96 then Verified(Decimal(x, 6), Decimal(t, 18))
                       else if x >= TWO_127 || (x < TWO_96 && t >= TWO_127) then Rejected(Mismatch) else Panicked)
      && (receipt.status == "0x1" && (forall x: nat, t: nat :: !IsPurchase(transaction, receipt, wallet, market, asset, x, t)) ==>
            verdict == Rejected(Mismatch))
  {
    forall x: nat, t: nat | IsPurchase(transaction, receipt, wallet, market, asset, x, t)
      ensures VerifyReceipt(transaction, receipt, wallet, market, asset) == Amounts(x, t)
    {
      FindPurchaseIsExact(receipt.logs, wallet, market, asset, x, t);
      DecodeBuyIsExact(transaction.input, asset, x);
    }
    var called, found := DecodeBuy(transaction.input), FindPurchase(receipt.logs, wallet, market, asset);
    if called.Some? && found.Some? {
      FindPurchaseIsExact(receipt.logs, wallet, market, asset, found.value.0, found.value.1);
      DecodeBuyIsExact(transaction.input, asset, called.value.1);
      assert VerifyReceipt(transaction, receipt, wallet, market, asset) in {Rejected(Reverted), Rejected(Mismatch)}
             || IsPurchase(transaction, receipt, wallet, market, asset, found.value.0, found.value.1);
    }
  }

  /** The chain answered with its number. */
  ghost predicate OnChain(chain: Reply<string>, chainId: int64) {
    chain.Reply? && "0x" <= chain.result && Parses(chain.result[2..], chainId % TWO_128)
  }

  /** The checks before the receipt's. A transaction that is not yet mined has a null receipt:
      `Pending` was meant for it, but it is answered `Rpc`, and `Pending` never. */
  lemma NeverPending(chain: Reply<string>, transaction: Reply<Transaction>, receipt: Reply<Receipt>,
                     txHash: string, wallet: string, market: string, asset: string, chainId: int64)
    ensures VerifyPurchase(chain, transaction, receipt, txHash, wallet, market, asset, chainId) ==
            if !exists v: uint256 :: SpellsWord(txHash, v) then Rejected(InvalidTransactionHash)
            else if !exists n: nat :: chain.Reply? && "0x" <= chain.result && Parses(chain.result[2..], n) then Rejected(Rpc)
            else if !OnChain(chain, chainId) then Rejected(Mismatch)
            else if !transaction.Reply? || !receipt.Reply? then Rejected(Rpc)
            else VerifyReceipt(transaction.result, receipt.result, wallet, market, asset)
    ensures VerifyPurchase(chain, transaction, receipt, txHash, wallet, market, asset, chainId) != Rejected(Pending)
  {
    ValidHashIsWord(txHash);
    if chain.Reply? && "0x" <= chain.result {
      forall n: nat ensures FromStrRadix16(chain.result[2..]) == Some(n) <==> Parses(chain.result[2..], n) {
        ParserReads(chain.result[2..], n);
      }
      if ParseHexU128(chain.result).Some? {
        assert Parses(chain.result[2..], ParseHexU128(chain.result).value);
      }
    }
  }

  /** Whatever calldata the transaction carries, a purchase is only ever verified when the
      wallet called the market and the market logged it: same wallet, same asset, and exactly
      the verified amounts. */
  lemma VerifiedWasPurchased(chain: Reply<string>, transaction: Reply<Transaction>, receipt: Reply<Receipt>,
                             txHash: string, chainId: int64, self: Address, events: seq<Event>, topics: Topics,
                             wallet: string, market: string, asset: string, w: Address, a: Address)
    requires topics.Distinct() && (receipt.Reply? ==> EncodesLogs(receipt.result.logs, self, events, topics))
    requires SpellsAddress(wallet, w) && SpellsAddress(market, self) && SpellsAddress(asset, a)
    ensures match VerifyPurchase(chain, transaction, receipt, txHash, wallet, market, asset, chainId)
            case Verified(amountUsdc, tokenAmount) =>
              && (exists v: uint256 :: SpellsWord(txHash, v)) && OnChain(chain, chainId)
              && transaction.Reply? && receipt.Reply? && receipt.result.status == "0x1"
              && EqIgnoreAsciiCase(transaction.result.from, wallet)
              && transaction.result.to.Some? && EqIgnoreAsciiCase(transaction.result.to.value, market)
              && amountUsdc.mantissa < TWO_96 && tokenAmount.mantissa < TWO_96
              && amountUsdc.scale == 6 && tokenAmount.scale == 18
              && CallsBuy(transaction.result.input, asset, amountUsdc.mantissa)
              && Purchased(w, a, amountUsdc.mantissa, tokenAmount.mantissa) in events
            case _ => true
  {
    NeverPending(chain, transaction, receipt, txHash, wallet, market, asset, chainId);
    if transaction.Reply? && receipt.Reply? {
      FindPurchaseFinds(receipt.result.logs, self, events, topics, wallet, market, asset, w, a);
      RecognisedIsLogged(events, w, a);
      if DecodeBuy(transaction.result.input).Some? {
        DecodeBuyIsExact(transaction.result.input, asset, DecodeBuy(transaction.result.input).value.1);
      }
    }
  }

  /** The verdict on numbers rather than text. */
  function AbiVerdict(succeeded: bool, parties: bool, amountUsdc: uint256, found: Option<(nat, nat)>): Verdict {
    if !succeeded then Rejected(Reverted)
    else if !parties || found.None? || found.value.0 != amountUsdc then Rejected(Mismatch)
    else Amounts(found.value.0, found.value.1)
  }

  /** The verdict on a properly encoded `buy` transaction, in terms of what happened. */
  lemma VerdictOnBuy(transaction: Transaction, receipt: Receipt, self: Address, events: seq<Event>, topics: Topics,
                     from: Address, to: Address, bought: Address, amountUsdc: uint256, minimum: uint256,
                     wallet: string, market: string, asset: string, w: Address, a: Address)
    requires topics.Distinct() && EncodesLogs(receipt.logs, self, events, topics)
    requires SpellsAddress(wallet, w) && SpellsAddress(market, self) && SpellsAddress(asset, a)
    requires SpellsAddress(transaction.from, from)
    requires transaction.to.Some? && SpellsAddress(transaction.to.value, to)
    requires EncodesBuy(transaction.input, bought, amountUsdc, minimum)
    ensures VerifyReceipt(transaction, receipt, wallet, market, asset) ==
            AbiVerdict(receipt.status == "0x1", from == w && to == self && bought == a, amountUsdc, FirstRecognised(events, w, a))
  {
    SameAddressIsEquality(transaction.from, from, wallet, w);
    SameAddressIsEquality(transaction.to.value, to, market, self);
    DecodeBuyInverts(transaction.input, bought, amountUsdc, minimum);
    if amountUsdc < TWO_128 {
      SameAddressIsEquality(DecodeBuy(transaction.input).value.0, bought, asset, a);
    }
    FindPurchaseFinds(receipt.logs, self, events, topics, wallet, market, asset, w, a);
    RecognisedIsLogged(events, w, a);
  }
}
