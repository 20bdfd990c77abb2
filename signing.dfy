/**
 * Signing on the Ledger device: `networkId`, the payload `requestSign` builds for
 * the device, the classification of the device's answer, the Payment and
 * Delegation entry points, and `requestAccount`.
 *
 * The device calls (`signTransaction`, `getAddress`) are parameters: functions from
 * what is sent to what the device answers, so that every property holds for every
 * device. The network type and the coin's decimal count, which the source reads from
 * configuration, are parameters as well.
 */
module Signing {
  import opened Wrappers
  import opened SignatureCodec

  /** The status text of a request the user declined on the device. */
  const RejectedStatus: string := "CONDITIONS_OF_USE_NOT_SATISFIED"
  /** The return code of a successful device call. */
  const SuccessCode: string := "9000"
  /** The fixed `validUntil` of every payload: 2^32 - 1. */
  const MaxValidUntil: nat := 4294967295

  datatype TxType = Payment | Delegation

  /** The wallet's configured network type; only Mainnet is told apart. */
  datatype NetConfigType = Mainnet | OtherNet(name: string)

  /** The network identifier of the device protocol. */
  datatype NetworkId = MainnetId | DevnetId

  function NetworkIdFor(netType: NetConfigType): (id: NetworkId)
    ensures id == MainnetId <==> netType == Mainnet
    ensures id == DevnetId <==> netType != Mainnet
  {
    if netType == Mainnet then MainnetId else DevnetId
  }

  function Pow10(n: nat): (p: nat)
    ensures p >= 1
  {
    if n == 0 then 1 else 10 * Pow10(n - 1)
  }

  /** The multiplier from wallet units to the device's smallest units. */
  function Scale(decimals: nat): (m: real)
    ensures m >= 1.0
  {
    Pow10(decimals) as real
  }

  /** The transaction as the wallet hands it over; `amount` and `memo` may be absent. */
  datatype WalletTx = WalletTx(
    fromAddress: string,
    toAddress: string,
    amount: Option<real>,
    fee: real,
    nonce: int,
    memo: Option<string>)

  /** `body.amount || 0`: an absent (or zero) amount is zero. */
  function AmountOrZero(amount: Option<real>): real {
    if amount.Some? then amount.value else 0.0
  }

  /** `body.memo || ""`: an absent (or empty) memo is empty. */
  function MemoOrEmpty(memo: Option<string>): string {
    if memo.Some? then memo.value else ""
  }

  /** The payload sent to the device. */
  datatype SignPayload = SignPayload(
    txType: TxType,
    senderAccount: nat,
    senderAddress: string,
    receiverAddress: string,
    amount: real,
    fee: real,
    nonce: int,
    memo: string,
    networkId: NetworkId,
    validUntil: nat)

  function BuildPayload(body: WalletTx, txType: TxType, accountIndex: nat, decimals: nat, netType: NetConfigType): (p: SignPayload)
    ensures p.txType == txType && p.senderAccount == accountIndex
    ensures p.senderAddress == body.fromAddress && p.receiverAddress == body.toAddress
    ensures p.fee / Scale(decimals) == body.fee
    ensures p.amount / Scale(decimals) == AmountOrZero(body.amount)
    ensures body.amount.None? ==> p.amount == 0.0
    ensures p.nonce == body.nonce
    ensures p.memo == "" <==> body.memo.None? || body.memo.value == ""
    ensures body.memo.Some? ==> p.memo == body.memo.value
    ensures p.networkId == MainnetId <==> netType == Mainnet
    ensures p.validUntil == MaxValidUntil
  {
    var scale := Scale(decimals);
    SignPayload(
      txType,
      accountIndex,
      body.fromAddress,
      body.toAddress,
      AmountOrZero(body.amount) * scale,
      body.fee * scale,
      body.nonce,
      MemoOrEmpty(body.memo),
      NetworkIdFor(netType),
      MaxValidUntil)
  }

  /** What the device answers to `signTransaction`. */
  datatype DeviceResponse = DeviceResponse(returnCode: string, statusText: string, signature: Option<string>)

  /** The fields of the sent payload that a successful result echoes. */
  datatype EchoedPayload = EchoedPayload(
    fee: real,
    from: string,
    to: string,
    nonce: int,
    amount: real,
    memo: string,
    validUntil: nat)

  /** Why `requestSign` throws instead of returning. */
  datatype SignFailure =
    | MissingSignature                     // success code but no signature: `undefined.length`
    | BadSignature(reason: SignatureError) // the re-encoding threw

  /** What `requestSign` settles with. */
  datatype SignOutcome =
    | Rejected                                         // `{rejected: true, publicKey: null, error}`
    | DeviceError(message: string)                     // `{signature: null, error: {message}}`
    | Signed(signature: string, payload: EchoedPayload)
    | Thrown(failure: SignFailure)

  function ClassifyResponse(sent: SignPayload, reply: DeviceResponse): (r: SignOutcome)
    // a user rejection wins over everything else
    ensures reply.statusText == RejectedStatus <==> r == Rejected
    // any other non-success code is an error carrying the device's text, signature unread
    ensures r.DeviceError? <==> reply.statusText != RejectedStatus && reply.returnCode != SuccessCode
    ensures r.DeviceError? ==> r.message == reply.statusText
    // a success code leads to the signature's re-encoding
    ensures r.Thrown? ==> reply.returnCode == SuccessCode
    ensures r.Thrown? ==> (r.failure == MissingSignature <==> reply.signature.None?)
    ensures r.Thrown? && r.failure.BadSignature? ==> ReEncodeRawSignature(reply.signature.value) == Failure(r.failure.reason)
    ensures r.Signed? ==> reply.returnCode == SuccessCode && reply.signature.Some?
    ensures r.Signed? ==> ReEncodeRawSignature(reply.signature.value) == Success(r.signature)
    ensures r.Signed? ==>
              r.payload == EchoedPayload(sent.fee, sent.senderAddress, sent.receiverAddress, sent.nonce,
                                         sent.amount, sent.memo, sent.validUntil)
  {
    if reply.statusText == RejectedStatus then Rejected
    else if reply.returnCode != SuccessCode then DeviceError(reply.statusText)
    else if reply.signature.None? then Thrown(MissingSignature)
    else match ReEncodeRawSignature(reply.signature.value)
      case Failure(e) => Thrown(BadSignature(e))
      case Success(signature) =>
        Signed(signature, EchoedPayload(sent.fee, sent.senderAddress, sent.receiverAddress, sent.nonce,
                                        sent.amount, sent.memo, sent.validUntil))
  }

  /** `requestSign`: build the payload, let the device answer it, classify the answer. */
  function RequestSign(device: SignPayload -> DeviceResponse, body: WalletTx, txType: TxType,
                       accountIndex: nat, decimals: nat, netType: NetConfigType): (r: SignOutcome)
    ensures var reply := device(BuildPayload(body, txType, accountIndex, decimals, netType));
      && (r == Rejected <==> reply.statusText == RejectedStatus)
      && (r.DeviceError? ==> reply.returnCode != SuccessCode && r.message == reply.statusText)
      && (r.Signed? ==> reply.returnCode == SuccessCode && reply.signature.Some?
                        && |reply.signature.value| == RawSignatureLength)
    // what a signed result echoes is what the wallet asked for, scaled to device units
    ensures r.Signed? ==>
              && r.payload.fee / Scale(decimals) == body.fee
              && r.payload.amount / Scale(decimals) == AmountOrZero(body.amount)
              && r.payload.from == body.fromAddress && r.payload.to == body.toAddress
              && r.payload.nonce == body.nonce
              && r.payload.memo == MemoOrEmpty(body.memo)
              && r.payload.validUntil == MaxValidUntil
  {
    var payload := BuildPayload(body, txType, accountIndex, decimals, netType);
    ClassifyResponse(payload, device(payload))
  }

  function RequestSignPayment(device: SignPayload -> DeviceResponse, body: WalletTx,
                              accountIndex: nat, decimals: nat, netType: NetConfigType): (r: SignOutcome)
    ensures r == RequestSign(device, body, Payment, accountIndex, decimals, netType)
  {
    RequestSign(device, body, Payment, accountIndex, decimals, netType)
  }

  function RequestSignDelegation(device: SignPayload -> DeviceResponse, body: WalletTx,
                                 accountIndex: nat, decimals: nat, netType: NetConfigType): (r: SignOutcome)
    ensures r == RequestSign(device, body, Delegation, accountIndex, decimals, netType)
  {
    RequestSign(device, body, Delegation, accountIndex, decimals, netType)
  }

  /** A signed result's signature, re-encoded once more, is the device's raw hex signature. */
  lemma SignedSignatureRoundTrip(device: SignPayload -> DeviceResponse, body: WalletTx, txType: TxType,
                                 accountIndex: nat, decimals: nat, netType: NetConfigType)
    requires RequestSign(device, body, txType, accountIndex, decimals, netType).Signed?
    requires var reply := device(BuildPayload(body, txType, accountIndex, decimals, netType));
      reply.signature.Some? && IsHex(reply.signature.value)
    ensures var r := RequestSign(device, body, txType, accountIndex, decimals, netType);
      var reply := device(BuildPayload(body, txType, accountIndex, decimals, netType));
      |r.signature| == RawSignatureLength && ReEncodeRawSignature(r.signature) == Success(reply.signature.value)
  {
    var reply := device(BuildPayload(body, txType, accountIndex, decimals, netType));
    HexHasNoLineTerminators(reply.signature.value);
    ReEncodeIsInvolution(reply.signature.value);
  }

  /** A well-formed signature under a success code always yields a signed result. */
  lemma WellFormedSuccessIsSigned(device: SignPayload -> DeviceResponse, body: WalletTx, txType: TxType,
                                  accountIndex: nat, decimals: nat, netType: NetConfigType)
    requires var reply := device(BuildPayload(body, txType, accountIndex, decimals, netType));
      && reply.statusText != RejectedStatus && reply.returnCode == SuccessCode
      && reply.signature.Some? && |reply.signature.value| == RawSignatureLength && IsHex(reply.signature.value)
    ensures RequestSign(device, body, txType, accountIndex, decimals, netType).Signed?
  {
    var reply := device(BuildPayload(body, txType, accountIndex, decimals, netType));
    HexHasNoLineTerminators(reply.signature.value);
    ReEncodeIsInvolution(reply.signature.value);
  }

  /** One nano-unit fee and one whole coin at nine decimals, nonce 5, empty memo. */
  lemma NineDecimalsPayload(from: string, to: string, netType: NetConfigType)
    ensures var p := BuildPayload(WalletTx(from, to, Some(1.0), 0.001, 5, Some("")), Payment, 0, 9, netType);
      p.amount == 1000000000.0 && p.fee == 1000000.0 && p.nonce == 5 && p.memo == ""
      && p.validUntil == 4294967295
  {
    assert Pow10(9) == 1000000000;
  }

  /** What the device answers to `getAddress`. */
  datatype AddressResponse = AddressResponse(publicKey: Option<string>, returnCode: string, statusText: string)

  /** What `requestAccount` settles with. */
  datatype AccountOutcome =
    | AccountRejected     // `{rejected: true, publicKey: null}`
    | PublicKey(key: string)
    | NoPublicKey         // `{publicKey: null}`

  function RequestAccount(device: nat -> AddressResponse, accountIndex: nat): (r: AccountOutcome)
    ensures device(accountIndex).statusText == RejectedStatus <==> r == AccountRejected
    // the return code is not consulted: a non-empty key is returned whatever it is
    ensures r.PublicKey? <==>
              && device(accountIndex).statusText != RejectedStatus
              && device(accountIndex).publicKey.Some? && device(accountIndex).publicKey.value != ""
    ensures r.PublicKey? ==> Some(r.key) == device(accountIndex).publicKey
  {
    var reply := device(accountIndex);
    if reply.statusText == RejectedStatus then AccountRejected
    else if reply.publicKey.Some? && reply.publicKey.value != "" then PublicKey(reply.publicKey.value)
    else NoPublicKey
  }
}
