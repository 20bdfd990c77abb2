# Ledger session and signing helper, modelled in Dafny

This project models `src/utils/ledger.js` of the Auro wallet browser extension. That file is the wallet's helper for a Ledger hardware signer running the Mina app. It has three parts:

- **Signature codec** (`signature_codec.dfy`, module `SignatureCodec`). `reEncodeRawSignature` accepts only a 128-character raw signature. It splits the signature into a 64-character field half and a 64-character scalar half. Each half is byte-reversed on its own by `shuffleBytes`. `shuffleBytes` is modelled as written: `match(/.{2}/g)`, then reverse, then join. This includes the regular expression skipping line terminators and the `TypeError` raised when nothing matches. A separate reference definition, `ReverseBytes`, states what the function means for hex text, and lemmas connect the two.
- **Signing** (`signing.dfy`, module `Signing`). This covers `networkId`, the payload `requestSign` sends, and the classification of the device's answer: a rejection wins, then a non-`9000` code is an error, otherwise the result is signed. It also covers the Payment and Delegation entry points and `requestAccount`. The device calls are function parameters, so every property holds for every device. The network type and the coin's decimal count are parameters too.
- **Device session** (`device_session.dfy`, module `DeviceSession`). The module-level `appInstance`/`portInstance` pair of `getApp` becomes the class `Session`, and the transport becomes the class `Port`. Each call takes two inputs: whether a transport can be opened, and the outcome of the liveness probe race (`Timeout` or a `Reply`). The invariant `Valid()` says four things. The app and the port are set and cleared together. The app runs over the port. The current port is among the transports the session opened. Of all transports the session ever opened, only the current one is still open.

`wrappers.dfy` holds the `Option`/`Result` types shared by the modules.

Some behaviours of `ledger.js` are easy to misread; the model follows the code:

- After the pairing window reports success, `getApp` does not retry. It returns `{manualConnected: true, app: null}`, and the model returns `ManualConnected`.
- `closePopupWindow('ledger')` is called on every healthy probe, not only when a pairing window is open.
- A probe counts as healthy whenever it names an app and its code is not `5000`. It does not need the success code `9000`.
- `requestAccount` never looks at the return code.

## Model

| member | source | states |
|---|---|---|
| `SignatureCodec.ReEncodeRawSignature` | src/utils/ledger.js:129-134 | Fails with `InvalidRawSignature` exactly when the input is not 128 characters. For a 128-character input without line terminators, returns the byte reversal of the first 64 characters followed by the byte reversal of the last 64. It fails with `NoByteGroups` only on input that contains line terminators. |
| `SignatureCodec.ShuffleBytes` | src/utils/ledger.js:123-127 | Its only failure is `NoByteGroups`. On text without line terminators it fails exactly when the text is shorter than 2 characters, and otherwise equals `ReverseBytes` of the text. |
| `SignatureCodec.ByteGroups` | src/utils/ledger.js:124 | Every match of `/.{2}/g` is 2 characters long and holds no line terminator. There are at most half as many matches as characters. |
| `SignatureCodec.JoinReversedGroupsIsReverseBytes` | src/utils/ledger.js:123-127 | On text without line terminators, joining the reversed regex matches is the byte-order reversal `ReverseBytes`. |
| `SignatureCodec.ReverseBytes` | src/utils/ledger.js:123-127 | The reversal keeps every whole byte: its length is the input's length rounded down to even. |
| `SignatureCodec.ReverseBytesAt` | src/utils/ledger.js:123-127 | Character `i` of the reversal is character `i % 2` of byte `n-1-i/2` of the input. |
| `SignatureCodec.ReverseBytesAppend` | src/utils/ledger.js:132-134 | Reversing two whole-byte texts as one string swaps them. This is why each half is reversed separately. |
| `SignatureCodec.ReverseBytesInvolution` | src/utils/ledger.js:123-127 | Byte reversal applied twice gives back any even-length text. |
| `SignatureCodec.ShuffleBytesInvolution` | src/utils/ledger.js:123-127 | `shuffleBytes` applied twice gives back any non-empty even-length hex text. |
| `SignatureCodec.ReEncodeIsInvolution` | src/utils/ledger.js:122-135 | Re-encoding a 128-character signature without line terminators succeeds, yields 128 characters, and re-encoding that result gives back the original. |
| `SignatureCodec.RepeatedByteHalvesAreFixed` | src/utils/ledger.js:132-134 | A signature whose halves each repeat one byte is a fixed point of re-encoding. |
| `SignatureCodec.CanarySignature` | src/utils/ledger.js:129-134 | `"aa"*32 + "bb"*32` re-encodes to itself, while reversing it as one 64-byte text would not. |
| `Signing.NetworkIdFor` | src/utils/ledger.js:136-143 | The result is MAINNET exactly when the net type is Mainnet, and DEVNET for every other net type. |
| `Signing.Pow10` | src/utils/ledger.js:146 | The decimal multiplier `10^decimals` is at least 1, so scaling by it can be undone by division. |
| `Signing.BuildPayload` | src/utils/ledger.js:144-160 | Fee and amount divided by `10^decimals` give back the wallet's fee and amount (a missing amount gives 0). Type, account index, addresses and nonce are copied. The memo is the given memo, or `""` when it is absent. The network id is MAINNET exactly on Mainnet. `validUntil` is 4294967295. |
| `Signing.ClassifyResponse` | src/utils/ledger.js:161-180 | A rejection status gives `Rejected` whatever the code or signature. Otherwise a code other than `9000` gives `DeviceError` with the device's status text, without reading the signature. Otherwise a missing signature or a failed re-encoding throws. Otherwise the result is signed with the re-encoded signature and an echo of the sent fee, addresses, nonce, amount, memo and validUntil. |
| `Signing.RequestSign` | src/utils/ledger.js:144-181 | `Rejected` happens exactly when the device's status is the rejection text. A device error carries the status text. A signed result came from a `9000` reply holding a 128-character signature. Its echo, scaled back by `10^decimals`, equals the wallet's fee and amount (0 if absent), and it repeats the addresses, nonce and memo (`""` if absent) with `validUntil` 4294967295. |
| `Signing.RequestSignPayment` | src/utils/ledger.js:118-120 | Is `requestSign` with the Payment transaction type. |
| `Signing.RequestSignDelegation` | src/utils/ledger.js:114-116 | Is `requestSign` with the Delegation transaction type. |
| `Signing.SignedSignatureRoundTrip` | src/utils/ledger.js:168-170 | The signature of a signed result is 128 characters long. When the device's hex signature is well-formed, re-encoding the result gives that signature back. |
| `Signing.WellFormedSuccessIsSigned` | src/utils/ledger.js:162-170 | A non-rejected `9000` reply with a 128-character hex signature always gives a signed result. |
| `Signing.NineDecimalsPayload` | src/utils/ledger.js:145-160 | With 9 decimals, amount 1, fee 0.001, nonce 5 and an empty memo build amount 1000000000, fee 1000000, nonce 5, memo `""` and validUntil 4294967295. |
| `Signing.RequestAccount` | src/utils/ledger.js:102-112 | The result is rejected exactly when the status is the rejection text. Otherwise it is a public key exactly when the device returned a non-empty one, and that key is returned unchanged. The return code plays no part. |
| `DeviceSession.Port.Close` | src/utils/ledger.js:76 | Closing a transport leaves it closed. |
| `DeviceSession.Session.constructor` | src/utils/ledger.js:44-45 | The session starts with no app, no port and no transport ever opened. |
| `DeviceSession.Session.AtMostOneOpenPort` | src/utils/ledger.js:44-56 | In a valid session, two open transports are the same transport. |
| `DeviceSession.Session.GetApp` | src/utils/ledger.js:46-86 | Keeps `Valid()`. With nothing cached and no transport, the result is `ManualConnected` and the session stays empty. After a stale probe (a timeout, code `5000`, or a missing or empty app name; any other code with a name is healthy), both fields are null, every transport is closed, and the result is `ManualConnected`. After a healthy probe, the result is `Connected` with the session's app. A cached app and its port are reused unchanged. Transports once opened stay recorded. A newly opened transport is fresh, so no earlier transport is reused. A call opens exactly one transport when the session was empty and a transport was available, and never more than one. |
| `DeviceSession.Session.CheckLedgerConnect` | src/utils/ledger.js:88-100 | Returns exactly the session's app after `getApp`. It returns null exactly when no transport could be opened for an empty session, or when the probe was stale. A cached app under a healthy probe is returned unchanged. A stale probe leaves every transport closed. With an app cached, it opens no transport. After a healthy call on an empty session, the transport in use is a fresh one, never an earlier one. Like `getApp`, it opens exactly one fresh transport for an empty session when one is available, and never more than one. |
| `DeviceSession.TimeoutThenReconnect` | src/utils/ledger.js:61-80 | After a connection, a probe timeout closes the transport. The next healthy call opens a different, open transport. |

## Left out

- `src/background/messageListener.js` is not part of this model. It only dispatches messages to services outside this file.
- `getPort`/`Transport.create` and the `MinaLedgerJS` calls (`getAppName`, `getAddress`, `signTransaction`) are hardware I/O. Their outcomes are inputs: a boolean, a `Probe`, and device functions.
- The `Promise.race` against the 300 ms timer, and the `setTimeout`/`clearTimeout` bookkeeping in `getApp` and `checkLedgerConnect`, are reduced to the probe outcome. A late `getAppName` reply after a timeout is not modelled.
- `openLedgerWindow`, `initLedgerWindowListener`, `openPopupWindow`/`closePopupWindow`, `Toast`, `Loading` and `i18n` are UI and cross-process messaging. The unbounded wait for pairing becomes the `ManualConnected` result. The localized rejection message is not modelled.
- `BigNumber(...).toNumber()` rounds to a double. Amounts and fees are exact `real` values, so float rounding is not modelled. A missing fee, which gives `NaN`, is not modelled either.
- `+body.nonce` converts a string to a number. The nonce is modelled as a number already, so a non-numeric nonce (`NaN`) is not modelled.
- `body.amount || 0` also maps `NaN` to 0. Amounts are reals, so only the absent amount is modelled.
- Two `getApp` calls can overlap while awaiting. Each may see an empty session and open its own transport. The model assumes calls are serialized.
- A transport closed by the browser or by unplugging the device is not modelled. Only `getApp` closes ports.
- JavaScript string lengths count UTF-16 code units, while the model counts characters. The two agree on hex text.
- The net type constants of the wallet's configuration are not part of this model. `NetConfigType` distinguishes only Mainnet from any other type.
