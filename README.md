# Key lifecycle and signing workflow of the `App` component

This project models the part of the demo web page that has state. The page does three things:
- it generates an ECDSA P-384 key pair and stores the private key as a JWK in the browser's local storage;
- it imports that key and signs a fixed verifiable-credential document with it;
- it stores the signature as quoted lowercase hexadecimal, and a reset button clears storage, the key and the signature. It leaves the signing flag as it was.

The model has four files:

- `wrappers.dfy`: `Option`, which stands for null or undefined state, a missing storage slot and a rejected promise.
- `hex.dfy`: the persisted form of a signature, `"` + lowercase hex + `"`. It comes with a reader, `FromHex` / `ParseSignatureText`, so that round trips in both directions can be proved.
- `workflow.dfy`: the component's state as a value (`AppState`: storage map, `keys`, `cryptoKey`, `signedVC`, `VCBeingSigned`). It has one transition function per handler and per effect. It also models the sign button's guard, sequences of user actions (`Step`, `Run`), the invariant `Consistent` that every reachable state keeps, and lemmas over action sequences.
- `client.dfy`: class `Client.App` holds the same cells as fields. Its handlers and effects are methods that change those fields in place, and each effect is called right after the state change that triggers it. Every method's postcondition equates its new `State()` with the matching `Workflow` transition applied to the old state.

Each Web Crypto outcome is a parameter. `Some` is a resolved promise; `None` is a rejected one.

Two helpers in `workflow.dfy` give the JavaScript semantics that the transitions rely on. `Truthy` is the truthiness of `keys`, under which null and the empty string are both falsy (src/App.tsx:84, 106, 599). `GetItem` is `localStorage.getItem`, which gives null for a missing slot (src/App.tsx:43, 100).

The model follows the code in places where one might expect different behaviour:
- A rejected import or sign leaves `VCBeingSigned` true. No later action lowers it, and the sign button stays disabled for the rest of the session, even after a reset. Lemmas `SigningFlagSticks` and `FailedSigningSticks` state this. One would expect a failed signing to return to the key-ready state, with the button enabled again.
- `keys` is read from storage on the first render, before the mount effect clears storage. So a key left by an earlier session is still shown, and `generateKeypairs` is still a no-op, even though the `"key"` slot is gone (`MountKeepsStaleKey`).
- `generateKeypairs` checks the `keys` cell, not the storage slot. It also uses JavaScript truthiness, so an empty string counts as no key.
- The `"signature"` slot holds the JSON string literal of the hex text, quotes included. It does not hold the bare hex.
- `resetAll` does not touch `VCBeingSigned`.

## Model

| member | source | states |
|---|---|---|
| Hex.ToHex | src/App.tsx:69 | each byte becomes two lowercase hex digits, so the output is twice as long as the input |
| Hex.ToHexAt | src/App.tsx:69 | byte i is written at positions 2i and 2i+1, high nibble first, with the digits 0-9a-f |
| Hex.ToHexExample | src/App.tsx:69 | the bytes 0, 9, 10, 171, 255 encode as `00090aabff` |
| Hex.FromHex | src/App.tsx:69 | the reader of the hex form accepts exactly the even-length strings of lowercase digits, and yields half as many bytes |
| Hex.FromHexToHex | src/App.tsx:69 | reading back the hex form of any byte sequence returns exactly that sequence |
| Hex.ToHexFromHex | src/App.tsx:69 | every accepted hex string is the hex form of the bytes read from it, so the encoding is a bijection |
| Hex.SignatureText | src/App.tsx:66-69 | the persisted signature has length twice the signature length plus two, starts and ends with a double quote, and holds only lowercase hex digits in between, none of which JSON escapes |
| Hex.SignatureTextRoundTrip | src/App.tsx:66-69 | the stored signature text reads back to the signature bytes |
| Hex.ParseSignatureTextRoundTrip | src/App.tsx:66-69 | every text the reader accepts is the stored form of the signature it reads as |
| Hex.SignatureTextInjective | src/App.tsx:66-69 | different signatures are never stored as the same text |
| Workflow.FirstRender | src/App.tsx:43-48 | on the first render `keys` is the `"key"` slot of the storage the page found; the imported key and the signature are undefined and the signing flag is down |
| Workflow.Mount | src/App.tsx:55-57 | the mount effect empties storage and changes no state cell |
| Workflow.MountKeepsStaleKey | src/App.tsx:43-57 | after mounting, `keys` still holds the key that an earlier session stored, while the `"key"` slot is absent |
| Workflow.ResetAll | src/App.tsx:75-80 | reset leaves storage empty and `keys`, `cryptoKey` and `signedVC` absent, and it keeps `VCBeingSigned` |
| Workflow.ResetAllIdempotent | src/App.tsx:75-80 | a second reset changes nothing, and after any reset the sign button is disabled |
| Workflow.GenerateKeypairs | src/App.tsx:82-102 | a truthy `keys` or a rejected generation changes nothing; only the `"key"` slot can change, and only when both generation and export succeed; `keys` then equals the stored JWK; after a rejected export `keys` is read back from storage; the other cells are untouched |
| Workflow.KeyStableUntilReset | src/App.tsx:83-84 | once `keys` is truthy, no sequence of user actions without a reset changes it |
| Workflow.SignedVCEffect | src/App.tsx:65-73 | a present signature is stored under `"signature"` in a form that reads back to it and has length twice the signature length plus two, and the signing flag goes down; no other slot or cell changes; an absent signature changes nothing |
| Workflow.SignVC | src/App.tsx:122-134 | a resolved sign sets `signedVC`, stores its text and lowers the flag; a rejected sign changes nothing; `keys` and `cryptoKey` are untouched |
| Workflow.CryptoKeyEffect | src/App.tsx:59-63 | signing runs only when `cryptoKey` is defined; otherwise the effect changes nothing |
| Workflow.StartSignature | src/App.tsx:104-120 | the flag always goes up; nothing else changes unless `keys` is truthy and the import resolves; a resolved import sets `cryptoKey`; the flag ends down exactly when import and sign both resolve; when both resolve, `signedVC` becomes the new signature and its text is stored under `"signature"`; otherwise neither changes |
| Workflow.SigningStoresSignature | src/App.tsx:104-134 | from any state where the button starts signing, a resolved import and sign store the key and the signature, put the signature's text in storage, lower the flag, and leave the button closing the dialog |
| Workflow.CloseDialogSticksUntilReset | src/App.tsx:592-599 | once a signature exists, the button closes the dialog after any sequence of user actions that contains no reset |
| Workflow.NextButton | src/App.tsx:592-599 | the button is enabled exactly when the flag is down and `keys` is truthy; it starts signing exactly when, in addition, no signature exists |
| Workflow.PressNext | src/App.tsx:592-599 | a press that does not start signing (disabled, or closing the dialog over an existing signature) changes nothing; one that does runs `startSignature` |
| Workflow.MountIsConsistent | src/App.tsx:43-57 | whatever storage the page starts with, the mounted state satisfies the workflow invariant |
| Workflow.StepPreservesConsistent | src/App.tsx:75-134 | every user action keeps the invariant: only the two slots exist; a stored key is the `keys` cell; a signature is stored exactly when `signedVC` holds one, as its quoted hex, with the flag down and a key imported; a key is imported only while `keys` is truthy |
| Workflow.RunPreservesConsistent | src/App.tsx:75-134 | any sequence of user actions keeps the invariant |
| Workflow.SignatureOnlyFromSigning | src/App.tsx:65-73 | a signature appears in storage only after a press that started signing and whose import and sign both resolved, and it is that signature's text |
| Workflow.SigningFlagSticks | src/App.tsx:592-599 | once the signing flag is up, it stays up and the button stays disabled whatever the user does afterwards |
| Workflow.FailedSigningSticks | src/App.tsx:104-134 | after a rejected import or sign, the flag stays up and no signature is ever stored, whatever the user does afterwards |
| Workflow.HappyPath | src/App.tsx:55-134 | from storage with no key: after generation only the key is stored and signing is enabled; signing stores key and signature and the button then closes the dialog; reset empties storage and disables the button |
| Client.App.constructor | src/App.tsx:43-48 | the object starts in the first-render state |
| Client.App.OnMount | src/App.tsx:55-57 | the mount effect performs the Mount transition |
| Client.App.ResetAll | src/App.tsx:75-80 | `resetAll` performs the ResetAll transition |
| Client.App.GenerateKeypairs | src/App.tsx:82-102 | `generateKeypairs` performs the GenerateKeypairs transition; a rejected generation returns early |
| Client.App.StartSignature | src/App.tsx:104-120 | `startSignature` raises the flag, imports when `keys` is truthy and then runs the `cryptoKey` effect: the StartSignature transition |
| Client.App.OnCryptoKeyChange | src/App.tsx:59-63 | the `cryptoKey` effect performs the CryptoKeyEffect transition |
| Client.App.SignVC | src/App.tsx:122-134 | `signVC` requires an imported key (the `cryptoKey!` assertion), sets `signedVC` on success and runs its effect: the SignVC transition |
| Client.App.OnSignedVCChange | src/App.tsx:65-73 | the `signedVC` effect performs the SignedVCEffect transition |
| Client.App.PressNext | src/App.tsx:590-604 | reports the button's guard for the state before the press and performs the PressNext transition |

## Left out

- The Web Crypto primitives `generateKey`, `exportKey`, `importKey` and `sign` (ECDSA over P-384 with SHA-256) are foreign calls. Their outcomes are parameters: an opaque key pair, a JWK string, an opaque signing key, signature bytes, or `None` for a rejection. Whether a signature verifies and how long it is are properties of the cryptography and are not modelled.
- A serialized JWK is an opaque string. `JSON.parse(keys)` inside `startSignature` can throw. A throw ends the handler just as a rejected import does, so it is folded into the import outcome. Showing the `d` field of the key is rendering.
- The credential document and its serialization into the signed payload are not modelled. The signature is a parameter, so the payload never appears.
- All rendering is left out: cards, dialogs, the `openKeysDialog` and `openVCDialog` flags, and `handleClose`. `PressNext` reports a `CloseDialog` action instead of closing a dialog.
- React scheduling and promises are not modelled. Each effect is a sequential step that runs right after the state change that triggers it.
- Each successful import or sign yields a new object, so the `[cryptoKey]` and `[signedVC]` effects always see a change.
- The setters in `resetAll` also re-run those effects. With undefined values the effects do nothing, so `ResetAll` does not call them.
- Overlapping handlers are not modelled, for example a second click while a promise is pending.
- `Buffer` is replaced by `Hex.ToHex`.
- `JSON.stringify` escaping is not modelled. It is needed only for characters that lowercase hex digits never contain.
- Storage failures (quota, a disabled store) are not modelled: `setItem` always succeeds.
- `console.log` error reporting is left out.
