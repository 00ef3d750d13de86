/** The key-lifecycle and signing state machine of the `App` component, as
    pure transitions on a snapshot of its state: the four React state cells
    and the browser's local storage. Every outcome of the Web Crypto API is a
    parameter: `Some` for a resolved promise, `None` for a rejected one. Each
    effect runs as an explicit step right after the state change that
    triggers it. */
module Workflow {
  import opened Wrappers
  import opened Hex

  /** A private key exported as JWK and serialized with JSON.stringify; opaque here. */
  type Jwk = string

  /** The key pair that `generateKey` resolves with. Only whether generation
      resolved matters here, since the exported JWK is a separate outcome. */
  datatype KeyPair = KeyPair(id: nat)

  /** The sign-only CryptoKey that `importKey` resolves with. */
  datatype SigningKey = SigningKey(id: nat)

  const KeySlot: string := "key"
  const SignatureSlot: string := "signature"

  /** `keys` and `localStorage` are strings or null; `cryptoKey` and `signedVC` are
      objects or undefined; `VCBeingSigned` is a flag. */
  datatype AppState = AppState(
    store: map<string, string>,
    keys: Option<Jwk>,
    cryptoKey: Option<SigningKey>,
    signedVC: Option<seq<byte>>,
    vcBeingSigned: bool)

  /** JavaScript truthiness of `keys`: null and the empty string are both falsy. */
  predicate Truthy(keys: Option<Jwk>) {
    keys.Some? && keys.value != ""
  }

  /** `localStorage.getItem(slot)`. */
  function GetItem(store: map<string, string>, slot: string): Option<string> {
    if slot in store then Some(store[slot]) else None
  }

  /** The first render: `keys` is read from storage, the other cells start empty. */
  function FirstRender(store: map<string, string>): (s: AppState)
    ensures s.store == store && s.keys == GetItem(store, KeySlot)
    ensures s.cryptoKey.None? && s.signedVC.None? && !s.vcBeingSigned
  {
    AppState(store, GetItem(store, KeySlot), None, None, false)
  }

  /** The mount effect: it clears storage and touches no state cell. */
  function Mount(s: AppState): (r: AppState)
    ensures r.store == map[]
    ensures r.keys == s.keys && r.cryptoKey == s.cryptoKey
    ensures r.signedVC == s.signedVC && r.vcBeingSigned == s.vcBeingSigned
  {
    s.(store := map[])
  }

  /** `resetAll`: storage cleared and the signature, key and imported key
      dropped; the signing flag is left as it was. */
  function ResetAll(s: AppState): (r: AppState)
    ensures r.store == map[]
    ensures r.keys.None? && r.cryptoKey.None? && r.signedVC.None?
    ensures r.vcBeingSigned == s.vcBeingSigned
  {
    s.(store := map[], signedVC := None, keys := None, cryptoKey := None)
  }

  /** `generateKeypairs`. A truthy `keys` makes it a no-op. A rejected
      `generateKey` ends the handler. A rejected `exportKey` is logged and
      `keys` is then read back from storage all the same. */
  function GenerateKeypairs(s: AppState, generated: Option<KeyPair>, exported: Option<Jwk>): (r: AppState)
    ensures Truthy(s.keys) ==> r == s
    ensures generated.None? ==> r == s
    ensures r.cryptoKey == s.cryptoKey && r.signedVC == s.signedVC && r.vcBeingSigned == s.vcBeingSigned
    ensures r.store - {KeySlot} == s.store - {KeySlot}
    ensures GetItem(r.store, KeySlot) != GetItem(s.store, KeySlot) ==>
              !Truthy(s.keys) && generated.Some? && exported.Some?
    ensures !Truthy(s.keys) && generated.Some? ==> r.keys == GetItem(r.store, KeySlot)
    ensures !Truthy(s.keys) && generated.Some? && exported.Some? ==>
              KeySlot in r.store && r.store[KeySlot] == exported.value && r.keys == Some(exported.value)
  {
    if Truthy(s.keys) || generated.None? then s
    else
      var store := if exported.Some? then s.store[KeySlot := exported.value] else s.store;
      s.(store := store, keys := GetItem(store, KeySlot))
  }

  /** The effect on `signedVC`: once a signature is present it is persisted and
      the signing flag is lowered. An ArrayBuffer is truthy even when empty. */
  function SignedVCEffect(s: AppState): (r: AppState)
    ensures s.signedVC.None? ==> r == s
    ensures s.signedVC.Some? ==>
              SignatureSlot in r.store && ParseSignatureText(r.store[SignatureSlot]) == s.signedVC &&
              |r.store[SignatureSlot]| == 2 * |s.signedVC.value| + 2 && !r.vcBeingSigned
    ensures r.store - {SignatureSlot} == s.store - {SignatureSlot}
    ensures r.keys == s.keys && r.cryptoKey == s.cryptoKey && r.signedVC == s.signedVC
  {
    if s.signedVC.Some? then
      SignatureTextRoundTrip(s.signedVC.value);
      s.(store := s.store[SignatureSlot := SignatureText(s.signedVC.value)], vcBeingSigned := false)
    else s
  }

  /** `signVC`: it needs an imported key (`cryptoKey!`). A signature is stored in
      `signedVC`, whose effect then runs; a rejection is only logged. */
  function SignVC(s: AppState, signature: Option<seq<byte>>): (r: AppState)
    requires s.cryptoKey.Some?
    ensures signature.None? ==> r == s
    ensures signature.Some? ==>
              r.signedVC == signature && !r.vcBeingSigned &&
              r.store == s.store[SignatureSlot := SignatureText(signature.value)]
    ensures r.keys == s.keys && r.cryptoKey == s.cryptoKey
  {
    if signature.Some? then SignedVCEffect(s.(signedVC := signature)) else s
  }

  /** The effect on `cryptoKey`: it signs only once a key has been imported. */
  function CryptoKeyEffect(s: AppState, signature: Option<seq<byte>>): (r: AppState)
    ensures s.cryptoKey.None? ==> r == s
    ensures s.cryptoKey.Some? ==> r == SignVC(s, signature)
  {
    if s.cryptoKey.Some? then SignVC(s, signature) else s
  }

  /** `startSignature`. It raises the signing flag first. It imports only when
      `keys` is truthy. A resolved import sets `cryptoKey`, whose effect signs. */
  function StartSignature(s: AppState, imported: Option<SigningKey>, signature: Option<seq<byte>>): (r: AppState)
    ensures r.keys == s.keys
    ensures !Truthy(s.keys) || imported.None? ==> r == s.(vcBeingSigned := true)
    ensures Truthy(s.keys) && imported.Some? ==> r.cryptoKey == imported
    ensures r.vcBeingSigned <==> !(Truthy(s.keys) && imported.Some? && signature.Some?)
    ensures Truthy(s.keys) && imported.Some? && signature.Some? ==>
              r.signedVC == signature && r.store == s.store[SignatureSlot := SignatureText(signature.value)]
    ensures r.signedVC != s.signedVC || r.store != s.store ==>
              Truthy(s.keys) && imported.Some? && signature.Some? && r.signedVC == signature &&
              r.store == s.store[SignatureSlot := SignatureText(signature.value)]
  {
    var raised := s.(vcBeingSigned := true);
    if Truthy(s.keys) && imported.Some? then CryptoKeyEffect(raised.(cryptoKey := imported), signature)
    else raised
  }

  /** What pressing the sign dialog's button does. */
  datatype ButtonAction = Disabled | CloseDialog | StartSigning

  /** The button is disabled while signing or without a truthy `keys`; once a
      signature exists it closes the dialog instead of signing again. */
  function NextButton(s: AppState): (a: ButtonAction)
    ensures a != Disabled <==> !s.vcBeingSigned && Truthy(s.keys)
    ensures a == StartSigning <==> !s.vcBeingSigned && Truthy(s.keys) && s.signedVC.None?
  {
    if s.vcBeingSigned || !Truthy(s.keys) then Disabled
    else if s.signedVC.Some? then CloseDialog
    else StartSigning
  }

  /** Pressing the sign dialog's button. */
  function PressNext(s: AppState, imported: Option<SigningKey>, signature: Option<seq<byte>>): (r: AppState)
    ensures NextButton(s) != StartSigning ==> r == s
    ensures NextButton(s) == StartSigning ==> r == StartSignature(s, imported, signature)
  {
    if NextButton(s) == StartSigning then StartSignature(s, imported, signature) else s
  }

  /** The three things a user can do once the page is mounted, each with the
      outcomes of the crypto calls it makes. */
  datatype UserAction =
    | Generate(generated: Option<KeyPair>, exported: Option<Jwk>)
    | Next(imported: Option<SigningKey>, signature: Option<seq<byte>>)
    | Reset

  function Step(s: AppState, a: UserAction): AppState {
    match a
    case Generate(generated, exported) => GenerateKeypairs(s, generated, exported)
    case Next(imported, signature) => PressNext(s, imported, signature)
    case Reset => ResetAll(s)
  }

  function Run(s: AppState, actions: seq<UserAction>): AppState
    decreases |actions|
  {
    if actions == [] then s else Run(Step(s, actions[0]), actions[1..])
  }

  /** What holds of every state reachable after mounting: storage has only the
      two slots; a stored key is the `keys` cell; a signature is stored exactly
      when `signedVC` holds one, and then in its quoted hex form, with the
      signing flag down and an imported key behind it; a key is imported only
      while `keys` is truthy. */
  ghost predicate Consistent(s: AppState) {
    && s.store.Keys <= {KeySlot, SignatureSlot}
    && (KeySlot in s.store ==> s.keys == Some(s.store[KeySlot]))
    && (SignatureSlot in s.store <==> s.signedVC.Some?)
    && (s.signedVC.Some? ==>
          s.store[SignatureSlot] == SignatureText(s.signedVC.value) && !s.vcBeingSigned && s.cryptoKey.Some?)
    && (s.cryptoKey.Some? ==> Truthy(s.keys))
  }

  lemma MountIsConsistent(store: map<string, string>)
    ensures Consistent(Mount(FirstRender(store)))
  {
  }

  lemma StepPreservesConsistent(s: AppState, a: UserAction)
    requires Consistent(s)
    ensures Consistent(Step(s, a))
  {
  }

  lemma {:induction false} RunPreservesConsistent(s: AppState, actions: seq<UserAction>)
    requires Consistent(s)
    ensures Consistent(Run(s, actions))
    decreases |actions|
  {
    if actions != [] {
      StepPreservesConsistent(s, actions[0]);
      RunPreservesConsistent(Step(s, actions[0]), actions[1..]);
    }
  }

  /** Mounting clears storage but keeps the `keys` read on the first render. */
  lemma MountKeepsStaleKey(store: map<string, string>)
    ensures var s := Mount(FirstRender(store));
            s.keys == GetItem(store, KeySlot) && KeySlot !in s.store
  {
  }

  lemma ResetAllIdempotent(s: AppState)
    ensures ResetAll(ResetAll(s)) == ResetAll(s)
    ensures NextButton(ResetAll(s)) == Disabled
  {
  }

  /** Once `keys` is truthy, no user action but a reset replaces it. */
  lemma {:induction false} KeyStableUntilReset(s: AppState, actions: seq<UserAction>)
    requires Truthy(s.keys)
    requires forall i :: 0 <= i < |actions| ==> !actions[i].Reset?
    ensures Run(s, actions).keys == s.keys
    decreases |actions|
  {
    if actions != [] {
      KeyStableUntilReset(Step(s, actions[0]), actions[1..]);
    }
  }

  /** From any state where the button starts signing, a resolved import and
      sign store that signature, lower the flag and turn the button into one
      that closes the dialog. */
  lemma SigningStoresSignature(s: AppState, key: SigningKey, sig: seq<byte>)
    requires NextButton(s) == StartSigning
    ensures var r := PressNext(s, Some(key), Some(sig));
            && r.signedVC == Some(sig) && r.cryptoKey == Some(key)
            && r.store == s.store[SignatureSlot := SignatureText(sig)]
            && !r.vcBeingSigned && NextButton(r) == CloseDialog
  {
  }

  /** Once a signature exists, the button closes the dialog until a reset. */
  lemma {:induction false} CloseDialogSticksUntilReset(s: AppState, actions: seq<UserAction>)
    requires Consistent(s) && NextButton(s) == CloseDialog
    requires forall i :: 0 <= i < |actions| ==> !actions[i].Reset?
    ensures NextButton(Run(s, actions)) == CloseDialog
    decreases |actions|
  {
    if actions != [] {
      StepPreservesConsistent(s, actions[0]);
      CloseDialogSticksUntilReset(Step(s, actions[0]), actions[1..]);
    }
  }

  /** Storage gains a signature only from a pressed button whose import and sign both resolved. */
  lemma SignatureOnlyFromSigning(s: AppState, a: UserAction)
    requires SignatureSlot !in s.store
    requires SignatureSlot in Step(s, a).store
    ensures a.Next? && NextButton(s) == StartSigning && a.imported.Some? && a.signature.Some?
    ensures Step(s, a).store[SignatureSlot] == SignatureText(a.signature.value)
  {
  }

  /** Nothing lowers the signing flag but a completed sign, and the button that
      starts one is disabled while the flag is up: once raised and not lowered
      by a signature, it stays up and the button stays disabled whatever the
      user does. */
  lemma {:induction false} SigningFlagSticks(s: AppState, actions: seq<UserAction>)
    requires s.vcBeingSigned
    ensures Run(s, actions).vcBeingSigned
    ensures NextButton(Run(s, actions)) == Disabled
    decreases |actions|
  {
    if actions != [] {
      SigningFlagSticks(Step(s, actions[0]), actions[1..]);
    }
  }

  /** A rejected import, or a rejected sign, leaves the flag up for good and no
      signature is ever stored afterwards. */
  lemma FailedSigningSticks(s: AppState, imported: Option<SigningKey>, signature: Option<seq<byte>>,
                            actions: seq<UserAction>)
    requires Consistent(s)
    requires NextButton(s) == StartSigning
    requires imported.None? || signature.None?
    ensures var r := Run(PressNext(s, imported, signature), actions);
            r.vcBeingSigned && SignatureSlot !in r.store
  {
    var t := PressNext(s, imported, signature);
    StepPreservesConsistent(s, Next(imported, signature));
    SigningFlagSticks(t, actions);
    RunPreservesConsistent(t, actions);
  }

  /** The intended session: generate, sign, then reset. */
  lemma HappyPath(store: map<string, string>, pair: KeyPair, jwk: Jwk, key: SigningKey, sig: seq<byte>)
    requires KeySlot !in store && jwk != ""
    ensures var s0 := Mount(FirstRender(store));
            var s1 := Step(s0, Generate(Some(pair), Some(jwk)));
            var s2 := Step(s1, Next(Some(key), Some(sig)));
            var s3 := Step(s2, Reset);
            && s1.store == map[KeySlot := jwk] && NextButton(s1) == StartSigning
            && s2.store == map[KeySlot := jwk, SignatureSlot := SignatureText(sig)]
            && !s2.vcBeingSigned && NextButton(s2) == CloseDialog
            && s3.store == map[] && NextButton(s3) == Disabled
  {
  }
}
