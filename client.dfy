/** The `App` component as an object whose handlers and effects update its
    state cells and the local storage in place. Every method is proved to
    perform exactly the transition that Workflow states for it. */
module Client {
  import opened Wrappers
  import Hex
  import Workflow

  class App {
    var store: map<string, string>
    var keys: Option<Workflow.Jwk>
    var cryptoKey: Option<Workflow.SigningKey>
    var signedVC: Option<seq<Hex.byte>>
    var vcBeingSigned: bool

    /** The component's state as a value. */
    function State(): Workflow.AppState
      reads this
    {
      Workflow.AppState(store, keys, cryptoKey, signedVC, vcBeingSigned)
    }

    /** The first render, over whatever storage a previous session left. */
    constructor (initialStore: map<string, string>)
      ensures State() == Workflow.FirstRender(initialStore)
    {
      store := initialStore;
      keys := Workflow.GetItem(initialStore, Workflow.KeySlot);
      cryptoKey := None;
      signedVC := None;
      vcBeingSigned := false;
    }

    method OnMount()
      modifies this
      ensures State() == Workflow.Mount(old(State()))
    {
      store := map[];
    }

    method ResetAll()
      modifies this
      ensures State() == Workflow.ResetAll(old(State()))
    {
      store := map[];
      signedVC := None;
      keys := None;
      cryptoKey := None;
    }

    method GenerateKeypairs(generated: Option<Workflow.KeyPair>, exported: Option<Workflow.Jwk>)
      modifies this
      ensures State() == Workflow.GenerateKeypairs(old(State()), generated, exported)
    {
      if !Workflow.Truthy(keys) {
        if generated.None? {
          return;
        }
        if exported.Some? {
          store := store[Workflow.KeySlot := exported.value];
        }
        keys := Workflow.GetItem(store, Workflow.KeySlot);
      }
    }

    method StartSignature(imported: Option<Workflow.SigningKey>, signature: Option<seq<Hex.byte>>)
      modifies this
      ensures State() == Workflow.StartSignature(old(State()), imported, signature)
    {
      vcBeingSigned := true;
      if Workflow.Truthy(keys) && imported.Some? {
        cryptoKey := imported;
        OnCryptoKeyChange(signature);
      }
    }

    /** The effect that runs after `cryptoKey` changes. */
    method OnCryptoKeyChange(signature: Option<seq<Hex.byte>>)
      modifies this
      ensures State() == Workflow.CryptoKeyEffect(old(State()), signature)
    {
      if cryptoKey.Some? {
        SignVC(signature);
      }
    }

    method SignVC(signature: Option<seq<Hex.byte>>)
      requires cryptoKey.Some?
      modifies this
      ensures State() == Workflow.SignVC(old(State()), signature)
    {
      if signature.Some? {
        signedVC := signature;
        OnSignedVCChange();
      }
    }

    /** The effect that runs after `signedVC` changes. */
    method OnSignedVCChange()
      modifies this
      ensures State() == Workflow.SignedVCEffect(old(State()))
    {
      if signedVC.Some? {
        store := store[Workflow.SignatureSlot := Hex.SignatureText(signedVC.value)];
        vcBeingSigned := false;
      }
    }

    /** A press on the sign dialog's button; reports what the press did. */
    method PressNext(imported: Option<Workflow.SigningKey>, signature: Option<seq<Hex.byte>>)
      returns (action: Workflow.ButtonAction)
      modifies this
      ensures action == Workflow.NextButton(old(State()))
      ensures State() == Workflow.PressNext(old(State()), imported, signature)
    {
      if vcBeingSigned || !Workflow.Truthy(keys) {
        action := Workflow.Disabled;
      } else if signedVC.Some? {
        action := Workflow.CloseDialog;
      } else {
        action := Workflow.StartSigning;
        StartSignature(imported, signature);
      }
    }
  }
}
