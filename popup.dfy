/**
  The extension popup (popup.js): the API-key format check, the masked display of a stored
  key, and the save / edit / remove flow over the stored key and the popup's controls.
  Storage, the key test against the network and the user's confirmation are parameters.
 */
module Popup {
  import opened Wrappers
  import opened JsString

  // ---------------------------------------------------------------- key format

  /** `[A-Za-z0-9_-]` */
  predicate IsKeyChar(c: char) {
    ('A' <= c <= 'Z') || ('a' <= c <= 'z') || ('0' <= c <= '9') || c == '_' || c == '-'
  }

  /** isValidApiKey: at least 20 UTF-16 code units, and `/^[A-Za-z0-9_-]+$/` matches. Key
      characters are ASCII, so for a well-formed key the code-unit length is the character count. */
  function IsValidApiKey(key: string): (ok: bool)
    ensures ok <==> |key| >= 20 && forall i :: 0 <= i < |key| ==> IsKeyChar(key[i])
  {
    var chars := forall i :: 0 <= i < |key| ==> IsKeyChar(key[i]);
    if chars then
      JsLengthOfBmp(key);
      JsLength(key) >= 20 && key != []
    else false
  }

  /** A 15-character key of valid characters is still rejected. */
  lemma ShortKeyRejected(key: string)
    requires |key| == 15
    ensures !IsValidApiKey(key)
  {
  }

  /** A valid key contains no white space, so trimming the input never changes one. */
  lemma ValidKeyIsTrimmed(key: string)
    requires IsValidApiKey(key)
    ensures Trim(key) == key
  {
    TrimOfTrimmed(key);
  }

  // ---------------------------------------------------------------- masking

  const Bullet: CodeUnit := 0x2022

  /** `n` bullets. */
  function Bullets(n: nat): (r: seq<CodeUnit>)
    ensures |r| == n && forall i :: 0 <= i < n ==> r[i] == Bullet
  {
    seq(n, _ => Bullet)
  }

  /** updateMaskedKey: the text shown for a stored key, as UTF-16 code units (`substring` and
      `length` count code units): the first and last four units around twelve bullets when the
      key is longer than 8 units, twenty bullets otherwise. */
  function MaskedKey(key: string): (shown: seq<CodeUnit>)
    ensures |shown| == 20
    ensures JsLength(key) > 8 ==> shown[..4] == Utf16(key)[..4] && shown[16..] == Utf16(key)[JsLength(key) - 4..]
    ensures JsLength(key) > 8 ==> forall i :: 4 <= i < 16 ==> shown[i] == Bullet
    ensures JsLength(key) <= 8 ==> forall i :: 0 <= i < 20 ==> shown[i] == Bullet
  {
    var units := Utf16(key);
    if |units| > 8 then units[..4] + Bullets(12) + units[|units| - 4..] else Bullets(20)
  }

  /** The mask reveals nothing but the first and last four units: keys that agree on those
      (and are longer than 8) look the same, and so do all short keys. */
  lemma MaskHidesMiddle(k1: string, k2: string)
    requires JsLength(k1) > 8 && JsLength(k2) > 8
    requires Utf16(k1)[..4] == Utf16(k2)[..4]
    requires Utf16(k1)[JsLength(k1) - 4..] == Utf16(k2)[JsLength(k2) - 4..]
    ensures MaskedKey(k1) == MaskedKey(k2)
  {
    var m1, m2 := MaskedKey(k1), MaskedKey(k2);
    assert forall i :: 0 <= i < 20 ==> m1[i] == m2[i] by {
      forall i | 0 <= i < 20
        ensures m1[i] == m2[i]
      {
        if i < 4 {
          assert m1[i] == m1[..4][i];
          assert m2[i] == m2[..4][i];
        } else if i >= 16 {
          assert m1[i] == m1[16..][i - 16];
          assert m2[i] == m2[16..][i - 16];
        }
      }
    }
  }

  lemma ShortKeysLookAlike(k1: string, k2: string)
    requires JsLength(k1) <= 8 && JsLength(k2) <= 8
    ensures MaskedKey(k1) == MaskedKey(k2)
  {
    var m1, m2 := MaskedKey(k1), MaskedKey(k2);
    assert forall i :: 0 <= i < 20 ==> m1[i] == m2[i];
  }

  // ---------------------------------------------------------------- popup state

  datatype Section = NoKeySection | KeyExistsSection

  const EmptyKeyError := "Please enter a valid API key"
  const FormatError := "Please enter a valid Gemini API key"
  const RejectedKeyError := "Invalid API key. Please check and try again."
  const SaveFailedError := "Failed to save API key. Please try again."
  const EditFailedError := "Failed to load API key for editing"
  const RemoveFailedError := "Failed to remove API key"
  const Saved := "API key saved successfully!"
  const Removed := "API key removed successfully!"
  /** The save button's label at rest and while a save is in progress. */
  const SaveLabel := "Save"
  const SavingLabel := "Saving..."

  /** The popup: the stored key (chrome.storage), the input box, which section is visible, the
      masked-key text, the save button, the one error shown, the success banners shown, and the
      keys sent to testApiKey. */
  class PopupState {
    var stored: Option<string>
    var input: string
    var section: Section
    var masked: seq<CodeUnit>
    var saveLabel: string
    var saveDisabled: bool
    var error: Option<string>
    var successes: seq<string>
    var tested: seq<string>

    /** Between handlers the button reads "Save", and the key-exists section shows the mask of the stored key. */
    ghost predicate Valid()
      reads this
    {
      saveLabel == SaveLabel
      && (section == KeyExistsSection ==> stored.Some? && masked == MaskedKey(stored.value))
    }

    /** Opening the popup: loadAPIKeyStatus with the stored key, or with a failed read (`readOk` false). */
    constructor(storedKey: Option<string>, readOk: bool)
      ensures Valid()
      ensures stored == storedKey && input == [] && !saveDisabled && error == None && successes == [] && tested == []
      ensures section == KeyExistsSection <==> readOk && storedKey.Some? && storedKey.value != []
      ensures section == KeyExistsSection ==> masked == MaskedKey(storedKey.value)
    {
      stored := storedKey;
      input := [];
      saveLabel := SaveLabel;
      saveDisabled := false;
      error := None;
      successes := [];
      tested := [];
      masked := [];
      if readOk && storedKey.Some? && storedKey.value != [] {
        section := KeyExistsSection;
        masked := MaskedKey(storedKey.value);
      } else {
        section := NoKeySection;
      }
    }

    /** The input listener: the save button is disabled exactly when the trimmed input is empty; errors are cleared. */
    method OnInput(value: string)
      requires Valid()
      modifies this`input, this`saveDisabled, this`error
      ensures Valid()
      ensures input == value && error == None
      ensures saveDisabled <==> Trim(value) == []
    {
      input := value;
      saveDisabled := JsLength(Trim(value)) == 0;
      error := None;
    }

    /** What handleSaveApiKey does, between the state before the save and the state after it.
        `testApiKey` is the network check of a key; `writeOk` says whether the storage write succeeds. */
    twostate predicate SaveOutcome(testApiKey: string -> bool, writeOk: bool)
      reads this
    {
      var key := Trim(old(input));
      // an empty or malformed key: an error, no network call, nothing else changes
      && (key == [] ==> error == Some(EmptyKeyError))
      && (key != [] && !IsValidApiKey(key) ==> error == Some(FormatError))
      && (!IsValidApiKey(key) ==>
            tested == old(tested) && stored == old(stored) && input == old(input) && section == old(section)
            && masked == old(masked) && saveDisabled == old(saveDisabled) && successes == old(successes))
      // a well-formed key is tested once, and the button ends enabled
      && (IsValidApiKey(key) ==> tested == old(tested) + [key] && !saveDisabled)
      // rejected by the test or not written: an error, nothing stored
      && (IsValidApiKey(key) && !testApiKey(key) ==> error == Some(RejectedKeyError))
      && (IsValidApiKey(key) && testApiKey(key) && !writeOk ==> error == Some(SaveFailedError))
      && (!(IsValidApiKey(key) && testApiKey(key) && writeOk) ==>
            stored == old(stored) && input == old(input) && section == old(section) && masked == old(masked)
            && successes == old(successes))
      // accepted and written: stored trimmed, input cleared, mask and key-exists section shown
      && (IsValidApiKey(key) && testApiKey(key) && writeOk ==>
            stored == Some(key) && input == [] && section == KeyExistsSection
            && masked == MaskedKey(key) && successes == old(successes) + [Saved] && error == old(error))
    }

    /** handleSaveApiKey: validate the trimmed input, test it, store it. */
    method HandleSaveApiKey(testApiKey: string -> bool, writeOk: bool)
      requires Valid()
      modifies this
      ensures Valid()
      ensures SaveOutcome(testApiKey, writeOk)
    {
      var key := Trim(input);
      if JsLength(key) == 0 {
        error := Some(EmptyKeyError);
        return;
      }
      if !IsValidApiKey(key) {
        error := Some(FormatError);
        return;
      }
      Submit(key, testApiKey, writeOk);
    }

    /** The part of handleSaveApiKey after validation: test the well-formed `key`, store it, and
        restore the button. */
    method Submit(key: string, testApiKey: string -> bool, writeOk: bool)
      requires Valid()
      modifies this
      ensures Valid()
      ensures tested == old(tested) + [key] && !saveDisabled
      ensures !testApiKey(key) ==> error == Some(RejectedKeyError)
      ensures testApiKey(key) && !writeOk ==> error == Some(SaveFailedError)
      ensures !(testApiKey(key) && writeOk) ==>
        stored == old(stored) && input == old(input) && section == old(section) && masked == old(masked)
        && successes == old(successes)
      ensures testApiKey(key) && writeOk ==>
        stored == Some(key) && input == [] && section == KeyExistsSection
        && masked == MaskedKey(key) && successes == old(successes) + [Saved] && error == old(error)
    {
      saveLabel := SavingLabel;
      saveDisabled := true;
      tested := tested + [key];
      var isValid := testApiKey(key);
      if !isValid {
        error := Some(RejectedKeyError);
      } else if !writeOk {
        error := Some(SaveFailedError);
      } else {
        stored := Some(key);
        input := [];
        masked := MaskedKey(key);
        section := KeyExistsSection;
        successes := successes + [Saved];
      }
      saveLabel := SaveLabel;
      saveDisabled := false;
    }

    /** The keypress listener: Enter saves, any other key does nothing. */
    method OnKeyPress(pressed: string, testApiKey: string -> bool, writeOk: bool)
      requires Valid()
      modifies this
      ensures Valid()
      ensures pressed == "Enter" ==> SaveOutcome(testApiKey, writeOk)
      ensures pressed != "Enter" ==> unchanged(this)
    {
      if pressed == "Enter" {
        HandleSaveApiKey(testApiKey, writeOk);
      }
    }

    /** handleEditApiKey: put the stored key (or "") in the input and show the entry section; a failed read shows an error. */
    method HandleEditApiKey(readOk: bool)
      requires Valid()
      modifies this`input, this`section, this`error
      ensures Valid()
      ensures readOk ==> input == stored.GetOr([]) && section == NoKeySection && error == old(error)
      ensures !readOk ==> input == old(input) && section == old(section) && error == Some(EditFailedError)
    {
      if readOk {
        input := stored.GetOr([]);
        section := NoKeySection;
      } else {
        error := Some(EditFailedError);
      }
    }

    /** handleRemoveApiKey: nothing unless the user confirms; then remove the key and show the entry section. */
    method HandleRemoveApiKey(confirmed: bool, removeOk: bool)
      requires Valid()
      modifies this`stored, this`section, this`successes, this`error
      ensures Valid()
      ensures !confirmed ==> stored == old(stored) && section == old(section) && successes == old(successes) && error == old(error)
      ensures confirmed && removeOk ==>
        stored == None && section == NoKeySection && successes == old(successes) + [Removed] && error == old(error)
      ensures confirmed && !removeOk ==>
        stored == old(stored) && section == old(section) && successes == old(successes) && error == Some(RemoveFailedError)
    {
      if !confirmed {
        return;
      }
      if removeOk {
        stored := None;
        section := NoKeySection;
        successes := successes + [Removed];
      } else {
        error := Some(RemoveFailedError);
      }
    }
  }
}
