/** src/utils/ValentineContext.tsx: the provider's state, the outer
    decryption of a link when the page loads, and the passcode tier. */
module Context {
  import opened Wrappers
  import opened Crypto
  import opened Config
  import Dates
  import opened Base64

  /** `window.location.hash.slice(1)`: the text after the leading `#`. */
  function Fragment(hash: string): (k: string)
    ensures |k| == if hash == "" then 0 else |hash| - 1
  {
    if hash == "" then "" else hash[1..]
  }

  /** The load effect tries the outer decryption only when `d`, `iv` and the
      fragment are all present and non-empty. */
  predicate HasLink(d: Option<string>, iv: Option<string>, hash: string)
    ensures HasLink(d, iv, hash) ==> d.Some? && d.value != "" && iv.Some? && iv.value != "" && |hash| >= 2
  {
    Truthy(d) && Truthy(iv) && Fragment(hash) != ""
  }

  /** The outer decryption: the master key from the fragment, then the
      configuration under it; `None` where `importKey` or `decryptData` throws
      or the decrypted value is falsy. */
  function OuterDecrypt(p: Platform, j: Json<ValentineConfig>, d: string, iv: string, fragment: string): (r: Option<ValentineConfig>)
    ensures ImportKey(fragment).None? ==> r.None?
    ensures r.Some? ==> DecodeUrl(d).Some? && DecodeUrl(iv).Some?
  {
    match ImportKey(fragment)
    case None => None
    case Some(key) => DecryptData(p, j, d, iv, key)
  }

  /** A link made from a configuration, a master key and a fresh IV opens to that configuration. */
  lemma OuterDecryptOfLink(p: Platform, j: Json<ValentineConfig>, config: ValentineConfig, key: CryptoKey, iv: seq<byte>)
    requires |iv| == IvLength && ValidAesKeyLength(|key.raw|)
    requires AeadCorrect(p) && Utf8RoundTrip(p) && JsonRoundTrip(j)
    ensures var e := EncryptData(p, j, config, key, iv);
            OuterDecrypt(p, j, e.ciphertext, e.iv, ExportKey(key)) == Some(config)
  {
    ImportExportedKey(key);
    EncryptDecrypt(p, j, config, key, iv);
  }

  /** The passcode tier opened: both inner envelopes decrypted under the key
      derived from the passcode and the salt, merged into the configuration;
      `None` where a field is missing or either decryption fails. */
  function PasscodeUnlock(p: Platform, jn: Json<seq<Note>>, jv: Json<string>, config: ValentineConfig, passcode: string): (r: Option<ValentineConfig>)
    ensures r.Some? <==>
              Truthy(config.passcodeSalt) && config.encryptedNotes.Some? && config.encryptedVideo.Some? &&
              var key := DeriveKeyFromPasscode(p, passcode, config.passcodeSalt.value);
              var en, ev := config.encryptedNotes.value, config.encryptedVideo.value;
              DecryptData(p, jn, en.ciphertext, en.iv, key).Some? && DecryptData(p, jv, ev.ciphertext, ev.iv, key).Some?
    ensures r.Some? ==>
              var key := DeriveKeyFromPasscode(p, passcode, config.passcodeSalt.value);
              var en, ev := config.encryptedNotes.value, config.encryptedVideo.value;
              r.value == config.(notes := DecryptData(p, jn, en.ciphertext, en.iv, key).value,
                                 videoUrl := Some(DecryptData(p, jv, ev.ciphertext, ev.iv, key).value))
  {
    if !Truthy(config.passcodeSalt) || config.encryptedNotes.None? || config.encryptedVideo.None? then None
    else
      var key := DeriveKeyFromPasscode(p, passcode, config.passcodeSalt.value);
      var en, ev := config.encryptedNotes.value, config.encryptedVideo.value;
      match DecryptData(p, jn, en.ciphertext, en.iv, key)
      case None => None
      case Some(notes) =>
        match DecryptData(p, jv, ev.ciphertext, ev.iv, key)
        case None => None
        case Some(video) => Some(config.(notes := notes, videoUrl := Some(video)))
  }

  /** When the inner envelopes were made under the key derived from the
      passcode and the salt, that passcode recovers exactly those notes and that video. */
  lemma PasscodeUnlockOfTier(p: Platform, jn: Json<seq<Note>>, jv: Json<string>, config: ValentineConfig,
                             passcode: string, notes: seq<Note>, video: string, iv1: seq<byte>, iv2: seq<byte>)
    requires |iv1| == IvLength && |iv2| == IvLength && Truthy(config.passcodeSalt)
    requires AeadCorrect(p) && Utf8RoundTrip(p) && JsonRoundTrip(jn) && JsonRoundTrip(jv)
    requires var key := DeriveKeyFromPasscode(p, passcode, config.passcodeSalt.value);
             config.encryptedNotes == Some(EncryptData(p, jn, notes, key, iv1)) &&
             config.encryptedVideo == Some(EncryptData(p, jv, video, key, iv2))
    ensures PasscodeUnlock(p, jn, jv, config, passcode) == Some(config.(notes := notes, videoUrl := Some(video)))
  {
    var key := DeriveKeyFromPasscode(p, passcode, config.passcodeSalt.value);
    EncryptDecrypt(p, jn, notes, key, iv1);
    EncryptDecrypt(p, jv, video, key, iv2);
  }

  /** `ValentineProvider`: `config`, `isWizardMode` and `isLocked` are its
      state; `clock` is the module-level anniversary date it writes. */
  class ValentineProvider {
    var config: Option<ValentineConfig>
    var isWizardMode: bool
    var isLocked: bool
    const clock: Dates.AnniversaryClock

    constructor (clock: Dates.AnniversaryClock)
      ensures config == None && !isWizardMode && !isLocked && this.clock == clock
    {
      config := None;
      isWizardMode := false;
      isLocked := false;
      this.clock := clock;
    }

    /** `setPreviewConfig`: replaces the configuration; the anniversary date
      follows only a non-null one. */
    method SetPreviewConfig(newConfig: Option<ValentineConfig>)
      modifies this, clock
      ensures config == newConfig
      ensures clock.date == if newConfig.Some? then newConfig.value.anniversaryDate else old(clock.date)
      ensures isWizardMode == old(isWizardMode) && isLocked == old(isLocked)
    {
      config := newConfig;
      if newConfig.Some? {
        clock.SetAnniversaryDate(newConfig.value.anniversaryDate);
      }
    }

    /** The load effect, run once on a fresh provider.  With a complete link
      it decrypts, and on success stores the configuration, its anniversary
      date, and `isLocked` exactly when it has a passcode salt; a failure
      changes nothing.  Without a link, wizard mode is set on `/wizard`. */
    method Mount(p: Platform, j: Json<ValentineConfig>, d: Option<string>, iv: Option<string>, hash: string, pathname: string)
      requires config == None && !isWizardMode && !isLocked
      modifies this, clock
      ensures HasLink(d, iv, hash) ==> !isWizardMode && config == OuterDecrypt(p, j, d.value, iv.value, Fragment(hash))
      ensures !HasLink(d, iv, hash) ==> config == None && (isWizardMode <==> pathname == "/wizard")
      ensures isLocked <==> config.Some? && Truthy(config.value.passcodeSalt)
      ensures clock.date == if config.Some? then config.value.anniversaryDate else old(clock.date)
    {
      if Truthy(d) && Truthy(iv) && Fragment(hash) != "" {
        var key := ImportKey(Fragment(hash));
        if key.None? {
          return;
        }
        var decrypted := DecryptData(p, j, d.value, iv.value, key.value);
        if decrypted.Some? {
          config := decrypted;
          clock.SetAnniversaryDate(decrypted.value.anniversaryDate);
          if Truthy(decrypted.value.passcodeSalt) {
            isLocked := true;
          }
        }
        return;
      }
      if pathname == "/wizard" {
        isWizardMode := true;
      }
    }

    /** `decryptWithPasscode`: false and no change without a configuration
      with a passcode salt, or when anything fails; otherwise the notes and
      the video are replaced together, the tier is unlocked, and the result is true. */
    method DecryptWithPasscode(p: Platform, jn: Json<seq<Note>>, jv: Json<string>, passcode: string) returns (ok: bool)
      modifies this
      ensures old(config).None? ==> !ok
      ensures ok <==> old(config).Some? && PasscodeUnlock(p, jn, jv, old(config).value, passcode).Some?
      ensures ok ==> config == PasscodeUnlock(p, jn, jv, old(config).value, passcode) && !isLocked
      ensures !ok ==> config == old(config) && isLocked == old(isLocked)
      ensures isWizardMode == old(isWizardMode)
    {
      if config.None? || !Truthy(config.value.passcodeSalt) {
        return false;
      }
      var current := config.value;
      var key := DeriveKeyFromPasscode(p, passcode, current.passcodeSalt.value);
      if current.encryptedNotes.None? {
        return false;
      }
      var notes := DecryptData(p, jn, current.encryptedNotes.value.ciphertext, current.encryptedNotes.value.iv, key);
      if notes.None? {
        return false;
      }
      if current.encryptedVideo.None? {
        return false;
      }
      var video := DecryptData(p, jv, current.encryptedVideo.value.ciphertext, current.encryptedVideo.value.iv, key);
      if video.None? {
        return false;
      }
      config := Some(current.(notes := notes.value, videoUrl := Some(video.value)));
      isLocked := false;
      return true;
    }
  }
}
