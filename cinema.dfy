/** src/components/SecretCinema.tsx: a second passcode gate, compared in
    the clear with `config.passcode`, in front of a soundtrack and a video. */
module Cinema {
  import opened Wrappers
  import opened Text
  import opened Config
  import opened Passcode

  const DefaultVideo := "https://assets.mixkit.io/videos/preview/mixkit-heart-shaped-balloons-floating-in-the-sky-4288-large.mp4"

  /** The storage key of the unlock flag; with no configuration the template
      literal writes `undefined`. */
  function UnlockKey(config: Option<ValentineConfig>): (key: string)
    ensures |key| >= 23 && key[..23] == "secret_cinema_unlocked_"
    ensures config.Some? ==> key[23..] == config.value.passcode
    ensures config.None? ==> key[23..] == "undefined"
  {
    "secret_cinema_unlocked_" + (if config.Some? then config.value.passcode else "undefined")
  }

  /** Two configurations share an unlock flag only when they share a passcode. */
  lemma UnlockKeyInjective(a: ValentineConfig, b: ValentineConfig)
    requires UnlockKey(Some(a)) == UnlockKey(Some(b))
    ensures a.passcode == b.passcode
  {
    assert UnlockKey(Some(a))[23..] == UnlockKey(Some(b))[23..];
  }

  function DayTrack(config: ValentineConfig, key: string): (id: Option<string>)
    ensures id.Some? <==> key in config.spotifyTracks.byDay
    ensures id.Some? ==> id.value == config.spotifyTracks.byDay[key]
  {
    if key in config.spotifyTracks.byDay then Some(config.spotifyTracks.byDay[key]) else None
  }

  class SecretCinema {
    var passcode: seq<string>
    var isUnlocked: bool
    var error: bool
    var showCinema: bool
    var selectedTrack: Option<string>

    constructor ()
      ensures passcode == Blank && !isUnlocked && !error && !showCinema && selectedTrack == Some("")
    {
      passcode := Blank;
      isUnlocked := false;
      error := false;
      showCinema := false;
      selectedTrack := Some("");
    }

    /** The two effects on `config`: the first track is selected, and a
        stored flag for this passcode restores the unlock. */
    method OnConfigChange(config: Option<ValentineConfig>, storage: map<string, string>)
      modifies this
      ensures selectedTrack == if config.Some? then DayTrack(config.value, "day12") else old(selectedTrack)
      ensures isUnlocked == (old(isUnlocked) || StoredTrue(storage, UnlockKey(config)))
      ensures passcode == old(passcode) && error == old(error) && showCinema == old(showCinema)
    {
      if config.Some? {
        selectedTrack := DayTrack(config.value, "day12");
      }
      if StoredTrue(storage, UnlockKey(config)) {
        isUnlocked := true;
      }
    }

    /** `handleInput`, as on the lock screen. */
    method HandleInput(index: nat, value: string)
      requires index < |passcode|
      modifies this
      ensures EnterDigit(old(passcode), index, value).None? ==> passcode == old(passcode) && error == old(error)
      ensures EnterDigit(old(passcode), index, value).Some? ==> passcode == EnterDigit(old(passcode), index, value).value && !error
      ensures isUnlocked == old(isUnlocked)
    {
      var entered := EnterDigit(passcode, index, value);
      if entered.None? {
        return;
      }
      passcode := entered.value;
      error := false;
    }

    /** `checkPasscode`: the joined digits against `config.passcode`; a match
        unlocks and persists the flag, a mismatch clears the buffer and raises
        the error. */
    method CheckPasscode(config: Option<ValentineConfig>, storage: map<string, string>) returns (stored: map<string, string>)
      modifies this
      ensures config.None? ==> stored == storage && passcode == old(passcode) && isUnlocked == old(isUnlocked) && error == old(error)
      ensures config.Some? && Joined(old(passcode)) == config.value.passcode ==>
                isUnlocked && stored == storage[UnlockKey(config) := "true"] && passcode == old(passcode) && error == old(error)
      ensures config.Some? && Joined(old(passcode)) != config.value.passcode ==>
                isUnlocked == old(isUnlocked) && error && passcode == Blank && stored == storage
      ensures showCinema == old(showCinema) && selectedTrack == old(selectedTrack)
    {
      stored := storage;
      if config.None? {
        return;
      }
      var enteredCode := Joined(passcode);
      if enteredCode == config.value.passcode {
        isUnlocked := true;
        stored := storage[UnlockKey(config) := "true"];
      } else {
        error := true;
        passcode := Blank;
      }
    }

    /** The effect on `passcode`: a complete buffer is checked. */
    method OnPasscodeChange(config: Option<ValentineConfig>, storage: map<string, string>) returns (stored: map<string, string>)
      modifies this
      ensures !Complete(old(passcode)) ==> stored == storage && passcode == old(passcode) && isUnlocked == old(isUnlocked) && error == old(error)
      ensures Complete(old(passcode)) && config.None? ==>
                stored == storage && passcode == old(passcode) && isUnlocked == old(isUnlocked) && error == old(error)
      ensures Complete(old(passcode)) && config.Some? ==>
                (isUnlocked <==> old(isUnlocked) || Joined(old(passcode)) == config.value.passcode)
      ensures Complete(old(passcode)) && config.Some? && Joined(old(passcode)) == config.value.passcode ==>
                stored == storage[UnlockKey(config) := "true"] && passcode == old(passcode) && error == old(error)
      ensures Complete(old(passcode)) && config.Some? && Joined(old(passcode)) != config.value.passcode ==>
                error && passcode == Blank && stored == storage
      ensures showCinema == old(showCinema) && selectedTrack == old(selectedTrack)
    {
      stored := storage;
      if Complete(passcode) {
        stored := CheckPasscode(config, storage);
      }
    }
  }

  datatype Track = Track(id: Option<string>, title: string)

  function Extras(ids: seq<string>, from: nat): (t: seq<Track>)
    ensures |t| == |ids|
    ensures forall k :: 0 <= k < |ids| ==> t[k] == Track(Some(ids[k]), "Extra Song " + IntToString(from + k + 1))
  {
    if ids == [] then [] else [Track(Some(ids[0]), "Extra Song " + IntToString(from + 1))] + Extras(ids[1..], from + 1)
  }

  /** The soundtrack: the tracks of the 12th, 13th and 14th, then the extras
      numbered from 1. */
  function Tracks(config: ValentineConfig): (t: seq<Track>)
    ensures |t| == 3 + (if config.spotifyTracks.extra.Some? then |config.spotifyTracks.extra.value| else 0)
    ensures t[0] == Track(DayTrack(config, "day12"), "Our Beginning")
    ensures t[1] == Track(DayTrack(config, "day13"), "Our Journey")
    ensures t[2] == Track(DayTrack(config, "day14"), "Today & Always")
    ensures forall k :: 3 <= k < |t| ==> t[k] == Track(Some(config.spotifyTracks.extra.value[k - 3]), "Extra Song " + IntToString(k - 2))
  {
    [Track(DayTrack(config, "day12"), "Our Beginning"),
     Track(DayTrack(config, "day13"), "Our Journey"),
     Track(DayTrack(config, "day14"), "Today & Always")] +
    Extras(if config.spotifyTracks.extra.Some? then config.spotifyTracks.extra.value else [], 0)
  }

  /** `tracks.filter(t => !!t.id)`. */
  function Displayed(tracks: seq<Track>): (d: seq<Track>)
    ensures |d| <= |tracks|
    ensures forall k :: 0 <= k < |d| ==> Truthy(d[k].id)
  {
    if tracks == [] then []
    else if Truthy(tracks[0].id) then [tracks[0]] + Displayed(tracks[1..])
    else Displayed(tracks[1..])
  }

  /** A track is shown exactly when it is in the list and has a non-empty id. */
  lemma {:induction false} DisplayedMembers(tracks: seq<Track>, t: Track)
    ensures t in Displayed(tracks) <==> t in tracks && Truthy(t.id)
  {
    if tracks != [] {
      DisplayedMembers(tracks[1..], t);
      assert tracks == [tracks[0]] + tracks[1..];
    }
  }

  /** The video: the custom URL only on the `'pro'` plan with a non-empty URL. */
  function VideoSource(config: ValentineConfig): (src: string)
    ensures src != DefaultVideo ==> config.plan == "pro" && Truthy(config.videoUrl) && src == config.videoUrl.value
    ensures config.plan == "pro" && Truthy(config.videoUrl) ==> src == config.videoUrl.value
  {
    if config.plan == "pro" && Truthy(config.videoUrl) then config.videoUrl.value else DefaultVideo
  }

  /** None of the plans the configuration type declares is `'pro'`, so under
      each of them the cinema plays the default video. */
  lemma DeclaredPlansPlayDefault(config: ValentineConfig)
    requires config.plan in {"free", "plus", "infinite"}
    ensures VideoSource(config) == DefaultVideo
  {
    assert config.plan != "pro";
  }
}
