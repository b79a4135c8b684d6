/** src/components/Dashboard.tsx: the lock screen in front of a locked
    configuration, the Spotify list, the id sanitiser, and the note that
    waits for its countdown and for a tap. */
module Dashboard {
  import opened Wrappers
  import opened Text
  import opened Crypto
  import opened Config
  import opened Passcode
  import Dates
  import Context

  /*** The lock screen ***/

  /** The lock screen's own state; `ctx` is the provider it unlocks. */
  class LockScreen {
    var passcode: seq<string>
    var isVerifying: bool
    var error: bool
    const ctx: Context.ValentineProvider

    constructor (ctx: Context.ValentineProvider)
      ensures passcode == Blank && !isVerifying && !error && this.ctx == ctx
    {
      passcode := Blank;
      isVerifying := false;
      error := false;
      this.ctx := ctx;
    }

    /** `handleInput`: ignored unless the value is all digits; otherwise it
        writes one position and clears the error. */
    method HandleInput(index: nat, value: string)
      requires index < |passcode|
      modifies this
      ensures EnterDigit(old(passcode), index, value).None? ==> passcode == old(passcode) && error == old(error)
      ensures EnterDigit(old(passcode), index, value).Some? ==> passcode == EnterDigit(old(passcode), index, value).value && !error
      ensures isVerifying == old(isVerifying)
    {
      var entered := EnterDigit(passcode, index, value);
      if entered.None? {
        return;
      }
      passcode := entered.value;
      error := false;
    }

    /** `handleUnlock`: asks the provider to open the passcode tier with the
        joined digits; a failure clears the buffer and raises the error. */
    method HandleUnlock(p: Platform, jn: Json<seq<Note>>, jv: Json<string>) returns (success: bool)
      modifies this, ctx
      ensures success <==> old(ctx.config).Some? && Context.PasscodeUnlock(p, jn, jv, old(ctx.config).value, Joined(old(passcode))).Some?
      ensures success ==> passcode == old(passcode) && error == old(error) && !ctx.isLocked &&
                          ctx.config == Context.PasscodeUnlock(p, jn, jv, old(ctx.config).value, Joined(old(passcode)))
      ensures !success ==> passcode == Blank && error && ctx.config == old(ctx.config) && ctx.isLocked == old(ctx.isLocked)
      ensures !isVerifying
    {
      isVerifying := true;
      success := ctx.DecryptWithPasscode(p, jn, jv, Joined(passcode));
      if !success {
        error := true;
        passcode := Blank;
      }
      isVerifying := false;
    }

    /** The effect on `passcode`: a complete buffer is submitted. */
    method OnPasscodeChange(p: Platform, jn: Json<seq<Note>>, jv: Json<string>) returns (attempted: bool, success: bool)
      modifies this, ctx
      ensures attempted == Complete(old(passcode))
      ensures !attempted ==> !success && passcode == old(passcode) && error == old(error) &&
                             ctx.config == old(ctx.config) && ctx.isLocked == old(ctx.isLocked)
      ensures attempted ==> (success <==> old(ctx.config).Some? && Context.PasscodeUnlock(p, jn, jv, old(ctx.config).value, Joined(old(passcode))).Some?)
      ensures attempted && success ==> passcode == old(passcode) && error == old(error) && !ctx.isLocked &&
                                       ctx.config == Context.PasscodeUnlock(p, jn, jv, old(ctx.config).value, Joined(old(passcode)))
      ensures attempted && !success ==> passcode == Blank && error && ctx.config == old(ctx.config) && ctx.isLocked == old(ctx.isLocked)
    {
      attempted := Complete(passcode);
      success := false;
      if attempted {
        success := HandleUnlock(p, jn, jv);
      }
    }
  }

  /*** The Spotify list ***/

  datatype SpotifyItem = SpotifyItem(day: int, id: Option<string>, title: string)

  /** `config.totalDays || 3`. */
  function TotalDays(config: ValentineConfig): (n: int)
    ensures n != 0
    ensures config.totalDays != 0 ==> n == config.totalDays
    ensures config.totalDays == 0 ==> n == 3
  {
    if config.totalDays == 0 then 3 else config.totalDays
  }

  /** `config.spotifyTracks['day' + n]`. */
  function TrackFor(config: ValentineConfig, day: int): (id: Option<string>)
    ensures id.Some? <==> "day" + IntToString(day) in config.spotifyTracks.byDay
    ensures id.Some? ==> id.value == config.spotifyTracks.byDay["day" + IntToString(day)]
  {
    var key := "day" + IntToString(day);
    if key in config.spotifyTracks.byDay then Some(config.spotifyTracks.byDay[key]) else None
  }

  /** The heading of a track card: the finale on the 14th, a countdown on every other day. */
  function Title(day: int): (t: string)
    ensures t == "Feb 14: The Finale" <==> day == 14
    ensures day != 14 ==> t == "Feb " + IntToString(day) + ": The Countdown"
  {
    if day == 14 then "Feb 14: The Finale"
    else
      var t := "Feb " + IntToString(day) + ": The Countdown";
      assert |t| > |"Feb 14: The Finale"|;
      t
  }

  /** Each day reads its own `day<n>` entry: no two days share a key. */
  lemma DayKeyInjective(a: int, b: int)
    requires "day" + IntToString(a) == "day" + IntToString(b)
    ensures a == b
  {
    assert ("day" + IntToString(a))[3..] == IntToString(a);
    assert ("day" + IntToString(b))[3..] == IntToString(b);
    IntToStringInjective(a, b);
  }

  function ItemFor(config: ValentineConfig, day: int): (item: SpotifyItem)
    ensures item.day == day && item.id == TrackFor(config, day) && item.title == Title(day)
  {
    SpotifyItem(day, TrackFor(config, day), Title(day))
  }

  function Reversed<T>(s: seq<T>): (r: seq<T>)
    ensures |r| == |s| && forall k :: 0 <= k < |s| ==> r[k] == s[|s| - 1 - k]
  {
    if s == [] then [] else Reversed(s[1..]) + [s[0]]
  }

  lemma {:induction false} ReversedPermutes<T>(s: seq<T>)
    ensures multiset(Reversed(s)) == multiset(s)
  {
    if s != [] {
      ReversedPermutes(s[1..]);
      assert s == [s[0]] + s[1..];
    }
  }

  /** `getSpotifyItems`: one item per day from `15 - n` to 14, where `n` is
      `totalDays || 3`, in ascending order of day.  The loop pushes the days
      in descending order; sorting distinct days ascending reverses them. */
  method GetSpotifyItems(config: ValentineConfig) returns (items: seq<SpotifyItem>)
    ensures var n := TotalDays(config);
            |items| == (if n > 0 then n else 0) &&
            forall k :: 0 <= k < |items| ==> items[k] == ItemFor(config, 15 - n + k)
    ensures forall k, l :: 0 <= k < l < |items| ==> items[k].day < items[l].day
  {
    var totalDays := TotalDays(config);
    var pushed := PushDays(config, totalDays);
    items := Reversed(pushed);
    forall k | 0 <= k < |items| ensures items[k] == ItemFor(config, 15 - totalDays + k) {
      assert items[k] == pushed[|pushed| - 1 - k];
    }
    forall k | 0 <= k < |items| ensures items[k].day == 15 - totalDays + k {
      ItemDay(config, 15 - totalDays + k);
    }
  }

  /** The loop of `getSpotifyItems`: day `14 - i` is pushed on round `i`. */
  method PushDays(config: ValentineConfig, totalDays: int) returns (pushed: seq<SpotifyItem>)
    ensures |pushed| == (if totalDays > 0 then totalDays else 0)
    ensures forall k :: 0 <= k < |pushed| ==> pushed[k] == ItemFor(config, 14 - k)
  {
    pushed := [];
    var i := 0;
    while i < totalDays
      invariant 0 <= i && (totalDays > 0 ==> i <= totalDays) && (totalDays <= 0 ==> i == 0)
      invariant |pushed| == i
      invariant forall k :: 0 <= k < i ==> pushed[k] == ItemFor(config, 14 - k)
    {
      pushed := pushed + [ItemFor(config, 14 - i)];
      i := i + 1;
    }
  }

  lemma ItemDay(config: ValentineConfig, day: int)
    ensures ItemFor(config, day).day == day
  {
  }

  /** `item.id?.replace(/[^a-zA-Z0-9]/g, '')`: the id with every character
      outside ASCII letters and digits deleted. */
  function SafeId(id: Option<string>): (r: Option<string>)
    ensures r.Some? <==> id.Some?
    ensures r.Some? ==> forall i :: 0 <= i < |r.value| ==> IsAsciiAlnum(r.value[i])
  {
    if id.None? then None else Some(Filter(id.value, IsAsciiAlnum))
  }

  /** A cleaned id is left alone by a second cleaning, and an id is left
      alone by the sanitiser exactly when it is already alphanumeric. */
  lemma SafeIdIdempotent(id: Option<string>)
    ensures SafeId(SafeId(id)) == SafeId(id)
  {
    if id.Some? {
      FilterKeepsAll(SafeId(id).value, IsAsciiAlnum);
    }
  }

  lemma SafeIdFixesAlnum(s: string)
    ensures SafeId(Some(s)) == Some(s) <==> forall i :: 0 <= i < |s| ==> IsAsciiAlnum(s[i])
  {
    if forall i :: 0 <= i < |s| ==> IsAsciiAlnum(s[i]) {
      FilterKeepsAll(s, IsAsciiAlnum);
    }
  }

  /** Cleaning distributes over concatenation. */
  lemma SafeIdAppend(a: string, b: string)
    ensures SafeId(Some(a + b)).value == SafeId(Some(a)).value + SafeId(Some(b)).value
  {
    FilterAppend(a, b, IsAsciiAlnum);
  }

  /** A track card embeds the player only when its day is unlocked and the cleaned id is non-empty. */
  function ShowsPlayer(debugUnlock: bool, now: int, target: int, id: Option<string>): (shown: bool)
    ensures shown ==> debugUnlock || Dates.GetDaysUntil(now, target) == 0
    ensures shown ==> id.Some? && SafeId(id).value != "" &&
                      forall i :: 0 <= i < |SafeId(id).value| ==> IsAsciiAlnum(SafeId(id).value[i])
  {
    Dates.IsTrackUnlocked(debugUnlock, now, target) && Truthy(SafeId(id))
  }

  /** A card that shows the player keeps showing it as time passes. */
  lemma ShowsPlayerStays(debugUnlock: bool, now: int, later: int, target: int, id: Option<string>)
    requires now <= later && ShowsPlayer(debugUnlock, now, target, id)
    ensures ShowsPlayer(debugUnlock, later, target, id)
  {
    Dates.UnlockMonotone(debugUnlock, now, later, target);
  }

  /** An id with no letter or digit never embeds the player, whatever the day. */
  lemma NoPlayerWithoutAlnum(debugUnlock: bool, now: int, target: int, id: string)
    requires forall i :: 0 <= i < |id| ==> !IsAsciiAlnum(id[i])
    ensures !ShowsPlayer(debugUnlock, now, target, Some(id))
  {
    FilterDropsAll(id, IsAsciiAlnum);
  }

  /** The names as the verification request sends them, `partner1:partner2`. */
  function PartnerNames(names: Names): (s: string)
    ensures |s| == |names.partner1| + 1 + |names.partner2| && s[|names.partner1|] == ':'
    ensures s[..|names.partner1|] == names.partner1 && s[|names.partner1| + 1..] == names.partner2
  {
    names.partner1 + ":" + names.partner2
  }

  /** A colon inside a name makes two different couples sign the same payload. */
  lemma PartnerNamesAmbiguous(plan: string)
    ensures Names("a:b", "c") != Names("a", "b:c")
    ensures PremiumPayload(plan, PartnerNames(Names("a:b", "c"))) == PremiumPayload(plan, PartnerNames(Names("a", "b:c")))
  {
  }

  /*** A note ***/

  datatype NoteView = Countdown(left: Dates.TimeLeft) | UnlockButton | Content(html: string)

  /** `UnlockableNote`: waits for its countdown to reach zero, then for a tap
      whose effect is remembered in storage under `user_unlocked_<id>`. */
  class UnlockableNote {
    const id: string
    const content: string
    var timerDone: bool
    var unlocked: bool
    var timeLeft: Dates.TimeLeft

    constructor (id: string, content: string, now: int, target: int)
      ensures this.id == id && this.content == content
      ensures !timerDone && !unlocked && timeLeft == Dates.GetTimeUntil(now, target)
    {
      this.id := id;
      this.content := content;
      timerDone := false;
      unlocked := false;
      timeLeft := Dates.GetTimeUntil(now, target);
    }

    function StorageKey(): (key: string)
      reads this
      ensures |key| >= 14 && key[..14] == "user_unlocked_" && key[14..] == id
    {
      "user_unlocked_" + id
    }

    /** The mount effect: the stored flag decides `unlocked`. */
    method Mount(storage: map<string, string>)
      modifies this
      ensures unlocked == StoredTrue(storage, StorageKey())
      ensures timerDone == old(timerDone) && timeLeft == old(timeLeft)
    {
      unlocked := StoredTrue(storage, StorageKey());
    }

    /** One tick of the interval: the countdown is done once every field
        reads zero, that is from one second before the target on. */
    method Tick(now: int, target: int)
      modifies this
      ensures timeLeft == Dates.GetTimeUntil(now, target)
      ensures timerDone <==> target - now < Dates.MsPerSecond
      ensures unlocked == old(unlocked)
    {
      timeLeft := Dates.GetTimeUntil(now, target);
      timerDone := timeLeft.hours == 0 && timeLeft.minutes == 0 && timeLeft.seconds == 0;
    }

    /** `handleUnlock`: the flag is set and persisted. */
    method HandleUnlock(storage: map<string, string>) returns (stored: map<string, string>)
      modifies this
      ensures unlocked && stored == storage[StorageKey() := "true"]
      ensures StoredTrue(stored, StorageKey())
      ensures timerDone == old(timerDone) && timeLeft == old(timeLeft)
    {
      unlocked := true;
      stored := storage[StorageKey() := "true"];
    }

    /** What the note shows: the content only once the countdown is done and the note was unlocked. */
    function View(): (v: NoteView)
      reads this
      ensures v.Content? <==> timerDone && unlocked
      ensures v.Content? ==> v.html == content
      ensures v.Countdown? <==> !timerDone
    {
      if !timerDone then Countdown(timeLeft)
      else if !unlocked then UnlockButton
      else Content(content)
    }
  }
}
