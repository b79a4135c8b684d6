/** src/app/page.tsx: the landing page, which shows either the invitation
    or the dashboard once a configuration is loaded. */
module Home {
  import opened Wrappers
  import opened Config
  import Crypto
  import Dates

  datatype HomePhase = Loading | InvitationShown | DashboardShown

  /** `valentine_completed_${JSON.stringify(config.names)}`. */
  function CompletedKey(j: Crypto.Json<Names>, names: Names): (key: string)
    ensures |key| >= 20 && key[..20] == "valentine_completed_" && key[20..] == j.stringify(names)
  {
    "valentine_completed_" + j.stringify(names)
  }

  /** Different couples get different completion flags. */
  lemma CompletedKeyInjective(j: Crypto.Json<Names>, a: Names, b: Names)
    requires Crypto.JsonRoundTrip(j)
    requires CompletedKey(j, a) == CompletedKey(j, b)
    ensures a == b
  {
    var prefix := "valentine_completed_";
    assert j.stringify(a) == CompletedKey(j, a)[|prefix|..];
    assert j.stringify(b) == CompletedKey(j, b)[|prefix|..];
    assert j.parse(j.stringify(a)) == Some(a);
    assert j.parse(j.stringify(b)) == Some(b);
  }

  /** The decision of the load effect. */
  function Decide(storage: map<string, string>, j: Crypto.Json<Names>, names: Names, now: int, feb14: int): (ph: HomePhase)
    ensures ph != Loading
    ensures ph == DashboardShown <==>
              StoredTrue(storage, CompletedKey(j, names)) || Dates.IsTrackUnlocked(false, now, feb14)
  {
    if StoredTrue(storage, CompletedKey(j, names)) || Dates.GetCurrentPhase(now, feb14) == Dates.DashboardPhase
    then DashboardShown
    else InvitationShown
  }

  datatype HomeView = Landing | Spinner | InvitationScreen | DashboardScreen

  /** What the page renders. */
  function View(config: Option<ValentineConfig>, phase: HomePhase): (v: HomeView)
    ensures config.None? <==> v == Landing
    ensures v == Spinner <==> config.Some? && phase == Loading
    ensures v == InvitationScreen <==> config.Some? && phase == InvitationShown
  {
    if config.None? then Landing
    else if phase == Loading then Spinner
    else if phase == InvitationShown then InvitationScreen
    else DashboardScreen
  }

  class HomePage {
    var phase: HomePhase

    constructor()
      ensures phase == Loading
    {
      phase := Loading;
    }

    /** The effect on `config`: nothing while there is none; otherwise the
        dashboard once this couple finished the invitation or Feb 14 has come. */
    method OnConfigChange(config: Option<ValentineConfig>, storage: map<string, string>,
                          j: Crypto.Json<Names>, now: int, feb14: int)
      modifies this
      ensures config.None? ==> phase == old(phase)
      ensures config.Some? ==> phase == Decide(storage, j, config.value.names, now, feb14)
    {
      if config.None? {
        return;
      }
      var isCompleted := StoredTrue(storage, CompletedKey(j, config.value.names));
      var currentPhase := Dates.GetCurrentPhase(now, feb14);
      if isCompleted || currentPhase == Dates.DashboardPhase {
        phase := DashboardShown;
      } else {
        phase := InvitationShown;
      }
    }

    /** The invitation's `onComplete`: store the flag and show the dashboard. */
    method OnComplete(names: Names, j: Crypto.Json<Names>, storage: map<string, string>)
      returns (stored: map<string, string>)
      requires phase == InvitationShown
      modifies this
      ensures stored == storage[CompletedKey(j, names) := "true"]
      ensures phase == DashboardShown
    {
      stored := storage[CompletedKey(j, names) := "true"];
      phase := DashboardShown;
    }
  }

  /** Once the flag is stored, every later load goes straight to the
      dashboard, whatever the date. */
  lemma CompletionSticks(storage: map<string, string>, j: Crypto.Json<Names>, names: Names, now: int, feb14: int)
    ensures Decide(storage[CompletedKey(j, names) := "true"], j, names, now, feb14) == DashboardShown
  {
  }

  /** Before Feb 14, a couple without the flag sees the invitation, even
      when another couple's flag is stored. */
  lemma OtherCouplesFlag(storage: map<string, string>, j: Crypto.Json<Names>, a: Names, b: Names, now: int, feb14: int)
    requires Crypto.JsonRoundTrip(j) && a != b && now < feb14
    requires !StoredTrue(storage, CompletedKey(j, b))
    ensures Decide(storage[CompletedKey(j, a) := "true"], j, b, now, feb14) == InvitationShown
  {
    if CompletedKey(j, a) == CompletedKey(j, b) {
      CompletedKeyInjective(j, a, b);
    }
  }
}
