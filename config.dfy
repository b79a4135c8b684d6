/** src/utils/config.ts: the configuration a link carries, and the public
    payload of the query string. */
module Config {
  import opened Wrappers
  import Crypto

  datatype Names = Names(partner1: string, partner2: string)

  /** One countdown note; `hour`, `isSpotify` and `spotifyId` are optional. */
  datatype Note = Note(
    id: string,
    day: int,
    hour: Option<int>,
    content: string,
    isSpotify: Option<bool>,
    spotifyId: Option<string>)

  /** `spotifyTracks`: the `dayN` entries, and the `extra` list that the
      cinema reads although the declared record type holds only strings. */
  datatype SpotifyTracks = SpotifyTracks(byDay: map<string, string>, extra: Option<seq<string>>)

  /** `ValentineConfig`.  `plan` is kept as text: components compare it with
      `'pro'`, which is outside the declared union.  `galleryImages` is the
      record's entries in insertion order (the order `Object.values` uses).
      `totalDays` is 0 where the JSON has none.  The last three fields are the passcode tier that components read
      without the interface declaring them. */
  datatype ValentineConfig = ValentineConfig(
    plan: string,
    names: Names,
    anniversaryDate: string,
    totalDays: int,
    spotifyTracks: SpotifyTracks,
    notes: seq<Note>,
    passcode: string,
    videoUrl: Option<string>,
    backgroundUrl: Option<string>,
    galleryImages: Option<seq<(string, seq<string>)>>,
    signature: Option<string>,
    passcodeSalt: Option<string>,
    encryptedNotes: Option<Crypto.Encrypted>,
    encryptedVideo: Option<Crypto.Encrypted>)

  /** `SanctuaryPayload`: the query-string fields of a link. */
  datatype SanctuaryPayload = SanctuaryPayload(d: string, iv: string, v: Option<string>)

  /** JavaScript truthiness of an optional string: present and non-empty. */
  predicate Truthy(s: Option<string>) { s.Some? && s.value != "" }

  /** `record[key]` on the entries of a record: the list stored under `key`, if any. */
  function Lookup(entries: seq<(string, seq<string>)>, key: string): (r: Option<seq<string>>)
    ensures r.Some? <==> exists k :: 0 <= k < |entries| && entries[k].0 == key
    ensures r.Some? ==> exists k :: 0 <= k < |entries| && entries[k] == (key, r.value)
  {
    if entries == [] then None
    else if entries[0].0 == key then Some(entries[0].1)
    else
      var r := Lookup(entries[1..], key);
      assert r.Some? ==> exists k :: 0 <= k < |entries| - 1 && entries[1..][k] == (key, r.value);
      r
  }

  /** `localStorage.getItem(key) === "true"`, over a map standing for the storage. */
  predicate StoredTrue(storage: map<string, string>, key: string)
    ensures StoredTrue(storage, key) ==> key in storage
  {
    key in storage && storage[key] == "true"
  }

  /** `setItem(key, "true")` makes that flag read as set, and writing any
      other key leaves it as it was. */
  lemma StoredTrueAfterSet(storage: map<string, string>, key: string, other: string, value: string)
    ensures StoredTrue(storage[key := "true"], key)
    ensures other != key ==> StoredTrue(storage[other := value], key) == StoredTrue(storage, key)
  {
  }
}
