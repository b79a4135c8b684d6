/** src/app/wizard/page.tsx: the link builder.  Its configuration is an
    untyped object edited through dotted paths, so it is modelled as a JSON
    value tree; the page state is a class whose fields the handlers update. */
module Wizard {
  import opened Wrappers
  import opened Text

  /** The JSON values the wizard stores (numbers are the integers it writes). */
  datatype JsValue =
    | JStr(s: string)
    | JNum(n: int)
    | JBool(b: bool)
    | JArr(items: seq<JsValue>)
    | JObj(fields: map<string, JsValue>)

  /** The value at a path of property names, when every step finds an
      object holding that property. */
  function Get(v: JsValue, parts: seq<string>): Option<JsValue>
    decreases |parts|
  {
    if parts == [] then Some(v)
    else if v.JObj? && parts[0] in v.fields then Get(v.fields[parts[0]], parts[1..])
    else None
  }

  lemma GetOne(v: JsValue, f: string)
    ensures Get(v, [f]) == if v.JObj? && f in v.fields then Some(v.fields[f]) else None
  {
    assert [f][1..] == [];
  }

  /** Writing `value` at a path: every property before the last must lead
      to an object, and the last one is set on the object reached.  `None`
      is the `TypeError` the walk raises otherwise. */
  function SetPath(v: JsValue, parts: seq<string>, value: JsValue): (r: Option<JsValue>)
    requires |parts| >= 1
    ensures r.Some? ==> v.JObj? && r.value.JObj? && r.value.fields.Keys == v.fields.Keys + {parts[0]}
    decreases |parts|
  {
    if !v.JObj? then None
    else if |parts| == 1 then Some(JObj(v.fields[parts[0] := value]))
    else if parts[0] !in v.fields then None
    else
      match SetPath(v.fields[parts[0]], parts[1..], value)
      case None => None
      case Some(child) => Some(JObj(v.fields[parts[0] := child]))
  }

  /** One step of the walk: through an object that holds the property, a
      write succeeds when the write into that property does. */
  lemma SetPathStep(v: JsValue, parts: seq<string>, value: JsValue)
    requires |parts| >= 2
    ensures !(v.JObj? && parts[0] in v.fields) ==> SetPath(v, parts, value).None?
    ensures v.JObj? && parts[0] in v.fields ==>
              (SetPath(v, parts, value).Some? <==> SetPath(v.fields[parts[0]], parts[1..], value).Some?)
    ensures v.JObj? && parts[0] in v.fields && SetPath(v.fields[parts[0]], parts[1..], value).Some? ==>
              SetPath(v, parts, value) == Some(JObj(v.fields[parts[0] := SetPath(v.fields[parts[0]], parts[1..], value).value]))
  {
  }

  /** A write succeeds exactly when the path without its last property
      leads to an object. */
  lemma {:induction false} SetPathSucceeds(v: JsValue, parts: seq<string>, value: JsValue)
    requires |parts| >= 1
    ensures SetPath(v, parts, value).Some? <==>
            Get(v, parts[..|parts| - 1]).Some? && Get(v, parts[..|parts| - 1]).value.JObj?
    decreases |parts|
  {
    if |parts| > 1 && v.JObj? && parts[0] in v.fields {
      SetPathSucceeds(v.fields[parts[0]], parts[1..], value);
      assert parts[..|parts| - 1][1..] == parts[1..][..|parts[1..]| - 1];
    }
  }

  /** Reading back the written path gives the written value. */
  lemma {:induction false} GetAfterSet(v: JsValue, parts: seq<string>, value: JsValue)
    requires |parts| >= 1 && SetPath(v, parts, value).Some?
    ensures Get(SetPath(v, parts, value).value, parts) == Some(value)
    decreases |parts|
  {
    var w := SetPath(v, parts, value).value;
    if |parts| == 1 {
      assert parts[1..] == [];
    } else {
      GetAfterSet(v.fields[parts[0]], parts[1..], value);
    }
  }

  /** Any path that leaves the written one at some property reads the same
      before and after: siblings and their contents are untouched. */
  lemma {:induction false} SetLeavesOthers(v: JsValue, parts: seq<string>, value: JsValue, other: seq<string>, i: nat)
    requires |parts| >= 1 && SetPath(v, parts, value).Some?
    requires i < |parts| && i < |other| && parts[..i] == other[..i] && parts[i] != other[i]
    ensures Get(SetPath(v, parts, value).value, other) == Get(v, other)
    decreases i
  {
    if i > 0 {
      assert parts[0] == other[0] by { assert parts[..i][0] == other[..i][0]; }
      assert parts[1..][..i - 1] == other[1..][..i - 1] by {
        assert parts[1..][..i - 1] == parts[..i][1..];
        assert other[1..][..i - 1] == other[..i][1..];
      }
      SetLeavesOthers(v.fields[parts[0]], parts[1..], value, other[1..], i - 1);
    }
  }

  lemma SplitNoSeparator(s: string, sep: char)
    requires sep !in s
    ensures Split(s, sep) == [s]
  {
    assert forall k :: 0 <= k < |s| ==> s[k] != sep;
  }

  lemma SplitTwo(a: string, b: string, sep: char)
    requires sep !in a && sep !in b
    ensures Split(a + [sep] + b, sep) == [a, b]
  {
    var s := a + [sep] + b;
    var i := IndexOf(s, sep);
    assert forall k :: 0 <= k < |a| ==> s[k] == a[k] && a[k] != sep;
    assert s[|a|] == sep;
    assert i == |a|;
    assert s[..i] == a;
    assert s[i + 1..] == b;
    SplitNoSeparator(b, sep);
  }

  /** `value.split('/').pop()?.split('?')[0]`: the last path segment of a
      pasted Spotify link, cut before its query string. */
  function ExtractTrackId(input: string): (id: string)
    ensures '/' !in id && '?' !in id
  {
    var segments := Split(input, '/');
    SplitPieces(input, '/');
    SplitPieces(segments[|segments| - 1], '?');
    var pieces := Split(segments[|segments| - 1], '?');
    assert pieces[0] <= segments[|segments| - 1] by { SplitFirst(segments[|segments| - 1], '?'); }
    pieces[0]
  }

  /** The stored track is the text after the last `/` up to the first `?`
      that follows it; it holds neither character, and a bare id is kept. */
  lemma TrackIdIsLastSegment(input: string)
    ensures var tail := input[AfterLast(input, '/')..];
            ExtractTrackId(input) == tail[..IndexOf(tail, '?')]
    ensures '/' !in ExtractTrackId(input) && '?' !in ExtractTrackId(input)
    ensures '/' !in input && '?' !in input ==> ExtractTrackId(input) == input
  {
    SplitLast(input, '/');
    var tail := input[AfterLast(input, '/')..];
    SplitFirst(tail, '?');
    NoSeparatorAfterLast(input, '/');
    PrefixLacks(tail, IndexOf(tail, '?'), '/');
    NoSeparatorBeforeFirst(tail, '?');
    if '/' !in input && '?' !in input {
      SplitNoSeparator(input, '/');
      SplitNoSeparator(input, '?');
    }
  }

  /** `value.replace(/\D/g, '')`. */
  function DigitsOnly(s: string): (r: string)
    ensures AllDigits(r)
    ensures |r| <= |s|
  {
    Filter(s, IsDigit)
  }

  /** Digits pass through unchanged, so filtering twice is filtering once. */
  lemma DigitsOnlyKeepsDigits(s: string)
    ensures AllDigits(s) ==> DigitsOnly(s) == s
    ensures DigitsOnly(DigitsOnly(s)) == DigitsOnly(s)
  {
    if AllDigits(s) {
      FilterKeepsAll(s, IsDigit);
    }
    FilterKeepsAll(DigitsOnly(s), IsDigit);
  }

  /** `config.notes`, when it is an array. */
  function NotesOf(config: JsValue): Option<seq<JsValue>> {
    match Get(config, ["notes"])
    case Some(JArr(items)) => Some(items)
    case _ => None
  }

  /** `notes.filter((_, i) => i !== idx)`. */
  function RemoveIndex(notes: seq<JsValue>, idx: int): (kept: seq<JsValue>)
    ensures |kept| == if 0 <= idx < |notes| then |notes| - 1 else |notes|
    decreases |notes|
  {
    if notes == [] then [] else (if idx == 0 then [] else [notes[0]]) + RemoveIndex(notes[1..], idx - 1)
  }

  /** Removing drops exactly the element at `idx` and keeps the rest in
      order; an index outside the list removes nothing. */
  lemma {:induction false} RemoveIndexDropsOne(notes: seq<JsValue>, idx: int)
    ensures 0 <= idx < |notes| ==> RemoveIndex(notes, idx) == notes[..idx] + notes[idx + 1..]
    ensures !(0 <= idx < |notes|) ==> RemoveIndex(notes, idx) == notes
    decreases |notes|
  {
    if notes != [] {
      var rest := notes[1..];
      RemoveIndexDropsOne(rest, idx - 1);
      ConsSlices(notes, idx);
    }
  }

  /** How the head of a non-empty list passes through the slices around `idx`. */
  lemma ConsSlices<T>(s: seq<T>, idx: int)
    requires s != []
    ensures idx == 0 ==> s[..0] + s[1..] == s[1..]
    ensures 0 < idx < |s| ==> s[..idx] + s[idx + 1..] == [s[0]] + (s[1..][..idx - 1] + s[1..][idx..])
    ensures s == [s[0]] + s[1..]
  {
    if 0 < idx < |s| {
      assert s[..idx] == [s[0]] + s[1..][..idx - 1];
      assert s[idx + 1..] == s[1..][idx..];
    }
  }

  /** The note the "Add Another Note" button appends, for the clock value `now`. */
  function NewNote(now: int): (note: JsValue)
    ensures Get(note, ["id"]) == Some(JStr("note" + IntToString(now)))
    ensures Get(note, ["day"]) == Some(JNum(14)) && Get(note, ["content"]) == Some(JStr(""))
  {
    var note := JObj(map["id" := JStr("note" + IntToString(now)), "day" := JNum(14), "content" := JStr("")]);
    GetOne(note, "id");
    GetOne(note, "day");
    GetOne(note, "content");
    note
  }

  /** `newNotes[idx][field] = value` on a copy of the list: only that note's
      field changes.  `None` is the `TypeError` of a missing or non-object note. */
  function SetNoteField(notes: seq<JsValue>, idx: int, field: string, value: JsValue): (r: Option<seq<JsValue>>)
    ensures r.Some? <==> 0 <= idx < |notes| && notes[idx].JObj?
    ensures r.Some? ==> |r.value| == |notes| && forall k :: 0 <= k < |notes| && k != idx ==> r.value[k] == notes[k]
    ensures r.Some? ==> Get(r.value[idx], [field]) == Some(value)
    ensures r.Some? ==> forall f :: f != field ==> Get(r.value[idx], [f]) == Get(notes[idx], [f])
  {
    if 0 <= idx < |notes| && notes[idx].JObj? then
      var note := JObj(notes[idx].fields[field := value]);
      GetOne(note, field);
      forall f ensures Get(note, [f]) == if note.JObj? && f in note.fields then Some(note.fields[f]) else None {
        GetOne(note, f);
      }
      forall f ensures Get(notes[idx], [f]) == if notes[idx].JObj? && f in notes[idx].fields then Some(notes[idx].fields[f]) else None {
        GetOne(notes[idx], f);
      }
      Some(notes[idx := note])
    else
      None
  }

  /** The configuration the wizard starts from: blank names and tracks, two
      sample notes, passcode `1234`, and today's date without its time. */
  function InitialConfig(today: string): (config: JsValue)
    ensures Get(config, ["anniversaryDate"]) == Some(JStr(Split(today, 'T')[0]))
    ensures Get(config, ["passcode"]) == Some(JStr("1234"))
    ensures NotesOf(config).Some? && |NotesOf(config).value| == 2
    ensures forall day :: 12 <= day <= 14 ==> Get(config, TrackPath(day)) == Some(JStr(""))
  {
    var config := InitialConfigValue(today);
    GetOne(config, "anniversaryDate");
    GetOne(config, "passcode");
    GetOne(config, "notes");
    forall day | 12 <= day <= 14
      ensures Get(config, TrackPath(day)) == Some(JStr(""))
    {
      InitialTrack(today, day);
    }
    config
  }

  lemma InitialTrack(today: string, day: int)
    requires 12 <= day <= 14
    ensures Get(InitialConfigValue(today), TrackPath(day)) == Some(JStr(""))
  {
    var config := InitialConfigValue(today);
    var tracks := config.fields["spotifyTracks"];
    var key := "day" + IntToString(day);
    assert TrackPath(day)[1..] == [key];
    GetOne(tracks, key);
    if day == 12 {
      assert key == "day12";
    } else if day == 13 {
      assert key == "day13";
    } else {
      assert key == "day14";
    }
  }

  function InitialConfigValue(today: string): JsValue {
    JObj(map[
      "names" := JObj(map["partner1" := JStr(""), "partner2" := JStr("")]),
      "anniversaryDate" := JStr(Split(today, 'T')[0]),
      "spotifyTracks" := JObj(map["day12" := JStr(""), "day13" := JStr(""), "day14" := JStr("")]),
      "notes" := JArr([
        JObj(map["id" := JStr("note1"), "day" := JNum(12), "content" := JStr("Our first note")]),
        JObj(map["id" := JStr("note2"), "day" := JNum(14), "content" := JStr("Happy Valentine's Day!")])]),
      "passcode" := JStr("1234"),
      "videoUrl" := JStr("")])
  }

  /** The path of the track input for `day`. */
  function TrackPath(day: int): seq<string> {
    ["spotifyTracks", "day" + IntToString(day)]
  }

  lemma NoDotInNumber(i: int)
    ensures '.' !in IntToString(i)
  {
    var s := NatToString(if i < 0 then -i else i);
    assert forall k :: 0 <= k < |s| ==> IsDigit(s[k]);
    if i < 0 {
      assert IntToString(i) == "-" + s;
      assert forall k :: 0 <= k < |IntToString(i)| ==> IntToString(i)[k] != '.' by {
        forall k | 0 <= k < |IntToString(i)|
          ensures IntToString(i)[k] != '.'
        {
          if k > 0 { assert IntToString(i)[k] == s[k - 1]; }
        }
      }
    }
  }

  lemma TrackPathSplits(day: int)
    ensures Split("spotifyTracks.day" + IntToString(day), '.') == TrackPath(day)
  {
    NoDotInNumber(day);
    var b := "day" + IntToString(day);
    assert '.' !in b by {
      forall k | 0 <= k < |b| ensures b[k] != '.' {
        if k >= 3 { assert b[k] == IntToString(day)[k - 3]; }
      }
    }
    assert "spotifyTracks.day" + IntToString(day) == "spotifyTracks" + ['.'] + b;
    SplitTwo("spotifyTracks", b, '.');
  }

  /** The objects the walk of `updateConfig` passes through: `root`, then
      the value of each property but the last in turn. */
  predicate Chain(nodes: seq<JsValue>, parts: seq<string>)
  {
    |nodes| == |parts| >= 1 &&
    forall k :: 0 <= k < |parts| - 1 ==>
      nodes[k].JObj? && parts[k] in nodes[k].fields && nodes[k + 1] == nodes[k].fields[parts[k]]
  }

  /** The loop of `updateConfig`: follows every property but the last,
      stopping where the value reached is not an object holding the next one. */
  method WalkToParent(root: JsValue, parts: seq<string>, value: JsValue) returns (nodes: seq<JsValue>, reached: bool)
    requires |parts| >= 1
    ensures reached <==> SetPath(root, parts, value).Some?
    ensures reached ==> Chain(nodes, parts) && nodes[0] == root && nodes[|parts| - 1].JObj?
  {
    nodes := [root];
    var i := 0;
    while i < |parts| - 1
      invariant 0 <= i <= |parts| - 1
      invariant |nodes| == i + 1 && nodes[0] == root
      invariant forall k :: 0 <= k < i ==>
                  nodes[k].JObj? && parts[k] in nodes[k].fields && nodes[k + 1] == nodes[k].fields[parts[k]]
      invariant SetPath(root, parts, value).Some? <==> SetPath(nodes[i], parts[i..], value).Some?
    {
      var current := nodes[i];
      assert parts[i..][1..] == parts[i + 1..];
      SetPathStep(current, parts[i..], value);
      if !(current.JObj? && parts[i] in current.fields) {
        return nodes, false;
      }
      nodes := nodes + [current.fields[parts[i]]];
      i := i + 1;
    }
    assert parts[i..] == [parts[i]];
    reached := nodes[i].JObj?;
  }

  /** The assignment `current[last] = value`, seen from the root: every
      object on the chain gets the updated child in place of the old one. */
  method Rebuild(nodes: seq<JsValue>, parts: seq<string>, value: JsValue) returns (updated: JsValue)
    requires Chain(nodes, parts) && nodes[|parts| - 1].JObj?
    ensures SetPath(nodes[0], parts, value) == Some(updated)
  {
    var i := |parts| - 1;
    assert parts[i..] == [parts[i]];
    updated := JObj(nodes[i].fields[parts[i] := value]);
    var j := i;
    while j > 0
      invariant 0 <= j <= i
      invariant SetPath(nodes[j], parts[j..], value) == Some(updated)
    {
      j := j - 1;
      assert parts[j..][1..] == parts[j + 1..];
      SetPathStep(nodes[j], parts[j..], value);
      updated := JObj(nodes[j].fields[parts[j] := updated]);
    }
  }

  class WizardPage {
    var config: JsValue
    var step: int
    var generatedLink: string

    /** The step counter stays within the six steps. */
    predicate Valid()
      reads this
    {
      1 <= step <= 6
    }

    /** The first render; `today` is `new Date().toISOString()`. */
    constructor(today: string)
      ensures Valid()
      ensures config == InitialConfig(today) && step == 1 && generatedLink == ""
    {
      config := InitialConfig(today);
      step := 1;
      generatedLink := "";
    }

    /** `updateConfig(path, value)`: walk to the object that holds the last
        property, assign it, and install the result; a walk that reaches
        something other than an object throws and changes nothing. */
    method UpdateConfig(path: string, value: JsValue) returns (ok: bool)
      modifies this
      ensures ok <==> SetPath(old(config), Split(path, '.'), value).Some?
      ensures ok ==> config == SetPath(old(config), Split(path, '.'), value).value
      ensures !ok ==> config == old(config)
      ensures step == old(step) && generatedLink == old(generatedLink)
    {
      var parts := Split(path, '.');
      var nodes, reached := WalkToParent(config, parts, value);
      if !reached {
        return false;
      }
      config := Rebuild(nodes, parts, value);
      return true;
    }

    /** The Spotify input of `day`: stores the extracted track id. */
    method SetTrack(day: int, input: string) returns (ok: bool)
      modifies this
      ensures ok <==> SetPath(old(config), TrackPath(day), JStr(ExtractTrackId(input))).Some?
      ensures ok ==> config == SetPath(old(config), TrackPath(day), JStr(ExtractTrackId(input))).value
      ensures ok ==> Get(config, TrackPath(day)) == Some(JStr(ExtractTrackId(input)))
      ensures !ok ==> config == old(config)
      ensures step == old(step) && generatedLink == old(generatedLink)
    {
      TrackPathSplits(day);
      ok := UpdateConfig("spotifyTracks.day" + IntToString(day), JStr(ExtractTrackId(input)));
      if ok {
        GetAfterSet(old(config), TrackPath(day), JStr(ExtractTrackId(input)));
      }
    }

    /** The passcode input: stores the digits of what was typed. */
    method SetPasscode(input: string) returns (ok: bool)
      modifies this
      ensures ok <==> old(config).JObj?
      ensures ok ==> config == SetPath(old(config), ["passcode"], JStr(DigitsOnly(input))).value
      ensures ok ==> exists p :: Get(config, ["passcode"]) == Some(JStr(p)) && AllDigits(p)
      ensures !ok ==> config == old(config)
      ensures step == old(step) && generatedLink == old(generatedLink)
    {
      SplitNoSeparator("passcode", '.');
      ok := UpdateConfig("passcode", JStr(DigitsOnly(input)));
      if ok {
        GetAfterSet(old(config), ["passcode"], JStr(DigitsOnly(input)));
      }
    }

    /** Stores a new note list under `notes`. */
    method SetNotes(notes: seq<JsValue>) returns (ok: bool)
      modifies this
      ensures ok <==> old(config).JObj?
      ensures ok ==> config == SetPath(old(config), ["notes"], JArr(notes)).value
      ensures ok ==> NotesOf(config) == Some(notes)
      ensures !ok ==> config == old(config)
      ensures step == old(step) && generatedLink == old(generatedLink)
    {
      SplitNoSeparator("notes", '.');
      ok := UpdateConfig("notes", JArr(notes));
      if ok {
        GetAfterSet(old(config), ["notes"], JArr(notes));
      }
    }

    /** The remove button of note `idx`. */
    method RemoveNote(idx: int) returns (ok: bool)
      modifies this
      ensures ok <==> NotesOf(old(config)).Some?
      ensures ok ==> NotesOf(config) == Some(RemoveIndex(NotesOf(old(config)).value, idx))
      ensures ok ==> config == SetPath(old(config), ["notes"], JArr(RemoveIndex(NotesOf(old(config)).value, idx))).value
      ensures !ok ==> config == old(config)
      ensures step == old(step) && generatedLink == old(generatedLink)
    {
      var notes := NotesOf(config);
      if notes.None? {
        return false;
      }
      ok := SetNotes(RemoveIndex(notes.value, idx));
    }

    /** "Add Another Note", with `now` standing for `Date.now()`. */
    method AddNote(now: int) returns (ok: bool)
      modifies this
      ensures ok <==> NotesOf(old(config)).Some?
      ensures ok ==> NotesOf(config) == Some(NotesOf(old(config)).value + [NewNote(now)])
      ensures ok ==> config == SetPath(old(config), ["notes"], JArr(NotesOf(old(config)).value + [NewNote(now)])).value
      ensures !ok ==> config == old(config)
      ensures step == old(step) && generatedLink == old(generatedLink)
    {
      var notes := NotesOf(config);
      if notes.None? {
        return false;
      }
      ok := SetNotes(notes.value + [NewNote(now)]);
    }

    /** The day select (`field` is `day`) or the text input (`field` is
        `content`) of note `idx`. */
    method EditNote(idx: int, field: string, value: JsValue) returns (ok: bool)
      requires field == "day" || field == "content"
      modifies this
      ensures ok <==> NotesOf(old(config)).Some? && SetNoteField(NotesOf(old(config)).value, idx, field, value).Some?
      ensures ok ==> NotesOf(config) == SetNoteField(NotesOf(old(config)).value, idx, field, value)
      ensures ok ==> config == SetPath(old(config), ["notes"], JArr(SetNoteField(NotesOf(old(config)).value, idx, field, value).value)).value
      ensures !ok ==> config == old(config)
      ensures step == old(step) && generatedLink == old(generatedLink)
    {
      var notes := NotesOf(config);
      if notes.None? {
        return false;
      }
      var edited := SetNoteField(notes.value, idx, field, value);
      if edited.None? {
        return false;
      }
      ok := SetNotes(edited.value);
    }

    /** "Previous": one step back, never below the first. */
    method Previous()
      requires Valid() && step < 6
      modifies this
      ensures Valid()
      ensures step == if old(step) == 1 then 1 else old(step) - 1
      ensures config == old(config) && generatedLink == old(generatedLink)
    {
      step := if step - 1 > 1 then step - 1 else 1;
    }

    /** "Next Step", offered before the last input step. */
    method Next()
      requires Valid() && step < 5
      modifies this
      ensures Valid()
      ensures step == old(step) + 1
      ensures config == old(config) && generatedLink == old(generatedLink)
    {
      step := step + 1;
    }

    /** "Generate Sanctuary" on step 5: `origin` is `window.location.origin`
        and `encoded` the output of `encodeConfig`. */
    method Generate(origin: string, encoded: string)
      requires Valid() && step == 5
      modifies this
      ensures Valid() && step == 6
      ensures generatedLink == origin + "/#config=" + encoded
      ensures config == old(config)
    {
      generatedLink := origin + "/#config=" + encoded;
      step := 6;
    }
  }
}
