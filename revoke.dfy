/** src/app/revoke/page.tsx: checking a pasted link, collecting the assets
    its configuration points to, and asking the server to delete them. */
module Revoke {
  import opened Wrappers
  import opened Crypto
  import opened Config
  import Context

  datatype Phase = Idle | Verifying | Confirming | Deleting | Success | Error

  /** The parts of a pasted URL the page reads: the `d` and `iv` query
      parameters and the hash (with its `#`). */
  datatype ParsedLink = ParsedLink(d: Option<string>, iv: Option<string>, hash: string)

  /** The link data kept for the delete request. */
  datatype LinkPayload = LinkPayload(d: string, iv: string, k: string)

  /** The JSON body POSTed to the delete route. */
  datatype DeleteRequest = DeleteRequest(urls: seq<string>, d: string, iv: string, k: string)

  /** What the delete route answers: a parsed JSON reply, or a failure of
      `fetch` or `res.json()` with its message. */
  datatype ServerReply = Reply(success: bool, error: Option<string>) | Failure(message: string)

  const InvalidLinkMessage := "This doesn't look like a valid sanctuary link. Make sure you included the full URL including the part after the '#'."
  const NoAssetsMessage := "We couldn't find any uploaded photos or videos associated with this link."
  const ParseFallbackMessage := "Failed to parse link."
  const DeleteFallbackMessage := "Server failed to delete assets."

  /** The lists of a record of lists, concatenated in entry order. */
  function Flatten(entries: seq<(string, seq<string>)>): (urls: seq<string>)
    ensures (forall k :: 0 <= k < |entries| ==> entries[k].1 == []) ==> urls == []
    decreases |entries|
  {
    if entries == [] then [] else entries[0].1 + Flatten(entries[1..])
  }

  lemma {:induction false} FlattenMember(entries: seq<(string, seq<string>)>, u: string)
    ensures u in Flatten(entries) <==> exists k :: 0 <= k < |entries| && u in entries[k].1
  {
    if entries != [] {
      FlattenMember(entries[1..], u);
      if u in Flatten(entries) && u !in entries[0].1 {
        var k :| 0 <= k < |entries| - 1 && u in entries[1..][k].1;
        assert u in entries[k + 1].1;
      }
      if exists k :: 0 <= k < |entries| && u in entries[k].1 {
        var k :| 0 <= k < |entries| && u in entries[k].1;
        if k > 0 { assert u in entries[1..][k - 1].1; }
      }
    }
  }

  lemma FlattenAppend(entries: seq<(string, seq<string>)>, k: nat)
    requires k < |entries|
    ensures Flatten(entries[..k + 1]) == Flatten(entries[..k]) + entries[k].1
  {
    if k > 0 {
      assert entries[..k + 1][1..] == entries[1..][..k];
      assert entries[..k][1..] == entries[1..][..k - 1];
      FlattenAppend(entries[1..], k - 1);
    } else {
      assert entries[..1] == [entries[0]];
    }
  }

  function Present(s: Option<string>): seq<string> {
    if Truthy(s) then [s.value] else []
  }

  /** The assets a configuration points to: the background, then the video,
      then every gallery list in entry order; absent or empty fields add nothing. */
  function AssetUrls(config: ValentineConfig): (urls: seq<string>)
    ensures Truthy(config.backgroundUrl) ==> |urls| > 0 && urls[0] == config.backgroundUrl.value
    ensures Truthy(config.videoUrl) ==>
              var at := if Truthy(config.backgroundUrl) then 1 else 0;
              |urls| > at && urls[at] == config.videoUrl.value
  {
    Present(config.backgroundUrl) + Present(config.videoUrl) +
    (if config.galleryImages.Some? then Flatten(config.galleryImages.value) else [])
  }

  /** Every collected URL comes from the configuration, and every asset it names is collected. */
  lemma AssetUrlsMembers(config: ValentineConfig, u: string)
    ensures u in AssetUrls(config) <==>
      (Truthy(config.backgroundUrl) && u == config.backgroundUrl.value) ||
      (Truthy(config.videoUrl) && u == config.videoUrl.value) ||
      (config.galleryImages.Some? && exists k :: 0 <= k < |config.galleryImages.value| && u in config.galleryImages.value[k].1)
  {
    if config.galleryImages.Some? {
      FlattenMember(config.galleryImages.value, u);
    }
  }

  /** The asset list is empty exactly when there is no background, no video
      and no gallery image. */
  lemma NoAssetsIff(config: ValentineConfig)
    ensures AssetUrls(config) == [] <==>
      !Truthy(config.backgroundUrl) && !Truthy(config.videoUrl) &&
      (config.galleryImages.Some? ==> forall k :: 0 <= k < |config.galleryImages.value| ==> config.galleryImages.value[k].1 == [])
  {
    if config.galleryImages.Some? {
      var g := config.galleryImages.value;
      if Flatten(g) == [] {
        forall k | 0 <= k < |g| ensures g[k].1 == [] {
          if g[k].1 != [] {
            FlattenMember(g, g[k].1[0]);
          }
        }
      } else {
        FlattenMember(g, Flatten(g)[0]);
      }
    }
  }

  /** The successive `push` calls of `handleVerify`. */
  method CollectAssets(config: ValentineConfig) returns (urls: seq<string>)
    ensures urls == AssetUrls(config)
  {
    urls := [];
    if Truthy(config.backgroundUrl) {
      urls := urls + [config.backgroundUrl.value];
    }
    if Truthy(config.videoUrl) {
      urls := urls + [config.videoUrl.value];
    }
    if config.galleryImages.Some? {
      urls := PushGallery(urls, config.galleryImages.value);
    }
  }

  /** The `forEach` over the gallery record: every list pushed in entry order. */
  method PushGallery(front: seq<string>, entries: seq<(string, seq<string>)>) returns (urls: seq<string>)
    ensures urls == front + Flatten(entries)
  {
    urls := front;
    var i := 0;
    while i < |entries|
      invariant 0 <= i <= |entries|
      invariant urls == front + Flatten(entries[..i])
    {
      FlattenAppend(entries, i);
      urls := urls + entries[i].1;
      i := i + 1;
    }
    assert entries[..i] == entries;
  }

  /** What a successful `handleVerify` keeps: the link data and the non-empty
      asset list of the configuration it decrypts to; `None` on every error path. */
  function VerifiedLink(p: Platform, j: Json<ValentineConfig>, parsed: Option<ParsedLink>): (r: Option<(LinkPayload, seq<string>)>)
    ensures r.Some? <==>
              (parsed.Some? && Context.HasLink(parsed.value.d, parsed.value.iv, parsed.value.hash) &&
               var link := parsed.value;
               var config := Context.OuterDecrypt(p, j, link.d.value, link.iv.value, Context.Fragment(link.hash));
               config.Some? && AssetUrls(config.value) != [])
    ensures r.Some? ==>
              (r.value.1 == AssetUrls(Context.OuterDecrypt(p, j, parsed.value.d.value, parsed.value.iv.value, Context.Fragment(parsed.value.hash)).value) &&
               r.value.1 != [] && r.value.0.k == Context.Fragment(parsed.value.hash) &&
               Some(r.value.0.d) == parsed.value.d && Some(r.value.0.iv) == parsed.value.iv)
  {
    if parsed.None? || !Context.HasLink(parsed.value.d, parsed.value.iv, parsed.value.hash) then None
    else
      var link := parsed.value;
      var k := Context.Fragment(link.hash);
      match Context.OuterDecrypt(p, j, link.d.value, link.iv.value, k)
      case None => None
      case Some(config) =>
        if AssetUrls(config) == [] then None
        else Some((LinkPayload(link.d.value, link.iv.value, k), AssetUrls(config)))
  }

  class RevokePage {
    var status: Phase
    var errorMsg: string
    var assetsFound: seq<string>
    var payload: Option<LinkPayload>

    /** A stored payload always comes with a non-empty asset list, and
        confirmation is only offered with a payload. */
    predicate Valid()
      reads this
    {
      (payload.Some? ==> assetsFound != []) && (status == Confirming ==> payload.Some?)
    }

    constructor ()
      ensures status == Idle && errorMsg == "" && assetsFound == [] && payload == None
      ensures Valid()
    {
      status := Idle;
      errorMsg := "";
      assetsFound := [];
      payload := None;
    }

    /** `handleVerify`.  `parsed` is `None` where `new URL` throws, and
        `thrown` is the message of whatever the platform throws. */
    method HandleVerify(p: Platform, j: Json<ValentineConfig>, parsed: Option<ParsedLink>, thrown: string)
      requires Valid()
      modifies this
      ensures Valid()
      ensures var v := VerifiedLink(p, j, parsed);
              (v.Some? ==> status == Confirming && errorMsg == "" && payload == Some(v.value.0) && assetsFound == v.value.1) &&
              (v.None? ==> status == Error && errorMsg != "" && assetsFound == old(assetsFound) && payload == old(payload))
      ensures parsed.None? ==> errorMsg == if thrown != "" then thrown else ParseFallbackMessage
      ensures parsed.Some? && !Context.HasLink(parsed.value.d, parsed.value.iv, parsed.value.hash) ==> errorMsg == InvalidLinkMessage
      ensures parsed.Some? && Context.HasLink(parsed.value.d, parsed.value.iv, parsed.value.hash) &&
              Context.OuterDecrypt(p, j, parsed.value.d.value, parsed.value.iv.value, Context.Fragment(parsed.value.hash)).None? ==>
                errorMsg == if thrown != "" then thrown else ParseFallbackMessage
      ensures parsed.Some? && Context.HasLink(parsed.value.d, parsed.value.iv, parsed.value.hash) &&
              (var c := Context.OuterDecrypt(p, j, parsed.value.d.value, parsed.value.iv.value, Context.Fragment(parsed.value.hash));
               c.Some? && AssetUrls(c.value) == []) ==>
                errorMsg == NoAssetsMessage
    {
      status := Verifying;
      errorMsg := "";
      if parsed.None? {
        Fail(thrown);
        return;
      }
      var link := parsed.value;
      var k := Context.Fragment(link.hash);
      if !Truthy(link.d) || !Truthy(link.iv) || k == "" {
        status := Error;
        errorMsg := InvalidLinkMessage;
        return;
      }
      var config := Context.OuterDecrypt(p, j, link.d.value, link.iv.value, k);
      if config.None? {
        Fail(thrown);
        return;
      }
      var urls := CollectAssets(config.value);
      if |urls| == 0 {
        status := Error;
        errorMsg := NoAssetsMessage;
        return;
      }
      assetsFound := urls;
      payload := Some(LinkPayload(link.d.value, link.iv.value, k));
      status := Confirming;
    }

    /** The `catch` of `handleVerify`: `e.message || "Failed to parse link."`. */
    method Fail(thrown: string)
      modifies this
      ensures status == Error && errorMsg == if thrown != "" then thrown else ParseFallbackMessage
      ensures assetsFound == old(assetsFound) && payload == old(payload)
    {
      status := Error;
      errorMsg := if thrown != "" then thrown else ParseFallbackMessage;
    }

    /** `executeDelete`: nothing without a payload; otherwise the collected
        assets and the link data are sent, and the phase ends as `success`
        exactly when the server reports success. */
    method ExecuteDelete(reply: ServerReply) returns (sent: Option<DeleteRequest>)
      requires Valid()
      modifies this
      ensures Valid()
      ensures assetsFound == old(assetsFound) && payload == old(payload)
      ensures payload.None? ==> sent == None && status == old(status) && errorMsg == old(errorMsg)
      ensures payload.Some? ==>
        sent == Some(DeleteRequest(assetsFound, payload.value.d, payload.value.iv, payload.value.k)) &&
        (status == Success <==> reply.Reply? && reply.success) &&
        (status != Success ==> status == Error)
      ensures payload.Some? && reply.Reply? && reply.success ==> errorMsg == old(errorMsg)
      ensures payload.Some? && reply.Reply? && !reply.success ==>
        errorMsg == if Truthy(reply.error) then reply.error.value else DeleteFallbackMessage
      ensures payload.Some? && reply.Failure? ==> errorMsg == reply.message
      ensures sent.Some? ==> sent.value.urls != []
    {
      if payload.None? {
        return None;
      }
      status := Deleting;
      sent := Some(DeleteRequest(assetsFound, payload.value.d, payload.value.iv, payload.value.k));
      match reply
      case Failure(message) =>
        status := Error;
        errorMsg := message;
      case Reply(success, error) =>
        if success {
          status := Success;
        } else {
          status := Error;
          errorMsg := if Truthy(error) then error.value else DeleteFallbackMessage;
        }
    }

    /** The Cancel button. */
    method Cancel()
      requires Valid()
      modifies this
      ensures Valid()
      ensures status == Idle && errorMsg == old(errorMsg) && assetsFound == old(assetsFound) && payload == old(payload)
    {
      status := Idle;
    }
  }
}
