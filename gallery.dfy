/** src/components/Gallery.tsx: the three photo sections, the flat list of
    unlocked images the lightbox walks through, and its index arithmetic. */
module Gallery {
  import opened Wrappers
  import opened Text
  import opened Config

  const DefaultDay12: seq<string> := [
    "IMG_1254.JPEG", "IMG_1290.JPEG", "IMG_1292.JPEG", "IMG_1307.JPEG", "IMG_2104.JPG",
    "IMG_2139.JPG", "IMG_2140.JPEG", "IMG_3117.JPEG", "IMG_3119.JPG", "IMG_3122.JPEG",
    "IMG_3436.JPEG", "IMG_5365.JPG", "IMG_5383.JPG", "IMG_6995.JPG", "IMG_8156.JPG",
    "IMG_8161.JPG", "IMG_8165.JPG", "IMG_8172.JPG", "IMG_8183.JPG", "IMG_8190.JPG",
    "lp_image-1.JPEG", "lp_image-2.JPEG", "lp_image.JPEG"]
  const DefaultDay13: seq<string> := [
    "IMG_0638.jpeg", "IMG_0639.jpeg", "IMG_0643.jpeg", "IMG_0647.jpeg", "IMG_0663.jpeg",
    "IMG_0665.jpeg", "IMG_0712.jpeg", "IMG_0724.jpeg", "IMG_0746.jpeg", "IMG_0799.jpeg",
    "IMG_0807.jpeg", "IMG_0929.jpeg", "IMG_0948.jpeg", "IMG_1004.jpeg", "IMG_1019.jpeg",
    "IMG_1134.jpeg", "IMG_1135.jpeg", "IMG_1137.jpeg", "IMG_1140.jpeg", "IMG_1250.jpeg",
    "IMG_1257.jpeg", "IMG_2527.jpeg", "lp_image.jpeg"]
  const DefaultDay14: seq<string> := [
    "IMG_0666.jpeg", "IMG_0746.jpeg", "IMG_0767.jpeg", "IMG_0785.jpeg", "IMG_0929.jpeg",
    "IMG_0961.jpeg", "IMG_0987.jpeg", "IMG_1023.jpeg", "IMG_1135.jpeg", "IMG_1140.jpeg",
    "IMG_1225.jpeg", "IMG_1239.jpeg", "IMG_1395.jpeg", "IMG_1410.jpeg", "IMG_1725.jpeg",
    "IMG_1727.jpeg", "IMG_1970.jpeg", "IMG_2461.jpeg"]

  datatype Section = Section(day: int, images: seq<string>, caption: string, folder: string)

  datatype GalleryImage = GalleryImage(src: string, id: string)

  /** `config.galleryImages?.[key] || fallback`: an array, even an empty one,
      is truthy, so only a missing entry falls back. */
  function SectionImages(config: ValentineConfig, key: string, fallback: seq<string>): (images: seq<string>)
    ensures config.galleryImages.None? ==> images == fallback
    ensures config.galleryImages.Some? && Lookup(config.galleryImages.value, key).Some? ==>
              images == Lookup(config.galleryImages.value, key).value
    ensures config.galleryImages.Some? && Lookup(config.galleryImages.value, key).None? ==> images == fallback
  {
    if config.galleryImages.None? then fallback
    else
      match Lookup(config.galleryImages.value, key)
      case None => fallback
      case Some(list) => list
  }

  /** `allSections`: the 12th, 13th and 14th, each with its caption and asset folder. */
  function AllSections(config: ValentineConfig): (sections: seq<Section>)
    ensures |sections| == 3
    ensures sections[0].day == 12 && sections[1].day == 13 && sections[2].day == 14
    ensures forall k :: 0 <= k < 3 ==> sections[k].folder == "day" + IntToString(k + 1)
    ensures sections[0].images == SectionImages(config, "day12", DefaultDay12)
    ensures sections[1].images == SectionImages(config, "day13", DefaultDay13)
    ensures sections[2].images == SectionImages(config, "day14", DefaultDay14)
  {
    [Section(12, SectionImages(config, "day12", DefaultDay12), "Part 1: The Beginning", "day1"),
     Section(13, SectionImages(config, "day13", DefaultDay13), "Part 2: Our Journey", "day2"),
     Section(14, SectionImages(config, "day14", DefaultDay14), "Part 3: Today & Forever", "day3")]
  }

  /** An absolute `http` source is kept; a bare file name is looked up in the section's folder. */
  function FullSrc(folder: string, src: string): (full: string)
    ensures StartsWith(src, "http") ==> full == src
    ensures !StartsWith(src, "http") ==> full == "/assets/images/" + folder + "/" + src
  {
    if StartsWith(src, "http") then src else "/assets/images/" + folder + "/" + src
  }

  function ImageId(day: int, idx: nat): (id: string)
    ensures |id| > 8 && id[..8] == "gallery_"
  {
    "gallery_" + IntToString(day) + "_" + IntToString(idx)
  }

  /** Different images get different ids: the id determines the day and the position. */
  lemma ImageIdInjective(day: int, idx: nat, day': int, idx': nat)
    requires ImageId(day, idx) == ImageId(day', idx')
    ensures day == day' && idx == idx'
  {
    var a, a' := IntToString(day), IntToString(day');
    var b, b' := IntToString(idx), IntToString(idx');
    NoUnderscore(day);
    NoUnderscore(day');
    Reassociate("gallery_", a, "_", b);
    Reassociate("gallery_", a', "_", b');
    DropPrefix("gallery_", a + "_" + b, a' + "_" + b');
    SplitAtSeparator(a, b, a', b', '_');
    IntToStringInjective(day, day');
    IntToStringInjective(idx, idx');
  }

  /** The images of one section, each with its full source and its id. */
  function SectionEntries(s: Section): (entries: seq<GalleryImage>)
    ensures |entries| == |s.images|
    ensures forall i :: 0 <= i < |s.images| ==> entries[i] == GalleryImage(FullSrc(s.folder, s.images[i]), ImageId(s.day, i))
  {
    seq(|s.images|, i requires 0 <= i < |s.images| => GalleryImage(FullSrc(s.folder, s.images[i]), ImageId(s.day, i)))
  }

  /** `unlockedImages`: the entries of the unlocked sections, in section
      order; `unlockedDays` holds the days for which `isTrackUnlocked` holds. */
  function UnlockedImages(sections: seq<Section>, unlockedDays: set<int>): (images: seq<GalleryImage>)
    ensures |images| == SumUnlocked(sections, unlockedDays)
    decreases |sections|
  {
    if sections == [] then []
    else (if sections[0].day in unlockedDays then SectionEntries(sections[0]) else []) + UnlockedImages(sections[1..], unlockedDays)
  }

  /** An image is in the list exactly when it is an entry of an unlocked section. */
  lemma {:induction false} UnlockedImagesMembers(sections: seq<Section>, unlockedDays: set<int>, img: GalleryImage)
    ensures img in UnlockedImages(sections, unlockedDays) <==>
      exists k, i :: 0 <= k < |sections| && sections[k].day in unlockedDays && 0 <= i < |sections[k].images| &&
                     img == SectionEntries(sections[k])[i]
  {
    if sections != [] {
      UnlockedImagesMembers(sections[1..], unlockedDays, img);
      var head := if sections[0].day in unlockedDays then SectionEntries(sections[0]) else [];
      if img in head {
        var i :| 0 <= i < |head| && head[i] == img;
        assert 0 <= 0 < |sections| && sections[0].day in unlockedDays && 0 <= i < |sections[0].images|;
      }
      if img in UnlockedImages(sections[1..], unlockedDays) {
        var k, i :| 0 <= k < |sections[1..]| && sections[1..][k].day in unlockedDays && 0 <= i < |sections[1..][k].images| &&
                    img == SectionEntries(sections[1..][k])[i];
        assert sections[k + 1] == sections[1..][k];
      }
      if exists k, i :: 0 <= k < |sections| && sections[k].day in unlockedDays && 0 <= i < |sections[k].images| &&
                        img == SectionEntries(sections[k])[i] {
        var k, i :| 0 <= k < |sections| && sections[k].day in unlockedDays && 0 <= i < |sections[k].images| &&
                    img == SectionEntries(sections[k])[i];
        UnlockedImagesAt(sections, unlockedDays, k, i);
      }
    }
  }

  /** With nothing unlocked there is nothing to show, and with every day unlocked nothing is hidden. */
  lemma {:induction false} UnlockedImagesLength(sections: seq<Section>, unlockedDays: set<int>)
    ensures |UnlockedImages(sections, unlockedDays)| == SumUnlocked(sections, unlockedDays)
    ensures (forall k :: 0 <= k < |sections| ==> sections[k].day !in unlockedDays) ==> UnlockedImages(sections, unlockedDays) == []
  {
    if sections != [] {
      UnlockedImagesLength(sections[1..], unlockedDays);
      if forall k :: 0 <= k < |sections| ==> sections[k].day !in unlockedDays {
        assert sections[0].day !in unlockedDays;
        assert forall k :: 0 <= k < |sections[1..]| ==> sections[1..][k].day == sections[k + 1].day;
      }
    }
  }

  lemma NoUnderscore(i: int)
    ensures '_' !in IntToString(i)
  {
    var s := IntToString(i);
    assert forall k :: 0 <= k < |s| ==> s[k] != '_';
  }

  /** Unlocking distributes over splitting the sections. */
  lemma {:induction false} UnlockedImagesAppend(a: seq<Section>, b: seq<Section>, unlockedDays: set<int>)
    ensures UnlockedImages(a + b, unlockedDays) == UnlockedImages(a, unlockedDays) + UnlockedImages(b, unlockedDays)
    decreases |a|
  {
    if a == [] {
      assert a + b == b;
    } else {
      assert (a + b)[0] == a[0];
      assert (a + b)[1..] == a[1..] + b;
      UnlockedImagesAppend(a[1..], b, unlockedDays);
    }
  }

  /** The list keeps section order: image `i` of an unlocked section `k`
      sits after all images of the unlocked sections before it. */
  lemma UnlockedImagesAt(sections: seq<Section>, unlockedDays: set<int>, k: nat, i: nat)
    requires k < |sections| && sections[k].day in unlockedDays && i < |sections[k].images|
    ensures SumUnlocked(sections[..k], unlockedDays) + i < |UnlockedImages(sections, unlockedDays)|
    ensures UnlockedImages(sections, unlockedDays)[SumUnlocked(sections[..k], unlockedDays) + i] == SectionEntries(sections[k])[i]
  {
    var before, after := sections[..k], sections[k..];
    assert sections == before + after;
    UnlockedImagesAppend(before, after, unlockedDays);
    assert after[0] == sections[k];
    UnlockedImagesFirst(after, unlockedDays, i);
    ConcatIndex(UnlockedImages(before, unlockedDays), UnlockedImages(after, unlockedDays), i);
  }

  /** The first section, when unlocked, opens the list. */
  lemma UnlockedImagesFirst(sections: seq<Section>, unlockedDays: set<int>, i: nat)
    requires 0 < |sections| && sections[0].day in unlockedDays && i < |sections[0].images|
    ensures i < |UnlockedImages(sections, unlockedDays)|
    ensures UnlockedImages(sections, unlockedDays)[i] == SectionEntries(sections[0])[i]
  {
    ConcatIndexLeft(SectionEntries(sections[0]), UnlockedImages(sections[1..], unlockedDays), i);
  }

  lemma ConcatIndexLeft<T>(a: seq<T>, b: seq<T>, j: nat)
    requires j < |a|
    ensures j < |a + b| && (a + b)[j] == a[j]
  {
  }

  lemma ConcatIndex<T>(a: seq<T>, b: seq<T>, j: nat)
    requires j < |b|
    ensures |a| + j < |a + b| && (a + b)[|a| + j] == b[j]
  {
  }

  /** The number of images in the unlocked sections. */
  function SumUnlocked(sections: seq<Section>, unlockedDays: set<int>): nat {
    if sections == [] then 0
    else (if sections[0].day in unlockedDays then |sections[0].images| else 0) + SumUnlocked(sections[1..], unlockedDays)
  }

  /** `findIndex(img => img.id === id)`: the first match, or -1. */
  function FindIndex(images: seq<GalleryImage>, id: string): (r: int)
    ensures -1 <= r < |images|
    ensures r == -1 <==> forall j :: 0 <= j < |images| ==> images[j].id != id
    ensures r >= 0 ==> images[r].id == id && forall j :: 0 <= j < r ==> images[j].id != id
  {
    if images == [] then -1
    else if images[0].id == id then 0
    else
      var r := FindIndex(images[1..], id);
      if r == -1 then -1 else r + 1
  }

  /** `handleImageClick`: opens the lightbox on the first image with that id,
      and leaves the index alone when none has it. */
  function HandleImageClick(images: seq<GalleryImage>, id: string, current: Option<nat>): (r: Option<nat>)
    ensures (forall j :: 0 <= j < |images| ==> images[j].id != id) ==> r == current
    ensures (exists j :: 0 <= j < |images| && images[j].id == id) ==>
              r.Some? && r.value < |images| && images[r.value].id == id &&
              forall j :: 0 <= j < r.value ==> images[j].id != id
  {
    var index := FindIndex(images, id);
    if index != -1 then Some(index) else current
  }

  /** `onNext`: one step forward, wrapping from the last image to the first. */
  function OnNext(index: Option<nat>, n: nat): (r: Option<nat>)
    requires index.Some? ==> index.value < n
    ensures r.Some? <==> index.Some?
    ensures r.Some? ==> r.value < n
    ensures index.Some? && index.value + 1 < n ==> r == Some(index.value + 1)
    ensures index == Some(n - 1) ==> r == Some(0)
  {
    if index.None? then None
    else if index.value + 1 < n then (ModSmall(index.value + 1, n); Some((index.value + 1) % n))
    else (ModOnce(index.value + 1, n); Some((index.value + 1) % n))
  }

  /** `onPrev`: one step back, wrapping from the first image to the last. */
  function OnPrev(index: Option<nat>, n: nat): (r: Option<nat>)
    requires index.Some? ==> index.value < n
    ensures r.Some? <==> index.Some?
    ensures r.Some? ==> r.value < n
    ensures index.Some? && index.value > 0 ==> r == Some(index.value - 1)
    ensures index == Some(0) ==> r == Some(n - 1)
  {
    if index.None? then None
    else if index.value > 0 then (ModOnce(index.value - 1 + n, n); Some((index.value - 1 + n) % n))
    else (ModSmall(index.value - 1 + n, n); Some((index.value - 1 + n) % n))
  }

  lemma ModSmall(x: int, n: int)
    requires 0 <= x < n
    ensures x % n == x
  {
  }

  lemma ModOnce(x: int, n: int)
    requires 0 < n <= x < 2 * n
    ensures x % n == x - n
  {
    ModSmall(x - n, n);
  }

  /** Forward then back, or back then forward, returns to the same image;
      forward from the last image is the first, back from the first is the last. */
  lemma NextPrevInverse(index: Option<nat>, n: nat)
    requires index.Some? ==> index.value < n
    ensures OnPrev(OnNext(index, n), n) == index
    ensures OnNext(OnPrev(index, n), n) == index
    ensures index == Some(n - 1) ==> OnNext(index, n) == Some(0)
    ensures index == Some(0) ==> OnPrev(index, n) == Some(n - 1)
  {
    if index.Some? {
      var i := index.value;
      if i + 1 < n {
        ModSmall(i + 1, n);
        ModOnce(i + n, n);
      } else {
        ModOnce(i + 1, n);
        ModSmall(n - 1, n);
      }
      if i > 0 {
        ModOnce(i - 1 + n, n);
        ModOnce(i + n, n);
      } else {
        ModSmall(n - 1, n);
        ModOnce(n, n);
      }
    }
  }

  datatype SectionView = Hidden | Photos(entries: seq<GalleryImage>) | Locked

  /** How a section renders: nothing when it is unlocked but empty, its
      photos when unlocked, otherwise the locked countdown. */
  function ViewSection(s: Section, unlocked: bool): (v: SectionView)
    ensures v == Hidden <==> unlocked && |s.images| == 0
    ensures v.Photos? ==> unlocked && v.entries == SectionEntries(s)
    ensures v == Locked <==> !unlocked
  {
    if |s.images| == 0 && unlocked then Hidden
    else if unlocked then Photos(SectionEntries(s))
    else Locked
  }
}
