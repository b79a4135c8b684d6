/** src/components/ScratchOffImage.tsx: a gallery photo under a scratch
    layer that comes off for good once enough of it is transparent. */
module Scratch {
  import opened Base64
  import opened Config

  /** The number of pixels whose alpha byte (the fourth of each RGBA group)
      is 0; a trailing partial group has no alpha byte. */
  function AlphaZero(p: seq<byte>): (count: nat)
    ensures count <= |p| / 4
    decreases |p|
  {
    if |p| < 4 then 0 else (if p[3] == 0 then 1 else 0) + AlphaZero(p[4..])
  }

  lemma AlphaZeroStep(p: seq<byte>, j: nat)
    requires j + 3 < |p|
    ensures AlphaZero(p[j..]) == (if p[j + 3] == 0 then 1 else 0) + AlphaZero(p[j + 4..])
  {
    assert p[j..][4..] == p[j + 4..];
  }

  /** A layer scratched clean counts every pixel, an untouched opaque layer none. */
  lemma {:induction false} AlphaZeroExtremes(p: seq<byte>)
    ensures (forall k :: 0 <= k < |p| / 4 ==> p[4 * k + 3] == 0) ==> AlphaZero(p) == |p| / 4
    ensures (forall k :: 0 <= k < |p| / 4 ==> p[4 * k + 3] != 0) ==> AlphaZero(p) == 0
    decreases |p|
  {
    if |p| >= 4 {
      var t := p[4..];
      AlphaZeroExtremes(t);
      assert |t| / 4 == |p| / 4 - 1;
      assert AlphaZero(p) == (if p[3] == 0 then 1 else 0) + AlphaZero(t);
      if forall k :: 0 <= k < |p| / 4 ==> p[4 * k + 3] == 0 {
        assert p[3] == 0 by { assert p[4 * 0 + 3] == 0; }
        forall k | 0 <= k < |t| / 4 ensures t[4 * k + 3] == 0 {
          assert t[4 * k + 3] == p[4 * (k + 1) + 3];
        }
      }
      if forall k :: 0 <= k < |p| / 4 ==> p[4 * k + 3] != 0 {
        assert p[3] != 0 by { assert p[4 * 0 + 3] != 0; }
        forall k | 0 <= k < |t| / 4 ensures t[4 * k + 3] != 0 {
          assert t[4 * k + 3] == p[4 * (k + 1) + 3];
        }
      }
    }
  }

  /** The scan of `checkScratchPercentage`: alpha bytes sit at 3, 7, 11, … */
  method CountTransparent(pixels: array<byte>) returns (count: nat)
    ensures count == AlphaZero(pixels[..])
    ensures count <= pixels.Length / 4
  {
    ghost var p := pixels[..];
    count := 0;
    var i := 3;
    while i < pixels.Length
      invariant 3 <= i <= pixels.Length + 3
      invariant count + AlphaZero(p[i - 3..]) == AlphaZero(p)
    {
      AlphaZeroStep(p, i - 3);
      if pixels[i] == 0 {
        count := count + 1;
      }
      i := i + 4;
    }
  }

  /** `(count / (len / 4)) * 100 > 45` over the reals, cleared of division;
      an empty buffer gives `NaN`, which is not greater than 45. */
  predicate Reveals(count: nat, len: nat)
    ensures Reveals(count, len) ==> len > 0 && count > 0
  {
    len > 0 && 400 * count > 45 * len
  }

  /** Scratching more never covers the photo again. */
  lemma RevealsMonotone(count: nat, more: nat, len: nat)
    requires count <= more && Reveals(count, len)
    ensures Reveals(more, len)
  {
  }

  /** A clean non-empty layer is revealed; an untouched one never is. */
  lemma RevealThreshold(p: seq<byte>)
    requires |p| >= 4
    ensures (forall k :: 0 <= k < |p| / 4 ==> p[4 * k + 3] == 0) ==> Reveals(AlphaZero(p), |p|)
    ensures (forall k :: 0 <= k < |p| / 4 ==> p[4 * k + 3] != 0) ==> !Reveals(AlphaZero(p), |p|)
  {
    AlphaZeroExtremes(p);
    var q := |p| / 4;
    assert |p| < 4 * q + 4;
    assert 400 * q > 45 * |p|;
  }

  class ScratchCard {
    const id: string
    var isScratched: bool
    var isInitialized: bool
    var imageLoaded: bool
    /** The drag flag of the installed handlers. */
    var isDrawing: bool

    function StorageKey(): (key: string)
      reads this
      ensures key == "scratch_" + id
    {
      "scratch_" + id
    }

    /** The canvas handlers are installed while the layer is still on and
        both the stored flag and the photo have been loaded. */
    predicate HandlersActive()
      reads this
    {
      !isScratched && isInitialized && imageLoaded
    }

    /** Only an installed handler can be mid-drag. */
    predicate Valid()
      reads this
    {
      isDrawing ==> HandlersActive()
    }

    constructor(id: string)
      ensures Valid()
      ensures this.id == id && !isScratched && !isInitialized && !imageLoaded && !isDrawing
    {
      this.id := id;
      isScratched := false;
      isInitialized := false;
      imageLoaded := false;
      isDrawing := false;
    }

    /** The first effect: a stored `"true"` brings the photo back uncovered. */
    method Mount(storage: map<string, string>)
      requires Valid()
      modifies this
      ensures Valid()
      ensures isScratched == (old(isScratched) || StoredTrue(storage, StorageKey()))
      ensures isInitialized && imageLoaded == old(imageLoaded)
      ensures !isDrawing
    {
      if StoredTrue(storage, StorageKey()) {
        isScratched := true;
      }
      isInitialized := true;
      isDrawing := false;
    }

    /** The photo's `onLoad`. */
    method ImageLoad()
      requires Valid()
      modifies this
      ensures Valid()
      ensures imageLoaded && isScratched == old(isScratched) && isInitialized == old(isInitialized)
      ensures isDrawing == (old(isDrawing) && old(imageLoaded))
    {
      if !imageLoaded {
        imageLoaded := true;
        isDrawing := false;
      }
    }

    /** `mousedown` or `touchstart` on the canvas: starts a drag when the handlers are installed. */
    method PointerDown()
      requires Valid()
      modifies this
      ensures Valid()
      ensures isDrawing == (old(isDrawing) || HandlersActive())
      ensures isScratched == old(isScratched) && isInitialized == old(isInitialized) && imageLoaded == old(imageLoaded)
    {
      if HandlersActive() {
        isDrawing := true;
      }
    }

    /** `mouseup` or `touchend`: only the end of a drag measures the layer,
        and a share above 45% uncovers the photo and stores the flag. */
    method PointerUp(pixels: array<byte>, storage: map<string, string>) returns (stored: map<string, string>)
      requires Valid()
      modifies this
      ensures Valid() && !isDrawing
      ensures old(isDrawing) && Reveals(AlphaZero(pixels[..]), pixels.Length) ==>
                isScratched && stored == storage[StorageKey() := "true"]
      ensures !(old(isDrawing) && Reveals(AlphaZero(pixels[..]), pixels.Length)) ==>
                isScratched == old(isScratched) && stored == storage
      ensures isInitialized == old(isInitialized) && imageLoaded == old(imageLoaded)
    {
      stored := storage;
      if isDrawing {
        isDrawing := false;
        var count := CountTransparent(pixels);
        if Reveals(count, pixels.Length) {
          isScratched := true;
          stored := storage[StorageKey() := "true"];
        }
      }
    }
  }
}
