/**
  The rotating collage: `ZineCollage`'s `tick` counter and frame index
  arithmetic, and `AutoPhoto`'s index wrap and two-phase show/fade swap.
  Timer firings are discrete method calls; wall-clock time is not modelled.
*/
module Collage {
  import opened Wrappers
  import opened JsValues
  import opened Images

  function Max(a: int, b: int): (r: int) {
    if a >= b then a else b
  }

  /**
    `idx(offset) = (tick + offset) % Math.max(images.length, 1)`. All operands
    are non-negative, so JavaScript's remainder and Dafny's agree. The index is
    a position of the list when the list is not empty, and 0 otherwise.
  */
  function Idx(tick: nat, offset: nat, count: nat): (r: nat)
    ensures count > 0 ==> r < count
    ensures count <= 1 ==> r == 0
  {
    (tick + offset) % Max(count, 1)
  }

  /** Advancing `tick` by the list length brings every frame back to the same image. */
  lemma IdxPeriodic(tick: nat, offset: nat, count: nat)
    ensures Idx(tick + count, offset, count) == Idx(tick, offset, count)
  {
    if count > 0 {
      var x := tick + offset;
      assert x + count == (x / count + 1) * count + x % count;
      ModUnique(x + count, count, x / count + 1, x % count);
    }
  }

  /** One tick moves every frame to the next image of the list, wrapping after the last. */
  lemma IdxAdvance(tick: nat, offset: nat, count: nat)
    requires count > 0
    ensures Idx(tick + 1, offset, count) == (Idx(tick, offset, count) + 1) % count
  {
    ShiftedIndex(tick + offset, 1, count);
    assert Idx(tick + 1, offset, count) == Idx(tick + offset, 1, count);
    assert Idx(tick, offset, count) == Idx(tick + offset, 0, count);
  }

  /** `a * n >= n` for a positive factor. */
  lemma MulAtLeast(a: int, n: int)
    requires a >= 1 && n > 0
    ensures a * n >= n
  {
    assert a * n == (a - 1) * n + n;
    if a > 1 {
      MulAtLeast(a - 1, n);
    }
  }

  /** Division with remainder is unique: the remainder of `x` is any `m < n` with `x = q * n + m`. */
  lemma ModUnique(x: int, n: int, q: int, m: int)
    requires n > 0 && 0 <= m < n && x == q * n + m
    ensures x % n == m && x / n == q
  {
    var q', m' := x / n, x % n;
    assert x == q' * n + m';
    if q' < q {
      assert (q - q') * n == q * n - q' * n;
      MulAtLeast(q - q', n);
    } else if q' > q {
      assert (q' - q) * n == q' * n - q * n;
      MulAtLeast(q' - q, n);
    }
  }

  /** The remainder of a value below `2 * n`: subtract `n` once at most. */
  lemma ModBelowTwice(y: int, n: int)
    requires n > 0 && 0 <= y < 2 * n
    ensures y % n == if y < n then y else y - n
  {
    if y < n {
      ModUnique(y, n, 0, y);
    } else {
      ModUnique(y, n, 1, y - n);
    }
  }

  /** The frame at offset `k` shows position `(m + k) % count`, where `m` is frame 0's position. */
  lemma ShiftedIndex(tick: nat, k: nat, count: nat)
    requires count > 0
    ensures Idx(tick, k, count) == (Idx(tick, 0, count) + k) % count
  {
    var q, m := tick / count, tick % count;
    var j, r := (m + k) / count, (m + k) % count;
    assert tick == q * count + m;
    assert m + k == j * count + r;
    assert tick + k == (q + j) * count + r;
    ModUnique(tick + k, count, q + j, r);
  }

  /**
    The three frames (offsets 0, 2 and 4) always show three different images
    exactly when the list has 3 or at least 5 images.
  */
  lemma FramesDistinct(tick: nat, count: nat)
    ensures
      (Idx(tick, 0, count) != Idx(tick, 2, count)
      && Idx(tick, 2, count) != Idx(tick, 4, count)
      && Idx(tick, 0, count) != Idx(tick, 4, count))
      <==> (count == 3 || count >= 5)
  {
    if count > 0 {
      var m := Idx(tick, 0, count);
      ShiftedIndex(tick, 2, count);
      ShiftedIndex(tick, 4, count);
      if count >= 5 {
        ModBelowTwice(m + 2, count);
        ModBelowTwice(m + 4, count);
      } else if count == 3 {
        assert m == 0 || m == 1 || m == 2;
      } else if count == 4 {
        assert m == 0 || m == 1 || m == 2 || m == 3;
      } else if count == 2 {
        assert m == 0 || m == 1;
      }
    }
  }

  /**
    `images[index % images.length]`, read through `?.`: with an empty list the
    remainder is `NaN` and the slot is `undefined`. For an index already in
    range the second wrap changes nothing.
  */
  function PhotoSlot(images: seq<Image>, index: nat): (r: Option<Image>)
    ensures r.None? <==> images == []
    ensures r.Some? ==> r.value in images
    ensures index < |images| ==> r == Some(images[index])
  {
    if images == [] then None else Some(images[index % |images|])
  }

  /** The image a frame of the collage shows at a given tick. */
  function FrameImage(images: seq<Image>, tick: nat, offset: nat): (r: Option<Image>)
    ensures images != [] ==> r == Some(images[Idx(tick, offset, |images|)])
  {
    PhotoSlot(images, Idx(tick, offset, |images|))
  }

  /** `safe?.src`: the source an `AutoPhoto` is asked to show, `undefined` for an empty slot. */
  function SlotSource(slot: Option<Image>): (r: Option<string>)
    ensures r.None? <==> slot.None?
    ensures slot.Some? ==> r == Some(slot.value.src)
  {
    if slot.Some? then Some(slot.value.src) else None
  }

  /**
    `safe?.alt || altFallback`: the frame's own `alt` when truthy, else the
    fallback; for images that passed `safeImg` the fallback is never used.
  */
  function PhotoAlt(slot: Option<Image>, fallback: string): (r: JsValue)
    ensures slot.Some? && Truthy(slot.value.alt) ==> r == slot.value.alt
    ensures !(slot.Some? && Truthy(slot.value.alt)) ==> r == Str(fallback)
    ensures fallback != "" ==> Truthy(r)
  {
    Or(if slot.Some? then slot.value.alt else Undefined, Str(fallback))
  }

  /** On a rendered list, every frame's `alt` is the image's own. */
  lemma FrameAltIsOwn(items: seq<RawItem>, tick: nat, offset: nat)
    requires ValidImages(items) != []
    ensures var slot := FrameImage(ValidImages(items), tick, offset);
      slot.Some? && PhotoAlt(slot, DefaultAlt) == slot.value.alt
  {
    ValidImagesWellFormed(items);
  }

  /** A value `if (!next) return` lets through: a truthy `safe?.src`, that is, a non-empty string. */
  predicate Showable(next: Option<string>)
    ensures Showable(next) <==> next.Some? && Truthy(Str(next.value))
  {
    next.Some? && next.value != ""
  }

  /** On a validated, non-empty list every frame's source is showable, so the effect never returns early. */
  lemma FrameSourceShowable(items: seq<RawItem>, tick: nat, offset: nat)
    requires ValidImages(items) != []
    ensures Showable(SlotSource(FrameImage(ValidImages(items), tick, offset)))
  {
    ValidImagesWellFormed(items);
  }

  /**
    `ZineCollage`'s state: the list it was given and its `tick` counter.
    The interval that advances `tick` is started on mount only when the list
    holds at least two images.
  */
  class Rotator {
    const images: seq<Image>
    var tick: nat
    var intervalActive: bool

    ghost predicate Valid()
      reads this
    {
      && intervalActive == (|images| >= 2)
      && (|images| < 2 ==> tick == 0)
    }

    /** Mount: `tick` starts at 0 and the effect starts the interval if there are two images or more. */
    constructor (images: seq<Image>)
      ensures Valid()
      ensures this.images == images && tick == 0
      ensures intervalActive <==> |images| >= 2
    {
      this.images := images;
      tick := 0;
      intervalActive := |images| >= 2;
    }

    /** The 3600 ms interval elapses: `setTick(t => t + 1)`, if an interval was started. */
    method IntervalElapsed()
      requires Valid()
      modifies this
      ensures Valid()
      ensures tick == old(tick) + (if intervalActive then 1 else 0)
      ensures intervalActive == old(intervalActive)
    {
      if intervalActive {
        tick := tick + 1;
      }
    }

    /** `idx(offset)` for the current tick. With fewer than two images it is always 0. */
    function FrameIndex(offset: nat): (r: nat)
      reads this
      requires Valid()
      ensures images != [] ==> r < |images|
      ensures |images| < 2 ==> r == 0
    {
      Idx(tick, offset, |images|)
    }
  }

  /**
    `AutoPhoto`'s state: the source on screen (`shown`), the `fadeIn` flag,
    the pending 160 ms swap (the source it will show), and the `safe?.src`
    value the effect last ran for (its dependency).
  */
  class Photo {
    var shown: Option<string>
    var fadeIn: bool
    var pendingSwap: Option<string>
    var lastSource: Option<string>

    /** While a swap is pending the photo is faded out, and the swap carries a showable source. */
    ghost predicate Valid()
      reads this
    {
      pendingSwap.Some? ==> !fadeIn && Showable(pendingSwap)
    }

    /**
      Mount with `safe?.src == source`: `shown` starts at the source and
      `fadeIn` at true, then the effect runs once: a showable source is faded
      out and scheduled to be swapped in.
    */
    constructor (source: Option<string>)
      ensures Valid()
      ensures shown == source && lastSource == source
      ensures Showable(source) ==> !fadeIn && pendingSwap == source
      ensures !Showable(source) ==> fadeIn && pendingSwap == None
    {
      shown := source;
      lastSource := source;
      if Showable(source) {
        fadeIn := false;
        pendingSwap := source;
      } else {
        fadeIn := true;
        pendingSwap := None;
      }
    }

    /**
      A re-render with `safe?.src == next`. The effect re-runs only when the
      value changed: its cleanup cancels the pending swap, and a showable
      source is faded out and scheduled. What is on screen does not change yet.
    */
    method Render(next: Option<string>)
      requires Valid()
      modifies this
      ensures Valid()
      ensures shown == old(shown) && lastSource == next
      ensures next == old(lastSource) ==> fadeIn == old(fadeIn) && pendingSwap == old(pendingSwap)
      ensures next != old(lastSource) && Showable(next) ==> !fadeIn && pendingSwap == next
      ensures next != old(lastSource) && !Showable(next) ==> fadeIn == old(fadeIn) && pendingSwap == None
    {
      if next != lastSource {
        lastSource := next;
        pendingSwap := None;
        if Showable(next) {
          fadeIn := false;
          pendingSwap := next;
        }
      }
    }

    /** The 160 ms swap timer fires: the pending source goes on screen and fades in. */
    method SwapTimerFires()
      requires Valid()
      modifies this
      ensures Valid()
      ensures lastSource == old(lastSource)
      ensures old(pendingSwap).Some? ==> shown == old(pendingSwap) && fadeIn && pendingSwap == None
      ensures old(pendingSwap).None? ==>
        shown == old(shown) && fadeIn == old(fadeIn) && pendingSwap == None
    {
      if pendingSwap.Some? {
        shown := pendingSwap;
        fadeIn := true;
        pendingSwap := None;
      }
    }
  }

  /**
    Three images `/a.jpg`, `/b.jpg`, `/c.jpg`: the first frame shows `/a.jpg`,
    then after each interval and swap `/b.jpg`, `/c.jpg`, and `/a.jpg` again.
  */
  method RotationScenario() {
    var a, b, c := Image("/a.jpg", Str("a")), Image("/b.jpg", Str("b")), Image("/c.jpg", Str("c"));
    var rotator := new Rotator([a, b, c]);
    var photo := new Photo(SlotSource(FrameImage(rotator.images, rotator.tick, 0)));
    photo.SwapTimerFires();
    assert photo.shown == Some("/a.jpg") && photo.fadeIn;

    rotator.IntervalElapsed();
    photo.Render(SlotSource(FrameImage(rotator.images, rotator.tick, 0)));
    assert photo.shown == Some("/a.jpg") && !photo.fadeIn;
    photo.SwapTimerFires();
    assert photo.shown == Some("/b.jpg") && photo.fadeIn;

    rotator.IntervalElapsed();
    photo.Render(SlotSource(FrameImage(rotator.images, rotator.tick, 0)));
    photo.SwapTimerFires();
    assert photo.shown == Some("/c.jpg");

    rotator.IntervalElapsed();
    photo.Render(SlotSource(FrameImage(rotator.images, rotator.tick, 0)));
    photo.SwapTimerFires();
    assert photo.shown == Some("/a.jpg");
  }
}
