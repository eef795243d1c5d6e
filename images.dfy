/**
  Validation of the configured image list: `safeImg` and the pipeline
  `IMAGES.map(safeImg).filter(Boolean)` that keeps the valid entries.
*/
module Images {
  import opened Wrappers
  import opened JsValues

  /** The `alt` text used when an entry has no truthy `alt` of its own. */
  const DefaultAlt: string := "Some Jazz Playing"

  /**
    One entry of the image list as `safeImg` receives it: either no object at
    all (`null`, `undefined`, or a primitive, whose `src` property reads as
    `undefined`), or an object whose `src` and `alt` properties hold arbitrary
    values (a missing property reads as `Undefined`).
  */
  datatype RawItem = Absent | Entry(src: JsValue, alt: JsValue)

  /** A validated entry: the object `{ src, alt }` that `safeImg` builds. */
  datatype Image = Image(src: string, alt: JsValue)

  /** The entries `safeImg` turns into `null`: no object, a `src` that is not a string, or a blank `src`. */
  predicate Rejected(item: RawItem)
    ensures Rejected(item) <==> item.Absent? || !item.src.Str? || Trim(item.src.s) == ""
  {
    item.Absent? || !item.src.Str? || IsBlank(item.src.s)
  }

  /**
    `safeImg(item)`. It rejects exactly the entries of `Rejected`; otherwise it
    keeps `src` as given (untrimmed) and takes the entry's `alt` when truthy,
    the default text otherwise, so the resulting `alt` is always truthy.
  */
  function SafeImg(item: RawItem): (r: Option<Image>)
    ensures r.None? <==> Rejected(item)
    ensures r.Some? ==> r.value.src == item.src.s && r.value.src != ""
    ensures r.Some? && Truthy(item.alt) ==> r.value.alt == item.alt
    ensures r.Some? && !Truthy(item.alt) ==> r.value.alt == Str(DefaultAlt)
    ensures r.Some? ==> Truthy(r.value.alt)
  {
    if item.Absent? || !item.src.Str? || Trim(item.src.s) == "" then None
    else Some(Image(item.src.s, Or(item.alt, Str(DefaultAlt))))
  }

  /** `items.map(safeImg)`. */
  function Checked(items: seq<RawItem>): (r: seq<Option<Image>>)
    ensures |r| == |items|
    ensures forall i :: 0 <= i < |items| ==> r[i] == SafeImg(items[i])
  {
    seq(|items|, i requires 0 <= i < |items| => SafeImg(items[i]))
  }

  /**
    `xs.filter(Boolean)` on the output of `safeImg`: `null` is falsy and every
    object is truthy, so the filter keeps exactly the present values, in order.
  */
  function Compact<T>(xs: seq<Option<T>>): (r: seq<T>)
    ensures |r| <= |xs|
    ensures forall y :: y in r ==> Some(y) in xs
  {
    if xs == [] then []
    else
      var rest := Compact(xs[1..]);
      assert forall y :: y in rest ==> Some(y) in xs[1..];
      (if xs[0].Some? then [xs[0].value] else []) + rest
  }

  /** The positions, from `i` on, that hold a present value, in increasing order. */
  function PresentFrom<T>(xs: seq<Option<T>>, i: nat): (r: seq<nat>)
    requires i <= |xs|
    decreases |xs| - i
  {
    if i == |xs| then []
    else (if xs[i].Some? then [i] else []) + PresentFrom(xs, i + 1)
  }

  /** One step of both definitions at position `i`. */
  lemma CompactUnfold<T>(xs: seq<Option<T>>, i: nat)
    requires i < |xs|
    ensures xs[i].Some? ==> Compact(xs[i..]) == [xs[i].value] + Compact(xs[i + 1..])
    ensures xs[i].Some? ==> PresentFrom(xs, i) == [i] + PresentFrom(xs, i + 1)
    ensures xs[i].None? ==> Compact(xs[i..]) == Compact(xs[i + 1..])
    ensures xs[i].None? ==> PresentFrom(xs, i) == PresentFrom(xs, i + 1)
  {
    assert xs[i..][1..] == xs[i + 1..];
  }

  /** Every recorded position lies in `[i, |xs|)` and holds a value. */
  lemma {:induction false} PresentFromInRange<T>(xs: seq<Option<T>>, i: nat)
    requires i <= |xs|
    ensures forall k :: 0 <= k < |PresentFrom(xs, i)| ==>
      i <= PresentFrom(xs, i)[k] < |xs| && xs[PresentFrom(xs, i)[k]].Some?
    decreases |xs| - i
  {
    if i < |xs| {
      PresentFromInRange(xs, i + 1);
      var idx, rest := PresentFrom(xs, i), PresentFrom(xs, i + 1);
      if xs[i].Some? {
        assert idx == [i] + rest;
        forall k | 0 < k < |idx|
          ensures i <= idx[k] < |xs| && xs[idx[k]].Some?
        {
          assert idx[k] == rest[k - 1];
        }
      }
    }
  }

  /** The recorded positions strictly increase. */
  lemma {:induction false} PresentFromIncreasing<T>(xs: seq<Option<T>>, i: nat)
    requires i <= |xs|
    ensures forall k, l :: 0 <= k < l < |PresentFrom(xs, i)| ==> PresentFrom(xs, i)[k] < PresentFrom(xs, i)[l]
    decreases |xs| - i
  {
    if i < |xs| {
      PresentFromIncreasing(xs, i + 1);
      PresentFromInRange(xs, i + 1);
      var idx, rest := PresentFrom(xs, i), PresentFrom(xs, i + 1);
      if xs[i].Some? {
        assert idx == [i] + rest;
        forall k, l | 0 <= k < l < |idx|
          ensures idx[k] < idx[l]
        {
          assert idx[l] == rest[l - 1];
          if k > 0 {
            assert idx[k] == rest[k - 1];
          }
        }
      }
    }
  }

  /** No position holding a value is skipped. */
  lemma {:induction false} PresentFromComplete<T>(xs: seq<Option<T>>, i: nat)
    requires i <= |xs|
    ensures forall j :: i <= j < |xs| && xs[j].Some? ==> j in PresentFrom(xs, i)
    decreases |xs| - i
  {
    if i < |xs| {
      PresentFromComplete(xs, i + 1);
    }
  }

  /**
    `Compact` is an order-preserving selection: its k-th element is the value
    at the k-th present position.
  */
  lemma {:induction false} CompactSelects<T>(xs: seq<Option<T>>, i: nat)
    requires i <= |xs|
    ensures |Compact(xs[i..])| == |PresentFrom(xs, i)|
    ensures forall k :: 0 <= k < |PresentFrom(xs, i)| ==>
      PresentFrom(xs, i)[k] < |xs| && xs[PresentFrom(xs, i)[k]] == Some(Compact(xs[i..])[k])
    decreases |xs| - i
  {
    PresentFromInRange(xs, i);
    if i < |xs| {
      CompactSelects(xs, i + 1);
      CompactUnfold(xs, i);
    }
  }

  /** The image list the page renders: `items.map(safeImg).filter(Boolean)`. */
  function ValidImages(items: seq<RawItem>): (r: seq<Image>)
    ensures |r| <= |items|
  {
    Compact(Checked(items))
  }

  /** The positions of the entries that `safeImg` accepts, in increasing order. */
  function AcceptedPositions(items: seq<RawItem>): (r: seq<nat>) {
    PresentFrom(Checked(items), 0)
  }

  /**
    The rendered list holds exactly the accepted entries, each as `safeImg`
    made it, in their original relative order.
  */
  lemma ValidImagesSelectsInOrder(items: seq<RawItem>)
    ensures var r, idx := ValidImages(items), AcceptedPositions(items);
      && |r| == |idx| <= |items|
      && (forall k :: 0 <= k < |idx| ==>
            idx[k] < |items| && !Rejected(items[idx[k]]) && SafeImg(items[idx[k]]) == Some(r[k]))
      && (forall k, l :: 0 <= k < l < |idx| ==> idx[k] < idx[l])
      && (forall j :: 0 <= j < |items| && !Rejected(items[j]) ==> j in idx)
  {
    var xs := Checked(items);
    PresentFromInRange(xs, 0);
    PresentFromIncreasing(xs, 0);
    PresentFromComplete(xs, 0);
    CompactSelects(xs, 0);
    assert xs[0..] == xs;
  }

  /** Every rendered image has a non-blank `src` and a truthy `alt`. */
  lemma ValidImagesWellFormed(items: seq<RawItem>)
    ensures forall img :: img in ValidImages(items) ==> !IsBlank(img.src) && Truthy(img.alt)
  {
    forall img | img in ValidImages(items)
      ensures !IsBlank(img.src) && Truthy(img.alt)
    {
      assert Some(img) in Checked(items);
      var j :| 0 <= j < |items| && Checked(items)[j] == Some(img);
      assert SafeImg(items[j]) == Some(img);
    }
  }

  /** The ten configured files, all served from `/zine/`. */
  const ZineDir: string := "/zine/"
  const ConfiguredFiles: seq<string> := [
    "npr.brightspotcdn.png",
    "Mo-Better-Blues-h.jpg",
    "Lee_Mo_Better_Blues_01.jpg.avif",
    "AP070223014369.jpg",
    "Ella_Fitzgerald_6_(cropped).jpg",
    "alice-coltrane-eshot.jpg",
    "aef6b5f322f5a251c74d29157f3da543.jpg",
    "Stewart_Dolphy_1440.jpg",
    "john-coletrane-newport-jazz.jpg",
    "Miles-Davis-in-1989-006.avif"
  ]

  /** `IMAGES`: every entry has `src` = `/zine/<file>` and `alt` = "Jazz". */
  const Configured: seq<RawItem> :=
    seq(|ConfiguredFiles|, i requires 0 <= i < |ConfiguredFiles| => Entry(Str(ZineDir + ConfiguredFiles[i]), Str("Jazz")))

  /** A list in which no entry is rejected is rendered whole. */
  lemma {:induction false} CompactAllPresent<T>(xs: seq<Option<T>>)
    requires forall i :: 0 <= i < |xs| ==> xs[i].Some?
    ensures |Compact(xs)| == |xs|
    ensures forall i :: 0 <= i < |xs| ==> Some(Compact(xs)[i]) == xs[i]
  {
    if xs != [] {
      CompactAllPresent(xs[1..]);
    }
  }

  /** All ten configured images pass validation, so the page renders all of them in order. */
  lemma ConfiguredImagesAllRendered()
    ensures |ValidImages(Configured)| == 10
    ensures forall i :: 0 <= i < 10 ==>
      ValidImages(Configured)[i] == Image(ZineDir + ConfiguredFiles[i], Str("Jazz"))
  {
    var xs := Checked(Configured);
    forall i | 0 <= i < |xs|
      ensures xs[i] == Some(Image(ZineDir + ConfiguredFiles[i], Str("Jazz")))
    {
      var src := ZineDir + ConfiguredFiles[i];
      assert src[0] == '/';
      assert !IsBlank(src);
    }
    CompactAllPresent(xs);
  }
}
