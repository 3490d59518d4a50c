/**
 * The surface scanner, `markEditableImages`: elements of the page, and the
 * marking pass that flags each `<img>` and each element painted with a
 * `url(...)` background, attaching the click listener once per flag.
 */
module Scanner {

  import opened Wrappers
  import opened Text
  import opened CssUrl

  /** What the model keeps of one element at one moment. */
  datatype ElementState = ElementState(
    tagName: string,
    src: Option<string>,      // the `src` attribute
    styleBg: string,          // the inline `style.backgroundImage`, "" when unset
    sheetBg: string,          // the background-image the style sheets give it
    editableDone: bool,       // truthiness of `dataset.editableDone`
    editableBgDone: bool,     // truthiness of `dataset.editableBgDone`
    listeners: nat)           // `addEventListener("click", onClickEditable)` calls made on it

  /** An element of the page; marking and the edit preview update it in place. */
  class Element {
    const tagName: string
    const sheetBg: string
    var src: Option<string>
    var styleBg: string
    var editableDone: bool
    var editableBgDone: bool
    var listeners: nat

    constructor (tagName: string, src: Option<string>, styleBg: string, sheetBg: string)
      ensures State() == ElementState(tagName, src, styleBg, sheetBg, false, false, 0)
    {
      this.tagName := tagName;
      this.sheetBg := sheetBg;
      this.src := src;
      this.styleBg := styleBg;
      this.editableDone := false;
      this.editableBgDone := false;
      this.listeners := 0;
    }

    /** The `forEach` callback of lines 100-106, on an `<img>`. */
    method MarkAsImage()
      requires IsImg(tagName)
      modifies this
      ensures State() == MarkImage(old(State()))
    {
      if editableDone {
        return;
      }
      editableDone := true;
      listeners := listeners + 1;
    }

    /** The `forEach` callback of lines 109-119. */
    method MarkAsBackground()
      modifies this
      ensures State() == MarkBackground(old(State()))
    {
      if editableBgDone {
        return;
      }
      var bg := ComputedBg(State());
      var ref := UrlOf(bg);
      if ref.Some? && ref.value != [] {
        editableBgDone := true;
        listeners := listeners + 1;
      }
    }

    function State(): ElementState
      reads this
    {
      ElementState(tagName, src, styleBg, sheetBg, editableDone, editableBgDone, listeners)
    }
  }

  /** `tagName.toLowerCase() === "img"`, which is also what `querySelectorAll("img")` selects. */
  predicate IsImg(tagName: string): (b: bool)
    ensures b <==> && |tagName| == 3
                   && (tagName[0] == 'i' || tagName[0] == 'I')
                   && (tagName[1] == 'm' || tagName[1] == 'M')
                   && (tagName[2] == 'g' || tagName[2] == 'G')
  {
    ToLowerAscii(tagName) == "img"
  }

  /** `getComputedStyle(el).backgroundImage`: the inline value when set, the style sheets' otherwise. */
  function ComputedBg(st: ElementState): (r: string)
    ensures st.styleBg != [] ==> r == st.styleBg
    ensures st.styleBg == [] ==> r == st.sheetBg
  {
    if st.styleBg != [] then st.styleBg else st.sheetBg
  }

  /** The first loop's effect on one element (lines 100-106). */
  function MarkImage(st: ElementState): (r: ElementState)
    ensures r.tagName == st.tagName && r.src == st.src && r.styleBg == st.styleBg && r.sheetBg == st.sheetBg
    ensures r.editableBgDone == st.editableBgDone
    ensures r.editableDone <==> st.editableDone || IsImg(st.tagName)
    ensures r.listeners == st.listeners + Count(r.editableDone && !st.editableDone)
  {
    if !IsImg(st.tagName) || st.editableDone then st
    else st.(editableDone := true, listeners := st.listeners + 1)
  }

  /** The second loop's effect on one element (lines 109-119): only a non-empty `url(...)` capture marks it. */
  function MarkBackground(st: ElementState): (r: ElementState)
    ensures r.tagName == st.tagName && r.src == st.src && r.styleBg == st.styleBg && r.sheetBg == st.sheetBg
    ensures r.editableDone == st.editableDone
    ensures r.editableBgDone <==> st.editableBgDone || (UrlOf(ComputedBg(st)).Some? && UrlOf(ComputedBg(st)).value != [])
    ensures r.listeners == st.listeners + Count(r.editableBgDone && !st.editableBgDone)
  {
    if st.editableBgDone then st
    else
      match UrlOf(ComputedBg(st))
      case Some(ref) =>
        if ref != [] then st.(editableBgDone := true, listeners := st.listeners + 1) else st
      case None => st
  }

  /** One run of `markEditableImages` on an element: the image pass, then the background pass. */
  function Scan(st: ElementState): (r: ElementState)
    ensures r.tagName == st.tagName && r.src == st.src && r.styleBg == st.styleBg && r.sheetBg == st.sheetBg
    ensures st.editableDone ==> r.editableDone
    ensures st.editableBgDone ==> r.editableBgDone
  {
    MarkBackground(MarkImage(st))
  }

  function Count(b: bool): nat {
    if b then 1 else 0
  }

  /** One listener per flag that is set: what marking keeps on every element. */
  predicate OneListenerPerFlag(st: ElementState) {
    st.listeners == Count(st.editableDone) + Count(st.editableBgDone)
  }

  /** A second run on the same elements sets no flag and attaches no listener. */
  lemma {:induction false} ScanIdempotent(st: ElementState)
    ensures Scan(Scan(st)) == Scan(st)
  {
    var m := MarkImage(st);
    assert MarkImage(m) == m;
    assert ComputedBg(MarkBackground(m)) == ComputedBg(m);
  }

  /**
   * Every listener a run attaches comes with a flag it newly sets, so an
   * element never gets more than one listener per flag.
   */
  lemma ScanAttachesOncePerFlag(st: ElementState)
    ensures Scan(st).listeners
         == st.listeners
          + Count(Scan(st).editableDone && !st.editableDone)
          + Count(Scan(st).editableBgDone && !st.editableBgDone)
    ensures OneListenerPerFlag(st) ==> OneListenerPerFlag(Scan(st))
  {
  }

  /** Which elements a run flags: the `<img>`s, and the elements whose background has a non-empty `url(...)` capture. */
  lemma ScanFlagsExactly(st: ElementState)
    ensures !st.editableDone ==> (Scan(st).editableDone <==> IsImg(st.tagName))
    ensures !st.editableBgDone ==>
      (Scan(st).editableBgDone <==> UrlOf(ComputedBg(st)).Some? && UrlOf(ComputedBg(st)).value != [])
  {
  }

  /** `root.querySelectorAll("img")` over the elements of the subtree, in document order. */
  function ImagesIn(elems: seq<Element>): (imgs: seq<Element>)
    ensures forall e :: e in imgs ==> e in elems && IsImg(e.tagName)
    ensures forall e :: e in elems && IsImg(e.tagName) ==> e in imgs
  {
    if elems == [] then []
    else (if IsImg(elems[0].tagName) then [elems[0]] else []) + ImagesIn(elems[1..])
  }

  lemma MarkImageIdempotent(st: ElementState)
    ensures MarkImage(MarkImage(st)) == MarkImage(st)
  {
  }

  lemma MarkBackgroundIdempotent(st: ElementState)
    ensures MarkBackground(MarkBackground(st)) == MarkBackground(st)
  {
    assert ComputedBg(MarkBackground(st)) == ComputedBg(st);
  }

  /** The first loop (lines 100-106) over `querySelectorAll("img")`. */
  method MarkImages(imgs: seq<Element>)
    requires forall e :: e in imgs ==> IsImg(e.tagName)
    modifies set e | e in imgs
    ensures forall e :: e in imgs ==> e.State() == MarkImage(old(e.State()))
  {
    for i := 0 to |imgs|
      invariant forall e :: e in imgs[..i] ==> e.State() == MarkImage(old(e.State()))
      invariant forall e :: e in imgs && e !in imgs[..i] ==> e.State() == old(e.State())
    {
      var img := imgs[i];
      ghost var start := old(img.State());
      img.MarkAsImage();
      MarkImageIdempotent(start);
      assert img.State() == MarkImage(start);
      assert imgs[..i + 1] == imgs[..i] + [img];
    }
    assert imgs[..|imgs|] == imgs;
  }

  /** The second loop (lines 109-119) over `querySelectorAll("*")`. */
  method MarkBackgrounds(elems: seq<Element>)
    modifies elems
    ensures forall e :: e in elems ==> e.State() == MarkBackground(old(e.State()))
  {
    for i := 0 to |elems|
      invariant forall e :: e in elems[..i] ==> e.State() == MarkBackground(old(e.State()))
      invariant forall e :: e in elems && e !in elems[..i] ==> e.State() == old(e.State())
    {
      var el := elems[i];
      ghost var start := old(el.State());
      el.MarkAsBackground();
      MarkBackgroundIdempotent(start);
      assert el.State() == MarkBackground(start);
      assert elems[..i + 1] == elems[..i] + [el];
    }
    assert elems[..|elems|] == elems;
  }

  /**
   * `markEditableImages(root)`, with `elems` standing for `root.querySelectorAll("*")`.
   * Every element ends in the state `Scan` gives its starting state, even when it is
   * listed twice.
   */
  method MarkEditableImages(elems: seq<Element>)
    modifies elems
    ensures forall e :: e in elems ==> e.State() == Scan(old(e.State()))
  {
    var imgs := ImagesIn(elems);
    assert forall e :: e in imgs ==> e in elems;
    MarkImages(imgs);
    assert forall e :: e in elems ==> e.State() == MarkImage(old(e.State()));
    MarkBackgrounds(elems);
  }
}
