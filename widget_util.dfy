/**
 * Model of nativeui/gtk/widget_util.cc: the extraction of a window's shape
 * region from an alpha mask, the client-shadow insets, and the bookkeeping
 * a GTK window goes through when client-side decorations are toggled or the
 * window is resized.
 */
module WidgetUtil {
  import opened Wrappers

  // ---------------------------------------------------------------------
  // Geometry
  // ---------------------------------------------------------------------

  /** An integer rectangle (GdkRectangle, cairo_rectangle_int_t). */
  datatype Rect = Rect(x: int, y: int, width: int, height: int)

  /** Distances between an inner and an outer rectangle, one per side. */
  datatype Insets = Insets(top: int, left: int, bottom: int, right: int)

  const GMinInt: int := -0x8000_0000
  const GMaxInt: int := 0x7fff_ffff

  predicate InIntRange(v: int) { GMinInt <= v <= GMaxInt }

  /** Does pixel (px, py) lie inside r? */
  predicate Contains(r: Rect, px: int, py: int) {
    r.x <= px < r.x + r.width && r.y <= py < r.y + r.height
  }

  /** The outer rectangle obtained by pushing each side of r out by the inset on that side. */
  function Expand(r: Rect, ins: Insets): Rect {
    Rect(r.x - ins.left, r.y - ins.top,
         r.width + ins.left + ins.right, r.height + ins.top + ins.bottom)
  }

  // ---------------------------------------------------------------------
  // CairoSurfaceExtents
  // ---------------------------------------------------------------------

  /** The clip box of a surface after x1, y1 are floored and x2, y2 ceiled. */
  datatype Clip = Clip(x1: int, y1: int, x2: int, y2: int)

  /** The out-parameter and the boolean result of CairoSurfaceExtents. */
  datatype SurfaceExtents = SurfaceExtents(ok: bool, rect: Rect)

  /**
   * Turns a clip box into an extents rectangle, refusing (all-zero extents,
   * false) an origin outside the int range or a size above G_MAXINT.
   */
  function CairoSurfaceExtents(c: Clip): (r: SurfaceExtents)
    ensures r.ok <==> InIntRange(c.x1) && InIntRange(c.y1)
                      && c.x2 - c.x1 <= GMaxInt && c.y2 - c.y1 <= GMaxInt
    ensures r.ok ==> r.rect.x == c.x1 && r.rect.x + r.rect.width == c.x2
                     && r.rect.y == c.y1 && r.rect.y + r.rect.height == c.y2
    ensures r.ok && c.x1 <= c.x2 && c.y1 <= c.y2 ==>
              InIntRange(r.rect.x) && InIntRange(r.rect.y)
              && InIntRange(r.rect.width) && InIntRange(r.rect.height)
    ensures !r.ok ==> r.rect == Rect(0, 0, 0, 0)
  {
    var width := c.x2 - c.x1;
    var height := c.y2 - c.y1;
    if c.x1 < GMinInt || c.x1 > GMaxInt || c.y1 < GMinInt || c.y1 > GMaxInt
       || width > GMaxInt || height > GMaxInt
    then SurfaceExtents(false, Rect(0, 0, 0, 0))
    else SurfaceExtents(true, Rect(c.x1, c.y1, width, height))
  }

  /**
   * The range check bounds the origin and the size apart, never their sum:
   * extents whose right edge lies past G_MAXINT are accepted.
   */
  lemma ExtentsEdgeUnbounded(x1: int, w: int)
    requires InIntRange(x1) && 0 <= w <= GMaxInt && x1 + w > GMaxInt
    ensures var r := CairoSurfaceExtents(Clip(x1, 0, x1 + w, 1));
            r.ok && r.rect.x + r.rect.width > GMaxInt
  {
  }

  // ---------------------------------------------------------------------
  // CreateRegionFromSurface
  // ---------------------------------------------------------------------

  /** cairo_content_t: only COLOR (no alpha channel at all) is told apart. */
  datatype Content = ColorOnly | AlphaOnly | ColorAlpha

  /** A surface as the extractor sees it: what it holds and its clip box. */
  datatype Surface = Surface(content: Content, clip: Clip)

  /** One A8 pixel (uint8_t). */
  newtype Alpha = a: int | 0 <= a < 256

  /** A region is a list of rectangles; its meaning is the set of pixels they cover. */
  ghost predicate Covered(rs: seq<Rect>, px: int, py: int) {
    exists k :: 0 <= k < |rs| && Contains(rs[k], px, py)
  }

  /** The two rectangles share no pixel. */
  ghost predicate Disjoint(a: Rect, b: Rect) {
    forall px, py :: Contains(a, px, py) ==> !Contains(b, px, py)
  }

  /** The A8 image has a pixel for every position of the w × h scan. */
  predicate FitsImage(image: array2<Alpha>, w: int, h: int) {
    w <= image.Length1 && h <= image.Length0
  }

  /** Pixel (px, py) of the w × h grid, in grid coordinates, has non-zero alpha. */
  ghost predicate Lit(image: array2<Alpha>, w: int, h: int, px: int, py: int)
    reads image
    requires FitsImage(image, w, h)
  {
    0 <= py < h && 0 <= px < w && image[py, px] != 0
  }

  /** Pixel (px, py), in surface coordinates, is non-transparent in the grid placed at e. */
  ghost predicate InMask(image: array2<Alpha>, e: Rect, px: int, py: int)
    reads image
    requires FitsImage(image, e.width, e.height)
  {
    Lit(image, e.width, e.height, px - e.x, py - e.y)
  }

  /**
   * What the scan promises of its result for the grid placed at e: 1-pixel-tall,
   * non-empty rectangles inside e, covering exactly the non-transparent pixels,
   * pairwise disjoint, each a maximal run (its left and right neighbours are
   * transparent or outside the grid).
   */
  ghost predicate MaskRegion(region: seq<Rect>, image: array2<Alpha>, e: Rect)
    reads image
    requires FitsImage(image, e.width, e.height)
  {
    (forall k :: 0 <= k < |region| ==>
       region[k].height == 1 && region[k].width > 0
       && e.x <= region[k].x && region[k].x + region[k].width <= e.x + e.width
       && e.y <= region[k].y < e.y + e.height)
    && (forall px, py :: Covered(region, px, py) <==> InMask(image, e, px, py))
    && (forall k1, k2 :: 0 <= k1 < k2 < |region| ==> Disjoint(region[k1], region[k2]))
    && (forall k :: 0 <= k < |region| ==>
          !InMask(image, e, region[k].x - 1, region[k].y)
          && !InMask(image, e, region[k].x + region[k].width, region[k].y))
  }

  /** a comes strictly before b in scan order, with at least one pixel between them on a shared row. */
  predicate Before(a: Rect, b: Rect) {
    a.y < b.y || (a.y == b.y && a.x + a.width < b.x)
  }

  lemma CoveredAppend(rs: seq<Rect>, r: Rect)
    ensures forall px, py :: Covered(rs + [r], px, py) <==> Covered(rs, px, py) || Contains(r, px, py)
  {
    forall px, py ensures Covered(rs + [r], px, py) <==> Covered(rs, px, py) || Contains(r, px, py) {
      if Covered(rs, px, py) {
        var k :| 0 <= k < |rs| && Contains(rs[k], px, py);
        assert (rs + [r])[k] == rs[k];
      }
      if Contains(r, px, py) {
        assert (rs + [r])[|rs|] == r;
      }
      if Covered(rs + [r], px, py) {
        var k :| 0 <= k < |rs + [r]| && Contains((rs + [r])[k], px, py);
        if k < |rs| { assert (rs + [r])[k] == rs[k]; }
      }
    }
  }

  /** cairo_region_translate: every rectangle moved by (dx, dy). */
  function Translate(rs: seq<Rect>, dx: int, dy: int): (r: seq<Rect>)
    ensures |r| == |rs|
    ensures forall px, py :: Covered(r, px, py) <==> Covered(rs, px - dx, py - dy)
  {
    var r := seq(|rs|, k requires 0 <= k < |rs| => rs[k].(x := rs[k].x + dx, y := rs[k].y + dy));
    assert forall px, py :: Covered(r, px, py) ==> Covered(rs, px - dx, py - dy) by {
      forall px, py | Covered(r, px, py) ensures Covered(rs, px - dx, py - dy) {
        var k :| 0 <= k < |r| && Contains(r[k], px, py);
        assert Contains(rs[k], px - dx, py - dy);
      }
    }
    assert forall px, py :: Covered(rs, px - dx, py - dy) ==> Covered(r, px, py) by {
      forall px, py | Covered(rs, px - dx, py - dy) ensures Covered(r, px, py) {
        var k :| 0 <= k < |rs| && Contains(rs[k], px - dx, py - dy);
        assert Contains(r[k], px, py);
      }
    }
    r
  }

  /** Two 1-pixel-tall rectangles in scan order share no pixel. */
  lemma BeforeDisjoint(a: Rect, b: Rect)
    requires a.height == 1 && b.height == 1 && Before(a, b)
    ensures Disjoint(a, b)
  {
  }

  /**
   * The runs found in grid coordinates, once moved to the extents origin,
   * form the region MaskRegion describes.
   */
  lemma {:induction false} TranslatedRuns(runs: seq<Rect>, image: array2<Alpha>, e: Rect)
    requires FitsImage(image, e.width, e.height)
    requires ScanState(runs, image, e.width, e.height, if e.height > 0 then e.height else 0, 0)
    ensures MaskRegion(Translate(runs, e.x, e.y), image, e)
  {
    var region := Translate(runs, e.x, e.y);
    assert forall k :: 0 <= k < |region| ==> region[k] == runs[k].(x := runs[k].x + e.x, y := runs[k].y + e.y);
    forall k1, k2 | 0 <= k1 < k2 < |region| ensures Disjoint(region[k1], region[k2]) {
      assert Before(runs[k1], runs[k2]);
      BeforeDisjoint(region[k1], region[k2]);
    }
  }

  /**
   * The state of the scan once every pixel before row y, column x has been
   * looked at: the runs found so far lie in the grid, in scan order and
   * behind the cursor, each is a maximal run, and together they cover
   * exactly the non-transparent pixels already scanned.
   */
  ghost predicate ScanState(runs: seq<Rect>, image: array2<Alpha>, w: int, h: int, y: int, x: int)
    reads image
    requires FitsImage(image, w, h)
  {
    RunsPlaced(runs, image, w, h, y, x) && RunsOrdered(runs) && RunsCoverScanned(runs, image, w, h, y, x)
  }

  /** Every run lies in the grid, before the cursor, and is maximal in its row. */
  ghost predicate RunsPlaced(runs: seq<Rect>, image: array2<Alpha>, w: int, h: int, y: int, x: int)
    reads image
    requires FitsImage(image, w, h)
  {
    forall k :: 0 <= k < |runs| ==>
      runs[k].height == 1 && runs[k].width > 0
      && 0 <= runs[k].x && runs[k].x + runs[k].width <= w
      && 0 <= runs[k].y < h
      && (runs[k].y < y || (runs[k].y == y && runs[k].x + runs[k].width < x))
      && !Lit(image, w, h, runs[k].x - 1, runs[k].y)
      && !Lit(image, w, h, runs[k].x + runs[k].width, runs[k].y)
  }

  /** The runs were found in scan order. */
  predicate RunsOrdered(runs: seq<Rect>) {
    forall k1, k2 :: 0 <= k1 < k2 < |runs| ==> Before(runs[k1], runs[k2])
  }

  /** The runs cover exactly the lit pixels the cursor has passed. */
  ghost predicate RunsCoverScanned(runs: seq<Rect>, image: array2<Alpha>, w: int, h: int, y: int, x: int)
    reads image
    requires FitsImage(image, w, h)
  {
    forall px, py :: Covered(runs, px, py) <==> Lit(image, w, h, px, py) && (py < y || (py == y && px < x))
  }

  /** Skipping a transparent pixel (or stepping past the row end) keeps the scan state. */
  lemma ScanSkip(runs: seq<Rect>, image: array2<Alpha>, w: int, h: int, y: int, x: int)
    requires FitsImage(image, w, h) && ScanState(runs, image, w, h, y, x)
    requires !Lit(image, w, h, x, y)
    ensures ScanState(runs, image, w, h, y, x + 1)
  {
  }

  /** Recording the maximal run [x0, x) of row y and stepping past its end keeps the scan state. */
  lemma ScanRun(runs: seq<Rect>, image: array2<Alpha>, w: int, h: int, y: int, x0: int, x: int)
    requires FitsImage(image, w, h) && ScanState(runs, image, w, h, y, x0)
    requires 0 <= y < h && 0 <= x0 < x <= w
    requires forall px :: x0 <= px < x ==> Lit(image, w, h, px, y)
    requires !Lit(image, w, h, x0 - 1, y) && !Lit(image, w, h, x, y)
    ensures ScanState(runs + [Rect(x0, y, x - x0, 1)], image, w, h, y, x + 1)
  {
    ScanRunPlaced(runs, image, w, h, y, x0, x);
    ScanRunOrdered(runs, y, x0, x);
    ScanRunCovers(runs, image, w, h, y, x0, x);
  }

  lemma ScanRunPlaced(runs: seq<Rect>, image: array2<Alpha>, w: int, h: int, y: int, x0: int, x: int)
    requires FitsImage(image, w, h) && RunsPlaced(runs, image, w, h, y, x0)
    requires 0 <= y < h && 0 <= x0 < x <= w
    requires !Lit(image, w, h, x0 - 1, y) && !Lit(image, w, h, x, y)
    ensures RunsPlaced(runs + [Rect(x0, y, x - x0, 1)], image, w, h, y, x + 1)
  {
    var runs' := runs + [Rect(x0, y, x - x0, 1)];
    assert forall k :: 0 <= k < |runs| ==> runs'[k] == runs[k];
  }

  lemma ScanRunOrdered(runs: seq<Rect>, y: int, x0: int, x: int)
    requires RunsOrdered(runs)
    requires forall k :: 0 <= k < |runs| ==>
               runs[k].y < y || (runs[k].y == y && runs[k].x + runs[k].width < x0)
    ensures RunsOrdered(runs + [Rect(x0, y, x - x0, 1)])
  {
    var runs' := runs + [Rect(x0, y, x - x0, 1)];
    forall k1, k2 | 0 <= k1 < k2 < |runs'| ensures Before(runs'[k1], runs'[k2]) {
      assert runs'[k1] == runs[k1];
      if k2 < |runs| {
        assert runs'[k2] == runs[k2];
      }
    }
  }

  lemma ScanRunCovers(runs: seq<Rect>, image: array2<Alpha>, w: int, h: int, y: int, x0: int, x: int)
    requires FitsImage(image, w, h) && RunsCoverScanned(runs, image, w, h, y, x0)
    requires 0 <= y < h && 0 <= x0 < x <= w
    requires forall px :: x0 <= px < x ==> Lit(image, w, h, px, y)
    requires !Lit(image, w, h, x, y)
    ensures RunsCoverScanned(runs + [Rect(x0, y, x - x0, 1)], image, w, h, y, x + 1)
  {
    var rect := Rect(x0, y, x - x0, 1);
    CoveredAppend(runs, rect);
    forall px, py
      ensures Covered(runs + [rect], px, py) <==> Lit(image, w, h, px, py) && (py < y || (py == y && px < x + 1))
    {
      assert Covered(runs + [rect], px, py) <==> Covered(runs, px, py) || Contains(rect, px, py);
    }
  }

  /** Once the cursor is past the end of row y, the scan state holds at the start of row y + 1. */
  lemma ScanNextRow(runs: seq<Rect>, image: array2<Alpha>, w: int, h: int, y: int, x: int)
    requires FitsImage(image, w, h) && ScanState(runs, image, w, h, y, x)
    requires x >= w
    ensures ScanState(runs, image, w, h, y + 1, 0)
  {
  }

  /**
   * CreateRegionFromSurface: the shape region of a surface. For colour-only
   * content it is the extents rectangle itself; otherwise the A8 image (the
   * surface, or its A8 rendering at the extents' size) is scanned row by row
   * and every maximal run of non-zero alpha becomes a 1-pixel-tall rectangle,
   * and the result is moved to the extents origin.
   */
  method CreateRegionFromSurface(surface: Surface, image: array2<Alpha>) returns (region: seq<Rect>)
    requires FitsImage(image, CairoSurfaceExtents(surface.clip).rect.width,
                       CairoSurfaceExtents(surface.clip).rect.height)
    ensures surface.content == ColorOnly ==> region == [CairoSurfaceExtents(surface.clip).rect]
    ensures surface.content != ColorOnly ==> MaskRegion(region, image, CairoSurfaceExtents(surface.clip).rect)
  {
    var extents := CairoSurfaceExtents(surface.clip).rect;
    if surface.content == ColorOnly {
      return [extents];
    }
    var w, h := extents.width, extents.height;
    var runs: seq<Rect> := [];
    var y := 0;
    while y < h
      invariant 0 <= y && (y <= h || y == 0)
      invariant ScanState(runs, image, w, h, y, 0)
    {
      var x := 0;
      while x < w
        invariant 0 <= x
        invariant x == 0 || x > w || !Lit(image, w, h, x - 1, y)
        invariant ScanState(runs, image, w, h, y, x)
      {
        // Extend a run over the pixels whose alpha is not zero.
        var x0 := x;
        while x < w && image[y, x] != 0
          invariant x0 <= x <= w
          invariant forall px :: x0 <= px < x ==> Lit(image, w, h, px, y)
        {
          x := x + 1;
        }
        if x > x0 {
          ScanRun(runs, image, w, h, y, x0, x);
          runs := runs + [Rect(x0, y, x - x0, 1)];
        } else {
          ScanSkip(runs, image, w, h, y, x);
        }
        x := x + 1;
      }
      ScanNextRow(runs, image, w, h, y, x);
      y := y + 1;
    }
    TranslatedRuns(runs, image, extents);
    region := Translate(runs, extents.x, extents.y);
  }

  /** A surface whose mask is transparent everywhere has an empty shape region. */
  lemma {:induction false} TransparentMaskEmptyRegion(region: seq<Rect>, image: array2<Alpha>, e: Rect)
    requires FitsImage(image, e.width, e.height)
    requires MaskRegion(region, image, e)
    requires forall px, py :: 0 <= py < e.height && 0 <= px < e.width ==> image[py, px] == 0
    ensures region == []
  {
    if region != [] {
      var r := region[0];
      assert Contains(r, r.x, r.y);
      assert Covered(region, r.x, r.y);
      assert false;
    }
  }

  // ---------------------------------------------------------------------
  // GetClientShadow
  // ---------------------------------------------------------------------

  /**
   * The insets of the invisible client-side shadow: `bounds` is the window's
   * position and size without the shadow (gtk_window_get_position/get_size),
   * `shadowBounds` the geometry of its GdkWindow, which includes it.
   * Expanding the bounds by the insets gives the shadow bounds back.
   */
  function GetClientShadow(bounds: Rect, shadowBounds: Rect): (ins: Insets)
    ensures Expand(bounds, ins) == shadowBounds
  {
    Insets(bounds.y - shadowBounds.y,
           bounds.x - shadowBounds.x,
           (shadowBounds.y + shadowBounds.height) - (bounds.y + bounds.height),
           (shadowBounds.x + shadowBounds.width) - (bounds.x + bounds.width))
  }

  /** The client-shadow insets are the only insets that expand the bounds to the shadow bounds. */
  lemma ClientShadowUnique(bounds: Rect, shadowBounds: Rect, ins: Insets)
    requires Expand(bounds, ins) == shadowBounds
    ensures ins == GetClientShadow(bounds, shadowBounds)
  {
  }

  // ---------------------------------------------------------------------
  // Window state: styles, client-side decorations, resizing
  // ---------------------------------------------------------------------

  /** A width and height; -1 in both means "no size request" for gtk_widget_set_size_request. */
  datatype Size = Size(width: int, height: int)

  const NoRequest: Size := Size(-1, -1)

  /** A GtkCssProvider: `serial` tells apart providers made from equal CSS text. */
  datatype Provider = Provider(serial: nat, css: string)

  const RectangleDecorationKey: string := "rectangle-decoration"
  const RectangleDecorationCss: string := "decoration { border-radius: 0.01px; }"
  const PlaceholderTitle: string := "you should not see me"

  /** No two positions of s hold the same provider. */
  predicate NoDuplicates(s: seq<Provider>) {
    forall k1, k2 :: 0 <= k1 < k2 < |s| ==> s[k1] != s[k2]
  }

  /** gtk_style_context_remove_provider on a list of attached providers. */
  function Without(s: seq<Provider>, p: Provider): (r: seq<Provider>)
    ensures forall q :: q in r <==> q in s && q != p
    ensures |r| <= |s|
  {
    if s == [] then []
    else if s[0] == p then Without(s[1..], p)
    else [s[0]] + Without(s[1..], p)
  }

  /** Removing a provider from a list without repetitions leaves a list without repetitions. */
  lemma {:induction false} WithoutNoDuplicates(s: seq<Provider>, p: Provider)
    requires NoDuplicates(s)
    ensures NoDuplicates(Without(s, p))
  {
    if s != [] {
      assert forall k :: 0 <= k < |s[1..]| ==> s[1..][k] == s[k + 1];
      WithoutNoDuplicates(s[1..], p);
      if s[0] != p {
        NoDuplicatesCons(s[0], Without(s[1..], p));
      }
    }
  }

  lemma NoDuplicatesCons(a: Provider, r: seq<Provider>)
    requires a !in r && NoDuplicates(r)
    ensures NoDuplicates([a] + r)
  {
    forall k1, k2 | 0 <= k1 < k2 < |[a] + r| ensures ([a] + r)[k1] != ([a] + r)[k2] {
      assert ([a] + r)[k2] == r[k2 - 1];
      if k1 > 0 { assert ([a] + r)[k1] == r[k1 - 1]; }
    }
  }

  /** The style classes GTK gives a window that draws its own decorations. */
  const CsdClasses: set<string> := {"csd", "csd-solid"}

  /** A call that sizes the window or its child box, recorded in the order it is made. */
  datatype SizeCall =
    | SetWindowRequest(size: Size)  // gtk_widget_set_size_request on the window
    | SetVboxRequest(size: Size)    // gtk_widget_set_size_request on the child box
    | ResizeTo(size: Size)          // gtk_window_resize
    | SetDefaultSize(size: Size)    // gtk_window_set_default_size
    | AllocateVbox(rect: Rect)      // gtk_widget_size_allocate on the child box

  /**
   * The parts of a GtkWindow and of its child box (the "vbox") that the
   * functions of widget_util.cc read or change.
   */
  class GtkWindow {
    /** Whether the screen composites windows; GTK picks "csd" or "csd-solid" by it. */
    const composited: bool
    /** gtk_window_set_decorated. */
    var decorated: bool
    /** The titlebar widget: None, or a label with the given text. */
    var titlebar: Option<string>
    /** Object data of the window, name -> provider (g_object_set_data_full). */
    var styles: map<string, Provider>
    /** The providers attached to the window's style context, in the order they were added. */
    var attached: seq<Provider>
    /** The serial the next gtk_css_provider_new will carry. */
    var nextSerial: nat
    /** The window's style classes, which GTK keeps in step with the titlebar. */
    var styleClasses: set<string>
    /** Size requests of the window and of the vbox. */
    var windowRequest: Size
    var vboxRequest: Size
    /** gtk_window_set_default_size. */
    var defaultSize: Size
    /** The last gtk_window_resize asked for, if any. */
    var resizeRequest: Option<Size>
    /** The size gtk_window_get_size reports; the window manager decides it. */
    var size: Size
    /** The last allocation given to the vbox, if any. */
    var vboxAllocation: Option<Rect>
    /** Every sizing call made so far, oldest first. */
    ghost var sizeCalls: seq<SizeCall>

    /**
     * Each provider attached to the style context is the one stored under
     * some name, a name's provider is attached exactly once, and no two
     * names share a provider.
     */
    ghost predicate Valid()
      reads this
    {
      NoDuplicates(attached)
      && (forall q :: q in attached <==> q in styles.Values)
      && (forall q :: q in attached ==> q.serial < nextSerial)
      && (forall n1, n2 :: n1 in styles && n2 in styles && n1 != n2 ==> styles[n1] != styles[n2])
    }

    constructor (styleClasses: set<string>, size: Size, composited: bool)
      ensures Valid()
      ensures !decorated && titlebar == None && styles == map[] && attached == []
      ensures this.styleClasses == styleClasses && this.size == size && this.composited == composited
      ensures windowRequest == NoRequest && vboxRequest == NoRequest && defaultSize == NoRequest
      ensures resizeRequest == None && vboxAllocation == None && sizeCalls == []
    {
      this.composited := composited;
      decorated := false;
      titlebar := None;
      styles := map[];
      attached := [];
      nextSerial := 0;
      this.styleClasses := styleClasses;
      windowRequest := NoRequest;
      vboxRequest := NoRequest;
      defaultSize := NoRequest;
      resizeRequest := None;
      this.size := size;
      vboxAllocation := None;
      sizeCalls := [];
    }

    /** IsUsingCSD: the window draws its own decorations. */
    function IsUsingCSD(): (usingCsd: bool)
      reads this
      ensures usingCsd <==> styleClasses * CsdClasses != {}
    {
      assert "csd" in CsdClasses && "csd-solid" in CsdClasses;
      assert forall c :: c in styleClasses * CsdClasses ==> c == "csd" || c == "csd-solid";
      assert "csd" in styleClasses ==> "csd" in styleClasses * CsdClasses;
      assert "csd-solid" in styleClasses ==> "csd-solid" in styleClasses * CsdClasses;
      "csd" in styleClasses || "csd-solid" in styleClasses
    }

    /**
     * ApplyStyle: detaches the provider stored under `name` (if any), then
     * attaches a new provider for `css` and stores it under `name`.
     */
    method ApplyStyle(name: string, css: string)
      requires Valid()
      modifies this
      ensures Valid()
      ensures var p := Provider(old(nextSerial), css);
              p !in old(attached)
              && styles == old(styles)[name := p]
              && attached == (if name in old(styles) then Without(old(attached), old(styles)[name])
                              else old(attached)) + [p]
      ensures nextSerial == old(nextSerial) + 1
      ensures decorated == old(decorated) && titlebar == old(titlebar)
      ensures styleClasses == old(styleClasses) && size == old(size)
      ensures windowRequest == old(windowRequest) && vboxRequest == old(vboxRequest)
      ensures defaultSize == old(defaultSize) && resizeRequest == old(resizeRequest)
      ensures vboxAllocation == old(vboxAllocation) && sizeCalls == old(sizeCalls)
    {
      ghost var oldStyles := styles;
      ghost var oldAttached := attached;
      if name in styles {
        WithoutNoDuplicates(attached, styles[name]);
        attached := Without(attached, styles[name]);
      }
      var provider := Provider(nextSerial, css);
      nextSerial := nextSerial + 1;
      attached := attached + [provider];
      styles := styles[name := provider];
      forall q ensures q in attached <==> q in styles.Values {
        if q in styles.Values {
          var n :| n in styles && styles[n] == q;
          if n != name {
            assert oldStyles[n] == q && q in oldAttached;
            assert name in oldStyles ==> oldStyles[name] != q;
          }
        }
        if q == provider {
          assert styles[name] == q;
        }
        if q in attached && q != provider {
          assert q in oldAttached && q in oldStyles.Values;
          var n :| n in oldStyles && oldStyles[n] == q;
          assert n != name && styles[n] == q;
        }
      }
    }

    /**
     * EnableCSD: decorated, a placeholder label as titlebar, and the
     * rectangle-decoration style applied only if the window has none yet.
     * A custom titlebar is assumed to make GTK draw the decorations itself:
     * the window gains the "csd" class, or "csd-solid" on a screen that does
     * not composite, so it then uses CSD.
     */
    method EnableCSD()
      requires Valid()
      modifies this
      ensures Valid()
      ensures decorated && titlebar == Some(PlaceholderTitle)
      ensures IsUsingCSD()
      ensures styleClasses == old(styleClasses) + {if composited then "csd" else "csd-solid"}
      ensures RectangleDecorationKey in styles
      ensures RectangleDecorationKey in old(styles) ==>
                styles == old(styles) && attached == old(attached) && nextSerial == old(nextSerial)
      ensures RectangleDecorationKey !in old(styles) ==>
                var p := Provider(old(nextSerial), RectangleDecorationCss);
                styles == old(styles)[RectangleDecorationKey := p]
                && attached == old(attached) + [p] && nextSerial == old(nextSerial) + 1
      ensures size == old(size)
      ensures windowRequest == old(windowRequest) && vboxRequest == old(vboxRequest)
      ensures defaultSize == old(defaultSize) && resizeRequest == old(resizeRequest)
      ensures vboxAllocation == old(vboxAllocation) && sizeCalls == old(sizeCalls)
    {
      decorated := true;
      titlebar := Some(PlaceholderTitle);
      styleClasses := styleClasses + {if composited then "csd" else "csd-solid"};
      if RectangleDecorationKey !in styles {
        ApplyStyle(RectangleDecorationKey, RectangleDecorationCss);
      }
    }

    /**
     * DisableCSD: no titlebar and not decorated; the styles,
     * rectangle-decoration included, stay as they are. Removing the titlebar
     * is assumed to take away the "csd" class only, so a window that had
     * "csd-solid" (a screen that does not composite) still uses CSD.
     */
    method DisableCSD()
      requires Valid()
      modifies this
      ensures Valid()
      ensures !decorated && titlebar == None
      ensures styleClasses == old(styleClasses) - {"csd"}
      ensures IsUsingCSD() <==> "csd-solid" in old(styleClasses)
      ensures styles == old(styles) && attached == old(attached) && nextSerial == old(nextSerial)
      ensures size == old(size)
      ensures windowRequest == old(windowRequest) && vboxRequest == old(vboxRequest)
      ensures defaultSize == old(defaultSize) && resizeRequest == old(resizeRequest)
      ensures vboxAllocation == old(vboxAllocation) && sizeCalls == old(sizeCalls)
    {
      titlebar := None;
      decorated := false;
      styleClasses := styleClasses - {"csd"};
    }

    /**
     * ForceSizeAllocation: the vbox is measured (not modelled) and then
     * allocated the window's whole current size.
     */
    method ForceSizeAllocation()
      modifies this
      ensures vboxAllocation == Some(Rect(0, 0, size.width, size.height))
      ensures sizeCalls == old(sizeCalls) + [AllocateVbox(Rect(0, 0, size.width, size.height))]
      ensures decorated == old(decorated) && titlebar == old(titlebar)
      ensures styles == old(styles) && attached == old(attached) && nextSerial == old(nextSerial)
      ensures styleClasses == old(styleClasses) && size == old(size)
      ensures windowRequest == old(windowRequest) && vboxRequest == old(vboxRequest)
      ensures defaultSize == old(defaultSize) && resizeRequest == old(resizeRequest)
    {
      var rect := Rect(0, 0, size.width, size.height);
      vboxAllocation := Some(rect);
      sizeCalls := sizeCalls + [AllocateVbox(rect)];
    }

    /**
     * ResizeWindow: both size requests are cleared; then a resizable window
     * is resized, a fixed window without CSD gets the size as its own size
     * request, and a fixed window with CSD gets it as the vbox's request;
     * the default size becomes the size; last, the vbox is allocated.
     */
    method ResizeWindow(resizable: bool, width: int, height: int)
      modifies this
      ensures sizeCalls == old(sizeCalls) + [
                SetWindowRequest(NoRequest), SetVboxRequest(NoRequest),
                if resizable then ResizeTo(Size(width, height))
                else if !old(IsUsingCSD()) then SetWindowRequest(Size(width, height))
                else SetVboxRequest(Size(width, height)),
                SetDefaultSize(Size(width, height)),
                AllocateVbox(Rect(0, 0, size.width, size.height))]
      ensures resizeRequest == (if resizable then Some(Size(width, height)) else old(resizeRequest))
      ensures windowRequest == (if !resizable && !old(IsUsingCSD()) then Size(width, height) else NoRequest)
      ensures vboxRequest == (if !resizable && old(IsUsingCSD()) then Size(width, height) else NoRequest)
      ensures defaultSize == Size(width, height)
      ensures vboxAllocation == Some(Rect(0, 0, size.width, size.height))
      ensures decorated == old(decorated) && titlebar == old(titlebar)
      ensures styles == old(styles) && attached == old(attached) && nextSerial == old(nextSerial)
      ensures styleClasses == old(styleClasses) && size == old(size)
    {
      // Drop whatever size requests an earlier call left behind.
      windowRequest := NoRequest;
      vboxRequest := NoRequest;
      sizeCalls := sizeCalls + [SetWindowRequest(NoRequest), SetVboxRequest(NoRequest)];
      if resizable || !IsUsingCSD() {
        if resizable {
          resizeRequest := Some(Size(width, height));
          sizeCalls := sizeCalls + [ResizeTo(Size(width, height))];
        } else {
          windowRequest := Size(width, height);
          sizeCalls := sizeCalls + [SetWindowRequest(Size(width, height))];
        }
      } else {
        vboxRequest := Size(width, height);
        sizeCalls := sizeCalls + [SetVboxRequest(Size(width, height))];
      }
      defaultSize := Size(width, height);
      sizeCalls := sizeCalls + [SetDefaultSize(Size(width, height))];
      ForceSizeAllocation();
    }
  }
}
