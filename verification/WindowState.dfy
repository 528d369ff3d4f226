/** Restoring the window: whatever was stored becomes a size and, when it still makes sense, a place. */
module WindowState {
  import opened Wrappers
  import opened Json
  import opened Rounding

  datatype Rect = Rect(x: real, y: real, width: real, height: real)

  datatype Window = Window(width: real, height: real, at: Option<(real, real)>, maximized: bool)

  const DEFAULT_WINDOW := Window(1440.0, 920.0, None, false)
  const MIN_WIDTH := 1024.0
  const MIN_HEIGHT := 720.0

  /** An overlap of at least 32 px both ways. */
  predicate Meets(r: Rect, display: Rect) {
    && Min(r.x + r.width, display.x + display.width) - Max(r.x, display.x) >= 32.0
    && Min(r.y + r.height, display.y + display.height) - Max(r.y, display.y) >= 32.0
  }

  predicate Inside(r: Rect, display: Rect) {
    && display.x <= r.x && r.x + r.width <= display.x + display.width
    && display.y <= r.y && r.y + r.height <= display.y + display.height
  }

  /** `displays.find`. */
  function FirstMeeting(displays: seq<Rect>, r: Rect): (home: Option<Rect>)
    ensures home.None? <==> forall d :: d in displays ==> !Meets(r, d)
    ensures home.Some? ==> home.value in displays && Meets(r, home.value)
  {
    if displays == [] then None
    else if Meets(r, displays[0]) then Some(displays[0])
    else FirstMeeting(displays[1..], r)
  }

  function FitInside(display: Rect, r: Rect): Rect {
    var width, height := Min(r.width, Max(1.0, display.width)), Min(r.height, Max(1.0, display.height));
    Rect(Min(Max(r.x, display.x), display.x + display.width - width),
         Min(Max(r.y, display.y), display.y + display.height - height), width, height)
  }

  function Widest(displays: seq<Rect>): (w: real)
    requires displays != []
    ensures exists d :: d in displays && d.width == w
    ensures forall d :: d in displays ==> d.width <= w
  {
    if |displays| == 1 then displays[0].width else Max(displays[0].width, Widest(displays[1..]))
  }

  function Tallest(displays: seq<Rect>): (h: real)
    requires displays != []
    ensures exists d :: d in displays && d.height == h
    ensures forall d :: d in displays ==> d.height <= h
  {
    if |displays| == 1 then displays[0].height else Max(displays[0].height, Tallest(displays[1..]))
  }

  function CapToLargest(displays: seq<Rect>, width: real, height: real): (real, real) {
    if displays == [] then (width, height)
    else (Min(width, Max(1.0, Widest(displays))), Min(height, Max(1.0, Tallest(displays))))
  }

  function Size(j: Json, least: real, default: real): real {
    match j case Num(n) => Max(least, Round(n) as real) case _ => default
  }

  /** The stored place, when both coordinates are numbers. */
  function PlaceOf(row: map<string, Json>): Option<(real, real)> {
    match (Get(row, "x"), Get(row, "y"))
    case (Num(x), Num(y)) => Some((Round(x) as real, Round(y) as real))
    case _ => None
  }

  /** The window as stored, before the displays are looked at. */
  function Wanted(row: map<string, Json>): Window {
    Window(Size(Get(row, "width"), MIN_WIDTH, DEFAULT_WINDOW.width), Size(Get(row, "height"), MIN_HEIGHT, DEFAULT_WINDOW.height),
           PlaceOf(row), Get(row, "maximized") == Bool(true))
  }

  function RectOf(w: Window): Rect
    requires w.at.Some?
  {
    Rect(w.at.value.0, w.at.value.1, w.width, w.height)
  }

  function Home(w: Window, displays: seq<Rect>): Option<Rect> {
    if w.at.Some? then FirstMeeting(displays, RectOf(w)) else None
  }

  function Sanitized(raw: Json, displays: seq<Rect>): Window {
    if AsRecord(raw).None? then DEFAULT_WINDOW
    else
      var w := Wanted(AsRecord(raw).value);
      var home := Home(w, displays);
      if home.Some? then
        var fitted := FitInside(home.value, RectOf(w));
        Window(fitted.width, fitted.height, Some((fitted.x, fitted.y)), w.maximized)
      else
        var capped := CapToLargest(displays, w.width, w.height);
        Window(capped.0, capped.1, None, w.maximized)
  }

  method SanitizeWindowState(raw: Json, displays: seq<Rect>) returns (state: Window)
    ensures state == Sanitized(raw, displays)
  {
    var record := AsRecord(raw);
    if record.None? { return DEFAULT_WINDOW; }
    var candidate := record.value;
    var width := Size(Get(candidate, "width"), MIN_WIDTH, DEFAULT_WINDOW.width);
    var height := Size(Get(candidate, "height"), MIN_HEIGHT, DEFAULT_WINDOW.height);
    state := Window(width, height, None, false);
    if Get(candidate, "maximized") == Bool(true) { state := state.(maximized := true); }
    var placed := PlaceOf(candidate);
    if placed.Some? {
      var home := FirstMeeting(displays, Rect(placed.value.0, placed.value.1, width, height));
      if home.Some? {
        var fitted := FitInside(home.value, Rect(placed.value.0, placed.value.1, width, height));
        state := state.(width := fitted.width, height := fitted.height);
        state := state.(at := Some((fitted.x, fitted.y)));
        return state;
      }
    }
    var capped := CapToLargest(displays, width, height);
    state := state.(width := capped.0, height := capped.1);
  }

  // ----- Always visible -----------------------------------------------------------------------

  /**
   * A place is kept exactly when the stored window overlaps some display by 32 px both ways; then the
   * restored window lies wholly inside the first such display.
   */
  lemma PlacedInsideItsHome(raw: Json, displays: seq<Rect>)
    requires AsRecord(raw).Some?
    ensures var w, s := Wanted(AsRecord(raw).value), Sanitized(raw, displays);
            && (s.at.Some? <==> w.at.Some? && exists d :: d in displays && Meets(RectOf(w), d))
            && (s.at.Some? ==> exists i :: 0 <= i < |displays| && Meets(RectOf(w), displays[i])
                                 && Inside(RectOf(s), displays[i])
                                 && forall j :: 0 <= j < i ==> !Meets(RectOf(w), displays[j]))
  {
    var w := Wanted(AsRecord(raw).value);
    if Home(w, displays).Some? {
      FirstAt(displays, RectOf(w));
      FittedInside(Home(w, displays).value, RectOf(w));
    }
  }

  lemma {:induction false} FirstAt(displays: seq<Rect>, r: Rect)
    requires FirstMeeting(displays, r).Some?
    ensures exists i :: 0 <= i < |displays| && displays[i] == FirstMeeting(displays, r).value && Meets(r, displays[i])
              && forall j :: 0 <= j < i ==> !Meets(r, displays[j])
  {
    hide Meets;
    if !Meets(r, displays[0]) {
      FirstAt(displays[1..], r);
      var i :| 0 <= i < |displays| - 1 && displays[1..][i] == FirstMeeting(displays[1..], r).value
               && Meets(r, displays[1..][i]) && forall j :: 0 <= j < i ==> !Meets(r, displays[1..][j]);
      forall j | 0 <= j < i + 1 ensures !Meets(r, displays[j]) {
        if j > 0 { assert displays[j] == displays[1..][j - 1]; }
      }
      assert displays[i + 1] == displays[1..][i];
    }
  }

  /** Fitting shrinks to the display, and moves no further than it must. */
  lemma FittedInside(display: Rect, r: Rect)
    requires Meets(r, display)
    ensures var f := FitInside(display, r);
            && Inside(f, display)
            && f.width == Min(r.width, display.width) && f.height == Min(r.height, display.height)
            && (Inside(r, display) ==> f == r)
            && forall other: Rect :: other.width == f.width && other.height == f.height && Inside(other, display) ==>
                 Distance(f.x, r.x) <= Distance(other.x, r.x) && Distance(f.y, r.y) <= Distance(other.y, r.y)
  {
  }

  function Distance(a: real, b: real): real {
    if a >= b then a - b else b - a
  }

  /** Without a place, each measure fits the largest display by itself. */
  lemma CappedToTheLargest(raw: Json, displays: seq<Rect>)
    requires AsRecord(raw).Some? && displays != [] && Widest(displays) >= 1.0 && Tallest(displays) >= 1.0
    ensures Sanitized(raw, displays).width <= Widest(displays) && Sanitized(raw, displays).height <= Tallest(displays)
  {
    hide Meets;
  }

  /** The display has room for the window. */
  predicate Holds(d: Rect, width: real, height: real) {
    width <= d.width && height <= d.height
  }

  /** Each measure the window wants is either within the display, or the display has the largest there is. */
  predicate Suits(d: Rect, w: Window, displays: seq<Rect>)
    requires displays != []
  {
    (w.width <= d.width || d.width == Widest(displays)) && (w.height <= d.height || d.height == Tallest(displays))
  }

  /** Some display has room for the capped window exactly when one suits the window wanted in both measures at once. */
  lemma CappedFitsIff(raw: Json, displays: seq<Rect>)
    requires AsRecord(raw).Some? && displays != [] && Widest(displays) >= 1.0 && Tallest(displays) >= 1.0
    requires Sanitized(raw, displays).at.None?
    ensures var w, s := Wanted(AsRecord(raw).value), Sanitized(raw, displays);
            (exists d :: d in displays && Holds(d, s.width, s.height)) <==> (exists d :: d in displays && Suits(d, w, displays))
  {
    hide Meets, Wanted;
    var w, s := Wanted(AsRecord(raw).value), Sanitized(raw, displays);
    forall d | d in displays ensures Holds(d, s.width, s.height) <==> Suits(d, w, displays) {
      assert d.width <= Widest(displays) && d.height <= Tallest(displays);
    }
  }

  /** The two together may still fit no display: the widest need not be the tallest. */
  lemma CappedMayFitNowhere()
    ensures var wide, tall := Rect(0.0, 0.0, 2000.0, 800.0), Rect(2000.0, 0.0, 1100.0, 1600.0);
            var raw := Obj(map["width" := Num(1900.0), "height" := Num(1500.0)]);
            var s := Sanitized(raw, [wide, tall]);
            s.at.None? && forall d :: d in [wide, tall] ==> s.width > d.width || s.height > d.height
  {
    var wide, tall := Rect(0.0, 0.0, 2000.0, 800.0), Rect(2000.0, 0.0, 1100.0, 1600.0);
    assert [wide, tall][1..] == [tall];
    assert Widest([wide, tall]) == 2000.0 && Tallest([wide, tall]) == 1600.0;
  }

  // ----- What is restored ---------------------------------------------------------------------

  /** A whole number nearest to this one, the upper of two. */
  predicate Nearest(n: real, m: real) {
    Whole(m) && n - 0.5 < m <= n + 0.5
  }

  /**
   * What a stored measure stands for: the nearest whole number, not below the least; the default when it is no
   * number.
   */
  predicate Reads(j: Json, least: real, default: real, m: real) {
    match j
    case Num(n) => if n < least then m == least else Nearest(n, m)
    case _ => m == default
  }

  /** The window the record asks for. */
  predicate AsksFor(row: map<string, Json>, w: Window) {
    && Reads(Get(row, "width"), 1024.0, 1440.0, w.width) && Reads(Get(row, "height"), 720.0, 920.0, w.height)
    && (w.maximized <==> Get(row, "maximized") == Bool(true))
    && (w.at.Some? <==> Get(row, "x").Num? && Get(row, "y").Num?)
    && (w.at.Some? ==> Nearest(Get(row, "x").n, w.at.value.0) && Nearest(Get(row, "y").n, w.at.value.1))
  }

  lemma RoundIsTheNearest(n: real)
    ensures Nearest(n, Round(n) as real)
  {
    RoundIsNearest(n);
    RoundIsWhole(n);
  }

  lemma SizeReads(j: Json, least: int, default: real)
    ensures Reads(j, least as real, default, Size(j, least as real, default))
  {
    if j.Num? {
      hide Whole, Round;
      RoundIsTheNearest(j.n);
      var m := Round(j.n);
      if j.n < least as real {
        assert (m as real) < least as real + 0.5;
        assert m <= least;
      } else {
        assert m as real > least as real - 0.5;
        assert m >= least;
      }
    }
  }

  lemma WantedIsAskedFor(row: map<string, Json>)
    ensures AsksFor(row, Wanted(row))
  {
    hide Size, Round, Reads, Nearest;
    SizeReads(Get(row, "width"), 1024, 1440.0);
    SizeReads(Get(row, "height"), 720, 920.0);
    if Get(row, "x").Num? { RoundIsTheNearest(Get(row, "x").n); }
    if Get(row, "y").Num? { RoundIsTheNearest(Get(row, "y").n); }
  }

  /** Both hold some square of 32 px. */
  ghost predicate ShareSquare(r: Rect, d: Rect) {
    exists x: real, y: real :: Inside(Rect(x, y, 32.0, 32.0), r) && Inside(Rect(x, y, 32.0, 32.0), d)
  }

  lemma MeetsIff(r: Rect, d: Rect)
    ensures Meets(r, d) <==> ShareSquare(r, d)
  {
    if Meets(r, d) {
      var x, y := Max(r.x, d.x), Max(r.y, d.y);
      assert Inside(Rect(x, y, 32.0, 32.0), r) && Inside(Rect(x, y, 32.0, 32.0), d);
    }
  }

  /** Moved from `want` no further than it must to lie between `from` and `to` with this length. */
  predicate Moved(want: real, length: real, from: real, to: real, got: real) {
    if want < from then got == from else if want + length > to then got == to - length else got == want
  }

  /** The window asked for, shrunk to the display and moved into it. */
  predicate Placed(w: Window, d: Rect, s: Window) {
    && s.width == (if w.width <= d.width then w.width else d.width)
    && s.height == (if w.height <= d.height then w.height else d.height)
    && w.at.Some? && s.at.Some?
    && Moved(w.at.value.0, s.width, d.x, d.x + d.width, s.at.value.0)
    && Moved(w.at.value.1, s.height, d.y, d.y + d.height, s.at.value.1)
  }

  /** The measure asked for, or the largest there is where that is less; a display counts for one pixel at least. */
  ghost predicate Capped(want: real, largest: real, got: real) {
    got == if want <= largest then want else if largest < 1.0 then 1.0 else largest
  }

  /** The first display that shares a square with the window asked for. */
  ghost predicate FirstSharing(w: Window, displays: seq<Rect>, i: nat) {
    && w.at.Some? && i < |displays| && ShareSquare(RectOf(w), displays[i])
    && forall j :: 0 <= j < i ==> !ShareSquare(RectOf(w), displays[j])
  }

  /** The window restored: in its place where that shares a square with a display, else by its measures alone. */
  ghost predicate RestoredAs(w: Window, displays: seq<Rect>, s: Window) {
    && s.maximized == w.maximized
    && (forall i: nat :: FirstSharing(w, displays, i) ==> Placed(w, displays[i], s))
    && ((forall i: nat :: !FirstSharing(w, displays, i)) ==>
          && s.at.None?
          && (displays == [] ==> s.width == w.width && s.height == w.height)
          && (displays != [] ==> Capped(w.width, Widest(displays), s.width) && Capped(w.height, Tallest(displays), s.height)))
  }

  lemma {:induction false} FirstSharingIsHome(w: Window, displays: seq<Rect>)
    requires w.at.Some?
    ensures var home := FirstMeeting(displays, RectOf(w));
            && (forall i: nat :: FirstSharing(w, displays, i) ==> home == Some(displays[i]))
            && (home.Some? ==> exists i: nat :: FirstSharing(w, displays, i))
  {
    var r := RectOf(w);
    hide Meets, ShareSquare;
    forall d { MeetsIff(r, d); }
    if FirstMeeting(displays, r).Some? {
      FirstAt(displays, r);
      var k: nat :| k < |displays| && displays[k] == FirstMeeting(displays, r).value && Meets(r, displays[k])
                && forall j :: 0 <= j < k ==> !Meets(r, displays[j]);
      assert FirstSharing(w, displays, k);
      forall i: nat | FirstSharing(w, displays, i) ensures i == k {
        assert !(i < k) && !(k < i);
      }
    }
    forall i: nat | FirstSharing(w, displays, i) ensures FirstMeeting(displays, r).Some? {
      assert displays[i] in displays && Meets(r, displays[i]);
    }
  }

  lemma FittedIsPlaced(w: Window, d: Rect)
    requires w.at.Some? && Meets(RectOf(w), d)
    ensures var f := FitInside(d, RectOf(w)); Placed(w, d, Window(f.width, f.height, Some((f.x, f.y)), w.maximized))
  {
  }

  lemma CappedIs(displays: seq<Rect>, width: real, height: real)
    requires displays != [] && width >= 1.0 && height >= 1.0
    ensures var c := CapToLargest(displays, width, height);
            Capped(width, Widest(displays), c.0) && Capped(height, Tallest(displays), c.1)
  {
  }

  /** What is restored from a record, exactly; anything else restores the default window. */
  lemma RestoredExactly(raw: Json, displays: seq<Rect>)
    ensures AsRecord(raw).Some? ==>
              exists w :: AsksFor(AsRecord(raw).value, w) && RestoredAs(w, displays, Sanitized(raw, displays))
    ensures AsRecord(raw).None? ==> Sanitized(raw, displays) == Window(1440.0, 920.0, None, false)
  {
    if AsRecord(raw).Some? {
      var w := Wanted(AsRecord(raw).value);
      WantedIsAskedFor(AsRecord(raw).value);
      WantedIsWhole(AsRecord(raw).value);
      hide Wanted, AsksFor, Meets, FitInside, CapToLargest, FirstSharing, Placed, Capped, Whole;
      if w.at.Some? { FirstSharingIsHome(w, displays); }
      if Home(w, displays).Some? {
        FittedIsPlaced(w, Home(w, displays).value);
      } else if displays != [] {
        CappedIs(displays, w.width, w.height);
      } else {
        NoDisplays(w.width, w.height);
      }
      NoPlaceNoHome(w, displays);
      assert RestoredAs(w, displays, Sanitized(raw, displays));
    }
  }

  lemma NoDisplays(width: real, height: real)
    ensures CapToLargest([], width, height) == (width, height)
  {
  }

  lemma NoPlaceNoHome(w: Window, displays: seq<Rect>)
    ensures w.at.None? ==> forall i: nat :: !FirstSharing(w, displays, i)
  {
  }

  // ----- Restoring twice ----------------------------------------------------------------------

  /** What is written for a window. */
  function Stored(w: Window): Json {
    var size := map["width" := Num(w.width), "height" := Num(w.height)];
    var flag := if w.maximized then map["maximized" := Bool(true)] else map[];
    var place := if w.at.Some? then map["x" := Num(w.at.value.0), "y" := Num(w.at.value.1)] else map[];
    Obj(size + flag + place)
  }

  predicate WholeRect(d: Rect) {
    Whole(d.x) && Whole(d.y) && Whole(d.width) && Whole(d.height)
  }

  /** Whole numbers, and room for the smallest window. */
  predicate Roomy(d: Rect) {
    WholeRect(d) && d.width >= MIN_WIDTH && d.height >= MIN_HEIGHT
  }

  ghost predicate Apart(displays: seq<Rect>) {
    forall d, e :: d in displays && e in displays && d != e ==> !Meets(d, e)
  }

  lemma StoredFields(w: Window)
    ensures AsRecord(Stored(w)).Some?
    ensures var row := AsRecord(Stored(w)).value;
            && Get(row, "width") == Num(w.width) && Get(row, "height") == Num(w.height)
            && Get(row, "maximized") == (if w.maximized then Bool(true) else Null)
            && Get(row, "x") == (if w.at.Some? then Num(w.at.value.0) else Null)
            && Get(row, "y") == (if w.at.Some? then Num(w.at.value.1) else Null)
  {
  }

  /** A window as it is read back: not below the smallest size. */
  function Enlarged(w: Window): Window {
    w.(width := Max(MIN_WIDTH, w.width), height := Max(MIN_HEIGHT, w.height))
  }

  ghost predicate WholeMeasures(w: Window) {
    Whole(w.width) && Whole(w.height) && (w.at.Some? ==> Whole(w.at.value.0) && Whole(w.at.value.1))
  }

  lemma RereadStored(w: Window)
    requires WholeMeasures(w)
    ensures AsRecord(Stored(w)).Some? && Wanted(AsRecord(Stored(w)).value) == Enlarged(w)
  {
    hide Stored, Whole, Round, AsRecord, Get;
    StoredFields(w);
    RoundWhole(w.width);
    RoundWhole(w.height);
    if w.at.Some? {
      RoundWhole(w.at.value.0);
      RoundWhole(w.at.value.1);
    }
  }

  lemma WantedIsWhole(row: map<string, Json>)
    ensures var w := Wanted(row);
            && Whole(w.width) && Whole(w.height) && w.width >= MIN_WIDTH && w.height >= MIN_HEIGHT
            && (w.at.Some? ==> Whole(w.at.value.0) && Whole(w.at.value.1))
  {
    hide Round, Get;
    forall x { RoundIsWhole(x); }
    assert Whole(MIN_WIDTH) && Whole(MIN_HEIGHT) && Whole(DEFAULT_WINDOW.width) && Whole(DEFAULT_WINDOW.height);
  }

  lemma FittedIsWhole(display: Rect, r: Rect)
    requires WholeRect(display) && WholeRect(r)
    ensures WholeRect(FitInside(display, r))
  {
    var f := FitInside(display, r);
    assert Whole(1.0);
    hide Whole, Min, Max;
    WholeChoice(1.0, display.width);
    WholeChoice(1.0, display.height);
    WholeChoice(r.width, Max(1.0, display.width));
    WholeChoice(r.height, Max(1.0, display.height));
    WholeSum(display.x, display.width);
    WholeSum(display.y, display.height);
    WholeSum(display.x + display.width, f.width);
    WholeSum(display.y + display.height, f.height);
    WholeChoice(r.x, display.x);
    WholeChoice(r.y, display.y);
    WholeChoice(Max(r.x, display.x), display.x + display.width - f.width);
    WholeChoice(Max(r.y, display.y), display.y + display.height - f.height);
  }

  lemma WholeWindow(raw: Json, displays: seq<Rect>)
    requires AsRecord(raw).Some? && forall d :: d in displays ==> WholeRect(d)
    ensures WholeMeasures(Sanitized(raw, displays))
  {
    hide Whole, Meets, Wanted;
    var w := Wanted(AsRecord(raw).value);
    WantedIsWhole(AsRecord(raw).value);
    if Home(w, displays).Some? {
      FittedIsWhole(Home(w, displays).value, RectOf(w));
    } else if displays != [] {
      forall a, b | Whole(a) && Whole(b) ensures Whole(Min(a, b)) && Whole(Max(a, b)) { WholeChoice(a, b); }
      RoundIsWhole(1.0);
      assert Round(1.0) == 1;
    }
  }

  /**
   * What keeps a placed window where it is when it is restored again: the first display its enlarged
   * rectangle overlaps has room for it there, and, where it is below the smallest size, is just as large.
   */
  predicate Settled(s: Window, displays: seq<Rect>)
    requires s.at.Some?
  {
    var home := FirstMeeting(displays, RectOf(Enlarged(s)));
    && home.Some? && Inside(RectOf(s), home.value)
    && (s.width < MIN_WIDTH ==> home.value.width == s.width)
    && (s.height < MIN_HEIGHT ==> home.value.height == s.height)
  }

  /**
   * Fitting the enlarged rectangle gives the window back exactly when the display has it inside and is no larger
   * where it must not be.
   */
  lemma FitsBackIff(s: Window, d: Rect)
    requires s.at.Some? && Meets(RectOf(Enlarged(s)), d)
    ensures FitInside(d, RectOf(Enlarged(s))) == RectOf(s) <==>
              && Inside(RectOf(s), d)
              && (s.width < MIN_WIDTH ==> d.width == s.width) && (s.height < MIN_HEIGHT ==> d.height == s.height)
  {
  }

  /**
   * On whole-numbered displays of any size, a window kept in place is restored to itself exactly when it is
   * settled.
   */
  lemma RestoredPlaceIsStableIff(raw: Json, displays: seq<Rect>)
    requires AsRecord(raw).Some? && (forall d :: d in displays ==> WholeRect(d)) && Sanitized(raw, displays).at.Some?
    ensures var s := Sanitized(raw, displays);
            Sanitized(Stored(s), displays) == s <==> Settled(s, displays)
  {
    var s := Sanitized(raw, displays);
    WholeWindow(raw, displays);
    RereadStored(s);
    var home := FirstMeeting(displays, RectOf(Enlarged(s)));
    if home.Some? { FitsBackIff(s, home.value); }
    hide Stored, Meets, Wanted, FitInside, Inside, Enlarged, CapToLargest;
    SanitizedAgain(s, displays);
  }

  /** What comes of a stored whole window. */
  lemma SanitizedAgain(s: Window, displays: seq<Rect>)
    requires WholeMeasures(s) && s.at.Some?
    ensures var again, home := Sanitized(Stored(s), displays), FirstMeeting(displays, RectOf(Enlarged(s)));
            && again.maximized == s.maximized && (again.at.Some? <==> home.Some?)
            && (home.Some? ==> RectOf(again) == FitInside(home.value, RectOf(Enlarged(s))))
  {
    hide Stored, Meets, Wanted, FitInside, CapToLargest;
    RereadStored(s);
  }

  /** A window without a place is always restored to itself. */
  lemma RestoredSizeIsStable(raw: Json, displays: seq<Rect>)
    requires AsRecord(raw).Some? && (forall d :: d in displays ==> WholeRect(d)) && Sanitized(raw, displays).at.None?
    ensures Sanitized(Stored(Sanitized(raw, displays)), displays) == Sanitized(raw, displays)
  {
    var w, s := Wanted(AsRecord(raw).value), Sanitized(raw, displays);
    WholeWindow(raw, displays);
    RereadStored(s);
    WantedIsWhole(AsRecord(raw).value);
    hide Stored, Meets, Wanted, Whole;
  }

  /** On whole-numbered, roomy displays that lie apart, restoring what was restored changes nothing. */
  lemma RestoringTwiceIsRestoringOnce(raw: Json, displays: seq<Rect>)
    requires AsRecord(raw).Some? && (forall d :: d in displays ==> Roomy(d)) && Apart(displays)
    ensures Sanitized(Stored(Sanitized(raw, displays)), displays) == Sanitized(raw, displays)
  {
    hide Stored, Meets, Whole, Wanted;
    var w, s := Wanted(AsRecord(raw).value), Sanitized(raw, displays);
    if s.at.None? {
      RestoredSizeIsStable(raw, displays);
    } else {
      var home := Home(w, displays).value;
      WantedIsWhole(AsRecord(raw).value);
      FittedInside(home, RectOf(w));
      StaysHome(displays, home, RectOf(s));
      RestoredPlaceIsStableIff(raw, displays);
    }
  }

  lemma StaysHome(displays: seq<Rect>, home: Rect, r: Rect)
    requires Apart(displays) && home in displays && Inside(r, home) && r.width >= MIN_WIDTH && r.height >= MIN_HEIGHT
    ensures FirstMeeting(displays, r) == Some(home) && Meets(r, home)
  {
    assert Meets(r, home);
    forall d | d in displays && Meets(r, d) ensures d == home {
      assert Meets(home, d);
    }
  }

  /** Stored junk that is no record yields the default size uncapped, so a second restoring may cap it. */
  lemma DefaultIsStableIff(raw: Json, displays: seq<Rect>)
    requires AsRecord(raw).None?
    ensures Sanitized(raw, displays) == DEFAULT_WINDOW
    ensures Sanitized(Stored(DEFAULT_WINDOW), displays) == DEFAULT_WINDOW <==>
              displays == [] || (Widest(displays) >= DEFAULT_WINDOW.width && Tallest(displays) >= DEFAULT_WINDOW.height)
  {
    RereadStored(DEFAULT_WINDOW);
  }

  /** A display smaller than the smallest window: the second restoring moves the window to its neighbour. */
  lemma SmallDisplayMovesTwice()
    ensures var big, small := Rect(800.0, 0.0, 2000.0, 1000.0), Rect(0.0, 0.0, 800.0, 800.0);
            var once := Window(800.0, 720.0, Some((0.0, 0.0)), false);
            && Sanitized(Stored(Window(1024.0, 720.0, Some((-300.0, 0.0)), false)), [big, small]) == once
            && Sanitized(Stored(once), [big, small]) == Window(1024.0, 720.0, Some((800.0, 0.0)), false)
  {
    hide Stored;
    var big, small := Rect(800.0, 0.0, 2000.0, 1000.0), Rect(0.0, 0.0, 800.0, 800.0);
    var once := Window(800.0, 720.0, Some((0.0, 0.0)), false);
    RereadStored(Window(1024.0, 720.0, Some((-300.0, 0.0)), false));
    assert [big, small][1..] == [small];
    StoredFields(once);
    assert Wanted(AsRecord(Stored(once)).value) == Window(1024.0, 720.0, Some((0.0, 0.0)), false);
  }

  /** Displays that overlap: the second restoring moves the window to the earlier one. */
  lemma OverlappingDisplaysMoveTwice()
    ensures var left, right := Rect(0.0, 0.0, 1024.0, 720.0), Rect(900.0, 0.0, 1024.0, 720.0);
            var once := Window(1024.0, 720.0, Some((900.0, 0.0)), false);
            && Sanitized(Stored(Window(1024.0, 720.0, Some((1000.0, 0.0)), false)), [left, right]) == once
            && Sanitized(Stored(once), [left, right]) == Window(1024.0, 720.0, Some((0.0, 0.0)), false)
  {
    RereadStored(Window(1024.0, 720.0, Some((1000.0, 0.0)), false));
    RereadStored(Window(1024.0, 720.0, Some((900.0, 0.0)), false));
    var left, right := Rect(0.0, 0.0, 1024.0, 720.0), Rect(900.0, 0.0, 1024.0, 720.0);
    assert [left, right][1..] == [right];
  }
}
