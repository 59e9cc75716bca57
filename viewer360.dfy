/** The orbit and zoom state of the panorama viewer (components/Viewer360.tsx):
    the longitude/latitude the camera looks at, the drag anchor recorded on
    press, and the camera's field of view. Angles are in degrees; the
    trigonometry that turns them into a look-at target is not part of this model. */
module Viewer360 {

  /** Degrees of orbit per pixel of pointer travel. */
  const DragFactor: real := 0.1
  /** Degrees of field of view per unit of wheel delta. */
  const WheelFactor: real := 0.05
  const MinFov: real := 10.0
  const MaxFov: real := 130.0
  /** The latitude limit the render loop enforces. */
  const MaxLat: real := 85.0

  /** `THREE.MathUtils.clamp(v, lo, hi)`, i.e. `Math.max(lo, Math.min(hi, v))`. */
  function Clamp(v: real, lo: real, hi: real): (r: real)
    requires lo <= hi
    ensures lo <= r <= hi
    ensures lo <= v <= hi ==> r == v
    ensures v < lo ==> r == lo
    ensures v > hi ==> r == hi
  {
    var m := if hi < v then hi else v;
    if lo > m then lo else m
  }

  /** Clamping twice is clamping once. */
  lemma ClampIdempotent(v: real, lo: real, hi: real)
    requires lo <= hi
    ensures Clamp(Clamp(v, lo, hi), lo, hi) == Clamp(v, lo, hi)
  {
  }

  /** Clamping preserves order, so a larger wheel delta never zooms in further. */
  lemma ClampMonotone(v: real, w: real, lo: real, hi: real)
    requires lo <= hi && v <= w
    ensures Clamp(v, lo, hi) <= Clamp(w, lo, hi)
  {
  }

  /** The longitude during a drag: moving the pointer left turns the view right. */
  function DraggedLon(downX: real, x: real, downLon: real): (lon: real)
    ensures x < downX ==> lon > downLon
    ensures x > downX ==> lon < downLon
    ensures x == downX ==> lon == downLon
  {
    (downX - x) * DragFactor + downLon
  }

  /** The latitude during a drag: moving the pointer down raises the view. */
  function DraggedLat(downY: real, y: real, downLat: real): (lat: real)
    ensures y > downY ==> lat > downLat
    ensures y < downY ==> lat < downLat
    ensures y == downY ==> lat == downLat
  {
    (y - downY) * DragFactor + downLat
  }

  /** Every longitude is reached by exactly one horizontal pointer position:
      the pointer x that yields `lon` is `downX - (lon - downLon) / 0.1`. */
  lemma DraggedLonInverse(downX: real, downLon: real, lon: real, x: real)
    ensures DraggedLon(downX, x, downLon) == lon <==> x == downX - (lon - downLon) * 10.0
  {
  }

  /** The same for latitude and the vertical pointer position. */
  lemma DraggedLatInverse(downY: real, downLat: real, lat: real, y: real)
    ensures DraggedLat(downY, y, downLat) == lat <==> y == downY + (lat - downLat) * 10.0
  {
  }

  /** The field of view after one wheel step. */
  function WheelFov(fov: real, deltaY: real): (r: real)
    ensures MinFov <= r <= MaxFov
    ensures MinFov <= fov + deltaY * WheelFactor <= MaxFov ==> r == fov + deltaY * WheelFactor
  {
    Clamp(fov + deltaY * WheelFactor, MinFov, MaxFov)
  }

  /** Scrolling down (positive delta) never narrows the view, scrolling up never widens it. */
  lemma WheelDirection(fov: real, deltaY: real)
    requires MinFov <= fov <= MaxFov
    ensures deltaY >= 0.0 ==> WheelFov(fov, deltaY) >= fov
    ensures deltaY <= 0.0 ==> WheelFov(fov, deltaY) <= fov
  {
  }

  class Viewer {
    var lon: real
    var lat: real
    var isUserInteracting: bool
    var downX: real
    var downY: real
    var downLon: real
    var downLat: real
    /** The camera's field of view. */
    var fov: real

    /** Mounting: the view starts at longitude and latitude 0 with the `fov`
        prop (75 when the owner passes none). */
    constructor (fov0: real)
      ensures lon == 0.0 && lat == 0.0 && !isUserInteracting
      ensures downX == 0.0 && downY == 0.0 && downLon == 0.0 && downLat == 0.0
      ensures fov == fov0
    {
      lon, lat := 0.0, 0.0;
      isUserInteracting := false;
      downX, downY, downLon, downLat := 0.0, 0.0, 0.0, 0.0;
      fov := fov0;
    }

    /** `onPointerDown`: a primary press starts a drag and anchors it at the
        pointer and the current orientation; there is no check for a drag that
        is already in progress, so a second press re-anchors. */
    method PointerDown(isPrimary: bool, x: real, y: real)
      modifies this
      ensures isPrimary ==>
        isUserInteracting && downX == x && downY == y && downLon == old(lon) && downLat == old(lat)
      ensures !isPrimary ==>
        isUserInteracting == old(isUserInteracting) && downX == old(downX) && downY == old(downY) &&
        downLon == old(downLon) && downLat == old(downLat)
      ensures lon == old(lon) && lat == old(lat) && fov == old(fov)
    {
      if !isPrimary {
        return;
      }
      isUserInteracting := true;
      downX, downY := x, y;
      downLon, downLat := lon, lat;
    }

    /** `onPointerMove`: during a primary drag the orientation follows the
        pointer's offset from the anchor. */
    method PointerMove(isPrimary: bool, x: real, y: real)
      modifies this
      ensures isPrimary && old(isUserInteracting) ==>
        lon == DraggedLon(downX, x, downLon) && lat == DraggedLat(downY, y, downLat)
      ensures !(isPrimary && old(isUserInteracting)) ==> lon == old(lon) && lat == old(lat)
      ensures isUserInteracting == old(isUserInteracting) && fov == old(fov)
      ensures downX == old(downX) && downY == old(downY) && downLon == old(downLon) && downLat == old(downLat)
    {
      if !isPrimary || !isUserInteracting {
        return;
      }
      lon := (downX - x) * DragFactor + downLon;
      lat := (y - downY) * DragFactor + downLat;
    }

    /** `onPointerUp`: ends the drag. */
    method PointerUp()
      modifies this
      ensures !isUserInteracting
      ensures lon == old(lon) && lat == old(lat) && fov == old(fov)
      ensures downX == old(downX) && downY == old(downY) && downLon == old(downLon) && downLat == old(downLat)
    {
      isUserInteracting := false;
    }

    /** `onWheel`: zoom by the wheel delta, kept within [10, 130] degrees. */
    method Wheel(deltaY: real)
      modifies this
      ensures fov == WheelFov(old(fov), deltaY)
      ensures lon == old(lon) && lat == old(lat) && isUserInteracting == old(isUserInteracting)
      ensures downX == old(downX) && downY == old(downY) && downLon == old(downLon) && downLat == old(downLat)
    {
      var newFov := fov + deltaY * WheelFactor;
      fov := Clamp(newFov, MinFov, MaxFov);
    }

    /** One frame of the render loop: the latitude is clamped to [-85, 85] and
        the polar angle `phi = 90 - lat` and azimuth `theta = lon` (in degrees)
        are returned; the polar angle therefore never reaches a pole. */
    method Frame() returns (phi: real, theta: real)
      modifies this
      ensures lat == Clamp(old(lat), -MaxLat, MaxLat)
      ensures 5.0 <= phi <= 175.0 && phi == 90.0 - lat && theta == lon
      ensures lon == old(lon) && fov == old(fov) && isUserInteracting == old(isUserInteracting)
      ensures downX == old(downX) && downY == old(downY) && downLon == old(downLon) && downLat == old(downLat)
    {
      lat := Clamp(lat, -MaxLat, MaxLat);
      phi := 90.0 - lat;
      theta := lon;
    }

    /** The effect on the `fov` prop: the camera takes the new value as given,
        without the wheel's clamp. */
    method SetFov(v: real)
      modifies this
      ensures fov == v
      ensures lon == old(lon) && lat == old(lat) && isUserInteracting == old(isUserInteracting)
      ensures downX == old(downX) && downY == old(downY) && downLon == old(downLon) && downLat == old(downLat)
    {
      fov := v;
    }
  }

  /** A press, any number of render frames and wheel zooms, and a move back to
      the press position leave the orientation as it was: a click without
      travel does not turn the view, and neither the render loop's latitude
      clamp nor a zoom disturbs the drag in progress. */
  method ClickDoesNotTurn(v: Viewer, x: real, y: real, deltaY: real)
    modifies v
    ensures v.lon == old(v.lon) && v.lat == old(v.lat)
    ensures v.fov == WheelFov(old(v.fov), deltaY)
  {
    v.PointerDown(true, x, y);
    var _, _ := v.Frame();
    v.Wheel(deltaY);
    var _, _ := v.Frame();
    v.PointerMove(true, x, y);
  }

  /** After a release, moves no longer turn the view until the next press. */
  method ReleaseStopsTurning(v: Viewer, isPrimary: bool, x: real, y: real)
    modifies v
    ensures !v.isUserInteracting && v.lon == old(v.lon) && v.lat == old(v.lat)
  {
    v.PointerUp();
    v.PointerMove(isPrimary, x, y);
  }
}
