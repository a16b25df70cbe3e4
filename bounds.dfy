/** The viewport scan of app.py's `get_bounds`: the smallest latitude/longitude
    rectangle holding every point of every line geometry, and its midpoint.

    The source starts its four running values at +inf/-inf; here that start
    is the empty extent `None`, and the output for a scan that saw no point
    (where app.py returns a NaN centre and infinite bounds) is `None`. */
module Bounds {
  import opened GeoJson

  /** The running minima and maxima of the scan. */
  datatype Box = Box(minLat: real, maxLat: real, minLon: real, maxLon: real)

  datatype LatLon = LatLon(lat: real, lon: real)

  /** What `get_bounds` returns: the centre and `[[minlat, minlon], [maxlat, maxlon]]`. */
  datatype Frame = Frame(center: LatLon, southWest: LatLon, northEast: LatLon)

  function Min(a: real, b: real): real { if b < a then b else a }
  function Max(a: real, b: real): real { if b > a then b else a }

  // ---------- Points of a geometry ----------

  /** `[pt for line in lines for pt in line]`: the lines' points, in order. */
  function Flatten(lines: seq<seq<Position>>): (ps: seq<Position>)
    ensures forall i, p :: 0 <= i < |lines| && p in lines[i] ==> p in ps
    ensures forall p :: p in ps ==> exists i :: 0 <= i < |lines| && p in lines[i]
  {
    if lines == [] then [] else Flatten(lines[..|lines| - 1]) + lines[|lines| - 1]
  }

  /** Whether the scan reads points from this geometry member. */
  predicate Supported(m: GeometryMember) {
    m.Given? && (m.geometry.LineString? || m.geometry.MultiLineString?)
  }

  /** The points the scan visits for one feature; nothing for a feature without
      a line geometry. */
  function PointsOf(m: GeometryMember): (ps: seq<Position>)
    ensures !Supported(m) ==> ps == []
  {
    match m
    case Given(LineString(coords)) => coords
    case Given(MultiLineString(lines)) => Flatten(lines)
    case _ => []
  }

  /** The points of a whole feature list, feature by feature. */
  function AllPoints(gs: seq<GeometryMember>): seq<Position>
  {
    if gs == [] then [] else AllPoints(gs[..|gs| - 1]) + PointsOf(gs[|gs| - 1])
  }

  // ---------- The scan ----------

  /** A box whose minima do not exceed its maxima. */
  predicate Ordered(b: Box) {
    b.minLat <= b.maxLat && b.minLon <= b.maxLon
  }

  /** One step of the loop body: fold a position into the running bounds.
      Starting from the empty extent is `min(inf, lat) == lat` and so on. The
      new box holds the position and the old box, and each side is either the
      old side or the position's coordinate. */
  function Include(acc: Option<Box>, p: Position): (r: Box)
    ensures r.minLat <= p.lat <= r.maxLat && r.minLon <= p.lon <= r.maxLon
    ensures acc.Some? ==> (r.minLat <= acc.value.minLat && acc.value.maxLat <= r.maxLat
                           && r.minLon <= acc.value.minLon && acc.value.maxLon <= r.maxLon)
    ensures (r.minLat == p.lat || (acc.Some? && r.minLat == acc.value.minLat))
            && (r.maxLat == p.lat || (acc.Some? && r.maxLat == acc.value.maxLat))
            && (r.minLon == p.lon || (acc.Some? && r.minLon == acc.value.minLon))
            && (r.maxLon == p.lon || (acc.Some? && r.maxLon == acc.value.maxLon))
  {
    match acc
    case None => Box(p.lat, p.lat, p.lon, p.lon)
    case Some(b) => Box(Min(b.minLat, p.lat), Max(b.maxLat, p.lat), Min(b.minLon, p.lon), Max(b.maxLon, p.lon))
  }

  /** The running bounds after visiting `ps` in order from `acc`. They stay at
      the empty start only when nothing was seen, only ever widen, and stay
      ordered. */
  function ScanFrom(acc: Option<Box>, ps: seq<Position>): (r: Option<Box>)
    ensures r.None? <==> acc.None? && ps == []
    ensures acc.Some? ==> (r.value.minLat <= acc.value.minLat && acc.value.maxLat <= r.value.maxLat
                           && r.value.minLon <= acc.value.minLon && acc.value.maxLon <= r.value.maxLon)
    ensures (acc.None? || Ordered(acc.value)) && r.Some? ==> Ordered(r.value)
  {
    if ps == [] then acc else Some(Include(ScanFrom(acc, ps[..|ps| - 1]), ps[|ps| - 1]))
  }

  /** The bounds of a point sequence, from the empty start: none exactly for
      no points, and otherwise an ordered box. */
  function Extent(ps: seq<Position>): (r: Option<Box>)
    ensures r.None? <==> ps == []
    ensures r.Some? ==> Ordered(r.value)
  {
    ScanFrom(None, ps)
  }

  /** `center` and `bounds` of a non-empty scan. */
  function FrameOf(b: Box): (f: Frame)
    ensures f.southWest == LatLon(b.minLat, b.minLon) && f.northEast == LatLon(b.maxLat, b.maxLon)
    ensures b.minLat <= b.maxLat ==> b.minLat <= f.center.lat <= b.maxLat
    ensures b.minLon <= b.maxLon ==> b.minLon <= f.center.lon <= b.maxLon
    ensures f.center.lat - b.minLat == b.maxLat - f.center.lat
    ensures f.center.lon - b.minLon == b.maxLon - f.center.lon
  {
    Frame(LatLon((b.minLat + b.maxLat) / 2.0, (b.minLon + b.maxLon) / 2.0),
          LatLon(b.minLat, b.minLon), LatLon(b.maxLat, b.maxLon))
  }

  function ViewOf(e: Option<Box>): Option<Frame>
  {
    match e
    case None => None
    case Some(b) => Some(FrameOf(b))
  }

  // ---------- What the bounds mean ----------

  ghost predicate Encloses(b: Box, p: Position) {
    b.minLat <= p.lat <= b.maxLat && b.minLon <= p.lon <= b.maxLon
  }

  /** `b` is exactly the coordinate-wise minimum and maximum of `ps`: it holds
      every point, and each of its four sides is attained by some point. */
  ghost predicate Tight(b: Box, ps: seq<Position>) {
    && (forall i :: 0 <= i < |ps| ==> Encloses(b, ps[i]))
    && (exists i :: 0 <= i < |ps| && ps[i].lat == b.minLat)
    && (exists i :: 0 <= i < |ps| && ps[i].lat == b.maxLat)
    && (exists i :: 0 <= i < |ps| && ps[i].lon == b.minLon)
    && (exists i :: 0 <= i < |ps| && ps[i].lon == b.maxLon)
  }

  /** The scan of a non-empty sequence is its exact bounding box; the scan of
      the empty sequence stays at the empty start. */
  lemma {:induction false} ExtentIsTight(ps: seq<Position>)
    ensures Extent(ps).None? <==> ps == []
    ensures ps != [] ==> Tight(Extent(ps).value, ps)
  {
    if ps != [] {
      var init, p := ps[..|ps| - 1], ps[|ps| - 1];
      ExtentIsTight(init);
      var b := Extent(ps).value;
      assert forall i :: 0 <= i < |init| ==> init[i] == ps[i];
      if init == [] {
        assert b == Box(p.lat, p.lat, p.lon, p.lon);
        assert ps[0] == p;
      } else {
        var a := Extent(init).value;
        assert b == Include(Some(a), p);
        assert Tight(a, init);
        var n := |ps| - 1;
        assert ps[n] == p;
        if p.lat < a.minLat { assert ps[n].lat == b.minLat; }
        else { var i :| 0 <= i < |init| && init[i].lat == a.minLat; assert ps[i].lat == b.minLat; }
        if p.lat > a.maxLat { assert ps[n].lat == b.maxLat; }
        else { var i :| 0 <= i < |init| && init[i].lat == a.maxLat; assert ps[i].lat == b.maxLat; }
        if p.lon < a.minLon { assert ps[n].lon == b.minLon; }
        else { var i :| 0 <= i < |init| && init[i].lon == a.minLon; assert ps[i].lon == b.minLon; }
        if p.lon > a.maxLon { assert ps[n].lon == b.maxLon; }
        else { var i :| 0 <= i < |init| && init[i].lon == a.maxLon; assert ps[i].lon == b.maxLon; }
        forall i | 0 <= i < |ps| ensures Encloses(b, ps[i]) {
          if i < n { assert Encloses(a, init[i]); }
        }
      }
    }
  }

  /** Only one box is tight for a given point sequence. */
  lemma TightIsUnique(b: Box, c: Box, ps: seq<Position>)
    requires Tight(b, ps) && Tight(c, ps)
    ensures b == c
  {
  }

  /** Tightness depends on the points only, not on their order or multiplicity. */
  lemma TightOnSameElements(b: Box, ps: seq<Position>, qs: seq<Position>)
    requires Tight(b, ps)
    requires forall p :: p in ps <==> p in qs
    ensures Tight(b, qs)
  {
    forall j | 0 <= j < |qs| ensures Encloses(b, qs[j]) {
      assert qs[j] in ps;
      var i :| 0 <= i < |ps| && ps[i] == qs[j];
    }
    var i1 :| 0 <= i1 < |ps| && ps[i1].lat == b.minLat;
    assert ps[i1] in qs;
    var i2 :| 0 <= i2 < |ps| && ps[i2].lat == b.maxLat;
    assert ps[i2] in qs;
    var i3 :| 0 <= i3 < |ps| && ps[i3].lon == b.minLon;
    assert ps[i3] in qs;
    var i4 :| 0 <= i4 < |ps| && ps[i4].lon == b.maxLon;
    assert ps[i4] in qs;
  }

  /** The viewport does not depend on the order in which the points are
      visited. */
  lemma ExtentIgnoresOrder(ps: seq<Position>, qs: seq<Position>)
    requires multiset(ps) == multiset(qs)
    ensures Extent(ps) == Extent(qs)
  {
    ExtentIsTight(ps);
    ExtentIsTight(qs);
    assert forall p :: p in ps <==> p in qs by {
      forall p ensures p in ps <==> p in qs {
        assert p in ps <==> p in multiset(ps);
        assert p in qs <==> p in multiset(qs);
      }
    }
    if ps != [] {
      assert qs != [] by { assert ps[0] in qs; }
      TightOnSameElements(Extent(ps).value, ps, qs);
      TightIsUnique(Extent(ps).value, Extent(qs).value, qs);
    }
  }

  /** Scanning `xs + ys` is scanning `xs` and then continuing with `ys`. */
  lemma {:induction false} ScanAppend(acc: Option<Box>, xs: seq<Position>, ys: seq<Position>)
    ensures ScanFrom(acc, xs + ys) == ScanFrom(ScanFrom(acc, xs), ys)
  {
    if ys != [] {
      var zs := xs + ys;
      assert zs[..|zs| - 1] == xs + ys[..|ys| - 1];
      assert zs[|zs| - 1] == ys[|ys| - 1];
      ScanAppend(acc, xs, ys[..|ys| - 1]);
    } else {
      assert xs + ys == xs;
    }
  }

  /** The points of two feature lists one after the other are the points of
      the first list followed by those of the second. */
  lemma {:induction false} AllPointsAppend(gs: seq<GeometryMember>, hs: seq<GeometryMember>)
    ensures AllPoints(gs + hs) == AllPoints(gs) + AllPoints(hs)
  {
    if hs == [] {
      assert gs + hs == gs;
      assert AllPoints(gs) + [] == AllPoints(gs);
    } else {
      var zs, init, m := gs + hs, hs[..|hs| - 1], hs[|hs| - 1];
      assert zs[..|zs| - 1] == gs + init && zs[|zs| - 1] == m;
      AllPointsAppend(gs, init);
      calc {
        AllPoints(zs);
        AllPoints(gs + init) + PointsOf(m);
        (AllPoints(gs) + AllPoints(init)) + PointsOf(m);
        AllPoints(gs) + (AllPoints(init) + PointsOf(m));
        AllPoints(gs) + AllPoints(hs);
      }
    }
  }

  /** Feature lists holding the same features, in any order, hold the same
      points, each as often. */
  lemma {:induction false} AllPointsMultiset(gs: seq<GeometryMember>, hs: seq<GeometryMember>)
    requires multiset(gs) == multiset(hs)
    ensures multiset(AllPoints(gs)) == multiset(AllPoints(hs))
    decreases |gs|
  {
    if gs == [] {
      assert |hs| == |multiset(hs)| == 0;
    } else {
      var init, m := gs[..|gs| - 1], gs[|gs| - 1];
      assert m in multiset(hs);
      var j :| 0 <= j < |hs| && hs[j] == m;
      var before, after := hs[..j], hs[j + 1..];
      RemoveOne(gs, hs, j);
      AllPointsMultiset(init, before + after);
      AllPointsAppend(before, after);
      AllPointsSplit(hs, j);
      calc {
        multiset(AllPoints(hs));
        multiset(AllPoints(before) + PointsOf(m) + AllPoints(after));
        multiset(AllPoints(before)) + multiset(AllPoints(after)) + multiset(PointsOf(m));
        multiset(AllPoints(before + after)) + multiset(PointsOf(m));
        multiset(AllPoints(init)) + multiset(PointsOf(m));
        multiset(AllPoints(init) + PointsOf(m));
        multiset(AllPoints(gs));
      }
    }
  }

  /** Taking the last feature from `gs` and the same feature at position `j`
      from `hs` leaves lists that still hold the same features. */
  lemma RemoveOne(gs: seq<GeometryMember>, hs: seq<GeometryMember>, j: int)
    requires multiset(gs) == multiset(hs) && gs != []
    requires 0 <= j < |hs| && hs[j] == gs[|gs| - 1]
    ensures multiset(gs[..|gs| - 1]) == multiset(hs[..j] + hs[j + 1..])
  {
    var init, m, before, after := gs[..|gs| - 1], gs[|gs| - 1], hs[..j], hs[j + 1..];
    assert gs == init + [m];
    SplitAt(hs, j);
    calc {
      multiset(init) + multiset{m};
      multiset(hs);
      multiset(before + after) + multiset{m};
    }
    assert multiset(init) == multiset(init) + multiset{m} - multiset{m};
    assert multiset(before + after) == multiset(before + after) + multiset{m} - multiset{m};
  }

  /** The points of a list are those before position `j`, those of the
      feature at `j`, and those after it. */
  lemma AllPointsSplit(hs: seq<GeometryMember>, j: int)
    requires 0 <= j < |hs|
    ensures AllPoints(hs) == AllPoints(hs[..j]) + PointsOf(hs[j]) + AllPoints(hs[j + 1..])
  {
    var before, m, after := hs[..j], hs[j], hs[j + 1..];
    var bm := before + [m];
    SplitAt(hs, j);
    assert bm[..|bm| - 1] == before && bm[|bm| - 1] == m;
    AllPointsAppend(bm, after);
  }

  /** A sequence is its part before `j`, its element at `j` and its part after. */
  lemma SplitAt<T>(s: seq<T>, j: int)
    requires 0 <= j < |s|
    ensures s == (s[..j] + [s[j]]) + s[j + 1..]
  {
    assert s[..j + 1] == s[..j] + [s[j]];
  }

  /** The order of the features does not change the viewport. */
  lemma FeatureOrderIrrelevant(gs: seq<GeometryMember>, hs: seq<GeometryMember>)
    requires multiset(gs) == multiset(hs)
    ensures Extent(AllPoints(gs)) == Extent(AllPoints(hs))
  {
    AllPointsMultiset(gs, hs);
    ExtentIgnoresOrder(AllPoints(gs), AllPoints(hs));
  }

  // ---------- Geometry-type filtering ----------

  /** The features the scan reads points from, in order. */
  function SupportedOnly(gs: seq<GeometryMember>): (r: seq<GeometryMember>)
    ensures forall m :: m in r <==> m in gs && Supported(m)
  {
    if gs == [] then []
    else SupportedOnly(gs[..|gs| - 1]) + (if Supported(gs[|gs| - 1]) then [gs[|gs| - 1]] else [])
  }

  /** Features that are not a LineString or MultiLineString -- another type, a
      missing geometry, or a null geometry -- add no point: dropping them all
      leaves the scanned points, and so the bounds, unchanged. */
  lemma {:induction false} UnsupportedContributeNothing(gs: seq<GeometryMember>)
    ensures AllPoints(SupportedOnly(gs)) == AllPoints(gs)
    ensures Extent(AllPoints(SupportedOnly(gs))) == Extent(AllPoints(gs))
  {
    if gs != [] {
      var init, m := gs[..|gs| - 1], gs[|gs| - 1];
      UnsupportedContributeNothing(init);
      if Supported(m) {
        var s := SupportedOnly(init) + [m];
        assert s[..|s| - 1] == SupportedOnly(init);
      } else {
        assert SupportedOnly(gs) == SupportedOnly(init);
        assert AllPoints(gs) == AllPoints(init) + [];
      }
    }
  }

  /** A feature of an unsupported kind appended to the collection leaves the
      bounds where they were. */
  lemma UnsupportedFeatureKeepsBounds(gs: seq<GeometryMember>, m: GeometryMember)
    requires !Supported(m)
    ensures Extent(AllPoints(gs + [m])) == Extent(AllPoints(gs))
  {
    var hs := gs + [m];
    assert hs[..|hs| - 1] == gs;
    assert AllPoints(hs) == AllPoints(gs) + [];
    assert AllPoints(gs) + [] == AllPoints(gs);
  }

  // ---------- MultiLineString flattening ----------

  /** One LineString feature per line, in order. */
  function LinesAsFeatures(lines: seq<seq<Position>>): (gs: seq<GeometryMember>)
    ensures |gs| == |lines|
  {
    seq(|lines|, i requires 0 <= i < |lines| => Given(LineString(lines[i])))
  }

  /** A MultiLineString is scanned as the LineString of its lines'
      concatenation, and so as the separate LineString features of its lines. */
  lemma {:induction false} MultiLineStringAsLines(lines: seq<seq<Position>>)
    ensures PointsOf(Given(MultiLineString(lines))) == PointsOf(Given(LineString(Flatten(lines))))
    ensures AllPoints(LinesAsFeatures(lines)) == Flatten(lines)
    ensures Extent(PointsOf(Given(MultiLineString(lines)))) == Extent(AllPoints(LinesAsFeatures(lines)))
  {
    if lines != [] {
      var init := lines[..|lines| - 1];
      MultiLineStringAsLines(init);
      var gs := LinesAsFeatures(lines);
      assert gs[..|gs| - 1] == LinesAsFeatures(init);
    }
  }

  // ---------- get_bounds ----------

  /** The running state as the method holds it: four reals and whether the
      scan has left its infinite start. */
  function State(seen: bool, minLat: real, maxLat: real, minLon: real, maxLon: real): Option<Box>
  {
    if seen then Some(Box(minLat, maxLat, minLon, maxLon)) else None
  }

  lemma ScanStep(done: seq<Position>, coords: seq<Position>, j: nat)
    requires j < |coords|
    ensures Extent(done + coords[..j + 1]) == Some(Include(Extent(done + coords[..j]), coords[j]))
  {
    var ps := done + coords[..j + 1];
    assert ps[..|ps| - 1] == done + coords[..j];
  }

  lemma AllPointsStep(gs: seq<GeometryMember>, i: nat)
    requires i < |gs|
    ensures AllPoints(gs[..i + 1]) == AllPoints(gs[..i]) + PointsOf(gs[i])
  {
    assert gs[..i + 1][..i] == gs[..i];
  }

  /** The viewport of a point sequence: empty exactly without points, and
      otherwise a rectangle holding every point with the centre inside. */
  lemma ViewOfExtent(ps: seq<Position>)
    ensures ViewOf(Extent(ps)).None? <==> ps == []
    ensures ViewOf(Extent(ps)).Some? ==>
      var f := ViewOf(Extent(ps)).value;
      && (forall k :: 0 <= k < |ps| ==>
            f.southWest.lat <= ps[k].lat <= f.northEast.lat && f.southWest.lon <= ps[k].lon <= f.northEast.lon)
      && f.southWest.lat <= f.center.lat <= f.northEast.lat
      && f.southWest.lon <= f.center.lon <= f.northEast.lon
  {
    ExtentIsTight(ps);
    if ps != [] {
      assert Encloses(Extent(ps).value, ps[0]);
    }
  }

  /** The features' bounds, the way app.py's `get_bounds` walks them: feature
      by feature, skipping those without a line geometry, then point by point,
      keeping four running values. `seen` is false while the running values
      are still at their infinite start. */
  method GetBounds(features: seq<Feature>) returns (view: Option<Frame>)
    ensures view == ViewOf(Extent(AllPoints(Geometries(features))))
    ensures view.None? <==> AllPoints(Geometries(features)) == []
    ensures view.Some? ==>
      var ps := AllPoints(Geometries(features));
      && (forall k :: 0 <= k < |ps| ==>
            view.value.southWest.lat <= ps[k].lat <= view.value.northEast.lat &&
            view.value.southWest.lon <= ps[k].lon <= view.value.northEast.lon)
      && view.value.southWest.lat <= view.value.center.lat <= view.value.northEast.lat
      && view.value.southWest.lon <= view.value.center.lon <= view.value.northEast.lon
  {
    ghost var gs := Geometries(features);
    var seen := false;
    var minLat, maxLat, minLon, maxLon := 0.0, 0.0, 0.0, 0.0;
    for i := 0 to |features|
      invariant State(seen, minLat, maxLat, minLon, maxLon) == Extent(AllPoints(gs[..i]))
    {
      var coords: seq<Position>;
      match features[i].geometry {
        case Given(LineString(c)) => coords := c;
        case Given(MultiLineString(lines)) => coords := Flatten(lines);
        case _ => coords := [];
      }
      ghost var done := AllPoints(gs[..i]);
      assert done + coords[..0] == done;
      for j := 0 to |coords|
        invariant State(seen, minLat, maxLat, minLon, maxLon) == Extent(done + coords[..j])
      {
        var p := coords[j];
        if !seen {
          minLat, maxLat, minLon, maxLon := p.lat, p.lat, p.lon, p.lon;
          seen := true;
        } else {
          minLat, maxLat := Min(minLat, p.lat), Max(maxLat, p.lat);
          minLon, maxLon := Min(minLon, p.lon), Max(maxLon, p.lon);
        }
        ScanStep(done, coords, j);
      }
      assert coords[..|coords|] == coords;
      assert coords == PointsOf(gs[i]);
      AllPointsStep(gs, i);
    }
    assert gs[..|features|] == gs;
    if seen {
      view := Some(FrameOf(Box(minLat, maxLat, minLon, maxLon)));
    } else {
      view := None;
    }
    ViewOfExtent(AllPoints(gs));
  }

  // ---------- The source as written: a null geometry ----------

  /** What `get_bounds` does as written: it ends normally with the bounds, or
      it raises. */
  datatype Outcome = Raised | Returned(extent: Option<Box>)

  /** app.py's scan as written. `feat.get("geometry", {})` yields None for a
      geometry member that is JSON null, and `None.get("type")` raises
      AttributeError, so one unlocated feature anywhere aborts the scan. */
  function ExtentAsWritten(gs: seq<GeometryMember>): (r: Outcome)
    ensures r == Raised <==> exists i :: 0 <= i < |gs| && gs[i].JsonNull?
  {
    if gs == [] then Returned(None)
    else
      match ExtentAsWritten(gs[..|gs| - 1])
      case Raised => Raised
      case Returned(acc) =>
        if gs[|gs| - 1].JsonNull? then Raised
        else Returned(ScanFrom(acc, PointsOf(gs[|gs| - 1])))
  }

  /** Without null geometries the scan as written returns the bounds the model
      computes. */
  lemma {:induction false} AsWrittenAgreesWithoutNull(gs: seq<GeometryMember>)
    requires forall i :: 0 <= i < |gs| ==> !gs[i].JsonNull?
    ensures ExtentAsWritten(gs) == Returned(Extent(AllPoints(gs)))
  {
    if gs != [] {
      var init := gs[..|gs| - 1];
      assert forall i :: 0 <= i < |init| ==> init[i] == gs[i];
      AsWrittenAgreesWithoutNull(init);
      ScanAppend(None, AllPoints(init), PointsOf(gs[|gs| - 1]));
    }
  }

  /** A collection with one located segment followed by an unlocated feature:
      the scan as written raises, although the segment alone frames the map. */
  lemma NullGeometryRaises()
    ensures var p := Position(106.8, -6.2);
            var gs := [Given(LineString([p])), JsonNull];
            ExtentAsWritten(gs) == Raised &&
            Extent(AllPoints(gs)) == Some(Box(-6.2, -6.2, 106.8, 106.8))
  {
    var p := Position(106.8, -6.2);
    var gs := [Given(LineString([p])), JsonNull];
    assert gs[..1] == [Given(LineString([p]))];
    assert [Given(LineString([p]))][..0] == [];
    assert AllPoints(gs[..1]) == [] + [p];
    assert AllPoints(gs) == [p] + [];
    assert [p] + [] == [p];
    assert [p][..0] == [];
    assert ScanFrom(None, [p][..0]) == None;
    assert Extent([p]) == Some(Include(None, p));
  }
}
