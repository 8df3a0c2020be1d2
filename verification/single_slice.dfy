/** The JPEG2000 to OME-Zarr converter of `df/single_slice.py`: the output path, the
    chunk layout, the per-level copy (whole plane or tiled), the multiscale descriptor
    and the shape and slice thickness handed to the NIfTI header.

    The decoder's level view and the Zarr store are abstract: a level view is its shape
    and a read-only function from spatial cells to the values of all leading (channel)
    dimensions there; a store is the map of cells written so far. */
module SingleSlice {
  import opened Wrappers
  import opened Decimal
  import opened PyPath
  import opened Grid
  import opened Sequences

  const NiiSuffix := ".nii.zarr"
  const OmeSuffix := ".ome.zarr"

  /** The output path and the final value of the `nii` flag. An absent or empty `out`
      becomes the input path with its extension replaced by a Zarr suffix, and a path
      ending in ".nii.zarr" turns the NIfTI-Zarr header on. */
  function ResolveOutput(inp: string, out: Option<string>, nii: bool): (r: (string, bool))
    ensures out.Some? && out.value != "" ==> r.0 == out.value
    ensures out.None? || out.value == "" ==> r.0 == SplitExtRoot(inp) + (if nii then NiiSuffix else OmeSuffix)
    ensures r.1 <==> nii || EndsWith(r.0, NiiSuffix)
  {
    var path := if out.None? || out.value == "" then SplitExtRoot(inp) + (if nii then NiiSuffix else OmeSuffix) else out.value;
    (path, nii || EndsWith(path, NiiSuffix))
  }

  /** With no output path given, the default path ends in ".nii.zarr" exactly when the
      header was requested, so the suffix test leaves the flag unchanged. */
  lemma DefaultOutputKeepsFlag(inp: string, nii: bool)
    ensures var r := ResolveOutput(inp, None, nii);
      && r.1 == nii
      && EndsWith(r.0, NiiSuffix) == nii
      && EndsWith(r.0, if nii then NiiSuffix else OmeSuffix)
      && r.0[..|r.0| - 9] == SplitExtRoot(inp)
  {
    var r := ResolveOutput(inp, None, nii);
    var root := SplitExtRoot(inp);
    assert r.0 == root + (if nii then NiiSuffix else OmeSuffix);
    assert r.0[|r.0| - 9..] == (if nii then NiiSuffix else OmeSuffix);
    assert r.0[..|r.0| - 9] == root;
    if !nii {
      assert r.0[|r.0| - 9 + 1] == 'o';
    }
  }

  /** Resolving is a fixed point: passing the resolved path and flag back in, with any
      input path, resolves to the same pair. */
  lemma ResolveOutputFixedPoint(inp: string, out: Option<string>, nii: bool, other: string)
    ensures var r := ResolveOutput(inp, out, nii);
      ResolveOutput(other, Some(r.0), r.1) == r
  {
    var r := ResolveOutput(inp, out, nii);
    assert |r.0| > 0 by {
      if out.None? || out.value == "" {
        assert |r.0| >= 9;
      }
    }
  }

  /** A pyramid level as the decoder presents it: its shape (leading channel extents,
      then height and width) and, at every spatial cell, the values of all leading
      dimensions there. */
  datatype LevelView<T> = LevelView(shape: seq<nat>, at: Cell -> T) {
    predicate Valid() { |shape| >= 2 }
    function Height(): nat requires Valid() { shape[|shape| - 2] }
    function Width(): nat requires Valid() { shape[|shape| - 1] }
    function Plane(): Rect requires Valid() { Rect(0, Height(), 0, Width()) }
  }

  /** `list(j2k.shape[2:]) + [chunk, chunk]`: the decoder reports the channel extents
      after height and width; each becomes one chunk spanning that whole extent. */
  function ChunkShape(j2kShape: seq<nat>, chunk: int): (cs: seq<int>)
    ensures |j2kShape| >= 2 ==> |cs| == |j2kShape| && forall d :: 0 <= d < |cs| - 2 ==> cs[d] == j2kShape[d + 2]
    ensures |cs| >= 2 && cs[|cs| - 2] == chunk && cs[|cs| - 1] == chunk
  {
    (if |j2kShape| >= 2 then j2kShape[2..] else []) + [chunk, chunk]
  }

  /** The level views put the codestream's channel extents first. */
  predicate ChannelsFirst(j2kShape: seq<nat>, viewShape: seq<nat>) {
    |j2kShape| >= 2 && |viewShape| == |j2kShape| && viewShape[..|viewShape| - 2] == j2kShape[2..]
  }

  /** The chunk list has one entry per axis of every level array: a single chunk over
      each leading extent, and `chunk` on the two spatial axes. */
  lemma ChunkShapeFitsLevel(j2kShape: seq<nat>, viewShape: seq<nat>, chunk: int)
    requires ChannelsFirst(j2kShape, viewShape)
    ensures var cs := ChunkShape(j2kShape, chunk);
      && |cs| == |viewShape|
      && (forall d :: 0 <= d < |cs| - 2 ==> cs[d] == viewShape[d])
      && cs[|cs| - 2] == chunk && cs[|cs| - 1] == chunk
  {
    var cs := ChunkShape(j2kShape, chunk);
    forall d | 0 <= d < |cs| - 2
      ensures cs[d] == viewShape[d]
    {
      assert cs[d] == j2kShape[2..][d];
      assert viewShape[d] == viewShape[..|viewShape| - 2][d];
    }
  }

  /** Copies one level view into a fresh array. Whichever branch is taken, the array
      ends up equal to the single whole-plane copy; the tiled branch makes
      ceildiv(H, max_load) * ceildiv(W, max_load) writes. */
  method CopyLevel<T>(view: LevelView<T>, maxLoad: Option<nat>) returns (data: Store<T>, writes: nat)
    requires view.Valid()
    requires maxLoad.Some? ==> maxLoad.value > 0
    ensures data == WriteRegion(map[], view.Plane(), view.at)
    ensures WholePlane(view.Height(), view.Width(), maxLoad) ==> writes == 1
    ensures !WholePlane(view.Height(), view.Width(), maxLoad) ==>
      writes == CeilDiv(view.Height(), maxLoad.value) * CeilDiv(view.Width(), maxLoad.value)
  {
    if WholePlane(view.Height(), view.Width(), maxLoad) {
      data := WriteRegion(map[], view.Plane(), view.at);
      writes := 1;
    } else {
      data, writes := TiledCopy(map[], view.Height(), view.Width(), maxLoad.value, 0, 0, view.at);
    }
  }

  /** One array of the output group: its key, shape, chunk list and content. */
  datatype LevelArray<T> = LevelArray(key: string, shape: seq<nat>, chunks: seq<int>, data: Store<T>)

  /** The array a level view becomes under key `key`. */
  function LevelArrayOf<T>(key: string, view: LevelView<T>, chunks: seq<int>): LevelArray<T>
    requires view.Valid()
  {
    LevelArray(key, view.shape, chunks, WriteRegion(map[], view.Plane(), view.at))
  }

  /** `convert`'s level loop: one array per level, in increasing level order, keyed by the
      level's decimal text, with exactly the view's shape and content. */
  method ConvertLevels<T>(views: seq<LevelView<T>>, chunks: seq<int>, maxLoad: Option<nat>)
    returns (arrays: seq<LevelArray<T>>)
    requires forall k :: 0 <= k < |views| ==> views[k].Valid()
    requires maxLoad.Some? ==> maxLoad.value > 0
    ensures |arrays| == |views|
    ensures forall k :: 0 <= k < |views| ==>
      && arrays[k].key == NatToString(k)
      && arrays[k].shape == views[k].shape
      && arrays[k].chunks == chunks
      && arrays[k].data == WriteRegion(map[], views[k].Plane(), views[k].at)
  {
    arrays := [];
    var level := 0;
    while level < |views|
      invariant 0 <= level <= |views| && |arrays| == level
      invariant forall k :: 0 <= k < level ==> arrays[k] == LevelArrayOf(NatToString(k), views[k], chunks)
    {
      var data, _ := CopyLevel(views[level], maxLoad);
      arrays := arrays + [LevelArray(NatToString(level), views[level].shape, chunks, data)];
      level := level + 1;
    }
  }

  lemma NatToStringInjectiveAll()
    ensures forall a: nat, b: nat :: NatToString(a) == NatToString(b) ==> a == b
  {
    forall a: nat, b: nat
      ensures NatToString(a) == NatToString(b) ==> a == b
    {
      NatToStringInjective(a, b);
    }
  }

  /** The Zarr group as a map from keys to arrays. */
  function GroupOf<T>(arrays: seq<LevelArray<T>>): (g: map<string, LevelArray<T>>)
    requires forall k :: 0 <= k < |arrays| ==> arrays[k].key == NatToString(k)
    ensures forall k :: 0 <= k < |arrays| ==> NatToString(k) in g && g[NatToString(k)] == arrays[k]
    ensures forall key :: key in g ==> exists k :: 0 <= k < |arrays| && key == arrays[k].key
  {
    NatToStringInjectiveAll();
    map k | 0 <= k < |arrays| :: arrays[k].key := arrays[k]
  }

  /** Different levels never share a key, so no level overwrites another. */
  lemma LevelKeysDistinct<T>(arrays: seq<LevelArray<T>>, a: nat, b: nat)
    requires forall k :: 0 <= k < |arrays| ==> arrays[k].key == NatToString(k)
    requires a < |arrays| && b < |arrays| && a != b
    ensures arrays[a].key != arrays[b].key
  {
    NatToStringInjective(a, b);
  }

  // ----- Multiscale descriptor (the `multiscales` attribute written by `convert`) -----

  datatype Axis = Axis(name: string, kind: string, unit: Option<string>)

  datatype Transform = Scale(scale: seq<real>) | Translation(translation: seq<real>)

  datatype Dataset = Dataset(path: string, transforms: seq<Transform>)

  datatype Multiscale = Multiscale(
    version: string,
    axes: seq<Axis>,
    datasets: seq<Dataset>,
    kind: string,
    name: string,
    transforms: seq<Transform>)

  const ChannelAxis := Axis("c", "channel", None)
  const YAxis := Axis("y", "space", Some("micrometer"))
  const XAxis := Axis("x", "space", Some("micrometer"))

  /** `[x] * n`. */
  function Repeat(x: real, n: nat): (r: seq<real>)
    ensures |r| == n && forall i :: 0 <= i < n ==> r[i] == x
  {
    seq(n, _ => x)
  }

  /** The axis list: a channel axis first when the codestream has channels, then y and x. */
  function Axes(hasChannel: nat): (a: seq<Axis>)
    ensures |a| == if hasChannel != 0 then 3 else 2
    ensures a[|a| - 2] == YAxis && a[|a| - 1] == XAxis
    ensures hasChannel != 0 ==> a[0] == ChannelAxis
  {
    (if hasChannel != 0 then [ChannelAxis] else []) + [YAxis, XAxis]
  }

  /** The scale of one spatial axis at a level of extent n, for an axis of extent n0
      and voxel size v at level 0: the shape ratio times the voxel size. */
  function AxisScale(n0: nat, n: nat, v: real): (scale: real)
    requires n > 0
    ensures n as real * scale == n0 as real * v
  {
    var ratio := n0 as real / n as real;
    assert ratio * n as real == n0 as real;
    assert n as real * (ratio * v) == (ratio * n as real) * v;
    ratio * v
  }

  /** The translation of one spatial axis: half of (ratio - 1) voxels of level 0. */
  function AxisShift(n0: nat, n: nat, v: real): (shift: real)
    requires n > 0
    ensures shift - AxisScale(n0, n, v) * 0.5 == 0.0 - v * 0.5
  {
    (n0 as real / n as real - 1.0) * v * 0.5
  }

  /** Scale and translation of a level of spatial shape (h, w) relative to level 0 of
      shape (h0, w0), after one 1.0 (scale) or 0.0 (translation) per channel dimension. */
  function LevelTransforms(h0: nat, w0: nat, h: nat, w: nat, hasChannel: nat, vxw: real, vxh: real): (ts: seq<Transform>)
    requires h > 0 && w > 0
    ensures |ts| == 2 && ts[0].Scale? && ts[1].Translation?
    ensures |ts[0].scale| == |ts[1].translation| == hasChannel + 2
    ensures forall d :: 0 <= d < hasChannel ==> ts[0].scale[d] == 1.0 && ts[1].translation[d] == 0.0
    ensures ts[0].scale[hasChannel] == AxisScale(h0, h, vxh) && ts[0].scale[hasChannel + 1] == AxisScale(w0, w, vxw)
    ensures ts[1].translation[hasChannel] == AxisShift(h0, h, vxh) && ts[1].translation[hasChannel + 1] == AxisShift(w0, w, vxw)
  {
    [ Scale(Repeat(1.0, hasChannel) + [AxisScale(h0, h, vxh), AxisScale(w0, w, vxw)]),
      Translation(Repeat(0.0, hasChannel) + [AxisShift(h0, h, vxh), AxisShift(w0, w, vxw)]) ]
  }

  /** Voxel-edge alignment on one axis: n voxels of the level's scale span the same
      extent as n0 voxels of level 0, and the level's first voxel starts where level
      0's first voxel starts (centres sit at translation + k * scale). */
  lemma AxisEdgesAligned(n0: nat, n: nat, v: real)
    requires n > 0
    ensures n as real * AxisScale(n0, n, v) == n0 as real * v
    ensures AxisShift(n0, n, v) - AxisScale(n0, n, v) * 0.5 == 0.0 - v * 0.5
    ensures AxisShift(n0, n, v) + (n as real - 0.5) * AxisScale(n0, n, v) == (n0 as real - 0.5) * v
  {
    var ratio := n0 as real / n as real;
    assert ratio * n as real == n0 as real;
    calc {
      n as real * AxisScale(n0, n, v);
      n as real * (ratio * v);
      (ratio * n as real) * v;
      n0 as real * v;
    }
    calc {
      AxisShift(n0, n, v) + (n as real - 0.5) * AxisScale(n0, n, v);
      (ratio - 1.0) * v * 0.5 + (n as real - 0.5) * (ratio * v);
      (ratio * n as real) * v - 0.5 * v;
      (n0 as real - 0.5) * v;
    }
  }

  /** The level's grid is fixed by alignment alone: any scale and translation that keep
      both outer voxel edges of level 0 are the ones the converter records. */
  lemma AxisTransformUnique(n0: nat, n: nat, v: real, scale: real, shift: real)
    requires n > 0
    requires n as real * scale == n0 as real * v
    requires shift - scale * 0.5 == 0.0 - v * 0.5
    ensures scale == AxisScale(n0, n, v) && shift == AxisShift(n0, n, v)
  {
    var ratio := n0 as real / n as real;
    assert ratio * n as real == n0 as real;
    assert n as real * (scale - ratio * v) == 0.0;
    assert scale == ratio * v;
    assert shift == (ratio - 1.0) * v * 0.5;
  }

  /** At level 0 the scale is the voxel size and the translation is zero. */
  lemma LevelZeroTransforms(h0: nat, w0: nat, hasChannel: nat, vxw: real, vxh: real)
    requires h0 > 0 && w0 > 0
    ensures LevelTransforms(h0, w0, h0, w0, hasChannel, vxw, vxh) ==
      [Scale(Repeat(1.0, hasChannel) + [vxh, vxw]), Translation(Repeat(0.0, hasChannel) + [0.0, 0.0])]
  {
    assert h0 as real / h0 as real == 1.0;
    assert w0 as real / w0 as real == 1.0;
    assert AxisScale(h0, h0, vxh) == vxh && AxisShift(h0, h0, vxh) == 0.0;
    assert AxisScale(w0, w0, vxw) == vxw && AxisShift(w0, w0, vxw) == 0.0;
  }

  /** With at most one channel dimension (a colour JPEG2000 has exactly one), the axis
      list, every per-level scale and translation, and the group-level scale all have
      one entry per axis of the arrays. */
  lemma AxesMatchTransforms(h0: nat, w0: nat, h: nat, w: nat, hasChannel: nat, vxw: real, vxh: real)
    requires h > 0 && w > 0 && hasChannel <= 1
    ensures var ts := LevelTransforms(h0, w0, h, w, hasChannel, vxw, vxh);
      && |Axes(hasChannel)| == |ts[0].scale| == |ts[1].translation| == |Repeat(1.0, 2 + hasChannel)| == 2 + hasChannel
      && (forall d :: 0 <= d < hasChannel ==> Axes(hasChannel)[d].kind == "channel" && ts[0].scale[d] == 1.0 && ts[1].translation[d] == 0.0)
      && Axes(hasChannel)[hasChannel] == YAxis && ts[0].scale[hasChannel] == AxisScale(h0, h, vxh)
      && Axes(hasChannel)[hasChannel + 1] == XAxis && ts[0].scale[hasChannel + 1] == AxisScale(w0, w, vxw)
  {
  }

  function SpatialHeight(shape: seq<nat>): nat requires |shape| >= 2 { shape[|shape| - 2] }
  function SpatialWidth(shape: seq<nat>): nat requires |shape| >= 2 { shape[|shape| - 1] }

  /** Every level shape has a height and a width. */
  predicate SpatialShapes(shapes: seq<seq<nat>>) {
    forall n :: 0 <= n < |shapes| ==> |shapes[n]| >= 2
  }

  /** Level n has a zero height or width. */
  predicate FlatLevel(shapes: seq<seq<nat>>, n: nat)
    requires n < |shapes| && |shapes[n]| >= 2
  {
    SpatialHeight(shapes[n]) == 0 || SpatialWidth(shapes[n]) == 0
  }

  /** The dataset entry of level n. */
  function DatasetOf(shapes: seq<seq<nat>>, n: nat, hasChannel: nat, vxw: real, vxh: real): Dataset
    requires SpatialShapes(shapes) && n < |shapes|
    requires !FlatLevel(shapes, 0) && !FlatLevel(shapes, n)
  {
    var s0, s := shapes[0], shapes[n];
    Dataset(NatToString(n),
      LevelTransforms(SpatialHeight(s0), SpatialWidth(s0), SpatialHeight(s), SpatialWidth(s), hasChannel, vxw, vxh))
  }

  /** The multiscale descriptor, computed from the shapes of the level arrays as read
      back from the group (`shapes[n]` is `omz[str(n)].shape`). A level with a zero
      spatial extent makes the shape ratio divide by zero. */
  function Multiscales(shapes: seq<seq<nat>>, hasChannel: nat, vxw: real, vxh: real): (r: Result<Multiscale>)
    requires SpatialShapes(shapes)
    ensures r.Err? <==> exists n: nat :: n < |shapes| && FlatLevel(shapes, n)
    ensures r.Err? ==> r.error == ZeroDivisionError
    ensures r.Ok? ==>
      && r.value.version == "0.4" && r.value.kind == "jpeg2000" && r.value.name == ""
      && r.value.axes == Axes(hasChannel)
      && r.value.transforms == [Scale(Repeat(1.0, 2 + hasChannel))]
      && |r.value.datasets| == |shapes|
    ensures r.Ok? ==> forall n: nat :: n < |shapes| ==>
      && !FlatLevel(shapes, 0) && !FlatLevel(shapes, n)
      && r.value.datasets[n] == DatasetOf(shapes, n, hasChannel, vxw, vxh)
  {
    if exists n: nat :: n < |shapes| && FlatLevel(shapes, n) then Err(ZeroDivisionError)
    else
      var datasets := seq(|shapes|, n requires 0 <= n < |shapes| => DatasetOf(shapes, n, hasChannel, vxw, vxh));
      Ok(Multiscale("0.4", Axes(hasChannel), datasets, "jpeg2000", "", [Scale(Repeat(1.0, 2 + hasChannel))]))
  }

  // ----- NIfTI-Zarr header inputs (data shape and affine thickness in `convert`) -----

  /** The number of voxels of a shape. */
  function Product(s: seq<nat>): nat {
    if |s| == 0 then 1 else s[0] * Product(s[1..])
  }

  lemma {:induction false} ProductAppend(a: seq<nat>, b: seq<nat>)
    ensures Product(a + b) == Product(a) * Product(b)
    decreases |a|
  {
    if |a| > 0 {
      assert (a + b)[1..] == a[1..] + b;
      ProductAppend(a[1..], b);
    } else {
      assert a + b == b;
    }
  }

  lemma {:induction false} ProductReverse(s: seq<nat>)
    ensures Product(Reverse(s)) == Product(s)
    decreases |s|
  {
    if |s| > 0 {
      assert Reverse(s) == Reverse(s[1..]) + [s[0]];
      ProductAppend(Reverse(s[1..]), [s[0]]);
      ProductReverse(s[1..]);
      assert Product([s[0]]) == s[0];
    }
  }

  /** The data shape of the NIfTI header: level 0's shape reversed (width, height, then
      the channel extents), with two singleton axes inserted after the first two when
      the codestream has channels. */
  function NiftiShape(shape0: seq<nat>, hasChannel: nat): (r: seq<nat>)
    ensures |r| == |shape0| + if hasChannel != 0 then 2 else 0
    ensures hasChannel == 0 ==> r == Reverse(shape0)
  {
    var r := Reverse(shape0);
    if hasChannel != 0 then r[..Min(2, |r|)] + [1, 1] + r[Min(2, |r|)..] else r
  }

  /** Width and height come first, the singleton axes (if any) next, then the channel
      extents in reverse order. */
  lemma NiftiShapeLayout(shape0: seq<nat>, hasChannel: nat)
    requires |shape0| >= 2
    ensures var r, k := NiftiShape(shape0, hasChannel), |shape0|;
      && |r| == k + (if hasChannel != 0 then 2 else 0)
      && r[0] == shape0[k - 1] && r[1] == shape0[k - 2]
      && (hasChannel != 0 ==> r[2] == 1 && r[3] == 1 && r[4..] == Reverse(shape0[..k - 2]))
      && (hasChannel == 0 ==> r[2..] == Reverse(shape0[..k - 2]))
  {
  }

  /** The header describes as many voxels as level 0 holds. */
  lemma NiftiShapeVoxelCount(shape0: seq<nat>, hasChannel: nat)
    ensures Product(NiftiShape(shape0, hasChannel)) == Product(shape0)
  {
    var r := Reverse(shape0);
    ProductReverse(shape0);
    if hasChannel != 0 {
      var k := Min(2, |r|);
      assert r == r[..k] + r[k..];
      ProductAppend(r[..k], r[k..]);
      ProductAppend(r[..k] + [1, 1], r[k..]);
      ProductAppend(r[..k], [1, 1]);
      assert Product([1, 1]) == 1;
    }
  }

  /** Dropping the inserted singleton axes and reversing again gives back level 0's shape. */
  lemma NiftiShapeRoundTrip(shape0: seq<nat>, hasChannel: nat)
    ensures var r, k := NiftiShape(shape0, hasChannel), Min(2, |shape0|);
      Reverse(if hasChannel != 0 then r[..k] + r[k + 2..] else r) == shape0
  {
    var r, k := NiftiShape(shape0, hasChannel), Min(2, |shape0|);
    var rev := Reverse(shape0);
    if hasChannel != 0 {
      assert r[..k] + r[k + 2..] == rev;
    }
    assert Reverse(rev) == shape0;
  }

  /** `thickness or 1`: an unset or zero thickness becomes 1. */
  function SliceThickness(thickness: Option<real>): (t: real)
    ensures t != 0.0
    ensures thickness.Some? && thickness.value != 0.0 ==> t == thickness.value
    ensures thickness.None? || thickness.value == 0.0 ==> t == 1.0
  {
    if thickness.None? || thickness.value == 0.0 then 1.0 else thickness.value
  }

  // ----- The whole conversion -----

  /** A level view with a zero height or width. */
  predicate FlatView<T>(view: LevelView<T>)
    requires view.Valid()
  {
    view.Height() == 0 || view.Width() == 0
  }

  /** `ms` describes the level views: version "0.4", type "jpeg2000", an empty name, the
      axes, the unit group scale, and one dataset per view with path `str(n)` and the
      transforms that align its voxel edges with level 0's. */
  predicate DescribesViews<T>(ms: Multiscale, views: seq<LevelView<T>>, hasChannel: nat, vxw: real, vxh: real)
    requires forall k :: 0 <= k < |views| ==> views[k].Valid()
  {
    && ms.version == "0.4" && ms.kind == "jpeg2000" && ms.name == ""
    && ms.axes == Axes(hasChannel)
    && ms.transforms == [Scale(Repeat(1.0, 2 + hasChannel))]
    && |ms.datasets| == |views|
    && forall n :: 0 <= n < |views| ==>
         && !FlatView(views[0]) && !FlatView(views[n])
         && ms.datasets[n] == Dataset(NatToString(n),
              LevelTransforms(views[0].Height(), views[0].Width(), views[n].Height(), views[n].Width(), hasChannel, vxw, vxh))
  }

  /** The descriptor built from the level shapes, stated in terms of the level views. */
  lemma DescriptorOfLevels<T>(views: seq<LevelView<T>>, shapes: seq<seq<nat>>, hasChannel: nat, vxw: real, vxh: real)
    requires |shapes| == |views|
    requires forall k :: 0 <= k < |views| ==> views[k].Valid() && shapes[k] == views[k].shape
    ensures SpatialShapes(shapes)
    ensures var ms := Multiscales(shapes, hasChannel, vxw, vxh);
      && (ms.Err? <==> exists k :: 0 <= k < |views| && FlatView(views[k]))
      && (ms.Err? ==> ms.error == ZeroDivisionError)
      && (ms.Ok? ==> DescribesViews(ms.value, views, hasChannel, vxw, vxh))
  {
    assert forall n: nat :: n < |views| ==> (FlatLevel(shapes, n) <==> FlatView(views[n]));
  }

  /** The descriptor written after the levels: computed from the shapes read back from
      the group, it describes the level views. */
  method DescribeGroup<T>(views: seq<LevelView<T>>, arrays: seq<LevelArray<T>>, hasChannel: nat, vxw: real, vxh: real)
    returns (ms: Result<Multiscale>)
    requires |arrays| == |views|
    requires forall k :: 0 <= k < |views| ==>
      views[k].Valid() && arrays[k].key == NatToString(k) && arrays[k].shape == views[k].shape
    ensures ms.Err? <==> exists k :: 0 <= k < |views| && FlatView(views[k])
    ensures ms.Err? ==> ms.error == ZeroDivisionError
    ensures ms.Ok? ==> DescribesViews(ms.value, views, hasChannel, vxw, vxh)
  {
    var group := GroupOf(arrays);
    var shapes := seq(|arrays|, n requires 0 <= n < |arrays| => group[NatToString(n)].shape);
    DescriptorOfLevels(views, shapes, hasChannel, vxw, vxh);
    ms := Multiscales(shapes, hasChannel, vxw, vxh);
  }

  /** What the header is built from: its data shape and the slice thickness of the affine. */
  datatype HeaderInput = HeaderInput(shape: seq<nat>, thickness: real)

  datatype Conversion<T> = Conversion(
    path: string,
    nii: bool,
    arrays: seq<LevelArray<T>>,
    multiscales: Multiscale,
    header: Option<HeaderInput>)

  /** `convert` without decoding, compression, orientation and header serialisation:
      `j2kShape` is the codestream's shape as the decoder reports it (height, width,
      then channels), `views` its resolution levels, and (vxw, vxh) its pixel size. */
  method Convert<T>(inp: string, out: Option<string>, nii: bool, chunk: int, maxLoad: Option<nat>,
                    j2kShape: seq<nat>, views: seq<LevelView<T>>, vxw: real, vxh: real, thickness: Option<real>)
    returns (r: Result<Conversion<T>>)
    requires |j2kShape| >= 2
    requires forall k :: 0 <= k < |views| ==> views[k].Valid()
    requires maxLoad.Some? ==> maxLoad.value > 0
    ensures r.Err? <==>
      (exists k :: 0 <= k < |views| && FlatView(views[k])) || (ResolveOutput(inp, out, nii).1 && |views| == 0)
    ensures r.Err? ==> r.error in {ZeroDivisionError, KeyError}
    ensures (exists k :: 0 <= k < |views| && FlatView(views[k])) ==> r == Err(ZeroDivisionError)
    ensures ResolveOutput(inp, out, nii).1 && |views| == 0 ==> r == Err(KeyError)
    ensures r.Ok? ==>
      && (r.value.path, r.value.nii) == ResolveOutput(inp, out, nii)
      && |r.value.arrays| == |views|
      && (forall k :: 0 <= k < |views| ==>
            r.value.arrays[k] == LevelArrayOf(NatToString(k), views[k], ChunkShape(j2kShape, chunk)))
      && DescribesViews(r.value.multiscales, views, |j2kShape| - 2, vxw, vxh)
      && (r.value.header.Some? <==> r.value.nii)
      && (r.value.header.Some? ==>
            r.value.header.value == HeaderInput(NiftiShape(views[0].shape, |j2kShape| - 2), SliceThickness(thickness)))
  {
    var (path, isNii) := ResolveOutput(inp, out, nii);
    var chunks := ChunkShape(j2kShape, chunk);
    var hasChannel := |j2kShape| - 2;
    var arrays := ConvertLevels(views, chunks, maxLoad);
    var ms := DescribeGroup(views, arrays, hasChannel, vxw, vxh);
    if ms.Err? {
      return Err(ms.error);
    }
    if !isNii {
      return Ok(Conversion(path, isNii, arrays, ms.value, None));
    }
    if |views| == 0 {
      return Err(KeyError);
    }
    var header := HeaderInput(NiftiShape(arrays[0].shape, hasChannel), SliceThickness(thickness));
    return Ok(Conversion(path, isNii, arrays, ms.value, Some(header)));
  }
}
