/** The webknossos annotation converter of `wk/webknossos_annotation.py`: borders measured
    once on the lowest-resolution mask, scaled to every level, and each level's
    annotation slices re-embedded, cropped and optionally relabelled, into uint8 arrays
    shaped like the underlying dataset. */
module WebknossosAnnotation {
  import opened Wrappers
  import opened Decimal
  import opened PyPath
  import opened Grid
  import opened Borders

  // ----- Magnifications and mask dataset names (`get_mask_name`, border scaling) -----

  /** `2**k`. */
  function Pow2(k: nat): (p: nat)
    ensures p >= 1
    ensures p == 1 <==> k == 0
  {
    if k == 0 then 1 else 2 * Pow2(k - 1)
  }

  lemma {:induction false} Pow2Add(a: nat, b: nat)
    ensures Pow2(a + b) == Pow2(a) * Pow2(b)
    decreases a
  {
    if a > 0 {
      Pow2Add(a - 1, b);
      assert Pow2(a + b) == 2 * Pow2(a - 1 + b);
    }
  }

  lemma {:induction false} Pow2Grows(a: nat, b: nat)
    requires a < b
    ensures Pow2(a) < Pow2(b)
    decreases b
  {
    if a + 1 < b {
      Pow2Grows(a, b - 1);
    }
  }

  /** `get_mask_name(level)`: the webknossos directory holding a level's mask, "1" at
      full resolution and "m-m-1" with m = 2**level below it. */
  function MaskName(level: nat): (name: string)
    ensures level == 0 <==> name == "1"
  {
    if level == 0 then "1"
    else
      var m := NatToString(Pow2(level));
      m + "-" + m + "-1"
  }

  /** The text of `s` before its first '-', or all of `s` when it has none. */
  function FirstField(s: string): (f: string)
    ensures |f| <= |s| && f == s[..|f|]
    ensures forall i :: 0 <= i < |f| ==> f[i] != '-'
    ensures |f| < |s| ==> s[|f|] == '-'
  {
    if |s| == 0 || s[0] == '-' then "" else [s[0]] + FirstField(s[1..])
  }

  lemma {:induction false} FirstFieldOfDigits(d: string, rest: string)
    requires AllDigits(d)
    ensures FirstField(d + "-" + rest) == d
    decreases |d|
  {
    var s := d + "-" + rest;
    if |d| == 0 {
      assert s[0] == '-';
    } else {
      assert IsDigit(s[0]);
      assert s[1..] == d[1..] + "-" + rest;
      FirstFieldOfDigits(d[1..], rest);
    }
  }

  /** The first field of a mask name is the decimal magnification 2**level of its level;
      below full resolution the name repeats that field and ends in "-1". */
  lemma MaskNameMagnification(level: nat)
    ensures AllDigits(FirstField(MaskName(level)))
    ensures ParseDecimal(FirstField(MaskName(level))) == Pow2(level)
    ensures FirstField(MaskName(level)) == NatToString(Pow2(level))
    ensures level > 0 ==>
      var f := FirstField(MaskName(level));
      MaskName(level) == f + "-" + f + "-1"
  {
    if level == 0 {
      assert FirstField("1") == "1";
      assert NatToString(1) == [DigitChar(1)] == "1";
      assert ParseDecimal("1") == 10 * ParseDecimal("") + DigitValue('1');
    } else {
      var m := NatToString(Pow2(level));
      assert MaskName(level) == m + "-" + (m + "-1");
      FirstFieldOfDigits(m, m + "-1");
      ParseNatToString(Pow2(level));
      assert MaskName(level) == m + "-" + m + "-1";
    }
  }

  /** Distinct levels read distinct mask datasets. */
  lemma MaskNameInjective(a: nat, b: nat)
    ensures MaskName(a) == MaskName(b) ==> a == b
  {
    MaskNameMagnification(a);
    MaskNameMagnification(b);
    if a < b {
      Pow2Grows(a, b);
    } else if b < a {
      Pow2Grows(b, a);
    }
  }

  /** The factor `2**(nblevel-level-1)` of `convert`'s slice loop, which turns borders
      measured on the lowest level into pixels of level `level`. */
  function MarginScale(level: nat, nblevel: nat): (s: nat)
    requires level < nblevel
    ensures s >= 1
    ensures s == 1 <==> level == nblevel - 1
  {
    Pow2(nblevel - level - 1)
  }

  /** One pixel of the lowest level spans the scale factor's worth of pixels of level
      `level`: the level's magnification times the factor is the lowest level's. */
  lemma MarginScaleMatchesMagnification(level: nat, nblevel: nat)
    requires level < nblevel
    ensures Pow2(level) * MarginScale(level, nblevel) == Pow2(nblevel - 1)
  {
    Pow2Add(level, nblevel - level - 1);
  }

  // ----- Reading and relabelling one slice (`convert`'s slice loop) -----

  /** Slice `idx` of one mask dataset, indexed by (row, column) = (y, x); the reader
      yields zeros outside the annotated data, so the function is total. */
  type Volume = Cell -> nat

  /** `read(off=(l, t, idx), shape=[w, h, 1])` followed by the transpose: the h-by-w
      block of the slice whose top-left cell is (t, l). */
  function Crop(vol: Volume, t: int, l: int, h: nat, w: nat): (img: Mask)
    ensures IsShape(img, h, w)
    ensures forall i, j :: 0 <= i < h && 0 <= j < w ==> img[i][j] == vol((t + i, l + j))
  {
    seq(h, i => seq(w, j => vol((t + i, l + j))))
  }

  /** Every label of `img` has an entry in the table. */
  predicate Covers(dic: map<int, int>, img: seq<seq<int>>) {
    forall i, j :: 0 <= i < |img| && 0 <= j < |img[i]| ==> img[i][j] in dic
  }

  /** The relabelling comprehension of `convert`: every label replaced by its entry in
      `dic`, keeping the array's shape; a label without an entry raises `KeyError`. */
  function Remap(img: seq<seq<int>>, dic: map<int, int>): (r: Result<seq<seq<int>>>)
    ensures r.Ok? <==> Covers(dic, img)
    ensures r.Err? ==> r.error == KeyError
    ensures r.Ok? ==> |r.value| == |img|
    ensures r.Ok? ==> forall i :: 0 <= i < |img| ==> |r.value[i]| == |img[i]|
    ensures r.Ok? ==> forall i, j :: 0 <= i < |img| && 0 <= j < |img[i]| ==> r.value[i][j] == dic[img[i][j]]
  {
    if Covers(dic, img) then
      Ok(seq(|img|, i requires 0 <= i < |img| =>
        seq(|img[i]|, j requires 0 <= j < |img[i]| && img[i][j] in dic => dic[img[i][j]])))
    else Err(KeyError)
  }

  /** A table that maps every label present to itself leaves the slice unchanged. */
  lemma RemapIdentity(img: seq<seq<int>>, dic: map<int, int>)
    requires forall i, j :: 0 <= i < |img| && 0 <= j < |img[i]| ==> img[i][j] in dic && dic[img[i][j]] == img[i][j]
    ensures Remap(img, dic) == Ok(img)
  {
    var r := Remap(img, dic).value;
    forall i | 0 <= i < |img|
      ensures r[i] == img[i]
    {
      assert forall j :: 0 <= j < |img[i]| ==> r[i][j] == img[i][j];
    }
    assert r == img;
  }

  // ----- The relabelling table (`json.loads(dic)` and its lookups) -----

  /** A key of the Python dict `dic`: an integer, or a string. Every key of a JSON
      object is a string. */
  datatype DictKey = IntKey(n: int) | StrKey(s: string)

  /** `json.loads(dic)` of a JSON object: a dict whose keys are all strings. */
  predicate FromJsonObject(table: map<DictKey, int>) {
    forall k :: k in table ==> k.StrKey?
  }

  /** The entries of `table` that an integer label reaches: `dic[v]` with `v` an integer
      finds only a key equal to `v`. */
  function IntEntries(table: map<DictKey, int>): (t: map<int, int>)
    ensures forall v :: v in t <==> IntKey(v) in table
    ensures forall v :: v in t ==> t[v] == table[IntKey(v)]
  {
    map k | k in table && k.IntKey? :: k.n := table[k]
  }

  /** The relabelling as written: `if dic:` tests the whole dict, but each lookup `dic[label]`
      uses the slice's integer label. */
  function RemapAsWritten(img: seq<seq<int>>, table: map<DictKey, int>): (r: Result<seq<seq<int>>>)
    ensures |table| == 0 ==> r == Ok(img)
    ensures |table| > 0 ==>
      (r.Ok? <==> forall i, j :: 0 <= i < |img| && 0 <= j < |img[i]| ==> IntKey(img[i][j]) in table)
    ensures r.Err? ==> r.error == KeyError
  {
    if |table| == 0 then Ok(img) else Remap(img, IntEntries(table))
  }

  /** With a non-empty table read from a JSON object, relabelling any slice that has a
      pixel raises `KeyError`: no integer label equals a string key. */
  lemma JsonTableMissesEveryLabel(img: seq<seq<int>>, table: map<DictKey, int>, i: int, j: int)
    requires FromJsonObject(table) && |table| > 0
    requires 0 <= i < |img| && 0 <= j < |img[i]|
    ensures RemapAsWritten(img, table) == Err(KeyError)
  {
    assert IntKey(img[i][j]) !in table;
  }

  /** A label's decimal text as a JSON key writes it: digits without a leading zero. */
  predicate IsLabelText(s: string) {
    |s| > 0 && AllDigits(s) && NatToString(ParseDecimal(s)) == s
  }

  /** The table the documentation of `dic` describes: each string key read as the
      decimal label it names, mapped to that key's value. */
  function LabelTable(table: map<DictKey, int>): (t: map<int, int>)
    ensures forall v :: v in t ==> v >= 0
  {
    map k | k in table && k.StrKey? && IsLabelText(k.s) :: ParseDecimal(k.s) := table[k]
  }

  /** Label `v` has an entry exactly when the dict has the key `str(v)`, and it maps to
      that key's value. */
  lemma LabelTableLookup(table: map<DictKey, int>, v: nat)
    ensures v in LabelTable(table) <==> StrKey(NatToString(v)) in table
    ensures v in LabelTable(table) ==> LabelTable(table)[v] == table[StrKey(NatToString(v))]
  {
    var key := StrKey(NatToString(v));
    ParseNatToString(v);
    assert IsLabelText(key.s);
    if v in LabelTable(table) {
      var k :| k in table && k.StrKey? && IsLabelText(k.s) && ParseDecimal(k.s) == v;
      assert k == key;
    }
  }

  /** The table `{"1": 2}` and the one-pixel slice `[[1]]`: as written the lookup
      raises `KeyError`; with the documented table the slice becomes `[[2]]`. */
  lemma JsonTableCounterexample()
    ensures RemapAsWritten([[1]], map[StrKey("1") := 2]) == Err(KeyError)
    ensures Remap([[1]], LabelTable(map[StrKey("1") := 2])) == Ok([[2]])
  {
    var table := map[StrKey("1") := 2];
    assert IntKey(1) !in table;
    assert NatToString(1) == "1";
    LabelTableLookup(table, 1);
    var r := Remap([[1]], LabelTable(table));
    assert r.Ok? && |r.value| == 1 && |r.value[0]| == 1 && r.value[0][0] == 2;
    assert r.value[0] == [2];
    assert r.value == [[2]];
  }

  /** `dic` as the slice loop applies it: `None` when the dict is empty, so that
      `if dic:` leaves the labels alone, and otherwise the table its lookups consult. */
  type Relabelling = Option<map<int, int>>

  /** The relabelling the parsed `dic` gives: the test `if dic:` is on the dict itself,
      and its lookups see the labels its keys name. */
  function RelabellingOf(table: map<DictKey, int>): (d: Relabelling)
    ensures d.None? <==> |table| == 0
    ensures d.Some? ==> d.value == LabelTable(table)
  {
    if |table| == 0 then None else Some(LabelTable(table))
  }

  /** numpy's assignment of a label into a `uint8` array: the label modulo 256. */
  function ToUint8(v: int): (b: int)
    ensures 0 <= b < 256
    ensures (v - b) % 256 == 0
    ensures 0 <= v < 256 ==> b == v
  {
    v % 256
  }

  // ----- Planning and writing one slice (the body of `for idx in range(n)`) -----

  /** The four borders of one slice as the lowest level reports them: the sentinel
      `[-1, -1, -1, -1]` or four non-negative margins. */
  predicate ValidBorders(bs: seq<int>) {
    |bs| == 4 && (bs == [-1, -1, -1, -1] || (bs[0] >= 0 && bs[1] >= 0 && bs[2] >= 0 && bs[3] >= 0))
  }

  /** Every result of the border search is a valid border list. */
  lemma FoundBordersValid(img: Mask, w: nat)
    requires IsShape(img, |img|, w) && FindBorders(img, w).Ok?
    ensures ValidBorders(FindBorders(img, w).value)
  {
    var bs := FindBorders(img, w).value;
    if !AllZero(img) {
      assert MarginsOf(img, w, bs);
    }
  }

  /** What one slice of a level receives. `Blank` is the 1x1 zero write for an
      unannotated slice; `Paste` writes `data`, a `height`-by-`width` block, with its
      top-left cell at (top, left). */
  datatype SlicePlan = Blank | Paste(top: int, left: int, height: nat, width: nat, data: seq<seq<int>>)

  /** `x` is label `v` after relabelling: `v` itself when there is no relabelling, its
      entry in the table otherwise. */
  predicate Relabelled(dic: Relabelling, v: int, x: int) {
    match dic
    case None => x == v
    case Some(table) => v in table && x == table[v]
  }

  /** `data` is the `height`-by-`width` block of `vol` whose top-left cell is (t, l),
      every label relabelled through `dic`. */
  ghost predicate IsBlock(data: seq<seq<int>>, vol: Volume, t: int, l: int, height: nat, width: nat, dic: Relabelling) {
    && |data| == height
    && (forall i :: 0 <= i < height ==> |data[i]| == width)
    && forall c: Cell :: t <= c.0 < t + height && l <= c.1 < l + width ==>
         Relabelled(dic, vol(c), data[c.0 - t][c.1 - l])
  }

  /** Some cell of the `height`-by-`width` block at (t, l) holds a label without an
      entry in `table`. */
  ghost predicate HasUnmapped(vol: Volume, t: int, l: int, height: nat, width: nat, table: map<int, int>) {
    exists c: Cell :: t <= c.0 < t + height && l <= c.1 < l + width && vol(c) !in table
  }

  /** The read of the block at (t, l) in `convert`'s slice loop, relabelled when `dic`
      is non-empty. Relabelling a block with no rows collapses it to a one-dimensional
      empty array, whose missing second-to-last extent raises `IndexError` when the
      loop takes `subdat_size[-2]`; a label missing from the table raises `KeyError`. */
  function ReadBlock(vol: Volume, t: int, l: int, height: nat, width: nat, dic: Relabelling)
    : (r: Result<seq<seq<int>>>)
    ensures dic.None? ==> r.Ok?
    ensures r == Err(IndexError) <==> dic.Some? && height == 0
    ensures r.Err? ==> r.error == IndexError || r.error == KeyError
    ensures r == Err(KeyError) <==> height > 0 && dic.Some? && HasUnmapped(vol, t, l, height, width, dic.value)
    ensures r.Ok? ==> IsBlock(r.value, vol, t, l, height, width, dic)
  {
    var data := Crop(vol, t, l, height, width);
    if dic.None? then
      assert forall c: Cell :: t <= c.0 < t + height && l <= c.1 < l + width ==>
        data[c.0 - t][c.1 - l] == vol((t + (c.0 - t), l + (c.1 - l)));
      Ok(data)
    else if height == 0 then Err(IndexError)
    else RelabelBlock(vol, t, l, height, width, dic.value)
  }

  /** The relabelling of a block with at least one row through `table`. */
  function RelabelBlock(vol: Volume, t: int, l: int, height: nat, width: nat, table: map<int, int>)
    : (r: Result<seq<seq<int>>>)
    requires height > 0
    ensures r.Err? <==> HasUnmapped(vol, t, l, height, width, table)
    ensures r.Err? ==> r.error == KeyError
    ensures r.Ok? ==> IsBlock(r.value, vol, t, l, height, width, Some(table))
  {
    var data := Crop(vol, t, l, height, width);
    match Remap(data, table)
    case Err(e) =>
      var i, j :| 0 <= i < |data| && 0 <= j < |data[i]| && data[i][j] !in table;
      assert vol((t + i, l + j)) !in table;
      Err(e)
    case Ok(mapped) =>
      forall c: Cell | t <= c.0 < t + height && l <= c.1 < l + width
        ensures vol(c) in table && Relabelled(Some(table), vol(c), mapped[c.0 - t][c.1 - l])
      {
        assert data[c.0 - t][c.1 - l] == vol(c);
      }
      Ok(mapped)
  }

  /** A non-empty dict switches relabelling on even when none of its keys names a
      label: a block with a cell then raises `KeyError`, and a block with no rows
      `IndexError`. */
  lemma NonEmptyDictRelabels(vol: Volume, t: int, l: int, height: nat, width: nat, table: map<DictKey, int>)
    requires |table| > 0 && forall k :: k in table ==> !(k.StrKey? && IsLabelText(k.s))
    ensures height > 0 && width > 0 ==> ReadBlock(vol, t, l, height, width, RelabellingOf(table)) == Err(KeyError)
    ensures height == 0 ==> ReadBlock(vol, t, l, height, width, RelabellingOf(table)) == Err(IndexError)
  {
    assert LabelTable(table) == map[];
    if height > 0 && width > 0 {
      assert vol((t, l)) !in LabelTable(table);
    }
  }

  lemma MulNonneg(a: int, s: nat)
    requires a >= 0
    ensures a * s >= 0
  {
  }

  /** The first half of `convert`'s slice loop: the plan for one slice of level `level`
      from its lowest-level borders `bs`. The sentinel gives the blank write; otherwise
      the borders are scaled to the level and the block between them is read. A
      negative block extent makes the read fail (`ValueError`). The planned block
      always lies inside the level's plane. */
  function PlanSlice(bs: seq<int>, level: nat, nblevel: nat, size: (nat, nat), vol: Volume, dic: Relabelling)
    : (r: Result<SlicePlan>)
    requires ValidBorders(bs) && level < nblevel
    ensures r == Ok(Blank) <==> -1 in bs
    ensures r.Err? ==> r.error == ValueError || r.error == IndexError || r.error == KeyError
    ensures !(-1 in bs) ==>
      var s := MarginScale(level, nblevel);
      && (r == Err(ValueError) <==> (bs[0] + bs[1]) * s > size.0 || (bs[2] + bs[3]) * s > size.1)
      && ((bs[0] + bs[1]) * s <= size.0 && (bs[2] + bs[3]) * s <= size.1 ==>
            var t, l := bs[0] * s, bs[2] * s;
            var height, width := size.0 - (bs[0] + bs[1]) * s, size.1 - (bs[2] + bs[3]) * s;
            match ReadBlock(vol, t, l, height, width, dic)
            case Err(e) => r == Err(e)
            case Ok(data) => r == Ok(Paste(t, l, height, width, data)))
    ensures r.Ok? && r.value.Paste? ==>
      var p := r.value;
      && 0 <= p.top && p.top + p.height <= size.0
      && 0 <= p.left && p.left + p.width <= size.1
      && IsBlock(p.data, vol, p.top, p.left, p.height, p.width, dic)
  {
    if -1 in bs then Ok(Blank)
    else
      var s := MarginScale(level, nblevel);
      var t, b, l, r := bs[0] * s, bs[1] * s, bs[2] * s, bs[3] * s;
      MulNonneg(bs[0], s);
      MulNonneg(bs[1], s);
      MulNonneg(bs[2], s);
      MulNonneg(bs[3], s);
      assert (bs[0] + bs[1]) * s == t + b && (bs[2] + bs[3]) * s == l + r;
      var height, width := size.0 - t - b, size.1 - l - r;
      if height < 0 || width < 0 then Err(ValueError)
      else
        match ReadBlock(vol, t, l, height, width, dic)
        case Err(e) => Err(e)
        case Ok(data) => Ok(Paste(t, l, height, width, data))
  }

  /** The value a pasted block gives cell `c`, as stored in the uint8 array. */
  function PasteSource(top: int, left: int, data: seq<seq<int>>): Cell -> int {
    (c: Cell) =>
      var i, j := c.0 - top, c.1 - left;
      if 0 <= i < |data| && 0 <= j < |data[i]| then ToUint8(data[i][j]) else 0
  }

  /** The value of every cell of the 1x1 zero write. */
  function ZeroFill(c: Cell): int { 0 }

  /** The cells a successful write of `plan` sets, with their uint8 values: the zero
      at the plane's first cell for `Blank`, exactly the block's cells for `Paste`. */
  function SliceContent(plan: SlicePlan): (s: Store<int>)
    ensures forall c :: c in s ==> 0 <= s[c] < 256
    ensures plan.Paste? ==> forall c :: c in s <==> PasteRect(plan).Contains(c)
  {
    if plan.Blank? then WriteRegion(map[], Rect(0, 1, 0, 1), ZeroFill)
    else WriteRegion(map[], PasteRect(plan), PasteSource(plan.top, plan.left, plan.data))
  }

  /** The cells a `Paste` plan covers. */
  function PasteRect(plan: SlicePlan): Rect
    requires plan.Paste?
  {
    Rect(plan.top, plan.top + plan.height, plan.left, plan.left + plan.width)
  }

  /** The zero write of a `Blank` plan does not fit a plane with no cells: zarr 2
      assigns an array only onto a selection of the same shape, and `[:1, :1]` of an
      H-by-W plane has shape (min(1, H), min(1, W)). */
  predicate BlankMisfits(plan: SlicePlan, size: (nat, nat)) {
    plan.Blank? && (size.0 == 0 || size.1 == 0)
  }

  /** The reference outcome of writing `plan` into a fresh H-by-W plane. zarr 2 does not
      broadcast: the 1x1 zero block of a blank slice fails on a plane with no cells. A
      pasted block always has the shape of its selection. */
  function SliceWrite(plan: SlicePlan, size: (nat, nat)): (w: Result<Store<int>>)
    ensures w.Err? <==> plan.Blank? && (size.0 == 0 || size.1 == 0)
    ensures w.Err? ==> w.error == ValueError
    ensures w.Ok? ==> w.value == SliceContent(plan)
  {
    if BlankMisfits(plan, size) then Err(ValueError) else Ok(SliceContent(plan))
  }

  /** The zero write of an unannotated slice and the paste of an annotated one in
      `convert`'s slice loop: the block in one assignment when it fits the load limit,
      tile by tile otherwise. Either way the plane ends as the plan's content with
      uint8 values, unless the zero block does not fit the plane. `writes` counts
      assignments. */
  method WriteSlice(plan: SlicePlan, size: (nat, nat), maxLoad: Option<nat>) returns (r: Result<Store<int>>, writes: nat)
    requires maxLoad.Some? ==> maxLoad.value > 0
    ensures r.Err? <==> plan.Blank? && (size.0 == 0 || size.1 == 0)
    ensures r.Err? ==> r.error == ValueError
    ensures r.Ok? ==> r.value == SliceContent(plan)
    ensures r == SliceWrite(plan, size)
    ensures plan.Blank? || WholePlane(plan.height, plan.width, maxLoad) ==> writes == 1
    ensures plan.Paste? && !WholePlane(plan.height, plan.width, maxLoad) ==>
      writes == CeilDiv(plan.height, maxLoad.value) * CeilDiv(plan.width, maxLoad.value)
  {
    if plan.Blank? {
      writes := 1;
      if size.0 == 0 || size.1 == 0 {
        return Err(ValueError), writes;
      }
      r := Ok(SliceContent(plan));
    } else if WholePlane(plan.height, plan.width, maxLoad) {
      r := Ok(SliceContent(plan));
      writes := 1;
    } else {
      var plane;
      plane, writes := TiledCopy(map[], plan.height, plan.width, maxLoad.value, plan.top, plan.left,
                                 PasteSource(plan.top, plan.left, plan.data));
      assert plane == SliceContent(plan);
      r := Ok(plane);
    }
  }

  /** An unannotated slice stores exactly one zero, at the plane's first cell; on a
      plane with no cells the zero block does not fit and the write raises. */
  lemma BlankSliceIsOneZero(size: (nat, nat))
    ensures SliceWrite(Blank, size) == if size.0 > 0 && size.1 > 0 then Ok(map[(0, 0) := 0]) else Err(ValueError)
  {
    var m := SliceContent(Blank);
    assert (0, 0) in m;
    assert forall c | c in m :: c == (0, 0);
    assert m == map[(0, 0) := 0];
  }

  /** Every cell a planned slice writes lies inside the level's plane: the scaled
      borders never reach past its edges. */
  lemma SliceInsidePlane(bs: seq<int>, level: nat, nblevel: nat, size: (nat, nat), vol: Volume, dic: Relabelling, c: Cell)
    requires ValidBorders(bs) && level < nblevel
    requires SliceOutcome(bs, level, nblevel, size, vol, dic).Ok?
    requires c in SliceOutcome(bs, level, nblevel, size, vol, dic).value
    ensures 0 <= c.0 < size.0 && 0 <= c.1 < size.1
  {
  }

  /** A cell a pasted block writes lies in the block and takes the block's value. */
  lemma PasteCell(p: SlicePlan, c: Cell)
    requires p.Paste? && c in SliceContent(p)
    requires |p.data| == p.height && forall i :: 0 <= i < p.height ==> |p.data[i]| == p.width
    ensures p.top <= c.0 < p.top + p.height && p.left <= c.1 < p.left + p.width
    ensures SliceContent(p)[c] == ToUint8(p.data[c.0 - p.top][c.1 - p.left])
  {
    assert SliceContent(p)[c] == PasteSource(p.top, p.left, p.data)(c);
    PasteValue(p, c);
  }

  lemma PasteValue(p: SlicePlan, c: Cell)
    requires p.Paste? && 0 <= c.0 - p.top < |p.data| && 0 <= c.1 - p.left < |p.data[c.0 - p.top]|
    ensures PasteSource(p.top, p.left, p.data)(c) == ToUint8(p.data[c.0 - p.top][c.1 - p.left])
  {
  }

  /** A pasted block stores at each of its cells the (relabelled) annotation label
      read at that very cell, as a uint8. */
  lemma PasteKeepsLabels(p: SlicePlan, vol: Volume, dic: Relabelling, c: Cell)
    requires p.Paste? && IsBlock(p.data, vol, p.top, p.left, p.height, p.width, dic)
    requires c in SliceContent(p)
    ensures dic.None? ==> SliceContent(p)[c] == ToUint8(vol(c))
    ensures dic.Some? ==> vol(c) in dic.value && SliceContent(p)[c] == ToUint8(dic.value[vol(c)])
  {
    PasteCell(p, c);
    BlockLabel(p, vol, dic, c);
    var x := p.data[c.0 - p.top][c.1 - p.left];
    assert SliceContent(p)[c] == ToUint8(x) && Relabelled(dic, vol(c), x);
  }

  /** A cell of a block carries the relabelled label read at that cell. */
  lemma BlockLabel(p: SlicePlan, vol: Volume, dic: Relabelling, c: Cell)
    requires p.Paste? && IsBlock(p.data, vol, p.top, p.left, p.height, p.width, dic)
    requires p.top <= c.0 < p.top + p.height && p.left <= c.1 < p.left + p.width
    ensures Relabelled(dic, vol(c), p.data[c.0 - p.top][c.1 - p.left])
  {
  }

  /** Inside the pasted block of a planned slice, each cell holds the annotation label
      read at that very cell of the slice, relabelled when `dic` is non-empty, as a
      uint8. */
  lemma SliceKeepsLabels(bs: seq<int>, level: nat, nblevel: nat, size: (nat, nat), vol: Volume, dic: Relabelling, c: Cell)
    requires ValidBorders(bs) && level < nblevel
    requires PlanSlice(bs, level, nblevel, size, vol, dic).Ok?
    requires PlanSlice(bs, level, nblevel, size, vol, dic).value.Paste?
    requires c in SliceContent(PlanSlice(bs, level, nblevel, size, vol, dic).value)
    ensures var store := SliceContent(PlanSlice(bs, level, nblevel, size, vol, dic).value);
      && (dic.None? ==> store[c] == ToUint8(vol(c)))
      && (dic.Some? ==> vol(c) in dic.value && store[c] == ToUint8(dic.value[vol(c)]))
  {
    var p := PlanSlice(bs, level, nblevel, size, vol, dic).value;
    PasteKeepsLabels(p, vol, dic, c);
  }

  // ----- One level (the body of `for level in range(nblevel)`) -----

  /** What slice `idx` of a level contributes: its plan's content, or the error that
      planning or writing it raised. */
  function SliceOutcome(bs: seq<int>, level: nat, nblevel: nat, size: (nat, nat), vol: Volume, dic: Relabelling)
    : Result<Store<int>>
    requires ValidBorders(bs) && level < nblevel
  {
    match PlanSlice(bs, level, nblevel, size, vol, dic)
    case Err(e) => Err(e)
    case Ok(plan) => SliceWrite(plan, size)
  }

  /** One uint8 array of the output group: key, shape `[1, n, H, W]`, chunks and the
      content of each of its n planes. */
  datatype LevelArray = LevelArray(key: string, shape: seq<nat>, chunks: seq<int>, planes: seq<Store<int>>)

  /** `a` is the array of level `level`: key `str(level)`, shape `[1, n, H, W]`,
      chunks `[1, 1, chunk, chunk]`, and plane idx holding slice idx's content. */
  ghost predicate IsLevelArray(a: LevelArray, level: nat, nblevel: nat, size: (nat, nat), chunk: int,
                               offsets: seq<seq<int>>, vols: seq<Volume>, dic: Relabelling)
    requires level < nblevel && |vols| == |offsets|
    requires forall idx :: 0 <= idx < |offsets| ==> ValidBorders(offsets[idx])
  {
    && a.key == NatToString(level)
    && a.shape == [1, |offsets|, size.0, size.1]
    && a.chunks == [1, 1, chunk, chunk]
    && |a.planes| == |offsets|
    && forall idx :: 0 <= idx < |offsets| ==>
         SliceOutcome(offsets[idx], level, nblevel, size, vols[idx], dic) == Ok(a.planes[idx])
  }

  ghost predicate SlicesOk(offsets: seq<seq<int>>, k: nat, level: nat, nblevel: nat, size: (nat, nat), vols: seq<Volume>, dic: Relabelling)
    requires k <= |offsets| == |vols| && level < nblevel
    requires forall idx :: 0 <= idx < |offsets| ==> ValidBorders(offsets[idx])
  {
    forall idx :: 0 <= idx < k ==> SliceOutcome(offsets[idx], level, nblevel, size, vols[idx], dic).Ok?
  }

  /** Slice `idx` is the first of the level to fail, and it fails with `e`. */
  ghost predicate FirstSliceFails(offsets: seq<seq<int>>, level: nat, nblevel: nat, size: (nat, nat), vols: seq<Volume>,
                                  dic: Relabelling, idx: nat, e: PyError)
    requires |offsets| == |vols| && level < nblevel
    requires forall k :: 0 <= k < |offsets| ==> ValidBorders(offsets[k])
  {
    && idx < |offsets|
    && SlicesOk(offsets, idx, level, nblevel, size, vols, dic)
    && SliceOutcome(offsets[idx], level, nblevel, size, vols[idx], dic) == Err(e)
  }

  /** The level's slice loop raises `e`: the error of its first failing slice. */
  ghost predicate LevelFailsWith(offsets: seq<seq<int>>, level: nat, nblevel: nat, size: (nat, nat), vols: seq<Volume>,
                                 dic: Relabelling, e: PyError)
    requires |offsets| == |vols| && level < nblevel
    requires forall k :: 0 <= k < |offsets| ==> ValidBorders(offsets[k])
  {
    exists idx: nat :: FirstSliceFails(offsets, level, nblevel, size, vols, dic, idx, e)
  }

  /** A level has one first failing slice, so the error its loop raises is determined. */
  lemma FirstSliceFailsUnique(offsets: seq<seq<int>>, level: nat, nblevel: nat, size: (nat, nat), vols: seq<Volume>,
                              dic: Relabelling, i1: nat, e1: PyError, i2: nat, e2: PyError)
    requires |offsets| == |vols| && level < nblevel
    requires forall k :: 0 <= k < |offsets| ==> ValidBorders(offsets[k])
    requires FirstSliceFails(offsets, level, nblevel, size, vols, dic, i1, e1)
    requires FirstSliceFails(offsets, level, nblevel, size, vols, dic, i2, e2)
    ensures i1 == i2 && e1 == e2
  {
    if i1 < i2 {
      assert false;
    } else if i2 < i1 {
      assert false;
    }
  }

  /** A failing level raises one error. */
  lemma LevelErrorUnique(offsets: seq<seq<int>>, level: nat, nblevel: nat, size: (nat, nat), vols: seq<Volume>,
                         dic: Relabelling, e1: PyError, e2: PyError)
    requires |offsets| == |vols| && level < nblevel
    requires forall k :: 0 <= k < |offsets| ==> ValidBorders(offsets[k])
    requires LevelFailsWith(offsets, level, nblevel, size, vols, dic, e1)
    requires LevelFailsWith(offsets, level, nblevel, size, vols, dic, e2)
    ensures e1 == e2
  {
    var i1: nat :| FirstSliceFails(offsets, level, nblevel, size, vols, dic, i1, e1);
    var i2: nat :| FirstSliceFails(offsets, level, nblevel, size, vols, dic, i2, e2);
    FirstSliceFailsUnique(offsets, level, nblevel, size, vols, dic, i1, e1, i2, e2);
  }

  /** One turn of `convert`'s slice loop: plans the slice and writes the plan into a
      fresh plane. */
  method SliceStep(bs: seq<int>, level: nat, nblevel: nat, size: (nat, nat), vol: Volume, dic: Relabelling,
                   maxLoad: Option<nat>)
    returns (r: Result<Store<int>>)
    requires ValidBorders(bs) && level < nblevel
    requires maxLoad.Some? ==> maxLoad.value > 0
    ensures r == SliceOutcome(bs, level, nblevel, size, vol, dic)
  {
    var plan := PlanSlice(bs, level, nblevel, size, vol, dic);
    if plan.Err? {
      return Err(plan.error);
    }
    var writes;
    r, writes := WriteSlice(plan.value, size, maxLoad);
  }

  /** When slice `idx` is the first to fail, the level fails with its error. */
  lemma FirstFailure(offsets: seq<seq<int>>, level: nat, nblevel: nat, size: (nat, nat), vols: seq<Volume>,
                     dic: Relabelling, planes: seq<Store<int>>, idx: nat, e: PyError)
    requires level < nblevel && |vols| == |offsets| && idx < |offsets| && |planes| == idx
    requires forall k :: 0 <= k < |offsets| ==> ValidBorders(offsets[k])
    requires forall k :: 0 <= k < idx ==> SliceOutcome(offsets[k], level, nblevel, size, vols[k], dic) == Ok(planes[k])
    requires SliceOutcome(offsets[idx], level, nblevel, size, vols[idx], dic) == Err(e)
    ensures SlicesOk(offsets, idx, level, nblevel, size, vols, dic)
    ensures !SlicesOk(offsets, |offsets|, level, nblevel, size, vols, dic)
    ensures FirstSliceFails(offsets, level, nblevel, size, vols, dic, idx, e)
    ensures LevelFailsWith(offsets, level, nblevel, size, vols, dic, e)
  {
    assert FirstSliceFails(offsets, level, nblevel, size, vols, dic, idx, e);
  }

  /** Planes matching every slice's outcome make the level's array. */
  lemma AllSlicesWritten(offsets: seq<seq<int>>, level: nat, nblevel: nat, size: (nat, nat), chunk: int,
                         vols: seq<Volume>, dic: Relabelling, a: LevelArray)
    requires level < nblevel && |vols| == |offsets|
    requires forall k :: 0 <= k < |offsets| ==> ValidBorders(offsets[k])
    requires a.key == NatToString(level) && a.shape == [1, |offsets|, size.0, size.1]
    requires a.chunks == [1, 1, chunk, chunk] && |a.planes| == |offsets|
    requires forall k :: 0 <= k < |offsets| ==>
      SliceOutcome(offsets[k], level, nblevel, size, vols[k], dic) == Ok(a.planes[k])
    ensures IsLevelArray(a, level, nblevel, size, chunk, offsets, vols, dic)
    ensures SlicesOk(offsets, |offsets|, level, nblevel, size, vols, dic)
  {
  }

  /** One turn of `convert`'s level loop: the array `str(level)` of shape `[1, n, H, W]`, each
      plane holding its slice's outcome. The first slice whose planning fails ends
      the conversion with that slice's error. */
  method ConvertLevel(level: nat, nblevel: nat, size: (nat, nat), chunk: int, offsets: seq<seq<int>>,
                      vols: seq<Volume>, dic: Relabelling, maxLoad: Option<nat>)
    returns (r: Result<LevelArray>)
    requires level < nblevel && |vols| == |offsets|
    requires forall idx :: 0 <= idx < |offsets| ==> ValidBorders(offsets[idx])
    requires maxLoad.Some? ==> maxLoad.value > 0
    ensures r.Ok? <==> SlicesOk(offsets, |offsets|, level, nblevel, size, vols, dic)
    ensures r.Err? ==> exists idx :: (0 <= idx < |offsets|
      && SlicesOk(offsets, idx, level, nblevel, size, vols, dic)
      && SliceOutcome(offsets[idx], level, nblevel, size, vols[idx], dic) == Err(r.error))
    ensures r.Err? ==> LevelFailsWith(offsets, level, nblevel, size, vols, dic, r.error)
    ensures r.Ok? ==> IsLevelArray(r.value, level, nblevel, size, chunk, offsets, vols, dic)
  {
    var planes: seq<Store<int>> := [];
    var idx := 0;
    while idx < |offsets|
      invariant 0 <= idx <= |offsets| && |planes| == idx
      invariant forall k :: 0 <= k < idx ==>
        SliceOutcome(offsets[k], level, nblevel, size, vols[k], dic) == Ok(planes[k])
    {
      var outcome := SliceStep(offsets[idx], level, nblevel, size, vols[idx], dic, maxLoad);
      if outcome.Err? {
        FirstFailure(offsets, level, nblevel, size, vols, dic, planes, idx, outcome.error);
        return Err(outcome.error);
      }
      planes := planes + [outcome.value];
      idx := idx + 1;
    }
    var a := LevelArray(NatToString(level), [1, |offsets|, size.0, size.1], [1, 1, chunk, chunk], planes);
    AllSlicesWritten(offsets, level, nblevel, size, chunk, vols, dic, a);
    r := Ok(a);
  }

  // ----- Borders on the lowest level (`low_res_offsets`) -----

  /** One turn of the `low_res_offsets` loop: the borders of one slice of the lowest
      level, an H-by-W plane read from (0, 0). A plane with no cells makes the border
      search raise. */
  function SliceBorders(size: (nat, nat), vol: Volume): (r: Result<seq<int>>)
    ensures r.Err? <==> size.0 == 0 || size.1 == 0
    ensures r.Err? ==> r.error == ValueError
    ensures r.Ok? ==> ValidBorders(r.value)
  {
    var img := Crop(vol, 0, 0, size.0, size.1);
    var r := FindBorders(img, size.1);
    if r.Ok? then FoundBordersValid(img, size.1); r else r
  }

  /** The `low_res_offsets` loop: the borders of every slice of the lowest level, in slice order.
      Every slice fails the same way, so the first failure is the failure of any. */
  function LowResOffsets(size: (nat, nat), vols: seq<Volume>): (r: Result<seq<seq<int>>>)
    ensures r.Err? <==> |vols| > 0 && (size.0 == 0 || size.1 == 0)
    ensures r.Err? ==> r.error == ValueError
    ensures r.Ok? ==> |r.value| == |vols|
    ensures r.Ok? ==> forall idx :: 0 <= idx < |vols| ==> SliceBorders(size, vols[idx]) == Ok(r.value[idx])
    ensures r.Ok? ==> forall idx :: 0 <= idx < |vols| ==> ValidBorders(r.value[idx])
  {
    if |vols| > 0 && (size.0 == 0 || size.1 == 0) then Err(ValueError)
    else Ok(seq(|vols|, idx requires 0 <= idx < |vols| => SliceBorders(size, vols[idx]).value))
  }

  // ----- Output name (`basename`, `initials` and `out` in `convert`) -----

  /** `os.path.basename(ome_dir)[:-9]`: the dataset's file name without the nine
      characters of ".ome.zarr" (an empty stem when the name is shorter). */
  function DatasetStem(omeDir: string): (stem: string)
    ensures forall i :: 0 <= i < |stem| ==> stem[i] != '/'
  {
    var b := Basename(omeDir);
    b[..if |b| >= 9 then |b| - 9 else 0]
  }

  /** A dataset named `name + ".ome.zarr"` has stem `name`. */
  lemma StemOfZarrName(omeDir: string, name: string)
    requires Basename(omeDir) == name + ".ome.zarr"
    ensures DatasetStem(omeDir) == name
  {
  }

  /** `[:2]`: at most the first two characters. */
  function Initials(comp: string): (s: string)
    ensures |s| <= 2 && |s| <= |comp| && s == comp[..|s|]
    ensures |comp| >= 2 ==> |s| == 2
    ensures |comp| < 2 ==> s == comp
  {
    if |comp| < 2 then comp else comp[..2]
  }

  /** The name of the output store inside `dst`: the stem, "_dsec_", the initials
      and the ".ome.zarr" suffix, read back field by field. */
  function OutputFileName(stem: string, initials: string): (f: string)
    ensures |f| == |stem| + |initials| + 15
    ensures f[..|stem|] == stem && f[|stem|..|stem| + 6] == "_dsec_"
    ensures f[|stem| + 6..|f| - 9] == initials && f[|f| - 9..] == ".ome.zarr"
  {
    stem + "_dsec_" + initials + ".ome.zarr"
  }

  /** A file name built from slash-free parts is slash-free and ends in ".ome.zarr". */
  lemma FileNameShape(stem: string, initials: string)
    requires forall i :: 0 <= i < |stem| ==> stem[i] != '/'
    requires forall i :: 0 <= i < |initials| ==> initials[i] != '/'
    ensures forall i :: 0 <= i < |OutputFileName(stem, initials)| ==> OutputFileName(stem, initials)[i] != '/'
    ensures EndsWith(OutputFileName(stem, initials), ".ome.zarr")
  {
    var f := OutputFileName(stem, initials);
    assert f == stem + ("_dsec_" + initials + ".ome.zarr");
    assert f[|f| - 9..] == ".ome.zarr";
  }

  /** The output path `dst/<stem>_dsec_<initials>.ome.zarr`, the initials
      taken from the component before the last '/' of the annotation folder, which
      raises `IndexError` when the folder path has no '/'. */
  function OutputName(omeDir: string, wkwDir: string, dst: string): (r: Result<string>)
    ensures r.Err? <==> forall i :: 0 <= i < |wkwDir| ==> wkwDir[i] != '/'
    ensures r.Err? ==> r.error == IndexError
    ensures r.Ok? ==> EndsWith(r.value, ".ome.zarr")
    ensures r.Ok? ==>
      Basename(r.value) == OutputFileName(DatasetStem(omeDir), Initials(SecondLastComponent(wkwDir).value))
    ensures r.Ok? ==>
      var file := OutputFileName(DatasetStem(omeDir), Initials(SecondLastComponent(wkwDir).value));
      r.value == dst + (if |dst| == 0 || dst[|dst| - 1] == '/' then "" else "/") + file
  {
    match SecondLastComponent(wkwDir)
    case Err(e) => Err(e)
    case Ok(comp) =>
      var file := OutputFileName(DatasetStem(omeDir), Initials(comp));
      FileNameShape(DatasetStem(omeDir), Initials(comp));
      BasenameOfJoin(dst, file);
      JoinEndsWithName(dst, file);
      JoinRelative(dst, file);
      EndsWithTrans(Join(dst, file), file, ".ome.zarr");
      Ok(Join(dst, file))
  }

  // ----- The whole conversion (`convert`) -----

  /** The converted annotation: the output path, one array per level, and the
      multiscale metadata copied from the underlying dataset. */
  datatype Annotation<M> = Annotation(path: string, levels: seq<LevelArray>, multiscales: M)

  ghost predicate LevelsOk(offsets: seq<seq<int>>, sizes: seq<(nat, nat)>, vols: seq<seq<Volume>>, k: nat, dic: Relabelling)
    requires k <= |sizes| == |vols|
    requires forall lv :: 0 <= lv < |vols| ==> |vols[lv]| == |offsets|
    requires forall idx :: 0 <= idx < |offsets| ==> ValidBorders(offsets[idx])
  {
    forall lv :: 0 <= lv < k ==> SlicesOk(offsets, |offsets|, lv, |sizes|, sizes[lv], vols[lv], dic)
  }

  /** The level loop raises `e`: some level fails with `e` after every earlier level
      succeeded. */
  ghost predicate LevelsFailWith(offsets: seq<seq<int>>, sizes: seq<(nat, nat)>, vols: seq<seq<Volume>>,
                                 dic: Relabelling, e: PyError)
    requires |sizes| == |vols|
    requires forall lv :: 0 <= lv < |vols| ==> |vols[lv]| == |offsets|
    requires forall idx :: 0 <= idx < |offsets| ==> ValidBorders(offsets[idx])
  {
    exists lv :: 0 <= lv < |sizes| && LevelsOk(offsets, sizes, vols, lv, dic)
      && LevelFailsWith(offsets, lv, |sizes|, sizes[lv], vols[lv], dic, e)
  }

  /** A failing level lies at or after every prefix of levels that all succeed. */
  lemma FailingLevelFollowsOk(offsets: seq<seq<int>>, sizes: seq<(nat, nat)>, vols: seq<seq<Volume>>,
                              dic: Relabelling, lv: nat, k: nat, e: PyError)
    requires |sizes| == |vols| && lv < |sizes| && k <= |sizes|
    requires forall l :: 0 <= l < |vols| ==> |vols[l]| == |offsets|
    requires forall idx :: 0 <= idx < |offsets| ==> ValidBorders(offsets[idx])
    requires LevelsOk(offsets, sizes, vols, k, dic)
    requires LevelFailsWith(offsets, lv, |sizes|, sizes[lv], vols[lv], dic, e)
    ensures k <= lv
  {
  }

  /** The error of a failing level loop is determined: it comes from the first failing
      level, and there from its first failing slice. */
  lemma LevelsFailUnique(offsets: seq<seq<int>>, sizes: seq<(nat, nat)>, vols: seq<seq<Volume>>,
                         dic: Relabelling, e1: PyError, e2: PyError)
    requires |sizes| == |vols|
    requires forall lv :: 0 <= lv < |vols| ==> |vols[lv]| == |offsets|
    requires forall idx :: 0 <= idx < |offsets| ==> ValidBorders(offsets[idx])
    requires LevelsFailWith(offsets, sizes, vols, dic, e1) && LevelsFailWith(offsets, sizes, vols, dic, e2)
    ensures e1 == e2
  {
    var n := |sizes|;
    var lv1 :| 0 <= lv1 < n && LevelsOk(offsets, sizes, vols, lv1, dic)
      && LevelFailsWith(offsets, lv1, n, sizes[lv1], vols[lv1], dic, e1);
    var lv2 :| 0 <= lv2 < n && LevelsOk(offsets, sizes, vols, lv2, dic)
      && LevelFailsWith(offsets, lv2, n, sizes[lv2], vols[lv2], dic, e2);
    FailingLevelFollowsOk(offsets, sizes, vols, dic, lv1, lv2, e1);
    FailingLevelFollowsOk(offsets, sizes, vols, dic, lv2, lv1, e2);
    LevelErrorUnique(offsets, lv1, n, sizes[lv1], vols[lv1], dic, e1, e2);
  }

  /** `convert`'s level loop: every level in increasing order, stopping at the first failure. */
  method ConvertAllLevels(sizes: seq<(nat, nat)>, chunk: int, offsets: seq<seq<int>>, vols: seq<seq<Volume>>,
                          dic: Relabelling, maxLoad: Option<nat>)
    returns (r: Result<seq<LevelArray>>)
    requires |vols| == |sizes|
    requires forall lv :: 0 <= lv < |vols| ==> |vols[lv]| == |offsets|
    requires forall idx :: 0 <= idx < |offsets| ==> ValidBorders(offsets[idx])
    requires maxLoad.Some? ==> maxLoad.value > 0
    ensures r.Ok? <==> LevelsOk(offsets, sizes, vols, |sizes|, dic)
    ensures r.Err? ==> LevelsFailWith(offsets, sizes, vols, dic, r.error)
    ensures r.Ok? ==> |r.value| == |sizes|
    ensures r.Ok? ==> forall lv :: 0 <= lv < |sizes| ==>
      IsLevelArray(r.value[lv], lv, |sizes|, sizes[lv], chunk, offsets, vols[lv], dic)
  {
    var nblevel := |sizes|;
    var levels: seq<LevelArray> := [];
    var level := 0;
    while level < nblevel
      invariant 0 <= level <= nblevel && |levels| == level
      invariant LevelsOk(offsets, sizes, vols, level, dic)
      invariant forall lv :: 0 <= lv < level ==>
        IsLevelArray(levels[lv], lv, nblevel, sizes[lv], chunk, offsets, vols[lv], dic)
    {
      var made := ConvertLevel(level, nblevel, sizes[level], chunk, offsets, vols[level], dic, maxLoad);
      if made.Err? {
        assert !SlicesOk(offsets, |offsets|, level, nblevel, sizes[level], vols[level], dic);
        assert !LevelsOk(offsets, sizes, vols, nblevel, dic);
        assert LevelsOk(offsets, sizes, vols, level, dic)
          && LevelFailsWith(offsets, level, nblevel, sizes[level], vols[level], dic, made.error);
        return Err(made.error);
      }
      ghost var prev := levels;
      levels := levels + [made.value];
      forall lv | 0 <= lv <= level
        ensures IsLevelArray(levels[lv], lv, nblevel, sizes[lv], chunk, offsets, vols[lv], dic)
        ensures SlicesOk(offsets, |offsets|, lv, nblevel, sizes[lv], vols[lv], dic)
      {
        if lv < level {
          assert levels[lv] == prev[lv];
          assert SlicesOk(offsets, |offsets|, lv, nblevel, sizes[lv], vols[lv], dic);
        }
      }
      level := level + 1;
    }
    r := Ok(levels);
  }

  /** `convert`: level `lv` of the underlying dataset has plane extent `sizes[lv]` and
      its mask dataset `MaskName(lv)` has slices `vols[lv]`; `table` is the parsed
      `dic`, relabelled through `LabelTable`. With no levels the
      lowest level cannot be looked up (`KeyError`); otherwise the borders of the
      lowest level, the output name and every level are computed in that order, the
      first failure ending the conversion. */
  method Convert<M>(wkwDir: string, omeDir: string, dst: string, sizes: seq<(nat, nat)>, n: nat,
                    vols: seq<seq<Volume>>, table: map<DictKey, int>, chunk: int, maxLoad: Option<nat>, multiscales: M)
    returns (r: Result<Annotation<M>>)
    requires |vols| == |sizes|
    requires forall lv :: 0 <= lv < |vols| ==> |vols[lv]| == n
    requires maxLoad.Some? ==> maxLoad.value > 0
    ensures |sizes| == 0 ==> r == Err(KeyError)
    ensures |sizes| > 0 ==>
      var offsets := LowResOffsets(sizes[|sizes| - 1], vols[|sizes| - 1]);
      && (offsets.Err? ==> r == Err(offsets.error))
      && (offsets.Ok? && OutputName(omeDir, wkwDir, dst).Err? ==> r == Err(IndexError))
      && (offsets.Ok? && OutputName(omeDir, wkwDir, dst).Ok? ==>
            && (r.Ok? <==> LevelsOk(offsets.value, sizes, vols, |sizes|, RelabellingOf(table)))
            && (r.Err? ==> LevelsFailWith(offsets.value, sizes, vols, RelabellingOf(table), r.error)))
    ensures r.Ok? ==>
      && r.value.path == OutputName(omeDir, wkwDir, dst).value
      && r.value.multiscales == multiscales
      && |r.value.levels| == |sizes|
    ensures r.Ok? ==>
      var offsets := LowResOffsets(sizes[|sizes| - 1], vols[|sizes| - 1]).value;
      forall lv :: 0 <= lv < |sizes| ==>
           IsLevelArray(r.value.levels[lv], lv, |sizes|, sizes[lv], chunk, offsets, vols[lv], RelabellingOf(table))
  {
    var nblevel := |sizes|;
    if nblevel == 0 {
      return Err(KeyError);
    }
    var found := LowResOffsets(sizes[nblevel - 1], vols[nblevel - 1]);
    if found.Err? {
      return Err(found.error);
    }
    var offsets := found.value;
    var out := OutputName(omeDir, wkwDir, dst);
    if out.Err? {
      return Err(out.error);
    }
    var levels := ConvertAllLevels(sizes, chunk, offsets, vols, RelabellingOf(table), maxLoad);
    if levels.Err? {
      return Err(levels.error);
    }
    r := Ok(Annotation(out.value, levels.value, multiscales));
  }
}
