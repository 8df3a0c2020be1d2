# linc-convert converters, modelled in Dafny

This project models the core of two converters of the `linc_convert` package and proves
properties of the models.

**Single-slice JPEG2000 converter** (`modalities/df/single_slice.py`). It turns one
JPEG2000 file into an OME-Zarr pyramid and reuses the wavelet levels of the codestream as
the pyramid levels. The model covers:

- choosing the output path and the NIfTI flag;
- the chunk layout;
- copying each level, in one piece or tile by tile when a level exceeds `max_load`;
- the multiscale descriptor, with per-level scale and translation;
- the data shape and slice thickness passed to the NIfTI-Zarr header.

**Webknossos annotation converter** (`modalities/wk/webknossos_annotation.py`). It
re-embeds annotation masks downloaded from webknossos into the pyramid of the underlying
dataset. The model covers:

- the mask dataset name of each level;
- `cal_distance` and `find_borders` on the lowest level;
- scaling the borders to every level;
- cropping and relabelling each slice, then writing it in one piece or tiled;
- the uint8 store;
- the output name.

Modules:

- `Wrappers`: `Option`, `Result` and the Python exceptions the code raises.
- `Decimal`: `str(n)` and its parser.
- `Sequences`: reversal, shared by `img[::-1]` and `reversed`.
- `PyPath`: `splitext`, `basename`, `join` and `split('/')[-2]`.
- `Grid`: cells, rectangles, stores as maps from written cells to values, `ceildiv`, and the
  row-major tiled copy shared by both converters.
- `SingleSlice`, `Borders`, `WebknossosAnnotation`: the two converters.

A Zarr array is modelled as a map from written cells to values. A slice assignment
`array[..., rect] = src` is `Grid.WriteRegion`. Every tiled copy is proved to produce the
same store as a single `WriteRegion` of the whole block. Python exceptions raised by the
modelled code itself are `Err` values: division by a zero extent, `np.max` on an empty
slice, a missing dictionary key, `split('/')[-2]` without a slash, a zero block that does
not fit an empty plane, and so on.

## Model

| member | source | states |
|---|---|---|
| Decimal.NatToString | linc_convert/modalities/df/single_slice.py:125 | `str(level)` is a non-empty string of digits, with a leading '0' only for 0 itself |
| Decimal.ParseNatToString | linc_convert/modalities/df/single_slice.py:125-126 | reading back the decimal key of a level gives the level number |
| Decimal.NatToStringInjective | linc_convert/modalities/df/single_slice.py:125-126 | two levels never get the same array key |
| PyPath.SplitExtRoot | linc_convert/modalities/df/single_slice.py:93 | `splitext(p)[0]` is a prefix of p; it equals p iff p has no extension, and otherwise it stops at the extension dot |
| PyPath.ExtensionDotIsLastDot | linc_convert/modalities/df/single_slice.py:93 | the extension dot is the last '.' of the path, it comes after the last '/', and a character other than '.' precedes it in the last component |
| PyPath.RFind | linc_convert/modalities/df/single_slice.py:93 | the result is the last occurrence of the character, or -1 when there is none |
| PyPath.Basename | linc_convert/modalities/wk/webknossos_annotation.py:88 | the basename has no '/', is a suffix of the path, and is preceded by '/' whenever it is shorter than the path |
| PyPath.Join | linc_convert/modalities/wk/webknossos_annotation.py:90 | an absolute name replaces the directory; otherwise the name follows the directory after one separating '/', added only when the directory is non-empty and does not end in one |
| PyPath.JoinRelative | linc_convert/modalities/wk/webknossos_annotation.py:90 | a name that does not start with '/' is appended to the directory with a '/' between them unless the directory is empty or already ends in '/' |
| PyPath.EndsWith | linc_convert/modalities/df/single_slice.py:96 | `s.endswith(suffix)` holds iff `s` is some string followed by `suffix` |
| PyPath.BasenameOfJoin | linc_convert/modalities/wk/webknossos_annotation.py:90 | joining a slash-free name under any directory gives back that name as the basename |
| PyPath.JoinEndsWithName | linc_convert/modalities/wk/webknossos_annotation.py:90 | the joined path ends with the slash-free name |
| PyPath.SecondLastComponent | linc_convert/modalities/wk/webknossos_annotation.py:89 | `split('/')[-2]` raises IndexError iff the path has no '/'; otherwise it is the slash-free component that starts the path or follows a '/' and is followed by the last '/' |
| Grid.WriteRegion | linc_convert/modalities/df/single_slice.py:128 | after the assignment the store holds exactly the old cells plus the rectangle; the rectangle's cells carry the source values and all other cells are unchanged |
| Grid.CeilDiv | linc_convert/modalities/df/single_slice.py:130-131 | the number of `m`-sized pieces is the least one whose total length reaches the extent |
| Grid.TileShape | linc_convert/modalities/df/single_slice.py:135-143 | every tile of the walk is non-empty, at most max_load on each side, and inside the block |
| Grid.TilesDisjoint | linc_convert/modalities/df/single_slice.py:132-143 | two different tiles share no cell, so no cell is written twice |
| Grid.TilesCover | linc_convert/modalities/df/single_slice.py:132-143 | a cell is in the block iff some tile of the walk contains it |
| Grid.PieceIndex | linc_convert/modalities/df/single_slice.py:137 | every offset of an extent falls in exactly the piece `i` with `i*m <= x < i*m+m`, and `i < ceildiv(n, m)` |
| Grid.WalkStep | linc_convert/modalities/wk/webknossos_annotation.py:153-155 | writing one tile extends the region already copied by exactly that tile |
| Grid.WalkNextRow | linc_convert/modalities/wk/webknossos_annotation.py:150-151 | finishing a row of tiles leaves the copied region equal to every full row of tiles so far |
| Grid.WalkDone | linc_convert/modalities/wk/webknossos_annotation.py:150-155 | after the last row of tiles the whole block has been copied |
| Grid.TiledCopy | linc_convert/modalities/df/single_slice.py:130-143 | the tiled copy produces the same store as one assignment of the whole block, in `ceildiv(h,m)*ceildiv(w,m)` writes |
| SingleSlice.ResolveOutput | linc_convert/modalities/df/single_slice.py:92-96 | a non-empty `out` is kept; otherwise the path is the input without its extension plus ".nii.zarr" or ".ome.zarr"; the NIfTI flag is on iff it was requested or the path ends in ".nii.zarr" |
| SingleSlice.DefaultOutputKeepsFlag | linc_convert/modalities/df/single_slice.py:92-96 | with no `out`, the suffix test agrees with the requested flag, and removing the nine-character suffix gives back the root |
| SingleSlice.ResolveOutputFixedPoint | linc_convert/modalities/df/single_slice.py:92-96 | passing the resolved path and flag back in resolves to the same pair |
| SingleSlice.ChunkShape | linc_convert/modalities/df/single_slice.py:110 | the chunk list is the codestream's channel extents (after height and width) followed by `chunk` twice |
| SingleSlice.ChunkShapeFitsLevel | linc_convert/modalities/df/single_slice.py:109-110 | the chunk list has one entry per axis of every level array, with the full channel extents first and `chunk` on the two spatial axes |
| SingleSlice.CopyLevel | linc_convert/modalities/df/single_slice.py:127-143 | both branches leave the array equal to the level's whole plane; one write when both extents are below max_load, `ceildiv*ceildiv` writes otherwise |
| SingleSlice.ConvertLevels | linc_convert/modalities/df/single_slice.py:119-144 | one array per level in level order, keyed `str(level)`, with the level's shape, the common chunk list and the level's full content |
| SingleSlice.GroupOf | linc_convert/modalities/df/single_slice.py:125-126 | the group maps every level's key to that level's array and holds no other key |
| SingleSlice.LevelKeysDistinct | linc_convert/modalities/df/single_slice.py:125 | different levels have different keys, so no level array overwrites another |
| SingleSlice.DescribeGroup | linc_convert/modalities/df/single_slice.py:161-194 | the descriptor computed from the group's arrays fails with ZeroDivisionError iff some level is flat, and otherwise describes the level views |
| SingleSlice.Repeat | linc_convert/modalities/df/single_slice.py:175 | `[x] * n` has n entries, all equal to x |
| SingleSlice.Axes | linc_convert/modalities/df/single_slice.py:150-159 | the axes are y then x, preceded by one channel axis exactly when there are channels |
| SingleSlice.AxisScale | linc_convert/modalities/df/single_slice.py:176-177 | n voxels at the level's scale span the extent of level 0's n0 voxels |
| SingleSlice.AxisShift | linc_convert/modalities/df/single_slice.py:183-184 | the translation puts the level's first voxel edge at level 0's first voxel edge |
| SingleSlice.LevelTransforms | linc_convert/modalities/df/single_slice.py:172-187 | a scale then a translation, each with one entry per channel dimension (1.0 and 0.0) followed by the y and x entries |
| SingleSlice.AxisEdgesAligned | linc_convert/modalities/df/single_slice.py:168-187 | on each axis, a level's n voxels at the level's scale span level 0's n0 voxels; the first and last voxel edges of the level coincide with those of level 0 |
| SingleSlice.AxisTransformUnique | linc_convert/modalities/df/single_slice.py:168-187 | that edge alignment determines the scale and the translation: no other pair aligns the edges |
| SingleSlice.LevelZeroTransforms | linc_convert/modalities/df/single_slice.py:172-187 | level 0 gets the voxel size as scale and zero translation |
| SingleSlice.AxesMatchTransforms | linc_convert/modalities/df/single_slice.py:150-185 | with at most one channel dimension, each transform has one entry per axis of the descriptor |
| SingleSlice.Multiscales | linc_convert/modalities/df/single_slice.py:148-194 | the descriptor fails with ZeroDivisionError iff some level has a zero spatial extent; otherwise it holds the fixed fields, the axes, one dataset per level with path `str(n)` and the aligned transforms, and a unit global scale |
| SingleSlice.DescriptorOfLevels | linc_convert/modalities/df/single_slice.py:148-193 | the descriptor computed from the level arrays' shapes has the fixed fields and unit group scale, and its datasets are those of the decoder's level views |
| Sequences.Reverse | linc_convert/modalities/df/single_slice.py:204 | `reversed` (and `img[::-1]`) keeps the length and mirrors the positions |
| SingleSlice.ProductAppend | linc_convert/modalities/df/single_slice.py:204-206 | the voxel count of a concatenated shape is the product of the parts' counts |
| SingleSlice.ProductReverse | linc_convert/modalities/df/single_slice.py:204 | reversing a shape keeps its voxel count |
| SingleSlice.NiftiShape | linc_convert/modalities/df/single_slice.py:204-206 | the header shape has two more entries than level 0's shape when there are channels, and is level 0's shape reversed otherwise |
| SingleSlice.NiftiShapeLayout | linc_convert/modalities/df/single_slice.py:204-206 | the header shape lists width then height, then two singleton axes when there are channels, then the channel extents in reverse |
| SingleSlice.NiftiShapeVoxelCount | linc_convert/modalities/df/single_slice.py:204-206 | the header shape describes as many voxels as level 0 holds |
| SingleSlice.NiftiShapeRoundTrip | linc_convert/modalities/df/single_slice.py:204-206 | dropping the inserted singleton axes and reversing again gives back level 0's shape |
| SingleSlice.SliceThickness | linc_convert/modalities/df/single_slice.py:207 | `thickness or 1`: an unset or zero thickness gives 1, and a non-zero thickness is kept as given, so the result is never zero |
| SingleSlice.Convert | linc_convert/modalities/df/single_slice.py:92-209 | fails iff a level is flat or a NIfTI header is needed with no levels. A flat level gives ZeroDivisionError, since the descriptor is computed before the header reads level 0; a header with no levels gives KeyError. Otherwise it gives the resolved path and flag, one full array per level, the descriptor of the levels (version "0.4", type "jpeg2000", empty name, the axes, one dataset per level and the unit group scale `[1.0] * (2 + has_channel)`), and header inputs exactly when the flag is on |
| Borders.RowSum | linc_convert/modalities/wk/webknossos_annotation.py:175-176 | a row's sum is zero iff the row holds no label |
| Borders.RowMax | linc_convert/modalities/wk/webknossos_annotation.py:182 | the row maximum bounds every entry, and a positive maximum is attained |
| Borders.ImageMax | linc_convert/modalities/wk/webknossos_annotation.py:182 | `np.max` bounds every pixel, and a positive maximum is attained |
| Borders.ImageMaxZero | linc_convert/modalities/wk/webknossos_annotation.py:182-183 | the maximum is zero iff the slice is unannotated |
| Borders.CalDistance | linc_convert/modalities/wk/webknossos_annotation.py:172-178 | the result is the index of the first row with a label, or the row count when there is none |
| Sequences.ReverseReverse | linc_convert/modalities/df/single_slice.py:204 | reversing twice gives back the sequence |
| Borders.RotClockwise | linc_convert/modalities/wk/webknossos_annotation.py:186 | `rot90(k=3)` of an h-by-w slice is w-by-h, with `r[i][j] == img[h-1-j][i]` |
| Borders.RotCounterClockwise | linc_convert/modalities/wk/webknossos_annotation.py:187 | `rot90(k=1)` of an h-by-w slice is w-by-h, with `r[i][j] == img[j][w-1-i]` |
| Borders.ClockwiseRows | linc_convert/modalities/wk/webknossos_annotation.py:186 | row k of the clockwise turn is empty iff column k of the slice is |
| Borders.CounterClockwiseRows | linc_convert/modalities/wk/webknossos_annotation.py:187 | row k of the counter-clockwise turn is empty iff column w-1-k of the slice is |
| Borders.DistanceIsMargin | linc_convert/modalities/wk/webknossos_annotation.py:184-189 | `max(0, cal_distance - 1)` is the margin of an emptiness profile: the empty lines before the first label, less one |
| Borders.Measured | linc_convert/modalities/wk/webknossos_annotation.py:184-189 | the four measured borders are non-negative |
| Borders.FourMargins | linc_convert/modalities/wk/webknossos_annotation.py:184-189 | the four `cal_distance` calls measure the top, bottom, left and right margins of the slice |
| Borders.AnnotatedBorders | linc_convert/modalities/wk/webknossos_annotation.py:184-189 | an annotated slice gets four non-negative borders that are its top, bottom, left and right margins |
| Borders.FindBorders | linc_convert/modalities/wk/webknossos_annotation.py:181-189 | raises ValueError iff the slice has no cells; otherwise it gives four borders, which are the sentinel `[-1,-1,-1,-1]` iff the slice is unannotated and the four margins otherwise |
| Borders.LineInsideMargins | linc_convert/modalities/wk/webknossos_annotation.py:184-189 | a non-empty line lies between the front and back margins, and strictly before the back margin's kept empty line |
| Borders.AnnotationInsideBorders | linc_convert/modalities/wk/webknossos_annotation.py:181-189 | every annotated pixel lies inside the crop that the borders describe |
| Borders.ScaledCropKeepsAnnotation | linc_convert/modalities/wk/webknossos_annotation.py:133-136 | when the borders are scaled by `s` to a finer level that is more than `s` times the coarse slice less one pixel, every scaled annotated pixel stays inside the scaled crop |
| WebknossosAnnotation.Pow2 | linc_convert/modalities/wk/webknossos_annotation.py:169 | `2**k` is at least one, and exactly one iff k is 0, the full-resolution level |
| WebknossosAnnotation.Pow2Grows | linc_convert/modalities/wk/webknossos_annotation.py:169 | `2**k` is strictly increasing in k |
| WebknossosAnnotation.MaskName | linc_convert/modalities/wk/webknossos_annotation.py:165-169 | the mask name is "1" iff the level is 0 |
| WebknossosAnnotation.MaskNameMagnification | linc_convert/modalities/wk/webknossos_annotation.py:165-169 | the first '-'-separated field of every mask name is `str(2**level)`, with no leading zero, and below level 0 the name is that field, '-', the same field, then "-1" |
| WebknossosAnnotation.MaskNameInjective | linc_convert/modalities/wk/webknossos_annotation.py:121-122 | distinct levels read distinct mask datasets |
| WebknossosAnnotation.MarginScale | linc_convert/modalities/wk/webknossos_annotation.py:133 | the border scale factor `2**(nblevel-level-1)` is at least one, and exactly one iff the level is the lowest-resolution one |
| WebknossosAnnotation.MarginScaleMatchesMagnification | linc_convert/modalities/wk/webknossos_annotation.py:133 | the level's magnification times the scale factor is the lowest level's magnification |
| WebknossosAnnotation.Crop | linc_convert/modalities/wk/webknossos_annotation.py:136-138 | the read gives an h-by-w slice whose pixel (i, j) is the volume's label at (t+i, l+j) |
| WebknossosAnnotation.Remap | linc_convert/modalities/wk/webknossos_annotation.py:139-140 | relabelling succeeds iff every label has an entry (KeyError otherwise), keeps the shape, and replaces each label by its entry |
| WebknossosAnnotation.RemapIdentity | linc_convert/modalities/wk/webknossos_annotation.py:139-140 | a table that maps every present label to itself leaves the slice unchanged |
| WebknossosAnnotation.IntEntries | linc_convert/modalities/wk/webknossos_annotation.py:140 | an integer label reaches exactly the entries whose key is that integer |
| WebknossosAnnotation.RemapAsWritten | linc_convert/modalities/wk/webknossos_annotation.py:139-140 | as written: an empty dict leaves the slice as read; otherwise relabelling succeeds iff every label is itself a key of the dict, and fails with KeyError |
| WebknossosAnnotation.JsonTableMissesEveryLabel | linc_convert/modalities/wk/webknossos_annotation.py:67-140 | as written, a non-empty dict parsed from a JSON object makes the relabelling of any slice with a pixel raise KeyError |
| WebknossosAnnotation.JsonTableCounterexample | linc_convert/modalities/wk/webknossos_annotation.py:67-140 | with `dic = {"1": 2}` and the slice `[[1]]`, the code as written raises KeyError, while the documented table gives `[[2]]` |
| WebknossosAnnotation.LabelTable | linc_convert/modalities/wk/webknossos_annotation.py:55-64 | the documented table only has non-negative labels |
| WebknossosAnnotation.LabelTableLookup | linc_convert/modalities/wk/webknossos_annotation.py:55-64 | label v has an entry iff the dict has the key `str(v)`, and it maps to that key's value |
| WebknossosAnnotation.ToUint8 | linc_convert/modalities/wk/webknossos_annotation.py:108 | the stored value lies in [0, 256) and is congruent to the label modulo 256, so it wraps (label 256 is stored as 0, background) and equals the label whenever the label already fits |
| WebknossosAnnotation.FoundBordersValid | linc_convert/modalities/wk/webknossos_annotation.py:181-189 | every border list the search returns is the sentinel or four non-negative margins |
| WebknossosAnnotation.RelabellingOf | linc_convert/modalities/wk/webknossos_annotation.py:139 | relabelling is off exactly when the parsed dict is empty, whatever its keys |
| WebknossosAnnotation.ReadBlock | linc_convert/modalities/wk/webknossos_annotation.py:136-144 | with an empty dict the read always succeeds; otherwise it raises IndexError iff the block has no rows, and KeyError iff some label of a non-empty block is unmapped; a result is the block, relabelled cell by cell |
| WebknossosAnnotation.RelabelBlock | linc_convert/modalities/wk/webknossos_annotation.py:140 | relabelling a block with rows fails with KeyError iff some label in it has no entry; otherwise each cell holds its label's entry |
| WebknossosAnnotation.NonEmptyDictRelabels | linc_convert/modalities/wk/webknossos_annotation.py:139-144 | a non-empty dict none of whose keys names a label still switches relabelling on: a block with a cell raises KeyError and a block with no rows IndexError |
| WebknossosAnnotation.PlanSlice | linc_convert/modalities/wk/webknossos_annotation.py:129-141 | the sentinel gives the blank write; otherwise ValueError iff the scaled borders exceed the plane, else the relabelled block between the scaled borders; a planned block lies inside the plane |
| WebknossosAnnotation.WriteSlice | linc_convert/modalities/wk/webknossos_annotation.py:129-155 | the zero block of an unannotated slice raises ValueError iff the plane has no cells; otherwise, in one piece or by tiles, the plane ends as the plan's content; one write for the blank or small block, `ceildiv*ceildiv` writes otherwise |
| WebknossosAnnotation.SliceContent | linc_convert/modalities/wk/webknossos_annotation.py:129-155 | every stored value fits in uint8, and a pasted block sets exactly the cells of its rectangle |
| WebknossosAnnotation.SliceWrite | linc_convert/modalities/wk/webknossos_annotation.py:129-131 | writing a slice plan into a fresh plane fails with ValueError exactly when the plan is the 1x1 zero block and the plane has no cells (no broadcasting); otherwise the plane holds the plan's content |
| WebknossosAnnotation.BlankSliceIsOneZero | linc_convert/modalities/wk/webknossos_annotation.py:129-131 | a slice without annotation stores a single zero at (0, 0), and raises ValueError when the plane has no cells |
| WebknossosAnnotation.SliceInsidePlane | linc_convert/modalities/wk/webknossos_annotation.py:129-145 | every cell a planned slice writes lies inside the level's plane |
| WebknossosAnnotation.PasteCell | linc_convert/modalities/wk/webknossos_annotation.py:145 | a cell written by a pasted block lies in the block and stores the block's value there, cast to uint8 |
| WebknossosAnnotation.PasteKeepsLabels | linc_convert/modalities/wk/webknossos_annotation.py:136-145 | a pasted block stores at each cell the annotation label there (relabelled when a table is given), cast to uint8 |
| WebknossosAnnotation.SliceKeepsLabels | linc_convert/modalities/wk/webknossos_annotation.py:129-155 | inside a planned slice's block, each written cell holds the annotation label of that cell, relabelled and cast to uint8 |
| WebknossosAnnotation.SliceStep | linc_convert/modalities/wk/webknossos_annotation.py:128-156 | one slice's step gives its plan's content, or the error that planning or writing it raises |
| WebknossosAnnotation.FirstFailure | linc_convert/modalities/wk/webknossos_annotation.py:128-136 | when slice idx is the first to fail, every earlier slice succeeded, the level as a whole fails, and it fails with that slice's error |
| WebknossosAnnotation.AllSlicesWritten | linc_convert/modalities/wk/webknossos_annotation.py:124-156 | planes that match every slice's outcome make the level's array |
| WebknossosAnnotation.ConvertLevel | linc_convert/modalities/wk/webknossos_annotation.py:116-156 | a level succeeds iff every slice does; a failure carries the error of the first failing slice (`LevelFailsWith`); a success is the array `str(level)` of shape `[1, n, H, W]` and chunks `[1, 1, chunk, chunk]`, with each plane the content of its slice |
| WebknossosAnnotation.SliceBorders | linc_convert/modalities/wk/webknossos_annotation.py:79-85 | reading a lowest-level slice and finding its borders raises ValueError iff the plane has no cells; otherwise it gives a valid border list |
| WebknossosAnnotation.LowResOffsets | linc_convert/modalities/wk/webknossos_annotation.py:75-85 | the loop fails iff there is a slice and the lowest plane has no cells; otherwise it gives, in order, one valid border list per slice, each the borders of that slice |
| WebknossosAnnotation.DatasetStem | linc_convert/modalities/wk/webknossos_annotation.py:88 | the stem has no '/' |
| WebknossosAnnotation.StemOfZarrName | linc_convert/modalities/wk/webknossos_annotation.py:88 | `[:-9]` removes exactly the ".ome.zarr" of a dataset named `<name>.ome.zarr` |
| WebknossosAnnotation.Initials | linc_convert/modalities/wk/webknossos_annotation.py:89 | `[:2]` is the first two characters, or the whole component when it is shorter |
| WebknossosAnnotation.OutputFileName | linc_convert/modalities/wk/webknossos_annotation.py:90 | the file name reads back as the stem, "_dsec_", the initials and ".ome.zarr" |
| WebknossosAnnotation.FileNameShape | linc_convert/modalities/wk/webknossos_annotation.py:90 | a file name built from slash-free parts is slash-free and ends in ".ome.zarr" |
| WebknossosAnnotation.OutputName | linc_convert/modalities/wk/webknossos_annotation.py:88-90 | raises IndexError iff the annotation folder path has no '/'; otherwise the path is `dst`, a '/' unless `dst` is empty or ends in one, then `<stem>_dsec_<initials>.ome.zarr`, which is also its basename |
| WebknossosAnnotation.FirstSliceFailsUnique | linc_convert/modalities/wk/webknossos_annotation.py:128-136 | a level has at most one first failing slice, so the error of its slice loop is determined |
| WebknossosAnnotation.LevelErrorUnique | linc_convert/modalities/wk/webknossos_annotation.py:128-136 | a failing level raises a single error |
| WebknossosAnnotation.FailingLevelFollowsOk | linc_convert/modalities/wk/webknossos_annotation.py:116-156 | a failing level comes after every run of levels that all succeeded |
| WebknossosAnnotation.LevelsFailUnique | linc_convert/modalities/wk/webknossos_annotation.py:116-156 | a failing level loop raises a single error: that of the first failing slice of the first failing level |
| WebknossosAnnotation.ConvertAllLevels | linc_convert/modalities/wk/webknossos_annotation.py:116-156 | all levels succeed iff every slice of every level does; then there is one level array per level, each with that level's slices. A failure carries the error of the first failing slice of the first failing level, every earlier level having succeeded (`LevelsFailWith`) |
| WebknossosAnnotation.Convert | linc_convert/modalities/wk/webknossos_annotation.py:67-161 | with no levels, KeyError; otherwise the lowest-level borders, then the output name, then the levels, with the first failure ending the run: a failing level phase raises the error of the first failing slice of the first failing level; a success holds the output path, the dataset's multiscales attribute and one array per level built from the scaled borders of the lowest level, relabelled iff the parsed dict is non-empty |

## Left out

- Decoding JPEG2000, reading the pixel size, writing to disk and printing are left out. A
  decoder level is a shape plus a read-only cell function. A wkw mask is a total function
  from cells to labels, because reading outside the stored data gives zeros. Creating and
  removing directories (`rmtree`, `makedirs`) is not modelled.
- The compressor (`make_compressor`, `ast.literal_eval` of its options) and the fixed zarr
  options (`dimension_separator`, `order`, `dtype`, `fill_value`) are left out. Only the
  chunk list and the array shapes are kept.
- The orientation affine, `center_affine` and the serialisation of the NIfTI-2 header are
  left out. Only the header's data shape and slice thickness are modelled.
  `linc_convert/utils/orientation.py` is not part of this model.
- SingleSlice.Multiscales: uses exact real arithmetic rather than floating point, so
  rounding of the shape ratios is not modelled.
- Grid.CeilDiv: taken as the exact integer ceiling. `linc_convert/utils/math.py` is not
  part of this model.
- Grid.TiledCopy: requires a positive `max_load`, because a zero or negative value goes
  through `ceildiv`, whose code is not part of this model.
- SingleSlice.CopyLevel: requires a positive `max_load` (or none), for the same reason.
- WebknossosAnnotation.WriteSlice: requires a positive `max_load` (or none), for the same
  reason.
- WebknossosAnnotation.Convert: a dataset with no levels is modelled as the KeyError of
  `omz_data[nblevel-1]`. In the source, opening the mask dataset `get_mask_name(-1)` on
  line 73 comes first, and its failure depends on the wkw library. `n` and the level sizes
  are inputs, as are the mask volumes, one per level.
- WebknossosAnnotation.Convert: the multiscales attribute copied on line 161 is an opaque
  value, passed through unchanged.
- WebknossosAnnotation.Convert: `json.loads` itself (line 67) is not modelled. Its result is
  an input, a dict from keys to values. The corrected table only reads keys that are
  canonical decimal labels. A key such as "01" or " 1" names no label, although `int()`
  would accept it: it still turns relabelling on, but no lookup finds it. A JSON array,
  which line 140 would index by label, is not modelled.
- WebknossosAnnotation.PlanSlice: a negative block extent is modelled as ValueError, the
  error numpy raises for negative dimensions. How the wkw reader reports a negative shape
  is not modelled.
- zarr's `Array.__setitem__` is not part of this model. The model takes one rule from zarr
  2: an array value must have exactly the shape of its selection, with no broadcasting.
  So the 1x1 zero block of an unannotated slice raises ValueError on a level whose plane
  has no cells. Every pasted block has its selection's shape.
- Borders.RowSum: labels are unbounded naturals and the row sum is exact. numpy's `np.sum`
  on uint64 label data wraps modulo 2^64, so a row such as `[2^63, 2^63]` sums to 0 and
  `cal_distance` would take it as unlabelled. That wrap-around is not modelled.
- The `None` defaults of `wkw_dir`, `ome_dir`, `dst` and `dic` are not modelled. Every
  path and the dict text are strings. What a `None` argument does at its first use
  (`json.loads(None)` on line 67 raises TypeError; `os.path.join` on lines 72 and 90 and
  `split` on line 89 raise as well) is not modelled.
- A JSON `dic` that is neither an object nor an array, such as a number or a string, is
  not modelled. Only an object, read as a dict, is an input of the model.
- A failing run's partial output (arrays created and slices written before the exception)
  is not modelled: a failure is just the error.
- The command-line front ends (`cli.py`, cyclopts registration) are left out.

## Findings

| source | as written | input that shows it | evidently intended | confidence | as-written member | corrected member |
|---|---|---|---|---|---|---|
| linc_convert/modalities/wk/webknossos_annotation.py:140 | `dic[data[i][j]]` looks up an integer label in the dict that `json.loads` built on line 67. Every key of a JSON object is a string, so every lookup misses | `dic='{"1": 2}'` and a slice whose cropped block is `[[1]]`: KeyError | the docstring (lines 55-64) describes `dic` as mapping annotation values to standard values, so label 1 should become 2 | not executed; high that the lookup misses, medium on intent, since a JSON array would work as written | WebknossosAnnotation.RemapAsWritten, WebknossosAnnotation.JsonTableCounterexample | WebknossosAnnotation.LabelTable, WebknossosAnnotation.LabelTableLookup |

The rest of the model relabels through `LabelTable`: `WebknossosAnnotation.Convert` takes
the parsed dict. It relabels every level iff that dict is non-empty, looking labels up in
`LabelTable` of it (`WebknossosAnnotation.RelabellingOf`).
