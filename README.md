# Annotation rescaling, modelled in Dafny

This project models the core of a dataset preprocessing script (`run.py`, class
`Resize`). The script rescales COCO-style annotation documents from 2024×2024
images to 2048×2048. The model covers these parts:

- the geometry rescalers `_area`, `_bbox` and `_segmentation`;
- the document transform of `resize_json`, starting from an already parsed
  document;
- `load_file_list`, which filters a directory listing by suffix;
- the `.tiff` → `.jpg` rewrite of the output path in `save_image`.

Modules:

- `Numeric` (numeric.dfy): the two roundings the script uses.
  - `Trunc` models Python's `int()`, which truncates toward zero.
  - `RoundHalfEven` models numpy's `round_`, which rounds to nearest with ties
    to even. It is specified by `IsNearestEven`, and that specification is
    shown to determine the result uniquely.
- `Outcomes` (outcomes.dfy): the one failure the modelled code can raise
  (`IndexError` for a short bounding box), carried in a `Result`.
- `Document` (document.dfy): the parsed document.
  - Image records are JSON objects (`map<string, Value>`).
  - Annotation records type the three geometry fields and keep every other
    key in `others`.
  - A document has the five top-level keys the script reads, plus `rest` for
    any other top-level keys.
  - `WellFormed` says that each key is held in one place only. Documents are
    assumed to meet it, and `ResizeJson` preserves it.
- `Geometry` (geometry.dfy): `_area`, `_bbox`, `_segmentation`.
  - Even positions of a coordinate list are scaled by the width rate and odd
    positions by the height rate.
  - `_segmentation` is a method. Each polygon is copied into a fresh array,
    scaled in place with two strided loops, and rounded in place. The method
    is proved equal to the functional specification `ScaledSegmentation`.
- `Resizer` (resize.dfy): `resize_json` as a method with the script's two
  appending loops. Its specification uses the per-record functions
  `ResizedImage` and `ResizedAnnotation`. The rate is 2048/2024 on both axes.
- `Files` (files.dfy): `load_file_list` and the output-path rewrite of
  `save_image`.
  - `load_file_list` is a method with its loop. It is proved equal to
    `Listed`, and `Listed` is shown to keep exactly the names that `Filter`
    keeps.
  - The rewrite is `str.replace` on a pattern whose first character does not
    recur in it. Each `.tiff` becomes `.jpg`, and the text around it is
    rewritten on its own.

All arithmetic uses Dafny's `real`, so values are exact rationals. The model
ignores IEEE-754 representation error. In particular, the float value of
`2048/2024` and the binary value numpy rounds are not modelled (see "## Left out"
for where this changes a result).

Three behaviours of the code that are easy to misread:

- `_area` truncates toward zero with `int()`. It does not take the floor, so
  the two differ for negative products.
- `_bbox` accepts a box longer than four entries and keeps only the first
  four. A box shorter than four raises `IndexError`.
- A polygon of odd length has its last entry scaled as an x-coordinate.

## Model

| member | source | states |
|---|---|---|
| `Numeric.Trunc` | run.py:64 | `int(x)` truncates toward zero: for x ≥ 0 the result is the largest integer ≤ x, for x < 0 the smallest integer ≥ x |
| `Numeric.RoundHalfEven` | run.py:68 | numpy rounding: the result is within 1/2 of x, and on a tie it is even |
| `Numeric.NearestEvenUnique` | run.py:78 | at most one integer is nearest to x with ties to even, so the rounding is fully specified |
| `Numeric.RoundHalfEvenIsNearestEven` | run.py:78 | every integer that meets the rounding specification equals `RoundHalfEven(x)` |
| `Numeric.RoundOfInteger` | run.py:78 | rounding leaves an integral value unchanged |
| `Numeric.RoundMonotone` | run.py:78 | rounding is monotone: x ≤ y implies round(x) ≤ round(y) |
| `Numeric.TruncMonotone` | run.py:64 | truncation toward zero is monotone |
| `Geometry.Area` | run.py:63-65 | `_area` is `area*rate` truncated toward zero: for a non-negative product it is the floor, for a negative one the ceiling |
| `Geometry.AreaMonotone` | run.py:63-65 | for rate > 0, a ≤ b implies `_area(a) ≤ _area(b)` |
| `Geometry.Bbox` | run.py:67-70 | `_bbox` fails with IndexError exactly when the box has fewer than 4 entries; otherwise it returns exactly 4 integral values, where entries 0 and 2 are the nearest-even rounding of the entry times the width rate and entries 1 and 3 use the height rate |
| `Geometry.BboxIsPolygonPrefix` | run.py:67-70 | a box is rescaled exactly as the polygon made of its first four entries, with no special case |
| `Geometry.ScaledPolygon` | run.py:75-79 | a rescaled polygon has the input's length; entry k is integral and is the nearest-even rounding of the input entry times the width rate for even k, or times the height rate for odd k |
| `Geometry.ScaledSegmentation` | run.py:72-80 | the rescaled segmentation has as many polygons as the input, in order, and polygon i is the rescaled input polygon i |
| `Geometry.StridesRescalePolygon` | run.py:76-78 | scaling the even positions by the width rate, then the odd positions by the height rate, then rounding every entry gives exactly the rescaled polygon |
| `Geometry.ScaleStrided` | run.py:76-77 | `seg_array[start::2] *= factor` multiplies the entries of the chosen parity in place and leaves the others alone |
| `Geometry.RoundAll` | run.py:78 | `seg_array = np.round_(seg_array, 0)`: afterwards every entry is the nearest-even rounding of its old value. numpy returns a new rounded array bound to the same name; the model writes the rounded values back into the fresh array, which nothing else references, so no one can observe the difference |
| `Geometry.RescalePolygon` | run.py:74-79 | one loop iteration (fresh array, two strided scalings, rounding, `tolist`) yields the specified rescaled polygon |
| `Geometry.Segmentation` | run.py:72-80 | `_segmentation` returns one polygon per input polygon, in order, each of the input's length, with every entry rescaled by the axis rate of its position's parity |
| `Resizer.RateMapsSourceToTarget` | run.py:98-104 | over exact rationals, `rate = 2048/2024` carries the assumed source size 2024 exactly onto the size 2048 written into the image records (in doubles `2024 * rate` is 2047.9999999999998), and it enlarges (rate > 1) |
| `Resizer.ResizedImage` | run.py:100-105 | a resized image record has the input's keys plus `width` and `height`, both 2048, and every other key keeps its value |
| `Resizer.ResizedAnnotation` | run.py:107-114 | a resized annotation fails exactly when its box is shorter than 4 entries; otherwise its other keys are unchanged, its box has 4 rescaled entries, every polygon keeps its length and is rescaled entrywise, and its area is the truncated integer `area*rate` |
| `Resizer.ResizeJson` | run.py:82-116 | `resize_json` fails with IndexError exactly when some annotation's box is short; otherwise the output has only the five top-level keys, `categories`/`info`/`metainfo` unchanged, and images and annotations of the same number and order, each resized with rate 2048/2024; a well-formed input document gives a well-formed output |
| `Resizer.RescaledCoordinateInFrame` | run.py:98-104 | with rate 2048/2024, a coordinate in [0, 2024] lands in [0, 2048] and 2024 maps to 2048, consistent with the new image size |
| `Resizer.SmallCoordinateRoundsToZero` | run.py:98-111 | with rate 2048/2024, every coordinate strictly between -0.49 and 0.49 rescales to 0 |
| `Resizer.WorkedExample` | run.py:98-114 | box [0.1, 0.2, 0.3, 0.4] and polygon [0.1, 0.1, 0.2, 0.2] rescale to zeros, and area 100 becomes 101 |
| `Resizer.SmallPolygonRoundsToZero` | run.py:72-80 | with rate 2048/2024, a four-entry polygon with every coordinate strictly between -0.49 and 0.49 rescales to zeros |
| `Resizer.WorkedBox` | run.py:67-70 | box [0.1, 0.2, 0.3, 0.4] rescales to [0, 0, 0, 0] |
| `Resizer.WorkedSegmentation` | run.py:72-80 | segmentation [[0.1, 0.1, 0.2, 0.2]] rescales to [[0, 0, 0, 0]] |
| `Resizer.WorkedArea` | run.py:63-65 | area 100 becomes `int(100 * 2048 / 2024)` = 101 |
| `Resizer.RescaleTwiceOvershoots` | run.py:98-111 | rescaling is not idempotent: 2024 becomes 2048 once and 2072 twice |
| `Files.EndsWithIsSuffix` | run.py:141 | `name.endswith(suffix)` holds exactly when the name is some string followed by the suffix |
| `Files.Filter` | run.py:140-146 | the kept names are no more than the listed ones, and each kept name is listed and ends with the suffix |
| `Files.FilterComplete` | run.py:140-146 | every listed name ending with the suffix is kept |
| `Files.FilterAppend` | run.py:140-146 | filtering a concatenated listing concatenates the filtered parts, so kept names stay in listing order |
| `Files.Join` | run.py:142 | the joined path ends with the name, and starts with the directory unless the name is absolute |
| `Files.ReplaceChar` | run.py:143 | single-character replace keeps the length and changes exactly the matching characters |
| `Files.FullName` | run.py:142-143 | the full name has the length of the joined path; each character is the joined path's character, with a backslash turned into a slash; no backslash remains |
| `Files.Listed` | run.py:140-146 | the three lists built from a listing are parallel and no longer than the listing |
| `Files.ListedNames` | run.py:140-146 | the names collected are exactly the listed names ending with the suffix, in listing order |
| `Files.ListedPaths` | run.py:140-146 | every directory entry collected is `file_path` |
| `Files.ListedFullNames` | run.py:140-146 | each full name collected is the full name of the name at the same position |
| `Files.LoadFileList` | run.py:132-148 | the loop builds exactly the lists `Listed` describes; the three lists are parallel; the names are exactly the filtered listing; every directory entry is `file_path`; every full name is the joined path with backslashes turned into slashes and contains no backslash |
| `Files.ReplaceAllLength` | run.py:33 | `str.replace` with a replacement no longer than the pattern never lengthens the string, and with one no shorter never shortens it; so the `.tiff` → `.jpg` rewrite never lengthens the path |
| `Files.ReplaceAllNoMatch` | run.py:33 | `str.replace` leaves a string without an occurrence of the pattern unchanged |
| `Files.SaveImagePath` | run.py:32-33 | the image output path contains no `.tiff`; a path without `.tiff` is used as is; what each `.tiff` becomes is stated by `TiffSplits` |
| `Files.ReplaceAllStep` | run.py:33 | one step of `str.replace`'s left-to-right scan: an occurrence at the front is replaced, otherwise the first character is kept |
| `Files.NoMatchBeforePattern` | run.py:33 | text not starting with a pattern whose first character does not recur in it still does not start with it when the pattern follows |
| `Files.ReplaceAllSplits` | run.py:33 | for a pattern whose first character does not recur in it, `str.replace` maps `a + pat + b` to the rewrite of `a`, then the replacement, then the rewrite of `b` |
| `Files.TiffSplits` | run.py:33 | `TiffToJpg`, the `.tiff` → `.jpg` rewrite: every `.tiff` becomes `.jpg` wherever it stands, and the text before and after it is rewritten independently; with `ReplaceAllNoMatch` this fixes the rewrite of every path |
| `Files.TiffSuffixBecomesJpg` | run.py:33 | a path ending in `.tiff` ends in `.jpg` after the rewrite, and the part before it is rewritten independently |
| `Files.TiffInDirectoryRewritten` | run.py:32-33 | a `.tiff` in the directory part is rewritten too: saving `a.png` under `out.tiff` writes to `out.jpg/a.png` |
| `Files.OutTiffRewritten` | run.py:33 | the rewrite of `out.tiff/a.png` is `out.jpg/a.png` |
| `Files.NoTiffRemains` | run.py:33 | after the rewrite no `.tiff` is left anywhere in the string |

## Left out

- Image decoding, resizing and encoding (`load_image`, `resize`, `resize_image`, and the `cv2.imencode` and file write of `save_image`): these are calls into OpenCV and numpy pixel resampling. Only the path rewrite of `save_image` is modelled.
- Reading and writing JSON (`load_json`, `save_json`): this is file I/O and serialisation. `ResizeJson` starts from a parsed `Doc`.
- `make_dir`: a filesystem side effect whose failures are swallowed, so nothing can be stated about it.
- `os.listdir`: the directory listing is a parameter of `LoadFileList`, in the order the listing returns.
- `os.path.join` on Windows (`ntpath`): `Join` follows the POSIX rules for two components.
- The `run` driver and the `__main__` block: these are I/O orchestration. The driver reads and writes each `.json` name kept by `load_file_list` under the same name.
- Malformed documents: a missing key (`KeyError`), a non-list `segmentation` such as COCO's run-length-encoded crowd masks, and non-numeric coordinates are excluded by the typed `Doc`/`Annotation` model. The only malformed input modelled is a bounding box shorter than four entries.
- Area, Bbox, Segmentation: the non-finite cases are not modelled. Python's `json` accepts `NaN`, `Infinity` and `-Infinity`. `int()` at run.py:64 then raises `ValueError` (NaN) or `OverflowError` (±inf). A finite area near 1.8e308 also overflows to inf once multiplied by the rate. `np.round_` passes NaN and ±inf through into the box and the polygons. `real` has no such values, so these error paths and results are absent.
- Documents are assumed `WellFormed` (document.dfy): no `bbox`, `segmentation` or `area` key in an annotation's `others`, and none of the five top-level keys in `rest`. In the script a dictionary key cannot occur twice.
- Python keeps integer and float JSON numbers apart. Bbox and segmentation coordinates are read as reals; the products are floats in Python anyway. The output area is an integer, as in the source.
- Area: `int()` truncation at run.py:64 can differ from the model wherever the exact product `area * 2048/2024` is an integer. The double nearest 2048/2024 is 1.0118577075098814, which lies just below 256/253. So in the script `_area(2024, rate)` is 2047 and `_area(253, rate)` is 255, while `Area` gives 2048 and 256 here. Every multiple of 253 is a candidate for this off-by-one.
- Floating point: every product is exact here. A product whose double value and exact value lie on different sides of an integer (for `int()` at run.py:64, as in the `Area` line above) or of a .5 boundary (for `np.round_` at run.py:68/78) can give a different result here. numpy's `-0.0` results are plain `0.0` here.
- Key order of image records: an image is a `map<string, Value>`, so the insertion order that `json.dump` writes is not modelled (for example, `width` and `height` are appended at the end of a record that lacked them).
- NumPy version: `RoundHalfEven` models `np.round_` as it exists in NumPy 1.x. NumPy 2.0 removed `round_`, and there run.py:68 and run.py:78 raise `AttributeError`; that failure is not modelled.
- Shallow copying with `copy.copy` and the list aliasing it allows are not modelled: records are values, so the input document is trivially left unchanged.
