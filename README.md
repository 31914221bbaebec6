# Image transform library (Dafny model)

This project models the small image-transform library at the top of
`notebooks/pythonProject/main.py`. An image is a numpy `uint8` array of
shape (height, width, channels), indexed `[row][col][channel]`. The library
has seven transforms:

- `rotate_image`: a 90° counterclockwise turn (`np.rot90`).
- `pad_image`: zero rows appended below and zero columns appended on the
  right, up to a target size. A negative padding amount is clamped to 0.
- `create_tiled_image`: the image repeated on a grid (`np.tile`).
- `create_flipped_image`: the column order reversed (`image[:, ::-1]`).
- `create_color_filtered_image`: a copy of the image, then each of the
  channels 0, 1 and 2 that is not in the keep-list set to zero, one channel
  per loop step.
- `concatenate_images`: a list of images joined along one axis
  (`np.concatenate`).
- `create_red_shirt_image`: a mask of the pixels whose R, G and B each lie
  in an inclusive range, then every masked pixel of the argument
  overwritten in place with `(255, 0, 0, 255)`. The same buffer is
  returned.

Modules:

- `Images` (`images.dfy`) holds the buffer value `Image`. Its shape is
  stored explicitly, so an image with no rows still has a width and a
  channel count, as an ndarray does. Samples have the subset type `u8`
  (0..255), so every transform is checked to stay within the byte range.
  The module also has `Snapshot`, which reads a mutable `array3<u8>` as an
  `Image`, and the extensionality lemma used by the equality proofs.
- `Geometry` (`geometry.dfy`) has `Flip`, `Rotate` and `Pad` as pure
  functions. In numpy the flip and the rotation return views that share
  memory with their argument; only the padding allocates. `Rotate` is built the way numpy builds `rot90`: the transpose
  of the image flipped along axis 1. The index formula and the four-turn
  identity are then proved from that definition.
- `Compositing` (`compositing.dfy`) has `Tile`, built from repetition, and
  `Concatenate`, built by joining the list pairwise.
  `TryConcatenate` returns numpy's three failures as error values.
- `Color` (`color.dfy`) has the two imperative operations as methods on
  `array3<u8>`. `ColorFilter` allocates a fresh copy (`Copy`) and runs the
  channel loop. Each channel is zeroed with a `forall` slice assignment
  (`ZeroChannel`). `RedShirt`
  computes a `bool` mask array and then assigns through it in place. Each
  method is proved equal to a specification function (`Filtered`,
  `Recolored`), and the properties are proved about those functions.
- `RotationStrip` (`rotation_strip.dfy`) models the driver's rotation panel
  at lines 79-82. It exists for the finding below.

Shape and channel errors are preconditions: a mismatched concatenation, a
recolor on a buffer without four channels, and a filter that zeroes a
channel the buffer lacks. Concatenation also has the `Result`-returning
`TryConcatenate`, which reports the error instead.

## Model

| member | source | states |
|---|---|---|
| Geometry.Flip | notebooks/pythonProject/main.py:25-27 | the flipped image has the same height, width and channel count |
| Geometry.FlipAt | notebooks/pythonProject/main.py:27 | `out[i][j][k] == in[i][W-1-j][k]` |
| Geometry.FlipTwice | notebooks/pythonProject/main.py:25-27 | flipping twice gives back the original image |
| Geometry.Transpose | notebooks/pythonProject/main.py:10 | the axis swap inside `np.rot90` gives shape (W, H, C) |
| Geometry.Rotate | notebooks/pythonProject/main.py:8-10 | a quarter turn gives shape (W, H, C) |
| Geometry.RotateAt | notebooks/pythonProject/main.py:8-10 | `out[i][j][k] == in[j][W-1-i][k]`, which is the counterclockwise turn |
| Geometry.RotateTwiceAt | notebooks/pythonProject/main.py:8-10 | two turns mirror both spatial indices |
| Geometry.RotateFourTimes | notebooks/pythonProject/main.py:8-10 | four turns give back the original image |
| Geometry.PadAmount | notebooks/pythonProject/main.py:15-16 | `max(target - current, 0)`: never negative, and it reaches the target exactly unless the axis is already at least that long |
| Geometry.Pad | notebooks/pythonProject/main.py:13-17 | the output shape is (max(H, th), max(W, tw), C); the channel axis is not padded |
| Geometry.PadAt | notebooks/pythonProject/main.py:17 | the top-left H×W region equals the input; every added row or column is 0 |
| Geometry.PadIdentity | notebooks/pythonProject/main.py:14-17 | with both targets no larger than the current size, pad returns the image unchanged |
| Compositing.RepeatSeq | notebooks/pythonProject/main.py:22 | n repetitions have length n·len, and element j is element j mod len of the input |
| Compositing.Tile | notebooks/pythonProject/main.py:20-22 | the output shape is (r·H, c·W, C) |
| Compositing.TileAt | notebooks/pythonProject/main.py:22 | `out[i][j][k] == in[i mod H][j mod W][k]` |
| Compositing.TileBlock | notebooks/pythonProject/main.py:20-22 | each block (a, b) of the r×c grid lies inside the output and equals the input |
| Compositing.Join | notebooks/pythonProject/main.py:46 | joining two images along an axis adds their extents; the first image is the slab at 0, the second the slab after it |
| Compositing.ConcatenateAlong | notebooks/pythonProject/main.py:44-46 | the extent along the axis is the sum of the inputs' extents; the other axes keep the inputs' common extent |
| Compositing.NormalizeAxis | notebooks/pythonProject/main.py:46 | axes -3..2 map to 0..2, with a negative axis counted from the end |
| Compositing.Concatenate | notebooks/pythonProject/main.py:44-46 | the summed extent along the normalised axis; the other axes agree with the inputs |
| Compositing.ConcatenateSlabs | notebooks/pythonProject/main.py:44-46 | the inputs appear in order as consecutive slabs; input n starts at the summed extent of those before it and equals its source |
| Compositing.ConcatenateUnique | notebooks/pythonProject/main.py:44-46 | a buffer with the summed extent that holds every input as its slab is the concatenation, so the slabs determine the result |
| Compositing.TryConcatenate | notebooks/pythonProject/main.py:44-46 | returns `NoImages` for an empty list, `AxisOutOfBounds` for an axis outside -3..2, and `ShapeMismatch` when the inputs disagree on another axis; succeeds exactly when the inputs agree on every other axis, and then returns the concatenation |
| Color.Filtered | notebooks/pythonProject/main.py:30-36 | the filtered image keeps the input's shape |
| Color.Copy | notebooks/pythonProject/main.py:32 | returns a fresh buffer with the same shape and the same samples as the input |
| Color.ZeroChannel | notebooks/pythonProject/main.py:35 | the one channel plane becomes 0 and every other sample keeps its old value |
| Color.ColorFilter | notebooks/pythonProject/main.py:31-36 | returns a freshly allocated buffer, leaves the argument unmodified, and equals `Filtered` of the input |
| Color.FilteredAt | notebooks/pythonProject/main.py:33-35 | each channel 0..2 not in the filter is 0; filtered-in channels and channel 3 (alpha) are unchanged |
| Color.EmptyFilterClearsColor | notebooks/pythonProject/main.py:31-36 | an empty filter zeros all of R, G and B and leaves alpha unchanged |
| Color.FullFilterIsIdentity | notebooks/pythonProject/main.py:33-35 | a filter that keeps 0, 1 and 2 returns the input unchanged |
| Color.FilterIdempotent | notebooks/pythonProject/main.py:31-36 | filtering twice with the same list is the same as filtering once |
| Color.FiltersCommute | notebooks/pythonProject/main.py:31-36 | two filters applied in either order give the same image |
| Color.Recolored | notebooks/pythonProject/main.py:50-59 | the recolored image keeps the input's shape |
| Color.RedShirt | notebooks/pythonProject/main.py:50-59 | needs 4 channels; mutates its argument in place and returns that same buffer, whose new contents are `Recolored` of the old contents |
| Color.RecoloredAt | notebooks/pythonProject/main.py:51-58 | a pixel with R∈[75,110], G∈[5,45] and B∈[225,255] (inclusive) becomes exactly (255,0,0,255), alpha included; every other pixel is unchanged |
| Color.RecolorLeavesNoMatch | notebooks/pythonProject/main.py:51-58 | after the recolor, no pixel lies in the color range |
| Color.RecolorIdempotent | notebooks/pythonProject/main.py:50-59 | recoloring a second time changes nothing |
| RotationStrip.MaxBounds | notebooks/pythonProject/main.py:80 | every panel fits within the maximum height and the maximum width |
| RotationStrip.PadAll | notebooks/pythonProject/main.py:81 | every padded panel has exactly the maximum height and width and keeps its channel count |
| RotationStrip.PaddedStrip | notebooks/pythonProject/main.py:80-82 | the strip is as tall as the tallest panel and n times the widest panel wide |
| RotationStrip.AsWrittenPanelsRepeat | notebooks/pythonProject/main.py:79-82 | as written, all four panels are one quarter turn; the strip is W by 4H; on a non-square image the second panel is not the half turn |
| RotationStrip.PanelsTurn | notebooks/pythonProject/main.py:79 | corrected: each panel is the previous one turned once more, and the fourth is the input |
| RotationStrip.StripShape | notebooks/pythonProject/main.py:79-82 | corrected: the strip is four M×M squares side by side, with M = max(H, W) |

## Findings

| source | as written | input that shows it | evidently intended | confidence | as-written member | corrected member |
|---|---|---|---|---|---|---|
| notebooks/pythonProject/main.py:79 | `rotate_image(np_image)` is applied to the original image all four times, so the four panels are the same quarter turn | any non-square image, e.g. 1×2: every panel is 2×1, and the padding at lines 80-81 has nothing to do | panels turned by 90°, 180°, 270° and 360°, which differ in shape on a non-square image and so need the padding to the common M×M size | medium; not executed | RotationStrip.AsWrittenPanelsRepeat | RotationStrip.StripShape |

The comments at lines 49 and 58 say the alpha channel is preserved. The code
writes the full four-sample pixel `[255, 0, 0, 255]`, so alpha becomes 255.
The model follows the code (`Color.RecoloredAt`).

## Left out

- `create_enlarged_image` (lines 39-41) is not modelled. It calls `scipy.ndimage.zoom`, which does floating-point spline interpolation with rounding that is not visible here.
- `process_images` (lines 63-95) is not modelled, except for the rotation panel at lines 79-82. It loads a file with PIL, calls the zoom and displays results with matplotlib. Its other shape arithmetic follows from the shape contracts of the functions it calls.
- The path construction and the module-level call (lines 99-100) are file I/O and are left out.
- numpy's exceptions are preconditions, except in `Compositing.TryConcatenate`. These are: a concatenation whose other axes do not match, a recolor on a buffer whose channel count is not 4, and a filter that zeroes a channel the buffer lacks (`IndexError`).
- Compositing.Tile: the repetition counts are `nat`, so the model does not cover negative counts, which numpy rejects.
- Compositing.Concatenate: the model covers only axes -3..2. It leaves out `axis=None`, which flattens the inputs, and inputs of a rank other than 3.
- Dtype promotion is not modelled. Every buffer here is `uint8`, and every value the transforms write (0, 255) is in range.
- Color.RedShirt: aliasing is modelled only as "the result is the argument". The model does not track other references a caller may hold to the same buffer.
- Geometry.Flip: the result is a value, not a view. `image[:, ::-1]` shares memory with its argument, so a later in-place write through the result (such as `create_red_shirt_image`) also changes the original. That aliasing is not captured.
- Geometry.Rotate: the result is a value, not a view. `np.rot90` returns a view of its argument, and the aliasing through that view is not captured, as for `Geometry.Flip`.
