# pupil.js marker detector, modelled in Dafny

This project models the core of `pupil.js`, a fiducial-marker ("AR tag")
detector for the browser:

- **The marker codec.** `AR.Marker.generate` lays an integer id out as a
  square black-and-white grid. The grid has a black outer ring. Four
  orientation cells carry the id's top bit, and the remaining bits fill the
  other interior cells, most significant first, in row-major order. The
  decode half of `getMarker` reads a 3x3 interior back into an id and the
  number of quarter turns that normalise it.
- **The reader.** `getMarker` works from the white-pixel count of each of
  the 25 cells of a rectified, thresholded 5x5 image. It checks the black
  border, samples the interior by majority vote, decodes it, and shifts
  the candidate's corners with `rotate2`.
- **The candidate pipeline.** `findCandidates` approximates every long
  contour and keeps the convex quads with long enough edges.
  `clockwiseCorners` fixes the corner winding in place. `notTooNear` flags
  and drops near-duplicate candidates.

The modules follow the program's structure:

- `Util`: Option, Result, filters over flag sequences.
- `Grid`: square grids, the quarter turn of `rotate`, `transpose`.
- `Codec`: `generate` as a method, and the decoder as the function
  `DecodeInner`.
- `Geometry`: points, the winding test, and the near-duplicate rule as an
  independent specification.
- `Reader`: the whole of `getMarker` as a function of the cell counts.
- `Detection`: the class `Polygon` (the corner array and its `tooNear`
  flag, both changed in place), the class `Detector`, whose methods follow
  the source's loops, and the lemmas tying the methods to the
  specification functions.

Each imperative method is proved to compute a specification function:

- `Generate` returns `EncodedGrid` or the error the source throws.
- `DecodeBits` returns `DecodeInner`.
- `GetMarker` returns `ReadMarker`.
- `Rotate` returns `Rotated`, and `Rotate2` returns `CyclicShift`.
- `FindCandidates` records `Approximations` and returns the qualifying
  ones.
- `ClockwiseCorners` applies `AllOriented`.
- `NotTooNear` flags exactly the polygons that `Excluded` names.
- `DetectCandidates` chains the three stages as `detect` does, and leaves
  the `Survivors` of the oriented candidates in `candidates`.

The properties are then proved about those functions. They include:

- the round trip through encode and decode;
- rotation invariance;
- both directions of the rule for when a read fails;
- the swap, permutation and idempotence facts of the winding fix;
- the plain-words form of the near-duplicate rule.

Two details of the code are worth stating outright:

- **The orientation cells.** The code writes `1 - msb` into interior cells
  (1,1), (1,n) and (n,n), and `msb` into (n,1), the bottom left
  (`pupil.js:49-52`). The layout comment at `pupil.js:19-22` draws the
  same: the odd cell out is the bottom-left one.
- **The reported turn count.** For a marker turned r times clockwise, the
  decoder reports the turns that undo the turning, `(4 - r % 4) % 4`,
  and not r itself (`Codec.RotatedMarkerDecodes`).

## Model

| member | source | states |
|---|---|---|
| Codec.MarkerSize | pupil.js:29 | the size defaulting of `generate` on a natural size: a missing (0) size means the default side of 5, any other size is kept |
| Codec.Bitdepth | pupil.js:32 | `(size - 2)^2 - 3`; `BitdepthSign` states its sign |
| Codec.Overflows | pupil.js:33 | `id >= Math.pow(2, bitdepth)`: at least `2^bitdepth` for a non-negative bitdepth, and at least 1 for a negative one, where the power is a fraction; `Generate` fails on it |
| Codec.Generate | pupil.js:17-61 | fails exactly when the id overflows `2^bitdepth` (a negative bitdepth makes every id but 0 overflow) or the bitdepth is negative; the error is the ID overflow with the capacity, or the invalid array length; otherwise the result is the marker grid of the id, at side 5 when `s` is 0 and at side `s` otherwise |
| Codec.ZeroGrid | pupil.js:35-38 | a size x size grid of zeros |
| Codec.IdBits | pupil.js:40-44 | the countdown loop yields the `bitdepth` low bits of the id, the last position holding the least significant one |
| Codec.FillInterior | pupil.js:46-57 | the fill loops turn the zero grid into the marker layout: `1 - msb` and `msb` in the orientation cells, the remaining bits in row-major order |
| Codec.FillRow | pupil.js:48-56 | one pass of the inner loop writes the cells of row i and consumes exactly that row's message bits from the queue |
| Codec.FillCell | pupil.js:49-55 | one cell: an orientation cell gets `1 - msb` or `msb`, any other takes the head of the queue |
| Codec.Bits | pupil.js:40-44 | n bits, each 0 or 1 |
| Codec.ValueOfBits | pupil.js:40-44 | an id below 2^n is recovered from its n bits |
| Codec.BitsOfValue | pupil.js:40-44 | every 0/1 sequence is the bit pattern of the number it denotes |
| Codec.TopBit | pupil.js:41-46 | the bit `msg.shift()` removes is set exactly when id >= 2^(bitdepth-1) |
| Codec.BitdepthSign | pupil.js:32 | `(size-2)^2 - 3` is positive exactly for sizes of at least 4, and negative below |
| Codec.RowStartTotal | pupil.js:47-57 | the interior holds n*n - 4 message cells, one per remaining bit, so `msg.shift()` runs out exactly at the last cell |
| Codec.MsgIndexIncreasing | pupil.js:47-57 | message cells are numbered strictly increasing in row-major order: no two get the same bit, and earlier cells get more significant bits |
| Codec.MessageCell | pupil.js:53-55 | every remaining bit k has a message cell that receives it |
| Codec.EncodedGridBinary | pupil.js:35-57 | every marker is black and white, with a black outer ring |
| Codec.EncodedOrientation | pupil.js:49-52 | cells (1,1), (1,n) and (n,n) agree and (n,1) differs; (n,1) holds the id's top bit |
| Codec.EncodedMessageBit | pupil.js:53-55 | remaining bit k of the id sits in its message cell |
| Codec.CellValue | pupil.js:49-55 | the colour `generate` gives cell (i, j); its properties are stated by `FillCell`, `FillInterior`, `MsgIndexIncreasing` and `MessageCell` |
| Codec.MarkerGrid | pupil.js:35-57 | a square grid of the given side; what its cells hold is stated by `EncodedGridBinary`, `EncodedOrientation`, `EncodedMessageBit` and `InnerFiveBits` |
| Codec.EncodedGrid | pupil.js:17-57 | the marker of an id, a square grid of the given side; `Generate` computes it, and `RoundTrip` and `OnlyEncodedDecodesUnturned` make the decoder its inverse |
| Codec.OrientationCorners | pupil.js:186 | the four orientation cells, top-left, top-right, bottom-right, bottom-left, each 0 or 1; `DecodeRejects`, `UnturnedCorners` and `CornersOfRotated` state what they decide |
| Codec.RotationsFor | pupil.js:198-202 | the turn count read off three white corners and a black one; `UnturnedCorners` and `OrientationTurned` state what it means |
| Codec.Orientation | pupil.js:186-202 | a read gives a parity of at most 1 and fewer than four turns; `DecodeRejects` states when it fails, `UnturnedCorners` and `OrientationTurned` how it answers |
| Codec.DecodeInner | pupil.js:186-219 | the decoder; a found id comes with fewer than four turns; `DecodeBits` computes it, and `DecodeRejects`, `DecodedIdBound`, `DecodeReadsTurnedGrid`, `RoundTrip` and `DecodeRotated` state its properties |
| Codec.DecodeRejects | pupil.js:186-196 | decoding fails exactly when the four orientation cells sum to 0, 2 or 4 |
| Codec.DecodedIdBound | pupil.js:215-219 | every decoded id is below 64 |
| Codec.TurnedCellIsRotateN | pupil.js:208-210 | the closed-form cell read of the turned grid is the cell of the grid turned k times with `rotate` |
| Codec.DecodeReadsTurnedGrid | pupil.js:198-219 | the decoded id is the parity followed by the cells (0,1), (1,0), (1,1), (1,2), (2,1) of the grid turned the reported number of times |
| Codec.PayloadId | pupil.js:215-219 | the shift-and-add of the parity and the five non-corner cells of the turned grid; `PayloadOfTurned` ties it to the grid `rotate` produces, and `DecodedIdBound` bounds it |
| Codec.PayloadOfTurned | pupil.js:215-219 | the shift-and-add of the five payload cells of the turned grid is the payload id |
| Codec.InnerFiveBits | pupil.js:46-57 | the 3x3 interior of a size-5 marker carrying six bits is the fixed layout of those bits |
| Codec.DecodeLayout | pupil.js:186-219 | that layout of six 0/1 bits decodes, unturned, to the number they denote |
| Codec.RoundTrip | pupil.js:186-219 | the interior of the size-5 marker for any id below 64 decodes to that id with zero turns |
| Codec.OnlyEncodedDecodesUnturned | pupil.js:186-219 | the converse: a 3x3 grid that decodes unturned to an id is the interior of that id's marker |
| Codec.UnturnedCorners | pupil.js:199-202 | corners that need no turn are three of one colour with the odd one at the bottom left, and it holds the parity |
| Codec.CornersOfRotated | pupil.js:224-233 | a quarter turn moves each orientation corner one place clockwise |
| Codec.OrientationTurned | pupil.js:186-202 | moving the corners one place clockwise keeps the parity and adds three, modulo four, to the reported turns |
| Codec.TurnedCellOfRotated | pupil.js:208-210 | reading a turned grid with three more turns, modulo four, reads the same cells |
| Codec.DecodeRotated | pupil.js:186-219 | a quarter turn keeps the decoded id (or the failure) and adds three, modulo four, to the reported turns |
| Codec.UnturnedRotated | pupil.js:198-219 | a grid read unturned as an id, turned r times, reads as the same id with (4 - r mod 4) mod 4 turns |
| Codec.RotatedMarkerDecodes | pupil.js:198-219 | rotation invariance: every turn of an encoded interior decodes to its id, with the turns that undo it |
| Codec.MarkerFive | pupil.js:17-57 | the interior of the marker for id 5, written out |
| Codec.MarkerFiveTurned | pupil.js:186-219 | that interior turned once decodes to id 5 with three turns |
| Grid.Rotated | pupil.js:224-233 | the quarter turn, a square grid of the same side; `Detection.Detector.Rotate` computes it, and `HalfTurn`, `FourRotationsRestore`, `RotatedIsTransposeOfFlip`, `RotatedBinary`, `RotatedBorderBlack` and `InnerOfRotated` state its properties |
| Grid.RotateN | pupil.js:208-210 | the loop of k quarter turns, a square grid of the same side; `RotateNAdd`, `RotateNMod4`, `FourQuarterTurns` and `TurnedCellIsRotateN` state its properties |
| Grid.Transpose | pupil.js:235-241 | a grid with rows and columns exchanged; `TransposeTwice` and `RotatedIsTransposeOfFlip` state its properties |
| Grid.TransposeTwice | pupil.js:235-241 | transposing twice restores a rectangular grid |
| Grid.RotatedIsTransposeOfFlip | pupil.js:224-241 | the quarter turn is the transpose of the grid read bottom row first |
| Grid.HalfTurn | pupil.js:224-233 | two quarter turns send cell (i, j) to (n-1-i, n-1-j) |
| Grid.FourRotationsRestore | pupil.js:224-233 | four quarter turns restore any square grid |
| Grid.FourQuarterTurns | pupil.js:224-233 | the same, for `RotateN(g, 4)` |
| Grid.RotateNAdd | pupil.js:208-210 | turning a times and then b times is turning a + b times |
| Grid.RotateNMod4 | pupil.js:208-210 | only the number of turns modulo four matters |
| Grid.RotatedBinary | pupil.js:224-233 | turning a black-and-white grid keeps it black and white |
| Grid.RotateNBinary | pupil.js:208-210 | so does turning it any number of times |
| Grid.RotatedBorderBlack | pupil.js:224-233 | turning keeps a black outer ring black |
| Grid.RotateNBorderBlack | pupil.js:224-233 | so does turning any number of times |
| Grid.InnerOfRotated | pupil.js:224-233 | turning a grid turns its interior the same way |
| Grid.InnerOfRotateN | pupil.js:224-233 | the same for any number of turns |
| Geometry.Winding | pupil.js:107-111 | the cross product `(c1 - c0) x (c2 - c0)`; `OrientedChangesIff`, `OrientedConvex` and `OrientedIdempotentIff` state how the winding fix uses it |
| Geometry.Swapped | pupil.js:112-114 | the quad with corners 1 and 3 exchanged and corners 0 and 2 in place |
| Geometry.Oriented | pupil.js:106-116 | corners 0 and 2 stay, and corners 1 and 3 stay or are exchanged |
| Geometry.OrientedPermutes | pupil.js:111-115 | the corners are only reordered |
| Geometry.OrientedChangesIff | pupil.js:111-115 | a quad changes exactly when the cross product is negative and corners 1 and 3 differ; a negative cross product swaps |
| Geometry.OrientedConvex | pupil.js:104-118 | for a quad with corners 1 and 3 across the diagonal 0-2 (every convex quad), the cross product is positive afterwards, the shape is kept, and a second pass changes nothing |
| Geometry.OrientedIdempotentIff | pupil.js:104-118 | in general a second pass changes the quad exactly when both corner orders give a negative cross product and corners 1 and 3 differ |
| Geometry.SqDist | pupil.js:126-128 | the squared distance is non-negative, and zero exactly for equal points |
| Geometry.CornerDistance | pupil.js:124-129 | the sum over the first k corners is non-negative, and zero exactly when those corners coincide |
| Geometry.TooClose | pupil.js:124-130 | the close test on the corner distance; `Detection.Detector.IsTooClose` computes it, and `CloseLoserExcluded`, `IdenticalLaterExcluded` and `LoneKept` state its consequences |
| Geometry.Loser | pupil.js:131-135 | the loser is one of the pair; `CloseLoserExcluded` states which one |
| Geometry.Excluded | pupil.js:122-138 | the polygons the double loop flags; `ExcludedIff` states it in plain words, and `Detection.Detector.FlagClose` computes it |
| Geometry.Survivors | pupil.js:120-145 | the polygons not excluded, in order; `Detection.Detector.NotTooNear` returns them, and `IdenticalPairSurvivor` and `Detection.SurvivorsOfFlags` state their properties |
| Geometry.FlaggedNone | pupil.js:122 | before the double loop nothing is flagged |
| Geometry.FlaggedRowStart | pupil.js:123 | row i of the double loop starts at j = i + 1 without missing a pair |
| Geometry.FlaggedStep | pupil.js:124-136 | visiting pair (i, j) adds exactly the flag that pair sets |
| Geometry.FlaggedRowEnd | pupil.js:122-123 | after the last pair of row i come the pairs of row i + 1 |
| Geometry.ExcludedIff | pupil.js:122-138 | a candidate is dropped exactly when a later close one has a strictly larger perimeter, or an earlier close one has a perimeter at least as large |
| Geometry.CloseLoserExcluded | pupil.js:130-135 | of a close pair, the strictly smaller perimeter is dropped; on a tie or a larger first perimeter, the second one is |
| Geometry.LoneKept | pupil.js:122-144 | a candidate close to no other one is kept |
| Geometry.IdenticalLaterExcluded | pupil.js:130-135 | for a non-zero minDist (`detect` passes 10), of two identical candidates the later is always dropped, since the distance is 0 and the perimeters tie |
| Geometry.IdenticalPairFirstKept | pupil.js:122-138 | of two identical candidates alone, the first is not dropped |
| Geometry.IdenticalPairSurvivor | pupil.js:120-145 | for a non-zero minDist (`detect` passes 10), two identical candidates alone leave exactly the first |
| Geometry.ZeroDistanceKeepsAll | pupil.js:120-145 | with minDist 0 the close test never holds, so every candidate survives, identical copies included |
| Geometry.CyclicShift | pupil.js:243-249 | `rotate2`, a sequence of the same length; `Detection.Detector.Rotate2` computes it, and `CyclicShiftZero`, `CyclicShiftSplit` and `CyclicShiftPermutes` state its properties |
| Geometry.CyclicShiftZero | pupil.js:243-249 | shifting by zero returns the input |
| Geometry.CyclicShiftSplit | pupil.js:243-249 | the shift moves the first r mod n elements to the end |
| Geometry.CyclicShiftPermutes | pupil.js:243-249 | the shift is a permutation |
| Reader.CellWidth | pupil.js:163 | `(imageSrc.width / 5) >>> 0` as floor division of the width by 5 |
| Reader.MinZero | pupil.js:164 | `(width * width) >> 1` as floor division of the cell area by 2; `MajorityOfFullCell` states that a full white cell exceeds it and an empty one does not |
| Reader.BorderDark | pupil.js:168-176 | no border cell is white by majority; `Detection.Detector.BorderWhite` computes it, and `ReadMarkerNoneIff` and `SampleRendered` state its role |
| Reader.Sampled | pupil.js:178-184 | a 3x3 black-and-white grid whose cell is 1 exactly when the matching interior count exceeds `minZero` |
| Reader.ReadMarker | pupil.js:162-222 | a found marker has an id below 64 and as many corners as the candidate |
| Reader.ReadMarkerNoneIff | pupil.js:162-196 | no marker exactly when a border cell is white by majority or the sampled orientation cells sum to 0, 2 or 4 |
| Reader.ReadMarkerFound | pupil.js:186-221 | a found marker has the decoded id and the candidate's corners shifted by the decoded turns, and its border was black |
| Reader.BlackImageRejected | pupil.js:168-196 | an all-black image passes the border test but gives no marker |
| Reader.WhiteBorderRejected | pupil.js:168-176 | a white top-left cell gives no marker |
| Reader.MajorityOfFullCell | pupil.js:163-164 | with cells at least one pixel wide, a full white cell is white by majority and an empty one is not |
| Reader.SampleRendered | pupil.js:163-184 | the sharp picture of a black-bordered grid passes the border test and samples back to its interior |
| Reader.RenderedMarkerReads | pupil.js:162-222 | the picture of the marker for any id below 64 reads as that id, with the candidate's corners unchanged |
| Reader.RenderedTurnedMarkerReads | pupil.js:162-222 | the picture of that marker turned r times reads as the same id, with the corners shifted by (4 - r mod 4) mod 4 |
| Detection.Polygon.constructor | pupil.js:92-93 | a new approximation carries its corners and no `tooNear` flag |
| Detection.Approximations | pupil.js:89-100 | the approximations of the long contours, in order; `Detection.Detector.FindCandidates` records them, and `RecordedIsApproximations` and `LoopRecordsApproximations` tie them to the loop |
| Detection.Qualifies | pupil.js:94-95 | four corners, convex, and a shortest edge of at least `minLength`; `CandidatesQualify` states that the candidates are exactly the approximations that qualify |
| Detection.MinContourSize | pupil.js:80 | `image.width * 0.20`, the fewest points `detect` asks of a contour; `Detection.Detector.DetectCandidates` passes it to `findCandidates` |
| Detection.CandidatePolys | pupil.js:86-102 | the qualifying approximations; `CandidatesQualify` and `FoundCandidates` state their properties |
| Detection.AllOriented | pupil.js:104-118 | each quad replaced by `Oriented` of it; `Detection.Detector.ClockwiseCorners` computes it |
| Detection.RecordedIsApproximations | pupil.js:89-100 | after n contours the loop has recorded the approximations of the long ones among them |
| Detection.LoopRecordsApproximations | pupil.js:89-100 | after the last contour, the approximations of all long contours |
| Detection.CandidatesQualify | pupil.js:86-102 | every candidate qualifies; candidates keep contour order; no qualifying approximation is missed |
| Detection.FoundCandidates | pupil.js:86-102 | the candidates' corners are exactly the qualifying approximations, all quads, without repeats, each a recorded polygon and unflagged |
| Detection.TakeContour | pupil.js:90-98 | one turn of the loop records a long contour's approximation as a new unflagged polygon, and takes it as a candidate exactly when it qualifies; every other polygon was there before |
| Detection.SurvivorsOfFlags | pupil.js:139-143 | flags set exactly at the dropped positions select the survivors |
| Detection.Detector.constructor | pupil.js:63-72 | a new detector has recorded no polygons and holds no candidates |
| Detection.Detector.FindCandidates | pupil.js:86-102 | `polys` holds the approximations of the long contours in order, each a new unflagged polygon, and the result is the qualifying polygons among them, distinct; the detector's `candidates` stay as they were |
| Detection.Detector.ScanContours | pupil.js:87-101 | the loop of `findCandidates`, with the same result, every recorded polygon newly allocated |
| Detection.Detector.FoundQuads | pupil.js:80 | the candidates `detect` gets are new, distinct, unflagged polygons whose corners are the qualifying approximations, each recorded in `polys`, which holds the approximations of the long contours; the detector's `candidates` stay as they were |
| Detection.Detector.OrientAndThin | pupil.js:81-82 | `clockwiseCorners` then `notTooNear` on distinct unflagged quads turn each polygon's corners to `Oriented` of the old ones in place, flag exactly the polygons `Excluded` names among the oriented corners, and return the unflagged ones, whose corners are the survivors of the oriented corners |
| Detection.Detector.DetectCandidates | pupil.js:80-82 | `detect`'s candidate stages, with a minimum of a fifth of the image width, tolerance 0.05, edges of 10 and distance 10, leave in `candidates` the survivors of the oriented qualifying approximations |
| Detection.Detector.OrientCorners | pupil.js:107-115 | one candidate's corners become `Oriented` of the old ones, and its flag stays |
| Detection.Detector.ClockwiseCorners | pupil.js:104-118 | each candidate's corners become `Oriented` of the old ones, in place; flags and the list stay |
| Detection.Detector.CornerDist | pupil.js:124-129 | the sum of the squared distances of corresponding corners |
| Detection.Detector.IsTooClose | pupil.js:124-130 | `dist / 4 < minDist * minDist` holds exactly when `Geometry.TooClose` holds |
| Detection.Detector.FlagPair | pupil.js:124-136 | after pair (i, j) the flags are those of the pairs before, plus the loser of (i, j) if close; corners stay |
| Detection.Detector.FlagRow | pupil.js:123-137 | after row i the flags are those of all pairs of rows up to i |
| Detection.Detector.FlagClose | pupil.js:122-138 | after the double loop a candidate is flagged exactly when it was already or is excluded; corners stay |
| Detection.Detector.KeepUnflagged | pupil.js:139-143 | the unflagged candidates, in order |
| Detection.Detector.NotTooNear | pupil.js:120-145 | flags as `FlagClose` says, returns the unflagged candidates in order, and, when none was flagged before, their corners are the survivors of the exclusion rule |
| Detection.Detector.Rotate | pupil.js:224-233 | the quarter turn of a square grid, row by row |
| Detection.Detector.Rotate2 | pupil.js:243-249 | element i is element (rotation + i) mod n of the source |
| Detection.Detector.BorderWhite | pupil.js:168-176 | the early-exit border scan finds a white cell exactly when the border is not black by majority |
| Detection.Detector.SampleBits | pupil.js:178-184 | the sampled 3x3 interior |
| Detection.Detector.DecodeBits | pupil.js:186-219 | the decode steps compute `DecodeInner` |
| Detection.Detector.GetMarker | pupil.js:162-222 | the whole of `getMarker` computes `ReadMarker` |
| Util.QuarterBelow | pupil.js:130 | for integers, d / 4 < m exactly when d < 4m |

## Left out

- `detect` (`pupil.js:74-84`) is modelled from the contours to the thinned candidates (`pupil.js:80-82`) by `Detection.Detector.DetectCandidates`. Its image-processing calls and the final `findMarkers` (`pupil.js:147-159`) are not modelled: for each candidate, `findMarkers` runs `warp`, thresholds the warped image with `threshold` at the level `otsu` picks, passes it to `getMarker`, and keeps only the markers that are not null (`pupil.js:151-156`).
- Detection.Detector.DetectCandidates: does not state what becomes of `polys`, whose qualifying members `clockwiseCorners` reorients in place.
- The computer-vision routines are not modelled: `CV.grayscale`, `adaptiveThreshold`, `findContours`, `warp`, `otsu`, `threshold` and `countNonZero`.
  - `CV.approxPolyDP`, `isContourConvex`, `minEdgeLength` and `perimeter` are function parameters of the operations that call them.
  - `getMarker` takes the white-pixel count of each of its 25 cells instead of an image.
- `AR.logArray` and its calls, and the detector's scratch images and `debug_elem`, are console output and buffers that no modelled operation reads.
- Codec.Generate: ids and sizes are natural numbers. Negative and fractional ids, negative and non-integer sizes, and the 32-bit truncation of `id >> 1` for ids of 2^31 and more are not modelled. A negative size `s` is used as is (`s || 5`), gives a positive bitdepth `(s - 2)^2 - 3`, and makes `generate` return an empty array, or the ID overflow error, which the model does not capture.
- Detection.Detector.GetMarker: `>>> 0` and `>> 1` are modelled as floor division. `(width * width) >> 1` is a signed 32-bit shift, which goes negative once the cell width reaches 46341, so the model agrees with the source only for image widths below 231705 pixels.
- Detection.Detector.GetMarker: only the 5x5 grid the source hard-codes is modelled.
- Point coordinates are unbounded integers. The source's double-precision arithmetic is exact only while the eight-square sum of `notTooNear` and the cross products of `clockwiseCorners` stay below 2^53, which holds for coordinates below 2^24 in magnitude.
- Perimeters, edge lengths, `minSize` and `epsilon` are reals. Floating-point rounding is not modelled.
- Detection.Detector.Rotate: requires a square grid. On a rectangular array the source reads outside the rows, which is not modelled.
- Detection.Detector.ClockwiseCorners: requires the candidates to be distinct objects. The effect of the same polygon appearing twice in the list is not modelled.
- Detection.Detector.NotTooNear: requires the candidates to be distinct objects. The survivors are characterised by the exclusion rule only when no candidate carried a `tooNear` flag beforehand. Otherwise the contract states the flags themselves.
- The loops of `generate`, `findCandidates` and `notTooNear` are split into helper methods, one per loop or loop body. The source has them inline.
- `transpose` is modelled as the pure function `Grid.Transpose`, since `getMarker` only mentions it in a comment.
- `AR.Marker` is modelled as a value datatype, since nothing changes it after construction.
