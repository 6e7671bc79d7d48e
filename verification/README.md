# First-Raycasting: a verified model of the ray-caster's integer core

First-Raycasting is a small SDL ray-caster in C. Two programs share one
drawing toolkit:

- `main.normless.c` is the ray-caster. It draws into RGBA canvases with
  alpha blending and composites them onto the window at an integer scale.
  It keeps a linked list of textures and reads them from plain-PPM-like
  files. It moves a player with a slide-along-walls collision rule and picks
  the nearer of two wall hits for each ray.
- `main.c` is the first version. Its 640 x 480 screen is overwritten pixel
  by pixel, and its main loop pulses a green border.
- `ft_split.c` splits a C string into the maximal runs of characters that
  are not in a separator set.

The model keeps the C program's form. Buffers that C mutates in place are
`array`s, except a texture's samples, and the loops over them are `while` loops with invariants. Every
drawing and parsing method is proved equal to a specification function on
values, and the properties the C code promises are lemmas about those
functions. The modules are:

| module | file | models |
|---|---|---|
| `Raster` | raster.dfy | points, colours, the pixel write in both modes, and the exact pixel sequences of the line, rectangle and circle routines |
| `Canvas` | canvas.dfy | `t_sdl_canvas` as a class: the drawing primitives, the background of `update_screen`, and `update_canvas` |
| `Demo` | demo.dfy | `main.c`: the screen as an overwrite canvas, `init`'s clear, and the oscillator loop |
| `Split` | split.dfy | `ft_split.c`: `ft_is_inside_of`, `ft_count`, `ft_split_len`, `ft_split_fill`, `ft_split` |
| `Textures` | textures.dfy | `texture_get`, `texture_add`, the checkerboard fallback, and the minimap texel index |
| `TextureParse` | texture_parse.dfy | `texture_parse`: a byte-driven line parser |
| `Geometry` | geometry.dfy | `t_vec2` with real coordinates |
| `Movement` | movement.dfy | `handle_collisions` and `move_player` |
| `RayCast` | raycast.dfy | how each ray chooses between its two wall hits |

Some of the model's key design choices:

- **Pixel writes.** A pixel write is `Plot(mode, buf, width, p, c)`. Its
  bounds test is on the linear index `(y * width + x) * 4` only, as in C.
  So a point with `x == width` lands on column 0 of the next row.
  `update_screen` does draw there (`Canvas.BackgroundWraps`).
- **Drawing routines.** Each routine is specified by the exact sequence of
  points it hands to the pixel write (`LinePoints`, `RectPoints`,
  `CirclePoints`), folded by `Paint`.
- **The parser.** The specification of `texture_parse` is `Run`, which
  folds `Feed` over the input one byte at a time. A finished line is
  classified by `EndLine`.

## Model

| member | source | states |
|---|---|---|
| Raster.RowWrap | main.normless.c:209-210 | the pixel one past the end of row y has the same linear index as the first pixel of row y + 1 |
| Raster.BlendChannel | main.normless.c:213-215 | the truncating blend of one colour channel: alpha 255 gives the source, alpha 0 the destination, and the result lies between the two |
| Raster.BlendBounds | main.normless.c:213-215 | the numerator of the blend lies between 255 times the smaller and 255 times the larger of destination and source, so the quotient fits a byte |
| Raster.BlendAlpha | main.normless.c:216 | the alpha byte of the blend: alpha 255 gives 255, alpha 0 keeps the destination, and it is never below either input |
| Raster.PlotSpec | main.normless.c:206-218 | an index outside [0, size - 4] leaves the buffer unchanged; otherwise bytes index..index+3 become the blended (or written) channels and no other byte changes |
| Raster.PlotFrame | main.normless.c:206-218 | a byte outside the written pixel keeps its value |
| Raster.BlendExtremes | main.normless.c:213-216 | blending with alpha 255 writes exactly r, g, b, 255; alpha 0 leaves the whole buffer unchanged |
| Raster.PutIsPlot | main.c:30-41 | main.c's four separately checked byte writes equal the all-or-nothing overwrite, because the index is a multiple of 4 and so is the buffer size |
| Raster.PlotOverwriteAt | main.c:32-40 | after an overwrite, each byte of the pixel holds the colour's r, g, b or a exactly, and every other byte is unchanged |
| Raster.OverwriteAt | main.c:30-41 | after overwriting a sequence of points, a byte holds its colour channel iff some point covers it, and its old value otherwise |
| Raster.OverwriteRepaint | main.c:205-211 | overwriting the same points twice leaves only the second colour, so the screen shows the last frame's border |
| Raster.PaintUntouched | main.normless.c:206-218 | a byte that no point of a drawing covers keeps its value |
| Raster.PaintAppend | main.normless.c:229-235 | drawing a + b is drawing a, then drawing b |
| Raster.PaintCons | main.normless.c:229-235 | drawing [p] + rest is writing p, then drawing the rest |
| Raster.ClearedPixel | main.c:119-122 | every pixel of a cleared buffer is r = g = b = 0 with alpha 255 |
| Raster.LinePoints | main.normless.c:220-236 | a line hands max(abs(dx), abs(dy)) + 1 points to the pixel write |
| Raster.LineFrom | main.normless.c:229-235 | the loop from an accumulator state yields one point per remaining iteration |
| Raster.LineStart | main.normless.c:222-228 | steps is non-negative, and the line is the loop started at point1 with the step scaled by max(steps, 1), so a zero-length line is one iteration |
| Raster.PaintLineStep | main.normless.c:229-235 | one loop iteration writes the truncated current position, then the accumulator advances by (dx, dy) |
| Raster.LineFromAt | main.normless.c:229-235 | in exact arithmetic, the k-th point is the truncation toward zero of x + k * dx_inc and y + k * dy_inc |
| Raster.LinePointsAt | main.normless.c:222-235 | in exact arithmetic, the k-th point of a line is its closed form LinePoint; C's float loop agrees only on axis-aligned and diagonal lines |
| Raster.LineEndpoints | main.normless.c:220-236 | in exact arithmetic, the first point is point1 and the last is point2, and a zero-length line is exactly [point1]; C's float loop can end one pixel short, as (0, 0) to (3, 9) does |
| Raster.LinePointAt | main.normless.c:225-231 | in exact arithmetic, a point that lies exactly k/steps of the way along the line is the k-th point |
| Raster.UnitLine | main.normless.c:224-233 | an axis-aligned or diagonal line steps by whole pixels: the k-th point is point1 plus k times the sign of each difference, so C's float loop draws exactly these points |
| Raster.LineMajorX | main.normless.c:224-233 | when x is the major axis, the k-th point's x is x1 + k * sign(dx): no gaps along it |
| Raster.LineMajorY | main.normless.c:224-233 | when y is the major axis, the k-th point's y is y1 + k * sign(dy) |
| Raster.HorizontalSpan | main.normless.c:262-265 | a horizontal line from a to b visits b - a + 1 points, a + k at step k |
| Raster.LineIsSpan | main.normless.c:262-265 | a horizontal line is the left-to-right run of its row |
| Raster.TruncDivExact | main.normless.c:231 | the truncating cast returns an exact multiple unchanged |
| Raster.RectRowExact | main.normless.c:242-248 | one row's inner loop visits exactly the points of that row, from x on, that the fill test accepts |
| Raster.RectRowsExact | main.normless.c:240-250 | the outer loop from row y visits exactly the accepted points of rows y and below |
| Raster.RectPointsExact | main.normless.c:238-251 | a point is drawn iff it is in the inclusive box and, unfilled, on its border; an inverted box draws nothing |
| Raster.InvertedRows | main.normless.c:242 | when point1.x > point2.x no row draws anything |
| Raster.RectInteriorUntouched | main.c:61-74 | an unfilled rectangle that lies within the row width leaves every byte of an interior pixel unchanged |
| Raster.PaintRectRowStep | main.normless.c:242-248 | one inner iteration writes (x, y) iff the fill test holds |
| Raster.PaintRectRowsStep | main.normless.c:240-250 | one outer iteration draws row y, then the loop goes on at row y + 1 |
| Raster.CircleStepsShape | main.normless.c:258-288 | from (x, y) the loop runs at most x - y + 1 iterations; y rises by one each time, and x stays between y and its start and drops by at most one |
| Raster.CircleIterationsShape | main.normless.c:253-289 | a circle runs at most radius + 1 iterations and none for a negative radius; iteration k has y = k and k <= x <= radius |
| Raster.CirclePeel | main.normless.c:258-288 | the points of the loop are this iteration's points, then the loop from the next (x, y, radius_error) |
| Raster.CircleFromParts | main.normless.c:258-288 | the loop's accumulated points are the iterations' groups in order |
| Raster.PaintCircleStep | main.normless.c:258-288 | one iteration draws its 8 points or 4 spans, then the error update picks the next (x, y) |
| Raster.PaintFour | main.normless.c:262-265 | the four span calls of a filled iteration are the four spans in order |
| Raster.OctantsSymmetric | main.normless.c:269-276 | the 8 points of an unfilled iteration are closed under mirroring in x, in y and under swapping the axes about the centre |
| Raster.CircleSymmetric | main.normless.c:253-289 | an unfilled circle is closed under the same three symmetries |
| Raster.OctantsBounded | main.normless.c:269-276 | the 8 points lie within x of the centre on both axes |
| Raster.SpansBounded | main.normless.c:262-265 | the 4 spans lie within x of the centre on both axes |
| Raster.IterationBounded | main.normless.c:260-277 | the points of one iteration at offset (x, y), filled or not, lie within x of the centre on both axes |
| Raster.IterationsBounded | main.normless.c:258-288 | every point of every iteration lies within the radius on both axes |
| Raster.CircleBounded | main.normless.c:253-289 | every point a circle draws, filled or not, lies within the radius of the centre on both axes |
| Canvas.Canvas.constructor | main.normless.c:303-306 | a canvas of the given width, height and scale owns a fresh buffer of width * height * 4 bytes |
| Canvas.Canvas.Clear | main.normless.c:519-522 | every pixel becomes opaque black |
| Canvas.Canvas.DrawPixel | main.normless.c:206-218 | the buffer becomes the single-pixel write of the point (properties in Raster.PlotSpec) |
| Canvas.Canvas.DrawLinePixel | main.normless.c:231-234 | one iteration of the line loop is one step of the line's point sequence |
| Canvas.Canvas.DrawLine | main.normless.c:220-236 | the buffer becomes the old buffer with the line's points written in order |
| Canvas.Canvas.DrawRectCell | main.normless.c:243-248 | one inner iteration is one step of the rectangle's point sequence |
| Canvas.Canvas.DrawRectRow | main.normless.c:242-249 | one pass of the outer loop writes row y's accepted points from left to right |
| Canvas.Canvas.DrawRect | main.normless.c:238-251 | the buffer becomes the old buffer with the rectangle's points written row by row |
| Canvas.Canvas.DrawListedPixel | main.normless.c:269-276 | one of an iteration's pixel calls is one step of its point list |
| Canvas.Canvas.DrawOctants | main.normless.c:269-276 | the 8 pixel calls write the 8 mirrored points in order |
| Canvas.Canvas.DrawSpans | main.normless.c:262-265 | the 4 line calls write the 4 spans in order |
| Canvas.Canvas.DrawIteration | main.normless.c:260-277 | one iteration writes its spans if fill is 1 and its octant points otherwise |
| Canvas.Canvas.DrawCircle | main.normless.c:253-289 | the buffer becomes the old buffer with the circle's points written in order |
| Canvas.Canvas.DrawBackground | main.normless.c:519-529 | the screen is cleared, then the sky box (0, 0)-(width, height / 2) and the floor box (0, height / 2)-(width, height) are blended over it |
| Canvas.BackgroundWraps | main.normless.c:524-529 | the boxes reach x = width, whose pixel is the first pixel of the next row; the floor's last row begins exactly at the end of the buffer |
| Canvas.SourceIndexInBounds | main.normless.c:431 | for every window pixel of the scaled area, the canvas pixel it samples lies inside the canvas buffer |
| Canvas.QuotientBelow | main.normless.c:431 | the integer division by the scale keeps a coordinate below the canvas size |
| Canvas.ScaledAreaSamples | main.normless.c:427-431 | every pixel the two loops visit samples inside the canvas |
| Canvas.CompositeAppend | main.normless.c:427-441 | compositing a + b is compositing a, then b |
| Canvas.CompositeUntouched | main.normless.c:433-439 | a window byte that no visited pixel covers keeps its value |
| Canvas.CompositeRowStep | main.normless.c:429-440 | one inner iteration blends the sampled canvas colour into one window pixel |
| Canvas.CompositeRowsStep | main.normless.c:427-441 | one outer iteration composites one row, then the loop goes on at the next row |
| Canvas.BlendCell | main.normless.c:431-439 | one iteration equals the window-pixel blend of the sampled colour, including the bounds test on the window index |
| Canvas.UpdateCanvas | main.normless.c:425-442 | the window buffer becomes the old buffer with every pixel of the scaled area blended with the canvas pixel it samples |
| Demo.NewScreen | main.c:119-122 | init's screen is 640 x 480 in overwrite mode, with every pixel r = g = b = 0 and alpha 255 |
| Demo.TickRange | main.c:205-208 | the update keeps any counter of -255..262 inside that range |
| Demo.CounterRange | main.c:192-208 | from 0 the counter stays in -255..257 and is always 0 or 1 modulo 8 |
| Demo.CounterRamp | main.c:192-208 | for the first 32 frames the counter is 8 times the frame number |
| Demo.GreenLevelRange | main.c:210 | the green expression is non-negative, and it lies in 0..254 for a negative counter |
| Demo.GreenWraps | main.c:205-210 | the counter reaches 256 and 257, where the green byte wraps to 0 and 1 (see Findings) |
| Demo.GreenCorrected | main.c:210 | the saturated green equals main.c's green wherever the counter is at most 255, and is 255 above it |
| Demo.RunFrames | main.c:192-213 | after n frames the counter is Counter(n), and the screen is the border overwritten in the last frame's green as main.c stores it, wrapped to a Uint8 |
| Demo.OriginCorner | main.c:211 | any unfilled box with a corner at the origin, drawn over any screen, shows its colour at pixel (0, 0) |
| Demo.BorderCorner | main.c:211 | whatever the screen held, the border's top-left pixel shows exactly the frame's colour |
| Demo.BorderFlash | main.c:205-211 | after frame 32 the border's top-left pixel is opaque black (0, 0, 0, 255) |
| Split.RunEnd | ft_split.c:91-99 | the run from p ends at the first separator or the end of the string, and holds no separator |
| Split.RunEndExact | ft_split.c:91-99 | any position that ends a separator-free stretch is the end of the run |
| Split.TokensFromAreRuns | ft_split.c:62-89 | each token after a boundary is a maximal non-empty separator-free substring |
| Split.TokenIsMaximalRun | ft_split.c:77-83 | each token is non-empty, contains no separator, and is the substring of the string it was copied from |
| Split.RunsAreTokensFrom | ft_split.c:62-89 | each maximal run after p is one of the tokens from p |
| Split.MaximalRunIsToken | ft_split.c:62-89 | every maximal run of the string is a token, so no run is missed |
| Split.TokensByPosition | ft_split.c:33-89 | the k-th token is the maximal run at the k-th start; the starts go strictly left to right, and every maximal run begins at one of them, so the token count is the number of maximal runs, repeats included |
| Split.TokenStartsAt | ft_split.c:33-89 | from any point after a separator, the k-th token is exactly the maximal run at the k-th start |
| Split.TokenStartsOrdered | ft_split.c:33-89 | each run ends before the next one starts, so the tokens come out in string order without overlap |
| Split.TokenStartsComplete | ft_split.c:33-89 | every maximal run at or after the scan point begins at one of the starts, so no run is skipped |
| Split.TokensNone | ft_split.c:33-60 | an empty or all-separator string has no tokens |
| Split.TokensWhole | ft_split.c:33-60 | a non-empty string without separators is one token |
| Split.TokensFromRun | ft_split.c:73-86 | the tokens from a run's start are that run, then the tokens from its end |
| Split.WalkStep | ft_split.c:42-57 | one step of the walk takes the run after position i (if non-empty) and continues from its end, so separators never make empty tokens |
| Split.IsInsideOf | ft_split.c:101-112 | the result is true iff c occurs in the charset, so '\0' is never a separator |
| Split.AtBoundary | ft_split.c:94 | the run loop stops at the end of the string or at a separator |
| Split.Count | ft_split.c:91-99 | the counter is the length of the run from str_j, and str_j advances to the run's end |
| Split.LenRun | ft_split.c:46-55 | the inner loop of ft_split_len counts the run after i and moves i to its last character |
| Split.SplitLen | ft_split.c:33-60 | ft_split_len is the number of maximal non-empty separator-free runs |
| Split.FillRun | ft_split.c:73-86 | one boundary stores the run after it as the next entry when it is non-empty, and nothing else changes |
| Split.CopyRun | ft_split.c:79-83 | the copied token is str[str_i + 1 .. str_i + 1 + counter] |
| Split.SplitFill | ft_split.c:62-89 | exactly the tokens are written, in left-to-right order, and the rest of the array is untouched |
| Split.FtSplit | ft_split.c:21-31 | the result has len + 1 entries: the tokens in order, then NULL |
| Textures.Node.constructor | main.normless.c:117-122 | a new node holds the given name, size, solidity and samples |
| Textures.FirstMatchFrom | main.normless.c:103-111 | the walk stops at the first node with the name, or at the end of the list |
| Textures.LookupSpec | main.normless.c:101-113 | the lookup is the first entry with the name |
| Textures.LookupAppend | main.normless.c:115-143 | appending a node leaves every earlier lookup as it was; a name not yet present now finds the new node |
| Textures.LookupSkip | main.normless.c:104-110 | a node with another name is passed over |
| Textures.FallbackRowTexel | main.normless.c:317-322 | each row pattern of the fallback table holds the checkerboard colour of its texels |
| Textures.FallbackTableRow | main.normless.c:317-322 | the table consists of the even row, the odd row, the even row and the odd row |
| Textures.FallbackCheckerboard | main.normless.c:313-322 | texel (row, col) of the fallback is magenta (255, 0, 255) where row + col is even, and black otherwise |
| Textures.SnapshotsOf | main.normless.c:101-113 | the catalogue's values are the nodes' fields, node by node |
| Textures.Catalogue.constructor | main.normless.c:311-322 | init's catalogue: an empty list, count 0, and a 4 x 4 solid fallback holding the checkerboard table |
| Textures.Catalogue.GetFrom | main.normless.c:103-112 | the walk from node i returns the lookup in the nodes from i |
| Textures.Catalogue.Get | main.normless.c:101-113 | texture_get returns a copy of the first node with the name, or the fallback, and changes nothing |
| Textures.Catalogue.Add | main.normless.c:115-143 | a fresh node becomes the last of the list, earlier nodes are unchanged, the count rises by one, and the new node holds the given fields |
| Textures.TexelIndexInBounds | main.normless.c:479-487 | for 0 <= i, j < 24 and size > 0, the three bytes at the texel index lie inside a size * size * 3 buffer |
| Textures.QuotientBelow24 | main.normless.c:487 | k * size / 24 is below size for 0 <= k < 24 |
| TextureParse.NulFrom | main.normless.c:155 | the terminator is the first NUL at or after i, or the end of the buffer |
| TextureParse.CText | main.normless.c:155-157 | the line's C text is a prefix of the buffer and holds no NUL |
| TextureParse.DecimalValue | main.normless.c:185 | the digits of a decimal numeral are worth that number |
| TextureParse.AtoiDecimal | main.normless.c:185 | atoi of the decimal text of n is n |
| TextureParse.RunAppend | main.normless.c:151-202 | reading a + b is reading a, then b |
| TextureParse.RunStopped | main.normless.c:188-190 | after a colour error (or undefined behaviour) nothing more is read |
| TextureParse.RunChars | main.normless.c:197-201 | bytes that neither end the line nor fill it are appended to the pending line |
| TextureParse.FullLineCut | main.normless.c:153 | once the line holds 255 characters any byte ends it exactly as a newline would, and that byte is dropped |
| TextureParse.RunLine | main.normless.c:151-196 | a short line followed by a newline is classified as a whole |
| TextureParse.SizeLineFirstField | main.normless.c:178 | the first space-separated field of a size line "n n" is n's decimal text |
| TextureParse.IgnoredHeaderLine | main.normless.c:170-175 | lines 0 and 2 of the header are counted and otherwise ignored |
| TextureParse.SizeLineRun | main.normless.c:176-183 | the size line sets the size, allocates size * size * 3 samples and moves on to line 2 |
| TextureParse.HeaderLines | main.normless.c:170-183 | a header "P3", "n n", "255" sets the size, allocates the samples and leaves the parser on line 3 |
| TextureParse.EndLineSample | main.normless.c:185-195 | a data line outside 0..255 is a colour error; one past the buffer is undefined behaviour; otherwise it is stored at current_line - 3 and the line counter advances |
| TextureParse.SampleLine | main.normless.c:185-195 | the same for the decimal text of n followed by a newline |
| TextureParse.FirstSampleLine | main.normless.c:192-195 | the first of a block of sample lines stores its value and moves on |
| TextureParse.SampleLines | main.normless.c:185-195 | a block of sample lines stores its values in order from index j |
| TextureParse.RenderParse | main.normless.c:145-204 | parsing a well-formed file of size n with n * n * 3 samples yields that size and exactly those samples, still reading at the end of the file |
| TextureParse.SolidLineFields | main.normless.c:159 | "# is_solid n" splits on spaces into "#", "is_solid" and n's text |
| TextureParse.SolidLine | main.normless.c:157-162 | "# is_solid n" sets the solidity to n == 1 and changes nothing else |
| TextureParse.SkippedLine | main.normless.c:164-168 | an empty line or another comment line changes nothing |
| TextureParse.RunStep | main.normless.c:151-153 | reading one more byte is one more step of the specification |
| TextureParse.RunRest | main.normless.c:188-190 | once stopped, the rest of the input does not matter |
| TextureParse.EndLineLine | main.normless.c:153-196 | classifying a line depends on its text alone, and empties the pending line when reading goes on |
| TextureParse.LineText | main.normless.c:155 | the terminated line is read as the C text of the pending bytes |
| TextureParse.ParseLine | main.normless.c:157-195 | the classification of a finished line updates the texture and the line counter as the specification's EndLine does |
| TextureParse.EndOfLine | main.normless.c:153-196 | terminating and classifying the pending line is EndLine of the parser holding it |
| TextureParse.Parse | main.normless.c:145-204 | after the read loop, the texture's size, solidity and samples and the final status are those of the specification after the whole input |
| Movement.FirstClear | main.normless.c:587-605 | the first candidate that is not blocked is chosen if there is one, and the fallback otherwise |
| Movement.Resolve | main.normless.c:614-626 | a move ends on a clear position, unless every candidate is blocked, and then exactly where it started |
| Movement.ResolveOrder | main.normless.c:572-626 | the full step if clear, else the x step if clear, else the y step if clear, else no move |
| Movement.ResolveAxes | main.normless.c:587-598 | each coordinate either keeps its value or takes its whole step |
| Movement.ResolveStill | main.normless.c:614-626 | a zero step never moves the player |
| Movement.Player.constructor | main.normless.c:307 | the player starts at the given position |
| Movement.Player.HandleCollisions | main.normless.c:572-612 | the result is 0 or 1; a nested call only tests; at depth 0 a clear probe is accepted, and a blocked one stores the first clear slide or returns 1 iff neither slide is clear |
| Movement.Player.MovePlayer | main.normless.c:614-626 | the player ends at Resolve of the old position and the step, so a player on a clear position never moves onto a blocked one |
| RayCast.SelectRay | main.normless.c:729-733 | the vertical hit is kept iff it is strictly nearer (so a tie keeps the horizontal one, side 1); all fields come from the kept hit, which is the nearer one |

## Left out

- SDL setup, events, key state, presenting frames, `quit`, `malloc` and `free` are left out (main.normless.c:361-423, 444-464, 628-673; main.c:114-118, 123-181, 194-203). They are foreign library calls and I/O. A failed `malloc` is not modelled.
- The float ray-casting loop (main.normless.c:675-728), the wall-slice renderer (main.normless.c:531-569) and the early `break` on short rays (main.normless.c:735-738) are left out. They are floating-point trigonometry. Only the choice between the two hits is modelled, with the hits as inputs.
- FPS timing and the clock are left out (main.normless.c:744-752).
- The minimap's drawing (main.normless.c:466-515) is left out, apart from its texel index. It draws at fractional, float-derived coordinates.
- Drawing coordinates are integers. `t_vec2` in main.normless.c has float fields, so fractional coordinates would be truncated on the way into the index; that truncation is not modelled.
- Raster.LinePoints: the float increments `dx / steps` and their float accumulation are computed exactly, as rationals with truncation toward zero. In C the float sum often falls just short of a whole pixel and the cast truncates it down: from (0, 0) to (3, 9) the increment 0.33333334f, added nine times, gives 2.9999998, so C's last pixel is (2, 9), not point2. So Raster.LineFromAt, Raster.LinePointsAt, Raster.LinePointAt and Raster.LineEndpoints hold of C only for axis-aligned and diagonal lines, whose increments are -1, 0 or 1 and add exactly (Raster.UnitLine). Those are the only lines the core draws: the circle spans are horizontal. Raster.LinePoints' point count and Raster.LineMajorX/Raster.LineMajorY's major axis hold of C for every line. The 0 / 0 of a zero-length line is taken as a zero step; C computes NaN there but never uses it.
- Raster.LineEndpoints: "the last point is point2" is proved in exact arithmetic; C's line from (0, 0) to (3, 9) ends at (2, 9).
- Raster.LineFromAt, Raster.LinePointsAt, Raster.LinePointAt: closed forms in exact arithmetic, which C's float loop matches only on axis-aligned and diagonal lines.
- Integer overflow in C is not modelled: neither in `(y * width + x) * 4`, nor in `size * size * 3`, nor in `atoi` on long digit strings. Positions are reals, so float rounding in `move_player` is not modelled either.
- Movement.Player.HandleCollisions: the float probe grid -0.2..0.2 in steps of 0.1 (main.normless.c:574-579) becomes the parameter `blocked`: "some probe around this position reads a solid texture". So the level lookup, including its unchecked index, is not modelled. Which probe fires does not matter, because every branch depends only on whether one does.
- The texture list's `next` pointers are the sequence `list` of node objects. The inner `if` at main.normless.c:132-135 can never run, because the loop condition already excludes it; the model appends once. The `array` pointer is a sequence value, so two nodes sharing one buffer is not modelled.
- The fallback texture's name is the NUL character; init leaves it unset (main.normless.c:313-322).
- texture_parse reads from a file descriptor. Here the file's contents are the input sequence, and `read`/`close` are not modelled. On a colour error C prints and quits (main.normless.c:188-190); the model stops with status `ColorError`.
- TextureParse.Parse: the three points where C has undefined behaviour stop the model with status `Undefined`. They are: `ft_split(...)[2]` on an "is_solid" line with fewer than three fields; the first field of a size line without fields; and a sample written past the `size * size * 3` buffer (main.normless.c:192). No precondition is placed on the caller. TextureParse.RenderParse shows that a well-formed file never reaches these points.
- Freshly allocated sample buffers are all zero in the model, while `malloc` leaves them unspecified.
- `ft_startswith` is not part of this model. It is taken as a plain prefix test. `atoi` is a decimal parser with leading white space and an optional sign.
- TextureParse.RenderParse: only files whose size fits a 32-bit `int` are covered.
- TextureParse.SolidLine: only numerals short enough for the line to fit 255 characters are covered. Longer lines are cut (TextureParse.FullLineCut).
- Canvas.SourceIndexInBounds: only pixels inside the scaled area are covered, the ones the loops of `update_canvas` visit. Outside it the model's sampled colour is transparent black, which these loops never use.

## Findings

| source | as written | input that shows it | evidently intended | confidence | as-written member | corrected member |
|---|---|---|---|---|---|---|
| main.c:205-210 | the counter climbs by 8 from 0 and resets only once it is at least 255, so it reaches 256 and then 257. The green `i` is stored in a `Uint8` and wraps to 0 or 1 | frame 32: the counter is 256, so the border turns black at the top of the pulse instead of full green | a green that peaks at 255 (saturated) | not executed | Demo.BorderFlash | Demo.GreenCorrected |
