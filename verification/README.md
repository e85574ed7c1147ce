# roogle_graphics: the scene encoder, modelled in Dafny

roogle_graphics draws simple pictures (closed polygons and text labels placed
in pixel space) by encoding them as the query string of a chart web service
that was built for line charts. A `Plot` holds the canvas size, a background
fill and a display list of `Shape` and `Text` elements. `generate_uri` turns
the plot into one `&`-joined query string:

- `cht=lxy`;
- the size `chs`;
- two fixed axis parameters;
- the outline colours `chco`;
- the polygon coordinates `chd`;
- the fills and labels as markers `chm`;
- the background `chf`.

`generate_img_uri` wraps that string into `src`, `width` and `height`
attributes.

The model has five modules:

- `Wrappers` (wrappers.dfy): `Option`, which stands for Ruby's `nil` and for
  absent options.
- `TextFormat` (text_format.dfy): the string operations the encoder relies on.
  - `Array#join` and, as its reading side, `Split`.
  - `Integer#to_s`.
  - `sprintf("%0.Nf")`, as exact fixed-point rendering of a real number.
  - The comma escape of `escape`.
- `Elements` (elements.dfy): the element values. `Shape` closes its polygon
  when created. `Text` fills in its defaults and has a two-letter alignment
  code.
- `Encoder` (encoder.dfy): every `generate_*` step as a pure function of a
  `PlotValue`. This covers:
  - the partition of the display list by kind;
  - the pixel maps `p2c_*`, `p2r_*` and `lerp`;
  - the parameters themselves.

  Every step is paired with lemmas that read its output back: splitting at the
  separators the encoder writes gives back the parts it joined.
- `Plotting` (plot.dfy): the `Plot` class. Its configuration is fixed at
  construction. Its display list is a `seq<Element>` field, which `AddElement`
  extends in place. `GenerateUri` and `GenerateImgUri` encode the current state.

Coordinates are exact reals. `sprintf("%0.1f")` and `sprintf("%0.3f")` are
modelled as follows:

- The magnitude `|v| * 10^places` is rounded half to even.
- It is spelled out with at least one integer digit.
- The sign is that of `v`, so a small negative value shows as "-0.0", as printf
  does.

`CGI::escape` is a library call. Every function that needs it takes it as the
parameter `percentEncode`.

The outline-colour merge at roogle_graphics.rb:153 assigns where it should
compare (see Findings). The encoder uses the corrected merge, `LineColors`. The
merge as written, `LineColorsAsWritten`, is modelled beside it, together with
an input on which the two differ.

For a mix of absent and present outline colours no error is raised. The
corrected merge joins every colour with `|` and shows each absent one as an
empty entry: outlines "ff0000" and none give "chco=ff0000|". The code as
written does that only when the first colour is absent. When the first colour
is present, line 153 keeps it alone, so the same outlines give "chco=ff0000"
(`LineColorsPresentThenAbsent`).

A four-corner square is closed by the constructor into five points. Its
geometry therefore holds five x values and five y values (`SquareClosed`,
`LinesShape`), not four of each.

## Model

| member | source | states |
|---|---|---|
| `Elements.ClosePolygon` | roogle_graphics.rb:50 | the result is closed (empty, or last point equals first); it starts with the given points and is at most one point longer; it equals the input exactly when the input was already closed |
| `Elements.ClosePolygonIdempotent` | roogle_graphics.rb:50 | closing an already closed polygon changes nothing |
| `Elements.NewShape` | roogle_graphics.rb:44-51 | a created shape keeps origin and both colours from the options, is closed, has no points for a `nil` list, keeps a closed list unchanged and grows an open list by exactly its first point |
| `Elements.SquareClosed` | roogle_graphics.rb:50 | the documented four-corner square becomes a five-point shape ending in its first corner |
| `Elements.NewText` | roogle_graphics.rb:71-78 | a created label keeps its origin; a `nil` text becomes ""; each absent option takes its default: size 12, colour "000000", left, bottom |
| `Elements.Alignment` | roogle_graphics.rb:80-82 | the alignment code has two characters, a horizontal letter from l/h/r followed by a vertical letter from b/v/t |
| `Elements.AlignmentRoundTrip` | roogle_graphics.rb:59-60 | the two-letter code determines both alignments: reading it back gives the label's halign and valign |
| `Elements.TextDefaults` | roogle_graphics.rb:73-78 | a label created without options has size 12, colour "000000" and alignment code "lb" |
| `Encoder.ShapeElements` | roogle_graphics.rb:187-189 | `shape_elements` yields only shapes and is no longer than the display list |
| `Encoder.TextElements` | roogle_graphics.rb:191-193 | `text_elements` yields only labels and is no longer than the display list |
| `Encoder.PartitionSizes` | roogle_graphics.rb:187-193 | the number of shapes plus the number of labels is the length of the display list |
| `Encoder.PartitionElements` | roogle_graphics.rb:187-193 | shapes and labels together hold every element of the display list exactly as often as it occurs there |
| `Encoder.PartitionOrder` | roogle_graphics.rb:187-193 | shapes and labels are each a subsequence of the display list, so both keep display order |
| `Encoder.ShapeElementsAppend` | roogle_graphics.rb:112-114 | appending an element extends the shapes by it if it is a shape and leaves them unchanged otherwise |
| `Encoder.TextElementsAppend` | roogle_graphics.rb:112-114 | appending an element extends the labels by it if it is a label and leaves them unchanged otherwise |
| `Encoder.Lerp` | roogle_graphics.rb:214-216 | `lerp` in exact reals, `u0 + (x - x0) * (u1 - u0) / (x1 - x0)`; no ensures of its own: `LerpEnds` and `LerpMonotone` state its ends and its order |
| `Encoder.LerpEnds` | roogle_graphics.rb:214-216 | `lerp` sends `x0` to `u0` and `x1` to `u1` |
| `Encoder.LerpMonotone` | roogle_graphics.rb:214-216 | for `x0 < x1` and `u0 <= u1`, `lerp` never decreases |
| `Encoder.ToChart` | roogle_graphics.rb:196-202 | `p2c_x`/`p2c_y`: `lerp` onto 0..100 rendered with one decimal; no ensures of its own: `ChartMapBounds`, `MapsMonotone` and `ToChartAvoids` (only digits, point and minus sign) state its properties |
| `Encoder.ToRelative` | roogle_graphics.rb:205-211 | `p2r_x`/`p2r_y`: `lerp` onto 0..1 rendered with three decimals; no ensures of its own: `RelativeMapBounds`, `MapsMonotone` and `ToRelativeNumeric` state its properties |
| `Encoder.ChartMapBounds` | roogle_graphics.rb:196-202 | for a positive extent, `p2c` renders pixel 0 as "0.0" and the extent as "100.0" |
| `Encoder.RelativeMapBounds` | roogle_graphics.rb:205-211 | for a positive extent, `p2r` renders pixel 0 as "0.000" and the extent as "1.000" |
| `Encoder.MapsMonotone` | roogle_graphics.rb:196-211 | both maps keep the order of pixel values, before rounding and in the rounded scaled integer they render |
| `Encoder.LineColors` | roogle_graphics.rb:149-158 | `generate_line_colors` with line 153 read as a comparison: the result starts with "chco="; `LineColorsTransparent`, `LineColorsUniform` and `LineColorsReadBack` pin down its three branches |
| `Encoder.LineColorsAsWritten` | roogle_graphics.rb:149-158 | `generate_line_colors` with line 153 as written: the result starts with "chco="; `LineColorsTransparent`, `LineColorsUniform`, `LineColorsAgree` and `LineColorsAsWrittenFirstWins` state where it agrees with the corrected merge and where it does not |
| `Encoder.LineColorsTransparent` | roogle_graphics.rb:151-152 | with no shapes, or no outline colour at all, the parameter is exactly "chco=ffffff00" (under both readings of line 153) |
| `Encoder.LineColorsUniform` | roogle_graphics.rb:153-154 | when every shape has outline colour `c`, the parameter is exactly "chco=" + c, once (under both readings) |
| `Encoder.LineColorsReadBack` | roogle_graphics.rb:149-158 | with some colour present and none holding `&#124;`, the corrected parameter gives back every shape's colour: a single entry stands for all shapes, otherwise entry i is shape i's colour |
| `Encoder.LineColorsAsWrittenFirstWins` | roogle_graphics.rb:153 | as written, outlines "ff0000" and "00ff00" give "chco=ff0000" where the corrected merge gives "chco=ff0000&#124;00ff00", and the second outline cannot be read back |
| `Encoder.LineColorsAgree` | roogle_graphics.rb:153 | both readings give the same parameter when all colours are equal or the first one is absent |
| `Encoder.LineColorsPresentThenAbsent` | roogle_graphics.rb:153-156 | outlines "ff0000" and none give "chco=ff0000&#124;" under the corrected merge (an empty entry for the absent colour, no error) and "chco=ff0000" as written |
| `Encoder.Lines` | roogle_graphics.rb:160-163 | `generate_lines`: the result starts with "chd=t:"; `LinesEmpty`, `LinesReadBack` and `LinesShape` state its content |
| `Encoder.ShapeCoords` | roogle_graphics.rb:171-175 | `generate_shape`: comma-joined x values, `&#124;`, comma-joined y values; no ensures of its own: `ShapeCoordsReadBack` and `ShapeCoordsNoPoints` read it back |
| `Encoder.ShapeCoordsNoPoints` | roogle_graphics.rb:171-175 | a shape with no points (created from a `nil` list) has the group "&#124;": two empty halves |
| `Encoder.LinesEmpty` | roogle_graphics.rb:160-162 | without shapes the geometry is exactly "chd=t:0&#124;0" |
| `Encoder.LinesReadBack` | roogle_graphics.rb:160-175 | with shapes, splitting the geometry at `&#124;` gives each shape's x half and y half, alternately and in shape order |
| `Encoder.LinesShape` | roogle_graphics.rb:171-175 | shape k's fields 2k and 2k+1 split at `,` into one value per point: `p2c_x` of origin plus offset x, and `p2c_y` of origin plus offset y |
| `Encoder.ShapeCoordsReadBack` | roogle_graphics.rb:171-175 | a shape's group splits at `&#124;` into its two halves, and each half splits at `,` into its values |
| `Encoder.Escape` | roogle_graphics.rb:220-222 | `escape`: the comma escape followed by `CGI::escape`, which is the parameter `percentEncode`; no ensures of its own: `EscapeCommas`, `UnescapeEscape` and `EscapedCommasFollowBackslash` state the comma escape |
| `Encoder.ShapeMarker` | roogle_graphics.rb:166 | a fill marker starts with "B,"; `ShapeMarkerReadBack` states its fields |
| `Encoder.ShapeMarkerReadBack` | roogle_graphics.rb:166 | a fill marker splits into "B", the fill colour (empty when absent), the shape's index among shapes only, "0", "0"; the index reads back as a number |
| `Encoder.TextMarker` | roogle_graphics.rb:167 | a label marker starts with "@t" and ends with the label's alignment code |
| `Encoder.TextMarkerReadBack` | roogle_graphics.rb:167 | a label marker splits into escaped text, colour, "0", position, size, "0" and alignment; the position splits at `:` into `p2r_x` and `p2r_y` of the origin; the last field gives back both alignments |
| `Encoder.MarkersEmpty` | roogle_graphics.rb:165-169 | the markers are exactly "chm=" if and only if the display list is empty |
| `Encoder.Markers` | roogle_graphics.rb:165-169 | `generate_markers`: the result starts with "chm="; `MarkersEmpty` and `MarkersReadBack` state its content |
| `Encoder.MarkersReadBack` | roogle_graphics.rb:165-169 | with no `&#124;` in colours or escaped labels, splitting the markers at `&#124;` gives one fill marker per shape in shape order, then one marker per label in label order |
| `Encoder.BackgroundKind` | roogle_graphics.rb:177-183 | the background is "chf=bg,s," + fill_color1 exactly when fill_color2 is absent or equal to it; otherwise it starts "chf=bg,lg," |
| `Encoder.BackgroundReadBack` | roogle_graphics.rb:177-183 | with comma-free colours the background splits into its fields: solid colour, or angle, first colour, 0, second colour, 1 |
| `Encoder.Background` | roogle_graphics.rb:177-183 | `generate_background`; no ensures of its own: `BackgroundKind` and `BackgroundReadBack` state which form it takes and its fields |
| `Encoder.Dimensions` | roogle_graphics.rb:139-141 | `generate_dimensions`: the result starts with "chs="; `DimensionsReadBack` states the rest |
| `Encoder.DimensionsReadBack` | roogle_graphics.rb:139-141 | the size parameter splits at `x` into the digits of width and height, which read back as those numbers |
| `Encoder.UriIsFieldsJoined` | roogle_graphics.rb:143-147 | joining the axis pair first and then all parameters gives the same string as joining the eight fields at once |
| `Encoder.InhibitAxes` | roogle_graphics.rb:143-147 | `inhibit_axes`: the axis list and the axis style joined with `&`; a constant, split into its two fields by `UriIsFieldsJoined` |
| `Encoder.Uri` | roogle_graphics.rb:119-128 | `generate_uri`: the seven parameters joined with `&`; no ensures of its own: `UriReadBack`, `UriAvoids` and `EmptyPlotUri` state its content |
| `Encoder.UriReadBack` | roogle_graphics.rb:119-128 | with no `&` in colours or escaped labels, splitting the query string at `&` gives: service and `cht=lxy`, size, both axis settings, outline colours, geometry, markers, background, in that order |
| `Encoder.EmptyPlotUri` | roogle_graphics.rb:100-107 | an empty default plot encodes to: service, "chs=300x300", the axis pair, "chco=ffffff00", "chd=t:0&#124;0", "chm=" and "chf=bg,s,ffffff" |
| `Encoder.ImgUriReadBack` | roogle_graphics.rb:132-134 | with no double quote in the plot's text, the attribute string splits at `"` into src=, the query string, width=, the width's digits, height=, the height's digits |
| `Encoder.ImgUri` | roogle_graphics.rb:132-134 | `generate_img_uri`: `src`, `width` and `height` attributes joined around double quotes; no ensures of its own: `ImgUriReadBack` reads it back |
| `TextFormat.Join` | roogle_graphics.rb:127 | `Array#join`: the parts with the separator between neighbours; no ensures of its own: `SplitJoin` reads it back and `JoinExcludes` shows it adds nothing but the separator |
| `TextFormat.SplitJoin` | roogle_graphics.rb:127 | splitting at a one-character separator undoes `join` when no part holds the separator |
| `TextFormat.NatToString` | roogle_graphics.rb:140 | `Integer#to_s` of a natural number: at least one digit, only digits, and no leading zero; `NatToStringRoundTrip` shows the digits denote the number |
| `TextFormat.NatToStringRoundTrip` | roogle_graphics.rb:140 | the decimal digits of a number read back as that number |
| `TextFormat.IntToString` | roogle_graphics.rb:167 | an integer's text starts with "-" exactly for negative numbers, followed by the digits of its magnitude |
| `TextFormat.RoundHalfEven` | roogle_graphics.rb:197 | the rounded integer is within one half of the value, and an exact tie goes to the even neighbour |
| `TextFormat.FormatFixed` | roogle_graphics.rb:197-210 | `sprintf("%0.Nf")`: the sign, then the rounded scaled magnitude with a point before its last `places` digits; no ensures of its own: `FormatFixedIsNumeric`, `DecimalReadsBack` and `ScaledMonotone` state its properties |
| `TextFormat.ScaledMonotone` | roogle_graphics.rb:197-210 | a larger value never renders as a smaller signed scaled integer |
| `TextFormat.FormatFixedIsNumeric` | roogle_graphics.rb:197-210 | a rendering holds only digits, the point and the minus sign |
| `TextFormat.DecimalReadsBack` | roogle_graphics.rb:197-210 | the unsigned rendering of the rounded magnitude `q` (what follows any minus sign) splits at the point into integer digits and exactly `places` decimal digits that together denote `q` |
| `TextFormat.FormatFixedReadsBack` | roogle_graphics.rb:197-210 | a rendering starts with "-" exactly for negative values; after that sign it splits at the point into integer digits and exactly `places` decimal digits, and with the sign they denote the signed scaled integer `Scaled(v, places)` that `ScaledMonotone` and `MapsMonotone` speak about |
| `TextFormat.EscapeCommas` | roogle_graphics.rb:221 | escaping grows the text by its number of commas, and a leading comma becomes a backslash |
| `TextFormat.UnescapeEscape` | roogle_graphics.rb:221 | removing the backslash before each comma restores the original text |
| `TextFormat.EscapedCommasFollowBackslash` | roogle_graphics.rb:221 | in escaped text every comma follows a backslash and none comes first |
| `Plotting.Plot.constructor` | roogle_graphics.rb:100-107 | a new plot is 300 by 300, white, without gradient and at angle 0 unless the options say otherwise, and its display list is empty |
| `Plotting.Plot.AddElement` | roogle_graphics.rb:112-114 | the display list becomes the old one plus the element at its end, and the element joins the shapes or the labels according to its kind; configuration fields are constants, so the positive extents that `GenerateUri` needs still hold |
| `Plotting.Plot.GenerateUri` | roogle_graphics.rb:119-128 | the plot's query string splits at `&` back into its parameters in their fixed order when the plot's text holds no `&` |
| `Plotting.Plot.GenerateImgUri` | roogle_graphics.rb:132-134 | the attribute string carries the plot's query string as its `src` value when the plot's text holds no double quote |

## Left out

- `CGI::escape` (roogle_graphics.rb:221) is a library call outside this model. It is the parameter `percentEncode`. The read-back lemmas state what they need of its output, for example "holds no `|`", as preconditions.
- The binary floating point of Ruby's `Float`. Coordinates and `lerp` are exact reals. `sprintf` is exact rounding, half to even. A value whose double representation rounds differently is not modelled.
- `Plotting.Plot.constructor`: requires a positive width and height. The source never checks them, but a zero extent makes `lerp` divide by zero and render Infinity or NaN, which floating point alone produces.
- Alignment symbols other than the three documented ones cannot be represented: halign and valign are enumerations. In the source such a symbol makes `alignment` fail on `nil`.
- Sizes, angles, widths and heights are integers. A float size or angle would print with a decimal point in Ruby.
- The network: the service URL is only a prefix constant, and nothing fetches the query string.
- The public `elements` setter (roogle_graphics.rb:90) and the aliasing of the caller's point array by `Shape` (roogle_graphics.rb:46,50). Elements and point lists are values here.
- roogle_graphics_examples.rb holds demonstration scenes only. It is not part of this model.

## Findings

| source | as written | input that shows it | evidently intended | confidence | as-written member | corrected member |
|---|---|---|---|---|---|---|
| roogle_graphics.rb:153 | the block body `c=outline_colors.first` assigns the first colour, so `all?` holds whenever the first outline colour is present, whatever the others are | two shapes outlined "ff0000" and "00ff00" give "chco=ff0000" | compare with `==`, as the comment on line 154 says ("all shape elements have the same color"), giving "chco=ff0000&#124;00ff00" | not executed | `Encoder.LineColorsAsWritten`, shown by `Encoder.LineColorsAsWrittenFirstWins` | `Encoder.LineColors`, proved by `Encoder.LineColorsReadBack` and `Encoder.LineColorsUniform` |
