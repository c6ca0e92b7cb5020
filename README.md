# JoP conversion tool: the export pipeline

A model of the image-partitioning pipeline of the JoP conversion tool's window
(`JoPGUIV12` in `gui_stable_en.py`). The tool turns a PNG into one or more
painting canvases for the game's converter. In **single-canvas** mode the
image is resized to one of four canvas sizes and converted once. In **split**
mode, the steps are:

1. The image is brought to the size of a grid of square tiles. It is either
   stretched or cropped, depending on the resize mode.
2. The grid's row count comes from the image's aspect ratio.
3. The image is cut into 16- or 32-pixel tiles, visited row by row.
4. Each tile is saved as a PNG in a temporary directory and converted under a
   numbered title.
5. The temporary directory is removed whether or not the converter raises.

The model has these modules:

- `Text` models the Python string built-ins the window uses: `strip`,
  `replace`, `split`, `int` and `str`.
- `Sizes` reads the `"WxH"` size labels.
- `Grid` holds `calculate_grid`, with Python's round-half-to-even done in
  exact arithmetic.
- `Canvas` holds `get_canvas_type`.
- `Raster` defines RGBA images, PIL's `crop` (transparent padding outside the
  source) and PIL's nearest-neighbour `resize`.
- `Policy` builds the working image of a split export and of its preview.
- `Tiles` describes the tile boxes.
- `Paths` covers `os.path.join`, `os.remove` and `shutil.rmtree` as
  operations on a map from path to saved image.
- `Names` builds the title, the author and the file names.
- `Plan` lists the converter calls an export makes, as values.
- `Exports` defines the state an export ends in, as a function of the state
  it starts from.
- `Gui` holds the window class `Gui.JoPWindow`:
  - its settings fields and their setters;
  - `open_png`, the preview, `convert_tile`, and `export` with both branches.

The file system is a field, `pngFiles`, mapping each PNG the window has
written and not yet removed to its pixels. A second field, `tempDirs`, holds
the live temporary directories. The converter is modelled by a ghost trace,
`calls`, with one `Call` (source PNG, output path, title, author, canvas type,
pixels sent) per `importImage`. The oracle `fails: Call -> bool` says which
calls raise.

The outside world enters as parameters:

- the title and author texts;
- the folder the dialog returned, empty when it was cancelled;
- the name `mkdtemp` picked;
- the image PIL decoded.

The model follows the code where the intended design differs:

- **Converter errors are not caught per tile.** An exception from the
  converter (`gui_stable_en.py:394`) ends the whole split export. Only the
  `finally` that removes the temporary directory still runs. In the model,
  `ConverterRaised(n)` reports the 0-based position of the call that raised,
  and the calls after it are never made.
- **The single-canvas temporary PNG is removed only on success.** The
  `os.remove` at `gui_stable_en.py:370` is not in a `finally`. When the
  converter raises, `single_temp.png` stays in the output folder
  (`Exports.SingleExportFiles`).
- **An unreadable single-canvas size raises.** `map(int, size.split("x"))`
  raises before anything is written, and so does PIL for a size below one.
  Both appear as the `BadCanvasSize` outcome.

## Model

| member | source | states |
|---|---|---|
| Text.Strip | gui_stable_en.py:358-359 | `strip()` drops leading and trailing whitespace; the result is empty exactly when the text is all whitespace, and otherwise starts and ends with a non-space |
| Text.StripTrimmed | gui_stable_en.py:358-359 | a text with no surrounding whitespace is its own strip |
| Text.ReplaceCharSpec | gui_stable_en.py:358 | `replace(' ', '_')` keeps the length, changes exactly the spaces, and leaves no space |
| Text.Split | gui_stable_en.py:365 | `split("x")` yields at least one part, and no part contains the separator |
| Text.SplitJoin | gui_stable_en.py:365 | joining the parts of `split` with the separator gives the text back |
| Text.SplitAfterFirst | gui_stable_en.py:365 | `a + "x" + b`, where `a` has no `x`, splits into `a` followed by the parts of `b` |
| Text.DigitsOfNat | gui_stable_en.py:365 | the decimal digits of `str(n)` have value `n` |
| Text.NatToStringInjective | gui_stable_en.py:390-393 | different numbers have different decimal strings |
| Text.ParseInt | gui_stable_en.py:206 | `int(text)` reads a value exactly when the whitespace around the number is whitespace `int` skips (not the separators U+001C to U+001F) and the stripped text is an optional `+` or `-` followed by one or more ASCII digits; the value is the digits' decimal value, negated after `-` |
| Text.ParseLiteral | gui_stable_en.py:206 | already-stripped text reads exactly when it is an optional sign followed by digits, and it reads as the signed decimal value |
| Text.ParseIntAfterSign | gui_stable_en.py:206 | a sign followed by the digits of `n` reads as `n` with that sign |
| Text.ParseIntSigned | gui_stable_en.py:206 | `int("+" + str(n)) == n` and `int("-" + str(n)) == -n` for every non-negative `n` |
| Text.ParseIntRejectsNonDigit | gui_stable_en.py:206 | a character of the stripped text that is neither a digit nor a leading sign makes `int` raise, so a label part such as `1a` is rejected |
| Text.ParseIntRejectsSeparator | gui_stable_en.py:206 | a separator U+001C to U+001F in front of a number makes `int` raise, although `strip()` removes it |
| Text.NatToString | gui_stable_en.py:390-392 | `str(k)` is at least one decimal digit, with a leading `0` only for zero |
| Text.ReplaceChar | gui_stable_en.py:358 | `replace` keeps the length of the text |
| Text.ParseIntOfNat | gui_stable_en.py:365 | `int(str(n)) == n` for every non-negative `n` |
| Text.ParseIntRejects | gui_stable_en.py:365 | `int` raises on blank text and on a lone sign |
| Sizes.ParseSize | gui_stable_en.py:365 | `w, h = map(int, s.split("x"))` succeeds exactly when there are two parts and both parse as integers, and then yields those integers. The unpacking converts the parts in order: a bad integer among the first three parts is reported, the first such part, before a wrong count. Too few values means one part whose integer reads; too many means three or more parts whose first three integers read |
| Sizes.ParseSizeBadFirst | gui_stable_en.py:365 | `"abc"` raises in `int` on its only part, not in the unpacking |
| Sizes.ParseSizeBadThird | gui_stable_en.py:365 | a readable label followed by `x` and a non-integer raises in `int` on that third part |
| Sizes.ParseSizeTooMany | gui_stable_en.py:365 | a readable label followed by `x` and a third integer has too many values to unpack |
| Sizes.ParseSizeTooFew | gui_stable_en.py:365 | a lone integer has too few values to unpack |
| Sizes.ParseTileSize | gui_stable_en.py:206 | `int(s.split("x")[0])` is the width of every well-formed label |
| Sizes.CanvasDims | gui_stable_en.py:365-367 | the single-canvas size is defined exactly when the label parses and both numbers are at least one, as PIL's resize demands |
| Sizes.ParseFormatSize | gui_stable_en.py:365 | reading a label written from `(w, h)` gives `(w, h)`, and its width for a tile size |
| Sizes.CanvasDimsOfLabel | gui_stable_en.py:365-367 | every label of a positive size is a usable single-canvas size |
| Sizes.WindowLabels | gui_stable_en.py:88-93 | the window's six labels read as their own sizes, and the two tile labels as 16 and 32 |
| Grid.RoundHalfEven | gui_stable_en.py:282 | `round(n / d)`: the error is at most half of `d`, and exactly half only when the result is even |
| Grid.RoundedHalfEvenUnique | gui_stable_en.py:282 | round-half-to-even has exactly one answer |
| Grid.CalculateGrid | gui_stable_en.py:280-283 | the column count is returned unchanged; the row count is at least one and, above one, is `grid_w * img_h / img_w` rounded half to even |
| Grid.SingleRowExactly | gui_stable_en.py:280-283 | the row count is one exactly when the exact quotient is below one and a half |
| Grid.HalfHeightImage | gui_stable_en.py:280-283 | a 512×256 image over four columns gets two rows |
| Grid.TiesToEven | gui_stable_en.py:282 | 2.5 rows become two, 3.5 become four, 0.5 falls back to one |
| Canvas.GetCanvasType | gui_stable_en.py:315-325 | the result is the canvas kind of exactly that size, or `Small` for any other size; it never fails |
| Canvas.ClassifySize | gui_stable_en.py:315-323 | each of the four kinds is the classification of its own size |
| Canvas.ClassifyKnownSize | gui_stable_en.py:315-323 | a size of one of the four kinds is classified as that kind |
| Canvas.ClassifyFallback | gui_stable_en.py:324-325 | every size outside the table falls back to `Small` |
| Raster.Crop | gui_stable_en.py:380 | `crop(box)` gives an image of exactly the box's width and height |
| Raster.CropAt | gui_stable_en.py:380 | each crop pixel is the source pixel at the shifted position, and transparent off the source |
| Raster.CropInside | gui_stable_en.py:389 | a box inside the image is cut out without padding |
| Raster.CropWhole | gui_stable_en.py:380 | cropping the whole image gives the image back |
| Raster.NearestSource | gui_stable_en.py:378 | the nearest-neighbour sample lies inside the source |
| Raster.NearestSameSize | gui_stable_en.py:378 | without scaling, a coordinate samples itself |
| Raster.Resize | gui_stable_en.py:367 | `resize((w, h), NEAREST)` has exactly the requested size |
| Raster.ResizeCopiesSourcePixels | gui_stable_en.py:378 | every resized pixel is a pixel of the source at its nearest-neighbour position |
| Raster.ResizeSameSize | gui_stable_en.py:378 | resizing to the image's own size gives the image back |
| Policy.Stretches | gui_stable_en.py:377 | modes `"resize"` and `"auto"` stretch; every other mode crops |
| Policy.GridRows | gui_stable_en.py:374 | the grid has at least one row |
| Policy.WorkingImage | gui_stable_en.py:373-380 | the working image is exactly `grid_w * tile` by `grid_h * tile` |
| Policy.StretchSamples | gui_stable_en.py:377-378 | in modes `"resize"` and `"auto"` every pixel is the nearest-neighbour sample of the image |
| Policy.AutoIsResize | gui_stable_en.py:377 | `"auto"` and `"resize"` give the same working image |
| Policy.CropKeepsTopLeft | gui_stable_en.py:379-380 | every other mode keeps the image's pixels at their own places, anchored top-left, and is transparent where the grid reaches past the image |
| Policy.FittingImageUnchanged | gui_stable_en.py:373-380 | an image already the size of the grid is used unchanged in every mode |
| Tiles.TileBox | gui_stable_en.py:387-388 | the box of column `x`, row `y` is `tile` wide and `tile` high |
| Tiles.TileOf | gui_stable_en.py:385-388 | the box at row-major position `n` is a `tile` by `tile` square that starts at a non-negative pixel and ends within the grid's width |
| Tiles.TileWellOrdered | gui_stable_en.py:387-388 | every tile box is a box PIL accepts |
| Tiles.TileOrder | gui_stable_en.py:385-388 | the tile in column `x` of row `y` is at row-major position `y * grid_w + x` |
| Tiles.TileShape | gui_stable_en.py:387-388 | every tile is `tile` by `tile` and lies inside the grid's rectangle |
| Tiles.TilesDisjoint | gui_stable_en.py:385-388 | two different tiles share no pixel |
| Tiles.InsideCell | gui_stable_en.py:387-388 | a pixel inside tile `(x, y)` has column `px / tile == x` and row `py / tile == y` |
| Tiles.TilesCover | gui_stable_en.py:385-388 | every pixel of the grid's rectangle lies in the tile `(px / tile, py / tile)`, which is one of the grid's tiles |
| Tiles.TilePixels | gui_stable_en.py:387-389 | a tile's pixels are the working image's own pixels of its box, never padding |
| Tiles.TileBoxPixels | gui_stable_en.py:387-389 | pixel `(i, j)` of tile `(x, y)` is pixel `(x * tile + i, y * tile + j)` of the working image |
| Tiles.WorkPixelInItsTile | gui_stable_en.py:385-389 | every working-image pixel is found again in the tile that covers it |
| Paths.Join | gui_stable_en.py:366-368 | POSIX `os.path.join(dir, name)`: an absolute name is returned as it is; otherwise the result is the directory, with a `/` added unless it is empty or already ends in one, followed by the name |
| Paths.JoinUnder | gui_stable_en.py:390 | a relative name joined to the temporary directory lies inside it |
| Paths.JoinInjective | gui_stable_en.py:390-393 | joining to one folder keeps names apart when both or neither are absolute |
| Paths.RemoveFile | gui_stable_en.py:370 | `os.remove` drops that one path and changes no other file |
| Paths.RemoveWritten | gui_stable_en.py:368-370 | removing a file just written leaves the files as before, less any older file at that path |
| Paths.RemoveUnder | gui_stable_en.py:398-399 | `shutil.rmtree(dir)` drops exactly the files inside `dir` and keeps the others unchanged |
| Paths.RemoveUnderWrite | gui_stable_en.py:390-399 | writing a file inside `dir` makes no difference once `dir` is removed |
| Paths.RemoveUnderNothing | gui_stable_en.py:398-399 | removing a directory holding none of the files changes nothing |
| Names.TitleOf | gui_stable_en.py:358 | the title is never empty and contains no space |
| Names.AuthorOf | gui_stable_en.py:359 | the author is never empty |
| Names.NumberedTitle | gui_stable_en.py:392 | `f"{title}_{counter}"` is the title, an underscore and at least one digit, and nothing else |
| Names.PaintFile | gui_stable_en.py:368 | `f"{title}.paint"` is the title followed by `.paint` |
| Names.TileFileName | gui_stable_en.py:390 | `f"tile_{counter}.png"` is `tile_`, digits only, then `.png` |
| Names.TitleSpec | gui_stable_en.py:358 | the title is `"Untitled"` exactly when the field is all whitespace, and otherwise is the stripped field with each space replaced by `_` |
| Names.CleanTitleKept | gui_stable_en.py:358 | a field that is already a clean title is used as it is |
| Names.AuthorSpec | gui_stable_en.py:359 | the author is `"Player"` exactly when the field is all whitespace, and otherwise is the stripped field |
| Names.NumberThenSuffixInjective | gui_stable_en.py:390-393 | a number followed by a suffix that starts with a non-digit determines both the number and the suffix, even when the two suffixes differ |
| Names.NumberedNamesDistinct | gui_stable_en.py:390-393 | different tile numbers give different titles, output files and temporary PNG names |
| Names.NumberedTitlesDistinct | gui_stable_en.py:392 | different tile numbers give different `<title>_<n>` titles |
| Names.TileFileNamesDistinct | gui_stable_en.py:390 | different tile numbers give different `tile_<n>.png` names, because the number is read back from before `.png` |
| Plan.SingleCall | gui_stable_en.py:365-369 | the single-canvas call reads `single_temp.png` in the output folder and writes `<title>.paint` there, two different files; it sends an image of the requested size with the title, author and canvas type given |
| Plan.SingleCallStretches | gui_stable_en.py:367 | the single-canvas image is stretched, not cropped: each of its pixels is the source pixel nearest to its centre |
| Plan.SingleFilesDiffer | gui_stable_en.py:366-368 | the temporary PNG and the `.paint` file are never the same path, whatever the folder and title |
| Plan.SplitCall | gui_stable_en.py:389-394 | the call for position `n` reads `tile_<n+1>.png` in the temporary directory, writes `<title>_<n+1>.paint` in the output folder under that title, and sends a `tile` by `tile` image of canvas type `get_canvas_type(tile, tile)` |
| Plan.SplitCalls | gui_stable_en.py:385-394 | a split export plans `grid_w * grid_h` calls |
| Plan.SplitCallsOrder | gui_stable_en.py:385-394 | the call at row-major position `y * grid_w + x` is numbered `y * grid_w + x + 1`, reads `tile_<n>.png`, writes `<title>_<n>.paint` and sends the crop of box `(x, y)` |
| Plan.SplitCallImage | gui_stable_en.py:387-389 | the call for column `x` of row `y` sends the crop of that tile's box |
| Plan.SplitCallsShape | gui_stable_en.py:389-394 | every split call reads a PNG inside the temporary directory, sends a `tile` by `tile` image and uses canvas type `get_canvas_type(tile, tile)` |
| Plan.TempTileUnder | gui_stable_en.py:390 | the temporary PNG of every tile lies inside the temporary directory |
| Plan.NumberedPathsDistinct | gui_stable_en.py:390-393 | different tile numbers give different temporary paths, output paths and titles |
| Plan.SplitCallsDistinct | gui_stable_en.py:390-394 | no two split calls share a temporary PNG, an output file or a title |
| Plan.SplitCallPixel | gui_stable_en.py:387-394 | the call for tile `(x, y)` sends pixel `(x * tile + i, y * tile + j)` of the working image at `(i, j)` |
| Plan.SplitCallsCover | gui_stable_en.py:385-394 | pixel `(px, py)` of the working image is sent at `(px % tile, py % tile)` by the call at position `(py / tile) * grid_w + px / tile`, the call of the tile that covers it |
| Plan.SplitCanvasTypes | gui_stable_en.py:394 | 32-pixel tiles are sent as large canvases and 16-pixel tiles as small ones |
| Exports.FirstFailure | gui_stable_en.py:385-396 | the position of the first call that raises: there is none exactly when no call raises, and when there is one every earlier call returned |
| Exports.SplitExport | gui_stable_en.py:382-399 | a split export leaves the PNG files the window wrote as they were (the converter's `.paint` files are not tracked); it reports every canvas exported exactly when all planned calls were made and none raised, and otherwise reports the call that raised, with every earlier call made and returned |
| Exports.SplitExportUnique | gui_stable_en.py:382-399 | a trace of converted calls, or one ending in the call that raised, is the one the split export describes |
| Exports.SplitExportPrefix | gui_stable_en.py:385-396 | the calls a split export adds are a prefix of the plan, at least the first call of a non-empty plan and all of it when every canvas was exported |
| Exports.SingleExport | gui_stable_en.py:364-371 | an unreadable size changes nothing; otherwise exactly one call is made, its image resized to the size, and the export reports success exactly when that call returns |
| Exports.ConvertSingle | gui_stable_en.py:366-370 | saving, converting and removing adds exactly that one call and reports whether it raised |
| Exports.SingleExportFiles | gui_stable_en.py:366-370 | after success the PNG files are as before, less `single_temp.png`; after the converter raises, the files are the old files with `single_temp.png` added, holding the image sent, and nothing else |
| Exports.ConvertStep | gui_stable_en.py:385-396 | each call either extends the run of calls that returned or is the one that raised |
| Gui.JoPWindow.constructor | gui_stable_en.py:27-76 | a fresh window has no image, is in single-canvas mode (the radio button checked at line 76) at `"32x32"`, has four 32-pixel columns in mode `"auto"`, and has written nothing |
| Gui.JoPWindow.SetSingleMode | gui_stable_en.py:74-80 | the mode radio buttons set single-canvas or split mode |
| Gui.JoPWindow.SetCanvasSize | gui_stable_en.py:219-224 | `set_canvas_size` stores the label |
| Gui.JoPWindow.SetSplitCanvasSize | gui_stable_en.py:226-231 | `set_split_canvas_size` stores the tile size |
| Gui.JoPWindow.SetResizeMode | gui_stable_en.py:260-262 | `set_resize_mode` stores the mode |
| Gui.JoPWindow.ChangeGridWidth | gui_stable_en.py:264-266 | `change_grid_width` stores the column count |
| Gui.JoPWindow.OpenPng | gui_stable_en.py:285-294 | a cancelled dialog or an unreadable file leaves the image as it was; otherwise the decoded image replaces it |
| Gui.JoPWindow.PreviewImage | gui_stable_en.py:327-343 | there is a preview exactly when an image is loaded and, in single mode, the size is readable; it has the single-canvas size, or the size of the tile grid in split mode |
| Gui.JoPWindow.ExportMatchesPreview | gui_stable_en.py:336-343 | in split mode every tile sent is cut out of the image the preview shows, and in single mode the one image sent is the preview itself |
| Gui.JoPWindow.ConvertTile | gui_stable_en.py:347-351 | one converter call is recorded, with the pixels saved at the PNG path and canvas type `get_canvas_type(w, h)`, and it reports whether the call raised |
| Gui.JoPWindow.ConvertTiles | gui_stable_en.py:382-397 | the nested loop makes the planned calls in row-major order until one raises, reports its position, and changes no file outside the temporary directory |
| Gui.JoPWindow.ExportResult | gui_stable_en.py:353-362 | without an image or a folder, `export` makes no call and writes no file; it makes calls only with both |
| Gui.JoPWindow.ExportSingle | gui_stable_en.py:364-371 | the single-canvas branch ends as `Exports.SingleExport` describes |
| Gui.JoPWindow.SaveAndConvert | gui_stable_en.py:366-370 | saving, converting and removing the PNG ends as `Exports.ConvertSingle` describes |
| Gui.JoPWindow.ExportSplit | gui_stable_en.py:372-399 | the split branch ends as `Exports.SplitExport` describes for the plan of the current settings, and the temporary directory is gone on every exit |
| Gui.JoPWindow.Export | gui_stable_en.py:353-399 | `export` ends in the state `ExportResult` describes, and no temporary directory outlives it |

## Left out

- The Qt window: widgets, layout, style sheet and button icons, with their floating-point scaling. The radio buttons, the slider and the size buttons appear only as the setters they call.
- The file dialogs. Their results are parameters: the picked PNG path, the output folder (empty when cancelled), and the image PIL decoded.
- The grid overlay and display scaling of the preview. The model stops at the image before the overlay (`Gui.JoPWindow.PreviewImage`).
- Log messages and their timestamps, and the one-second `time.sleep` after each conversion. They affect no state the model has.
- The converter `importImage` and the canvas-type enum. Both live in a package that is not part of this model. The converter is a recorded call plus an oracle saying whether it raises; the enum is a datatype of its four kinds.
- PNG encoding and decoding and `convert("RGBA")`. A saved file holds exactly the image saved, and `open_png` is given the decoded image or `None`.
- The floating-point quotient in `calculate_grid`. The row count is the exact rational rounded half to even. On exact ties the float could in principle round differently.
- `mkdtemp` picking a fresh name. `Gui.JoPWindow.Export` requires the name it is given to be a directory the window has not created and to hold none of its files.
- Text.ParseInt: does not accept the underscores between digits or the non-ASCII digits that Python's `int` also reads. The window's own labels use neither.
- Gui.JoPWindow.SetSplitCanvasSize: requires a size of at least one. The two buttons pass only 16 or 32.
- Gui.JoPWindow.ChangeGridWidth: requires a value of at least one. The slider's range is 1 to 10.
- Gui.JoPWindow.OpenPng: requires a decoded image to be non-empty. PIL does not decode an empty PNG.
- Raster.NearestSource: PIL computes the sample position in floating point, by adding the step `src / dst` to a running total pixel by pixel. The model uses the exact value `floor((2i + 1) * src / (2 * dst))`. Rounding in the float can in principle pick a neighbouring pixel.
- Paths.Join: models `posixpath.join`, with `/` as separator. On Windows `os.path.join` is `ntpath.join`, which also takes `\` and drive letters; that is not modelled.
- Failing file operations. The model assumes that `save` (lines 367 and 391), `os.remove` (line 370), `mkdtemp` (line 383) and `rmtree` (line 399) always succeed. In the source, a failing save at line 367 ends a single export before any converter call. A failing save at line 391 ends the split loop, and the `finally` still runs.
- Concurrency is absent from the source and the model (the export runs on the GUI thread).
