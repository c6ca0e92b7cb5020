/**
 * The conversion window: the settings its buttons and slider change, the
 * image it holds, the preview it shows, and the export that sends that image
 * to the converter as one canvas or as a grid of tiles.
 *
 * The converter itself is not modelled; every call made to it is recorded
 * in the ghost trace `calls`, and whether a call raises is the oracle
 * `fails` an export is given.
 */
module Gui {
  import opened Wrappers
  import opened Sizes
  import opened Grid
  import opened Canvas
  import opened Raster
  import opened Policy
  import opened Tiles
  import opened Paths
  import opened Names
  import opened Plan
  import opened Exports

  class JoPWindow {
    var currentImage: Option<Image>
    var singleMode: bool
    var singleCanvasSize: string
    var splitCanvasSize: int
    var gridWidth: int
    var resizeMode: string

    /** The PNG files the window has written and not removed, with their pixels. */
    var pngFiles: map<string, Image>
    /** The temporary directories the window has created and not removed. */
    var tempDirs: set<string>
    /** Every converter call made so far, in order. */
    ghost var calls: seq<Call>

    /** The slider never goes below one column, the tile size is positive, and a loaded image is not empty. */
    ghost predicate Valid()
      reads this`gridWidth, this`splitCanvasSize, this`currentImage
    {
      && gridWidth >= 1
      && splitCanvasSize >= 1
      && (currentImage.Some? ==> currentImage.value.width > 0 && currentImage.value.height > 0)
    }

    /** A fresh window: no image, single-canvas mode at 32x32, four 32-pixel columns, mode `"auto"`. */
    constructor ()
      ensures Valid()
      ensures currentImage == None && singleMode
      ensures singleCanvasSize == "32x32" && splitCanvasSize == 32 && gridWidth == 4 && resizeMode == "auto"
      ensures pngFiles == map[] && tempDirs == {} && calls == []
    {
      currentImage := None;
      singleMode := true;
      singleCanvasSize := "32x32";
      splitCanvasSize := 32;
      gridWidth := 4;
      resizeMode := "auto";
      pngFiles := map[];
      tempDirs := {};
      calls := [];
    }

    /** "Single Canvas" or "Split" picked. */
    method SetSingleMode(single: bool)
      requires Valid()
      modifies this`singleMode
      ensures Valid() && singleMode == single
    {
      singleMode := single;
    }

    /** `set_canvas_size`: a single-canvas size button picked. */
    method SetCanvasSize(size: string)
      requires Valid()
      modifies this`singleCanvasSize
      ensures Valid() && singleCanvasSize == size
    {
      singleCanvasSize := size;
    }

    /** `set_split_canvas_size`: a tile size button picked (its label's width, 16 or 32). */
    method SetSplitCanvasSize(size: int)
      requires Valid() && size >= 1
      modifies this`splitCanvasSize
      ensures Valid() && splitCanvasSize == size
    {
      splitCanvasSize := size;
    }

    /** `set_resize_mode`: a resize mode picked. */
    method SetResizeMode(mode: string)
      requires Valid()
      modifies this`resizeMode
      ensures Valid() && resizeMode == mode
    {
      resizeMode := mode;
    }

    /** `change_grid_width`: the slider moved (its range is 1 to 10). */
    method ChangeGridWidth(value: int)
      requires Valid() && value >= 1
      modifies this`gridWidth
      ensures Valid() && gridWidth == value
    {
      gridWidth := value;
    }

    /**
     * `open_png`: `picked` is the path the file dialog returned and `decoded`
     * the image PIL read from it, if it could. A cancelled dialog or an
     * unreadable file leaves the image as it was.
     */
    method OpenPng(picked: string, decoded: Option<Image>)
      requires Valid()
      requires decoded.Some? ==> decoded.value.width > 0 && decoded.value.height > 0
      modifies this`currentImage
      ensures Valid()
      ensures currentImage == (if picked != [] && decoded.Some? then decoded else old(currentImage))
    {
      if picked == [] {
        return;
      }
      if decoded.Some? {
        currentImage := decoded;
      }
    }

    /**
     * `update_preview`, before its grid overlay and scaling for display: the
     * image resized to the single-canvas size, or the working image of a
     * split export. There is nothing to show without an image, nor when the
     * single-canvas size cannot be read.
     */
    function PreviewImage(): (r: Option<Image>)
      reads this`currentImage, this`singleMode, this`singleCanvasSize, this`gridWidth, this`splitCanvasSize,
        this`resizeMode
      requires Valid()
      ensures r.Some? <==> currentImage.Some? && (singleMode ==> CanvasDims(singleCanvasSize).Some?)
      ensures r.Some? && singleMode ==> (r.value.width, r.value.height) == CanvasDims(singleCanvasSize).value
      ensures r.Some? && !singleMode ==> (r.value.width == gridWidth * splitCanvasSize
        && r.value.height == GridRows(currentImage.value, gridWidth) * splitCanvasSize)
    {
      match currentImage
      case None => None
      case Some(img) =>
        if singleMode then
          match CanvasDims(singleCanvasSize)
          case None => None
          case Some((w, h)) => Some(Resize(img, w, h))
        else Some(WorkingImage(img, gridWidth, splitCanvasSize, resizeMode))
    }

    /** The calls a split export of the current image makes, given its title, author and directories. */
    ghost function SplitPlan(title: string, author: string, outputDir: string, tempDir: string): (plan: seq<Call>)
      reads this`currentImage, this`gridWidth, this`splitCanvasSize, this`resizeMode
      requires Valid() && currentImage.Some?
      ensures |plan| == gridWidth * GridRows(currentImage.value, gridWidth)
    {
      var img := currentImage.value;
      SplitCalls(WorkingImage(img, gridWidth, splitCanvasSize, resizeMode), gridWidth, GridRows(img, gridWidth),
                 splitCanvasSize, title, author, outputDir, tempDir)
    }

    /**
     * In split mode every tile sent is cut out of the image the preview
     * shows, and in single mode the one image sent is the preview itself.
     */
    lemma ExportMatchesPreview(title: string, author: string, outputDir: string, tempDir: string)
      requires Valid() && currentImage.Some?
      ensures !singleMode ==> var plan := SplitPlan(title, author, outputDir, tempDir);
        forall n :: 0 <= n < |plan| ==> plan[n].image == Crop(PreviewImage().value, TileOf(n, gridWidth, splitCanvasSize))
      ensures singleMode && CanvasDims(singleCanvasSize).Some? ==> var (w, h) := CanvasDims(singleCanvasSize).value;
        SingleCall(currentImage.value, w, h, title, author, outputDir).image == PreviewImage().value
    {
    }

    /** `convert_tile`: one converter call, reading the PNG at `pngPath`. */
    method ConvertTile(pngPath: string, outPath: string, title: string, author: string, w: int, h: int,
                       fails: Call -> bool)
      returns (ok: bool)
      requires pngPath in pngFiles
      modifies this`calls
      ensures calls == old(calls) + [Call(pngPath, outPath, title, author, GetCanvasType(w, h), pngFiles[pngPath])]
      ensures ok == !fails(calls[|calls| - 1])
    {
      var c := Call(pngPath, outPath, title, author, GetCanvasType(w, h), pngFiles[pngPath]);
      calls := calls + [c];
      ok := !fails(c);
    }

    /**
     * The `try` body of a split export: tile after tile, row by row, save
     * the tile into `tempDir` and convert it, until the converter raises.
     */
    method ConvertTiles(work: Image, gridW: nat, gridH: nat, tile: nat, title: string, author: string,
                        outputDir: string, tempDir: string, fails: Call -> bool)
      returns (failedAt: Option<nat>)
      requires gridW > 0
      modifies this`pngFiles, this`calls
      ensures RemoveUnder(pngFiles, tempDir) == RemoveUnder(old(pngFiles), tempDir)
      ensures var plan := SplitCalls(work, gridW, gridH, tile, title, author, outputDir, tempDir);
        match failedAt
        case None => Converted(old(calls), calls, plan, |plan|, fails)
        case Some(n) => RaisedAt(old(calls), calls, plan, n, fails)
    {
      ghost var plan := SplitCalls(work, gridW, gridH, tile, title, author, outputDir, tempDir);
      var counter := 1;
      var y := 0;
      while y < gridH
        invariant 0 <= y <= gridH
        invariant counter == y * gridW + 1
        invariant Converted(old(calls), calls, plan, counter - 1, fails)
        invariant RemoveUnder(pngFiles, tempDir) == RemoveUnder(old(pngFiles), tempDir)
      {
        var x := 0;
        while x < gridW
          invariant 0 <= x <= gridW
          invariant counter == y * gridW + x + 1
          invariant Converted(old(calls), calls, plan, counter - 1, fails)
          invariant RemoveUnder(pngFiles, tempDir) == RemoveUnder(old(pngFiles), tempDir)
        {
          SplitCallsOrder(work, gridW, gridH, tile, title, author, outputDir, tempDir, x, y);
          var box := Box(x * tile, y * tile, (x + 1) * tile, (y + 1) * tile);
          var piece := Crop(work, box);
          var tempPng := Join(tempDir, TileFileName(counter));
          TempTileUnder(tempDir, counter);
          RemoveUnderWrite(pngFiles, tempDir, tempPng, piece);
          pngFiles := pngFiles[tempPng := piece];
          var uniqueTitle := NumberedTitle(title, counter);
          var outPath := Join(outputDir, PaintFile(uniqueTitle));
          ghost var before := calls;
          var ok := ConvertTile(tempPng, outPath, uniqueTitle, author, tile, tile, fails);
          ConvertStep(old(calls), before, plan, counter - 1, fails);
          if !ok {
            return Some(counter - 1);
          }
          counter := counter + 1;
          x := x + 1;
        }
        assert (y + 1) * gridW == y * gridW + gridW;
        y := y + 1;
      }
      assert counter - 1 == |plan|;
      return None;
    }

    /**
     * How `export` ends, going from calls `calls0` and files `files0`: without
     * an image or an output folder nothing happens; otherwise the single-canvas
     * or the split export runs with the title and author read from the fields.
     */
    ghost function ExportResult(titleText: string, authorText: string, outputDir: string, tempDir: string,
                                fails: Call -> bool, calls0: seq<Call>, files0: map<string, Image>): (e: End)
      reads this`currentImage, this`singleMode, this`singleCanvasSize, this`gridWidth, this`splitCanvasSize,
        this`resizeMode
      requires Valid()
      ensures currentImage.None? ==> e == End(calls0, files0, NoImageLoaded)
      ensures currentImage.Some? && outputDir == [] ==> e == End(calls0, files0, NoDirectory)
      ensures e.calls != calls0 ==> currentImage.Some? && outputDir != []
    {
      if currentImage.None? then End(calls0, files0, NoImageLoaded)
      else if outputDir == [] then End(calls0, files0, NoDirectory)
      else if singleMode then
        SingleExport(currentImage.value, singleCanvasSize, TitleOf(titleText), AuthorOf(authorText), outputDir,
                     fails, calls0, files0)
      else SplitExport(SplitPlan(TitleOf(titleText), AuthorOf(authorText), outputDir, tempDir), fails, calls0, files0)
    }

    /** The single-canvas branch of `export`. */
    method ExportSingle(title: string, author: string, outputDir: string, fails: Call -> bool)
      returns (outcome: Outcome)
      requires Valid() && currentImage.Some?
      modifies this`pngFiles, this`calls
      ensures Valid()
      ensures End(calls, pngFiles, outcome)
        == SingleExport(currentImage.value, singleCanvasSize, title, author, outputDir, fails, old(calls), old(pngFiles))
    {
      var dims := CanvasDims(singleCanvasSize);
      if dims.None? {
        return BadCanvasSize;
      }
      var w, h := dims.value.0, dims.value.1;
      var c := SingleCall(currentImage.value, w, h, title, author, outputDir);
      outcome := SaveAndConvert(c, w, h, fails);
    }

    /** The rest of the single-canvas branch: save the PNG of `c`, convert it, and remove the PNG. */
    method SaveAndConvert(c: Call, w: int, h: int, fails: Call -> bool) returns (outcome: Outcome)
      requires c.canvas == GetCanvasType(w, h)
      modifies this`pngFiles, this`calls
      ensures End(calls, pngFiles, outcome) == ConvertSingle(c, fails, old(calls), old(pngFiles))
    {
      pngFiles := pngFiles[c.source := c.image];
      var ok := ConvertTile(c.source, c.target, c.title, c.author, w, h, fails);
      if !ok {
        return ConverterRaised(0);
      }
      RemoveWritten(old(pngFiles), c.source, c.image);
      pngFiles := RemoveFile(pngFiles, c.source);
      return Exported(1);
    }

    /** The split branch of `export`, with its `try`/`finally`. */
    method ExportSplit(title: string, author: string, outputDir: string, tempDir: string, fails: Call -> bool)
      returns (outcome: Outcome)
      requires Valid() && currentImage.Some?
      requires tempDir !in tempDirs && forall p :: p in pngFiles ==> !Under(p, tempDir)
      modifies this`pngFiles, this`tempDirs, this`calls
      ensures Valid() && tempDirs == old(tempDirs)
      ensures End(calls, pngFiles, outcome)
        == SplitExport(SplitPlan(title, author, outputDir, tempDir), fails, old(calls), old(pngFiles))
    {
      var img := currentImage.value;
      var gridW := gridWidth;
      var gridH := CalculateGrid(img.width, img.height, gridW).1;
      var work := WorkingImage(img, gridW, splitCanvasSize, resizeMode);
      tempDirs := tempDirs + {tempDir};
      var failedAt := ConvertTiles(work, gridW, gridH, splitCanvasSize, title, author, outputDir, tempDir, fails);
      // `finally: shutil.rmtree(temp_dir)`
      RemoveUnderNothing(old(pngFiles), tempDir);
      pngFiles := RemoveUnder(pngFiles, tempDir);
      tempDirs := tempDirs - {tempDir};
      SplitExportUnique(SplitPlan(title, author, outputDir, tempDir), fails, old(calls), old(pngFiles), calls, failedAt);
      if failedAt.Some? {
        return ConverterRaised(failedAt.value);
      }
      return Exported(gridW * gridH);
    }

    /**
     * `export`. `titleText` and `authorText` are the two text fields,
     * `outputDir` the folder the dialog returned (empty when cancelled),
     * `tempDir` the fresh directory `mkdtemp` creates, and `fails` tells which
     * converter calls raise.
     */
    method Export(titleText: string, authorText: string, outputDir: string, tempDir: string, fails: Call -> bool)
      returns (outcome: Outcome)
      requires Valid()
      requires tempDir !in tempDirs && forall p :: p in pngFiles ==> !Under(p, tempDir)
      modifies this`pngFiles, this`tempDirs, this`calls
      ensures Valid() && tempDirs == old(tempDirs)
      ensures End(calls, pngFiles, outcome)
        == ExportResult(titleText, authorText, outputDir, tempDir, fails, old(calls), old(pngFiles))
    {
      if currentImage.None? {
        return NoImageLoaded;
      }
      var title := TitleOf(titleText);
      var author := AuthorOf(authorText);
      if outputDir == [] {
        return NoDirectory;
      }
      if singleMode {
        outcome := ExportSingle(title, author, outputDir, fails);
      } else {
        outcome := ExportSplit(title, author, outputDir, tempDir, fails);
      }
    }
  }
}
