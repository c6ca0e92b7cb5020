/**
 * How an export ends, as a function of what it starts from: the converter
 * calls made so far, the PNG files the window writes, and which converter calls raise.
 */
module Exports {
  import opened Wrappers
  import opened Sizes
  import opened Raster
  import opened Paths
  import opened Names
  import opened Plan

  /** How an export ends. */
  datatype Outcome =
    | NoImageLoaded           // "Error: First load a PNG image."
    | NoDirectory             // the folder dialog was cancelled
    | BadCanvasSize           // the single-canvas size does not read as two integers of at least one
    | Exported(canvases: nat) // every converter call returned
    | ConverterRaised(index: nat) // the converter call at this 0-based position raised, and `export` with it

  /** The state an export leaves: every converter call made so far, the PNG files the window wrote, and the outcome. */
  datatype End = End(calls: seq<Call>, files: map<string, Image>, outcome: Outcome)

  /** The position of the first call of `plan` that raises, if any does. */
  function FirstFailure(plan: seq<Call>, fails: Call -> bool): (r: Option<nat>)
    ensures r.None? <==> forall m :: 0 <= m < |plan| ==> !fails(plan[m])
    ensures r.Some? ==> r.value < |plan| && fails(plan[r.value]) && forall m :: 0 <= m < r.value ==> !fails(plan[m])
    decreases |plan|
  {
    if |plan| == 0 then None
    else if fails(plan[0]) then Some(0)
    else
      var rest := FirstFailure(plan[1..], fails);
      assert forall m :: 1 <= m < |plan| ==> plan[1..][m - 1] == plan[m];
      match rest
      case None => None
      case Some(n) => Some(n + 1)
  }

  /** The first `k` calls of `plan` were made after `calls0`, and none of them raised. */
  ghost predicate Converted(calls0: seq<Call>, calls: seq<Call>, plan: seq<Call>, k: int, fails: Call -> bool) {
    && 0 <= k <= |plan|
    && calls == calls0 + plan[..k]
    && forall m :: 0 <= m < k ==> !fails(plan[m])
  }

  /** The calls of `plan` up to position `n` were made after `calls0`, and only the last one raised. */
  ghost predicate RaisedAt(calls0: seq<Call>, calls: seq<Call>, plan: seq<Call>, n: int, fails: Call -> bool) {
    && 0 <= n < |plan|
    && calls == calls0 + plan[..n + 1]
    && fails(plan[n])
    && forall m :: 0 <= m < n ==> !fails(plan[m])
  }

  /**
   * A split export with calls `plan`: the calls are made in order until one
   * raises, and whichever way it ends the temporary directory goes with every
   * tile PNG in it, so the PNG files the window wrote are as before (the
   * `.paint` files the converter writes are not tracked).
   */
  ghost function SplitExport(plan: seq<Call>, fails: Call -> bool, calls0: seq<Call>, files0: map<string, Image>): (e: End)
    ensures e.files == files0
    ensures e.outcome.Exported? || e.outcome.ConverterRaised?
    ensures e.outcome.Exported? <==> Converted(calls0, e.calls, plan, |plan|, fails)
    ensures e.outcome.Exported? ==> e.outcome.canvases == |plan|
    ensures e.outcome.ConverterRaised? ==> RaisedAt(calls0, e.calls, plan, e.outcome.index, fails)
  {
    match FirstFailure(plan, fails)
    case None => End(calls0 + plan, files0, Exported(|plan|))
    case Some(n) => End(calls0 + plan[..n + 1], files0, ConverterRaised(n))
  }

  /**
   * The converter calls made are exactly the plan's calls up to the first
   * that raises: a trace that ends in `Converted` or `RaisedAt` is the one
   * `SplitExport` describes.
   */
  lemma SplitExportUnique(plan: seq<Call>, fails: Call -> bool, calls0: seq<Call>, files0: map<string, Image>,
                          calls: seq<Call>, failedAt: Option<nat>)
    requires failedAt.None? ==> Converted(calls0, calls, plan, |plan|, fails)
    requires failedAt.Some? ==> RaisedAt(calls0, calls, plan, failedAt.value, fails)
    ensures SplitExport(plan, fails, calls0, files0)
      == End(calls, files0, if failedAt.None? then Exported(|plan|) else ConverterRaised(failedAt.value))
  {
    assert plan[..|plan|] == plan;
    var first := FirstFailure(plan, fails);
    if failedAt.Some? {
      assert first.Some? && first.value == failedAt.value;
    }
  }

  /**
   * The calls a split export adds are a prefix of the plan, at least its first
   * call when there is one and all of it when every canvas was exported.
   */
  lemma SplitExportPrefix(plan: seq<Call>, fails: Call -> bool, calls0: seq<Call>, files0: map<string, Image>)
    ensures var e := SplitExport(plan, fails, calls0, files0);
      && |calls0| <= |e.calls| <= |calls0| + |plan|
      && e.calls[..|calls0|] == calls0
      && (forall k :: |calls0| <= k < |e.calls| ==> e.calls[k] == plan[k - |calls0|])
      && (|plan| > 0 ==> |calls0| < |e.calls|)
      && (e.outcome.Exported? ==> |e.calls| == |calls0| + |plan|)
  {
    var e := SplitExport(plan, fails, calls0, files0);
    var made := if e.outcome.Exported? then |plan| else e.outcome.index + 1;
    assert e.calls == calls0 + plan[..made];
  }

  /**
   * A single-canvas export of `img` at size `size`: an unreadable size raises
   * before anything happens; otherwise the resized image is saved as
   * `single_temp.png` in the output folder and converted, and that PNG is
   * removed only when the converter returns.
   */
  ghost function SingleExport(img: Image, size: string, title: string, author: string, outputDir: string,
                              fails: Call -> bool, calls0: seq<Call>, files0: map<string, Image>): (e: End)
    requires img.width > 0 && img.height > 0
    ensures CanvasDims(size).None? ==> e == End(calls0, files0, BadCanvasSize)
    ensures CanvasDims(size).Some? ==>
      var c := SingleCall(img, CanvasDims(size).value.0, CanvasDims(size).value.1, title, author, outputDir);
      && e.calls == calls0 + [c]
      && (e.outcome == Exported(1) <==> !fails(c))
      && (e.outcome.Exported? || e.outcome == ConverterRaised(0))
  {
    match CanvasDims(size)
    case None => End(calls0, files0, BadCanvasSize)
    case Some(dims) => ConvertSingle(SingleCall(img, dims.0, dims.1, title, author, outputDir), fails, calls0, files0)
  }

  /** Saving the PNG of call `c`, converting it, and removing the PNG only when the converter returns. */
  ghost function ConvertSingle(c: Call, fails: Call -> bool, calls0: seq<Call>, files0: map<string, Image>): (e: End)
    ensures e.calls == calls0 + [c]
    ensures e.outcome == (if fails(c) then ConverterRaised(0) else Exported(1))
  {
    if fails(c) then End(calls0 + [c], files0[c.source := c.image], ConverterRaised(0))
    else End(calls0 + [c], RemoveFile(files0, c.source), Exported(1))
  }

  /**
   * The PNG files a single-canvas export leaves: when the converter returns,
   * the PNG files are as before, less any earlier `single_temp.png`; when it
   * raises, `single_temp.png` stays behind holding the resized image and
   * nothing else is added or changed.
   */
  lemma SingleExportFiles(img: Image, size: string, title: string, author: string, outputDir: string,
                          fails: Call -> bool, calls0: seq<Call>, files0: map<string, Image>)
    requires img.width > 0 && img.height > 0
    ensures var e := SingleExport(img, size, title, author, outputDir, fails, calls0, files0);
      var temp := Join(outputDir, SingleTempName);
      && (e.outcome.Exported? ==> forall p :: p in e.files <==> p in files0 && p != temp)
      && (e.outcome.Exported? ==> forall p :: p in e.files ==> e.files[p] == files0[p])
      && (e.outcome.ConverterRaised? ==> e.files == files0[temp := e.calls[|e.calls| - 1].image])
      && (e.outcome.ConverterRaised? ==> forall p :: p in e.files <==> p in files0 || p == temp)
  {
  }

  /** Making call `k` of the plan either extends the converted prefix or is where the export raises. */
  lemma ConvertStep(calls0: seq<Call>, calls: seq<Call>, plan: seq<Call>, k: nat, fails: Call -> bool)
    requires Converted(calls0, calls, plan, k, fails) && k < |plan|
    ensures !fails(plan[k]) ==> Converted(calls0, calls + [plan[k]], plan, k + 1, fails)
    ensures fails(plan[k]) ==> RaisedAt(calls0, calls + [plan[k]], plan, k, fails)
  {
    assert plan[..k] + [plan[k]] == plan[..k + 1];
  }
}
