/** The job half of prezi-scrapper/prezi_scraper.py as imperative code:
    `process_presentation` (open a browser, capture and advance once per
    slide, build one page per capture, write the document, and in `finally`
    quit the browser and delete the captures) and `main` (run every
    configured job in order).

    The browser, the recogniser and the file system are one `World` object.
    Every call on it is appended to its log, and the call made at log
    position p raises exactly when p is in the fixed set `failing`, so
    every way a run can be interrupted is one choice of that set. Each
    method is proved to follow the plan of module JobPlan. */
module Scraper {
  import opened Overlay
  import opened JobPlan

  class World {
    const setting: Setting
    var log: seq<Call>
    var files: map<string, File>
    var url: string   // the page the browser shows
    var step: nat     // advances sent since that page was loaded

    constructor (setting: Setting, files: map<string, File>)
      ensures this.setting == setting && this.files == files
      ensures log == [] && url == "" && step == 0
    {
      this.setting, this.files := setting, files;
      log, url, step := [], "", 0;
    }

    /** Whether the next call raises. */
    predicate NextFails()
      reads this
    {
      |log| in setting.failing
    }

    method Launch() returns (ok: bool)
      modifies this`log, this`url, this`step
      ensures ok == !old(NextFails()) && log == old(log) + [Call.Launch]
      ensures url == (if ok then "" else old(url)) && step == (if ok then 0 else old(step))
    {
      ok := !NextFails();
      log := log + [Call.Launch];
      if ok {
        url, step := "", 0;
      }
    }

    method Get(u: string) returns (ok: bool)
      modifies this`log, this`url, this`step
      ensures ok == !old(NextFails()) && log == old(log) + [Call.Get(u)]
      ensures url == (if ok then u else old(url)) && step == (if ok then 0 else old(step))
    {
      ok := !NextFails();
      log := log + [Call.Get(u)];
      if ok {
        url, step := u, 0;
      }
    }

    method FindBody() returns (ok: bool)
      modifies this`log
      ensures ok == !old(NextFails()) && log == old(log) + [Call.FindBody]
    {
      ok := !NextFails();
      log := log + [Call.FindBody];
    }

    /** What a screenshot taken now shows. */
    function Shot(): Image
      reads this
    {
      JobPlan.Shot(setting, url, step)
    }

    method Screenshot(path: string) returns (ok: bool)
      modifies this`log, this`files
      ensures ok == !old(NextFails()) && log == old(log) + [Call.Screenshot(path)]
      ensures files == if ok then old(files)[path := Png(Shot())] else old(files)
    {
      ok := !NextFails();
      log := log + [Call.Screenshot(path)];
      if ok {
        files := files[path := Png(Shot())];
      }
    }

    /** Opening fails when injected, and when the path holds no image. */
    method OpenImage(path: string) returns (ok: bool, img: Image)
      modifies this`log
      ensures ok == (!old(NextFails()) && path in files && files[path].Png?)
      ensures log == old(log) + [Call.OpenImage(path)]
      ensures ok ==> img == files[path].image
    {
      ok := !NextFails() && path in files && files[path].Png?;
      log := log + [Call.OpenImage(path)];
      img := if ok then files[path].image else Image(0, 0, Screen("", 0));
    }

    method Recognize(img: Image) returns (ok: bool, boxes: seq<OcrBox>)
      modifies this`log
      ensures ok == !old(NextFails()) && log == old(log) + [Call.Recognize]
      ensures ok ==> boxes == setting.recognize(img)
    {
      ok := !NextFails();
      log := log + [Call.Recognize];
      boxes := if ok then setting.recognize(img) else [];
    }

    method Advance() returns (ok: bool)
      modifies this`log, this`step
      ensures ok == !old(NextFails()) && log == old(log) + [Call.Advance]
      ensures step == if ok then old(step) + 1 else old(step)
    {
      ok := !NextFails();
      log := log + [Call.Advance];
      if ok {
        step := step + 1;
      }
    }

    /** `open(path, "wb")` creates or empties the file. */
    method OpenOutput(path: string) returns (ok: bool)
      modifies this`log, this`files
      ensures ok == !old(NextFails()) && log == old(log) + [Call.OpenOutput(path)]
      ensures files == if ok then old(files)[path := Truncated] else old(files)
    {
      ok := !NextFails();
      log := log + [Call.OpenOutput(path)];
      if ok {
        files := files[path := Truncated];
      }
    }

    /** A failed write leaves the opened file as it was: truncated. */
    method WritePdf(path: string, pages: seq<Page>) returns (ok: bool)
      modifies this`log, this`files
      ensures ok == !old(NextFails()) && log == old(log) + [Call.WritePdf(path)]
      ensures files == if ok then old(files)[path := Pdf(pages)] else old(files)
    {
      ok := !NextFails();
      log := log + [Call.WritePdf(path)];
      if ok {
        files := files[path := Pdf(pages)];
      }
    }

    method Quit() returns (ok: bool)
      modifies this`log
      ensures ok == !old(NextFails()) && log == old(log) + [Call.Quit]
    {
      ok := !NextFails();
      log := log + [Call.Quit];
    }

    /** Removing a path that does not exist changes nothing. */
    method Remove(path: string) returns (ok: bool)
      modifies this`log, this`files
      ensures ok == !old(NextFails()) && log == old(log) + [Call.Remove(path)]
      ensures files == if ok then old(files) - {path} else old(files)
    {
      ok := !NextFails();
      log := log + [Call.Remove(path)];
      if ok {
        files := files - {path};
      }
    }
  }

  /** pypdf's `PdfWriter`: the pages added so far, in order. */
  class PdfWriter {
    var pages: seq<Page>

    constructor ()
      ensures pages == []
    {
      pages := [];
    }

    method AddPage(page: Page)
      modifies this
      ensures pages == old(pages) + [page]
    {
      pages := pages + [page];
    }
  }

  /** The body of one iteration of the slide loop (lines 109-128). */
  method CaptureSlide(w: World, writer: PdfWriter, name: string, i: nat) returns (ok: bool, saved: bool)
    requires w.setting.screenHeight > CROP_TOP + CROP_BOTTOM
    modifies w`log, w`files, w`step, writer
    ensures w.log == old(w.log) + Executed(SlideCalls(name, i), |old(w.log)|, w.setting.failing)
    ensures ok == Runs(|old(w.log)|, 4, w.setting.failing)
    ensures saved == (|old(w.log)| !in w.setting.failing)
    ensures w.files == if saved then old(w.files)[TempName(name, i) := Png(old(w.Shot()))] else old(w.files)
    ensures w.step == if ok then old(w.step) + 1 else old(w.step)
    ensures ok ==> |w.log| == |old(w.log)| + 4
    ensures writer.pages
         == old(writer.pages) + if |w.log| == |old(w.log)| + 4 then [SlidePage(w.setting, w.url, old(w.step))] else []
  {
    ghost var at := |w.log|;
    ghost var failing := w.setting.failing;
    ghost var calls := SlideCalls(name, i);
    var tempFilename := TempName(name, i);
    ok := w.Screenshot(tempFilename);
    saved := ok;
    if !ok {
      assert Made(at, 4, failing) == 1;
      assert w.log == old(w.log) + calls[..1];
      return;
    }
    var img;
    ok, img := w.OpenImage(tempFilename);
    if !ok {
      assert Made(at, 4, failing) == 2 by {
        assert Made(at + 1, 3, failing) == 1;
      }
      assert w.log == old(w.log) + calls[..2];
      return;
    }
    var cropped := CropCapture(img);
    var ocrImg := CleanForOcr(cropped);
    var data;
    ok, data := w.Recognize(ocrImg);
    if !ok {
      assert Made(at, 4, failing) == 3 by {
        assert Made(at + 2, 2, failing) == 1;
      }
      assert w.log == old(w.log) + calls[..3];
      return;
    }
    var page := CreateOverlayPdf(cropped, data);
    writer.AddPage(page);
    ok := w.Advance();
    assert Made(at, 4, failing) == 4 by {
      assert Made(at + 3, 1, failing) == 1;
      assert Made(at + 2, 2, failing) == 2;
    }
    assert w.log == old(w.log) + calls;
    assert Runs(at + 2, 2, failing) == ok;
  }

  /** The slide loop (lines 105-128), up to its first exception. */
  method RunSlides(w: World, writer: PdfWriter, name: string, n: nat) returns (ok: bool, tempFiles: seq<string>)
    requires w.setting.screenHeight > CROP_TOP + CROP_BOTTOM
    requires writer.pages == [] && w.step == 0
    modifies w`log, w`files, w`step, writer
    ensures ok == Runs(|old(w.log)|, 4 * n, w.setting.failing)
    ensures LoopEnded(w.setting, w.url, name, n, old(w.log), old(w.files), w.log, w.files, tempFiles)
    ensures ok ==> writer.pages == SlidePages(w.setting, w.url, n)
  {
    tempFiles := [];
    ok := true;
    var i := 0;
    while i < n && ok
      invariant 0 <= i <= n
      invariant ok ==> LoopClean(w.setting, w.url, name, i, old(w.log), old(w.files), w.log, w.files, tempFiles)
      invariant ok ==> w.step == i && writer.pages == SlidePages(w.setting, w.url, i)
      invariant !ok ==> LoopEnded(w.setting, w.url, name, n, old(w.log), old(w.files), w.log, w.files, tempFiles)
      invariant !ok ==> !Runs(|old(w.log)|, 4 * n, w.setting.failing)
    {
      ghost var log, files, temps := w.log, w.files, tempFiles;
      LoopCallsLength(name, i);
      var saved;
      ok, saved := CaptureSlide(w, writer, name, i);
      if saved {
        tempFiles := tempFiles + [TempName(name, i)];
      }
      if ok {
        SlideRanClean(w.setting, w.url, name, i, old(w.log), old(w.files), log, files, temps);
      } else {
        SlideStopped(w.setting, w.url, name, n, i, old(w.log), old(w.files), log, files, temps);
      }
      i := i + 1;
    }
    if ok {
      LoopFinished(w.setting, w.url, name, n, old(w.log), old(w.files), w.log, w.files, tempFiles);
    }
  }

  /** The `try` block (lines 99-133), up to its first exception. The
      browser's `url` and `step` are left unspecified: the `finally` clause
      quits the browser, and the next job's `Launch` resets them. */
  method RunTry(w: World, writer: PdfWriter, name: string, config: JobConfig) returns (ok: bool, tempFiles: seq<string>)
    requires w.setting.screenHeight > CROP_TOP + CROP_BOTTOM
    requires writer.pages == []
    modifies w`log, w`files, w`url, w`step, writer
    ensures w.log == old(w.log) + Executed(TryCalls(name, config), |old(w.log)|, w.setting.failing)
    ensures ok == Clean(TryCalls(name, config), |old(w.log)|, w.setting.failing)
    ensures tempFiles == TempNames(name, TrySaved(config, |old(w.log)|, w.setting.failing))
    ensures w.files == TryFiles(old(w.files), w.setting, name, config, |old(w.log)|)
  {
    ghost var log0, files0 := w.log, w.files;
    var total := SlideCount(config);
    tempFiles := [];
    ok := OpenPage(w, config);
    if !ok {
      TryOpenStopped(name, config, |log0|, w.setting.failing);
      TryOpenStoppedFiles(files0, w.setting, name, config, |log0|);
      return;
    }
    ExecutedClean(OpenCalls(config), |log0|, w.setting.failing);
    ok, tempFiles := RunSlides(w, writer, name, total);
    if !ok {
      TryLoopStopped(name, config, log0, w.setting.failing);
      TryLoopStoppedFiles(files0, w.setting, name, config, |log0|);
      return;
    }
    TryLoopRan(name, config, log0, w.setting.failing);
    TryLoopRanSaved(config, |log0|, w.setting.failing);
    TryWrote(name, config, log0, w.log, w.setting.failing);
    TryWroteFiles(files0, w.setting, name, config, |log0|);
    ghost var captured := Captured(files0, w.setting, config.url, name, total);
    assert w.files == captured;
    ok := WriteOutput(w, name, writer.pages);
  }

  /** Loading the page and finding its body (lines 100-103). */
  method OpenPage(w: World, config: JobConfig) returns (ok: bool)
    modifies w`log, w`url, w`step
    ensures w.log == old(w.log) + Executed(OpenCalls(config), |old(w.log)|, w.setting.failing)
    ensures ok == Clean(OpenCalls(config), |old(w.log)|, w.setting.failing)
    ensures ok ==> w.url == config.url && w.step == 0
  {
    ghost var at := |w.log|;
    ok := w.Get(config.url);
    if ok {
      ok := w.FindBody();
      assert Made(at + 1, 1, w.setting.failing) == 1;
      assert Runs(at + 1, 1, w.setting.failing) == ok;
    }
  }

  /** Writing the document (lines 131-132): opening the output creates or
      empties it, and the write fills it. */
  method WriteOutput(w: World, name: string, pages: seq<Page>) returns (ok: bool)
    modifies w`log, w`files
    ensures w.log == old(w.log) + Executed(WriteCalls(name), |old(w.log)|, w.setting.failing)
    ensures ok == Clean(WriteCalls(name), |old(w.log)|, w.setting.failing)
    ensures w.files == Written(old(w.files), name, pages, |old(w.log)|, w.setting.failing)
  {
    ghost var at := |w.log|;
    ok := w.OpenOutput(name);
    if ok {
      ok := w.WritePdf(name, pages);
      assert Made(at + 1, 1, w.setting.failing) == 1;
      assert Runs(at + 1, 1, w.setting.failing) == ok;
    }
  }

  /** The cleanup loop of the `finally` clause (lines 143-148): every
      recorded capture is removed, and a removal that raises is ignored. */
  method RemoveTempFiles(w: World, tempFiles: seq<string>)
    modifies w`log, w`files
    ensures w.log == old(w.log) + RemoveCalls(tempFiles)
    ensures w.files == RemoveAll(old(w.files), tempFiles, |old(w.log)|, w.setting.failing)
  {
    var k := 0;
    while k < |tempFiles|
      invariant 0 <= k <= |tempFiles|
      invariant w.log == old(w.log) + RemoveCalls(tempFiles[..k])
      invariant w.files == RemoveAll(old(w.files), tempFiles[..k], |old(w.log)|, w.setting.failing)
    {
      var _ := w.Remove(tempFiles[k]);
      assert RemoveCalls(tempFiles[..k + 1]) == RemoveCalls(tempFiles[..k]) + [Remove(tempFiles[k])];
      assert tempFiles[..k + 1][..k] == tempFiles[..k];
      k := k + 1;
    }
    assert tempFiles[..k] == tempFiles;
  }

  /** `process_presentation` (lines 85-148): the browser is created outside
      the `try`, so a failure there reaches the caller; everything inside
      the `try` is caught; the `finally` clause quits the browser and,
      unless quitting raises, removes the recorded captures. The browser's
      `url` and `step` mean nothing after `Quit`, so they are left
      unspecified; the next `Launch` resets them. */
  method ProcessPresentation(w: World, name: string, config: JobConfig) returns (outcome: JobOutcome)
    requires w.setting.screenHeight > CROP_TOP + CROP_BOTTOM
    modifies w`log, w`files, w`url, w`step
    ensures w.log == old(w.log) + JobCalls(name, config, |old(w.log)|, w.setting.failing)
    ensures outcome == JobResult(name, config, |old(w.log)|, w.setting.failing)
    ensures w.files == JobFiles(old(w.files), w.setting, name, config, |old(w.log)|)
  {
    ghost var log0, files0 := w.log, w.files;
    var launched := w.Launch();
    if !launched {
      JobNotLaunched(files0, w.setting, name, config, log0);
      return Raised;
    }
    var writer := new PdfWriter();
    var ok, tempFiles := RunTry(w, writer, name, config);
    outcome := if ok then Finished else Failed;
    JobQuits(name, config, log0, w.log, w.setting.failing);
    JobQuitsFiles(files0, w.setting, name, config, |log0|, |w.log|, w.files, tempFiles);
    var quitOk := w.Quit();
    if !quitOk {
      return Raised;
    }
    RemoveTempFiles(w, tempFiles);
  }

  /** `main` (lines 150-158): the jobs in the dictionary's order; an
      exception escaping a job ends the program, so no later job starts. */
  method RunQueue(w: World, jobs: seq<(string, JobConfig)>) returns (outcomes: seq<JobOutcome>)
    requires w.setting.screenHeight > CROP_TOP + CROP_BOTTOM
    modifies w`log, w`files, w`url, w`step
    ensures QueueState(w.log, outcomes) == QueueRun(JobRun(w.setting.failing), jobs, 0, QueueState(old(w.log), []))
    ensures w.files == QueueFiles(old(w.files), w.setting, jobs, 0, old(w.log))
  {
    ghost var final := QueueRun(JobRun(w.setting.failing), jobs, 0, QueueState(w.log, []));
    ghost var finalFiles := QueueFiles(w.files, w.setting, jobs, 0, w.log);
    outcomes := [];
    var k := 0;
    var stopped := false;
    while k < |jobs| && !stopped
      invariant 0 <= k <= |jobs|
      invariant !stopped ==> QueueRun(JobRun(w.setting.failing), jobs, k, QueueState(w.log, outcomes)) == final
      invariant !stopped ==> QueueFiles(w.files, w.setting, jobs, k, w.log) == finalFiles
      invariant stopped ==> QueueState(w.log, outcomes) == final && w.files == finalFiles
    {
      ghost var log := w.log;
      var outcome := ProcessPresentation(w, jobs[k].0, jobs[k].1);
      assert JobRun(w.setting.failing)(jobs[k], |log|) == (w.log[|log|..], outcome);
      outcomes := outcomes + [outcome];
      stopped := outcome == Raised;
      k := k + 1;
    }
  }
}
