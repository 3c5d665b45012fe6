/** The plan of one job of prezi-scrapper/prezi_scraper.py and of the
    queue `main` runs, as pure functions: which calls a job makes when the
    calls at some log positions raise, how it ends, and what it leaves on
    disk; and the lemmas that state what the script promises about them.
    The imperative code that follows this plan is in module Scraper. */
module JobPlan {
  import opened PyText
  import opened Overlay

  /** One entry of the `PRESENTATIONS` dictionary. */
  datatype JobConfig = JobConfig(url: string, slides: int)

  /** A call on a collaborator, as it appears in the world's log. */
  datatype Call =
    | Launch                    // webdriver.Firefox(...)
    | Get(url: string)          // driver.get(url)
    | FindBody                  // driver.find_element(By.TAG_NAME, "body")
    | Screenshot(path: string)  // driver.save_screenshot(path)
    | OpenImage(path: string)   // Image.open(path)
    | Recognize                 // pytesseract.image_to_data(...)
    | Advance                   // body.send_keys(Keys.ARROW_RIGHT)
    | OpenOutput(path: string)  // open(name, "wb")
    | WritePdf(path: string)    // final_pdf_writer.write(f)
    | Quit                      // driver.quit()
    | Remove(path: string)      // os.remove(path), errors ignored

  /** What a path on disk holds. */
  datatype File = Png(image: Image) | Truncated | Pdf(pages: seq<Page>)

  /** How `process_presentation` ends: normally after saving, normally
      after an exception it caught, or with an exception its caller sees. */
  datatype JobOutcome = Finished | Failed | Raised

  /** What does not change while the scripts run: the browser window's
      size, the recogniser, and the log positions whose call raises. */
  datatype Setting = Setting(screenWidth: nat, screenHeight: nat, recognize: Image -> seq<OcrBox>, failing: set<nat>)

  /** `p` is present in both or absent from both, with the same content. */
  predicate Same(f: map<string, File>, g: map<string, File>, p: string) {
    (p in f <==> p in g) && (p in f ==> f[p] == g[p])
  }

  // ---------------------------------------------------------------------
  // Calls that may raise. The call at log position p raises exactly when
  // p is in `failing`; a run stops at the first call that raises.

  /** The n calls from log position `at` all return normally. */
  predicate Runs(at: nat, n: nat, failing: set<nat>)
    decreases n
  {
    n == 0 || (at !in failing && Runs(at + 1, n - 1, failing))
  }

  /** How many of n planned calls from `at` are made: all of them, or up
      to and including the first that raises. */
  function Made(at: nat, n: nat, failing: set<nat>): (m: nat)
    ensures m <= n
    decreases n
  {
    if n == 0 then 0 else if at in failing then 1 else 1 + Made(at + 1, n - 1, failing)
  }

  /** The calls of `plan` actually made from position `at`. */
  function Executed(plan: seq<Call>, at: nat, failing: set<nat>): seq<Call> {
    plan[..Made(at, |plan|, failing)]
  }

  /** No call of `plan` raises when it starts at position `at`. */
  predicate Clean(plan: seq<Call>, at: nat, failing: set<nat>) {
    Runs(at, |plan|, failing)
  }

  /** `Runs` means: no position in the range is a failing one. */
  lemma {:induction false} RunsSpec(at: nat, n: nat, failing: set<nat>)
    ensures Runs(at, n, failing) <==> forall p :: at <= p < at + n ==> p !in failing
    decreases n
  {
    if n > 0 {
      RunsSpec(at + 1, n - 1, failing);
    }
  }

  lemma {:induction false} RunsSplit(at: nat, a: nat, b: nat, failing: set<nat>)
    ensures Runs(at, a + b, failing) <==> Runs(at, a, failing) && Runs(at + a, b, failing)
    decreases a
  {
    if a > 0 {
      RunsSplit(at + 1, a - 1, b, failing);
    }
  }

  /** All the calls are made when none raises; otherwise the calls made
      end with the first that raises, and the ones before it ran. */
  lemma {:induction false} MadeSpec(at: nat, n: nat, failing: set<nat>)
    ensures Runs(at, n, failing) ==> Made(at, n, failing) == n
    ensures !Runs(at, n, failing) ==>
      0 < Made(at, n, failing) && Runs(at, Made(at, n, failing) - 1, failing)
      && at + Made(at, n, failing) - 1 in failing
    decreases n
  {
    if n > 0 && at !in failing {
      MadeSpec(at + 1, n - 1, failing);
    }
  }

  lemma {:induction false} MadeSplit(at: nat, a: nat, b: nat, failing: set<nat>)
    ensures Made(at, a + b, failing)
         == if Runs(at, a, failing) then a + Made(at + a, b, failing) else Made(at, a, failing)
    decreases a
  {
    if a > 0 && at !in failing {
      MadeSplit(at + 1, a - 1, b, failing);
    }
  }

  /** Running `a` then `b`: `b` starts only if all of `a` ran. */
  lemma ExecutedSplit(a: seq<Call>, b: seq<Call>, at: nat, failing: set<nat>)
    ensures Clean(a + b, at, failing) <==> Clean(a, at, failing) && Clean(b, at + |a|, failing)
    ensures Executed(a + b, at, failing)
         == if Clean(a, at, failing) then a + Executed(b, at + |a|, failing) else Executed(a, at, failing)
  {
    RunsSplit(at, |a|, |b|, failing);
    MadeSplit(at, |a|, |b|, failing);
    if Clean(a, at, failing) {
      var m := Made(at + |a|, |b|, failing);
      assert (a + b)[..|a| + m] == a + b[..m];
    } else {
      var m := Made(at, |a|, failing);
      assert (a + b)[..m] == a[..m];
    }
  }

  /** A plan that raises before its end never reaches what follows it. */
  lemma ExecutedStops(a: seq<Call>, b: seq<Call>, at: nat, failing: set<nat>)
    requires !Clean(a, at, failing)
    ensures Executed(a + b, at, failing) == Executed(a, at, failing)
  {
    ExecutedSplit(a, b, at, failing);
  }

  /** A plan that runs clean is made in full before what follows it starts. */
  lemma ExecutedAfter(a: seq<Call>, b: seq<Call>, at: nat, failing: set<nat>)
    requires Clean(a, at, failing)
    ensures Executed(a + b, at, failing) == a + Executed(b, at + |a|, failing)
  {
    ExecutedSplit(a, b, at, failing);
  }

  /** A run that raises inside `a` never gets past it, whatever plan `a`
      begins. */
  lemma ExecutedStopsPrefix(a: seq<Call>, all: seq<Call>, at: nat, failing: set<nat>)
    requires a <= all && !Clean(a, at, failing)
    ensures Executed(all, at, failing) == Executed(a, at, failing)
  {
    assert all == a + all[|a|..];
    ExecutedStops(a, all[|a|..], at, failing);
  }

  /** A run that raises inside `b` made all of `a` and part of `b`,
      whatever plan `a + b` begins. */
  lemma ExecutedStopsIn(a: seq<Call>, b: seq<Call>, all: seq<Call>, at: nat, failing: set<nat>)
    requires a + b <= all
    requires Clean(a, at, failing) && !Clean(b, at + |a|, failing)
    ensures Executed(all, at, failing) == a + Executed(b, at + |a|, failing)
  {
    ExecutedSplit(a, b, at, failing);
    ExecutedStopsPrefix(a + b, all, at, failing);
    ExecutedAfter(a, b, at, failing);
  }

  lemma AppendAssoc<T>(a: seq<T>, b: seq<T>, c: seq<T>)
    ensures a + b + c == a + (b + c)
  {
  }

  /** A plan that runs clean is made in full. */
  lemma ExecutedClean(plan: seq<Call>, at: nat, failing: set<nat>)
    requires Clean(plan, at, failing)
    ensures Executed(plan, at, failing) == plan
  {
    MadeSpec(at, |plan|, failing);
  }

  // ---------------------------------------------------------------------
  // The calls a job plans.

  /** `range(total_slides)` is empty for a negative count. */
  function SlideCount(config: JobConfig): nat {
    if config.slides < 0 then 0 else config.slides
  }

  /** `f"temp_{name}_slide_{i}.png"` */
  function TempName(name: string, i: nat): string {
    "temp_" + name + "_slide_" + Decimal(i) + ".png"
  }

  /** The temporary names of the first n slides. */
  function TempNames(name: string, n: nat): seq<string> {
    if n == 0 then [] else TempNames(name, n - 1) + [TempName(name, n - 1)]
  }

  /** One iteration of the slide loop: capture, open, recognise, advance. */
  function SlideCalls(name: string, i: nat): seq<Call> {
    [Screenshot(TempName(name, i)), OpenImage(TempName(name, i)), Recognize, Advance]
  }

  /** The first n iterations of the slide loop. */
  function LoopCalls(name: string, n: nat): seq<Call> {
    if n == 0 then [] else LoopCalls(name, n - 1) + SlideCalls(name, n - 1)
  }

  /** The calls before the slide loop. */
  function OpenCalls(config: JobConfig): seq<Call> {
    [Get(config.url), FindBody]
  }

  /** The calls that write the output. */
  function WriteCalls(name: string): seq<Call> {
    [OpenOutput(name), WritePdf(name)]
  }

  /** The calls the `try` block makes when nothing raises. */
  function TryCalls(name: string, config: JobConfig): seq<Call> {
    OpenCalls(config) + LoopCalls(name, SlideCount(config)) + WriteCalls(name)
  }

  /** The cleanup loop's calls. */
  function RemoveCalls(paths: seq<string>): seq<Call> {
    seq(|paths|, k requires 0 <= k < |paths| => Remove(paths[k]))
  }

  lemma {:induction false} LoopCallsLength(name: string, n: nat)
    ensures |LoopCalls(name, n)| == 4 * n
  {
    if n > 0 {
      LoopCallsLength(name, n - 1);
    }
  }

  lemma {:induction false} LoopCallsPrefix(name: string, m: nat, n: nat)
    requires m <= n
    ensures LoopCalls(name, m) <= LoopCalls(name, n)
    decreases n
  {
    if m < n {
      LoopCallsPrefix(name, m, n - 1);
    }
  }

  /** Iteration i of the slide loop occupies positions 4i to 4i + 3 of the
      loop's calls: the capture first, the advance last. */
  lemma LoopCallsAt(name: string, n: nat, i: nat)
    requires i < n
    ensures |LoopCalls(name, n)| == 4 * n
    ensures LoopCalls(name, n)[4 * i .. 4 * i + 4] == SlideCalls(name, i)
  {
    LoopCallsLength(name, n);
    LoopCallsLength(name, i);
    LoopCallsPrefix(name, i + 1, n);
    var head := LoopCalls(name, i + 1);
    assert head[4 * i .. 4 * i + 4] == SlideCalls(name, i);
    assert LoopCalls(name, n)[4 * i .. 4 * i + 4] == head[4 * i .. 4 * i + 4];
  }

  lemma TryCallsLength(name: string, config: JobConfig)
    ensures |TryCalls(name, config)| == 4 * SlideCount(config) + 4
  {
    LoopCallsLength(name, SlideCount(config));
  }

  /** The `try` block's calls: loading the page, the slide loop, writing
      the output; each part starts only if the one before ran clean. */
  lemma TrySplit(name: string, config: JobConfig, at: nat, failing: set<nat>)
    ensures var n := SlideCount(config);
      Executed(TryCalls(name, config), at, failing)
        == if !Runs(at, 2, failing) then Executed(OpenCalls(config), at, failing)
           else if !Runs(at + 2, 4 * n, failing) then OpenCalls(config) + Executed(LoopCalls(name, n), at + 2, failing)
           else OpenCalls(config) + LoopCalls(name, n) + Executed(WriteCalls(name), at + 2 + 4 * n, failing)
    ensures var n := SlideCount(config);
      Clean(TryCalls(name, config), at, failing) <==> Runs(at, 2 + 4 * n, failing) && Runs(at + 2 + 4 * n, 2, failing)
    ensures var n := SlideCount(config);
      Runs(at, 2 + 4 * n, failing) <==> Runs(at, 2, failing) && Runs(at + 2, 4 * n, failing)
  {
    var n := SlideCount(config);
    var open, loop, write := OpenCalls(config), LoopCalls(name, n), WriteCalls(name);
    LoopCallsLength(name, n);
    assert TryCalls(name, config) == open + (loop + write);
    ExecutedSplit(open, loop + write, at, failing);
    ExecutedSplit(loop, write, at + 2, failing);
    RunsSplit(at, 2, 4 * n, failing);
    RunsSplit(at, 2 + 4 * n, 2, failing);
  }

  /** Temporary names are distinct per slide, and none is the output name. */
  lemma TempNameInjective(name: string, i: nat, j: nat)
    ensures TempName(name, i) == TempName(name, j) <==> i == j
    ensures TempName(name, i) != name
  {
    if TempName(name, i) == TempName(name, j) {
      var prefix := "temp_" + name + "_slide_";
      var a, b := TempName(name, i), TempName(name, j);
      assert |Decimal(i)| == |Decimal(j)|;
      assert a[|prefix|..|a| - 4] == Decimal(i);
      assert b[|prefix|..|b| - 4] == Decimal(j);
      DecimalInjective(i, j);
    }
    assert |TempName(name, i)| > |name|;
  }

  lemma {:induction false} TempNamesAt(name: string, n: nat)
    ensures |TempNames(name, n)| == n
    ensures forall k :: 0 <= k < n ==> TempNames(name, n)[k] == TempName(name, k)
  {
    if n > 0 {
      TempNamesAt(name, n - 1);
    }
  }

  /** No two captures share a path, and none is the output. */
  lemma TempNamesDistinct(name: string, n: nat)
    ensures var temps := TempNames(name, n);
      (forall j, k :: 0 <= j < k < |temps| ==> temps[j] != temps[k]) && name !in temps
  {
    var temps := TempNames(name, n);
    TempNamesAt(name, n);
    forall j, k | 0 <= j < k < |temps| ensures temps[j] != temps[k] {
      TempNameInjective(name, j, k);
    }
    forall j | 0 <= j < |temps| ensures temps[j] != name {
      TempNameInjective(name, j, j);
    }
  }

  // ---------------------------------------------------------------------
  // The captures a slide loop saves.

  /** How many of the captures of an n-slide loop whose first call is at
      `at` were saved: the loop runs on while every call succeeds, and the
      capture of the iteration that raises is on disk unless the capture
      itself raised. */
  function Saved(at: nat, n: nat, failing: set<nat>): nat
    decreases n
  {
    if n == 0 then 0
    else if Runs(at, 4 * (n - 1), failing) then
      if at + 4 * (n - 1) in failing then n - 1 else n
    else Saved(at, n - 1, failing)
  }

  lemma {:induction false} SavedBound(at: nat, n: nat, failing: set<nat>)
    ensures Saved(at, n, failing) <= n
    ensures Runs(at, 4 * n, failing) ==> Saved(at, n, failing) == n
  {
    if n > 0 {
      SavedBound(at, n - 1, failing);
      RunsSplit(at, 4 * (n - 1), 4, failing);
    }
  }

  /** Capture k is saved exactly when it and every call before it in the
      loop returned normally. */
  lemma {:induction false} SavedSpec(at: nat, n: nat, k: nat, failing: set<nat>)
    requires k < n
    ensures k < Saved(at, n, failing) <==> Runs(at, 4 * k + 1, failing)
    decreases n
  {
    RunsSplit(at, 4 * k, 1, failing);
    if k == n - 1 {
      SavedBound(at, n - 1, failing);
    } else if Runs(at, 4 * (n - 1), failing) {
      RunsSplit(at, 4 * k + 1, 4 * (n - 1) - (4 * k + 1), failing);
    } else {
      SavedSpec(at, n - 1, k, failing);
    }
  }

  /** In terms of the log: capture k is saved exactly when the loop made
      its screenshot call and that call did not raise. */
  lemma SavedInLog(name: string, at: nat, n: nat, k: nat, failing: set<nat>)
    requires k < n
    ensures var made := Executed(LoopCalls(name, n), at, failing);
      k < Saved(at, n, failing) <==>
        4 * k < |made| && made[4 * k] == Screenshot(TempName(name, k)) && at + 4 * k !in failing
  {
    LoopReachesCapture(name, at, n, k, failing);
    SavedSpec(at, n, k, failing);
    RunsSplit(at, 4 * k, 1, failing);
    assert Runs(at + 4 * k, 1, failing) <==> at + 4 * k !in failing;
  }

  /** The loop reaches the capture of iteration k exactly when the
      iterations before it ran. */
  lemma LoopReachesCapture(name: string, at: nat, n: nat, k: nat, failing: set<nat>)
    requires k < n
    ensures var made := Executed(LoopCalls(name, n), at, failing);
      (4 * k < |made| <==> Runs(at, 4 * k, failing))
      && (4 * k < |made| ==> made[4 * k] == Screenshot(TempName(name, k)))
  {
    var plan := LoopCalls(name, n);
    var made := Executed(plan, at, failing);
    LoopCallsAt(name, n, k);
    MadeBeyond(at, n, k, failing);
    assert plan[4 * k] == plan[4 * k .. 4 * k + 4][0];
    if 4 * k < |made| {
      assert made[4 * k] == plan[4 * k];
    }
  }

  /** An n-iteration loop gets past the first k iterations exactly when
      their calls all ran. */
  lemma MadeBeyond(at: nat, n: nat, k: nat, failing: set<nat>)
    requires k < n
    ensures 4 * k < Made(at, 4 * n, failing) <==> Runs(at, 4 * k, failing)
  {
    MadeSplit(at, 4 * k, 4 * (n - k), failing);
    assert 4 * k + 4 * (n - k) == 4 * n;
    assert Made(at + 4 * k, 4 * (n - k), failing) > 0;
  }

  /** A loop interrupted in iteration i: it saved the captures of the
      first i slides, and of slide i too unless that capture raised. */
  lemma SavedStop(at: nat, n: nat, i: nat, failing: set<nat>)
    requires i < n
    requires Runs(at, 4 * i, failing) && !Runs(at + 4 * i, 4, failing)
    ensures !Runs(at, 4 * n, failing)
    ensures Saved(at, n, failing) == if at + 4 * i in failing then i else i + 1
  {
    RunsSplit(at, 4 * i, 4, failing);
    SavedAfterStop(at, i, n, failing);
  }

  /** ... and the calls it made are the first i iterations and the start
      of the next. */
  lemma LoopStopsExecuted(name: string, n: nat, i: nat, at: nat, failing: set<nat>)
    requires i < n
    requires Runs(at, 4 * i, failing) && !Runs(at + 4 * i, 4, failing)
    ensures Executed(LoopCalls(name, n), at, failing)
         == LoopCalls(name, i) + Executed(SlideCalls(name, i), at + 4 * i, failing)
  {
    var before := LoopCalls(name, i);
    var slide := SlideCalls(name, i);
    LoopCallsPrefix(name, i + 1, n);
    LoopCallsLength(name, i);
    assert LoopCalls(name, i + 1) == before + slide;
    ExecutedStopsIn(before, slide, LoopCalls(name, n), at, failing);
  }

  lemma {:induction false} SavedAfterStop(at: nat, i: nat, n: nat, failing: set<nat>)
    requires i < n && !Runs(at, 4 * (i + 1), failing)
    ensures Saved(at, n, failing) == Saved(at, i + 1, failing)
    ensures !Runs(at, 4 * n, failing)
    decreases n
  {
    RunsSplit(at, 4 * (i + 1), 4 * (n - i - 1), failing);
    if n > i + 1 {
      SavedAfterStop(at, i, n - 1, failing);
    }
  }

  /** After i iterations of the slide loop that all ran clean: the calls
      logged since `log0`, and the captures saved and recorded. */
  ghost predicate LoopClean(s: Setting, url: string, name: string, i: nat,
                            log0: seq<Call>, files0: map<string, File>,
                            log: seq<Call>, files: map<string, File>, temps: seq<string>)
  {
    log == log0 + LoopCalls(name, i) && Runs(|log0|, 4 * i, s.failing)
    && temps == TempNames(name, i) && files == Captured(files0, s, url, name, i)
  }

  /** After an n-slide loop ended, clean or not. */
  ghost predicate LoopEnded(s: Setting, url: string, name: string, n: nat,
                            log0: seq<Call>, files0: map<string, File>,
                            log: seq<Call>, files: map<string, File>, temps: seq<string>)
  {
    var saved := Saved(|log0|, n, s.failing);
    log == log0 + Executed(LoopCalls(name, n), |log0|, s.failing)
    && temps == TempNames(name, saved) && files == Captured(files0, s, url, name, saved)
  }

  /** One more iteration that runs clean keeps the loop clean. */
  lemma SlideRanClean(s: Setting, url: string, name: string, i: nat,
                      log0: seq<Call>, files0: map<string, File>,
                      log: seq<Call>, files: map<string, File>, temps: seq<string>)
    requires LoopClean(s, url, name, i, log0, files0, log, files, temps)
    requires Runs(|log0| + 4 * i, 4, s.failing)
    ensures LoopClean(s, url, name, i + 1, log0, files0,
      log + Executed(SlideCalls(name, i), |log0| + 4 * i, s.failing),
      files[TempName(name, i) := Png(Shot(s, url, i))], temps + [TempName(name, i)])
  {
    SlideRanCleanParts(s, url, name, i, log0, files0, log, files, temps);
  }

  lemma SlideRanCleanParts(s: Setting, url: string, name: string, i: nat,
                      log0: seq<Call>, files0: map<string, File>,
                      log: seq<Call>, files: map<string, File>, temps: seq<string>)
    requires LoopClean(s, url, name, i, log0, files0, log, files, temps)
    requires Runs(|log0| + 4 * i, 4, s.failing)
    ensures log + Executed(SlideCalls(name, i), |log0| + 4 * i, s.failing) == log0 + LoopCalls(name, i + 1)
    ensures Runs(|log0|, 4 * (i + 1), s.failing)
    ensures temps + [TempName(name, i)] == TempNames(name, i + 1)
    ensures files[TempName(name, i) := Png(Shot(s, url, i))] == Captured(files0, s, url, name, i + 1)
  {
    RunsSplit(|log0|, 4 * i, 4, s.failing);
    SlideLogged(name, i, log0, log, s.failing);
    SlideSaved(s, url, name, i, files0, files, temps);
  }

  lemma SlideLogged(name: string, i: nat, log0: seq<Call>, log: seq<Call>, failing: set<nat>)
    requires log == log0 + LoopCalls(name, i)
    requires Runs(|log0| + 4 * i, 4, failing)
    ensures log + Executed(SlideCalls(name, i), |log0| + 4 * i, failing) == log0 + LoopCalls(name, i + 1)
  {
    var slide := SlideCalls(name, i);
    assert |slide| == 4;
    ExecutedClean(slide, |log0| + 4 * i, failing);
    AppendAssoc(log0, LoopCalls(name, i), slide);
  }

  /** One more iteration that raises ends the loop: the capture it saved,
      if any, is the last. */
  lemma SlideStopped(s: Setting, url: string, name: string, n: nat, i: nat,
                     log0: seq<Call>, files0: map<string, File>,
                     log: seq<Call>, files: map<string, File>, temps: seq<string>)
    requires i < n && LoopClean(s, url, name, i, log0, files0, log, files, temps)
    requires !Runs(|log0| + 4 * i, 4, s.failing)
    ensures var at := |log0| + 4 * i;
      var saved := at !in s.failing;
      LoopEnded(s, url, name, n, log0, files0,
        log + Executed(SlideCalls(name, i), at, s.failing),
        if saved then files[TempName(name, i) := Png(Shot(s, url, i))] else files,
        if saved then temps + [TempName(name, i)] else temps)
    ensures !Runs(|log0|, 4 * n, s.failing)
  {
    var at := |log0| + 4 * i;
    SavedStop(|log0|, n, i, s.failing);
    StoppedLog(name, n, i, log0, log, s.failing);
    if at !in s.failing {
      SlideSaved(s, url, name, i, files0, files, temps);
    }
  }

  lemma StoppedLog(name: string, n: nat, i: nat, log0: seq<Call>, log: seq<Call>, failing: set<nat>)
    requires i < n && log == log0 + LoopCalls(name, i)
    requires Runs(|log0|, 4 * i, failing) && !Runs(|log0| + 4 * i, 4, failing)
    ensures log + Executed(SlideCalls(name, i), |log0| + 4 * i, failing)
         == log0 + Executed(LoopCalls(name, n), |log0|, failing)
  {
    LoopStopsExecuted(name, n, i, |log0|, failing);
    AppendAssoc(log0, LoopCalls(name, i), Executed(SlideCalls(name, i), |log0| + 4 * i, failing));
  }

  lemma SlideSaved(s: Setting, url: string, name: string, i: nat,
                     files0: map<string, File>, files: map<string, File>, temps: seq<string>)
    requires temps == TempNames(name, i) && files == Captured(files0, s, url, name, i)
    ensures temps + [TempName(name, i)] == TempNames(name, i + 1)
    ensures files[TempName(name, i) := Png(Shot(s, url, i))] == Captured(files0, s, url, name, i + 1)
  {
  }

  /** A loop that ran clean to the end has ended. */
  lemma LoopFinished(s: Setting, url: string, name: string, n: nat,
                     log0: seq<Call>, files0: map<string, File>,
                     log: seq<Call>, files: map<string, File>, temps: seq<string>)
    requires LoopClean(s, url, name, n, log0, files0, log, files, temps)
    ensures LoopEnded(s, url, name, n, log0, files0, log, files, temps)
  {
    LoopCallsLength(name, n);
    ExecutedClean(LoopCalls(name, n), |log0|, s.failing);
    SavedBound(|log0|, n, s.failing);
  }

  // ---------------------------------------------------------------------
  // One job.

  /** The captures the `try` block starting at `at` saved. */
  function TrySaved(config: JobConfig, at: nat, failing: set<nat>): nat {
    if Runs(at, 2, failing) then Saved(at + 2, SlideCount(config), failing) else 0
  }

  /** What the `try` block makes of a job whose `Launch` is at `at`. */
  function TryMade(name: string, config: JobConfig, at: nat, failing: set<nat>): seq<Call> {
    Executed(TryCalls(name, config), at + 1, failing)
  }

  /** Where `driver.quit()` lands in the log. */
  function QuitAt(name: string, config: JobConfig, at: nat, failing: set<nat>): nat {
    at + 1 + |TryMade(name, config, at, failing)|
  }

  /** The temporary files a job records, in the order it records them. */
  function JobTemps(name: string, config: JobConfig, at: nat, failing: set<nat>): seq<string> {
    if at in failing then [] else TempNames(name, TrySaved(config, at + 1, failing))
  }

  /** Every call `process_presentation` makes when its first call is at
      `at`: the launch, outside the `try`; the `try` block up to its first
      exception; then `driver.quit()` and, unless that raises, one removal
      per recorded temporary file. */
  function JobCalls(name: string, config: JobConfig, at: nat, failing: set<nat>): seq<Call> {
    if at in failing then [Launch]
    else
      [Launch] + TryMade(name, config, at, failing) + [Quit]
      + (if QuitAt(name, config, at, failing) in failing then []
         else RemoveCalls(JobTemps(name, config, at, failing)))
  }

  /** How the job ends. */
  function JobResult(name: string, config: JobConfig, at: nat, failing: set<nat>): JobOutcome {
    if at in failing || QuitAt(name, config, at, failing) in failing then Raised
    else if Clean(TryCalls(name, config), at + 1, failing) then Finished
    else Failed
  }

  /** A `try` block whose page load or body lookup raises makes only
      those calls ... */
  lemma TryOpenStopped(name: string, config: JobConfig, at: nat, failing: set<nat>)
    requires !Clean(OpenCalls(config), at, failing)
    ensures Executed(OpenCalls(config), at, failing) == Executed(TryCalls(name, config), at, failing)
    ensures !Clean(TryCalls(name, config), at, failing)
  {
    RunsSplit(at, 2, 4 * SlideCount(config) + 2, failing);
    TryCallsLength(name, config);
    ExecutedStopsPrefix(OpenCalls(config), TryCalls(name, config), at, failing);
  }

  /** ... and saves nothing. */
  lemma TryOpenStoppedFiles(files: map<string, File>, s: Setting, name: string, config: JobConfig, at: nat)
    requires s.screenHeight > CROP_TOP + CROP_BOTTOM
    requires !Runs(at, 2, s.failing)
    ensures TrySaved(config, at, s.failing) == 0
    ensures TryFiles(files, s, name, config, at) == files
  {
    RunsSplit(at, 2, 4 * SlideCount(config), s.failing);
  }

  /** A `try` block whose slide loop raises makes the loop's calls ... */
  lemma TryLoopStopped(name: string, config: JobConfig, log0: seq<Call>, failing: set<nat>)
    requires Runs(|log0|, 2, failing) && !Runs(|log0| + 2, 4 * SlideCount(config), failing)
    ensures var n := SlideCount(config);
      log0 + OpenCalls(config) + Executed(LoopCalls(name, n), |log0| + 2, failing)
        == log0 + Executed(TryCalls(name, config), |log0|, failing)
    ensures !Clean(TryCalls(name, config), |log0|, failing)
  {
    var n := SlideCount(config);
    LoopCallsLength(name, n);
    TryCallsLength(name, config);
    RunsSplit(|log0|, 2 + 4 * n, 2, failing);
    RunsSplit(|log0|, 2, 4 * n, failing);
    ExecutedStopsIn(OpenCalls(config), LoopCalls(name, n), TryCalls(name, config), |log0|, failing);
    AppendAssoc(log0, OpenCalls(config), Executed(LoopCalls(name, n), |log0| + 2, failing));
  }

  /** ... and leaves the loop's captures. */
  lemma TryLoopStoppedFiles(files: map<string, File>, s: Setting, name: string, config: JobConfig, at: nat)
    requires s.screenHeight > CROP_TOP + CROP_BOTTOM
    requires Runs(at, 2, s.failing) && !Runs(at + 2, 4 * SlideCount(config), s.failing)
    ensures TrySaved(config, at, s.failing) == Saved(at + 2, SlideCount(config), s.failing)
    ensures TryFiles(files, s, name, config, at) == Captured(files, s, config.url, name, Saved(at + 2, SlideCount(config), s.failing))
  {
    RunsSplit(at, 2, 4 * SlideCount(config), s.failing);
  }

  /** A `try` block whose slide loop ran clean: the log once the loop
      ended, before the output is opened. */
  lemma TryLoopRan(name: string, config: JobConfig, log0: seq<Call>, failing: set<nat>)
    requires Runs(|log0|, 2, failing) && Runs(|log0| + 2, 4 * SlideCount(config), failing)
    ensures var n := SlideCount(config);
      var log := log0 + OpenCalls(config) + Executed(LoopCalls(name, n), |log0| + 2, failing);
      log == log0 + (OpenCalls(config) + LoopCalls(name, n)) && |log| == |log0| + 2 + 4 * n
    ensures Runs(|log0|, 2 + 4 * SlideCount(config), failing)
  {
    var n := SlideCount(config);
    LoopCallsLength(name, n);
    ExecutedClean(LoopCalls(name, n), |log0| + 2, failing);
    RunsSplit(|log0|, 2, 4 * n, failing);
    AppendAssoc(log0, OpenCalls(config), LoopCalls(name, n));
  }

  /** ... and every capture saved. */
  lemma TryLoopRanSaved(config: JobConfig, at: nat, failing: set<nat>)
    requires Runs(at, 2, failing) && Runs(at + 2, 4 * SlideCount(config), failing)
    ensures Saved(at + 2, SlideCount(config), failing) == SlideCount(config)
    ensures TrySaved(config, at, failing) == SlideCount(config)
  {
    SavedBound(at + 2, SlideCount(config), failing);
  }

  /** The output is opened and written once the loop ran clean: the calls
      made ... */
  lemma TryWrote(name: string, config: JobConfig, log0: seq<Call>, log: seq<Call>, failing: set<nat>)
    requires Runs(|log0|, 2 + 4 * SlideCount(config), failing)
    requires log == log0 + (OpenCalls(config) + LoopCalls(name, SlideCount(config)))
    ensures log + Executed(WriteCalls(name), |log|, failing) == log0 + Executed(TryCalls(name, config), |log0|, failing)
    ensures Clean(TryCalls(name, config), |log0|, failing) <==> Clean(WriteCalls(name), |log|, failing)
  {
    var head := OpenCalls(config) + LoopCalls(name, SlideCount(config));
    LoopCallsLength(name, SlideCount(config));
    ExecutedSplit(head, WriteCalls(name), |log0|, failing);
    AppendAssoc(log0, head, Executed(WriteCalls(name), |log|, failing));
  }

  /** ... and the files: the captures of every slide, then the output. */
  lemma TryWroteFiles(files: map<string, File>, s: Setting, name: string, config: JobConfig, at: nat)
    requires s.screenHeight > CROP_TOP + CROP_BOTTOM
    requires Runs(at, 2 + 4 * SlideCount(config), s.failing)
    ensures var n := SlideCount(config);
      TryFiles(files, s, name, config, at)
        == Written(Captured(files, s, config.url, name, n), name, SlidePages(s, config.url, n), at + 2 + 4 * n, s.failing)
  {
    RunsSplit(at, 2, 4 * SlideCount(config), s.failing);
    TryLoopRanSaved(config, at, s.failing);
  }

  /** A job whose launch raised makes no other call and changes nothing. */
  lemma JobNotLaunched(files: map<string, File>, s: Setting, name: string, config: JobConfig, log0: seq<Call>)
    requires s.screenHeight > CROP_TOP + CROP_BOTTOM
    requires |log0| in s.failing
    ensures log0 + [Launch] == log0 + JobCalls(name, config, |log0|, s.failing)
    ensures JobResult(name, config, |log0|, s.failing) == Raised
    ensures JobFiles(files, s, name, config, |log0|) == files
  {
  }

  /** After the `try` block the browser is quit at the next position ... */
  lemma JobQuits(name: string, config: JobConfig, log0: seq<Call>, log: seq<Call>, failing: set<nat>)
    requires |log0| !in failing
    requires log == log0 + [Launch] + Executed(TryCalls(name, config), |log0| + 1, failing)
    ensures |log| == QuitAt(name, config, |log0|, failing)
    ensures JobTemps(name, config, |log0|, failing) == TempNames(name, TrySaved(config, |log0| + 1, failing))
    ensures |log| in failing ==> log + [Quit] == log0 + JobCalls(name, config, |log0|, failing)
    ensures |log| !in failing ==>
      log + [Quit] + RemoveCalls(JobTemps(name, config, |log0|, failing)) == log0 + JobCalls(name, config, |log0|, failing)
    ensures JobResult(name, config, |log0|, failing)
         == if |log| in failing then Raised
            else if Clean(TryCalls(name, config), |log0| + 1, failing) then Finished else Failed
  {
    var made := TryMade(name, config, |log0|, failing);
    AppendAssoc(log0, [Launch], made);
    AppendAssoc(log0, [Launch] + made, [Quit]);
    if |log| !in failing {
      AppendAssoc(log0, [Launch] + made + [Quit], RemoveCalls(JobTemps(name, config, |log0|, failing)));
    }
  }

  /** ... and what is left on disk is what the cleanup leaves. */
  lemma JobQuitsFiles(files: map<string, File>, s: Setting, name: string, config: JobConfig, at: nat,
                      quitAt: nat, tried: map<string, File>, temps: seq<string>)
    requires s.screenHeight > CROP_TOP + CROP_BOTTOM
    requires at !in s.failing && quitAt == QuitAt(name, config, at, s.failing)
    requires tried == TryFiles(files, s, name, config, at + 1)
    requires temps == TempNames(name, TrySaved(config, at + 1, s.failing))
    ensures JobFiles(files, s, name, config, at)
         == if quitAt in s.failing then tried else RemoveAll(tried, temps, quitAt + 1, s.failing)
  {
  }

  /** The output file is opened only if everything before it succeeded. */
  predicate ReachesOutput(config: JobConfig, at: nat, failing: set<nat>) {
    at !in failing && Runs(at + 1, 2 + 4 * SlideCount(config), failing)
  }

  /** The page built from the capture taken after `i` advances. */
  function SlidePage(s: Setting, url: string, i: nat): Page
    requires s.screenHeight > CROP_TOP + CROP_BOTTOM
  {
    var cropped := CropCapture(Shot(s, url, i));
    OverlayPage(cropped, s.recognize(CleanForOcr(cropped)))
  }

  /** The pages of the first n slides. */
  function SlidePages(s: Setting, url: string, n: nat): seq<Page>
    requires s.screenHeight > CROP_TOP + CROP_BOTTOM
  {
    if n == 0 then [] else SlidePages(s, url, n - 1) + [SlidePage(s, url, n - 1)]
  }

  /** The pages of a clean loop: page i is built from capture i. */
  lemma {:induction false} SlidePagesAt(s: Setting, url: string, n: nat)
    requires s.screenHeight > CROP_TOP + CROP_BOTTOM
    ensures |SlidePages(s, url, n)| == n
    ensures forall i :: 0 <= i < n ==> SlidePages(s, url, n)[i] == SlidePage(s, url, i)
  {
    if n > 0 {
      SlidePagesAt(s, url, n - 1);
    }
  }

  // ---------------------------------------------------------------------
  // What a job leaves on disk.

  /** What a capture taken after `k` advances on `url` shows. */
  function Shot(s: Setting, url: string, k: nat): Image {
    Image(s.screenWidth, s.screenHeight, Screen(url, k))
  }

  /** The files after the first k captures of a job were saved. */
  function Captured(files: map<string, File>, s: Setting, url: string, name: string, k: nat): map<string, File> {
    if k == 0 then files
    else Captured(files, s, url, name, k - 1)[TempName(name, k - 1) := Png(Shot(s, url, k - 1))]
  }

  /** The files after the `try` block whose first call is at `at`: the
      captures it saved, and the output file once it was opened (empty) or
      written (one page per slide). */
  function TryFiles(files: map<string, File>, s: Setting, name: string, config: JobConfig, at: nat): map<string, File>
    requires s.screenHeight > CROP_TOP + CROP_BOTTOM
  {
    var n := SlideCount(config);
    var captured := Captured(files, s, config.url, name, TrySaved(config, at, s.failing));
    if !Runs(at, 2 + 4 * n, s.failing) then captured
    else Written(captured, name, SlidePages(s, config.url, n), at + 2 + 4 * n, s.failing)
  }

  /** The files after writing `pages` to `name` with the open at position
      `at`: opening creates or empties the file, a write that raises leaves
      it truncated (empty or partly written). */
  function Written(files: map<string, File>, name: string, pages: seq<Page>, at: nat, failing: set<nat>): map<string, File> {
    if at in failing then files
    else if at + 1 in failing then files[name := Truncated]
    else files[name := Pdf(pages)]
  }

  /** The files after removing `paths` one by one from position `at`, a
      removal that raises leaving its file in place. */
  function RemoveAll(files: map<string, File>, paths: seq<string>, at: nat, failing: set<nat>): map<string, File> {
    if paths == [] then files
    else
      var before := RemoveAll(files, paths[..|paths| - 1], at, failing);
      if at + |paths| - 1 in failing then before else before - {paths[|paths| - 1]}
  }

  /** The files after a whole job whose launch is at `at`. */
  function JobFiles(files: map<string, File>, s: Setting, name: string, config: JobConfig, at: nat): map<string, File>
    requires s.screenHeight > CROP_TOP + CROP_BOTTOM
  {
    if at in s.failing then files
    else
      var tried := TryFiles(files, s, name, config, at + 1);
      var quitAt := QuitAt(name, config, at, s.failing);
      if quitAt in s.failing then tried
      else RemoveAll(tried, JobTemps(name, config, at, s.failing), quitAt + 1, s.failing)
  }

  /** The first k captures are on disk, each holding the capture taken after
      that many advances, and nothing else changed. */
  lemma {:induction false} CapturedSpec(files: map<string, File>, s: Setting, url: string, name: string, k: nat)
    ensures forall p :: p !in TempNames(name, k) ==> Same(Captured(files, s, url, name, k), files, p)
    ensures forall j :: 0 <= j < k ==>
      TempName(name, j) in Captured(files, s, url, name, k)
      && Captured(files, s, url, name, k)[TempName(name, j)] == Png(Shot(s, url, j))
  {
    if k > 0 {
      CapturedSpec(files, s, url, name, k - 1);
      forall j | 0 <= j < k - 1 ensures TempName(name, j) != TempName(name, k - 1) {
        TempNameInjective(name, j, k - 1);
      }
    }
  }

  /** Each path is gone exactly when its removal did not raise, provided no
      path is listed twice; other paths are untouched. */
  lemma {:induction false} RemoveAllSpec(files: map<string, File>, paths: seq<string>, at: nat, failing: set<nat>)
    requires forall j, k :: 0 <= j < k < |paths| ==> paths[j] != paths[k]
    ensures forall p :: p !in paths ==> Same(RemoveAll(files, paths, at, failing), files, p)
    ensures forall k :: 0 <= k < |paths| ==>
      (paths[k] in RemoveAll(files, paths, at, failing) <==> paths[k] in files && at + k in failing)
    decreases |paths|
  {
    if paths != [] {
      var init := paths[..|paths| - 1];
      RemoveAllSpec(files, init, at, failing);
      forall k | 0 <= k < |init| ensures init[k] == paths[k] && init[k] != paths[|paths| - 1] {
      }
      assert forall p :: p !in paths ==> p !in init && p != paths[|paths| - 1];
      assert paths[|paths| - 1] !in init;
    }
  }

  // ---------------------------------------------------------------------
  // What a job promises.

  /** A job in which nothing inside the `try` raises writes the output:
      one page per slide, page i built from the capture after i advances.
      Whether quitting or the cleanup raises does not matter. */
  lemma JobWritesOutput(files: map<string, File>, s: Setting, name: string, config: JobConfig, at: nat)
    requires s.screenHeight > CROP_TOP + CROP_BOTTOM
    requires at !in s.failing && Clean(TryCalls(name, config), at + 1, s.failing)
    ensures var after := JobFiles(files, s, name, config, at);
      name in after && after[name] == Pdf(SlidePages(s, config.url, SlideCount(config)))
    ensures JobResult(name, config, at, s.failing) != Failed
  {
    TryWritesOutput(files, s, name, config, at + 1);
    var tried := TryFiles(files, s, name, config, at + 1);
    var temps := TempNames(name, TrySaved(config, at + 1, s.failing));
    var quitAt := QuitAt(name, config, at, s.failing);
    TempNamesDistinct(name, TrySaved(config, at + 1, s.failing));
    JobQuitsFiles(files, s, name, config, at, quitAt, tried, temps);
    RemoveAllSpec(tried, temps, quitAt + 1, s.failing);
  }

  /** A `try` block that runs clean leaves the pages in the output. */
  lemma TryWritesOutput(files: map<string, File>, s: Setting, name: string, config: JobConfig, at: nat)
    requires s.screenHeight > CROP_TOP + CROP_BOTTOM
    requires Clean(TryCalls(name, config), at, s.failing)
    ensures var tried := TryFiles(files, s, name, config, at);
      name in tried && tried[name] == Pdf(SlidePages(s, config.url, SlideCount(config)))
  {
    var n := SlideCount(config);
    TryCallsLength(name, config);
    RunsSplit(at, 2 + 4 * n, 2, s.failing);
    assert Runs(at + 2 + 4 * n, 2, s.failing);
  }

  /** The output file is opened only after every slide was processed: a job
      interrupted earlier leaves whatever was at that path as it was. */
  lemma OutputUntouchedUntilReached(files: map<string, File>, s: Setting, name: string, config: JobConfig, at: nat)
    requires s.screenHeight > CROP_TOP + CROP_BOTTOM
    requires !ReachesOutput(config, at, s.failing)
    ensures Same(JobFiles(files, s, name, config, at), files, name)
  {
    if at !in s.failing {
      var k := TrySaved(config, at + 1, s.failing);
      var tried := TryFiles(files, s, name, config, at + 1);
      var temps := TempNames(name, k);
      var quitAt := QuitAt(name, config, at, s.failing);
      TempNamesDistinct(name, k);
      CapturedSpec(files, s, config.url, name, k);
      JobQuitsFiles(files, s, name, config, at, quitAt, tried, temps);
      RemoveAllSpec(tried, temps, quitAt + 1, s.failing);
    }
  }

  /** A job touches no path other than its output and its captures. */
  lemma OtherFilesUntouched(files: map<string, File>, s: Setting, name: string, config: JobConfig, at: nat, p: string)
    requires s.screenHeight > CROP_TOP + CROP_BOTTOM
    requires p != name && p !in JobTemps(name, config, at, s.failing)
    ensures Same(JobFiles(files, s, name, config, at), files, p)
  {
    if at !in s.failing {
      var k := TrySaved(config, at + 1, s.failing);
      var tried := TryFiles(files, s, name, config, at + 1);
      var temps := TempNames(name, k);
      var quitAt := QuitAt(name, config, at, s.failing);
      TempNamesDistinct(name, k);
      CapturedSpec(files, s, config.url, name, k);
      assert Same(tried, files, p);
      JobQuitsFiles(files, s, name, config, at, quitAt, tried, temps);
      RemoveAllSpec(tried, temps, quitAt + 1, s.failing);
    }
  }

  /** Every capture a job saved is deleted, unless quitting the browser
      raised (the cleanup loop then never runs) or its own removal raised. */
  lemma CapturesCleanedUp(files: map<string, File>, s: Setting, name: string, config: JobConfig, at: nat)
    requires s.screenHeight > CROP_TOP + CROP_BOTTOM
    ensures var temps := JobTemps(name, config, at, s.failing);
      var quitAt := QuitAt(name, config, at, s.failing);
      forall k :: 0 <= k < |temps| ==>
        (temps[k] in JobFiles(files, s, name, config, at) <==> quitAt in s.failing || quitAt + 1 + k in s.failing)
  {
    if at !in s.failing {
      var k := TrySaved(config, at + 1, s.failing);
      var tried := TryFiles(files, s, name, config, at + 1);
      var temps := TempNames(name, k);
      var quitAt := QuitAt(name, config, at, s.failing);
      TempNamesDistinct(name, k);
      TriedKeepsCaptures(files, s, name, config, at + 1);
      JobQuitsFiles(files, s, name, config, at, quitAt, tried, temps);
      RemoveAllSpec(tried, temps, quitAt + 1, s.failing);
    }
  }

  /** Every capture the `try` block saved is still on disk after it. */
  lemma TriedKeepsCaptures(files: map<string, File>, s: Setting, name: string, config: JobConfig, at: nat)
    requires s.screenHeight > CROP_TOP + CROP_BOTTOM
    ensures var temps := TempNames(name, TrySaved(config, at, s.failing));
      forall j :: 0 <= j < |temps| ==> temps[j] in TryFiles(files, s, name, config, at)
  {
    var k := TrySaved(config, at, s.failing);
    TempNamesDistinct(name, k);
    TempNamesAt(name, k);
    CapturedSpec(files, s, config.url, name, k);
  }

  // ---------------------------------------------------------------------
  // `main`: the jobs in the dictionary's order, until one raises.

  /** One job of the queue started at a log position: the calls it makes
      and how it ends. */
  type JobRunner = ((string, JobConfig), nat) -> (seq<Call>, JobOutcome)

  /** `process_presentation` as a job of the queue. */
  function JobRun(failing: set<nat>): JobRunner {
    (job: (string, JobConfig), at: nat) => (JobCalls(job.0, job.1, at, failing), JobResult(job.0, job.1, at, failing))
  }

  /** What the queue has produced so far: the log and one outcome per job
      run. */
  datatype QueueState = QueueState(log: seq<Call>, outcomes: seq<JobOutcome>)

  /** The state after the jobs from index k on ran, starting from `st`:
      each job starts at the next log position, and a job whose exception
      escapes is the last (it ends the program). */
  function QueueRun(run: JobRunner, jobs: seq<(string, JobConfig)>, k: nat, st: QueueState): QueueState
    requires k <= |jobs|
    decreases |jobs| - k
  {
    if k == |jobs| then st
    else
      var step := run(jobs[k], |st.log|);
      var next := QueueState(st.log + step.0, st.outcomes + [step.1]);
      if step.1 == Raised then next else QueueRun(run, jobs, k + 1, next)
  }

  /** The log after jobs 0 to i - 1 each ran in order from `log`, each
      starting at the position where the one before it stopped. */
  function JobsLog(run: JobRunner, jobs: seq<(string, JobConfig)>, i: nat, log: seq<Call>): (r: seq<Call>)
    requires i <= |jobs|
    ensures |log| <= |r| && r[..|log|] == log
  {
    if i == 0 then log
    else
      var before := JobsLog(run, jobs, i - 1, log);
      assert (before + run(jobs[i - 1], |before|).0)[..|log|] == before[..|log|];
      before + run(jobs[i - 1], |before|).0
  }

  /** The files after the jobs from index k on ran, the log so far being
      `log`. */
  function QueueFiles(files: map<string, File>, s: Setting, jobs: seq<(string, JobConfig)>, k: nat, log: seq<Call>): map<string, File>
    requires s.screenHeight > CROP_TOP + CROP_BOTTOM
    requires k <= |jobs|
    decreases |jobs| - k
  {
    if k == |jobs| then files
    else
      var name, config, at := jobs[k].0, jobs[k].1, |log|;
      var after := JobFiles(files, s, name, config, at);
      if JobResult(name, config, at, s.failing) == Raised then after
      else QueueFiles(after, s, jobs, k + 1, log + JobCalls(name, config, at, s.failing))
  }

  /** The queue runs the jobs in order, one outcome per job started; a job
      that fails inside its `try` does not stop the queue, and only an
      escaping exception leaves jobs unstarted. This holds whatever each
      job does. */
  lemma QueueRunsInOrder(run: JobRunner, jobs: seq<(string, JobConfig)>, log: seq<Call>)
    ensures var outs := QueueRun(run, jobs, 0, QueueState(log, [])).outcomes;
      |outs| <= |jobs| && (jobs != [] ==> outs != [])
      && (forall i :: 0 <= i < |outs| - 1 ==> outs[i] != Raised)
      && (|outs| < |jobs| ==> outs[|outs| - 1] == Raised)
      && (outs != [] ==> outs[0] == run(jobs[0], |log|).1)
  {
    var st := QueueState(log, []);
    QueueLength(run, jobs, 0, st);
    QueueStopsOnRaise(run, jobs, 0, st);
  }

  /** The queue's outcome i is job i's own, run at the position where jobs 0
      to i - 1 left the log, and the final log is the calls of the jobs
      run, in order. */
  lemma QueueOutcomesInOrder(run: JobRunner, jobs: seq<(string, JobConfig)>, log: seq<Call>)
    ensures var end := QueueRun(run, jobs, 0, QueueState(log, []));
      |end.outcomes| <= |jobs| && end.log == JobsLog(run, jobs, |end.outcomes|, log)
      && forall i :: 0 <= i < |end.outcomes| ==> end.outcomes[i] == run(jobs[i], |JobsLog(run, jobs, i, log)|).1
  {
    QueueOutcomesAt(run, jobs, 0, QueueState(log, []), log);
  }

  /** From job k on, outcome i is job i's own, run at the position where
      jobs 0 to i - 1 left the log, and the final log is those jobs' calls
      in order. */
  lemma {:induction false} QueueOutcomesAt(run: JobRunner, jobs: seq<(string, JobConfig)>, k: nat, st: QueueState, log: seq<Call>)
    requires k <= |jobs| && |st.outcomes| == k && st.log == JobsLog(run, jobs, k, log)
    ensures var end := QueueRun(run, jobs, k, st);
      k <= |end.outcomes| <= |jobs| && end.log == JobsLog(run, jobs, |end.outcomes|, log)
      && forall i :: k <= i < |end.outcomes| ==> end.outcomes[i] == run(jobs[i], |JobsLog(run, jobs, i, log)|).1
    decreases |jobs| - k
  {
    if k < |jobs| {
      var step := run(jobs[k], |st.log|);
      var next := QueueState(st.log + step.0, st.outcomes + [step.1]);
      assert next.log == JobsLog(run, jobs, k + 1, log);
      if step.1 != Raised {
        QueueOutcomesAt(run, jobs, k + 1, next, log);
        QueueLength(run, jobs, k + 1, next);
        var outs := QueueRun(run, jobs, k + 1, next).outcomes;
        assert outs[k] == outs[..k + 1][k] == step.1;
      } else {
        assert QueueRun(run, jobs, k, st) == next;
      }
    }
  }

  /** The outcomes recorded before job k are kept, at most one is added per
      job, and the run ends early only on an escaping exception. */
  lemma {:induction false} QueueLength(run: JobRunner, jobs: seq<(string, JobConfig)>, k: nat, st: QueueState)
    requires k <= |jobs|
    ensures var outs, m := QueueRun(run, jobs, k, st).outcomes, |st.outcomes|;
      m <= |outs| <= m + |jobs| - k && outs[..m] == st.outcomes
      && (k < |jobs| ==> m < |outs| && outs[m] == run(jobs[k], |st.log|).1)
      && (|outs| < m + |jobs| - k ==> outs[|outs| - 1] == Raised)
    decreases |jobs| - k
  {
    if k < |jobs| {
      var step := run(jobs[k], |st.log|);
      var next := QueueState(st.log + step.0, st.outcomes + [step.1]);
      if step.1 != Raised {
        QueueLength(run, jobs, k + 1, next);
        var outs, m := QueueRun(run, jobs, k + 1, next).outcomes, |st.outcomes|;
        assert outs[..m] == outs[..m + 1][..m];
        assert outs[m] == outs[..m + 1][m];
      }
    }
  }

  /** Only the last outcome added can be an escaping exception. */
  lemma {:induction false} QueueStopsOnRaise(run: JobRunner, jobs: seq<(string, JobConfig)>, k: nat, st: QueueState)
    requires k <= |jobs|
    ensures var outs := QueueRun(run, jobs, k, st).outcomes;
      forall i :: |st.outcomes| <= i < |outs| - 1 ==> outs[i] != Raised
    decreases |jobs| - k
  {
    if k < |jobs| {
      var step := run(jobs[k], |st.log|);
      var next := QueueState(st.log + step.0, st.outcomes + [step.1]);
      if step.1 != Raised {
        QueueStopsOnRaise(run, jobs, k + 1, next);
        QueueLength(run, jobs, k + 1, next);
      }
    }
  }

  // ---------------------------------------------------------------------
  // The shape of a job's calls.

  /** The calls counted: captures, or advances to the next slide. */
  datatype Kind = Captures | Advances

  predicate IsKind(c: Call, kind: Kind) {
    match kind
    case Captures => c.Screenshot?
    case Advances => c.Advance?
  }

  /** How many calls are of the given kind. */
  function Occurrences(calls: seq<Call>, kind: Kind): nat
    decreases |calls|
  {
    if calls == [] then 0
    else (if IsKind(calls[0], kind) then 1 else 0) + Occurrences(calls[1..], kind)
  }

  lemma {:induction false} OccurrencesAppend(a: seq<Call>, b: seq<Call>, kind: Kind)
    ensures Occurrences(a + b, kind) == Occurrences(a, kind) + Occurrences(b, kind)
    decreases |a|
  {
    if a == [] {
      assert a + b == b;
    } else {
      assert (a + b)[0] == a[0];
      assert (a + b)[1..] == a[1..] + b;
      OccurrencesAppend(a[1..], b, kind);
    }
  }

  /** Each iteration of the loop captures once and advances once. */
  lemma {:induction false} LoopOccurrences(name: string, n: nat, kind: Kind)
    ensures Occurrences(LoopCalls(name, n), kind) == n
  {
    if n > 0 {
      LoopOccurrences(name, n - 1, kind);
      OccurrencesAppend(LoopCalls(name, n - 1), SlideCalls(name, n - 1), kind);
      SlideOccurrences(name, n - 1, kind);
    }
  }

  lemma SlideOccurrences(name: string, i: nat, kind: Kind)
    ensures Occurrences(SlideCalls(name, i), kind) == 1
  {
    var slide := SlideCalls(name, i);
    assert Occurrences(slide[3..], kind) == (if kind == Advances then 1 else 0) by {
      assert slide[3..][1..] == [];
    }
    assert Occurrences(slide[2..], kind) == Occurrences(slide[3..], kind) by {
      assert slide[2..][1..] == slide[3..];
    }
    assert Occurrences(slide[1..], kind) == Occurrences(slide[2..], kind) by {
      assert slide[1..][1..] == slide[2..];
    }
  }

  /** A job whose `try` block runs clean captures every slide and advances
      after each one, the last included. */
  lemma CompletedJobShape(name: string, config: JobConfig, at: nat, failing: set<nat>, kind: Kind)
    requires at !in failing && Clean(TryCalls(name, config), at + 1, failing)
    ensures Occurrences(JobCalls(name, config, at, failing), kind) == SlideCount(config)
  {
    var n := SlideCount(config);
    ExecutedClean(TryCalls(name, config), at + 1, failing);
    var removes := if QuitAt(name, config, at, failing) in failing then []
      else RemoveCalls(JobTemps(name, config, at, failing));
    NoneInRemovals(removes, kind);
    var loop := LoopCalls(name, n);
    assert JobCalls(name, config, at, failing)
        == [Launch] + OpenCalls(config) + loop + WriteCalls(name) + [Quit] + removes;
    LoopOccurrences(name, n, kind);
    CleanJobCount(name, config, loop, removes, kind);
  }

  /** Only the loop contributes calls that none of the fixed calls match. */
  lemma CleanJobCount(name: string, config: JobConfig, loop: seq<Call>, removes: seq<Call>, kind: Kind)
    requires Occurrences(removes, kind) == 0
    ensures Occurrences([Launch] + OpenCalls(config) + loop + WriteCalls(name) + [Quit] + removes, kind)
         == Occurrences(loop, kind)
  {
    var head := [Launch] + OpenCalls(config);
    var tail := WriteCalls(name);
    OccurrencesAppend(head + loop + tail + [Quit], removes, kind);
    OccurrencesAppend(head + loop + tail, [Quit], kind);
    OccurrencesAppend(head + loop, tail, kind);
    OccurrencesAppend(head, loop, kind);
    assert Occurrences(head, kind) == 0 by {
      assert head[1..][1..][1..] == [];
      assert Occurrences(head[1..][1..], kind) == 0;
      assert Occurrences(head[1..], kind) == 0;
    }
    assert Occurrences(tail, kind) == 0 by {
      assert tail[1..][1..] == [];
      assert Occurrences(tail[1..], kind) == 0;
    }
    assert Occurrences([Quit], kind) == 0 by {
      assert [Quit][1..] == [];
    }
  }

  /** Removal calls are neither captures nor advances. */
  lemma {:induction false} NoneInRemovals(removes: seq<Call>, kind: Kind)
    requires forall k :: 0 <= k < |removes| ==> removes[k].Remove?
    ensures Occurrences(removes, kind) == 0
    decreases |removes|
  {
    if removes != [] {
      NoneInRemovals(removes[1..], kind);
    }
  }
}
