# Hex dumps and slide scraping, modelled in Dafny

This project models two small programs. Every module is proved against a
specification stated as functions.

**png-2-hex.**
- `convert_image_to_csharp_hex` (png-2-hex/pngjpgconvert.py) turns a file's
  bytes into the body of a C# byte-array initialiser:
  - each byte is written as `0xhh`;
  - the tokens are joined by `", "`, a fixed number to a line;
  - every line is indented, and every line except the last ends in a comma.
- `decode_hex_to_image` (png-2-hex/hex2img.py) scans any text for `0x`
  followed by two hexadecimal digits. It writes one byte per match to the
  output path, resolved against the working directory when it is relative.
- The two are a serialiser/parser pair. The round trip is proved: for a positive line
  length, decoding a dump of non-empty bytes writes back exactly those bytes.

**prezi-scrapper.**
- `prezi_scraper.py` captures each slide of an online presentation.
- It crops each capture, then builds one PDF page per capture: the cropped
  image is the background, and every recognised word lies over it in
  invisible ink at the same place.
- After the last slide it writes the document. In a `finally` clause it
  quits the browser and deletes the captures.
- `main` runs the configured jobs one after the other.

The browser, the recogniser and the file system are one `World` object. Each
call on it is logged. The call at log position p raises exactly when p is in
a fixed set `failing`, so each way a run can be interrupted is one choice of
that set. The imperative code (module `Scraper`) is proved to follow a plan
stated as pure functions (module `JobPlan`). Lemmas about that plan state
what the script promises:
- the pages and their order;
- when the output is written;
- cleanup;
- which files are touched;
- the order of the jobs.

Modules:
- `Common`: the Result type, Python errors, file reads, and `startswith`/`endswith`.
- `PyText`: `str.strip()` and `f"{n}"`.
- `HexDump`, `HexScan` and `HexRoundTrip`: png-2-hex.
- `Overlay`: the crop and `create_overlay_pdf`, with a `Canvas` class.
- `JobPlan` and `Scraper`: `process_presentation` and `main`.

## Model

| member | source | states |
|---|---|---|
| HexDump.LowerHexDigit | png-2-hex/pngjpgconvert.py:23 | A digit of the `x` format is `0`-`9` or lower-case `a`-`f`, and a letter exactly for values 10 to 15. |
| HexDump.Spaces | png-2-hex/pngjpgconvert.py:26 | `" " * n` is n spaces, and empty for n <= 0. |
| HexDump.ConvertImageToCSharpHex | png-2-hex/pngjpgconvert.py:5-44 | The function as written (error messages for a missing or unreadable file, the token list, the chunking loop, the join) returns exactly `ConvertOutput`. A zero step raises ValueError; a negative step gives `""`. |
| HexDump.FormatChunks | png-2-hex/pngjpgconvert.py:28-42 | The `for i in range(0, total, n)` loop builds exactly one formatted line per chunk, in chunk order. |
| HexDump.FormatLinesStep | png-2-hex/pngjpgconvert.py:30-42 | One turn of the loop: the chunk starting at i becomes the next line, ending in a comma exactly when `i + n < total`. |
| HexDump.ChunkCount | png-2-hex/pngjpgconvert.py:30-32 | There are ceil(len / n) chunks: k chunks with `(k-1)*n < len <= k*n`. |
| HexDump.ChunkSizes | png-2-hex/pngjpgconvert.py:30-32 | No chunks exactly for no values; every chunk but the last has n values; the last has 1 to n. |
| HexDump.ChunksConcat | png-2-hex/pngjpgconvert.py:30-32 | The chunks concatenated in order are the values: nothing dropped, duplicated or reordered. |
| HexDump.FormatLinesShape | png-2-hex/pngjpgconvert.py:35-42 | One line per chunk; line k is the indentation, chunk k joined by `", "`, and a comma exactly when it is not the last line. |
| HexDump.FormatLinesEnds | png-2-hex/pngjpgconvert.py:38-42 | The first line has a comma only if there are several; the last line never has one. |
| HexDump.DumpLayout | png-2-hex/pngjpgconvert.py:23-42 | The dump's lines combined: ceil(len/n) lines, chunk sizes, chunks concatenating to the tokens, and each line's indentation, separators and comma. |
| HexDump.DumpEnds | png-2-hex/pngjpgconvert.py:44 | The dump is `""` exactly for empty input; otherwise it ends with the last byte's last hex digit, so there is no trailing comma or newline. |
| HexDump.DumpStarts | png-2-hex/pngjpgconvert.py:26-44 | A non-empty dump starts with a space when indented, otherwise with the `0` of the first token. |
| HexDump.ErrorPrefixTellsApart | png-2-hex/pngjpgconvert.py:9-52 | For a non-zero step the function returns a string, and it starts with `"Error"` exactly when the file was missing or unreadable. |
| HexScan.HexDigitValue | png-2-hex/hex2img.py:35 | A hexadecimal digit of either case has a value in 0..15. |
| HexScan.FindAll | png-2-hex/hex2img.py:25 | `re.findall(r'0x[0-9a-fA-F]{2}', s)`: every token found matches the pattern in full, and there is at most one token per four characters of text; the tokens are the matches `FindAllOccurs` and `EveryMatchCovered` describe. |
| HexScan.StartsFromSpec | png-2-hex/hex2img.py:25 | Scanning from position i: token k is the text at start k, every start is at or after i, and consecutive starts are at least four apart, so matches do not overlap and come left to right. |
| HexScan.StartsFromCover | png-2-hex/hex2img.py:25 | Scanning from position i misses no occurrence: every place at or after i where the pattern matches is a returned match, or lies inside one. |
| HexScan.FindAllOccurs | png-2-hex/hex2img.py:23-25 | The tokens of the whole text are occurrences of the pattern in it, in order: token k is the four characters at `Starts(s)[k]`, and the starts increase by at least four. |
| HexScan.EveryMatchCovered | png-2-hex/hex2img.py:23-25 | Every occurrence of the pattern in the text is returned, or overlaps a returned match that starts before it, as `re.findall`'s non-overlapping left-to-right scan does. |
| HexScan.ResolveOutputPath | png-2-hex/hex2img.py:37-39 | An absolute output path is kept. A relative one becomes the working directory, then one `/` exactly when the directory is non-empty and does not already end in `/`, then the path: length, prefix, separator and suffix are all fixed. |
| HexScan.ResolveExample | png-2-hex/hex2img.py:37-39 | `"a"` under `/home/a` becomes `/home/a/a`; under `/tmp/` no second `/` is added; an absolute path is kept. |
| HexScan.DecodeHexToImage | png-2-hex/hex2img.py:7-56 | Four outcomes. A missing file gives FileNotFound, and an unreadable one ReadError with its reason. A readable text without a single token gives NoHexValues, and nothing is written. Otherwise the bytes are saved to the resolved output path: one byte per token, byte i being token i's value. |
| HexScan.SkipNonZero | png-2-hex/hex2img.py:23-25 | A character other than `0` cannot start a token and is skipped. |
| HexScan.SkipWithoutZero | png-2-hex/hex2img.py:23-25 | Text without a `0` (spaces, commas, newlines, braces) yields no token and does not disturb the scan after it. |
| HexScan.TakeToken | png-2-hex/hex2img.py:25 | A token at the scan position is taken whole, and the scan resumes right after its two digits. |
| HexScan.OnlyTwoDigits | png-2-hex/hex2img.py:25 | `"0x123"` yields only `0x12`; `"0x1,"` yields nothing. |
| HexScan.CaseInsensitive | png-2-hex/hex2img.py:35 | Upper- and lower-case digits give the same byte; `0xFF` and `0xff` are both 255. |
| HexRoundTrip.DigitDecodes | png-2-hex/hex2img.py:35 | A digit the `x` format writes for value d (pngjpgconvert.py line 23) is a hexadecimal digit, and `int(h, 16)` reads it back as d. |
| HexRoundTrip.HexTokenDecodes | png-2-hex/pngjpgconvert.py:23 | Each token the encoder writes matches the decoder's pattern, decodes to its own byte, and uses only lower-case digits. |
| HexRoundTrip.ScanJoinedTokens | png-2-hex/pngjpgconvert.py:35 | Tokens joined by `", "` scan back to the same list, and the scan of what follows is undisturbed. |
| HexRoundTrip.ScanFormattedLines | png-2-hex/pngjpgconvert.py:28-44 | The formatted lines scan to their chunks concatenated; indentation, commas and newlines add nothing. |
| HexRoundTrip.ScanDump | png-2-hex/pngjpgconvert.py:23-44 | Scanning a dump finds exactly the tokens of the bytes, in order. |
| HexRoundTrip.TokenBytesOfHexValues | png-2-hex/hex2img.py:35 | Converting the tokens of some bytes gives those bytes back. |
| HexRoundTrip.RoundTrip | png-2-hex/hex2img.py:25-43 | For non-empty bytes, any positive line length and any indentation, decoding the dump writes the original bytes to the resolved output path. |
| HexRoundTrip.EmptyDumpHasNoTokens | png-2-hex/hex2img.py:27-29 | The dump of no bytes contains no token, so decoding it reports the error and writes nothing. |
| PyText.LStripSpec | prezi-scrapper/prezi_scraper.py:71 | `lstrip()` keeps the suffix starting at the first non-whitespace character and removes only whitespace before it. |
| PyText.RStripSpec | prezi-scrapper/prezi_scraper.py:71 | `rstrip()` keeps the prefix ending at the last non-whitespace character and removes only whitespace after it. |
| PyText.StripEmpty | prezi-scrapper/prezi_scraper.py:71-73 | A word is skipped exactly when all its characters are whitespace. |
| PyText.StripShape | prezi-scrapper/prezi_scraper.py:71 | `strip()` keeps a contiguous piece of the text that neither begins nor ends with whitespace, and removes only whitespace around it. |
| PyText.Decimal | prezi-scrapper/prezi_scraper.py:109 | `f"{i}"` has at least one digit, and exactly one for i < 10. |
| PyText.DecimalDigits | prezi-scrapper/prezi_scraper.py:109 | Every character of `f"{i}"` is a decimal digit. |
| PyText.DecimalInjective | prezi-scrapper/prezi_scraper.py:109 | Different slide numbers are written differently. |
| Overlay.CropCapture | prezi-scrapper/prezi_scraper.py:114-118 | The crop keeps the full width and `height - CROP_TOP - CROP_BOTTOM` rows, which is positive under the precondition. |
| Overlay.CleanForOcr | prezi-scrapper/prezi_scraper.py:39-47 | The binarised copy has the same size as its source. |
| Overlay.CropExample | prezi-scrapper/prezi_scraper.py:114-118 | An 800x600 capture with the 80-row margins becomes 800x440. |
| Overlay.PdfYFlip | prezi-scrapper/prezi_scraper.py:75-76 | The change of origin is a vertical reflection: applied twice it gives back the image row, and a box higher in the image lands higher on the page. |
| Overlay.PdfYInPage | prezi-scrapper/prezi_scraper.py:75-76 | A box inside the image (`0 <= y`, `y + h <= H`) lands inside the page: `0 <= pdf_y` and `pdf_y + h <= H`. |
| Overlay.PdfYExample | prezi-scrapper/prezi_scraper.py:76 | y = 20, h = 30 on a 440-row page gives 390. |
| Overlay.CreateOverlayPdf | prezi-scrapper/prezi_scraper.py:53-82 | The canvas loop draws exactly the page `OverlayPage`: background, invisible fill, then a font and a string per non-blank box, in box order. |
| Overlay.NonBlankCount | prezi-scrapper/prezi_scraper.py:70-73 | N boxes with K blank ones leave N - K. |
| Overlay.TextOpsPairs | prezi-scrapper/prezi_scraper.py:70-78 | The text layer is two calls per kept box, in box order. The font size is the box height; the string is the stripped text at `(x, pdf_y)`. |
| Overlay.DrawStringCount | prezi-scrapper/prezi_scraper.py:70-78 | A page for N boxes with K blank ones has exactly N - K `drawString` calls. |
| Overlay.PageLayout | prezi-scrapper/prezi_scraper.py:55-78 | The page has the image's size. The image is drawn first, at (0,0) and full size. The invisible fill (alpha 0) comes second. Only fonts and strings follow. |
| Overlay.NoBoxesNoText | prezi-scrapper/prezi_scraper.py:65-78 | With no boxes the page is the background and the fill only. |
| JobPlan.RunsSpec | prezi-scrapper/prezi_scraper.py:98-137 | A run of calls is clean exactly when no position in it raises. |
| JobPlan.RunsSplit | prezi-scrapper/prezi_scraper.py:98-137 | Two consecutive runs are clean together exactly when each is. |
| JobPlan.MadeSpec | prezi-scrapper/prezi_scraper.py:98-137 | A clean run makes every call; otherwise it stops right after the first call that raises, and every call before that one returned. |
| JobPlan.MadeSplit | prezi-scrapper/prezi_scraper.py:98-137 | The second part of a run starts only if the first part ran clean. |
| JobPlan.ExecutedSplit | prezi-scrapper/prezi_scraper.py:98-137 | Running a then b makes all of a and then the calls of b made, or only the calls of a made if a raised. |
| JobPlan.ExecutedClean | prezi-scrapper/prezi_scraper.py:98-137 | A plan that runs clean is made in full. |
| JobPlan.LoopCallsLength | prezi-scrapper/prezi_scraper.py:105-128 | n iterations of the slide loop plan 4n calls. |
| JobPlan.LoopCallsAt | prezi-scrapper/prezi_scraper.py:105-128 | Iteration i occupies calls 4i to 4i+3: capture, open, recognise, advance. |
| JobPlan.TrySplit | prezi-scrapper/prezi_scraper.py:98-133 | The `try` block loads the page, runs the loop, then writes; each part starts only after the one before ran clean. |
| JobPlan.TempNameInjective | prezi-scrapper/prezi_scraper.py:109 | `temp_{name}_slide_{i}.png` differs for different i and is never the output name. |
| JobPlan.TempNamesDistinct | prezi-scrapper/prezi_scraper.py:109-111 | The recorded captures are pairwise distinct and do not include the output. |
| JobPlan.TempNamesAt | prezi-scrapper/prezi_scraper.py:109-111 | The k-th recorded capture is the capture of slide k. |
| JobPlan.SavedBound | prezi-scrapper/prezi_scraper.py:110-111 | The loop saves at most one capture per slide, and every capture if it runs clean. |
| JobPlan.SavedSpec | prezi-scrapper/prezi_scraper.py:110-111 | Capture k is saved exactly when it and every call before it in the loop returned. |
| JobPlan.SavedInLog | prezi-scrapper/prezi_scraper.py:110-111 | Capture k is recorded exactly when the loop made its screenshot call and that call did not raise. |
| JobPlan.LoopReachesCapture | prezi-scrapper/prezi_scraper.py:105-110 | The loop reaches slide k's screenshot exactly when the earlier iterations ran, and that call is the screenshot of slide k's name. |
| JobPlan.SavedStop | prezi-scrapper/prezi_scraper.py:105-135 | A loop interrupted in iteration i saved the first i captures, plus capture i unless its screenshot raised. |
| JobPlan.LoopStopsExecuted | prezi-scrapper/prezi_scraper.py:105-135 | A loop interrupted in iteration i made the first i iterations and part of iteration i, and nothing after. |
| JobPlan.SlideRanClean | prezi-scrapper/prezi_scraper.py:105-128 | A clean iteration extends the clean-loop state by one: four calls, one recorded capture, one file. |
| JobPlan.SlideStopped | prezi-scrapper/prezi_scraper.py:105-135 | An iteration that raises ends the loop, and the capture it saved, if any, is the last. |
| JobPlan.LoopFinished | prezi-scrapper/prezi_scraper.py:105-128 | A loop that ran clean to the end made all its calls and saved every capture. |
| JobPlan.TryOpenStopped | prezi-scrapper/prezi_scraper.py:99-103 | If loading the page or finding its body raises, the `try` block makes only those calls and is not clean. |
| JobPlan.TryOpenStoppedFiles | prezi-scrapper/prezi_scraper.py:99-103 | ... and it saves no capture and changes no file. |
| JobPlan.TryLoopStopped | prezi-scrapper/prezi_scraper.py:105-135 | If the slide loop raises, the `try` block makes the page calls and the loop's calls, and never opens the output. |
| JobPlan.TryLoopStoppedFiles | prezi-scrapper/prezi_scraper.py:105-135 | ... and it leaves only the loop's captures. |
| JobPlan.TryLoopRan | prezi-scrapper/prezi_scraper.py:99-128 | If the loop ran clean, the page calls and every loop call were made: 2 + 4n calls. |
| JobPlan.TryLoopRanSaved | prezi-scrapper/prezi_scraper.py:105-128 | ... and every capture was saved. |
| JobPlan.TryWrote | prezi-scrapper/prezi_scraper.py:130-132 | After a clean loop the output calls follow, and the `try` block is clean exactly when they are. |
| JobPlan.TryWroteFiles | prezi-scrapper/prezi_scraper.py:130-132 | After a clean loop the files are every capture, then the output written with one page per slide. |
| JobPlan.JobNotLaunched | prezi-scrapper/prezi_scraper.py:94 | If starting the browser raises, the job makes no other call, changes no file, and its exception reaches the caller. |
| JobPlan.JobQuits | prezi-scrapper/prezi_scraper.py:140-148 | After the `try` block the browser is quit. The recorded captures are then removed, unless quitting raised. The outcome is Raised, Finished or Failed accordingly. |
| JobPlan.JobQuitsFiles | prezi-scrapper/prezi_scraper.py:140-148 | What a job leaves on disk is what the `try` block left, minus the cleanup's removals. |
| JobPlan.SlidePagesAt | prezi-scrapper/prezi_scraper.py:124-125 | After n slides the writer holds n pages, and page i is built from the capture taken after i advances. |
| JobPlan.CapturedSpec | prezi-scrapper/prezi_scraper.py:110 | After k captures each capture path holds its screenshot and no other path changed. |
| JobPlan.RemoveAllSpec | prezi-scrapper/prezi_scraper.py:143-148 | The cleanup deletes each distinct path unless its removal raised, and touches no other path. |
| JobPlan.TryWritesOutput | prezi-scrapper/prezi_scraper.py:130-132 | A clean `try` block leaves the output holding one page per slide, in order. |
| JobPlan.JobWritesOutput | prezi-scrapper/prezi_scraper.py:105-148 | A job whose `try` block runs clean has the document on disk afterwards, however the cleanup went, and does not end as Failed. |
| JobPlan.OutputUntouchedUntilReached | prezi-scrapper/prezi_scraper.py:105-132 | A job interrupted before the output is opened leaves that path as it was. |
| JobPlan.OtherFilesUntouched | prezi-scrapper/prezi_scraper.py:85-148 | A job changes no path other than its output and its recorded captures. |
| JobPlan.TriedKeepsCaptures | prezi-scrapper/prezi_scraper.py:110-111 | Every capture the `try` block recorded is still on disk when it ends. |
| JobPlan.CapturesCleanedUp | prezi-scrapper/prezi_scraper.py:140-148 | Each recorded capture is deleted unless quitting the browser raised or its own removal raised. |
| JobPlan.QueueRunsInOrder | prezi-scrapper/prezi_scraper.py:150-158 | `main` runs the jobs in order and records at most one outcome per job. A job that fails inside its `try` does not stop the queue; only an escaping exception leaves jobs unstarted, and it is then the last outcome. |
| JobPlan.QueueOutcomesInOrder | prezi-scrapper/prezi_scraper.py:150-158 | The jobs run in order: outcome i is job i's own, run where jobs 0 to i-1 left the log, and the final log is those jobs' calls in order. |
| JobPlan.QueueOutcomesAt | prezi-scrapper/prezi_scraper.py:153-156 | From job k on, each outcome is its own job's, run at the log position the earlier jobs left, and the log is the jobs' calls in order. |
| JobPlan.QueueLength | prezi-scrapper/prezi_scraper.py:153-156 | Each job run adds exactly its own outcome after the earlier ones, and the run ends early only on Raised. |
| JobPlan.QueueStopsOnRaise | prezi-scrapper/prezi_scraper.py:153-156 | No outcome before the last is Raised. |
| JobPlan.LoopOccurrences | prezi-scrapper/prezi_scraper.py:105-128 | n iterations capture n times and advance n times. |
| JobPlan.SlideOccurrences | prezi-scrapper/prezi_scraper.py:110-127 | One iteration captures once and advances once. |
| JobPlan.CompletedJobShape | prezi-scrapper/prezi_scraper.py:105-128 | A job whose `try` block ran clean captured every slide once and advanced once per slide, the last slide included. |
| Scraper.CaptureSlide | prezi-scrapper/prezi_scraper.py:109-128 | One iteration makes its planned calls up to the first that raises. It records the capture exactly when the screenshot returned. It adds the slide's page exactly when the screenshot, the open and the recognition returned, and advances exactly when the whole iteration ran clean. |
| Scraper.RunSlides | prezi-scrapper/prezi_scraper.py:105-128 | The loop ends clean exactly when none of its 4n calls raised. The log, the recorded captures and the files are those of the loop plan; a clean loop leaves one page per slide in order. |
| Scraper.OpenPage | prezi-scrapper/prezi_scraper.py:100-103 | Loading the page and finding the body make the planned calls up to the first that raises, and succeed exactly when neither raised. |
| Scraper.WriteOutput | prezi-scrapper/prezi_scraper.py:130-132 | Opening empties the output; the write fills it with the pages; a write that raises leaves it truncated (empty or partly written). |
| Scraper.RunTry | prezi-scrapper/prezi_scraper.py:98-137 | The `try` block makes exactly the planned calls up to its first exception, records exactly the saved captures, and leaves exactly the planned files. |
| Scraper.RemoveTempFiles | prezi-scrapper/prezi_scraper.py:143-148 | The cleanup loop removes each recorded capture in order, ignoring removals that raise. |
| Scraper.ProcessPresentation | prezi-scrapper/prezi_scraper.py:85-148 | A job's calls, outcome and files are those of the plan `JobCalls`, `JobResult` and `JobFiles`. |
| Scraper.RunQueue | prezi-scrapper/prezi_scraper.py:150-158 | `main`'s log, outcomes and files are those of running the jobs in order until one raises, with each job run as its plan says. |

## Left out

- Printing, `traceback.print_exc`, `time.sleep` waits, GeckoDriverManager, browser options and the Tesseract path setting: they only produce output or delays.
- Selenium, Tesseract, OpenCV, Pillow, reportlab and pypdf internals. The calls on the `World` object are logged and either return or raise: starting the browser, `get`, `find_element`, `save_screenshot`, `Image.open`, the recognition, `send_keys`, `quit`, opening and writing the output, and `os.remove`. The recogniser is a function from image to boxes, fixed per run. A screenshot shows the page after a given number of advances. Pixel values, thresholding, PNG and PDF bytes and font metrics are not modelled.
- The crop (`img.crop`), the binarisation (`cvtColor`, `adaptiveThreshold`), the page drawing (reportlab's `Canvas`, `drawImage`, `setFont`, `drawString`, `save`) and the page reading (pypdf's `PdfReader`, `add_page`) at lines 113-125 are modelled as never raising. In the code an exception from any of them would end the iteration before the page is added and before `send_keys`, and the job would end Failed, as it does when the recognition raises.
- `save_screenshot` returning `False` without raising is not distinguished: a failed capture is modelled as raising.
- `Image.open` raises in the model when the path holds no image, as well as when its log position is failing.
- Reading the input files, `os.path.exists`, display through Pillow, the Windows clipboard and the command-line entry points of png-2-hex are I/O. Missing and unreadable inputs are modelled as `FileRead` values. `os.getcwd()` is a parameter.
- Writing the decoded image and its failure in png-2-hex/hex2img.py:41-53 are I/O. The model ends with the path and the bytes to write.
- HexScan.ResolveOutputPath: models POSIX `os.path.isabs` and `os.path.join` only; Windows drive letters and separators are not modelled.
- Overlay.CropCapture: requires the capture to be taller than the two 80-row margins together. The code does not check this, and no Python behaviour is claimed for a shorter capture.
- A malformed `PRESENTATIONS` entry is not modelled: jobs are records with a URL and an integer slide count. A missing key raises KeyError at lines 86-87, before the browser starts, and ends `main`. A slide count that is not an integer (`"3"`, `3.0`) is printed at line 89 without complaint. The browser is launched and the page loaded, and `range` raises TypeError at line 105, inside the `try`. The `except` at line 135 catches it, the browser is quit, and `main` goes on to the next job. A negative count gives an empty loop, as `range` does.
- `prezi_scrapper.py`, the Chrome/img2pdf variant, is not part of this model.

Behaviour of the code worth noting, which the model keeps:
- A recogniser failure ends the job: the exception reaches the `except` at line 135, and no page is added for that slide.
- A write that raises at line 132 leaves a truncated output file behind.
- Nothing checks that a capture is taller than the two margins (see Overlay.CropCapture above).
- An exception from starting the browser (line 94, outside the `try`) or from `driver.quit()` (line 141) escapes `process_presentation`. It ends `main`, so later jobs do not run.
- When `driver.quit()` raises, the cleanup loop does not run.
