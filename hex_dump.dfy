/** `convert_image_to_csharp_hex` (png-2-hex/pngjpgconvert.py): a file's
    bytes as the body of a C# byte-array initialiser, `0xhh` tokens joined
    by ", ", a fixed number to a line, every line indented and every line
    but the last ending in a comma. */
module HexDump {
  import opened Common

  /** One digit of Python's `x` format: lower-case hexadecimal. */
  function LowerHexDigit(d: int): (c: char)
    requires 0 <= d < 16
    ensures '0' <= c <= '9' || 'a' <= c <= 'f'
    ensures d < 10 <==> c <= '9'
  {
    if d < 10 then ('0' as int + d) as char else ('a' as int + d - 10) as char
  }

  /** `f"0x{b:02x}"`: two digits, high nibble first. */
  function HexToken(b: byte): string {
    "0x" + [LowerHexDigit(b as int / 16), LowerHexDigit(b as int % 16)]
  }

  /** `[f"0x{b:02x}" for b in byte_data]` */
  function HexValues(data: seq<byte>): seq<string> {
    seq(|data|, i requires 0 <= i < |data| => HexToken(data[i]))
  }

  /** `" " * n`, which is empty for n <= 0. */
  function Spaces(n: int): (s: string)
    ensures |s| == if n <= 0 then 0 else n
    ensures forall i :: 0 <= i < |s| ==> s[i] == ' '
  {
    if n <= 0 then "" else seq(n, _ => ' ')
  }

  /** `sep.join(parts)` */
  function Join(sep: string, parts: seq<string>): string {
    if |parts| == 0 then ""
    else if |parts| == 1 then parts[0]
    else parts[0] + sep + Join(sep, parts[1..])
  }

  /** Concatenation of a sequence of sequences. */
  function Concat<T>(xss: seq<seq<T>>): seq<T> {
    if xss == [] then [] else xss[0] + Concat(xss[1..])
  }

  /** The slices `vals[i:i + n]` for `i` in `range(0, len(vals), n)`. */
  function Chunks<T>(vals: seq<T>, n: nat): seq<seq<T>>
    requires n > 0
    decreases |vals|
  {
    if vals == [] then []
    else if |vals| <= n then [vals]
    else [vals[..n]] + Chunks(vals[n..], n)
  }

  /** One line per chunk: the indentation, the chunk joined by ", ", and a
      trailing comma on every line except the last. */
  function FormatLines(chunks: seq<seq<string>>, indentation: string): seq<string> {
    if chunks == [] then []
    else if |chunks| == 1 then [indentation + Join(", ", chunks[0])]
    else [indentation + Join(", ", chunks[0]) + ","] + FormatLines(chunks[1..], indentation)
  }

  /** The lines of the dump of `data` when `bytesPerLine > 0`. */
  function DumpLines(data: seq<byte>, bytesPerLine: nat, indentSpaces: int): seq<string>
    requires bytesPerLine > 0
  {
    FormatLines(Chunks(HexValues(data), bytesPerLine), Spaces(indentSpaces))
  }

  /** The text the chunking loop and the final join produce. `range` with a
      zero step raises ValueError; a negative step gives an empty range and
      hence an empty dump. */
  function DumpText(data: seq<byte>, bytesPerLine: int, indentSpaces: int): Result<string, PyError> {
    if bytesPerLine == 0 then Failure(ValueError)
    else if bytesPerLine < 0 then Success("")
    else Success(Join("\n", DumpLines(data, bytesPerLine, indentSpaces)))
  }

  function NotFoundMessage(path: string): string {
    "Error: File not found at '" + path + "'"
  }

  function ReadErrorMessage(reason: string): string {
    "Error reading file: " + reason
  }

  /** Everything `convert_image_to_csharp_hex` returns: an error message
      for a missing or unreadable file, otherwise the dump. */
  function ConvertOutput(path: string, read: FileRead<seq<byte>>, bytesPerLine: int, indentSpaces: int)
    : Result<string, PyError>
  {
    match read
    case Missing => Success(NotFoundMessage(path))
    case Unreadable(reason) => Success(ReadErrorMessage(reason))
    case Contents(data) => DumpText(data, bytesPerLine, indentSpaces)
  }

  /** The function as written: the comprehension, then a loop over
      `range(0, total_bytes, bytes_per_line)` that appends one formatted line
      per chunk, then the join. */
  method ConvertImageToCSharpHex(path: string, read: FileRead<seq<byte>>, bytesPerLine: int, indentSpaces: int)
    returns (r: Result<string, PyError>)
    ensures r == ConvertOutput(path, read, bytesPerLine, indentSpaces)
  {
    if read.Missing? {
      return Success(NotFoundMessage(path));
    }
    if read.Unreadable? {
      return Success(ReadErrorMessage(read.reason));
    }
    var hexValues := HexValues(read.value);
    var totalBytes := |hexValues|;
    var indentation := Spaces(indentSpaces);
    if bytesPerLine == 0 {
      return Failure(ValueError);
    }
    var lines: seq<string> := [];
    if bytesPerLine > 0 {
      lines := FormatChunks(hexValues, bytesPerLine, indentation);
    }
    assert read == Contents(read.value);
    return Success(Join("\n", lines));
  }

  /** The loop over `range(0, total_bytes, bytes_per_line)`: each turn
      slices one chunk, joins it and appends it as a line. */
  method FormatChunks(hexValues: seq<string>, bytesPerLine: nat, indentation: string) returns (lines: seq<string>)
    requires bytesPerLine > 0
    ensures lines == FormatLines(Chunks(hexValues, bytesPerLine), indentation)
  {
    var totalBytes := |hexValues|;
    lines := [];
    var i := 0;
    while i < totalBytes
      invariant 0 <= i
      invariant lines + FormatLines(Chunks(hexValues[if i < totalBytes then i else totalBytes..], bytesPerLine), indentation)
             == FormatLines(Chunks(hexValues, bytesPerLine), indentation)
      decreases totalBytes - i
    {
      var end := if i + bytesPerLine < totalBytes then i + bytesPerLine else totalBytes;
      var lineContent := Join(", ", hexValues[i..end]);
      FormatLinesStep(hexValues, i, bytesPerLine, indentation);
      if i + bytesPerLine < totalBytes {
        AppendLine(lines, indentation + lineContent + ",", FormatLines(Chunks(hexValues[i + bytesPerLine..], bytesPerLine), indentation));
        lines := lines + [indentation + lineContent + ","];
      } else {
        assert hexValues[i..end] == hexValues[i..];
        assert hexValues[totalBytes..] == [];
        lines := lines + [indentation + lineContent];
      }
      i := i + bytesPerLine;
    }
    assert hexValues[totalBytes..] == [];
  }

  /** One turn of the chunking loop: the chunk starting at `i` becomes one
      line, with a comma unless it is the last. */
  lemma FormatLinesStep(vals: seq<string>, i: nat, n: nat, indentation: string)
    requires n > 0 && i < |vals|
    ensures i + n < |vals| ==>
              FormatLines(Chunks(vals[i..], n), indentation)
              == [indentation + Join(", ", vals[i..i + n]) + ","] + FormatLines(Chunks(vals[i + n..], n), indentation)
    ensures i + n >= |vals| ==>
              FormatLines(Chunks(vals[i..], n), indentation) == [indentation + Join(", ", vals[i..])]
  {
    var rest := vals[i..];
    if i + n < |vals| {
      assert rest[..n] == vals[i..i + n];
      assert rest[n..] == vals[i + n..];
    }
  }

  lemma AppendLine(lines: seq<string>, line: string, tail: seq<string>)
    ensures lines + [line] + tail == lines + ([line] + tail)
  {
  }

  /** There are ceil(len / n) chunks: the smallest count whose n-fold
      covers every value. */
  lemma {:induction false} ChunkCount<T>(vals: seq<T>, n: nat)
    requires n > 0
    ensures var k := |Chunks(vals, n)|; (k - 1) * n < |vals| <= k * n
    decreases |vals|
  {
    if |vals| > n {
      ChunkCount(vals[n..], n);
      var k := |Chunks(vals[n..], n)|;
      assert (k + 1) * n == k * n + n;
    }
  }

  /** Every chunk but the last holds exactly n values, the last between 1
      and n, and there are no empty chunks at all. */
  lemma {:induction false} ChunkSizes<T>(vals: seq<T>, n: nat)
    requires n > 0
    ensures var cs := Chunks(vals, n);
      (cs == [] <==> vals == []) &&
      (forall k :: 0 <= k < |cs| - 1 ==> |cs[k]| == n) &&
      (cs != [] ==> 1 <= |cs[|cs| - 1]| <= n)
    decreases |vals|
  {
    if |vals| > n {
      ChunkSizes(vals[n..], n);
    }
  }

  /** Concatenating the chunks in order gives back the values: nothing is
      dropped, duplicated or reordered. */
  lemma {:induction false} ChunksConcat<T>(vals: seq<T>, n: nat)
    requires n > 0
    ensures Concat(Chunks(vals, n)) == vals
    decreases |vals|
  {
    if |vals| > n {
      ChunksConcat(vals[n..], n);
      assert vals == vals[..n] + vals[n..];
    } else if vals != [] {
      assert Concat([vals]) == vals + Concat([]);
    }
  }

  /** Line k is the indentation, chunk k joined by ", ", and a comma unless
      it is the last line. */
  lemma {:induction false} FormatLinesShape(chunks: seq<seq<string>>, indentation: string)
    ensures |FormatLines(chunks, indentation)| == |chunks|
    ensures forall k :: 0 <= k < |chunks| ==>
      FormatLines(chunks, indentation)[k]
        == indentation + Join(", ", chunks[k]) + (if k < |chunks| - 1 then "," else "")
  {
    if |chunks| > 1 {
      FormatLinesShape(chunks[1..], indentation);
      var lines := FormatLines(chunks, indentation);
      forall k | 0 < k < |chunks|
        ensures lines[k] == indentation + Join(", ", chunks[k]) + (if k < |chunks| - 1 then "," else "")
      {
        assert lines[k] == FormatLines(chunks[1..], indentation)[k - 1];
      }
    }
  }

  /** The first and the last line of a non-empty formatting. */
  lemma FormatLinesEnds(chunks: seq<seq<string>>, indentation: string)
    requires chunks != []
    ensures var lines := FormatLines(chunks, indentation);
      |lines| == |chunks| &&
      lines[0] == indentation + Join(", ", chunks[0]) + (if |chunks| > 1 then "," else "") &&
      lines[|lines| - 1] == indentation + Join(", ", chunks[|chunks| - 1])
  {
    FormatLinesShape(chunks, indentation);
  }

  /** The layout of a dump, gathered: ceil(len(data) / bytesPerLine) lines,
      each the indentation followed by its chunk joined by ", " and, except
      for the last, a comma; the chunks hold bytesPerLine values except the
      last, which holds 1 to bytesPerLine; in order they are the tokens of
      the bytes. */
  lemma DumpLayout(data: seq<byte>, bytesPerLine: nat, indentSpaces: int)
    requires bytesPerLine > 0
    ensures var lines := DumpLines(data, bytesPerLine, indentSpaces);
      var chunks := Chunks(HexValues(data), bytesPerLine);
      |lines| == |chunks| &&
      (|lines| - 1) * bytesPerLine < |data| <= |lines| * bytesPerLine &&
      Concat(chunks) == HexValues(data) &&
      (forall k :: 0 <= k < |chunks| - 1 ==> |chunks[k]| == bytesPerLine) &&
      (chunks != [] ==> 1 <= |chunks[|chunks| - 1]| <= bytesPerLine) &&
      (forall k :: 0 <= k < |lines| ==>
        lines[k] == Spaces(indentSpaces) + Join(", ", chunks[k]) + (if k < |lines| - 1 then "," else ""))
  {
    var vals := HexValues(data);
    ChunkCount(vals, bytesPerLine);
    ChunksConcat(vals, bytesPerLine);
    ChunkSizes(vals, bytesPerLine);
    FormatLinesShape(Chunks(vals, bytesPerLine), Spaces(indentSpaces));
  }

  /** A non-empty join of non-empty parts ends with the last part's last
      character. */
  lemma {:induction false} JoinLastChar(sep: string, parts: seq<string>)
    requires parts != [] && parts[|parts| - 1] != ""
    ensures var j := Join(sep, parts); j != "" && j[|j| - 1] == parts[|parts| - 1][|parts[|parts| - 1]| - 1]
  {
    if |parts| > 1 {
      JoinLastChar(sep, parts[1..]);
    }
  }

  /** A join begins with its first part. */
  lemma JoinStart(sep: string, parts: seq<string>)
    requires parts != []
    ensures StartsWith(Join(sep, parts), parts[0])
  {
  }

  /** The last element of a concatenation whose last part is not empty. */
  lemma {:induction false} LastOfConcat<T>(xss: seq<seq<T>>)
    requires xss != [] && xss[|xss| - 1] != []
    ensures var c := Concat(xss); c != [] && c[|c| - 1] == xss[|xss| - 1][|xss[|xss| - 1]| - 1]
  {
    if |xss| > 1 {
      LastOfConcat(xss[1..]);
    }
  }

  /** The first element of a concatenation whose first part is not empty. */
  lemma FirstOfConcat<T>(xss: seq<seq<T>>)
    requires xss != [] && xss[0] != []
    ensures var c := Concat(xss); c != [] && c[0] == xss[0][0]
  {
  }

  /** The last value of a non-empty chunking is the last value chunked. */
  lemma LastChunkEnd<T>(vals: seq<T>, n: nat)
    requires n > 0 && vals != []
    ensures var cs := Chunks(vals, n);
      cs != [] && cs[|cs| - 1] != [] && cs[|cs| - 1][|cs[|cs| - 1]| - 1] == vals[|vals| - 1]
  {
    ChunkSizes(vals, n);
    ChunksConcat(vals, n);
    LastOfConcat(Chunks(vals, n));
  }

  /** Empty input gives the empty string; otherwise the dump ends with the
      last byte's second hex digit, so there is no trailing comma or
      newline. */
  lemma DumpEnds(data: seq<byte>, bytesPerLine: nat, indentSpaces: int)
    requires bytesPerLine > 0
    ensures var t := DumpText(data, bytesPerLine, indentSpaces).value;
      (data == [] <==> t == "") &&
      (data != [] ==> t[|t| - 1] == HexToken(data[|data| - 1])[3])
  {
    var vals := HexValues(data);
    var chunks := Chunks(vals, bytesPerLine);
    var lines := DumpLines(data, bytesPerLine, indentSpaces);
    var t := Join("\n", lines);
    assert DumpText(data, bytesPerLine, indentSpaces).value == t;
    if data != [] {
      LastChunkEnd(vals, bytesPerLine);
      var last := chunks[|chunks| - 1];
      JoinLastChar(", ", last);
      FormatLinesEnds(chunks, Spaces(indentSpaces));
      var lastLine := lines[|lines| - 1];
      assert lastLine[|lastLine| - 1] == vals[|vals| - 1][3];
      JoinLastChar("\n", lines);
    } else {
      assert chunks == [];
    }
  }

  /** A non-empty dump begins with the indentation, or with the "0" of
      the first token when there is none. */
  lemma DumpStarts(data: seq<byte>, bytesPerLine: nat, indentSpaces: int)
    requires bytesPerLine > 0 && data != []
    ensures var t := Join("\n", DumpLines(data, bytesPerLine, indentSpaces));
      t != [] && t[0] == if indentSpaces > 0 then ' ' else '0'
  {
    var vals := HexValues(data);
    var chunks := Chunks(vals, bytesPerLine);
    var lines := DumpLines(data, bytesPerLine, indentSpaces);
    ChunkSizes(vals, bytesPerLine);
    ChunksConcat(vals, bytesPerLine);
    FirstOfConcat(chunks);
    assert chunks[0][0] == HexToken(data[0]);
    JoinStart(", ", chunks[0]);
    FormatLinesEnds(chunks, Spaces(indentSpaces));
    JoinStart("\n", lines);
  }

  /** A dump never begins with "Error", so the caller's
      `startswith("Error")` test tells an error message from a dump
      exactly. */
  lemma ErrorPrefixTellsApart(path: string, read: FileRead<seq<byte>>, bytesPerLine: int, indentSpaces: int)
    requires bytesPerLine != 0
    ensures ConvertOutput(path, read, bytesPerLine, indentSpaces).Success?
    ensures StartsWith(ConvertOutput(path, read, bytesPerLine, indentSpaces).value, "Error") <==> !read.Contents?
  {
    if read.Contents? && bytesPerLine > 0 && read.value != [] {
      DumpStarts(read.value, bytesPerLine, indentSpaces);
    }
  }
}
