/** The two png-2-hex scripts as a serialiser/parser pair: scanning the
    text `convert_image_to_csharp_hex` produces finds exactly the tokens it
    wrote, in order, and `decode_hex_to_image` then writes back the
    original bytes. */
module HexRoundTrip {
  import opened Common
  import opened HexDump
  import opened HexScan

  /** A digit the `x` format writes reads back, through `int(h, 16)`, as
      the value it was written for. */
  lemma DigitDecodes(d: int)
    requires 0 <= d < 16
    ensures IsHexDigit(LowerHexDigit(d)) && HexDigitValue(LowerHexDigit(d)) == d
  {
  }

  /** Every token the encoder writes matches the decoder's pattern, and
      `int(h, 16)` of it is the byte it was written for. */
  lemma HexTokenDecodes(b: byte)
    ensures IsHexToken(HexToken(b))
    ensures TokenValue(HexToken(b)) == b
    ensures forall k :: 2 <= k < 4 ==> !('A' <= HexToken(b)[k] <= 'F')
  {
    var t := HexToken(b);
    var hi, lo := b as int / 16, b as int % 16;
    DigitDecodes(hi);
    DigitDecodes(lo);
    assert t[2] == LowerHexDigit(hi) && t[3] == LowerHexDigit(lo);
  }

  /** A list of tokens joined by ", " scans to that list, and the scan
      goes on undisturbed after it. */
  lemma {:induction false} ScanJoinedTokens(tokens: seq<string>, rest: string)
    requires tokens != []
    requires forall k :: 0 <= k < |tokens| ==> IsHexToken(tokens[k])
    ensures FindAll(Join(", ", tokens) + rest) == tokens + FindAll(rest)
    decreases |tokens|
  {
    if |tokens| == 1 {
      TakeToken(tokens[0], rest);
    } else {
      var tail := Join(", ", tokens[1..]) + rest;
      JoinCons(", ", tokens, rest);
      TakeToken(tokens[0], ", " + tail);
      SkipWithoutZero(", ", tail);
      ScanJoinedTokens(tokens[1..], rest);
      ConsAppend(tokens, FindAll(rest));
    }
  }

  lemma JoinCons(sep: string, parts: seq<string>, rest: string)
    requires |parts| > 1
    ensures Join(sep, parts) + rest == parts[0] + (sep + (Join(sep, parts[1..]) + rest))
  {
  }

  lemma ConsAppend<T>(xs: seq<T>, ys: seq<T>)
    requires xs != []
    ensures [xs[0]] + (xs[1..] + ys) == xs + ys
  {
    assert xs == [xs[0]] + xs[1..];
  }

  /** The lines of a dump scan to the concatenation of their chunks: the
      indentation, the commas and the newlines contribute nothing. */
  lemma {:induction false} ScanFormattedLines(chunks: seq<seq<string>>, indentation: string)
    requires forall k :: 0 <= k < |chunks| ==> chunks[k] != []
    requires forall k, j :: 0 <= k < |chunks| && 0 <= j < |chunks[k]| ==> IsHexToken(chunks[k][j])
    requires forall i :: 0 <= i < |indentation| ==> indentation[i] != '0'
    ensures FindAll(Join("\n", FormatLines(chunks, indentation))) == Concat(chunks)
    decreases |chunks|
  {
    if chunks == [] {
    } else if |chunks| == 1 {
      ScanLastLine(chunks[0], indentation);
      assert Concat(chunks) == chunks[0] + Concat([]);
    } else {
      var tail := Join("\n", FormatLines(chunks[1..], indentation));
      FormatJoinCons(chunks, indentation);
      ScanLine(chunks[0], indentation, ",\n" + tail);
      SkipWithoutZero(",\n", tail);
      ScanFormattedLines(chunks[1..], indentation);
    }
  }

  /** A dump of several lines is the first line, a comma and a newline,
      then the dump of the rest. */
  lemma FormatJoinCons(chunks: seq<seq<string>>, indentation: string)
    requires |chunks| > 1
    ensures Join("\n", FormatLines(chunks, indentation))
         == indentation + (Join(", ", chunks[0]) + (",\n" + Join("\n", FormatLines(chunks[1..], indentation))))
  {
    var later := FormatLines(chunks[1..], indentation);
    assert |later| >= 1;
  }

  /** One line of a dump scans to its chunk, the scan going on after it. */
  lemma ScanLine(chunk: seq<string>, indentation: string, rest: string)
    requires chunk != [] && forall j :: 0 <= j < |chunk| ==> IsHexToken(chunk[j])
    requires forall i :: 0 <= i < |indentation| ==> indentation[i] != '0'
    ensures FindAll(indentation + (Join(", ", chunk) + rest)) == chunk + FindAll(rest)
  {
    SkipWithoutZero(indentation, Join(", ", chunk) + rest);
    ScanJoinedTokens(chunk, rest);
  }

  /** A dump of one line scans to its chunk. */
  lemma ScanLastLine(chunk: seq<string>, indentation: string)
    requires chunk != [] && forall j :: 0 <= j < |chunk| ==> IsHexToken(chunk[j])
    requires forall i :: 0 <= i < |indentation| ==> indentation[i] != '0'
    ensures FindAll(Join("\n", FormatLines([chunk], indentation))) == chunk
  {
    assert Join("\n", FormatLines([chunk], indentation)) == indentation + (Join(", ", chunk) + "");
    ScanLine(chunk, indentation, "");
  }

  /** Scanning a dump finds exactly the tokens of the bytes, in order. */
  lemma ScanDump(data: seq<byte>, bytesPerLine: nat, indentSpaces: int)
    requires bytesPerLine > 0
    ensures FindAll(DumpText(data, bytesPerLine, indentSpaces).value) == HexValues(data)
  {
    var vals := HexValues(data);
    var chunks := Chunks(vals, bytesPerLine);
    forall b: byte ensures IsHexToken(HexToken(b)) {
      HexTokenDecodes(b);
    }
    ChunkSizes(vals, bytesPerLine);
    ChunksConcat(vals, bytesPerLine);
    forall k, j | 0 <= k < |chunks| && 0 <= j < |chunks[k]| ensures IsHexToken(chunks[k][j]) {
      ChunkElement(vals, bytesPerLine, k, j);
    }
    ScanFormattedLines(chunks, Spaces(indentSpaces));
  }

  /** Every element of a chunk is an element of the chunked sequence. */
  lemma {:induction false} ChunkElement<T>(vals: seq<T>, n: nat, k: nat, j: nat)
    requires n > 0
    requires k < |Chunks(vals, n)| && j < |Chunks(vals, n)[k]|
    ensures Chunks(vals, n)[k][j] in vals
    decreases |vals|
  {
    if |vals| > n && k > 0 {
      ChunkElement(vals[n..], n, k - 1, j);
    }
  }

  /** Decoding the tokens of some bytes gives those bytes back. */
  lemma TokenBytesOfHexValues(data: seq<byte>)
    ensures forall k :: 0 <= k < |HexValues(data)| ==> IsHexToken(HexValues(data)[k])
    ensures TokenBytes(HexValues(data)) == data
  {
    forall k | 0 <= k < |data| ensures IsHexToken(HexValues(data)[k]) && TokenValue(HexValues(data)[k]) == data[k] {
      HexTokenDecodes(data[k]);
    }
  }

  /** Round trip: for any non-empty bytes, any positive line length and any
      indentation, decoding the dump writes back the original bytes, to the
      resolved output path. */
  lemma RoundTrip(data: seq<byte>, bytesPerLine: nat, indentSpaces: int, outputPath: string, cwd: string)
    requires data != [] && bytesPerLine > 0
    ensures var dump := DumpText(data, bytesPerLine, indentSpaces).value;
      DecodeHexToImage(Contents(dump), outputPath, cwd) == Saved(ResolveOutputPath(outputPath, cwd), data)
  {
    ScanDump(data, bytesPerLine, indentSpaces);
    TokenBytesOfHexValues(data);
  }

  /** The dump of no bytes holds no token, so decoding it reports an error
      and writes nothing: the round trip needs non-empty input. */
  lemma EmptyDumpHasNoTokens(bytesPerLine: nat, indentSpaces: int, outputPath: string, cwd: string)
    requires bytesPerLine > 0
    ensures DecodeHexToImage(Contents(DumpText([], bytesPerLine, indentSpaces).value), outputPath, cwd) == NoHexValues
  {
    ScanDump([], bytesPerLine, indentSpaces);
  }
}
