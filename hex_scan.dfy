/** `decode_hex_to_image` (png-2-hex/hex2img.py): find every `0x` followed
    by two hexadecimal digits in a text, turn each into a byte, and write
    the bytes to the output path, resolved against the working directory
    when it is relative. */
module HexScan {
  import opened Common

  /** One character of the class `[0-9a-fA-F]`. */
  predicate IsHexDigit(c: char) {
    '0' <= c <= '9' || 'a' <= c <= 'f' || 'A' <= c <= 'F'
  }

  /** The value of one hexadecimal digit, either case. */
  function HexDigitValue(c: char): (v: int)
    requires IsHexDigit(c)
    ensures 0 <= v < 16
  {
    if c <= '9' then c as int - '0' as int
    else if c <= 'F' then c as int - 'A' as int + 10
    else c as int - 'a' as int + 10
  }

  /** A string matching `0x[0-9a-fA-F]{2}` in full. */
  predicate IsHexToken(t: string) {
    |t| == 4 && t[0] == '0' && t[1] == 'x' && IsHexDigit(t[2]) && IsHexDigit(t[3])
  }

  /** `re.findall(r'0x[0-9a-fA-F]{2}', s)`: try the pattern at each position
      from the left; a match is taken and the scan resumes after its four
      characters, otherwise the scan moves on by one character. */
  function FindAll(s: string): (tokens: seq<string>)
    ensures forall k :: 0 <= k < |tokens| ==> IsHexToken(tokens[k])
    ensures 4 * |tokens| <= |s|
    decreases |s|
  {
    if |s| < 4 then []
    else if IsHexToken(s[..4]) then [s[..4]] + FindAll(s[4..])
    else FindAll(s[1..])
  }

  /** Where the matches of `FindAll(s[i..])` start in `s`: the same scan,
      recording positions instead of tokens. */
  function StartsFrom(s: string, i: nat): seq<nat>
    requires i <= |s|
    decreases |s| - i
  {
    if |s| - i < 4 then []
    else if IsHexToken(s[i..i + 4]) then [i] + StartsFrom(s, i + 4)
    else StartsFrom(s, i + 1)
  }

  /** The start of every match of the whole text. */
  function Starts(s: string): seq<nat> {
    StartsFrom(s, 0)
  }

  /** The tokens the scan from `i` returns are occurrences in `s`, left to
      right: token k is the text at `StartsFrom(s, i)[k]`, which is at or
      after `i`, and each match starts at least four characters after the
      one before it, so matches never overlap. */
  lemma {:induction false} StartsFromSpec(s: string, i: nat)
    requires i <= |s|
    ensures var ps, tokens := StartsFrom(s, i), FindAll(s[i..]);
      |ps| == |tokens| &&
      (forall k :: 0 <= k < |ps| ==> i <= ps[k] && ps[k] + 4 <= |s| && s[ps[k]..ps[k] + 4] == tokens[k]) &&
      (forall k :: 0 <= k < |ps| - 1 ==> ps[k] + 4 <= ps[k + 1])
    decreases |s| - i
  {
    var rest := s[i..];
    if |s| - i < 4 {
    } else if IsHexToken(s[i..i + 4]) {
      assert rest[..4] == s[i..i + 4];
      assert rest[4..] == s[i + 4..];
      StartsFromSpec(s, i + 4);
    } else {
      assert rest[..4] == s[i..i + 4];
      assert rest[1..] == s[i + 1..];
      StartsFromSpec(s, i + 1);
    }
  }

  /** No occurrence is missed: every place at or after `i` where the
      pattern matches overlaps a match the scan from `i` returns. It is
      either returned itself or lies inside an earlier match, which
      `re.findall` does not report again. */
  lemma {:induction false} StartsFromCover(s: string, i: nat, p: nat)
    requires i <= p && p + 4 <= |s| && IsHexToken(s[p..p + 4])
    ensures exists k :: 0 <= k < |StartsFrom(s, i)| && StartsFrom(s, i)[k] <= p < StartsFrom(s, i)[k] + 4
    decreases |s| - i
  {
    var ps := StartsFrom(s, i);
    if IsHexToken(s[i..i + 4]) {
      assert ps == [i] + StartsFrom(s, i + 4);
      if p < i + 4 {
        assert ps[0] <= p < ps[0] + 4;
      } else {
        StartsFromCover(s, i + 4, p);
        var k :| 0 <= k < |StartsFrom(s, i + 4)| && StartsFrom(s, i + 4)[k] <= p < StartsFrom(s, i + 4)[k] + 4;
        assert ps[k + 1] == StartsFrom(s, i + 4)[k];
        assert 0 <= k + 1 < |ps| && ps[k + 1] <= p < ps[k + 1] + 4;
      }
    } else {
      assert p != i;
      StartsFromCover(s, i + 1, p);
      var k :| 0 <= k < |StartsFrom(s, i + 1)| && StartsFrom(s, i + 1)[k] <= p < StartsFrom(s, i + 1)[k] + 4;
      assert ps == StartsFrom(s, i + 1);
      assert 0 <= k < |ps| && ps[k] <= p < ps[k] + 4;
    }
  }

  /** `re.findall` returns the text's matches in order: token k is the
      four characters at `Starts(s)[k]`, and the starts increase by at
      least four. */
  lemma FindAllOccurs(s: string)
    ensures var ps, tokens := Starts(s), FindAll(s);
      |ps| == |tokens| &&
      (forall k :: 0 <= k < |ps| ==> ps[k] + 4 <= |s| && s[ps[k]..ps[k] + 4] == tokens[k]) &&
      (forall k :: 0 <= k < |ps| - 1 ==> ps[k] + 4 <= ps[k + 1])
  {
    assert s[0..] == s;
    StartsFromSpec(s, 0);
  }

  /** Every occurrence of the pattern in the text is returned, or overlaps
      a returned one that starts before it. */
  lemma EveryMatchCovered(s: string, p: nat)
    requires p + 4 <= |s| && IsHexToken(s[p..p + 4])
    ensures exists k :: 0 <= k < |Starts(s)| && Starts(s)[k] <= p < Starts(s)[k] + 4
  {
    StartsFromCover(s, 0, p);
    var k :| 0 <= k < |StartsFrom(s, 0)| && StartsFrom(s, 0)[k] <= p < StartsFrom(s, 0)[k] + 4;
    assert Starts(s)[k] <= p < Starts(s)[k] + 4;
  }

  /** `int(h, 16)` of a token: Python accepts the `0x` prefix with base 16. */
  function TokenValue(t: string): (b: byte)
    requires IsHexToken(t)
  {
    (16 * HexDigitValue(t[2]) + HexDigitValue(t[3])) as byte
  }

  /** `bytearray([int(h, 16) for h in hex_strings])` */
  function TokenBytes(tokens: seq<string>): (data: seq<byte>)
    requires forall k :: 0 <= k < |tokens| ==> IsHexToken(tokens[k])
  {
    seq(|tokens|, k requires 0 <= k < |tokens| => TokenValue(tokens[k]))
  }

  /** POSIX `os.path.isabs`. */
  predicate IsAbs(path: string) {
    |path| > 0 && path[0] == '/'
  }

  /** POSIX `os.path.join(a, b)` for a relative `b`. */
  function JoinPath(a: string, b: string): string {
    if a == [] || a[|a| - 1] == '/' then a + b else a + "/" + b
  }

  /** The output path actually written: a relative one is joined onto the
      working directory, an absolute one is kept. */
  function ResolveOutputPath(outputPath: string, cwd: string): (p: string)
    ensures IsAbs(outputPath) ==> p == outputPath
    ensures !IsAbs(outputPath) ==> StartsWith(p, cwd) && EndsWith(p, outputPath)
    ensures !IsAbs(outputPath) ==>
      var sep := if cwd != [] && cwd[|cwd| - 1] != '/' then 1 else 0;
      |p| == |cwd| + sep + |outputPath| && p[..|cwd|] == cwd && p[|cwd| + sep..] == outputPath
      && (sep == 1 ==> p[|cwd|] == '/')
    ensures IsAbs(cwd) ==> IsAbs(p)
  {
    if IsAbs(outputPath) then outputPath else JoinPath(cwd, outputPath)
  }

  /** A relative name is joined under the working directory even when the
      directory's last component has the same name. */
  lemma ResolveExample()
    ensures ResolveOutputPath("a", "/home/a") == "/home/a/a"
    ensures ResolveOutputPath("out.png", "/tmp/") == "/tmp/out.png"
    ensures ResolveOutputPath("/x/out.png", "/home") == "/x/out.png"
  {
  }

  /** How a call ends. Only the outcomes the code decides are modelled:
      failing to write or to display the image is I/O. */
  datatype DecodeOutcome =
    | FileNotFound
    | ReadError(reason: string)
    | NoHexValues
    | Saved(path: string, data: seq<byte>)

  /** The whole function: report a missing or unreadable input, report a
      text without tokens before anything is written, and otherwise write
      one byte per token, the i-th byte from the i-th token, to the resolved
      output path. */
  function DecodeHexToImage(input: FileRead<string>, outputPath: string, cwd: string): (r: DecodeOutcome)
    ensures r.FileNotFound? <==> input.Missing?
    ensures r.ReadError? <==> input.Unreadable?
    ensures input.Unreadable? ==> r.reason == input.reason
    ensures r.NoHexValues? <==> input.Contents? && FindAll(input.value) == []
    ensures r.Saved? <==> input.Contents? && FindAll(input.value) != []
    ensures r.Saved? ==> r.path == ResolveOutputPath(outputPath, cwd)
    ensures r.Saved? ==>
      var tokens := FindAll(input.value);
      |r.data| == |tokens| &&
      forall i :: 0 <= i < |tokens| ==>
        r.data[i] as int == 16 * HexDigitValue(tokens[i][2]) + HexDigitValue(tokens[i][3])
  {
    match input
    case Missing => FileNotFound
    case Unreadable(reason) => ReadError(reason)
    case Contents(content) =>
      var hexStrings := FindAll(content);
      if hexStrings == [] then NoHexValues
      else Saved(ResolveOutputPath(outputPath, cwd), TokenBytes(hexStrings))
  }

  /** A character other than '0' can never begin a token and is skipped. */
  lemma SkipNonZero(c: char, rest: string)
    requires c != '0'
    ensures FindAll([c] + rest) == FindAll(rest)
  {
    assert ([c] + rest)[1..] == rest;
  }

  /** Text without any '0' (spaces, commas, newlines, braces, most code)
      contributes no token and does not disturb the scan after it. */
  lemma {:induction false} SkipWithoutZero(filler: string, rest: string)
    requires forall i :: 0 <= i < |filler| ==> filler[i] != '0'
    ensures FindAll(filler + rest) == FindAll(rest)
    decreases |filler|
  {
    if filler == [] {
      assert filler + rest == rest;
    } else {
      assert filler + rest == [filler[0]] + (filler[1..] + rest);
      SkipNonZero(filler[0], filler[1..] + rest);
      SkipWithoutZero(filler[1..], rest);
    }
  }

  /** A token at the scan position is taken whole, whatever follows it, and
      the scan resumes right after it: only two digits are consumed. */
  lemma TakeToken(t: string, rest: string)
    requires IsHexToken(t)
    ensures FindAll(t + rest) == [t] + FindAll(rest)
  {
    assert (t + rest)[..4] == t;
    assert (t + rest)[4..] == rest;
  }

  /** `"0x123"` yields the single token `0x12`; `"0x1,"` yields none. */
  lemma OnlyTwoDigits()
    ensures FindAll("0x123") == ["0x12"]
    ensures FindAll("0x1,") == []
  {
    TakeToken("0x12", "3");
    assert "0x12" + "3" == "0x123";
    assert FindAll("0x1,") == FindAll("x1,");
  }

  /** Case does not matter: `0xFF` and `0xff` both give 255. */
  lemma CaseInsensitive(hi: char, lo: char)
    requires IsHexDigit(hi) && IsHexDigit(lo)
    ensures TokenValue(['0', 'x', hi, lo]) == TokenValue(['0', 'x', Lower(hi), Lower(lo)])
    ensures TokenValue("0xFF") == TokenValue("0xff") == 255
  {
  }

  /** Lower-case letter for an upper-case hexadecimal letter. */
  function Lower(c: char): (l: char)
    requires IsHexDigit(c)
    ensures IsHexDigit(l) && !('A' <= l <= 'F')
  {
    if 'A' <= c <= 'F' then (c as int - 'A' as int + 'a' as int) as char else c
  }
}
