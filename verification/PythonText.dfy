/** The parts of Python's `str` that the env-file code relies on: white space,
    trimming, line splitting and joining. */
module PythonText {

  /** The characters at which `str.splitlines` ends a line. */
  predicate IsBreak(c: char) {
    || '\n' <= c <= '\r'                  // LF, VT, FF, CR
    || '\U{1C}' <= c <= '\U{1E}'          // file, group and record separators
    || c == '\U{85}'                      // next line
    || c == '\U{2028}' || c == '\U{2029}' // line and paragraph separators
  }

  /** The characters that `str.strip` removes. */
  predicate IsSpace(c: char) {
    || IsBreak(c)
    || c == '\t' || c == ' ' || c == '\U{1F}' || c == '\U{A0}'
    || c == '\U{1680}' || '\U{2000}' <= c <= '\U{200A}'
    || c == '\U{202F}' || c == '\U{205F}' || c == '\U{3000}'
  }

  predicate Blank(s: string) {
    forall i :: 0 <= i < |s| ==> IsSpace(s[i])
  }

  predicate OneLine(s: string) {
    forall i :: 0 <= i < |s| ==> !IsBreak(s[i])
  }

  // ---------------------------------------------------------------- trimming

  function LStrip(s: string): string {
    if s != "" && IsSpace(s[0]) then LStrip(s[1..]) else s
  }

  function RStrip(s: string): string {
    if s != "" && IsSpace(s[|s| - 1]) then RStrip(s[..|s| - 1]) else s
  }

  function Strip(s: string): string {
    RStrip(LStrip(s))
  }

  predicate LTrimmed(s: string) {
    s == "" || !IsSpace(s[0])
  }

  predicate RTrimmed(s: string) {
    s == "" || !IsSpace(s[|s| - 1])
  }

  predicate Trimmed(s: string) {
    LTrimmed(s) && RTrimmed(s)
  }

  /** `LStrip` removes a blank prefix and nothing else. */
  lemma {:induction false} LStripSplits(s: string) returns (pad: string)
    ensures s == pad + LStrip(s) && Blank(pad) && LTrimmed(LStrip(s))
  {
    hide IsSpace;
    if s != "" && IsSpace(s[0]) {
      var rest := LStripSplits(s[1..]);
      pad := [s[0]] + rest;
      assert s == [s[0]] + s[1..] && s[1..] == rest + LStrip(s[1..]);
      assert forall i :: 0 < i < |pad| ==> pad[i] == rest[i - 1];
    } else {
      pad := "";
    }
  }

  /** `RStrip` removes a blank suffix and nothing else. */
  lemma {:induction false} RStripSplits(s: string) returns (pad: string)
    ensures s == RStrip(s) + pad && Blank(pad) && RTrimmed(RStrip(s))
  {
    if s != "" && IsSpace(s[|s| - 1]) {
      var rest := RStripSplits(s[..|s| - 1]);
      pad := rest + [s[|s| - 1]];
      assert s == s[..|s| - 1] + [s[|s| - 1]];
    } else {
      pad := "";
    }
  }

  lemma {:induction false} LStripPad(pad: string, s: string)
    requires Blank(pad)
    ensures LStrip(pad + s) == LStrip(s)
  {
    if pad == "" {
      assert pad + s == s;
    } else {
      assert (pad + s)[1..] == pad[1..] + s;
      LStripPad(pad[1..], s);
    }
  }

  lemma {:induction false} RStripPad(s: string, pad: string)
    requires Blank(pad)
    ensures RStrip(s + pad) == RStrip(s)
  {
    if pad == "" {
      assert s + pad == s;
    } else {
      assert (s + pad)[..|s + pad| - 1] == s + pad[..|pad| - 1];
      RStripPad(s, pad[..|pad| - 1]);
    }
  }

  /** A text that ends in something solid keeps what precedes it. */
  lemma {:induction false} RStripAppend(front: string, s: string)
    requires RStrip(s) != ""
    ensures RStrip(front + s) == front + RStrip(s)
  {
    var pad := RStripSplits(s);
    var solid := RStrip(s);
    assert front + s == (front + solid) + pad;
    RStripPad(front + solid, pad);
  }

  /** `Strip` removes blank padding on both sides and nothing else. */
  lemma StripSplits(s: string) returns (left: string, right: string)
    ensures s == left + Strip(s) + right && Blank(left) && Blank(right) && Trimmed(Strip(s))
    ensures LStrip(s) == Strip(s) + right
  {
    left := LStripSplits(s);
    right := RStripSplits(LStrip(s));
    assert Strip(s) != "" ==> Strip(s)[0] == LStrip(s)[0];
  }

  lemma BlankStrip(s: string)
    requires Blank(s)
    ensures Strip(s) == "" && RStrip(s) == "" && LStrip(s) == ""
  {
    LStripPad(s, "");
    RStripPad("", s);
    assert s + "" == s && "" + s == s;
  }

  lemma StripPad(left: string, s: string, right: string)
    requires Blank(left) && Blank(right)
    ensures Strip(left + s + right) == Strip(s)
  {
    assert left + s + right == left + (s + right);
    LStripPad(left, s + right);
    var pad := LStripSplits(s);
    var rest := LStrip(s);
    if rest == "" {
      assert s + right == pad + right;
      BlankStrip(pad + right);
      BlankStrip(s);
    } else {
      assert s + right == pad + (rest + right);
      LStripPad(pad, rest + right);
      assert LStrip(rest + right) == rest + right;
      RStripPad(rest, right);
    }
  }

  lemma StripTrimmed(s: string)
    requires Trimmed(s)
    ensures Strip(s) == s && LStrip(s) == s && RStrip(s) == s
  {
  }

  // ------------------------------------------------------- finding characters

  /** The position of the first `c`, as `str.split(c, 1)` uses it. */
  function IndexOf(s: string, c: char): (k: nat)
    requires c in s
    ensures k < |s| && s[k] == c && c !in s[..k]
  {
    if s[0] == c then 0 else
      var k := 1 + IndexOf(s[1..], c);
      assert s[..k] == [s[0]] + s[1..][..k - 1];
      k
  }

  lemma IndexOfUnique(s: string, c: char, k: nat)
    requires k < |s| && s[k] == c && c !in s[..k]
    ensures IndexOf(s, c) == k
  {
    var j := IndexOf(s, c);
    assert forall i :: 0 <= i < k ==> s[..k][i] == s[i];
    assert forall i :: 0 <= i < j ==> s[..j][i] == s[i];
  }

  // -------------------------------------------------------------------- lines

  /** Text-mode reading: CR LF and a lone CR both become LF. */
  function UniversalNewlines(s: string): (r: string)
    ensures '\r' !in r
  {
    if s == "" then ""
    else if s[0] == '\r' then
      ['\n'] + UniversalNewlines(if |s| > 1 && s[1] == '\n' then s[2..] else s[1..])
    else [s[0]] + UniversalNewlines(s[1..])
  }

  lemma {:induction false} UniversalNewlinesId(s: string)
    requires '\r' !in s
    ensures UniversalNewlines(s) == s
  {
    if s != "" {
      assert '\r' !in s[1..];
      UniversalNewlinesId(s[1..]);
      assert s == [s[0]] + s[1..];
    }
  }

  /** The length of the first line of `s`, without its line break. */
  function LineLength(s: string): (n: nat)
    ensures n <= |s| && OneLine(s[..n]) && (n < |s| ==> IsBreak(s[n]))
  {
    if s == "" || IsBreak(s[0]) then 0 else
      var n := 1 + LineLength(s[1..]);
      assert s[..n] == [s[0]] + s[1..][..n - 1];
      n
  }

  /** `str.splitlines` on text without CR, which text-mode reading guarantees. */
  function SplitLines(s: string): (lines: seq<string>)
    ensures forall i :: 0 <= i < |lines| ==> OneLine(lines[i])
    decreases |s|
  {
    if s == "" then []
    else
      var n := LineLength(s);
      [s[..n]] + (if n < |s| then SplitLines(s[n + 1..]) else [])
  }

  /** `"\n".join(lines)` */
  function Join(lines: seq<string>): string {
    if lines == [] then ""
    else if |lines| == 1 then lines[0]
    else lines[0] + "\n" + Join(lines[1..])
  }

  predicate AllBlank(lines: seq<string>) {
    forall i :: 0 <= i < |lines| ==> Blank(lines[i])
  }

  /** What `rstrip` on the joined text means line by line: blank lines at the
      end disappear and the last other line loses its trailing white space. */
  function TrimTail(lines: seq<string>): (r: seq<string>)
    ensures r != []
  {
    if lines == [] then [""]
    else if AllBlank(lines[1..]) then [RStrip(lines[0])]
    else [lines[0]] + TrimTail(lines[1..])
  }

  lemma {:induction false} JoinBlank(lines: seq<string>)
    ensures Blank(Join(lines)) <==> AllBlank(lines)
  {
    if |lines| == 1 {
      assert Join(lines) == lines[0];
    } else if |lines| > 1 {
      JoinBlank(lines[1..]);
      var rest := Join(lines[1..]);
      var all := Join(lines);
      assert all == lines[0] + "\n" + rest;
      if Blank(all) {
        forall i | 0 <= i < |lines[0]| ensures IsSpace(lines[0][i]) { assert all[i] == lines[0][i]; }
        forall i | 0 <= i < |rest| ensures IsSpace(rest[i]) { assert all[|lines[0]| + 1 + i] == rest[i]; }
        assert forall i :: 1 <= i < |lines| ==> lines[i] == lines[1..][i - 1];
      }
    }
  }

  lemma RStripEmpty(s: string)
    ensures RStrip(s) == "" <==> Blank(s)
  {
    var pad := RStripSplits(s);
    if Blank(s) { BlankStrip(s); }
  }

  /** Trimming the joined text is joining the trimmed lines. */
  lemma {:induction false} RStripJoin(lines: seq<string>)
    ensures RStrip(Join(lines)) == Join(TrimTail(lines))
  {
    if lines != [] {
      var first := lines[0];
      JoinBlank(lines[1..]);
      RStripEmpty(Join(lines[1..]));
      if |lines| == 1 {
        assert TrimTail(lines) == [RStrip(first)];
      } else {
        var rest := Join(lines[1..]);
        assert Join(lines) == (first + "\n") + rest;
        if AllBlank(lines[1..]) {
          assert (first + "\n") + rest == first + ("\n" + rest);
          RStripPad(first, "\n" + rest);
        } else {
          RStripAppend(first + "\n", rest);
          RStripJoin(lines[1..]);
          var tail := TrimTail(lines[1..]);
          assert ([first] + tail)[1..] == tail;
        }
      }
    }
  }

  lemma LineLengthOf(line: string, rest: string)
    requires OneLine(line) && (rest == "" || IsBreak(rest[0]))
    ensures LineLength(line + rest) == |line|
  {
    var s := line + rest;
    var n := LineLength(s);
    assert forall i :: 0 <= i < |line| ==> s[i] == line[i];
    assert forall i :: 0 <= i < n ==> s[..n][i] == s[i];
    assert rest != "" ==> s[|line|] == rest[0];
  }

  /** Reading back what was joined and terminated by one line feed. */
  lemma {:induction false} SplitJoin(lines: seq<string>)
    requires lines != []
    requires forall i :: 0 <= i < |lines| ==> OneLine(lines[i])
    ensures SplitLines(Join(lines) + "\n") == lines
  {
    var first := lines[0];
    var rest := if |lines| == 1 then "" else Join(lines[1..]) + "\n";
    var s := first + ("\n" + rest);
    assert Join(lines) + "\n" == s;
    LineLengthOf(first, "\n" + rest);
    assert s[..|first|] == first && s[|first| + 1..] == rest;
    if |lines| > 1 {
      SplitJoin(lines[1..]);
    }
    assert lines == [first] + lines[1..];
  }

  lemma {:induction false} TrimTailOneLine(lines: seq<string>)
    requires forall i :: 0 <= i < |lines| ==> OneLine(lines[i])
    ensures forall i :: 0 <= i < |TrimTail(lines)| ==> OneLine(TrimTail(lines)[i])
  {
    if lines != [] {
      if AllBlank(lines[1..]) {
        var pad := RStripSplits(lines[0]);
        var r := RStrip(lines[0]);
        forall i | 0 <= i < |r| ensures !IsBreak(r[i]) { assert lines[0][i] == r[i]; }
      } else {
        TrimTailOneLine(lines[1..]);
      }
    }
  }

  lemma {:induction false} NoReturnInJoin(lines: seq<string>)
    requires forall i :: 0 <= i < |lines| ==> OneLine(lines[i])
    ensures '\r' !in Join(lines)
  {
    if lines != [] {
      assert forall i :: 0 <= i < |lines[0]| ==> lines[0][i] != '\r';
      NoReturnInJoin(lines[1..]);
    }
  }

  // -------------------------------------------------------------- in code points

  /** The characters that end a line, by their code points. */
  lemma BreaksMean(c: char)
    ensures IsBreak(c) <==> c as int in {0x0A, 0x0B, 0x0C, 0x0D, 0x1C, 0x1D, 0x1E, 0x85, 0x2028, 0x2029}
  {
  }

  /** White space, by its code points. */
  lemma SpacesMean(c: char)
    ensures IsSpace(c) <==>
      || 0x09 <= c as int <= 0x0D || 0x1C <= c as int <= 0x20 || 0x2000 <= c as int <= 0x200A
      || c as int in {0x85, 0xA0, 0x1680, 0x2028, 0x2029, 0x202F, 0x205F, 0x3000}
  {
  }

  /** Reading a file turns CR LF and a lone CR into LF, and changes nothing else. */
  lemma {:induction false} UniversalNewlinesMean(front: string, rest: string)
    requires '\r' !in front
    ensures UniversalNewlines(front + "\r\n" + rest) == front + "\n" + UniversalNewlines(rest)
    ensures rest == "" || rest[0] != '\n' ==> UniversalNewlines(front + "\r" + rest) == front + "\n" + UniversalNewlines(rest)
  {
    var crlf, cr := front + "\r\n" + rest, front + "\r" + rest;
    if front == "" {
      assert crlf[2..] == rest && cr[1..] == rest;
    } else {
      assert crlf[1..] == front[1..] + "\r\n" + rest && cr[1..] == front[1..] + "\r" + rest;
      UniversalNewlinesMean(front[1..], rest);
      assert front == [front[0]] + front[1..];
    }
  }

  /** A line ends at its first line break, and the rest is split likewise. */
  lemma SplitLinesMean(line: string, c: char, rest: string)
    requires OneLine(line) && IsBreak(c)
    ensures SplitLines(line + [c] + rest) == [line] + SplitLines(rest)
    ensures SplitLines(line) == if line == "" then [] else [line]
  {
    hide IsBreak;
    var s := line + [c] + rest;
    FirstBreak(line, c, rest);
    assert s[..|line|] == line && s[|line| + 1..] == rest;
    NoBreak(line);
    assert line[..|line|] == line;
  }

  lemma {:induction false} FirstBreak(line: string, c: char, rest: string)
    requires OneLine(line) && IsBreak(c)
    ensures LineLength(line + [c] + rest) == |line|
  {
    hide IsBreak;
    var s := line + [c] + rest;
    if line != "" {
      assert s[1..] == line[1..] + [c] + rest && s[0] == line[0];
      FirstBreak(line[1..], c, rest);
    }
  }

  lemma {:induction false} NoBreak(line: string)
    requires OneLine(line)
    ensures LineLength(line) == |line|
  {
    hide IsBreak;
    if line != "" {
      NoBreak(line[1..]);
    }
  }
}
