/** The code wrapper: lines that are too long are broken after a split character and the pieces are
    put on lines of their own. */
module WrapCode {
  import opened Text

  // ----- the reference: where a piece ends

  /** The first split character at or after from, or the length of the line. */
  function FirstSplit(line: string, chars: string, from: nat): (f: nat)
    requires from <= |line|
    ensures from <= f <= |line|
    ensures f < |line| ==> line[f] in chars
    ensures forall i :: from <= i < f ==> line[i] !in chars
    decreases |line| - from
  {
    if from < |line| && line[from] !in chars then FirstSplit(line, chars, from + 1) else from
  }

  /** The last split character in line[f..p + 1], given that there is one at f. */
  function LastSplit(line: string, chars: string, f: nat, p: nat): (l: nat)
    requires f <= p < |line| && line[f] in chars
    ensures f <= l <= p && line[l] in chars
    ensures forall i :: l < i <= p ==> line[i] !in chars
    decreases p
  {
    if line[p] in chars then p else LastSplit(line, chars, f, p - 1)
  }

  /** The end of the piece that starts at from when there is room for so many characters: the last
      break that fits, the first one if none fits, or the end of the line. */
  function Cut(line: string, chars: string, from: nat, room: int): (e: nat)
    requires from < |line|
    ensures from < e <= |line|
  {
    var f := FirstSplit(line, chars, from);
    var p := if f < from + room - 1 then from + room - 1 else f;
    if p >= |line| then |line| else LastSplit(line, chars, f, p) + 1
  }

  /** A piece ends after a split character or at the end of the line. If it could have been broken
      earlier it fits, short of the room if no split character ends it; and it could not have been
      extended to the next break, or to the end of the line with room to spare. */
  predicate Greedy(line: string, chars: string, from: nat, room: int, e: nat)
    requires from < |line|
  {
    from < e <= |line| && (e < |line| ==> line[e - 1] in chars)
    && (FirstSplit(line, chars, from) < e - 1 ==> e - from <= if line[e - 1] in chars then room else room - 1)
    && (e < |line| ==>
          var next := FirstSplit(line, chars, e);
          if next < |line| then next + 1 - from > room else |line| - from >= room)
  }

  /** Being greedy determines the cut. */
  lemma {:induction false} CutIffGreedy(line: string, chars: string, from: nat, room: int, e: nat)
    requires from < |line|
    ensures e == Cut(line, chars, from, room) <==> Greedy(line, chars, from, room, e)
  {
  }

  /** A piece that does not fit could not have been broken earlier. */
  lemma {:induction false} CutIsTight(line: string, chars: string, from: nat, room: int)
    requires from < |line|
    ensures var e := Cut(line, chars, from, room);
            e - from > room ==> forall i :: from <= i < e - 1 ==> line[i] !in chars
  {
  }

  function LeadingSpace(s: string): (ws: string)
    ensures forall c :: c in ws ==> IsSpace(c) && c in s
  {
    if s != "" && IsSpace(s[0]) then [s[0]] + LeadingSpace(s[1..]) else ""
  }

  /** All the whitespace at the beginning, and no more. */
  lemma {:induction false} LeadingSpaceMeans(s: string)
    ensures var ws := LeadingSpace(s);
            ws <= s && (forall i :: 0 <= i < |ws| ==> IsSpace(s[i])) && (|ws| < |s| ==> !IsSpace(s[|ws|]))
  {
    if s != "" && IsSpace(s[0]) {
      LeadingSpaceMeans(s[1..]);
    }
  }

  /** The output lines for line[from..], each padded and trimmed. */
  function Rest(line: string, pad: string, from: nat, max: int, chars: string): seq<string>
    requires from <= |line|
    decreases |line| - from
  {
    if from == |line| then []
    else
      var e := Cut(line, chars, from, max - |pad|);
      [pad + Strip(line[from..e])] + Rest(line, pad, e, max, chars)
  }

  /** The output lines for one line. */
  function WrappedLine(line: string, indent: string, max: int, chars: string): seq<string> {
    if |line| <= max then [line]
    else if line == "" then [""]
    else
      var e := Cut(line, chars, 0, max);
      [line[..e]] + Rest(line, LeadingSpace(line) + indent, e, max, chars)
  }

  /** A continuation line: padding and trimmed text. */
  predicate Continues(o: string, pad: string) {
    pad <= o && Trimmed(o[|pad|..])
  }

  lemma {:induction false} RestContinues(line: string, pad: string, from: nat, max: int, chars: string)
    requires from <= |line|
    ensures forall o :: o in Rest(line, pad, from, max, chars) ==> Continues(o, pad)
    decreases |line| - from
  {
    if from < |line| {
      hide Cut, Strip;
      var e := Cut(line, chars, from, max - |pad|);
      var piece := Strip(line[from..e]);
      RestContinues(line, pad, e, max, chars);
      StripMeans(line[from..e]);
      assert (pad + piece)[|pad|..] == piece;
    }
  }

  /** The first output line of a line is its front; every further one begins with the line's own leading
      whitespace and the indent. */
  lemma {:induction false} ContinuationsPadded(line: string, indent: string, max: int, chars: string)
    ensures var out := WrappedLine(line, indent, max, chars);
            out != [] && out[0] <= line
            && forall k :: 1 <= k < |out| ==> Continues(out[k], LeadingSpace(line) + indent)
  {
    if |line| > max && line != "" {
      var e := Cut(line, chars, 0, max);
      hide Cut, Rest, Continues, LeadingSpace;
      RestContinues(line, LeadingSpace(line) + indent, e, max, chars);
    }
  }

  function WrappedLines(lines: seq<string>, indent: string, max: int, chars: string): seq<string> {
    if lines == [] then []
    else WrappedLine(lines[0], indent, max, chars) + WrappedLines(lines[1..], indent, max, chars)
  }

  function Unlines(lines: seq<string>): string {
    if lines == [] then "" else lines[0] + "\n" + Unlines(lines[1..])
  }

  /** code.replace("\r\n", "\n") */
  function Normalized(s: string): string {
    if s == "" then ""
    else if StartsWith(s, "\r\n") then "\n" + Normalized(s[2..])
    else [s[0]] + Normalized(s[1..])
  }

  /** Text without "\r\n" is left alone. */
  lemma {:induction false} NormalizedNone(s: string)
    requires forall i, j :: 0 <= i < j < |s| && j == i + 1 ==> !(s[i] == '\r' && s[j] == '\n')
    ensures Normalized(s) == s
  {
    if s != "" {
      forall i, j | 0 <= i < j < |s[1..]| && j == i + 1 ensures !(s[1..][i] == '\r' && s[1..][j] == '\n') {
        assert s[1..][i] == s[i + 1] && s[1..][j] == s[j + 1];
      }
      NormalizedNone(s[1..]);
      assert |s| > 1 ==> !(s[0] == '\r' && s[1] == '\n');
      assert [s[0]] + s[1..] == s;
    }
  }

  /** Every "\r\n" becomes "\n". */
  lemma {:induction false} NormalizedAt(a: string, b: string)
    ensures Normalized(a + "\r\n" + b) == Normalized(a) + "\n" + Normalized(b)
    decreases |a|
  {
    var s := a + "\r\n" + b;
    if a == "" {
      assert s[2..] == b && StartsWith(s, "\r\n");
    } else if StartsWith(a, "\r\n") {
      assert s[2..] == a[2..] + "\r\n" + b && StartsWith(s, "\r\n");
      NormalizedAt(a[2..], b);
    } else {
      assert s[1..] == a[1..] + "\r\n" + b;
      assert !StartsWith(s, "\r\n") by {
        assert |a| > 1 ==> s[1] == a[1];
        assert |a| == 1 ==> s[1] == '\r';
      }
      NormalizedAt(a[1..], b);
    }
  }

  function Wrapped(code: string, indent: string, max: int, chars: string): seq<string> {
    WrappedLines(Split(Normalized(code), '\n'), indent, max, chars)
  }

  // ----- the program

  /** Lines that each begin a new line of output. */
  function Begun(lines: seq<string>): string {
    if lines == [] then "" else "\n" + lines[0] + Begun(lines[1..])
  }

  /** What is still to be written when the last piece ended at last. */
  function Left(line: string, pad: string, last: nat, first: bool, max: int, chars: string): string
    requires last <= |line|
  {
    if last == |line| then ""
    else if first then
      var e := Cut(line, chars, last, max);
      line[last..e] + Begun(Rest(line, pad, e, max, chars))
    else Begun(Rest(line, pad, last, max, chars))
  }

  /** What is written for a piece. */
  function Section(piece: string, pad: string, first: bool): string {
    if first then piece else "\n" + pad + Strip(piece)
  }

  function Room(pad: string, first: bool, max: int): int {
    if first then max else max - |pad|
  }

  lemma {:induction false} LeftStep(line: string, pad: string, last: nat, first: bool, max: int, chars: string)
    requires last < |line|
    ensures var e := Cut(line, chars, last, Room(pad, first, max));
            Left(line, pad, last, first, max, chars)
            == Section(line[last..e], pad, first) + Left(line, pad, e, false, max, chars)
  {
    hide Cut, Strip;
    var e := Cut(line, chars, last, Room(pad, first, max));
    if !first {
      var rest := Rest(line, pad, e, max, chars);
      var head := pad + Strip(line[last..e]);
      assert ([head] + rest)[1..] == rest;
      assert "\n" + head == "\n" + pad + Strip(line[last..e]);
    }
  }

  /** The state of the scan: next is the last split character seen, and once there is one to break
      at, the line has not yet become too long. */
  predicate Scanned(line: string, chars: string, last: nat, next: int, pos: nat, room: int) {
    last <= pos <= |line| && -1 <= next < pos
    && (forall i :: last <= i < pos && i > next ==> line[i] !in chars)
    && (next >= last ==> line[next] in chars && pos - last < room)
  }

  lemma {:induction false} ScanStart(line: string, chars: string, room: int)
    ensures Scanned(line, chars, 0, -1, 0, room)
  {
  }

  /** One more character without a break. */
  lemma {:induction false} ScanOn(line: string, chars: string, last: nat, before: int, next: int, pos: nat, room: int)
    requires Scanned(line, chars, last, before, pos, room) && pos < |line|
    requires next == if line[pos] in chars then pos else before
    requires pos - last + 1 < room || next < last
    ensures Scanned(line, chars, last, next, pos + 1, room)
  {
  }

  /** One more character, and a break after next. */
  lemma {:induction false} ScanCut(line: string, chars: string, last: nat, before: int, next: int, pos: nat,
                                   room: int, newRoom: int)
    requires Scanned(line, chars, last, before, pos, room) && pos < |line|
    requires next == if line[pos] in chars then pos else before
    requires next >= last
    ensures Scanned(line, chars, next + 1, next, pos + 1, newRoom)
  {
  }

  lemma {:induction false} CutAtNext(line: string, chars: string, last: nat, before: int, next: int, pos: nat,
                                     room: int)
    requires Scanned(line, chars, last, before, pos, room) && pos < |line|
    requires next == if line[pos] in chars then pos else before
    requires next >= last && pos - last + 1 >= room
    ensures Cut(line, chars, last, room) == next + 1
  {
    var f := FirstSplit(line, chars, last);
    assert f <= next;
    assert before < last ==> f == pos;
    var p := if f < last + room - 1 then last + room - 1 else f;
    assert p == pos;
    var l := LastSplit(line, chars, f, p);
  }

  lemma {:induction false} CutAtEnd(line: string, chars: string, last: nat, next: int, room: int)
    requires Scanned(line, chars, last, next, |line|, room) && last < |line|
    ensures Cut(line, chars, last, room) == |line|
  {
    if next < last {
      assert FirstSplit(line, chars, last) == |line|;
    }
  }

  method LeadingWhitespace(line: string) returns (ws: string)
    ensures ws == LeadingSpace(line)
  {
    ws := "";
    var i := 0;
    assert line[0..] == line;
    while i < |line| && IsSpace(line[i])
      invariant 0 <= i <= |line|
      invariant ws + LeadingSpace(line[i..]) == LeadingSpace(line)
    {
      assert line[i..][1..] == line[i + 1..];
      SeqAssoc(ws, [line[i]], LeadingSpace(line[i + 1..]));
      ws := ws + [line[i]];
      i := i + 1;
    }
    assert LeadingSpace(line[i..]) == "";
  }

  /** The body of the loop over lines, for a line that is too long. */
  method WrapLine(line: string, indent: string, max: int, chars: string) returns (out: string)
    ensures out == Left(line, LeadingSpace(line) + indent, 0, true, max, chars)
  {
    hide Left, Cut, Strip, Section, LeadingSpace, Scanned;
    var ws := LeadingWhitespace(line);
    out := "";
    var last := 0;
    var next := -1;
    var splitct := 0;
    var pos := 0;
    ghost var goal := Left(line, ws + indent, 0, true, max, chars);
    assert Scanned(line, chars, 0, -1, 0, max) by { ScanStart(line, chars, max); }
    while pos < |line|
      invariant splitct >= 0
      invariant last <= pos <= |line| && -1 <= next < pos
      invariant Scanned(line, chars, last, next, pos, Room(ws + indent, splitct == 0, max))
      invariant out + Left(line, ws + indent, last, splitct == 0, max, chars) == goal
    {
      ghost var before := next;
      if line[pos] in chars {
        next := pos;
      }
      var size := pos - last + 1;
      if splitct > 0 {
        size := size + |ws| + |indent|;
      }
      ghost var room := Room(ws + indent, splitct == 0, max);
      if size < max || next < last {
        ScanOn(line, chars, last, before, next, pos, room);
      }
      if size >= max {
        var section := if last <= next + 1 then line[last..next + 1] else "";
        if section != "" {
          ghost var first := splitct == 0;
          CutAtNext(line, chars, last, before, next, pos, room);
          ScanCut(line, chars, last, before, next, pos, room, max - |ws + indent|);
          LeftStep(line, ws + indent, last, first, max, chars);
          SeqAssoc(out, Section(section, ws + indent, first), Left(line, ws + indent, next + 1, false, max, chars));
          out := Emit(out, section, ws, indent, splitct);
          last := next + 1;
          splitct := splitct + 1;
        }
      }
      pos := pos + 1;
    }
    if |line| - last > 0 {
      ghost var first := splitct == 0;
      CutAtEnd(line, chars, last, next, Room(ws + indent, first, max));
      LeftStep(line, ws + indent, last, first, max, chars);
      SeqAssoc(out, Section(line[last..], ws + indent, first), Left(line, ws + indent, |line|, false, max, chars));
      assert line[last..|line|] == line[last..];
      out := Emit(out, line[last..], ws, indent, splitct);
      last := |line|;
      splitct := splitct + 1;
    }
    LeftEmpty(line, ws + indent, splitct == 0, max, chars);
    assert out + "" == out;
  }

  lemma {:induction false} LeftEmpty(line: string, pad: string, first: bool, max: int, chars: string)
    ensures Left(line, pad, |line|, first, max, chars) == ""
  {
  }

  /** Output a portion of the line, on a new line and trimmed unless it is the first. */
  method Emit(out: string, section: string, ws: string, indent: string, splitct: int) returns (more: string)
    requires splitct >= 0
    ensures more == out + Section(section, ws + indent, splitct == 0)
  {
    more := out;
    var s := section;
    if splitct > 0 {
      more := more + "\n" + ws + indent;
      s := Strip(s);
      assert more + s == out + ("\n" + (ws + indent) + s);
    }
    more := more + s;
  }

  lemma {:induction false} BegunLines(l: string, rest: seq<string>)
    ensures l + Begun(rest) + "\n" == Unlines([l] + rest)
    decreases |rest|
  {
    assert ([l] + rest)[1..] == rest;
    if rest != [] {
      BegunLines(rest[0], rest[1..]);
      assert rest == [rest[0]] + rest[1..];
      assert l + ("\n" + rest[0] + Begun(rest[1..])) + "\n" == l + "\n" + (rest[0] + Begun(rest[1..]) + "\n");
    } else {
      assert l + "" + "\n" == l + "\n" + "";
    }
  }

  lemma {:induction false} UnlinesConcat(a: seq<string>, b: seq<string>)
    ensures Unlines(a + b) == Unlines(a) + Unlines(b)
  {
    if a == [] {
      assert a + b == b;
    } else {
      assert (a + b)[1..] == a[1..] + b;
      UnlinesConcat(a[1..], b);
      SeqAssoc(a[0] + "\n", Unlines(a[1..]), Unlines(b));
    }
  }

  lemma {:induction false} WrappedLineText(line: string, indent: string, max: int, chars: string)
    requires |line| > max
    ensures Unlines(WrappedLine(line, indent, max, chars))
            == Left(line, LeadingSpace(line) + indent, 0, true, max, chars) + "\n"
  {
    hide Cut, Unlines, Begun, Rest, LeadingSpace;
    if line != "" {
      var e := Cut(line, chars, 0, max);
      BegunLines(line[..e], Rest(line, LeadingSpace(line) + indent, e, max, chars));
      assert line[0..e] == line[..e];
    } else {
      BegunLines("", []);
      assert Begun([]) == "" by { BegunEmpty(); }
      assert [""] + [] == [""];
    }
  }

  lemma {:induction false} BegunEmpty()
    ensures Begun([]) == ""
  {
  }

  lemma {:induction false} WrappedStep(line: string, rest: seq<string>, indent: string, max: int, chars: string)
    ensures Unlines(WrappedLines([line] + rest, indent, max, chars))
            == Unlines(WrappedLine(line, indent, max, chars)) + Unlines(WrappedLines(rest, indent, max, chars))
    ensures Unlines(WrappedLines([], indent, max, chars)) == ""
  {
    assert ([line] + rest)[1..] == rest;
    UnlinesConcat(WrappedLine(line, indent, max, chars), WrappedLines(rest, indent, max, chars));
  }

  /** wrap_code */
  method Wrap(code: string, indent: string, max: int, chars: string) returns (output: string)
    ensures output == Unlines(Wrapped(code, indent, max, chars))
  {
    hide WrappedLines, WrappedLine, Unlines, Left;
    var lines := Split(Normalized(code), '\n');
    output := "";
    ghost var todo := lines;
    WrappedStep("", [], indent, max, chars);
    for i := 0 to |lines|
      invariant todo == lines[i..]
      invariant output + Unlines(WrappedLines(todo, indent, max, chars))
                == Unlines(WrappedLines(lines, indent, max, chars))
    {
      var line := lines[i];
      todo := lines[i + 1..];
      assert lines[i..] == [line] + todo;
      WrappedStep(line, todo, indent, max, chars);
      ghost var text := Unlines(WrappedLine(line, indent, max, chars));
      SeqAssoc(output, text, Unlines(WrappedLines(todo, indent, max, chars)));
      if |line| <= max {
        ShortLine(line, indent, max, chars);
        assert output + line + "\n" == output + text;
        output := output + line + "\n";
      } else {
        var wrapped := WrapLine(line, indent, max, chars);
        WrappedLineText(line, indent, max, chars);
        assert output + wrapped + "\n" == output + text;
        output := output + wrapped + "\n";
      }
    }
    assert todo == [] && output + "" == output;
  }

  lemma {:induction false} ShortLine(line: string, indent: string, max: int, chars: string)
    requires |line| <= max
    ensures Unlines(WrappedLine(line, indent, max, chars)) == line + "\n"
  {
    assert Unlines([line]) == line + "\n" + Unlines([line][1..]);
  }

  // ----- nothing but whitespace is changed

  /** The characters that are not whitespace. */
  function Squeeze(s: string): string {
    if s == "" then "" else (if IsSpace(s[0]) then "" else [s[0]]) + Squeeze(s[1..])
  }

  lemma {:induction false} SqueezeConcat(a: string, b: string)
    ensures Squeeze(a + b) == Squeeze(a) + Squeeze(b)
  {
    if a == "" {
      assert a + b == b;
    } else {
      assert (a + b)[1..] == a[1..] + b;
      SqueezeConcat(a[1..], b);
      SeqAssoc(if IsSpace(a[0]) then "" else [a[0]], Squeeze(a[1..]), Squeeze(b));
    }
  }

  lemma {:induction false} SqueezeSpace(s: string)
    requires forall i :: 0 <= i < |s| ==> IsSpace(s[i])
    ensures Squeeze(s) == ""
  {
    if s != "" {
      SqueezeSpace(s[1..]);
    }
  }

  lemma {:induction false} SqueezeEnds(pre: string, s: string, post: string)
    requires forall i :: 0 <= i < |pre| ==> IsSpace(pre[i])
    requires forall i :: 0 <= i < |post| ==> IsSpace(post[i])
    ensures Squeeze(pre + s + post) == Squeeze(s)
  {
    hide Squeeze, IsSpace;
    SqueezeSpace(pre);
    SqueezeSpace(post);
    SqueezeConcat(pre, s);
    SqueezeConcat(pre + s, post);
    assert "" + Squeeze(s) == Squeeze(s) && Squeeze(s) + "" == Squeeze(s);
  }

  lemma {:induction false} SqueezeStrip(s: string)
    ensures Squeeze(Strip(s)) == Squeeze(s)
  {
    hide Squeeze, IsSpace, LStrip, RStrip;
    var l := LStrip(s);
    var r := RStrip(l);
    LStripMeans(s);
    RStripMeans(l);
    SqueezeEnds(s[..|s| - |l|], l, "");
    SqueezeEnds("", r, l[|r|..]);
    assert s[..|s| - |l|] + l + "" == s;
    assert "" + r + l[|r|..] == l;
  }

  /** Squeezing a line that has been put on a line of its own behind whitespace. */
  lemma {:induction false} SqueezeLine(pad: string, s: string, rest: string)
    requires forall c :: c in pad ==> IsSpace(c)
    ensures Squeeze(pad + s + "\n" + rest) == Squeeze(s) + Squeeze(rest)
  {
    hide Squeeze;
    SqueezeSpace(pad);
    SqueezeSpace("\n");
    SqueezeConcat(pad, s);
    SqueezeConcat(pad + s, "\n");
    SqueezeConcat(pad + s + "\n", rest);
    assert "" + Squeeze(s) == Squeeze(s) && Squeeze(s) + "" == Squeeze(s);
  }

  lemma {:induction false} RestKeeps(line: string, pad: string, from: nat, max: int, chars: string)
    requires from <= |line| && forall c :: c in pad ==> IsSpace(c)
    ensures Squeeze(Unlines(Rest(line, pad, from, max, chars))) == Squeeze(line[from..])
    decreases |line| - from
  {
    hide Squeeze, Strip, Cut, IsSpace;
    if from == |line| {
      assert line[from..] == "";
    } else {
      var e := Cut(line, chars, from, max - |pad|);
      var piece, rest := line[from..e], Rest(line, pad, e, max, chars);
      RestKeeps(line, pad, e, max, chars);
      assert ([pad + Strip(piece)] + rest)[1..] == rest;
      SqueezeLine(pad, Strip(piece), Unlines(rest));
      SqueezeStrip(piece);
      assert line[from..] == piece + line[e..];
      SqueezeConcat(piece, line[e..]);
    }
  }

  lemma {:induction false} WrappedLineKeeps(line: string, indent: string, max: int, chars: string)
    requires forall c :: c in indent ==> IsSpace(c)
    ensures Squeeze(Unlines(WrappedLine(line, indent, max, chars))) == Squeeze(line)
  {
    hide Squeeze, Cut, Rest, IsSpace;
    if |line| <= max || line == "" {
      SqueezeLine("", line, "");
      assert Unlines([line]) == "" + line + "\n" + "";
      assert Squeeze("") == "" by { SqueezeSpace(""); }
      assert Squeeze(line) + "" == Squeeze(line);
    } else {
      var e := Cut(line, chars, 0, max);
      var pad := LeadingSpace(line) + indent;
      var rest := Rest(line, pad, e, max, chars);
      RestKeeps(line, pad, e, max, chars);
      assert ([line[..e]] + rest)[1..] == rest;
      assert "" + line[..e] == line[..e];
      SqueezeLine("", line[..e], Unlines(rest));
      assert line == line[..e] + line[e..];
      SqueezeConcat(line[..e], line[e..]);
    }
  }

  function SqueezeAll(lines: seq<string>): string {
    if lines == [] then "" else Squeeze(lines[0]) + SqueezeAll(lines[1..])
  }

  lemma {:induction false} WrappedLinesKeep(lines: seq<string>, indent: string, max: int, chars: string)
    requires forall c :: c in indent ==> IsSpace(c)
    ensures Squeeze(Unlines(WrappedLines(lines, indent, max, chars))) == SqueezeAll(lines)
  {
    hide Squeeze, WrappedLine, IsSpace;
    if lines == [] {
      SqueezeSpace("");
    } else {
      var first, rest := WrappedLine(lines[0], indent, max, chars), WrappedLines(lines[1..], indent, max, chars);
      WrappedLinesKeep(lines[1..], indent, max, chars);
      WrappedLineKeeps(lines[0], indent, max, chars);
      UnlinesConcat(first, rest);
      SqueezeConcat(Unlines(first), Unlines(rest));
    }
  }

  lemma {:induction false} SqueezeSplit(s: string)
    ensures SqueezeAll(Split(s, '\n')) == Squeeze(s)
  {
    if s == "" {
      assert Split(s, '\n') == [""];
    } else {
      SqueezeSplit(s[1..]);
      var rest := Split(s[1..], '\n');
      var c := if IsSpace(s[0]) then "" else [s[0]];
      if s[0] == '\n' {
        assert ([""] + rest)[1..] == rest;
      } else {
        assert ([[s[0]] + rest[0]] + rest[1..])[1..] == rest[1..];
        assert ([s[0]] + rest[0])[1..] == rest[0];
        SeqAssoc(c, Squeeze(rest[0]), SqueezeAll(rest[1..]));
      }
    }
  }

  lemma {:induction false} SqueezeNormalized(s: string)
    ensures Squeeze(Normalized(s)) == Squeeze(s)
  {
    if s != "" {
      if StartsWith(s, "\r\n") {
        SqueezeNormalized(s[2..]);
        assert s[1..][1..] == s[2..];
        assert ("\n" + Normalized(s[2..]))[1..] == Normalized(s[2..]);
      } else {
        SqueezeNormalized(s[1..]);
        assert ([s[0]] + Normalized(s[1..]))[1..] == Normalized(s[1..]);
      }
    }
  }

  /** Wrapping changes nothing but whitespace. */
  lemma {:induction false} WrapKeepsContent(code: string, indent: string, max: int, chars: string)
    requires forall c :: c in indent ==> IsSpace(c)
    ensures Squeeze(Unlines(Wrapped(code, indent, max, chars))) == Squeeze(code)
  {
    hide Squeeze, WrappedLines, Unlines, IsSpace;
    WrappedLinesKeep(Split(Normalized(code), '\n'), indent, max, chars);
    SqueezeSplit(Normalized(code));
    SqueezeNormalized(code);
  }

  // ----- how wide the output lines are

  /** Too wide only if there is no place to break it. */
  predicate FitsOrUnbreakable(o: string, max: int, chars: string) {
    |o| > max ==> forall i :: 0 <= i < |o| - 1 ==> o[i] !in chars
  }

  /** A trimmed piece is still broken only at its end. */
  lemma {:induction false} TrimmedPiece(piece: string, chars: string)
    requires forall c :: c in chars ==> !IsSpace(c)
    requires forall i :: 0 <= i < |piece| - 1 ==> piece[i] !in chars
    ensures |Strip(piece)| <= |piece|
    ensures forall i :: 0 <= i < |Strip(piece)| - 1 ==> Strip(piece)[i] !in chars
  {
    var l := LStrip(piece);
    var r := RStrip(l);
    var k := |piece| - |l|;
    LStripMeans(piece);
    RStripMeans(l);
    forall i | 0 <= i < |r| - 1 ensures r[i] !in chars {
      assert r[i] == l[i] == piece[k..][i] == piece[k + i];
    }
  }

  lemma {:induction false} PaddedPieceFits(pad: string, piece: string, max: int, chars: string)
    requires forall c :: c in chars ==> !IsSpace(c)
    requires forall c :: c in pad ==> IsSpace(c)
    requires |piece| > max - |pad| ==> forall i :: 0 <= i < |piece| - 1 ==> piece[i] !in chars
    ensures FitsOrUnbreakable(pad + Strip(piece), max, chars)
  {
    var s := Strip(piece);
    assert |s| <= |piece|;
    if |pad + s| > max {
      TrimmedPiece(piece, chars);
      forall i | 0 <= i < |pad + s| - 1 ensures (pad + s)[i] !in chars {
        assert i < |pad| ==> pad[i] in pad;
      }
    }
  }

  lemma {:induction false} RestFits(line: string, pad: string, from: nat, max: int, chars: string)
    requires forall c :: c in chars ==> !IsSpace(c)
    requires from <= |line| && forall c :: c in pad ==> IsSpace(c)
    ensures forall o :: o in Rest(line, pad, from, max, chars) ==> FitsOrUnbreakable(o, max, chars)
    decreases |line| - from
  {
    if from < |line| {
      hide Cut, Strip, FitsOrUnbreakable, IsSpace;
      var e := Cut(line, chars, from, max - |pad|);
      RestFits(line, pad, e, max, chars);
      CutIsTight(line, chars, from, max - |pad|);
      PaddedPieceFits(pad, line[from..e], max, chars);
    }
  }

  lemma {:induction false} WrappedLineFits(line: string, indent: string, max: int, chars: string)
    requires forall c :: c in chars ==> !IsSpace(c)
    requires forall c :: c in indent ==> IsSpace(c)
    ensures forall o :: o in WrappedLine(line, indent, max, chars) ==> FitsOrUnbreakable(o, max, chars)
  {
    if |line| > max && line != "" {
      var e := Cut(line, chars, 0, max);
      CutIsTight(line, chars, 0, max);
      assert FitsOrUnbreakable(line[..e], max, chars);
      hide Cut, Rest, FitsOrUnbreakable, IsSpace;
      RestFits(line, LeadingSpace(line) + indent, e, max, chars);
    }
  }

  lemma {:induction false} WrappedLinesFit(lines: seq<string>, indent: string, max: int, chars: string)
    requires forall c :: c in chars ==> !IsSpace(c)
    requires forall c :: c in indent ==> IsSpace(c)
    ensures forall o :: o in WrappedLines(lines, indent, max, chars) ==> FitsOrUnbreakable(o, max, chars)
  {
    if lines != [] {
      hide WrappedLine, FitsOrUnbreakable, IsSpace;
      WrappedLineFits(lines[0], indent, max, chars);
      WrappedLinesFit(lines[1..], indent, max, chars);
    }
  }

  // The lines of the output text are the ones above.

  predicate OneLiners(lines: seq<string>) {
    forall o :: o in lines ==> '\n' !in o
  }

  lemma {:induction false} RestOneLiners(line: string, pad: string, from: nat, max: int, chars: string)
    requires '\n' !in line && '\n' !in pad && from <= |line|
    ensures OneLiners(Rest(line, pad, from, max, chars))
    decreases |line| - from
  {
    if from < |line| {
      hide Cut, Strip;
      var e := Cut(line, chars, from, max - |pad|);
      RestOneLiners(line, pad, e, max, chars);
      StripMeans(line[from..e]);
      assert forall c :: c in line[from..e] ==> c in line;
    }
  }

  lemma {:induction false} WrappedOneLiners(lines: seq<string>, indent: string, max: int, chars: string)
    requires OneLiners(lines) && '\n' !in indent
    ensures OneLiners(WrappedLines(lines, indent, max, chars))
  {
    if lines != [] {
      var line := lines[0];
      assert line in lines;
      WrappedOneLiners(lines[1..], indent, max, chars);
      assert OneLiners(WrappedLine(line, indent, max, chars)) by {
        if |line| > max && line != "" {
          hide Cut, Rest;
          var e := Cut(line, chars, 0, max);
          RestOneLiners(line, LeadingSpace(line) + indent, e, max, chars);
          assert forall c :: c in line[..e] ==> c in line;
        }
      }
    }
  }

  lemma {:induction false} SplitUnlines(lines: seq<string>)
    requires OneLiners(lines)
    ensures Split(Unlines(lines), '\n') == lines + [""]
  {
    if lines == [] {
      assert Split("", '\n') == [""];
    } else {
      hide Split;
      assert lines[0] in lines;
      SplitUnlines(lines[1..]);
      SplitAt(lines[0], '\n', Unlines(lines[1..]));
      SplitNone(lines[0], '\n');
    }
  }

  /** Every line of the output fits in max characters or has no split character before its last
      character: there was no earlier place to break it. */
  lemma {:induction false} WrapFits(code: string, indent: string, max: int, chars: string)
    requires forall c :: c in chars ==> !IsSpace(c)
    requires forall c :: c in indent ==> IsSpace(c) && c != '\n'
    ensures forall o :: o in Split(Unlines(Wrapped(code, indent, max, chars)), '\n') ==>
              FitsOrUnbreakable(o, max, chars)
  {
    hide WrappedLines, Unlines, IsSpace;
    var lines := Split(Normalized(code), '\n');
    SplitMeans(Normalized(code), '\n');
    WrappedLinesFit(lines, indent, max, chars);
    WrappedOneLiners(lines, indent, max, chars);
    SplitUnlines(Wrapped(code, indent, max, chars));
    hide Split;
  }

  /** A line that fits, or that cannot be broken, is one piece. */
  lemma {:induction false} LineKept(o: string, indent: string, max: int, chars: string)
    requires FitsOrUnbreakable(o, max, chars)
    ensures WrappedLine(o, indent, max, chars) == [o]
  {
    if |o| > max && o != "" {
      assert Cut(o, chars, 0, max) == |o|;
      assert o[..|o|] == o;
      hide Cut;
    }
  }

  lemma {:induction false} LinesKept(lines: seq<string>, indent: string, max: int, chars: string)
    requires forall l :: l in lines ==> FitsOrUnbreakable(l, max, chars)
    ensures WrappedLines(lines, indent, max, chars) == lines
  {
    if lines != [] {
      hide FitsOrUnbreakable, WrappedLine;
      assert lines[0] in lines;
      LineKept(lines[0], indent, max, chars);
      LinesKept(lines[1..], indent, max, chars);
    }
  }

  /** Wrapping what has been wrapped changes nothing but for a final empty line, whether its lines fit
      or could not be broken. */
  lemma {:induction false} WrapAgain(code: string, indent: string, max: int, chars: string)
    requires forall c :: c in chars ==> !IsSpace(c)
    requires forall c :: c in indent ==> IsSpace(c) && c != '\n'
    requires forall o :: o in Wrapped(code, indent, max, chars) ==> !EndsInReturn(o)
    ensures Wrapped(Unlines(Wrapped(code, indent, max, chars)), indent, max, chars)
            == Wrapped(code, indent, max, chars) + [""]
  {
    hide WrappedLines, Unlines, IsSpace, EndsInReturn, Normalized;
    var lines, old' := Wrapped(code, indent, max, chars), Split(Normalized(code), '\n');
    SplitMeans(Normalized(code), '\n');
    WrappedLinesFit(old', indent, max, chars);
    WrappedOneLiners(old', indent, max, chars);
    SplitUnlines(lines);
    UnlinesNormal(lines);
    hide Split;
    LinesKept(lines + [""], indent, max, chars);
  }

  predicate EndsInReturn(line: string) {
    line != "" && line[|line| - 1] == '\r'
  }

  lemma {:induction false} UnlinesNormal(lines: seq<string>)
    requires OneLiners(lines) && forall o :: o in lines ==> !EndsInReturn(o)
    ensures Normalized(Unlines(lines)) == Unlines(lines)
  {
    if lines != [] {
      assert lines[0] in lines;
      UnlinesNormal(lines[1..]);
      LineNormal(lines[0], Unlines(lines[1..]));
      assert lines[0] + "\n" + Unlines(lines[1..]) == lines[0] + ("\n" + Unlines(lines[1..]));
    }
  }

  lemma {:induction false} LineNormal(line: string, rest: string)
    requires '\n' !in line && !EndsInReturn(line) && Normalized(rest) == rest
    ensures Normalized(line + ("\n" + rest)) == line + ("\n" + rest)
  {
    var s := line + ("\n" + rest);
    if line == "" {
      assert s == "\n" + rest && s[1..] == rest;
    } else {
      assert s[1..] == line[1..] + ("\n" + rest);
      LineNormal(line[1..], rest);
      assert !StartsWith(s, "\r\n") by {
        assert |line| > 1 ==> s[1] == line[1] && line[1] in line;
      }
      assert [s[0]] + s[1..] == s;
    }
  }
}
