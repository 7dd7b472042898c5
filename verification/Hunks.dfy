/** Hunks as the patch tool stores them, and the two sides of their text. */
module Hunks {
  import opened Text

  /** The four characters a body line may begin with: ' ', '-', '+' and '\'. */
  datatype Tag = Context | Removed | Added | Remark

  /** A stored body line; the parser keeps only lines that begin with a tag. */
  datatype BodyLine = BodyLine(tag: Tag, rest: string)

  function TagChar(tag: Tag): char {
    match tag
    case Context => ' '
    case Removed => '-'
    case Added => '+'
    case Remark => '\\'
  }

  /** The line as it stands in the patch. */
  function Raw(line: BodyLine): string {
    [TagChar(line.tag)] + line.rest
  }

  /** The pattern ^[- \+\\] */
  function BodyLineOf(s: string): Option<BodyLine> {
    if s == "" then None
    else if s[0] == ' ' then Some(BodyLine(Context, s[1..]))
    else if s[0] == '-' then Some(BodyLine(Removed, s[1..]))
    else if s[0] == '+' then Some(BodyLine(Added, s[1..]))
    else if s[0] == '\\' then Some(BodyLine(Remark, s[1..]))
    else None
  }

  /** Exactly the lines that begin with one of the four characters are body lines. */
  lemma {:induction false} TagsRead(c: char, rest: string)
    ensures BodyLineOf([' '] + rest) == Some(BodyLine(Context, rest))
    ensures BodyLineOf(['-'] + rest) == Some(BodyLine(Removed, rest))
    ensures BodyLineOf(['+'] + rest) == Some(BodyLine(Added, rest))
    ensures BodyLineOf(['\\'] + rest) == Some(BodyLine(Remark, rest))
    ensures c != ' ' && c != '-' && c != '+' && c != '\\' ==> BodyLineOf([c] + rest) == None
    ensures BodyLineOf("") == None
  {
    assert ([' '] + rest)[1..] == rest && (['-'] + rest)[1..] == rest;
    assert (['+'] + rest)[1..] == rest && (['\\'] + rest)[1..] == rest;
  }

  lemma {:induction false} RawReadsBack(line: BodyLine)
    ensures BodyLineOf(Raw(line)) == Some(line)
  {
    assert Raw(line)[1..] == line.rest;
  }

  /** One `@@ -startsrc,linessrc +starttgt,linestgt @@` block. */
  datatype Hunk = Hunk(startsrc: nat, linessrc: nat, starttgt: nat, linestgt: nat, text: seq<BodyLine>)

  predicate OnSource(line: BodyLine) {
    line.tag.Context? || line.tag.Removed?
  }

  predicate OnTarget(line: BodyLine) {
    line.tag.Context? || line.tag.Added?
  }

  /** Remarks such as "\ No newline at end of file". */
  predicate IsRemark(line: BodyLine) {
    line.tag.Remark?
  }

  /** What a body line says, without tag and line end. */
  function Said(line: BodyLine): string {
    StripEol(line.rest)
  }

  /** The lines the hunk expects to find. */
  function SourceSide(text: seq<BodyLine>): seq<string> {
    if text == [] then []
    else (if OnSource(text[0]) then [Said(text[0])] else []) + SourceSide(text[1..])
  }

  /** The lines the hunk puts in their place. */
  function TargetSide(text: seq<BodyLine>): seq<string> {
    if text == [] then []
    else (if OnTarget(text[0]) then [Said(text[0])] else []) + TargetSide(text[1..])
  }

  function Remarks(text: seq<BodyLine>): nat {
    if text == [] then 0 else (if IsRemark(text[0]) then 1 else 0) + Remarks(text[1..])
  }

  /** What one more line at the front adds. */
  lemma {:induction false} SidesStep(line: BodyLine, text: seq<BodyLine>)
    ensures SourceSide([line] + text) == (if OnSource(line) then [Said(line)] else []) + SourceSide(text)
    ensures TargetSide([line] + text) == (if OnTarget(line) then [Said(line)] else []) + TargetSide(text)
    ensures Remarks([line] + text) == (if IsRemark(line) then 1 else 0) + Remarks(text)
  {
    assert ([line] + text)[1..] == text;
  }

  lemma {:induction false} NoSides()
    ensures SourceSide([]) == [] && TargetSide([]) == [] && Remarks([]) == 0
  {
  }

  /** A file's lines with their terminators removed. */
  function Contents(lines: seq<string>): (r: seq<string>)
    ensures |r| == |lines|
    ensures forall i :: 0 <= i < |lines| ==> r[i] == StripEol(lines[i])
  {
    seq(|lines|, i requires 0 <= i < |lines| => StripEol(lines[i]))
  }

  // ----- line ends

  datatype LineEnd = NoEnd | Lf | CrLf | Cr

  function EndOf(line: string): LineEnd {
    var n := |line|;
    if n > 1 && line[n - 2] == '\r' && line[n - 1] == '\n' then CrLf
    else if n > 0 && line[n - 1] == '\n' then Lf
    else if n > 0 && line[n - 1] == '\r' then Cr
    else NoEnd
  }

  function Terminator(e: LineEnd): string {
    match e
    case NoEnd => ""
    case Lf => "\n"
    case CrLf => "\r\n"
    case Cr => "\r"
  }

  /** How many lines with each terminator were seen. */
  datatype LineEnds = LineEnds(lf: nat, crlf: nat, cr: nat) {
    function Add(line: string): LineEnds {
      match EndOf(line)
      case NoEnd => this
      case Lf => this.(lf := lf + 1)
      case CrLf => this.(crlf := crlf + 1)
      case Cr => this.(cr := cr + 1)
    }

    /** The terminator seen, if only one kind was. */
    function Sole(): Option<LineEnd> {
      if lf > 0 && crlf == 0 && cr == 0 then Some(Lf)
      else if lf == 0 && crlf > 0 && cr == 0 then Some(CrLf)
      else if lf == 0 && crlf == 0 && cr > 0 then Some(Cr)
      else None
    }
  }

  const NONE_SEEN := LineEnds(0, 0, 0)

  lemma {:induction false} ContentsConcat(a: seq<string>, b: seq<string>)
    ensures Contents(a + b) == Contents(a) + Contents(b)
  {
  }

  lemma {:induction false} SourceSideConcat(a: seq<BodyLine>, b: seq<BodyLine>)
    ensures SourceSide(a + b) == SourceSide(a) + SourceSide(b)
  {
    if a == [] {
      assert a + b == b;
    } else {
      assert (a + b)[1..] == a[1..] + b;
      SourceSideConcat(a[1..], b);
    }
  }

  lemma {:induction false} TargetSideConcat(a: seq<BodyLine>, b: seq<BodyLine>)
    ensures TargetSide(a + b) == TargetSide(a) + TargetSide(b)
  {
    if a == [] {
      assert a + b == b;
    } else {
      assert (a + b)[1..] == a[1..] + b;
      TargetSideConcat(a[1..], b);
    }
  }

  /** Swaps the two directions of a body line. */
  function FlipLine(line: BodyLine): BodyLine {
    if line.tag.Removed? then line.(tag := Added) else if line.tag.Added? then line.(tag := Removed) else line
  }

  function Flip(text: seq<BodyLine>): seq<BodyLine> {
    if text == [] then [] else [FlipLine(text[0])] + Flip(text[1..])
  }

  /** The hunk that undoes h. */
  function Reversed(h: Hunk): Hunk {
    Hunk(h.starttgt, h.linestgt, h.startsrc, h.linessrc, Flip(h.text))
  }

  function ReversedAll(hunks: seq<Hunk>): seq<Hunk> {
    if hunks == [] then [] else [Reversed(hunks[0])] + ReversedAll(hunks[1..])
  }

  lemma {:induction false} FlipSwapsSides(text: seq<BodyLine>)
    ensures SourceSide(Flip(text)) == TargetSide(text)
    ensures TargetSide(Flip(text)) == SourceSide(text)
    ensures Remarks(Flip(text)) == Remarks(text)
  {
    if text != [] {
      var line := text[0];
      assert Flip(text)[0] == FlipLine(line) && Flip(text)[1..] == Flip(text[1..]);
      FlipSwapsSides(text[1..]);
    }
  }
}
