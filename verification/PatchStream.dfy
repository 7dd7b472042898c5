/** patch_stream: rewriting a source stream hunk by hunk. */
module PatchStream {
  import opened Text
  import opened Hunks
  import opened Splicing

  // ----- what the generator yields

  /** The k-th line read from the stream; reading past the end gives "". */
  function LineAt(src: seq<string>, k: nat): string {
    if k < |src| then src[k] else ""
  }

  /** The lines copied while the read position goes from k to p. */
  function Copied(src: seq<string>, k: nat, p: nat): seq<string>
    requires k <= p
  {
    if k == p then [] else Copied(src, k, p - 1) + [LineAt(src, p - 1)]
  }

  /** The terminators among the first k lines read. */
  function Tally(src: seq<string>, k: nat): LineEnds {
    if k == 0 then NONE_SEEN else Tally(src, k - 1).Add(LineAt(src, k - 1))
  }

  /** A hunk line as written after k source lines were read: it takes the source's terminator
      if only one kind was seen so far, and otherwise keeps its own. */
  function Written(src: seq<string>, k: nat, line: BodyLine): string {
    match Tally(src, k).Sole()
    case Some(e) => Said(line) + Terminator(e)
    case None => line.rest
  }

  /** Source lines a hunk body consumes: every line but the added ones, remarks included. */
  function Reads(text: seq<BodyLine>): nat {
    if text == [] then 0 else (if text[0].tag.Added? then 0 else 1) + Reads(text[1..])
  }

  /** Source lines read up to and including a body line. */
  function Next(k: nat, line: BodyLine): nat {
    if line.tag.Added? then k else k + 1
  }

  /** What one body line writes when k lines were read before it. */
  function Piece(src: seq<string>, k: nat, line: BodyLine): seq<string> {
    if OnTarget(line) then [Written(src, Next(k, line), line)] else []
  }

  /** What a hunk body writes when it starts after k source lines. */
  function BodyOut(src: seq<string>, k: nat, text: seq<BodyLine>): seq<string>
    decreases |text|
  {
    if text == [] then []
    else
      Piece(src, k, text[0]) + BodyOut(src, Next(k, text[0]), text[1..])
  }

  /** Lines read before the body of h starts, when k were read already. */
  function Placed(k: nat, h: Hunk): nat {
    if k + 1 < h.startsrc then h.startsrc - 1 else k
  }

  /** Lines read when the body of h is done, when k were read before. */
  function Done(k: nat, h: Hunk): nat {
    Placed(k, h) + Reads(h.text)
  }

  /** What one hunk yields: the lines skipped to its start, then its body. */
  function HunkOut(src: seq<string>, k: nat, h: Hunk): seq<string> {
    Copied(src, k, Placed(k, h)) + BodyOut(src, Placed(k, h), h.text)
  }

  /** Everything yielded from read position k on. */
  function PatchedFrom(src: seq<string>, k: nat, hunks: seq<Hunk>): seq<string>
    decreases |hunks|
  {
    if hunks == [] then (if k < |src| then src[k..] else [])
    else HunkOut(src, k, hunks[0]) + PatchedFrom(src, Done(k, hunks[0]), hunks[1..])
  }

  function Patched(src: seq<string>, hunks: seq<Hunk>): seq<string> {
    PatchedFrom(src, 0, hunks)
  }

  // ----- the generator itself

  /** After k calls of get_line the stream is at pos and the statistics are ends. */
  ghost predicate AfterReading(src: seq<string>, k: int, pos: int, ends: LineEnds) {
    0 <= k && pos == (if k < |src| then k else |src|) && ends == Tally(src, k)
  }

  /** The local get_line(): one line of the stream, counted by its terminator. */
  method GetLine(src: seq<string>, ghost k: nat, pos: nat, ends: LineEnds)
    returns (line: string, pos': nat, ends': LineEnds)
    requires AfterReading(src, k, pos, ends)
    ensures line == LineAt(src, k)
    ensures AfterReading(src, k + 1, pos', ends')
  {
    if pos < |src| {
      line, pos' := src[pos], pos + 1;
    } else {
      line, pos' := "", pos;
    }
    ends' := ends.Add(line);
  }

  /** The skip loop: copy lines until the hunk's start line is next. */
  method CopyUpTo(src: seq<string>, startsrc: nat, srclineno: nat, pos: nat, ends: LineEnds)
    returns (out: seq<string>, srclineno': nat, pos': nat, ends': LineEnds)
    requires srclineno >= 1 && AfterReading(src, srclineno - 1, pos, ends)
    ensures srclineno' == if srclineno < startsrc then startsrc else srclineno
    ensures out == Copied(src, srclineno - 1, srclineno' - 1)
    ensures AfterReading(src, srclineno' - 1, pos', ends')
  {
    out, srclineno', pos', ends' := [], srclineno, pos, ends;
    while srclineno' < startsrc
      invariant srclineno <= srclineno' && (srclineno' <= startsrc || srclineno' == srclineno)
      invariant AfterReading(src, srclineno' - 1, pos', ends')
      invariant out == Copied(src, srclineno - 1, srclineno' - 1)
    {
      var line;
      line, pos', ends' := GetLine(src, srclineno' - 1, pos', ends');
      out := out + [line];
      srclineno' := srclineno' + 1;
    }
  }

  lemma {:induction false} BodyOutStep(src: seq<string>, k: nat, line: BodyLine, rest: seq<BodyLine>,
                                       text: seq<BodyLine>)
    requires |text| > 0 && text[0] == line && text[1..] == rest
    ensures BodyOut(src, k, text) == Piece(src, k, line) + BodyOut(src, Next(k, line), rest)
    ensures k + Reads(text) == Next(k, line) + Reads(rest)
  {
  }

  lemma {:induction false} BodyOutEnd(src: seq<string>, k: nat, text: seq<BodyLine>)
    requires text == []
    ensures BodyOut(src, k, text) == [] && Reads(text) == 0
  {
  }

  /** One body line: drop, keep or add it as its tag says. */
  method RewriteLine(src: seq<string>, ghost k: nat, pos: nat, ends: LineEnds, hline: BodyLine)
    returns (piece: seq<string>, pos': nat, ends': LineEnds)
    requires AfterReading(src, k, pos, ends)
    ensures AfterReading(src, Next(k, hline), pos', ends')
    ensures piece == Piece(src, k, hline)
  {
    pos', ends' := pos, ends;
    if hline.tag.Removed? || hline.tag.Remark? {
      var _, p, e := GetLine(src, k, pos, ends);
      pos', ends', piece := p, e, [];
    } else {
      if !hline.tag.Added? {
        var _, p, e := GetLine(src, k, pos, ends);
        pos', ends' := p, e;
      }
      var line2write := hline.rest;
      match ends'.Sole() {
        case Some(newline) => line2write := StripEol(line2write) + Terminator(newline);
        case None =>
      }
      piece := [line2write];
    }
  }

  /** The body loop over one hunk. */
  method RewriteBody(src: seq<string>, text: seq<BodyLine>, srclineno: nat, pos: nat, ends: LineEnds,
                     ghost goal: seq<string>)
    returns (out: seq<string>, srclineno': nat, pos': nat, ends': LineEnds)
    requires srclineno >= 1 && AfterReading(src, srclineno - 1, pos, ends)
    requires goal == BodyOut(src, srclineno - 1, text)
    ensures srclineno' == srclineno + Reads(text)
    ensures out == goal
    ensures AfterReading(src, srclineno' - 1, pos', ends')
  {
    hide Piece, BodyOut, Tally;
    out, srclineno', pos', ends' := [], srclineno, pos, ends;
    ghost var todo, left := goal, text;
    for i := 0 to |text|
      invariant srclineno' >= 1 && AfterReading(src, srclineno' - 1, pos', ends')
      invariant left == text[i..] && srclineno' + Reads(left) == srclineno + Reads(text)
      invariant todo == BodyOut(src, srclineno' - 1, left) && out + todo == goal
    {
      var hline := text[i];
      ghost var k, rest := srclineno' - 1, left[1..];
      BodyOutStep(src, k, hline, rest, left);
      var piece;
      piece, pos', ends' := RewriteLine(src, k, pos', ends', hline);
      srclineno' := if hline.tag.Added? then srclineno' else srclineno' + 1;
      todo, left := BodyOut(src, Next(k, hline), rest), rest;
      SeqAssoc(out, piece, todo);
      out := out + piece;
    }
    BodyOutEnd(src, srclineno' - 1, left);
  }

  /** The skip loop and the body loop for one hunk. */
  method RewriteHunk(src: seq<string>, h: Hunk, srclineno: nat, pos: nat, ends: LineEnds)
    returns (out: seq<string>, srclineno': nat, pos': nat, ends': LineEnds)
    requires srclineno >= 1 && AfterReading(src, srclineno - 1, pos, ends)
    ensures srclineno' - 1 == Done(srclineno - 1, h)
    ensures out == HunkOut(src, srclineno - 1, h)
    ensures AfterReading(src, srclineno' - 1, pos', ends')
  {
    var copied, body;
    copied, srclineno', pos', ends' := CopyUpTo(src, h.startsrc, srclineno, pos, ends);
    ghost var goal := BodyOut(src, srclineno' - 1, h.text);
    body, srclineno', pos', ends' := RewriteBody(src, h.text, srclineno', pos', ends', goal);
    out := copied + body;
  }

  lemma {:induction false} PatchedFromStep(src: seq<string>, k: nat, h: Hunk, rest: seq<Hunk>, hunks: seq<Hunk>)
    requires |hunks| > 0 && hunks[0] == h && hunks[1..] == rest
    ensures PatchedFrom(src, k, hunks) == HunkOut(src, k, h) + PatchedFrom(src, Done(k, h), rest)
  {
  }

  lemma {:induction false} PatchedAtEnd(src: seq<string>, k: nat, hunks: seq<Hunk>)
    requires hunks == []
    ensures PatchedFrom(src, k, hunks) == src[if k < |src| then k else |src|..]
  {
  }

  /** The generator; goal names what it is to yield. */
  method Generate(src: seq<string>, hunks: seq<Hunk>, ghost goal: seq<string>) returns (out: seq<string>)
    requires goal == Patched(src, hunks)
    ensures out == goal
  {
    hide HunkOut, PatchedFrom;
    out := [];
    var srclineno: nat, pos: nat, ends := 1, 0, NONE_SEEN;
    ghost var todo, left := goal, hunks;
    for hno := 0 to |hunks|
      invariant srclineno >= 1 && AfterReading(src, srclineno - 1, pos, ends)
      invariant left == hunks[hno..]
      invariant todo == PatchedFrom(src, srclineno - 1, left) && out + todo == goal
    {
      var h := hunks[hno];
      ghost var k, rest := srclineno - 1, left[1..];
      PatchedFromStep(src, k, h, rest, left);
      var piece;
      piece, srclineno, pos, ends := RewriteHunk(src, h, srclineno, pos, ends);
      todo, left := PatchedFrom(src, Done(k, h), rest), rest;
      SeqAssoc(out, piece, todo);
      out := out + piece;
    }
    PatchedAtEnd(src, srclineno - 1, left);
    out := out + src[pos..];
  }

  method PatchStream(src: seq<string>, hunks: seq<Hunk>) returns (out: seq<string>)
    ensures out == Patched(src, hunks)
  {
    out := Generate(src, hunks, Patched(src, hunks));
  }

  // ----- what it means: a splice

  /** The edit one hunk amounts to when k lines were read before it. */
  function ToolEdit(k: nat, h: Hunk): Edit {
    Edit(Placed(k, h), Reads(h.text), TargetSide(h.text))
  }

  /** The edits patch_stream performs, wherever the hunks say they belong. */
  function ToolEdits(k: nat, hunks: seq<Hunk>): seq<Edit>
    decreases |hunks|
  {
    if hunks == [] then []
    else [ToolEdit(k, hunks[0])] + ToolEdits(Done(k, hunks[0]), hunks[1..])
  }

  /** Lines read by all hunks together. */
  function ReadBy(k: nat, hunks: seq<Hunk>): (r: nat)
    ensures r >= k
    decreases |hunks|
  {
    if hunks == [] then k else ReadBy(Done(k, hunks[0]), hunks[1..])
  }

  /** The source contents, with an empty line for every read past the end. */
  function Padded(lines: seq<string>, n: nat): (r: seq<string>)
    ensures |r| == if n <= |lines| then |lines| else n
  {
    if n <= |lines| then lines else lines + seq(n - |lines|, _ => "")
  }

  lemma {:induction false} WrittenSays(src: seq<string>, k: nat, line: BodyLine)
    ensures StripEol(Written(src, k, line)) == Said(line)
  {
    match Tally(src, k).Sole() {
      case Some(e) => StripEolAgain(line.rest, Terminator(e));
      case None =>
    }
  }

  lemma {:induction false} BodyOutSays(src: seq<string>, k: nat, text: seq<BodyLine>)
    ensures Contents(BodyOut(src, k, text)) == TargetSide(text)
    decreases |text|
  {
    if text != [] {
      var k' := if text[0].tag.Added? then k else k + 1;
      var line := if OnTarget(text[0]) then [Written(src, k', text[0])] else [];
      BodyOutSays(src, k', text[1..]);
      WrittenSays(src, k', text[0]);
      ContentsConcat(line, BodyOut(src, k', text[1..]));
    }
  }

  lemma {:induction false} CopiedSays(src: seq<string>, k: nat, p: nat, lines: seq<string>)
    requires k <= p <= |lines|
    requires forall i :: 0 <= i < |lines| ==> lines[i] == StripEol(LineAt(src, i))
    ensures Contents(Copied(src, k, p)) == lines[k..p]
  {
    if k < p {
      CopiedSays(src, k, p - 1, lines);
      assert lines[k..p] == lines[k..p - 1] + [lines[p - 1]];
    }
  }

  lemma {:induction false} HunkOutSays(src: seq<string>, k: nat, h: Hunk, lines: seq<string>)
    requires Done(k, h) <= |lines|
    requires forall i :: 0 <= i < |lines| ==> lines[i] == StripEol(LineAt(src, i))
    ensures Contents(HunkOut(src, k, h)) == lines[k..Placed(k, h)] + TargetSide(h.text)
  {
    var p := Placed(k, h);
    CopiedSays(src, k, p, lines);
    BodyOutSays(src, p, h.text);
    ContentsConcat(Copied(src, k, p), BodyOut(src, p, h.text));
  }

  lemma {:induction false} ToolEditsStep(k: nat, h: Hunk, rest: seq<Hunk>, hunks: seq<Hunk>)
    requires hunks != [] && hunks[0] == h && hunks[1..] == rest
    ensures ToolEdits(k, hunks) == [ToolEdit(k, h)] + ToolEdits(Done(k, h), rest)
    ensures ReadBy(k, hunks) == ReadBy(Done(k, h), rest)
    ensures var e := ToolEdit(k, h);
            k <= e.at == Placed(k, h) && e.End() == Done(k, h) && e.lines == TargetSide(h.text)
  {
  }

  lemma {:induction false} PaddedSays(src: seq<string>, n: nat)
    ensures forall i :: 0 <= i < |Padded(Contents(src), n)| ==> Padded(Contents(src), n)[i] == StripEol(LineAt(src, i))
  {
  }

  /** For every source and every list of hunks, the written contents are the source contents
      with each hunk's block replaced by its target side. */
  lemma {:induction false} PatchedFromIsSplice(src: seq<string>, k: nat, hunks: seq<Hunk>)
    ensures var lines := Padded(Contents(src), ReadBy(k, hunks));
            Ordered(k, ToolEdits(k, hunks), |lines|)
            && Contents(PatchedFrom(src, k, hunks)) == Splice(lines, k, ToolEdits(k, hunks))
    decreases |hunks|
  {
    if hunks == [] {
      assert Contents(PatchedFrom(src, k, [])) == Padded(Contents(src), k)[k..];
    } else {
      hide *;
      var h, k', rest := hunks[0], Done(k, hunks[0]), hunks[1..];
      var lines := Padded(Contents(src), ReadBy(k, hunks));
      PatchedFromIsSplice(src, k', rest);
      ToolEditsStep(k, h, rest, hunks);
      PatchedFromStep(src, k, h, rest, hunks);
      ContentsConcat(HunkOut(src, k, h), PatchedFrom(src, k', rest));
      PaddedSays(src, ReadBy(k, hunks));
      HunkOutSays(src, k, h, lines);
      SpliceStep(lines, k, ToolEdit(k, h), ToolEdits(k', rest));
    }
  }

  lemma {:induction false} PatchedIsSplice(src: seq<string>, hunks: seq<Hunk>)
    ensures var lines := Padded(Contents(src), ReadBy(0, hunks));
            Ordered(0, ToolEdits(0, hunks), |lines|)
            && Contents(Patched(src, hunks)) == Splice(lines, 0, ToolEdits(0, hunks))
  {
    PatchedFromIsSplice(src, 0, hunks);
  }
}
