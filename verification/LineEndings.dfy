/** Which terminator patch_stream gives to the lines it writes, for any source. */
module LineEndings {
  import opened Text
  import opened Hunks
  import opened Splicing
  import opened PatchStream
  import opened PatchMeaning
  import opened ParseStream

  /** What a line's terminator is, by its last characters. */
  lemma {:induction false} EndOfMeans(front: string)
    ensures EndOf(front + "\r\n") == CrLf
    ensures EndOf(front + "\n") == (if front != "" && front[|front| - 1] == '\r' then CrLf else Lf)
    ensures EndOf(front + "\r") == Cr
    ensures front != "" && front[|front| - 1] != '\r' && front[|front| - 1] != '\n' ==> EndOf(front) == NoEnd
    ensures EndOf("") == NoEnd
  {
    var s := front + "\r\n";
    assert s[|s| - 2] == '\r' && s[|s| - 1] == '\n';
  }

  /** Among the first k lines read, one ends in e; lines past the end of the source do not count. */
  ghost predicate Seen(src: seq<string>, k: nat, e: LineEnd) {
    exists i :: 0 <= i < k && i < |src| && EndOf(src[i]) == e
  }

  lemma {:induction false} SeenStep(src: seq<string>, k: nat, e: LineEnd)
    requires e != NoEnd
    ensures Seen(src, k + 1, e) <==> Seen(src, k, e) || EndOf(LineAt(src, k)) == e
    ensures !Seen(src, 0, e)
  {
    if k < |src| && EndOf(src[k]) == e {
      assert Seen(src, k + 1, e);
    }
    if Seen(src, k, e) {
      var i :| 0 <= i < k && i < |src| && EndOf(src[i]) == e;
      assert 0 <= i < k + 1;
    }
  }

  lemma {:induction false} TallyMeans(src: seq<string>, k: nat)
    ensures Tally(src, k).lf > 0 <==> Seen(src, k, Lf)
    ensures Tally(src, k).crlf > 0 <==> Seen(src, k, CrLf)
    ensures Tally(src, k).cr > 0 <==> Seen(src, k, Cr)
  {
    hide Seen;
    if k == 0 {
      SeenStep(src, 0, Lf);
      SeenStep(src, 0, CrLf);
      SeenStep(src, 0, Cr);
    } else {
      TallyMeans(src, k - 1);
      SeenStep(src, k - 1, Lf);
      SeenStep(src, k - 1, CrLf);
      SeenStep(src, k - 1, Cr);
    }
  }

  /** A target line written after k lines were read takes the one terminator that those lines have, and
      keeps what it has in the patch if they have none or several. */
  ghost predicate WrittenAs(src: seq<string>, k: nat, line: BodyLine, written: string) {
    var lf, crlf, cr := Seen(src, k, Lf), Seen(src, k, CrLf), Seen(src, k, Cr);
    written == if lf && !crlf && !cr then StripEol(line.rest) + "\n"
               else if crlf && !lf && !cr then StripEol(line.rest) + "\r\n"
               else if cr && !lf && !crlf then StripEol(line.rest) + "\r"
               else line.rest
  }

  lemma {:induction false} WrittenMeans(src: seq<string>, k: nat, line: BodyLine)
    ensures WrittenAs(src, k, line, Written(src, k, line))
  {
    hide Seen, Tally;
    TallyMeans(src, k);
  }

  /** Target line i of a hunk body that starts after k lines is written after the lines read up to and
      including it. */
  lemma {:induction false} BodyLineWritten(src: seq<string>, k: nat, text: seq<BodyLine>, i: nat)
    requires i < |text| && OnTarget(text[i])
    ensures var out, p := BodyOut(src, k, text), |TargetSide(text[..i])|;
            p < |out| && WrittenAs(src, k + Reads(text[..i + 1]), text[i], out[p])
    decreases |text|
  {
    hide *;
    var line, rest := text[0], text[1..];
    BodyOutStep(src, k, line, rest, text);
    PieceLength(src, k, line);
    ReadsFront(text, i + 1, k);
    TargetFront(text, i);
    if i == 0 {
      WrittenMeans(src, Next(k, line), line);
      FirstPiece(src, k, line, rest[..0]);
    } else {
      BodyLineWritten(src, Next(k, line), rest, i - 1);
    }
  }

  lemma {:induction false} PieceLength(src: seq<string>, k: nat, line: BodyLine)
    ensures |Piece(src, k, line)| == if OnTarget(line) then 1 else 0
  {
  }

  lemma {:induction false} FirstPiece(src: seq<string>, k: nat, line: BodyLine, none: seq<BodyLine>)
    requires OnTarget(line) && none == []
    ensures Piece(src, k, line) == [Written(src, Next(k, line), line)] && Reads(none) == 0
  {
    hide Written;
  }

  lemma {:induction false} ReadsFront(text: seq<BodyLine>, i: nat, k: nat)
    requires 0 < i <= |text|
    ensures k + Reads(text[..i]) == Next(k, text[0]) + Reads(text[1..][..i - 1])
  {
    assert text[..i][0] == text[0] && text[..i][1..] == text[1..][..i - 1];
  }

  lemma {:induction false} TargetFront(text: seq<BodyLine>, i: nat)
    requires i < |text|
    ensures i == 0 ==> TargetSide(text[..i]) == []
    ensures i > 0 ==> |TargetSide(text[..i])|
                      == (if OnTarget(text[0]) then 1 else 0) + |TargetSide(text[1..][..i - 1])|
  {
    hide Said;
    if i > 0 {
      assert text[..i][0] == text[0] && text[..i][1..] == text[1..][..i - 1];
    }
  }

  lemma {:induction false} FirstHunkWritten(src: seq<string>, j: nat, h: Hunk, tail: seq<string>, i: nat)
    requires i < |h.text| && OnTarget(h.text[i])
    ensures var out, p := HunkOut(src, j, h) + tail, Placed(j, h) - j + |TargetSide(h.text[..i])|;
            0 <= p < |out| && WrittenAs(src, Placed(j, h) + Reads(h.text[..i + 1]), h.text[i], out[p])
  {
    hide *;
    BodyLineWritten(src, Placed(j, h), h.text, i);
    HunkOutSplit(src, j, h);
    var copied, body, q := Copied(src, j, Placed(j, h)), BodyOut(src, Placed(j, h), h.text), |TargetSide(h.text[..i])|;
    assert (copied + body + tail)[|copied| + q] == body[q];
  }

  lemma {:induction false} NextHunkWritten(src: seq<string>, j: nat, h: Hunk, rest: seq<Hunk>, hunks: seq<Hunk>)
    requires hunks != [] && hunks[0] == h && hunks[1..] == rest
    ensures var j', edits := Done(j, h), ToolEdits(j, hunks);
            PatchedFrom(src, j, hunks) == HunkOut(src, j, h) + PatchedFrom(src, j', rest)
            && edits == [ToolEdit(j, h)] + ToolEdits(j', rest) && |ToolEdits(j', rest)| == |rest|
            && |HunkOut(src, j, h)| == Placed(j, h) - j + |TargetSide(h.text)|
            && ToolEdit(j, h).at == Placed(j, h) && ToolEdit(j, h).lines == TargetSide(h.text)
            && ToolEdit(j, h).at + ToolEdit(j, h).size == j'
            && NewStart(edits, 0) == Placed(j, h)
            && forall k: nat :: k < |rest| ==>
                 NewStart(edits, k + 1) == NewStart(ToolEdits(j', rest), k) + |TargetSide(h.text)| + Placed(j, h) - j'
  {
    ReadByIsLastEnd(Done(j, h), rest);
    ToolEditsStep(j, h, rest, hunks);
    PatchedFromStep(src, j, h, rest, hunks);
    HunkOutLength(src, j, h);
    StartOfFirst(ToolEdits(j, hunks));
    var more := ToolEdits(Done(j, h), rest);
    hide ToolEdits, HunkOut, PatchedFrom, TargetSide, NewStart, Reads;
    forall k: nat | k < |rest|
      ensures NewStart(ToolEdits(j, hunks), k + 1)
              == NewStart(more, k) + |TargetSide(h.text)| + Placed(j, h) - Done(j, h)
    {
      StartOfNext(ToolEdit(j, h), more, k);
    }
  }

  /** For every source and every list of hunks: target line i of hunk k stands in the output behind what
      the hunks before it and the lines kept before it have written, with the terminator that the lines
      read up to there give it. */
  lemma {:induction false} TargetLineWritten(src: seq<string>, j: nat, hunks: seq<Hunk>, k: nat, i: nat)
    requires k < |hunks| && i < |hunks[k].text| && OnTarget(hunks[k].text[i])
    ensures |ToolEdits(j, hunks)| == |hunks|
    ensures var edits, text := ToolEdits(j, hunks), hunks[k].text;
            var out, p := PatchedFrom(src, j, hunks), NewStart(edits, k) - j + |TargetSide(text[..i])|;
            0 <= p < |out| && 0 <= edits[k].at
            && WrittenAs(src, edits[k].at + Reads(text[..i + 1]), text[i], out[p])
    decreases |hunks|
  {
    hide *;
    var h, rest, j' := hunks[0], hunks[1..], Done(j, hunks[0]);
    NextHunkWritten(src, j, h, rest, hunks);
    if k == 0 {
      FirstHunkWritten(src, j, h, PatchedFrom(src, j', rest), i);
    } else {
      TargetLineWritten(src, j', rest, k - 1, i);
    }
  }

  lemma {:induction false} HunkOutSplit(src: seq<string>, j: nat, h: Hunk)
    ensures HunkOut(src, j, h) == Copied(src, j, Placed(j, h)) + BodyOut(src, Placed(j, h), h.text)
    ensures |Copied(src, j, Placed(j, h))| == Placed(j, h) - j
  {
    CopiedLength(src, j, Placed(j, h));
  }

  lemma {:induction false} CopiedLength(src: seq<string>, k: nat, p: nat)
    requires k <= p
    ensures |Copied(src, k, p)| == p - k
    decreases p
  {
    if k < p {
      CopiedLength(src, k, p - 1);
    }
  }

  lemma {:induction false} HunkOutLength(src: seq<string>, j: nat, h: Hunk)
    ensures |HunkOut(src, j, h)| == Placed(j, h) - j + |TargetSide(h.text)|
  {
    HunkOutSplit(src, j, h);
    BodyOutSays(src, Placed(j, h), h.text);
    hide BodyOut, TargetSide, Copied;
    assert |BodyOut(src, Placed(j, h), h.text)| == |Contents(BodyOut(src, Placed(j, h), h.text))|;
  }

  lemma {:induction false} StartOfFirst(edits: seq<Edit>)
    requires edits != []
    ensures NewStart(edits, 0) == edits[0].at
  {
    assert edits[..0] == [];
  }

  lemma {:induction false} StartOfNext(e: Edit, more: seq<Edit>, k: nat)
    requires k < |more|
    ensures NewStart([e] + more, k + 1) == NewStart(more, k) + |e.lines| - e.size
    ensures e.End() == e.at + e.size
  {
    assert ([e] + more)[..k + 1][1..] == more[..k];
  }

  // ----- the statistics of a patch

  /** Body lines with a given terminator. */
  function EndCount(text: seq<BodyLine>, e: LineEnd): nat {
    if text == [] then 0 else (if EndOf(Raw(text[0])) == e then 1 else 0) + EndCount(text[1..], e)
  }

  lemma {:induction false} EndCountLast(text: seq<BodyLine>, e: LineEnd)
    requires text != []
    ensures var n := |text| - 1;
            EndCount(text, e) == EndCount(text[..n], e) + if EndOf(Raw(text[n])) == e then 1 else 0
  {
    var n := |text| - 1;
    if n > 0 {
      EndCountLast(text[1..], e);
      assert text[..n][1..] == text[1..][..n - 1];
    } else {
      assert text[..0] == [] && text[1..] == [];
    }
  }

  function EndCountOf(ends: LineEnds, e: LineEnd): nat {
    match e
    case NoEnd => 0
    case Lf => ends.lf
    case CrLf => ends.crlf
    case Cr => ends.cr
  }

  lemma {:induction false} AddTextCounts(ends: LineEnds, text: seq<BodyLine>, e: LineEnd)
    requires e != NoEnd
    ensures EndCountOf(AddText(ends, text), e) == EndCountOf(ends, e) + EndCount(text, e)
  {
    if text != [] {
      AddTextCounts(ends, text[..|text| - 1], e);
      EndCountLast(text, e);
    }
  }

  function HunksEndCount(hunks: seq<Hunk>, e: LineEnd): nat {
    if hunks == [] then 0 else HunksEndCount(hunks[..|hunks| - 1], e) + EndCount(hunks[|hunks| - 1].text, e)
  }

  lemma {:induction false} EndsOfCounts(hunks: seq<Hunk>, e: LineEnd)
    requires e != NoEnd
    ensures EndCountOf(EndsOf(hunks), e) == HunksEndCount(hunks, e)
  {
    if hunks != [] {
      EndsOfCounts(hunks[..|hunks| - 1], e);
      AddTextCounts(EndsOf(hunks[..|hunks| - 1]), hunks[|hunks| - 1].text, e);
    }
  }

  /** After a successful parse a file's statistics are the numbers of its body lines that end in "\n",
      "\r\n" and "\r". */
  lemma {:induction false} StatisticsCount(stream: seq<string>, i: nat, e: LineEnd)
    requires Parse(stream).Parsed? && i < |Parse(stream).hunks| && e != NoEnd
    ensures i < |Parse(stream).hunkends|
    ensures EndCountOf(Parse(stream).hunkends[i], e) == HunksEndCount(Parse(stream).hunks[i], e)
  {
    hide Parse, EndsOf, HunksEndCount, EndCountOf;
    ParsedIsConsistent(stream);
    EndsOfCounts(Parse(stream).hunks[i], e);
  }
}
