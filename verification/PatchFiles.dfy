/** patch_hunks on whole files: reading lines, patching, writing the pieces back. */
module PatchFiles {
  import opened Text
  import opened Hunks
  import opened Splicing
  import opened PatchStream
  import opened PatchMeaning
  import opened CheckPatched

  // ----- files as bytes and as lines

  /** The first line of s with its newline, as iterating a binary file gives it. */
  function FirstLine(s: string): (l: string)
    ensures l <= s && (s != "" ==> l != "")
  {
    if s == "" then "" else if s[0] == '\n' then s[..1] else [s[0]] + FirstLine(s[1..])
  }

  function Lines(s: string): seq<string> {
    if s == "" then [] else [FirstLine(s)] + Lines(s[|FirstLine(s)|..])
  }

  function Join(lines: seq<string>): string {
    if lines == [] then "" else lines[0] + Join(lines[1..])
  }

  /** Reading a file line by line loses nothing. */
  lemma {:induction false} JoinLines(s: string)
    ensures Join(Lines(s)) == s
    decreases |s|
  {
    if s != "" {
      var l, rest := FirstLine(s), s[|FirstLine(s)|..];
      JoinLines(rest);
      var more := Lines(rest);
      assert ([l] + more)[1..] == more;
      assert Join([l] + more) == l + rest;
    }
  }

  /** Every line but the last ends in its only newline, and the last has at most one, at its end. */
  lemma {:induction false} LinesCut(s: string, i: nat)
    requires i < |Lines(s)|
    ensures var l := Lines(s)[i];
            l != "" && '\n' !in l[..|l| - 1] && (i + 1 < |Lines(s)| ==> l[|l| - 1] == '\n')
    decreases |s|
  {
    FirstLineCut(s);
    var l, rest := FirstLine(s), s[|FirstLine(s)|..];
    if i > 0 {
      LinesCut(rest, i - 1);
    }
  }

  lemma {:induction false} FirstLineCut(s: string)
    requires s != ""
    ensures var l := FirstLine(s); '\n' !in l[..|l| - 1] && (|l| < |s| ==> l[|l| - 1] == '\n')
  {
    if s[0] != '\n' && |s| > 1 {
      FirstLineCut(s[1..]);
      var more := FirstLine(s[1..]);
      assert ([s[0]] + more)[..|more|] == [s[0]] + more[..|more| - 1];
    }
  }

  lemma {:induction false} FirstLineOf(said: string, rest: string)
    requires '\n' !in said
    ensures FirstLine(said + ("\n" + rest)) == said + "\n"
  {
    var s := said + ("\n" + rest);
    if said == "" {
      assert s == "\n" + rest && s[..1] == "\n";
    } else {
      assert s[1..] == said[1..] + ("\n" + rest);
      FirstLineOf(said[1..], rest);
      assert [said[0]] + (said[1..] + "\n") == said + "\n";
    }
  }

  /** A line that is its text and the terminator e, with nothing in it that would end it early. */
  predicate Neat(line: string, e: LineEnd) {
    '\n' !in StripEol(line) && line == StripEol(line) + Terminator(e)
  }

  predicate AllNeat(lines: seq<string>, e: LineEnd) {
    forall l :: l in lines ==> Neat(l, e)
  }

  lemma {:induction false} FirstNeat(l: string, rest: string, e: LineEnd)
    requires (e == Lf || e == CrLf) && Neat(l, e)
    ensures Lines(l + rest) == [l] + Lines(rest)
  {
    hide StripEol, FirstLine;
    var said := if e == Lf then StripEol(l) else StripEol(l) + "\r";
    assert l == said + "\n";
    assert l + rest == said + ("\n" + rest);
    FirstLineOf(said, rest);
    assert (l + rest)[|l|..] == rest;
  }

  lemma {:induction false} JoinStep(lines: seq<string>)
    requires lines != []
    ensures Join(lines) == lines[0] + Join(lines[1..])
  {
  }

  /** Neat lines written one after the other are read back as the same lines. */
  lemma {:induction false} LinesJoin(lines: seq<string>, e: LineEnd)
    requires (e == Lf || e == CrLf) && AllNeat(lines, e)
    ensures Lines(Join(lines)) == lines
    decreases |lines|
  {
    if lines != [] {
      assert lines[0] in lines;
      FirstNeat(lines[0], Join(lines[1..]), e);
      LinesJoin(lines[1..], e);
      hide Neat, FirstLine, StripEol, Join, Lines;
      assert Lines(lines[0] + Join(lines[1..])) == [lines[0]] + Lines(Join(lines[1..]));
      assert Join(lines) == lines[0] + Join(lines[1..]) by { JoinStep(lines); }
    }
  }

  /** Neat lines are determined by what they say. */
  lemma {:induction false} NeatSame(a: seq<string>, b: seq<string>, e: LineEnd)
    requires AllNeat(a, e) && AllNeat(b, e) && Contents(a) == Contents(b)
    ensures a == b
  {
    forall i | 0 <= i < |a| ensures a[i] == b[i] {
      assert a[i] in a && b[i] in b && Contents(a)[i] == Contents(b)[i];
    }
  }

  // ----- patching neat files

  /** Hunk lines as they come out of a file: no newline but at the end. */
  predicate FromFile(hunks: seq<Hunk>) {
    forall h, l :: h in hunks && l in h.text ==> '\n' !in Said(l)
  }

  lemma {:induction false} NeatEnds(line: string, e: LineEnd)
    requires Neat(line, e)
    ensures EndOf(line) == e
  {
    EndsAnew(line, e);
  }

  lemma {:induction false} AllNeatEnds(lines: seq<string>, e: LineEnd)
    requires AllNeat(lines, e)
    ensures AllEnd(lines, e)
  {
    forall l | l in lines ensures EndOf(l) == e {
      NeatEnds(l, e);
    }
  }

  lemma {:induction false} BodyNeat(src: seq<string>, k: nat, text: seq<BodyLine>, e: LineEnd)
    requires AllNeat(src, e) && e != NoEnd && k + Reads(text) <= |src|
    requires forall l :: l in text ==> '\n' !in Said(l)
    requires k > 0 || AllNeat(LeadingAdds(text), e)
    ensures AllNeat(BodyOut(src, k, text), e)
    decreases |text|
  {
    if text != [] {
      var line := text[0];
      var k' := if line.tag.Added? then k else k + 1;
      BodyNeat(src, k', text[1..], e);
      AllNeatEnds(src, e);
      TallyUniform(src, k', e);
      StripEolAgain(line.rest, Terminator(e));
      assert line in text;
      assert Neat(Said(line) + Terminator(e), e);
    }
  }

  lemma {:induction false} PatchedFromNeat(src: seq<string>, k: nat, hunks: seq<Hunk>, e: LineEnd)
    requires AllNeat(src, e) && e != NoEnd && ReadBy(k, hunks) <= |src| && FromFile(hunks)
    requires k > 0 || AllNeat(WrittenUnread(hunks), e)
    ensures AllNeat(PatchedFrom(src, k, hunks), e)
    decreases |hunks|
  {
    if hunks != [] {
      var h, p := hunks[0], Placed(k, hunks[0]);
      var k' := p + Reads(h.text);
      assert h in hunks;
      BodyNeat(src, p, h.text, e);
      PatchedFromNeat(src, k', hunks[1..], e);
      CopiedRaw(src, k, p);
      var copied, body, rest := Copied(src, k, p), BodyOut(src, p, h.text), PatchedFrom(src, k', hunks[1..]);
      assert PatchedFrom(src, k, hunks) == copied + body + rest;
    }
  }

  function PatchedFile(bytes: string, hunks: seq<Hunk>): string {
    Join(Patched(Lines(bytes), hunks))
  }

  /** The file has only lines that end in e, the hunks come from a file and fit it, and nothing with
      another line end is written before a line of the file has been read. */
  ghost predicate NeatPatch(bytes: string, hunks: seq<Hunk>, e: LineEnd) {
    (e == Lf || e == CrLf) && AllNeat(Lines(bytes), e) && FromFile(hunks)
    && IsPatch(0, hunks, |Lines(bytes)|) && Faithful(0, hunks) && AllNeat(WrittenUnread(hunks), e)
  }

  /** The written file falls into lines again as it was written, all of them end in e, and they say
      what the unified format prescribes. */
  lemma {:induction false} PatchedFileSays(bytes: string, hunks: seq<Hunk>, e: LineEnd)
    requires NeatPatch(bytes, hunks, e)
    ensures var src, out := Lines(bytes), PatchedFile(bytes, hunks);
            Lines(out) == Patched(src, hunks) && AllNeat(Lines(out), e)
            && Contents(Lines(out)) == Unified(src, hunks)
  {
    var src := Lines(bytes);
    FaithfulIsUnified(src, hunks);
    PatchedFromNeat(src, 0, hunks, e);
    LinesJoin(Patched(src, hunks), e);
  }

  /** patch_hunks: the bytes written for the bytes read. */
  method PatchHunks(bytes: string, hunks: seq<Hunk>) returns (out: string)
    ensures out == PatchedFile(bytes, hunks)
    ensures forall e :: NeatPatch(bytes, hunks, e) ==>
              AllNeat(Lines(out), e) && Contents(Lines(out)) == Unified(Lines(bytes), hunks)
  {
    var lines := PatchStream.PatchStream(Lines(bytes), hunks);
    out := Join(lines);
    forall e | NeatPatch(bytes, hunks, e)
      ensures AllNeat(Lines(out), e) && Contents(Lines(out)) == Unified(Lines(bytes), hunks)
    {
      PatchedFileSays(bytes, hunks, e);
    }
  }

  /** A created file, whose hunk comes from a file: read back, its lines are the target side, each with
      a newline. */
  lemma {:induction false} CreatedFileSays(h: Hunk)
    requires forall l :: l in h.text ==> '\n' !in Said(l)
    ensures Lines(Join(NewFileLines(h))) == NewFileLines(h) && AllNeat(NewFileLines(h), Lf)
    ensures Contents(NewFileLines(h)) == TargetSide(h.text)
  {
    var t := TargetSide(h.text);
    TargetSideStripped(h.text);
    TargetSideFromFile(h.text);
    forall i | 0 <= i < |t| ensures Neat(t[i] + "\n", Lf) && StripEol(t[i] + "\n") == t[i] {
      assert t[i] in t;
      StripEolAgain(t[i], "\n");
    }
    hide Neat, StripEol, TargetSide;
    assert Contents(NewFileLines(h)) == t;
    LinesJoin(NewFileLines(h), Lf);
  }

  lemma {:induction false} TargetSideFromFile(text: seq<BodyLine>)
    requires forall l :: l in text ==> '\n' !in Said(l)
    ensures forall s :: s in TargetSide(text) ==> '\n' !in s
  {
    if text != [] {
      assert text[0] in text;
      TargetSideFromFile(text[1..]);
    }
  }

  /** Applying the patch to the file that it created, as it is read back. */
  lemma {:induction false} CreatedFileRecognised(h: Hunk)
    requires h.startsrc == 0 && TargetSide(h.text) != [] && forall l :: l in h.text ==> '\n' !in Said(l)
    ensures Decided(Lines(Join(NewFileLines(h))), [h]) == AlreadyPatched
  {
    hide Decided, NewFileLines, Lines, Join, TargetSide;
    CreatedFileSays(h);
    NewFileRecognised(h);
  }

  lemma {:induction false} FlipFromFile(text: seq<BodyLine>)
    requires forall l :: l in text ==> '\n' !in Said(l)
    ensures forall l :: l in Flip(text) ==> '\n' !in Said(l)
  {
    if text != [] {
      FlipFromFile(text[1..]);
      assert text[0] in text;
    }
  }

  lemma {:induction false} ReversedFromFile(hunks: seq<Hunk>)
    requires FromFile(hunks)
    ensures FromFile(ReversedAll(hunks))
  {
    if hunks != [] {
      assert hunks[0] in hunks;
      FlipFromFile(hunks[0].text);
      ReversedFromFile(hunks[1..]);
    }
  }

  /** A neat file is restored byte for byte by the reversed patch. */
  lemma {:induction false} FileRestored(bytes: string, hunks: seq<Hunk>, e: LineEnd)
    requires (e == Lf || e == CrLf) && AllNeat(Lines(bytes), e) && FromFile(hunks)
    requires IsPatch(0, hunks, |Lines(bytes)|)
    requires SourceMatches(Contents(Lines(bytes)), hunks) && TargetNumbered(0, hunks)
    requires Faithful(0, hunks) && Faithful(0, ReversedAll(hunks))
    requires AllNeat(WrittenUnread(hunks), e) && AllNeat(WrittenUnread(ReversedAll(hunks)), e)
    ensures PatchedFile(PatchedFile(bytes, hunks), ReversedAll(hunks)) == bytes
  {
    var src, back := Lines(bytes), ReversedAll(hunks);
    var out := Patched(src, hunks);
    FaithfulIsUnified(src, hunks);
    PatchedFromNeat(src, 0, hunks, e);
    LinesJoin(out, e);
    FaithfulSuits(Contents(src), hunks);
    UnifiedReversalRestores(Contents(src), hunks);
    FaithfulSuits(Unified(src, hunks), back);
    ReversalRestores(src, hunks);
    BackFits(src, hunks);
    ReversedFromFile(hunks);
    PatchedFromNeat(out, 0, back, e);
    NeatSame(Patched(out, back), src, e);
    JoinLines(bytes);
  }

  lemma {:induction false} BackFits(src: seq<string>, hunks: seq<Hunk>)
    requires IsPatch(0, hunks, |src|) && SourceMatches(Contents(src), hunks) && TargetNumbered(0, hunks)
    requires Faithful(0, hunks) && Faithful(0, ReversedAll(hunks))
    ensures ReadBy(0, ReversedAll(hunks)) <= |Patched(src, hunks)|
  {
    FaithfulIsUnified(src, hunks);
    UnifiedReversalRestores(Contents(src), hunks);
    ReversedSidesNonEmpty(hunks);
    FaithfulIsUnified(Patched(src, hunks), ReversedAll(hunks));
  }
}
