/** The loop in PatchInfo.apply that decides whether a file can be patched. */
module Validation {
  import opened Text
  import opened Hunks
  import opened Splicing
  import opened PatchStream
  import opened PatchMeaning

  datatype Verdict =
    | IndexError                              // hunkfind[hunklineno] past the end
    | Checked(canpatch: bool, validhunks: nat)

  /** Every hunk starts after the lines of the one before; only the first may say 0. */
  predicate InSequence(k: int, hunks: seq<Hunk>)
    decreases |hunks|
  {
    hunks == [] ||
    (k < hunks[0].startsrc && InSequence(hunks[0].startsrc - 1 + |SourceSide(hunks[0].text)|, hunks[1..]))
  }

  /** The hunk's source side is numbered and the walk over the file can complete it. */
  predicate Checkable(h: Hunk) {
    h.startsrc >= 1 && SourceSide(h.text) != []
  }

  /** All lines of the source side but the last one stand at startsrc, and the last one's place
      exists. */
  predicate Ready(lines: seq<string>, h: Hunk) {
    var n := |SourceSide(h.text)|;
    Checkable(h) && h.startsrc - 1 + n <= |lines|
    && lines[h.startsrc - 1..h.startsrc - 1 + n - 1] == SourceSide(h.text)[..n - 1]
  }

  /** How many hunks the walk finds ready; it never gets past one it cannot check. */
  function ReadyCount(lines: seq<string>, hunks: seq<Hunk>): (r: nat)
    ensures r <= |hunks|
  {
    if hunks == [] || !Checkable(hunks[0]) then 0
    else (if Ready(lines, hunks[0]) then 1 else 0) + ReadyCount(lines, hunks[1..])
  }

  lemma {:induction false} AllReady(lines: seq<string>, hunks: seq<Hunk>)
    ensures ReadyCount(lines, hunks) == |hunks| <==> forall h :: h in hunks ==> Ready(lines, h)
  {
    if hunks != [] {
      AllReady(lines, hunks[1..]);
      assert hunks == [hunks[0]] + hunks[1..];
      if Ready(lines, hunks[0]) && ReadyCount(lines, hunks) < |hunks| {
        var h :| h in hunks[1..] && !Ready(lines, h);
        assert h in hunks;
      }
    }
  }

  lemma {:induction false} BeyondEndNotReady(lines: seq<string>, k: int, hunks: seq<Hunk>)
    requires InSequence(k, hunks) && k >= |lines|
    ensures ReadyCount(lines, hunks) == 0
    decreases |hunks|
  {
    if hunks != [] {
      BeyondEndNotReady(lines, hunks[0].startsrc - 1 + |SourceSide(hunks[0].text)|, hunks[1..]);
    }
  }

  lemma {:induction false} InSequenceAt(k: int, hunks: seq<Hunk>, i: nat)
    requires InSequence(k, hunks) && i < |hunks|
    ensures InSequence(hunks[i].startsrc - 1 + |SourceSide(hunks[i].text)|, hunks[i + 1..])
    ensures i > 0 ==> hunks[i - 1].startsrc + |SourceSide(hunks[i - 1].text)| <= hunks[i].startsrc
    decreases |hunks|
  {
    if i > 0 {
      var k' := hunks[0].startsrc - 1 + |SourceSide(hunks[0].text)|;
      InSequenceAt(k', hunks[1..], i - 1);
      assert hunks[1..][i - 1 + 1..] == hunks[i + 1..];
    }
  }

  /** The first n lines of side stand in lines from index p on. */
  predicate SameLines(lines: seq<string>, p: nat, side: seq<string>, n: nat) {
    n <= |side| && p + n <= |lines| && forall i :: 0 <= i < n ==> lines[p + i] == side[i]
  }

  /** The walk is inside hunk h after `read` lines: everything compared so far was equal. A hunk
      it cannot check keeps it there, with nothing to compare. */
  ghost predicate Inside(lines: seq<string>, h: Hunk, read: nat, hunkfind: seq<string>, hunklineno: nat)
    requires read <= |lines|
  {
    var side := SourceSide(h.text);
    h.startsrc <= read + 1
    && if !Checkable(h) then hunkfind == []
       else
         hunkfind == side && hunklineno == read + 1 - h.startsrc < |side|
         && SameLines(lines, h.startsrc - 1, side, hunklineno)
  }

  /** The variables of the walk. */
  datatype Walk = Walk(hunkno: nat, hunkfind: seq<string>, hunklineno: nat, validhunks: nat)

  /** What holds between two lines of the walk over ordered hunks. */
  ghost predicate Progress(lines: seq<string>, hunks: seq<Hunk>, read: nat, w: Walk)
    requires hunks != [] && read <= |lines|
  {
    w.validhunks <= w.hunkno <= |hunks|
    && w.validhunks + ReadyCount(lines, hunks[w.hunkno..]) == ReadyCount(lines, hunks)
    && (w.hunkno < |hunks| ==>
          read < hunks[w.hunkno].startsrc || Inside(lines, hunks[w.hunkno], read, w.hunkfind, w.hunklineno))
    && (w.hunkno == |hunks| ==>
          w.validhunks < w.hunkno && w.hunkfind != [] && hunks[w.hunkno - 1].startsrc + |w.hunkfind| - 1 <= read)
  }

  /** A line before the current hunk, or after the last. */
  lemma {:induction false} WalksPast(lines: seq<string>, hunks: seq<Hunk>, read: nat, w: Walk)
    requires hunks != [] && read < |lines| && Progress(lines, hunks, read, w)
    requires w.hunkno < |hunks| ==> read + 1 < hunks[w.hunkno].startsrc
    ensures Progress(lines, hunks, read + 1, w)
    ensures w.hunkno == |hunks| ==> hunks[w.hunkno - 1].startsrc + |w.hunkfind| <= read + 1 && w.hunkfind != []
  {
  }

  /** Reaching a hunk's first line, or going on inside it. */
  lemma {:induction false} WalksInto(lines: seq<string>, hunks: seq<Hunk>, read: nat, w: Walk)
    requires hunks != [] && read < |lines| && Progress(lines, hunks, read, w) && w.hunkno < |hunks|
    ensures var h := hunks[w.hunkno];
            h.startsrc <= read + 1 ==>
              if read + 1 == h.startsrc then Inside(lines, h, read, SourceSide(h.text), 0)
              else Inside(lines, h, read, w.hunkfind, w.hunklineno)
  {
  }

  /** The walk over ordered hunks is inside its current one. */
  ghost predicate InsideHunk(lines: seq<string>, hunks: seq<Hunk>, read: nat, w: Walk) {
    InSequence(-1, hunks) && read < |lines| && w.validhunks <= w.hunkno < |hunks|
    && w.validhunks + ReadyCount(lines, hunks[w.hunkno..]) == ReadyCount(lines, hunks)
    && Inside(lines, hunks[w.hunkno], read, w.hunkfind, w.hunklineno)
  }

  /** Lines from read + 1 up to the hunk's last one. */
  function ToLast(hunks: seq<Hunk>, read: nat, w: Walk): int
    requires w.hunkno < |hunks|
  {
    hunks[w.hunkno].startsrc + |w.hunkfind| - 1 - (read + 1)
  }

  lemma {:induction false} StillInside(lines: seq<string>, hunks: seq<Hunk>, read: nat, w: Walk)
    requires InsideHunk(lines, hunks, read, w)
    ensures ToLast(hunks, read, w) > 0 ==>
              w.hunklineno < |w.hunkfind|
              && (lines[read] == w.hunkfind[w.hunklineno] ==>
                    Progress(lines, hunks, read + 1, w.(hunklineno := w.hunklineno + 1)))
    ensures ToLast(hunks, read, w) < 0 ==> Progress(lines, hunks, read + 1, w)
  {
  }

  /** Leaving a hunk: it was ready if its last line is reached, and not if a line differs. */
  lemma {:induction false} ReadyOrNot(lines: seq<string>, h: Hunk, read: nat, hunkfind: seq<string>, hunklineno: nat)
    requires read < |lines| && Inside(lines, h, read, hunkfind, hunklineno) && hunkfind != []
    ensures Checkable(h)
    ensures read + 1 == h.startsrc + |hunkfind| - 1 ==> Ready(lines, h)
    ensures read + 1 < h.startsrc + |hunkfind| - 1 && lines[read] != hunkfind[hunklineno] ==> !Ready(lines, h)
  {
    var p, n := h.startsrc - 1, |hunkfind|;
    if Ready(lines, h) && read + 1 < h.startsrc + n - 1 {
      assert lines[p..p + n - 1][hunklineno] == hunkfind[..n - 1][hunklineno];
    }
  }

  /** What the next hunk starts with. */
  lemma {:induction false} OnToNext(lines: seq<string>, hunks: seq<Hunk>, read: nat, w: Walk, ready: bool)
    requires InsideHunk(lines, hunks, read, w) && w.hunkfind != [] && ToLast(hunks, read, w) >= 0
    requires ready == Ready(lines, hunks[w.hunkno]) && Checkable(hunks[w.hunkno])
    requires ready <==> ToLast(hunks, read, w) == 0
    ensures var w' := w.(hunkno := w.hunkno + 1, validhunks := if ready then w.validhunks + 1 else w.validhunks);
            if w.hunkno + 1 < |hunks| || (ready && w'.validhunks < |hunks|) then Progress(lines, hunks, read + 1, w')
            else w'.validhunks == ReadyCount(lines, hunks) && (!ready ==> w'.validhunks < |hunks|)
  {
    var h := hunks[w.hunkno];
    assert hunks[w.hunkno..][1..] == hunks[w.hunkno + 1..] && hunks[w.hunkno..][0] == h;
    assert ReadyCount(lines, hunks[w.hunkno..]) == (if ready then 1 else 0) + ReadyCount(lines, hunks[w.hunkno + 1..]);
    assert hunks[|hunks|..] == [];
    if w.hunkno + 1 < |hunks| {
      InSequenceAt(-1, hunks, w.hunkno + 1);
    }
  }

  /** What a line inside a hunk leads to: on to the next line if it is equal and not the last, on
      to the next hunk if it differs or the hunk is done, and nowhere if nothing can be checked. */
  lemma {:induction false} WalksOn(lines: seq<string>, hunks: seq<Hunk>, read: nat, w: Walk)
    requires InsideHunk(lines, hunks, read, w)
    ensures var tolast, last := ToLast(hunks, read, w), w.hunkno + 1 == |hunks|;
            if tolast > 0 then
              w.hunklineno < |w.hunkfind|
              && if lines[read] == w.hunkfind[w.hunklineno] then
                   Progress(lines, hunks, read + 1, w.(hunklineno := w.hunklineno + 1))
                 else if last then w.validhunks == ReadyCount(lines, hunks) < |hunks|
                 else Progress(lines, hunks, read + 1, w.(hunkno := w.hunkno + 1))
            else if tolast == 0 then
              if last && w.validhunks + 1 == |hunks| then ReadyCount(lines, hunks) == |hunks|
              else Progress(lines, hunks, read + 1, w.(hunkno := w.hunkno + 1, validhunks := w.validhunks + 1))
            else Progress(lines, hunks, read + 1, w)
  {
    var tolast := ToLast(hunks, read, w);
    StillInside(lines, hunks, read, w);
    if w.hunkfind != [] && tolast >= 0 {
      ReadyOrNot(lines, hunks[w.hunkno], read, w.hunkfind, w.hunklineno);
      hide Progress, Ready, Inside, ReadyCount, InSequence;
      if tolast == 0 {
        OnToNext(lines, hunks, read, w, true);
      } else if lines[read] != w.hunkfind[w.hunklineno] {
        OnToNext(lines, hunks, read, w, false);
      }
    } else {
      UncheckedIsStuck(hunks, read, w, lines);
    }
  }

  lemma {:induction false} UncheckedIsStuck(hunks: seq<Hunk>, read: nat, w: Walk, lines: seq<string>)
    requires InsideHunk(lines, hunks, read, w)
    ensures w.hunkfind == [] ==> ToLast(hunks, read, w) < 0
  {
  }

  lemma {:induction false} WalkEnds(lines: seq<string>, hunks: seq<Hunk>, w: Walk)
    requires hunks != [] && InSequence(-1, hunks) && Progress(lines, hunks, |lines|, w)
    ensures w.validhunks == ReadyCount(lines, hunks) < |hunks|
  {
    if w.hunkno < |hunks| {
      var h := hunks[w.hunkno];
      assert hunks[w.hunkno..][1..] == hunks[w.hunkno + 1..] && hunks[w.hunkno..][0] == h;
      InSequenceAt(-1, hunks, w.hunkno);
      if Checkable(h) {
        BeyondEndNotReady(lines, h.startsrc - 1 + |SourceSide(h.text)|, hunks[w.hunkno + 1..]);
      }
    }
  }

  lemma {:induction false} WalkBegins(lines: seq<string>, hunks: seq<Hunk>)
    requires hunks != []
    ensures Progress(lines, hunks, 0, Walk(0, [], 0, 0))
  {
    assert hunks[0..] == hunks;
  }

  lemma {:induction false} ProgressCounts(lines: seq<string>, hunks: seq<Hunk>, read: nat, w: Walk)
    requires hunks != [] && read <= |lines| && Progress(lines, hunks, read, w)
    ensures w.validhunks <= w.hunkno <= |hunks|
    ensures w.validhunks + ReadyCount(lines, hunks[w.hunkno..]) == ReadyCount(lines, hunks)
  {
  }

  // ----- the walk, whatever the hunks

  const WALK_START := Walk(0, [], 0, 0)

  datatype Stepped = On(w: Walk) | Ended(verdict: Verdict)

  /** What the walk does with line number lineno + 1, also for hunks that overlap: lines are compared
      with the source side found last, which may be that of an earlier hunk. */
  function WalkLine(line: string, lineno: nat, hunks: seq<Hunk>, w: Walk): Stepped
    requires hunks != []
  {
    var hunk := hunks[if w.hunkno < |hunks| then w.hunkno else |hunks| - 1];
    if lineno + 1 < hunk.startsrc then On(w)
    else
      var w := if lineno + 1 == hunk.startsrc then w.(hunkfind := SourceSide(hunk.text), hunklineno := 0) else w;
      var last := hunk.startsrc + |w.hunkfind| - 1;
      if lineno + 1 < last then
        if w.hunklineno >= |w.hunkfind| then Ended(IndexError)
        else if line == w.hunkfind[w.hunklineno] then On(w.(hunklineno := w.hunklineno + 1))
        else if w.hunkno + 1 < |hunks| then On(w.(hunkno := w.hunkno + 1))
        else Ended(Checked(false, w.validhunks))
      else if lineno + 1 == last then
        var w := w.(hunkno := w.hunkno + 1, validhunks := w.validhunks + 1);
        if w.hunkno >= |hunks| && w.validhunks == |hunks| then Ended(Checked(true, w.validhunks)) else On(w)
      else On(w)
  }

  function Walked(lines: seq<string>, lineno: nat, hunks: seq<Hunk>, w: Walk): Verdict
    requires hunks != []
    decreases |lines| - lineno
  {
    if lineno >= |lines| then Checked(false, w.validhunks)
    else
      match WalkLine(lines[lineno], lineno, hunks, w)
      case On(w') => Walked(lines, lineno + 1, hunks, w')
      case Ended(verdict) => verdict
  }

  method Validate(file: seq<string>, hunks: seq<Hunk>) returns (r: Verdict)
    requires hunks != []
    ensures r == Walked(Contents(file), 0, hunks, WALK_START)
    ensures InSequence(-1, hunks) ==>
              r == Checked(ReadyCount(Contents(file), hunks) == |hunks|, ReadyCount(Contents(file), hunks))
  {
    hide ReadyCount, InSequence, SourceSide, Walked;
    var hunkno: nat, hunk := 0, hunks[0];
    var hunkfind: seq<string>, hunklineno: nat := [], 0;
    var validhunks := 0;
    ghost var lines := Contents(file);
    if InSequence(-1, hunks) {
      WalkedInSequence(lines, hunks);
    }
    for lineno := 0 to |file|
      invariant hunk == hunks[if hunkno < |hunks| then hunkno else |hunks| - 1]
      invariant Walked(lines, lineno, hunks, Walk(hunkno, hunkfind, hunklineno, validhunks))
                == Walked(lines, 0, hunks, WALK_START)
    {
      WalkedStep(lines, lineno, hunks, Walk(hunkno, hunkfind, hunklineno, validhunks));
      if lineno + 1 < hunk.startsrc {
        continue;
      } else if lineno + 1 == hunk.startsrc {
        hunkfind := SourceSide(hunk.text);
        hunklineno := 0;
      }
      if lineno + 1 < hunk.startsrc + |hunkfind| - 1 {
        if hunklineno >= |hunkfind| {
          return IndexError;
        }
        if StripEol(file[lineno]) == hunkfind[hunklineno] {
          hunklineno := hunklineno + 1;
        } else {
          hunkno := hunkno + 1;
          if hunkno < |hunks| {
            hunk := hunks[hunkno];
            continue;
          } else {
            return Checked(false, validhunks);
          }
        }
      }
      if lineno + 1 == hunk.startsrc + |hunkfind| - 1 {
        hunkno := hunkno + 1;
        validhunks := validhunks + 1;
        if hunkno < |hunks| {
          hunk := hunks[hunkno];
        } else {
          if validhunks == |hunks| {
            return Checked(true, validhunks);
          }
        }
      }
    }
    WalkedStep(lines, |lines|, hunks, Walk(hunkno, hunkfind, hunklineno, validhunks));
    return Checked(false, validhunks);
  }

  lemma {:induction false} WalkedStep(lines: seq<string>, lineno: nat, hunks: seq<Hunk>, w: Walk)
    requires hunks != []
    ensures Walked(lines, lineno, hunks, w)
            == if lineno >= |lines| then Checked(false, w.validhunks)
               else match WalkLine(lines[lineno], lineno, hunks, w)
                    case On(w') => Walked(lines, lineno + 1, hunks, w')
                    case Ended(verdict) => verdict
  {
  }

  /** For hunks in sequence the walk indexes no line it does not have, and counts the ready hunks. */
  lemma {:induction false} WalkedInSequence(lines: seq<string>, hunks: seq<Hunk>)
    requires hunks != [] && InSequence(-1, hunks)
    ensures Walked(lines, 0, hunks, WALK_START)
            == Checked(ReadyCount(lines, hunks) == |hunks|, ReadyCount(lines, hunks))
  {
    hide Progress, ReadyCount, InSequence, Walked;
    WalkBegins(lines, hunks);
    WalkedFrom(lines, 0, hunks, WALK_START);
  }

  lemma {:induction false} WalkedFrom(lines: seq<string>, lineno: nat, hunks: seq<Hunk>, w: Walk)
    requires hunks != [] && InSequence(-1, hunks) && lineno <= |lines| && Progress(lines, hunks, lineno, w)
    ensures Walked(lines, lineno, hunks, w)
            == Checked(ReadyCount(lines, hunks) == |hunks|, ReadyCount(lines, hunks))
    decreases |lines| - lineno
  {
    hide Progress, Inside, ReadyCount, InSequence, SourceSide, Walked;
    WalkedStep(lines, lineno, hunks, w);
    if lineno == |lines| {
      WalkEnds(lines, hunks, w);
    } else {
      ProgressCounts(lines, hunks, lineno, w);
      var hunk := hunks[if w.hunkno < |hunks| then w.hunkno else |hunks| - 1];
      if w.hunkno == |hunks| || lineno + 1 < hunk.startsrc {
        WalksPast(lines, hunks, lineno, w);
        WalkedFrom(lines, lineno + 1, hunks, w);
      } else {
        WalksInto(lines, hunks, lineno, w);
        var w1 := if lineno + 1 == hunk.startsrc then w.(hunkfind := SourceSide(hunk.text), hunklineno := 0) else w;
        WalksOn(lines, hunks, lineno, w1);
        match WalkLine(lines[lineno], lineno, hunks, w) {
          case On(w') => WalkedFrom(lines, lineno + 1, hunks, w');
          case Ended(_) =>
        }
      }
    }
  }

  /** Seven lines and two hunks out of sequence: the second starts inside the first, whose fourth line
      differs, and its lines are compared with the first hunk's source side, past its end. */
  function OverlapLines(): seq<string> {
    ["a", "a", "a", "b", "a", "a", "a"]
  }

  function OverlapHunks(): seq<Hunk> {
    var a := BodyLine(Context, "a");
    [Hunk(1, 5, 1, 5, [a, a, a, a, a]), Hunk(4, 1, 4, 1, [a])]
  }

  lemma {:induction false} FiveLines()
    ensures SourceSide(OverlapHunks()[0].text) == ["a", "a", "a", "a", "a"]
  {
    var a := BodyLine(Context, "a");
    StripEolUnique("a", "a");
    assert Said(a) == "a";
    hide SourceSide, TargetSide, Remarks, Said;
    NoSides();
    SidesStep(a, []);
    SidesStep(a, [a]);
    SidesStep(a, [a, a]);
    SidesStep(a, [a, a, a]);
    SidesStep(a, [a, a, a, a]);
    assert [a] + [] == [a] && [a] + [a] == [a, a] && [a] + [a, a] == [a, a, a];
    assert [a] + [a, a, a] == [a, a, a, a] && [a] + [a, a, a, a] == [a, a, a, a, a];
  }

  lemma {:induction false} OverlapRaises()
    ensures Walked(OverlapLines(), 0, OverlapHunks(), WALK_START) == IndexError
  {
    var lines, hunks := OverlapLines(), OverlapHunks();
    var five := ["a", "a", "a", "a", "a"];
    FiveLines();
    hide SourceSide, Walked;
    WalkedStep(lines, 0, hunks, WALK_START);
    WalkedStep(lines, 1, hunks, Walk(0, five, 1, 0));
    WalkedStep(lines, 2, hunks, Walk(0, five, 2, 0));
    WalkedStep(lines, 3, hunks, Walk(0, five, 3, 0));
    WalkedStep(lines, 4, hunks, Walk(1, five, 3, 0));
    WalkedStep(lines, 5, hunks, Walk(1, five, 4, 0));
    WalkedStep(lines, 6, hunks, Walk(1, five, 5, 0));
  }

  // ----- what a positive verdict guarantees

  /** Every hunk ready and in sequence: the edits are in order and end inside the file. */
  lemma {:induction false} ReadyFits(lines: seq<string>, k: nat, hunks: seq<Hunk>)
    requires InSequence(k, hunks) && k <= |lines|
    requires forall h :: h in hunks ==> Ready(lines, h)
    ensures IsPatch(k, hunks, |lines|) && WellPlaced(k, hunks)
    ensures AllRemarks(hunks) == 0 ==> InOrder(k, hunks)
    decreases |hunks|
  {
    if hunks != [] {
      var h := hunks[0];
      var e := UnifiedEdit(h);
      ReadsSourceAndRemarks(h.text);
      assert h in hunks && Ready(lines, h);
      ReadyFits(lines, e.End(), hunks[1..]);
      assert UnifiedEdits(hunks) == [e] + UnifiedEdits(hunks[1..]);
      assert UnifiedEdits(hunks)[1..] == UnifiedEdits(hunks[1..]);
    }
  }

  /** A file the validator accepts is patched without reading past its end but for remarks, and as the
      unified format prescribes exactly if the remarks fit. */
  lemma {:induction false} AcceptedIsSafe(src: seq<string>, hunks: seq<Hunk>)
    requires InSequence(-1, hunks) && ReadyCount(Contents(src), hunks) == |hunks|
    ensures IsPatch(0, hunks, |src|) && WellPlaced(0, hunks)
    ensures ReadBy(0, hunks) <= |src| + AllRemarks(hunks)
    ensures Contents(Patched(src, hunks)) == Unified(src, hunks) <==> RemarksFit(|src|, hunks)
    ensures Suits(Contents(src), hunks) <==> RemarksFit(|src|, hunks)
    ensures AllRemarks(hunks) == 0 ==> InOrder(0, hunks)
  {
    AllReady(Contents(src), hunks);
    if hunks != [] {
      assert hunks[0] in hunks;
      assert InSequence(0, hunks);
    }
    ReadyFits(Contents(src), 0, hunks);
    WellPlacedIff(src, hunks);
  }

  /** Body line i is line j of a side, j counting the earlier lines of that side. */
  lemma {:induction false} SideAt(text: seq<BodyLine>, i: nat)
    requires i < |text|
    ensures OnSource(text[i]) ==>
              |SourceSide(text[..i])| < |SourceSide(text)|
              && SourceSide(text)[|SourceSide(text[..i])|] == Said(text[i])
    ensures OnTarget(text[i]) ==>
              |TargetSide(text[..i])| < |TargetSide(text)|
              && TargetSide(text)[|TargetSide(text[..i])|] == Said(text[i])
  {
    assert text == text[..i] + text[i..];
    SourceSideConcat(text[..i], text[i..]);
    TargetSideConcat(text[..i], text[i..]);
    assert text[i..][0] == text[i];
  }

  /** 0-based source line that body line i of h stands for. */
  function SourceIndex(h: Hunk, i: nat): int
    requires i <= |h.text|
  {
    h.startsrc - 1 + |SourceSide(h.text[..i])|
  }

  /** 0-based line at which body line i of hunk k is written. */
  function WrittenIndex(hunks: seq<Hunk>, k: nat, i: nat): int
    requires k < |hunks| && i <= |hunks[k].text|
  {
    hunks[k].startsrc - 1 + ShiftBefore(hunks, k) + |TargetSide(hunks[k].text[..i])|
  }

  lemma {:induction false} ReadyLine(lines: seq<string>, h: Hunk, i: nat)
    requires Ready(lines, h) && i < |h.text| && OnSource(h.text[i])
    requires |SourceSide(h.text[..i])| + 1 < |SourceSide(h.text)|
    ensures 0 <= SourceIndex(h, i) < |lines| && lines[SourceIndex(h, i)] == Said(h.text[i])
  {
    var p, n, j := h.startsrc - 1, |SourceSide(h.text)|, |SourceSide(h.text[..i])|;
    SideAt(h.text, i);
    assert lines[p..p + n - 1][j] == SourceSide(h.text)[..n - 1][j];
  }

  lemma {:induction false} LineLands(src: seq<string>, hunks: seq<Hunk>, k: nat, i: nat)
    requires IsPatch(0, hunks, |src|) && Suits(Contents(src), hunks)
    requires k < |hunks| && i < |hunks[k].text| && OnTarget(hunks[k].text[i])
    requires SourceSide(hunks[k].text) != []
    ensures 0 <= WrittenIndex(hunks, k, i) < |Patched(src, hunks)|
    ensures Contents(Patched(src, hunks))[WrittenIndex(hunks, k, i)] == Said(hunks[k].text[i])
  {
    hide ShiftBefore, TargetSide, SourceSide, Patched, Suits, IsPatch;
    var h, out := hunks[k], Contents(Patched(src, hunks));
    SideAt(h.text, i);
    HunkLandsShifted(src, hunks, k);
    var p, t := UnifiedEdit(h).at + ShiftBefore(hunks, k), |TargetSide(h.text[..i])|;
    assert out[p..p + |TargetSide(h.text)|][t] == out[p + t];
  }

  /** Each context line of an accepted patch, the last source-side line of its hunk excepted, is
      written exactly as the source line it stands for said it. */
  lemma {:induction false} ContextKept(src: seq<string>, hunks: seq<Hunk>, k: nat, i: nat)
    requires InSequence(-1, hunks) && RemarksFit(|src|, hunks)
    requires ReadyCount(Contents(src), hunks) == |hunks|
    requires k < |hunks| && i < |hunks[k].text| && hunks[k].text[i].tag.Context?
    requires |SourceSide(hunks[k].text[..i])| + 1 < |SourceSide(hunks[k].text)|
    ensures 0 <= SourceIndex(hunks[k], i) < |src|
    ensures 0 <= WrittenIndex(hunks, k, i) < |Patched(src, hunks)|
    ensures StripEol(Patched(src, hunks)[WrittenIndex(hunks, k, i)]) == StripEol(src[SourceIndex(hunks[k], i)])
  {
    assert hunks[k] in hunks && Ready(Contents(src), hunks[k]) by {
      AllReady(Contents(src), hunks);
    }
    ReadyLine(Contents(src), hunks[k], i);
    AcceptedIsSafe(src, hunks);
    LineLands(src, hunks, k, i);
  }

  /** The last source-side line is never compared: whatever stands in its place, the hunk is as
      ready as before, and the line will be dropped. */
  lemma {:induction false} LastLineUnchecked(lines: seq<string>, h: Hunk, other: string)
    requires Ready(lines, h)
    ensures Ready(lines[h.startsrc - 1 + |SourceSide(h.text)| - 1 := other], h)
  {
    var p, n := h.startsrc - 1, |SourceSide(h.text)|;
    assert lines[p + n - 1 := other][p..p + n - 1] == lines[p..p + n - 1];
  }

  /** Hunks that start after line x do not look at it. */
  lemma {:induction false} ReadyBeyond(lines: seq<string>, k: int, hunks: seq<Hunk>, x: nat, other: string)
    requires InSequence(k, hunks) && x < k && x < |lines| && forall h :: h in hunks ==> Ready(lines, h)
    ensures forall h :: h in hunks ==> Ready(lines[x := other], h)
    decreases |hunks|
  {
    if hunks != [] {
      var h, lines' := hunks[0], lines[x := other];
      assert h in hunks && Ready(lines, h);
      var p, n := h.startsrc - 1, |SourceSide(h.text)|;
      assert lines'[p..p + n - 1] == lines[p..p + n - 1];
      assert Ready(lines', h) && hunks == [h] + hunks[1..];
      hide Ready, SourceSide;
      ReadyBeyond(lines, p + n, hunks[1..], x, other);
    }
  }

  /** The last source-side line of hunk j. */
  function LastLine(hunks: seq<Hunk>, j: nat): int
    requires j < |hunks|
  {
    hunks[j].startsrc - 1 + |SourceSide(hunks[j].text)| - 1
  }

  lemma {:induction false} StaysReady(lines: seq<string>, k: int, hunks: seq<Hunk>, j: nat, other: string)
    requires InSequence(k, hunks) && j < |hunks| && forall h :: h in hunks ==> Ready(lines, h)
    ensures k <= LastLine(hunks, j) && 0 <= LastLine(hunks, j) < |lines|
    ensures forall h :: h in hunks ==> Ready(lines[LastLine(hunks, j) := other], h)
    decreases |hunks|
  {
    var h := hunks[0];
    assert h in hunks && Ready(lines, h);
    assert hunks == [h] + hunks[1..];
    ReadySource(lines, h);
    hide SourceSide;
    var p, n := h.startsrc - 1, |SourceSide(h.text)|;
    if j == 0 {
      LastLineUnchecked(lines, h, other);
      hide Ready;
      ReadyBeyond(lines, p + n, hunks[1..], p + n - 1, other);
    } else {
      StaysReady(lines, p + n, hunks[1..], j - 1, other);
      var x := LastLine(hunks, j);
      assert x == LastLine(hunks[1..], j - 1);
      assert lines[x := other][p..p + n - 1] == lines[p..p + n - 1];
      assert Ready(lines[x := other], h);
      hide Ready;
    }
  }

  /** Whatever an accepted file says where a hunk expects its last source-side line, it is accepted,
      and the patched file says the same. */
  lemma {:induction false} LastLineIgnored(src: seq<string>, hunks: seq<Hunk>, j: nat, other: string)
    requires InSequence(-1, hunks) && RemarksFit(|src|, hunks) && j < |hunks|
    requires ReadyCount(Contents(src), hunks) == |hunks|
    ensures var x := LastLine(hunks, j);
            0 <= x < |src|
            && ReadyCount(Contents(src[x := other]), hunks) == |hunks|
            && Contents(Patched(src[x := other], hunks)) == Contents(Patched(src, hunks))
  {
    hide InSequence, ReadyCount, Ready, Patched, Splice, RemarksFit, Suits;
    var lines := Contents(src);
    AllReady(lines, hunks);
    StaysReady(lines, -1, hunks, j, StripEol(other));
    var x := LastLine(hunks, j);
    var src' := src[x := other];
    assert Contents(src') == lines[x := StripEol(other)];
    AllReady(Contents(src'), hunks);
    AcceptedIsSafe(src, hunks);
    AcceptedIsSafe(src', hunks);
    UnifiedEditAt(hunks, j);
    assert Ready(lines, hunks[j]) && hunks[j] in hunks;
    ReadySource(lines, hunks[j]);
    SpliceIgnoresReplaced(lines, 0, UnifiedEdits(hunks), j, x, StripEol(other));
  }

  lemma {:induction false} ReadySource(lines: seq<string>, h: Hunk)
    requires Ready(lines, h)
    ensures SourceSide(h.text) != [] && h.startsrc >= 1
  {
  }

  lemma {:induction false} BlockMatches(lines: seq<string>, h: Hunk)
    requires Checkable(h) && h.startsrc - 1 + |SourceSide(h.text)| <= |lines|
    ensures var p, side := h.startsrc - 1, SourceSide(h.text);
            lines[p..p + |side|] == side
            <==> Ready(lines, h) && lines[p + |side| - 1] == side[|side| - 1]
  {
    var p, side := h.startsrc - 1, SourceSide(h.text);
    var n := |side|;
    assert side == side[..n - 1] + [side[n - 1]];
    assert lines[p..p + n] == lines[p..p + n - 1] + [lines[p + n - 1]];
  }

  lemma {:induction false} MatchStep(lines: seq<string>, k: nat, h: Hunk, rest: seq<Hunk>)
    requires IsPatch(k, [h] + rest, |lines|) && Checkable(h)
    ensures var e := UnifiedEdit(h);
            0 <= e.End() <= |lines| && IsPatch(e.End(), rest, |lines|) && e.at == h.startsrc - 1
            && (SourceMatchesFrom(lines, k, [h] + rest)
                <==> lines[e.at..e.End()] == SourceSide(h.text) && SourceMatchesFrom(lines, e.End(), rest))
  {
    assert ([h] + rest)[1..] == rest && UnifiedEdits([h] + rest)[1..] == UnifiedEdits(rest);
    OrderedFits(UnifiedEdit(h).End(), UnifiedEdits(rest), |lines|);
  }

  /** The whole source side matches exactly if the validator finds every hunk ready and the last
      lines are equal too. */
  lemma {:induction false} MatchIffReadyAndLast(lines: seq<string>, k: nat, hunks: seq<Hunk>)
    requires IsPatch(k, hunks, |lines|)
    requires forall h :: h in hunks ==> Checkable(h)
    ensures SourceMatchesFrom(lines, k, hunks) <==>
            forall h :: h in hunks ==>
              Ready(lines, h)
              && lines[h.startsrc - 1 + |SourceSide(h.text)| - 1] == SourceSide(h.text)[|SourceSide(h.text)| - 1]
    decreases |hunks|
  {
    if hunks != [] {
      var h, rest := hunks[0], hunks[1..];
      var e := UnifiedEdit(h);
      assert hunks == [h] + rest;
      hide SourceSide, Ready, SourceMatchesFrom, UnifiedEdits, Ordered, TargetSide, Checkable;
      MatchStep(lines, k, h, rest);
      BlockMatches(lines, h);
      MatchIffReadyAndLast(lines, e.End(), rest);
    }
  }
}
