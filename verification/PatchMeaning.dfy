/** When patch_stream does what the unified format says, and what follows from that. */
module PatchMeaning {
  import opened Text
  import opened Hunks
  import opened Splicing
  import opened PatchStream

  // ----- the unified format's own reading of a hunk

  /** 0-based index of the block a hunk replaces. A range without lines is numbered by the line
      before it ("Diff -u or -U Output Format" of the POSIX.1-2008 diff utility). */
  function UnifiedStart(start: nat, side: seq<string>): int {
    if side == [] then start else start - 1
  }

  function UnifiedEdit(h: Hunk): Edit {
    var replaced := SourceSide(h.text);
    Edit(UnifiedStart(h.startsrc, replaced), |replaced|, TargetSide(h.text))
  }

  function UnifiedEdits(hunks: seq<Hunk>): (edits: seq<Edit>)
    ensures |edits| == |hunks|
  {
    if hunks == [] then [] else [UnifiedEdit(hunks[0])] + UnifiedEdits(hunks[1..])
  }

  /** Hunks in order, none empty, the last ending within len lines. */
  predicate IsPatch(from: nat, hunks: seq<Hunk>, len: int) {
    Ordered(from, UnifiedEdits(hunks), len)
    && forall h :: h in hunks ==> SourceSide(h.text) != [] || TargetSide(h.text) != []
  }

  /** What the patched file should say. */
  function Unified(src: seq<string>, hunks: seq<Hunk>): seq<string>
    requires IsPatch(0, hunks, |src|)
  {
    Splice(Contents(src), 0, UnifiedEdits(hunks))
  }

  // ----- when the tool agrees

  /** No remark lines, and no pure insertion after a line that still has to be copied. */
  predicate Faithful(k: int, hunks: seq<Hunk>)
    decreases |hunks|
  {
    hunks == [] ||
    (var h := hunks[0];
     Remarks(h.text) == 0
     && (SourceSide(h.text) != [] || h.startsrc <= k)
     && Faithful(UnifiedEdit(h).End(), hunks[1..]))
  }

  lemma {:induction false} ReadsSourceAndRemarks(text: seq<BodyLine>)
    ensures Reads(text) == |SourceSide(text)| + Remarks(text)
  {
    if text != [] {
      ReadsSourceAndRemarks(text[1..]);
    }
  }

  lemma {:induction false} FaithfulEdits(k: nat, hunks: seq<Hunk>, len: nat)
    requires IsPatch(k, hunks, len) && Faithful(k, hunks)
    ensures ToolEdits(k, hunks) == UnifiedEdits(hunks)
    ensures ReadBy(k, hunks) <= len
    decreases |hunks|
  {
    OrderedFits(k, UnifiedEdits(hunks), len);
    if hunks != [] {
      var e, rest := UnifiedEdit(hunks[0]), hunks[1..];
      ReadsSourceAndRemarks(hunks[0].text);
      assert Placed(k, hunks[0]) == e.at && Reads(hunks[0].text) == e.size;
      assert UnifiedEdits(hunks) == [e] + UnifiedEdits(rest) && UnifiedEdits(hunks)[1..] == UnifiedEdits(rest);
      FaithfulEdits(e.End(), rest, len);
    }
  }

  lemma {:induction false} FaithfulIsUnified(src: seq<string>, hunks: seq<Hunk>)
    requires IsPatch(0, hunks, |src|) && Faithful(0, hunks)
    ensures ReadBy(0, hunks) <= |src|
    ensures Contents(Patched(src, hunks)) == Unified(src, hunks)
  {
    FaithfulEdits(0, hunks, |src|);
    PatchedIsSplice(src, hunks);
  }

  // ----- and when it does not

  function AllRemarks(hunks: seq<Hunk>): nat {
    if hunks == [] then 0 else Remarks(hunks[0].text) + AllRemarks(hunks[1..])
  }

  lemma {:induction false} RemarksLoseLines(k: nat, hunks: seq<Hunk>)
    ensures Growth(ToolEdits(k, hunks)) == Growth(UnifiedEdits(hunks)) - AllRemarks(hunks)
    decreases |hunks|
  {
    if hunks != [] {
      ReadsSourceAndRemarks(hunks[0].text);
      var k' := Placed(k, hunks[0]) + Reads(hunks[0].text);
      RemarksLoseLines(k', hunks[1..]);
      assert ToolEdits(k, hunks)[1..] == ToolEdits(k', hunks[1..]);
      assert UnifiedEdits(hunks)[1..] == UnifiedEdits(hunks[1..]);
    }
  }

  /** The output has the source's lines and what the hunks add on balance, short of one line for every
      remark. */
  lemma {:induction false} OutputLength(src: seq<string>, hunks: seq<Hunk>)
    requires ReadBy(0, hunks) <= |src|
    ensures |Patched(src, hunks)| == |src| + Growth(UnifiedEdits(hunks)) - AllRemarks(hunks)
  {
    PatchedIsSplice(src, hunks);
    RemarksLoseLines(0, hunks);
    hide Patched, ToolEdits, UnifiedEdits, Growth, AllRemarks;
    var lines := Padded(Contents(src), ReadBy(0, hunks));
    assert |Contents(Patched(src, hunks))| == |Patched(src, hunks)| && lines == Contents(src);
    SpliceLength(lines, 0, ToolEdits(0, hunks));
  }

  // ----- exactly when, for one source

  /** Every hunk has source lines or follows at once on the lines before. */
  predicate WellPlaced(k: int, hunks: seq<Hunk>)
    decreases |hunks|
  {
    hunks == [] ||
    (var h := hunks[0];
     (SourceSide(h.text) != [] || h.startsrc <= k) && WellPlaced(UnifiedEdit(h).End(), hunks[1..]))
  }

  lemma {:induction false} FaithfulIff(k: int, hunks: seq<Hunk>)
    ensures Faithful(k, hunks) <==> AllRemarks(hunks) == 0 && WellPlaced(k, hunks)
    decreases |hunks|
  {
    if hunks != [] {
      FaithfulIff(UnifiedEdit(hunks[0]).End(), hunks[1..]);
    }
  }

  /** There are no remarks, or each of them is read past the end of a file of n lines. */
  predicate RemarksFit(n: nat, hunks: seq<Hunk>) {
    AllRemarks(hunks) == 0 || ReadBy(0, hunks) == n + AllRemarks(hunks)
  }

  /** After k lines were read, an insertion is written in front of the line that it should follow. */
  predicate Misplaced(k: nat, h: Hunk) {
    SourceSide(h.text) == [] && k < h.startsrc
  }

  /** Insertions in front of the line they should follow repeat that line. */
  predicate Repeats(lines: seq<string>, k: nat, hunks: seq<Hunk>)
    decreases |hunks|
  {
    hunks == [] ||
    (var h := hunks[0];
     (Misplaced(k, h) ==>
        h.startsrc <= |lines| && forall l :: l in TargetSide(h.text) ==> l == lines[h.startsrc - 1])
     && Repeats(lines, Done(k, h), hunks[1..]))
  }

  /** How far the tool's position k is ahead of the position j of the format. */
  function Ahead(k: int, j: int): nat {
    if j < k then k - j else 0
  }

  /** What one hunk does to the two positions. */
  lemma {:induction false} PositionsStep(k: nat, j: nat, h: Hunk, rest: seq<Hunk>, hunks: seq<Hunk>, n: nat)
    requires hunks != [] && hunks[0] == h && hunks[1..] == rest
    requires Ordered(j, UnifiedEdits(hunks), n) && j <= k + 1
    ensures var e, u, r := ToolEdit(k, h), UnifiedEdit(h), Remarks(h.text);
            UnifiedEdits(hunks) == [u] + UnifiedEdits(rest) && ToolEdits(k, hunks) == [e] + ToolEdits(e.End(), rest)
            && e.lines == u.lines == TargetSide(h.text) && k <= e.at && e.End() == Done(k, h) && j <= u.at
            && e.at <= e.End() && u.at <= u.End() <= n && Ordered(u.End(), UnifiedEdits(rest), n)
            && ReadBy(k, hunks) == ReadBy(e.End(), rest) && AllRemarks(hunks) == r + AllRemarks(rest)
            && (Misplaced(k, h) ==> e.at == u.at - 1 && u.at == h.startsrc == u.End() && e.End() == u.at - 1 + r)
            && (!Misplaced(k, h) ==> e.at == (if k < u.at then u.at else k) && e.End() - e.at == u.End() - u.at + r)
  {
    ReadsSourceAndRemarks(h.text);
    OrderedFits(j, UnifiedEdits(hunks), n);
    OrderedFits(UnifiedEdit(h).End(), UnifiedEdits(rest), n);
  }

  lemma {:induction false} ReadsAtMost(k: nat, j: nat, hunks: seq<Hunk>, n: nat)
    requires Ordered(j, UnifiedEdits(hunks), n) && j <= k + 1
    ensures j <= n && ReadBy(k, hunks) <= n + Ahead(k, j) + AllRemarks(hunks)
    decreases |hunks|
  {
    OrderedFits(j, UnifiedEdits(hunks), n);
    if hunks != [] {
      PositionsStep(k, j, hunks[0], hunks[1..], hunks, n);
      hide Ordered, UnifiedEdits, UnifiedEdit, ToolEdit, ToolEdits, ReadBy, AllRemarks, Misplaced, Done;
      ReadsAtMost(ToolEdit(k, hunks[0]).End(), UnifiedEdit(hunks[0]).End(), hunks[1..], n);
    }
  }

  /** The lines as they are, or with as many more as have been read for remarks, all past the end. */
  ghost predicate Extends(p: seq<string>, lines: seq<string>, k: nat, j: nat, hunks: seq<Hunk>) {
    |lines| <= |p| && p[..|lines|] == lines
    && ((|p| == |lines| && AllRemarks(hunks) == 0 && k <= j)
        || |p| == ReadBy(k, hunks) == |lines| + Ahead(k, j) + AllRemarks(hunks))
  }

  /** The positions stay as Extends needs them; a tool ahead of the format finds no line in between,
      and a misplaced insertion has no remark. */
  lemma {:induction false} ExtendsStep(p: seq<string>, lines: seq<string>, k: nat, j: nat, h: Hunk, rest: seq<Hunk>,
                                       hunks: seq<Hunk>)
    requires hunks != [] && hunks[0] == h && hunks[1..] == rest
    requires Ordered(j, UnifiedEdits(hunks), |lines|) && j <= k + 1 && Extends(p, lines, k, j, hunks)
    ensures var e, u := ToolEdit(k, h), UnifiedEdit(h);
            0 <= u.End() <= e.End() + 1 && Extends(p, lines, e.End(), u.End(), rest)
            && (j < k ==> u.at == j && !Misplaced(k, h))
            && (Misplaced(k, h) ==> e.End() == u.at - 1)
  {
    PositionsStep(k, j, h, rest, hunks, |lines|);
    hide Ordered, UnifiedEdits, UnifiedEdit, ToolEdit, ToolEdits, ReadBy, AllRemarks, Misplaced, Done;
    ReadsAtMost(ToolEdit(k, h).End(), UnifiedEdit(h).End(), rest, |lines|);
  }

  /** Starting to copy earlier. */
  lemma {:induction false} SpliceEarlier(lines: seq<string>, m: nat, j: nat, edits: seq<Edit>)
    requires m <= j && Ordered(j, edits, |lines|)
    ensures j <= |lines| && Ordered(m, edits, |lines|)
    ensures Splice(lines, m, edits) == lines[m..j] + Splice(lines, j, edits)
  {
    OrderedFits(j, edits, |lines|);
    if edits == [] {
      assert lines[m..] == lines[m..j] + lines[j..];
    } else {
      var e := edits[0];
      assert lines[m..e.at] == lines[m..j] + lines[j..e.at];
      assert (lines[m..j] + lines[j..e.at]) + e.lines + Splice(lines, e.End(), edits[1..])
          == lines[m..j] + (lines[j..e.at] + e.lines + Splice(lines, e.End(), edits[1..]));
    }
  }

  /** Writing t before x instead of after it. */
  lemma {:induction false} EchoIff(p: seq<string>, x: string, t: seq<string>, a: seq<string>, b: seq<string>)
    ensures p + t + a == p + [x] + t + b <==> (forall l :: l in t ==> l == x) && a == [x] + b
  {
    assert p + t + a == p + (t + a) && p + [x] + t + b == p + ([x] + t + b);
    assert (p + (t + a))[|p|..] == t + a && (p + ([x] + t + b))[|p|..] == [x] + t + b;
    if (forall l :: l in t ==> l == x) && a == [x] + b {
      EchoSame(x, t, b);
      assert t + a == t + [x] + b;
    }
    if t + a == [x] + t + b {
      EchoOnly(x, t, a, b);
    }
  }

  lemma {:induction false} EchoSame(x: string, t: seq<string>, b: seq<string>)
    requires forall l :: l in t ==> l == x
    ensures t + [x] + b == [x] + t + b
  {
    assert forall i :: 0 <= i < |t| ==> t[i] in t;
    assert t + [x] == [x] + t;
  }

  lemma {:induction false} EchoOnly(x: string, t: seq<string>, a: seq<string>, b: seq<string>)
    requires t + a == [x] + t + b
    ensures (forall l :: l in t ==> l == x) && a == [x] + b
  {
    var s := t + a;
    for i := 0 to |t|
      invariant forall m :: 0 <= m < i ==> t[m] == x
    {
      assert s[i] == t[i] && ([x] + t + b)[i] == if i == 0 then x else t[i - 1];
    }
    assert a == s[|t|..] && ([x] + t + b)[|t|..] == [if |t| == 0 then x else t[|t| - 1]] + b;
  }

  lemma {:induction false} SamePrefixIff(p: seq<string>, t: seq<string>, a: seq<string>, b: seq<string>)
    ensures p + t + a == p + t + b <==> a == b
  {
    assert (p + t + a)[|p + t|..] == a && (p + t + b)[|p + t|..] == b;
  }

  /** The tool's splice from its position k, against the format's from its position j. */
  lemma {:induction false} SplicesAgreeIff(p: seq<string>, lines: seq<string>, k: nat, j: nat, hunks: seq<Hunk>)
    requires Ordered(j, UnifiedEdits(hunks), |lines|) && j <= k + 1 && Extends(p, lines, k, j, hunks)
    requires Ordered(k, ToolEdits(k, hunks), |p|)
    ensures var m := if k < j then k else j;
            Ordered(m, UnifiedEdits(hunks), |lines|)
            && (Splice(p, k, ToolEdits(k, hunks)) == Splice(lines, m, UnifiedEdits(hunks))
                <==> Repeats(lines, k, hunks))
    decreases |hunks|
  {
    hide *;
    var m := if k < j then k else j;
    OrderedFits(j, UnifiedEdits(hunks), |lines|);
    if hunks == [] {
      NothingLeft(p, lines, k, j);
    } else {
      var h, rest := hunks[0], hunks[1..];
      var e, u := ToolEdit(k, h), UnifiedEdit(h);
      PositionsStep(k, j, h, rest, hunks, |lines|);
      ExtendsStep(p, lines, k, j, h, rest, hunks);
      assert Repeats(lines, k, hunks)
          <==> (Misplaced(k, h) ==> h.startsrc <= |lines| && forall l :: l in e.lines ==> l == lines[h.startsrc - 1])
               && Repeats(lines, e.End(), rest) by {
        RepeatsStep(lines, k, h, rest, hunks);
      }
      OrderedStep(k, e, ToolEdits(e.End(), rest), |p|);
      SpliceStep(p, k, e, ToolEdits(e.End(), rest));
      SpliceStep(lines, m, u, UnifiedEdits(rest));
      SplicesAgreeIff(p, lines, e.End(), u.End(), rest);
      var a, b := Splice(p, e.End(), ToolEdits(e.End(), rest)), Splice(lines, u.End(), UnifiedEdits(rest));
      ExtendsSame(p, lines, k, j, hunks);
      if Misplaced(k, h) {
        MisplacedOne(p, lines, k, u.at, u.lines, a, b);
        SpliceBack(lines, u.at, UnifiedEdits(rest));
      } else {
        PlacedOne(p, lines, k, m, e.at, u.at, u.lines, a, b);
      }
    }
  }

  lemma {:induction false} SpliceBack(lines: seq<string>, at: nat, edits: seq<Edit>)
    requires 0 < at <= |lines| && Ordered(at, edits, |lines|)
    ensures Ordered(at - 1, edits, |lines|)
    ensures Splice(lines, at - 1, edits) == [lines[at - 1]] + Splice(lines, at, edits)
  {
    SpliceEarlier(lines, at - 1, at, edits);
    assert lines[at - 1..at] == [lines[at - 1]];
  }

  lemma {:induction false} PlacedOne(p: seq<string>, lines: seq<string>, k: nat, m: nat, e: nat, u: nat, t: seq<string>,
                                     a: seq<string>, b: seq<string>)
    requires |lines| <= |p| && p[..|lines|] == lines && m <= u <= |lines|
    requires (k == m && e == u) || (k == e && m == u && k <= |p|)
    ensures k <= e <= |p| && (p[k..e] + t + a == lines[m..u] + t + b <==> a == b)
  {
    SameKept(p, lines, k, m, e, u);
    SamePrefixIff(lines[m..u], t, a, b);
  }

  lemma {:induction false} RepeatsStep(lines: seq<string>, k: nat, h: Hunk, rest: seq<Hunk>, hunks: seq<Hunk>)
    requires hunks != [] && hunks[0] == h && hunks[1..] == rest
    ensures Repeats(lines, k, hunks)
            <==> (Misplaced(k, h) ==>
                    h.startsrc <= |lines| && forall l :: l in ToolEdit(k, h).lines ==> l == lines[h.startsrc - 1])
                 && Repeats(lines, ToolEdit(k, h).End(), rest)
  {
    assert ToolEdit(k, h).End() == Done(k, h);
  }

  lemma {:induction false} NothingLeft(p: seq<string>, lines: seq<string>, k: nat, j: nat)
    requires j <= k + 1 && j <= |lines| && Extends(p, lines, k, j, []) && Ordered(k, ToolEdits(k, []), |p|)
    ensures var m := if k < j then k else j;
            Ordered(m, UnifiedEdits([]), |lines|)
            && Splice(p, k, ToolEdits(k, [])) == Splice(lines, m, UnifiedEdits([])) && Repeats(lines, k, [])
  {
    var m := if k < j then k else j;
    assert Splice(p, k, []) == p[k..] && Splice(lines, m, []) == lines[m..];
    if |p| == |lines| {
      assert p[..|lines|] == p;
    }
  }

  lemma {:induction false} ExtendsSame(p: seq<string>, lines: seq<string>, k: nat, j: nat, hunks: seq<Hunk>)
    requires Extends(p, lines, k, j, hunks)
    ensures |lines| <= |p| && p[..|lines|] == lines
  {
  }

  lemma {:induction false} SameKept(p: seq<string>, lines: seq<string>, k: nat, m: nat, e: nat, u: nat)
    requires |lines| <= |p| && p[..|lines|] == lines && m <= u <= |lines|
    requires (k == m && e == u) || (k == e && m == u && k <= |p|)
    ensures k <= e <= |p| && p[k..e] == lines[m..u]
  {
    if k == m && e == u {
      PrefixPart(p, |lines|, k, e);
    }
  }

  lemma {:induction false} PrefixPart(p: seq<string>, n: nat, i: nat, j: nat)
    requires i <= j <= n <= |p|
    ensures p[i..j] == p[..n][i..j]
  {
  }

  lemma {:induction false} MisplacedOne(p: seq<string>, lines: seq<string>, k: nat, at: nat, t: seq<string>,
                                        a: seq<string>, b: seq<string>)
    requires |lines| <= |p| && p[..|lines|] == lines && k < at <= |lines|
    ensures p[k..at - 1] + t + a == lines[k..at] + t + b
            <==> (forall l :: l in t ==> l == lines[at - 1]) && a == [lines[at - 1]] + b
  {
    PrefixPart(p, |lines|, k, at - 1);
    assert lines[k..at] == lines[k..at - 1] + [lines[at - 1]];
    EchoIff(lines[k..at - 1], lines[at - 1], t, a, b);
  }

  /** The patch suits these lines: its remarks fit, and misplaced insertions repeat a line. */
  predicate Suits(lines: seq<string>, hunks: seq<Hunk>) {
    RemarksFit(|lines|, hunks) && Repeats(lines, 0, hunks)
  }

  /** For one source and one patch, the tool's output says what the format prescribes exactly if
      there are no remarks or all of them are read past the end of the file, and every insertion
      that is written in front of the line it should follow repeats that line. */
  lemma {:induction false} CorrectIff(src: seq<string>, hunks: seq<Hunk>)
    requires IsPatch(0, hunks, |src|)
    ensures Contents(Patched(src, hunks)) == Unified(src, hunks)
            <==> Suits(Contents(src), hunks)
  {
    var lines := Contents(src);
    var p := Padded(lines, ReadBy(0, hunks));
    PatchedIsSplice(src, hunks);
    RemarksLoseLines(0, hunks);
    hide ToolEdits, UnifiedEdits, Ordered, Splice, Repeats, Patched, AllRemarks, ReadBy, Growth, IsPatch;
    assert Ordered(0, UnifiedEdits(hunks), |src|) by { PatchIsOrdered(0, hunks, |src|); }
    ReadsAtMost(0, 0, hunks, |src|);
    SpliceLength(p, 0, ToolEdits(0, hunks));
    SpliceLength(lines, 0, UnifiedEdits(hunks));
    if RemarksFit(|src|, hunks) {
      assert p[..|lines|] == lines;
      SplicesAgreeIff(p, lines, 0, 0, hunks);
    }
  }

  lemma {:induction false} PatchIsOrdered(from: nat, hunks: seq<Hunk>, len: int)
    requires IsPatch(from, hunks, len)
    ensures Ordered(from, UnifiedEdits(hunks), len)
  {
  }

  lemma {:induction false} WellPlacedRepeats(lines: seq<string>, k: nat, j: nat, hunks: seq<Hunk>)
    requires Ordered(j, UnifiedEdits(hunks), |lines|) && j <= k && WellPlaced(j, hunks)
    ensures Repeats(lines, k, hunks)
    decreases |hunks|
  {
    if hunks != [] {
      PositionsStep(k, j, hunks[0], hunks[1..], hunks, |lines|);
      assert !Misplaced(k, hunks[0]);
      hide Ordered, UnifiedEdits, ToolEdit, Misplaced;
      WellPlacedRepeats(lines, ToolEdit(k, hunks[0]).End(), UnifiedEdit(hunks[0]).End(), hunks[1..]);
    }
  }

  /** When every hunk has source lines or follows at once: exactly if the remarks fit. */
  lemma {:induction false} WellPlacedIff(src: seq<string>, hunks: seq<Hunk>)
    requires IsPatch(0, hunks, |src|) && WellPlaced(0, hunks)
    ensures Contents(Patched(src, hunks)) == Unified(src, hunks) <==> RemarksFit(|src|, hunks)
    ensures Suits(Contents(src), hunks) <==> RemarksFit(|src|, hunks)
    ensures ReadBy(0, hunks) <= |src| + AllRemarks(hunks)
  {
    CorrectIff(src, hunks);
    WellPlacedRepeats(Contents(src), 0, 0, hunks);
    ReadsAtMost(0, 0, hunks, |src|);
  }

  /** `@@ -1 +1 @@` with the lines -a, \ No newline, +b and \ No newline. */
  function EndHunk(): Hunk {
    Hunk(1, 1, 1, 1, [BodyLine(Removed, "a"), BodyLine(Remark, ""), BodyLine(Added, "b"), BodyLine(Remark, "")])
  }

  lemma {:induction false} EndHunkSides()
    ensures var text := EndHunk().text;
            SourceSide(text) == ["a"] && TargetSide(text) == ["b"] && Remarks(text) == 2 && Reads(text) == 3
  {
    var a, b, r := BodyLine(Removed, "a"), BodyLine(Added, "b"), BodyLine(Remark, "");
    StripEolUnique("a", "a");
    StripEolUnique("b", "b");
    hide StripEol, SourceSide, TargetSide, Remarks, Reads;
    NoSides();
    SidesStep(r, []);
    SidesStep(b, [r]);
    SidesStep(r, [b, r]);
    SidesStep(a, [r, b, r]);
    assert [r] + [] == [r] && [b] + [r] == [b, r] && [r] + [b, r] == [r, b, r] && [a] + [r, b, r] == [a, r, b, r];
    ReadsSourceAndRemarks([a, r, b, r]);
  }

  /** Remarks at the end of the file are harmless: there is no line left that they could consume. */
  lemma {:induction false} RemarksAtEnd()
    ensures !Faithful(0, [EndHunk()]) && IsPatch(0, [EndHunk()], 1)
    ensures Contents(Patched(["a"], [EndHunk()])) == ["b"]
  {
    var h, src := EndHunk(), ["a"];
    EndHunkSides();
    hide SourceSide, TargetSide, Remarks, Reads, StripEol;
    var u := UnifiedEdit(h);
    assert [h][1..] == [] && UnifiedEdits([h]) == [u] && [u][1..] == [];
    assert AllRemarks([h]) == 2 && ReadBy(0, [h]) == 3;
    assert WellPlaced(0, [h]);
    WellPlacedIff(src, [h]);
    hide Patched;
    var lines := Contents(src);
    assert Splice(lines, 0, [u]) == lines[0..0] + ["b"] + Splice(lines, 1, []);
  }

  function Max(a: nat, b: nat): nat {
    if a < b then b else a
  }

  function Longest(lines: seq<string>): (n: nat)
    ensures forall l :: l in lines ==> |l| <= n
  {
    if lines == [] then 0 else Max(|lines[0]|, Longest(lines[1..]))
  }

  function LongestTarget(hunks: seq<Hunk>): (n: nat)
    ensures forall h, l :: h in hunks && l in TargetSide(h.text) ==> |l| <= n
  {
    if hunks == [] then 0 else Max(Longest(TargetSide(hunks[0].text)), LongestTarget(hunks[1..]))
  }

  lemma {:induction false} OrderedWidens(from: nat, edits: seq<Edit>, len: int, len': int)
    requires Ordered(from, edits, len) && len <= len'
    ensures Ordered(from, edits, len')
    decreases |edits|
  {
    if edits != [] {
      OrderedWidens(edits[0].End(), edits[1..], len, len');
    }
  }

  /** A source on which an unfaithful patch comes out wrong. */
  lemma {:induction false} UnfaithfulWitness(hunks: seq<Hunk>, len: nat) returns (src: seq<string>)
    requires IsPatch(0, hunks, len) && !Faithful(0, hunks)
    ensures IsPatch(0, hunks, |src|)
    ensures Contents(Patched(src, hunks)) != Unified(src, hunks)
  {
    var z := seq(LongestTarget(hunks) + 1, _ => 'z');
    var n := Max(len, ReadBy(0, hunks));
    src := seq(n, _ => z);
    OrderedWidens(0, UnifiedEdits(hunks), len, n);
    CorrectIff(src, hunks);
    FaithfulIff(0, hunks);
    if AllRemarks(hunks) == 0 {
      StripEolUnique(z, z);
      MisplacedShows(0, 0, hunks, Contents(src), z);
    }
  }

  /** A misplaced insertion shows in any source whose lines all say something new. */
  lemma {:induction false} MisplacedShows(k: nat, j: nat, hunks: seq<Hunk>, lines: seq<string>, z: string)
    requires IsPatch(j, hunks, |lines|) && k <= j <= k + 1 && !WellPlaced(j, hunks) && AllRemarks(hunks) == 0
    requires forall i :: 0 <= i < |lines| ==> lines[i] == z
    requires forall h :: h in hunks ==> z !in TargetSide(h.text)
    ensures !Repeats(lines, k, hunks)
    decreases |hunks|
  {
    var h, rest := hunks[0], hunks[1..];
    assert hunks == [h] + rest;
    PositionsStep(k, j, h, rest, hunks, |lines|);
    if Misplaced(k, h) {
      assert TargetSide(h.text)[0] in TargetSide(h.text);
    } else {
      hide UnifiedEdits, Ordered, SourceSide, TargetSide;
      MisplacedShows(ToolEdit(k, h).End(), UnifiedEdit(h).End(), rest, lines, z);
    }
  }

  /** patch_stream gives what the unified format prescribes, for every source the patch fits,
      exactly if the patch is faithful. */
  lemma {:induction false} CorrectIffFaithful(hunks: seq<Hunk>, len: nat)
    requires IsPatch(0, hunks, len)
    ensures Faithful(0, hunks) <==>
            forall src: seq<string> :: IsPatch(0, hunks, |src|) ==> Contents(Patched(src, hunks)) == Unified(src, hunks)
  {
    if Faithful(0, hunks) {
      forall src: seq<string> | IsPatch(0, hunks, |src|)
        ensures Contents(Patched(src, hunks)) == Unified(src, hunks)
      {
        FaithfulIsUnified(src, hunks);
      }
    } else {
      var src := UnfaithfulWitness(hunks, len);
    }
  }

  // ----- where everything ends up

  /** Lines that hunks 0..k-1 add on balance. */
  function ShiftBefore(hunks: seq<Hunk>, k: nat): int
    requires k <= |hunks|
  {
    Growth(UnifiedEdits(hunks)[..k])
  }

  lemma {:induction false} UnifiedEditAt(hunks: seq<Hunk>, k: nat)
    requires k < |hunks|
    ensures UnifiedEdits(hunks)[k] == UnifiedEdit(hunks[k])
  {
    if k > 0 {
      UnifiedEditAt(hunks[1..], k - 1);
    }
  }

  /** Hunk k's target side begins at its block's position plus what earlier hunks added, and the
      file grows by what all of them add. */
  lemma {:induction false} HunkLandsShifted(src: seq<string>, hunks: seq<Hunk>, k: nat)
    requires IsPatch(0, hunks, |src|) && Suits(Contents(src), hunks) && k < |hunks|
    ensures var out, t := Contents(Patched(src, hunks)), TargetSide(hunks[k].text);
            var p := UnifiedEdit(hunks[k]).at + ShiftBefore(hunks, k);
            0 <= p && p + |t| <= |out| && out[p..p + |t|] == t
            && |out| == |src| + ShiftBefore(hunks, |hunks|)
  {
    assert UnifiedEdit(hunks[k]).lines == TargetSide(hunks[k].text);
    hide Suits, TargetSide, UnifiedEdits, UnifiedEdit, Splice, Ordered, Patched, Growth;
    UnifiedEditAt(hunks, k);
    CorrectIff(src, hunks);
    SpliceHoldsNew(Contents(src), 0, UnifiedEdits(hunks), k);
    SpliceLength(Contents(src), 0, UnifiedEdits(hunks));
    assert UnifiedEdits(hunks)[..|hunks|] == UnifiedEdits(hunks);
  }

  /** The edits as written, terminators included. */
  function RawEdits(src: seq<string>, k: nat, hunks: seq<Hunk>): (edits: seq<Edit>)
    ensures |edits| == |hunks|
    decreases |hunks|
  {
    if hunks == [] then []
    else [RawEdit(src, k, hunks[0])] + RawEdits(src, Done(k, hunks[0]), hunks[1..])
  }

  function RawEdit(src: seq<string>, k: nat, h: Hunk): Edit {
    Edit(Placed(k, h), Reads(h.text), BodyOut(src, Placed(k, h), h.text))
  }

  lemma {:induction false} PatchedFromIsRawSplice(src: seq<string>, k: nat, hunks: seq<Hunk>)
    requires ReadBy(k, hunks) <= |src|
    ensures Ordered(k, RawEdits(src, k, hunks), |src|)
    ensures PatchedFrom(src, k, hunks) == Splice(src, k, RawEdits(src, k, hunks))
    decreases |hunks|
  {
    if hunks != [] {
      hide *;
      var h, rest, k' := hunks[0], hunks[1..], Done(k, hunks[0]);
      RawEditsStep(src, k, h, rest, hunks);
      ToolEditsStep(k, h, rest, hunks);
      PatchedFromStep(src, k, h, rest, hunks);
      PatchedFromIsRawSplice(src, k', rest);
      CopiedRaw(src, k, Placed(k, h));
      SpliceStep(src, k, RawEdit(src, k, h), RawEdits(src, k', rest));
    }
  }

  lemma {:induction false} RawEditsStep(src: seq<string>, k: nat, h: Hunk, rest: seq<Hunk>, hunks: seq<Hunk>)
    requires hunks != [] && hunks[0] == h && hunks[1..] == rest
    ensures RawEdits(src, k, hunks) == [RawEdit(src, k, h)] + RawEdits(src, Done(k, h), rest)
    ensures var e := RawEdit(src, k, h);
            k <= e.at == Placed(k, h) <= e.End() == Done(k, h) <= ReadBy(k, hunks)
            && Copied(src, k, Placed(k, h)) + e.lines == HunkOut(src, k, h)
  {
  }

  lemma {:induction false} CopiedRaw(src: seq<string>, k: nat, p: nat)
    requires k <= p <= |src|
    ensures Copied(src, k, p) == src[k..p]
  {
    if k < p {
      CopiedRaw(src, k, p - 1);
      assert src[k..p] == src[k..p - 1] + [src[p - 1]];
    }
  }

  /** A line between two hunks comes out byte for byte, moved by what the hunks before it add. */
  lemma {:induction false} KeptVerbatim(src: seq<string>, hunks: seq<Hunk>, k: nat, x: nat)
    requires ReadBy(0, hunks) <= |src| && k <= |hunks| && x < |src|
    requires ReadBy(0, hunks[..k]) <= x && (k < |hunks| ==> x + 1 < hunks[k].startsrc)
    ensures var out, y := Patched(src, hunks), x + Growth(ToolEdits(0, hunks[..k]));
            0 <= y < |out| && out[y] == src[x]
  {
    PatchedFromIsRawSplice(src, 0, hunks);
    RawEditsPrefix(src, 0, hunks, k);
    if k < |hunks| {
      RawEditAt(src, 0, hunks, k);
    }
    SpliceKeepsOld(src, 0, RawEdits(src, 0, hunks), k, x);
  }

  lemma {:induction false} GrowthStep(e: Edit, rest: seq<Edit>)
    ensures Growth([e] + rest) == e.Growth() + Growth(rest)
  {
    assert ([e] + rest)[1..] == rest;
  }

  lemma {:induction false} RawEditAt(src: seq<string>, j: nat, hunks: seq<Hunk>, k: nat)
    requires k < |hunks|
    ensures RawEdits(src, j, hunks)[k] == RawEdit(src, ReadBy(j, hunks[..k]), hunks[k])
    decreases |hunks|
  {
    if k > 0 {
      assert hunks[..k][0] == hunks[0] && hunks[..k][1..] == hunks[1..][..k - 1];
      RawEditAt(src, Done(j, hunks[0]), hunks[1..], k - 1);
    }
  }

  /** The first k raw edits gain as many lines as the first k hunks, and read as many. */
  lemma {:induction false} RawEditsPrefix(src: seq<string>, j: nat, hunks: seq<Hunk>, k: nat)
    requires k <= |hunks|
    ensures Growth(RawEdits(src, j, hunks)[..k]) == Growth(ToolEdits(j, hunks[..k]))
    ensures (if k == 0 then j else RawEdits(src, j, hunks)[k - 1].End()) == ReadBy(j, hunks[..k])
    decreases |hunks|
  {
    if k > 0 {
      hide *;
      var h, rest, j' := hunks[0], hunks[1..], Done(j, hunks[0]);
      RawEditsPrefix(src, j', rest, k - 1);
      SameGrowth(src, j, h);
      RawEditsStep(src, j, h, rest, hunks);
      assert hunks[..k][0] == h && hunks[..k][1..] == rest[..k - 1];
      ToolEditsStep(j, h, rest[..k - 1], hunks[..k]);
      assert RawEdits(src, j, hunks)[..k] == [RawEdit(src, j, h)] + RawEdits(src, j', rest)[..k - 1];
      GrowthStep(RawEdit(src, j, h), RawEdits(src, j', rest)[..k - 1]);
      GrowthStep(ToolEdit(j, h), ToolEdits(j', rest[..k - 1]));
    }
  }

  lemma {:induction false} SameGrowth(src: seq<string>, k: nat, h: Hunk)
    ensures RawEdit(src, k, h).Growth() == ToolEdit(k, h).Growth()
  {
    BodyOutSays(src, Placed(k, h), h.text);
  }

  // ----- undoing a patch with the reversed patch

  /** Every source side, last lines included, stands in the source at its place. */
  predicate SourceMatches(lines: seq<string>, hunks: seq<Hunk>)
    requires IsPatch(0, hunks, |lines|)
  {
    SourceMatchesFrom(lines, 0, hunks)
  }

  predicate SourceMatchesFrom(lines: seq<string>, from: nat, hunks: seq<Hunk>)
    requires Ordered(from, UnifiedEdits(hunks), |lines|)
    decreases |hunks|
  {
    OrderedFits(from, UnifiedEdits(hunks), |lines|);
    hunks == [] ||
    (var e := UnifiedEdit(hunks[0]);
     assert UnifiedEdits(hunks)[1..] == UnifiedEdits(hunks[1..]);
     lines[e.at..e.End()] == SourceSide(hunks[0].text)
     && SourceMatchesFrom(lines, e.End(), hunks[1..]))
  }

  /** The target line numbers account for the lines added before. */
  predicate TargetNumbered(shift: int, hunks: seq<Hunk>)
    decreases |hunks|
  {
    hunks == [] ||
    (var e := UnifiedEdit(hunks[0]);
     UnifiedStart(hunks[0].starttgt, TargetSide(hunks[0].text)) == e.at + shift
     && TargetNumbered(shift + e.Growth(), hunks[1..]))
  }

  /** The reversed patch consists of the inverse edits exactly if the source sides match and the
      target numbers are right. */
  lemma {:induction false} ReversedIsInverse(lines: seq<string>, from: nat, hunks: seq<Hunk>, shift: int)
    requires Ordered(from, UnifiedEdits(hunks), |lines|)
    ensures UnifiedEdits(ReversedAll(hunks)) == Inverse(lines, from, UnifiedEdits(hunks), shift)
            <==> SourceMatchesFrom(lines, from, hunks) && TargetNumbered(shift, hunks)
    decreases |hunks|
  {
    OrderedFits(from, UnifiedEdits(hunks), |lines|);
    if hunks != [] {
      var h, e := hunks[0], UnifiedEdit(hunks[0]);
      FlipSwapsSides(h.text);
      assert UnifiedEdits(hunks)[1..] == UnifiedEdits(hunks[1..]);
      ReversedIsInverse(lines, e.End(), hunks[1..], shift + e.Growth());
      var r, i := UnifiedEdits(ReversedAll(hunks)), Inverse(lines, from, UnifiedEdits(hunks), shift);
      assert ReversedAll(hunks)[1..] == ReversedAll(hunks[1..]);
      assert r == [UnifiedEdit(Reversed(h))] + UnifiedEdits(ReversedAll(hunks[1..]));
      assert i == [Edit(e.at + shift, |e.lines|, lines[e.at..e.End()])]
                  + Inverse(lines, e.End(), UnifiedEdits(hunks[1..]), shift + e.Growth());
      assert r == i <==> r[0] == i[0] && r[1..] == i[1..];
    }
  }

  lemma {:induction false} ReversedSidesNonEmpty(hunks: seq<Hunk>)
    requires forall h :: h in hunks ==> SourceSide(h.text) != [] || TargetSide(h.text) != []
    ensures forall h :: h in ReversedAll(hunks) ==> SourceSide(h.text) != [] || TargetSide(h.text) != []
  {
    if hunks != [] {
      FlipSwapsSides(hunks[0].text);
      ReversedSidesNonEmpty(hunks[1..]);
    }
  }

  /** In the format's own reading the reversed patch restores the lines, whatever the hunks. */
  lemma {:induction false} UnifiedReversalRestores(lines: seq<string>, hunks: seq<Hunk>)
    requires Ordered(0, UnifiedEdits(hunks), |lines|)
    requires SourceMatchesFrom(lines, 0, hunks) && TargetNumbered(0, hunks)
    ensures var out, back := Splice(lines, 0, UnifiedEdits(hunks)), UnifiedEdits(ReversedAll(hunks));
            Ordered(0, back, |out|) && Splice(out, 0, back) == lines
  {
    ReversedIsInverse(lines, 0, hunks, 0);
    InverseUndoes(lines, 0, UnifiedEdits(hunks), []);
    assert [] + Splice(lines, 0, UnifiedEdits(hunks)) == Splice(lines, 0, UnifiedEdits(hunks));
    assert lines[0..] == lines;
  }

  /** Applying a patch and then the reversed patch restores what the source says. */
  lemma {:induction false} ReversalRestores(src: seq<string>, hunks: seq<Hunk>)
    requires IsPatch(0, hunks, |src|) && SourceMatches(Contents(src), hunks) && TargetNumbered(0, hunks)
    requires Suits(Contents(src), hunks)
    ensures Contents(Patched(Patched(src, hunks), ReversedAll(hunks))) == Contents(src)
            <==> Suits(Unified(src, hunks), ReversedAll(hunks))
  {
    hide Suits, Patched, Splice, Ordered, UnifiedEdits, TargetNumbered, SourceMatchesFrom;
    var out, back := Patched(src, hunks), ReversedAll(hunks);
    CorrectIff(src, hunks);
    UnifiedReversalRestores(Contents(src), hunks);
    ReversedSidesNonEmpty(hunks);
    CorrectIff(out, back);
  }

  lemma {:induction false} FaithfulSuits(lines: seq<string>, hunks: seq<Hunk>)
    requires Ordered(0, UnifiedEdits(hunks), |lines|) && Faithful(0, hunks)
    ensures Suits(lines, hunks)
  {
    FaithfulIff(0, hunks);
    WellPlacedRepeats(lines, 0, 0, hunks);
  }

  /** With lines on both sides of every hunk and no remarks, both directions are faithful. */
  lemma {:induction false} TwoSidedIsFaithful(k: int, k': int, hunks: seq<Hunk>)
    requires forall h :: h in hunks ==>
      SourceSide(h.text) != [] && TargetSide(h.text) != [] && Remarks(h.text) == 0
    ensures Faithful(k, hunks) && Faithful(k', ReversedAll(hunks))
    decreases |hunks|
  {
    if hunks != [] {
      FlipSwapsSides(hunks[0].text);
      assert ReversedAll(hunks)[1..] == ReversedAll(hunks[1..]);
      TwoSidedIsFaithful(UnifiedEdit(hunks[0]).End(), UnifiedEdit(Reversed(hunks[0])).End(), hunks[1..]);
    }
  }

  /** In particular for hunks with lines on both sides and without remarks. */
  lemma {:induction false} TwoSidedReversalRestores(src: seq<string>, hunks: seq<Hunk>)
    requires Ordered(0, UnifiedEdits(hunks), |src|) && TargetNumbered(0, hunks)
    requires SourceMatchesFrom(Contents(src), 0, hunks)
    requires forall h :: h in hunks ==>
      SourceSide(h.text) != [] && TargetSide(h.text) != [] && Remarks(h.text) == 0
    ensures Contents(Patched(Patched(src, hunks), ReversedAll(hunks))) == Contents(src)
  {
    TwoSidedIsFaithful(0, 0, hunks);
    FaithfulSuits(Contents(src), hunks);
    UnifiedReversalRestores(Contents(src), hunks);
    FaithfulSuits(Unified(src, hunks), ReversedAll(hunks));
    ReversalRestores(src, hunks);
  }

  // ----- one pass or many

  /** No hunk starts before the lines already read. */
  predicate InOrder(k: nat, hunks: seq<Hunk>)
    decreases |hunks|
  {
    hunks == [] ||
    (k < hunks[0].startsrc && InOrder(Done(k, hunks[0]), hunks[1..]))
  }

  /** One pass for each hunk, the last hunk first. */
  function PatchedSingly(src: seq<string>, hunks: seq<Hunk>): seq<string>
    decreases |hunks|
  {
    if hunks == [] then src
    else PatchedSingly(Patched(src, hunks[|hunks| - 1..]), hunks[..|hunks| - 1])
  }

  lemma {:induction false} InOrderLast(k: nat, hunks: seq<Hunk>)
    requires InOrder(k, hunks) && hunks != []
    ensures var init, last := hunks[..|hunks| - 1], hunks[|hunks| - 1..];
            InOrder(k, init) && InOrder(0, last)
            && ToolEdits(k, hunks) == ToolEdits(k, init) + ToolEdits(0, last)
            && ReadBy(k, hunks) == ReadBy(0, last) && ReadBy(k, init) <= ReadBy(k, hunks)
    decreases |hunks|
  {
    var init, last := hunks[..|hunks| - 1], hunks[|hunks| - 1..];
    var h, rest, k' := hunks[0], hunks[1..], Done(k, hunks[0]);
    if |hunks| == 1 {
      assert init == [] && last == hunks && rest == [];
      assert Placed(k, h) == Placed(0, h);
    } else {
      InOrderLast(k', rest);
      hide ToolEdits, ReadBy, Done;
      var init' := rest[..|rest| - 1];
      assert init[0] == h && init[1..] == init' && last == rest[|rest| - 1..];
      ToolEditsStep(k, h, rest, hunks);
      ToolEditsStep(k, h, init', init);
      SeqAssoc([ToolEdit(k, h)], ToolEdits(k', init'), ToolEdits(0, last));
    }
  }

  /** One pass over an ordered patch says the same as applying its hunks singly, last first. */
  lemma {:induction false} OnePassIsMany(src: seq<string>, hunks: seq<Hunk>)
    requires InOrder(0, hunks) && ReadBy(0, hunks) <= |src|
    ensures Contents(Patched(src, hunks)) == Contents(PatchedSingly(src, hunks))
    decreases |hunks|
  {
    if hunks != [] {
      var init, last := hunks[..|hunks| - 1], hunks[|hunks| - 1..];
      InOrderLast(0, hunks);
      PatchedIsSplice(src, hunks);
      PatchedIsSplice(src, last);
      var e := ToolEdit(0, last[0]);
      assert ToolEdits(0, last) == [e] by { ToolEditsStep(0, last[0], [], last); }
      SpliceLast(Contents(src), 0, ToolEdits(0, init), e);
      var src' := Patched(src, last);
      ReadByIsLastEnd(0, init);
      OrderedLastEnd(0, ToolEdits(0, init), |src'|);
      PatchedIsSplice(src', init);
      OnePassIsMany(src', init);
    } else {
      assert Patched(src, []) == src;
    }
  }

  lemma {:induction false} ReadByIsLastEnd(k: nat, hunks: seq<Hunk>)
    ensures |ToolEdits(k, hunks)| == |hunks|
    ensures ReadBy(k, hunks) == if hunks == [] then k else ToolEdits(k, hunks)[|hunks| - 1].End()
    decreases |hunks|
  {
    if hunks != [] {
      var k' := Placed(k, hunks[0]) + Reads(hunks[0].text);
      ReadByIsLastEnd(k', hunks[1..]);
      assert ToolEdits(k, hunks)[1..] == ToolEdits(k', hunks[1..]);
    }
  }

  lemma {:induction false} OrderedLastEnd(from: nat, edits: seq<Edit>, len: int)
    requires Ordered(from, edits, len)
    ensures (if edits == [] then from else edits[|edits| - 1].End()) <= len
    decreases |edits|
  {
    if edits != [] {
      OrderedLastEnd(edits[0].End(), edits[1..], len);
    }
  }

  // ----- line ends

  /** Every line carries the terminator e. */
  predicate AllEnd(lines: seq<string>, e: LineEnd) {
    forall l :: l in lines ==> EndOf(l) == e
  }

  /** Body lines written before any source line has been read. */
  function LeadingAdds(text: seq<BodyLine>): seq<string> {
    if text == [] || !text[0].tag.Added? then [] else [text[0].rest] + LeadingAdds(text[1..])
  }

  function WrittenUnread(hunks: seq<Hunk>): seq<string> {
    if hunks == [] || Placed(0, hunks[0]) > 0 then []
    else LeadingAdds(hunks[0].text) + (if Reads(hunks[0].text) > 0 then [] else WrittenUnread(hunks[1..]))
  }

  lemma {:induction false} TallyUniform(src: seq<string>, k: nat, e: LineEnd)
    requires AllEnd(src, e) && e != NoEnd && k <= |src|
    ensures Tally(src, k).Sole() == if k == 0 then None else Some(e)
    ensures match e
            case Lf => Tally(src, k) == LineEnds(k, 0, 0)
            case CrLf => Tally(src, k) == LineEnds(0, k, 0)
            case Cr => Tally(src, k) == LineEnds(0, 0, k)
  {
    if k > 0 {
      TallyUniform(src, k - 1, e);
      assert src[k - 1] in src;
    }
  }

  lemma {:induction false} EndsAnew(s: string, e: LineEnd)
    ensures EndOf(StripEol(s) + Terminator(e)) == e
  {
    StripEolEnds(s);
  }

  lemma {:induction false} BodyKeepsEnds(src: seq<string>, k: nat, text: seq<BodyLine>, e: LineEnd)
    requires AllEnd(src, e) && e != NoEnd && k + Reads(text) <= |src|
    ensures AllEnd(BodyOut(src, k, text), e) <==> (k > 0 || AllEnd(LeadingAdds(text), e))
    decreases |text|
  {
    if text != [] {
      var k' := if text[0].tag.Added? then k else k + 1;
      BodyKeepsEnds(src, k', text[1..], e);
      TallyUniform(src, k', e);
      EndsAnew(text[0].rest, e);
      var line := if OnTarget(text[0]) then [Written(src, k', text[0])] else [];
      assert BodyOut(src, k, text) == line + BodyOut(src, k', text[1..]);
    }
  }

  lemma {:induction false} PatchedFromKeepsEnds(src: seq<string>, k: nat, hunks: seq<Hunk>, e: LineEnd)
    requires AllEnd(src, e) && e != NoEnd && ReadBy(k, hunks) <= |src|
    ensures AllEnd(PatchedFrom(src, k, hunks), e) <==> (k > 0 || AllEnd(WrittenUnread(hunks), e))
    decreases |hunks|
  {
    if hunks != [] {
      var h, p := hunks[0], Placed(k, hunks[0]);
      var k' := p + Reads(h.text);
      PatchedFromKeepsEnds(src, k', hunks[1..], e);
      BodyKeepsEnds(src, p, h.text, e);
      CopiedRaw(src, k, p);
      var copied, body, rest := Copied(src, k, p), BodyOut(src, p, h.text), PatchedFrom(src, k', hunks[1..]);
      assert PatchedFrom(src, k, hunks) == copied + body + rest;
    }
  }

  /** A source with one kind of line end keeps it whatever the patch uses, if and only if the
      lines written before anything was read have it too. */
  lemma {:induction false} LineEndsKept(src: seq<string>, hunks: seq<Hunk>, e: LineEnd)
    requires AllEnd(src, e) && e != NoEnd && ReadBy(0, hunks) <= |src|
    ensures AllEnd(Patched(src, hunks), e) <==> AllEnd(WrittenUnread(hunks), e)
  {
    PatchedFromKeepsEnds(src, 0, hunks, e);
  }
}
