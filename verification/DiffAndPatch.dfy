/** From a difference between two files to the patched file and back: numbering the hunks, writing
    them as a unified diff, parsing, validating and patching taken together. */
module DiffAndPatch {
  import opened Text
  import opened Hunks
  import opened Splicing
  import opened PatchStream
  import opened PatchMeaning
  import opened Validation
  import opened CheckPatched
  import opened ParseStream
  import opened RoundTrip

  /** Lines that both files have, then the body of a hunk. */
  datatype Change = Change(kept: seq<string>, text: seq<BodyLine>)

  /** The old file: what the changes keep and remove, then the common rest. */
  function Old(changes: seq<Change>, rest: seq<string>): seq<string> {
    if changes == [] then rest
    else changes[0].kept + SourceSide(changes[0].text) + Old(changes[1..], rest)
  }

  function New(changes: seq<Change>, rest: seq<string>): seq<string> {
    if changes == [] then rest
    else changes[0].kept + TargetSide(changes[0].text) + New(changes[1..], rest)
  }

  /** The line number of a side that begins after pos lines. */
  function Number(pos: nat, side: seq<string>): nat {
    if side == [] then pos else pos + 1
  }

  function HunkAt(c: Change, o: nat, n: nat): Hunk {
    var s, t := SourceSide(c.text), TargetSide(c.text);
    Hunk(Number(o + |c.kept|, s), |s|, Number(n + |c.kept|, t), |t|, c.text)
  }

  /** The hunks of the difference, after o lines of the old file and n lines of the new one. */
  function Diff(changes: seq<Change>, o: nat, n: nat): (hunks: seq<Hunk>)
    ensures |hunks| == |changes|
  {
    if changes == [] then []
    else
      var c := changes[0];
      [HunkAt(c, o, n)]
        + Diff(changes[1..], o + |c.kept| + |SourceSide(c.text)|, n + |c.kept| + |TargetSide(c.text)|)
  }

  lemma {:induction false} DiffStep(c: Change, rest: seq<Change>, changes: seq<Change>, o: nat, n: nat)
    requires changes != [] && changes[0] == c && changes[1..] == rest
    ensures var h, e := HunkAt(c, o, n), UnifiedEdit(HunkAt(c, o, n));
            var hunks := Diff(changes, o, n);
            hunks == [h] + Diff(rest, e.End(), n + |c.kept| + |TargetSide(c.text)|)
            && UnifiedEdits(hunks) == [e] + UnifiedEdits(hunks[1..])
            && e == Edit(o + |c.kept|, |SourceSide(c.text)|, TargetSide(c.text))
            && UnifiedStart(h.starttgt, TargetSide(h.text)) == n + |c.kept|
  {
  }

  lemma {:induction false} MatchesStep(lines: seq<string>, from: nat, h: Hunk, rest: seq<Hunk>)
    requires var e := UnifiedEdit(h);
             from <= e.at && Ordered(e.End(), UnifiedEdits(rest), |lines|) && e.End() <= |lines|
             && lines[e.at..e.End()] == SourceSide(h.text) && SourceMatchesFrom(lines, e.End(), rest)
    ensures Ordered(from, UnifiedEdits([h] + rest), |lines|) && SourceMatchesFrom(lines, from, [h] + rest)
  {
    assert ([h] + rest)[1..] == rest && UnifiedEdits([h] + rest)[1..] == UnifiedEdits(rest);
  }

  lemma {:induction false} NumberedCons(shift: int, h: Hunk, rest: seq<Hunk>)
    requires UnifiedStart(h.starttgt, TargetSide(h.text)) == UnifiedEdit(h).at + shift
    requires TargetNumbered(shift + UnifiedEdit(h).Growth(), rest)
    ensures TargetNumbered(shift, [h] + rest)
  {
    assert ([h] + rest)[1..] == rest;
  }

  /** The hunks fit the lines, are numbered right on both sides, and their edits make `new'` of what
      follows a; b is what the new file has before. */
  ghost predicate Fit(lines: seq<string>, a: seq<string>, b: seq<string>, hunks: seq<Hunk>, new': seq<string>) {
    Ordered(|a|, UnifiedEdits(hunks), |lines|) && Splice(lines, |a|, UnifiedEdits(hunks)) == new'
    && SourceMatchesFrom(lines, |a|, hunks) && TargetNumbered(|b| - |a|, hunks)
  }

  lemma {:induction false} FitStep(a: seq<string>, b: seq<string>, kept: seq<string>, s: seq<string>, t: seq<string>,
                                   old': seq<string>, new': seq<string>, h: Hunk, more: seq<Hunk>)
    requires UnifiedEdit(h) == Edit(|a| + |kept|, |s|, t) && SourceSide(h.text) == s && TargetSide(h.text) == t
    requires UnifiedStart(h.starttgt, t) == |b| + |kept|
    requires Fit(a + kept + s + old', a + kept + s, b + kept + t, more, new')
    ensures Fit(a + kept + s + old', a, b, [h] + more, kept + t + new')
  {
    hide Ordered, Splice, SourceMatchesFrom, TargetNumbered, UnifiedEdits, UnifiedEdit, UnifiedStart, SourceSide;
    hide TargetSide;
    var lines, e := a + kept + s + old', UnifiedEdit(h);
    assert lines[e.at..e.End()] == s && lines[|a|..e.at] == kept;
    assert UnifiedEdits([h] + more) == [e] + UnifiedEdits(more) by { EditsCons(h, more); }
    SpliceStep(lines, |a|, e, UnifiedEdits(more));
    MatchesStep(lines, |a|, h, more);
    NumberedCons(|b| - |a|, h, more);
  }

  lemma {:induction false} EditsCons(h: Hunk, more: seq<Hunk>)
    ensures UnifiedEdits([h] + more) == [UnifiedEdit(h)] + UnifiedEdits(more)
  {
    assert ([h] + more)[1..] == more;
  }

  lemma {:induction false} DiffFits(changes: seq<Change>, rest: seq<string>, a: seq<string>, b: seq<string>)
    ensures Fit(a + Old(changes, rest), a, b, Diff(changes, |a|, |b|), New(changes, rest))
    decreases |changes|
  {
    if changes == [] {
      assert (a + rest)[|a|..] == rest;
    } else {
      var c, more := changes[0], changes[1..];
      var s, t := SourceSide(c.text), TargetSide(c.text);
      var h := HunkAt(c, |a|, |b|);
      DiffStep(c, more, changes, |a|, |b|);
      hide Fit, Diff, UnifiedEdit, UnifiedStart, SourceSide, TargetSide, UnifiedEdits;
      DiffFits(more, rest, a + c.kept + s, b + c.kept + t);
      FitStep(a, b, c.kept, s, t, Old(more, rest), New(more, rest), h, Diff(more, |a + c.kept + s|, |b + c.kept + t|));
      Regroup(a, c.kept, s, Old(more, rest));
    }
  }

  /** Every hunk has source lines. */
  predicate Anchored(changes: seq<Change>) {
    forall c :: c in changes ==> SourceSide(c.text) != []
  }

  lemma {:induction false} DiffIsOrdered(changes: seq<Change>, o: nat, n: nat)
    requires Anchored(changes)
    ensures InSequence(o, Diff(changes, o, n))
    ensures forall h :: h in Diff(changes, o, n) ==> Checkable(h) && Complete(h)
    decreases |changes|
  {
    if changes != [] {
      var c := changes[0];
      assert c in changes;
      DiffIsOrdered(changes[1..], o + |c.kept| + |SourceSide(c.text)|, n + |c.kept| + |TargetSide(c.text)|);
      assert Diff(changes, o, n)[1..]
          == Diff(changes[1..], o + |c.kept| + |SourceSide(c.text)|, n + |c.kept| + |TargetSide(c.text)|);
    }
  }

  /** Any file that says the old lines is accepted by the validator, and patching makes it say the
      new lines exactly if the remarks, if there are any, all stand at its end. */
  lemma {:induction false} PatchMakesNew(src: seq<string>, changes: seq<Change>, rest: seq<string>)
    requires changes != [] && Anchored(changes) && Contents(src) == Old(changes, rest)
    ensures var hunks := Diff(changes, 0, 0);
            InSequence(-1, hunks) && Decided(src, hunks) == Rewritten(Patched(src, hunks))
            && (Contents(Patched(src, hunks)) == New(changes, rest) <==> RemarksFit(|src|, hunks))
  {
    var hunks, lines := Diff(changes, 0, 0), Contents(src);
    DiffIsOrdered(changes, 0, 0);
    DiffFits(changes, rest, [], []);
    assert [] + Old(changes, rest) == lines;
    assert InSequence(-1, hunks);
    hide Diff, Old, New, Anchored, InSequence, SourceMatchesFrom, Ordered, UnifiedEdits, Patched, Splice;
    hide TargetNumbered;
    MatchIffReadyAndLast(lines, 0, hunks);
    AllReady(lines, hunks);
    AcceptedIsSafe(src, hunks);
  }

  /** Insertion-only hunks do not follow at once on a hunk before them. */
  predicate Separated(changes: seq<Change>) {
    forall i :: 0 < i < |changes| ==> SourceSide(changes[i].text) != [] || changes[i].kept != []
  }

  lemma {:induction false} DiffInSequence(changes: seq<Change>, k: int, o: nat, n: nat)
    requires Separated(changes) && k <= o
    requires changes != [] && SourceSide(changes[0].text) == [] && changes[0].kept == [] ==> k < o
    ensures InSequence(k, Diff(changes, o, n))
    decreases |changes|
  {
    if changes != [] {
      var c, more := changes[0], changes[1..];
      var o', n' := o + |c.kept| + |SourceSide(c.text)|, n + |c.kept| + |TargetSide(c.text)|;
      assert Diff(changes, o, n)[1..] == Diff(more, o', n');
      assert forall i :: 0 <= i < |more| ==> more[i] == changes[i + 1];
      DiffInSequence(more, HunkAt(c, o, n).startsrc - 1 + |SourceSide(c.text)|, o', n');
    }
  }

  /** Whether apply accepts a file that says the old lines: exactly if every hunk has source lines. A
      difference with a hunk that only inserts is refused although it fits. */
  lemma {:induction false} DiffAcceptedIff(src: seq<string>, changes: seq<Change>, rest: seq<string>)
    requires Contents(src) == Old(changes, rest) && Separated(changes)
    requires forall c :: c in changes ==> SourceSide(c.text) != [] || TargetSide(c.text) != []
    ensures InSequence(-1, Diff(changes, 0, 0))
    ensures Decided(src, Diff(changes, 0, 0)).Rewritten? <==> Anchored(changes)
  {
    var hunks := Diff(changes, 0, 0);
    DiffInSequence(changes, -1, 0, 0);
    DiffFits(changes, rest, [], []);
    assert [] + Old(changes, rest) == Contents(src);
    DiffTexts(changes, 0, 0);
    FittingAcceptedIff(src, hunks);
  }

  lemma {:induction false} DiffTexts(changes: seq<Change>, o: nat, n: nat)
    ensures forall i :: 0 <= i < |changes| ==> Diff(changes, o, n)[i].text == changes[i].text
    decreases |changes|
  {
    if changes != [] {
      var c := changes[0];
      DiffTexts(changes[1..], o + |c.kept| + |SourceSide(c.text)|, n + |c.kept| + |TargetSide(c.text)|);
    }
  }

  /** The same difference seen from the new file. */
  function Flipped(changes: seq<Change>): seq<Change> {
    if changes == [] then [] else [Change(changes[0].kept, Flip(changes[0].text))] + Flipped(changes[1..])
  }

  lemma {:induction false} FlippedStep(c: Change, more: seq<Change>, changes: seq<Change>)
    requires changes != [] && changes[0] == c && changes[1..] == more
    ensures var f := Change(c.kept, Flip(c.text));
            Flipped(changes) != [] && Flipped(changes)[0] == f && Flipped(changes)[1..] == Flipped(more)
            && SourceSide(f.text) == TargetSide(c.text) && TargetSide(f.text) == SourceSide(c.text)
            && forall o, n :: HunkAt(f, n, o) == Reversed(HunkAt(c, o, n))
  {
    FlipSwapsSides(c.text);
  }

  lemma {:induction false} ReversedStep(h: Hunk, more: seq<Hunk>)
    ensures ReversedAll([h] + more) == [Reversed(h)] + ReversedAll(more)
  {
    assert ([h] + more)[1..] == more;
  }

  /** The hunks of the flipped changes are the reversed hunks. */
  lemma {:induction false} FlippedDiff(changes: seq<Change>, o: nat, n: nat)
    ensures ReversedAll(Diff(changes, o, n)) == Diff(Flipped(changes), n, o)
    decreases |changes|
  {
    if changes != [] {
      var c, more := changes[0], changes[1..];
      hide Flipped, ReversedAll, SourceSide, TargetSide, HunkAt, Flip;
      var o', n' := o + |c.kept| + |SourceSide(c.text)|, n + |c.kept| + |TargetSide(c.text)|;
      FlippedStep(c, more, changes);
      FlippedDiff(more, o', n');
      ReversedStep(HunkAt(c, o, n), Diff(more, o', n'));
    }
  }

  lemma {:induction false} FlippedSides(changes: seq<Change>, rest: seq<string>)
    ensures Old(Flipped(changes), rest) == New(changes, rest) && New(Flipped(changes), rest) == Old(changes, rest)
  {
    if changes != [] {
      hide Flipped, SourceSide, TargetSide, HunkAt, Flip;
      FlippedStep(changes[0], changes[1..], changes);
      FlippedSides(changes[1..], rest);
    }
  }

  lemma {:induction false} FlippedAnchored(changes: seq<Change>)
    requires forall c :: c in changes ==> TargetSide(c.text) != []
    ensures Anchored(Flipped(changes))
  {
    if changes != [] {
      assert changes[0] in changes;
      FlipSwapsSides(changes[0].text);
      FlippedAnchored(changes[1..]);
    }
  }

  /** The reversed patch is the difference in the other direction: it is accepted for the patched
      file and makes it say the old lines again, exactly if its remarks fit too. */
  lemma {:induction false} ReversedPatchMakesOld(src: seq<string>, changes: seq<Change>, rest: seq<string>)
    requires changes != [] && Anchored(changes) && Contents(src) == Old(changes, rest)
    requires RemarksFit(|src|, Diff(changes, 0, 0)) && forall c :: c in changes ==> TargetSide(c.text) != []
    ensures var hunks := Diff(changes, 0, 0);
            var out, back := Patched(src, hunks), ReversedAll(hunks);
            Decided(out, back) == Rewritten(Patched(out, back))
            && (Contents(Patched(out, back)) == Old(changes, rest) <==> RemarksFit(|New(changes, rest)|, back))
  {
    PatchMakesNew(src, changes, rest);
    FlippedDiff(changes, 0, 0);
    FlippedSides(changes, rest);
    FlippedAnchored(changes);
    PatchMakesNew(Patched(src, Diff(changes, 0, 0)), Flipped(changes), rest);
  }

  /** The lines that the validator compares for h stand in the new file where they stood in the old. */
  predicate UnmovedOne(old': seq<string>, new': seq<string>, h: Hunk) {
    var p, n := h.startsrc - 1, |SourceSide(h.text)|;
    0 <= p && 0 < n && p + n <= |old'| && p + n <= |new'| && new'[p..p + n - 1] == old'[p..p + n - 1]
  }

  lemma {:induction false} UnmovedIff(old': seq<string>, new': seq<string>, h: Hunk)
    requires Ready(old', h)
    ensures Ready(new', h) <==> UnmovedOne(old', new', h)
  {
  }

  lemma {:induction false} AllUnmovedIff(old': seq<string>, new': seq<string>, hunks: seq<Hunk>)
    requires forall h :: h in hunks ==> Ready(old', h)
    ensures ReadyCount(new', hunks) == |hunks| <==> forall h :: h in hunks ==> UnmovedOne(old', new', h)
  {
    AllReady(new', hunks);
    hide Ready, UnmovedOne, ReadyCount;
    forall h | h in hunks ensures Ready(new', h) <==> UnmovedOne(old', new', h) {
      UnmovedIff(old', new', h);
    }
  }

  /** Applying the patch to the new file: it is patched again exactly if all compared lines stand in
      the new file where they stood in the old one, and otherwise it is reported as patched, unless
      the patch starts at the first line and does not repeat itself there. */
  lemma {:induction false} PatchTwice(src: seq<string>, changes: seq<Change>, rest: seq<string>)
    requires changes != [] && Anchored(changes) && Contents(src) == Old(changes, rest)
    requires RemarksFit(|src|, Diff(changes, 0, 0))
    ensures IsPatch(0, Diff(changes, 0, 0), |Old(changes, rest)|)
    ensures var hunks, old', new' := Diff(changes, 0, 0), Old(changes, rest), New(changes, rest);
            var out := Patched(src, hunks);
            Decided(out, hunks)
            == if forall h :: h in hunks ==> UnmovedOne(old', new', h) then Rewritten(Patched(out, hunks))
               else if TopRepeats(old', hunks) then AlreadyPatched
               else Different
  {
    hide Anchored, Old, New, Diff, Decided, UnmovedOne, TopRepeats, Reapplies, Patched, ReadyCount, InSequence, Splice;
    hide Ordered, UnifiedEdits, TargetNumbered, SourceMatchesFrom, Ready, RemarksFit, IsPatch, Fit;
    var hunks := Diff(changes, 0, 0);
    PatchMakesNew(src, changes, rest);
    DiffIsOrdered(changes, 0, 0);
    DiffNumbered(changes, rest);
    assert ReadyCount(Contents(src), hunks) == |hunks| by { RewrittenIsReady(src, hunks); }
    AllReady(Contents(src), hunks);
    assert hunks != [];
    SecondTime(src, hunks);
    AcceptedAgainIff(src, hunks);
    AllUnmovedIff(Contents(src), New(changes, rest), hunks);
  }

  lemma {:induction false} DiffNumbered(changes: seq<Change>, rest: seq<string>)
    ensures TargetNumbered(0, Diff(changes, 0, 0))
  {
    DiffFits(changes, rest, [], []);
  }

  lemma {:induction false} RewrittenIsReady(file: seq<string>, hunks: seq<Hunk>)
    requires Decided(file, hunks).Rewritten?
    ensures ReadyCount(Contents(file), hunks) == |hunks|
  {
  }

  lemma {:induction false} HunkListsAt(files: seq<FileDoc>, i: nat)
    requires i < |files|
    ensures HunkLists(files)[i] == HunksOf(files[i].hunks)
  {
    if i > 0 {
      HunkListsAt(files[1..], i - 1);
    }
  }

  /** The whole way: a difference written as part of a patch document, parsed, validated and
      applied to a file that says the old lines, makes it say the new lines if the remarks fit. */
  lemma {:induction false} WholeWay(doc: PatchDoc, i: nat, changes: seq<Change>, rest: seq<string>, src: seq<string>)
    requires GoodDoc(doc) && Recoverable(doc.files) && i < |doc.files|
    requires HunksOf(doc.files[i].hunks) == Diff(changes, 0, 0)
    requires changes != [] && Anchored(changes) && Contents(src) == Old(changes, rest)
    ensures var p := Parse(Render(doc));
            p.Parsed? && i < |p.hunks|
            && Decided(src, p.hunks[i]).Rewritten?
            && (Contents(Decided(src, p.hunks[i]).lines) == New(changes, rest) <==> RemarksFit(|src|, p.hunks[i]))
  {
    hide GoodDoc, Recoverable, Render, Parse, Decided, Old, New, Diff, Anchored, RemarksFit;
    ParseRenderIff(doc);
    HunkListsAt(doc.files, i);
    PatchMakesNew(src, changes, rest);
  }

  /** Any two files with at least one line each have such a difference. */
  lemma {:induction false} EveryPairHasDiff(old': seq<string>, new': seq<string>) returns (changes: seq<Change>)
    requires old' != [] && new' != []
    requires Contents(old') == old' && Contents(new') == new'
    ensures |changes| == 1 && Anchored(changes) && Old(changes, []) == old' && New(changes, []) == new'
    ensures Remarks(changes[0].text) == 0
  {
    var text := AllTagged(Removed, old') + AllTagged(Added, new');
    changes := [Change([], text)];
    ReplacesAll(old', new');
    OneChange(changes[0]);
    hide *;
    assert [] + old' + [] == old' && [] + new' + [] == new';
    assert Anchored(changes) by { OneAnchored(changes[0]); }
  }

  lemma {:induction false} OneAnchored(c: Change)
    requires SourceSide(c.text) != [] && Remarks(c.text) == 0
    ensures Anchored([c])
  {
  }

  lemma {:induction false} ReplacesAll(old': seq<string>, new': seq<string>)
    requires Contents(old') == old' && Contents(new') == new'
    ensures var text := AllTagged(Removed, old') + AllTagged(Added, new');
            SourceSide(text) == old' && TargetSide(text) == new' && Remarks(text) == 0
  {
    hide *;
    var r, a := AllTagged(Removed, old'), AllTagged(Added, new');
    TaggedSides(Removed, old');
    TaggedSides(Added, new');
    SourceSideConcat(r, a);
    TargetSideConcat(r, a);
    RemarksConcat(r, a);
    assert old' + [] == old' && [] + new' == new';
  }

  lemma {:induction false} OneChange(c: Change)
    ensures Old([c], []) == c.kept + SourceSide(c.text) + []
    ensures New([c], []) == c.kept + TargetSide(c.text) + []
  {
    assert [c][1..] == [];
  }

  function AllTagged(tag: Tag, lines: seq<string>): seq<BodyLine> {
    if lines == [] then [] else [BodyLine(tag, lines[0])] + AllTagged(tag, lines[1..])
  }

  lemma {:induction false} TaggedSides(tag: Tag, lines: seq<string>)
    requires (tag.Removed? || tag.Added?) && Contents(lines) == lines
    ensures SourceSide(AllTagged(tag, lines)) == (if tag.Removed? then lines else [])
    ensures TargetSide(AllTagged(tag, lines)) == (if tag.Added? then lines else [])
    ensures Remarks(AllTagged(tag, lines)) == 0
  {
    if lines != [] {
      assert StripEol(lines[0]) == Contents(lines)[0] == lines[0];
      forall i | 0 <= i < |lines| - 1 ensures Contents(lines[1..])[i] == lines[1..][i] {
        assert Contents(lines)[i + 1] == lines[i + 1];
      }
      TaggedSides(tag, lines[1..]);
      assert lines == [lines[0]] + lines[1..];
    }
  }

  lemma {:induction false} RemarksConcat(a: seq<BodyLine>, b: seq<BodyLine>)
    ensures Remarks(a + b) == Remarks(a) + Remarks(b)
  {
    if a == [] {
      assert a + b == b;
    } else {
      assert (a + b)[1..] == a[1..] + b;
      RemarksConcat(a[1..], b);
    }
  }
}
