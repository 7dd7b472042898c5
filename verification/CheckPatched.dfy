/** check_patched and the decisions of PatchInfo.apply for one file. */
module CheckPatched {
  import opened Text
  import opened Hunks
  import opened Splicing
  import opened PatchStream
  import opened PatchMeaning
  import opened Validation

  /** A line as readline() returns it before the end of the file. */
  type FileLine = s: string | s != "" witness "\n"

  // ----- what the check accepts

  /** The file is exactly the new file the single hunk creates. */
  predicate HoldsNewFile(lines: seq<string>, hunks: seq<Hunk>) {
    |hunks| == 1 && hunks[0].startsrc == 0
    && TargetSide(hunks[0].text) != [] && lines == TargetSide(hunks[0].text)
  }

  /** t stands in lines at p, checked line by line. */
  predicate StandsAt(lines: seq<string>, p: nat, t: seq<string>)
    decreases |t|
  {
    t == [] || (p < |lines| && lines[p] == t[0] && StandsAt(lines, p + 1, t[1..]))
  }

  lemma {:induction false} StandsAtSlice(lines: seq<string>, p: nat, t: seq<string>)
    requires p <= |lines|
    ensures StandsAt(lines, p, t) <==> p + |t| <= |lines| && lines[p..p + |t|] == t
    decreases |t|
  {
    if t != [] && p < |lines| {
      StandsAtSlice(lines, p + 1, t[1..]);
      if p + |t| <= |lines| {
        assert lines[p..p + |t|] == [lines[p]] + lines[p + 1..p + |t|];
        assert t == [t[0]] + t[1..];
      }
    }
  }

  /** Where the check looks for h after k lines were read. */
  function LookedUp(k: nat, h: Hunk): nat {
    if k + 1 < h.starttgt then h.starttgt - 1 else k
  }

  /** Every target side is found, one after the other. */
  predicate FoundFrom(lines: seq<string>, k: nat, hunks: seq<Hunk>)
    decreases |hunks|
  {
    hunks == [] ||
    (var p, t := LookedUp(k, hunks[0]), TargetSide(hunks[0].text);
     p <= |lines| && StandsAt(lines, p, t) && FoundFrom(lines, p + |t|, hunks[1..]))
  }

  /** The general check has read the first line before it compares anything. */
  predicate Found(lines: seq<string>, hunks: seq<Hunk>) {
    lines != [] && FoundFrom(lines, 1, hunks)
  }

  // ----- the check itself

  method HoldsExactly(file: seq<FileLine>, hunklines: seq<string>) returns (same: bool)
    ensures same <==> Contents(file) == hunklines
  {
    var pos := 0;
    for i := 0 to |hunklines|
      invariant pos == i <= |file|
      invariant Contents(file)[..i] == hunklines[..i]
    {
      if pos == |file| || StripEol(file[pos]) != hunklines[i] {
        return false;
      }
      pos := pos + 1;
    }
    return pos == |file|;
  }

  lemma {:induction false} TargetSideAt(text: seq<BodyLine>, i: nat)
    requires i < |text|
    ensures var rest := TargetSide(text[i + 1..]);
            TargetSide(text[i..]) == if OnTarget(text[i]) then [Said(text[i])] + rest else rest
  {
    assert text[i..][1..] == text[i + 1..];
    var rest := TargetSide(text[i + 1..]);
    assert [] + rest == rest;
  }

  /** The body loop over one hunk: compares the target side with the lines after lineno. */
  method HunkFound(file: seq<FileLine>, text: seq<BodyLine>, lineno: nat) returns (found: bool, lineno': nat)
    requires lineno <= |file|
    ensures found <==> StandsAt(Contents(file), lineno, TargetSide(text))
    ensures found ==> lineno' == lineno + |TargetSide(text)| <= |file|
  {
    ghost var lines, todo := Contents(file), TargetSide(text);
    ghost var goal := StandsAt(lines, lineno, todo);
    lineno' := lineno;
    assert text[0..] == text;
    for i := 0 to |text|
      invariant lineno' <= |file|
      invariant todo == TargetSide(text[i..]) && lineno' + |todo| == lineno + |TargetSide(text)|
      invariant goal <==> StandsAt(lines, lineno', todo)
    {
      var hline := text[i];
      TargetSideAt(text, i);
      if !hline.tag.Removed? && !hline.tag.Remark? {
        if lineno' == |file| || StripEol(file[lineno']) != StripEol(hline.rest) {
          return false, lineno';
        }
        lineno' := lineno' + 1;
        assert todo[1..] == TargetSide(text[i + 1..]);
      }
      todo := TargetSide(text[i + 1..]);
    }
    return true, lineno';
  }

  lemma {:induction false} FoundFromAt(lines: seq<string>, k: nat, hunks: seq<Hunk>, hno: nat)
    requires hno < |hunks|
    ensures var p, t := LookedUp(k, hunks[hno]), TargetSide(hunks[hno].text);
            FoundFrom(lines, k, hunks[hno..]) <==>
            p <= |lines| && StandsAt(lines, p, t) && FoundFrom(lines, p + |t|, hunks[hno + 1..])
  {
    assert hunks[hno..][1..] == hunks[hno + 1..];
  }

  // ----- what the check means

  /** 0-based index of the target side's place; for a side without lines, the line after it. */
  function TargetStart(h: Hunk): int {
    UnifiedStart(h.starttgt, TargetSide(h.text))
  }

  /** The target sides are numbered one after the other, none before line n. */
  predicate TargetOrdered(n: int, hunks: seq<Hunk>)
    decreases |hunks|
  {
    hunks == [] ||
    (n <= TargetStart(hunks[0]) && TargetOrdered(TargetStart(hunks[0]) + |TargetSide(hunks[0].text)|, hunks[1..]))
  }

  /** The file holds the target side at starttgt; if that has no lines, the file reaches there. */
  predicate HoldsTarget(lines: seq<string>, h: Hunk) {
    var t := TargetSide(h.text);
    h.starttgt == 0
    || (h.starttgt - 1 + |t| <= |lines| && lines[h.starttgt - 1..h.starttgt - 1 + |t|] == t)
  }

  /** The joined target sides of the hunks at the front that follow each other without a line in
      between, the first one starting after n lines. */
  function Leading(n: int, hunks: seq<Hunk>): seq<string>
    decreases |hunks|
  {
    if hunks == [] || n < TargetStart(hunks[0]) then []
    else TargetSide(hunks[0].text) + Leading(n + |TargetSide(hunks[0].text)|, hunks[1..])
  }

  /** The hunks that are left. */
  function Beyond(n: int, hunks: seq<Hunk>): seq<Hunk>
    decreases |hunks|
  {
    if hunks == [] || n < TargetStart(hunks[0]) then hunks
    else Beyond(n + |TargetSide(hunks[0].text)|, hunks[1..])
  }

  /** No target side is numbered from the first line, which the check never compares. */
  predicate BelowTop(hunks: seq<Hunk>) {
    forall h :: h in hunks && TargetSide(h.text) != [] ==> h.starttgt >= 2
  }

  /** Hunks that start no earlier than the check has read are looked for where they belong. */
  lemma {:induction false} FoundFromIff(lines: seq<string>, k: nat, n: nat, hunks: seq<Hunk>)
    requires TargetOrdered(n, hunks) && k <= n && k <= |lines|
    ensures FoundFrom(lines, k, hunks) <==> forall h :: h in hunks ==> HoldsTarget(lines, h)
    decreases |hunks|
  {
    if hunks != [] {
      var h, rest, t := hunks[0], hunks[1..], TargetSide(hunks[0].text);
      var p := LookedUp(k, h);
      assert hunks == [h] + rest;
      OneHeldIff(lines, k, h);
      if p <= |lines| && StandsAt(lines, p, t) {
        StandsAtSlice(lines, p, t);
        hide HoldsTarget, StandsAt;
        FoundFromIff(lines, p + |t|, TargetStart(h) + |t|, rest);
      }
    }
  }

  lemma {:induction false} OneHeldIff(lines: seq<string>, k: nat, h: Hunk)
    requires k <= TargetStart(h) && k <= |lines|
    ensures var p, t := LookedUp(k, h), TargetSide(h.text);
            p <= TargetStart(h) && (p <= |lines| && StandsAt(lines, p, t) <==> HoldsTarget(lines, h))
  {
    var p := LookedUp(k, h);
    if p <= |lines| {
      StandsAtSlice(lines, p, TargetSide(h.text));
    }
  }

  lemma {:induction false} FoundStep(lines: seq<string>, k: nat, h: Hunk, rest: seq<Hunk>, hunks: seq<Hunk>)
    requires hunks != [] && hunks[0] == h && hunks[1..] == rest
    ensures var p, t := LookedUp(k, h), TargetSide(h.text);
            FoundFrom(lines, k, hunks) <==> p <= |lines| && StandsAt(lines, p, t) && FoundFrom(lines, p + |t|, rest)
  {
  }

  lemma {:induction false} LeadingStep(n: nat, h: Hunk, rest: seq<Hunk>, hunks: seq<Hunk>)
    requires hunks != [] && hunks[0] == h && hunks[1..] == rest && TargetOrdered(n, hunks)
    ensures if n < TargetStart(h) then
              Leading(n, hunks) == [] && Beyond(n, hunks) == hunks && TargetOrdered(n + 1, hunks)
            else
              var t := TargetSide(h.text);
              TargetOrdered(n + |t|, rest) && LookedUp(n + 1, h) == n + 1
              && Leading(n, hunks) == t + Leading(n + |t|, rest) && Beyond(n, hunks) == Beyond(n + |t|, rest)
  {
  }

  /** Until the first line in between, every hunk is looked for one line too far down. */
  lemma {:induction false} DisplacedIff(lines: seq<string>, n: nat, hunks: seq<Hunk>)
    requires TargetOrdered(n, hunks) && n + 1 <= |lines|
    ensures FoundFrom(lines, n + 1, hunks)
            <==> StandsAt(lines, n + 1, Leading(n, hunks))
                 && forall h :: h in Beyond(n, hunks) ==> HoldsTarget(lines, h)
    decreases |hunks|
  {
    hide *;
    StandsAtNothing(lines, n + 1);
    if hunks == [] {
      NothingDisplaced(lines, n);
    } else {
      var h, rest := hunks[0], hunks[1..];
      LeadingStep(n, h, rest, hunks);
      if n < TargetStart(h) {
        FoundFromIff(lines, n + 1, n + 1, hunks);
      } else {
        DisplacedStep(lines, n, h, rest, hunks);
        var t := TargetSide(h.text);
        StandsAtConcat(lines, n + 1, t, Leading(n + |t|, rest));
        if StandsAt(lines, n + 1, t) {
          DisplacedIff(lines, n + |t|, rest);
        }
      }
    }
  }

  lemma {:induction false} NothingDisplaced(lines: seq<string>, n: nat)
    ensures FoundFrom(lines, n + 1, []) && Leading(n, []) == [] && Beyond(n, []) == []
  {
  }

  lemma {:induction false} DisplacedStep(lines: seq<string>, n: nat, h: Hunk, rest: seq<Hunk>, hunks: seq<Hunk>)
    requires hunks != [] && hunks[0] == h && hunks[1..] == rest && n + 1 <= |lines| && LookedUp(n + 1, h) == n + 1
    ensures var t := TargetSide(h.text);
            (FoundFrom(lines, n + 1, hunks) <==> StandsAt(lines, n + 1, t) && FoundFrom(lines, n + 1 + |t|, rest))
            && (StandsAt(lines, n + 1, t) ==> n + 1 + |t| <= |lines|)
  {
    FoundStep(lines, n + 1, h, rest, hunks);
    StandsAtSlice(lines, n + 1, TargetSide(h.text));
  }

  lemma {:induction false} StandsAtNothing(lines: seq<string>, p: nat)
    ensures StandsAt(lines, p, [])
  {
  }

  lemma {:induction false} StandsAtConcat(lines: seq<string>, p: nat, a: seq<string>, b: seq<string>)
    ensures StandsAt(lines, p, a + b) <==> StandsAt(lines, p, a) && StandsAt(lines, p + |a|, b)
    decreases |a|
  {
    if a == [] {
      assert a + b == b;
    } else {
      assert (a + b)[1..] == a[1..] + b;
      StandsAtConcat(lines, p + 1, a[1..], b);
    }
  }

  /** The general check accepts exactly the files with at least one line that hold every target side
      at starttgt, except that the joined target sides at the very top are looked for from the
      second line on. */
  lemma {:induction false} FoundIff(lines: seq<string>, hunks: seq<Hunk>)
    requires TargetOrdered(0, hunks)
    ensures Found(lines, hunks)
            <==> lines != [] && StandsAt(lines, 1, Leading(0, hunks))
                 && forall h :: h in Beyond(0, hunks) ==> HoldsTarget(lines, h)
  {
    if lines != [] {
      DisplacedIff(lines, 0, hunks);
    }
  }

  /** There are no such target sides exactly if none starts at the first line. */
  lemma {:induction false} LeadingIff(n: nat, hunks: seq<Hunk>)
    requires TargetOrdered(n, hunks)
    ensures n > 0 ==> BelowTop(hunks)
    ensures n == 0 ==> (Leading(n, hunks) == [] <==> BelowTop(hunks))
    decreases |hunks|
  {
    if hunks != [] {
      var h, rest, t := hunks[0], hunks[1..], TargetSide(hunks[0].text);
      assert hunks == [h] + rest;
      LeadingIff(TargetStart(h) + |t|, rest);
    }
  }

  lemma {:induction false} TopHoldsTrivially(lines: seq<string>, hunks: seq<Hunk>)
    requires TargetOrdered(0, hunks) && Leading(0, hunks) == []
    ensures (forall h :: h in Beyond(0, hunks) ==> HoldsTarget(lines, h))
            <==> forall h :: h in hunks ==> HoldsTarget(lines, h)
    decreases |hunks|
  {
    if hunks != [] && TargetStart(hunks[0]) == 0 {
      assert hunks == [hunks[0]] + hunks[1..];
      TopHoldsTrivially(lines, hunks[1..]);
    }
  }

  /** With no target side at the first line: exactly the files that hold every target side. */
  lemma {:induction false} FoundIffHeld(lines: seq<string>, hunks: seq<Hunk>)
    requires TargetOrdered(0, hunks) && BelowTop(hunks)
    ensures Found(lines, hunks) <==> lines != [] && forall h :: h in hunks ==> HoldsTarget(lines, h)
  {
    hide Found, HoldsTarget;
    FoundIff(lines, hunks);
    LeadingIff(0, hunks);
    TopHoldsTrivially(lines, hunks);
  }

  method CheckPatched(file: seq<FileLine>, hunks: seq<Hunk>) returns (matched: bool)
    ensures matched <==> HoldsNewFile(Contents(file), hunks) || Found(Contents(file), hunks)
    ensures |hunks| == 1 && hunks[0].startsrc == 0 && TargetSide(hunks[0].text) != [] ==>
              (matched <==> Contents(file) == TargetSide(hunks[0].text) || Found(Contents(file), hunks))
    ensures |hunks| != 1 || hunks[0].startsrc > 0 ==> (matched <==> Found(Contents(file), hunks))
    ensures TargetOrdered(0, hunks) && BelowTop(hunks) ==>
              (matched <==> HoldsNewFile(Contents(file), hunks)
                            || (file != [] && forall h :: h in hunks ==> HoldsTarget(Contents(file), h)))
  {
    hide TargetOrdered, BelowTop, HoldsTarget, StandsAt, FoundFrom;
    if TargetOrdered(0, hunks) && BelowTop(hunks) {
      FoundIffHeld(Contents(file), hunks);
    }
    if |hunks| == 1 && hunks[0].startsrc == 0 {
      var hunklines := TargetSide(hunks[0].text);
      if |hunklines| > 0 {
        var same := HoldsExactly(file, hunklines);
        if same {
          return true;
        }
      }
    }
    if file == [] {
      return false;
    }
    var lineno: nat := 1;
    ghost var lines := Contents(file);
    ghost var goal := FoundFrom(lines, 1, hunks);
    assert hunks[0..] == hunks;
    for hno := 0 to |hunks|
      invariant 1 <= lineno <= |file|
      invariant FoundFrom(lines, lineno, hunks[hno..]) <==> goal
    {
      FoundFromAt(lines, lineno, hunks, hno);
      ghost var p := LookedUp(lineno, hunks[hno]);
      while lineno + 1 < hunks[hno].starttgt
        invariant 1 <= lineno <= |file| && LookedUp(lineno, hunks[hno]) == p
      {
        if lineno == |file| {
          return false;
        }
        lineno := lineno + 1;
      }
      var found, lineno' := HunkFound(file, hunks[hno].text, lineno);
      if !found {
        return false;
      }
      lineno := lineno';
    }
    assert hunks[|hunks|..] == [] && FoundFrom(lines, lineno, []) by { NothingToFind(lines, lineno); }
    return true;
  }

  lemma {:induction false} NothingToFind(lines: seq<string>, k: nat)
    ensures FoundFrom(lines, k, [])
  {
  }

  // ----- recognising the tool's own output

  lemma {:induction false} NumberedIsOrdered(from: nat, n: nat, hunks: seq<Hunk>, len: int)
    requires Ordered(from, UnifiedEdits(hunks), len) && TargetNumbered(n - from, hunks)
    ensures TargetOrdered(n, hunks)
    decreases |hunks|
  {
    if hunks != [] {
      var e := UnifiedEdit(hunks[0]);
      assert UnifiedEdits(hunks)[1..] == UnifiedEdits(hunks[1..]);
      NumberedIsOrdered(e.End(), e.at + n - from + |e.lines|, hunks[1..], len);
    }
  }

  /** What one hunk contributes to SpliceHolds. */
  lemma {:induction false} NumberedStep(shift: int, h: Hunk, rest: seq<Hunk>, hunks: seq<Hunk>)
    requires hunks != [] && hunks[0] == h && hunks[1..] == rest && TargetNumbered(shift, hunks)
    ensures UnifiedEdits(hunks) == [UnifiedEdit(h)] + UnifiedEdits(rest)
    ensures UnifiedEdit(h).lines == TargetSide(h.text) && TargetStart(h) == UnifiedEdit(h).at + shift
    ensures TargetNumbered(shift + UnifiedEdit(h).Growth(), rest)
  {
  }

  lemma {:induction false} HeldInMiddle(a: seq<string>, h: Hunk, b: seq<string>)
    requires TargetStart(h) == |a|
    ensures HoldsTarget(a + TargetSide(h.text) + b, h)
  {
  }

  /** The spliced lines hold every target side. */
  lemma {:induction false} SpliceHolds(lines: seq<string>, from: nat, hunks: seq<Hunk>, pre: seq<string>)
    requires Ordered(from, UnifiedEdits(hunks), |lines|) && TargetNumbered(|pre| - from, hunks)
    ensures forall h :: h in hunks ==> HoldsTarget(pre + Splice(lines, from, UnifiedEdits(hunks)), h)
    decreases |hunks|
  {
    hide Splice, Ordered, UnifiedEdits, TargetSide, UnifiedEdit, TargetNumbered, TargetStart, HoldsTarget;
    if hunks != [] {
      var h, rest := hunks[0], hunks[1..];
      assert hunks == [h] + rest;
      NumberedStep(|pre| - from, h, rest, hunks);
      var e, t := UnifiedEdit(h), TargetSide(h.text);
      OrderedStep(from, e, UnifiedEdits(rest), |lines|);
      SpliceStep(lines, from, e, UnifiedEdits(rest));
      var kept, tail := lines[from..e.at], Splice(lines, e.End(), UnifiedEdits(rest));
      assert pre + (kept + t + tail) == pre + kept + t + tail by { Regroup(pre, kept, t, tail); }
      HeldInMiddle(pre + kept, h, tail);
      SpliceHolds(lines, e.End(), rest, pre + kept + t);
    }
  }

  /** The output of a suitable, correctly numbered patch that starts below the first line is
      recognised as patched. */
  lemma {:induction false} PatchedIsRecognised(src: seq<string>, hunks: seq<Hunk>)
    requires IsPatch(0, hunks, |src|) && Suits(Contents(src), hunks)
    requires TargetNumbered(0, hunks) && BelowTop(hunks) && Patched(src, hunks) != []
    ensures Found(Contents(Patched(src, hunks)), hunks)
  {
    hide Suits;
    CorrectIff(src, hunks);
    SpliceHolds(Contents(src), 0, hunks, []);
    assert [] + Unified(src, hunks) == Unified(src, hunks);
    NumberedIsOrdered(0, 0, hunks, |src|);
    FoundIffHeld(Contents(Patched(src, hunks)), hunks);
  }

  /** Lines repeated one further down are all the same line. */
  lemma {:induction false} RepeatedBelowIff(out: seq<string>, t: seq<string>)
    requires t != [] && |t| <= |out| && out[..|t|] == t
    ensures StandsAt(out, 1, t) <==> |t| < |out| && forall i :: 0 <= i <= |t| ==> out[i] == t[0]
  {
    StandsAtSlice(out, 1, t);
    assert forall i :: 0 <= i < |t| ==> out[i] == t[i];
    if |t| < |out| {
      if out[1..1 + |t|] == t {
        for n := 0 to |t|
          invariant forall i :: 0 <= i <= n ==> out[i] == t[0]
        {
          assert out[n + 1] == out[1..1 + |t|][n];
        }
      }
    }
  }

  /** What follows the joined target sides at the top is a kept line or the end of the file. */
  lemma {:induction false} LeadingFirst(lines: seq<string>, from: nat, n: nat, hunks: seq<Hunk>)
    requires Ordered(from, UnifiedEdits(hunks), |lines|) && TargetNumbered(n - from, hunks)
    ensures var out, t := Splice(lines, from, UnifiedEdits(hunks)), Leading(n, hunks);
            t <= out && (|t| < |out| ==> out[|t|] in lines)
    decreases |hunks|
  {
    hide Splice, Ordered, UnifiedEdits, TargetSide, UnifiedEdit, TargetNumbered, TargetStart;
    if hunks == [] {
      SpliceNothing(lines, from);
    } else {
      var h, rest := hunks[0], hunks[1..];
      NumberedStep(n - from, h, rest, hunks);
      var e, t := UnifiedEdit(h), TargetSide(h.text);
      OrderedStep(from, e, UnifiedEdits(rest), |lines|);
      SpliceStep(lines, from, e, UnifiedEdits(rest));
      var tail := Splice(lines, e.End(), UnifiedEdits(rest));
      if n < TargetStart(h) {
        assert (lines[from..e.at] + t + tail)[0] == lines[from];
      } else {
        assert e.at == from && lines[from..from] == [] && [] + t + tail == t + tail;
        LeadingFirst(lines, e.End(), n + |t|, rest);
      }
    }
  }

  lemma {:induction false} SpliceNothing(lines: seq<string>, from: nat)
    requires Ordered(from, UnifiedEdits([]), |lines|)
    ensures from <= |lines| && Splice(lines, from, UnifiedEdits([])) == lines[from..]
  {
  }

  /** The output of a suitable, correctly numbered patch, whatever it starts with, passes the check
      exactly if it has a line and the target lines at its top, if any, and the line after them all
      say the same. */
  lemma {:induction false} TopPatchRecognisedIff(src: seq<string>, hunks: seq<Hunk>)
    requires IsPatch(0, hunks, |src|) && Suits(Contents(src), hunks) && TargetNumbered(0, hunks)
    ensures var out, t := Contents(Patched(src, hunks)), Leading(0, hunks);
            Found(out, hunks)
            <==> out != [] && (t == [] || (|t| < |out| && forall i :: 0 <= i <= |t| ==> out[i] == t[0]))
  {
    var out, t := Contents(Patched(src, hunks)), Leading(0, hunks);
    hide Suits;
    CorrectIff(src, hunks);
    SpliceRecognisedIff(Contents(src), hunks);
  }

  lemma {:induction false} SpliceRecognisedIff(lines: seq<string>, hunks: seq<Hunk>)
    requires Ordered(0, UnifiedEdits(hunks), |lines|) && TargetNumbered(0, hunks)
    ensures var out, t := Splice(lines, 0, UnifiedEdits(hunks)), Leading(0, hunks);
            Found(out, hunks)
            <==> out != [] && (t == [] || (|t| < |out| && forall i :: 0 <= i <= |t| ==> out[i] == t[0]))
  {
    hide Splice, Ordered, UnifiedEdits, TargetNumbered, Found, HoldsTarget, Beyond, Leading, TargetOrdered;
    var out, t := Splice(lines, 0, UnifiedEdits(hunks)), Leading(0, hunks);
    NumberedIsOrdered(0, 0, hunks, |lines|);
    FoundIff(out, hunks);
    SpliceHolds(lines, 0, hunks, []);
    assert [] + out == out;
    BeyondMembers(0, hunks);
    LeadingFirst(lines, 0, 0, hunks);
    if t != [] {
      assert out[..|t|] == t;
      RepeatedBelowIff(out, t);
    }
  }

  lemma {:induction false} BeyondMembers(n: int, hunks: seq<Hunk>)
    ensures forall h :: h in Beyond(n, hunks) ==> h in hunks
    decreases |hunks|
  {
    if hunks != [] {
      BeyondMembers(n + |TargetSide(hunks[0].text)|, hunks[1..]);
    }
  }

  /** A file that holds every target side and is not accepted. */
  lemma {:induction false} TopWitness(hunks: seq<Hunk>, len: nat) returns (file: seq<string>)
    requires Ordered(0, UnifiedEdits(hunks), len) && TargetNumbered(0, hunks) && !BelowTop(hunks)
    ensures file != [] && (forall h :: h in hunks ==> HoldsTarget(file, h)) && !Found(file, hunks)
  {
    hide Splice, Ordered, UnifiedEdits, TargetNumbered, Found, HoldsTarget, BelowTop, TargetOrdered, Leading;
    hide TargetSide;
    var z := seq(LongestTarget(hunks) + 1, _ => 'z');
    var lines := seq(len, _ => z);
    file := Splice(lines, 0, UnifiedEdits(hunks));
    NumberedIsOrdered(0, 0, hunks, len);
    LeadingIff(0, hunks);
    SpliceRecognisedIff(lines, hunks);
    SpliceHolds(lines, 0, hunks, []);
    assert [] + file == file;
    LeadingFirst(lines, 0, 0, hunks);
    var t := Leading(0, hunks);
    LeadingShort(0, hunks, LongestTarget(hunks));
    assert t[0] in t;
  }

  lemma {:induction false} LeadingShort(n: int, hunks: seq<Hunk>, m: nat)
    requires forall h, l :: h in hunks && l in TargetSide(h.text) ==> |l| <= m
    ensures forall l :: l in Leading(n, hunks) ==> |l| <= m
    decreases |hunks|
  {
    hide TargetSide, TargetStart;
    if hunks != [] && TargetStart(hunks[0]) <= n {
      var t := TargetSide(hunks[0].text);
      assert hunks[0] in hunks;
      LeadingShort(n + |t|, hunks[1..], m);
      assert Leading(n, hunks) == t + Leading(n + |t|, hunks[1..]);
    }
  }

  /** The general check means "every target side stands at starttgt" for all files exactly if no
      target side starts at the first line. */
  lemma {:induction false} FoundMeansHeldIff(hunks: seq<Hunk>, len: nat)
    requires Ordered(0, UnifiedEdits(hunks), len) && TargetNumbered(0, hunks)
    ensures (forall file :: Found(file, hunks) <==> file != [] && forall h :: h in hunks ==> HoldsTarget(file, h))
            <==> BelowTop(hunks)
  {
    NumberedIsOrdered(0, 0, hunks, len);
    hide Found, HoldsTarget, BelowTop, TargetOrdered, TargetNumbered, Ordered, UnifiedEdits;
    if BelowTop(hunks) {
      forall file ensures Found(file, hunks) <==> file != [] && forall h :: h in hunks ==> HoldsTarget(file, h) {
        FoundIffHeld(file, hunks);
      }
    } else {
      var file := TopWitness(hunks, len);
    }
  }

  // ----- PatchInfo.apply for one file of the patch

  datatype Outcome =
    | Created(lines: seq<string>)     // a new file with these lines
    | Rewritten(lines: seq<string>)   // the output of patch_stream replaces the file
    | AlreadyPatched
    | Different
    | NothingThere                    // neither source nor target file exists
    | Crashed                         // an IndexError ends the run
    | Unchanged                       // every hunk counted but the last not reached: nothing is done

  /** The lines written for a file that does not exist yet. */
  function NewFileLines(h: Hunk): seq<string> {
    seq(|TargetSide(h.text)|, i requires 0 <= i < |TargetSide(h.text)| => TargetSide(h.text)[i] + "\n")
  }

  /** Whether a missing file is created. */
  predicate CreatesFile(hunks: seq<Hunk>) {
    |hunks| == 1 && hunks[0].startsrc == 0 && TargetSide(hunks[0].text) != []
  }

  /** What apply does with an existing file and ordered hunks. */
  function Decided(file: seq<string>, hunks: seq<Hunk>): Outcome {
    var lines := Contents(file);
    if ReadyCount(lines, hunks) == |hunks| then Rewritten(Patched(file, hunks))
    else if HoldsNewFile(lines, hunks) || Found(lines, hunks) then AlreadyPatched
    else Different
  }

  /** What apply does with an existing file and any hunks, after the verdict of the walk. */
  function AfterVerdict(v: Verdict, file: seq<string>, hunks: seq<Hunk>): Outcome {
    match v
    case IndexError => Crashed
    case Checked(canpatch, validhunks) =>
      if canpatch then Rewritten(Patched(file, hunks))
      else if validhunks >= |hunks| then Unchanged
      else if HoldsNewFile(Contents(file), hunks) || Found(Contents(file), hunks) then AlreadyPatched
      else Different
  }

  method ApplyToFile(source: Option<seq<FileLine>>, target: Option<seq<FileLine>>, hunks: seq<Hunk>)
    returns (r: Outcome)
    ensures r == if source.None? && CreatesFile(hunks) then Created(NewFileLines(hunks[0]))
                 else if source.None? && target.None? then NothingThere
                 else if hunks == [] then Crashed
                 else
                   var file := if source.Some? then source.value else target.value;
                   AfterVerdict(Walked(Contents(file), 0, hunks, WALK_START), file, hunks)
    ensures InSequence(-1, hunks) ==>
              r == if source.None? && CreatesFile(hunks) then Created(NewFileLines(hunks[0]))
                   else if source.None? && target.None? then NothingThere
                   else if hunks == [] then Crashed
                   else Decided(if source.Some? then source.value else target.value, hunks)
    ensures r.Created? <==> source.None? && |hunks| == 1 && hunks[0].startsrc == 0 && TargetSide(hunks[0].text) != []
    ensures r.Created? ==>
              |r.lines| == |TargetSide(hunks[0].text)|
              && forall i :: 0 <= i < |r.lines| ==> r.lines[i] == TargetSide(hunks[0].text)[i] + "\n"
  {
    var file: seq<FileLine>;
    if source.None? {
      if |hunks| == 1 && hunks[0].startsrc == 0 {
        var hunklines := TargetSide(hunks[0].text);
        if |hunklines| > 0 {
          return Created(NewFileLines(hunks[0]));
        }
      }
      if target.None? {
        return NothingThere;
      }
      file := target.value;
    } else {
      file := source.value;
    }
    if hunks == [] {
      return Crashed;
    }
    var v := Validate(file, hunks);
    if v.IndexError? {
      return Crashed;
    }
    r := Unchanged;
    if v.validhunks < |hunks| {
      var patched := CheckPatched(file, hunks);
      r := if patched then AlreadyPatched else Different;
    }
    if v.canpatch {
      var out := PatchStream.PatchStream(file, hunks);
      r := Rewritten(out);
    }
  }

  /** Applying a new-file patch to the file it created reports it as already patched. */
  lemma {:induction false} NewFileRecognised(h: Hunk)
    requires h.startsrc == 0 && TargetSide(h.text) != []
    ensures Contents(NewFileLines(h)) == TargetSide(h.text)
    ensures Decided(NewFileLines(h), [h]) == AlreadyPatched
  {
    var t := TargetSide(h.text);
    forall i | 0 <= i < |t| ensures Contents(NewFileLines(h))[i] == t[i] {
      TargetSideStripped(h.text);
      assert t[i] in t;
      StripEolAgain(t[i], "\n");
    }
    assert Contents(NewFileLines(h)) == t;
  }

  lemma {:induction false} TargetSideStripped(text: seq<BodyLine>)
    ensures forall s :: s in TargetSide(text) ==> StripEol(s) == s
  {
    if text != [] {
      TargetSideStripped(text[1..]);
      StripEolAgain(text[0].rest, "");
      assert StripEol(text[0].rest) + "" == StripEol(text[0].rest);
    }
  }

  /** The file that OverlapLines are the lines of ends the run. */
  lemma {:induction false} OverlapCrashes(file: seq<string>)
    requires Contents(file) == OverlapLines()
    ensures AfterVerdict(Walked(Contents(file), 0, OverlapHunks(), WALK_START), file, OverlapHunks()) == Crashed
  {
    OverlapRaises();
  }

  /** A file that fits the patch completely is accepted exactly if every hunk has source lines: a hunk
      that only inserts keeps the walk from ever becoming ready. */
  lemma {:induction false} FittingAcceptedIff(file: seq<string>, hunks: seq<Hunk>)
    requires IsPatch(0, hunks, |file|) && SourceMatches(Contents(file), hunks)
    ensures Decided(file, hunks).Rewritten? <==> forall h :: h in hunks ==> SourceSide(h.text) != []
  {
    var lines := Contents(file);
    AllReady(lines, hunks);
    if forall h :: h in hunks ==> SourceSide(h.text) != [] {
      SidesCheckable(0, hunks, |file|);
      hide Ready, SourceMatchesFrom, Ordered, UnifiedEdits, ReadyCount, Checkable;
      MatchIffReadyAndLast(lines, 0, hunks);
    }
  }

  lemma {:induction false} SidesCheckable(k: nat, hunks: seq<Hunk>, len: nat)
    requires Ordered(k, UnifiedEdits(hunks), len) && forall h :: h in hunks ==> SourceSide(h.text) != []
    ensures forall h :: h in hunks ==> Checkable(h)
    ensures InSequence(k, hunks)
    decreases |hunks|
  {
    if hunks != [] {
      assert hunks == [hunks[0]] + hunks[1..] && UnifiedEdits(hunks)[1..] == UnifiedEdits(hunks[1..]);
      SidesCheckable(UnifiedEdit(hunks[0]).End(), hunks[1..], len);
    }
  }

  // ----- applying a patch a second time

  /** Whether the patch fits once more: at the place of every hunk's source side, the lines that the
      validator compares will stand again after patching these lines. */
  predicate Reapplies(lines: seq<string>, hunks: seq<Hunk>)
    requires Ordered(0, UnifiedEdits(hunks), |lines|)
  {
    forall h :: h in hunks ==> ReappliesOne(lines, hunks, h)
  }

  predicate ReappliesOne(lines: seq<string>, hunks: seq<Hunk>, h: Hunk)
    requires Ordered(0, UnifiedEdits(hunks), |lines|)
  {
    var s, edits := SourceSide(h.text), UnifiedEdits(hunks);
    Checkable(h) && h.startsrc - 1 + |s| <= |lines| + Growth(edits)
    && forall i :: 0 <= i < |s| - 1 ==> SplicedLine(lines, 0, edits, h.startsrc - 1 + i) == s[i]
  }

  lemma {:induction false} ReappliesOneIff(lines: seq<string>, hunks: seq<Hunk>, h: Hunk)
    requires Ordered(0, UnifiedEdits(hunks), |lines|)
    ensures Ready(Splice(lines, 0, UnifiedEdits(hunks)), h) <==> ReappliesOne(lines, hunks, h)
  {
    var s, edits := SourceSide(h.text), UnifiedEdits(hunks);
    var out, p := Splice(lines, 0, edits), h.startsrc - 1;
    SpliceLength(lines, 0, edits);
    hide Splice, SplicedLine, Ordered, Growth;
    if Checkable(h) && p + |s| <= |out| {
      forall i | 0 <= i < |s| - 1
        ensures out[p..p + |s| - 1][i] == SplicedLine(lines, 0, edits, p + i) && s[..|s| - 1][i] == s[i]
      {
        SplicedLineIs(lines, 0, edits, p + i);
      }
    }
  }

  /** An accepted file is accepted again after patching exactly if the patch reapplies to it. */
  lemma {:induction false} AcceptedAgainIff(src: seq<string>, hunks: seq<Hunk>)
    requires InSequence(-1, hunks) && RemarksFit(|src|, hunks) && ReadyCount(Contents(src), hunks) == |hunks|
    ensures IsPatch(0, hunks, |src|)
    ensures ReadyCount(Contents(Patched(src, hunks)), hunks) == |hunks| <==> Reapplies(Contents(src), hunks)
  {
    AcceptedIsSafe(src, hunks);
    var lines, out := Contents(src), Contents(Patched(src, hunks));
    AllReady(out, hunks);
    hide Ready, ReappliesOne, Splice, Ordered, ReadyCount, Patched;
    forall h | h in hunks ensures Ready(out, h) <==> ReappliesOne(lines, hunks, h) {
      ReappliesOneIff(lines, hunks, h);
    }
  }

  /** Line i from the start of the hunk on: a target line, or a kept line behind the hunk. */
  function LineInPlace(lines: seq<string>, h: Hunk, i: nat): string
    requires Checkable(h) && h.startsrc - 1 + |SourceSide(h.text)| <= |lines|
    requires h.startsrc - 1 + i < |lines| + |TargetSide(h.text)| - |SourceSide(h.text)|
  {
    var s, t := SourceSide(h.text), TargetSide(h.text);
    if i < |t| then t[i] else lines[h.startsrc - 1 + |s| + i - |t|]
  }

  lemma {:induction false} SingleEdit(lines: seq<string>, h: Hunk)
    requires Checkable(h) && Ordered(0, UnifiedEdits([h]), |lines|)
    ensures h.startsrc - 1 + |SourceSide(h.text)| <= |lines|
    ensures UnifiedEdits([h]) == [UnifiedEdit(h)]
    ensures Growth(UnifiedEdits([h])) == |TargetSide(h.text)| - |SourceSide(h.text)|
  {
    OrderedFits(0, UnifiedEdits([h]), |lines|);
    assert [h][1..] == [] && UnifiedEdits([h])[1..] == [];
  }

  lemma {:induction false} SingleLine(lines: seq<string>, h: Hunk, i: nat)
    requires Checkable(h) && Ordered(0, UnifiedEdits([h]), |lines|)
    requires h.startsrc - 1 + i < |lines| + |TargetSide(h.text)| - |SourceSide(h.text)|
    requires h.startsrc - 1 + |SourceSide(h.text)| <= |lines|
    requires Growth(UnifiedEdits([h])) == |TargetSide(h.text)| - |SourceSide(h.text)|
    ensures SplicedLine(lines, 0, UnifiedEdits([h]), h.startsrc - 1 + i) == LineInPlace(lines, h, i)
  {
    var e := UnifiedEdit(h);
    SingleEdit(lines, h);
    hide TargetSide, SourceSide, Growth;
    if i >= |e.lines| {
      assert [e][1..] == [];
      assert SplicedLine(lines, 0, [e], e.at + i) == SplicedLine(lines, e.End(), [], i - |e.lines|);
    }
  }

  lemma {:induction false} SingleOneIff(lines: seq<string>, h: Hunk)
    requires Checkable(h) && Ordered(0, UnifiedEdits([h]), |lines|)
    requires h.startsrc - 1 + |SourceSide(h.text)| <= |lines|
    ensures var s, t, p := SourceSide(h.text), TargetSide(h.text), h.startsrc - 1;
            ReappliesOne(lines, [h], h)
            <==> p + |s| <= |lines| + |t| - |s| && forall i :: 0 <= i < |s| - 1 ==> LineInPlace(lines, h, i) == s[i]
  {
    SingleEdit(lines, h);
    var s, t, p := SourceSide(h.text), TargetSide(h.text), h.startsrc - 1;
    hide SplicedLine, Ordered, Growth, UnifiedEdits, UnifiedEdit, TargetSide, SourceSide, LineInPlace;
    if p + |s| <= |lines| + |t| - |s| {
      forall i | 0 <= i < |s| - 1
        ensures SplicedLine(lines, 0, UnifiedEdits([h]), p + i) == LineInPlace(lines, h, i)
      {
        SingleLine(lines, h, i);
      }
    }
  }

  /** A patch of one hunk: the target side, followed by the kept lines, begins with all but the last
      source-side line. */
  lemma {:induction false} SingleReappliesIff(lines: seq<string>, h: Hunk)
    requires Checkable(h) && Ordered(0, UnifiedEdits([h]), |lines|)
    ensures h.startsrc - 1 + |SourceSide(h.text)| <= |lines|
    ensures var s, t, p := SourceSide(h.text), TargetSide(h.text), h.startsrc - 1;
            Reapplies(lines, [h])
            <==> p + |s| <= |lines| + |t| - |s| && forall i :: 0 <= i < |s| - 1 ==> LineInPlace(lines, h, i) == s[i]
  {
    SingleEdit(lines, h);
    SingleOneIff(lines, h);
    hide ReappliesOne, Ordered, Growth, UnifiedEdits, UnifiedEdit, TargetSide, SourceSide, LineInPlace;
    assert h in [h] && forall g :: g in [h] ==> g == h;
  }

  /** Kept lines in front of hunk k, back to the hunk before. */
  function GapBefore(hunks: seq<Hunk>, k: nat): int
    requires k < |hunks|
  {
    UnifiedEdit(hunks[k]).at - if k == 0 then 0 else UnifiedEdit(hunks[k - 1]).End()
  }

  /** Kept lines behind hunk k, up to the next hunk or the end of the file. */
  function GapAfter(lines: seq<string>, hunks: seq<Hunk>, k: nat): int
    requires k < |hunks|
  {
    (if k + 1 < |hunks| then UnifiedEdit(hunks[k + 1]).at else |lines|) - UnifiedEdit(hunks[k]).End()
  }

  /** Hunk k has not been moved so far that its old place reaches into another hunk's new lines. */
  predicate Within(lines: seq<string>, hunks: seq<Hunk>, k: nat)
    requires k < |hunks|
  {
    var shift := ShiftBefore(hunks, k);
    shift <= GapBefore(hunks, k)
    && |SourceSide(hunks[k].text)| - 1 - shift - |TargetSide(hunks[k].text)| <= GapAfter(lines, hunks, k)
  }

  /** Index x from the hunk's new lines on is a line of the file in front, a new one, or one behind. */
  predicate InReach(lines: seq<string>, h: Hunk, x: int) {
    var n, t := |SourceSide(h.text)|, |TargetSide(h.text)|;
    Checkable(h) && h.startsrc - 1 + n <= |lines| && 0 <= h.startsrc - 1 + x
    && (x >= t ==> h.startsrc - 1 + n + x - t < |lines|)
  }

  function LineAround(lines: seq<string>, h: Hunk, x: int): string
    requires InReach(lines, h, x)
  {
    var n, t := |SourceSide(h.text)|, TargetSide(h.text);
    if x < 0 then lines[h.startsrc - 1 + x]
    else if x < |t| then t[x]
    else lines[h.startsrc - 1 + n + x - |t|]
  }

  /** Line i of the hunk's old place, when the hunk has been moved down by shift lines. */
  predicate SameAround(lines: seq<string>, h: Hunk, shift: int, i: int)
    requires 0 <= i < |SourceSide(h.text)|
  {
    InReach(lines, h, i - shift) && LineAround(lines, h, i - shift) == SourceSide(h.text)[i]
  }

  /** The hunk's source side, its last line left aside, stands at its old place among its new lines
      and the kept lines around them. */
  predicate RepeatsItself(lines: seq<string>, hunks: seq<Hunk>, k: nat)
    requires k < |hunks|
  {
    var h := hunks[k];
    h.startsrc - 1 + |SourceSide(h.text)| <= |lines| + Growth(UnifiedEdits(hunks))
    && forall i :: 0 <= i < |SourceSide(h.text)| - 1 ==> SameAround(lines, h, ShiftBefore(hunks, k), i)
  }

  /** Hunk lists with their shifts, up or down: as long as no hunk's old place reaches into another
      hunk's new lines, the patch reapplies exactly if every hunk repeats itself. */
  lemma {:induction false} ShiftedReapplyIff(lines: seq<string>, hunks: seq<Hunk>)
    requires Ordered(0, UnifiedEdits(hunks), |lines|)
    requires forall k :: 0 <= k < |hunks| ==> Checkable(hunks[k]) && Within(lines, hunks, k)
    ensures Reapplies(lines, hunks) <==> forall k :: 0 <= k < |hunks| ==> RepeatsItself(lines, hunks, k)
  {
    hide ReappliesOne, RepeatsItself, Within, Ordered, UnifiedEdits;
    forall k | 0 <= k < |hunks| ensures ReappliesOne(lines, hunks, hunks[k]) <==> RepeatsItself(lines, hunks, k) {
      ShiftedOneIff(lines, hunks, k);
    }
    assert forall k :: 0 <= k < |hunks| ==> hunks[k] in hunks;
  }

  /** The block of hunk k between its neighbours, before and after. */
  lemma {:induction false} Neighbours(lines: seq<string>, hunks: seq<Hunk>, k: nat)
    requires Ordered(0, UnifiedEdits(hunks), |lines|) && k < |hunks| && Checkable(hunks[k])
    ensures var p, n, t, edits := hunks[k].startsrc - 1, |SourceSide(hunks[k].text)|, TargetSide(hunks[k].text),
                                  UnifiedEdits(hunks);
            edits[k].at == p && edits[k].End() == p + n <= |lines| && edits[k].lines == t
            && (if k == 0 then 0 else edits[k - 1].End()) == p - GapBefore(hunks, k)
            && (if k + 1 < |edits| then edits[k + 1].at else |lines|) == p + n + GapAfter(lines, hunks, k)
            && 0 <= GapBefore(hunks, k) <= p && 0 <= GapAfter(lines, hunks, k) <= |lines| - p - n
            && Growth(edits[..k]) == ShiftBefore(hunks, k)
            && Growth(edits[..k + 1]) == ShiftBefore(hunks, k) + |t| - n
  {
    UnifiedEditAt(hunks, k);
    OrderedAt(0, UnifiedEdits(hunks), |lines|, k);
    if k > 0 {
      UnifiedEditAt(hunks, k - 1);
      OrderedAt(0, UnifiedEdits(hunks), |lines|, k - 1);
    }
    if k + 1 < |hunks| {
      UnifiedEditAt(hunks, k + 1);
      OrderedAt(0, UnifiedEdits(hunks), |lines|, k + 1);
    }
    GrowthNext(UnifiedEdits(hunks), k);
  }

  lemma {:induction false} AroundCases(lines: seq<string>, h: Hunk, before: int, after: int, shift: int, i: nat)
    requires Checkable(h) && h.startsrc - 1 + |SourceSide(h.text)| <= |lines|
    requires before <= h.startsrc - 1 && after <= |lines| - (h.startsrc - 1) - |SourceSide(h.text)|
    requires shift <= before && |SourceSide(h.text)| - 1 - shift - |TargetSide(h.text)| <= after
    requires i < |SourceSide(h.text)| - 1
    ensures var p, n, t, x := h.startsrc - 1, |SourceSide(h.text)|, TargetSide(h.text), i - shift;
            InReach(lines, h, x) && -before <= x && x - |t| < after
            && LineAround(lines, h, x)
               == if x < 0 then lines[p + x] else if x < |t| then t[x] else lines[p + n + x - |t|]
  {
    hide SourceSide, TargetSide;
  }

  lemma {:induction false} WithinMeans(lines: seq<string>, hunks: seq<Hunk>, k: nat)
    requires k < |hunks| && Within(lines, hunks, k) && Checkable(hunks[k])
    ensures var shift := ShiftBefore(hunks, k);
            shift <= GapBefore(hunks, k) && hunks[k].startsrc >= 1
            && |SourceSide(hunks[k].text)| - 1 - shift - |TargetSide(hunks[k].text)| <= GapAfter(lines, hunks, k)
  {
    hide GapBefore, GapAfter, ShiftBefore, SourceSide, TargetSide;
  }

  lemma {:induction false} ShiftedLine(lines: seq<string>, hunks: seq<Hunk>, k: nat, i: nat)
    requires Ordered(0, UnifiedEdits(hunks), |lines|) && k < |hunks| && Checkable(hunks[k]) && Within(lines, hunks, k)
    requires i < |SourceSide(hunks[k].text)| - 1
    ensures var p, edits, x := hunks[k].startsrc - 1, UnifiedEdits(hunks), i - ShiftBefore(hunks, k);
            p + i < |lines| + Growth(edits) && InReach(lines, hunks[k], x)
            && SplicedLine(lines, 0, edits, p + i) == LineAround(lines, hunks[k], x)
  {
    hide *;
    var edits, shift, x := UnifiedEdits(hunks), ShiftBefore(hunks, k), i - ShiftBefore(hunks, k);
    WithinMeans(lines, hunks, k);
    Neighbours(lines, hunks, k);
    AroundCases(lines, hunks[k], GapBefore(hunks, k), GapAfter(lines, hunks, k), shift, i);
    SplicedLineAround(lines, edits, k, GapBefore(hunks, k), GapAfter(lines, hunks, k), x);
  }

  lemma {:induction false} ShiftedOneIff(lines: seq<string>, hunks: seq<Hunk>, k: nat)
    requires Ordered(0, UnifiedEdits(hunks), |lines|) && k < |hunks| && Checkable(hunks[k]) && Within(lines, hunks, k)
    ensures ReappliesOne(lines, hunks, hunks[k]) <==> RepeatsItself(lines, hunks, k)
  {
    var h, p, edits := hunks[k], hunks[k].startsrc - 1, UnifiedEdits(hunks);
    var s := SourceSide(h.text);
    hide SplicedLine, Ordered, UnifiedEdits, ShiftBefore, Growth, SourceSide, TargetSide, Within, InReach, LineAround;
    forall i | 0 <= i < |s| - 1
      ensures p + i < |lines| + Growth(edits)
      ensures SplicedLine(lines, 0, edits, p + i) == s[i] <==> SameAround(lines, h, ShiftBefore(hunks, k), i)
    {
      ShiftedLine(lines, hunks, k, i);
    }
  }

  /** Appending after the source side reapplies to every file it fits. */
  lemma {:induction false} AppendReapplies(lines: seq<string>, h: Hunk)
    requires Checkable(h) && Ordered(0, UnifiedEdits([h]), |lines|) && SourceSide(h.text) <= TargetSide(h.text)
    ensures Reapplies(lines, [h])
  {
    OrderedFits(0, UnifiedEdits([h]), |lines|);
    SingleReappliesIff(lines, h);
  }

  /** The target lines at the very top, if there are any, and the line after them say the same. */
  predicate TopRepeats(lines: seq<string>, hunks: seq<Hunk>)
    requires Ordered(0, UnifiedEdits(hunks), |lines|)
  {
    var t, edits := Leading(0, hunks), UnifiedEdits(hunks);
    0 < |lines| + Growth(edits)
    && (t == [] || (|t| < |lines| + Growth(edits) && SplicedLine(lines, 0, edits, |t|) == t[0]
                    && forall i :: 0 <= i < |t| ==> t[i] == t[0]))
  }

  lemma {:induction false} TopRepeatsIff(lines: seq<string>, hunks: seq<Hunk>)
    requires Ordered(0, UnifiedEdits(hunks), |lines|) && TargetNumbered(0, hunks)
    ensures Found(Splice(lines, 0, UnifiedEdits(hunks)), hunks) <==> TopRepeats(lines, hunks)
  {
    hide Splice, SplicedLine, Ordered, UnifiedEdits, TargetNumbered, Found, Leading, Growth;
    var out, t, edits := Splice(lines, 0, UnifiedEdits(hunks)), Leading(0, hunks), UnifiedEdits(hunks);
    SpliceRecognisedIff(lines, hunks);
    LeadingFirst(lines, 0, 0, hunks);
    SpliceLength(lines, 0, edits);
    if |t| < |out| {
      SplicedLineIs(lines, 0, edits, |t|);
    }
    assert forall i :: 0 <= i < |t| ==> out[i] == t[i];
  }

  /** What applying the same patch to the patched file does, in terms of the file and the patch. */
  lemma {:induction false} SecondTime(file: seq<string>, hunks: seq<Hunk>)
    requires hunks != [] && InSequence(-1, hunks) && RemarksFit(|file|, hunks)
    requires Decided(file, hunks).Rewritten? && TargetNumbered(0, hunks)
    ensures IsPatch(0, hunks, |file|)
    ensures var out, lines := Patched(file, hunks), Contents(file);
            Decided(out, hunks) == if Reapplies(lines, hunks) then Rewritten(Patched(out, hunks))
                                   else if TopRepeats(lines, hunks) then AlreadyPatched
                                   else Different
  {
    var out, lines := Patched(file, hunks), Contents(file);
    AcceptedIsSafe(file, hunks);
    assert hunks[0].startsrc != 0 by {
      AllReady(lines, hunks);
      assert hunks[0] in hunks;
    }
    hide Reapplies, TopRepeats, Found, Patched, ReadyCount, InSequence, RemarksFit, TargetNumbered, Ordered, Splice;
    AcceptedAgainIff(file, hunks);
    TopRepeatsIff(lines, hunks);
  }

  /** After a file was rewritten by a patch that starts below its first line, running apply again
      never finds it different: it is recognised as patched, unless the patch reapplies. */
  lemma {:induction false} RewrittenIsNeverDifferent(file: seq<string>, hunks: seq<Hunk>)
    requires hunks != [] && InSequence(-1, hunks) && RemarksFit(|file|, hunks)
    requires Decided(file, hunks).Rewritten? && Patched(file, hunks) != []
    requires TargetNumbered(0, hunks) && BelowTop(hunks)
    ensures IsPatch(0, hunks, |file|)
    ensures var out := Patched(file, hunks);
            Decided(out, hunks)
            == if Reapplies(Contents(file), hunks) then Rewritten(Patched(out, hunks)) else AlreadyPatched
  {
    AcceptedIsSafe(file, hunks);
    PatchedIsRecognised(file, hunks);
    SecondTime(file, hunks);
  }

  /** `@@ -2,2 +2,3 @@` with the lines a, b and +c. */
  function AppendingHunk(): Hunk {
    Hunk(2, 2, 2, 3, [BodyLine(Context, "a\n"), BodyLine(Context, "b\n"), BodyLine(Added, "c\n")])
  }

  lemma {:induction false} AppendingSides()
    ensures var text := AppendingHunk().text;
            SourceSide(text) == ["a", "b"] && TargetSide(text) == ["a", "b", "c"] && Remarks(text) == 0
  {
    var a, b, c := BodyLine(Context, "a\n"), BodyLine(Context, "b\n"), BodyLine(Added, "c\n");
    SaysLetter('a');
    SaysLetter('b');
    SaysLetter('c');
    hide StripEol, SourceSide, TargetSide, Remarks;
    NoSides();
    SidesStep(c, []);
    SidesStep(b, [c]);
    SidesStep(a, [b, c]);
    assert [c] + [] == [c] && [b] + [c] == [b, c] && [a] + [b, c] == [a, b, c];
  }

  function ShortFile(): seq<string> {
    ["x\n", "a\n", "b\n"]
  }

  lemma {:induction false} ShortFileSays()
    ensures Contents(ShortFile()) == ["x"] + ["a", "b"] + []
  {
    SaysLetter('x');
    SaysLetter('a');
    SaysLetter('b');
    hide StripEol;
  }

  /** The failing case: a hunk that only appends a line is applied a second time. */
  lemma {:induction false} AppendedTwice()
    ensures var file, hunks := ShortFile(), [AppendingHunk()];
            var once := Patched(file, hunks);
            Decided(file, hunks) == Rewritten(once) && Contents(once) == ["x"] + ["a", "b", "c"]
            && Decided(once, hunks) == Rewritten(Patched(once, hunks))
            && Contents(Patched(once, hunks)) == ["x"] + ["a", "b", "c"] + ["c"]
  {
    hide *;
    var file, h := ShortFile(), AppendingHunk();
    var once := Patched(file, [h]);
    AppendingSides();
    ShortFileSays();
    assert h.startsrc == 2 by { AppendingStart(); }
    AppendsOne(file, h, ["x"], []);
    assert ["x"] + ["a", "b", "c"] + [] == ["x"] + ["a", "b", "c"];
    assert ["x"] + ["a", "b", "c"] == ["x"] + ["a", "b"] + ["c"];
    AppendsOne(once, h, ["x"], ["c"]);
  }

  lemma {:induction false} AppendingStart()
    ensures AppendingHunk().startsrc == 2
  {
  }

  lemma {:induction false} SaysLetter(c: char)
    requires !IsEol(c)
    ensures StripEol([c, '\n']) == [c]
  {
    StripEolUnique([c, '\n'], [c]);
  }

  lemma {:induction false} AppendsOne(file: seq<string>, h: Hunk, front: seq<string>, back: seq<string>)
    requires h.startsrc == 2 && |front| == 1 && Remarks(h.text) == 0
    requires SourceSide(h.text) == ["a", "b"] && TargetSide(h.text) == ["a", "b", "c"]
    requires Contents(file) == front + ["a", "b"] + back
    ensures Decided(file, [h]) == Rewritten(Patched(file, [h]))
    ensures Contents(Patched(file, [h])) == front + ["a", "b", "c"] + back
  {
    var lines := Contents(file);
    assert [h][1..] == [];
    assert lines[1..2] == ["a"] && ["a", "b"][..1] == ["a"];
    assert Ready(lines, h);
    assert ReadyCount(lines, [h]) == 1 + ReadyCount(lines, []);
    AcceptedIsSafe(file, [h]);
    var e := UnifiedEdit(h);
    assert UnifiedEdits([h]) == [e];
    SpliceStep(lines, 0, e, []);
    assert lines[0..1] == front && lines[3..] == back;
  }
}
