/** Rendering a patch as a unified diff, and when parsing gives it back. */
module RoundTrip {
  import opened Text
  import opened Hunks
  import opened ParseStream

  // ----- the documents

  /** A hunk with the freedom the format leaves: counts of 1 may be left out, anything may follow
      the ranges, and other lines may follow the body. */
  datatype HunkDoc = HunkDoc(h: Hunk, showsrc: bool, showtgt: bool, tail: string, junk: seq<string>)

  /** The parts of the name lines after the names: a tab and a time stamp, say, and the line end. */
  datatype FileDoc = FileDoc(src: string, srctail: string, tgt: string, tgttail: string, hunks: seq<HunkDoc>)

  datatype PatchDoc = PatchDoc(preamble: seq<string>, files: seq<FileDoc>)

  /** start and count, followed by rest. */
  function RenderRange(start: nat, count: nat, show: bool, rest: string): string {
    Decimal(start) + if count == 1 && !show then rest else "," + (Decimal(count) + rest)
  }

  function RenderHead(d: HunkDoc): string {
    "@@ -" + RenderRange(d.h.startsrc, d.h.linessrc, d.showsrc,
      " +" + RenderRange(d.h.starttgt, d.h.linestgt, d.showtgt, d.tail))
  }

  function RawText(text: seq<BodyLine>): (lines: seq<string>)
    ensures |lines| == |text|
  {
    if text == [] then [] else [Raw(text[0])] + RawText(text[1..])
  }

  function RenderHunk(d: HunkDoc): seq<string> {
    [RenderHead(d)] + (RawText(d.h.text) + d.junk)
  }

  function RenderHunks(hunks: seq<HunkDoc>): seq<string> {
    if hunks == [] then [] else RenderHunk(hunks[0]) + RenderHunks(hunks[1..])
  }

  function RenderFile(f: FileDoc): seq<string> {
    ["--- " + f.src + f.srctail, "+++ " + f.tgt + f.tgttail] + RenderHunks(f.hunks)
  }

  function RenderFiles(files: seq<FileDoc>): seq<string> {
    if files == [] then [] else RenderFile(files[0]) + RenderFiles(files[1..])
  }

  function Render(doc: PatchDoc): seq<string> {
    doc.preamble + RenderFiles(doc.files)
  }

  // ----- well-formed documents

  predicate PlainLine(line: string) {
    !StartsWith(line, "--- ") && !StartsWith(line, "+++ ") && HunkHeadOf(line).None?
  }

  predicate GoodHunk(d: HunkDoc) {
    Complete(d.h) && d.h.text != [] && !IsRemark(d.h.text[|d.h.text| - 1])
    && (d.tail == "" || (!IsDigit(d.tail[0]) && d.tail[0] != ','))
    && forall l :: l in d.junk ==> PlainLine(l)
  }

  predicate GoodFile(f: FileDoc) {
    f.src != "" && '\t' !in f.src && Trimmed(f.src) && f.tgt != "" && '\t' !in f.tgt
    && (var pad := UpToTab(f.srctail); forall i :: 0 <= i < |pad| ==> IsSpace(pad[i]))
    && f.hunks != [] && forall d :: d in f.hunks ==> GoodHunk(d)
  }

  predicate GoodDoc(doc: PatchDoc) {
    doc.files != [] && (forall f :: f in doc.files ==> GoodFile(f))
    && forall l :: l in doc.preamble ==> !StartsWith(l, "--- ")
  }

  // ----- what should come back

  function HunksOf(ds: seq<HunkDoc>): (hs: seq<Hunk>)
    ensures |hs| == |ds|
  {
    if ds == [] then [] else [ds[0].h] + HunksOf(ds[1..])
  }

  function Sources(files: seq<FileDoc>): (r: seq<string>)
    ensures |r| == |files|
  {
    if files == [] then [] else [files[0].src] + Sources(files[1..])
  }

  function Targets(files: seq<FileDoc>): (r: seq<string>)
    ensures |r| == |files|
  {
    if files == [] then [] else [files[0].tgt] + Targets(files[1..])
  }

  function HunkLists(files: seq<FileDoc>): (r: seq<seq<Hunk>>)
    ensures |r| == |files|
  {
    if files == [] then [] else [HunksOf(files[0].hunks)] + HunkLists(files[1..])
  }

  function EndLists(files: seq<FileDoc>): (r: seq<LineEnds>)
    ensures |r| == |files|
  {
    if files == [] then [] else [EndsOf(HunksOf(files[0].hunks))] + EndLists(files[1..])
  }

  function Expected(doc: PatchDoc): Result {
    Parsed(Sources(doc.files), Targets(doc.files), HunkLists(doc.files), EndLists(doc.files))
  }

  // ----- single lines

  lemma {:induction false} ReadsBare(d: string, rest: string)
    requires d != "" && forall i :: 0 <= i < |d| ==> IsDigit(d[i])
    requires rest == "" || (!IsDigit(rest[0]) && rest[0] != ',')
    ensures ReadRange(d + rest) == Some((ToNat(d), 1, rest))
  {
    DigitsOfNumber(d, rest);
    assert (d + rest)[|d|..] == rest;
  }

  lemma {:induction false} ReadsCounted(d: string, c: string, rest: string)
    requires d != "" && forall i :: 0 <= i < |d| ==> IsDigit(d[i])
    requires c != "" && forall i :: 0 <= i < |c| ==> IsDigit(c[i])
    requires rest == "" || !IsDigit(rest[0])
    ensures ReadRange(d + ("," + (c + rest))) == Some((ToNat(d), ToNat(c), rest))
  {
    var more := "," + (c + rest);
    DigitsOfNumber(d, more);
    assert (d + more)[|d|..] == more;
    assert more[1..] == c + rest;
    DigitsOfNumber(c, rest);
    assert more[1 + |c|..] == rest;
  }

  lemma {:induction false} ReadsRange(start: nat, count: nat, show: bool, rest: string)
    requires rest == "" || (!IsDigit(rest[0]) && rest[0] != ',')
    ensures ReadRange(RenderRange(start, count, show, rest)) == Some((start, count, rest))
  {
    DecimalReadsBack(start);
    if count == 1 && !show {
      ReadsBare(Decimal(start), rest);
    } else {
      DecimalReadsBack(count);
      ReadsCounted(Decimal(start), Decimal(count), rest);
    }
  }

  lemma {:induction false} ReadsHead(d: HunkDoc)
    requires d.tail == "" || (!IsDigit(d.tail[0]) && d.tail[0] != ',')
    ensures HunkHeadOf(RenderHead(d)) == Some(d.h.(text := []))
    ensures !StartsWith(RenderHead(d), "--- ") && !StartsWith(RenderHead(d), "+++ ") && BodyLineOf(RenderHead(d)).None?
  {
    hide RenderRange, ReadRange;
    var second := RenderRange(d.h.starttgt, d.h.linestgt, d.showtgt, d.tail);
    ReadsRange(d.h.startsrc, d.h.linessrc, d.showsrc, " +" + second);
    ReadsRange(d.h.starttgt, d.h.linestgt, d.showtgt, d.tail);
    var line := RenderHead(d);
    assert line[4..] == RenderRange(d.h.startsrc, d.h.linessrc, d.showsrc, " +" + second);
    assert (" +" + second)[2..] == second;
    assert line[0] == '@';
  }

  lemma {:induction false} UpToTabConcat(a: string, b: string)
    requires '\t' !in a
    ensures UpToTab(a + b) == a + UpToTab(b)
  {
    if a == "" {
      assert a + b == b;
    } else {
      assert (a + b)[1..] == a[1..] + b;
      UpToTabConcat(a[1..], b);
    }
  }

  /** Body lines are neither hunk heads nor complete names of files. */
  lemma {:induction false} BodyLineIsNoHead(line: BodyLine)
    ensures HunkHeadOf(Raw(line)).None?
  {
    assert Raw(line)[0] == TagChar(line.tag);
  }

  lemma {:induction false} RawTextFrom(text: seq<BodyLine>, i: nat)
    requires i < |text|
    ensures RawText(text[i..]) == [Raw(text[i])] + RawText(text[i + 1..])
  {
    assert text[i..][1..] == text[i + 1..];
  }

  lemma {:induction false} RawTextNoHeads(text: seq<BodyLine>)
    ensures Heads(RawText(text)) == 0
  {
    if text != [] {
      BodyLineIsNoHead(text[0]);
      RawTextNoHeads(text[1..]);
      assert RawText(text)[1..] == RawText(text[1..]);
    }
  }

  lemma {:induction false} RunConcat(st: State, a: seq<string>, b: seq<string>)
    requires Shaped(st)
    ensures Run(st, a + b) == match Run(st, a) case None => None case Some(st') => Run(st', b)
    decreases |a|
  {
    if a == [] {
      assert a + b == b;
    } else {
      assert (a + b)[0] == a[0] && (a + b)[1..] == a[1..] + b;
      if Step(st, a[0]).Some? {
        RunConcat(Step(st, a[0]).value, a[1..], b);
      }
    }
  }

  // ----- a hunk body

  function LastLine(d: HunkDoc): string
    requires d.h.text != []
  {
    Raw(d.h.text[|d.h.text| - 1])
  }

  /** The state inside a hunk body after the lines `done`. */
  function InBody(st: State, h: Hunk, done: seq<BodyLine>): State
    requires st.hunkends != []
  {
    var last := |st.hunkends| - 1;
    st.(region := HunkBody, cur := h.(text := done),
        hunkends := st.hunkends[last := AddText(st.hunkends[last], done)],
        actualsrc := |SourceSide(done)|, actualtgt := |TargetSide(done)|)
  }

  /** The state when the hunk has been stored, before its last line is looked at again. */
  function AfterBody(st: State, h: Hunk): State
    requires Shaped(st) && st.hunks != []
  {
    Store(InBody(st, h, h.text))
  }

  lemma {:induction false} SidesGrow(text: seq<BodyLine>, i: nat)
    requires i <= |text|
    ensures |SourceSide(text[..i])| <= |SourceSide(text)| && |TargetSide(text[..i])| <= |TargetSide(text)|
    ensures i < |text| && !IsRemark(text[|text| - 1]) ==>
              |SourceSide(text[..i])| + |TargetSide(text[..i])| < |SourceSide(text)| + |TargetSide(text)|
  {
    hide *;
    assert text == text[..i] + text[i..];
    SourceSideConcat(text[..i], text[i..]);
    TargetSideConcat(text[..i], text[i..]);
    if i < |text| && !IsRemark(text[|text| - 1]) {
      var n := |text| - 1;
      OneCounts(text[n]);
      assert text[i..] == text[i..n] + [text[n]];
      SourceSideConcat(text[i..n], [text[n]]);
      TargetSideConcat(text[i..n], [text[n]]);
    }
  }

  lemma {:induction false} OneCounts(line: BodyLine)
    requires !IsRemark(line)
    ensures |SourceSide([line])| + |TargetSide([line])| > 0
  {
  }

  lemma {:induction false} TakesLine(st: State, h: Hunk, i: nat)
    requires Shaped(st) && st.hunks != [] && i < |h.text|
    ensures TakeLine(InBody(st, h, h.text[..i]), h.text[i]) == InBody(st, h, h.text[..i + 1])
  {
    var done, more := h.text[..i], h.text[..i + 1];
    assert more == done + [h.text[i]];
    hide AddText, SourceSide, TargetSide;
    TextGrows(st.hunkends[|st.hunkends| - 1], done, h.text[i]);
  }

  lemma {:induction false} BodyStep(st: State, d: HunkDoc, i: nat)
    requires Shaped(st) && st.hunks != [] && GoodHunk(d) && i < |d.h.text|
    ensures Step(InBody(st, d.h, d.h.text[..i]), Raw(d.h.text[i]))
            == Some(if i + 1 == |d.h.text| then SkipStep(AfterBody(st, d.h), LastLine(d))
                    else InBody(st, d.h, d.h.text[..i + 1]))
  {
    RawReadsBack(d.h.text[i]);
    TakesLine(st, d.h, i);
    SidesGrow(d.h.text, i + 1);
    hide BodyLineOf, Raw, SourceSide, TargetSide, HunkHeadOf, SkipStep, AddText;
    if i + 1 == |d.h.text| {
      assert d.h.text[..i + 1] == d.h.text;
    }
  }

  lemma {:induction false} RunCons(st: State, line: string, rest: seq<string>)
    requires Shaped(st)
    ensures Run(st, [line] + rest) == match Step(st, line) case None => None case Some(st') => Run(st', rest)
  {
    assert ([line] + rest)[1..] == rest;
  }

  lemma {:induction false} RunBody(st: State, d: HunkDoc, i: nat)
    requires Shaped(st) && st.hunks != [] && GoodHunk(d) && i < |d.h.text|
    ensures Run(InBody(st, d.h, d.h.text[..i]), RawText(d.h.text[i..]))
            == Some(SkipStep(AfterBody(st, d.h), LastLine(d)))
    decreases |d.h.text| - i
  {
    BodyStep(st, d, i);
    RawTextFrom(d.h.text, i);
    RunCons(InBody(st, d.h, d.h.text[..i]), Raw(d.h.text[i]), RawText(d.h.text[i + 1..]));
    if i + 1 == |d.h.text| {
      assert d.h.text[i + 1..] == [];
      assert Run(SkipStep(AfterBody(st, d.h), LastLine(d)), []) == Some(SkipStep(AfterBody(st, d.h), LastLine(d)));
    } else {
      hide *;
      RunBody(st, d, i + 1);
    }
  }

  // ----- a whole hunk

  /** Whether the hunk's last line reads as the beginning of another file. */
  predicate LooksLikeName(d: HunkDoc) {
    d.h.text != [] && StartsWith(LastLine(d), "--- ")
  }

  /** The name that the last line adds to the source names, if it has one. */
  function BogusName(d: HunkDoc): seq<string> {
    if !LooksLikeName(d) then []
    else
      match NameOf(LastLine(d))
      case None => []
      case Some(name) => [Strip(name)]
  }

  function RegionAfter(d: HunkDoc): Region {
    if !LooksLikeName(d) then HunkSkip
    else if BogusName(d) == [] || d.junk != [] then Header
    else Filenames
  }

  /** The state after all lines of the hunk. */
  function AfterHunk(st: State, d: HunkDoc): State
    requires Shaped(st) && st.hunks != []
  {
    AfterBody(st, d.h).(region := RegionAfter(d), source := st.source + BogusName(d))
  }

  lemma {:induction false} RunPlain(st: State, lines: seq<string>)
    requires Shaped(st) && (st.region.HunkSkip? || st.region.Header? || st.region.Filenames?)
    requires forall l :: l in lines ==> PlainLine(l)
    ensures Run(st, lines)
            == Some(if st.region.Filenames? && lines != [] then st.(region := Header) else st)
    decreases |lines|
  {
    if lines != [] {
      assert PlainLine(lines[0]);
      RunPlain(Step(st, lines[0]).value, lines[1..]);
    }
  }

  lemma {:induction false} EmptyBody(st: State, h: Hunk)
    requires st.hunkends != []
    ensures InBody(st, h, []) == st.(region := HunkBody, cur := h.(text := []), actualsrc := 0, actualtgt := 0)
  {
    var last := |st.hunkends| - 1;
    assert st.hunkends[last := st.hunkends[last]] == st.hunkends;
  }

  lemma {:induction false} HeadBegins(st: State, d: HunkDoc)
    requires Shaped(st) && (st.region.HunkHead? || st.region.HunkSkip?) && GoodHunk(d)
    ensures Step(st, RenderHead(d)) == Some(InBody(st, d.h, []))
  {
    ReadsHead(d);
    EmptyBody(st, d.h);
    hide HunkHeadOf, RenderHead, GoodHunk, NameStep, InBody;
  }

  lemma {:induction false} RunHunk(st: State, d: HunkDoc)
    requires Shaped(st) && (st.region.HunkHead? || st.region.HunkSkip?) && GoodHunk(d)
    ensures Run(st, RenderHunk(d)) == Some(AfterHunk(st, d))
  {
    var text := RawText(d.h.text);
    var begun, last := InBody(st, d.h, []), LastLine(d);
    HeadBegins(st, d);
    var lines := text + d.junk;
    assert RenderHunk(d) == [RenderHead(d)] + lines;
    hide HunkHeadOf, RenderHead, RawText, Step, NameStep, HeadStep, InBody, Run, SourceSide, TargetSide, EndsOf;
    RunCons(st, RenderHead(d), lines);
    assert d.h.text[..0] == [] && d.h.text[0..] == d.h.text;
    RunBody(st, d, 0);
    RunConcat(begun, text, d.junk);
    BodyLineIsNoHead(d.h.text[|d.h.text| - 1]);
    RunPlain(SkipStep(AfterBody(st, d.h), last), d.junk);
    SkipsOrNames(AfterBody(st, d.h), d);
  }

  lemma {:induction false} SkipsOrNames(stored: State, d: HunkDoc)
    requires stored.region.HunkSkip? && d.h.text != []
    ensures var st := SkipStep(stored, LastLine(d));
            (if st.region.Filenames? && d.junk != [] then st.(region := Header) else st)
            == stored.(region := RegionAfter(d), source := stored.source + BogusName(d))
  {
    BodyLineIsNoHead(d.h.text[|d.h.text| - 1]);
    assert stored.source + [] == stored.source;
  }

  // ----- the hunks of a file

  /** All hunks but the last of the file end unambiguously. */
  predicate CleanInside(ds: seq<HunkDoc>) {
    forall i :: 0 <= i < |ds| - 1 ==> !LooksLikeName(ds[i])
  }

  /** The state after the hunks ds of a file whose earlier hunks are in st. */
  function AfterHunks(st: State, ds: seq<HunkDoc>): State
    requires Shaped(st) && st.hunks != []
    decreases |ds|
  {
    if ds == [] then st else AfterHunks(AfterHunk(st, ds[0]), ds[1..])
  }

  lemma {:induction false} RunHunks(st: State, ds: seq<HunkDoc>)
    requires Shaped(st) && st.hunks != [] && (st.region.HunkHead? || st.region.HunkSkip?)
    requires (forall d :: d in ds ==> GoodHunk(d)) && CleanInside(ds)
    ensures Run(st, RenderHunks(ds)) == Some(AfterHunks(st, ds))
    decreases |ds|
  {
    if ds != [] {
      RunHunk(st, ds[0]);
      RunConcat(st, RenderHunk(ds[0]), RenderHunks(ds[1..]));
      if |ds| > 1 {
        RunHunks(AfterHunk(st, ds[0]), ds[1..]);
      } else {
        assert ds[1..] == [];
      }
    }
  }

  lemma {:induction false} AfterHunkLists(st: State, d: HunkDoc, files: seq<seq<Hunk>>, had: seq<Hunk>,
                                          ends: seq<LineEnds>)
    requires Shaped(st) && st.hunks == files + [had] && st.hunkends == ends + [EndsOf(had)]
    ensures AfterHunk(st, d).hunks == files + [had + [d.h]]
    ensures AfterHunk(st, d).hunkends == ends + [EndsOf(had + [d.h])]
  {
    var had' := had + [d.h];
    assert had'[..|had'| - 1] == had && d.h.(text := d.h.text) == d.h;
    assert |ends| == |files|;
  }

  lemma {:induction false} AfterNone(st: State)
    requires Shaped(st) && st.hunks != []
    ensures AfterHunks(st, []) == st && HunksOf([]) == []
  {
  }

  lemma {:induction false} AfterHunksStep(st: State, d: HunkDoc, rest: seq<HunkDoc>, ds: seq<HunkDoc>)
    requires Shaped(st) && st.hunks != [] && CleanInside(ds) && ds != [] && ds[0] == d && ds[1..] == rest
    ensures Shaped(AfterHunk(st, d)) && AfterHunk(st, d).hunks != [] && CleanInside(rest)
    ensures AfterHunks(st, ds) == AfterHunks(AfterHunk(st, d), rest) && HunksOf(ds) == [d.h] + HunksOf(rest)
    ensures var next := AfterHunk(st, d);
            next.target == st.target && next.region == RegionAfter(d)
            && next.source == if rest == [] then st.source + BogusName(d) else st.source
  {
    assert st.source + [] == st.source;
    assert rest != [] ==> !LooksLikeName(ds[0]);
    assert forall i :: 0 <= i < |rest| ==> rest[i] == ds[i + 1];
  }

  /** The lists after the hunks of a file: only the entries of the last file grow. */
  lemma {:induction false} AfterHunksLists(st: State, ds: seq<HunkDoc>, files: seq<seq<Hunk>>, had: seq<Hunk>,
                                           ends: seq<LineEnds>)
    requires Shaped(st) && CleanInside(ds) && ds != []
    requires st.hunks == files + [had] && st.hunkends == ends + [EndsOf(had)]
    ensures var r := AfterHunks(st, ds);
            r.hunks == files + [had + HunksOf(ds)] && r.hunkends == ends + [EndsOf(had + HunksOf(ds))]
            && r.target == st.target && r.source == st.source + BogusName(ds[|ds| - 1])
            && r.region == RegionAfter(ds[|ds| - 1])
    decreases |ds|
  {
    hide *;
    var d, rest := ds[0], ds[1..];
    var next := AfterHunk(st, d);
    AfterHunksStep(st, d, rest, ds);
    AfterHunkLists(st, d, files, had, ends);
    assert had + [d.h] + HunksOf(rest) == had + HunksOf(ds);
    if rest == [] {
      AfterNone(next);
      assert had + [d.h] + [] == had + [d.h];
    } else {
      AfterHunksLists(next, rest, files, had + [d.h], ends);
    }
  }

  // ----- whole files

  /** The bogus source name that the file's last hunk adds, if any. */
  function BogusOf(f: FileDoc): seq<string> {
    if f.hunks == [] then [] else BogusName(f.hunks[|f.hunks| - 1])
  }

  function RegionAfterFile(f: FileDoc): Region {
    if f.hunks == [] then HunkSkip else RegionAfter(f.hunks[|f.hunks| - 1])
  }

  /** The target name as parsed: whatever stands before the first tab, line end included. */
  function TargetRead(f: FileDoc): string {
    f.tgt + UpToTab(f.tgttail)
  }

  function SourcesRead(files: seq<FileDoc>): seq<string> {
    if files == [] then [] else ([files[0].src] + BogusOf(files[0])) + SourcesRead(files[1..])
  }

  function TargetsRead(files: seq<FileDoc>): (r: seq<string>)
    ensures |r| == |files|
  {
    if files == [] then [] else [TargetRead(files[0])] + TargetsRead(files[1..])
  }

  /** A file header is understood here. */
  predicate Between(r: Region) {
    r.Header? || r.Filenames? || r.HunkSkip?
  }

  function NameLines(f: FileDoc): seq<string> {
    ["--- " + f.src + f.srctail, "+++ " + f.tgt + f.tgttail]
  }

  lemma {:induction false} ReadsSourceName(f: FileDoc)
    requires GoodFile(f)
    ensures var a := NameLines(f)[0];
            StartsWith(a, "--- ") && HunkHeadOf(a).None?
            && NameOf(a) == Some(f.src + UpToTab(f.srctail))
  {
    var a := NameLines(f)[0];
    assert a[4..] == f.src + f.srctail && a[..4] == "--- ";
    UpToTabConcat(f.src, f.srctail);
    assert a[0] == '-';
  }

  lemma {:induction false} SourceName(st: State, f: FileDoc)
    requires Shaped(st) && Between(st.region) && GoodFile(f)
    ensures Step(st, NameLines(f)[0]) == Some(st.(region := Filenames, source := st.source + [f.src]))
  {
    ReadsSourceName(f);
    StripPadded(f.src, UpToTab(f.srctail));
    hide HunkHeadOf, NameOf, NameLines, Strip, StartsWith;
  }

  lemma {:induction false} TargetName(st: State, f: FileDoc)
    requires Shaped(st) && st.region.Filenames? && GoodFile(f)
    ensures Step(st, NameLines(f)[1])
            == Some(st.(region := HunkHead, target := st.target + [TargetRead(f)],
                        hunks := st.hunks + [[]], hunkends := st.hunkends + [NONE_SEEN]))
  {
    var b := NameLines(f)[1];
    assert b[4..] == f.tgt + f.tgttail && b[..4] == "+++ " && b[0] == '+';
    UpToTabConcat(f.tgt, f.tgttail);
  }

  lemma {:induction false} RunNames(st: State, f: FileDoc)
    requires Shaped(st) && Between(st.region) && GoodFile(f)
    ensures Run(st, NameLines(f))
            == Some(st.(region := HunkHead, source := st.source + [f.src], target := st.target + [TargetRead(f)],
                        hunks := st.hunks + [[]], hunkends := st.hunkends + [NONE_SEEN]))
  {
    SourceName(st, f);
    var named := st.(region := Filenames, source := st.source + [f.src]);
    TargetName(named, f);
    assert NameLines(f)[1..] == [NameLines(f)[1]];
    assert Run(named, [NameLines(f)[1]]) == Step(named, NameLines(f)[1]);
  }

  /** One file leaves its names, its hunks and their statistics, and perhaps a bogus name. */
  lemma {:induction false} RunFile(st: State, f: FileDoc)
    requires Shaped(st) && Between(st.region) && GoodFile(f) && CleanInside(f.hunks)
    ensures var r := Run(st, RenderFile(f));
            r.Some?
            && r.value.source == st.source + ([f.src] + BogusOf(f))
            && r.value.target == st.target + [TargetRead(f)]
            && r.value.hunks == st.hunks + [HunksOf(f.hunks)]
            && r.value.hunkends == st.hunkends + [EndsOf(HunksOf(f.hunks))]
            && r.value.region == RegionAfterFile(f)
  {
    RunNames(st, f);
    assert GoodFile(f) && EndsOf([]) == NONE_SEEN;
    assert [] + HunksOf(f.hunks) == HunksOf(f.hunks);
    SeqAssoc(st.source, [f.src], BogusOf(f));
    assert RenderFile(f) == NameLines(f) + RenderHunks(f.hunks);
    hide NameLines, RenderHunks, AfterHunks, HunksOf, BogusName, RegionAfter, TargetRead, Run, RenderFile, EndsOf;
    hide GoodHunk;
    var begun := Run(st, NameLines(f)).value;
    RunConcat(st, NameLines(f), RenderHunks(f.hunks));
    RunHunks(begun, f.hunks);
    AfterHunksLists(begun, f.hunks, st.hunks, [], st.hunkends);
  }

  /** What the files add to the parser's lists. */
  ghost predicate Adds(st: State, r: Option<State>, files: seq<FileDoc>) {
    r.Some?
    && r.value.source == st.source + SourcesRead(files)
    && r.value.target == st.target + TargetsRead(files)
    && r.value.hunks == st.hunks + HunkLists(files)
    && r.value.hunkends == st.hunkends + EndLists(files)
  }

  lemma {:induction false} AddsMore(st: State, next: State, r: Option<State>, f: FileDoc, rest: seq<FileDoc>)
    requires next.source == st.source + ([f.src] + BogusOf(f)) && next.target == st.target + [TargetRead(f)]
    requires next.hunks == st.hunks + [HunksOf(f.hunks)] && next.hunkends == st.hunkends + [EndsOf(HunksOf(f.hunks))]
    requires Adds(next, r, rest)
    ensures Adds(st, r, [f] + rest)
  {
    assert ([f] + rest)[1..] == rest;
    SeqAssoc(st.source, [f.src] + BogusOf(f), SourcesRead(rest));
    SeqAssoc(st.target, [TargetRead(f)], TargetsRead(rest));
    SeqAssoc(st.hunks, [HunksOf(f.hunks)], HunkLists(rest));
    SeqAssoc(st.hunkends, [EndsOf(HunksOf(f.hunks))], EndLists(rest));
  }

  lemma {:induction false} RunFiles(st: State, files: seq<FileDoc>)
    requires Shaped(st) && Between(st.region) && files != []
    requires forall f :: f in files ==> GoodFile(f) && CleanInside(f.hunks)
    ensures Adds(st, Run(st, RenderFiles(files)), files)
    ensures Run(st, RenderFiles(files)).value.region == RegionAfterFile(files[|files| - 1])
    decreases |files|
  {
    var f, rest := files[0], files[1..];
    RunFile(st, f);
    var next := Run(st, RenderFile(f)).value;
    RunConcat(st, RenderFile(f), RenderFiles(rest));
    if rest == [] {
      assert RenderFiles(rest) == [] && Run(next, []) == Some(next);
      NothingAdded(next);
    } else {
      RunFiles(next, rest);
    }
    AddsMore(st, next, Run(next, RenderFiles(rest)), f, rest);
    assert [f] + rest == files;
  }

  lemma {:induction false} NothingAdded(st: State)
    ensures Adds(st, Some(st), [])
  {
    assert st.source + [] == st.source && st.target + [] == st.target;
    assert st.hunks + [] == st.hunks && st.hunkends + [] == st.hunkends;
  }

  // ----- lost hunks

  function Heads(lines: seq<string>): nat {
    if lines == [] then 0 else (if HunkHeadOf(lines[0]).Some? then 1 else 0) + Heads(lines[1..])
  }

  function Sum(hunks: seq<seq<Hunk>>): nat {
    if hunks == [] then 0 else Sum(hunks[..|hunks| - 1]) + |hunks[|hunks| - 1]|
  }

  /** Hunks stored or being read. */
  function Gained(st: State): nat {
    Sum(st.hunks) + if st.region.HunkBody? then 1 else 0
  }

  lemma {:induction false} StepGains(st: State, line: string)
    requires Shaped(st) && Step(st, line).Some?
    ensures Gained(Step(st, line).value) <= Gained(st) + if HunkHeadOf(line).Some? then 1 else 0
  {
    hide HunkHeadOf, NameOf;
    assert (st.hunks + [[]])[..|st.hunks|] == st.hunks;
    if st.region.HunkBody? {
      BodyLineIsNoHead(BodyLineOf(line).value);
      var st' := TakeLine(st, BodyLineOf(line).value);
      var last := |st.hunks| - 1;
      var stored := Store(st').hunks;
      assert stored[..last] == st.hunks[..last];
      assert (stored + [[]])[..|stored|] == stored;
    }
  }

  lemma {:induction false} RunGains(st: State, lines: seq<string>)
    requires Shaped(st) && Run(st, lines).Some?
    ensures Gained(Run(st, lines).value) <= Gained(st) + Heads(lines)
    decreases |lines|
  {
    if lines != [] {
      StepGains(st, lines[0]);
      RunGains(Step(st, lines[0]).value, lines[1..]);
    }
  }

  lemma {:induction false} HeadsConcat(a: seq<string>, b: seq<string>)
    ensures Heads(a + b) == Heads(a) + Heads(b)
  {
    if a == [] {
      assert a + b == b;
    } else {
      assert (a + b)[1..] == a[1..] + b;
      HeadsConcat(a[1..], b);
    }
  }

  lemma {:induction false} NoHeads(lines: seq<string>)
    requires forall l :: l in lines ==> HunkHeadOf(l).None?
    ensures Heads(lines) == 0
  {
    if lines != [] {
      NoHeads(lines[1..]);
    }
  }

  lemma {:induction false} HeadsOfHunk(d: HunkDoc)
    requires GoodHunk(d)
    ensures Heads(RenderHunk(d)) == 1
  {
    ReadsHead(d);
    var lines := RawText(d.h.text) + d.junk;
    assert RenderHunk(d)[1..] == lines;
    RawTextNoHeads(d.h.text);
    NoHeads(d.junk);
    HeadsConcat(RawText(d.h.text), d.junk);
  }

  lemma {:induction false} HeadsOfHunks(ds: seq<HunkDoc>)
    requires forall d :: d in ds ==> GoodHunk(d)
    ensures Heads(RenderHunks(ds)) == |ds|
  {
    if ds != [] {
      HeadsOfHunk(ds[0]);
      HeadsOfHunks(ds[1..]);
      HeadsConcat(RenderHunk(ds[0]), RenderHunks(ds[1..]));
    }
  }

  function TotalHunks(files: seq<FileDoc>): nat {
    if files == [] then 0 else |files[0].hunks| + TotalHunks(files[1..])
  }

  lemma {:induction false} NamesAreNoHeads(f: FileDoc)
    ensures Heads(NameLines(f)) == 0
  {
    assert NameLines(f)[0][0] == '-' && NameLines(f)[1][0] == '+';
    NoHeads(NameLines(f));
  }

  lemma {:induction false} HeadsOfFile(f: FileDoc)
    requires GoodFile(f)
    ensures Heads(RenderFile(f)) == |f.hunks|
  {
    NamesAreNoHeads(f);
    HeadsOfHunks(f.hunks);
    HeadsConcat(NameLines(f), RenderHunks(f.hunks));
  }

  lemma {:induction false} HeadsOfFiles(files: seq<FileDoc>)
    requires forall f :: f in files ==> GoodFile(f)
    ensures Heads(RenderFiles(files)) == TotalHunks(files)
  {
    if files != [] {
      HeadsOfFile(files[0]);
      HeadsOfFiles(files[1..]);
      HeadsConcat(RenderFile(files[0]), RenderFiles(files[1..]));
    }
  }

  /** Outside hunkhead and hunkskip the first hunk is not read. */
  lemma {:induction false} HeadIgnored(st: State, ds: seq<HunkDoc>)
    requires Shaped(st) && (st.region.Header? || st.region.Filenames?) && ds != []
    requires forall d :: d in ds ==> GoodHunk(d)
    ensures var r := Run(st, RenderHunks(ds)); r.None? || Gained(r.value) < Gained(st) + |ds|
  {
    assert GoodHunk(ds[0]);
    ReadsHead(ds[0]);
    HeadsOfHunks(ds);
    hide HunkHeadOf, RenderHead, GoodHunk, Sum;
    var lines, after := RenderHunks(ds), st.(region := Header);
    assert lines[0] == RenderHead(ds[0]);
    assert Step(st, lines[0]) == Some(after);
    if Run(after, lines[1..]).Some? {
      RunGains(after, lines[1..]);
    }
  }

  /** A hunk after one that looks like a file name is never read. */
  lemma {:induction false} LosesHunk(st: State, ds: seq<HunkDoc>)
    requires Shaped(st) && st.hunks != [] && (st.region.HunkHead? || st.region.HunkSkip?)
    requires (forall d :: d in ds ==> GoodHunk(d)) && !CleanInside(ds)
    ensures var r := Run(st, RenderHunks(ds)); r.None? || Gained(r.value) < Gained(st) + |ds|
    decreases |ds|
  {
    hide RenderHunk, AfterBody, BogusName, Gained, Run;
    var next, rest := AfterHunk(st, ds[0]), ds[1..];
    RunHunk(st, ds[0]);
    RunConcat(st, RenderHunk(ds[0]), RenderHunks(rest));
    assert Gained(next) <= Gained(st) + 1 by {
      RunGains(st, RenderHunk(ds[0]));
      HeadsOfHunk(ds[0]);
    }
    if LooksLikeName(ds[0]) {
      HeadIgnored(next, rest);
    } else {
      LosesHunk(next, rest);
    }
  }

  lemma {:induction false} LosesHunkOfFile(st: State, f: FileDoc)
    requires Shaped(st) && Between(st.region) && GoodFile(f) && !CleanInside(f.hunks)
    ensures var r := Run(st, RenderFile(f)); r.None? || Gained(r.value) < Gained(st) + |f.hunks|
  {
    RunNames(st, f);
    RunGains(st, NameLines(f));
    NamesAreNoHeads(f);
    RunConcat(st, NameLines(f), RenderHunks(f.hunks));
    LosesHunk(Run(st, NameLines(f)).value, f.hunks);
  }

  lemma {:induction false} LosesHunkOfFiles(st: State, files: seq<FileDoc>)
    requires Shaped(st) && Between(st.region)
    requires (forall f :: f in files ==> GoodFile(f)) && exists f :: f in files && !CleanInside(f.hunks)
    ensures var r := Run(st, RenderFiles(files)); r.None? || Gained(r.value) < Gained(st) + TotalHunks(files)
    decreases |files|
  {
    var f, rest := files[0], files[1..];
    RunConcat(st, RenderFile(f), RenderFiles(rest));
    HeadsOfFile(f);
    var r := Run(st, RenderFile(f));
    if CleanInside(f.hunks) {
      RunFile(st, f);
      RunGains(st, RenderFile(f));
      LosesHunkOfFiles(r.value, rest);
    } else if r.Some? {
      LosesHunkOfFile(st, f);
      HeadsOfFiles(rest);
      if Run(r.value, RenderFiles(rest)).Some? {
        RunGains(r.value, RenderFiles(rest));
      }
    }
  }

  // ----- the round trip

  /** Every target name ends at a tab or at the end of its line, no last line of a hunk can be
      taken for a file name where that matters, and the patch does not end in such a line. */
  predicate Recoverable(files: seq<FileDoc>) {
    (forall f :: f in files ==> CleanInside(f.hunks))
    && (forall f :: f in files ==> BogusOf(f) == [])
    && (forall f :: f in files ==> UpToTab(f.tgttail) == "")
    && (files != [] ==> RegionAfterFile(files[|files| - 1]).HunkSkip?)
  }

  lemma {:induction false} SourcesReadIff(files: seq<FileDoc>)
    ensures |SourcesRead(files)| >= |files|
    ensures SourcesRead(files) == Sources(files) <==> forall f :: f in files ==> BogusOf(f) == []
    ensures |SourcesRead(files)| == |files| ==> SourcesRead(files) == Sources(files)
  {
    if files != [] {
      var f, rest := files[0], files[1..];
      SourcesReadIff(rest);
      assert files == [f] + rest;
      if BogusOf(f) == [] {
        assert [f.src] + BogusOf(f) == [f.src];
        assert SourcesRead(files)[1..] == SourcesRead(rest) && Sources(files)[1..] == Sources(rest);
      } else {
        assert |SourcesRead(files)| > |files|;
        assert f in files;
      }
    }
  }

  lemma {:induction false} TargetsReadIff(files: seq<FileDoc>)
    ensures TargetsRead(files) == Targets(files) <==> forall f :: f in files ==> UpToTab(f.tgttail) == ""
  {
    if files != [] {
      var f, rest := files[0], files[1..];
      TargetsReadIff(rest);
      assert files == [f] + rest;
      assert TargetsRead(files)[1..] == TargetsRead(rest) && Targets(files)[1..] == Targets(rest);
      assert TargetRead(f) == f.tgt <==> UpToTab(f.tgttail) == "" by {
        assert f.tgt + "" == f.tgt;
      }
      assert TargetsRead(files) == [TargetRead(f)] + TargetsRead(rest);
      assert Targets(files) == [f.tgt] + Targets(rest);
    }
  }

  lemma {:induction false} SumOfLists(files: seq<FileDoc>)
    ensures Sum(HunkLists(files)) == TotalHunks(files)
  {
    if files != [] {
      SumOfLists(files[1..]);
      SumConcat([HunksOf(files[0].hunks)], HunkLists(files[1..]));
      assert [HunksOf(files[0].hunks)][..0] == [];
    }
  }

  lemma {:induction false} SumConcat(a: seq<seq<Hunk>>, b: seq<seq<Hunk>>)
    ensures Sum(a + b) == Sum(a) + Sum(b)
    decreases |b|
  {
    if b == [] {
      assert a + b == a;
    } else {
      assert (a + b)[..|a + b| - 1] == a + b[..|b| - 1];
      SumConcat(a, b[..|b| - 1]);
    }
  }

  lemma {:induction false} RunPreamble(lines: seq<string>)
    requires forall l :: l in lines ==> !StartsWith(l, "--- ")
    ensures Run(START, lines) == Some(START)
  {
    if lines != [] {
      RunPreamble(lines[1..]);
    }
  }

  lemma {:induction false} FromNothing(r: Option<State>, files: seq<FileDoc>)
    requires Adds(START, r, files)
    ensures r.value.source == SourcesRead(files) && r.value.target == TargetsRead(files)
    ensures r.value.hunks == HunkLists(files) && r.value.hunkends == EndLists(files)
  {
  }

  lemma {:induction false} CleanRoundTripIff(files: seq<FileDoc>)
    requires files != [] && forall f :: f in files ==> GoodFile(f) && CleanInside(f.hunks)
    ensures Finish(Run(START, RenderFiles(files)))
            == Parsed(Sources(files), Targets(files), HunkLists(files), EndLists(files))
            <==> Recoverable(files)
  {
    RunFiles(START, files);
    var run := Run(START, RenderFiles(files));
    FromNothing(run, files);
    SourcesReadIff(files);
    TargetsReadIff(files);
  }

  /** Parsing the rendering of a patch gives the patch back exactly if it is recoverable. */
  lemma {:induction false} ParseRenderIff(doc: PatchDoc)
    requires GoodDoc(doc)
    ensures Parse(Render(doc)) == Expected(doc) <==> Recoverable(doc.files)
  {
    var files := doc.files;
    RunPreamble(doc.preamble);
    RunConcat(START, doc.preamble, RenderFiles(files));
    if forall f :: f in files ==> CleanInside(f.hunks) {
      CleanRoundTripIff(files);
    } else {
      LosesHunkOfFiles(START, files);
      SumOfLists(files);
    }
  }
}
