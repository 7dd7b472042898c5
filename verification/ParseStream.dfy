/** PatchInfo.parse_stream: the line-driven parser for unified diffs. */
module ParseStream {
  import opened Text
  import opened Hunks

  // ----- the patterns

  /** (\d+)(,(\d+))? at the front of s: start, count (1 if left out) and what follows. */
  function ReadRange(s: string): Option<(nat, nat, string)> {
    var d := Digits(s);
    var rest := s[|d|..];
    if d == "" then None
    else if rest != "" && rest[0] == ',' && Digits(rest[1..]) != "" then
      var c := Digits(rest[1..]);
      Some((ToNat(d), ToNat(c), rest[1 + |c|..]))
    else Some((ToNat(d), 1, rest))
  }

  /** The hunk head pattern ^@@ -(\d+)(,(\d+))? \+(\d+)(,(\d+))? : a hunk without text. */
  function HunkHeadOf(line: string): (r: Option<Hunk>)
    ensures r.Some? ==> r.value.text == []
  {
    if !StartsWith(line, "@@ -") then None
    else
      match ReadRange(line[4..])
      case None => None
      case Some((startsrc, linessrc, rest)) =>
        if !StartsWith(rest, " +") then None
        else
          match ReadRange(rest[2..])
          case None => None
          case Some((starttgt, linestgt, _)) => Some(Hunk(startsrc, linessrc, starttgt, linestgt, []))
  }

  predicate AllDigits(s: string) {
    s != "" && forall i :: 0 <= i < |s| ==> IsDigit(s[i])
  }

  lemma {:induction false} AllDigitsRead(s: string)
    ensures Digits(s) != "" ==> AllDigits(Digits(s))
  {
  }

  lemma {:induction false} FrontAndRest(front: string, s: string)
    requires front <= s
    ensures s == front + s[|front|..]
  {
  }

  lemma {:induction false} CountAndRest(more: string, c: string)
    requires more != "" && more[0] == ',' && c <= more[1..]
    ensures 1 + |c| <= |more| && more == "," + c + more[1 + |c|..] && ("," + c)[1..] == c
  {
    FrontAndRest(c, more[1..]);
    assert more[1..][|c|..] == more[1 + |c|..];
  }

  lemma {:induction false} ReadRangeCounted(s: string)
    requires Digits(s) != ""
    requires var more := s[|Digits(s)|..]; more != "" && more[0] == ',' && Digits(more[1..]) != ""
    ensures var more := s[|Digits(s)|..];
            var c := Digits(more[1..]);
            1 + |c| <= |more| && ReadRange(s) == Some((ToNat(Digits(s)), ToNat(c), more[1 + |c|..]))
  {
    hide ToNat, Digits;
  }

  lemma {:induction false} ReadRangeUncounted(s: string)
    requires Digits(s) != ""
    requires var more := s[|Digits(s)|..]; more == "" || more[0] != ',' || Digits(more[1..]) == ""
    ensures ReadRange(s) == Some((ToNat(Digits(s)), 1, s[|Digits(s)|..]))
  {
    hide ToNat, Digits;
  }

  /** A range as it stands in a line: digits, and perhaps a comma and digits. */
  lemma {:induction false} RangeShape(s: string) returns (start: string, count: string, rest: string)
    requires ReadRange(s).Some?
    ensures AllDigits(start) && (count == "" || (count[0] == ',' && AllDigits(count[1..])))
    ensures s == start + count + rest
    ensures ReadRange(s).value == (ToNat(start), if count == "" then 1 else ToNat(count[1..]), rest)
  {
    hide AllDigits, ToNat, Digits;
    start := Digits(s);
    AllDigitsRead(s);
    var more := s[|start|..];
    assert s == start + more by {
      FrontAndRest(start, s);
    }
    hide *;
    if more != "" && more[0] == ',' && Digits(more[1..]) != "" {
      var c := Digits(more[1..]);
      AllDigitsRead(more[1..]);
      count, rest := "," + c, more[1 + |c|..];
      CountAndRest(more, c);
      ReadRangeCounted(s);
    } else {
      count, rest := "", more;
      ReadRangeUncounted(s);
    }
  }

  /** Every line that is taken for a hunk head has the form of one, and its numbers are those read. */
  lemma {:induction false} HeadShape(line: string)
      returns (s: string, sc: string, t: string, tc: string, rest: string)
    requires HunkHeadOf(line).Some?
    ensures AllDigits(s) && (sc == "" || (sc[0] == ',' && AllDigits(sc[1..])))
    ensures AllDigits(t) && (tc == "" || (tc[0] == ',' && AllDigits(tc[1..])))
    ensures line == "@@ -" + s + sc + " +" + t + tc + rest
    ensures HunkHeadOf(line).value == Hunk(ToNat(s), if sc == "" then 1 else ToNat(sc[1..]),
                                           ToNat(t), if tc == "" then 1 else ToNat(tc[1..]), [])
  {
    hide ReadRange, AllDigits, ToNat, IsDigit;
    var more;
    s, sc, more := RangeShape(line[4..]);
    t, tc, rest := RangeShape(more[2..]);
    assert line == "@@ -" + line[4..] && more == " +" + more[2..];
    assert line == "@@ -" + (s + sc + (" +" + (t + tc + rest)));
  }

  function UpToTab(s: string): string {
    if s == "" || s[0] == '\t' then "" else [s[0]] + UpToTab(s[1..])
  }

  /** The name patterns ^--- ([^\t]+) and ^\+\+\+ ([^\t]+) on a line that begins so. */
  function NameOf(line: string): Option<string>
    requires |line| >= 4
  {
    var name := UpToTab(line[4..]);
    if name == "" then None else Some(name)
  }

  // ----- the parser's state

  datatype Region = Header | Filenames | HunkHead | HunkBody | HunkSkip

  datatype State = State(
    region: Region,
    source: seq<string>, target: seq<string>,
    hunks: seq<seq<Hunk>>, hunkends: seq<LineEnds>,
    cur: Hunk, actualsrc: nat, actualtgt: nat)

  const START := State(Header, [], [], [], [], Hunk(0, 0, 0, 0, []), 0, 0)

  function AddText(ends: LineEnds, text: seq<BodyLine>): LineEnds {
    if text == [] then ends else AddText(ends, text[..|text| - 1]).Add(Raw(text[|text| - 1]))
  }

  /** Line-end statistics of a file's hunks. */
  function EndsOf(hunks: seq<Hunk>): LineEnds {
    if hunks == [] then NONE_SEEN else AddText(EndsOf(hunks[..|hunks| - 1]), hunks[|hunks| - 1].text)
  }

  // ----- one line

  /** In the file names: `---` starts a file, `+++` completes it, anything else gives up. */
  function NameStep(st: State, line: string): State {
    if StartsWith(line, "--- ") then
      match NameOf(line)
      case None => st.(region := Header)
      case Some(name) => st.(region := Filenames, source := st.source + [Strip(name)])
    else if !StartsWith(line, "+++ ") then st.(region := Header)
    else
      match NameOf(line)
      case None => st.(region := Header)
      case Some(name) =>
        st.(region := HunkHead, target := st.target + [name],
            hunks := st.hunks + [[]], hunkends := st.hunkends + [NONE_SEEN])
  }

  /** Where a hunk head is expected. */
  function HeadStep(st: State, line: string): State {
    match HunkHeadOf(line)
    case None => st.(region := Header)
    case Some(head) => st.(region := HunkBody, cur := head, actualsrc := 0, actualtgt := 0)
  }

  /** Between hunks. */
  function SkipStep(st: State, line: string): State {
    if HunkHeadOf(line).Some? then HeadStep(st, line)
    else if StartsWith(line, "--- ") then NameStep(st, line)
    else st.(region := HunkSkip)
  }

  /** A tagged line joins the current hunk. */
  function TakeLine(st: State, line: BodyLine): State
    requires st.hunkends != []
  {
    var last := |st.hunkends| - 1;
    st.(hunkends := st.hunkends[last := st.hunkends[last].Add(Raw(line))],
        cur := st.cur.(text := st.cur.text + [line]),
        actualsrc := st.actualsrc + (if OnSource(line) then 1 else 0),
        actualtgt := st.actualtgt + (if OnTarget(line) then 1 else 0))
  }

  /** The current hunk is complete and stored. */
  function Store(st: State): State
    requires st.hunks != []
  {
    var last := |st.hunks| - 1;
    st.(region := HunkSkip, hunks := st.hunks[last := st.hunks[last] + [st.cur]])
  }

  /** The lists grow together, and hunks are read only for a named file. */
  predicate Shaped(st: State) {
    |st.target| == |st.hunks| == |st.hunkends|
    && (st.region.Header? || st.region.Filenames? || st.target != [])
  }

  /** One line of the stream; None is the TypeError of assigning an item of a HunkInfo, which the
      code meets on a line without tag and on a line too many. */
  function Step(st: State, line: string): (r: Option<State>)
    requires Shaped(st)
    ensures r.Some? ==> Shaped(r.value)
  {
    match st.region
    case Header => Some(if StartsWith(line, "--- ") then NameStep(st, line) else st)
    case Filenames => Some(NameStep(st, line))
    case HunkHead => Some(HeadStep(st, line))
    case HunkSkip => Some(SkipStep(st, line))
    case HunkBody =>
      match BodyLineOf(line)
      case None => None
      case Some(bodyline) =>
        var st' := TakeLine(st, bodyline);
        if st'.actualsrc > st'.cur.linessrc || st'.actualtgt > st'.cur.linestgt then None
        else if st'.actualsrc == st'.cur.linessrc && st'.actualtgt == st'.cur.linestgt then
          Some(SkipStep(Store(st'), line))
        else Some(st')
  }

  // What single lines do, by what they begin with.

  /** Lines that change nothing, and lines that give up the file or hunk that was expected. */
  lemma {:induction false} StrayLines(st: State, line: string)
    requires Shaped(st)
    ensures st.region.Header? && !StartsWith(line, "--- ") ==> Step(st, line) == Some(st)
    ensures st.region.HunkSkip? && !StartsWith(line, "--- ") && !StartsWith(line, "@@ -") ==> Step(st, line) == Some(st)
    ensures st.region.HunkHead? && !StartsWith(line, "@@ -") ==> Step(st, line) == Some(st.(region := Header))
    ensures st.region.Filenames? && !StartsWith(line, "--- ") && !StartsWith(line, "+++ ") ==>
              Step(st, line) == Some(st.(region := Header))
  {
  }

  /** Name lines: a name reaches up to a tab and must not be empty. A source name is stripped, a target name
      is not, and starts a new list of hunks. */
  lemma {:induction false} NamesRead(st: State, name: string, rest: string)
    requires Shaped(st) && '\t' !in name && (rest == "" || rest[0] == '\t')
    ensures st.region.Header? || st.region.Filenames? || st.region.HunkSkip? ==>
              Step(st, "--- " + name + rest)
              == Some(if name == "" then st.(region := Header)
                      else st.(region := Filenames, source := st.source + [Strip(name)]))
    ensures st.region.Filenames? ==>
              Step(st, "+++ " + name + rest)
              == Some(if name == "" then st.(region := Header)
                      else st.(region := HunkHead, target := st.target + [name], hunks := st.hunks + [[]],
                               hunkends := st.hunkends + [LineEnds(0, 0, 0)]))
  {
    UpToTabOf(name, rest);
    var a, b := "--- " + name + rest, "+++ " + name + rest;
    assert a[4..] == name + rest && b[4..] == name + rest;
    assert a[0] == '-' && b[0] == '+';
    assert HunkHeadOf(a).None?;
  }

  lemma {:induction false} UpToTabOf(name: string, rest: string)
    requires '\t' !in name && (rest == "" || rest[0] == '\t')
    ensures UpToTab(name + rest) == name
  {
    if name == "" {
      assert name + rest == rest;
    } else {
      assert (name + rest)[1..] == name[1..] + rest;
      UpToTabOf(name[1..], rest);
      assert [name[0]] + name[1..] == name;
    }
  }

  /** The parser raises exactly inside a hunk body, on a line without one of the four tags and on a line
      that is too many for one of the two sides. */
  lemma {:induction false} RaisesIff(st: State, line: string)
    requires Shaped(st)
    ensures Step(st, line).None?
            <==> st.region.HunkBody?
                 && (line == "" || line[0] !in [' ', '-', '+', '\\']
                     || ((line[0] == ' ' || line[0] == '-') && st.actualsrc + 1 > st.cur.linessrc)
                     || ((line[0] == ' ' || line[0] == '+') && st.actualtgt + 1 > st.cur.linestgt)
                     || st.actualsrc > st.cur.linessrc || st.actualtgt > st.cur.linestgt)
  {
    hide HunkHeadOf, HeadStep, SkipStep;
  }

  function Run(st: State, lines: seq<string>): (r: Option<State>)
    requires Shaped(st)
    ensures r.Some? ==> Shaped(r.value)
    decreases |lines|
  {
    if lines == [] then Some(st)
    else
      match Step(st, lines[0])
      case None => None
      case Some(st') => Run(st', lines[1..])
  }

  datatype Result =
    | Parsed(source: seq<string>, target: seq<string>, hunks: seq<seq<Hunk>>, hunkends: seq<LineEnds>)
    | TypeError   // a malformed or surplus body line
    | NameError   // the stream ends outside hunkskip: the warning uses an undefined name

  function Finish(r: Option<State>): Result {
    match r
    case None => TypeError
    case Some(st) =>
      if st.region.HunkSkip? then Parsed(st.source, st.target, st.hunks, st.hunkends) else NameError
  }

  function Parse(stream: seq<string>): Result {
    Finish(Run(START, stream))
  }

  /** A stream without a file name has nothing to parse. */
  lemma {:induction false} NoNames(lines: seq<string>)
    requires forall l :: l in lines ==> !StartsWith(l, "--- ")
    ensures Parse(lines) == NameError
  {
    StaysInHeader(START, lines);
  }

  lemma {:induction false} StaysInHeader(st: State, lines: seq<string>)
    requires Shaped(st) && st.region.Header? && forall l :: l in lines ==> !StartsWith(l, "--- ")
    ensures Run(st, lines) == Some(st)
    decreases |lines|
  {
    if lines != [] {
      StaysInHeader(st, lines[1..]);
    }
  }

  // ----- what every line keeps

  /** As many lines on each side as the head announces. */
  predicate Complete(h: Hunk) {
    |SourceSide(h.text)| == h.linessrc && |TargetSide(h.text)| == h.linestgt
  }

  /** What holds between any two lines of any stream. */
  predicate Valid(st: State) {
    Shaped(st)
    && |st.target| <= |st.source| && (st.region.Filenames? ==> |st.target| < |st.source|)
    && (forall i, j :: 0 <= i < |st.hunks| && 0 <= j < |st.hunks[i]| ==> Complete(st.hunks[i][j]))
    && (forall i :: 0 <= i < |st.hunks| ==>
          st.hunkends[i]
          == if st.region.HunkBody? && i == |st.hunks| - 1 then AddText(EndsOf(st.hunks[i]), st.cur.text)
             else EndsOf(st.hunks[i]))
    && (st.region.HunkBody? ==>
          |SourceSide(st.cur.text)| == st.actualsrc && |TargetSide(st.cur.text)| == st.actualtgt)
  }

  lemma {:induction false} NameStepKeeps(st: State, line: string)
    requires Valid(st.(region := Header))
    requires StartsWith(line, "--- ") || |st.target| < |st.source|
    ensures Valid(NameStep(st, line))
  {
    assert EndsOf([]) == NONE_SEEN;
    hide EndsOf, AddText, SourceSide, TargetSide, Complete, NameOf;
  }

  lemma {:induction false} TextGrows(ends: LineEnds, text: seq<BodyLine>, line: BodyLine)
    ensures AddText(ends, text + [line]) == AddText(ends, text).Add(Raw(line))
    ensures |SourceSide(text + [line])| == |SourceSide(text)| + (if OnSource(line) then 1 else 0)
    ensures |TargetSide(text + [line])| == |TargetSide(text)| + (if OnTarget(line) then 1 else 0)
  {
    assert (text + [line])[..|text + [line]| - 1] == text;
    SourceSideConcat(text, [line]);
    TargetSideConcat(text, [line]);
  }

  lemma {:induction false} EndsGrow(hunks: seq<Hunk>, h: Hunk)
    ensures EndsOf(hunks + [h]) == AddText(EndsOf(hunks), h.text)
  {
    assert (hunks + [h])[..|hunks + [h]| - 1] == hunks;
  }

  lemma {:induction false} TakeLineKeeps(st: State, line: BodyLine)
    requires Valid(st) && st.region.HunkBody?
    ensures Valid(TakeLine(st, line))
  {
    hide EndsOf, AddText, SourceSide, TargetSide, Complete;
    TextGrows(EndsOf(st.hunks[|st.hunks| - 1]), st.cur.text, line);
  }

  lemma {:induction false} StoreKeeps(st: State)
    requires Valid(st) && st.region.HunkBody? && Complete(st.cur)
    ensures Valid(Store(st))
  {
    hide EndsOf, AddText, SourceSide, TargetSide, Complete;
    EndsGrow(st.hunks[|st.hunks| - 1], st.cur);
  }

  lemma {:induction false} NameStepIfBegun(st: State, line: string)
    requires Valid(st) && !st.region.HunkBody?
    ensures StartsWith(line, "--- ") || st.region.Filenames? ==> Valid(NameStep(st, line))
  {
    if StartsWith(line, "--- ") || st.region.Filenames? {
      NameStepKeeps(st, line);
    }
  }

  lemma {:induction false} HeadStepKeeps(st: State, line: string)
    requires Valid(st) && (st.region.HunkHead? || st.region.HunkSkip?)
    ensures Valid(HeadStep(st, line))
  {
    hide Complete;
  }

  lemma {:induction false} SkipStepKeeps(st: State, line: string)
    requires Valid(st) && st.region.HunkSkip?
    ensures Valid(SkipStep(st, line))
  {
    hide HunkHeadOf, HeadStep, NameStep, Complete, StartsWith;
    HeadStepKeeps(st, line);
    NameStepIfBegun(st, line);
  }

  lemma {:induction false} BodyStepKeeps(st: State, body: BodyLine, line: string)
    requires Valid(st) && st.region.HunkBody?
    ensures var st' := TakeLine(st, body);
            Valid(st') && (Complete(st'.cur) ==> Shaped(Store(st')) && Valid(SkipStep(Store(st'), line)))
    ensures |SourceSide(TakeLine(st, body).cur.text)| == TakeLine(st, body).actualsrc
    ensures |TargetSide(TakeLine(st, body).cur.text)| == TakeLine(st, body).actualtgt
  {
    TakeLineKeeps(st, body);
    var st' := TakeLine(st, body);
    if Complete(st'.cur) {
      StoreKeeps(st');
      SkipStepKeeps(Store(st'), line);
    }
  }

  lemma {:induction false} StepKeepsValid(st: State, line: string)
    requires Valid(st) && Step(st, line).Some?
    ensures Valid(Step(st, line).value)
  {
    match st.region
    case HunkBody =>
      BodyStepKeeps(st, BodyLineOf(line).value, line);
      hide BodyLineOf, SkipStep, Valid, Store, TakeLine;
    case HunkHead =>
      HeadStepKeeps(st, line);
    case HunkSkip =>
      SkipStepKeeps(st, line);
    case _ =>
      NameStepIfBegun(st, line);
  }

  lemma {:induction false} RunKeepsValid(st: State, lines: seq<string>)
    requires Valid(st) && Run(st, lines).Some?
    ensures Valid(Run(st, lines).value)
    decreases |lines|
  {
    if lines != [] {
      StepKeepsValid(st, lines[0]);
      RunKeepsValid(Step(st, lines[0]).value, lines[1..]);
    }
  }

  /** Whatever the stream, a successful parse yields as many target names, hunk lists and line-end
      statistics as each other, every stored hunk has the announced number of lines, and the
      statistics count its body lines. */
  lemma {:induction false} ParsedIsConsistent(stream: seq<string>)
    requires Parse(stream).Parsed?
    ensures var p := Parse(stream);
            0 < |p.target| == |p.hunks| == |p.hunkends| <= |p.source|
            && (forall i, j :: 0 <= i < |p.hunks| && 0 <= j < |p.hunks[i]| ==> Complete(p.hunks[i][j]))
            && (forall i :: 0 <= i < |p.hunks| ==> p.hunkends[i] == EndsOf(p.hunks[i]))
  {
    RunKeepsValid(START, stream);
  }
}
