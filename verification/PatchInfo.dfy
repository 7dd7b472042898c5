/** The parser as the tool runs it: five flags, and hunk objects that share their text lists. */
module PatchInfo {
  import opened Text
  import opened Hunks
  import opened ParseStream

  /** A Python list of body lines. */
  class TextList {
    var lines: seq<BodyLine>

    constructor ()
      ensures lines == []
    {
      lines := [];
    }
  }

  class HunkInfo {
    var startsrc: nat
    var linessrc: nat
    var starttgt: nat
    var linestgt: nat
    var text: TextList

    constructor ()
      ensures Value() == START.cur && fresh(text)
    {
      startsrc, linessrc, starttgt, linestgt := 0, 0, 0, 0;
      text := new TextList();
    }

    /** copy.copy: a new object with the same text list. */
    constructor Copy(other: HunkInfo)
      ensures Value() == other.Value() && text == other.text
    {
      startsrc, linessrc, starttgt, linestgt := other.startsrc, other.linessrc, other.starttgt, other.linestgt;
      text := other.text;
    }

    function Value(): Hunk
      reads this, text
    {
      Hunk(startsrc, linessrc, starttgt, linestgt, text.lines)
    }
  }

  /** The stored objects stand for these hunks, and they and their texts are in repr. */
  ghost predicate Mirrors(stored: seq<seq<HunkInfo>>, hunks: seq<seq<Hunk>>, repr: set<object>)
    reads repr
  {
    |stored| == |hunks|
    && forall i :: 0 <= i < |stored| ==>
         |stored[i]| == |hunks[i]|
         && forall j :: 0 <= j < |stored[i]| ==>
              stored[i][j] in repr && stored[i][j].text in repr && stored[i][j].Value() == hunks[i][j]
  }

  /** The five flags that direct the parser. */
  datatype Flags = Flags(header: bool, filenames: bool, hunkhead: bool, hunkbody: bool, hunkskip: bool) {
    /** Exactly one flag is up, and it names the region. */
    predicate Say(r: Region) {
      header == r.Header? && filenames == r.Filenames? && hunkhead == r.HunkHead?
      && hunkbody == r.HunkBody? && hunkskip == r.HunkSkip?
    }
  }

  datatype Raised = NoError | RaisedTypeError | RaisedNameError

  class PatchInfo {
    var source: seq<string>
    var target: seq<string>
    var hunks: seq<seq<HunkInfo>>
    var hunkends: seq<LineEnds>
    ghost var repr: set<object>

    constructor ()
      ensures source == [] && target == [] && hunks == [] && hunkends == [] && repr == {}
    {
      source, target, hunks, hunkends, repr := [], [], [], [], {};
    }

    /** The lists stand for what the state holds. */
    ghost predicate Holds(st: State)
      reads this, repr
    {
      source == st.source && target == st.target && hunkends == st.hunkends && Mirrors(hunks, st.hunks, repr)
    }

    /** The lists, the hunk under construction and its counters stand for the state. The text of
        the hunk under construction is shared with a stored hunk only between hunks. */
    ghost predicate Models(st: State, hunkinfo: HunkInfo, actualsrc: nat, actualtgt: nat)
      reads this, repr, hunkinfo, hunkinfo.text
    {
      Shaped(st) && Holds(st)
      && this !in repr && hunkinfo !in repr && (st.region.HunkBody? ==> hunkinfo.text !in repr)
      && hunkinfo.Value() == st.cur && actualsrc == st.actualsrc && actualtgt == st.actualtgt
    }

    /** The hunkbody part: count the line and append it to the shared text. */
    method TakeBodyLine(line: BodyLine, hunkinfo: HunkInfo, actualsrc: nat, actualtgt: nat, ghost st: State)
      returns (actualsrc': nat, actualtgt': nat)
      requires Models(st, hunkinfo, actualsrc, actualtgt) && st.region.HunkBody?
      modifies this`hunkends, hunkinfo.text
      ensures Models(TakeLine(st, line), hunkinfo, actualsrc', actualtgt')
    {
      hunkends := hunkends[|target| - 1 := hunkends[|target| - 1].Add(Raw(line))];
      actualsrc', actualtgt' := actualsrc, actualtgt;
      if line.tag.Removed? {
        actualsrc' := actualsrc + 1;
      } else if line.tag.Added? {
        actualtgt' := actualtgt + 1;
      } else if !line.tag.Remark? {
        actualsrc', actualtgt' := actualsrc + 1, actualtgt + 1;
      }
      hunkinfo.text.lines := hunkinfo.text.lines + [line];
    }

    /** Storing a copy of the hunk; the copy shares the text list. */
    method StoreHunk(hunkinfo: HunkInfo, actualsrc: nat, actualtgt: nat, ghost st: State)
      requires Models(st, hunkinfo, actualsrc, actualtgt) && st.region.HunkBody?
      requires this as object != hunkinfo.text
      modifies this`hunks, this`repr
      ensures Models(Store(st), hunkinfo, actualsrc, actualtgt)
      ensures fresh(repr - old(repr) - {hunkinfo.text})
    {
      var copied := new HunkInfo.Copy(hunkinfo);
      var last := |target| - 1;
      hunks := hunks[last := hunks[last] + [copied]];
      repr := repr + {copied, copied.text};
    }

    /** The filenames part. */
    method ReadName(line: string, hunkinfo: HunkInfo, actualsrc: nat, actualtgt: nat, ghost st: State)
      returns (failed: bool, completed: bool)
      requires Models(st, hunkinfo, actualsrc, actualtgt) && st.region.Filenames?
      modifies this`source, this`target, this`hunks, this`hunkends
      ensures Models(NameStep(st, line), hunkinfo, actualsrc, actualtgt)
      ensures failed <==> NameStep(st, line).region.Header?
      ensures completed <==> NameStep(st, line).region.HunkHead?
    {
      failed, completed := false, false;
      if StartsWith(line, "--- ") {
        match NameOf(line) {
          case None => failed := true;
          case Some(name) => source := source + [Strip(name)];
        }
      } else if !StartsWith(line, "+++ ") {
        failed := true;
      } else {
        match NameOf(line) {
          case None => failed := true;
          case Some(name) =>
            target := target + [name];
            hunks := hunks + [[]];
            hunkends := hunkends + [NONE_SEEN];
            completed := true;
        }
      }
    }

    /** The hunkhead part: the hunk under construction starts over with a text list of its own. */
    method ReadHead(line: string, hunkinfo: HunkInfo, actualsrc: nat, actualtgt: nat, ghost st: State)
      returns (found: bool, actualsrc': nat, actualtgt': nat)
      requires Models(st, hunkinfo, actualsrc, actualtgt) && st.region.HunkHead?
      modifies hunkinfo
      ensures Models(HeadStep(st, line), hunkinfo, actualsrc', actualtgt')
      ensures found <==> HeadStep(st, line).region.HunkBody?
      ensures hunkinfo.text == old(hunkinfo.text) || fresh(hunkinfo.text)
    {
      hide HunkHeadOf;
      found, actualsrc', actualtgt' := false, actualsrc, actualtgt;
      match HunkHeadOf(line) {
        case None =>
        case Some(head) =>
          hunkinfo.startsrc, hunkinfo.linessrc := head.startsrc, head.linessrc;
          hunkinfo.starttgt, hunkinfo.linestgt := head.starttgt, head.linestgt;
          hunkinfo.text := new TextList();
          found, actualsrc', actualtgt' := true, 0, 0;
      }
    }

    /** The part of one line's work that continues after hunkbody: the three `if` blocks in turn. */
    method ReadBetween(line: string, hunkinfo: HunkInfo, actualsrc: nat, actualtgt: nat, flags: Flags, ghost st: State)
      returns (actualsrc': nat, actualtgt': nat, flags': Flags)
      requires Models(st, hunkinfo, actualsrc, actualtgt) && flags.Say(st.region) && !st.region.HunkBody?
      requires st.region.Header? ==> !StartsWith(line, "--- ")
      modifies this, hunkinfo
      ensures Models(Step(st, line).value, hunkinfo, actualsrc', actualtgt') && flags'.Say(Step(st, line).value.region)
      ensures repr == old(repr) && (hunkinfo.text == old(hunkinfo.text) || fresh(hunkinfo.text))
    {
      actualsrc', actualtgt', flags' := actualsrc, actualtgt, flags;
      ghost var now := st;
      if flags'.hunkskip {
        if HunkHeadOf(line).Some? {
          flags' := flags'.(hunkskip := false, hunkhead := true);
          now := st.(region := HunkHead);
        } else if StartsWith(line, "--- ") {
          flags' := flags'.(hunkskip := false, filenames := true);
          now := st.(region := Filenames);
        }
      }
      if flags'.filenames {
        var failed, completed := ReadName(line, hunkinfo, actualsrc', actualtgt', now);
        if failed {
          flags' := flags'.(filenames := false, header := true);
        } else if completed {
          flags' := flags'.(filenames := false, hunkhead := true);
          return;
        }
      }
      if flags'.hunkhead {
        var found;
        found, actualsrc', actualtgt' := ReadHead(line, hunkinfo, actualsrc', actualtgt', now);
        flags' := flags'.(hunkhead := false);
        if found {
          flags' := flags'.(hunkbody := true);
        } else {
          flags' := flags'.(header := true);
        }
      }
    }

    /** One round of the loop. */
    method ReadLine(line: string, hunkinfo: HunkInfo, actualsrc: nat, actualtgt: nat, flags: Flags, ghost st: State)
      returns (raised: bool, actualsrc': nat, actualtgt': nat, flags': Flags)
      requires Models(st, hunkinfo, actualsrc, actualtgt) && flags.Say(st.region)
      modifies this, hunkinfo, hunkinfo.text
      ensures raised <==> Step(st, line).None?
      ensures !raised ==> Models(Step(st, line).value, hunkinfo, actualsrc', actualtgt')
                          && flags'.Say(Step(st, line).value.region)
      ensures fresh(repr - old(repr) - {old(hunkinfo.text)})
      ensures hunkinfo.text == old(hunkinfo.text) || fresh(hunkinfo.text)
    {
      raised, actualsrc', actualtgt', flags' := false, actualsrc, actualtgt, flags;
      ghost var now := st;
      if flags'.header && StartsWith(line, "--- ") {
        flags' := flags'.(header := false, filenames := true);
        now := st.(region := Filenames);
      }
      if flags'.hunkbody {
        if BodyLineOf(line).None? {
          raised := true;
          return;
        }
        var bodyline := BodyLineOf(line).value;
        actualsrc', actualtgt' := TakeBodyLine(bodyline, hunkinfo, actualsrc', actualtgt', now);
        now := TakeLine(st, bodyline);
        if actualsrc' > hunkinfo.linessrc || actualtgt' > hunkinfo.linestgt {
          raised := true;
          return;
        } else if hunkinfo.linessrc == actualsrc' && hunkinfo.linestgt == actualtgt' {
          StoreHunk(hunkinfo, actualsrc', actualtgt', now);
          now := Store(now);
          flags' := flags'.(hunkbody := false, hunkskip := true);
        } else {
          return;
        }
      }
      actualsrc', actualtgt', flags' := ReadBetween(line, hunkinfo, actualsrc', actualtgt', flags', now);
    }

    method ParseStream(stream: seq<string>) returns (raised: Raised)
      modifies this
      ensures raised == match Parse(stream)
                        case Parsed(_, _, _, _) => NoError
                        case TypeError => RaisedTypeError
                        case NameError => RaisedNameError
      ensures Parse(stream).Parsed? ==>
                source == Parse(stream).source && target == Parse(stream).target
                && hunkends == Parse(stream).hunkends && Mirrors(hunks, Parse(stream).hunks, repr)
    {
      source, target, hunks, hunkends, repr := [], [], [], [], {};
      var flags := Flags(true, false, false, false, false);
      var hunkinfo := new HunkInfo();
      var actualsrc: nat, actualtgt: nat := 0, 0;
      ghost var st, goal := START, Run(START, stream);
      assert stream[0..] == stream;
      for lineno := 0 to |stream|
        invariant fresh(hunkinfo) && fresh(hunkinfo.text) && fresh(repr)
        invariant Models(st, hunkinfo, actualsrc, actualtgt) && flags.Say(st.region)
        invariant goal == Run(st, stream[lineno..])
      {
        RunAt(st, stream, lineno);
        var failed;
        failed, actualsrc, actualtgt, flags := ReadLine(stream[lineno], hunkinfo, actualsrc, actualtgt, flags, st);
        if failed {
          return RaisedTypeError;
        }
        st := Step(st, stream[lineno]).value;
      }
      assert goal == Some(st);
      return if flags.hunkskip then NoError else RaisedNameError;
    }
  }

  lemma {:induction false} RunAt(st: State, stream: seq<string>, i: nat)
    requires Shaped(st) && i < |stream|
    ensures Run(st, stream[i..])
            == match Step(st, stream[i])
               case None => None
               case Some(st') => Run(st', stream[i + 1..])
  {
    assert stream[i..][1..] == stream[i + 1..];
  }
}
