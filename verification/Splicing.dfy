/** What applying a patch means, independent of how the tool does it: an ordered list of
    edits, each replacing a block of lines. */
module Splicing {

  /** Replace the `size` lines from 0-based index `at` by `lines`. */
  datatype Edit = Edit(at: int, size: nat, lines: seq<string>) {
    function End(): int { at + size }
    function Growth(): int { |lines| - size }
  }

  /** The edits lie in [from, len) one after the other. */
  predicate Ordered(from: nat, edits: seq<Edit>, len: int)
    decreases |edits|
  {
    if edits == [] then from <= len
    else from <= edits[0].at && Ordered(edits[0].End(), edits[1..], len)
  }

  lemma {:induction false} OrderedFits(from: nat, edits: seq<Edit>, len: int)
    requires Ordered(from, edits, len)
    ensures from <= len
    ensures edits != [] ==> edits[0].End() <= len
    decreases |edits|
  {
    if edits != [] {
      OrderedFits(edits[0].End(), edits[1..], len);
    }
  }

  /** The lines from index `from` on, with every block replaced. */
  function Splice(src: seq<string>, from: nat, edits: seq<Edit>): seq<string>
    requires Ordered(from, edits, |src|)
    decreases |edits|
  {
    OrderedFits(from, edits, |src|);
    if edits == [] then src[from..]
    else src[from..edits[0].at] + edits[0].lines + Splice(src, edits[0].End(), edits[1..])
  }

  lemma {:induction false} SpliceStep(src: seq<string>, from: nat, e: Edit, rest: seq<Edit>)
    requires from <= e.at && Ordered(e.End(), rest, |src|)
    ensures Ordered(from, [e] + rest, |src|) && e.End() <= |src|
    ensures Splice(src, from, [e] + rest) == src[from..e.at] + e.lines + Splice(src, e.End(), rest)
  {
    OrderedFits(e.End(), rest, |src|);
    assert ([e] + rest)[1..] == rest;
  }

  /** Lines gained by all edits together. */
  function Growth(edits: seq<Edit>): int {
    if edits == [] then 0 else edits[0].Growth() + Growth(edits[1..])
  }

  lemma {:induction false} SpliceLength(src: seq<string>, from: nat, edits: seq<Edit>)
    requires Ordered(from, edits, |src|)
    ensures |Splice(src, from, edits)| == |src| - from + Growth(edits)
    decreases |edits|
  {
    OrderedFits(from, edits, |src|);
    if edits != [] {
      SpliceLength(src, edits[0].End(), edits[1..]);
    }
  }

  lemma {:induction false} GrowthNext(edits: seq<Edit>, k: nat)
    requires k < |edits|
    ensures Growth(edits[..k + 1]) == Growth(edits[..k]) + edits[k].Growth()
  {
    if k > 0 {
      GrowthNext(edits[1..], k - 1);
      assert edits[..k + 1][1..] == edits[1..][..k] && edits[..k][1..] == edits[1..][..k - 1];
    } else {
      assert edits[..1] == [edits[0]] && edits[..1][1..] == [] && edits[..0] == [];
    }
  }

  lemma {:induction false} OrderedAt(from: nat, edits: seq<Edit>, len: int, k: nat)
    requires Ordered(from, edits, len) && k < |edits|
    ensures from <= edits[k].at && edits[k].End() <= len
    ensures k > 0 ==> edits[k - 1].End() <= edits[k].at
    decreases |edits|
  {
    OrderedFits(from, edits, len);
    if k > 0 {
      OrderedAt(edits[0].End(), edits[1..], len, k - 1);
    }
  }

  /** Where the replacement of edit k begins in the result. */
  function NewStart(edits: seq<Edit>, k: nat): int
    requires k < |edits|
  {
    edits[k].at + Growth(edits[..k])
  }

  /** Edit k's new lines stand at its old position moved by the growth of the edits before it. */
  lemma {:induction false} SpliceHoldsNew(src: seq<string>, from: nat, edits: seq<Edit>, k: nat)
    requires Ordered(from, edits, |src|)
    requires k < |edits|
    ensures var out, p := Splice(src, from, edits), NewStart(edits, k) - from;
            0 <= p && p + |edits[k].lines| <= |out| && out[p..p + |edits[k].lines|] == edits[k].lines
    decreases |edits|
  {
    OrderedFits(from, edits, |src|);
    var e, rest := edits[0], edits[1..];
    var tail := Splice(src, e.End(), rest);
    if k > 0 {
      SpliceHoldsNew(src, e.End(), rest, k - 1);
      assert edits[..k][0] == e && edits[..k][1..] == rest[..k - 1];
      var p := NewStart(rest, k - 1) - e.End();
      var head := src[from..e.at] + e.lines;
      assert Splice(src, from, edits) == head + tail;
      assert (head + tail)[|head| + p..|head| + p + |edits[k].lines|] == tail[p..p + |edits[k].lines|];
    }
  }

  /** A line between edit k-1 and edit k is kept, moved by the growth of the edits before it. */
  lemma {:induction false} SpliceKeepsOld(src: seq<string>, from: nat, edits: seq<Edit>, k: nat, x: nat)
    requires Ordered(from, edits, |src|)
    requires k <= |edits|
    requires x < |src|
    requires (if k == 0 then from else edits[k - 1].End()) <= x
    requires k < |edits| ==> x < edits[k].at
    ensures var out, y := Splice(src, from, edits), x - from + Growth(edits[..k]);
            0 <= y < |out| && out[y] == src[x]
    decreases |edits|
  {
    OrderedFits(from, edits, |src|);
    if k > 0 {
      var e, rest := edits[0], edits[1..];
      SpliceKeepsOld(src, e.End(), rest, k - 1, x);
      assert edits[..k][0] == e && edits[..k][1..] == rest[..k - 1];
    }
  }

  /** Line i of the result, without splicing: a kept line moved by the growth so far, or a new one. */
  function SplicedLine(src: seq<string>, from: nat, edits: seq<Edit>, i: nat): string
    requires Ordered(from, edits, |src|) && i < |src| - from + Growth(edits)
    decreases |edits|
  {
    OrderedFits(from, edits, |src|);
    if edits == [] then src[from + i]
    else
      var e, kept := edits[0], edits[0].at - from;
      if i < kept then src[from + i]
      else if i < kept + |e.lines| then e.lines[i - kept]
      else SplicedLine(src, e.End(), edits[1..], i - kept - |e.lines|)
  }

  lemma {:induction false} SplicedLineIs(src: seq<string>, from: nat, edits: seq<Edit>, i: nat)
    requires Ordered(from, edits, |src|) && i < |src| - from + Growth(edits)
    ensures i < |Splice(src, from, edits)| && Splice(src, from, edits)[i] == SplicedLine(src, from, edits, i)
    decreases |edits|
  {
    SpliceLength(src, from, edits);
    OrderedFits(from, edits, |src|);
    if edits != [] {
      var e, kept := edits[0], edits[0].at - from;
      if i >= kept + |e.lines| {
        SplicedLineIs(src, e.End(), edits[1..], i - kept - |e.lines|);
      }
    }
  }

  lemma {:induction false} SplicedLineNew(src: seq<string>, edits: seq<Edit>, k: nat, j: nat)
    requires Ordered(0, edits, |src|) && k < |edits| && j < |edits[k].lines|
    ensures 0 <= NewStart(edits, k) && NewStart(edits, k) + j < |src| + Growth(edits)
    ensures SplicedLine(src, 0, edits, NewStart(edits, k) + j) == edits[k].lines[j]
  {
    hide *;
    var out, p, t := Splice(src, 0, edits), NewStart(edits, k), edits[k].lines;
    SpliceHoldsNew(src, 0, edits, k);
    SpliceLength(src, 0, edits);
    assert out[p..p + |t|][j] == out[p + j];
    SplicedLineIs(src, 0, edits, p + j);
  }

  lemma {:induction false} SplicedLineKept(src: seq<string>, edits: seq<Edit>, k: nat, x: nat)
    requires Ordered(0, edits, |src|) && k <= |edits| && x < |src|
    requires (if k == 0 then 0 else edits[k - 1].End()) <= x && (k < |edits| ==> x < edits[k].at)
    ensures 0 <= x + Growth(edits[..k]) < |src| + Growth(edits)
    ensures SplicedLine(src, 0, edits, x + Growth(edits[..k])) == src[x]
  {
    hide *;
    SpliceKeepsOld(src, 0, edits, k, x);
    SpliceLength(src, 0, edits);
    SplicedLineIs(src, 0, edits, x + Growth(edits[..k]));
  }

  /** The lines around edit k's new ones: `before` kept lines in front, `after` kept lines behind. */
  lemma {:induction false} SplicedLineAround(src: seq<string>, edits: seq<Edit>, k: nat, before: int, after: int,
                                             x: int)
    requires Ordered(0, edits, |src|) && k < |edits| && 0 <= after && edits[k].End() + after <= |src|
    requires 0 <= edits[k].at - before == if k == 0 then 0 else edits[k - 1].End()
    requires edits[k].End() + after == if k + 1 < |edits| then edits[k + 1].at else |src|
    requires -before <= x && x - |edits[k].lines| < after && 0 <= edits[k].at + edits[k].size
    ensures var e, y := edits[k], edits[k].at + x + Growth(edits[..k]);
            0 <= y < |src| + Growth(edits)
            && SplicedLine(src, 0, edits, y)
               == if x < 0 then src[e.at + x] else if x < |e.lines| then e.lines[x] else src[e.End() + x - |e.lines|]
  {
    hide Ordered, SplicedLine, Growth;
    OrderedAt(0, edits, |src|, k);
    if x < 0 {
      SplicedLineKept(src, edits, k, edits[k].at + x);
    } else if x < |edits[k].lines| {
      SplicedLineNew(src, edits, k, x);
    } else {
      GrowthNext(edits, k);
      SplicedLineKept(src, edits, k + 1, edits[k].End() + x - |edits[k].lines|);
    }
  }

  /** Only the lines from index `from` on matter. */
  lemma {:induction false} SpliceIgnoresBefore(a: seq<string>, b: seq<string>, from: nat, edits: seq<Edit>)
    requires |a| == |b| && Ordered(from, edits, |a|) && from <= |a| && a[from..] == b[from..]
    ensures Splice(a, from, edits) == Splice(b, from, edits)
    decreases |edits|
  {
    OrderedFits(from, edits, |a|);
    if edits != [] {
      var e := edits[0];
      assert a[e.End()..] == a[from..][e.End() - from..] && b[e.End()..] == b[from..][e.End() - from..];
      assert a[from..e.at] == a[from..][..e.at - from] && b[from..e.at] == b[from..][..e.at - from];
      SpliceIgnoresBefore(a, b, e.End(), edits[1..]);
    }
  }

  /** A line that an edit replaces does not matter. */
  lemma {:induction false} SpliceIgnoresReplaced(src: seq<string>, from: nat, edits: seq<Edit>, k: nat, x: nat,
                                                 v: string)
    requires Ordered(from, edits, |src|) && k < |edits| && edits[k].at <= x < edits[k].End() && x < |src|
    ensures from <= x && Splice(src[x := v], from, edits) == Splice(src, from, edits)
    decreases |edits|
  {
    OrderedFits(from, edits, |src|);
    var e, src' := edits[0], src[x := v];
    if k == 0 {
      assert src'[e.End()..] == src[e.End()..];
      SpliceIgnoresBefore(src', src, e.End(), edits[1..]);
    } else {
      SpliceIgnoresReplaced(src, e.End(), edits[1..], k - 1, x, v);
    }
    assert src'[from..e.at] == src[from..e.at];
  }

  // ----- undoing

  /** The edits that put back what `edits` replaced; `shift` lines were gained before the first. */
  function Inverse(src: seq<string>, from: nat, edits: seq<Edit>, shift: int): seq<Edit>
    requires Ordered(from, edits, |src|)
    decreases |edits|
  {
    OrderedFits(from, edits, |src|);
    if edits == [] then []
    else
      var e := edits[0];
      [Edit(e.at + shift, |e.lines|, src[e.at..e.End()])]
        + Inverse(src, e.End(), edits[1..], shift + e.Growth())
  }

  /** Putting one block back: out is pre, the lines kept before the block, its new lines and a
      tail that undo' turns into what followed the block. */
  lemma {:induction false} BlockBack(src: seq<string>, from: nat, e: Edit, pre: seq<string>, tail: seq<string>,
                                     undo': seq<Edit>)
    requires from <= e.at && e.End() <= |src|
    requires var head := pre + src[from..e.at] + e.lines;
             Ordered(|head|, undo', |head + tail|) && Splice(head + tail, |head|, undo') == src[e.End()..]
    ensures var back := Edit(|pre| + e.at - from, |e.lines|, src[e.at..e.End()]);
            var out := pre + (src[from..e.at] + e.lines + tail);
            Ordered(|pre|, [back] + undo', |out|) && Splice(out, |pre|, [back] + undo') == src[from..]
  {
    hide Splice, Ordered;
    var kept := src[from..e.at];
    var back := Edit(|pre| + |kept|, |e.lines|, src[e.at..e.End()]);
    Regroup(pre, kept, e.lines, tail);
    SpliceStep(pre + kept + e.lines + tail, |pre|, back, undo');
    Cut(src, from, e.at, e.End());
  }

  /** Splicing and then splicing the inverse edits restores the lines; `pre` is what the
      result has before the part under the edits. */
  lemma {:induction false} InverseUndoes(src: seq<string>, from: nat, edits: seq<Edit>, pre: seq<string>)
    requires Ordered(from, edits, |src|)
    ensures var out, undo := pre + Splice(src, from, edits), Inverse(src, from, edits, |pre| - from);
            from <= |src| && Ordered(|pre|, undo, |out|) && Splice(out, |pre|, undo) == src[from..]
    decreases |edits|
  {
    hide Splice, Inverse, Ordered;
    if edits == [] {
      NothingUndone(src, from, pre);
    } else {
      var e, rest := edits[0], edits[1..];
      assert edits == [e] + rest;
      OrderedStep(from, e, rest, |src|);
      SpliceStep(src, from, e, rest);
      InverseStep(src, from, e, rest, |pre| - from);
      var tail, head := Splice(src, e.End(), rest), pre + src[from..e.at] + e.lines;
      assert |head| - e.End() == |pre| - from + e.Growth();
      InverseUndoes(src, e.End(), rest, head);
      BlockBack(src, from, e, pre, tail, Inverse(src, e.End(), rest, |head| - e.End()));
    }
  }

  lemma {:induction false} NothingUndone(src: seq<string>, from: nat, pre: seq<string>)
    requires Ordered(from, [], |src|)
    ensures var out, undo := pre + Splice(src, from, []), Inverse(src, from, [], |pre| - from);
            from <= |src| && Ordered(|pre|, undo, |out|) && Splice(out, |pre|, undo) == src[from..]
  {
    assert (pre + src[from..])[|pre|..] == src[from..];
  }

  lemma {:induction false} Regroup(a: seq<string>, b: seq<string>, c: seq<string>, d: seq<string>)
    ensures a + (b + c + d) == a + b + c + d
    ensures (a + b + c + d)[|a|..|a| + |b|] == b
  {
  }

  lemma {:induction false} Cut(s: seq<string>, i: nat, j: nat, k: nat)
    requires i <= j <= k <= |s|
    ensures s[i..] == s[i..j] + s[j..k] + s[k..]
  {
  }

  lemma {:induction false} OrderedStep(from: nat, e: Edit, rest: seq<Edit>, len: int)
    requires Ordered(from, [e] + rest, len)
    ensures from <= e.at && e.End() <= len && Ordered(e.End(), rest, len)
  {
    assert ([e] + rest)[1..] == rest;
    OrderedFits(e.End(), rest, len);
  }

  lemma {:induction false} InverseStep(src: seq<string>, from: nat, e: Edit, rest: seq<Edit>, shift: int)
    requires Ordered(from, [e] + rest, |src|) && from <= e.at && e.End() <= |src| && Ordered(e.End(), rest, |src|)
    ensures Inverse(src, from, [e] + rest, shift)
            == [Edit(e.at + shift, |e.lines|, src[e.at..e.End()])] + Inverse(src, e.End(), rest, shift + e.Growth())
  {
    assert ([e] + rest)[1..] == rest;
  }

  // ----- one at a time

  /** The last edit can be done beforehand. */
  lemma {:induction false} SpliceLast(src: seq<string>, from: nat, front: seq<Edit>, last: Edit)
    requires Ordered(from, front + [last], |src|)
    ensures Ordered(0, [last], |src|)
    ensures var src' := Splice(src, 0, [last]);
            var start := if front == [] then last.at else front[0].at;
            Ordered(from, front, |src'|) && Splice(src', from, front) == Splice(src, from, front + [last])
            && from <= start <= |src| && start <= |src'| && src'[..start] == src[..start]
    decreases |front|
  {
    hide Splice, Ordered;
    if front == [] {
      assert front + [last] == [last] + [] == [last];
      OrderedStep(from, last, [], |src|);
      LastAlone(src, from, last);
    } else {
      var e, rest := front[0], front[1..];
      assert front == [e] + rest && front + [last] == [e] + (rest + [last]);
      OrderedStep(from, e, rest + [last], |src|);
      SpliceLast(src, e.End(), rest, last);
      LastLater(src, Splice(src, 0, [last]), from, e, rest + [last], rest);
    }
  }

  lemma {:induction false} LastLater(src: seq<string>, src': seq<string>, from: nat, e: Edit, rest: seq<Edit>,
                                     front: seq<Edit>)
    requires from <= e.at && rest != [] && Ordered(e.End(), rest, |src|) && Ordered(e.End(), front, |src'|)
    requires Splice(src', e.End(), front) == Splice(src, e.End(), rest)
    requires rest[0].at <= |src| && rest[0].at <= |src'| && src'[..rest[0].at] == src[..rest[0].at]
    ensures Ordered(from, [e] + front, |src'|) && Ordered(from, [e] + rest, |src|)
    ensures Splice(src', from, [e] + front) == Splice(src, from, [e] + rest)
    ensures e.at <= |src| && e.at <= |src'| && src'[..e.at] == src[..e.at]
  {
    assert e.End() <= rest[0].at;
    hide Splice, Ordered;
    SpliceStep(src, from, e, rest);
    SpliceStep(src', from, e, front);
    SamePart(src, src', from, e.at, rest[0].at);
  }

  lemma {:induction false} LastAlone(src: seq<string>, from: nat, e: Edit)
    requires from <= e.at && e.End() <= |src|
    ensures Ordered(0, [e], |src|) && Ordered(from, [e], |src|)
    ensures var src' := Splice(src, 0, [e]);
            Ordered(from, [], |src'|) && Splice(src', from, []) == Splice(src, from, [e])
            && e.at <= |src'| && src'[..e.at] == src[..e.at]
  {
    SpliceStep(src, 0, e, []);
    SpliceStep(src, from, e, []);
  }

  lemma {:induction false} SamePart(a: seq<string>, b: seq<string>, i: nat, j: nat, k: nat)
    requires i <= j <= k <= |a| && k <= |b| && a[..k] == b[..k]
    ensures a[i..j] == b[i..j] && a[..j] == b[..j]
  {
    assert a[i..j] == a[..k][i..j] && b[i..j] == b[..k][i..j];
    assert a[..j] == a[..k][..j] && b[..j] == b[..k][..j];
  }
}
