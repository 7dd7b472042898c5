/** Keeping hand-edited function bodies when the stubs are generated again. */
module Regeneration {
  import opened Text

  /** A function found in the existing file: its name and body. */
  datatype Impl = Impl(name: string, body: string)

  /** The list of existing implementations, which matching consumes. */
  class ImplList {
    var items: seq<Impl>

    constructor (impls: seq<Impl>)
      ensures items == impls
    {
      items := impls;
    }
  }

  /** What is written for a function: the existing body as it stands, or newly generated code. */
  datatype Emitted = Kept(impl: Impl) | Generated(name: string)

  const MARKER := "// AUTO-GENERATED CONTENT"

  /** str.find(sub) >= 0 */
  predicate Contains(s: string, sub: string) {
    sub <= s || (s != "" && Contains(s[1..], sub))
  }

  /** The text occurs somewhere in s. */
  lemma {:induction false} ContainsIff(s: string, sub: string)
    ensures Contains(s, sub) <==> exists front: string, back: string :: front + sub + back == s
  {
    if sub <= s {
      assert "" + sub + s[|sub|..] == s;
    } else if s != "" {
      ContainsIff(s[1..], sub);
      if front: string, back: string :| front + sub + back == s[1..] {
        assert [s[0]] + front + sub + back == s;
      }
    }
    if front: string, back: string :| front + sub + back == s {
      if front == "" {
        assert sub <= s;
      } else {
        assert front[1..] + sub + back == s[1..];
      }
    }
  }

  /** What the generator writes at the top of a body that it has made. */
  const GENERATED_TOP := "\n  " + MARKER + " - DELETE THIS COMMENT BEFORE MODIFYING\n"

  /** Such a body is made anew. */
  lemma {:induction false} GeneratedAgain(name: string, impl: Impl)
    requires GENERATED_TOP <= impl.body
    ensures Chosen(name, Some(impl)) == Generated(name)
  {
    hide Contains;
    ContainsIff(impl.body, MARKER);
    MarkInside("\n  ", MARKER, " - DELETE THIS COMMENT BEFORE MODIFYING\n", impl.body);
  }

  lemma {:induction false} MarkInside(a: string, mark: string, b: string, body: string)
    requires a + mark + b <= body
    ensures exists front: string, back: string :: front + mark + back == body
  {
    var c := body[|a + mark|..];
    assert a + mark + c == body;
  }

  // ----- matching one function

  /** The first item of that name, and the list without it. */
  function TakeFirst(items: seq<Impl>, name: string): (r: (Option<Impl>, seq<Impl>))
    ensures |r.1| == |items| - (if r.0.Some? then 1 else 0)
  {
    if items == [] then (None, [])
    else if items[0].name == name then (Some(items[0]), items[1..])
    else
      var (found, rest) := TakeFirst(items[1..], name);
      (found, [items[0]] + rest)
  }

  /** get_next_function_impl */
  method GetNextFunctionImpl(existing: ImplList, name: string) returns (result: Option<Impl>)
    modifies existing
    ensures (result, existing.items) == TakeFirst(old(existing.items), name)
  {
    result := None;
    ghost var items := existing.items;
    assert items[0..] == items && items[..0] == [];
    assert [] + TakeFirst(items, name).1 == TakeFirst(items, name).1;
    for i := 0 to |existing.items|
      invariant existing.items == items && result == None
      invariant TakeFirst(items, name) == (TakeFirst(items[i..], name).0, items[..i] + TakeFirst(items[i..], name).1)
    {
      var item := existing.items[i];
      assert items[i..][1..] == items[i + 1..] && items[i..][0] == item;
      if item.name == name {
        result := Some(item);
        existing.items := existing.items[..i] + existing.items[i + 1..];
        return;
      }
      SeqAssoc(items[..i], [item], TakeFirst(items[i + 1..], name).1);
      assert items[..i] + [item] == items[..i + 1];
    }
    assert items[|items|..] == [] && items[..|items|] + [] == items;
  }

  // ----- the loop over all functions

  function Chosen(name: string, value: Option<Impl>): Emitted {
    if value.Some? && !Contains(value.value.body, MARKER) then Kept(value.value) else Generated(name)
  }

  /** The implementation each function receives, in turn. */
  function Received(funcs: seq<string>, items: seq<Impl>): (r: seq<Option<Impl>>)
    ensures |r| == |funcs|
    decreases |funcs|
  {
    if funcs == [] then []
    else
      var (value, rest) := TakeFirst(items, funcs[0]);
      [value] + Received(funcs[1..], rest)
  }

  /** The implementations no function received. */
  function Unused(funcs: seq<string>, items: seq<Impl>): seq<Impl>
    decreases |funcs|
  {
    if funcs == [] then items else Unused(funcs[1..], TakeFirst(items, funcs[0]).1)
  }

  /** The generator's mark stands somewhere in the body. */
  ghost predicate MadeByGenerator(body: string) {
    exists front: string, back: string :: front + "// AUTO-GENERATED CONTENT" + back == body
  }

  /** make_ctocpp_function_impl and make_cpptoc_function_impl: one emission for each function. */
  method MakeFunctionImpls(funcs: seq<string>, existing: ImplList) returns (impl: seq<Emitted>)
    modifies existing
    ensures |impl| == |funcs|
    ensures forall i :: 0 <= i < |funcs| ==> impl[i] == Chosen(funcs[i], Received(funcs, old(existing.items))[i])
    ensures forall i :: 0 <= i < |funcs| ==>
              var value := Received(funcs, old(existing.items))[i];
              impl[i] == if value.Some? && !MadeByGenerator(value.value.body) then Kept(value.value)
                         else Generated(funcs[i])
    ensures existing.items == Unused(funcs, old(existing.items))
  {
    forall body: string ensures Contains(body, MARKER) <==> MadeByGenerator(body) {
      ContainsIff(body, MARKER);
    }
    impl := [];
    ghost var items := existing.items;
    assert funcs[0..] == funcs;
    for i := 0 to |funcs|
      invariant |impl| == i
      invariant forall j :: 0 <= j < i ==> impl[j] == Chosen(funcs[j], Received(funcs, items)[j])
      invariant Received(funcs, items)[i..] == Received(funcs[i..], existing.items)
      invariant Unused(funcs, items) == Unused(funcs[i..], existing.items)
    {
      assert funcs[i..][1..] == funcs[i + 1..] && funcs[i..][0] == funcs[i];
      assert Received(funcs, items)[i] == Received(funcs, items)[i..][0];
      assert Received(funcs, items)[i + 1..] == Received(funcs, items)[i..][1..];
      var value := GetNextFunctionImpl(existing, funcs[i]);
      if value.Some? && !Contains(value.value.body, MARKER) {
        impl := impl + [Kept(value.value)];
      } else {
        impl := impl + [Generated(funcs[i])];
      }
    }
    assert funcs[|funcs|..] == [];
  }

  // ----- who receives what

  /** The implementations of one name, in order. */
  function Named(items: seq<Impl>, name: string): seq<Impl> {
    if items == [] then []
    else (if items[0].name == name then [items[0]] else []) + Named(items[1..], name)
  }

  function Count(funcs: seq<string>, name: string): nat {
    if funcs == [] then 0 else (if funcs[0] == name then 1 else 0) + Count(funcs[1..], name)
  }

  lemma {:induction false} TakeFirstNamed(items: seq<Impl>, name: string, other: string)
    ensures var (found, rest) := TakeFirst(items, name);
            found == (if Named(items, name) == [] then None else Some(Named(items, name)[0]))
            && Named(rest, other) == if other == name && Named(items, name) != [] then Named(items, name)[1..]
                                     else Named(items, other)
    decreases |items|
  {
    if items != [] && items[0].name != name {
      TakeFirstNamed(items[1..], name, other);
      var rest := TakeFirst(items[1..], name).1;
      assert TakeFirst(items, name).1 == [items[0]] + rest && ([items[0]] + rest)[1..] == rest;
      assert [] + Named(items[1..], name) == Named(items[1..], name);
    }
  }

  /** The k-th function of a name receives the k-th implementation of that name, if there is one. */
  lemma {:induction false} KthReceivesKth(funcs: seq<string>, items: seq<Impl>, i: nat)
    requires i < |funcs|
    ensures var named, k := Named(items, funcs[i]), Count(funcs[..i], funcs[i]);
            Received(funcs, items)[i] == if k < |named| then Some(named[k]) else None
    decreases |funcs|
  {
    TakeFirstNamed(items, funcs[0], funcs[i]);
    if i > 0 {
      var rest := TakeFirst(items, funcs[0]).1;
      KthReceivesKth(funcs[1..], rest, i - 1);
      assert funcs[..i][0] == funcs[0] && funcs[..i][1..] == funcs[1..][..i - 1];
      assert Received(funcs, items)[i] == Received(funcs[1..], rest)[i - 1];
    }
  }

  function Drop(items: seq<Impl>, n: nat): seq<Impl> {
    if n <= |items| then items[n..] else []
  }

  /** Of every name the implementations beyond those received stay, in their order. */
  lemma {:induction false} UnusedNamed(funcs: seq<string>, items: seq<Impl>, name: string)
    ensures Named(Unused(funcs, items), name) == Drop(Named(items, name), Count(funcs, name))
    decreases |funcs|
  {
    if funcs != [] {
      TakeFirstNamed(items, funcs[0], name);
      UnusedNamed(funcs[1..], TakeFirst(items, funcs[0]).1, name);
    }
  }

  lemma {:induction false} TakeFirstSubsequence(items: seq<Impl>, name: string)
    ensures Subsequence(TakeFirst(items, name).1, items)
  {
    if items != [] {
      if items[0].name == name {
        SubsequenceSelf(items[1..]);
      } else {
        TakeFirstSubsequence(items[1..], name);
        var rest := TakeFirst(items[1..], name).1;
        assert ([items[0]] + rest)[1..] == rest;
      }
    }
  }

  /** What is left over is the existing list without the implementations handed out. */
  lemma {:induction false} UnusedKeepsOrder(funcs: seq<string>, items: seq<Impl>)
    ensures Subsequence(Unused(funcs, items), items)
    decreases |funcs|
  {
    if funcs == [] {
      SubsequenceSelf(items);
    } else {
      var rest := TakeFirst(items, funcs[0]).1;
      TakeFirstSubsequence(items, funcs[0]);
      UnusedKeepsOrder(funcs[1..], rest);
      SubsequenceTrans(Unused(funcs, items), rest, items);
    }
  }

  function Present(rs: seq<Option<Impl>>): seq<Impl> {
    if rs == [] then [] else (if rs[0].Some? then [rs[0].value] else []) + Present(rs[1..])
  }

  lemma {:induction false} TakeFirstMultiset(items: seq<Impl>, name: string)
    ensures var (found, rest) := TakeFirst(items, name);
            multiset(items) == multiset(rest) + (if found.Some? then multiset{found.value} else multiset{})
  {
    if items != [] {
      assert items == [items[0]] + items[1..];
      if items[0].name != name {
        TakeFirstMultiset(items[1..], name);
      }
    }
  }

  /** No implementation is handed out twice and none is lost. */
  lemma {:induction false} EachUsedOnce(funcs: seq<string>, items: seq<Impl>)
    ensures multiset(items) == multiset(Present(Received(funcs, items))) + multiset(Unused(funcs, items))
    decreases |funcs|
  {
    if funcs != [] {
      var (value, rest) := TakeFirst(items, funcs[0]);
      TakeFirstMultiset(items, funcs[0]);
      EachUsedOnce(funcs[1..], rest);
      assert Received(funcs, items)[1..] == Received(funcs[1..], rest);
    }
  }

  /** A hand-edited body survives exactly if its function is still declared often enough: the k-th
      implementation of a name is kept verbatim iff the name is declared more than k times. */
  lemma {:induction false} HandEditsSurviveIff(funcs: seq<string>, items: seq<Impl>, name: string, k: nat)
    requires k < |Named(items, name)| && !Contains(Named(items, name)[k].body, MARKER)
    ensures k < Count(funcs, name) <==>
            exists i :: 0 <= i < |funcs| && funcs[i] == name && Count(funcs[..i], name) == k
                        && Chosen(funcs[i], Received(funcs, items)[i]) == Kept(Named(items, name)[k])
  {
    if k < Count(funcs, name) {
      var i := KthDeclared(funcs, name, k);
      KthReceivesKth(funcs, items, i);
    } else {
      forall i | 0 <= i < |funcs| && funcs[i] == name ensures Count(funcs[..i], name) < Count(funcs, name) {
        CountBefore(funcs, name, i);
      }
    }
  }

  lemma {:induction false} KthDeclared(funcs: seq<string>, name: string, k: nat) returns (i: nat)
    requires k < Count(funcs, name)
    ensures i < |funcs| && funcs[i] == name && Count(funcs[..i], name) == k
  {
    if funcs[0] == name && k == 0 {
      i := 0;
      assert funcs[..0] == [];
    } else {
      var j := KthDeclared(funcs[1..], name, if funcs[0] == name then k - 1 else k);
      i := j + 1;
      assert funcs[..i][0] == funcs[0] && funcs[..i][1..] == funcs[1..][..j];
    }
  }

  lemma {:induction false} CountBefore(funcs: seq<string>, name: string, i: nat)
    requires i < |funcs| && funcs[i] == name
    ensures Count(funcs[..i], name) < Count(funcs, name)
  {
    if i > 0 {
      CountBefore(funcs[1..], name, i - 1);
      assert funcs[..i][0] == funcs[0] && funcs[..i][1..] == funcs[1..][..i - 1];
    }
  }
}
