/** The generated stubs for vector arguments: a C++ vector crosses the C interface as an array
    and a count, and comes back the same way. */
module Marshalling {

  /** The size_t that a non-const vector passes by address. */
  class SizeCell {
    var value: nat

    constructor (n: nat)
      ensures value == n
    {
      value := n;
    }
  }

  function Map<A, B>(f: A -> B, s: seq<A>): (r: seq<B>)
    ensures |r| == |s| && forall i :: 0 <= i < |s| ==> r[i] == f(s[i])
  {
    seq(|s|, i requires 0 <= i < |s| => f(s[i]))
  }

  function Min(a: nat, b: nat): (m: nat)
    ensures m <= a && m <= b && (m == a || m == b)
  {
    if a < b then a else b
  }

  function Max(a: nat, b: nat): (m: nat)
    ensures a <= m && b <= m && (m == a || m == b)
  {
    if a < b then b else a
  }

  // ----- const vectors

  /** The library side of a const vector parameter: `size_t nCount, C const* n`. */
  method CppToCConst<C, T>(count: nat, list: array?<C>, fromC: C -> T, optional: bool)
    returns (called: bool, seen: seq<T>)
    requires list != null ==> count <= list.Length
    requires optional ==> count == 0 || list != null
    ensures called <==> optional || count == 0 || list != null
    ensures called ==> seen == if list == null then [] else Map(fromC, list[..count])
  {
    called, seen := true, [];
    if !optional && count > 0 && list == null {
      called := false;
      return;
    }
    if count > 0 {
      for i := 0 to count
        invariant seen == Map(fromC, list[..i])
      {
        seen := seen + [fromC(list[i])];
      }
    }
  }

  /** The client side: fills the array and calls the C function. The callee sees every element of
      the vector, converted there and back, in order. */
  method CToCppConst<S, C(0), T>(v: seq<S>, toC: S -> C, fromC: C -> T, optional: bool)
    returns (called: bool, seen: seq<T>)
    ensures called && |seen| == |v|
    ensures forall i :: 0 <= i < |v| ==> seen[i] == fromC(toC(v[i]))
  {
    var count := |v|;
    var list: array?<C> := null;
    if count > 0 {
      list := new C[count];
      for i := 0 to count
        invariant forall j :: 0 <= j < i ==> list[j] == toC(v[j])
      {
        list[i] := toC(v[i]);
      }
    }
    called, seen := CppToCConst(count, list, fromC, optional);
  }

  // ----- non-const vectors

  /** The library side's copy of the first n elements of the callee's vector into the array. */
  method WriteBack<C, T>(list: array<C>, r: seq<T>, n: nat, toC: T -> C)
    requires n <= |r| && n <= list.Length
    modifies list
    ensures list[..n] == Map(toC, r[..n]) && list[n..] == old(list[..])[n..]
  {
    for i := 0 to n
      invariant forall j :: 0 <= j < i ==> list[j] == toC(r[j])
      invariant forall j :: i <= j < list.Length ==> list[j] == old(list[j])
    {
      list[i] := toC(r[i]);
    }
  }

  /** The library side of a non-const vector parameter: `size_t* nCount, C* n`. The callee is given
      the array's elements and its vector is written back as far as the array reaches. */
  method CppToCVector<C, T>(count: SizeCell?, list: array?<C>, fromC: C -> T, toC: T -> C, optional: bool,
                            callee: seq<T> -> seq<T>)
    returns (called: bool, ghost seen: seq<T>)
    requires count != null && list != null ==> count.value <= list.Length
    modifies count, list
    ensures called <==> optional || (count != null && (old(count.value) == 0 || list != null))
    ensures !called ==> (count != null ==> count.value == old(count.value))
                        && (list != null ==> list[..] == old(list[..]))
    ensures called && (count == null || list == null) ==>
              seen == [] && (count != null ==> count.value == old(count.value))
              && (list != null ==> list[..] == old(list[..]))
    ensures called && count != null && list != null ==>
              seen == Map(fromC, old(list[..count.value]))
              && count.value == Min(|callee(seen)|, old(count.value))
              && list[..count.value] == Map(toC, callee(seen)[..count.value])
              && list[count.value..] == old(list[..])[count.value..]
  {
    called, seen := true, [];
    if !optional && (count == null || (count.value > 0 && list == null)) {
      called := false;
      return;
    }
    var v: seq<T> := [];
    if count != null && count.value > 0 && list != null {
      for i := 0 to count.value
        invariant v == Map(fromC, list[..i])
      {
        v := v + [fromC(list[i])];
      }
    }
    seen := v;
    var r := callee(v);
    if count != null && list != null {
      var n := Min(|r|, count.value);
      count.value := n;
      WriteBack(list, r, n, toC);
    }
  }

  /** What the callee sees of a vector of capacity c. */
  function Padded<S, C, T>(v: seq<S>, c: nat, toC: S -> C, zero: C, fromC: C -> T): seq<T>
    requires |v| <= c
  {
    seq(c, i requires 0 <= i < c => fromC(if i < |v| then toC(v[i]) else zero))
  }

  /** The client side: an array of capacity max(count_func(), size), zeroed and filled, is passed
      by address and read back into the vector. */
  method CToCppVector<S, C(0), T>(v: seq<S>, countfunc: nat, optional: bool, zero: C,
                                  toC: S -> C, fromC: C -> T, backC: T -> C, backS: C -> S,
                                  callee: seq<T> -> seq<T>)
    returns (v': seq<S>, ghost seen: seq<T>)
    ensures seen == Padded(v, Max(countfunc, |v|), toC, zero, fromC)
    ensures var c := Max(countfunc, |v|);
            var r := callee(Padded(v, c, toC, zero, fromC));
            |v'| == Min(|r|, c) && forall i :: 0 <= i < |v'| ==> v'[i] == backS(backC(r[i]))
  {
    var size, capacity := |v|, Max(countfunc, |v|);
    var count := new SizeCell(capacity);
    var list: array?<C> := null;
    if capacity > 0 {
      list := new C[capacity](_ => zero);
      for i := 0 to size
        invariant count.value == capacity
        invariant forall j :: 0 <= j < capacity ==> list[j] == if j < i then toC(v[j]) else zero
      {
        list[i] := toC(v[i]);
      }
    }
    var called;
    called, seen := CppToCVector(count, list, fromC, backC, optional, callee);
    assert seen == Padded(v, capacity, toC, zero, fromC);
    v' := [];
    if count.value > 0 && list != null {
      for i := 0 to count.value
        invariant v' == Map(backS, list[..i])
      {
        v' := v' + [backS(list[i])];
      }
      assert forall i :: 0 <= i < count.value ==> list[i] == list[..count.value][i];
    }
  }

  // ----- what crossing means when the conversions undo each other

  /** What the caller's vector becomes, for conversions that are each other's inverses. */
  function Crossed<T>(v: seq<T>, countfunc: nat, zero: T, callee: seq<T> -> seq<T>): seq<T> {
    var c := Max(countfunc, |v|);
    var r := callee(v + seq(c - |v|, _ => zero));
    r[..Min(|r|, c)]
  }

  /** Simple types, booleans as ints, and pointers whose wrapping is undone by unwrapping: the two
      stubs together compute Crossed. */
  method CrossVector<T, C(0)>(v: seq<T>, countfunc: nat, optional: bool, zero: C, default: T,
                              toC: T -> C, fromC: C -> T, callee: seq<T> -> seq<T>)
    returns (v': seq<T>)
    requires forall x :: fromC(toC(x)) == x
    requires fromC(zero) == default
    ensures v' == Crossed(v, countfunc, default, callee)
    ensures var c := Max(countfunc, |v|);
            var r := callee(v + seq(c - |v|, _ => default));
            v' <= r && (v' == r <==> |r| <= c)
    ensures var sent := v + seq(Max(countfunc, |v|) - |v|, _ => default);
            callee(sent) == sent ==> (v' == v <==> countfunc <= |v|)
  {
    var c := Max(countfunc, |v|);
    ghost var sent := v + seq(c - |v|, _ => default);
    ghost var r := callee(sent);
    assert Padded(v, c, toC, zero, fromC) == sent;
    assert Map((x: T) => fromC(toC(x)), r) == r;
    ghost var goal := Crossed(v, countfunc, default, callee);
    assert goal == r[..Min(|r|, c)];
    ghost var seen;
    v', seen := CToCppVector(v, countfunc, optional, zero, toC, fromC, toC, fromC, callee);
    assert seen == sent;
    assert callee(seen) == r;
    assert v' == goal;
    assert |r| <= c ==> r[..|r|] == r;
    assert r == sent ==> v' == sent && |v'| == c;
    assert countfunc <= |v| ==> sent == v;
  }

  /** bool crosses as int: 1 and 0 out, nonzero back. */
  function BoolToInt(b: bool): int { if b then 1 else 0 }
  function IntToBool(i: int): bool { i != 0 }

  method CrossBools(v: seq<bool>, countfunc: nat, callee: seq<bool> -> seq<bool>) returns (v': seq<bool>)
    ensures v' == Crossed(v, countfunc, false, callee)
  {
    v' := CrossVector(v, countfunc, false, 0, false, BoolToInt, IntToBool, callee);
  }
}
