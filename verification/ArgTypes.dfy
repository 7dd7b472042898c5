/** Argument types of the translator: the C prototype, the parameters the client stub passes, and
    the parameters the library stub passes. */
module ArgTypes {
  import opened Text

  /** Element types of std::vector that the analysis tells apart. */
  datatype Elem = StringElem | SimpleElem(isbool: bool) | RefPtrElem(sameside: bool) | StructElem

  /** obj_analysis.result_type, with what the translator asks about it. */
  datatype Kind =
    | Simple(isbool: bool)
    | Structure
    | String
    | RefPtr(sameside: bool)
    | Vector(elem: Elem)
    | SingleMap(ofstrings: bool)
    | MultiMap(ofstrings: bool)

  datatype Passing = ByValue | ByReference | ByAddress

  /** One named argument as analysed. */
  datatype Argument = Argument(name: string, kind: Kind, passing: Passing, isconst: bool) {
    predicate ByRef() { passing.ByReference? }
    predicate ByAddr() { passing.ByAddress? }
  }

  datatype ArgType =
    | SimpleByVal | SimpleByRef | SimpleByRefConst | SimpleByAddr
    | BoolByVal | BoolByRef | BoolByAddr
    | StructByRef | StructByRefConst
    | StringByRef | StringByRefConst
    | RefPtrSame | RefPtrSameByRef | RefPtrDiff | RefPtrDiffByRef
    | StringVecByRef | StringVecByRefConst
    | SingleMapByRef | SingleMapByRefConst | MultiMapByRef | MultiMapByRefConst
    | SimpleVecByRef | SimpleVecByRefConst | BoolVecByRef | BoolVecByRefConst
    | RefPtrVecSameByRef | RefPtrVecSameByRefConst | RefPtrVecDiffByRef | RefPtrVecDiffByRefConst
    | Invalid

  /** obj_argument.get_arg_type */
  function GetArgType(a: Argument): ArgType {
    if (a.kind.Simple? && !a.kind.isbool) || (a.kind.Structure? && a.passing.ByValue?) then
      if a.ByRef() then (if a.isconst then SimpleByRefConst else SimpleByRef)
      else if a.ByAddr() then SimpleByAddr
      else SimpleByVal
    else if a.kind.Simple? then
      if a.ByRef() then BoolByRef else if a.ByAddr() then BoolByAddr else BoolByVal
    else if a.kind.Structure? && a.ByRef() then
      if a.isconst then StructByRefConst else StructByRef
    else if a.kind.String? && a.ByRef() then
      if a.isconst then StringByRefConst else StringByRef
    else if a.kind.RefPtr? then
      if a.ByRef() then (if a.kind.sameside then RefPtrSameByRef else RefPtrDiffByRef)
      else if a.kind.sameside then RefPtrSame else RefPtrDiff
    else if a.kind.Vector? then
      if !a.ByRef() then Invalid
      else
        match a.kind.elem
        case StringElem => if a.isconst then StringVecByRefConst else StringVecByRef
        case SimpleElem(isbool) =>
          if !isbool then (if a.isconst then SimpleVecByRefConst else SimpleVecByRef)
          else if a.isconst then BoolVecByRefConst else BoolVecByRef
        case RefPtrElem(same) =>
          if a.isconst then (if same then RefPtrVecSameByRefConst else RefPtrVecDiffByRefConst)
          else if same then RefPtrVecSameByRef else RefPtrVecDiffByRef
        case StructElem => Invalid
    else if a.kind.SingleMap? then
      if !a.ByRef() then Invalid else if a.isconst then SingleMapByRefConst else SingleMapByRef
    else if a.kind.MultiMap? then
      if !a.ByRef() then Invalid else if a.isconst then MultiMapByRefConst else MultiMapByRef
    else Invalid
  }

  /** Arguments that no stub can pass. */
  predicate Unsupported(a: Argument) {
    match a.kind
    case Simple(_) => false
    case RefPtr(_) => false
    case Structure => a.passing == ByAddress
    case String => a.passing != ByReference
    case Vector(elem) => a.passing != ByReference || elem == StructElem
    case SingleMap(_) => a.passing != ByReference
    case MultiMap(_) => a.passing != ByReference
  }

  lemma {:induction false} InvalidIff(a: Argument)
    ensures GetArgType(a).Invalid? <==> Unsupported(a)
  {
  }

  /** What an argument type is about. */
  datatype Family =
    | SimpleFamily | BoolFamily | StructFamily | StringFamily | RefPtrFamily(sameside: bool)
    | VecFamily(elem: Elem) | SingleMapFamily | MultiMapFamily

  /** The parts of an argument type's name: family, byval, byref or byaddr, and const. */
  datatype TypeName = TypeName(family: Family, passing: Passing, isconst: bool)

  function NameOfType(t: ArgType): Option<TypeName> {
    match t
    case SimpleByVal => Some(TypeName(SimpleFamily, ByValue, false))
    case SimpleByRef => Some(TypeName(SimpleFamily, ByReference, false))
    case SimpleByRefConst => Some(TypeName(SimpleFamily, ByReference, true))
    case SimpleByAddr => Some(TypeName(SimpleFamily, ByAddress, false))
    case BoolByVal => Some(TypeName(BoolFamily, ByValue, false))
    case BoolByRef => Some(TypeName(BoolFamily, ByReference, false))
    case BoolByAddr => Some(TypeName(BoolFamily, ByAddress, false))
    case StructByRef => Some(TypeName(StructFamily, ByReference, false))
    case StructByRefConst => Some(TypeName(StructFamily, ByReference, true))
    case StringByRef => Some(TypeName(StringFamily, ByReference, false))
    case StringByRefConst => Some(TypeName(StringFamily, ByReference, true))
    case RefPtrSame => Some(TypeName(RefPtrFamily(true), ByValue, false))
    case RefPtrSameByRef => Some(TypeName(RefPtrFamily(true), ByReference, false))
    case RefPtrDiff => Some(TypeName(RefPtrFamily(false), ByValue, false))
    case RefPtrDiffByRef => Some(TypeName(RefPtrFamily(false), ByReference, false))
    case StringVecByRef => Some(TypeName(VecFamily(StringElem), ByReference, false))
    case StringVecByRefConst => Some(TypeName(VecFamily(StringElem), ByReference, true))
    case SingleMapByRef => Some(TypeName(SingleMapFamily, ByReference, false))
    case SingleMapByRefConst => Some(TypeName(SingleMapFamily, ByReference, true))
    case MultiMapByRef => Some(TypeName(MultiMapFamily, ByReference, false))
    case MultiMapByRefConst => Some(TypeName(MultiMapFamily, ByReference, true))
    case SimpleVecByRef => Some(TypeName(VecFamily(SimpleElem(false)), ByReference, false))
    case SimpleVecByRefConst => Some(TypeName(VecFamily(SimpleElem(false)), ByReference, true))
    case BoolVecByRef => Some(TypeName(VecFamily(SimpleElem(true)), ByReference, false))
    case BoolVecByRefConst => Some(TypeName(VecFamily(SimpleElem(true)), ByReference, true))
    case RefPtrVecSameByRef => Some(TypeName(VecFamily(RefPtrElem(true)), ByReference, false))
    case RefPtrVecSameByRefConst => Some(TypeName(VecFamily(RefPtrElem(true)), ByReference, true))
    case RefPtrVecDiffByRef => Some(TypeName(VecFamily(RefPtrElem(false)), ByReference, false))
    case RefPtrVecDiffByRefConst => Some(TypeName(VecFamily(RefPtrElem(false)), ByReference, true))
    case Invalid => None
  }

  /** The family of an argument; structures by value are enumerations. */
  function FamilyOf(a: Argument): Family {
    match a.kind
    case Simple(isbool) => if isbool then BoolFamily else SimpleFamily
    case Structure => if a.passing == ByValue then SimpleFamily else StructFamily
    case String => StringFamily
    case RefPtr(same) => RefPtrFamily(same)
    case Vector(elem) => VecFamily(elem)
    case SingleMap(_) => SingleMapFamily
    case MultiMap(_) => MultiMapFamily
  }

  /** A supported argument's type names its family, how it is passed, and const where that matters: by
      reference, and not for booleans and reference pointers. Reference pointers by address are taken
      for those by value. */
  lemma {:induction false} TypeTells(a: Argument)
    requires !Unsupported(a)
    ensures var family := FamilyOf(a);
            var passing := if a.kind.RefPtr? && a.passing == ByAddress then ByValue else a.passing;
            NameOfType(GetArgType(a))
            == Some(TypeName(family, passing,
                 a.isconst && a.passing == ByReference && !family.BoolFamily? && !family.RefPtrFamily?))
  {
  }

  /** A return value as analysed; None is void. */
  datatype Retval = Retval(kind: Option<Kind>, passing: Passing, isconst: bool)

  datatype RetvalType =
    | InvalidRetval | NoRetval | SimpleRetval | BoolRetval | StringRetval | RefPtrSameRetval | RefPtrDiffRetval

  /** obj_argument.get_retval_type */
  function GetRetvalType(r: Retval): RetvalType {
    if r.isconst || !r.passing.ByValue? then InvalidRetval
    else
      match r.kind
      case None => NoRetval
      case Some(Simple(isbool)) => if isbool then BoolRetval else SimpleRetval
      case Some(Structure) => SimpleRetval
      case Some(String) => StringRetval
      case Some(RefPtr(sameside)) => if sameside then RefPtrSameRetval else RefPtrDiffRetval
      case Some(_) => InvalidRetval
  }

  /** Return values that no stub can pass on. */
  predicate UnsupportedRetval(r: Retval) {
    r.isconst || r.passing != ByValue
    || (r.kind.Some? && (r.kind.value.Vector? || r.kind.value.SingleMap? || r.kind.value.MultiMap?))
  }

  lemma {:induction false} InvalidRetvalIff(r: Retval)
    ensures GetRetvalType(r).InvalidRetval? <==> UnsupportedRetval(r)
  {
  }

  /** A parameter at the C interface: the struct itself, the size of an array (by value or by
      address), or a value with the number of pointers on top of its base type. */
  datatype CParam = Self | Size(of: string, byaddr: bool) | Value(of: string, pointers: nat)

  // ----- the prototype

  /** obj_analysis.get_capi: the declared parameters for one argument; None is the exception for a
      type the C API cannot express. */
  function GetCApi(a: Argument): Option<seq<CParam>> {
    match a.kind
    case Simple(_) => Some([Value(a.name, if a.passing.ByValue? then 0 else 1)])
    case RefPtr(_) => Some([Value(a.name, if a.passing.ByValue? then 1 else 2)])
    case Structure => Some([Value(a.name, if a.passing.ByValue? then 0 else 1)])
    case String => Some([Value(a.name, 1)])
    case SingleMap(ofstrings) => if ofstrings then Some([Value(a.name, 0)]) else None
    case MultiMap(ofstrings) => if ofstrings then Some([Value(a.name, 0)]) else None
    case Vector(elem) =>
      match elem
      case StringElem => Some([Value(a.name, 0)])
      case SimpleElem(_) => Some([Size(a.name, !a.isconst), Value(a.name, 1)])
      case RefPtrElem(_) => Some([Size(a.name, !a.isconst), Value(a.name, 2)])
      case StructElem => None
  }

  /** The parameters of one argument: an array comes with its size, by value if it is const; the value
      has one pointer if it is passed by reference or address, strings and arrays always, and one more
      if it is a reference pointer. Lists and maps of strings are handles. */
  lemma {:induction false} PrototypeShape(a: Argument)
    ensures GetCApi(a).None? <==> (a.kind.Vector? && a.kind.elem == StructElem) || OtherMap(a)
    ensures GetCApi(a).Some? ==>
              var params := GetCApi(a).value;
              var list := a.kind.Vector? && a.kind.elem != StringElem;
              var handle := (a.kind.Vector? && !list) || a.kind.SingleMap? || a.kind.MultiMap?;
              var refptr := a.kind.RefPtr? || (list && a.kind.elem.RefPtrElem?);
              var indirect := !handle && (list || a.kind.String? || a.passing != ByValue);
              params == (if list then [Size(a.name, !a.isconst)] else [])
                        + [Value(a.name, (if indirect then 1 else 0) + if refptr then 1 else 0)]
  {
  }

  function CApiOf(args: seq<Argument>): Option<seq<CParam>> {
    if args == [] then Some([])
    else
      match GetCApi(args[|args| - 1])
      case None => None
      case Some(last) =>
        match CApiOf(args[..|args| - 1])
        case None => None
        case Some(front) => Some(front + last)
  }

  /** obj_function.get_capi_parts: the parameter list of the C function. */
  method GetCApiParts(isvirtual: bool, args: seq<Argument>) returns (r: Option<seq<CParam>>)
    ensures r == match CApiOf(args)
                 case None => None
                 case Some(params) => Some((if isvirtual then [Self] else []) + params)
  {
    var params := [];
    if isvirtual {
      params := [Self];
    }
    ghost var self := params;
    for i := 0 to |args|
      invariant CApiOf(args[..i]).Some? && params == self + CApiOf(args[..i]).value
    {
      assert args[..i + 1][..i] == args[..i];
      match GetCApi(args[i]) {
        case None =>
          NoCApi(args, i);
          return None;
        case Some(more) =>
          SeqAssoc(self, CApiOf(args[..i]).value, more);
          params := params + more;
      }
    }
    assert args[..|args|] == args;
    return Some(params);
  }

  lemma {:induction false} NoCApi(args: seq<Argument>, i: nat)
    requires i < |args| && GetCApi(args[i]).None?
    ensures CApiOf(args).None?
  {
    if i < |args| - 1 {
      NoCApi(args[..|args| - 1], i);
    }
  }

  // ----- the client stub

  /** What make_ctocpp_function_impl_new passes to the C function for one argument. */
  function CToCppParams(a: Argument): seq<CParam> {
    match GetArgType(a)
    case SimpleByVal | BoolByVal => [Value(a.name, 0)]
    case SimpleByAddr => [Value(a.name, 1)]                       // the pointer itself
    case SimpleByRef | SimpleByRefConst | StructByRef | StructByRefConst => [Value(a.name, 1)]
    case BoolByRef | BoolByAddr => [Value(a.name, 1)]             // the address of an int copy
    case StringByRef | StringByRefConst => [Value(a.name, 1)]     // the string's struct
    case RefPtrSame | RefPtrDiff => [Value(a.name, 1)]            // the unwrapped or wrapped struct
    case RefPtrSameByRef | RefPtrDiffByRef => [Value(a.name, 2)]  // the address of a struct pointer
    case StringVecByRef | StringVecByRefConst => [Value(a.name, 0)]
    case SingleMapByRef | SingleMapByRefConst | MultiMapByRef | MultiMapByRefConst => [Value(a.name, 0)]
    case SimpleVecByRef | BoolVecByRef => [Size(a.name, true), Value(a.name, 1)]
    case RefPtrVecSameByRef | RefPtrVecDiffByRef => [Size(a.name, true), Value(a.name, 2)]
    case SimpleVecByRefConst | BoolVecByRefConst => [Size(a.name, false), Value(a.name, 1)]
    case RefPtrVecSameByRefConst | RefPtrVecDiffByRefConst => [Size(a.name, false), Value(a.name, 2)]
    case Invalid => []
  }

  function PassedBy(args: seq<Argument>): seq<CParam> {
    if args == [] then [] else PassedBy(args[..|args| - 1]) + CToCppParams(args[|args| - 1])
  }

  /** The arguments a stub cannot be generated for, in order. */
  function InvalidNames(args: seq<Argument>): (names: seq<string>)
    ensures names == [] <==> forall a :: a in args ==> !Unsupported(a)
  {
    if args == [] then []
    else
      var front, last := args[..|args| - 1], args[|args| - 1];
      assert args == front + [last];
      InvalidNames(front) + if Unsupported(last) then [last.name] else []
  }

  /** A client stub: the parameters it passes, or what it could not be generated for. */
  datatype Stub = Passes(params: seq<CParam>) | CouldNotImplement(names: seq<string>)

  /** The names of what a stub cannot be generated for. */
  method FindInvalid(args: seq<Argument>, retval: Retval) returns (names: seq<string>)
    ensures names == InvalidNames(args) + if UnsupportedRetval(retval) then ["(return value)"] else []
  {
    hide GetArgType, GetRetvalType, Unsupported, UnsupportedRetval;
    InvalidRetvalIff(retval);
    names := [];
    for i := 0 to |args|
      invariant names == InvalidNames(args[..i])
    {
      assert args[..i + 1][..i] == args[..i];
      InvalidIff(args[i]);
      if GetArgType(args[i]).Invalid? {
        names := names + [args[i].name];
      }
    }
    assert args[..|args|] == args;
    if GetRetvalType(retval).InvalidRetval? {
      names := names + ["(return value)"];
    }
  }

  method TranslateParams(isvirtual: bool, args: seq<Argument>) returns (params: seq<CParam>)
    ensures params == (if isvirtual then [Self] else []) + PassedBy(args)
  {
    hide CToCppParams;
    params := [];
    if isvirtual {
      params := [Self];
    }
    ghost var self := params;
    for i := 0 to |args|
      invariant params == self + PassedBy(args[..i])
    {
      assert args[..i + 1][..i] == args[..i];
      SeqAssoc(self, PassedBy(args[..i]), CToCppParams(args[i]));
      params := params + CToCppParams(args[i]);
    }
    assert args[..|args|] == args;
  }

  /** The validity test and the parameter translation of the client stub. */
  method MakeCToCppParams(isvirtual: bool, args: seq<Argument>, retval: Retval) returns (r: Stub)
    ensures r.Passes? <==> (forall a :: a in args ==> !Unsupported(a)) && !UnsupportedRetval(retval)
    ensures r.Passes? ==> r.params == (if isvirtual then [Self] else []) + PassedBy(args)
    ensures r.CouldNotImplement? ==>
              r.names == InvalidNames(args) + if UnsupportedRetval(retval) then ["(return value)"] else []
  {
    hide Unsupported, UnsupportedRetval, InvalidNames, PassedBy;
    var names := FindInvalid(args, retval);
    if |names| > 0 {
      return CouldNotImplement(names);
    }
    var params := TranslateParams(isvirtual, args);
    return Passes(params);
  }

  /** A CefRefPtr passed by address is taken for one passed by value. */
  predicate RefPtrByAddress(a: Argument) {
    a.kind.RefPtr? && a.ByAddr()
  }

  /** A map whose keys or values are not strings has an argument type but no C type. */
  predicate OtherMap(a: Argument) {
    (a.kind.SingleMap? || a.kind.MultiMap?) && !a.kind.ofstrings
  }

  lemma {:induction false} ArgumentFitsIff(a: Argument)
    requires !Unsupported(a)
    ensures GetCApi(a) == Some(CToCppParams(a)) <==> !RefPtrByAddress(a) && !OtherMap(a)
    ensures GetCApi(a).Some? ==> |GetCApi(a).value| == |CToCppParams(a)|
  {
  }

  lemma {:induction false} CallFitsFrom(args: seq<Argument>)
    requires forall a :: a in args ==> !Unsupported(a)
    ensures CApiOf(args).Some? ==> |CApiOf(args).value| == |PassedBy(args)|
    ensures CApiOf(args) == Some(PassedBy(args))
            <==> forall a :: a in args ==> !RefPtrByAddress(a) && !OtherMap(a)
  {
    if args != [] {
      var front, last := args[..|args| - 1], args[|args| - 1];
      assert args == front + [last] && last in args;
      CallFitsFrom(front);
      ArgumentFitsIff(last);
      if CApiOf(args).Some? {
        var a, b, c, d := CApiOf(front).value, GetCApi(last).value, PassedBy(front), CToCppParams(last);
        assert (a + b)[..|a|] == a && (a + b)[|a|..] == b && (c + d)[..|c|] == c && (c + d)[|c|..] == d;
      }
    }
  }

  /** With valid argument types, the client stub's parameters are exactly those the prototype
      declares, in order and with the same passing of counts, if and only if no reference pointer
      is passed by address and every map is one of strings. */
  lemma {:induction false} CallFitsPrototypeIff(isvirtual: bool, args: seq<Argument>)
    requires forall a :: a in args ==> !Unsupported(a)
    ensures var self := if isvirtual then [Self] else [];
            (CApiOf(args).Some? && self + CApiOf(args).value == self + PassedBy(args))
            <==> forall a :: a in args ==> !RefPtrByAddress(a) && !OtherMap(a)
  {
    CallFitsFrom(args);
    var self := if isvirtual then [Self] else [];
    if CApiOf(args).Some? {
      var a, b := CApiOf(args).value, PassedBy(args);
      assert (self + a)[|self|..] == a && (self + b)[|self|..] == b;
    }
  }

  // ----- the library stub

  /** A C++ expression: how many pointers its type has, and whether it can be assigned to. */
  datatype CppParam = CppParam(of: string, pointers: nat, lvalue: bool)

  /** What make_cpptoc_function_impl_new passes to the C++ method for one argument. */
  function CppToCParams(a: Argument): seq<CppParam> {
    match GetArgType(a)
    case SimpleByVal => [CppParam(a.name, 0, true)]
    case SimpleByAddr => [CppParam(a.name, 1, true)]
    case BoolByVal => [CppParam(a.name, 0, false)]                       // n?true:false
    case SimpleByRef | SimpleByRefConst => [CppParam(a.name, 0, true)]   // nVal
    case BoolByRef => [CppParam(a.name, 0, true)]                        // nBool
    case BoolByAddr => [CppParam(a.name, 1, false)]                      // &nBool
    case StructByRef | StructByRefConst => [CppParam(a.name, 0, true)]   // nObj
    case StringByRefConst => [CppParam(a.name, 0, false)]                // CefString(n)
    case StringByRef => [CppParam(a.name, 0, true)]                      // nStr
    case RefPtrSame | RefPtrDiff => [CppParam(a.name, 0, false)]         // Unwrap(n), Wrap(n)
    case RefPtrSameByRef | RefPtrDiffByRef => [CppParam(a.name, 0, true)]
    case StringVecByRef | StringVecByRefConst => [CppParam(a.name, 0, true)]
    case SingleMapByRef | SingleMapByRefConst | MultiMapByRef | MultiMapByRefConst => [CppParam(a.name, 0, true)]
    case SimpleVecByRef | SimpleVecByRefConst | BoolVecByRef | BoolVecByRefConst => [CppParam(a.name, 0, true)]
    case RefPtrVecSameByRef | RefPtrVecSameByRefConst | RefPtrVecDiffByRef | RefPtrVecDiffByRefConst =>
      [CppParam(a.name, 0, true)]
    case Invalid => []
  }

  function PushedBy(args: seq<Argument>): seq<CppParam> {
    if args == [] then [] else PushedBy(args[..|args| - 1]) + CppToCParams(args[|args| - 1])
  }

  /** An expression the declared C++ parameter accepts. */
  predicate Accepts(a: Argument, p: CppParam) {
    p.of == a.name && p.pointers == (if a.ByAddr() then 1 else 0) && (a.ByRef() && !a.isconst ==> p.lvalue)
  }

  lemma {:induction false} PushedFitsIff(a: Argument)
    requires !Unsupported(a)
    ensures |CppToCParams(a)| == 1 && (Accepts(a, CppToCParams(a)[0]) <==> !RefPtrByAddress(a))
  {
  }

  /** The library stub passes one expression for each C++ argument, in order, and the method
      accepts all of them if and only if no reference pointer is passed by address. */
  lemma {:induction false} CallFitsMethodIff(args: seq<Argument>)
    requires forall a :: a in args ==> !Unsupported(a)
    ensures |PushedBy(args)| == |args|
    ensures (forall i :: 0 <= i < |args| ==> Accepts(args[i], PushedBy(args)[i]))
            <==> forall a :: a in args ==> !RefPtrByAddress(a)
  {
    if args != [] {
      var front, last := args[..|args| - 1], args[|args| - 1];
      var n := |front|;
      assert args == front + [last] && last in args;
      CallFitsMethodIff(front);
      PushedFitsIff(last);
      hide CppToCParams, GetArgType, Accepts, RefPtrByAddress;
      assert PushedBy(args) == PushedBy(front) + CppToCParams(last);
      assert forall i :: 0 <= i < n ==> args[i] == front[i] && PushedBy(args)[i] == PushedBy(front)[i];
      assert args[n] == last && PushedBy(args)[n] == CppToCParams(last)[0];
    }
  }
}
