/** The attribute comments of the translator: name=value pairs to a dictionary and back. */
module Attributes {
  import opened Text

  /** A value: True for an attribute without value, or a string. */
  datatype Item = Flag | Str(s: string)

  /** What a name maps to: a single value, or the list of a name given more than once. */
  datatype Attr = One(item: Item) | Many(items: seq<Item>)

  type Dict = map<string, Attr>

  // ----- from string to dictionary

  datatype Part = Nothing | Malformed | Pair(name: string, item: Item)

  /** One comma-separated part. */
  function ReadPart(part: string): Part {
    var stripped := Strip(part);
    var sparts := Split(stripped, '=');
    if stripped == "" then Nothing
    else if |sparts| > 2 then Malformed
    else Pair(Strip(sparts[0]), if |sparts| == 2 then Str(Strip(sparts[1])) else Flag)
  }

  // What a part reads as, whatever blanks surround it and its equals signs.

  lemma {:induction false} ReadsBlank(part: string)
    requires forall i :: 0 <= i < |part| ==> IsSpace(part[i])
    ensures ReadPart(part) == Nothing
  {
    hide IsSpace, Split;
    StripBetween(part, "", "");
    assert part + "" + "" == part;
  }

  lemma {:induction false} ReadsName(part: string, i: nat)
    requires '=' !in part && i < |part| && !IsSpace(part[i])
    ensures ReadPart(part) == Pair(Strip(part), Flag)
  {
    hide IsSpace, Split, Strip;
    StripMeans(part);
    if Strip(part) == "" {
      StripBlank(part);
    }
    StripAgain(part);
    SplitNone(Strip(part), '=');
  }

  lemma {:induction false} ReadsNameValue(a: string, b: string)
    requires '=' !in a && '=' !in b
    ensures ReadPart(a + "=" + b) == Pair(Strip(a), Str(Strip(b)))
  {
    assert Trimmed("=");
    hide IsSpace, Split, Strip, LStrip, RStrip;
    var la, rb := LStrip(a), RStrip(b);
    StripAround(a, "=", b);
    LStripMeans(a);
    RStripMeans(b);
    SplitAt(la, '=', rb);
    SplitNone(la, '=');
    SplitNone(rb, '=');
    assert la + "=" + rb == la + ['='] + rb;
    assert [la] + [rb] == [la, rb];
    StripOfLStrip(a);
    StripOfRStrip(b);
  }

  lemma {:induction false} ReadsTooMany(a: string, b: string, c: string)
    ensures ReadPart(a + "=" + b + "=" + c) == Malformed
  {
    assert Trimmed("=" + b + "=") by {
      var mid := "=" + b + "=";
      assert mid[0] == '=' && mid[|mid| - 1] == '=';
    }
    hide IsSpace, Split, Strip, LStrip, RStrip;
    var la, rc := LStrip(a), RStrip(c);
    StripAround(a, "=" + b + "=", c);
    assert a + "=" + b + "=" + c == a + ("=" + b + "=") + c;
    var s := la + ("=" + b + "=") + rc;
    assert s == la + ['='] + (b + ['='] + rc);
    SplitAt(la, '=', b + ['='] + rc);
    SplitAt(b, '=', rc);
  }

  /** Stripping text around a middle that has no whitespace at its ends. */
  lemma {:induction false} StripAround(a: string, mid: string, c: string)
    requires mid != "" && Trimmed(mid)
    ensures Strip(a + mid + c) == LStrip(a) + mid + RStrip(c)
  {
    hide Strip, LStrip, RStrip;
    var la, rc := LStrip(a), RStrip(c);
    LStripMeans(a);
    RStripMeans(c);
    var pre, post, core := a[..|a| - |la|], c[|rc|..], la + mid + rc;
    assert a == pre + la && c == rc + post;
    assert a + mid + c == pre + core + post;
    assert Trimmed(core) by {
      assert core[0] == (if la == "" then mid[0] else la[0]);
      assert core[|core| - 1] == (if rc == "" then mid[|mid| - 1] else rc[|rc| - 1]);
    }
    hide IsSpace, Trimmed;
    StripBetween(pre, core, post);
  }

  /** A name seen again makes a list of its values in order. */
  function Put(d: Dict, name: string, item: Item): Dict {
    if name !in d then d[name := One(item)]
    else
      match d[name]
      case One(first) => d[name := Many([first, item])]
      case Many(items) => d[name := Many(items + [item])]
  }

  function Build(d: Dict, parts: seq<string>): Option<Dict>
    decreases |parts|
  {
    if parts == [] then Some(d)
    else
      match ReadPart(parts[0])
      case Nothing => Build(d, parts[1..])
      case Malformed => None
      case Pair(name, item) => Build(Put(d, name, item), parts[1..])
  }

  lemma {:induction false} PutCases(d: Dict, name: string, item: Item)
    ensures name !in d ==> Put(d, name, item) == d[name := One(item)]
    ensures name in d ==>
              Put(d, name, item)
              == d[name := Many((if d[name].One? then [d[name].item] else d[name].items) + [item])]
  {
    if name in d && d[name].One? {
      assert [d[name].item] + [item] == [d[name].item, item];
    }
  }

  lemma {:induction false} Overwritten<K, V>(d: map<K, V>, k: K, a: V, b: V)
    ensures d[k := a][k := b] == d[k := b]
  {
  }

  lemma {:induction false} BuildAt(d: Dict, parts: seq<string>, i: nat)
    requires i < |parts|
    ensures Build(d, parts[i..])
            == match ReadPart(parts[i])
               case Nothing => Build(d, parts[i + 1..])
               case Malformed => None
               case Pair(name, item) => Build(Put(d, name, item), parts[i + 1..])
  {
    assert parts[i..][1..] == parts[i + 1..];
  }

  // ----- what the dictionary holds

  function Listed(items: seq<Item>): Attr
    requires items != []
  {
    if |items| == 1 then One(items[0]) else Many(items)
  }

  /** The values that the parts give to a name, in order of appearance. */
  function Values(parts: seq<string>, name: string): seq<Item> {
    if parts == [] then []
    else
      (match ReadPart(parts[0]) case Pair(n, item) => (if n == name then [item] else []) case _ => [])
        + Values(parts[1..], name)
  }

  /** The dictionary holds these values under the name. */
  predicate Holds(d: Dict, name: string, items: seq<Item>) {
    (name in d <==> items != []) && (name in d ==> d[name] == Listed(items))
  }

  lemma {:induction false} PutHolds(d: Dict, n: string, item: Item, name: string, items: seq<Item>)
    requires Holds(d, name, items)
    ensures Holds(Put(d, n, item), name, items + if n == name then [item] else [])
  {
    PutCases(d, n, item);
    assert items + [] == items;
    if n == name && items != [] {
      assert |items| == 1 ==> [items[0]] == items;
    }
  }

  /** Every name ends up with the values it had and those of its parts, in order of appearance. */
  lemma {:induction false} BuildHolds(d: Dict, parts: seq<string>, name: string, items: seq<Item>)
    requires Holds(d, name, items)
    ensures Build(d, parts).Some? ==> Holds(Build(d, parts).value, name, items + Values(parts, name))
    decreases |parts|
  {
    hide Holds, Put, ReadPart;
    if parts == [] {
      assert items + [] == items;
    } else {
      var rest := Values(parts[1..], name);
      match ReadPart(parts[0]) {
        case Nothing =>
          assert [] + rest == rest;
          BuildHolds(d, parts[1..], name, items);
        case Malformed =>
        case Pair(n, item) =>
          var more := if n == name then [item] else [];
          PutHolds(d, n, item, name, items);
          BuildHolds(Put(d, n, item), parts[1..], name, items + more);
          SeqAssoc(items, more, rest);
      }
    }
  }

  lemma {:induction false} BuildRaisesIff(d: Dict, parts: seq<string>)
    ensures Build(d, parts).None? <==> exists p :: p in parts && ReadPart(p).Malformed?
    decreases |parts|
  {
    hide Put, ReadPart;
    if parts != [] {
      assert parts == [parts[0]] + parts[1..];
      match ReadPart(parts[0]) {
        case Nothing => BuildRaisesIff(d, parts[1..]);
        case Malformed =>
        case Pair(n, item) => BuildRaisesIff(Put(d, n, item), parts[1..]);
      }
    }
  }

  /** The dictionary of a string: every name with its values in order of appearance, wherever the parts
      stand, a single value as such and several as a list; None if a part has two equals signs. */
  lemma {:induction false} BuildMeans(parts: seq<string>)
    ensures var r := Build(map[], parts);
            (r.None? <==> exists p :: p in parts && ReadPart(p).Malformed?)
            && (r.Some? ==> forall name :: Holds(r.value, name, Values(parts, name)))
  {
    BuildRaisesIff(map[], parts);
    if Build(map[], parts).Some? {
      forall name ensures Holds(Build(map[], parts).value, name, Values(parts, name)) {
        BuildHolds(map[], parts, name, []);
        assert [] + Values(parts, name) == Values(parts, name);
      }
    }
  }

  /** str_to_dict; None is the exception for a part with two equals signs. */
  method StrToDict(str: string) returns (r: Option<Dict>)
    ensures r == Build(map[], Split(str, ','))
    ensures r.None? <==> exists p :: p in Split(str, ',') && ReadPart(p).Malformed?
    ensures r.Some? ==> forall name :: Holds(r.value, name, Values(Split(str, ','), name))
  {
    hide Holds, Values;
    BuildMeans(Split(str, ','));
    var dict: Dict := map[];
    var parts := Split(str, ',');
    ghost var goal := Build(map[], parts);
    assert parts[0..] == parts;
    for i := 0 to |parts|
      invariant Build(dict, parts[i..]) == goal
    {
      hide Build, Strip, Split, Put;
      BuildAt(dict, parts, i);
      var part := Strip(parts[i]);
      if |part| == 0 {
        continue;
      }
      var sparts := Split(part, '=');
      if |sparts| > 2 {
        return None;
      }
      var name := Strip(sparts[0]);
      var val := Flag;
      if |sparts| == 2 {
        val := Str(Strip(sparts[1]));
      }
      PutCases(dict, name, val);
      if name in dict {
        var curval := dict[name];
        var items := if curval.One? then [curval.item] else curval.items;
        dict := dict[name := Many(items + [val])];
      } else {
        dict := dict[name := One(val)];
      }
    }
    return Some(dict);
  }

  // ----- from dictionary to string

  /** The parts written for one name; None is the TypeError of name+'='+True. */
  function Written(name: string, items: seq<Item>): Option<seq<string>> {
    if items == [] then Some([])
    else
      match (Written(name, items[..|items| - 1]), items[|items| - 1])
      case (Some(front), Str(s)) => Some(front + [name + "=" + s])
      case _ => None
  }

  function PartsOf(name: string, a: Attr): Option<seq<string>> {
    match a
    case One(Flag) => Some([name])
    case One(Str(s)) => Some([name + "=" + s])
    case Many(items) => Written(name, items)
  }

  /** The parts for the names in the order given. */
  function AllParts(d: Dict, keys: seq<string>): Option<seq<string>>
    requires forall k :: k in keys ==> k in d
  {
    if keys == [] then Some([])
    else
      match (AllParts(d, keys[..|keys| - 1]), PartsOf(keys[|keys| - 1], d[keys[|keys| - 1]]))
      case (Some(front), Some(last)) => Some(front + last)
      case _ => None
  }

  /** string.join(parts, ',') */
  function Joined(parts: seq<string>): string {
    if parts == [] then "" else if |parts| == 1 then parts[0] else parts[0] + [','] + Joined(parts[1..])
  }

  lemma {:induction false} WrittenIff(name: string, items: seq<Item>)
    ensures Written(name, items).None? <==> Flag in items
  {
    if items != [] {
      var front, last := items[..|items| - 1], items[|items| - 1];
      WrittenIff(name, front);
      assert items == front + [last];
    }
  }

  /** Only a list that contains True cannot be written. */
  lemma {:induction false} AllPartsIff(d: Dict, keys: seq<string>)
    requires forall k :: k in keys ==> k in d
    ensures AllParts(d, keys).None? <==> exists k :: k in keys && d[k].Many? && Flag in d[k].items
  {
    if keys != [] {
      var front, last := keys[..|keys| - 1], keys[|keys| - 1];
      assert keys == front + [last];
      AllPartsIff(d, front);
      if d[last].Many? {
        WrittenIff(last, d[last].items);
      }
    }
  }

  /** Some order of the dictionary's names: dict.keys() promises none. */
  ghost predicate Enumerates(keys: seq<string>, d: Dict) {
    (forall k :: k in keys <==> k in d) && forall i, j :: 0 <= i < j < |keys| ==> keys[i] != keys[j]
  }

  /** dict_to_str */
  method DictToStr(d: Dict, keys: seq<string>) returns (r: Option<string>)
    requires Enumerates(keys, d)
    ensures r == match AllParts(d, keys) case None => None case Some(parts) => Some(Joined(parts))
    ensures r.None? <==> exists k :: k in keys && d[k].Many? && Flag in d[k].items
  {
    AllPartsIff(d, keys);
    var str := [];
    for i := 0 to |keys|
      invariant AllParts(d, keys[..i]) == Some(str)
    {
      var name := keys[i];
      assert keys[..i + 1][..i] == keys[..i];
      ghost var front := str;
      match d[name] {
        case One(Flag) => str := str + [name];
        case One(Str(s)) => str := str + [name + "=" + s];
        case Many(items) =>
          for j := 0 to |items|
            invariant Written(name, items[..j]).Some? && str == front + Written(name, items[..j]).value
          {
            assert items[..j + 1][..j] == items[..j];
            match items[j] {
              case Flag =>
                StopsAt(name, items, j);
                NoParts(d, keys, i);
                return None;
              case Str(s) => str := str + [name + "=" + s];
            }
          }
          assert items[..|items|] == items;
      }
    }
    assert keys[..|keys|] == keys;
    return Some(Joined(str));
  }

  lemma {:induction false} StopsAt(name: string, items: seq<Item>, j: nat)
    requires j < |items| && items[j].Flag?
    ensures Written(name, items).None?
  {
    if j < |items| - 1 {
      StopsAt(name, items[..|items| - 1], j);
    }
  }

  lemma {:induction false} NoParts(d: Dict, keys: seq<string>, i: nat)
    requires forall k :: k in keys ==> k in d
    requires i < |keys| && PartsOf(keys[i], d[keys[i]]).None?
    ensures AllParts(d, keys).None?
  {
    if i < |keys| - 1 {
      NoParts(d, keys[..|keys| - 1], i);
    }
  }

  // ----- the round trip

  predicate Clean(s: string) {
    Trimmed(s) && ',' !in s && '=' !in s
  }

  predicate CleanStrings(items: seq<Item>) {
    forall i :: 0 <= i < |items| ==> items[i].Str? && Clean(items[i].s)
  }

  /** Clean names and values; an attribute without value has a name; a list has two values. */
  predicate CanonicalEntry(name: string, a: Attr) {
    Clean(name)
    && match a
       case One(Flag) => name != ""
       case One(Str(s)) => Clean(s)
       case Many(items) => |items| >= 2 && CleanStrings(items)
  }

  predicate Canonical(d: Dict) {
    forall name :: name in d ==> CanonicalEntry(name, d[name])
  }

  lemma {:induction false} StripClean(s: string)
    requires Trimmed(s)
    ensures Strip(s) == s
  {
    hide Strip, Trimmed;
    assert s + "" == s;
    StripPadded(s, "");
  }

  lemma {:induction false} ReadsFlag(name: string)
    requires Clean(name) && name != ""
    ensures ReadPart(name) == Pair(name, Flag)
  {
    StripClean(name);
    SplitNone(name, '=');
  }

  lemma {:induction false} ReadsPair(name: string, s: string)
    requires Clean(name) && Clean(s)
    ensures ReadPart(name + "=" + s) == Pair(name, Str(s))
  {
    var part := name + "=" + s;
    assert part[0] == (if name == "" then '=' else name[0]);
    assert part[|part| - 1] == (if s == "" then '=' else s[|s| - 1]);
    StripClean(part);
    SplitAt(name, '=', s);
    SplitNone(name, '=');
    SplitNone(s, '=');
    StripClean(name);
    StripClean(s);
    assert part == name + ['='] + s;
    assert [name] + [s] == [name, s];
  }

  lemma {:induction false} BuildConcat(d: Dict, a: seq<string>, b: seq<string>)
    ensures Build(d, a + b) == match Build(d, a) case None => None case Some(d') => Build(d', b)
    decreases |a|
  {
    if a == [] {
      assert a + b == b;
    } else {
      assert (a + b)[0] == a[0] && (a + b)[1..] == a[1..] + b;
      match ReadPart(a[0]) {
        case Nothing => BuildConcat(d, a[1..], b);
        case Malformed =>
        case Pair(name, item) => BuildConcat(Put(d, name, item), a[1..], b);
      }
    }
  }

  lemma {:induction false} BuildOne(d: Dict, part: string, name: string, item: Item)
    requires ReadPart(part) == Pair(name, item)
    ensures Build(d, [part]) == Some(Put(d, name, item))
  {
    assert [part][1..] == [];
  }

  lemma {:induction false} ListGrows(d: Dict, name: string, front: seq<Item>, last: Item)
    requires front != []
    ensures Put(d[name := Listed(front)], name, last) == d[name := Listed(front + [last])]
  {
    hide Put;
    PutCases(d[name := Listed(front)], name, last);
    assert |front| == 1 ==> [front[0]] == front;
    Overwritten(d, name, Listed(front), Many(front + [last]));
  }

  lemma {:induction false} WrittenStep(name: string, front: seq<Item>, s: string)
    requires Written(name, front).Some?
    ensures Written(name, front + [Str(s)]) == Some(Written(name, front).value + [name + "=" + s])
  {
    assert (front + [Str(s)])[..|front|] == front;
  }

  lemma {:induction false} BuildsSingle(d: Dict, name: string, item: Item)
    requires Clean(name) && name !in d && item.Str? && Clean(item.s)
    ensures Written(name, [item]) == Some([name + "=" + item.s])
    ensures Build(d, [name + "=" + item.s]) == Some(d[name := Listed([item])])
  {
    hide Build, Put, ReadPart, Clean;
    ReadsPair(name, item.s);
    BuildOne(d, name + "=" + item.s, name, item);
    PutCases(d, name, item);
    WrittenStep(name, [], item.s);
    assert [] + [item] == [item];
    assert [] + [name + "=" + item.s] == [name + "=" + item.s];
  }

  lemma {:induction false} CleanFront(items: seq<Item>)
    requires CleanStrings(items) && items != []
    ensures var last := items[|items| - 1];
            last.Str? && Clean(last.s) && CleanStrings(items[..|items| - 1])
  {
  }

  /** A list of two or more strings is read back as the list. */
  lemma {:induction false} BuildsList(d: Dict, name: string, items: seq<Item>)
    requires Clean(name) && name !in d && CleanStrings(items) && items != []
    ensures Written(name, items).Some?
    ensures Build(d, Written(name, items).value) == Some(d[name := Listed(items)])
    decreases |items|
  {
    hide *;
    var front, last := items[..|items| - 1], items[|items| - 1];
    CleanFront(items);
    var part := name + "=" + last.s;
    assert items == front + [last];
    if |items| == 1 {
      assert items == [last];
      BuildsSingle(d, name, last);
    } else {
      BuildsList(d, name, front);
      WrittenStep(name, front, last.s);
      ReadsPair(name, last.s);
      BuildConcat(d, Written(name, front).value, [part]);
      BuildOne(d[name := Listed(front)], part, name, last);
      ListGrows(d, name, front, last);
    }
  }

  lemma {:induction false} BuildsEntry(d: Dict, name: string, a: Attr)
    requires CanonicalEntry(name, a) && name !in d
    ensures PartsOf(name, a).Some? && Build(d, PartsOf(name, a).value) == Some(d[name := a])
  {
    match a {
      case One(Flag) =>
        ReadsFlag(name);
        BuildOne(d, name, name, Flag);
      case One(Str(s)) =>
        ReadsPair(name, s);
        BuildOne(d, name + "=" + s, name, Str(s));
      case Many(items) => BuildsList(d, name, items);
    }
  }

  function Restricted<K, V>(d: map<K, V>, keys: seq<K>): map<K, V>
    requires forall k :: k in keys ==> k in d
  {
    map k | k in keys :: d[k]
  }

  lemma {:induction false} RestrictedStep<K, V>(d: map<K, V>, front: seq<K>, k: K)
    requires k in d && forall k :: k in front ==> k in d
    ensures Restricted(d, front)[k := d[k]] == Restricted(d, front + [k])
    ensures k in Restricted(d, front) <==> k in front
  {
  }

  lemma {:induction false} AllPartsStep(d: Dict, front: seq<string>, k: string)
    requires k in d && (forall k :: k in front ==> k in d)
    requires AllParts(d, front).Some? && PartsOf(k, d[k]).Some?
    ensures AllParts(d, front + [k]) == Some(AllParts(d, front).value + PartsOf(k, d[k]).value)
  {
    assert (front + [k])[..|front|] == front;
  }

  lemma {:induction false} BuildsAll(d: Dict, keys: seq<string>)
    requires Canonical(d) && forall k :: k in keys ==> k in d
    requires forall i, j :: 0 <= i < j < |keys| ==> keys[i] != keys[j]
    ensures AllParts(d, keys).Some?
    ensures Build(map[], AllParts(d, keys).value) == Some(Restricted(d, keys))
    decreases |keys|
  {
    if keys == [] {
      assert AllParts(d, []) == Some([]) && Restricted(d, []) == map[];
    } else {
      var front, k := keys[..|keys| - 1], keys[|keys| - 1];
      assert keys == front + [k] && k in keys && k !in front;
      assert CanonicalEntry(k, d[k]);
      hide *;
      BuildsAll(d, front);
      RestrictedStep(d, front, k);
      BuildsEntry(Restricted(d, front), k, d[k]);
      AllPartsStep(d, front, k);
      BuildConcat(map[], AllParts(d, front).value, PartsOf(k, d[k]).value);
    }
  }

  // ----- splitting what was joined

  lemma {:induction false} SplitsJoined(parts: seq<string>)
    requires parts != [] && forall p :: p in parts ==> ',' !in p
    ensures Split(Joined(parts), ',') == parts
  {
    assert ',' !in parts[0] by {
      assert parts[0] in parts;
    }
    SplitNone(parts[0], ',');
    if |parts| == 1 {
      assert parts == [parts[0]];
    } else {
      SplitsJoined(parts[1..]);
      SplitAt(parts[0], ',', Joined(parts[1..]));
      assert parts == [parts[0]] + parts[1..];
    }
  }

  lemma {:induction false} BuildsNothing()
    ensures Build(map[], Split("", ',')) == Some(map[])
  {
    assert Split("", ',') == [""] && [""][1..] == [];
    StripClean("");
  }

  lemma {:induction false} WrittenClean(name: string, items: seq<Item>)
    requires Clean(name) && CleanStrings(items) && Written(name, items).Some?
    ensures forall p :: p in Written(name, items).value ==> ',' !in p
    decreases |items|
  {
    if items != [] {
      WrittenClean(name, items[..|items| - 1]);
    }
  }

  lemma {:induction false} PartsClean(d: Dict, keys: seq<string>)
    requires Canonical(d) && (forall k :: k in keys ==> k in d) && AllParts(d, keys).Some?
    ensures forall p :: p in AllParts(d, keys).value ==> ',' !in p
    decreases |keys|
  {
    if keys != [] {
      var front, k := keys[..|keys| - 1], keys[|keys| - 1];
      PartsClean(d, front);
      assert k in keys && CanonicalEntry(k, d[k]);
      if d[k].Many? {
        WrittenClean(k, d[k].items);
      }
    }
  }

  // ----- what str_to_dict can return

  /** As CanonicalEntry, but the values of a list may include True. */
  predicate ReadableEntry(name: string, a: Attr) {
    Clean(name)
    && match a
       case One(Flag) => name != ""
       case One(Str(s)) => Clean(s)
       case Many(items) => |items| >= 2 && forall i :: 0 <= i < |items| && items[i].Str? ==> Clean(items[i].s)
  }

  lemma {:induction false} CleanPiece(piece: string, s: string)
    requires ',' !in s && '=' !in piece && forall c :: c in piece ==> c in s
    ensures Clean(Strip(piece))
  {
    hide Strip, Trimmed;
    StripMeans(piece);
  }

  lemma {:induction false} CleanSplit(s: string, i: nat)
    requires ',' !in s && i < |Split(s, '=')|
    ensures Clean(Strip(Split(s, '=')[i]))
  {
    hide Split, Strip, Clean;
    var piece := Split(s, '=')[i];
    assert piece in Split(s, '=');
    SplitMeans(s, '=');
    CleanPiece(piece, s);
  }

  lemma {:induction false} ReadPartClean(part: string)
    requires ',' !in part && ReadPart(part).Pair?
    ensures ReadableEntry(ReadPart(part).name, One(ReadPart(part).item))
  {
    hide Split, Strip, Clean, Trimmed;
    var stripped := Strip(part);
    var sparts := Split(stripped, '=');
    StripMeans(part);
    CleanSplit(stripped, 0);
    if |sparts| == 2 {
      CleanSplit(stripped, 1);
    } else {
      SplitOne(stripped, '=');
      StripClean(stripped);
    }
  }

  lemma {:induction false} SplitOne(s: string, sep: char)
    requires |Split(s, sep)| == 1
    ensures Split(s, sep) == [s]
  {
    if s != "" {
      SplitOne(s[1..], sep);
      assert [s[0]] + s[1..] == s;
    }
  }

  lemma {:induction false} BuildReadable(d: Dict, parts: seq<string>)
    requires forall n :: n in d ==> ReadableEntry(n, d[n])
    requires (forall p :: p in parts ==> ',' !in p) && Build(d, parts).Some?
    ensures forall n :: n in Build(d, parts).value ==> ReadableEntry(n, Build(d, parts).value[n])
    decreases |parts|
  {
    if parts != [] {
      assert parts[0] in parts;
      match ReadPart(parts[0]) {
        case Nothing => BuildReadable(d, parts[1..]);
        case Malformed =>
        case Pair(name, item) =>
          ReadPartClean(parts[0]);
          PutReadable(d, name, item);
          BuildReadable(Put(d, name, item), parts[1..]);
      }
    }
  }

  lemma {:induction false} PutReadable(d: Dict, name: string, item: Item)
    requires (forall n :: n in d ==> ReadableEntry(n, d[n])) && ReadableEntry(name, One(item))
    ensures forall n :: n in Put(d, name, item) ==> ReadableEntry(n, Put(d, name, item)[n])
  {
    if name in d {
      assert ReadableEntry(name, d[name]);
    }
  }

  lemma {:induction false} WrittenStrings(name: string, items: seq<Item>, i: nat)
    requires Written(name, items).Some? && i < |items|
    ensures items[i].Str?
  {
    if items[i].Flag? {
      StopsAt(name, items, i);
    }
  }

  lemma {:induction false} WrittenEntries(d: Dict, keys: seq<string>, k: string)
    requires (forall k :: k in keys ==> k in d) && AllParts(d, keys).Some? && k in keys
    ensures PartsOf(k, d[k]).Some?
  {
    var i :| 0 <= i < |keys| && keys[i] == k;
    if PartsOf(k, d[k]).None? {
      NoParts(d, keys, i);
    }
  }

  /** Writing a dictionary, in whatever order of its names, and reading the string gives the
      dictionary back exactly if it is canonical. */
  lemma {:induction false} AttributesRoundTripIff(d: Dict, keys: seq<string>)
    requires Enumerates(keys, d)
    ensures (AllParts(d, keys).Some? && Build(map[], Split(Joined(AllParts(d, keys).value), ',')) == Some(d))
            <==> Canonical(d)
  {
    if Canonical(d) {
      BuildsAll(d, keys);
      PartsClean(d, keys);
      assert Restricted(d, keys) == d;
      if AllParts(d, keys).value == [] {
        BuildsNothing();
        assert Build(map[], []) == Some(map[]);
      } else {
        SplitsJoined(AllParts(d, keys).value);
      }
    } else if AllParts(d, keys).Some? && Build(map[], Split(Joined(AllParts(d, keys).value), ',')) == Some(d) {
      var name :| name in d && !CanonicalEntry(name, d[name]);
      SplitMeans(Joined(AllParts(d, keys).value), ',');
      BuildReadable(map[], Split(Joined(AllParts(d, keys).value), ','));
      assert ReadableEntry(name, d[name]);
      WrittenEntries(d, keys, name);
      if d[name].Many? {
        forall i | 0 <= i < |d[name].items| ensures d[name].items[i].Str? {
          WrittenStrings(name, d[name].items, i);
        }
      }
      assert CanonicalEntry(name, d[name]);
    }
  }
}
