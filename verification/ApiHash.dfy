/** The API hash calculator: collecting the declarations of all headers, sorting them and signing
    them for every platform. */
module ApiHash {
  import opened Text

  /** A declaration as parsed from a header, its text already normalised. */
  datatype Decl = Decl(name: string, text: string)

  datatype Obj = Obj(name: string, text: string, platforms: seq<string>, filename: string)

  const PLATFORMS: seq<string> := ["windows", "macosx", "linux"]

  /** The headers that belong to particular platforms. */
  type PlatformFiles = map<string, seq<string>>

  predicate Listed(files: PlatformFiles, p: string, filename: string) {
    p in files && filename in files[p]
  }

  // ----- which platforms a header belongs to

  /** __is_platform_filename: listed for the platform, or not listed for any. */
  method IsPlatformFilename(files: PlatformFiles, filename: string, platform: string) returns (r: bool)
    requires forall p :: p in PLATFORMS ==> p in files
    ensures r == OnPlatform(files, filename, platform)
    ensures platform in PLATFORMS ==>
              (r <==> filename in files[platform] || forall p :: p in PLATFORMS ==> filename !in files[p])
    ensures platform == "universal" ==> r
  {
    assert forall p :: p in PLATFORMS ==> exists i :: 0 <= i < |PLATFORMS| && PLATFORMS[i] == p;
    if platform == "universal" {
      return true;
    }
    if platform !in files {
      return false;
    }
    var listed := false;
    for i := 0 to |PLATFORMS|
      invariant listed <==> exists j :: 0 <= j < i && Listed(files, PLATFORMS[j], filename)
      invariant forall j :: 0 <= j < i && PLATFORMS[j] == platform ==> !Listed(files, platform, filename)
    {
      var p := PLATFORMS[i];
      if filename in files[p] {
        if p == platform {
          return true;
        } else {
          listed := true;
        }
      }
    }
    return !listed;
  }

  predicate OnPlatform(files: PlatformFiles, filename: string, platform: string) {
    platform == "universal"
    || (platform in files
        && ((platform in PLATFORMS && Listed(files, platform, filename))
            || forall i :: 0 <= i < |PLATFORMS| ==> !Listed(files, PLATFORMS[i], filename)))
  }

  function PlatformsOf(files: PlatformFiles, filename: string, ps: seq<string>): (r: seq<string>)
    ensures forall p :: p in r <==> p in ps && OnPlatform(files, filename, p)
  {
    if ps == [] then []
    else (if OnPlatform(files, filename, ps[0]) then [ps[0]] else []) + PlatformsOf(files, filename, ps[1..])
  }

  // ----- collecting

  function Tagged(decls: seq<Decl>, platforms: seq<string>, filename: string): (r: seq<Obj>)
    ensures |r| == |decls|
    ensures forall i :: 0 <= i < |r| ==> r[i] == Obj(decls[i].name, decls[i].text, platforms, filename)
  {
    seq(|decls|, i requires 0 <= i < |decls| => Obj(decls[i].name, decls[i].text, platforms, filename))
  }

  /** What one header contributes; parse gives its declarations. */
  function ObjectsOf(files: PlatformFiles, parse: map<string, seq<Decl>>, filename: string): seq<Obj> {
    if filename in parse then Tagged(parse[filename], PlatformsOf(files, filename, PLATFORMS), filename) else []
  }

  function Collect(files: PlatformFiles, parse: map<string, seq<Decl>>, filenames: seq<string>): seq<Obj> {
    if filenames == [] then []
    else ObjectsOf(files, parse, filenames[0]) + Collect(files, parse, filenames[1..])
  }

  /** The collected objects of one header. */
  function FromHeader(s: seq<Obj>, filename: string): seq<Obj> {
    if s == [] then [] else (if s[0].filename == filename then [s[0]] else []) + FromHeader(s[1..], filename)
  }

  lemma {:induction false} FromHeaderConcat(a: seq<Obj>, b: seq<Obj>, f: string)
    ensures FromHeader(a + b, f) == FromHeader(a, f) + FromHeader(b, f)
  {
    if a == [] {
      assert a + b == b;
    } else {
      assert (a + b)[1..] == a[1..] + b;
      FromHeaderConcat(a[1..], b, f);
      SeqAssoc(if a[0].filename == f then [a[0]] else [], FromHeader(a[1..], f), FromHeader(b, f));
    }
  }

  lemma {:induction false} FromOneHeader(s: seq<Obj>, g: string, f: string)
    requires forall o :: o in s ==> o.filename == g
    ensures FromHeader(s, f) == if f == g then s else []
  {
    if s != [] {
      assert s[0] in s;
      FromOneHeader(s[1..], g, f);
    }
  }

  /** Collecting loses nothing and adds nothing: of every listed header exactly its declarations, in their
      order, tagged with the platforms it belongs to. */
  lemma {:induction false} CollectsAll(files: PlatformFiles, parse: map<string, seq<Decl>>, names: seq<string>,
                                       f: string)
    requires Distinct(names) && f in parse
    ensures FromHeader(Collect(files, parse, names), f)
            == if f in names then Tagged(parse[f], PlatformsOf(files, f, PLATFORMS), f) else []
  {
    hide *;
    if names == [] {
      CollectStep(files, parse, f, []);
      NothingFromHeader(f);
    } else {
      var g, rest := names[0], names[1..];
      assert names == [g] + rest;
      DistinctStep(g, rest);
      CollectsAll(files, parse, rest, f);
      CollectStep(files, parse, g, rest);
      FromHeaderConcat(ObjectsOf(files, parse, g), Collect(files, parse, rest), f);
      ObjectsAre(files, parse, g);
      FromOneHeader(ObjectsOf(files, parse, g), g, f);
      assert ObjectsOf(files, parse, g) + [] == ObjectsOf(files, parse, g);
    }
  }

  lemma {:induction false} NothingFromHeader(f: string)
    ensures FromHeader([], f) == []
  {
  }

  lemma {:induction false} DistinctStep(g: string, rest: seq<string>)
    requires Distinct([g] + rest)
    ensures Distinct(rest) && g !in rest
  {
    var all := [g] + rest;
    assert forall i :: 0 <= i < |rest| ==> rest[i] == all[i + 1];
    assert all[0] == g;
  }

  lemma {:induction false} ObjectsAre(files: PlatformFiles, parse: map<string, seq<Decl>>, g: string)
    ensures forall o :: o in ObjectsOf(files, parse, g) ==> o.filename == g
    ensures g in parse ==> ObjectsOf(files, parse, g) == Tagged(parse[g], PlatformsOf(files, g, PLATFORMS), g)
  {
  }

  // ----- sorting

  /** Lexicographic order of strings. */
  predicate Leq(a: string, b: string) {
    a == "" || (b != "" && (a[0] < b[0] || (a[0] == b[0] && Leq(a[1..], b[1..]))))
  }

  /** Strings are ordered by their first difference, a front coming before the whole. */
  lemma {:induction false} LeqMeans(a: string, b: string)
    ensures Leq(a, b) <==> a <= b || exists i :: 0 <= i < |a| && i < |b| && a[..i] == b[..i] && a[i] < b[i]
  {
    if a != "" && b != "" {
      var a', b' := a[1..], b[1..];
      LeqMeans(a', b');
      if a[0] == b[0] {
        assert a <= b <==> a' <= b' by {
          assert a == [a[0]] + a' && b == [b[0]] + b';
        }
        if i :| 0 <= i < |a'| && i < |b'| && a'[..i] == b'[..i] && a'[i] < b'[i] {
          assert a[..i + 1] == [a[0]] + a'[..i] && b[..i + 1] == [b[0]] + b'[..i];
          assert a[i + 1] < b[i + 1];
        }
        if i :| 0 <= i < |a| && i < |b| && a[..i] == b[..i] && a[i] < b[i] {
          assert i > 0 && a'[..i - 1] == a[..i][1..] && b'[..i - 1] == b[..i][1..];
          assert a'[i - 1] < b'[i - 1];
        }
      } else {
        assert a[..0] == b[..0];
        forall i | 0 < i < |a| && i < |b| ensures a[..i] != b[..i] {
          assert a[..i][0] == a[0] && b[..i][0] == b[0];
        }
      }
    }
  }

  lemma {:induction false} LeqTotal(a: string, b: string)
    ensures Leq(a, b) || Leq(b, a)
    ensures Leq(a, b) && Leq(b, a) ==> a == b
    ensures Leq(a, a)
  {
    if a != "" {
      LeqTotal(a[1..], a[1..]);
      if b != "" {
        LeqTotal(a[1..], b[1..]);
        assert a == [a[0]] + a[1..] && b == [b[0]] + b[1..];
      }
    }
  }

  lemma {:induction false} LeqTrans(a: string, b: string, c: string)
    requires Leq(a, b) && Leq(b, c)
    ensures Leq(a, c)
  {
    if a != "" && a[0] == b[0] && b[0] == c[0] {
      LeqTrans(a[1..], b[1..], c[1..]);
    }
  }

  /** The sort key name@filename. */
  function Key(o: Obj): string {
    o.name + "@" + o.filename
  }

  predicate Sorted(s: seq<Obj>) {
    s == [] || ((forall o :: o in s[1..] ==> Leq(Key(s[0]), Key(o))) && Sorted(s[1..]))
  }

  /** The objects with key k, in order. */
  function WithKey(s: seq<Obj>, k: string): seq<Obj> {
    if s == [] then [] else (if Key(s[0]) == k then [s[0]] else []) + WithKey(s[1..], k)
  }

  /** What a stable sort promises: ordered keys, and objects with equal keys as they were. */
  ghost predicate StablySorted(r: seq<Obj>, s: seq<Obj>) {
    Sorted(r) && forall k :: WithKey(r, k) == WithKey(s, k)
  }

  function Insert(o: Obj, s: seq<Obj>): seq<Obj> {
    if s == [] || Leq(Key(o), Key(s[0])) then [o] + s else [s[0]] + Insert(o, s[1..])
  }

  /** sorted(objects, key = name@filename) */
  function Sort(s: seq<Obj>): seq<Obj> {
    if s == [] then [] else Insert(s[0], Sort(s[1..]))
  }

  lemma {:induction false} InsertMembers(o: Obj, s: seq<Obj>)
    ensures forall x :: x in Insert(o, s) <==> x == o || x in s
  {
    if s != [] && !Leq(Key(o), Key(s[0])) {
      InsertMembers(o, s[1..]);
    }
  }

  lemma {:induction false} SortedStep(o: Obj, s: seq<Obj>)
    ensures Sorted([o] + s) <==> (forall x :: x in s ==> Leq(Key(o), Key(x))) && Sorted(s)
  {
    assert ([o] + s)[1..] == s;
  }

  lemma {:induction false} WithKeyStep(o: Obj, s: seq<Obj>, k: string)
    ensures WithKey([o] + s, k) == (if Key(o) == k then [o] else []) + WithKey(s, k)
  {
    assert ([o] + s)[1..] == s;
  }

  lemma {:induction false} InsertSorted(o: Obj, s: seq<Obj>)
    requires Sorted(s)
    ensures Sorted(Insert(o, s))
  {
    hide Sorted, Leq, Key;
    SortedStep(o, s);
    if s != [] {
      assert s == [s[0]] + s[1..];
      SortedStep(s[0], s[1..]);
      LeqTotal(Key(o), Key(s[0]));
      if Leq(Key(o), Key(s[0])) {
        forall x | x in s ensures Leq(Key(o), Key(x)) {
          if x != s[0] {
            LeqTrans(Key(o), Key(s[0]), Key(x));
          }
        }
      } else {
        InsertSorted(o, s[1..]);
        InsertMembers(o, s[1..]);
        SortedStep(s[0], Insert(o, s[1..]));
      }
    } else {
      assert Sorted([]) by { SortedEmpty(); }
    }
  }

  lemma {:induction false} SortedEmpty()
    ensures Sorted([])
  {
  }

  /** Insertion goes before the first object with the same key, so that it is stable. */
  lemma {:induction false} InsertKeeps(o: Obj, s: seq<Obj>, k: string)
    ensures WithKey(Insert(o, s), k) == (if Key(o) == k then [o] else []) + WithKey(s, k)
  {
    hide WithKey, Leq, Key;
    WithKeyStep(o, s, k);
    if s != [] && !Leq(Key(o), Key(s[0])) {
      InsertKeeps(o, s[1..], k);
      assert s == [s[0]] + s[1..];
      WithKeyStep(s[0], s[1..], k);
      WithKeyStep(s[0], Insert(o, s[1..]), k);
      LeqTotal(Key(o), Key(s[0]));
    }
  }

  lemma {:induction false} SortIsStable(s: seq<Obj>)
    ensures StablySorted(Sort(s), s)
  {
    if s != [] {
      var rest := Sort(s[1..]);
      SortIsStable(s[1..]);
      InsertSorted(s[0], rest);
      forall k ensures WithKey(Sort(s), k) == WithKey(s, k) {
        InsertKeeps(s[0], rest, k);
      }
    }
  }

  lemma {:induction false} WithKeyMember(s: seq<Obj>, k: string)
    requires WithKey(s, k) != []
    ensures exists o :: o in s && Key(o) == k
  {
    if Key(s[0]) == k {
      assert s[0] in s;
    } else {
      WithKeyMember(s[1..], k);
    }
  }

  lemma {:induction false} SortedFirst(s: seq<Obj>, k: string)
    requires Sorted(s) && WithKey(s, k) != []
    ensures Leq(Key(s[0]), k)
  {
    WithKeyMember(s, k);
    var o :| o in s && Key(o) == k;
    LeqTotal(k, k);
    if o != s[0] {
      assert o in s[1..];
    }
  }

  /** There is only one way to be sorted with the objects of each key in a given order. */
  lemma {:induction false} SortedUnique(a: seq<Obj>, b: seq<Obj>)
    requires Sorted(a) && Sorted(b) && forall k :: WithKey(a, k) == WithKey(b, k)
    ensures a == b
  {
    assert b != [] ==> WithKey(b, Key(b[0])) != [];
    if a != [] {
      var ka := Key(a[0]);
      assert WithKey(a, ka) != [] && WithKey(b, ka) != [];
      assert b != [];
      var kb := Key(b[0]);
      assert WithKey(b, kb) != [] && WithKey(a, kb) != [];
      SortedFirst(a, kb);
      SortedFirst(b, ka);
      LeqTotal(ka, kb);
      assert a[0] == WithKey(a, ka)[0] == WithKey(b, ka)[0] == b[0];
      forall k ensures WithKey(a[1..], k) == WithKey(b[1..], k) {
        assert WithKey(a, k) == WithKey(b, k);
        if k == ka {
          assert WithKey(a, k)[1..] == WithKey(a[1..], k) && WithKey(b, k)[1..] == WithKey(b[1..], k);
        } else {
          assert [] + WithKey(a[1..], k) == WithKey(a[1..], k) && [] + WithKey(b[1..], k) == WithKey(b[1..], k);
        }
      }
      SortedUnique(a[1..], b[1..]);
      assert a == [a[0]] + a[1..] && b == [b[0]] + b[1..];
    }
  }

  // ----- the order of the headers does not matter

  predicate Distinct(s: seq<string>) {
    forall i, j :: 0 <= i < j < |s| ==> s[i] != s[j]
  }

  /** Declared names are identifiers: they contain no '@'. */
  ghost predicate PlainNames(parse: map<string, seq<Decl>>) {
    forall f, d :: f in parse && d in parse[f] ==> '@' !in d.name
  }

  lemma {:induction false} WithKeyConcat(a: seq<Obj>, b: seq<Obj>, k: string)
    ensures WithKey(a + b, k) == WithKey(a, k) + WithKey(b, k)
  {
    if a == [] {
      assert a + b == b;
    } else {
      hide WithKey, Key;
      WithKeyConcat(a[1..], b, k);
      assert a == [a[0]] + a[1..] && a + b == [a[0]] + (a[1..] + b);
      WithKeyStep(a[0], a[1..], k);
      WithKeyStep(a[0], a[1..] + b, k);
      SeqAssoc(if Key(a[0]) == k then [a[0]] else [], WithKey(a[1..], k), WithKey(b, k));
    }
  }

  lemma {:induction false} NameNotShorter(a: string, f: string, b: string, g: string)
    requires '@' !in b && a + "@" + f == b + "@" + g
    ensures |b| <= |a|
  {
    var c := (a + "@" + f)[|a|];
    assert c == '@' && c == (b + "@" + g)[|a|];
  }

  /** A key tells the file apart: the name in front of its '@' contains none. */
  lemma {:induction false} KeyTellsFile(a: string, f: string, b: string, g: string)
    requires '@' !in a && '@' !in b && a + "@" + f == b + "@" + g
    ensures a == b && f == g
  {
    NameNotShorter(a, f, b, g);
    NameNotShorter(b, g, a, f);
    var s := a + "@" + f;
    assert a == s[..|a|] && b == s[..|b|];
    assert f == s[|a| + 1..] && g == s[|b| + 1..];
  }

  lemma {:induction false} KeyOfFile(files: PlatformFiles, parse: map<string, seq<Decl>>, f: string, g: string,
                                     k: string)
    requires PlainNames(parse)
    requires WithKey(ObjectsOf(files, parse, f), k) != [] && WithKey(ObjectsOf(files, parse, g), k) != []
    ensures f == g
  {
    WithKeyMember(ObjectsOf(files, parse, f), k);
    WithKeyMember(ObjectsOf(files, parse, g), k);
    var a :| a in ObjectsOf(files, parse, f) && Key(a) == k;
    var b :| b in ObjectsOf(files, parse, g) && Key(b) == k;
    KeyTellsFile(a.name, f, b.name, g);
  }

  /** The objects with key k all come from one header, wherever it stands in the list. */
  lemma {:induction false} OneSource(files: PlatformFiles, parse: map<string, seq<Decl>>, names: seq<string>,
                                     k: string, f: string)
    requires PlainNames(parse) && Distinct(names) && WithKey(ObjectsOf(files, parse, f), k) != []
    ensures WithKey(Collect(files, parse, names), k)
            == if f in names then WithKey(ObjectsOf(files, parse, f), k) else []
  {
    if names != [] {
      var g := names[0];
      OneSource(files, parse, names[1..], k, f);
      WithKeyConcat(ObjectsOf(files, parse, g), Collect(files, parse, names[1..]), k);
      if WithKey(ObjectsOf(files, parse, g), k) != [] {
        KeyOfFile(files, parse, f, g, k);
        assert f !in names[1..];
      }
    }
  }

  lemma {:induction false} NoSource(files: PlatformFiles, parse: map<string, seq<Decl>>, names: seq<string>, k: string)
    requires forall f :: f in names ==> WithKey(ObjectsOf(files, parse, f), k) == []
    ensures WithKey(Collect(files, parse, names), k) == []
  {
    if names != [] {
      NoSource(files, parse, names[1..], k);
      WithKeyConcat(ObjectsOf(files, parse, names[0]), Collect(files, parse, names[1..]), k);
    }
  }

  lemma {:induction false} SameWithKey(files: PlatformFiles, parse: map<string, seq<Decl>>, a: seq<string>,
                                       b: seq<string>, k: string)
    requires PlainNames(parse) && Distinct(a) && Distinct(b) && forall f :: f in a <==> f in b
    ensures WithKey(Collect(files, parse, a), k) == WithKey(Collect(files, parse, b), k)
  {
    if f :| f in a && WithKey(ObjectsOf(files, parse, f), k) != [] {
      OneSource(files, parse, a, k, f);
      OneSource(files, parse, b, k, f);
    } else {
      NoSource(files, parse, a, k);
      NoSource(files, parse, b, k);
    }
  }

  /** Whatever stable sort is used and in whatever order the same headers are enumerated, the
      sorted list of objects is the same. */
  lemma {:induction false} OrderDoesNotMatter(files: PlatformFiles, parse: map<string, seq<Decl>>,
                                              a: seq<string>, b: seq<string>, r: seq<Obj>, s: seq<Obj>)
    requires PlainNames(parse) && Distinct(a) && Distinct(b) && forall f :: f in a <==> f in b
    requires StablySorted(r, Collect(files, parse, a)) && StablySorted(s, Collect(files, parse, b))
    ensures r == s
  {
    forall k ensures WithKey(r, k) == WithKey(s, k) {
      SameWithKey(files, parse, a, b, k);
    }
    SortedUnique(r, s);
  }

  // ----- signing

  /** The texts signed for a platform, in order. */
  function Signed(objects: seq<Obj>, platform: string): seq<string> {
    if objects == [] then []
    else
      (if platform == "universal" || platform in objects[0].platforms then [objects[0].text] else [])
        + Signed(objects[1..], platform)
  }

  function JoinLines(parts: seq<string>): string {
    if parts == [] then "" else if |parts| == 1 then parts[0] else parts[0] + "\n" + JoinLines(parts[1..])
  }

  /** Joined texts without newlines are told apart by the newlines between them. */
  lemma {:induction false} JoinSplits(parts: seq<string>)
    requires parts != [] && forall p :: p in parts ==> '\n' !in p
    ensures Split(JoinLines(parts), '\n') == parts
  {
    hide Split;
    assert parts[0] in parts;
    SplitNone(parts[0], '\n');
    if |parts| > 1 {
      JoinSplits(parts[1..]);
      SplitAt(parts[0], '\n', JoinLines(parts[1..]));
    }
  }

  /** Every object has its part in the signed texts, at its place: its text if it belongs to the platform,
      and for the universal signature in any case. */
  lemma {:induction false} SignedAround(objects: seq<Obj>, platform: string, i: nat)
    requires i < |objects|
    ensures Signed(objects, platform)
            == Signed(objects[..i], platform)
               + (if platform == "universal" || platform in objects[i].platforms then [objects[i].text] else [])
               + Signed(objects[i + 1..], platform)
  {
    hide Signed;
    var o := objects[0];
    assert objects == [o] + objects[1..];
    SignedStep(o, objects[1..], platform);
    var own := if platform == "universal" || platform in o.platforms then [o.text] else [];
    if i == 0 {
      assert objects[..0] == [];
      SignedEmpty(platform);
      assert [] + own == own;
    } else {
      SignedAround(objects[1..], platform, i - 1);
      assert objects[..i] == [o] + objects[1..][..i - 1] && objects[1..][i..] == objects[i + 1..];
      SignedStep(o, objects[1..][..i - 1], platform);
    }
  }

  lemma {:induction false} SignedStep(o: Obj, s: seq<Obj>, platform: string)
    ensures Signed([o] + s, platform)
            == (if platform == "universal" || platform in o.platforms then [o.text] else []) + Signed(s, platform)
  {
    assert ([o] + s)[1..] == s;
  }

  /** __get_final_sig */
  method GetFinalSig(objects: seq<Obj>, platform: string) returns (sig: string)
    ensures sig == JoinLines(Signed(objects, platform))
  {
    hide Signed;
    var texts := [];
    ghost var todo := objects;
    for i := 0 to |objects|
      invariant todo == objects[i..]
      invariant texts + Signed(todo, platform) == Signed(objects, platform)
    {
      var o := objects[i];
      todo := objects[i + 1..];
      assert objects[i..] == [o] + todo;
      SignedStep(o, todo, platform);
      if platform == "universal" || platform in o.platforms {
        SeqAssoc(texts, [o.text], Signed(todo, platform));
        texts := texts + [o.text];
      }
    }
    assert todo == [];
    SignedEmpty(platform);
    assert texts + [] == texts;
    sig := JoinLines(texts);
  }

  lemma {:induction false} SignedEmpty(platform: string)
    ensures Signed([], platform) == []
  {
  }

  /** What a platform signs is part of what the universal signature signs, in the same order. */
  lemma {:induction false} PlatformWithinUniversal(objects: seq<Obj>, platform: string)
    ensures Subsequence(Signed(objects, platform), Signed(objects, "universal"))
  {
    if objects != [] {
      PlatformWithinUniversal(objects[1..], platform);
      var p, u := Signed(objects[1..], platform), Signed(objects[1..], "universal");
      var t := objects[0].text;
      assert ([t] + u)[1..] == u && ([t] + p)[1..] == p && [] + p == p;
    }
  }

  // ----- a platform's signature depends on its own headers only

  function Only(s: seq<Obj>, platform: string): seq<Obj> {
    if s == [] then [] else (if platform in s[0].platforms then [s[0]] else []) + Only(s[1..], platform)
  }

  lemma {:induction false} OnlyStep(o: Obj, s: seq<Obj>, p: string)
    ensures Only([o] + s, p) == (if p in o.platforms then [o] else []) + Only(s, p)
  {
    assert ([o] + s)[1..] == s;
  }

  lemma {:induction false} OnlyConcat(a: seq<Obj>, b: seq<Obj>, p: string)
    ensures Only(a + b, p) == Only(a, p) + Only(b, p)
  {
    if a == [] {
      assert a + b == b;
    } else {
      hide Only;
      OnlyConcat(a[1..], b, p);
      assert a == [a[0]] + a[1..] && a + b == [a[0]] + (a[1..] + b);
      OnlyStep(a[0], a[1..], p);
      OnlyStep(a[0], a[1..] + b, p);
      SeqAssoc(if p in a[0].platforms then [a[0]] else [], Only(a[1..], p), Only(b, p));
    }
  }

  lemma {:induction false} OnlyMembers(s: seq<Obj>, p: string)
    ensures forall o :: o in Only(s, p) ==> o in s
  {
    if s != [] {
      OnlyMembers(s[1..], p);
    }
  }

  lemma {:induction false} OnlySorted(s: seq<Obj>, p: string)
    requires Sorted(s)
    ensures Sorted(Only(s, p))
  {
    if s != [] {
      OnlySorted(s[1..], p);
      OnlyMembers(s[1..], p);
      var rest := Only(s[1..], p);
      assert ([s[0]] + rest)[1..] == rest && [] + rest == rest;
    }
  }

  lemma {:induction false} OnlyWithKey(s: seq<Obj>, p: string, k: string)
    ensures WithKey(Only(s, p), k) == Only(WithKey(s, k), p)
  {
    if s != [] {
      OnlyWithKey(s[1..], p, k);
      var o, rest, keyed := s[0], Only(s[1..], p), WithKey(s[1..], k);
      assert ([o] + rest)[1..] == rest && ([o] + keyed)[1..] == keyed && [] + rest == rest && [] + keyed == keyed;
      assert [] + WithKey(rest, k) == WithKey(rest, k) && [] + Only(keyed, p) == Only(keyed, p);
    }
  }

  lemma {:induction false} OnlySigned(s: seq<Obj>, p: string)
    requires p != "universal"
    ensures Signed(s, p) == Signed(Only(s, p), p)
  {
    if s != [] {
      OnlySigned(s[1..], p);
      var rest := Only(s[1..], p);
      assert ([s[0]] + rest)[1..] == rest && [] + rest == rest;
      assert [] + Signed(s[1..], p) == Signed(s[1..], p);
    }
  }

  lemma {:induction false} OnlyObjects(s: seq<Obj>, p: string)
    requires forall o :: o in s ==> p !in o.platforms
    ensures Only(s, p) == []
  {
    if s != [] {
      assert s[0] in s;
      OnlyObjects(s[1..], p);
    }
  }

  lemma {:induction false} SameOnly(files: PlatformFiles, x: map<string, seq<Decl>>, y: map<string, seq<Decl>>,
                                    names: seq<string>, p: string)
    requires p in PLATFORMS
    requires forall f :: f in names && OnPlatform(files, f, p) ==> ObjectsOf(files, x, f) == ObjectsOf(files, y, f)
    ensures Only(Collect(files, x, names), p) == Only(Collect(files, y, names), p)
  {
    if names != [] {
      var f := names[0];
      SameOnly(files, x, y, names[1..], p);
      OnlyConcat(ObjectsOf(files, x, f), Collect(files, x, names[1..]), p);
      OnlyConcat(ObjectsOf(files, y, f), Collect(files, y, names[1..]), p);
      if !OnPlatform(files, f, p) {
        OnlyObjects(ObjectsOf(files, x, f), p);
        OnlyObjects(ObjectsOf(files, y, f), p);
      }
    }
  }

  /** Two sets of headers that agree on a platform's own headers and the shared ones have the same
      signature for that platform, whatever the headers of other platforms declare. */
  lemma {:induction false} OtherPlatformsDoNotMatter(files: PlatformFiles, x: map<string, seq<Decl>>,
                                                     y: map<string, seq<Decl>>, names: seq<string>, p: string)
    requires p in PLATFORMS
    requires forall f :: f in names && OnPlatform(files, f, p) ==> ObjectsOf(files, x, f) == ObjectsOf(files, y, f)
    ensures Signed(Sort(Collect(files, x, names)), p) == Signed(Sort(Collect(files, y, names)), p)
  {
    var a, b := Collect(files, x, names), Collect(files, y, names);
    SortIsStable(a);
    SortIsStable(b);
    SameOnly(files, x, y, names, p);
    OnlySorted(Sort(a), p);
    OnlySorted(Sort(b), p);
    forall k ensures WithKey(Only(Sort(a), p), k) == WithKey(Only(Sort(b), p), k) {
      OnlyWithKey(Sort(a), p, k);
      OnlyWithKey(Sort(b), p, k);
      OnlyWithKey(a, p, k);
      OnlyWithKey(b, p, k);
    }
    SortedUnique(Only(Sort(a), p), Only(Sort(b), p));
    OnlySigned(Sort(a), p);
    OnlySigned(Sort(b), p);
  }

  // ----- calculate

  /** The signatures calculate() digests: the universal one and one for each platform. */
  function Signatures(objects: seq<Obj>): map<string, string> {
    map p | p in ["universal"] + PLATFORMS :: JoinLines(Signed(objects, p))
  }

  lemma {:induction false} CollectStep(files: PlatformFiles, parse: map<string, seq<Decl>>, f: string,
                                       rest: seq<string>)
    ensures Collect(files, parse, [f] + rest) == ObjectsOf(files, parse, f) + Collect(files, parse, rest)
    ensures Collect(files, parse, []) == []
  {
    assert ([f] + rest)[1..] == rest;
  }

  /** The first loop of calculate: what is left to do is collected from the remaining headers. */
  method CollectObjects(files: PlatformFiles, parse: map<string, seq<Decl>>, filenames: seq<string>)
    returns (objects: seq<Obj>)
    requires forall p :: p in PLATFORMS ==> p in files
    ensures objects == Collect(files, parse, filenames)
  {
    hide *;
    objects := [];
    ghost var todo := filenames;
    CollectStep(files, parse, "", []);
    for i := 0 to |filenames|
      invariant todo == filenames[i..]
      invariant objects + Collect(files, parse, todo) == Collect(files, parse, filenames)
    {
      var f := filenames[i];
      todo := filenames[i + 1..];
      assert filenames[i..] == [f] + todo;
      CollectStep(files, parse, f, todo);
      var more := ParseFile(files, parse, f);
      SeqAssoc(objects, more, Collect(files, parse, todo));
      objects := objects + more;
    }
  }

  /** One header: the platforms that it belongs to, and its declarations tagged with them. */
  method ParseFile(files: PlatformFiles, parse: map<string, seq<Decl>>, filename: string) returns (more: seq<Obj>)
    requires forall p :: p in PLATFORMS ==> p in files
    ensures more == ObjectsOf(files, parse, filename)
  {
    hide OnPlatform;
    var platforms := [];
    ghost var todo := PLATFORMS;
    for i := 0 to |PLATFORMS|
      invariant todo == PLATFORMS[i..]
      invariant platforms + PlatformsOf(files, filename, todo) == PlatformsOf(files, filename, PLATFORMS)
    {
      var p := PLATFORMS[i];
      var on := IsPlatformFilename(files, filename, p);
      todo := PLATFORMS[i + 1..];
      assert PLATFORMS[i..] == [p] + todo && PLATFORMS[i..][1..] == todo;
      SeqAssoc(platforms, if on then [p] else [], PlatformsOf(files, filename, todo));
      if on {
        platforms := platforms + [p];
      }
    }
    assert todo == [] && platforms + [] == platforms;
    more := if filename in parse then Tagged(parse[filename], platforms, filename) else [];
  }

  method Calculate(files: PlatformFiles, parse: map<string, seq<Decl>>, filenames: seq<string>)
    returns (sigs: map<string, string>)
    requires forall p :: p in PLATFORMS ==> p in files
    ensures sigs == Signatures(Sort(Collect(files, parse, filenames)))
    ensures forall p :: p in sigs <==> p in ["universal", "windows", "macosx", "linux"]
  {
    var objects := CollectObjects(files, parse, filenames);
    objects := Sort(objects);
    sigs := Sign(objects);
  }

  /** The last loop of calculate. */
  method Sign(objects: seq<Obj>) returns (sigs: map<string, string>)
    ensures sigs == Signatures(objects)
  {
    hide Signed, JoinLines;
    var all := ["universal"] + PLATFORMS;
    sigs := map[];
    for i := 0 to |all|
      invariant forall p :: p in sigs <==> p in all[..i]
      invariant forall p :: p in sigs ==> sigs[p] == JoinLines(Signed(objects, p))
    {
      var sig := GetFinalSig(objects, all[i]);
      assert all[..i + 1] == all[..i] + [all[i]];
      sigs := sigs[all[i] := sig];
    }
    assert all[..|all|] == all;
  }

  /** The signatures do not depend on the order in which the headers are enumerated. */
  lemma {:induction false} HashesDoNotDependOnOrder(files: PlatformFiles, parse: map<string, seq<Decl>>,
                                                    a: seq<string>, b: seq<string>)
    requires PlainNames(parse) && Distinct(a) && Distinct(b) && forall f :: f in a <==> f in b
    ensures Signatures(Sort(Collect(files, parse, a))) == Signatures(Sort(Collect(files, parse, b)))
  {
    SortIsStable(Collect(files, parse, a));
    SortIsStable(Collect(files, parse, b));
    OrderDoesNotMatter(files, parse, a, b, Sort(Collect(files, parse, a)), Sort(Collect(files, parse, b)));
  }
}
