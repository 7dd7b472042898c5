/** The string operations of Python that the modelled tools rely on. */
module Text {

  datatype Option<+T> = None | Some(value: T)

  predicate StartsWith(s: string, prefix: string) {
    prefix <= s
  }

  predicate IsEol(c: char) {
    c == '\r' || c == '\n'
  }

  /** The characters str.strip() removes and str.isspace() accepts. */
  predicate IsSpace(c: char) {
    c == ' ' || c == '\t' || c == '\n' || c == '\r' || c as int == 11 || c as int == 12
  }

  /** str.rstrip("\r\n") */
  function StripEol(s: string): string {
    if s != "" && IsEol(s[|s| - 1]) then StripEol(s[..|s| - 1]) else s
  }

  /** StripEol removes line-end characters only, and leaves none at the end. */
  lemma {:induction false} StripEolEnds(s: string)
    ensures var r := StripEol(s);
            r <= s && (r == "" || !IsEol(r[|r| - 1])) && forall i :: |r| <= i < |s| ==> IsEol(s[i])
  {
    if s != "" && IsEol(s[|s| - 1]) {
      StripEolEnds(s[..|s| - 1]);
    }
  }

  /** StripEol removes the longest tail of line-end characters and no more. */
  lemma {:induction false} StripEolUnique(s: string, r: string)
    requires r <= s
    requires r == "" || !IsEol(r[|r| - 1])
    requires forall i :: |r| <= i < |s| ==> IsEol(s[i])
    ensures StripEol(s) == r
  {
    if |r| < |s| {
      StripEolUnique(s[..|s| - 1], r);
    }
  }

  /** Giving a stripped line a new terminator does not change what it says. */
  lemma {:induction false} StripEolAgain(s: string, nl: string)
    requires forall i :: 0 <= i < |nl| ==> IsEol(nl[i])
    ensures StripEol(StripEol(s) + nl) == StripEol(s)
  {
    StripEolEnds(s);
    StripEolUnique(StripEol(s) + nl, StripEol(s));
  }

  /** str.lstrip() */
  function LStrip(s: string): (r: string)
    ensures |r| <= |s|
  {
    if s != "" && IsSpace(s[0]) then LStrip(s[1..]) else s
  }

  lemma {:induction false} LStripMeans(s: string)
    ensures var r := LStrip(s);
            s[|s| - |r|..] == r && (r == "" || !IsSpace(r[0])) && forall i :: 0 <= i < |s| - |r| ==> IsSpace(s[i])
  {
    if s != "" && IsSpace(s[0]) {
      LStripMeans(s[1..]);
    }
  }

  /** str.rstrip() */
  function RStrip(s: string): (r: string)
    ensures |r| <= |s|
  {
    if s != "" && IsSpace(s[|s| - 1]) then RStrip(s[..|s| - 1]) else s
  }

  lemma {:induction false} RStripMeans(s: string)
    ensures var r := RStrip(s);
            r <= s && (r == "" || !IsSpace(r[|r| - 1])) && forall i :: |r| <= i < |s| ==> IsSpace(s[i])
  {
    if s != "" && IsSpace(s[|s| - 1]) {
      RStripMeans(s[..|s| - 1]);
    }
  }

  /** str.strip() */
  function Strip(s: string): string {
    RStrip(LStrip(s))
  }

  lemma {:induction false} StripMeans(s: string)
    ensures Trimmed(Strip(s)) && forall c :: c in Strip(s) ==> c in s
  {
    hide LStrip, RStrip, IsSpace;
    var l := LStrip(s);
    LStripMeans(s);
    RStripMeans(l);
    assert forall c :: c in l ==> c in s;
  }

  /** No whitespace at either end. */
  predicate Trimmed(s: string) {
    s == "" || (!IsSpace(s[0]) && !IsSpace(s[|s| - 1]))
  }

  /** Whitespace after a trimmed string is all that strip() takes away. */
  lemma {:induction false} StripPadded(s: string, pad: string)
    requires Trimmed(s)
    requires forall i :: 0 <= i < |pad| ==> IsSpace(pad[i])
    ensures Strip(s + pad) == s
    decreases |pad|
  {
    if s == "" {
      LStripSpaces(pad);
      assert s + pad == pad;
    } else {
      assert LStrip(s + pad) == s + pad;
      RStripPadded(s, pad);
    }
  }

  /** strip() takes away the whitespace at both ends. */
  lemma {:induction false} StripBetween(pre: string, t: string, post: string)
    requires Trimmed(t)
    requires forall i :: 0 <= i < |pre| ==> IsSpace(pre[i])
    requires forall i :: 0 <= i < |post| ==> IsSpace(post[i])
    ensures Strip(pre + t + post) == t
    decreases |pre|
  {
    if pre == "" {
      assert pre + t + post == t + post;
      StripPadded(t, post);
    } else {
      var s := pre + t + post;
      assert s[0] == pre[0] && s[1..] == pre[1..] + t + post;
      StripBetween(pre[1..], t, post);
    }
  }

  /** The whitespace that strip() takes away. */
  lemma {:induction false} StripSplits(s: string) returns (pre: string, post: string)
    ensures s == pre + Strip(s) + post && Trimmed(Strip(s))
    ensures forall i :: 0 <= i < |pre| ==> IsSpace(pre[i])
    ensures forall i :: 0 <= i < |post| ==> IsSpace(post[i])
  {
    hide LStrip, RStrip, IsSpace;
    var l := LStrip(s);
    LStripMeans(s);
    RStripMeans(l);
    StripMeans(s);
    pre, post := s[..|s| - |l|], l[|RStrip(l)|..];
    assert s == pre + l && l == RStrip(l) + post;
  }

  lemma {:induction false} StripAgain(s: string)
    ensures Strip(Strip(s)) == Strip(s)
  {
    hide Strip, Trimmed, IsSpace;
    StripMeans(s);
    StripBetween("", Strip(s), "");
    assert "" + Strip(s) + "" == Strip(s);
  }

  /** Only whitespace strips to nothing. */
  lemma {:induction false} StripBlank(s: string)
    requires Strip(s) == ""
    ensures forall i :: 0 <= i < |s| ==> IsSpace(s[i])
  {
    hide Strip, IsSpace;
    var pre, post := StripSplits(s);
    assert s == pre + post;
  }

  lemma {:induction false} StripOfLStrip(s: string)
    ensures Strip(LStrip(s)) == Strip(s)
  {
    LStripMeans(s);
  }

  lemma {:induction false} StripOfRStrip(s: string)
    ensures Strip(RStrip(s)) == Strip(s)
  {
    hide Strip, RStrip, Trimmed, IsSpace;
    var pre, post := StripSplits(RStrip(s));
    RStripMeans(s);
    var t, tail := Strip(RStrip(s)), s[|RStrip(s)|..];
    assert s == RStrip(s) + tail && s == pre + t + (post + tail);
    StripBetween(pre, t, post + tail);
  }

  lemma {:induction false} LStripSpaces(pad: string)
    requires forall i :: 0 <= i < |pad| ==> IsSpace(pad[i])
    ensures LStrip(pad) == ""
  {
    if pad != "" {
      LStripSpaces(pad[1..]);
    }
  }

  lemma {:induction false} RStripPadded(s: string, pad: string)
    requires s != "" && !IsSpace(s[|s| - 1])
    requires forall i :: 0 <= i < |pad| ==> IsSpace(pad[i])
    ensures RStrip(s + pad) == s
    decreases |pad|
  {
    if pad == "" {
      assert s + pad == s;
    } else {
      assert (s + pad)[..|s + pad| - 1] == s + pad[..|pad| - 1];
      RStripPadded(s, pad[..|pad| - 1]);
    }
  }

  // ----- decimal numbers, as \d+ and int() read them and %d writes them

  predicate IsDigit(c: char) {
    '0' <= c <= '9'
  }

  /** The digits at the front of s: what a greedy \d* takes. */
  function Digits(s: string): (r: string)
    ensures r <= s
    ensures forall i :: 0 <= i < |r| ==> IsDigit(r[i])
    ensures |r| < |s| ==> !IsDigit(s[|r|])
  {
    if s != "" && IsDigit(s[0]) then [s[0]] + Digits(s[1..]) else ""
  }

  function ToNat(digits: string): nat
    requires forall i :: 0 <= i < |digits| ==> IsDigit(digits[i])
  {
    if digits == "" then 0
    else
      assert IsDigit(digits[|digits| - 1]);
      10 * ToNat(digits[..|digits| - 1]) + (digits[|digits| - 1] as int - '0' as int)
  }

  function PowerOfTen(n: nat): nat {
    if n == 0 then 1 else 10 * PowerOfTen(n - 1)
  }

  /** The place value of the first digit; leading zeros do not count. */
  lemma {:induction false} FirstDigit(c: char, s: string)
    requires IsDigit(c) && forall i :: 0 <= i < |s| ==> IsDigit(s[i])
    ensures ToNat([c] + s) == (c as int - '0' as int) * PowerOfTen(|s|) + ToNat(s)
  {
    var all := [c] + s;
    if s == "" {
      assert all[..0] == "";
    } else {
      var front := s[..|s| - 1];
      FirstDigit(c, front);
      assert all[..|all| - 1] == [c] + front && all[|all| - 1] == s[|s| - 1];
    }
  }

  function Decimal(n: nat): (s: string)
    ensures s != ""
    ensures forall i :: 0 <= i < |s| ==> IsDigit(s[i])
  {
    (if n < 10 then "" else Decimal(n / 10)) + ["0123456789"[n % 10]]
  }

  lemma {:induction false} DecimalReadsBack(n: nat)
    ensures ToNat(Decimal(n)) == n
  {
    var s := Decimal(n);
    var front := if n < 10 then "" else Decimal(n / 10);
    assert s[..|s| - 1] == front;
    assert s[|s| - 1] as int - '0' as int == n % 10;
    if n >= 10 {
      DecimalReadsBack(n / 10);
    }
  }

  lemma {:induction false} DigitsOfNumber(num: string, rest: string)
    requires forall i :: 0 <= i < |num| ==> IsDigit(num[i])
    requires rest == "" || !IsDigit(rest[0])
    ensures Digits(num + rest) == num
  {
    if num == "" {
      assert num + rest == rest;
    } else {
      assert (num + rest)[1..] == num[1..] + rest;
      DigitsOfNumber(num[1..], rest);
    }
  }

  // ----- splitting at a character

  /** string.split(s, sep) */
  function Split(s: string, sep: char): (parts: seq<string>)
    ensures parts != []
  {
    if s == "" then [""]
    else
      var rest := Split(s[1..], sep);
      if s[0] == sep then [""] + rest else [[s[0]] + rest[0]] + rest[1..]
  }

  /** The parts are made of the characters of s other than the separator. */
  lemma {:induction false} SplitMeans(s: string, sep: char)
    ensures forall p, c :: p in Split(s, sep) && c in p ==> c in s && c != sep
  {
    if s != "" {
      SplitMeans(s[1..], sep);
      var rest := Split(s[1..], sep);
      assert rest[0] in rest && forall p :: p in rest[1..] ==> p in rest;
      assert forall c :: c in s[1..] ==> c in s;
    }
  }

  lemma {:induction false} SplitAt(a: string, sep: char, b: string)
    ensures Split(a + [sep] + b, sep) == Split(a, sep) + Split(b, sep)
  {
    var s := a + [sep] + b;
    if a == "" {
      assert s[1..] == b;
    } else {
      assert s[1..] == a[1..] + [sep] + b;
      SplitAt(a[1..], sep, b);
    }
  }

  lemma {:induction false} SplitNone(a: string, sep: char)
    requires sep !in a
    ensures Split(a, sep) == [a]
  {
    if a != "" {
      SplitNone(a[1..], sep);
      assert [a[0]] + a[1..] == a;
    }
  }

  // ----- sequences

  lemma {:induction false} SeqAssoc<T>(a: seq<T>, b: seq<T>, c: seq<T>)
    ensures (a + b) + c == a + (b + c)
  {
  }

  /** a can be obtained from b by leaving out elements. */
  predicate Subsequence<T(==)>(a: seq<T>, b: seq<T>)
    decreases |b|
  {
    a == [] || (b != [] && ((a[0] == b[0] && Subsequence(a[1..], b[1..])) || Subsequence(a, b[1..])))
  }

  lemma {:induction false} SubsequenceSelf<T>(a: seq<T>)
    ensures Subsequence(a, a)
  {
    if a != [] {
      SubsequenceSelf(a[1..]);
    }
  }

  lemma {:induction false} SubsequenceTail<T>(a: seq<T>, b: seq<T>)
    requires Subsequence(a, b) && a != []
    ensures Subsequence(a[1..], b)
    decreases |b|
  {
    if !(a[0] == b[0] && Subsequence(a[1..], b[1..])) {
      SubsequenceTail(a, b[1..]);
    }
  }

  lemma {:induction false} SubsequenceTrans<T>(a: seq<T>, b: seq<T>, c: seq<T>)
    requires Subsequence(a, b) && Subsequence(b, c)
    ensures Subsequence(a, c)
    decreases |b| + |c|
  {
    if a != [] {
      if b[0] == c[0] && Subsequence(b[1..], c[1..]) {
        if a[0] == b[0] && Subsequence(a[1..], b[1..]) {
          SubsequenceTrans(a[1..], b[1..], c[1..]);
        } else {
          SubsequenceTrans(a, b[1..], c[1..]);
        }
      } else {
        SubsequenceTrans(a, b, c[1..]);
      }
    }
  }
}
