/** Splitting, joining and ordering of strings, as the standard library does it. */
module Strings {

  // ---------------------------------------------------------------------
  // Split and join
  // ---------------------------------------------------------------------

  /** `s.split(sep)`: one more part than there are separators. */
  function Split<T(==)>(s: seq<T>, sep: T): (parts: seq<seq<T>>)
    ensures |parts| >= 1
    ensures forall i | 0 <= i < |parts| :: sep !in parts[i]
  {
    if s == [] then [[]]
    else
      var rest := Split(s[1..], sep);
      if s[0] == sep then [[]] + rest else [[s[0]] + rest[0]] + rest[1..]
  }

  function Join<T>(parts: seq<seq<T>>, sep: T): seq<T> {
    if |parts| == 0 then []
    else if |parts| == 1 then parts[0]
    else parts[0] + [sep] + Join(parts[1..], sep)
  }

  function Count<T(==)>(s: seq<T>, x: T): nat {
    if s == [] then 0 else (if s[0] == x then 1 else 0) + Count(s[1..], x)
  }

  lemma {:induction false} SplitHead<T>(a: seq<T>, rest: seq<T>, sep: T)
    requires sep !in a
    ensures Split(a + [sep] + rest, sep) == [a] + Split(rest, sep)
  {
    var s := a + [sep] + rest;
    if a == [] {
      assert s[1..] == rest;
    } else {
      assert s[1..] == a[1..] + [sep] + rest;
      SplitHead(a[1..], rest, sep);
      assert [a[0]] + a[1..] == a;
    }
  }

  lemma {:induction false} SplitWhole<T>(a: seq<T>, sep: T)
    requires sep !in a
    ensures Split(a, sep) == [a]
  {
    if a != [] { SplitWhole(a[1..], sep); assert [a[0]] + a[1..] == a; }
  }

  /** Parts without the separator are recovered from their join. */
  lemma {:induction false} SplitJoin<T>(parts: seq<seq<T>>, sep: T)
    requires |parts| >= 1
    requires forall i | 0 <= i < |parts| :: sep !in parts[i]
    ensures Split(Join(parts, sep), sep) == parts
  {
    if |parts| == 1 {
      SplitWhole(parts[0], sep);
    } else {
      SplitJoin(parts[1..], sep);
      SplitHead(parts[0], Join(parts[1..], sep), sep);
      assert [parts[0]] + parts[1..] == parts;
    }
  }

  lemma {:induction false} SplitCount<T>(s: seq<T>, sep: T)
    ensures |Split(s, sep)| == Count(s, sep) + 1
  {
    if s != [] { SplitCount(s[1..], sep); }
  }

  // ---------------------------------------------------------------------
  // Lexicographic order
  // ---------------------------------------------------------------------

  predicate Less(a: string, b: string) {
    if b == [] then false
    else if a == [] then true
    else a[0] < b[0] || (a[0] == b[0] && Less(a[1..], b[1..]))
  }

  /** The first difference decides, and a proper prefix comes first. */
  lemma {:induction false} LessExact(a: string, b: string)
    ensures Less(a, b) <==>
            exists k :: 0 <= k <= |a| && k < |b| && a[..k] == b[..k] && (k == |a| || a[k] < b[k])
  {
    if a == [] {
      if b != [] { assert a[..0] == b[..0]; }
    } else if b != [] {
      if a[0] < b[0] {
        assert a[..0] == b[..0];
      } else if a[0] == b[0] {
        LessExact(a[1..], b[1..]);
        if Less(a[1..], b[1..]) {
          var k :| 0 <= k <= |a| - 1 && k < |b| - 1 && a[1..][..k] == b[1..][..k]
                   && (k == |a| - 1 || a[1..][k] < b[1..][k]);
          assert a[..k + 1] == [a[0]] + a[1..][..k] && b[..k + 1] == [b[0]] + b[1..][..k];
        }
        if k :| 0 <= k <= |a| && k < |b| && a[..k] == b[..k] && (k == |a| || a[k] < b[k]) {
          if k > 0 { assert a[1..][..k - 1] == a[..k][1..] && b[1..][..k - 1] == b[..k][1..]; }
        }
      } else {
        forall k | 0 < k <= |a| && k < |b| ensures a[..k] != b[..k] {
          assert a[..k][0] == a[0] && b[..k][0] == b[0];
        }
      }
    }
  }

  lemma {:induction false} LessIrreflexive(a: string)
    ensures !Less(a, a)
  {
    if a != [] { LessIrreflexive(a[1..]); }
  }

  lemma {:induction false} LessTransitive(a: string, b: string, c: string)
    requires Less(a, b) && Less(b, c)
    ensures Less(a, c)
  {
    if a != [] && a[0] == b[0] == c[0] { LessTransitive(a[1..], b[1..], c[1..]); }
  }

  lemma {:induction false} LessTotal(a: string, b: string)
    ensures Less(a, b) || a == b || Less(b, a)
  {
    if a != [] && b != [] && a[0] == b[0] {
      LessTotal(a[1..], b[1..]);
      assert a == [a[0]] + a[1..] && b == [b[0]] + b[1..];
    }
  }

  // ---------------------------------------------------------------------
  // Words
  // ---------------------------------------------------------------------

  /** `char::is_whitespace`: the characters with the Unicode property White_Space. */
  const WHITE_SPACE: set<char> := {
    '\U{0009}', '\U{000A}', '\U{000B}', '\U{000C}', '\U{000D}', ' ', '\U{0085}', '\U{00A0}', '\U{1680}',
    '\U{2000}', '\U{2001}', '\U{2002}', '\U{2003}', '\U{2004}', '\U{2005}', '\U{2006}', '\U{2007}', '\U{2008}',
    '\U{2009}', '\U{200A}', '\U{2028}', '\U{2029}', '\U{202F}', '\U{205F}', '\U{3000}'
  }

  /** How far the word at the start of `s` goes. */
  function WordEnd(s: string, white: set<char>): (n: nat)
    ensures n <= |s|
    ensures forall i | 0 <= i < n :: s[i] !in white
    ensures n < |s| ==> s[n] in white
  {
    if s == "" || s[0] in white then 0 else 1 + WordEnd(s[1..], white)
  }

  /** The runs of characters outside `white`. */
  function Words(s: string, white: set<char>): seq<string>
    decreases |s|
  {
    if s == "" then []
    else if s[0] in white then Words(s[1..], white)
    else [s[..WordEnd(s, white)]] + Words(s[WordEnd(s, white)..], white)
  }

  lemma WordEndAt(s: string, white: set<char>, n: nat)
    requires n <= |s| && (forall i | 0 <= i < n :: s[i] !in white) && (n < |s| ==> s[n] in white)
    ensures WordEnd(s, white) == n
  {}

  lemma {:induction false} WordsOne(w: string, rest: string, white: set<char>)
    requires w != "" && forall i | 0 <= i < |w| :: w[i] !in white
    requires rest == "" || rest[0] in white
    ensures Words(w + rest, white) == [w] + Words(rest, white)
  {
    var s := w + rest;
    WordEndAt(s, white, |w|);
    assert s[0] == w[0] && s[..|w|] == w && s[|w|..] == rest;
  }

  lemma Associative<T>(a: seq<T>, b: seq<T>, c: seq<T>)
    ensures a + b + c == a + (b + c)
  {}

  lemma WordsBeside(w: string, rest: string, b: string, white: set<char>)
    requires w != "" && forall i | 0 <= i < |w| :: w[i] !in white
    requires rest == "" || rest[0] in white
    requires rest + b == "" || (rest + b)[0] in white
    requires Words(rest + b, white) == Words(rest, white) + Words(b, white)
    ensures Words(w + rest + b, white) == Words(w + rest, white) + Words(b, white)
  {
    WordsOne(w, rest, white);
    WordsOne(w, rest + b, white);
    Associative(w, rest, b);
    Associative([w], Words(rest, white), Words(b, white));
  }

  /** Words do not run over white space. */
  lemma {:induction false} WordsConcat(a: string, b: string, white: set<char>)
    requires a == "" || b == "" || a[|a| - 1] in white || b[0] in white
    ensures Words(a + b, white) == Words(a, white) + Words(b, white)
    decreases |a|
  {
    if a == "" {
      assert a + b == b;
    } else if b == "" {
      assert a + b == a;
    } else if a[0] in white {
      assert (a + b)[1..] == a[1..] + b;
      WordsConcat(a[1..], b, white);
    } else {
      var n := WordEnd(a, white);
      assert a == a[..n] + a[n..];
      WordsConcat(a[n..], b, white);
      WordsBeside(a[..n], a[n..], b, white);
    }
  }
}
