/** Canonical header values and the canonical header block of a signed request.

    Header names are lowercased by a function that is left open: a map of characters
    stands for it. */
module CanonicalHeaders {
  import opened Wrappers
  import opened Strings

  datatype Header = Header(name: string, value: string)

  // ---- One value ----

  function TrimStart(s: string): (t: string)
    ensures t == "" || t[0] !in WHITE_SPACE
  {
    if s != "" && s[0] in WHITE_SPACE then TrimStart(s[1..]) else s
  }

  function TrimEnd(s: string): (t: string)
    ensures t == "" || t[|t| - 1] !in WHITE_SPACE
  {
    if s != "" && s[|s| - 1] in WHITE_SPACE then TrimEnd(s[..|s| - 1]) else s
  }

  function Trim(s: string): string { TrimEnd(TrimStart(s)) }

  /** Each run of white space becomes one space; `open` says a run has begun. */
  function Collapse(s: string, open: bool): string {
    if s == "" then ""
    else if s[0] in WHITE_SPACE then (if open then "" else " ") + Collapse(s[1..], true)
    else [s[0]] + Collapse(s[1..], false)
  }

  /** What the i-th character adds, given whether it and the one before are white space. */
  function Piece(c: char, white: bool, open: bool): string {
    if !white then [c] else if open then "" else " "
  }

  lemma CollapseStep(s: string, i: nat, open: bool, r: string, white: bool)
    requires i < |s| && white == (s[i] in WHITE_SPACE)
    ensures r + Collapse(s[i..], open) == r + Piece(s[i], white, open) + Collapse(s[i + 1..], white)
  {
    assert s[i..][0] == s[i] && s[i..][1..] == s[i + 1..];
  }

  method CollapseWhitespace(s: string) returns (r: string)
    ensures r == Collapse(s, false)
  {
    r := "";
    var open := false;
    for i := 0 to |s|
      invariant Collapse(s, false) == r + Collapse(s[i..], open)
    {
      var white := s[i] in WHITE_SPACE;
      CollapseStep(s, i, open, r, white);
      if white {
        if !open {
          r := r + " ";
          open := true;
        }
      } else {
        r := r + [s[i]];
        open := false;
      }
    }
  }

  function Spaced(words: seq<string>): string { Join(words, ' ') }

  lemma {:induction false} CollapseStart(s: string)
    ensures Collapse(s, true) == Collapse(TrimStart(s), false)
    ensures Words(TrimStart(s), WHITE_SPACE) == Words(s, WHITE_SPACE)
    ensures TrimStart(s) != "" ==> |TrimStart(s)| <= |s| && TrimStart(s)[|TrimStart(s)| - 1] == s[|s| - 1]
  {
    if s != "" && s[0] in WHITE_SPACE { CollapseStart(s[1..]); }
  }

  lemma {:induction false} CollapseWord(w: string, rest: string)
    requires forall i | 0 <= i < |w| :: w[i] !in WHITE_SPACE
    ensures Collapse(w + rest, false) == w + Collapse(rest, false)
  {
    if w == "" {
      assert w + rest == rest;
    } else {
      assert (w + rest)[1..] == w[1..] + rest;
      CollapseWord(w[1..], rest);
    }
  }

  /** Of a trimmed value, collapsing leaves the words with one space between them. */
  lemma {:induction false} CollapseTrimmed(s: string)
    requires s == "" || (s[0] !in WHITE_SPACE && s[|s| - 1] !in WHITE_SPACE)
    ensures Collapse(s, false) == Spaced(Words(s, WHITE_SPACE))
    decreases |s|
  {
    if s != "" {
      var n := WordEnd(s, WHITE_SPACE);
      var w, rest := s[..n], s[n..];
      assert s == w + rest;
      CollapseWord(w, rest);
      if rest != "" {
        var next := TrimStart(rest[1..]);
        CollapseStart(rest[1..]);
        NotBlank(rest[1..]);
        CollapseTrimmed(next);
        assert Words(s, WHITE_SPACE) == [w] + Words(next, WHITE_SPACE);
        assert ([w] + Words(next, WHITE_SPACE))[1..] == Words(next, WHITE_SPACE);
      }
    }
  }

  /** What ends in a character that is not white space does not trim to nothing. */
  lemma {:induction false} NotBlank(s: string)
    requires s != "" && s[|s| - 1] !in WHITE_SPACE
    ensures TrimStart(s) != "" && Words(TrimStart(s), WHITE_SPACE) != []
  {
    if s[0] in WHITE_SPACE { NotBlank(s[1..]); }
  }

  lemma {:induction false} TrimEndWords(s: string)
    ensures Words(TrimEnd(s), WHITE_SPACE) == Words(s, WHITE_SPACE)
    ensures TrimEnd(s) != "" ==> TrimEnd(s)[0] == s[0]
  {
    if s != "" && s[|s| - 1] in WHITE_SPACE {
      var front, last := s[..|s| - 1], [s[|s| - 1]];
      assert s == front + last && last[1..] == "";
      WordsConcat(front, last, WHITE_SPACE);
      TrimEndWords(front);
    }
  }

  function CanonicalValue(value: string): string { Collapse(Trim(value), false) }

  /** A canonical value is the words of the header value, one space apart: values that
      differ in white space only are signed alike. */
  lemma ValueIsWords(value: string)
    ensures CanonicalValue(value) == Spaced(Words(value, WHITE_SPACE))
  {
    CollapseStart(value);
    TrimEndWords(TrimStart(value));
    CollapseTrimmed(Trim(value));
  }

  predicate ProperWords(words: seq<string>) {
    forall i | 0 <= i < |words| :: words[i] != "" && forall k | 0 <= k < |words[i]| :: words[i][k] !in WHITE_SPACE
  }

  lemma {:induction false} SpacedWords(words: seq<string>)
    requires ProperWords(words)
    ensures Words(Spaced(words), WHITE_SPACE) == words
  {
    if |words| == 1 {
      WordsOne(words[0], "", WHITE_SPACE);
      assert words[0] + "" == words[0];
    } else if words != [] {
      var tail := Spaced(words[1..]);
      SpacedWords(words[1..]);
      assert Spaced(words) == words[0] + ([' '] + tail);
      WordsOne(words[0], [' '] + tail, WHITE_SPACE);
      assert ([' '] + tail)[1..] == tail;
    }
  }

  lemma {:induction false} WordsProper(s: string)
    ensures ProperWords(Words(s, WHITE_SPACE))
    decreases |s|
  {
    if s != "" {
      if s[0] in WHITE_SPACE { WordsProper(s[1..]); } else { WordsProper(s[WordEnd(s, WHITE_SPACE)..]); }
    }
  }

  /** Two values have the same canonical value exactly when they have the same words. */
  lemma ValuesAgree(a: string, b: string)
    ensures CanonicalValue(a) == CanonicalValue(b) <==> Words(a, WHITE_SPACE) == Words(b, WHITE_SPACE)
  {
    ValueIsWords(a);
    ValueIsWords(b);
    WordsProper(a);
    WordsProper(b);
    SpacedWords(Words(a, WHITE_SPACE));
    SpacedWords(Words(b, WHITE_SPACE));
  }

  // ---- The block ----

  type Lowering = map<char, char>

  function Lower(name: string, lowering: Lowering): (r: string)
    ensures |r| == |name|
    ensures forall i | 0 <= i < |name| :: r[i] == if name[i] in lowering then lowering[name[i]] else name[i]
  {
    if name == "" then ""
    else [if name[0] in lowering then lowering[name[0]] else name[0]] + Lower(name[1..], lowering)
  }

  /** The canonical values given under a name, in the order of the headers. */
  function ValuesOf(headers: seq<Header>, name: string, lowering: Lowering): seq<string> {
    if headers == [] then []
    else
      var last := headers[|headers| - 1];
      ValuesOf(headers[..|headers| - 1], name, lowering)
        + if Lower(last.name, lowering) == name then [CanonicalValue(last.value)] else []
  }

  function Commas(values: seq<string>): string
    requires values != []
  {
    if |values| == 1 then values[0] else Commas(values[..|values| - 1]) + "," + values[|values| - 1]
  }

  predicate Collected(merged: map<string, string>, headers: seq<Header>, lowering: Lowering, name: string) {
    if ValuesOf(headers, name, lowering) == [] then name !in merged
    else name in merged && merged[name] == Commas(ValuesOf(headers, name, lowering))
  }

  lemma CommasGrow(values: seq<string>, value: string)
    requires values != []
    ensures Commas(values + [value]) == Commas(values) + "," + value
  {}

  lemma HeaderMerged(merged: map<string, string>, headers: seq<Header>, h: Header, lowering: Lowering, name: string)
    requires Collected(merged, headers, lowering, name)
    ensures var key, value := Lower(h.name, lowering), CanonicalValue(h.value);
            var joined := if key in merged then merged[key] + "," + value else value;
            Collected(merged[key := joined], headers + [h], lowering, name)
  {
    assert (headers + [h])[..|headers|] == headers;
    var values := ValuesOf(headers, name, lowering);
    if values != [] {
      CommasGrow(values, CanonicalValue(h.value));
      assert values + [] == values;
    } else {
      assert [] + [CanonicalValue(h.value)] == [CanonicalValue(h.value)];
    }
  }

  /** The loop over the headers: values under one name are joined with commas. */
  method MergeHeaders(headers: seq<Header>, lowering: Lowering) returns (merged: map<string, string>)
    ensures forall name :: Collected(merged, headers, lowering, name)
  {
    merged := map[];
    for i := 0 to |headers|
      invariant forall name :: Collected(merged, headers[..i], lowering, name)
    {
      var key := Lower(headers[i].name, lowering);
      var value := CollapseWhitespace(Trim(headers[i].value));
      ghost var before := merged;
      merged := merged[key := if key in merged then merged[key] + "," + value else value];
      ghost var done := headers[..i] + [headers[i]];
      forall name ensures Collected(merged, done, lowering, name) {
        HeaderMerged(before, headers[..i], headers[i], lowering, name);
      }
      assert headers[..i + 1] == done;
    }
    assert headers[..|headers|] == headers;
  }

  /** The names in order; equal names cannot be told apart. */
  function InsertName(name: string, names: seq<string>): (r: seq<string>)
    ensures multiset(r) == multiset(names) + multiset{name}
  {
    if names == [] || !Less(names[0], name) then [name] + names
    else
      assert names == [names[0]] + names[1..];
      [names[0]] + InsertName(name, names[1..])
  }

  function SortNames(names: seq<string>): (r: seq<string>)
    ensures multiset(r) == multiset(names)
  {
    if names == [] then []
    else
      assert names == [names[0]] + names[1..];
      InsertName(names[0], SortNames(names[1..]))
  }

  predicate Ascending(names: seq<string>) {
    forall i, j | 0 <= i < j < |names| :: !Less(names[j], names[i])
  }

  lemma NotLess(a: string, b: string, c: string)
    requires !Less(b, a) && !Less(c, b)
    ensures !Less(c, a)
  {
    LessTotal(a, b);
    LessTotal(b, c);
    if Less(c, a) {
      if a != b && b != c { LessTransitive(a, b, c); LessTransitive(c, a, c); }
      LessIrreflexive(c);
      if a == b || b == c { LessTransitive(c, a, c); }
    }
  }

  lemma {:induction false} InsertNameAscending(name: string, names: seq<string>)
    requires Ascending(names)
    ensures Ascending(InsertName(name, names))
  {
    if names == [] {
    } else if !Less(names[0], name) {
      forall j | 0 <= j < |names| ensures !Less(names[j], name) {
        if j > 0 { NotLess(name, names[0], names[j]); }
      }
    } else {
      var rest := InsertName(name, names[1..]);
      InsertNameAscending(name, names[1..]);
      forall j | 0 <= j < |rest| ensures !Less(rest[j], names[0]) {
        assert rest[j] in multiset(rest);
        if rest[j] == name && Less(name, names[0]) {
          LessTransitive(name, names[0], name);
          LessIrreflexive(name);
        }
      }
    }
  }

  lemma {:induction false} NamesAscending(names: seq<string>)
    ensures Ascending(SortNames(names))
  {
    if names != [] {
      NamesAscending(names[1..]);
      InsertNameAscending(names[0], SortNames(names[1..]));
    }
  }

  function Lines(signed: seq<string>, headers: seq<Header>, lowering: Lowering): seq<string> {
    if signed == [] then []
    else
      var values := ValuesOf(headers, signed[|signed| - 1], lowering);
      Lines(signed[..|signed| - 1], headers, lowering)
        + if values == [] then [] else [signed[|signed| - 1] + ":" + Commas(values)]
  }

  lemma LineAdded(signed: seq<string>, i: nat, merged: map<string, string>, headers: seq<Header>, lowering: Lowering)
    requires i < |signed| && Collected(merged, headers, lowering, signed[i])
    ensures Lines(signed[..i + 1], headers, lowering)
         == Lines(signed[..i], headers, lowering)
         + if signed[i] in merged then [signed[i] + ":" + merged[signed[i]]] else []
  {
    assert signed[..i + 1][..i] == signed[..i];
  }

  method BuildCanonicalHeaders(headers: seq<Header>, signed: seq<string>, lowering: Lowering) returns (r: string)
    ensures r == Join(Lines(SortNames(signed), headers, lowering), '\n')
  {
    var merged := MergeHeaders(headers, lowering);
    var sorted := SortNames(signed);
    var lines: seq<string> := [];
    for i := 0 to |sorted|
      invariant lines == Lines(sorted[..i], headers, lowering)
    {
      LineAdded(sorted, i, merged, headers, lowering);
      if sorted[i] in merged { lines := lines + [sorted[i] + ":" + merged[sorted[i]]]; }
    }
    assert sorted[..|sorted|] == sorted;
    return Join(lines, '\n');
  }

  /** The block depends only on the words of the values under each name, in order:
      not on letter case, on white space, or on how headers of different names are
      interleaved. */
  lemma {:induction false} SameValuesSameLines(signed: seq<string>, a: seq<Header>, b: seq<Header>, lowering: Lowering)
    requires forall name :: ValuesOf(a, name, lowering) == ValuesOf(b, name, lowering)
    ensures Lines(signed, a, lowering) == Lines(signed, b, lowering)
  {
    if signed != [] { SameValuesSameLines(signed[..|signed| - 1], a, b, lowering); }
  }

  lemma {:induction false} ValuesConcat(a: seq<Header>, b: seq<Header>, name: string, lowering: Lowering)
    ensures ValuesOf(a + b, name, lowering) == ValuesOf(a, name, lowering) + ValuesOf(b, name, lowering)
    decreases |b|
  {
    if b == [] {
      assert a + b == a;
    } else {
      assert (a + b)[..|a + b| - 1] == a + b[..|b| - 1];
      ValuesConcat(a, b[..|b| - 1], name, lowering);
    }
  }

  lemma SwappedValues(before: seq<Header>, x: Header, y: Header, x2: Header, y2: Header, after: seq<Header>,
                      name: string, lowering: Lowering)
    requires Alike(x, x2, lowering) && Alike(y, y2, lowering) && Lower(x.name, lowering) != Lower(y.name, lowering)
    ensures ValuesOf(before + [x] + [y] + after, name, lowering)
         == ValuesOf(before + [y2] + [x2] + after, name, lowering)
  {
    ValuesAgree(x.value, x2.value);
    ValuesAgree(y.value, y2.value);
    FourValues(before, x, y, after, name, lowering);
    FourValues(before, y2, x2, after, name, lowering);
    var none: seq<string> := [];
    assert forall s: seq<string> :: s + none == s;
  }

  lemma FourValues(before: seq<Header>, x: Header, y: Header, after: seq<Header>, name: string, lowering: Lowering)
    ensures ValuesOf(before + [x] + [y] + after, name, lowering)
         == ValuesOf(before, name, lowering)
          + (if Lower(x.name, lowering) == name then [CanonicalValue(x.value)] else [])
          + (if Lower(y.name, lowering) == name then [CanonicalValue(y.value)] else [])
          + ValuesOf(after, name, lowering)
  {
    ValuesConcat(before + [x] + [y], after, name, lowering);
    assert (before + [x] + [y])[..|before| + 1] == before + [x];
    assert (before + [x])[..|before|] == before;
  }

  /** The same header, but for letter case in its name and white space in its value. */
  predicate Alike(x: Header, y: Header, lowering: Lowering) {
    Lower(x.name, lowering) == Lower(y.name, lowering) && Words(x.value, WHITE_SPACE) == Words(y.value, WHITE_SPACE)
  }

  /** Swapping neighbours of different names, or writing them with other letter case
      or other white space, changes nothing in the signed block. */
  lemma BlockStable(before: seq<Header>, x: Header, y: Header, x2: Header, y2: Header, after: seq<Header>,
                    signed: seq<string>, lowering: Lowering)
    requires Alike(x, x2, lowering) && Alike(y, y2, lowering) && Lower(x.name, lowering) != Lower(y.name, lowering)
    ensures Lines(SortNames(signed), before + [x] + [y] + after, lowering)
         == Lines(SortNames(signed), before + [y2] + [x2] + after, lowering)
  {
    forall name
      ensures ValuesOf(before + [x] + [y] + after, name, lowering)
           == ValuesOf(before + [y2] + [x2] + after, name, lowering)
    {
      SwappedValues(before, x, y, x2, y2, after, name, lowering);
    }
    SameValuesSameLines(SortNames(signed), before + [x] + [y] + after, before + [y2] + [x2] + after, lowering);
  }

  // ---- What an equal block means ----

  /** What is signed under a name: its values joined, or nothing if it is not given. */
  function Merged(headers: seq<Header>, name: string, lowering: Lowering): Option<string> {
    var values := ValuesOf(headers, name, lowering);
    if values == [] then None else Some(Commas(values))
  }

  lemma {:induction false} CollapsedLine(s: string, open: bool)
    ensures '\n' !in Collapse(s, open)
  {
    if s != "" { CollapsedLine(s[1..], if s[0] in WHITE_SPACE then true else false); }
  }

  lemma {:induction false} ValuesOneLine(headers: seq<Header>, name: string, lowering: Lowering)
    ensures forall i | 0 <= i < |ValuesOf(headers, name, lowering)| :: '\n' !in ValuesOf(headers, name, lowering)[i]
  {
    if headers != [] {
      var last := headers[|headers| - 1];
      CollapsedLine(Trim(last.value), false);
      ValuesOneLine(headers[..|headers| - 1], name, lowering);
    }
  }

  lemma {:induction false} CommasOneLine(values: seq<string>)
    requires values != [] && forall i | 0 <= i < |values| :: '\n' !in values[i]
    ensures '\n' !in Commas(values)
  {
    if |values| > 1 { CommasOneLine(values[..|values| - 1]); }
  }

  /** Header names as HTTP has them (RFC 9110, section 5.1): no colon and no line break. */
  predicate TokenNames(headers: seq<Header>, lowering: Lowering) {
    forall i | 0 <= i < |headers| ::
      ':' !in Lower(headers[i].name, lowering) && '\n' !in Lower(headers[i].name, lowering)
  }

  lemma {:induction false} GivenName(headers: seq<Header>, name: string, lowering: Lowering)
    requires TokenNames(headers, lowering) && Merged(headers, name, lowering).Some?
    ensures ':' !in name && '\n' !in name
  {
    var front := headers[..|headers| - 1];
    if Merged(front, name, lowering).Some? { GivenName(front, name, lowering); }
  }

  lemma {:induction false} LinesOneLine(signed: seq<string>, headers: seq<Header>, lowering: Lowering)
    requires TokenNames(headers, lowering)
    ensures forall i | 0 <= i < |Lines(signed, headers, lowering)| ::
              Lines(signed, headers, lowering)[i] != "" && '\n' !in Lines(signed, headers, lowering)[i]
  {
    if signed != [] {
      var name := signed[|signed| - 1];
      LinesOneLine(signed[..|signed| - 1], headers, lowering);
      ValuesOneLine(headers, name, lowering);
      if ValuesOf(headers, name, lowering) != [] {
        GivenName(headers, name, lowering);
        CommasOneLine(ValuesOf(headers, name, lowering));
      }
    }
  }

  lemma LineParts(a: string, v: string, b: string, w: string)
    requires ':' !in a && ':' !in b && a + ":" + v == b + ":" + w
    ensures a == b && v == w
  {
    var s := a + ":" + v;
    assert s[|a|] == ':' && s[|b|] == ':';
    assert forall k | 0 <= k < |a| :: s[k] == a[k];
    assert forall k | 0 <= k < |b| :: s[k] == b[k];
    assert a == s[..|a|] && b == s[..|b|] && v == s[|a| + 1..] && w == s[|b| + 1..];
  }

  /** The lines tell which names are given, and with what. */
  lemma {:induction false} LineSays(signed: seq<string>, headers: seq<Header>, lowering: Lowering, name: string,
                        value: string)
    requires TokenNames(headers, lowering) && ':' !in name
    ensures name + ":" + value in Lines(signed, headers, lowering)
       <==> name in signed && Merged(headers, name, lowering) == Some(value)
  {
    if signed != [] {
      var front, last := signed[..|signed| - 1], signed[|signed| - 1];
      assert signed == front + [last];
      LineSays(front, headers, lowering, name, value);
      var given := Merged(headers, last, lowering);
      if given.Some? {
        GivenName(headers, last, lowering);
        if last + ":" + given.value == name + ":" + value { LineParts(last, given.value, name, value); }
      }
    }
  }

  lemma {:induction false} SameMergedSameLines(signed: seq<string>, a: seq<Header>, b: seq<Header>,
                        lowering: Lowering)
    requires forall i | 0 <= i < |signed| :: Merged(a, signed[i], lowering) == Merged(b, signed[i], lowering)
    ensures Lines(signed, a, lowering) == Lines(signed, b, lowering)
  {
    if signed != [] {
      assert Merged(a, signed[|signed| - 1], lowering) == Merged(b, signed[|signed| - 1], lowering);
      SameMergedSameLines(signed[..|signed| - 1], a, b, lowering);
    }
  }

  lemma JoinInjective(a: seq<string>, b: seq<string>)
    requires forall i | 0 <= i < |a| :: a[i] != "" && '\n' !in a[i]
    requires forall i | 0 <= i < |b| :: b[i] != "" && '\n' !in b[i]
    requires Join(a, '\n') == Join(b, '\n')
    ensures a == b
  {
    if a != [] { SplitJoin(a, '\n'); }
    if b != [] { SplitJoin(b, '\n'); }
  }

  lemma SameLine(names: seq<string>, a: seq<Header>, b: seq<Header>, lowering: Lowering, name: string)
    requires TokenNames(a, lowering) && TokenNames(b, lowering)
    requires name in names && Lines(names, a, lowering) == Lines(names, b, lowering)
    ensures Merged(a, name, lowering).Some? ==> Merged(b, name, lowering) == Merged(a, name, lowering)
  {
    var given := Merged(a, name, lowering);
    if given.Some? {
      GivenName(a, name, lowering);
      LineSays(names, a, lowering, name, given.value);
      LineSays(names, b, lowering, name, given.value);
    }
  }

  /** Two lists of headers give the same signed block exactly when every signed name has the
      same joined values in both, or is missing from both. */
  lemma BlockCollisionFree(a: seq<Header>, b: seq<Header>, signed: seq<string>, lowering: Lowering)
    requires TokenNames(a, lowering) && TokenNames(b, lowering)
    ensures Join(Lines(SortNames(signed), a, lowering), '\n') == Join(Lines(SortNames(signed), b, lowering), '\n')
       <==> forall i | 0 <= i < |signed| :: Merged(a, signed[i], lowering) == Merged(b, signed[i], lowering)
  {
    var names := SortNames(signed);
    forall i | 0 <= i < |names| ensures names[i] in signed {
      assert names[i] in multiset(names);
    }
    LinesOneLine(names, a, lowering);
    LinesOneLine(names, b, lowering);
    if Join(Lines(names, a, lowering), '\n') == Join(Lines(names, b, lowering), '\n') {
      JoinInjective(Lines(names, a, lowering), Lines(names, b, lowering));
      forall i | 0 <= i < |signed| ensures Merged(a, signed[i], lowering) == Merged(b, signed[i], lowering) {
        assert signed[i] in multiset(signed) && signed[i] in names;
        SameLine(names, a, b, lowering, signed[i]);
        SameLine(names, b, a, lowering, signed[i]);
      }
    }
    if forall i | 0 <= i < |signed| :: Merged(a, signed[i], lowering) == Merged(b, signed[i], lowering) {
      SameMergedSameLines(names, a, b, lowering);
    }
  }

  lemma SortOne(a: string)
    ensures SortNames([a]) == [a]
  {
    assert [a][1..] == [];
  }

  lemma SortTwo(a: string, b: string)
    requires Less(a, b)
    ensures SortNames([b, a]) == [a, b]
  {
    SortOne(a);
    assert [b, a][1..] == [a] && [a][1..] == [];
    assert InsertName(b, []) == [b];
  }

  lemma LinesOn(names: seq<string>, name: string, headers: seq<Header>, lowering: Lowering)
    ensures var values := ValuesOf(headers, name, lowering);
            Lines(names + [name], headers, lowering)
            == Lines(names, headers, lowering) + if values == [] then [] else [name + ":" + Commas(values)]
  {
    assert (names + [name])[..|names|] == names;
  }

  lemma CommasTwo(w: string, x: string)
    ensures Commas([w]) == w && Commas([w, x]) == w + "," + x
  {
    assert [w, x][..1] == [w];
  }

  lemma JoinTwo(first: string, second: string)
    ensures Join([first, second], '\n') == first + ['\n'] + second
  {
    assert [first, second][1..] == [second];
  }

  /** Two signed names, the second given twice: one line each, the smaller name first, with
      a colon after the name and commas between values. */
  lemma TwoNames(headers: seq<Header>, lowering: Lowering, a: string, b: string, v: string, w: string, x: string)
    requires Less(a, b)
    requires ValuesOf(headers, a, lowering) == [v] && ValuesOf(headers, b, lowering) == [w, x]
    ensures Join(Lines(SortNames([b, a]), headers, lowering), '\n')
         == a + ":" + v + ['\n'] + (b + ":" + (w + "," + x))
  {
    SortTwo(a, b);
    CommasTwo(v, v);
    CommasTwo(w, x);
    LinesOn([], a, headers, lowering);
    LinesOn([a], b, headers, lowering);
    assert [] + [a] == [a] && [a] + [b] == [a, b];
    JoinTwo(a + ":" + v, b + ":" + (w + "," + x));
  }
}
