/** SigV4 canonical forms: the normalized query string and the canonical URI.
    Strings are their UTF-8 bytes. */
module Canonical {
  import opened Wrappers
  import opened Strings

  type Byte = c: char | c as int < 256 witness 'a'
  type Bytes = seq<Byte>

  datatype AuthError = InvalidQueryString

  const MAX_QUERY_BYTES: nat := 64 * 1024
  const MAX_QUERY_PARAMS: nat := 1024

  // ---------------------------------------------------------------------
  // The percent codec (RFC 3986, sections 2.1 and 2.3)
  // ---------------------------------------------------------------------

  predicate IsUnreserved(c: char) {
    'A' <= c <= 'Z' || 'a' <= c <= 'z' || '0' <= c <= '9' || c == '-' || c == '_' || c == '.' || c == '~'
  }

  predicate IsHex(c: char) { '0' <= c <= '9' || 'A' <= c <= 'F' || 'a' <= c <= 'f' }

  function HexValue(c: char): (v: nat)
    requires IsHex(c)
    ensures v < 16
  {
    if '0' <= c <= '9' then c as int - '0' as int
    else if 'A' <= c <= 'F' then c as int - 'A' as int + 10
    else c as int - 'a' as int + 10
  }

  function HexDigit(v: nat): (c: Byte)
    requires v < 16
    ensures IsHex(c) && HexValue(c) == v && (IsUnreserved(c))
  {
    if v < 10 then (v + '0' as int) as char else (v - 10 + 'A' as int) as char
  }

  function EncodeByte(c: Byte): Bytes {
    if IsUnreserved(c) then [c] else ['%', HexDigit(c as int / 16), HexDigit(c as int % 16)]
  }

  /** `sigv4_encode` */
  function Encode(s: Bytes): Bytes {
    if s == [] then [] else EncodeByte(s[0]) + Encode(s[1..])
  }

  /** `percent_decode_str`: a '%' without two hex digits stays as it is. */
  function PercentDecode(s: Bytes): Bytes {
    if s == [] then []
    else if s[0] == '%' && |s| >= 3 && IsHex(s[1]) && IsHex(s[2]) then
      [(HexValue(s[1]) * 16 + HexValue(s[2])) as char] + PercentDecode(s[3..])
    else [s[0]] + PercentDecode(s[1..])
  }

  lemma {:induction false} DecodeEncode(s: Bytes)
    ensures PercentDecode(Encode(s)) == s
  {
    if s != [] {
      DecodeEncode(s[1..]);
      var e := Encode(s);
      if IsUnreserved(s[0]) {
        assert e[1..] == Encode(s[1..]);
      } else {
        assert e[3..] == Encode(s[1..]);
      }
      assert s == [s[0]] + s[1..];
    }
  }

  /** Encoded text holds only unreserved bytes and '%', so no separator. */
  lemma {:induction false} EncodeAlphabet(s: Bytes)
    ensures forall c | c in Encode(s) :: IsUnreserved(c) || c == '%'
    ensures '&' !in Encode(s) && '=' !in Encode(s) && '/' !in Encode(s)
    ensures Encode(s) == [] <==> s == []
  {
    if s != [] { EncodeAlphabet(s[1..]); }
  }

  /** The digits that section 2.1 of RFC 3986 asks producers for. */
  const UPPER_HEX: Bytes := ['0', '1', '2', '3', '4', '5', '6', '7', '8', '9', 'A', 'B', 'C', 'D', 'E', 'F']

  lemma HexDigitUpper(v: nat)
    requires v < 16
    ensures HexDigit(v) == UPPER_HEX[v] && HexValue(UPPER_HEX[v]) == v
  {}

  /** The letters, the digits and "-._~" stand for themselves, and no other byte (RFC 3986,
      section 2.3). */
  lemma UnreservedExact(c: Byte)
    ensures var v := c as int;
            Encode([c]) == [c] <==> 65 <= v <= 90 || 97 <= v <= 122 || 48 <= v <= 57 || v in {45, 46, 95, 126}
  {}

  /** Unreserved bytes stand for themselves, and every '%' is followed by two upper-case
      digits that spell a byte which is not unreserved. */
  predicate Normal(s: Bytes) {
    s == [] ||
    if s[0] == '%' then
      |s| >= 3 && s[1] in UPPER_HEX && s[2] in UPPER_HEX
      && !IsUnreserved((HexValue(s[1]) * 16 + HexValue(s[2])) as char) && Normal(s[3..])
    else IsUnreserved(s[0]) && Normal(s[1..])
  }

  lemma {:induction false} EncodeNormal(s: Bytes)
    ensures Normal(Encode(s))
  {
    if s != [] {
      var e := Encode(s);
      EncodeNormal(s[1..]);
      if IsUnreserved(s[0]) {
        assert e[1..] == Encode(s[1..]);
      } else {
        HexDigitUpper(s[0] as int / 16);
        HexDigitUpper(s[0] as int % 16);
        assert e[3..] == Encode(s[1..]);
      }
    }
  }

  lemma UpperHexUnique(c: char)
    requires c in UPPER_HEX
    ensures IsHex(c) && HexDigit(HexValue(c)) == c
  {
    var v :| 0 <= v < |UPPER_HEX| && UPPER_HEX[v] == c;
    HexDigitUpper(v);
  }

  /** The encoding is the one text in that form that decodes to the bytes. */
  lemma {:induction false} EncodeUnique(s: Bytes, t: Bytes)
    ensures t == Encode(s) <==> Normal(t) && PercentDecode(t) == s
  {
    EncodeNormal(s);
    DecodeEncode(s);
    if Normal(t) && PercentDecode(t) == s { NormalDecodes(t); }
  }

  lemma EncodeOn(c: Byte, t: Bytes)
    ensures Encode([c] + t) == EncodeByte(c) + Encode(t)
  {
    assert ([c] + t)[1..] == t;
  }

  lemma HexPair(v: nat, w: nat)
    requires v < 16 && w < 16
    ensures (v * 16 + w) / 16 == v && (v * 16 + w) % 16 == w && v * 16 + w < 256
  {}

  lemma EscapeEncodes(a: Byte, b: Byte)
    requires a in UPPER_HEX && b in UPPER_HEX
    ensures IsHex(a) && IsHex(b)
    ensures var c := (HexValue(a) * 16 + HexValue(b)) as char;
            !IsUnreserved(c) ==> EncodeByte(c) == ['%', a, b]
  {
    UpperHexUnique(a);
    UpperHexUnique(b);
    HexPair(HexValue(a), HexValue(b));
  }

  lemma EscapeDecodes(a: Byte, b: Byte, t: Bytes)
    requires IsHex(a) && IsHex(b)
    ensures PercentDecode(['%', a, b] + t) == [(HexValue(a) * 16 + HexValue(b)) as char] + PercentDecode(t)
  {
    assert (['%', a, b] + t)[3..] == t;
  }

  lemma NormalEscape(a: Byte, b: Byte, t: Bytes)
    requires a in UPPER_HEX && b in UPPER_HEX && IsHex(a) && IsHex(b)
    requires !IsUnreserved((HexValue(a) * 16 + HexValue(b)) as char) && Encode(PercentDecode(t)) == t
    ensures Encode(PercentDecode(['%', a, b] + t)) == ['%', a, b] + t
  {
    EscapeEncodes(a, b);
    EscapeDecodes(a, b, t);
    EncodeOn((HexValue(a) * 16 + HexValue(b)) as char, PercentDecode(t));
  }

  lemma NormalPlain(c: Byte, t: Bytes)
    requires IsUnreserved(c) && c != '%' && Encode(PercentDecode(t)) == t
    ensures Encode(PercentDecode([c] + t)) == [c] + t
  {
    assert ([c] + t)[1..] == t;
    EncodeOn(c, PercentDecode(t));
  }

  lemma ThreeFirst(t: Bytes)
    requires |t| >= 3
    ensures t == [t[0], t[1], t[2]] + t[3..]
  {}

  lemma OneFirst(t: Bytes)
    requires t != []
    ensures t == [t[0]] + t[1..]
  {}

  lemma {:induction false} NormalDecodes(t: Bytes)
    requires Normal(t)
    ensures Encode(PercentDecode(t)) == t
  {
    if t != [] {
      if t[0] == '%' {
        ThreeFirst(t);
        NormalDecodes(t[3..]);
        NormalEscape(t[1], t[2], t[3..]);
      } else {
        OneFirst(t);
        NormalDecodes(t[1..]);
        NormalPlain(t[0], t[1..]);
      }
    }
  }

  predicate UpperAt(s: Bytes, i: nat)
    requires i < |s|
  {
    s[i] == '%' ==> i + 2 < |s| && s[i + 1] in UPPER_HEX && s[i + 2] in UPPER_HEX
  }

  /** Every escape is written with the digits 0-9 and A-F. */
  predicate UpperEscapes(s: Bytes) {
    forall i | 0 <= i < |s| :: UpperAt(s, i)
  }

  lemma UpperConcat(a: Bytes, b: Bytes)
    requires UpperEscapes(a) && UpperEscapes(b)
    ensures UpperEscapes(a + b)
  {
    forall i | 0 <= i < |a + b| ensures UpperAt(a + b, i) {
      if i < |a| { assert UpperAt(a, i); } else { assert UpperAt(b, i - |a|); }
    }
  }

  lemma {:induction false} NormalUpper(s: Bytes)
    requires Normal(s)
    ensures UpperEscapes(s)
  {
    if s != [] {
      var n := if s[0] == '%' then 3 else 1;
      NormalUpper(s[n..]);
      if n == 3 {
        assert '%' !in UPPER_HEX;
        assert UpperEscapes(s[..3]);
      }
      UpperConcat(s[..n], s[n..]);
      assert s == s[..n] + s[n..];
    }
  }

  lemma {:induction false} UpperJoin(parts: seq<Bytes>, sep: Byte)
    requires sep != '%' && forall i | 0 <= i < |parts| :: UpperEscapes(parts[i])
    ensures UpperEscapes(Join<Byte>(parts, sep))
  {
    if |parts| > 1 {
      UpperJoin(parts[1..], sep);
      assert UpperEscapes([sep]);
      UpperConcat(parts[0], [sep]);
      UpperConcat(parts[0] + [sep], Join<Byte>(parts[1..], sep));
    }
  }

  /** Bytes without a '%' decode to themselves, a '+' included. */
  lemma {:induction false} DecodePlain(s: Bytes)
    requires '%' !in s
    ensures PercentDecode(s) == s
  {
    if s != [] {
      DecodePlain(s[1..]);
      assert s == [s[0]] + s[1..];
    }
  }

  /** Two hex digits after a '%' spell a byte, in either case; otherwise the '%' stays. */
  lemma DecodeEscape(v: nat, w: nat, t: Bytes)
    requires v < 16 && w < 16
    ensures PercentDecode(['%', UPPER_HEX[v], UPPER_HEX[w]] + t) == [(v * 16 + w) as char] + PercentDecode(t)
    ensures v >= 10 ==>
              PercentDecode(['%', (UPPER_HEX[v] as int + 32) as char, UPPER_HEX[w]] + t)
              == [(v * 16 + w) as char] + PercentDecode(t)
    ensures w >= 10 ==>
              PercentDecode(['%', UPPER_HEX[v], (UPPER_HEX[w] as int + 32) as char] + t)
              == [(v * 16 + w) as char] + PercentDecode(t)
  {
    HexDigitUpper(v);
    HexDigitUpper(w);
    EscapeDecodes(UPPER_HEX[v], UPPER_HEX[w], t);
    if v >= 10 { EscapeDecodes((UPPER_HEX[v] as int + 32) as char, UPPER_HEX[w], t); }
    if w >= 10 { EscapeDecodes(UPPER_HEX[v], (UPPER_HEX[w] as int + 32) as char, t); }
  }

  lemma DecodeMalformed(t: Bytes)
    requires |t| < 2 || !IsHex(t[0]) || !IsHex(t[1])
    ensures PercentDecode(['%'] + t) == ['%'] + PercentDecode(t)
  {
    assert (['%'] + t)[1..] == t;
  }

  // ---------------------------------------------------------------------
  // UTF-8 (well-formed byte sequences, as `str::from_utf8` checks them)
  // ---------------------------------------------------------------------

  /** The next character, or the longest prefix to replace as one unit. */
  datatype Chunk = Good(length: nat) | Bad(length: nat)

  predicate Between(s: Bytes, i: nat, lo: int, hi: int) {
    i < |s| && lo <= s[i] as int <= hi
  }

  function NextChunk(s: Bytes): (c: Chunk)
    requires s != []
    ensures 1 <= c.length <= |s|
  {
    var b := s[0] as int;
    if b < 0x80 then Good(1)
    else if 0xC2 <= b <= 0xDF then
      if Between(s, 1, 0x80, 0xBF) then Good(2) else Bad(1)
    else if 0xE0 <= b <= 0xEF then
      if !Between(s, 1, if b == 0xE0 then 0xA0 else 0x80, if b == 0xED then 0x9F else 0xBF) then Bad(1)
      else if Between(s, 2, 0x80, 0xBF) then Good(3) else Bad(2)
    else if 0xF0 <= b <= 0xF4 then
      if !Between(s, 1, if b == 0xF0 then 0x90 else 0x80, if b == 0xF4 then 0x8F else 0xBF) then Bad(1)
      else if !Between(s, 2, 0x80, 0xBF) then Bad(2)
      else if Between(s, 3, 0x80, 0xBF) then Good(4) else Bad(3)
    else Bad(1)
  }

  predicate ValidUtf8(s: Bytes)
  {
    s == [] || (NextChunk(s).Good? && ValidUtf8(s[NextChunk(s).length..]))
  }

  const REPLACEMENT: Bytes := ['\U{00EF}', '\U{00BF}', '\U{00BD}']

  /** `decode_utf8_lossy` */
  function Lossy(s: Bytes): Bytes
  {
    if s == [] then []
    else
      var c := NextChunk(s);
      (if c.Good? then s[..c.length] else REPLACEMENT) + Lossy(s[c.length..])
  }

  lemma {:induction false} LossyIdentity(s: Bytes)
    requires ValidUtf8(s)
    ensures Lossy(s) == s
  {
    if s != [] {
      var n := NextChunk(s).length;
      LossyIdentity(s[n..]);
      assert s == s[..n] + s[n..];
    }
  }

  lemma ChunkPrefix(a: Bytes, b: Bytes)
    requires a != [] && NextChunk(a) == Good(|a|)
    ensures NextChunk(a + b) == Good(|a|)
  {}

  lemma {:induction false} LossyValid(s: Bytes)
    ensures ValidUtf8(Lossy(s))
  {
    if s != [] {
      var c := NextChunk(s);
      var head := if c.Good? then s[..c.length] else REPLACEMENT;
      var tail := Lossy(s[c.length..]);
      LossyValid(s[c.length..]);
      assert NextChunk(head) == Good(|head|);
      ChunkPrefix(head, tail);
      assert (head + tail)[|head|..] == tail;
    }
  }

  lemma {:induction false} LossyNonempty(s: Bytes)
    ensures s != [] ==> Lossy(s) != []
  {}

  // ---------------------------------------------------------------------
  // Query parameters
  // ---------------------------------------------------------------------

  type Pair = (Bytes, Bytes)

  function NonEmpty(parts: seq<Bytes>): (r: seq<Bytes>)
    ensures |r| <= |parts|
    ensures forall i | 0 <= i < |r| :: r[i] != [] && r[i] in parts
  {
    if parts == [] then []
    else if parts[0] == [] then NonEmpty(parts[1..])
    else [parts[0]] + NonEmpty(parts[1..])
  }

  /** The parameters of a query, empty ones dropped. */
  function Params(query: Bytes): (r: seq<Bytes>)
    ensures forall i | 0 <= i < |r| :: r[i] != [] && '&' !in r[i]
  {
    NonEmpty(Split<Byte>(query, '&'))
  }

  /** `split_once('=')`, with an empty value when there is no '='. */
  function SplitOnce(s: Bytes): Pair {
    if s == [] then ([], [])
    else if s[0] == '=' then ([], s[1..])
    else ([s[0]] + SplitOnce(s[1..]).0, SplitOnce(s[1..]).1)
  }

  function DecodePair(param: Bytes): Pair {
    (PercentDecode(SplitOnce(param).0), PercentDecode(SplitOnce(param).1))
  }

  /** The decoded parameters, in wire order. */
  function Decoded(params: seq<Bytes>): (r: seq<Pair>)
    ensures |r| == |params|
    ensures forall i | 0 <= i < |r| :: r[i] == DecodePair(params[i])
  {
    seq(|params|, i requires 0 <= i < |params| => DecodePair(params[i]))
  }

  predicate PairUtf8(p: Pair) { ValidUtf8(p.0) && ValidUtf8(p.1) }

  predicate AllUtf8(ps: seq<Pair>) {
    forall i | 0 <= i < |ps| :: PairUtf8(ps[i])
  }

  predicate NamesUtf8(ps: seq<Pair>) {
    forall i | 0 <= i < |ps| :: ValidUtf8(ps[i].0)
  }

  predicate DistinctNames(ps: seq<Pair>) {
    forall i, j | 0 <= i < j < |ps| :: ps[i].0 != ps[j].0
  }

  predicate WithinLimits(query: Bytes) {
    |query| <= MAX_QUERY_BYTES && Count<Byte>(query, '&') < MAX_QUERY_PARAMS
  }

  /** Exactly the queries the normalization accepts. */
  predicate Accepted(query: Bytes) {
    && WithinLimits(query)
    && AllUtf8(Decoded(Params(query)))
    && DistinctNames(Decoded(Params(query)))
  }

  /** What a query means: its decoded names and values. */
  function Meaning(ps: seq<Pair>): map<Bytes, Bytes> {
    if ps == [] then map[] else Meaning(ps[1..])[ps[0].0 := ps[0].1]
  }

  /** The first value on the wire with this decoded name. */
  function FirstMatch(ps: seq<Pair>, name: Bytes): Option<Bytes> {
    if ps == [] then None else if ps[0].0 == name then Some(ps[0].1) else FirstMatch(ps[1..], name)
  }

  lemma {:induction false} MeaningIsFirstMatch(ps: seq<Pair>, name: Bytes)
    ensures FirstMatch(ps, name) == if name in Meaning(ps) then Some(Meaning(ps)[name]) else None
  {
    if ps != [] { MeaningIsFirstMatch(ps[1..], name); }
  }

  lemma {:induction false} MeaningMembers(ps: seq<Pair>, name: Bytes, value: Bytes)
    requires DistinctNames(ps)
    ensures (name, value) in ps <==> name in Meaning(ps) && Meaning(ps)[name] == value
  {
    if ps != [] {
      MeaningMembers(ps[1..], name, value);
      assert ps == [ps[0]] + ps[1..];
      if name == ps[0].0 {
        assert forall v :: (name, v) !in ps[1..];
      }
    }
  }

  /** Distinct pairs with the same members give the same meaning. */
  lemma SameMembersSameMeaning(a: seq<Pair>, b: seq<Pair>)
    requires DistinctNames(a) && DistinctNames(b)
    requires forall p: Pair :: p in a <==> p in b
    ensures Meaning(a) == Meaning(b)
  {
    var ma, mb := Meaning(a), Meaning(b);
    forall name | name in ma || name in mb
      ensures name in ma && name in mb && ma[name] == mb[name]
    {
      if name in ma { MeaningMembers(a, name, ma[name]); MeaningMembers(b, name, ma[name]); }
      if name in mb { MeaningMembers(a, name, mb[name]); MeaningMembers(b, name, mb[name]); }
    }
  }

  // ---------------------------------------------------------------------
  // Sorting
  // ---------------------------------------------------------------------

  predicate PairLess(p: Pair, q: Pair) {
    Less(p.0, q.0) || (p.0 == q.0 && Less(p.1, q.1))
  }

  predicate Sorted(ps: seq<Pair>) {
    forall i, j | 0 <= i < j < |ps| :: !PairLess(ps[j], ps[i])
  }

  lemma PairLessTotal(p: Pair, q: Pair)
    ensures PairLess(p, q) || p == q || PairLess(q, p)
  {
    LessTotal(p.0, q.0);
    LessTotal(p.1, q.1);
  }

  lemma PairLessStrict(p: Pair, q: Pair)
    requires PairLess(p, q)
    ensures !PairLess(q, p)
  {
    if PairLess(q, p) {
      if Less(p.0, q.0) && Less(q.0, p.0) {
        LessTransitive(p.0, q.0, p.0);
      } else if p.0 == q.0 && Less(p.1, q.1) && Less(q.1, p.1) {
        LessTransitive(p.1, q.1, p.1);
      }
      LessIrreflexive(p.0);
      LessIrreflexive(p.1);
    }
  }

  lemma PairLeqTransitive(p: Pair, q: Pair, r: Pair)
    requires !PairLess(q, p) && !PairLess(r, q)
    ensures !PairLess(r, p)
  {
    PairLessTotal(p, q);
    PairLessTotal(q, r);
    if PairLess(p, q) && PairLess(q, r) {
      assert PairLess(p, r) by {
        if Less(p.0, q.0) && Less(q.0, r.0) { LessTransitive(p.0, q.0, r.0); }
        else if p.0 == q.0 && q.0 == r.0 { LessTransitive(p.1, q.1, r.1); }
      }
      PairLessStrict(p, r);
    }
  }

  function Insert(p: Pair, ps: seq<Pair>): (r: seq<Pair>)
    ensures multiset(r) == multiset(ps) + multiset{p}
  {
    if ps == [] then [p]
    else if PairLess(ps[0], p) then
      assert ps == [ps[0]] + ps[1..];
      [ps[0]] + Insert(p, ps[1..])
    else [p] + ps
  }

  /** `sort_unstable` on pairs: the order is total, so stability cannot show. */
  function Sort(ps: seq<Pair>): (r: seq<Pair>)
    ensures multiset(r) == multiset(ps)
  {
    if ps == [] then []
    else
      assert ps == [ps[0]] + ps[1..];
      Insert(ps[0], Sort(ps[1..]))
  }

  lemma {:induction false} InsertSorted(p: Pair, ps: seq<Pair>)
    requires Sorted(ps)
    ensures Sorted(Insert(p, ps))
  {
    if ps != [] {
      var r := Insert(p, ps);
      if PairLess(ps[0], p) {
        InsertSorted(p, ps[1..]);
        var tail := Insert(p, ps[1..]);
        forall j | 0 <= j < |tail| ensures !PairLess(tail[j], ps[0]) {
          assert tail[j] in multiset(tail);
          PairLessStrict(ps[0], p);
        }
      } else {
        forall j | 0 <= j < |ps| ensures !PairLess(ps[j], p) {
          LessIrreflexive(ps[0].0);
          LessIrreflexive(ps[0].1);
          PairLeqTransitive(p, ps[0], ps[j]);
        }
      }
    }
  }

  lemma {:induction false} SortSorted(ps: seq<Pair>)
    ensures Sorted(Sort(ps))
  {
    if ps != [] {
      SortSorted(ps[1..]);
      InsertSorted(ps[0], Sort(ps[1..]));
    }
  }

  lemma FirstIsLeast(a: seq<Pair>, b: seq<Pair>)
    requires Sorted(a) && Sorted(b) && a != [] && b != [] && multiset(a) == multiset(b)
    ensures a[0] == b[0]
  {
    assert a[0] in multiset(b) && b[0] in multiset(a);
    var i :| 0 <= i < |b| && b[i] == a[0];
    var j :| 0 <= j < |a| && a[j] == b[0];
    PairLessTotal(a[0], b[0]);
  }

  lemma TailMultiset(a: seq<Pair>)
    requires a != []
    ensures multiset(a[1..]) == multiset(a) - multiset{a[0]}
  {
    assert a == [a[0]] + a[1..];
  }

  /** A sorted sequence is determined by its multiset. */
  lemma {:induction false} SortedUnique(a: seq<Pair>, b: seq<Pair>)
    requires Sorted(a) && Sorted(b) && multiset(a) == multiset(b)
    ensures a == b
  {
    if a == [] || b == [] {
      assert |multiset(a)| == |a| && |multiset(b)| == |b|;
    } else {
      FirstIsLeast(a, b);
      TailMultiset(a);
      TailMultiset(b);
      SortedUnique(a[1..], b[1..]);
      assert a == [a[0]] + a[1..] && b == [b[0]] + b[1..];
    }
  }

  lemma SortByMultiset(a: seq<Pair>, b: seq<Pair>)
    requires multiset(a) == multiset(b)
    ensures Sort(a) == Sort(b)
  {
    SortSorted(a);
    SortSorted(b);
    SortedUnique(Sort(a), Sort(b));
  }

  lemma {:induction false} DistinctCounts(a: seq<Pair>, p: Pair)
    requires DistinctNames(a)
    ensures multiset(a)[p] == if p in a then 1 else 0
  {
    if a != [] {
      assert a == [a[0]] + a[1..];
      DistinctCounts(a[1..], p);
      if p == a[0] { assert p !in a[1..]; }
    }
  }

  lemma SameMembersSameMultiset(a: seq<Pair>, b: seq<Pair>)
    requires DistinctNames(a) && DistinctNames(b)
    requires forall p: Pair :: p in a <==> p in b
    ensures multiset(a) == multiset(b)
  {
    forall p: Pair ensures multiset(a)[p] == multiset(b)[p] {
      DistinctCounts(a, p);
      DistinctCounts(b, p);
    }
  }

  lemma DistinctByMultiset(a: seq<Pair>, b: seq<Pair>)
    requires DistinctNames(a) && multiset(a) == multiset(b)
    ensures DistinctNames(b)
  {
    forall i, j | 0 <= i < j < |b| ensures b[i].0 != b[j].0 {
      assert b[i] in multiset(a) && b[j] in multiset(a);
      if b[i].0 == b[j].0 {
        var k :| 0 <= k < |a| && a[k] == b[i];
        var l :| 0 <= l < |a| && a[l] == b[j];
        assert b[i] == b[j];
        DistinctCounts(a, b[i]);
        TwiceCounted(b, i, j);
      }
    }
  }

  lemma TwiceCounted(b: seq<Pair>, i: nat, j: nat)
    requires i < j < |b| && b[i] == b[j]
    ensures multiset(b)[b[i]] >= 2
  {
    assert b == b[..i] + [b[i]] + b[i + 1..j] + [b[j]] + b[j + 1..];
  }

  // ---------------------------------------------------------------------
  // The normalized query
  // ---------------------------------------------------------------------

  function EncodePair(p: Pair): Pair { (Encode(p.0), Encode(p.1)) }

  function EncodeAll(ps: seq<Pair>): (r: seq<Pair>)
    ensures |r| == |ps|
    ensures forall i | 0 <= i < |r| :: r[i] == EncodePair(ps[i])
  {
    seq(|ps|, i requires 0 <= i < |ps| => EncodePair(ps[i]))
  }

  function PairText(p: Pair): Bytes { p.0 + ['='] + p.1 }

  function Texts(ps: seq<Pair>): (r: seq<Bytes>)
    ensures |r| == |ps|
    ensures forall i | 0 <= i < |r| :: r[i] == PairText(ps[i])
  {
    seq(|ps|, i requires 0 <= i < |ps| => PairText(ps[i]))
  }

  /** The canonical string of decoded parameters. */
  function Render(ps: seq<Pair>): Bytes { Join<Byte>(Texts(Sort(EncodeAll(ps))), '&') }

  function Normalized(query: Bytes): Result<Bytes, AuthError> {
    if Accepted(query) then Ok(Render(Decoded(Params(query)))) else Err(InvalidQueryString)
  }

  method ValidateQueryLimits(query: Bytes) returns (r: Result<(), AuthError>)
    ensures r.Ok? <==> WithinLimits(query)
  {
    if |query| > MAX_QUERY_BYTES || Count<Byte>(query, '&') >= MAX_QUERY_PARAMS {
      return Err(InvalidQueryString);
    }
    return Ok(());
  }

  function NameOf(param: Bytes): Bytes { PercentDecode(SplitOnce(param).0) }

  /** The decoded names, in wire order. */
  function Names(params: seq<Bytes>): (r: seq<Bytes>)
    ensures |r| == |params|
    ensures forall i | 0 <= i < |r| :: r[i] == NameOf(params[i])
  {
    seq(|params|, i requires 0 <= i < |params| => NameOf(params[i]))
  }

  predicate AllDistinct(names: seq<Bytes>) {
    forall i, j | 0 <= i < j < |names| :: names[i] != names[j]
  }

  predicate AllValid(names: seq<Bytes>) {
    forall i | 0 <= i < |names| :: ValidUtf8(names[i])
  }

  lemma UniqueNamesMeaning(params: seq<Bytes>)
    ensures AllValid(Names(params)) && AllDistinct(Names(params)) <==>
            NamesUtf8(Decoded(params)) && DistinctNames(Decoded(params))
  {}

  /** One decoded name against those already seen. */
  method CheckName(param: Bytes, seen: set<Bytes>) returns (isNew: bool, name: Bytes)
    ensures name == NameOf(param)
    ensures isNew <==> ValidUtf8(name) && name !in seen
  {
    name := PercentDecode(SplitOnce(param).0);
    isNew := ValidUtf8(name) && name !in seen;
  }

  /** The loop over the decoded names, with the set of names already seen. */
  method CheckNames(params: seq<Bytes>) returns (unique: bool)
    ensures unique <==> AllValid(Names(params)) && AllDistinct(Names(params))
  {
    ghost var all := Names(params);
    var seen: set<Bytes> := {};
    for i := 0 to |params|
      invariant forall k | 0 <= k < i :: ValidUtf8(all[k]) && all[k] in seen
      invariant forall n | n in seen :: exists k :: 0 <= k < i && all[k] == n
      invariant forall k, l | 0 <= k < l < i :: all[k] != all[l]
    {
      var ok, name := CheckName(params[i], seen);
      assert name == all[i];
      if !ok { return false; }
      seen := seen + {name};
    }
    return true;
  }

  method ValidateUniqueQueryNames(query: Bytes) returns (r: Result<(), AuthError>)
    ensures r.Ok? <==> WithinLimits(query) && AllValid(Names(Params(query))) && AllDistinct(Names(Params(query)))
  {
    var limits := ValidateQueryLimits(query);
    if limits.Err? { return limits; }
    var unique := CheckNames(Params(query));
    return if unique then Ok(()) else Err(InvalidQueryString);
  }

  method DecodeQueryComponent(component: Bytes) returns (r: Result<Bytes, AuthError>)
    ensures r == if ValidUtf8(PercentDecode(component)) then Ok(Encode(PercentDecode(component)))
                 else Err(InvalidQueryString)
  {
    var decoded := PercentDecode(component);
    if !ValidUtf8(decoded) { return Err(InvalidQueryString); }
    return Ok(Encode(decoded));
  }

  /** Decode, check and re-encode one parameter. */
  method EncodeParam(param: Bytes) returns (r: Result<Pair, AuthError>)
    ensures r == if PairUtf8(DecodePair(param)) then Ok(EncodePair(DecodePair(param))) else Err(InvalidQueryString)
  {
    var pair := SplitOnce(param);
    var name := DecodeQueryComponent(pair.0);
    if name.Err? { return Err(InvalidQueryString); }
    var value := DecodeQueryComponent(pair.1);
    if value.Err? { return Err(InvalidQueryString); }
    return Ok((name.value, value.value));
  }

  /** Every parameter in turn, in wire order. */
  method EncodeParams(wire: seq<Bytes>) returns (r: Result<seq<Pair>, AuthError>)
    ensures r == if AllUtf8(Decoded(wire)) then Ok(EncodeAll(Decoded(wire))) else Err(InvalidQueryString)
  {
    ghost var decoded := Decoded(wire);
    var params: seq<Pair> := [];
    for i := 0 to |wire|
      invariant |params| == i
      invariant forall k | 0 <= k < i :: params[k] == EncodePair(decoded[k])
      invariant forall k | 0 <= k < i :: PairUtf8(decoded[k])
    {
      var encoded := EncodeParam(wire[i]);
      assert decoded[i] == DecodePair(wire[i]);
      if encoded.Err? { return Err(InvalidQueryString); }
      params := params + [encoded.value];
    }
    assert params == EncodeAll(decoded);
    return Ok(params);
  }

  lemma EmptyQuery()
    ensures Params([]) == [] && Normalized([]) == Ok([])
  {}

  method BuildCanonicalQueryStringNormalized(query: Bytes) returns (r: Result<Bytes, AuthError>)
    ensures r == Normalized(query)
  {
    var unique := ValidateUniqueQueryNames(query);
    UniqueNamesMeaning(Params(query));
    if unique.Err? { return Err(InvalidQueryString); }
    if query == [] {
      EmptyQuery();
      return Ok([]);
    }
    var params := EncodeParams(Params(query));
    if params.Err? { return Err(InvalidQueryString); }
    return Ok(Join<Byte>(Texts(Sort(params.value)), '&'));
  }

  lemma {:induction false} NonEmptyConcat(a: seq<Bytes>, b: seq<Bytes>)
    ensures NonEmpty(a + b) == NonEmpty(a) + NonEmpty(b)
  {
    if a == [] {
      assert a + b == b;
    } else {
      assert (a + b)[1..] == a[1..] + b;
      NonEmptyConcat(a[1..], b);
    }
  }

  /** The parameters stand between the separators; empty ones do not count. */
  lemma ParamsBetween(p: Bytes, query: Bytes)
    requires '&' !in p
    ensures Params(p) == if p == [] then [] else [p]
    ensures Params(p + ['&'] + query) == Params(p) + Params(query)
  {
    SplitWhole<Byte>(p, '&');
    SplitHead<Byte>(p, query, '&');
    NonEmptyConcat([p], Split<Byte>(query, '&'));
  }

  /** The first '=' ends the name; without one the value is empty. */
  lemma {:induction false} FirstEquals(s: Bytes)
    ensures '=' !in SplitOnce(s).0
    ensures if '=' in s then s == SplitOnce(s).0 + ['='] + SplitOnce(s).1 else SplitOnce(s) == (s, [])
  {
    if s != [] && s[0] != '=' {
      FirstEquals(s[1..]);
      assert s == [s[0]] + s[1..];
    }
  }

  function NameAt(params: seq<Bytes>, i: nat): Bytes
    requires i < |params|
  {
    PercentDecode(SplitOnce(params[i]).0)
  }

  function ValueAt(params: seq<Bytes>, i: nat): Bytes
    requires i < |params|
  {
    PercentDecode(SplitOnce(params[i]).1)
  }

  /** Accepted are at most 64 KiB and 1023 separators, with every decoded name and value
      valid and no two names the same. */
  lemma AcceptedExact(query: Bytes)
    ensures var params := Params(query);
            Normalized(query).Ok? <==>
              && |query| <= 65536 && |Split<Byte>(query, '&')| <= 1024
              && (forall i | 0 <= i < |params| :: ValidUtf8(NameAt(params, i)) && ValidUtf8(ValueAt(params, i)))
              && (forall i, j | 0 <= i < j < |params| :: NameAt(params, i) != NameAt(params, j))
  {
    var params := Params(query);
    var ps := Decoded(params);
    SplitCount<Byte>(query, '&');
    assert forall i | 0 <= i < |params| :: ps[i] == (NameAt(params, i), ValueAt(params, i));
  }

  // ---------------------------------------------------------------------
  // Reading the canonical string back
  // ---------------------------------------------------------------------

  lemma {:induction false} SplitOnceAt(a: Bytes, b: Bytes)
    requires '=' !in a
    ensures SplitOnce(a + ['='] + b) == (a, b)
  {
    var s := a + ['='] + b;
    if a == [] {
      assert s[1..] == b;
    } else {
      assert s[1..] == a[1..] + ['='] + b;
      SplitOnceAt(a[1..], b);
      assert [a[0]] + a[1..] == a;
    }
  }

  lemma {:induction false} NonEmptyAll(parts: seq<Bytes>)
    requires forall i | 0 <= i < |parts| :: parts[i] != []
    ensures NonEmpty(parts) == parts
  {
    if parts != [] { NonEmptyAll(parts[1..]); assert [parts[0]] + parts[1..] == parts; }
  }

  lemma ParamsOfJoin(parts: seq<Bytes>)
    requires forall i | 0 <= i < |parts| :: parts[i] != [] && '&' !in parts[i]
    ensures Params(Join<Byte>(parts, '&')) == parts
  {
    if parts == [] {
      assert Split<Byte>([], '&') == [[]];
      assert NonEmpty([[]]) == NonEmpty([]);
    } else {
      SplitJoin<Byte>(parts, '&');
      NonEmptyAll(parts);
    }
  }

  lemma PairTextRoundTrip(p: Pair)
    ensures var t := PairText(EncodePair(p)); DecodePair(t) == p && t != [] && '&' !in t
  {
    EncodeAlphabet(p.0);
    EncodeAlphabet(p.1);
    SplitOnceAt(Encode(p.0), Encode(p.1));
    DecodeEncode(p.0);
    DecodeEncode(p.1);
  }

  lemma SortedOrigin(ps: seq<Pair>, i: nat) returns (k: nat)
    requires i < |ps|
    ensures |Sort(EncodeAll(ps))| == |ps|
    ensures k < |ps| && Sort(EncodeAll(ps))[i] == EncodePair(ps[k])
  {
    var e := EncodeAll(ps);
    assert |multiset(Sort(e))| == |multiset(e)|;
    assert Sort(e)[i] in multiset(e);
    k :| 0 <= k < |e| && e[k] == Sort(e)[i];
  }

  lemma CanonicalTexts(ps: seq<Pair>)
    ensures var sorted := Sort(EncodeAll(ps));
            && |sorted| == |ps|
            && Params(Render(ps)) == Texts(sorted)
            && forall i | 0 <= i < |sorted| ::
                 '&' !in Texts(sorted)[i] && EncodePair(DecodePair(Texts(sorted)[i])) == sorted[i]
                 && DecodePair(Texts(sorted)[i]) in ps
  {
    var sorted := Sort(EncodeAll(ps));
    assert |multiset(sorted)| == |multiset(EncodeAll(ps))|;
    var texts := Texts(sorted);
    forall i | 0 <= i < |sorted|
      ensures texts[i] != [] && '&' !in texts[i]
      ensures EncodePair(DecodePair(texts[i])) == sorted[i] && DecodePair(texts[i]) in ps
    {
      var k := SortedOrigin(ps, i);
      PairTextRoundTrip(ps[k]);
    }
    ParamsOfJoin(texts);
  }

  lemma Rendered(ps: seq<Pair>, p: Pair)
    requires p in ps
    ensures p in Decoded(Texts(Sort(EncodeAll(ps))))
  {
    var sorted := Sort(EncodeAll(ps));
    var k :| 0 <= k < |ps| && ps[k] == p;
    assert EncodeAll(ps)[k] in multiset(sorted);
    var i :| 0 <= i < |sorted| && sorted[i] == EncodePair(p);
    PairTextRoundTrip(p);
    assert Decoded(Texts(sorted))[i] == p;
  }

  /** The parameters of the canonical string are the original ones, encoded and sorted. */
  lemma ReadBack(ps: seq<Pair>)
    ensures var back := Decoded(Params(Render(ps)));
            && EncodeAll(back) == Sort(EncodeAll(ps))
            && forall p: Pair :: p in back <==> p in ps
  {
    var sorted := Sort(EncodeAll(ps));
    CanonicalTexts(ps);
    var back := Decoded(Texts(sorted));
    assert EncodeAll(back) == sorted;
    forall p: Pair | p in ps ensures p in back { Rendered(ps, p); }
  }

  lemma EncodeInjective(a: Bytes, b: Bytes)
    requires Encode(a) == Encode(b)
    ensures a == b
  {
    DecodeEncode(a);
    DecodeEncode(b);
  }

  lemma EncodeAllDistinct(ps: seq<Pair>)
    requires DistinctNames(ps)
    ensures DistinctNames(EncodeAll(ps))
  {
    forall i, j | 0 <= i < j < |ps| ensures EncodeAll(ps)[i].0 != EncodeAll(ps)[j].0 {
      if Encode(ps[i].0) == Encode(ps[j].0) { EncodeInjective(ps[i].0, ps[j].0); }
    }
  }

  lemma DistinctDecoded(ps: seq<Pair>, back: seq<Pair>)
    requires DistinctNames(ps) && DistinctNames(EncodeAll(back))
    ensures DistinctNames(back)
  {}

  lemma ReadBackDistinct(ps: seq<Pair>)
    requires DistinctNames(ps)
    ensures DistinctNames(Decoded(Params(Render(ps))))
    ensures Meaning(Decoded(Params(Render(ps)))) == Meaning(ps)
  {
    var back := Decoded(Params(Render(ps)));
    ReadBack(ps);
    EncodeAllDistinct(ps);
    DistinctByMultiset(EncodeAll(ps), Sort(EncodeAll(ps)));
    DistinctDecoded(ps, back);
    SameMembersSameMeaning(back, ps);
  }

  /** The canonical string of an accepted query has the meaning of the query. */
  lemma MeaningPreserved(query: Bytes)
    requires Normalized(query).Ok?
    ensures Meaning(Decoded(Params(Normalized(query).value))) == Meaning(Decoded(Params(query)))
  {
    ReadBackDistinct(Decoded(Params(query)));
  }

  lemma SameMeaningSameText(a: seq<Pair>, b: seq<Pair>)
    requires DistinctNames(a) && DistinctNames(b) && Meaning(a) == Meaning(b)
    ensures Render(a) == Render(b)
  {
    forall p: Pair ensures p in a <==> p in b {
      MeaningMembers(a, p.0, p.1);
      MeaningMembers(b, p.0, p.1);
    }
    EncodeAllDistinct(a);
    EncodeAllDistinct(b);
    var ea, eb := EncodeAll(a), EncodeAll(b);
    forall p: Pair | p in ea ensures p in eb {
      var i :| 0 <= i < |ea| && ea[i] == p;
      assert a[i] in b;
      var j :| 0 <= j < |b| && b[j] == a[i];
      assert eb[j] == p;
    }
    forall p: Pair | p in eb ensures p in ea {
      var i :| 0 <= i < |eb| && eb[i] == p;
      assert b[i] in a;
      var j :| 0 <= j < |a| && a[j] == b[i];
      assert ea[j] == p;
    }
    SameMembersSameMultiset(ea, eb);
    SortByMultiset(ea, eb);
  }

  /** No two accepted queries with different meanings share a canonical string,
      and queries with the same meaning do share it. */
  lemma CollisionFree(q1: Bytes, q2: Bytes)
    requires Normalized(q1).Ok? && Normalized(q2).Ok?
    ensures Normalized(q1) == Normalized(q2) <==>
            Meaning(Decoded(Params(q1))) == Meaning(Decoded(Params(q2)))
  {
    MeaningPreserved(q1);
    MeaningPreserved(q2);
    var a, b := Decoded(Params(q1)), Decoded(Params(q2));
    if Meaning(a) == Meaning(b) { SameMeaningSameText(a, b); }
  }

  /** Sorting does not change which value a first-match lookup finds. */
  lemma FirstMatchStable(query: Bytes, name: Bytes)
    requires Normalized(query).Ok?
    ensures FirstMatch(Decoded(Params(Normalized(query).value)), name) == FirstMatch(Decoded(Params(query)), name)
  {
    MeaningPreserved(query);
    MeaningIsFirstMatch(Decoded(Params(query)), name);
    MeaningIsFirstMatch(Decoded(Params(Normalized(query).value)), name);
  }

  // ---------------------------------------------------------------------
  // Stability: permutation and idempotence
  // ---------------------------------------------------------------------

  lemma RemoveAt<T>(s: seq<T>, i: nat)
    requires i < |s|
    ensures multiset(s) == multiset(s[..i] + s[i + 1..]) + multiset{s[i]}
  {
    assert s == s[..i] + [s[i]] + s[i + 1..];
  }

  lemma SameRest<T>(a: seq<T>, b: seq<T>, i: nat)
    requires a != [] && i < |b| && b[i] == a[0] && multiset(a) == multiset(b)
    ensures multiset(a[1..]) == multiset(b[..i] + b[i + 1..])
  {
    RemoveAt(a, 0);
    RemoveAt(b, i);
    assert a[..0] + a[1..] == a[1..];
    assert multiset(a[1..]) == multiset(a) - multiset{a[0]};
    assert multiset(b[..i] + b[i + 1..]) == multiset(b) - multiset{b[i]};
  }

  lemma {:induction false} DecodedMultiset(a: seq<Bytes>, b: seq<Bytes>)
    requires multiset(a) == multiset(b)
    ensures multiset(Decoded(a)) == multiset(Decoded(b))
  {
    if a == [] {
      assert |multiset(b)| == |b|;
    } else {
      assert a[0] in multiset(b);
      var i :| 0 <= i < |b| && b[i] == a[0];
      var rest := b[..i] + b[i + 1..];
      SameRest(a, b, i);
      DecodedMultiset(a[1..], rest);
      assert Decoded(a) == [DecodePair(a[0])] + Decoded(a[1..]);
      RemoveAt(Decoded(b), i);
      assert Decoded(b)[..i] + Decoded(b)[i + 1..] == Decoded(rest);
    }
  }

  lemma {:induction false} EncodedMultiset(a: seq<Pair>, b: seq<Pair>)
    requires multiset(a) == multiset(b)
    ensures multiset(EncodeAll(a)) == multiset(EncodeAll(b))
  {
    if a == [] {
      assert |multiset(b)| == |b|;
    } else {
      assert a[0] in multiset(b);
      var i :| 0 <= i < |b| && b[i] == a[0];
      var rest := b[..i] + b[i + 1..];
      SameRest(a, b, i);
      EncodedMultiset(a[1..], rest);
      assert EncodeAll(a) == [EncodePair(a[0])] + EncodeAll(a[1..]);
      RemoveAt(EncodeAll(b), i);
      assert EncodeAll(b)[..i] + EncodeAll(b)[i + 1..] == EncodeAll(rest);
    }
  }

  lemma AllUtf8ByMultiset(a: seq<Pair>, b: seq<Pair>)
    requires AllUtf8(a) && multiset(a) == multiset(b)
    ensures AllUtf8(b)
  {
    forall i | 0 <= i < |b| ensures PairUtf8(b[i]) {
      assert b[i] in multiset(a);
    }
  }

  /** Reordering the parameters changes neither acceptance nor the result. */
  lemma PermutationInvariant(q1: Bytes, q2: Bytes)
    requires WithinLimits(q1) && WithinLimits(q2)
    requires multiset(Params(q1)) == multiset(Params(q2))
    ensures Normalized(q1) == Normalized(q2)
  {
    var a, b := Decoded(Params(q1)), Decoded(Params(q2));
    DecodedMultiset(Params(q1), Params(q2));
    if Accepted(q1) { AllUtf8ByMultiset(a, b); DistinctByMultiset(a, b); }
    if Accepted(q2) { AllUtf8ByMultiset(b, a); DistinctByMultiset(b, a); }
    EncodedMultiset(a, b);
    SortByMultiset(EncodeAll(a), EncodeAll(b));
  }

  lemma ParamsBounded(query: Bytes)
    ensures |Params(query)| <= Count<Byte>(query, '&') + 1
  {
    SplitCount<Byte>(query, '&');
  }

  lemma JoinedCount(parts: seq<Bytes>)
    requires forall i | 0 <= i < |parts| :: '&' !in parts[i]
    ensures Count<Byte>(Join<Byte>(parts, '&'), '&') == if parts == [] then 0 else |parts| - 1
  {
    if parts != [] {
      SplitJoin<Byte>(parts, '&');
      SplitCount<Byte>(Join<Byte>(parts, '&'), '&');
    }
  }

  lemma RenderOfSorted(ps: seq<Pair>)
    ensures Render(Decoded(Params(Render(ps)))) == Render(ps)
  {
    ReadBack(ps);
    SortSorted(EncodeAll(ps));
    SortSorted(Sort(EncodeAll(ps)));
    SortedUnique(Sort(Sort(EncodeAll(ps))), Sort(EncodeAll(ps)));
  }

  /** A canonical string has no more separators than the query it came from. */
  lemma CanonicalCount(query: Bytes)
    requires WithinLimits(query)
    ensures Count<Byte>(Render(Decoded(Params(query))), '&') < MAX_QUERY_PARAMS
  {
    ParamsBounded(query);
    CanonicalTexts(Decoded(Params(query)));
    JoinedCount(Texts(Sort(EncodeAll(Decoded(Params(query))))));
  }

  lemma CanonicalDecodes(ps: seq<Pair>)
    requires AllUtf8(ps) && DistinctNames(ps)
    ensures AllUtf8(Decoded(Params(Render(ps)))) && DistinctNames(Decoded(Params(Render(ps))))
  {
    ReadBack(ps);
    ReadBackDistinct(ps);
    var back := Decoded(Params(Render(ps)));
    forall i | 0 <= i < |back| ensures PairUtf8(back[i]) {
      assert back[i] in ps;
    }
  }

  lemma PairUpper(p: Pair)
    ensures UpperEscapes(PairText(EncodePair(p)))
  {
    EncodeNormal(p.0);
    EncodeNormal(p.1);
    NormalUpper(Encode(p.0));
    NormalUpper(Encode(p.1));
    assert UpperEscapes(['=']);
    UpperConcat(Encode(p.0), ['=']);
    UpperConcat(Encode(p.0) + ['='], Encode(p.1));
  }

  /** In the normalized string every escape is upper-case. */
  lemma NormalizedUpper(query: Bytes)
    requires Normalized(query).Ok?
    ensures UpperEscapes(Normalized(query).value)
  {
    var ps := Decoded(Params(query));
    var texts := Texts(Sort(EncodeAll(ps)));
    CanonicalTexts(ps);
    forall i | 0 <= i < |texts| ensures UpperEscapes(texts[i]) {
      var k := SortedOrigin(ps, i);
      PairUpper(ps[k]);
    }
    UpperJoin(texts, '&');
  }

  /** Normalizing twice is normalizing once, exactly when the canonical string,
      which encoding may have lengthened, still fits the byte limit. */
  lemma NormalizedIdempotent(query: Bytes)
    requires Normalized(query).Ok?
    ensures Normalized(Normalized(query).value) == Normalized(query) <==> |Normalized(query).value| <= MAX_QUERY_BYTES
  {
    CanonicalCount(query);
    CanonicalDecodes(Decoded(Params(query)));
    RenderOfSorted(Decoded(Params(query)));
  }

  function Slashes(n: nat): Bytes { seq(n, _ => '/') }

  lemma {:induction false} SlashesCoded(n: nat)
    ensures PercentDecode(Slashes(n)) == Slashes(n) && ValidUtf8(Slashes(n))
    ensures |Encode(Slashes(n))| == 3 * n
    ensures Count<Byte>(Slashes(n), '&') == 0 && '&' !in Slashes(n)
  {
    if n > 0 {
      assert Slashes(n)[1..] == Slashes(n - 1);
      assert Slashes(n) == ['/'] + Slashes(n - 1);
      SlashesCoded(n - 1);
    }
  }

  lemma OneValue(value: Bytes)
    requires '&' !in value
    ensures Params(['='] + value) == [['='] + value]
    ensures Decoded([['='] + value]) == [([], PercentDecode(value))]
  {
    var query := ['='] + value;
    SplitOnceAt([], value);
    assert [] + ['='] + value == query;
    assert Join<Byte>([query], '&') == query;
    ParamsOfJoin([query]);
  }

  lemma RenderOne(p: Pair)
    ensures Render([p]) == PairText(EncodePair(p))
  {
    var e := EncodeAll([p]);
    assert e == [EncodePair(p)] && Sort(e[1..]) == [];
    assert Sort(e) == e;
    assert Texts(e) == [PairText(EncodePair(p))];
  }

  /** A query of one nameless value of n slashes is accepted, and its canonical string is
      about three times as long: beyond a third of the limit it is not accepted again. */
  lemma SlashesGrow(n: nat)
    requires n < MAX_QUERY_BYTES
    ensures Normalized(['='] + Slashes(n)).Ok? && |Normalized(['='] + Slashes(n)).value| == 1 + 3 * n
    ensures 1 + 3 * n > MAX_QUERY_BYTES ==> Normalized(Normalized(['='] + Slashes(n)).value).Err?
  {
    SlashesCoded(n);
    OneValue(Slashes(n));
    RenderOne(([], Slashes(n)));
    assert (['='] + Slashes(n))[1..] == Slashes(n);
  }

  // ---------------------------------------------------------------------
  // The raw form: names and values as they are on the wire
  // ---------------------------------------------------------------------

  function RawPairs(params: seq<Bytes>): (r: seq<Pair>)
    ensures |r| == |params|
    ensures forall i | 0 <= i < |r| :: r[i] == SplitOnce(params[i])
  {
    seq(|params|, i requires 0 <= i < |params| => SplitOnce(params[i]))
  }

  function RawCanonical(query: Bytes): Bytes {
    Join<Byte>(Texts(Sort(RawPairs(Params(query)))), '&')
  }

  method BuildCanonicalQueryString(query: Bytes) returns (r: Bytes)
    ensures r == RawCanonical(query)
  {
    if query == [] {
      EmptyQuery();
      assert RawPairs([]) == [];
      return [];
    }
    var wire := Params(query);
    var params: seq<Pair> := [];
    for i := 0 to |wire|
      invariant params == RawPairs(wire)[..i]
    {
      params := params + [SplitOnce(wire[i])];
    }
    assert params == RawPairs(wire);
    return Join<Byte>(Texts(Sort(params)), '&');
  }

  /** A pair as the wire can hold it. */
  predicate WirePair(p: Pair) {
    '=' !in p.0 && '&' !in p.0 && '&' !in p.1
  }

  lemma {:induction false} SplitOnceParts(s: Bytes)
    requires '&' !in s
    ensures WirePair(SplitOnce(s))
  {
    if s != [] && s[0] != '=' { SplitOnceParts(s[1..]); }
  }

  lemma ParamsWire(query: Bytes)
    ensures forall i | 0 <= i < |Params(query)| :: WirePair(RawPairs(Params(query))[i])
  {
    forall i | 0 <= i < |Params(query)| ensures WirePair(RawPairs(Params(query))[i]) {
      SplitOnceParts(Params(query)[i]);
    }
  }

  /** The pairs of the canonical string are the sorted pairs of the query. */
  lemma RawReadBack(query: Bytes)
    ensures RawPairs(Params(RawCanonical(query))) == Sort(RawPairs(Params(query)))
  {
    var ps := RawPairs(Params(query));
    var sorted := Sort(ps);
    var texts := Texts(sorted);
    ParamsWire(query);
    forall i | 0 <= i < |sorted| ensures texts[i] != [] && '&' !in texts[i] && SplitOnce(texts[i]) == sorted[i] {
      assert sorted[i] in multiset(ps);
      SplitOnceAt(sorted[i].0, sorted[i].1);
    }
    ParamsOfJoin(texts);
    assert RawPairs(texts) == sorted;
  }

  /** The parameters of the normalized string stand in strictly ascending byte order of
      their encoded names. */
  lemma NormalizedOrder(query: Bytes, i: nat, j: nat)
    requires Normalized(query).Ok? && i < j < |Params(Normalized(query).value)|
    ensures var params := Params(Normalized(query).value);
            Less(SplitOnce(params[i]).0, SplitOnce(params[j]).0)
  {
    var ps := Decoded(Params(query));
    var sorted := Sort(EncodeAll(ps));
    CanonicalTexts(ps);
    SortSorted(EncodeAll(ps));
    EncodeAllDistinct(ps);
    DistinctByMultiset(EncodeAll(ps), sorted);
    EncodedName(ps, i);
    EncodedName(ps, j);
    LessTotal(sorted[i].0, sorted[j].0);
  }

  lemma EncodedName(ps: seq<Pair>, i: nat)
    requires i < |ps|
    ensures |Sort(EncodeAll(ps))| == |ps| && |Texts(Sort(EncodeAll(ps)))| == |ps|
    ensures SplitOnce(Texts(Sort(EncodeAll(ps)))[i]) == Sort(EncodeAll(ps))[i]
  {
    var k := SortedOrigin(ps, i);
    EncodeAlphabet(ps[k].0);
    SplitOnceAt(Encode(ps[k].0), Encode(ps[k].1));
  }

  /** Two queries share the raw canonical string exactly when they hold the same
      pairs, equally often. */
  lemma RawCollisionFree(q1: Bytes, q2: Bytes)
    ensures RawCanonical(q1) == RawCanonical(q2) <==>
            multiset(RawPairs(Params(q1))) == multiset(RawPairs(Params(q2)))
  {
    RawReadBack(q1);
    RawReadBack(q2);
    if multiset(RawPairs(Params(q1))) == multiset(RawPairs(Params(q2))) {
      SortByMultiset(RawPairs(Params(q1)), RawPairs(Params(q2)));
    }
  }

  lemma RawIdempotent(query: Bytes)
    ensures RawCanonical(RawCanonical(query)) == RawCanonical(query)
  {
    RawReadBack(query);
    RawCollisionFree(RawCanonical(query), query);
  }

  // ---------------------------------------------------------------------
  // The canonical URI
  // ---------------------------------------------------------------------

  function EncodeSegment(segment: Bytes): Bytes { Encode(Lossy(PercentDecode(segment))) }

  function EncodeSegments(segments: seq<Bytes>): (r: seq<Bytes>)
    ensures |r| == |segments|
    ensures forall i | 0 <= i < |r| :: r[i] == EncodeSegment(segments[i])
  {
    seq(|segments|, i requires 0 <= i < |segments| => EncodeSegment(segments[i]))
  }

  function CanonicalUri(path: Bytes): Bytes {
    if path == [] || path == ['/'] then ['/'] else Join<Byte>(EncodeSegments(Split<Byte>(path, '/')), '/')
  }

  lemma SegmentStable(segment: Bytes)
    ensures EncodeSegment(EncodeSegment(segment)) == EncodeSegment(segment)
    ensures '/' !in EncodeSegment(segment)
    ensures EncodeSegment(segment) == [] <==> segment == []
  {
    var decoded := PercentDecode(segment);
    DecodeEncode(Lossy(decoded));
    LossyValid(decoded);
    LossyIdentity(Lossy(decoded));
    LossyNonempty(decoded);
    EncodeAlphabet(Lossy(decoded));
  }

  /** In the canonical URI every escape is upper-case. */
  lemma UriUpper(path: Bytes)
    ensures UpperEscapes(CanonicalUri(path))
  {
    var segments := Split<Byte>(path, '/');
    forall i | 0 <= i < |segments| ensures UpperEscapes(EncodeSegments(segments)[i]) {
      var decoded := Lossy(PercentDecode(segments[i]));
      EncodeNormal(decoded);
      NormalUpper(Encode(decoded));
    }
    UpperJoin(EncodeSegments(segments), '/');
  }

  lemma SlashFree(segments: seq<Bytes>)
    ensures forall i | 0 <= i < |segments| :: '/' !in EncodeSegments(segments)[i]
  {
    forall i | 0 <= i < |segments| ensures '/' !in EncodeSegments(segments)[i] { SegmentStable(segments[i]); }
  }

  lemma UriSegments(path: Bytes)
    requires path != []
    ensures Split<Byte>(CanonicalUri(path), '/') == EncodeSegments(Split<Byte>(path, '/'))
  {
    var segments := Split<Byte>(path, '/');
    if path == ['/'] {
      assert path[1..] == [];
      assert Split<Byte>(path[1..], '/') == [[]];
      assert segments == [[], []];
      assert EncodeSegments(segments) == segments;
    } else {
      SlashFree(segments);
      SplitJoin<Byte>(EncodeSegments(segments), '/');
    }
  }

  /** The canonical URI is its own canonical URI, and it keeps the number of
      segments except for the empty path, which gains one. */
  lemma UriStable(path: Bytes)
    ensures CanonicalUri(CanonicalUri(path)) == CanonicalUri(path)
    ensures |Split<Byte>(CanonicalUri(path), '/')| == |Split<Byte>(path, '/')| <==> path != []
  {
    var uri := CanonicalUri(path);
    if path == [] {
      assert ['/'][1..] == [] && Split<Byte>([], '/') == [[]];
    } else if path != ['/'] {
      UriSegments(path);
      var segments := Split<Byte>(path, '/');
      var once := EncodeSegments(segments);
      forall i | 0 <= i < |segments| ensures EncodeSegments(once)[i] == once[i] { SegmentStable(segments[i]); }
      assert EncodeSegments(once) == once;
    } else {
      UriSegments(path);
    }
  }

  function DecodeAll(segments: seq<Bytes>): (r: seq<Bytes>)
    ensures |r| == |segments|
    ensures forall i | 0 <= i < |r| :: r[i] == Lossy(PercentDecode(segments[i]))
  {
    seq(|segments|, i requires 0 <= i < |segments| => Lossy(PercentDecode(segments[i])))
  }

  /** The segments of a path, decoded; the empty path stands for "/". */
  function DecodedSegments(path: Bytes): seq<Bytes> {
    DecodeAll(Split<Byte>(if path == [] then ['/'] else path, '/'))
  }

  lemma SegmentsAgree(s: seq<Bytes>, t: seq<Bytes>)
    ensures EncodeSegments(s) == EncodeSegments(t) <==> DecodeAll(s) == DecodeAll(t)
  {
    if EncodeSegments(s) == EncodeSegments(t) {
      forall i | 0 <= i < |DecodeAll(s)| ensures DecodeAll(s)[i] == DecodeAll(t)[i] {
        assert EncodeSegments(s)[i] == EncodeSegments(t)[i];
        EncodeInjective(DecodeAll(s)[i], DecodeAll(t)[i]);
      }
      assert |DecodeAll(s)| == |EncodeSegments(s)| == |DecodeAll(t)|;
    }
    if DecodeAll(s) == DecodeAll(t) {
      forall i | 0 <= i < |EncodeSegments(s)| ensures EncodeSegments(s)[i] == EncodeSegments(t)[i] {
        assert DecodeAll(s)[i] == DecodeAll(t)[i];
      }
      assert |EncodeSegments(s)| == |DecodeAll(s)| == |EncodeSegments(t)|;
    }
  }

  lemma UriText(path: Bytes)
    requires path != []
    ensures CanonicalUri(path) == Join<Byte>(EncodeSegments(Split<Byte>(path, '/')), '/')
  {
    if path == ['/'] {
      UriSegments(path);
      assert path[1..] == [] && Split<Byte>(path[1..], '/') == [[]];
      assert EncodeSegments(Split<Byte>(path, '/')) == [[], []];
      var two: seq<Bytes> := [[], []];
      assert two[1..] == [[]] && Join<Byte>(two[1..], '/') == [];
    }
  }

  /** Two paths share the canonical URI exactly when they have the same decoded segments. */
  lemma UriCollisionFree(p1: Bytes, p2: Bytes)
    ensures CanonicalUri(p1) == CanonicalUri(p2) <==> DecodedSegments(p1) == DecodedSegments(p2)
  {
    var a, b := if p1 == [] then ['/'] else p1, if p2 == [] then ['/'] else p2;
    UriText(a);
    UriText(b);
    UriSegments(a);
    UriSegments(b);
    SegmentsAgree(Split<Byte>(a, '/'), Split<Byte>(b, '/'));
  }
}
