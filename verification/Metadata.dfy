/** The bounded JSON reader of the GitHub Action: a scan of the raw text before it is
    parsed, and a worklist over the value after it.

    A JSON document is its concrete syntax: values with the white space and the
    escapes they are written with. The parser itself is a library; what it makes of
    such a document is written down here as a function. */
module Metadata {
  import opened Wrappers
  import Utf8

  type Point = n: nat | n < 0x110000

  type Text = seq<Point>

  const QUOTE: Point := 0x22
  const BACKSLASH: Point := 0x5C
  const COMMA: Point := 0x2C
  const COLON: Point := 0x3A
  const OPEN_LIST: Point := 0x5B
  const CLOSE_LIST: Point := 0x5D
  const OPEN_OBJECT: Point := 0x7B
  const CLOSE_OBJECT: Point := 0x7D
  const LETTER_U: Point := 0x75

  const MAX_DEPTH := 8
  const MAX_KEY := 256
  const MAX_MEMBERS := 4096

  datatype Error =
    | MemberPolicy | ByteBudget | StringBudget | DepthBudget | Shape | Refused | Encoding | MemberBudget

  function Utf8Length(c: Point): (n: nat)
    ensures 1 <= n <= 4
  {
    if c < 0x80 then 1 else if c < 0x800 then 2 else if c < 0x10000 then 3 else 4
  }

  function Utf8Size(s: Text): nat {
    if s == [] then 0 else Utf8Length(s[0]) + Utf8Size(s[1..])
  }

  // ---- The scan ----

  datatype Scan = Scan(depth: nat, quoted: bool, escaped: bool, size: nat)

  function ScanChar(s: Scan, c: Point, limit: nat): Result<Scan, Error> {
    if s.quoted then
      if c == QUOTE && !s.escaped then Ok(s.(quoted := false))
      else if s.size + Utf8Length(c) > limit then Err(StringBudget)
      else Ok(s.(size := s.size + Utf8Length(c), escaped := c == BACKSLASH && !s.escaped))
    else if c == QUOTE then Ok(s.(quoted := true, size := 0))
    else if c == OPEN_LIST || c == OPEN_OBJECT then
      if s.depth + 1 > MAX_DEPTH then Err(DepthBudget) else Ok(s.(depth := s.depth + 1))
    else if c == CLOSE_LIST || c == CLOSE_OBJECT then
      if s.depth == 0 then Err(Shape) else Ok(s.(depth := s.depth - 1))
    else Ok(s)
  }

  function ScanText(s: Scan, text: Text, limit: nat): (r: Result<Scan, Error>)
    ensures r.Err? ==> r.error in {StringBudget, DepthBudget, Shape}
    decreases |text|
  {
    if text == [] then Ok(s)
    else
      var next := ScanChar(s, text[0], limit);
      if next.Err? then next else ScanText(next.value, text[1..], limit)
  }

  const START := Scan(0, false, false, 0)

  /** What the scan says of a text. */
  function Scanned(text: Text, limit: nat): Result<(), Error> {
    var end := ScanText(START, text, limit);
    if end.Err? then Err(end.error)
    else if end.value.quoted || end.value.depth != 0 then Err(Shape)
    else Ok(())
  }

  method Prescan(text: Text, limit: nat) returns (r: Result<(), Error>)
    ensures r == Scanned(text, limit)
  {
    var depth: int, quoted, escaped, size: nat := 0, false, false, 0;
    for i := 0 to |text|
      invariant depth >= 0
      invariant ScanText(START, text, limit) == ScanText(Scan(depth, quoted, escaped, size), text[i..], limit)
    {
      var c := text[i];
      assert text[i..][0] == c && text[i..][1..] == text[i + 1..];
      if quoted {
        if c == QUOTE && !escaped {
          quoted := false;
        } else {
          size := size + Utf8Length(c);
          if size > limit { return Err(StringBudget); }
          escaped := c == BACKSLASH && !escaped;
        }
      } else if c == QUOTE {
        quoted, size := true, 0;
      } else if c == OPEN_LIST || c == OPEN_OBJECT {
        depth := depth + 1;
        if depth > MAX_DEPTH { return Err(DepthBudget); }
      } else if c == CLOSE_LIST || c == CLOSE_OBJECT {
        depth := depth - 1;
        if depth < 0 { return Err(Shape); }
      }
    }
    if quoted || depth != 0 { return Err(Shape); }
    return Ok(());
  }

  // ---- Documents ----

  /** A character of a string as it is written. */
  datatype Piece = Plain(c: Point) | Short(c: Point) | Unicode(h3: Point, h2: Point, h1: Point, h0: Point)

  type Body = seq<Piece>

  predicate Surrogate(c: Point) { 0xD800 <= c < 0xE000 }

  predicate HexDigit(c: Point) { 0x30 <= c <= 0x39 || 0x41 <= c <= 0x46 || 0x61 <= c <= 0x66 }

  function HexValue(c: Point): (v: nat)
    requires HexDigit(c)
    ensures v < 16
  {
    if c <= 0x39 then c - 0x30 else if c <= 0x46 then c - 0x37 else c - 0x57
  }

  /** What an escape of one letter stands for. */
  function ShortValue(c: Point): Option<Point> {
    if c == QUOTE || c == BACKSLASH || c == 0x2F then Some(c)
    else if c == 0x62 then Some(0x08)
    else if c == 0x66 then Some(0x0C)
    else if c == 0x6E then Some(0x0A)
    else if c == 0x72 then Some(0x0D)
    else if c == 0x74 then Some(0x09)
    else None
  }

  predicate ProperPiece(p: Piece) {
    match p
    case Plain(c) => c >= 0x20 && c != QUOTE && c != BACKSLASH && !Surrogate(c)
    case Short(c) => ShortValue(c).Some?
    case Unicode(a, b, c, d) => HexDigit(a) && HexDigit(b) && HexDigit(c) && HexDigit(d)
  }

  predicate ProperBody(body: Body) {
    forall i | 0 <= i < |body| :: ProperPiece(body[i])
  }

  function PieceText(p: Piece): Text {
    match p
    case Plain(c) => [c]
    case Short(c) => [BACKSLASH, c]
    case Unicode(a, b, c, d) => [BACKSLASH, LETTER_U, a, b, c, d]
  }

  function BodyText(body: Body): Text {
    if body == [] then [] else PieceText(body[0]) + BodyText(body[1..])
  }

  datatype Value =
    | Scalar(text: Text, finite: bool)
    | Quoted(body: Body)
    | Array(gap: Text, items: seq<Item>)
    | Object(gap: Text, members: seq<Member>)

  datatype Item = Item(before: Text, value: Value, after: Text)

  datatype Member = Member(before: Text, key: Body, beforeColon: Text, afterColon: Text, value: Value, after: Text)

  /** White space, and the characters of numbers and of `true`, `false` and `null`. */
  predicate Neutral(text: Text) {
    forall i | 0 <= i < |text| :: text[i] !in {QUOTE, OPEN_LIST, CLOSE_LIST, OPEN_OBJECT, CLOSE_OBJECT}
  }

  predicate White(text: Text) {
    forall i | 0 <= i < |text| :: text[i] == 0x20 || text[i] == 0x09 || text[i] == 0x0A || text[i] == 0x0D
  }

  predicate Proper(v: Value)
    decreases v, 1
  {
    match v
    case Scalar(text, _) => Neutral(text)
    case Quoted(body) => ProperBody(body)
    case Array(gap, items) => White(gap) && ProperItems(items)
    case Object(gap, members) => White(gap) && ProperMembers(members)
  }

  predicate ProperItems(items: seq<Item>)
    decreases items, 0
  {
    items == [] ||
    (White(items[0].before) && Proper(items[0].value) && White(items[0].after) && ProperItems(items[1..]))
  }

  predicate ProperMembers(members: seq<Member>)
    decreases members, 0
  {
    members == [] ||
    (var m := members[0];
     White(m.before) && ProperBody(m.key) && White(m.beforeColon) && White(m.afterColon) && Proper(m.value)
     && White(m.after)
     && ProperMembers(members[1..]))
  }

  function Separator(more: bool): Text { if more then [COMMA] else [] }

  function QuotedText(body: Body): Text { [QUOTE] + (BodyText(body) + [QUOTE]) }

  function ValueText(v: Value): Text
    decreases v, 1
  {
    match v
    case Scalar(text, _) => text
    case Quoted(body) => QuotedText(body)
    case Array(gap, items) => [OPEN_LIST] + (gap + (ItemsText(items) + [CLOSE_LIST]))
    case Object(gap, members) => [OPEN_OBJECT] + (gap + (MembersText(members) + [CLOSE_OBJECT]))
  }

  function ItemsText(items: seq<Item>): Text
    decreases items, 0
  {
    if items == [] then []
    else
      var item := items[0];
      item.before + (ValueText(item.value) + (item.after + Separator(|items| > 1) + ItemsText(items[1..])))
  }

  function MembersText(members: seq<Member>): Text
    decreases members, 0
  {
    if members == [] then []
    else
      var m := members[0];
      m.before + (QuotedText(m.key) + (m.beforeColon + [COLON] + m.afterColon
        + (ValueText(m.value) + (m.after + Separator(|members| > 1) + MembersText(members[1..])))))
  }

  // ---- Nesting and raw sizes ----

  function Max(a: nat, b: nat): nat { if a < b then b else a }

  function Nesting(v: Value): nat
    decreases v, 1
  {
    match v
    case Scalar(_, _) => 0
    case Quoted(_) => 0
    case Array(_, items) => 1 + NestingOfItems(items)
    case Object(_, members) => 1 + NestingOfMembers(members)
  }

  function NestingOfItems(items: seq<Item>): nat
    decreases items, 0
  {
    if items == [] then 0 else Max(Nesting(items[0].value), NestingOfItems(items[1..]))
  }

  function NestingOfMembers(members: seq<Member>): nat
    decreases members, 0
  {
    if members == [] then 0 else Max(Nesting(members[0].value), NestingOfMembers(members[1..]))
  }

  /** Every string, keys included, fits as it is written. */
  predicate BodiesFit(v: Value, limit: nat)
    decreases v, 1
  {
    match v
    case Scalar(_, _) => true
    case Quoted(body) => Utf8Size(BodyText(body)) <= limit
    case Array(_, items) => ItemBodiesFit(items, limit)
    case Object(_, members) => MemberBodiesFit(members, limit)
  }

  predicate ItemBodiesFit(items: seq<Item>, limit: nat)
    decreases items, 0
  {
    items == [] || (BodiesFit(items[0].value, limit) && ItemBodiesFit(items[1..], limit))
  }

  predicate MemberBodiesFit(members: seq<Member>, limit: nat)
    decreases members, 0
  {
    members == [] ||
    (Utf8Size(BodyText(members[0].key)) <= limit && BodiesFit(members[0].value, limit)
     && MemberBodiesFit(members[1..], limit))
  }

  // ---- Scanning a document ----

  lemma {:induction false} ScanConcat(s: Scan, a: Text, b: Text, limit: nat)
    ensures ScanText(s, a + b, limit) ==
            if ScanText(s, a, limit).Err? then ScanText(s, a, limit)
            else ScanText(ScanText(s, a, limit).value, b, limit)
    decreases |a|
  {
    if a == [] {
      assert a + b == b;
    } else {
      assert (a + b)[0] == a[0] && (a + b)[1..] == a[1..] + b;
      var next := ScanChar(s, a[0], limit);
      if next.Ok? { ScanConcat(next.value, a[1..], b, limit); }
    }
  }

  lemma {:induction false} ScanNeutral(s: Scan, text: Text, limit: nat)
    requires !s.quoted && Neutral(text)
    ensures ScanText(s, text, limit) == Ok(s)
  {
    if text != [] {
      assert text[0] in text;
      ScanNeutral(s, text[1..], limit);
    }
  }

  lemma {:induction false} SizeConcat(a: Text, b: Text)
    ensures Utf8Size(a + b) == Utf8Size(a) + Utf8Size(b)
  {
    if a == [] {
      assert a + b == b;
    } else {
      assert (a + b)[0] == a[0] && (a + b)[1..] == a[1..] + b;
      SizeConcat(a[1..], b);
    }
  }

  /** Inside a string, characters that are not quotes or escapes are counted. */
  lemma {:induction false} ScanInside(s: Scan, text: Text, limit: nat)
    requires s.quoted && !s.escaped && s.size <= limit
    requires forall i | 0 <= i < |text| :: text[i] != QUOTE && text[i] != BACKSLASH
    ensures ScanText(s, text, limit) ==
            if s.size + Utf8Size(text) <= limit then Ok(s.(size := s.size + Utf8Size(text))) else Err(StringBudget)
    decreases |text|
  {
    if text != [] && s.size + Utf8Length(text[0]) <= limit {
      ScanInside(s.(size := s.size + Utf8Length(text[0])), text[1..], limit);
    }
  }

  lemma ScanEscape(s: Scan, c: Point, limit: nat)
    requires s.quoted && !s.escaped && s.size <= limit && c < 0x80
    ensures ScanText(s, [BACKSLASH, c], limit) ==
            if s.size + 2 <= limit then Ok(s.(size := s.size + 2)) else Err(StringBudget)
  {
    var text: Text := [BACKSLASH, c];
    assert text[1..] == [c] && [c][1..] == [];
    if s.size + 1 <= limit {
      var next := s.(size := s.size + 1, escaped := true);
      assert ScanChar(s, BACKSLASH, limit) == Ok(next);
      var last := ScanChar(next, c, limit);
      assert ScanText(next, [c], limit) == if last.Err? then last else Ok(last.value);
    }
  }

  lemma ScanPiece(s: Scan, p: Piece, limit: nat)
    requires s.quoted && !s.escaped && s.size <= limit && ProperPiece(p)
    ensures ScanText(s, PieceText(p), limit) ==
            if s.size + Utf8Size(PieceText(p)) <= limit then Ok(s.(size := s.size + Utf8Size(PieceText(p))))
            else Err(StringBudget)
  {
    match p
    case Plain(c) =>
      ScanInside(s, [c], limit);
    case Short(c) =>
      ScanEscape(s, c, limit);
      SizeConcat([BACKSLASH], [c]);
    case Unicode(a, b, c, d) =>
      ScanEscape(s, LETTER_U, limit);
      assert PieceText(p) == [BACKSLASH, LETTER_U] + [a, b, c, d];
      ScanConcat(s, [BACKSLASH, LETTER_U], [a, b, c, d], limit);
      SizeConcat([BACKSLASH, LETTER_U], [a, b, c, d]);
      SizeConcat([BACKSLASH], [LETTER_U]);
      if s.size + 2 <= limit { ScanInside(s.(size := s.size + 2), [a, b, c, d], limit); }
  }

  lemma {:induction false} ScanBody(s: Scan, body: Body, limit: nat)
    requires s.quoted && !s.escaped && s.size <= limit && ProperBody(body)
    ensures ScanText(s, BodyText(body), limit) ==
            if s.size + Utf8Size(BodyText(body)) <= limit then Ok(s.(size := s.size + Utf8Size(BodyText(body))))
            else Err(StringBudget)
    decreases |body|
  {
    if body != [] {
      var first, rest := PieceText(body[0]), BodyText(body[1..]);
      ScanPiece(s, body[0], limit);
      ScanConcat(s, first, rest, limit);
      SizeConcat(first, rest);
      if s.size + Utf8Size(first) <= limit {
        ScanBody(s.(size := s.size + Utf8Size(first)), body[1..], limit);
      }
    }
  }

  /** Between values, at a depth. */
  predicate Idle(s: Scan, depth: nat) {
    s.depth == depth && !s.quoted && !s.escaped
  }

  /** The text is scanned through and leaves the scan idle at the same depth, or is refused:
      for its nesting only if it is too deep, for a string only if one is too long. */
  predicate Passes(s: Scan, text: Text, limit: nat, flat: bool, short: bool) {
    var end := ScanText(s, text, limit);
    if flat && short then end.Ok? && Idle(end.value, s.depth)
    else end.Err? && ((end.error == DepthBudget && !flat) || (end.error == StringBudget && !short))
  }

  lemma QuotedScanned(s: Scan, body: Body, limit: nat)
    requires Idle(s, s.depth) && ProperBody(body)
    ensures Passes(s, QuotedText(body), limit, true, Utf8Size(BodyText(body)) <= limit)
  {
    var inside := s.(quoted := true, size := 0);
    assert ScanText(s, [QUOTE], limit) == Ok(inside) by { assert [QUOTE][1..] == []; }
    ScanConcat(s, [QUOTE], BodyText(body) + [QUOTE], limit);
    ScanConcat(inside, BodyText(body), [QUOTE], limit);
    ScanBody(inside, body, limit);
    if Utf8Size(BodyText(body)) <= limit {
      var end := inside.(size := Utf8Size(BodyText(body)));
      assert ScanText(end, [QUOTE], limit) == Ok(end.(quoted := false)) by { assert [QUOTE][1..] == []; }
    }
  }

  lemma PassesConcat(s: Scan, a: Text, b: Text, limit: nat, flatA: bool, shortA: bool, flatB: bool, shortB: bool)
    requires Passes(s, a, limit, flatA, shortA)
    requires flatA && shortA ==> Passes(ScanText(s, a, limit).value, b, limit, flatB, shortB)
    ensures Passes(s, a + b, limit, flatA && flatB, shortA && shortB)
  {
    ScanConcat(s, a, b, limit);
  }

  lemma PassesNeutral(s: Scan, text: Text, limit: nat)
    requires Idle(s, s.depth) && Neutral(text)
    ensures Passes(s, text, limit, true, true) && ScanText(s, text, limit) == Ok(s)
  {}

  lemma WhiteNeutral(a: Text, b: Text, c: Text)
    requires White(a) && White(c) && (b == [] || b == [COMMA] || b == [COLON])
    ensures Neutral(a) && Neutral(a + b) && Neutral(a + b + c)
  {}

  /** An opening bracket, what is inside, and the closing one. */
  lemma BracketsScanned(s: Scan, open: Point, inner: Text, close: Point, limit: nat, flat: bool, short: bool)
    requires Idle(s, s.depth) && s.depth <= MAX_DEPTH
    requires (open == OPEN_LIST && close == CLOSE_LIST) || (open == OPEN_OBJECT && close == CLOSE_OBJECT)
    requires s.depth < MAX_DEPTH ==> Passes(s.(depth := s.depth + 1), inner, limit, flat, short)
    ensures Passes(s, [open] + (inner + [close]), limit, s.depth < MAX_DEPTH && flat, short)
  {
    ScanConcat(s, [open], inner + [close], limit);
    assert [open][1..] == [];
    if s.depth < MAX_DEPTH {
      var deeper := s.(depth := s.depth + 1);
      assert ScanText(s, [open], limit) == Ok(deeper);
      ScanConcat(deeper, inner, [close], limit);
      if flat && short {
        var end := ScanText(deeper, inner, limit).value;
        assert ScanText(end, [close], limit) == Ok(end.(depth := s.depth)) by { assert [close][1..] == []; }
      }
    } else {
      assert ScanText(s, [open], limit) == Err(DepthBudget);
    }
  }

  predicate Flat(v: Value, depth: nat) { depth + Nesting(v) <= MAX_DEPTH }

  predicate FlatItems(items: seq<Item>, depth: nat) { depth + NestingOfItems(items) <= MAX_DEPTH }

  predicate FlatMembers(members: seq<Member>, depth: nat) { depth + NestingOfMembers(members) <= MAX_DEPTH }

  lemma {:induction false} ValueScanned(s: Scan, v: Value, limit: nat)
    requires Idle(s, s.depth) && s.depth <= MAX_DEPTH && Proper(v)
    ensures Passes(s, ValueText(v), limit, Flat(v, s.depth), BodiesFit(v, limit))
    decreases v, 1
  {
    match v
    case Scalar(text, _) =>
      PassesNeutral(s, text, limit);
    case Quoted(body) =>
      QuotedScanned(s, body, limit);
    case Array(gap, items) =>
      var flat, short := FlatItems(items, s.depth + 1), ItemBodiesFit(items, limit);
      if s.depth < MAX_DEPTH {
        var deeper := s.(depth := s.depth + 1);
        WhiteNeutral(gap, [], []);
        PassesNeutral(deeper, gap, limit);
        ItemsScanned(deeper, items, limit);
        PassesConcat(deeper, gap, ItemsText(items), limit, true, true, flat, short);
      }
      assert gap + (ItemsText(items) + [CLOSE_LIST]) == gap + ItemsText(items) + [CLOSE_LIST];
      BracketsScanned(s, OPEN_LIST, gap + ItemsText(items), CLOSE_LIST, limit, flat, short);
    case Object(gap, members) =>
      var flat, short := FlatMembers(members, s.depth + 1), MemberBodiesFit(members, limit);
      if s.depth < MAX_DEPTH {
        var deeper := s.(depth := s.depth + 1);
        WhiteNeutral(gap, [], []);
        PassesNeutral(deeper, gap, limit);
        MembersScanned(deeper, members, limit);
        PassesConcat(deeper, gap, MembersText(members), limit, true, true, flat, short);
      }
      assert gap + (MembersText(members) + [CLOSE_OBJECT]) == gap + MembersText(members) + [CLOSE_OBJECT];
      BracketsScanned(s, OPEN_OBJECT, gap + MembersText(members), CLOSE_OBJECT, limit, flat, short);
  }

  lemma {:induction false} ItemsScanned(s: Scan, items: seq<Item>, limit: nat)
    requires Idle(s, s.depth) && s.depth <= MAX_DEPTH && ProperItems(items)
    ensures Passes(s, ItemsText(items), limit, FlatItems(items, s.depth), ItemBodiesFit(items, limit))
    decreases items, 0
  {
    if items != [] {
      var item := items[0];
      var flat, short := Flat(item.value, s.depth), BodiesFit(item.value, limit);
      var flatRest, shortRest := FlatItems(items[1..], s.depth), ItemBodiesFit(items[1..], limit);
      WhiteNeutral(item.before, [], []);
      PassesNeutral(s, item.before, limit);
      ValueScanned(s, item.value, limit);
      var gap := item.after + Separator(|items| > 1);
      var tail := gap + ItemsText(items[1..]);
      WhiteNeutral(item.after, Separator(|items| > 1), []);
      if flat && short {
        var next := ScanText(s, ValueText(item.value), limit).value;
        PassesNeutral(next, gap, limit);
        ItemsScanned(next, items[1..], limit);
        PassesConcat(next, gap, ItemsText(items[1..]), limit, true, true, flatRest, shortRest);
      }
      PassesConcat(s, ValueText(item.value), tail, limit, flat, short, flatRest, shortRest);
      PassesConcat(s, item.before, ValueText(item.value) + tail, limit, true, true, flat && flatRest,
                   short && shortRest);
    }
  }

  lemma {:induction false} MembersScanned(s: Scan, members: seq<Member>, limit: nat)
    requires Idle(s, s.depth) && s.depth <= MAX_DEPTH && ProperMembers(members)
    ensures Passes(s, MembersText(members), limit, FlatMembers(members, s.depth), MemberBodiesFit(members, limit))
    decreases members, 0
  {
    if members != [] {
      var m := members[0];
      var shortKey := Utf8Size(BodyText(m.key)) <= limit;
      var flat, short := Flat(m.value, s.depth), BodiesFit(m.value, limit);
      var flatRest, shortRest := FlatMembers(members[1..], s.depth), MemberBodiesFit(members[1..], limit);
      var colon, gap := m.beforeColon + [COLON] + m.afterColon, m.after + Separator(|members| > 1);
      var tail := gap + MembersText(members[1..]);
      WhiteNeutral(m.before, [], []);
      WhiteNeutral(m.beforeColon, [COLON], m.afterColon);
      WhiteNeutral(m.after, Separator(|members| > 1), []);
      PassesNeutral(s, m.before, limit);
      QuotedScanned(s, m.key, limit);
      if shortKey {
        var next := ScanText(s, QuotedText(m.key), limit).value;
        PassesNeutral(next, colon, limit);
        ValueScanned(next, m.value, limit);
        if flat && short {
          var last := ScanText(next, ValueText(m.value), limit).value;
          PassesNeutral(last, gap, limit);
          MembersScanned(last, members[1..], limit);
          PassesConcat(last, gap, MembersText(members[1..]), limit, true, true, flatRest, shortRest);
        }
        PassesConcat(next, ValueText(m.value), tail, limit, flat, short, flatRest, shortRest);
        PassesConcat(next, colon, ValueText(m.value) + tail, limit, true, true, flat && flatRest, short && shortRest);
      }
      PassesConcat(s, QuotedText(m.key), colon + (ValueText(m.value) + tail), limit, true, shortKey,
                   flat && flatRest, short && shortRest);
      PassesConcat(s, m.before, QuotedText(m.key) + (colon + (ValueText(m.value) + tail)), limit, true, true,
                   flat && flatRest, shortKey && short && shortRest);
    }
  }

  function DocumentText(before: Text, v: Value, after: Text): Text {
    before + (ValueText(v) + after)
  }

  /** The scan accepts a document exactly when it is nested no deeper than eight and
      every string fits as it is written; it refuses it for one of these that fails. */
  lemma ScanExact(before: Text, v: Value, after: Text, limit: nat)
    requires White(before) && Proper(v) && White(after)
    ensures var r := Scanned(DocumentText(before, v, after), limit);
            && (r.Ok? <==> Nesting(v) <= 8 && BodiesFit(v, limit))
            && (r.Err? ==> (r.error == DepthBudget && Nesting(v) > 8)
                           || (r.error == StringBudget && !BodiesFit(v, limit)))
  {
    WhiteNeutral(before, [], []);
    WhiteNeutral(after, [], []);
    PassesNeutral(START, before, limit);
    ValueScanned(START, v, limit);
    var flat, short := Flat(v, 0), BodiesFit(v, limit);
    if flat && short { PassesNeutral(ScanText(START, ValueText(v), limit).value, after, limit); }
    PassesConcat(START, ValueText(v), after, limit, flat, short, true, true);
    PassesConcat(START, before, ValueText(v) + after, limit, true, true, flat, short);
  }

  lemma {:induction false} ItemAt(items: seq<Item>, i: nat, limit: nat)
    requires i < |items|
    ensures Nesting(items[i].value) <= NestingOfItems(items)
    ensures ItemBodiesFit(items, limit) ==> BodiesFit(items[i].value, limit)
    decreases |items|
  {
    if i > 0 { ItemAt(items[1..], i - 1, limit); }
  }

  lemma {:induction false} MemberAt(members: seq<Member>, i: nat, limit: nat)
    requires i < |members|
    ensures Nesting(members[i].value) <= NestingOfMembers(members)
    ensures MemberBodiesFit(members, limit) ==>
              BodiesFit(members[i].value, limit) && Utf8Size(BodyText(members[i].key)) <= limit
    decreases |members|
  {
    if i > 0 { MemberAt(members[1..], i - 1, limit); }
  }

  /** What is in a list or an object lies deeper than that, and fits if the whole does. */
  lemma ItemInside(gap: Text, items: seq<Item>, i: nat, limit: nat)
    requires i < |items|
    ensures Nesting(items[i].value) < Nesting(Array(gap, items))
    ensures BodiesFit(Array(gap, items), limit) ==> BodiesFit(items[i].value, limit)
  {
    ItemAt(items, i, limit);
  }

  lemma MemberInside(gap: Text, members: seq<Member>, i: nat, limit: nat)
    requires i < |members|
    ensures Nesting(members[i].value) < Nesting(Object(gap, members))
    ensures BodiesFit(Object(gap, members), limit) ==>
              BodiesFit(members[i].value, limit) && Utf8Size(BodyText(members[i].key)) <= limit
  {
    MemberAt(members, i, limit);
  }

  // ---- What the parser makes of a document ----

  datatype Json = Other | Str(text: Text) | List(items: seq<Json>) | Dict(entries: seq<Entry>)

  datatype Entry = Entry(key: Text, value: Json)

  predicate High(c: Point) { 0xD800 <= c < 0xDC00 }

  predicate Low(c: Point) { 0xDC00 <= c < 0xE000 }

  function Unit(p: Piece): (c: Point)
    requires p.Unicode? && ProperPiece(p)
    ensures c < 0x10000
  {
    0x1000 * HexValue(p.h3) + 0x100 * HexValue(p.h2) + 0x10 * HexValue(p.h1) + HexValue(p.h0)
  }

  /** Two escapes that make a surrogate pair are one character; a lone surrogate
      stays. */
  function Decode(body: Body): Text
    requires ProperBody(body)
    decreases |body|
  {
    if body == [] then []
    else match body[0]
      case Plain(c) => [c] + Decode(body[1..])
      case Short(c) => [ShortValue(c).value] + Decode(body[1..])
      case Unicode(_, _, _, _) =>
        var u := Unit(body[0]);
        if High(u) && |body| > 1 && body[1].Unicode? && Low(Unit(body[1]))
        then [0x10000 + 0x400 * (u - 0xD800) + (Unit(body[1]) - 0xDC00)] + Decode(body[2..])
        else [u] + Decode(body[1..])
  }

  function Meaning(v: Value): Json
    requires Proper(v)
    decreases v, 1
  {
    match v
    case Scalar(_, _) => Other
    case Quoted(body) => Str(Decode(body))
    case Array(_, items) => List(ItemMeanings(items))
    case Object(_, members) => Dict(MemberMeanings(members))
  }

  function ItemMeanings(items: seq<Item>): seq<Json>
    requires ProperItems(items)
    decreases items, 0
  {
    if items == [] then [] else [Meaning(items[0].value)] + ItemMeanings(items[1..])
  }

  function MemberMeanings(members: seq<Member>): seq<Entry>
    requires ProperMembers(members)
    decreases members, 0
  {
    if members == [] then []
    else [Entry(Decode(members[0].key), Meaning(members[0].value))] + MemberMeanings(members[1..])
  }

  predicate Encodable(text: Text) {
    forall i | 0 <= i < |text| :: !Surrogate(text[i])
  }

  /** The hook on each object: keys are distinct, encodable and not too long. */
  predicate UniqueKeys(entries: seq<Entry>) {
    && (forall i, j | 0 <= i < j < |entries| :: entries[i].key != entries[j].key)
    && (forall i | 0 <= i < |entries| :: Encodable(entries[i].key) && Utf8Size(entries[i].key) <= MAX_KEY)
  }

  /** The hooks let every object pass, and every number is finite. */
  predicate Admitted(v: Value)
    requires Proper(v)
    decreases v, 1
  {
    match v
    case Scalar(_, finite) => finite
    case Quoted(_) => true
    case Array(_, items) => AdmittedItems(items)
    case Object(_, members) => UniqueKeys(MemberMeanings(members)) && AdmittedMembers(members)
  }

  predicate AdmittedItems(items: seq<Item>)
    requires ProperItems(items)
    decreases items, 0
  {
    items == [] || (Admitted(items[0].value) && AdmittedItems(items[1..]))
  }

  predicate AdmittedMembers(members: seq<Member>)
    requires ProperMembers(members)
    decreases members, 0
  {
    members == [] || (Admitted(members[0].value) && AdmittedMembers(members[1..]))
  }

  /** The code unit that four hex digits spell; the digits are given as numbers. */
  function Escape(a: nat, b: nat, c: nat, d: nat, upper: bool): (p: Piece)
    requires a < 16 && b < 16 && c < 16 && d < 16
  {
    Unicode(HexChar(a, upper), HexChar(b, upper), HexChar(c, upper), HexChar(d, upper))
  }

  function HexChar(v: nat, upper: bool): Point
    requires v < 16
  {
    if v < 10 then 0x30 + v else (if upper then 0x41 else 0x61) + (v - 10)
  }

  /** A character of the basic plane is read back from its escape, in either case. */
  lemma EscapeRead(c: Point, upper: bool)
    requires c < 0x10000
    ensures var p := Escape(c / 0x1000, c / 0x100 % 16, c / 16 % 16, c % 16, upper);
            ProperPiece(p) && Unit(p) == c && Decode([p]) == [c]
  {
    var p := Escape(c / 0x1000, c / 0x100 % 16, c / 16 % 16, c % 16, upper);
    HexDigits(c);
    assert Unit(p) == c;
    assert [p][1..] == [];
  }

  lemma HexDigits(c: nat)
    ensures c == 0x1000 * (c / 0x1000) + 0x100 * (c / 0x100 % 16) + 0x10 * (c / 16 % 16) + c % 16
  {
    assert c / 16 / 16 == c / 0x100 && c / 0x100 / 16 == c / 0x1000;
  }

  /** A character beyond it is read back from the escapes of its two surrogates. */
  lemma SurrogatePairRead(c: Point, p: Piece, q: Piece)
    requires c >= 0x10000 && p.Unicode? && q.Unicode? && ProperPiece(p) && ProperPiece(q)
    requires Unit(p) == 0xD800 + (c - 0x10000) / 0x400 && Unit(q) == 0xDC00 + (c - 0x10000) % 0x400
    ensures Decode([p, q]) == [c]
  {
    assert [p, q][2..] == [];
  }

  /** The escapes of one letter. */
  lemma ShortRead(c: Point)
    ensures ProperPiece(Short(c)) <==> c in {0x22, 0x5C, 0x2F, 0x62, 0x66, 0x6E, 0x72, 0x74}
    ensures ProperPiece(Short(c)) ==>
              Decode([Short(c)]) == [match c
                                     case 0x62 => 8
                                     case 0x74 => 9
                                     case 0x6E => 10
                                     case 0x66 => 12
                                     case 0x72 => 13
                                     case _ => c]
  {
    assert [Short(c)][1..] == [];
  }

  /** The sizes are those of UTF-8. */
  lemma LengthExact(c: Utf8.Scalar)
    ensures Utf8Length(c) == |Utf8.Utf8Bytes(c)|
  {}

  lemma {:induction false} MeaningAt(members: seq<Member>, i: nat)
    requires ProperMembers(members) && i < |members|
    ensures ProperBody(members[i].key) && Proper(members[i].value)
    ensures |MemberMeanings(members)| == |members|
    ensures MemberMeanings(members)[i] == Entry(Decode(members[i].key), Meaning(members[i].value))
    decreases |members|
  {
    MeaningCount(members);
    if i > 0 { MeaningAt(members[1..], i - 1); }
  }

  lemma {:induction false} MeaningCount(members: seq<Member>)
    requires ProperMembers(members)
    ensures |MemberMeanings(members)| == |members|
    decreases |members|
  {
    if members != [] { MeaningCount(members[1..]); }
  }

  /** What is admitted is admitted member by member. */
  lemma {:induction false} AdmittedAt(members: seq<Member>, i: nat)
    requires ProperMembers(members) && i < |members| && AdmittedMembers(members)
    ensures Proper(members[i].value) && Admitted(members[i].value)
    decreases |members|
  {
    if i > 0 { AdmittedAt(members[1..], i - 1); }
  }

  lemma {:induction false} AdmittedItem(items: seq<Item>, i: nat)
    requires ProperItems(items) && i < |items| && AdmittedItems(items)
    ensures Proper(items[i].value) && Admitted(items[i].value)
    decreases |items|
  {
    if i > 0 { AdmittedItem(items[1..], i - 1); }
  }

  function KeyOf(members: seq<Member>, i: nat): Text
    requires ProperMembers(members) && i < |members|
  {
    MeaningAt(members, i);
    Decode(members[i].key)
  }

  /** An object with two members of the same key is refused, however the keys are escaped,
      and so is one with a key that is too long. */
  lemma DuplicateRefused(gap: Text, members: seq<Member>, i: nat, j: nat)
    requires Proper(Object(gap, members)) && i < j < |members|
    requires KeyOf(members, i) == KeyOf(members, j)
    ensures !Admitted(Object(gap, members))
  {
    MeaningAt(members, i);
    MeaningAt(members, j);
  }

  lemma LongKeyRefused(gap: Text, members: seq<Member>, i: nat)
    requires Proper(Object(gap, members)) && i < |members|
    requires Utf8Size(KeyOf(members, i)) > 256
    ensures !Admitted(Object(gap, members))
  {
    MeaningAt(members, i);
  }

  // ---- The worklist ----

  function Values(entries: seq<Entry>): (values: seq<Json>)
    ensures |values| == |entries|
  {
    if entries == [] then [] else [entries[0].value] + Values(entries[1..])
  }

  /** The members of all arrays and objects, keys and nesting aside. */
  function Members(v: Json): nat
    decreases v, 1
  {
    match v
    case Other => 0
    case Str(_) => 0
    case List(items) => |items| + MembersOf(items)
    case Dict(entries) => |entries| + MembersOfEntries(entries)
  }

  function MembersOf(items: seq<Json>): nat
    decreases items, 0
  {
    if items == [] then 0 else Members(items[0]) + MembersOf(items[1..])
  }

  function MembersOfEntries(entries: seq<Entry>): nat
    decreases entries, 0
  {
    if entries == [] then 0 else Members(entries[0].value) + MembersOfEntries(entries[1..])
  }

  predicate TextFits(text: Text, limit: nat) {
    Encodable(text) && Utf8Size(text) <= limit
  }

  predicate StringsFit(v: Json, limit: nat)
    decreases v, 1
  {
    match v
    case Other => true
    case Str(text) => TextFits(text, limit)
    case List(items) => AllStringsFit(items, limit)
    case Dict(entries) => EntryStringsFit(entries, limit)
  }

  predicate AllStringsFit(items: seq<Json>, limit: nat)
    decreases items, 0
  {
    items == [] || (StringsFit(items[0], limit) && AllStringsFit(items[1..], limit))
  }

  predicate EntryStringsFit(entries: seq<Entry>, limit: nat)
    decreases entries, 0
  {
    entries == [] || (StringsFit(entries[0].value, limit) && EntryStringsFit(entries[1..], limit))
  }

  lemma {:induction false} EntriesAsValues(entries: seq<Entry>, limit: nat)
    ensures MembersOfEntries(entries) == MembersOf(Values(entries))
    ensures EntryStringsFit(entries, limit) <==> AllStringsFit(Values(entries), limit)
  {
    if entries != [] {
      EntriesAsValues(entries[1..], limit);
      assert Values(entries)[1..] == Values(entries[1..]);
    }
  }

  lemma {:induction false} PendingConcat(a: seq<Json>, b: seq<Json>, limit: nat)
    ensures MembersOf(a + b) == MembersOf(a) + MembersOf(b)
    ensures AllStringsFit(a + b, limit) <==> AllStringsFit(a, limit) && AllStringsFit(b, limit)
  {
    if a == [] {
      assert a + b == b;
    } else {
      assert (a + b)[1..] == a[1..] + b;
      PendingConcat(a[1..], b, limit);
    }
  }

  lemma PendingOne(v: Json, limit: nat)
    ensures MembersOf([v]) == Members(v)
    ensures AllStringsFit([v], limit) <==> StringsFit(v, limit)
  {}

  /** The worklist accepts a value exactly when all its strings fit and it has no more
      members than allowed, in whatever order it comes upon them. */
  method CheckMembers(value: Json, stringLimit: nat, memberLimit: nat) returns (r: Result<(), Error>)
    ensures r.Ok? <==> StringsFit(value, stringLimit) && Members(value) <= memberLimit
    ensures r.Err? ==> r.error in {Encoding, StringBudget, MemberBudget}
    ensures r == Err(MemberBudget) ==> Members(value) > memberLimit
    ensures r == Err(Encoding) || r == Err(StringBudget) ==> !StringsFit(value, stringLimit)
  {
    var pending, members := [value], 0;
    PendingOne(value, stringLimit);
    while pending != []
      invariant members <= memberLimit
      invariant members + MembersOf(pending) == Members(value)
      invariant AllStringsFit(pending, stringLimit) <==> StringsFit(value, stringLimit)
      decreases MembersOf(pending) + |pending|
    {
      var rest, current := pending[..|pending| - 1], pending[|pending| - 1];
      assert pending == rest + [current];
      PendingConcat(rest, [current], stringLimit);
      PendingOne(current, stringLimit);
      pending := rest;
      if current.Str? {
        if !Encodable(current.text) { return Err(Encoding); }
        if Utf8Size(current.text) > stringLimit { return Err(StringBudget); }
      }
      if current.List? || current.Dict? {
        var children := if current.List? then current.items else Values(current.entries);
        if current.Dict? { EntriesAsValues(current.entries, stringLimit); }
        members := members + |children|;
        if members > memberLimit { return Err(MemberBudget); }
        PendingConcat(rest, children, stringLimit);
        pending := rest + children;
      }
    }
    return Ok(());
  }

  // ---- Decoding never grows a string ----

  /** A string value takes no more bytes than it is written with, so the scan already
      bounds every value and only lone surrogates are left for the worklist. */
  lemma {:induction false} DecodedFits(body: Body)
    requires ProperBody(body)
    ensures Utf8Size(Decode(body)) <= Utf8Size(BodyText(body))
    decreases |body|
  {
    if body != [] {
      var first, rest := PieceText(body[0]), BodyText(body[1..]);
      SizeConcat(first, rest);
      PieceSize(body[0]);
      if body[0].Unicode? && High(Unit(body[0])) && |body| > 1 && body[1].Unicode? && Low(Unit(body[1])) {
        assert body[1..][1..] == body[2..];
        SizeConcat(PieceText(body[1]), BodyText(body[2..]));
        DecodedFits(body[2..]);
        SizeConcat([Decode(body)[0]], Decode(body[2..]));
      } else {
        DecodedFits(body[1..]);
        SizeConcat([Decode(body)[0]], Decode(body[1..]));
      }
    }
  }

  lemma PieceSize(p: Piece)
    requires ProperPiece(p)
    ensures p.Plain? ==> Utf8Size(PieceText(p)) == Utf8Length(p.c)
    ensures p.Short? ==> Utf8Size(PieceText(p)) >= 2 && Utf8Length(ShortValue(p.c).value) == 1
    ensures p.Unicode? ==> Utf8Size(PieceText(p)) >= 4
  {
    match p
    case Plain(c) => assert [c][1..] == [];
    case Short(c) => SizeConcat([BACKSLASH], [c]);
    case Unicode(a, b, c, d) =>
      assert PieceText(p) == [BACKSLASH, LETTER_U] + [a, b, c, d];
      SizeConcat([BACKSLASH, LETTER_U], [a, b, c, d]);
      SizeConcat([BACKSLASH], [LETTER_U]);
      SizeConcat([a], [b, c, d]);
      SizeConcat([b], [c, d]);
  }

  /** No string value holds a lone surrogate. */
  predicate NoSurrogates(v: Json)
    decreases v, 1
  {
    match v
    case Other => true
    case Str(text) => Encodable(text)
    case List(items) => AllNoSurrogates(items)
    case Dict(entries) => EntryNoSurrogates(entries)
  }

  predicate AllNoSurrogates(items: seq<Json>)
    decreases items, 0
  {
    items == [] || (NoSurrogates(items[0]) && AllNoSurrogates(items[1..]))
  }

  predicate EntryNoSurrogates(entries: seq<Entry>)
    decreases entries, 0
  {
    entries == [] || (NoSurrogates(entries[0].value) && EntryNoSurrogates(entries[1..]))
  }

  lemma {:induction false} ScannedValuesFit(v: Value, limit: nat)
    requires Proper(v) && BodiesFit(v, limit)
    ensures StringsFit(Meaning(v), limit) <==> NoSurrogates(Meaning(v))
    decreases v, 1
  {
    match v
    case Scalar(_, _) =>
    case Quoted(body) => DecodedFits(body);
    case Array(_, items) => ScannedItemsFit(items, limit);
    case Object(_, members) => ScannedMembersFit(members, limit);
  }

  lemma {:induction false} ScannedItemsFit(items: seq<Item>, limit: nat)
    requires ProperItems(items) && ItemBodiesFit(items, limit)
    ensures AllStringsFit(ItemMeanings(items), limit) <==> AllNoSurrogates(ItemMeanings(items))
    decreases items, 0
  {
    if items != [] {
      ScannedValuesFit(items[0].value, limit);
      ScannedItemsFit(items[1..], limit);
      assert ItemMeanings(items)[1..] == ItemMeanings(items[1..]);
    }
  }

  lemma {:induction false} ScannedMembersFit(members: seq<Member>, limit: nat)
    requires ProperMembers(members) && MemberBodiesFit(members, limit)
    ensures EntryStringsFit(MemberMeanings(members), limit) <==> EntryNoSurrogates(MemberMeanings(members))
    decreases members, 0
  {
    if members != [] {
      ScannedValuesFit(members[0].value, limit);
      ScannedMembersFit(members[1..], limit);
      assert MemberMeanings(members)[1..] == MemberMeanings(members[1..]);
    }
  }

  // ---- The whole reader ----

  /** A document, and the white space around it. */
  datatype Syntax = Syntax(before: Text, value: Value, after: Text)

  /** What the libraries make of the bytes: their text, if they are UTF-8, and the document
      that the text is, if the parser takes it. */
  datatype Input = Input(size: nat, text: Option<Text>, parsed: Option<Syntax>)

  /** The libraries decode and parse what is there. */
  predicate Sound(raw: Input) {
    && (raw.text.Some? ==> Utf8Size(raw.text.value) == raw.size)
    && (raw.parsed.Some? ==>
          var d := raw.parsed.value;
          && raw.text.Some? && White(d.before) && Proper(d.value) && White(d.after)
          && raw.text.value == DocumentText(d.before, d.value, d.after))
  }

  /** What the reader admits, told by the document and not by its text. */
  predicate Accepted(raw: Input, maximum: nat, stringLimit: nat, memberLimit: nat)
    requires Sound(raw)
  {
    && 1 <= memberLimit <= 4096 && raw.size <= maximum
    && raw.text.Some? && raw.parsed.Some?
    && var v := raw.parsed.value.value;
    && Nesting(v) <= 8 && BodiesFit(v, stringLimit)
    && Admitted(v)
    && NoSurrogates(Meaning(v)) && Members(Meaning(v)) <= memberLimit
  }

  method Document(raw: Input, maximum: nat, stringLimit: nat, memberLimit: nat) returns (r: Result<Json, Error>)
    requires Sound(raw)
    ensures r.Ok? <==> Accepted(raw, maximum, stringLimit, memberLimit)
    ensures r.Ok? ==> r.value == Meaning(raw.parsed.value.value)
    ensures r == Err(MemberPolicy) <==> !(1 <= memberLimit <= MAX_MEMBERS)
    ensures r == Err(ByteBudget) <==> 1 <= memberLimit <= MAX_MEMBERS && raw.size > maximum
    ensures 1 <= memberLimit <= MAX_MEMBERS && raw.size <= maximum && raw.text.None? ==> r == Err(Encoding)
    ensures raw.parsed.Some? && r.Err? && r.error !in {MemberPolicy, ByteBudget} ==>
              var v := raw.parsed.value.value;
              match r.error
              case DepthBudget => Nesting(v) > 8
              case StringBudget => !BodiesFit(v, stringLimit) || !NoSurrogates(Meaning(v))
              case Refused => !Admitted(v)
              case Encoding => !NoSurrogates(Meaning(v))
              case MemberBudget => Members(Meaning(v)) > memberLimit
              case _ => false
  {
    if !(1 <= memberLimit <= MAX_MEMBERS) { return Err(MemberPolicy); }
    if raw.size > maximum { return Err(ByteBudget); }
    if raw.text.None? { return Err(Encoding); }
    var scanned := Prescan(raw.text.value, stringLimit);
    if raw.parsed.Some? {
      var d := raw.parsed.value;
      ScanExact(d.before, d.value, d.after, stringLimit);
    }
    if scanned.Err? { return Err(scanned.error); }
    if raw.parsed.None? { return Err(Refused); }
    var v := raw.parsed.value.value;
    if !Admitted(v) { return Err(Refused); }
    ScannedValuesFit(v, stringLimit);
    var checked := CheckMembers(Meaning(v), stringLimit, memberLimit);
    if checked.Err? { return Err(checked.error); }
    return Ok(Meaning(v));
  }
}
