/** What the byte table of the UTF-8 check accepts: exactly the encodings of Unicode
    scalar values. */
module Utf8 {
  import opened Canonical

  /** A Unicode scalar value. */
  type Scalar = c: int | 0 <= c < 0x110000 && !(0xD800 <= c < 0xE000)

  function Cont(v: int): Byte
    requires 0 <= v < 64
  {
    (0x80 + v) as char
  }

  /** Section 3 of RFC 3629. */
  function Utf8Bytes(c: Scalar): Bytes {
    if c < 0x80 then [c as char]
    else if c < 0x800 then [(0xC0 + c / 64) as char, Cont(c % 64)]
    else if c < 0x10000 then [(0xE0 + c / 4096) as char, Cont(c / 64 % 64), Cont(c % 64)]
    else [(0xF0 + c / 262144) as char, Cont(c / 4096 % 64), Cont(c / 64 % 64), Cont(c % 64)]
  }

  function Utf8Text(cs: seq<Scalar>): Bytes {
    if cs == [] then [] else Utf8Bytes(cs[0]) + Utf8Text(cs[1..])
  }

  lemma TwoDigits64(c: nat)
    ensures c == c / 64 * 64 + c % 64
  {}

  lemma Quotients(c: nat)
    ensures c / 64 / 64 == c / 4096 && c / 4096 / 64 == c / 262144
  {}

  lemma Digits64(c: nat)
    ensures c == c / 4096 * 4096 + c / 64 % 64 * 64 + c % 64
  {
    Quotients(c);
    TwoDigits64(c);
    TwoDigits64(c / 64);
  }

  lemma Digits64Long(c: nat)
    ensures c == c / 262144 * 262144 + c / 4096 % 64 * 4096 + c / 64 % 64 * 64 + c % 64
  {
    Quotients(c);
    Digits64(c);
    TwoDigits64(c / 4096);
  }

  lemma BytesAreChunk(c: Scalar)
    ensures NextChunk(Utf8Bytes(c)) == Good(|Utf8Bytes(c)|)
  {
    if c < 0x80 {
    } else if c < 0x800 {
      TwoDigits64(c);
    } else if c < 0x10000 {
      Digits64(c);
    } else {
      Digits64Long(c);
    }
  }

  lemma Bytes3(a: int, b: int, d: int)
    requires 0 <= a < 16 && 0 <= b < 64 && 0 <= d < 64
    ensures var c := a * 4096 + b * 64 + d;
            c / 4096 == a && c / 64 % 64 == b && c % 64 == d
  {
    var c := a * 4096 + b * 64 + d;
    assert c / 64 == a * 64 + b;
  }

  lemma Bytes4(a: int, b: int, d: int, e: int)
    requires 0 <= a < 8 && 0 <= b < 64 && 0 <= d < 64 && 0 <= e < 64
    ensures var c := a * 262144 + b * 4096 + d * 64 + e;
            c / 262144 == a && c / 4096 % 64 == b && c / 64 % 64 == d && c % 64 == e
  {
    var c := a * 262144 + b * 4096 + d * 64 + e;
    assert c / 64 == a * 4096 + b * 64 + d;
    Bytes3(a, b, d);
    assert c / 4096 == a * 64 + b;
  }

  lemma ChunkIsBytes(s: Bytes) returns (c: Scalar)
    requires s != [] && NextChunk(s).Good?
    ensures Utf8Bytes(c) == s[..NextChunk(s).length]
  {
    var b := s[0] as int;
    if b < 0x80 {
      c := b;
    } else if b < 0xE0 {
      c := (b - 0xC0) * 64 + (s[1] as int - 0x80);
    } else if b < 0xF0 {
      Bytes3(b - 0xE0, s[1] as int - 0x80, s[2] as int - 0x80);
      c := (b - 0xE0) * 4096 + (s[1] as int - 0x80) * 64 + (s[2] as int - 0x80);
    } else {
      Bytes4(b - 0xF0, s[1] as int - 0x80, s[2] as int - 0x80, s[3] as int - 0x80);
      c := (b - 0xF0) * 262144 + (s[1] as int - 0x80) * 4096 + (s[2] as int - 0x80) * 64 + (s[3] as int - 0x80);
    }
  }

  lemma {:induction false} TextValid(cs: seq<Scalar>)
    ensures ValidUtf8(Utf8Text(cs))
  {
    if cs != [] {
      var head, tail := Utf8Bytes(cs[0]), Utf8Text(cs[1..]);
      TextValid(cs[1..]);
      BytesAreChunk(cs[0]);
      ChunkPrefix(head, tail);
      assert (head + tail)[|head|..] == tail;
    }
  }

  lemma {:induction false} ValidText(s: Bytes) returns (cs: seq<Scalar>)
    requires ValidUtf8(s)
    ensures Utf8Text(cs) == s
  {
    if s == [] {
      cs := [];
    } else {
      var n := NextChunk(s).length;
      var c := ChunkIsBytes(s);
      var rest := ValidText(s[n..]);
      cs := [c] + rest;
      assert cs[1..] == rest && s == s[..n] + s[n..];
    }
  }

  /** Valid are exactly the encodings of Unicode scalar values. */
  lemma ValidExact(s: Bytes)
    ensures ValidUtf8(s) <==> exists cs :: Utf8Text(cs) == s
  {
    if ValidUtf8(s) { var cs := ValidText(s); }
    if cs :| Utf8Text(cs) == s { TextValid(cs); }
  }

  predicate Starts(prefix: Bytes, c: Scalar) { prefix <= Utf8Bytes(c) }

  /** No character starts with more of an invalid text than is replaced at once. */
  lemma BadStops(s: Bytes, k: nat, c: Scalar)
    requires s != [] && NextChunk(s).Bad? && NextChunk(s).length < k <= |s|
    ensures !Starts(s[..k], c)
  {
    BytesAreChunk(c);
    assert forall i | 0 <= i < k :: s[..k][i] == s[i];
  }

  /** If more than one byte is replaced at once, some character starts with them. */
  lemma BadStarts(s: Bytes) returns (c: Scalar)
    requires s != [] && NextChunk(s).Bad? && NextChunk(s).length > 1
    ensures Starts(s[..NextChunk(s).length], c)
  {
    var b, d := s[0] as int, s[1] as int - 0x80;
    if b < 0xF0 {
      Bytes3(b - 0xE0, d, 0);
      c := (b - 0xE0) * 4096 + d * 64;
    } else {
      var e := if NextChunk(s).length == 3 then s[2] as int - 0x80 else 0;
      Bytes4(b - 0xF0, d, e, 0);
      c := (b - 0xF0) * 262144 + d * 4096 + e * 64;
    }
  }
}
