/** UTF-8 (RFC 3629, section 3): the encoder, the strict decoder, and the decoder that puts U+FFFD
    in place of each maximal subpart of an ill-formed sequence (Unicode Standard, section 3.9). */
module Utf8 {
  import opened Text

  type byte = b: int | 0 <= b < 256

  const REPLACEMENT: char := '\U{FFFD}'

  function EncodeChar(c: char): (b: seq<byte>)
    ensures 1 <= |b| <= 4
  {
    var v := c as int;
    if v < 0x80 then [v]
    else if v < 0x800 then [0xC0 + v / 64, 0x80 + v % 64]
    else if v < 0x10000 then [0xE0 + v / 4096, 0x80 + v / 64 % 64, 0x80 + v % 64]
    else [0xF0 + v / 262144, 0x80 + v / 4096 % 64, 0x80 + v / 64 % 64, 0x80 + v % 64]
  }

  function Encode(s: string): seq<byte> {
    if s == [] then [] else EncodeChar(s[0]) + Encode(s[1..])
  }

  /** What a decoder finds at the front of a byte string: a well-formed character, or the
      maximal subpart of an ill-formed sequence, either of them `len` bytes long. */
  datatype Unit = Valid(c: char, len: nat) | Bad(len: nat)

  predicate Continuation(b: byte) {
    0x80 <= b <= 0xBF
  }

  /** The second byte's range depends on the first: it shuts out overlong forms, surrogates
      and values above U+10FFFF. */
  predicate SecondByte(b0: byte, b1: byte) {
    (if b0 == 0xE0 then 0xA0 else if b0 == 0xF0 then 0x90 else 0x80) <= b1
    && b1 <= (if b0 == 0xED then 0x9F else if b0 == 0xF4 then 0x8F else 0xBF)
  }

  function NextUnit(b: seq<byte>): (u: Unit)
    requires b != []
    ensures 1 <= u.len <= |b|
  {
    var b0: int := b[0];
    if b0 < 0x80 then Valid(b0 as char, 1)
    else if b0 < 0xC2 || b0 > 0xF4 || |b| < 2 || !SecondByte(b0, b[1]) then Bad(1)
    else
      var b1: int := b[1];
      if b0 < 0xE0 then Valid(((b0 - 0xC0) * 64 + (b1 - 0x80)) as char, 2)
      else if |b| < 3 || !Continuation(b[2]) then Bad(2)
      else
        var b2: int := b[2];
        if b0 < 0xF0 then Valid(((b0 - 0xE0) * 4096 + (b1 - 0x80) * 64 + (b2 - 0x80)) as char, 3)
        else if |b| < 4 || !Continuation(b[3]) then Bad(3)
        else
          var b3: int := b[3];
          Valid(((b0 - 0xF0) * 262144 + (b1 - 0x80) * 4096 + (b2 - 0x80) * 64 + (b3 - 0x80)) as char, 4)
  }

  /** `bytes.decode("utf-8")`: None is the UnicodeDecodeError. */
  function DecodeStrict(b: seq<byte>): Option<string>
    decreases |b|
  {
    if b == [] then Some("")
    else
      var u := NextUnit(b);
      match u
      case Bad(_) => None
      case Valid(c, n) =>
        match DecodeStrict(b[n..])
        case None => None
        case Some(s) => Some([c] + s)
  }

  /** `bytes.decode("utf-8", errors="replace")`. */
  function DecodeReplace(b: seq<byte>): string
    decreases |b|
  {
    if b == [] then ""
    else
      var u := NextUnit(b);
      [if u.Valid? then u.c else REPLACEMENT] + DecodeReplace(b[u.len..])
  }

  // ---------- one character ----------

  lemma Base64Digits(v: nat)
    ensures v == v / 64 * 64 + v % 64
    ensures v / 64 == v / 4096 * 64 + v / 64 % 64
    ensures v / 4096 == v / 262144 * 64 + v / 4096 % 64
  {
    assert v / 64 / 64 == v / 4096;
    assert v / 4096 / 64 == v / 262144;
  }

  lemma NextUnitOfEncoding(c: char, tail: seq<byte>)
    ensures NextUnit(EncodeChar(c) + tail) == Valid(c, |EncodeChar(c)|)
  {
    var v, e := c as int, EncodeChar(c);
    var b := e + tail;
    assert forall i :: 0 <= i < |e| ==> b[i] == e[i];
    Base64Digits(v);
  }

  lemma EncodeTwo(b0: int, b1: int)
    requires 0xC2 <= b0 < 0xE0 && 0x80 <= b1 < 0xC0
    ensures EncodeChar(((b0 - 0xC0) * 64 + (b1 - 0x80)) as char) == [b0, b1]
  {
    Remainders(b0 - 0xC0, b1 - 0x80);
  }

  lemma EncodeThree(b0: int, b1: int, b2: int)
    requires 0xE0 <= b0 < 0xF0 && 0x80 <= b1 < 0xC0 && SecondByte(b0, b1) && 0x80 <= b2 < 0xC0
    ensures EncodeChar(((b0 - 0xE0) * 4096 + (b1 - 0x80) * 64 + (b2 - 0x80)) as char) == [b0, b1, b2]
  {
    Remainders((b0 - 0xE0) * 64 + (b1 - 0x80), b2 - 0x80);
    Remainders(b0 - 0xE0, b1 - 0x80);
    Base64Digits((b0 - 0xE0) * 4096 + (b1 - 0x80) * 64 + (b2 - 0x80));
  }

  lemma EncodeFour(b0: int, b1: int, b2: int, b3: int)
    requires 0xF0 <= b0 < 0xF5 && 0x80 <= b1 < 0xC0 && SecondByte(b0, b1)
    requires 0x80 <= b2 < 0xC0 && 0x80 <= b3 < 0xC0
    ensures EncodeChar(((b0 - 0xF0) * 262144 + (b1 - 0x80) * 4096 + (b2 - 0x80) * 64 + (b3 - 0x80)) as char)
            == [b0, b1, b2, b3]
  {
    Remainders((b0 - 0xF0) * 4096 + (b1 - 0x80) * 64 + (b2 - 0x80), b3 - 0x80);
    Remainders((b0 - 0xF0) * 64 + (b1 - 0x80), b2 - 0x80);
    Remainders(b0 - 0xF0, b1 - 0x80);
    Base64Digits((b0 - 0xF0) * 262144 + (b1 - 0x80) * 4096 + (b2 - 0x80) * 64 + (b3 - 0x80));
  }

  /** A well-formed unit is the encoding of the character it decodes to. */
  lemma ValidUnitIsEncoding(b: seq<byte>)
    requires b != [] && NextUnit(b).Valid?
    ensures EncodeChar(NextUnit(b).c) == b[..NextUnit(b).len]
  {
    var n := NextUnit(b).len;
    if n == 2 {
      EncodeTwo(b[0], b[1]);
    } else if n == 3 {
      EncodeThree(b[0], b[1], b[2]);
    } else if n == 4 {
      EncodeFour(b[0], b[1], b[2], b[3]);
    }
    hide EncodeChar;
  }

  lemma Remainders(high: int, low: int)
    requires 0 <= low < 64
    ensures (high * 64 + low) / 64 == high && (high * 64 + low) % 64 == low
  {
  }

  /** A character cut short is one maximal subpart: it becomes one U+FFFD, however much of it is left. */
  lemma TruncatedUnit(c: char, k: nat)
    requires 0 < k < |EncodeChar(c)|
    ensures NextUnit(EncodeChar(c)[..k]) == Bad(k)
  {
    NextUnitOfEncoding(c, []);
    assert EncodeChar(c) + [] == EncodeChar(c);
    var b := EncodeChar(c)[..k];
    assert forall i :: 0 <= i < k ==> b[i] == EncodeChar(c)[i];
  }

  /** A prefix of the bytes starts with the same unit, or with what is left of it. */
  lemma NextUnitOfPrefix(b: seq<byte>, k: nat)
    requires 0 < k <= |b|
    ensures NextUnit(b[..k]) == (if k < NextUnit(b).len then Bad(k) else NextUnit(b))
  {
    var p := b[..k];
    assert forall i :: 0 <= i < k ==> p[i] == b[i];
  }

  // ---------- whole strings ----------

  lemma {:induction false} EncodeConcat(s: string, t: string)
    ensures Encode(s + t) == Encode(s) + Encode(t)
  {
    hide EncodeChar;
    if s == [] {
      assert s + t == t;
    } else {
      var st := s + t;
      assert st[1..] == s[1..] + t;
      EncodeConcat(s[1..], t);
      assert Encode(st) == EncodeChar(s[0]) + (Encode(s[1..]) + Encode(t));
    }
  }

  lemma DecodeFirst(c: char, tail: seq<byte>)
    ensures DecodeReplace(EncodeChar(c) + tail) == [c] + DecodeReplace(tail)
    ensures DecodeStrict(EncodeChar(c) + tail) ==
            (if DecodeStrict(tail).None? then None else Some([c] + DecodeStrict(tail).value))
  {
    NextUnitOfEncoding(c, tail);
    hide EncodeChar, NextUnit;
    assert (EncodeChar(c) + tail)[|EncodeChar(c)|..] == tail;
  }

  lemma {:induction false} DecodeEncodeThen(s: string, tail: seq<byte>)
    ensures DecodeReplace(Encode(s) + tail) == s + DecodeReplace(tail)
  {
    hide EncodeChar, NextUnit;
    if s == [] {
      assert Encode(s) + tail == tail;
    } else {
      assert Encode(s) + tail == EncodeChar(s[0]) + (Encode(s[1..]) + tail);
      DecodeFirst(s[0], Encode(s[1..]) + tail);
      DecodeEncodeThen(s[1..], tail);
      assert s + DecodeReplace(tail) == [s[0]] + (s[1..] + DecodeReplace(tail));
    }
  }

  /** Both decoders invert the encoder. */
  lemma DecodeEncode(s: string)
    ensures DecodeReplace(Encode(s)) == s
    ensures DecodeStrict(Encode(s)) == Some(s)
  {
    DecodeEncodeThen(s, []);
    assert Encode(s) + [] == Encode(s);
    StrictEncode(s);
  }

  lemma {:induction false} StrictEncode(s: string)
    ensures DecodeStrict(Encode(s)) == Some(s)
  {
    hide EncodeChar, NextUnit;
    if s != [] {
      DecodeFirst(s[0], Encode(s[1..]));
      StrictEncode(s[1..]);
      assert s == [s[0]] + s[1..];
    }
  }

  /** The strict decoder accepts exactly the encodings, and then both decoders agree. */
  lemma {:induction false} StrictIffEncoding(b: seq<byte>, s: string)
    ensures DecodeStrict(b) == Some(s) <==> b == Encode(s)
    ensures DecodeStrict(b) == Some(s) ==> DecodeReplace(b) == s
    decreases |b|
  {
    hide EncodeChar, NextUnit;
    if b == Encode(s) {
      DecodeEncode(s);
    }
    if DecodeStrict(b) == Some(s) && b != [] {
      var u := NextUnit(b);
      ValidUnitIsEncoding(b);
      StrictIffEncoding(b[u.len..], s[1..]);
      assert b == b[..u.len] + b[u.len..];
    }
  }

  lemma EncodeInjective(s: string, t: string)
    requires Encode(s) == Encode(t)
    ensures s == t
  {
    DecodeEncode(s);
    DecodeEncode(t);
  }

  // ---------- cutting an encoding at any byte ----------

  /** How many characters of `s` it takes to cover `k` bytes of its encoding. */
  function CharsCovering(s: string, k: int): (m: nat)
    ensures m <= |s|
  {
    if k <= 0 || s == [] then 0 else 1 + CharsCovering(s[1..], k - |EncodeChar(s[0])|)
  }

  /** It is the least such number. */
  lemma {:induction false} CharsCoveringIsLeast(s: string, k: nat)
    requires k <= |Encode(s)|
    ensures var m := CharsCovering(s, k);
            k <= |Encode(s[..m])| && forall j :: 0 <= j < m ==> |Encode(s[..j])| < k
  {
    hide EncodeChar;
    var m := CharsCovering(s, k);
    if k > 0 {
      var w := |EncodeChar(s[0])|;
      if k > w {
        CharsCoveringIsLeast(s[1..], k - w);
      }
      assert s[..m][1..] == s[1..][..m - 1];
      forall j | 0 <= j < m
        ensures |Encode(s[..j])| < k
      {
        if j > 0 {
          assert s[..j][1..] == s[1..][..j - 1];
        }
      }
    }
  }

  lemma EncodeTake(s: string, m: nat)
    requires 0 < m <= |s|
    ensures Encode(s[..m]) == EncodeChar(s[0]) + Encode(s[1..][..m - 1])
    ensures s[..m] == [s[0]] + s[1..][..m - 1]
  {
    hide EncodeChar;
    assert s[..m][1..] == s[1..][..m - 1];
  }

  /** Decoding the first `k` bytes of an encoding gives back the characters that fit, and one U+FFFD
      for a last character that was cut. */
  lemma {:induction false} DecodeCut(s: string, k: nat)
    requires k <= |Encode(s)|
    ensures var m := CharsCovering(s, k);
            DecodeReplace(Encode(s)[..k]) ==
            (if |Encode(s[..m])| == k then s[..m] else s[..m - 1] + [REPLACEMENT])
  {
    hide EncodeChar, NextUnit;
    if k > 0 {
      var head, m := EncodeChar(s[0]), CharsCovering(s, k);
      EncodeTake(s, m);
      if k < |head| {
        TruncatedUnit(s[0], k);
        assert Encode(s)[..k] == head[..k] && head[..k][k..] == [];
        assert s[..m - 1] + [REPLACEMENT] == [REPLACEMENT];
      } else {
        var left := k - |head|;
        DecodeCut(s[1..], left);
        DecodeFirst(s[0], Encode(s[1..])[..left]);
        assert Encode(s)[..k] == head + Encode(s[1..])[..left];
        if |Encode(s[..m])| != k {
          EncodeTake(s, m - 1);
        }
      }
    }
  }

  // ---------- decoding a prefix of any byte string ----------

  /** Decoding a prefix of any bytes, valid or not, gives a prefix of the whole decoding, except that
      a unit cut in the middle shows as one U+FFFD at the end. */
  lemma {:induction false} DecodePrefix(b: seq<byte>, k: nat) returns (m: nat)
    requires k <= |b|
    ensures m <= |DecodeReplace(b)|
    ensures DecodeReplace(b[..k]) == DecodeReplace(b)[..m]
         || DecodeReplace(b[..k]) == DecodeReplace(b)[..m] + [REPLACEMENT]
    decreases k
  {
    hide NextUnit;
    m := 0;
    if k > 0 {
      var u := NextUnit(b);
      NextUnitOfPrefix(b, k);
      if k < u.len {
        assert b[..k][k..] == [];
      } else {
        assert b[..k][u.len..] == b[u.len..][..k - u.len];
        m := DecodePrefix(b[u.len..], k - u.len);
        m := m + 1;
      }
    }
  }
}
