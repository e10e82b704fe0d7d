/** The two Unicode encoding forms the shim converts between: UTF-8 as defined
    in section 3 of RFC 3629 (with the byte ranges of section 4) and UTF-16 as
    defined in sections 2.1 and 2.2 of RFC 2781.

    Decoding is total: a unit that does not start a well-formed sequence is read
    as U+FFFD and skipped. This is a simple replacement policy of the model's
    own; the platform converters' policy may differ. Every round-trip property
    is stated for well-formed input only, where no replacement happens. */
module Unicode {

  newtype u8 = x: int | 0 <= x < 0x100
  newtype u16 = x: int | 0 <= x < 0x1_0000

  /** A Unicode scalar value: a code point that is not a surrogate. */
  type Scalar = c: int | 0 <= c < 0xD800 || 0xE000 <= c < 0x11_0000

  /** U+FFFD REPLACEMENT CHARACTER, read in place of an ill-formed unit. */
  const Replacement: Scalar := 0xFFFD

  /** One decoding step at the front of a sequence: the scalar read, the number
      of code units it spans, and whether those units were well formed. */
  datatype Step = Step(scalar: Scalar, len: nat, ok: bool)

  // ------------------------------------------------------------------ UTF-8

  /** The UTF-8 form of one scalar (RFC 3629, section 3): one to four bytes. */
  function EncodeScalar8(c: Scalar): seq<u8> {
    if c < 0x80 then
      [c as u8]
    else if c < 0x800 then
      [(0xC0 + c / 64) as u8, (0x80 + c % 64) as u8]
    else if c < 0x1_0000 then
      [(0xE0 + c / 4096) as u8, (0x80 + c / 64 % 64) as u8, (0x80 + c % 64) as u8]
    else
      [(0xF0 + c / 262144) as u8, (0x80 + c / 4096 % 64) as u8,
       (0x80 + c / 64 % 64) as u8, (0x80 + c % 64) as u8]
  }

  predicate IsCont(b: u8) {
    0x80 <= b < 0xC0
  }

  /** Lowest and highest second byte RFC 3629 (section 4) allows after lead byte b0;
      these exclude overlong forms, surrogates and values above U+10FFFF. */
  function SecondLow(b0: int): int {
    if b0 == 0xE0 then 0xA0 else if b0 == 0xF0 then 0x90 else 0x80
  }

  function SecondHigh(b0: int): int {
    if b0 == 0xED then 0x9F else if b0 == 0xF4 then 0x8F else 0xBF
  }

  predicate SecondOk(b0: int, b1: u8) {
    SecondLow(b0) <= b1 as int <= SecondHigh(b0)
  }

  /** Reads one UTF8-char (RFC 3629, section 4) from the front of s. */
  function Step8(s: seq<u8>): (r: Step)
    requires |s| > 0
    ensures 1 <= r.len <= |s|
  {
    var b0 := s[0] as int;
    if b0 < 0x80 then
      Step(b0, 1, true)
    else if 0xC2 <= b0 < 0xE0 && |s| >= 2 && IsCont(s[1]) then
      Step((b0 - 0xC0) * 64 + (s[1] as int - 0x80), 2, true)
    else if 0xE0 <= b0 < 0xF0 && |s| >= 3 && SecondOk(b0, s[1]) && IsCont(s[2]) then
      Step((b0 - 0xE0) * 4096 + (s[1] as int - 0x80) * 64 + (s[2] as int - 0x80), 3, true)
    else if 0xF0 <= b0 < 0xF5 && |s| >= 4 && SecondOk(b0, s[1]) && IsCont(s[2]) && IsCont(s[3]) then
      Step((b0 - 0xF0) * 262144 + (s[1] as int - 0x80) * 4096
           + (s[2] as int - 0x80) * 64 + (s[3] as int - 0x80), 4, true)
    else
      Step(Replacement, 1, false)
  }

  function Encode8(cs: seq<Scalar>): seq<u8> {
    if cs == [] then [] else EncodeScalar8(cs[0]) + Encode8(cs[1..])
  }

  function Decode8(s: seq<u8>): seq<Scalar>
    decreases |s|
  {
    if s == [] then [] else [Step8(s).scalar] + Decode8(s[Step8(s).len..])
  }

  /** s is a concatenation of well-formed UTF8-chars. */
  predicate WellFormed8(s: seq<u8>)
    decreases |s|
  {
    s == [] || (Step8(s).ok && WellFormed8(s[Step8(s).len..]))
  }

  // ----------------------------------------------------------------- UTF-16

  /** The UTF-16 form of one scalar (RFC 2781, section 2.1): the scalar itself
      below U+10000, otherwise a high surrogate carrying the upper ten bits of
      U - 0x10000 followed by a low surrogate carrying the lower ten. */
  function EncodeScalar16(c: Scalar): seq<u16> {
    if c < 0x1_0000 then
      [c as u16]
    else
      [(0xD800 + (c - 0x1_0000) / 0x400) as u16, (0xDC00 + (c - 0x1_0000) % 0x400) as u16]
  }

  /** Reads one character from the front of w (RFC 2781, section 2.2). */
  function Step16(w: seq<u16>): (r: Step)
    requires |w| > 0
    ensures 1 <= r.len <= |w|
  {
    var w0 := w[0] as int;
    if w0 < 0xD800 || 0xE000 <= w0 then
      Step(w0, 1, true)
    else if w0 < 0xDC00 && |w| >= 2 && 0xDC00 <= w[1] as int < 0xE000 then
      Step(0x1_0000 + (w0 - 0xD800) * 0x400 + (w[1] as int - 0xDC00), 2, true)
    else
      Step(Replacement, 1, false)
  }

  function Encode16(cs: seq<Scalar>): seq<u16> {
    if cs == [] then [] else EncodeScalar16(cs[0]) + Encode16(cs[1..])
  }

  function Decode16(w: seq<u16>): seq<Scalar>
    decreases |w|
  {
    if w == [] then [] else [Step16(w).scalar] + Decode16(w[Step16(w).len..])
  }

  /** w has no unpaired surrogate. */
  predicate WellFormed16(w: seq<u16>)
    decreases |w|
  {
    w == [] || (Step16(w).ok && WellFormed16(w[Step16(w).len..]))
  }

  // ------------------------------------------------------------ transcoding

  /** What MultiByteToWideChar(CP_UTF8, 0, ...) makes of a run of bytes. */
  function Utf8ToUtf16(s: seq<u8>): seq<u16> {
    Encode16(Decode8(s))
  }

  /** What WideCharToMultiByte(CP_UTF8, 0, ...) makes of a run of wide units. */
  function Utf16ToUtf8(w: seq<u16>): seq<u8> {
    Encode8(Decode16(w))
  }

  // ------------------------------------------------------- one-step lemmas

  lemma DivMod64(hi: int, lo: int)
    requires 0 <= lo < 64
    ensures (hi * 64 + lo) / 64 == hi && (hi * 64 + lo) % 64 == lo
  {
  }

  lemma DivMod1024(hi: int, lo: int)
    requires 0 <= lo < 0x400
    ensures (hi * 0x400 + lo) / 0x400 == hi && (hi * 0x400 + lo) % 0x400 == lo
  {
  }

  /** Decoding the front of an encoded scalar gives back that scalar, whatever follows. */
  lemma Step8OfEncoding(c: Scalar, rest: seq<u8>)
    ensures Step8(EncodeScalar8(c) + rest) == Step(c, |EncodeScalar8(c)|, true)
  {
    if c < 0x80 {
      assert (EncodeScalar8(c) + rest)[0] as int == c;
    } else if c < 0x800 {
      Step8OfEncoding2(c, rest);
    } else if c < 0x1_0000 {
      Step8OfEncoding3(c, rest);
    } else {
      Step8OfEncoding4(c, rest);
    }
  }

  lemma Step8OfEncoding2(c: Scalar, rest: seq<u8>)
    requires 0x80 <= c < 0x800
    ensures Step8(EncodeScalar8(c) + rest) == Step(c, 2, true)
  {
    var s := EncodeScalar8(c) + rest;
    var q1, r0 := c / 64, c % 64;
    DivMod64(q1, r0);
    assert s[0] as int == 0xC0 + q1 && s[1] as int == 0x80 + r0;
  }

  lemma Step8OfEncoding3(c: Scalar, rest: seq<u8>)
    requires 0x800 <= c < 0x1_0000
    ensures Step8(EncodeScalar8(c) + rest) == Step(c, 3, true)
  {
    var s := EncodeScalar8(c) + rest;
    var q1, r0 := c / 64, c % 64;
    var q2, r1 := q1 / 64, q1 % 64;
    DivMod64(q1, r0);
    DivMod64(q2, r1);
    assert c / 4096 == q2;
    assert s[0] as int == 0xE0 + q2 && s[1] as int == 0x80 + r1 && s[2] as int == 0x80 + r0;
    assert (s[0] as int - 0xE0) * 4096 + (s[1] as int - 0x80) * 64 + (s[2] as int - 0x80) == c;
  }

  lemma Step8OfEncoding4(c: Scalar, rest: seq<u8>)
    requires 0x1_0000 <= c
    ensures Step8(EncodeScalar8(c) + rest) == Step(c, 4, true)
  {
    var s := EncodeScalar8(c) + rest;
    var q1, r0 := c / 64, c % 64;
    var q2, r1 := q1 / 64, q1 % 64;
    var q3, r2 := q2 / 64, q2 % 64;
    DivMod64(q1, r0);
    DivMod64(q2, r1);
    DivMod64(q3, r2);
    assert c / 4096 == q2 && c / 262144 == q3;
    assert s[0] as int == 0xF0 + q3 && s[1] as int == 0x80 + r2;
    assert s[2] as int == 0x80 + r1 && s[3] as int == 0x80 + r0;
    assert (s[0] as int - 0xF0) * 262144 + (s[1] as int - 0x80) * 4096
           + (s[2] as int - 0x80) * 64 + (s[3] as int - 0x80) == c;
  }

  /** A well-formed step spans exactly the encoding of the scalar it reads. */
  lemma EncodingOfStep8(s: seq<u8>)
    requires |s| > 0 && Step8(s).ok
    ensures s[..Step8(s).len] == EncodeScalar8(Step8(s).scalar)
  {
    var len := Step8(s).len;
    if s[0] < 0x80 {
    } else if len == 2 {
      EncodingOfStep8Two(s);
    } else if len == 3 {
      EncodingOfStep8Three(s);
    } else {
      EncodingOfStep8Four(s);
    }
  }

  lemma EncodingOfStep8Two(s: seq<u8>)
    requires |s| > 0 && Step8(s).ok && Step8(s).len == 2
    ensures s[..2] == EncodeScalar8(Step8(s).scalar)
  {
    var hi, lo := s[0] as int - 0xC0, s[1] as int - 0x80;
    DivMod64(hi, lo);
  }

  lemma EncodingOfStep8Three(s: seq<u8>)
    requires |s| > 0 && Step8(s).ok && Step8(s).len == 3
    ensures s[..3] == EncodeScalar8(Step8(s).scalar)
  {
    var c := Step8(s).scalar;
    var b0, b1, b2 := s[0] as int - 0xE0, s[1] as int - 0x80, s[2] as int - 0x80;
    var q1 := b0 * 64 + b1;
    DivMod64(q1, b2);
    DivMod64(b0, b1);
    assert c / 64 == q1;
    assert c / 4096 == b0;
  }

  lemma EncodingOfStep8Four(s: seq<u8>)
    requires |s| > 0 && Step8(s).ok && Step8(s).len == 4
    ensures s[..4] == EncodeScalar8(Step8(s).scalar)
  {
    var c := Step8(s).scalar;
    var b0, b1 := s[0] as int - 0xF0, s[1] as int - 0x80;
    var b2, b3 := s[2] as int - 0x80, s[3] as int - 0x80;
    var q2 := b0 * 64 + b1;
    var q1 := q2 * 64 + b2;
    DivMod64(q1, b3);
    DivMod64(q2, b2);
    DivMod64(b0, b1);
    assert c / 64 == q1;
    assert c / 4096 == q2;
    assert c / 262144 == b0;
  }

  lemma Step16OfEncoding(c: Scalar, rest: seq<u16>)
    ensures Step16(EncodeScalar16(c) + rest) == Step(c, |EncodeScalar16(c)|, true)
  {
    if c >= 0x1_0000 {
      DivMod1024((c - 0x1_0000) / 0x400, (c - 0x1_0000) % 0x400);
    }
  }

  lemma EncodingOfStep16(w: seq<u16>)
    requires |w| > 0 && Step16(w).ok
    ensures w[..Step16(w).len] == EncodeScalar16(Step16(w).scalar)
  {
    if Step16(w).len == 2 {
      DivMod1024(w[0] as int - 0xD800, w[1] as int - 0xDC00);
    }
  }

  // --------------------------------------------------- round-trip lemmas

  lemma Encode8Cons(c: Scalar, cs: seq<Scalar>)
    ensures Encode8([c] + cs) == EncodeScalar8(c) + Encode8(cs)
  {
    assert ([c] + cs)[1..] == cs;
  }

  /** Decoding the UTF-8 form of any scalar sequence gives it back, and that
      form is well formed. */
  lemma {:induction false} Decode8OfEncode8(cs: seq<Scalar>)
    ensures WellFormed8(Encode8(cs)) && Decode8(Encode8(cs)) == cs
  {
    if cs != [] {
      var tail := Encode8(cs[1..]);
      Step8OfEncoding(cs[0], tail);
      assert (EncodeScalar8(cs[0]) + tail)[|EncodeScalar8(cs[0])|..] == tail;
      Decode8OfEncode8(cs[1..]);
    }
  }

  /** Well-formed UTF-8 is the encoding of what it decodes to. */
  lemma {:induction false} Encode8OfDecode8(s: seq<u8>)
    requires WellFormed8(s)
    ensures Encode8(Decode8(s)) == s
    decreases |s|
  {
    if s != [] {
      var st := Step8(s);
      var tail := s[st.len..];
      calc {
        Encode8(Decode8(s));
        Encode8([st.scalar] + Decode8(tail));
        { Encode8Cons(st.scalar, Decode8(tail)); }
        EncodeScalar8(st.scalar) + Encode8(Decode8(tail));
        { EncodingOfStep8(s); Encode8OfDecode8(tail); }
        s[..st.len] + tail;
        s;
      }
    }
  }

  /** Both directions: a byte sequence is well-formed UTF-8 exactly when it is
      the encoding of some scalar sequence. */
  lemma WellFormed8Iff(s: seq<u8>)
    ensures WellFormed8(s) <==> exists cs :: Encode8(cs) == s
  {
    if WellFormed8(s) {
      Encode8OfDecode8(s);
    }
    if cs :| Encode8(cs) == s {
      Decode8OfEncode8(cs);
    }
  }

  lemma {:induction false} Decode16OfEncode16(cs: seq<Scalar>)
    ensures WellFormed16(Encode16(cs)) && Decode16(Encode16(cs)) == cs
  {
    if cs != [] {
      var tail := Encode16(cs[1..]);
      Step16OfEncoding(cs[0], tail);
      assert (EncodeScalar16(cs[0]) + tail)[|EncodeScalar16(cs[0])|..] == tail;
      Decode16OfEncode16(cs[1..]);
    }
  }

  lemma {:induction false} Encode16OfDecode16(w: seq<u16>)
    requires WellFormed16(w)
    ensures Encode16(Decode16(w)) == w
    decreases |w|
  {
    if w != [] {
      var st := Step16(w);
      EncodingOfStep16(w);
      Encode16OfDecode16(w[st.len..]);
      var cs := Decode16(w);
      assert cs[0] == st.scalar && cs[1..] == Decode16(w[st.len..]);
      assert w == w[..st.len] + w[st.len..];
    }
  }

  lemma WellFormed16Iff(w: seq<u16>)
    ensures WellFormed16(w) <==> exists cs :: Encode16(cs) == w
  {
    if WellFormed16(w) {
      Encode16OfDecode16(w);
    }
    if cs :| Encode16(cs) == w {
      Decode16OfEncode16(cs);
    }
  }

  /** Converting well-formed UTF-8 to UTF-16 and back restores every byte; the
      intermediate UTF-16 is itself well formed. */
  lemma RoundTrip8(s: seq<u8>)
    requires WellFormed8(s)
    ensures WellFormed16(Utf8ToUtf16(s))
    ensures Utf16ToUtf8(Utf8ToUtf16(s)) == s
  {
    Decode16OfEncode16(Decode8(s));
    Encode8OfDecode8(s);
  }

  /** Converting well-formed UTF-16 to UTF-8 and back restores every unit. */
  lemma RoundTrip16(w: seq<u16>)
    requires WellFormed16(w)
    ensures WellFormed8(Utf16ToUtf8(w))
    ensures Utf8ToUtf16(Utf16ToUtf8(w)) == w
  {
    Decode8OfEncode8(Decode16(w));
    Encode16OfDecode16(w);
  }

  // --------------------------------------------------------- terminators

  /** Only a zero byte decodes to U+0000. */
  lemma {:induction false} Decode8NoNul(s: seq<u8>)
    requires 0 !in s
    ensures 0 !in Decode8(s)
    decreases |s|
  {
    if s != [] {
      Decode8NoNul(s[Step8(s).len..]);
    }
  }

  lemma {:induction false} Decode16NoNul(w: seq<u16>)
    requires 0 !in w
    ensures 0 !in Decode16(w)
    decreases |w|
  {
    if w != [] {
      Decode16NoNul(w[Step16(w).len..]);
    }
  }

  /** Only U+0000 encodes to a zero unit, in either form. */
  lemma {:induction false} Encode8NoNul(cs: seq<Scalar>)
    requires 0 !in cs
    ensures 0 !in Encode8(cs)
  {
    if cs != [] {
      assert cs[0] in cs;
      Encode8NoNul(cs[1..]);
    }
  }

  lemma {:induction false} Encode16NoNul(cs: seq<Scalar>)
    requires 0 !in cs
    ensures 0 !in Encode16(cs)
  {
    if cs != [] {
      assert cs[0] in cs;
      Encode16NoNul(cs[1..]);
    }
  }

  /** Text without a NUL converts to text without a NUL, so the terminator the
      converters append is the first zero of their output. */
  lemma Utf8ToUtf16KeepsNoNul(s: seq<u8>)
    requires 0 !in s
    ensures 0 !in Utf8ToUtf16(s)
  {
    Decode8NoNul(s);
    Encode16NoNul(Decode8(s));
  }

  lemma Utf16ToUtf8KeepsNoNul(w: seq<u16>)
    requires 0 !in w
    ensures 0 !in Utf16ToUtf8(w)
  {
    Decode16NoNul(w);
    Encode8NoNul(Decode16(w));
  }
}
