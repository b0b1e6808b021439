/** The recogniser accepts exactly the encodings of Unicode scalar values. */
module Utf8Scalars {
  import opened Sequences
  import opened Utf8

  /** A code point that is not a surrogate. */
  predicate IsScalar(v: int) {
    0 <= v < 0xD800 || 0xE000 <= v < 0x11_0000
  }

  /** Its encoding, after table 3-6 of the Unicode Standard. */
  function Encoding(v: int): seq<byte>
    requires IsScalar(v)
  {
    if v < 0x80 then [v as byte]
    else if v < 0x800 then [(0xC0 + v / 64) as byte, (0x80 + v % 64) as byte]
    else if v < 0x1_0000 then
      [(0xE0 + v / 4096) as byte, (0x80 + v / 64 % 64) as byte, (0x80 + v % 64) as byte]
    else
      [(0xF0 + v / 262144) as byte, (0x80 + v / 4096 % 64) as byte, (0x80 + v / 64 % 64) as byte,
       (0x80 + v % 64) as byte]
  }

  predicate AllScalars(vs: seq<int>) {
    forall i :: 0 <= i < |vs| ==> IsScalar(vs[i])
  }

  function Encodings(vs: seq<int>): seq<byte>
    requires AllScalars(vs)
  {
    if vs == [] then [] else Encodings(vs[..|vs| - 1]) + Encoding(vs[|vs| - 1])
  }

  lemma AfterSnoc(s: seq<byte>, b: byte)
    ensures After(s + [b]) == Next(After(s), b)
  {
    assert (s + [b])[..|s|] == s;
  }

  lemma AfterOne(a: byte)
    ensures After([a]) == Next(Scalar, a)
  {
    AfterSnoc([], a);
    assert [] + [a] == [a];
  }

  lemma AfterTwo(a: byte, b: byte)
    ensures After([a, b]) == Next(Next(Scalar, a), b)
  {
    AfterOne(a);
    AfterSnoc([a], b);
    assert [a] + [b] == [a, b];
  }

  lemma AfterThree(a: byte, b: byte, c: byte)
    ensures After([a, b, c]) == Next(Next(Next(Scalar, a), b), c)
  {
    AfterTwo(a, b);
    AfterSnoc([a, b], c);
    assert [a, b] + [c] == [a, b, c];
  }

  lemma AfterFour(a: byte, b: byte, c: byte, d: byte)
    ensures After([a, b, c, d]) == Next(Next(Next(Next(Scalar, a), b), c), d)
  {
    AfterThree(a, b, c);
    AfterSnoc([a, b, c], d);
    assert [a, b, c] + [d] == [a, b, c, d];
  }

  predicate IsTrail(b: byte) {
    0x80 <= b <= 0xBF
  }

  /** The first two bytes of a three-byte encoding: the shortest form, and no surrogate. */
  predicate BeginsThree(p: seq<byte>) {
    && |p| >= 2 && 0xE0 <= p[0] <= 0xEF && IsTrail(p[1])
    && (p[0] == 0xE0 ==> p[1] >= 0xA0) && (p[0] == 0xED ==> p[1] <= 0x9F)
  }

  /** The first two bytes of a four-byte encoding: the shortest form, and no more than 0x10FFFF. */
  predicate BeginsFour(p: seq<byte>) {
    && |p| >= 2 && 0xF0 <= p[0] <= 0xF4 && IsTrail(p[1])
    && (p[0] == 0xF0 ==> p[1] >= 0x90) && (p[0] == 0xF4 ==> p[1] <= 0x8F)
  }

  /** The forms of an encoding. */
  predicate WellFormed(p: seq<byte>) {
    || (|p| == 1 && p[0] < 0x80)
    || (|p| == 2 && 0xC2 <= p[0] <= 0xDF && IsTrail(p[1]))
    || (|p| == 3 && BeginsThree(p) && IsTrail(p[2]))
    || (|p| == 4 && BeginsFour(p) && IsTrail(p[2]) && IsTrail(p[3]))
  }

  /** v is high * 64 + low, and so on upwards. */
  lemma Digits(v: int)
    requires 0 <= v
    ensures v / 4096 == v / 64 / 64 && v / 262144 == v / 64 / 64 / 64
  {
  }

  lemma ThreeByteForm(v: int)
    requires IsScalar(v) && 0x800 <= v < 0x1_0000
    ensures WellFormed(Encoding(v))
  {
    Digits(v);
    var high := v / 64;
    assert high == high / 64 * 64 + high % 64;
  }

  lemma FourByteForm(v: int)
    requires IsScalar(v) && 0x1_0000 <= v
    ensures WellFormed(Encoding(v))
  {
    Digits(v);
    var top := v / 64 / 64;
    assert top == top / 64 * 64 + top % 64;
  }

  lemma EncodingIsWellFormed(v: int)
    requires IsScalar(v)
    ensures WellFormed(Encoding(v))
  {
    if v < 0x800 {
    } else if v < 0x1_0000 {
      ThreeByteForm(v);
    } else {
      FourByteForm(v);
    }
  }

  lemma WellFormedIsValid(p: seq<byte>)
    requires WellFormed(p)
    ensures ValidUtf8(p)
  {
    if |p| == 1 {
      AfterOne(p[0]);
      assert p == [p[0]];
    } else if |p| == 2 {
      AfterTwo(p[0], p[1]);
      assert p == [p[0], p[1]];
    } else if |p| == 3 {
      AfterThree(p[0], p[1], p[2]);
      assert p == [p[0], p[1], p[2]];
    } else {
      AfterFour(p[0], p[1], p[2], p[3]);
      assert p == [p[0], p[1], p[2], p[3]];
    }
  }

  lemma {:induction false} EncodingsAreValid(vs: seq<int>)
    requires AllScalars(vs)
    ensures ValidUtf8(Encodings(vs))
  {
    if vs != [] {
      EncodingsAreValid(vs[..|vs| - 1]);
      EncodingIsWellFormed(vs[|vs| - 1]);
      WellFormedIsValid(Encoding(vs[|vs| - 1]));
      ValidConcat(Encodings(vs[..|vs| - 1]), Encoding(vs[|vs| - 1]));
    }
  }

  // ---- Everything accepted is an encoding ----

  /** The unfinished encoding behind the finished ones, by the recogniser's state. */
  predicate Unfinished(p: seq<byte>, e: Expect) {
    match e
    case Scalar => p == []
    case One =>
      || (|p| == 1 && 0xC2 <= p[0] <= 0xDF)
      || (|p| == 2 && BeginsThree(p))
      || (|p| == 3 && BeginsFour(p) && IsTrail(p[2]))
    case Two =>
      || (|p| == 1 && 0xE1 <= p[0] <= 0xEF && p[0] != 0xED)
      || (|p| == 2 && BeginsFour(p))
    case Three => |p| == 1 && 0xF1 <= p[0] <= 0xF3
    case OneAboveA0 => p == [0xE0]
    case OneBelow9F => p == [0xED]
    case TwoAbove90 => p == [0xF0]
    case TwoBelow8F => p == [0xF4]
    case Nothing => false
  }

  lemma TwoBytes(p: seq<byte>) returns (v: int)
    requires |p| == 2 && 0xC2 <= p[0] <= 0xDF && IsTrail(p[1])
    ensures IsScalar(v) && Encoding(v) == p
  {
    v := (p[0] as int - 0xC0) * 64 + (p[1] as int - 0x80);
  }

  lemma ThreeBytes(p: seq<byte>) returns (v: int)
    requires |p| == 3 && BeginsThree(p) && IsTrail(p[2])
    ensures IsScalar(v) && Encoding(v) == p
  {
    var high := (p[0] as int - 0xE0) * 64 + (p[1] as int - 0x80);
    v := high * 64 + (p[2] as int - 0x80);
    assert v / 64 == high && v / 4096 == high / 64;
  }

  lemma FourBytes(p: seq<byte>) returns (v: int)
    requires |p| == 4 && BeginsFour(p) && IsTrail(p[2]) && IsTrail(p[3])
    ensures IsScalar(v) && Encoding(v) == p
  {
    var top := (p[0] as int - 0xF0) * 64 + (p[1] as int - 0x80);
    var high := top * 64 + (p[2] as int - 0x80);
    v := high * 64 + (p[3] as int - 0x80);
    assert v / 64 == high && v / 4096 == top && v / 262144 == top / 64;
  }

  /** A byte that finishes an encoding. */
  lemma Finished(p: seq<byte>, e: Expect, b: byte) returns (v: int)
    requires Unfinished(p, e) && Next(e, b) == Scalar
    ensures IsScalar(v) && Encoding(v) == p + [b]
  {
    var q := p + [b];
    if |p| == 0 {
      v := b as int;
    } else if |p| == 1 {
      v := TwoBytes(q);
    } else if |p| == 2 {
      v := ThreeBytes(q);
    } else {
      v := FourBytes(q);
    }
  }

  lemma StillUnfinished(p: seq<byte>, e: Expect, b: byte)
    requires Unfinished(p, e) && Next(e, b) != Scalar && Next(e, b) != Nothing
    ensures Unfinished(p + [b], Next(e, b))
  {
  }

  lemma EncodingsSnoc(vs: seq<int>, v: int)
    requires AllScalars(vs) && IsScalar(v)
    ensures AllScalars(vs + [v]) && Encodings(vs + [v]) == Encodings(vs) + Encoding(v)
  {
    assert (vs + [v])[..|vs|] == vs;
  }

  /** One more byte either finishes the encoding at the end or lengthens it. */
  lemma DecomposeNext(us: seq<int>, q: seq<byte>, e: Expect, b: byte) returns (vs: seq<int>, p: seq<byte>)
    requires AllScalars(us) && Unfinished(q, e) && Next(e, b) != Nothing
    ensures AllScalars(vs) && Encodings(vs) + p == Encodings(us) + (q + [b]) && Unfinished(p, Next(e, b))
  {
    if Next(e, b) == Scalar {
      var v := Finished(q, e, b);
      EncodingsSnoc(us, v);
      vs, p := us + [v], [];
      assert Encodings(vs) + [] == Encodings(vs);
    } else {
      StillUnfinished(q, e, b);
      vs, p := us, q + [b];
    }
  }

  lemma {:induction false} Decompose(s: seq<byte>) returns (vs: seq<int>, p: seq<byte>)
    requires After(s) != Nothing
    ensures AllScalars(vs) && s == Encodings(vs) + p && Unfinished(p, After(s))
  {
    if s == [] {
      vs, p := [], [];
    } else {
      var front, b := s[..|s| - 1], s[|s| - 1];
      var us, q := Decompose(front);
      assert s == front + [b];
      Associate(Encodings(us), q, [b]);
      vs, p := DecomposeNext(us, q, After(front), b);
    }
  }

  /** Well-formed are exactly the sequences of encoded scalar values. */
  lemma ValidExactly(s: seq<byte>)
    ensures ValidUtf8(s) <==> exists vs :: AllScalars(vs) && s == Encodings(vs)
  {
    if ValidUtf8(s) {
      var vs, p := Decompose(s);
      assert s == Encodings(vs);
    }
    forall vs | AllScalars(vs) && s == Encodings(vs)
      ensures ValidUtf8(s)
    {
      EncodingsAreValid(vs);
    }
  }
}
