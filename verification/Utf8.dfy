/** Well-formed UTF-8 (table 3-7 of the Unicode Standard), recognised byte by byte. */
module Utf8 {
  import opened Sequences

  /** What comes next: a new scalar value, or one to three trailing bytes, the first perhaps from a smaller range. */
  datatype Expect = Scalar | One | Two | Three | OneAboveA0 | OneBelow9F | TwoAbove90 | TwoBelow8F | Nothing

  function Trail(b: byte, lo: byte, hi: byte, next: Expect): Expect {
    if lo <= b <= hi then next else Nothing
  }

  function Next(e: Expect, b: byte): Expect {
    match e
    case Scalar =>
      if b < 0x80 then Scalar
      else if b < 0xC2 then Nothing
      else if b < 0xE0 then One
      else if b == 0xE0 then OneAboveA0
      else if b == 0xED then OneBelow9F
      else if b < 0xF0 then Two
      else if b == 0xF0 then TwoAbove90
      else if b < 0xF4 then Three
      else if b == 0xF4 then TwoBelow8F
      else Nothing
    case One => Trail(b, 0x80, 0xBF, Scalar)
    case Two => Trail(b, 0x80, 0xBF, One)
    case Three => Trail(b, 0x80, 0xBF, Two)
    case OneAboveA0 => Trail(b, 0xA0, 0xBF, One)
    case OneBelow9F => Trail(b, 0x80, 0x9F, One)
    case TwoAbove90 => Trail(b, 0x90, 0xBF, Two)
    case TwoBelow8F => Trail(b, 0x80, 0x8F, Two)
    case Nothing => Nothing
  }

  function After(s: seq<byte>): Expect {
    if s == [] then Scalar else Next(After(s[..|s| - 1]), s[|s| - 1])
  }

  predicate ValidUtf8(s: seq<byte>) {
    After(s) == Scalar
  }

  lemma {:induction false} AfterConcat(s: seq<byte>, t: seq<byte>)
    requires ValidUtf8(s)
    ensures After(s + t) == After(t)
    decreases |t|
  {
    if t == [] {
      assert s + t == s;
    } else {
      AfterConcat(s, t[..|t| - 1]);
      assert (s + t)[..|s + t| - 1] == s + t[..|t| - 1];
    }
  }

  lemma ValidConcat(s: seq<byte>, t: seq<byte>)
    requires ValidUtf8(s) && ValidUtf8(t)
    ensures ValidUtf8(s + t)
  {
    AfterConcat(s, t);
  }

  lemma ValidAscii(b: byte)
    requires b < 0x80
    ensures ValidUtf8([b])
  {
    assert [b][..0] == [];
  }

  lemma {:induction false} NothingStays(s: seq<byte>, t: seq<byte>)
    requires After(s) == Nothing
    ensures After(s + t) == Nothing
    decreases |t|
  {
    if t == [] {
      assert s + t == s;
    } else {
      NothingStays(s, t[..|t| - 1]);
      assert (s + t)[..|s + t| - 1] == s + t[..|t| - 1];
    }
  }

  /** No scalar value reaches across a newline: it cuts UTF-8 into UTF-8. */
  lemma ValidAroundNewline(s: seq<byte>, t: seq<byte>)
    requires ValidUtf8(s + [NEWLINE] + t)
    ensures ValidUtf8(s) && ValidUtf8(t)
  {
    assert (s + [NEWLINE])[..|s|] == s;
    if After(s) != Scalar {
      NothingStays(s + [NEWLINE], t);
    }
    AfterConcat(s + [NEWLINE], t);
  }

  const BYTE_ORDER_MARK: seq<byte> := [0xEF, 0xBB, 0xBF]

  lemma MarkIsValid()
    ensures ValidUtf8(BYTE_ORDER_MARK)
  {
    var one: seq<byte>, two: seq<byte> := [0xEF], [0xEF, 0xBB];
    assert BYTE_ORDER_MARK[..2] == two && two[..1] == one && one[..0] == [];
    assert After(one) == Two;
    assert After(two) == One;
  }

  /** Bytes that survive a trip through QString: a leading byte order mark would be swallowed. */
  predicate IsText(s: seq<byte>) {
    ValidUtf8(s) && !(BYTE_ORDER_MARK <= s)
  }
}
