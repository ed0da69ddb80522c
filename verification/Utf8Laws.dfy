/**
  Bytes are text exactly when they are characters written one after another, each as section 3 of
  RFC 3629 writes it; and a character is unfinished exactly when more bytes would finish it.
 */
module Utf8Laws {
  import opened ReplyBounds
  import opened Utf8

  /** A code point that is a character: no surrogate, and none past the last. */
  predicate Scalar(c: int) {
    0 <= c <= 0x10FFFF && !(0xD800 <= c <= 0xDFFF)
  }

  /** A character in one to four bytes. */
  function Spelling(c: int): (s: seq<Byte>)
    requires Scalar(c)
    ensures 1 <= |s| <= 4
  {
    if c < 0x80 then [c]
    else if c < 0x800 then [0xC0 + c / 64, 0x80 + c % 64]
    else if c < 0x10000 then [0xE0 + c / 4096, 0x80 + c / 64 % 64, 0x80 + c % 64]
    else [0xF0 + c / 262144, 0x80 + c / 4096 % 64, 0x80 + c / 64 % 64, 0x80 + c % 64]
  }

  function Spellings(cs: seq<int>): seq<Byte>
    requires forall c :: c in cs ==> Scalar(c)
  {
    if cs == [] then [] else Spelling(cs[0]) + Spellings(cs[1..])
  }

  lemma ThreeBytes(c: int)
    requires Scalar(c) && 0x800 <= c < 0x10000
    ensures CharSize(Spelling(c)) == 3
  {
    var lead, second := c / 4096, c / 64 % 64;
    assert c / 64 == 64 * lead + second;
  }

  lemma FourBytes(c: int)
    requires Scalar(c) && 0x10000 <= c
    ensures CharSize(Spelling(c)) == 4
  {
    var lead, second := c / 262144, c / 4096 % 64;
    assert c / 4096 == 64 * lead + second;
  }

  lemma SpellingSize(c: int)
    requires Scalar(c)
    ensures CharSize(Spelling(c)) == |Spelling(c)|
  {
    if 0x800 <= c < 0x10000 {
      ThreeBytes(c);
      hide CharSize;
    } else if 0x10000 <= c {
      FourBytes(c);
      hide CharSize;
    }
  }

  lemma TwoRead(a: int, b: int)
    requires 0 <= b < 64
    ensures (64 * a + b) / 64 == a && (64 * a + b) % 64 == b
  {
  }

  lemma ThreeRead(a: int, b: int, c: int)
    requires 0 <= b < 64 && 0 <= c < 64
    ensures var n := 4096 * a + 64 * b + c; n / 4096 == a && n / 64 % 64 == b && n % 64 == c
  {
    TwoRead(64 * a + b, c);
    TwoRead(a, b);
  }

  lemma FourRead(a: int, b: int, c: int, d: int)
    requires 0 <= b < 64 && 0 <= c < 64 && 0 <= d < 64
    ensures var n := 262144 * a + 4096 * b + 64 * c + d;
      n / 262144 == a && n / 4096 % 64 == b && n / 64 % 64 == c && n % 64 == d
  {
    ThreeRead(64 * a + b, c, d);
    TwoRead(a, b);
  }

  /** The character some bytes begin with. */
  lemma Read(s: seq<Byte>) returns (c: int)
    requires CharSize(s) > 0
    ensures Scalar(c) && CharSize(s) == |Spelling(c)| && s[..CharSize(s)] == Spelling(c)
  {
    var n := CharSize(s);
    if n == 1 {
      c := s[0];
    } else if n == 2 {
      c := ReadTwo(s);
    } else if n == 3 {
      c := ReadThree(s);
    } else {
      c := ReadFour(s);
    }
    hide CharSize, Spelling;
  }

  lemma ReadTwo(s: seq<Byte>) returns (c: int)
    requires CharSize(s) == 2
    ensures Scalar(c) && s[..2] == Spelling(c)
  {
    var a: int, b: int := s[0] as int - 0xC0, s[1] as int - 0x80;
    TwoRead(a, b);
    c := 64 * a + b;
  }

  lemma ReadThree(s: seq<Byte>) returns (c: int)
    requires CharSize(s) == 3
    ensures Scalar(c) && s[..3] == Spelling(c)
  {
    var a: int, b: int, d: int := s[0] as int - 0xE0, s[1] as int - 0x80, s[2] as int - 0x80;
    ThreeRead(a, b, d);
    c := 4096 * a + 64 * b + d;
  }

  lemma ReadFour(s: seq<Byte>) returns (c: int)
    requires CharSize(s) == 4
    ensures Scalar(c) && s[..4] == Spelling(c)
  {
    var a: int, b: int, d: int, e: int := s[0] as int - 0xF0, s[1] as int - 0x80, s[2] as int - 0x80, s[3] as int - 0x80;
    FourRead(a, b, d, e);
    c := 262144 * a + 4096 * b + 64 * d + e;
  }

  /** Bytes begin with a character exactly when some character's spelling is a beginning of them. */
  lemma CharacterLeads(s: seq<Byte>)
    ensures CharSize(s) > 0 <==> exists c :: Scalar(c) && Spelling(c) <= s
    ensures forall c :: Scalar(c) && Spelling(c) <= s ==> CharSize(s) == |Spelling(c)|
  {
    if CharSize(s) > 0 {
      var c := Read(s);
      assert Spelling(c) <= s;
    }
    forall c | Scalar(c) && Spelling(c) <= s
      ensures CharSize(s) == |Spelling(c)|
    {
      SpellingSize(c);
      assert s[..|Spelling(c)|] == Spelling(c);
      CharSizeOfPrefix(s, |Spelling(c)|);
    }
  }

  lemma {:induction false} SpellingsAreText(cs: seq<int>)
    requires forall c :: c in cs ==> Scalar(c)
    ensures Valid(Spellings(cs))
  {
    if cs != [] {
      var s := Spellings(cs);
      SpellingsAreText(cs[1..]);
      assert s[..|Spelling(cs[0])|] == Spelling(cs[0]);
      assert Spelling(cs[0]) <= s;
      CharacterLeads(s);
      assert s[|Spelling(cs[0])|..] == Spellings(cs[1..]);
      hide CharSize, Spelling;
    }
  }

  lemma {:induction false} TextIsSpelt(s: seq<Byte>) returns (cs: seq<int>)
    requires Valid(s)
    ensures (forall c :: c in cs ==> Scalar(c)) && s == Spellings(cs)
    decreases |s|
  {
    cs := [];
    if s != [] {
      var n := CharSize(s);
      var c := Read(s);
      var rest := TextIsSpelt(s[n..]);
      cs := [c] + rest;
      assert cs[1..] == rest;
      hide CharSize, Spelling;
      assert s == s[..n] + s[n..];
    }
  }

  /** Bytes are text exactly when they spell characters. */
  lemma TextIsCharacters(s: seq<Byte>)
    ensures Valid(s) <==> exists cs: seq<int> :: (forall c :: c in cs ==> Scalar(c)) && s == Spellings(cs)
  {
    hide Spellings, Valid;
    if Valid(s) {
      var cs := TextIsSpelt(s);
      assert (forall c :: c in cs ==> Scalar(c)) && s == Spellings(cs);
    }
    if cs: seq<int> :| (forall c :: c in cs ==> Scalar(c)) && s == Spellings(cs) {
      SpellingsAreText(cs);
    }
  }

  /** A character of which these bytes are the beginning, and not the end. */
  ghost predicate Begun(s: seq<Byte>) {
    s != [] && exists c :: Scalar(c) && |s| < |Spelling(c)| && s <= Spelling(c)
  }

  lemma BegunExactly(s: seq<Byte>)
    ensures s != [] && !FullRune(s) <==> Begun(s)
  {
    if s != [] && !FullRune(s) {
      var whole := Finished(s);
      var c := Read(whole);
      assert s <= Spelling(c);
    }
    if Begun(s) {
      var c :| Scalar(c) && |s| < |Spelling(c)| && s <= Spelling(c);
      SpellingSize(c);
      hide Spelling;
      CutShort(Spelling(c), s);
    }
  }

  /** Less than a whole character is no whole character. */
  lemma CutShort(whole: seq<Byte>, s: seq<Byte>)
    requires CharSize(whole) == |whole| && s != [] && |s| < |whole| && s <= whole
    ensures !FullRune(s)
  {
    assert forall k :: 0 <= k < |s| ==> s[k] == whole[k];
  }

  /** A beginning of a character, with the least that finishes it. */
  lemma Finished(s: seq<Byte>) returns (whole: seq<Byte>)
    requires s != [] && !FullRune(s)
    ensures s <= whole && |s| < |whole| == CharSize(whole)
  {
    var second: Byte := if s[0] == 0xE0 then 0xA0 else if s[0] == 0xF0 then 0x90 else 0x80;
    var all: seq<Byte> := s + [if |s| == 1 then second else 0x80] + [0x80, 0x80];
    whole := all[..Width(s[0])];
  }
}
