/**
  UTF-8 as section 4 of RFC 3629 has it, on bytes: well-formed text, the start of a character, and
  whether bytes hold a whole one.
 */
module Utf8 {
  import opened ReplyBounds

  /** How long a character beginning with this byte is; a byte that begins none stands alone. */
  function Width(lead: Byte): (n: nat)
    ensures 1 <= n <= 4
  {
    if 0xC2 <= lead <= 0xDF then 2 else if 0xE0 <= lead <= 0xEF then 3 else if 0xF0 <= lead <= 0xF4 then 4 else 1
  }

  predicate Ascii(b: Byte) { b < 0x80 }

  predicate IsTail(b: Byte) { 0x80 <= b <= 0xBF }

  /** What may follow a leading byte: no overlong form, no surrogate, nothing past U+10FFFF. */
  predicate Second(lead: Byte, b: Byte) {
    if lead == 0xE0 then 0xA0 <= b <= 0xBF
    else if lead == 0xED then 0x80 <= b <= 0x9F
    else if lead == 0xF0 then 0x90 <= b <= 0xBF
    else if lead == 0xF4 then 0x80 <= b <= 0x8F
    else IsTail(b)
  }

  /** The size of the character `s` begins with, or 0 if it begins with none. */
  function CharSize(s: seq<Byte>): (n: nat)
    ensures n <= |s| && n <= 4
  {
    if s == [] then 0
    else
      var w := Width(s[0]);
      if w == 1 then if Ascii(s[0]) then 1 else 0
      else if |s| < w || !Second(s[0], s[1]) then 0
      else if w > 2 && !IsTail(s[2]) then 0
      else if w > 3 && !IsTail(s[3]) then 0
      else w
  }

  predicate Valid(s: seq<Byte>) {
    s == [] || (CharSize(s) > 0 && Valid(s[CharSize(s)..]))
  }

  /** Whether a byte can begin a character; only the continuation bytes cannot. */
  predicate RuneStart(b: Byte) { !IsTail(b) }

  /** Whether `s` begins with a whole character, an ill-formed one counting as whole. */
  predicate FullRune(s: seq<Byte>) {
    && s != []
    && var w := Width(s[0]);
       || |s| >= w
       || (|s| > 1 && !Second(s[0], s[1]))
       || (|s| > 2 && !IsTail(s[2]))
  }

  /** The longest beginning of `s` that is text, character by character. */
  function ValidPrefix(s: seq<Byte>): (p: seq<Byte>)
    ensures p <= s
  {
    if CharSize(s) == 0 then []
    else s[..CharSize(s)] + ValidPrefix(s[CharSize(s)..])
  }

  // ----- characters end where they end -----

  /** What a character is does not depend on what follows it. */
  lemma CharSizeOfPrefix(s: seq<Byte>, k: nat)
    requires k <= |s|
    ensures CharSize(s) > 0 && CharSize(s) <= k ==> CharSize(s[..k]) == CharSize(s)
    ensures CharSize(s[..k]) > 0 ==> CharSize(s) == CharSize(s[..k])
  {
  }

  lemma {:induction false} ValidAppend(p: seq<Byte>, q: seq<Byte>)
    requires Valid(p)
    ensures Valid(p + q) <==> Valid(q)
  {
    if p == [] {
      assert p + q == q;
    } else {
      var n := CharSize(p);
      CharSizeOfPrefix(p + q, |p|);
      assert (p + q)[..|p|] == p;
      assert (p + q)[n..] == p[n..] + q;
      ValidAppend(p[n..], q);
    }
  }

  lemma FirstIsValid(s: seq<Byte>, size: nat)
    requires size == CharSize(s) && size > 0
    ensures Valid(s[..size])
  {
    CharSizeOfPrefix(s, size);
    assert s[..size][size..] == [];
  }

  lemma {:induction false} ValidPrefixIsValid(s: seq<Byte>)
    ensures Valid(ValidPrefix(s))
  {
    var n := CharSize(s);
    if n > 0 {
      FirstIsValid(s, n);
      ValidPrefixIsValid(s[n..]);
      hide CharSize, Valid;
      ValidAppend(s[..n], ValidPrefix(s[n..]));
    }
  }

  /** No longer beginning of `s` is text. */
  lemma {:induction false} ValidPrefixIsLongest(s: seq<Byte>, k: nat)
    requires k <= |s| && Valid(s[..k])
    ensures k <= |ValidPrefix(s)|
    decreases |s|
  {
    if k > 0 {
      var n := CharSize(s[..k]);
      CharSizeOfPrefix(s, k);
      assert s[n..][..k - n] == s[..k][n..];
      ValidPrefixIsLongest(s[n..], k - n);
    }
  }

  lemma {:induction false} ValidIsOwnPrefix(s: seq<Byte>)
    requires Valid(s)
    ensures ValidPrefix(s) == s
  {
    assert s[..|s|] == s;
    ValidPrefixIsLongest(s, |s|);
  }
}
