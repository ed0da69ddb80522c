/**
  The text the Redis gate reads (internal/redisgate/gate.go, rules.go): ASCII case folding, and
  integers written the one way the gate accepts. A char is a byte.
 */
module RedisText {
  import opened Wrappers

  const INT64_MAX: int := 0x7FFF_FFFF_FFFF_FFFF
  const INT64_MIN: int := -0x8000_0000_0000_0000
  const UINT64_MAX: int := 0xFFFF_FFFF_FFFF_FFFF

  predicate InInt64(n: int) { INT64_MIN <= n <= INT64_MAX }

  /** Go's arithmetic on int64 keeps the low 64 bits. */
  function Wrap(n: int): (r: int)
    ensures InInt64(r)
    ensures InInt64(n) ==> r == n
  {
    (n - INT64_MIN) % 0x1_0000_0000_0000_0000 + INT64_MIN
  }

  function LowerChar(c: char): char {
    if 'A' <= c <= 'Z' then c - 'A' + 'a' else c
  }

  function Lower(s: string): (r: string)
    ensures |r| == |s|
    ensures forall i :: 0 <= i < |s| ==> r[i] == LowerChar(s[i])
  {
    seq(|s|, i requires 0 <= i < |s| => LowerChar(s[i]))
  }

  /** Each capital becomes its small letter. */
  lemma LettersLowered(i: nat)
    requires i < 26
    ensures LowerChar("ABCDEFGHIJKLMNOPQRSTUVWXYZ"[i]) == "abcdefghijklmnopqrstuvwxyz"[i]
  {
  }

  /** And nothing else changes. */
  lemma OthersKept(c: char)
    ensures LowerChar(c) == c || c in "ABCDEFGHIJKLMNOPQRSTUVWXYZ"
  {
    var capitals := "ABCDEFGHIJKLMNOPQRSTUVWXYZ";
    if 'A' <= c <= 'Z' {
      assert capitals[c as int - 'A' as int] == c;
    }
  }

  lemma LowerAgain(s: string)
    ensures Lower(Lower(s)) == Lower(s)
  {
  }

  method AsciiLower(s: string) returns (r: string)
    ensures r == Lower(s)
  {
    var i := 0;
    while i < |s|
      invariant 0 <= i <= |s|
      invariant forall k :: 0 <= k < i ==> LowerChar(s[k]) == s[k]
    {
      if 'A' <= s[i] <= 'Z' {
        var b := new char[|s|](k requires 0 <= k < |s| => s[k]);
        var j := i;
        while j < b.Length
          invariant i <= j <= b.Length == |s|
          invariant forall k :: 0 <= k < j ==> b[k] == LowerChar(s[k])
          invariant forall k :: j <= k < |s| ==> b[k] == s[k]
        {
          if 'A' <= b[j] <= 'Z' {
            b[j] := b[j] - 'A' + 'a';
          }
          j := j + 1;
        }
        return b[..];
      }
      i := i + 1;
    }
    r := s;
  }

  method AsciiEqualFold(s: string, lower: string) returns (r: bool)
    ensures r <==> Lower(s) == lower
  {
    if |s| != |lower| {
      return false;
    }
    var i := 0;
    while i < |s|
      invariant 0 <= i <= |s| == |lower|
      invariant forall k :: 0 <= k < i ==> Lower(s)[k] == lower[k]
    {
      var c := s[i];
      if 'A' <= c <= 'Z' {
        c := c - 'A' + 'a';
      }
      if c != lower[i] {
        return false;
      }
      i := i + 1;
    }
    r := true;
  }

  // ----- decimal -----

  predicate AllDigits(s: string) {
    forall i :: 0 <= i < |s| ==> IsDigit(s[i])
  }

  /** The number a run of digits spells. */
  function Value(s: string): (n: nat)
    requires AllDigits(s)
  {
    if s == [] then 0 else Value(s[..|s| - 1]) * 10 + (s[|s| - 1] - '0') as nat
  }

  /** A number the way strconv.FormatInt writes it. */
  function PrintNat(n: nat): (s: string)
    ensures s != [] && AllDigits(s)
  {
    if n < 10 then ['0' + n as char] else PrintNat(n / 10) + ['0' + (n % 10) as char]
  }

  function Print(n: int): string {
    if n < 0 then "-" + PrintNat(-n) else PrintNat(n)
  }

  predicate Canonical(s: string) {
    AllDigits(s) && s != [] && (s[0] == '0' ==> |s| == 1)
  }

  /** The digits after an optional sign. */
  function Unsigned(s: string): string {
    if s != [] && s[0] == '-' then s[1..] else s
  }

  /** What strconv.ParseInt(s, 10, 64) makes of a sign and digits. */
  function Converted(s: string): Option<int>
    requires s != [] && AllDigits(Unsigned(s))
  {
    var n: int := if s[0] == '-' then 0 - Value(Unsigned(s)) else Value(Unsigned(s));
    if InInt64(n) then Some(n) else None
  }

  function ParseInt(s: string): Option<int> {
    if s == [] || |s| > 20 then None
    else
      var digits := Unsigned(s);
      if !Canonical(digits) || (digits[0] == '0' && |s| > 1) then None else Converted(s)
  }

  predicate ValidCursor(s: string) {
    s != [] && |s| <= 20 && AllDigits(s) && Value(s) <= UINT64_MAX
  }

  method ReadInt(s: string) returns (r: Option<int>)
    ensures r == ParseInt(s)
  {
    if s == [] || |s| > 20 {
      return None;
    }
    var digits := s;
    if digits[0] == '-' {
      digits := digits[1..];
    }
    if digits == [] || digits[0] < '0' || digits[0] > '9' {
      return None;
    }
    if digits[0] == '0' && (|digits| > 1 || |s| > 1) {
      return None;
    }
    var i := 1;
    while i < |digits|
      invariant 1 <= i <= |digits|
      invariant forall k :: 0 <= k < i ==> IsDigit(digits[k])
    {
      if digits[i] < '0' || digits[i] > '9' {
        return None;
      }
      i := i + 1;
    }
    r := Converted(s);
  }

  method ReadCursor(s: string) returns (r: bool)
    ensures r <==> ValidCursor(s)
  {
    if s == [] || |s| > 20 {
      return false;
    }
    var i := 0;
    while i < |s|
      invariant 0 <= i <= |s|
      invariant forall k :: 0 <= k < i ==> IsDigit(s[k])
    {
      if s[i] < '0' || s[i] > '9' {
        return false;
      }
      i := i + 1;
    }
    r := Value(s) <= UINT64_MAX;
  }

  // ----- one text per number -----

  lemma {:induction false} PrintedValue(n: nat)
    ensures Value(PrintNat(n)) == n
  {
    if n >= 10 {
      PrintedValue(n / 10);
      var s := PrintNat(n);
      assert s[..|s| - 1] == PrintNat(n / 10);
    }
  }

  lemma {:induction false} PrintIsCanonical(n: nat)
    ensures Canonical(PrintNat(n)) && (PrintNat(n)[0] == '0' ==> n == 0)
  {
    if n >= 10 {
      PrintIsCanonical(n / 10);
      var s := PrintNat(n);
      assert s[0] == PrintNat(n / 10)[0];
    }
  }

  lemma {:induction false} ValueIsPrinted(s: string)
    requires Canonical(s)
    ensures PrintNat(Value(s)) == s
  {
    if |s| > 1 {
      var front := s[..|s| - 1];
      ValueIsPrinted(front);
      ValuePositive(front);
      assert s == front + [s[|s| - 1]];
      var d := (s[|s| - 1] - '0') as nat;
      assert (Value(front) * 10 + d) / 10 == Value(front) && (Value(front) * 10 + d) % 10 == d;
    }
  }

  lemma {:induction false} ValuePositive(s: string)
    requires AllDigits(s) && s != [] && s[0] != '0'
    ensures Value(s) > 0
  {
    if |s| > 1 {
      ValuePositive(s[..|s| - 1]);
    }
  }

  /** No more digits than the bound has. */
  lemma {:induction false} PrintedLength(n: nat, digits: nat)
    requires n < Power(digits) && digits > 0
    ensures |PrintNat(n)| <= digits
    decreases digits
  {
    if n >= 10 {
      assert digits > 1;
      PrintedLength(n / 10, digits - 1);
    }
  }

  function Power(digits: nat): nat {
    if digits == 0 then 1 else 10 * Power(digits - 1)
  }

  lemma Int64Length(n: nat)
    requires n <= -INT64_MIN
    ensures |PrintNat(n)| <= 19
  {
    assert Power(19) == 10_000_000_000_000_000_000 by {
      assert Power(10) == 10_000_000_000 by {
        assert Power(5) == 100_000;
      }
      assert Power(15) == 1_000_000_000_000_000;
    }
    PrintedLength(n, 19);
  }

  /** Every int64 has exactly one accepted text, the one a printer writes, and nothing else is accepted. */
  lemma ParsesExactlyThePrinted(s: string, n: int)
    ensures ParseInt(s) == Some(n) <==> InInt64(n) && s == Print(n)
  {
    if InInt64(n) && s == Print(n) {
      PrintedParses(n);
    }
    if ParseInt(s) == Some(n) {
      ParsedIsPrinted(s);
    }
  }

  lemma PrintedParses(n: int)
    requires InInt64(n)
    ensures ParseInt(Print(n)) == Some(n)
  {
    var m := if n < 0 then -n else n;
    PrintedValue(m);
    PrintIsCanonical(m);
    Int64Length(m);
    assert Unsigned(Print(n)) == PrintNat(m);
  }

  lemma ParsedIsPrinted(s: string)
    requires ParseInt(s).Some?
    ensures Print(ParseInt(s).value) == s
  {
    var digits := Unsigned(s);
    ValueIsPrinted(digits);
    if s[0] == '-' {
      ValuePositive(digits);
      assert s == "-" + digits;
    }
  }
}
