/**
  Unpadded base64 in the URL-safe alphabet, section 5 of RFC 4648, with the reader's leniency: line
  breaks are passed over, and the low bits of a last letter that stand for nothing are ignored.
 */
module Base64 {
  import opened Wrappers

  type Byte = b: int | 0 <= b < 256
  type Bytes = seq<Byte>
  type Six = d: int | 0 <= d < 64

  function Letter(d: Six): char {
    if d < 26 then ('A' as int + d) as char
    else if d < 52 then ('a' as int + (d - 26)) as char
    else if d < 62 then ('0' as int + (d - 52)) as char
    else if d == 62 then '-' else '_'
  }

  function SixOf(c: char): (r: Option<Six>)
    ensures r.Some? ==> Letter(r.value) == c
  {
    if 'A' <= c <= 'Z' then Some(c as int - 'A' as int)
    else if 'a' <= c <= 'z' then Some(c as int - 'a' as int + 26)
    else if '0' <= c <= '9' then Some(c as int - '0' as int + 52)
    else if c == '-' then Some(62)
    else if c == '_' then Some(63)
    else None
  }

  lemma LetterIsSix(d: Six)
    ensures SixOf(Letter(d)) == Some(d)
  {
  }

  predicate IsBreak(c: char) { c == '\n' || c == '\r' }

  // ----- writing -----

  /** Three bytes at a time, each three as four sixes; the last one or two as two or three. */
  function Sixes(b: Bytes): seq<Six> {
    if b == [] then []
    else if |b| == 1 then [b[0] / 4, b[0] % 4 * 16]
    else if |b| == 2 then [b[0] / 4, b[0] % 4 * 16 + b[1] / 16, b[1] % 16 * 4]
    else [b[0] / 4, b[0] % 4 * 16 + b[1] / 16, b[1] % 16 * 4 + b[2] / 64, b[2] % 64] + Sixes(b[3..])
  }

  function Letters(sixes: seq<Six>): (s: string)
    ensures |s| == |sixes|
    ensures forall i :: 0 <= i < |s| ==> s[i] == Letter(sixes[i])
  {
    seq(|sixes|, i requires 0 <= i < |sixes| => Letter(sixes[i]))
  }

  function Encode(b: Bytes): string {
    Letters(Sixes(b))
  }

  // ----- reading -----

  function Unbroken(s: string): string {
    if s == [] then [] else if IsBreak(s[0]) then Unbroken(s[1..]) else [s[0]] + Unbroken(s[1..])
  }

  function ReadSixes(s: string): Option<seq<Six>> {
    if s == [] then Some([])
    else
      match (SixOf(s[0]), ReadSixes(s[1..]))
      case (Some(d), Some(rest)) => Some([d] + rest)
      case _ => None
  }

  function First(d: Six, e: Six): Byte { d * 4 + e / 16 }

  function Second(e: Six, f: Six): Byte { e % 16 * 16 + f / 4 }

  function Third(f: Six, g: Six): Byte { f % 4 * 64 + g }

  /** The bytes that fours of sixes stand for; a last six on its own stands for nothing. */
  function Joined(d: seq<Six>): Option<Bytes> {
    if d == [] then Some([])
    else if |d| == 1 then None
    else if |d| == 2 then Some([First(d[0], d[1])])
    else if |d| == 3 then Some([First(d[0], d[1]), Second(d[1], d[2])])
    else
      match Joined(d[4..])
      case Some(rest) => Some([First(d[0], d[1]), Second(d[1], d[2]), Third(d[2], d[3])] + rest)
      case None => None
  }

  function Decode(s: string): Option<Bytes> {
    match ReadSixes(Unbroken(s))
    case Some(sixes) => Joined(sixes)
    case None => None
  }

  // ----- what is read is what was written, however it was spelt -----

  /** How many values of the last six are read alike. */
  function Slack(bytes: nat): (n: nat)
    ensures n > 0
  {
    if bytes % 3 == 0 then 1 else if bytes % 3 == 1 then 16 else 4
  }

  /** The same sixes, but for the bits of the last that stand for nothing. */
  predicate SameSixes(d: seq<Six>, e: seq<Six>, slack: nat)
    requires slack > 0
  {
    && |d| == |e|
    && forall i :: 0 <= i < |d| ==> if i < |d| - 1 then d[i] == e[i] else d[i] / slack == e[i] / slack
  }

  /**
    A text for these bytes: their letters, broken into lines anywhere; where the last letter has bits
    that stand for nothing, any letter that has the others.
   */
  predicate Spells(s: string, b: Bytes) {
    var w, e := Unbroken(s), Encode(b);
    || w == e
    || (&& |w| == |e| > 0 && w[..|w| - 1] == e[..|e| - 1]
        && SixOf(w[|w| - 1]).Some? && SixOf(e[|e| - 1]).Some?
        && SixOf(w[|w| - 1]).value / Slack(|b|) == SixOf(e[|e| - 1]).value / Slack(|b|))
  }

  lemma FirstIs(a: Byte, d: Six, e: Six)
    ensures First(d, e) == a <==> d == a / 4 && e / 16 == a % 4
  {
  }

  lemma SecondIs(b: Byte, e: Six, f: Six)
    ensures Second(e, f) == b <==> e % 16 == b / 16 && f / 4 == b % 16
  {
  }

  lemma ThirdIs(c: Byte, f: Six, g: Six)
    ensures Third(f, g) == c <==> f % 4 == c / 64 && g == c % 64
  {
  }

  /** A six is its two parts. */
  lemma Parts(e: Six, n: nat, high: nat, low: nat)
    requires (n == 16 || n == 4) && low < n
    ensures e == high * n + low <==> e / n == high && e % n == low
  {
    if n == 16 {
      assert e == high * 16 + low <==> e / 16 == high && e % 16 == low;
    } else {
      assert e == high * 4 + low <==> e / 4 == high && e % 4 == low;
    }
  }

  lemma PairReads(a: Byte, d: Six, e: Six)
    ensures First(d, e) == a <==> d == a / 4 && e / 16 == (a % 4 * 16) / 16
  {
    FirstIs(a, d, e);
  }

  lemma TripleReads(a: Byte, b: Byte, d: Six, e: Six, f: Six)
    ensures First(d, e) == a && Second(e, f) == b <==>
            d == a / 4 && e == a % 4 * 16 + b / 16 && f / 4 == (b % 16 * 4) / 4
  {
    hide First, Second;
    FirstIs(a, d, e);
    SecondIs(b, e, f);
    Parts(e, 16, a % 4, b / 16);
    assert (b % 16 * 4) / 4 == b % 16;
  }

  lemma GroupReads(a: Byte, b: Byte, c: Byte, d: Six, e: Six, f: Six, g: Six)
    ensures First(d, e) == a && Second(e, f) == b && Third(f, g) == c <==>
            d == a / 4 && e == a % 4 * 16 + b / 16 && f == b % 16 * 4 + c / 64 && g == c % 64
  {
    hide First, Second, Third;
    FirstIs(a, d, e);
    SecondIs(b, e, f);
    ThirdIs(c, f, g);
    Parts(e, 16, a % 4, b / 16);
    Parts(f, 4, b % 16, c / 64);
  }

  lemma SlackRepeats(n: nat)
    requires n >= 3
    ensures Slack(n) == Slack(n - 3) && (n == 3 ==> Slack(n) == 1)
  {
  }

  lemma SixesSplit(b: Bytes)
    requires |b| >= 3
    ensures |Sixes(b)| >= 4 && Sixes(b)[4..] == Sixes(b[3..]) && (Sixes(b)[4..] == [] ==> |b| == 3)
    ensures Sixes(b)[..4] == [b[0] / 4, b[0] % 4 * 16 + b[1] / 16, b[1] % 16 * 4 + b[2] / 64, b[2] % 64]
  {
  }

  lemma SixesShort(b: Bytes)
    requires |b| < 3
    ensures |Sixes(b)| == if b == [] then 0 else |b| + 1
  {
  }

  lemma JoinedSplit(d: seq<Six>, b: Bytes)
    requires |d| >= 4
    ensures Joined(d) == Some(b) <==>
            |b| >= 3 && Joined(d[4..]) == Some(b[3..])
            && First(d[0], d[1]) == b[0] && Second(d[1], d[2]) == b[1] && Third(d[2], d[3]) == b[2]
  {
    hide First, Second, Third;
    var head := [First(d[0], d[1]), Second(d[1], d[2]), Third(d[2], d[3])];
    if Joined(d[4..]).Some? {
      var rest := Joined(d[4..]).value;
      assert (head + rest)[3..] == rest;
      assert |b| >= 3 && rest == b[3..] && head == b[..3] ==> head + rest == b;
      assert |b| >= 3 ==> b[..3] == [b[0], b[1], b[2]];
    }
  }

  lemma Fours<T>(s: seq<T>, a: T, b: T, c: T, d: T)
    requires |s| >= 4
    ensures s[..4] == [a, b, c, d] <==> s[0] == a && s[1] == b && s[2] == c && s[3] == d
  {
    assert s[..4] == [s[0], s[1], s[2], s[3]];
  }

  lemma SameSixesTail(d: seq<Six>, e: seq<Six>, slack: nat)
    requires slack > 0 && |d| >= 4 && |e| >= 4 && (slack == 1 || |e| > 4)
    ensures SameSixes(d, e, slack) <==> d[..4] == e[..4] && SameSixes(d[4..], e[4..], slack)
  {
    if d[..4] == e[..4] && SameSixes(d[4..], e[4..], slack) {
      forall i | 0 <= i < |d|
        ensures if i < |d| - 1 then d[i] == e[i] else d[i] / slack == e[i] / slack
      {
        assert if i < 4 then d[i] == d[..4][i] && e[i] == e[..4][i] else d[i] == d[4..][i - 4] && e[i] == e[4..][i - 4];
      }
    }
    if SameSixes(d, e, slack) {
      assert forall i :: 0 <= i < 4 ==> d[i] == e[i];
      assert forall i :: 0 <= i < |d| - 4 ==> d[4..][i] == d[i + 4] && e[4..][i] == e[i + 4];
    }
  }

  lemma TwoJoined(d: seq<Six>, b: Bytes)
    requires |d| == 2
    ensures Joined(d) == Some(b) <==> SameSixes(d, Sixes(b), Slack(|b|))
  {
    if |b| == 1 {
      PairReads(b[0], d[0], d[1]);
      assert b == [b[0]];
    } else if |b| >= 3 {
      SixesSplit(b);
    }
  }

  lemma ThreeJoined(d: seq<Six>, b: Bytes)
    requires |d| == 3
    ensures Joined(d) == Some(b) <==> SameSixes(d, Sixes(b), Slack(|b|))
  {
    if |b| == 2 {
      TripleReads(b[0], b[1], d[0], d[1], d[2]);
      assert b == [b[0], b[1]];
      hide First, Second;
      var e := Sixes(b);
      assert SameSixes(d, e, 4) <==> d[0] == e[0] && d[1] == e[1] && d[2] / 4 == e[2] / 4;
    } else if |b| >= 3 {
      SixesSplit(b);
    }
  }

  lemma GroupJoined(d: seq<Six>, b: Bytes)
    requires |d| >= 4 && |b| >= 3
    requires Joined(d[4..]) == Some(b[3..]) <==> SameSixes(d[4..], Sixes(b[3..]), Slack(|b| - 3))
    ensures Joined(d) == Some(b) <==> SameSixes(d, Sixes(b), Slack(|b|))
  {
    hide *;
    JoinedSplit(d, b);
    SixesSplit(b);
    SlackRepeats(|b|);
    SameSixesTail(d, Sixes(b), Slack(|b|));
    FourRead(d, b);
  }

  lemma FourRead(d: seq<Six>, b: Bytes)
    requires |d| >= 4 && |b| >= 3
    ensures d[..4] == [b[0] / 4, b[0] % 4 * 16 + b[1] / 16, b[1] % 16 * 4 + b[2] / 64, b[2] % 64] <==>
            First(d[0], d[1]) == b[0] && Second(d[1], d[2]) == b[1] && Third(d[2], d[3]) == b[2]
  {
    hide *;
    GroupReads(b[0], b[1], b[2], d[0], d[1], d[2], d[3]);
    Fours(d, b[0] / 4, b[0] % 4 * 16 + b[1] / 16, b[1] % 16 * 4 + b[2] / 64, b[2] % 64);
  }

  /** Sixes stand for these bytes if and only if they are the sixes these bytes are written as, but for the slack. */
  lemma {:induction false} JoinedExactly(d: seq<Six>, b: Bytes)
    ensures Joined(d) == Some(b) <==> SameSixes(d, Sixes(b), Slack(|b|))
    decreases |d|
  {
    if |d| == 2 {
      TwoJoined(d, b);
    } else if |d| == 3 {
      ThreeJoined(d, b);
    } else if |d| >= 4 && |b| >= 3 {
      hide *;
      JoinedExactly(d[4..], b[3..]);
      GroupJoined(d, b);
    } else if |d| >= 4 {
      JoinedSplit(d, b);
      SixesShort(b);
      hide Joined, Sixes;
    } else if |b| >= 3 {
      SixesSplit(b);
    }
  }

  /** Letters are read as the sixes they were written for, and nothing else is. */
  lemma {:induction false} ReadsExactly(s: string, d: seq<Six>)
    ensures ReadSixes(s) == Some(d) <==> s == Letters(d)
  {
    if s != [] && d != [] {
      hide *;
      ReadsExactly(s[1..], d[1..]);
      LettersStep(s, d);
      ReadStep(s, d);
    }
  }

  lemma LettersStep(s: string, d: seq<Six>)
    requires s != [] && d != []
    ensures s == Letters(d) <==> SixOf(s[0]) == Some(d[0]) && s[1..] == Letters(d[1..])
  {
    LetterIsSix(d[0]);
    hide SixOf, Letter;
    assert Letters(d) == [Letter(d[0])] + Letters(d[1..]);
    assert s == [s[0]] + s[1..];
  }

  lemma ReadStep(s: string, d: seq<Six>)
    requires s != [] && d != []
    ensures ReadSixes(s) == Some(d) <==> SixOf(s[0]) == Some(d[0]) && ReadSixes(s[1..]) == Some(d[1..])
  {
    hide SixOf;
    assert d == [d[0]] + d[1..];
  }

  lemma LastLetter(d: seq<Six>)
    requires d != []
    ensures var w := Letters(d); w[..|w| - 1] == Letters(d[..|d| - 1]) && SixOf(w[|w| - 1]) == Some(d[|d| - 1])
  {
    LetterIsSix(d[|d| - 1]);
    hide SixOf, Letter;
  }

  lemma LettersApart(d: seq<Six>, e: seq<Six>)
    ensures Letters(d) == Letters(e) <==> d == e
  {
    ReadsExactly(Letters(d), d);
    ReadsExactly(Letters(e), e);
    hide ReadSixes, Letters;
  }

  lemma LastApart(d: seq<Six>, e: seq<Six>, slack: nat)
    requires slack > 0 && |d| == |e| > 0
    ensures SameSixes(d, e, slack) <==> d[..|d| - 1] == e[..|e| - 1] && d[|d| - 1] / slack == e[|e| - 1] / slack
  {
    if d[..|d| - 1] == e[..|e| - 1] {
      assert forall i :: 0 <= i < |d| - 1 ==> d[i] == d[..|d| - 1][i] == e[..|e| - 1][i] == e[i];
    }
  }

  /** Sixes alike are letters that spell alike. */
  lemma SameSixesSpell(s: string, d: seq<Six>, b: Bytes)
    requires Unbroken(s) == Letters(d)
    ensures SameSixes(d, Sixes(b), Slack(|b|)) <==> Spells(s, b)
  {
    hide Unbroken, SixOf, Sixes, Slack, Letters, Letter;
    var e, slack := Sixes(b), Slack(|b|);
    LettersApart(d, e);
    if |d| == |e| > 0 {
      LastLetter(d);
      LastLetter(e);
      LettersApart(d[..|d| - 1], e[..|e| - 1]);
      LastApart(d, e, slack);
    }
  }

  lemma LastReads(w: string, d: seq<Six>, x: Six)
    requires w != [] && w[..|w| - 1] == Letters(d) && SixOf(w[|w| - 1]) == Some(x)
    ensures w == Letters(d + [x])
  {
    hide SixOf, Letter;
    assert w == w[..|w| - 1] + [w[|w| - 1]];
  }

  lemma SpeltReads(s: string, b: Bytes)
    requires Spells(s, b)
    ensures ReadSixes(Unbroken(s)).Some?
  {
    hide Unbroken, SixOf, Sixes, Slack, Letters, Letter, ReadSixes;
    var w, e := Unbroken(s), Encode(b);
    if w == e {
      ReadsExactly(w, Sixes(b));
    } else {
      LastLetter(Sixes(b));
      LastReads(w, Sixes(b)[..|e| - 1], SixOf(w[|w| - 1]).value);
      ReadsExactly(w, Sixes(b)[..|e| - 1] + [SixOf(w[|w| - 1]).value]);
    }
  }

  /** A text is read as some bytes exactly when it is one of their spellings. */
  lemma DecodesExactly(s: string, b: Bytes)
    ensures Decode(s) == Some(b) <==> Spells(s, b)
  {
    var sixes := ReadSixes(Unbroken(s));
    if Spells(s, b) {
      SpeltReads(s, b);
    }
    if sixes.Some? {
      ReadsExactly(Unbroken(s), sixes.value);
      hide Unbroken, Sixes, Slack, Letters, ReadSixes, Joined, Spells, SameSixes;
      SameSixesSpell(s, sixes.value, b);
      JoinedExactly(sixes.value, b);
    }
  }

  lemma {:induction false} NoneBroken(s: string)
    requires forall i :: 0 <= i < |s| ==> !IsBreak(s[i])
    ensures Unbroken(s) == s
  {
    if s != [] {
      NoneBroken(s[1..]);
    }
  }

  lemma LettersAreLetters(d: seq<Six>)
    ensures forall i :: 0 <= i < |d| ==> !IsBreak(Letters(d)[i]) && Letters(d)[i] != '.'
  {
  }

  /** What was written is read back, and its letters break no line and hold no stop. */
  lemma RoundTrip(b: Bytes)
    ensures Decode(Encode(b)) == Some(b)
    ensures '.' !in Encode(b) && (b != [] ==> Encode(b) != [])
  {
    LettersAreLetters(Sixes(b));
    NoneBroken(Encode(b));
    DecodesExactly(Encode(b), b);
    hide Unbroken, Letters, Decode, Slack;
    if b != [] {
      SixesSome(b);
    }
  }

  lemma SixesSome(b: Bytes)
    requires b != []
    ensures Sixes(b) != []
  {
  }

  lemma {:induction false} StopStaysUnread(s: string)
    requires '.' in s
    ensures Decode(s) == None
  {
    StopStays(s);
    StopUnread(Unbroken(s));
  }

  lemma {:induction false} StopStays(s: string)
    requires '.' in s
    ensures '.' in Unbroken(s)
  {
    if s[0] != '.' {
      StopStays(s[1..]);
    }
  }

  lemma {:induction false} StopUnread(s: string)
    requires '.' in s
    ensures ReadSixes(s) == None
  {
    if s[0] != '.' {
      StopUnread(s[1..]);
    }
  }

  /** A line broken anywhere is read as if it were not. */
  lemma {:induction false} BreaksAnywhere(s: string, t: string, c: char)
    requires IsBreak(c)
    ensures Unbroken(s + [c] + t) == Unbroken(s + t)
  {
    if s == [] {
      assert s + [c] + t == [c] + t && ([c] + t)[1..] == t && s + t == t;
    } else {
      BreaksAnywhere(s[1..], t, c);
      assert (s + [c] + t)[1..] == s[1..] + [c] + t && (s + t)[1..] == s[1..] + t;
    }
  }

  /** The last letter's bits that stand for nothing may be anything. */
  lemma IgnoredBits(b: Bytes, x: Six)
    requires b != [] && Sixes(b) != []
    requires x / Slack(|b|) == Sixes(b)[|Sixes(b)| - 1] / Slack(|b|)
    ensures Decode(Encode(b)[..|Sixes(b)| - 1] + [Letter(x)]) == Some(b)
  {
    hide *;
    var e := Sixes(b);
    var d := e[..|e| - 1] + [x];
    OtherLast(b, x);
    LettersAreLetters(d);
    NoneBroken(Letters(d));
    ReadsExactly(Letters(d), d);
    LastApart(d, e, Slack(|b|));
    JoinedExactly(d, b);
    DecodeJoins(Letters(d), d);
  }

  lemma OtherLast(b: Bytes, x: Six)
    requires Sixes(b) != []
    ensures Letters(Sixes(b)[..|Sixes(b)| - 1] + [x]) == Encode(b)[..|Sixes(b)| - 1] + [Letter(x)]
  {
    hide Sixes, Letter;
  }

  lemma DecodeJoins(s: string, d: seq<Six>)
    requires ReadSixes(Unbroken(s)) == Some(d)
    ensures Decode(s) == Joined(d)
  {
    hide Unbroken, ReadSixes, Joined;
  }

  // ----- the bits and the letters -----

  /** The alphabet, in order. */
  lemma Alphabet(d: Six)
    ensures Letter(d) ==
              if d < 26 then "ABCDEFGHIJKLMNOPQRSTUVWXYZ"[d]
              else if d < 52 then "abcdefghijklmnopqrstuvwxyz"[d - 26]
              else "0123456789-_"[d - 52]
  {
  }

  /** What a run of sixes counts to, the first the most. */
  function Counts(sixes: seq<Six>): nat {
    if sixes == [] then 0 else Counts(sixes[..|sixes| - 1]) * 64 + sixes[|sixes| - 1]
  }

  lemma CountsTwo(a: Six, b: Six)
    ensures Counts([a, b]) == a as int * 64 + b
  {
    assert [a, b][..1] == [a] && [a][..0] == [];
    assert Counts([a]) == a;
  }

  lemma CountsThree(a: Six, b: Six, c: Six)
    ensures Counts([a, b, c]) == a as int * 4096 + b as int * 64 + c
  {
    assert [a, b, c][..2] == [a, b];
    CountsTwo(a, b);
  }

  lemma CountsFour(a: Six, b: Six, c: Six, d: Six)
    ensures Counts([a, b, c, d]) == a as int * 262144 + b as int * 4096 + c as int * 64 + d
  {
    assert [a, b, c, d][..3] == [a, b, c];
    CountsThree(a, b, c);
  }

  /**
    Four letters stand for three bytes as one number of 24 bits; two or three at the end for one or
    two bytes, and the bits left over are zero.
   */
  lemma BitsAreKept(b: Bytes)
    ensures |b| == 1 ==> |Sixes(b)| == 2 && Counts(Sixes(b)) == b[0] as int * 16
    ensures |b| == 2 ==> |Sixes(b)| == 3 && Counts(Sixes(b)) == b[0] as int * 1024 + b[1] as int * 4
    ensures |b| >= 3 ==>
              && |Sixes(b)| == 4 + |Sixes(b[3..])| && Sixes(b)[4..] == Sixes(b[3..])
              && Counts(Sixes(b)[..4]) == b[0] as int * 65536 + b[1] as int * 256 + b[2]
  {
    var d := Sixes(b);
    hide Counts;
    if |b| == 1 {
      CountsTwo(d[0], d[1]);
    } else if |b| == 2 {
      CountsThree(d[0], d[1], d[2]);
    } else if |b| >= 3 {
      assert d[..4] == [d[0], d[1], d[2], d[3]];
      CountsFour(d[0], d[1], d[2], d[3]);
    }
  }
}
