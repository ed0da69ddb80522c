/**
  Two things every command has in common, whatever its rule: the case of the letters it is written
  in never matters, and a refusal that names an argument names one that is there.
 */
module RedisCase {
  import opened Wrappers
  import opened RedisText
  import opened RedisRules
  import opened RedisGate

  function LowerAll(args: seq<string>): (r: seq<string>)
    ensures |r| == |args|
    ensures forall i :: 0 <= i < |args| ==> r[i] == Lower(args[i])
  {
    seq(|args|, i requires 0 <= i < |args| => Lower(args[i]))
  }

  // ----- numbers have no case -----

  lemma NotANumber(s: string, k: nat)
    requires k < |s| && !IsDigit(s[k]) && (k == 0 ==> s[0] != '-')
    ensures ParseInt(s) == None && !ValidCursor(s)
  {
    assert s[0] == '-' ==> k > 0 && Unsigned(s)[k - 1] == s[k];
  }

  lemma NumbersHaveNoCase(s: string)
    ensures ParseInt(Lower(s)) == ParseInt(s) && (ValidCursor(Lower(s)) <==> ValidCursor(s))
  {
    if k: nat :| k < |s| && Lower(s)[k] != s[k] {
      NotANumber(s, k);
      NotANumber(Lower(s), k);
    } else {
      assert Lower(s) == s;
    }
  }

  lemma DigitsHaveNoCase(s: string, c: char)
    requires IsDigit(c)
    ensures Lower(s) == [c] <==> s == [c]
  {
    if |s| == 1 {
      assert Lower(s)[0] == LowerChar(s[0]);
    }
  }

  /** Everything a rule looks at in an argument. */
  ghost predicate SameTo(a: string, b: string) {
    && Lower(a) == Lower(b) && ParseInt(a) == ParseInt(b) && (ValidCursor(a) <==> ValidCursor(b))
    && (a == "0" <==> b == "0") && (a == "1" <==> b == "1")
  }

  ghost predicate SameArgs(a: seq<string>, b: seq<string>) {
    |a| == |b| && forall i :: 0 <= i < |a| ==> SameTo(a[i], b[i])
  }

  lemma LoweredIsSame(args: seq<string>)
    ensures SameArgs(LowerAll(args), args)
  {
    forall i | 0 <= i < |args|
      ensures SameTo(LowerAll(args)[i], args[i])
    {
      LowerAgain(args[i]);
      NumbersHaveNoCase(args[i]);
      DigitsHaveNoCase(args[i], '0');
      DigitsHaveNoCase(args[i], '1');
    }
  }

  lemma SameSlice(a: seq<string>, b: seq<string>, lo: nat, hi: nat)
    requires SameArgs(a, b) && lo <= hi <= |a| && |a| == |b|
    ensures SameArgs(a[lo..hi], b[lo..hi])
  {
    hide SameTo;
  }

  // ----- no rule tells such arguments apart -----

  lemma ValuesAlike(limits: Limits, rule: ValueRule, a: seq<string>, b: seq<string>)
    requires SameArgs(a, b)
    ensures CheckValues(limits, rule, a) == CheckValues(limits, rule, b)
  {
    hide ParseInt, Lower, ValidCursor;
  }

  lemma TakenAlike(opt: Opt, a: seq<string>, b: seq<string>, i: nat)
    requires SameArgs(a, b) && i + opt.arity < |a| && |a| == |b|
    ensures Taken(opt, a, i) == Taken(opt, b, i)
  {
    hide ParseInt, Lower, ValidCursor;
  }

  lemma StepAlike(table: Table, limits: Limits, a: seq<string>, b: seq<string>, offset: nat, i: nat, seen: set<Key>)
    requires |a| == |b| && i < |a| && Lower(a[i]) == Lower(b[i])
    requires var found := Find(table, Lower(a[i]));
      found.Some? && i + found.value.arity < |a| ==>
        var opt := found.value;
        && CheckValues(limits, opt.rule, a[i + 1..i + 1 + opt.arity]) ==
           CheckValues(limits, opt.rule, b[i + 1..i + 1 + opt.arity])
        && Taken(opt, a, i) == Taken(opt, b, i)
        && Options(table, limits, a, offset, i + Taken(opt, a, i), seen + {opt.key}) ==
           Options(table, limits, b, offset, i + Taken(opt, b, i), seen + {opt.key})
    ensures Options(table, limits, a, offset, i, seen) == Options(table, limits, b, offset, i, seen)
  {
    hide Find, Lower, CheckValues, Taken;
  }

  lemma {:induction false} OptionsAlike(
    table: Table, limits: Limits, a: seq<string>, b: seq<string>, offset: nat, i: nat, seen: set<Key>)
    requires SameArgs(a, b) && i <= |a|
    ensures |a| == |b|
    ensures Options(table, limits, a, offset, i, seen) == Options(table, limits, b, offset, i, seen)
    decreases |a| - i
  {
    hide *;
    EndAlike(table, limits, a, b, offset, seen);
    if i < |a| {
      WordAlike(a, b, i);
      var found := Find(table, Lower(a[i]));
      if found.Some? && i + found.value.arity < |a| {
        OptionAlike(limits, found.value, a, b, i);
        OptionsAlike(table, limits, a, b, offset, i + Taken(found.value, a, i), seen + {found.value.key});
      }
      StepAlike(table, limits, a, b, offset, i, seen);
    }
  }

  lemma OptionAlike(limits: Limits, opt: Opt, a: seq<string>, b: seq<string>, i: nat)
    requires SameArgs(a, b) && i + opt.arity < |a| && |a| == |b|
    ensures CheckValues(limits, opt.rule, a[i + 1..i + 1 + opt.arity]) ==
            CheckValues(limits, opt.rule, b[i + 1..i + 1 + opt.arity])
    ensures Taken(opt, a, i) == Taken(opt, b, i)
  {
    hide *;
    SameSlice(a, b, i + 1, i + 1 + opt.arity);
    ValuesAlike(limits, opt.rule, a[i + 1..i + 1 + opt.arity], b[i + 1..i + 1 + opt.arity]);
    TakenAlike(opt, a, b, i);
  }

  lemma EndAlike(table: Table, limits: Limits, a: seq<string>, b: seq<string>, offset: nat, seen: set<Key>)
    requires SameArgs(a, b)
    ensures |a| == |b|
    ensures Options(table, limits, a, offset, |a|, seen) == Options(table, limits, b, offset, |a|, seen)
  {
    hide SameTo;
  }

  lemma WordAlike(a: seq<string>, b: seq<string>, i: nat)
    requires SameArgs(a, b) && i < |a|
    ensures |b| == |a| && Lower(a[i]) == Lower(b[i])
  {
    hide Lower, ParseInt, ValidCursor;
  }

  lemma ScansAlike(limits: Limits, a: seq<string>, b: seq<string>, offset: nat, extra: string)
    requires SameArgs(a, b)
    ensures ScanOptions(limits, a, offset, extra) == ScanOptions(limits, b, offset, extra)
  {
    hide *;
    OptionsAlike(ScanTable(extra), limits, a, b, offset, 0, {});
    ScanOptionsAre(limits, a, offset, extra);
    ScanOptionsAre(limits, b, offset, extra);
  }

  lemma ScanOptionsAre(limits: Limits, a: seq<string>, offset: nat, extra: string)
    ensures ScanOptions(limits, a, offset, extra) ==
              match Options(ScanTable(extra), limits, a, offset, 0, {})
              case Err(refusal) => Some(refusal)
              case Ok(seen) => if CountKey !in seen then Refuse(MissingCount) else None
  {
    hide Options;
  }

  lemma CursorsAlike(check: Check, limits: Limits, a: seq<string>, b: seq<string>)
    requires SameArgs(a, b) && (check.Scan? || check.KeyScan?)
    ensures Verdict(check, limits, a) == Verdict(check, limits, b)
  {
    var from := if check.Scan? then 1 else 2;
    if |a| >= from {
      SameSlice(a, b, from, |a|);
      assert a[from..] == a[from..|a|] && b[from..] == b[from..|b|];
      ScansAlike(limits, a[from..], b[from..], from, if check.Scan? then "type" else check.extra);
    }
    hide ParseInt, Lower, ValidCursor, ScanOptions;
  }

  lemma OptionedAlike(check: Check, limits: Limits, a: seq<string>, b: seq<string>)
    requires SameArgs(a, b)
    requires check.ListPos? || check.ZRange? || check.ZRangeBy? || check.XRange? || check.GeoSearch?
    ensures Verdict(check, limits, a) == Verdict(check, limits, b)
  {
    hide ParseInt, Lower, ValidCursor, Options;
    match check {
      case ListPos => if |a| >= 2 { OptionsAlike(ListPosTable, limits, a, b, 0, 2, {}); }
      case ZRange => if |a| >= 3 { OptionsAlike(ZRangeTable, limits, a, b, 0, 3, {}); }
      case ZRangeBy(scores) => if |a| >= 3 { OptionsAlike(ZRangeByTable(scores), limits, a, b, 0, 3, {}); }
      case XRange => if |a| >= 3 { OptionsAlike(XRangeTable, limits, a, b, 0, 3, {}); }
      case GeoSearch => if |a| >= 1 { OptionsAlike(GeoTable, limits, a, b, 0, 1, {}); }
    }
  }

  lemma PlainAlike(check: Check, limits: Limits, a: seq<string>, b: seq<string>)
    requires SameArgs(a, b)
    requires !check.ListPos? && !check.ZRange? && !check.ZRangeBy? && !check.XRange? && !check.GeoSearch?
    requires !check.Scan? && !check.KeyScan?
    ensures Verdict(check, limits, a) == Verdict(check, limits, b)
  {
    hide ParseInt, Lower, ValidCursor, Options;
  }

  lemma VerdictsAlike(check: Check, limits: Limits, a: seq<string>, b: seq<string>)
    requires SameArgs(a, b)
    ensures Verdict(check, limits, a) == Verdict(check, limits, b)
  {
    hide *;
    match check
    case Scan => CursorsAlike(check, limits, a, b);
    case KeyScan(_) => CursorsAlike(check, limits, a, b);
    case ListPos => OptionedAlike(check, limits, a, b);
    case ZRange => OptionedAlike(check, limits, a, b);
    case ZRangeBy(_) => OptionedAlike(check, limits, a, b);
    case XRange => OptionedAlike(check, limits, a, b);
    case GeoSearch => OptionedAlike(check, limits, a, b);
    case _ => PlainAlike(check, limits, a, b);
  }

  lemma {:induction false} BytesAlike(a: seq<string>)
    ensures Bytes(LowerAll(a)) == Bytes(a)
  {
    if a != [] {
      var front := a[..|a| - 1];
      BytesAlike(front);
      assert LowerAll(a)[..|a| - 1] == LowerAll(front);
    }
  }

  lemma ApplyAlike(entry: Entry, limits: Limits, argv: seq<string>, offset: nat)
    requires offset <= |argv|
    ensures Apply(entry, limits, LowerAll(argv), offset) == Apply(entry, limits, argv, offset)
  {
    hide LowerAll, Verdict, RuleID, SameArgs;
    TailAlike(argv, offset);
    VerdictsAlike(entry.check, limits, LowerAll(argv)[offset..], argv[offset..]);
  }

  lemma TailAlike(argv: seq<string>, offset: nat)
    requires offset <= |argv|
    ensures SameArgs(LowerAll(argv)[offset..], argv[offset..])
  {
    LoweredIsSame(argv);
    hide LowerAll, SameTo;
  }

  /** The whole decision is the same for the command written in lower case, keys and values included. */
  lemma CaseNeverMatters(c: Catalogue, limits: Limits, argv: seq<string>)
    ensures Decide(c, limits, LowerAll(argv)) == Decide(c, limits, argv)
  {
    hide Bytes, Lower, Apply, Lookup, Contains, LowerAll;
    BytesAlike(argv);
    if |argv| > 0 {
      LowerAgain(argv[0]);
      ApplyEntries(limits, argv, 1);
    }
    if |argv| > 1 {
      LowerAgain(argv[1]);
      ApplyEntries(limits, argv, 2);
    }
  }

  lemma ApplyEntries(limits: Limits, argv: seq<string>, offset: nat)
    requires offset <= |argv|
    ensures forall entry :: Apply(entry, limits, LowerAll(argv), offset) == Apply(entry, limits, argv, offset)
  {
    forall entry
      ensures Apply(entry, limits, LowerAll(argv), offset) == Apply(entry, limits, argv, offset)
    {
      ApplyAlike(entry, limits, argv, offset);
    }
  }

  // ----- refusals that name an argument -----

  predicate NamesOneOf(refusal: Option<Refusal>, args: seq<string>) {
    refusal.Some? ==>
      && (refusal.value.arg.Some? <==> refusal.value.reason == UnknownArgument)
      && (refusal.value.arg.Some? ==> refusal.value.arg.value < |args|)
  }

  lemma ValuesNamed(limits: Limits, rule: ValueRule, values: seq<string>)
    ensures NamesOneOf(CheckValues(limits, rule, values), values)
  {
    hide ParseInt, Lower;
  }

  predicate NamedBelow(refusal: Refusal, bound: nat) {
    && (refusal.arg.Some? <==> refusal.reason == UnknownArgument)
    && (refusal.arg.Some? ==> refusal.arg.value < bound)
  }

  lemma StepNamed(
    table: Table, limits: Limits, args: seq<string>, offset: nat, i: nat, seen: set<Key>, opt: Option<Opt>)
    requires i < |args| && Options(table, limits, args, offset, i, seen).Err? && opt == Find(table, Lower(args[i]))
    requires opt.Some? ==> opt.value.again != UnknownArgument
    requires opt.Some? && i + opt.value.arity < |args| ==>
               var values := args[i + 1..i + 1 + opt.value.arity];
               && NamesOneOf(CheckValues(limits, opt.value.rule, values), values)
               && var rest := Options(table, limits, args, offset, i + Taken(opt.value, args, i), seen + {opt.value.key});
                  rest.Err? ==> NamedBelow(rest.error, |args| + offset)
    ensures NamedBelow(Options(table, limits, args, offset, i, seen).error, |args| + offset)
  {
    hide Find, Lower, CheckValues, Taken;
  }

  lemma {:induction false} OptionsNamed(
    table: Table, limits: Limits, args: seq<string>, offset: nat, i: nat, seen: set<Key>)
    requires i <= |args| && Options(table, limits, args, offset, i, seen).Err?
    ensures NamedBelow(Options(table, limits, args, offset, i, seen).error, |args| + offset)
    decreases |args| - i
  {
    hide *;
    NotAtEnd(table, limits, args, offset, i, seen);
    var found := Find(table, Lower(args[i]));
    AgainNamed(table, Lower(args[i]));
    if found.Some? && i + found.value.arity < |args| {
      var opt := found.value;
      ValuesNamed(limits, opt.rule, args[i + 1..i + 1 + opt.arity]);
      if Options(table, limits, args, offset, i + Taken(opt, args, i), seen + {opt.key}).Err? {
        OptionsNamed(table, limits, args, offset, i + Taken(opt, args, i), seen + {opt.key});
      }
    }
    StepNamed(table, limits, args, offset, i, seen, found);
  }

  lemma NotAtEnd(table: Table, limits: Limits, args: seq<string>, offset: nat, i: nat, seen: set<Key>)
    requires i <= |args| && Options(table, limits, args, offset, i, seen).Err?
    ensures i < |args|
  {
  }

  lemma AgainNamed(table: Table, word: string)
    ensures Find(table, word).Some? ==> Find(table, word).value.again != UnknownArgument
  {
  }

  lemma ScansNamed(check: Check, limits: Limits, args: seq<string>)
    requires check.Scan? || check.KeyScan?
    ensures NamesOneOf(Verdict(check, limits, args), args)
  {
    hide ParseInt, Lower, ValidCursor, Options;
    var from, extra := if check.Scan? then 1 else 2, if check.Scan? then "type" else check.extra;
    if |args| >= from && Options(ScanTable(extra), limits, args[from..], from, 0, {}).Err? {
      OptionsNamed(ScanTable(extra), limits, args[from..], from, 0, {});
    }
  }

  lemma OptionedNamed(check: Check, table: Table, limits: Limits, args: seq<string>, from: nat)
    requires from <= |args| ==>
               match Options(table, limits, args, 0, from, {})
               case Err(refusal) => Verdict(check, limits, args) == Some(refusal)
               case Ok(_) => NamesOneOf(Verdict(check, limits, args), args)
    requires from > |args| ==> NamesOneOf(Verdict(check, limits, args), args)
    ensures NamesOneOf(Verdict(check, limits, args), args)
  {
    hide Verdict, Options;
    if from <= |args| && Options(table, limits, args, 0, from, {}).Err? {
      OptionsNamed(table, limits, args, 0, from, {});
    }
  }

  lemma VerdictsNamed(check: Check, limits: Limits, args: seq<string>)
    ensures NamesOneOf(Verdict(check, limits, args), args)
  {
    hide ParseInt, Lower, ValidCursor, Options, ScanOptions;
    match check
    case Scan => ScansNamed(check, limits, args);
    case KeyScan(_) => ScansNamed(check, limits, args);
    case ListPos => OptionedNamed(check, ListPosTable, limits, args, 2);
    case ZRange => OptionedNamed(check, ZRangeTable, limits, args, 3);
    case ZRangeBy(scores) => OptionedNamed(check, ZRangeByTable(scores), limits, args, 3);
    case XRange => OptionedNamed(check, XRangeTable, limits, args, 3);
    case GeoSearch => OptionedNamed(check, GeoTable, limits, args, 1);
    case _ =>
  }

  /** A refusal names an argument exactly when its reason is one the command does not accept there, and it is in the argv. */
  lemma NamedArgumentIsThere(c: Catalogue, limits: Limits, argv: seq<string>)
    ensures var d := Decide(c, limits, argv);
      && (d.arg.Some? <==> d.reason == UnknownArgument)
      && (d.arg.Some? ==> !d.allow && 0 < d.arg.value < |argv|)
  {
    hide Verdict, Bytes, Lower, Lookup, Contains;
    if |argv| >= 1 {
      AppliesNamed(limits, argv, 1);
    }
    if |argv| >= 2 {
      AppliesNamed(limits, argv, 2);
    }
    hide Apply;
  }

  lemma ApplyNamed(entry: Entry, limits: Limits, argv: seq<string>, offset: nat)
    requires 0 < offset <= |argv|
    ensures var d := Apply(entry, limits, argv, offset);
      && (d.arg.Some? <==> d.reason == UnknownArgument)
      && (d.arg.Some? ==> !d.allow && 0 < d.arg.value < |argv|)
  {
    hide Verdict, RuleID;
    VerdictsNamed(entry.check, limits, argv[offset..]);
  }

  lemma AppliesNamed(limits: Limits, argv: seq<string>, offset: nat)
    requires 0 < offset <= |argv|
    ensures forall entry ::
      var d := Apply(entry, limits, argv, offset);
      && (d.arg.Some? <==> d.reason == UnknownArgument)
      && (d.arg.Some? ==> !d.allow && 0 < d.arg.value < |argv|)
  {
    hide *;
    forall entry: Entry
      ensures var d := Apply(entry, limits, argv, offset);
        && (d.arg.Some? <==> d.reason == UnknownArgument)
        && (d.arg.Some? ==> !d.allow && 0 < d.arg.value < |argv|)
    {
      ApplyNamed(entry, limits, argv, offset);
    }
  }
}
