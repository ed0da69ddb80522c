/**
  The option scanners accept exactly a grammar: the arguments split, in one way only, into options
  of the table, no two excluding each other, each with the values it takes and those in range.
 */
module RedisGrammar {
  import opened Wrappers
  import opened RedisText
  import opened RedisRules

  /** One option as written: its word, its values, and the trailing word if there is one. */
  datatype Item = Item(opt: Opt, word: string, values: seq<string>, after: seq<string>)

  function Written(item: Item): seq<string> {
    [item.word] + item.values + item.after
  }

  function Flat(items: seq<Item>): seq<string> {
    if items == [] then [] else Written(items[0]) + Flat(items[1..])
  }

  function Keys(items: seq<Item>): set<Key> {
    set item <- items :: item.opt.key
  }

  predicate WellWritten(table: Table, limits: Limits, item: Item) {
    && Find(table, Lower(item.word)) == Some(item.opt)
    && |item.values| == item.opt.arity
    && CheckValues(limits, item.opt.rule, item.values).None?
    && (item.after == [] || (item.opt.trailer != "" && |item.after| == 1 && Lower(item.after[0]) == item.opt.trailer))
  }

  ghost predicate Splits(table: Table, limits: Limits, args: seq<string>, items: seq<Item>) {
    && args == Flat(items)
    && (forall k :: 0 <= k < |items| ==> WellWritten(table, limits, items[k]))
    && (forall k, m :: 0 <= k < m < |items| ==> items[k].opt.key != items[m].opt.key)
  }

  lemma FindIsSane(table: Table, word: string)
    requires Find(table, word).Some?
    ensures Find(table, word).value.word == word
    ensures Find(table, Find(table, word).value.trailer).None?
  {
  }

  lemma SliceOfDrop<T>(s: seq<T>, i: nat, a: nat, b: nat)
    requires a <= b && i + b <= |s|
    ensures s[i..][a..b] == s[i + a..i + b] && s[i..][b..] == s[i + b..]
    ensures a < b ==> s[i..][a] == s[i + a]
  {
  }

  /** The first option takes what the scanner takes. */
  lemma FirstTaken(table: Table, limits: Limits, args: seq<string>, i: nat, items: seq<Item>)
    requires i <= |args| && items != [] && Splits(table, limits, args[i..], items)
    ensures WellWritten(table, limits, items[0]) && i + items[0].opt.arity < |args|
    ensures args[i] == items[0].word && args[i + 1..i + 1 + items[0].opt.arity] == items[0].values
    ensures Taken(items[0].opt, args, i) == |Written(items[0])|
    ensures i + |Written(items[0])| <= |args| && Splits(table, limits, args[i + |Written(items[0])|..], items[1..])
  {
    var item, rest := items[0], items[1..];
    assert WellWritten(table, limits, item) && (|items| > 1 ==> WellWritten(table, limits, items[1]));
    assert args[i..] == Written(item) + Flat(rest);
    RestSplits(table, limits, args[i..], items);
    hide Splits, Flat, Find, CheckValues;
    TrailerTaken(table, limits, args, i, items);
    hide *;
    WrittenPlaces(item, Flat(rest));
    SliceOfDrop(args, i, 0, |Written(item)|);
    SliceOfDrop(args, i, 1, 1 + item.opt.arity);
    SliceOfDrop(args, i, 0, 1);
  }

  lemma WrittenPlaces(item: Item, rest: seq<string>)
    ensures var all := Written(item) + rest;
      && all[0] == item.word && all[1..1 + |item.values|] == item.values
      && all[1 + |item.values|..] == item.after + rest
      && all[|Written(item)|..] == rest
  {
  }

  lemma RestSplits(table: Table, limits: Limits, args: seq<string>, items: seq<Item>)
    requires Splits(table, limits, args, items) && items != []
    ensures Splits(table, limits, Flat(items[1..]), items[1..])
  {
    hide WellWritten, Flat;
  }

  lemma TrailerTaken(table: Table, limits: Limits, args: seq<string>, i: nat, items: seq<Item>)
    requires i <= |args| && items != [] && WellWritten(table, limits, items[0])
    requires args[i..] == Written(items[0]) + Flat(items[1..])
    requires |items| > 1 ==> WellWritten(table, limits, items[1])
    ensures i + items[0].opt.arity < |args| && Taken(items[0].opt, args, i) == |Written(items[0])|
  {
    hide Find, CheckValues, Lower, Flat;
    var item, rest := items[0], Flat(items[1..]);
    var at := i + 1 + item.opt.arity;
    TrailerIsNoWord(table, Lower(item.word), item.opt);
    AfterComes(item, rest, args, i);
    if items[1..] != [] {
      FlatBegins(items[1..]);
    } else {
      FlatEmpty();
    }
  }

  lemma TrailerIsNoWord(table: Table, word: string, opt: Opt)
    requires Find(table, word) == Some(opt)
    ensures Find(table, opt.trailer).None?
  {
    FindIsSane(table, word);
  }

  lemma FlatBegins(items: seq<Item>)
    requires items != []
    ensures Flat(items) != [] && Flat(items)[0] == items[0].word
  {
  }

  lemma FlatEmpty()
    ensures Flat([]) == []
  {
  }

  /** What comes after an option's values: its trailer, or what follows the option. */
  lemma AfterComes(item: Item, rest: seq<string>, args: seq<string>, i: nat)
    requires i <= |args| && args[i..] == Written(item) + rest
    ensures var at := i + 1 + |item.values|;
      && at <= |args| && |args| == at + |item.after| + |rest|
      && (item.after != [] ==> args[at] == item.after[0])
      && (item.after == [] && rest != [] ==> args[at] == rest[0])
  {
    var all := Written(item) + rest;
    var n := 1 + |item.values|;
    assert |args[i..]| == |all|;
    if item.after != [] {
      assert all[n] == item.after[0] && args[i..][n] == args[i + n];
    } else if rest != [] {
      assert all[n] == rest[0] && args[i..][n] == args[i + n];
    }
  }

  /** The scanner's step over an option it accepts. */
  lemma OptionsStep(
    table: Table, limits: Limits, args: seq<string>, offset: nat, i: nat, seen: set<Key>, opt: Opt)
    requires i + opt.arity < |args| && Find(table, Lower(args[i])) == Some(opt) && opt.key !in seen
    requires CheckValues(limits, opt.rule, args[i + 1..i + 1 + opt.arity]).None?
    ensures Options(table, limits, args, offset, i, seen) ==
              Options(table, limits, args, offset, i + Taken(opt, args, i), seen + {opt.key})
  {
    hide Find, CheckValues, Lower, Taken;
  }

  lemma OptionsEnd(table: Table, limits: Limits, args: seq<string>, offset: nat, i: nat, seen: set<Key>)
    requires i == |args|
    ensures Options(table, limits, args, offset, i, seen) == Ok(seen) && Items(table, args, i) == []
  {
  }

  lemma OptionsOk(table: Table, limits: Limits, args: seq<string>, offset: nat, i: nat, seen: set<Key>)
    requires i < |args| && Options(table, limits, args, offset, i, seen).Ok?
    ensures Find(table, Lower(args[i])).Some?
    ensures var opt := Find(table, Lower(args[i])).value;
      && opt.key !in seen && i + opt.arity < |args|
      && CheckValues(limits, opt.rule, args[i + 1..i + 1 + opt.arity]).None?
  {
    hide Find, CheckValues, Lower, Taken;
  }

  lemma SplitEnds(table: Table, limits: Limits, args: seq<string>, i: nat, items: seq<Item>)
    requires i <= |args| && Splits(table, limits, args[i..], items) && items == []
    ensures i == |args| && Keys(items) == {}
  {
    assert args[i..] == [];
  }

  /** Whatever splits, the scanner accepts, having seen just its keys. */
  lemma {:induction false} SplitIsAccepted(
    table: Table, limits: Limits, args: seq<string>, offset: nat, i: nat, seen: set<Key>, items: seq<Item>)
    requires i <= |args| && Splits(table, limits, args[i..], items) && Keys(items) !! seen
    ensures Options(table, limits, args, offset, i, seen) == Ok(seen + Keys(items))
    decreases |items|
  {
    hide *;
    if items == [] {
      SplitEnds(table, limits, args, i, items);
      OptionsEnd(table, limits, args, offset, i, seen);
      assert seen + Keys(items) == seen;
    } else {
      var item := items[0];
      FirstTaken(table, limits, args, i, items);
      FirstChecked(table, limits, item);
      KeysOfRest(table, limits, args[i..], items);
      SplitIsAccepted(table, limits, args, offset, i + |Written(item)|, seen + {item.opt.key}, items[1..]);
      OptionsStep(table, limits, args, offset, i, seen, item.opt);
      assert seen + {item.opt.key} + Keys(items[1..]) == seen + Keys(items);
    }
  }

  lemma FirstChecked(table: Table, limits: Limits, item: Item)
    requires WellWritten(table, limits, item)
    ensures Find(table, Lower(item.word)) == Some(item.opt) && CheckValues(limits, item.opt.rule, item.values).None?
  {
    hide Find, CheckValues;
  }

  lemma KeysOfRest(table: Table, limits: Limits, args: seq<string>, items: seq<Item>)
    requires items != [] && Splits(table, limits, args, items)
    ensures Keys(items) == {items[0].opt.key} + Keys(items[1..])
    ensures items[0].opt.key !in Keys(items[1..])
  {
    hide Flat, WellWritten;
  }

  /** The option written at `i`. */
  function ItemAt(opt: Opt, args: seq<string>, i: nat): Item
    requires i + opt.arity < |args|
  {
    Item(opt, args[i], args[i + 1..i + 1 + opt.arity], args[i + 1 + opt.arity..i + Taken(opt, args, i)])
  }

  /** The options of an accepted list of arguments. */
  function Items(table: Table, args: seq<string>, i: nat): seq<Item>
    requires i <= |args|
    decreases |args| - i
  {
    if i == |args| then []
    else
      match Find(table, Lower(args[i]))
      case None => []
      case Some(opt) =>
        if i + opt.arity >= |args| then []
        else [ItemAt(opt, args, i)] + Items(table, args, i + Taken(opt, args, i))
  }

  lemma ItemsStep(table: Table, args: seq<string>, i: nat, opt: Opt)
    requires i + opt.arity < |args| && Find(table, Lower(args[i])) == Some(opt)
    ensures Items(table, args, i) == [ItemAt(opt, args, i)] + Items(table, args, i + Taken(opt, args, i))
  {
    hide Find, Lower, Taken, ItemAt;
  }

  lemma ItemAtWritten(table: Table, limits: Limits, args: seq<string>, i: nat, opt: Opt)
    requires i + opt.arity < |args| && Find(table, Lower(args[i])) == Some(opt)
    requires CheckValues(limits, opt.rule, args[i + 1..i + 1 + opt.arity]).None?
    ensures WellWritten(table, limits, ItemAt(opt, args, i))
    ensures args[i..] == Written(ItemAt(opt, args, i)) + args[i + Taken(opt, args, i)..]
  {
    hide Find, CheckValues;
    Rejoined(args, i, 1 + opt.arity, Taken(opt, args, i));
  }

  lemma SplitsCons(table: Table, limits: Limits, args: seq<string>, item: Item, rest: seq<Item>)
    requires WellWritten(table, limits, item) && Splits(table, limits, args, rest)
    requires item.opt.key !in Keys(rest)
    ensures Splits(table, limits, Written(item) + args, [item] + rest)
    ensures Keys([item] + rest) == {item.opt.key} + Keys(rest)
  {
    hide WellWritten;
    var items := [item] + rest;
    assert items[1..] == rest;
    assert forall k :: 0 < k < |items| ==> items[k] == rest[k - 1];
  }

  lemma {:induction false} AcceptedSplits(
    table: Table, limits: Limits, args: seq<string>, offset: nat, i: nat, seen: set<Key>)
    requires i <= |args| && Options(table, limits, args, offset, i, seen).Ok?
    ensures Splits(table, limits, args[i..], Items(table, args, i)) && Keys(Items(table, args, i)) !! seen
    decreases |args| - i
  {
    hide *;
    if i == |args| {
      NothingSplits(table, limits, args, i);
    } else {
      OptionsOk(table, limits, args, offset, i, seen);
      var opt := Find(table, Lower(args[i])).value;
      var n := i + Taken(opt, args, i);
      OptionsStep(table, limits, args, offset, i, seen, opt);
      AcceptedSplits(table, limits, args, offset, n, seen + {opt.key});
      ItemsStep(table, args, i, opt);
      ItemAtWritten(table, limits, args, i, opt);
      ItemAtOpt(opt, args, i);
      SplitsCons(table, limits, args[n..], ItemAt(opt, args, i), Items(table, args, n));
    }
  }

  lemma NothingSplits(table: Table, limits: Limits, args: seq<string>, i: nat)
    requires i == |args|
    ensures Splits(table, limits, args[i..], Items(table, args, i)) && Keys(Items(table, args, i)) == {}
  {
    OptionsEnd(table, limits, args, 0, i, {});
    assert args[i..] == [];
  }

  lemma ItemAtOpt(opt: Opt, args: seq<string>, i: nat)
    requires i + opt.arity < |args|
    ensures ItemAt(opt, args, i).opt == opt
  {
  }

  lemma Rejoined(args: seq<string>, i: nat, m: nat, n: nat)
    requires 1 <= m <= n && i + n <= |args|
    ensures args[i..] == [args[i]] + args[i + 1..i + m] + args[i + m..i + n] + args[i + n..]
  {
  }

  /** The scanner accepts exactly the arguments that split, which they do in one way, and has seen exactly their keys. */
  lemma AcceptsExactlyTheGrammar(table: Table, limits: Limits, args: seq<string>, offset: nat, i: nat)
    requires i <= |args|
    ensures Options(table, limits, args, offset, i, {}).Ok? <==>
              exists items :: Splits(table, limits, args[i..], items)
    ensures forall items :: Splits(table, limits, args[i..], items) ==>
              Options(table, limits, args, offset, i, {}) == Ok(Keys(items)) && items == Items(table, args, i)
  {
    hide *;
    if Options(table, limits, args, offset, i, {}).Ok? {
      AcceptedSplits(table, limits, args, offset, i, {});
    }
    forall items | Splits(table, limits, args[i..], items)
      ensures Options(table, limits, args, offset, i, {}) == Ok(Keys(items)) && items == Items(table, args, i)
    {
      SplitIsAccepted(table, limits, args, offset, i, {}, items);
      SplitIsUnique(table, limits, args, i, items);
      assert {} + Keys(items) == Keys(items);
    }
  }

  /** There is one way to read the arguments. */
  lemma {:induction false} SplitIsUnique(table: Table, limits: Limits, args: seq<string>, i: nat, items: seq<Item>)
    requires i <= |args| && Splits(table, limits, args[i..], items)
    ensures items == Items(table, args, i)
    decreases |items|
  {
    hide *;
    if items == [] {
      SplitEnds(table, limits, args, i, items);
      OptionsEnd(table, limits, args, 0, i, {});
    } else {
      var item := items[0];
      FirstTaken(table, limits, args, i, items);
      FirstChecked(table, limits, item);
      AfterIs(table, limits, args, i, items);
      ItemsStep(table, args, i, item.opt);
      SplitIsUnique(table, limits, args, i + |Written(item)|, items[1..]);
    }
  }

  lemma AfterIs(table: Table, limits: Limits, args: seq<string>, i: nat, items: seq<Item>)
    requires i <= |args| && items != [] && Splits(table, limits, args[i..], items)
    ensures i + |Written(items[0])| <= |args| && |items[0].values| == items[0].opt.arity
    ensures i + items[0].opt.arity < |args| && ItemAt(items[0].opt, args, i) == items[0]
  {
    hide *;
    var item := items[0];
    FirstWritten(table, limits, args[i..], items);
    FirstTaken(table, limits, args, i, items);
    SliceOfDrop(args, i, 1 + item.opt.arity, |Written(item)|);
    AfterPlace(item, Flat(items[1..]));
    ItemIs(item, args, i);
  }

  lemma FirstWritten(table: Table, limits: Limits, all: seq<string>, items: seq<Item>)
    requires items != [] && Splits(table, limits, all, items)
    ensures var item := items[0];
      && all == Written(item) + Flat(items[1..])
      && |item.values| == item.opt.arity && |Written(item)| >= 1 + item.opt.arity
  {
    assert WellWritten(table, limits, items[0]);
    hide Find, CheckValues;
  }

  lemma ItemIs(item: Item, args: seq<string>, i: nat)
    requires i + item.opt.arity < |args| && i + 1 + item.opt.arity <= i + |Written(item)| <= |args|
    requires args[i] == item.word && args[i + 1..i + 1 + item.opt.arity] == item.values
    requires args[i + (1 + item.opt.arity)..i + |Written(item)|] == item.after
    requires Taken(item.opt, args, i) == |Written(item)|
    ensures ItemAt(item.opt, args, i) == item
  {
    hide Taken, Written;
  }

  lemma AfterPlace(item: Item, rest: seq<string>)
    ensures (Written(item) + rest)[1 + |item.values|..|Written(item)|] == item.after
  {
  }

  // ----- the commands that take options -----

  /** The options a command takes, and the argument they begin at. */
  function Grammar(check: Check): Option<(Table, nat)> {
    match check
    case Scan => Some((ScanTable("type"), 1))
    case KeyScan(extra) => Some((ScanTable(extra), 2))
    case ListPos => Some((ListPosTable, 2))
    case ZRange => Some((ZRangeTable, 3))
    case ZRangeBy(scores) => Some((ZRangeByTable(scores), 3))
    case XRange => Some((XRangeTable, 3))
    case GeoSearch => Some((GeoTable, 1))
    case _ => None
  }

  /** What is demanded besides the options themselves: which must be there, and which go together. */
  predicate Complete(check: Check, limits: Limits, args: seq<string>, keys: set<Key>) {
    match check
    case Scan => |args| >= 1 && ValidCursor(args[0]) && CountKey in keys
    case KeyScan(_) => |args| >= 2 && ValidCursor(args[1]) && CountKey in keys
    case ListPos => MaxlenKey in keys
    case ZRange =>
      && |args| >= 3
      && if ByScoreKey in keys then ByLexKey !in keys && LimitKey in keys
         else if ByLexKey in keys then WithScoresKey !in keys && LimitKey in keys
         else LimitKey !in keys && Window(limits, args[1], args[2]) == None
    case ZRangeBy(_) => LimitKey in keys
    case XRange => CountKey in keys
    case GeoSearch => FromKey in keys && ByKey in keys && CountKey in keys
    case _ => true
  }

  /** The scanner's own reading of a command's options. */
  function Scanned(check: Check, limits: Limits, args: seq<string>): Result<set<Key>, Refusal>
    requires Grammar(check).Some? && Grammar(check).value.1 <= |args|
  {
    var (table, from) := Grammar(check).value;
    if check.Scan? || check.KeyScan? then Options(table, limits, args[from..], from, 0, {})
    else Options(table, limits, args, 0, from, {})
  }

  lemma VerdictReads(check: Check, limits: Limits, args: seq<string>)
    requires Grammar(check).Some?
    ensures Verdict(check, limits, args) == None <==>
              && Grammar(check).value.1 <= |args|
              && Scanned(check, limits, args).Ok?
              && Complete(check, limits, args, Scanned(check, limits, args).value)
  {
    hide Options, Window, ValidCursor;
  }

  lemma ScannedSplits(check: Check, limits: Limits, args: seq<string>)
    requires Grammar(check).Some? && Grammar(check).value.1 <= |args|
    ensures var (table, from) := Grammar(check).value;
      && (Scanned(check, limits, args).Ok? <==> exists items :: Splits(table, limits, args[from..], items))
      && forall items :: Splits(table, limits, args[from..], items) ==> Scanned(check, limits, args) == Ok(Keys(items))
  {
    var (table, from) := Grammar(check).value;
    hide Options, Splits, Keys;
    if check.Scan? || check.KeyScan? {
      AcceptsExactlyTheGrammar(table, limits, args[from..], from, 0);
      assert args[from..][0..] == args[from..];
    } else {
      AcceptsExactlyTheGrammar(table, limits, args, 0, from);
    }
  }

  /**
    A command that takes options is accepted exactly when its arguments split into them, in the one
    way they can, with the options it demands.
   */
  lemma CommandsAcceptTheirGrammar(check: Check, limits: Limits, args: seq<string>)
    requires Grammar(check).Some?
    ensures var (table, from) := Grammar(check).value;
      Verdict(check, limits, args) == None <==>
        && from <= |args|
        && exists items :: Splits(table, limits, args[from..], items) && Complete(check, limits, args, Keys(items))
  {
    var (table, from) := Grammar(check).value;
    hide Verdict, Scanned, Complete, Splits, Keys;
    VerdictReads(check, limits, args);
    if from <= |args| {
      ScannedSplits(check, limits, args);
    }
  }
}
