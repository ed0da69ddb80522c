/**
  The catalogue search (internal/db/schema.go): a plain substring as a LIKE pattern, and the flat rows
  of the catalogue grouped into tables up to a budget.
 */
module SchemaSearch {
  import opened Wrappers

  // ----- the pattern -----

  /** `!` is the statements' escape character. */
  predicate Special(c: char) { c == '!' || c == '%' || c == '_' }

  function Escaped(s: string): string {
    if s == "" then "" else (if Special(s[0]) then ['!', s[0]] else [s[0]]) + Escaped(s[1..])
  }

  function SchemaPattern(trim: string -> string, runes: string -> nat, pattern: string): Option<string> {
    var text := trim(pattern);
    if runes(text) < 2 then None else Some("%" + Escaped(text) + "%")
  }

  /** What LIKE means, with `!` to escape: `%` is any text, `_` any one character. */
  predicate Like(text: string, pattern: string)
    decreases |text| + |pattern|
  {
    if pattern == "" then text == ""
    else if pattern[0] == '%' then Like(text, pattern[1..]) || (text != "" && Like(text[1..], pattern))
    else if pattern[0] == '!' && |pattern| > 1 then
      text != "" && text[0] == pattern[1] && Like(text[1..], pattern[2..])
    else text != "" && (pattern[0] == '_' || text[0] == pattern[0]) && Like(text[1..], pattern[1..])
  }

  /** A trailing `%` is met by anything. */
  lemma {:induction false} AnythingAfter(text: string)
    ensures Like(text, "%")
  {
    if text == "" {
      assert "%"[1..] == "";
    } else {
      AnythingAfter(text[1..]);
    }
  }

  lemma {:induction false} EscapedIsLiteral(text: string, s: string)
    ensures Like(text, Escaped(s) + "%") <==> s <= text
  {
    if s == "" {
      assert Escaped(s) + "%" == "%";
      AnythingAfter(text);
    } else {
      var first := if Special(s[0]) then ['!', s[0]] else [s[0]];
      var pattern := Escaped(s) + "%";
      assert pattern == first + (Escaped(s[1..]) + "%");
      assert pattern[|first|..] == Escaped(s[1..]) + "%";
      if text != "" {
        EscapedIsLiteral(text[1..], s[1..]);
        assert s == [s[0]] + s[1..] && text == [text[0]] + text[1..];
      }
    }
  }

  ghost predicate Contains(text: string, s: string) {
    exists k :: 0 <= k <= |text| && s <= text[k..]
  }

  lemma ContainsLater(text: string, s: string)
    requires text != ""
    ensures Contains(text, s) <==> s <= text || Contains(text[1..], s)
  {
    assert text[0..] == text;
    if Contains(text, s) && !(s <= text) {
      var k :| 0 <= k <= |text| && s <= text[k..];
      assert text[1..][k - 1..] == text[k..];
    }
    if Contains(text[1..], s) {
      var k :| 0 <= k <= |text[1..]| && s <= text[1..][k..];
      assert text[1..][k..] == text[k + 1..];
    }
  }

  /** A search finds exactly the names the caller's text is in, `%` and `_` and all. */
  lemma {:induction false} PatternFindsTheSubstring(text: string, s: string)
    ensures Like(text, "%" + Escaped(s) + "%") <==> Contains(text, s)
    decreases |text|
  {
    var pattern := "%" + Escaped(s) + "%";
    assert pattern[1..] == Escaped(s) + "%";
    EscapedIsLiteral(text, s);
    if text == "" {
      assert text[0..] == text;
    } else {
      PatternFindsTheSubstring(text[1..], s);
      ContainsLater(text, s);
    }
  }

  /** The pattern a search is given finds what the caller typed, once trimmed; less than two characters is no search. */
  lemma SearchFindsWhatWasTyped(trim: string -> string, runes: string -> nat, typed: string, text: string)
    ensures SchemaPattern(trim, runes, typed).None? <==> runes(trim(typed)) < 2
    ensures SchemaPattern(trim, runes, typed).Some? ==>
              (Like(text, SchemaPattern(trim, runes, typed).value) <==> Contains(text, trim(typed)))
  {
    PatternFindsTheSubstring(text, trim(typed));
    hide Like, Contains;
  }

  // ----- the tables -----

  datatype Column = Column(name: string, dataType: string, nullable: bool)

  datatype Table = Table(schema: string, table: string, columns: seq<Column>, columnsTruncated: bool)

  /** A catalogue row as its values decode; `None` is a value of no use, `wide` that it has seven. */
  datatype Row = Row(
    wide: bool, schema: Option<string>, table: Option<string>, tableMatched: Option<bool>, columnMatched: Option<bool>,
    column: Option<Column>)

  const SCHEMA_TABLE_BYTES: nat := 72
  const SCHEMA_COLUMN_BYTES: nat := 48

  /** What a row says: a table, and a column of it that matched. */
  datatype Found = Found(schema: string, table: string, column: Option<Column>)

  function Read(row: Row): Option<Found> {
    if !row.wide || row.schema.None? || row.table.None? || row.tableMatched.None? || row.columnMatched.None? then None
    else if !row.tableMatched.value && !row.columnMatched.value then None
    else if row.columnMatched.value && row.column.None? && !row.tableMatched.value then None
    else Some(Found(row.schema.value, row.table.value, if row.columnMatched.value then row.column else None))
  }

  function KeyOf(f: Found): string { f.schema + "\0" + f.table }

  function TableKey(t: Table): string { t.schema + "\0" + t.table }

  predicate Opened(found: seq<Found>, key: string) {
    exists i :: 0 <= i < |found| && KeyOf(found[i]) == key
  }

  /** What a row costs after these: its column, and its table if it is the first of it. */
  function Cost(before: seq<Found>, f: Found): nat {
    (if Opened(before, KeyOf(f)) then 0 else SCHEMA_TABLE_BYTES + |f.schema| + |f.table|)
    + (if f.column.Some? then SCHEMA_COLUMN_BYTES + |f.column.value.name| + |f.column.value.dataType| else 0)
  }

  function Charge(found: seq<Found>): nat {
    if found == [] then 0
    else Charge(found[..|found| - 1]) + Cost(found[..|found| - 1], found[|found| - 1])
  }

  /** The columns the rows name for a table, in order. */
  function ColumnsOf(found: seq<Found>, key: string): seq<Column> {
    if found == [] then []
    else
      var f := found[|found| - 1];
      ColumnsOf(found[..|found| - 1], key) + if KeyOf(f) == key && f.column.Some? then [f.column.value] else []
  }

  /** The tables named, each where it is first named. */
  function Keys(found: seq<Found>): seq<string> {
    if found == [] then []
    else
      var before, key := found[..|found| - 1], KeyOf(found[|found| - 1]);
      Keys(before) + if Opened(before, key) then [] else [key]
  }

  /** The tables the rows name, in order, with the columns they name for each. */
  ghost predicate Groups(found: seq<Found>, out: seq<Table>) {
    && |out| == |Keys(found)|
    && forall i :: 0 <= i < |out| ==>
         TableKey(out[i]) == Keys(found)[i] && out[i].columns == ColumnsOf(found, TableKey(out[i]))
  }

  function FoundIn(rows: seq<Row>): seq<Found> {
    if rows == [] then []
    else
      FoundIn(rows[..|rows| - 1]) +
      match Read(rows[|rows| - 1])
      case Some(f) => [f]
      case None => []
  }

  /** The most rows whose tables and columns the budget pays for. */
  ghost predicate Longest(found: seq<Found>, budget: int, n: nat) {
    && n <= |found| && (n > 0 ==> Charge(found[..n]) <= budget)
    && forall k :: n < k <= |found| ==> Charge(found[..k]) > budget
  }

  /** Just the table the cut landed inside, if it was open, says that its columns are not all there. */
  ghost predicate Marked(found: seq<Found>, n: nat, out: seq<Table>)
    requires n <= |found|
  {
    forall i :: 0 <= i < |out| ==> (out[i].columnsTruncated <==> n < |found| && TableKey(out[i]) == KeyOf(found[n]))
  }

  lemma FoundMore(rows: seq<Row>, i: nat)
    requires i < |rows|
    ensures FoundIn(rows[..i + 1]) == FoundIn(rows[..i]) + if Read(rows[i]).Some? then [Read(rows[i]).value] else []
  {
    assert rows[..i + 1][..i] == rows[..i];
  }

  lemma {:induction false} FoundPrefix(rows: seq<Row>, i: nat)
    requires i <= |rows|
    ensures FoundIn(rows[..i]) <= FoundIn(rows)
    decreases |rows| - i
  {
    if i == |rows| {
      assert rows[..i] == rows;
    } else {
      FoundMore(rows, i);
      FoundPrefix(rows, i + 1);
    }
  }

  lemma ChargeMore(found: seq<Found>, f: Found)
    ensures Charge(found + [f]) == Charge(found) + Cost(found, f)
  {
    assert (found + [f])[..|found|] == found;
  }

  lemma {:induction false} ChargeGrows(found: seq<Found>, k: nat, m: nat)
    requires k <= m <= |found|
    ensures Charge(found[..k]) <= Charge(found[..m])
    decreases m - k
  {
    if k < m {
      ChargeMore(found[..k], found[k]);
      assert found[..k + 1] == found[..k] + [found[k]];
      ChargeGrows(found, k + 1, m);
    }
  }

  lemma OpenedMore(found: seq<Found>, f: Found, key: string)
    ensures Opened(found + [f], key) <==> Opened(found, key) || KeyOf(f) == key
  {
    if Opened(found, key) {
      var i :| 0 <= i < |found| && KeyOf(found[i]) == key;
      assert (found + [f])[i] == found[i];
    }
    assert (found + [f])[|found|] == f;
  }

  lemma KeysMore(found: seq<Found>, f: Found)
    ensures Keys(found + [f]) == Keys(found) + if Opened(found, KeyOf(f)) then [] else [KeyOf(f)]
  {
    assert (found + [f])[..|found|] == found;
  }

  lemma ColumnsMore(found: seq<Found>, f: Found, key: string)
    ensures ColumnsOf(found + [f], key) ==
              ColumnsOf(found, key) + if KeyOf(f) == key && f.column.Some? then [f.column.value] else []
  {
    assert (found + [f])[..|found|] == found;
  }

  lemma {:induction false} KeysAreOpened(found: seq<Found>, i: nat)
    requires i < |Keys(found)|
    ensures Opened(found, Keys(found)[i])
    ensures forall j :: 0 <= j < |Keys(found)| && j != i ==> Keys(found)[j] != Keys(found)[i]
  {
    var before, f := found[..|found| - 1], found[|found| - 1];
    assert found == before + [f];
    OpenedMore(before, f, Keys(found)[i]);
    if i < |Keys(before)| {
      KeysAreOpened(before, i);
    } else {
      forall j | 0 <= j < |Keys(before)|
        ensures Keys(before)[j] != KeyOf(f)
      {
        KeysAreOpened(before, j);
      }
    }
  }

  lemma {:induction false} UnnamedHasNoColumns(found: seq<Found>, key: string)
    requires !Opened(found, key)
    ensures ColumnsOf(found, key) == []
  {
    if found != [] {
      assert KeyOf(found[|found| - 1]) != key;
      assert forall i :: 0 <= i < |found| - 1 ==> found[..|found| - 1][i] == found[i];
      UnnamedHasNoColumns(found[..|found| - 1], key);
    }
  }

  /** A row of a table not there yet. */
  lemma GroupsOpened(found: seq<Found>, out: seq<Table>, f: Found)
    requires Groups(found, out) && !Opened(found, KeyOf(f))
    ensures Groups(found + [f],
              out + [Table(f.schema, f.table, if f.column.Some? then [f.column.value] else [], false)])
  {
    KeysMore(found, f);
    UnnamedHasNoColumns(found, KeyOf(f));
    ColumnsMore(found, f, KeyOf(f));
    forall i | 0 <= i < |out|
      ensures ColumnsOf(found + [f], TableKey(out[i])) == ColumnsOf(found, TableKey(out[i]))
    {
      KeysAreOpened(found, i);
      ColumnsMore(found, f, TableKey(out[i]));
    }
    hide Keys, ColumnsOf, Opened;
  }

  /** A row of one that is. */
  lemma GroupsExtended(found: seq<Found>, out: seq<Table>, f: Found, at: nat)
    requires Groups(found, out) && at < |out| && TableKey(out[at]) == KeyOf(f)
    ensures Groups(found + [f],
              out[at := out[at].(columns := out[at].columns + if f.column.Some? then [f.column.value] else [])])
  {
    KeysMore(found, f);
    KeysAreOpened(found, at);
    forall i | 0 <= i < |out|
      ensures ColumnsOf(found + [f], TableKey(out[i])) ==
                ColumnsOf(found, TableKey(out[i])) + if i == at && f.column.Some? then [f.column.value] else []
    {
      ColumnsMore(found, f, TableKey(out[i]));
    }
    hide Keys, ColumnsOf, Opened;
  }

  /** Where in the answer each open table is. */
  ghost predicate Places(found: seq<Found>, out: seq<Table>, byName: map<string, nat>) {
    && (forall key :: key in byName <==> Opened(found, key))
    && (forall key :: key in byName ==> byName[key] < |out| && TableKey(out[byName[key]]) == key)
  }

  lemma KeyOfTable(f: Found)
    ensures forall columns, cut :: TableKey(Table(f.schema, f.table, columns, cut)) == KeyOf(f)
  {
  }

  /** A table's key is its names alone. */
  lemma KeyIsItsNames(t: Table, columns: seq<Column>)
    ensures TableKey(t.(columns := columns)) == TableKey(t)
  {
  }

  /** One more row that is paid for. */
  method Add(out: seq<Table>, byName: map<string, nat>, f: Found, ghost found: seq<Found>)
    returns (more: seq<Table>, places: map<string, nat>)
    requires Groups(found, out) && Places(found, out, byName)
    requires forall i :: 0 <= i < |out| ==> !out[i].columnsTruncated
    ensures Groups(found + [f], more) && Places(found + [f], more, places)
    ensures forall i :: 0 <= i < |more| ==> !more[i].columnsTruncated
  {
    hide Groups, KeyOf, TableKey, Opened;
    var key := KeyOf(f);
    more, places := out, byName;
    forall k
      ensures Opened(found + [f], k) <==> Opened(found, k) || key == k
    {
      OpenedMore(found, f, k);
    }
    if key !in places {
      GroupsOpened(found, out, f);
      KeyOfTable(f);
      places := places[key := |more|];
      more := more + [Table(f.schema, f.table, [], false)];
    } else {
      GroupsExtended(found, out, f, places[key]);
    }
    var index := places[key];
    if f.column.Some? {
      KeyIsItsNames(more[index], more[index].columns + [f.column.value]);
      more := more[index := more[index].(columns := more[index].columns + [f.column.value])];
    }
    ghost var added := if f.column.Some? then [f.column.value] else [];
    if key !in byName {
      assert [] + added == added;
      assert more == out + [Table(f.schema, f.table, added, false)];
    } else {
      assert out[index].columns + [] == out[index].columns;
      assert more == out[index := out[index].(columns := out[index].columns + added)];
    }
  }

  lemma PrefixNext(all: seq<Found>, found: seq<Found>, f: Found)
    requires found + [f] <= all
    ensures |found| < |all| && all[..|found|] == found && all[|found|] == f && all[..|found| + 1] == found + [f]
  {
    assert all[|found|] == (found + [f])[|found|];
    assert forall k :: 0 <= k < |found| ==> all[k] == (found + [f])[k];
  }

  /** No more rows fit than up to the first that does not. */
  lemma CutIsLongest(rows: seq<Row>, i: nat, budget: int)
    requires i < |rows| && Read(rows[i]).Some?
    requires FoundIn(rows[..i]) != [] ==> Charge(FoundIn(rows[..i])) <= budget
    requires Charge(FoundIn(rows[..i])) + Cost(FoundIn(rows[..i]), Read(rows[i]).value) > budget
    ensures var n := |FoundIn(rows[..i])|;
      && n < |FoundIn(rows)| && FoundIn(rows)[..n] == FoundIn(rows[..i]) && FoundIn(rows)[n] == Read(rows[i]).value
      && Longest(FoundIn(rows), budget, n)
  {
    hide FoundIn, Charge, Cost, Read;
    var found, all, f := FoundIn(rows[..i]), FoundIn(rows), Read(rows[i]).value;
    var n := |found|;
    FoundMore(rows, i);
    FoundPrefix(rows, i + 1);
    PrefixNext(all, found, f);
    ChargeMore(found, f);
    forall k | n < k <= |all|
      ensures Charge(all[..k]) > budget
    {
      ChargeGrows(all, n + 1, k);
    }
  }

  /**
    The rows grouped into tables: as many from the first as the budget pays for, a table with the column
    that opens it, and only the table that was cut into marked, when it was already open.
   */
  method SchemaTables(rows: seq<Row>, budget: int) returns (out: seq<Table>, cut: bool)
    ensures exists n: nat ::
              && Longest(FoundIn(rows), budget, n) && (cut <==> n < |FoundIn(rows)|)
              && Groups(FoundIn(rows)[..n], out) && Marked(FoundIn(rows), n, out)
  {
    hide FoundIn, Groups, Charge, Cost, Places, Keys;
    out, cut := [], false;
    var byName: map<string, nat> := map[];
    var spent := 0;
    ghost var found: seq<Found> := [];
    Nothing(rows);
    var i := 0;
    while i < |rows|
      invariant i <= |rows| && found == FoundIn(rows[..i])
      invariant spent == Charge(found) && (found != [] ==> spent <= budget)
      invariant Groups(found, out) && Places(found, out, byName)
      invariant forall k :: 0 <= k < |out| ==> !out[k].columnsTruncated
    {
      FoundMore(rows, i);
      var read := Read(rows[i]);
      if read.Some? {
        var f := read.value;
        var key := KeyOf(f);
        PlaceOf(found, out, byName, f);
        var cost := 0;
        if key !in byName {
          cost := cost + SCHEMA_TABLE_BYTES + |f.schema| + |f.table|;
        }
        if f.column.Some? {
          cost := cost + SCHEMA_COLUMN_BYTES + |f.column.value.name| + |f.column.value.dataType|;
        }
        if spent + cost > budget {
          CutIsLongest(rows, i, budget);
          GroupedOnce(found, out);
          if key in byName {
            var index := byName[key];
            MarkedKeepsGroups(found, out, index);
            out := out[index := out[index].(columnsTruncated := true)];
          }
          assert Marked(FoundIn(rows), |found|, out);
          cut := true;
          return;
        }
        ChargeMore(found, f);
        spent := spent + cost;
        out, byName := Add(out, byName, f, found);
        found := found + [f];
      }
      i := i + 1;
    }
    assert rows[..|rows|] == rows && found[..|found|] == found;
    assert Longest(FoundIn(rows), budget, |found|);
    assert Marked(FoundIn(rows), |found|, out);
  }

  lemma Nothing(rows: seq<Row>)
    ensures FoundIn(rows[..0]) == [] && Charge([]) == 0 && Groups([], []) && Places([], [], map[])
  {
  }

  lemma PlaceOf(found: seq<Found>, out: seq<Table>, byName: map<string, nat>, f: Found)
    requires Places(found, out, byName) && Groups(found, out)
    ensures KeyOf(f) in byName ==> byName[KeyOf(f)] < |out| && TableKey(out[byName[KeyOf(f)]]) == KeyOf(f)
    ensures KeyOf(f) !in byName ==> forall i :: 0 <= i < |out| ==> TableKey(out[i]) != KeyOf(f)
    ensures Cost(found, f) ==
              (if KeyOf(f) in byName then 0 else SCHEMA_TABLE_BYTES + |f.schema| + |f.table|)
              + (if f.column.Some? then SCHEMA_COLUMN_BYTES + |f.column.value.name| + |f.column.value.dataType| else 0)
  {
    forall i | 0 <= i < |out|
      ensures Opened(found, TableKey(out[i]))
    {
      KeysAreOpened(found, i);
    }
    hide Opened, Keys, ColumnsOf;
  }

  lemma GroupedOnce(found: seq<Found>, out: seq<Table>)
    requires Groups(found, out)
    ensures forall i, j :: 0 <= i < |out| && 0 <= j < |out| && i != j ==> TableKey(out[i]) != TableKey(out[j])
  {
    forall i | 0 <= i < |out|
      ensures forall j :: 0 <= j < |out| && i != j ==> TableKey(out[i]) != TableKey(out[j])
    {
      KeysAreOpened(found, i);
    }
  }

  lemma MarkedKeepsGroups(found: seq<Found>, out: seq<Table>, at: nat)
    requires Groups(found, out) && at < |out|
    ensures Groups(found, out[at := out[at].(columnsTruncated := true)])
  {
    hide Keys, ColumnsOf;
  }

  // ----- what a row says, and what the tables cost -----

  /**
    A row counts exactly when all of it can be used and its table matched, or a column of it that can
    be used did; and its column goes with it exactly when that matched.
   */
  lemma ReadsExactly(row: Row, f: Found)
    ensures Read(row) == Some(f) <==>
              && row.wide && row.schema == Some(f.schema) && row.table == Some(f.table)
              && row.tableMatched.Some? && row.columnMatched.Some?
              && (row.tableMatched.value || (row.columnMatched.value && row.column.Some?))
              && f.column == (if row.columnMatched.value then row.column else None)
  {
  }

  /** What a table costs: its names and 72 bytes, and for each column its name, its type and 48. */
  function Price(t: Table): nat {
    72 + |t.schema| + |t.table| + Prices(t.columns)
  }

  function Prices(columns: seq<Column>): nat {
    if columns == [] then 0 else 48 + |columns[0].name| + |columns[0].dataType| + Prices(columns[1..])
  }

  function Total(tables: seq<Table>): nat {
    if tables == [] then 0 else Price(tables[0]) + Total(tables[1..])
  }

  lemma {:induction false} PricesMore(columns: seq<Column>, more: seq<Column>)
    ensures Prices(columns + more) == Prices(columns) + Prices(more)
  {
    if columns == [] {
      assert columns + more == more;
    } else {
      PricesMore(columns[1..], more);
      assert (columns + more)[1..] == columns[1..] + more;
    }
  }

  lemma {:induction false} TotalMore(tables: seq<Table>, t: Table)
    ensures Total(tables + [t]) == Total(tables) + Price(t)
  {
    if tables == [] {
      assert [t][1..] == [];
    } else {
      TotalMore(tables[1..], t);
      assert (tables + [t])[1..] == tables[1..] + [t];
    }
  }

  lemma {:induction false} TotalChanged(tables: seq<Table>, at: nat, t: Table)
    requires at < |tables|
    ensures Total(tables[at := t]) == Total(tables) - Price(tables[at]) + Price(t)
  {
    if at == 0 {
      assert tables[0 := t][1..] == tables[1..];
    } else {
      TotalChanged(tables[1..], at - 1, t);
      assert tables[at := t][1..] == tables[1..][at - 1 := t];
    }
  }

  /** Tables of the same keys and columns cost the same. */
  lemma {:induction false} TotalAlike(a: seq<Table>, b: seq<Table>)
    requires |a| == |b| && forall i :: 0 <= i < |a| ==> TableKey(a[i]) == TableKey(b[i]) && a[i].columns == b[i].columns
    ensures Total(a) == Total(b)
  {
    if a != [] {
      assert |TableKey(a[0])| == |a[0].schema| + 1 + |a[0].table| && |TableKey(b[0])| == |b[0].schema| + 1 + |b[0].table|;
      TotalAlike(a[1..], b[1..]);
    }
  }

  lemma GroupsAlike(found: seq<Found>, a: seq<Table>, b: seq<Table>)
    requires Groups(found, a) && Groups(found, b)
    ensures Total(a) == Total(b)
  {
    hide Keys, ColumnsOf, TableKey;
    TotalAlike(a, b);
  }

  /** The tables the rows name, as they are priced. */
  lemma {:induction false} SomeGroups(found: seq<Found>) returns (out: seq<Table>)
    ensures Groups(found, out) && Total(out) == Charge(found)
  {
    if found == [] {
      out := [];
    } else {
      var before, f := found[..|found| - 1], found[|found| - 1];
      assert found == before + [f];
      var tables := SomeGroups(before);
      ChargeMore(before, f);
      var columns := if f.column.Some? then [f.column.value] else [];
      assert Prices(columns) == if f.column.Some? then 48 + |f.column.value.name| + |f.column.value.dataType| else 0;
      if Opened(before, KeyOf(f)) {
        var at := StandsAt(before, tables, KeyOf(f));
        GroupsExtended(before, tables, f, at);
        PricesMore(tables[at].columns, columns);
        out := tables[at := tables[at].(columns := tables[at].columns + columns)];
        TotalChanged(tables, at, out[at]);
      } else {
        GroupsOpened(before, tables, f);
        out := tables + [Table(f.schema, f.table, columns, false)];
        TotalMore(tables, out[|tables|]);
      }
      hide Groups, Charge, Keys, Opened, KeyOf, TableKey, Total, Prices;
    }
  }

  lemma {:induction false} PlaceOfKey(found: seq<Found>, key: string) returns (at: nat)
    requires Opened(found, key)
    ensures at < |Keys(found)| && Keys(found)[at] == key
  {
    var before, f := found[..|found| - 1], found[|found| - 1];
    assert found == before + [f];
    OpenedMore(before, f, key);
    if Opened(before, key) {
      at := PlaceOfKey(before, key);
    } else {
      at := |Keys(before)|;
    }
  }

  lemma StandsAt(found: seq<Found>, out: seq<Table>, key: string) returns (at: nat)
    requires Opened(found, key) && Groups(found, out)
    ensures at < |out| && TableKey(out[at]) == key
  {
    at := PlaceOfKey(found, key);
  }

  /** What the rows are charged is what the tables answered for them cost. */
  lemma ChargeIsTotal(found: seq<Found>, out: seq<Table>)
    requires Groups(found, out)
    ensures Charge(found) == Total(out)
  {
    var other := SomeGroups(found);
    GroupsAlike(found, out, other);
  }

  /** A table is named once, where it is first named, and by every row that is of it. */
  lemma {:induction false} KeysInOrder(found: seq<Found>, i: nat)
    requires i < |Keys(found)|
    ensures exists k :: FirstNames(found, Keys(found)[i], k)
    ensures forall j, a, b :: 0 <= j < i && FirstNames(found, Keys(found)[j], a) && FirstNames(found, Keys(found)[i], b) ==> a < b
  {
    var before, f := found[..|found| - 1], found[|found| - 1];
    assert found == before + [f];
    forall key, k | 0 <= k < |before|
      ensures FirstNames(found, key, k) <==> FirstNames(before, key, k)
    {
      FirstStays(before, f, key, k);
    }
    assert forall j :: 0 <= j < |Keys(before)| ==> Keys(found)[j] == Keys(before)[j];
    if i < |Keys(before)| {
      KeysInOrder(before, i);
      hide Keys;
      var k :| FirstNames(before, Keys(before)[i], k);
      assert FirstNames(found, Keys(found)[i], k);
      forall j, a, b | 0 <= j < i && FirstNames(found, Keys(found)[j], a) && FirstNames(found, Keys(found)[i], b)
        ensures a < b
      {
        KeysInOrder(before, j);
        var c :| FirstNames(before, Keys(before)[j], c);
        OneFirst(found, Keys(before)[j], a, c);
        OneFirst(found, Keys(before)[i], b, k);
      }
    } else {
      LastNames(before, f);
      assert FirstNames(found, Keys(found)[i], |before|);
      forall j, a, b | 0 <= j < i && FirstNames(found, Keys(found)[j], a) && FirstNames(found, Keys(found)[i], b)
        ensures a < b
      {
        KeysInOrder(before, j);
        var c :| FirstNames(before, Keys(before)[j], c);
        OneFirst(found, Keys(before)[j], a, c);
        OneFirst(found, KeyOf(f), b, |before|);
      }
    }
  }

  /** The first row of this table. */
  predicate FirstNames(found: seq<Found>, key: string, k: int) {
    0 <= k < |found| && KeyOf(found[k]) == key && forall m :: 0 <= m < k ==> KeyOf(found[m]) != key
  }

  lemma FirstStays(before: seq<Found>, f: Found, key: string, k: int)
    requires 0 <= k < |before|
    ensures FirstNames(before + [f], key, k) <==> FirstNames(before, key, k)
  {
    hide KeyOf;
    assert forall m :: 0 <= m < |before| ==> (before + [f])[m] == before[m];
  }

  lemma OneFirst(found: seq<Found>, key: string, a: int, b: int)
    requires FirstNames(found, key, a) && FirstNames(found, key, b)
    ensures a == b
  {
    hide KeyOf;
  }

  lemma LastNames(before: seq<Found>, f: Found)
    requires !Opened(before, KeyOf(f))
    ensures FirstNames(before + [f], KeyOf(f), |before|)
  {
    hide KeyOf;
    assert forall m :: 0 <= m < |before| ==> (before + [f])[m] == before[m];
  }
}
