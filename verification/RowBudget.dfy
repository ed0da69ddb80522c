/**
  A query's answer cut to a number of bytes (internal/mcp/rows.go): whole rows from the first, as many
  as the answer, encoded under the label that says it was cut, has room for.
 */
module RowBudget {
  import opened Wrappers

  datatype Truncation = NoTruncation | RowCap | ByteBudget

  /** `shell` is what the columns and the other fields take, encoded around an empty list of rows. */
  datatype Answer<R> = Answer(shell: nat, rows: seq<R>, truncated: bool, truncation: Truncation)

  datatype EncodingError = Unencodable

  function Label(t: Truncation): string {
    match t
    case NoTruncation => "none"
    case RowCap => "row_cap"
    case ByteBudget => "byte_budget"
  }

  function Word(b: bool): string { if b then "true" else "false" }

  /** The encoded size of an answer with no rows. */
  function Empty<R>(a: Answer<R>): nat {
    a.shell + |Word(a.truncated)| + |Label(a.truncation)|
  }

  /** What the rows add: each its own size, and a comma between each two. */
  function RowsSize<R>(size: R -> Option<nat>, rows: seq<R>): nat {
    if rows == [] then 0
    else RowsSize(size, rows[..|rows| - 1]) + SizeOf(size, rows[|rows| - 1]) + if |rows| > 1 then 1 else 0
  }

  function SizeOf<R>(size: R -> Option<nat>, row: R): nat {
    match size(row)
    case Some(n) => n
    case None => 0
  }

  function Encoded<R>(size: R -> Option<nat>, a: Answer<R>): nat {
    Empty(a) + RowsSize(size, a.rows)
  }

  function CutTo<R>(a: Answer<R>, kept: nat): Answer<R>
    requires kept <= |a.rows|
  {
    a.(rows := a.rows[..kept], truncated := true, truncation := ByteBudget)
  }

  /** The most rows that fit under the label of a cut answer; none at all if not even the first does. */
  ghost predicate MostRows<R>(size: R -> Option<nat>, a: Answer<R>, budget: int, kept: nat) {
    && kept <= |a.rows|
    && (kept > 0 ==> Encoded(size, CutTo(a, kept)) <= budget)
    && (forall k :: kept < k <= |a.rows| ==> Encoded(size, CutTo(a, k)) > budget)
  }

  lemma RowsMore<R>(size: R -> Option<nat>, rows: seq<R>, k: nat)
    requires k < |rows|
    ensures RowsSize(size, rows[..k + 1]) == RowsSize(size, rows[..k]) + SizeOf(size, rows[k]) + if k > 0 then 1 else 0
  {
    assert rows[..k + 1][..k] == rows[..k];
  }

  lemma {:induction false} RowsGrow<R>(size: R -> Option<nat>, rows: seq<R>, k: nat, m: nat)
    requires k <= m <= |rows|
    ensures RowsSize(size, rows[..k]) <= RowsSize(size, rows[..m])
    decreases m - k
  {
    if k < m {
      RowsMore(size, rows, k);
      RowsGrow(size, rows, k + 1, m);
    }
  }

  /** An answer is marked as truncated just when its label says what truncated it. */
  predicate Consistent<R>(a: Answer<R>) {
    a.truncated <==> a.truncation != NoTruncation
  }

  /** A cut answer is never smaller than the same rows under the label they had. */
  lemma LabelCosts<R>(a: Answer<R>, kept: nat)
    requires kept <= |a.rows|
    ensures Empty(CutTo(a, kept)) == Empty(CutTo(a, 0))
    ensures Consistent(a) ==> Empty(CutTo(a, 0)) >= Empty(a)
  {
    assert |Label(ByteBudget)| == 11 && |Label(RowCap)| == 7 && |Label(NoTruncation)| == 4;
  }

  lemma NoRows<R>(size: R -> Option<nat>, rows: seq<R>)
    requires rows == []
    ensures RowsSize(size, rows) == 0
  {
  }

  /** The first row that cannot be encoded. */
  ghost predicate Breaks<R>(size: R -> Option<nat>, rows: seq<R>, i: nat) {
    && i < |rows| && size(rows[i]).None?
    && forall k :: 0 <= k < i ==> size(rows[k]).Some?
  }

  /**
    The answer as it is if it fits; otherwise its longest beginning of whole rows, labelled, that does.
    It fails exactly when the rows before the first that cannot be encoded all fit.
   */
  method WithinByteBudget<R>(size: R -> Option<nat>, a: Answer<R>, budget: int) returns (r: Result<Answer<R>, EncodingError>)
    ensures r.Ok? && Encoded(size, a) <= budget ==> r.value == a
    ensures r.Ok? && Encoded(size, a) > budget ==>
              exists kept: nat ::
                && kept <= |a.rows| && r.value == CutTo(a, kept)
                && (kept > 0 ==> Encoded(size, CutTo(a, kept)) <= budget)
                && (Consistent(a) ==> MostRows(size, a, budget, kept))
    ensures r.Err? <==>
              exists i: nat :: Breaks(size, a.rows, i) && Empty(a) + RowsSize(size, a.rows[..i]) <= budget
  {
    hide RowsSize, Label, Word, Consistent;
    assert RowsSize(size, a.rows[..0]) == 0 by { NoRows(size, a.rows[..0]); }
    var whole, spent, kept := Empty(a), Empty(CutTo(a, 0)), 0;
    var i := 0;
    while i < |a.rows| && whole <= budget
      invariant kept <= i <= |a.rows|
      invariant whole == Empty(a) + RowsSize(size, a.rows[..i])
      invariant spent == Empty(CutTo(a, 0)) + RowsSize(size, a.rows[..kept])
      invariant forall k :: 0 <= k < i ==> size(a.rows[k]).Some?
      invariant kept > 0 ==> spent <= budget
      invariant kept < i ==> Empty(CutTo(a, 0)) + RowsSize(size, a.rows[..kept + 1]) > budget
    {
      var encoded := size(a.rows[i]);
      if encoded.None? {
        assert Breaks(size, a.rows, i);
        return Err(Unencodable);
      }
      RowsMore(size, a.rows, i);
      var cost := encoded.value;
      if i > 0 {
        cost := cost + 1;
      }
      whole := whole + cost;
      if kept == i && spent + cost <= budget {
        spent := spent + cost;
        kept := kept + 1;
      }
      i := i + 1;
    }
    assert a.rows[..|a.rows|] == a.rows;
    RowsGrow(size, a.rows, i, |a.rows|);
    forall j: nat | Breaks(size, a.rows, j)
      ensures Empty(a) + RowsSize(size, a.rows[..j]) > budget
    {
      RowsGrow(size, a.rows, i, j);
    }
    if whole <= budget {
      return Ok(a);
    }
    LabelCosts(a, kept);
    if Consistent(a) {
      CutIsMost(size, a, budget, kept, i);
    }
    r := Ok(CutTo(a, kept));
  }

  /** Where the first row that does not fit ends the count. */
  lemma CutIsMost<R>(size: R -> Option<nat>, a: Answer<R>, budget: int, kept: nat, i: nat)
    requires Consistent(a) && kept <= i <= |a.rows| && Empty(a) + RowsSize(size, a.rows[..i]) > budget
    requires kept > 0 ==> Empty(CutTo(a, 0)) + RowsSize(size, a.rows[..kept]) <= budget
    requires kept < i ==> Empty(CutTo(a, 0)) + RowsSize(size, a.rows[..kept + 1]) > budget
    ensures MostRows(size, a, budget, kept)
  {
    hide RowsSize;
    LabelCosts(a, kept);
    forall k | kept < k <= |a.rows|
      ensures Encoded(size, CutTo(a, k)) > budget
    {
      LabelCosts(a, k);
      if kept < i {
        RowsGrow(size, a.rows, kept + 1, k);
      } else {
        RowsGrow(size, a.rows, i, k);
      }
    }
  }

  // ----- the size is that of the text -----

  /** The rows as they are sent, a comma between each two. */
  function Listed<R>(text: R -> string, rows: seq<R>): string {
    if rows == [] then ""
    else if |rows| == 1 then text(rows[0])
    else text(rows[0]) + "," + Listed(text, rows[1..])
  }

  lemma {:induction false} ListedLast<R>(text: R -> string, rows: seq<R>)
    requires rows != []
    ensures |Listed(text, rows)| ==
              |Listed(text, rows[..|rows| - 1])| + |text(rows[|rows| - 1])| + if |rows| > 1 then 1 else 0
  {
    if |rows| > 1 {
      ListedLast(text, rows[1..]);
      assert rows[1..][..|rows| - 2] == rows[..|rows| - 1][1..];
    }
  }

  lemma {:induction false} RowsAreListed<R>(size: R -> Option<nat>, text: R -> string, rows: seq<R>)
    requires forall r :: r in rows ==> size(r) == Some(|text(r)|)
    ensures RowsSize(size, rows) == |Listed(text, rows)|
  {
    if rows != [] {
      RowsAreListed(size, text, rows[..|rows| - 1]);
      ListedLast(text, rows);
    }
  }

  /** An answer as it is sent: the fields around the rows, whether it was cut, why, and the rows. */
  function Sent<R>(text: R -> string, fields: string, a: Answer<R>): string {
    fields + (if a.truncated then "true" else "false")
    + (match a.truncation case NoTruncation => "none" case RowCap => "row_cap" case ByteBudget => "byte_budget")
    + Listed(text, a.rows)
  }

  /** What is compared with the budget is how long the answer is. */
  lemma EncodedIsSent<R>(size: R -> Option<nat>, text: R -> string, fields: string, a: Answer<R>)
    requires (forall r :: r in a.rows ==> size(r) == Some(|text(r)|)) && |fields| == a.shell
    ensures Encoded(size, a) == |Sent(text, fields, a)|
  {
    RowsAreListed(size, text, a.rows);
  }

  /**
    So the rows kept are the most that, sent under the label of the byte budget, are no longer than it
    allows, or none if not even the first row is.
   */
  lemma MostRowsFit<R>(
    size: R -> Option<nat>, text: R -> string, fields: string, a: Answer<R>, budget: int, kept: nat)
    requires (forall r :: r in a.rows ==> size(r) == Some(|text(r)|)) && |fields| == a.shell
    ensures MostRows(size, a, budget, kept) <==>
              && kept <= |a.rows|
              && (kept > 0 ==> |fields + "true" + "byte_budget" + Listed(text, a.rows[..kept])| <= budget)
              && forall k :: kept < k <= |a.rows| ==>
                   |fields + "true" + "byte_budget" + Listed(text, a.rows[..k])| > budget
  {
    forall k: nat | k <= |a.rows|
      ensures Encoded(size, CutTo(a, k)) == |fields + "true" + "byte_budget" + Listed(text, a.rows[..k])|
    {
      EncodedIsSent(size, text, fields, CutTo(a, k));
    }
    hide Listed, RowsSize, Empty;
  }
}
