/** The DB2 pagination rewrite, shared by both DB2 revisions and by Derby
    (Db2Dialect.getLimitString with its appendRowNumber and hasDistinct
    helpers): the query is nested in an outer select that numbers the rows
    with `rownumber() over(...)` and keeps a window of row numbers. */
module RowNumberPaging {
  import opened Outcomes
  import opened Text

  const Outer := "select * from ( select "
  const OverOpen := "rownumber() over("
  const OverClose := ") as rownumber_,"
  const DistinctOpen := " row_.* from ( "
  const DistinctClose := " ) as row_"
  const Window := " ) as temp_ where rownumber_ "

  /** The restriction on the row number: two positional marks with an offset, one without. */
  function Bound(hasOffset: bool): string
  {
    if hasOffset then "between ?+1 and ?" else "<= ?"
  }

  /** `hasDistinct`: the lower-cased query contains `select distinct`. */
  predicate HasDistinct(sql: string)
  {
    Contains(ToLower(sql), "select distinct")
  }

  /** What `appendRowNumber` puts inside `over(...)`: the query from its first
      `order by` (any case) to the end, when that occurrence is past
      position 0 and the query is not DISTINCT; otherwise nothing. */
  function OrderTail(sql: string): (r: string)
    ensures r == [] <==> HasDistinct(sql) || IndexOfText(ToLower(sql), "order by", 0) <= 0
    ensures r != [] ==> var i := |sql| - |r|;
      && 0 < i && r == sql[i..] && OccursAt(ToLower(sql), "order by", i)
      && forall k :: 0 <= k < i ==> !OccursAt(ToLower(sql), "order by", k)
  {
    var i := IndexOfText(ToLower(sql), "order by", 0);
    if i > 0 && !HasDistinct(sql) then sql[i..] else ""
  }

  /** Db2Dialect.getLimitString. The text before the first `select` (any
      case) is copied to the front; without any `select` the copy
      `append(sql, 0, -1)` throws. */
  function LimitString(sql: string, hasOffset: bool): (r: Result<string>)
    ensures r.Failure? <==> !Contains(ToLower(sql), "select")
    ensures r.Failure? ==> r.error == IndexOutOfBounds
  {
    var s := SelectAt(sql);
    if s < 0 then Failure(IndexOutOfBounds)
    else Success(Assemble(sql[..s], OrderTail(sql), Body(sql, s), Bound(hasOffset)))
  }

  /** Position of the first `select`, any case. */
  function SelectAt(sql: string): (r: int)
    ensures r == -1 || (0 <= r && r + 6 <= |sql| && OccursAt(ToLower(sql), "select", r))
    ensures r == -1 <==> !Contains(ToLower(sql), "select")
  {
    IndexOfText(ToLower(sql), "select", 0)
  }

  /** The query as it goes into the outer select: whole and nested for a
      DISTINCT query, otherwise without its `select` keyword. */
  function Body(sql: string, s: nat): string
    requires s + 6 <= |sql|
  {
    if HasDistinct(sql) then DistinctOpen + sql[s..] + DistinctClose else sql[s + 6..]
  }

  /** The assembled rewrite. */
  function Assemble(prefix: string, over: string, body: string, bound: string): string
  {
    prefix + Outer + OverOpen + over + OverClose + body + Window + bound
  }

  /** Where the parts of the rewrite land, and its positional marks. */
  lemma AssembleLayout(prefix: string, over: string, body: string, bound: string)
    ensures |prefix| <= |Assemble(prefix, over, body, bound)|
    ensures Assemble(prefix, over, body, bound)[..|prefix|] == prefix
    ensures EndsWith(Assemble(prefix, over, body, bound), Window + bound)
    ensures OccursAt(Assemble(prefix, over, body, bound), OverOpen + over + OverClose + body, |prefix| + |Outer|)
  {
    var r := Assemble(prefix, over, body, bound);
    var mid := OverOpen + over + OverClose + body;
    assert r == prefix + Outer + mid + (Window + bound);
    assert r[..|prefix|] == prefix;
    assert r[|prefix| + |Outer|..|prefix| + |Outer| + |mid|] == mid;
    assert r[|r| - |Window + bound|..] == Window + bound;
  }

  /** The rewrite's marks are those of its four variable parts. */
  lemma AssembleMarks(prefix: string, over: string, body: string, bound: string)
    ensures Count(Assemble(prefix, over, body, bound), '?')
         == Count(prefix, '?') + Count(over, '?') + Count(body, '?') + Count(bound, '?')
  {
    FrameMarks(prefix, Outer, OverOpen, over, OverClose, body, Window, bound);
  }

  /** Mark-free separators add no marks. */
  lemma FrameMarks(prefix: string, k1: string, k2: string, over: string, k3: string,
                   body: string, k4: string, bound: string)
    requires '?' !in k1 && '?' !in k2 && '?' !in k3 && '?' !in k4
    ensures Count(prefix + k1 + k2 + over + k3 + body + k4 + bound, '?')
         == Count(prefix, '?') + Count(over, '?') + Count(body, '?') + Count(bound, '?')
  {
    CountAbsent(k1, '?');
    CountAbsent(k2, '?');
    CountAbsent(k3, '?');
    CountAbsent(k4, '?');
    CountAppend(prefix, k1, '?');
    CountAppend(prefix + k1, k2, '?');
    CountAppend(prefix + k1 + k2, over, '?');
    CountAppend(prefix + k1 + k2 + over, k3, '?');
    CountAppend(prefix + k1 + k2 + over + k3, body, '?');
    CountAppend(prefix + k1 + k2 + over + k3 + body, k4, '?');
    CountAppend(prefix + k1 + k2 + over + k3 + body + k4, bound, '?');
  }

  /** Everything up to the first `select` reaches the output unchanged and
      holds no `select` of its own; the output ends with the row-number window. */
  lemma PrefixAndWindow(sql: string, hasOffset: bool)
    requires LimitString(sql, hasOffset).Success?
    ensures var r, s := LimitString(sql, hasOffset).value, SelectAt(sql);
      && 0 <= s && s <= |r| && r[..s] == sql[..s]
      && (forall k :: 0 <= k < s ==> !OccursAt(ToLower(sql), "select", k))
      && EndsWith(r, Window + Bound(hasOffset))
  {
    var s := SelectAt(sql);
    AssembleLayout(sql[..s], OrderTail(sql), Body(sql, s), Bound(hasOffset));
  }

  /** A DISTINCT query is nested whole, from its `select` on, and `over()`
      stays empty; otherwise the query continues right after the row number,
      without its `select` keyword. */
  lemma NestedQuery(sql: string, hasOffset: bool)
    requires LimitString(sql, hasOffset).Success?
    ensures HasDistinct(sql) ==>
              OccursAt(LimitString(sql, hasOffset).value,
                       OverOpen + OverClose + DistinctOpen + sql[SelectAt(sql)..] + DistinctClose,
                       SelectAt(sql) + |Outer|)
    ensures !HasDistinct(sql) ==>
              OccursAt(LimitString(sql, hasOffset).value,
                       OverOpen + OrderTail(sql) + OverClose + sql[SelectAt(sql) + 6..],
                       SelectAt(sql) + |Outer|)
  {
    var s := SelectAt(sql);
    if HasDistinct(sql) {
      var body := DistinctOpen + sql[s..] + DistinctClose;
      assert OrderTail(sql) == [];
      assert LimitString(sql, hasOffset).value == Assemble(sql[..s], [], body, Bound(hasOffset));
      AssembleLayout(sql[..s], [], body, Bound(hasOffset));
      Regroup(OverOpen, OverClose, DistinctOpen, sql[s..], DistinctClose);
    } else {
      assert LimitString(sql, hasOffset).value == Assemble(sql[..s], OrderTail(sql), sql[s + 6..], Bound(hasOffset));
      AssembleLayout(sql[..s], OrderTail(sql), sql[s + 6..], Bound(hasOffset));
    }
  }

  lemma Regroup(a: string, b: string, c: string, x: string, d: string)
    ensures a + [] + b + (c + x + d) == a + b + c + x + d
  {
  }

  /** The keyword `select` found in the lower-cased text holds no `?`. */
  lemma KeywordHasNoMark(sql: string, s: nat)
    requires OccursAt(ToLower(sql), "select", s)
    ensures s + 6 <= |sql| && Count(sql[s..s + 6], '?') == 0
  {
    forall k | s <= k < s + 6 ensures sql[k] != '?' {
      assert ToLower(sql)[k] == "select"[k - s];
    }
    assert '?' !in sql[s..s + 6];
    CountAbsent(sql[s..s + 6], '?');
  }

  /** Positional marks: those of the query, again those of the copied ORDER BY
      tail, and one or two for the window. */
  lemma Placeholders(sql: string, hasOffset: bool)
    requires LimitString(sql, hasOffset).Success?
    ensures Count(LimitString(sql, hasOffset).value, '?')
         == Count(sql, '?') + Count(OrderTail(sql), '?') + (if hasOffset then 2 else 1)
  {
    var s := SelectAt(sql);
    BodyMarks(sql, s);
    PartsMarks(sql, s, OrderTail(sql), Body(sql, s), hasOffset);
  }

  /** The mark count of a rewrite whose body carries the marks of the query
      from position `s` on. */
  lemma PartsMarks(sql: string, s: nat, over: string, body: string, hasOffset: bool)
    requires s <= |sql| && Count(body, '?') == Count(sql[s..], '?')
    ensures Count(Assemble(sql[..s], over, body, Bound(hasOffset)), '?')
         == Count(sql, '?') + Count(over, '?') + (if hasOffset then 2 else 1)
  {
    AssembleMarks(sql[..s], over, body, Bound(hasOffset));
    BoundMarks(hasOffset);
    CountAppend(sql[..s], sql[s..], '?');
    assert sql[..s] + sql[s..] == sql;
  }

  lemma BodyMarks(sql: string, s: nat)
    requires OccursAt(ToLower(sql), "select", s)
    ensures Count(Body(sql, s), '?') == Count(sql[s..], '?')
  {
    KeywordHasNoMark(sql, s);
    assert sql[s..] == sql[s..s + 6] + sql[s + 6..];
    CountAppend(sql[s..s + 6], sql[s + 6..], '?');
    if HasDistinct(sql) {
      WrappedMarks(DistinctOpen, sql[s..], DistinctClose);
    }
  }

  lemma WrappedMarks(open: string, x: string, close: string)
    requires '?' !in open && '?' !in close
    ensures Count(open + x + close, '?') == Count(x, '?')
  {
    CountAbsent(open, '?');
    CountAbsent(close, '?');
    CountAppend(open + x, close, '?');
    CountAppend(open, x, '?');
  }

  lemma BoundMarks(hasOffset: bool)
    ensures Count(Bound(hasOffset), '?') == if hasOffset then 2 else 1
  {
    if hasOffset {
      MarksOfTwo(Bound(true), "between ", "+1 and ", "");
    } else {
      MarksOfOne(Bound(false), "<= ", "");
    }
  }
}
