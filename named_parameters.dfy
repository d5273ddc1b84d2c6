/** Translation of a WHERE-condition with named placeholders (`:name`) into a
    positional one (`?`) plus the name-to-ordinal index, and the projection
    of a named-value map onto a positional parameter array
    (Repository.toIndexedQuery and Repository.toParameters). */
module NamedParameters {
  import opened Outcomes
  import opened Text

  /** A condition read as a sequence of verbatim text and `:name` tokens. */
  datatype Piece = Literal(text: string) | Token(name: string)

  /** The name-to-ordinal index and the rewritten condition (Repository.IndexedQuery). */
  datatype IndexedQuery = IndexedQuery(query: string, index: map<string, nat>)

  /** A piece as it appears in the raw condition. */
  function Raw(p: Piece): string
  {
    match p
    case Literal(t) => t
    case Token(n) => ":" + n
  }

  /** A piece as it appears in the positional condition: a token becomes one `?`. */
  function Bound(p: Piece): string
  {
    match p
    case Literal(t) => t
    case Token(_) => "?"
  }

  function Render(ps: seq<Piece>): string
  {
    if ps == [] then "" else Render(ps[..|ps| - 1]) + Raw(ps[|ps| - 1])
  }

  function Positional(ps: seq<Piece>): string
  {
    if ps == [] then "" else Positional(ps[..|ps| - 1]) + Bound(ps[|ps| - 1])
  }

  /** Token names in left-to-right order. */
  function Names(ps: seq<Piece>): seq<string>
  {
    if ps == [] then []
    else Names(ps[..|ps| - 1]) + (if ps[|ps| - 1].Token? then [ps[|ps| - 1].name] else [])
  }

  /** The index built by `put`-ting each name with the next ordinal: a repeated
      name keeps the ordinal of its last occurrence. */
  function Ordinals(names: seq<string>): map<string, nat>
  {
    if names == [] then map[]
    else Ordinals(names[..|names| - 1])[names[|names| - 1] := |names| - 1]
  }

  /** The pieces of `q` from the `:` at `start` on: a token runs to the next
      space (exclusive) or the end; the text from that space to the next `:`
      is copied as it stands. */
  function Scan(q: string, start: nat): seq<Piece>
    requires start < |q| && q[start] == ':'
    decreases |q| - start
  {
    var end := IndexOf(q, ' ', start + 1);
    if end < 0 then [Token(q[start + 1..])]
    else
      var next := IndexOf(q, ':', end);
      if next > 0 then [Token(q[start + 1..end]), Literal(q[end..next])] + Scan(q, next)
      else [Token(q[start + 1..end]), Literal(q[end..])]
  }

  /** The reading of a whole condition. Only a first `:` past position 0
      starts scanning; otherwise the condition is one literal. */
  function Tokenize(q: string): seq<Piece>
  {
    var start := IndexOf(q, ':', 0);
    if start > 0 then [Literal(q[..start])] + Scan(q, start) else [Literal(q)]
  }

  /** Repository.toIndexedQuery: None (Java null) for a blank condition. */
  function ToIndexedQuery(q: string): Option<IndexedQuery>
  {
    if IsBlank(q) then None
    else
      var ps := Tokenize(q);
      Some(IndexedQuery(Positional(ps), Ordinals(Names(ps))))
  }

  //---------------------------------------------------------------------------
  // Algebra of the renderings

  /** Appending one piece extends each rendering by that piece. */
  lemma Snoc(ps: seq<Piece>, p: Piece)
    ensures Render(ps + [p]) == Render(ps) + Raw(p)
    ensures Positional(ps + [p]) == Positional(ps) + Bound(p)
    ensures Names(ps + [p]) == Names(ps) + (if p.Token? then [p.name] else [])
  {
    assert (ps + [p])[..|ps|] == ps;
  }

  lemma {:induction false} RenderAppend(a: seq<Piece>, b: seq<Piece>)
    ensures Render(a + b) == Render(a) + Render(b)
    decreases |b|
  {
    if b == [] {
      assert a + b == a;
    } else {
      var b', last := b[..|b| - 1], b[|b| - 1];
      LastSplit(a, b);
      Snoc(a + b', last);
      Snoc(b', last);
      RenderAppend(a, b');
      Assoc(Render(a), Render(b'), Raw(last));
    }
  }

  lemma LastSplit(a: seq<Piece>, b: seq<Piece>)
    requires b != []
    ensures a + b == (a + b[..|b| - 1]) + [b[|b| - 1]]
    ensures b == b[..|b| - 1] + [b[|b| - 1]]
  {
  }




  lemma RenderOne(p: Piece)
    ensures Render([p]) == Raw(p) && Positional([p]) == Bound(p)
    ensures Names([p]) == if p.Token? then [p.name] else []
  {
    Snoc([], p);
  }

  //---------------------------------------------------------------------------
  // The scanner copies everything outside the tokens verbatim

  lemma {:induction false} ScanRender(q: string, start: nat)
    requires start < |q| && q[start] == ':'
    ensures Render(Scan(q, start)) == q[start..]
    decreases |q| - start
  {
    var end := IndexOf(q, ' ', start + 1);
    if end < 0 {
      var t := Token(q[start + 1..]);
      assert Scan(q, start) == [t];
      RenderOne(t);
      HeadAt(q, start);
    } else {
      var next := IndexOf(q, ':', end);
      if next > 0 {
        ScanRender(q, next);
        ScanStepRender(q, start, end, next);
      } else {
        var t, l := Token(q[start + 1..end]), Literal(q[end..]);
        assert Scan(q, start) == [t, l];
        TwoRender(t, l);
        HeadAndCut(q, start, end);
      }
    }
  }

  lemma TwoRender(t: Piece, l: Piece)
    ensures Render([t, l]) == Raw(t) + Raw(l)
  {
    RenderOne(t);
    Snoc([t], l);
    assert [t] + [l] == [t, l];
  }

  lemma ScanStepRender(q: string, start: nat, end: nat, next: nat)
    requires start < end < next < |q| && q[start] == ':' && q[next] == ':'
    requires Scan(q, start) == [Token(q[start + 1..end]), Literal(q[end..next])] + Scan(q, next)
    requires Render(Scan(q, next)) == q[next..]
    ensures Render(Scan(q, start)) == q[start..]
  {
    var t, l := Token(q[start + 1..end]), Literal(q[end..next]);
    TwoRender(t, l);
    RenderAppend([t, l], Scan(q, next));
    SuffixPieces(q, start, end, next);
  }

  /** Round trip: putting the tokens back as `:name` gives the condition back. */
  lemma TokenizeRender(q: string)
    ensures Render(Tokenize(q)) == q
  {
    var start := IndexOf(q, ':', 0);
    RenderOne(Literal(q));
    if start > 0 {
      assert Render(Tokenize(q)) == q[..start] + q[start..] by {
        RenderOne(Literal(q[..start]));
        ScanRender(q, start);
        RenderAppend([Literal(q[..start])], Scan(q, start));
      }
      SplitAt(q, start);
    }
  }

  /** The pieces the scanner leaves from a `:` on: tokens at even positions,
      holding no space; every literal starts with the space that ended the
      token before it and holds no `:`. */
  predicate ScanShape(ps: seq<Piece>)
  {
    && |ps| > 0
    && (forall k :: 0 <= k < |ps| ==> (ps[k].Token? <==> k % 2 == 0))
    && (forall k :: 0 <= k < |ps| && ps[k].Token? ==> ' ' !in ps[k].name)
    && (forall k :: 0 <= k < |ps| && ps[k].Literal? ==>
          |ps[k].text| > 0 && ps[k].text[0] == ' ' && ':' !in ps[k].text)
  }

  /** A maximal reading of a condition: either one literal with no `:` past
      its first character, or a non-empty `:`-free literal followed by
      scanner pieces. */
  predicate WellFormed(ps: seq<Piece>)
  {
    && |ps| > 0 && ps[0].Literal?
    && if |ps| == 1 then IndexOf(ps[0].text, ':', 0) <= 0
       else |ps[0].text| > 0 && ':' !in ps[0].text && ScanShape(ps[1..])
  }

  lemma {:induction false} ScanIsMaximal(q: string, start: nat)
    requires start < |q| && q[start] == ':'
    ensures ScanShape(Scan(q, start))
    decreases |q| - start
  {
    var end := IndexOf(q, ' ', start + 1);
    if end >= 0 {
      var next := IndexOf(q, ':', end);
      var t := Token(q[start + 1..end]);
      assert ' ' !in t.name;
      if next > 0 {
        ScanIsMaximal(q, next);
        var l := Literal(q[end..next]);
        assert ':' !in l.text;
        ShapeCons(t, l, Scan(q, next));
      } else {
        var l := Literal(q[end..]);
        assert ':' !in l.text;
        ShapeCons(t, l, []);
      }
    } else {
      assert ' ' !in q[start + 1..];
    }
  }

  /** A space-free token and a literal that starts with a space and holds no
      `:`, in front of a scanner reading (or of nothing), form one. */
  lemma ShapeCons(t: Piece, l: Piece, rest: seq<Piece>)
    requires t.Token? && ' ' !in t.name
    requires l.Literal? && |l.text| > 0 && l.text[0] == ' ' && ':' !in l.text
    requires rest == [] || ScanShape(rest)
    ensures ScanShape([t, l] + rest)
  {
    var ps := [t, l] + rest;
    assert forall k :: 2 <= k < |ps| ==> ps[k] == rest[k - 2];
  }

  /** The scanner's reading is maximal. */
  lemma TokenizeWellFormed(q: string)
    ensures WellFormed(Tokenize(q))
  {
    var start := IndexOf(q, ':', 0);
    if start > 0 {
      ScanIsMaximal(q, start);
      assert Tokenize(q)[1..] == Scan(q, start);
      assert ':' !in q[..start];
    }
  }

  lemma HeadSplit(ps: seq<Piece>)
    requires |ps| > 0
    ensures Render(ps) == Raw(ps[0]) + Render(ps[1..])
  {
    RenderAppend([ps[0]], ps[1..]);
    RenderOne(ps[0]);
    assert [ps[0]] + ps[1..] == ps;
  }

  /** A token rendered at `start` and followed by `tail`: the scanner's
      space search ends exactly after the token's name. */
  lemma TokenAt(q: string, start: nat, name: string, tail: string)
    requires start < |q| && q[start..] == [':'] + name + tail && ' ' !in name
    requires tail == [] || tail[0] == ' '
    ensures q[start] == ':' && start + 1 + |name| <= |q|
    ensures q[start + 1..start + 1 + |name|] == name && q[start + 1 + |name|..] == tail
    ensures tail == [] ==> q[start + 1..] == name
    ensures IndexOf(q, ' ', start + 1) == if tail == [] then -1 else start + 1 + |name|
  {
    assert q[start..] == [':'] + (name + tail);
    Cut(q, start, [':'], name + tail);
    Cut(q, start + 1, name, tail);
    assert q[start] == q[start..][0];
    if tail == [] {
      assert q[start + 1..] == name;
      IndexOfNone(q, ' ', start + 1);
    } else {
      assert q[start + 1 + |name|] == q[start + 1 + |name|..][0];
      IndexOfAt(q, ' ', start + 1, start + 1 + |name|);
    }
  }

  /** A literal rendered at `end` and followed by `tail`: the scanner's `:`
      search ends exactly after it. */
  lemma LiteralAt(q: string, end: nat, text: string, tail: string)
    requires end <= |q| && q[end..] == text + tail && ':' !in text
    requires tail == [] || tail[0] == ':'
    ensures end + |text| <= |q| && q[end..end + |text|] == text && q[end + |text|..] == tail
    ensures tail == [] ==> q[end..] == text
    ensures IndexOf(q, ':', end) == if tail == [] then -1 else end + |text|
  {
    Cut(q, end, text, tail);
    if tail == [] {
      assert q[end..] == text;
      IndexOfNone(q, ':', end);
    } else {
      assert q[end + |text|] == q[end + |text|..][0];
      IndexOfAt(q, ':', end, end + |text|);
    }
  }

  /** The first pieces of a scanner reading, as ScanShape lays them out. */
  lemma ShapeParts(ps: seq<Piece>)
    requires ScanShape(ps)
    ensures ps[0].Token? && ' ' !in ps[0].name
    ensures |ps| > 1 ==> ps[1].Literal? && |ps[1].text| > 0 && ps[1].text[0] == ' ' && ':' !in ps[1].text
    ensures |ps| > 2 ==> ScanShape(ps[2..])
  {
    if |ps| > 2 {
      var rest := ps[2..];
      assert forall k :: 0 <= k < |rest| ==> rest[k] == ps[k + 2];
    }
  }

  /** Scanning the rendering of scanner pieces gives them back. */
  lemma {:induction false} ScanUnique(q: string, start: nat, ps: seq<Piece>)
    requires start < |q| && q[start] == ':'
    requires ScanShape(ps) && q[start..] == Render(ps)
    ensures Scan(q, start) == ps
    decreases |ps|
  {
    ShapeParts(ps);
    if |ps| == 1 {
      assert Scan(q, start) == ps by {
        HeadSplit(ps);
        TokenAt(q, start, ps[0].name, []);
        ScanHead(q, start, |q|, false, -1);
        assert ps == [Token(q[start + 1..])];
      }
    } else {
      var next := start + 1 + |ps[0].name| + |ps[1].text|;
      var rest := ps[2..];
      assert ps == [ps[0], ps[1]] + rest;
      assert q[start..] == Raw(ps[0]) + (Raw(ps[1]) + Render(rest)) by {
        HeadSplit(ps);
        HeadSplit(ps[1..]);
        assert ps[1..][1..] == rest;
      }
      assert rest == [] || rest[0].Token? by {
        if |ps| > 2 {
          ShapeParts(rest);
        }
      }
      ScanStepUnique(q, start, next, ps[0], ps[1], rest);
      if rest != [] {
        ShapeParts(rest);
        ScanUnique(q, next, rest);
      }
    }
  }

  /** One token and the literal after it, followed by `rest`, which starts
      at `next`. */
  lemma ScanStepUnique(q: string, start: nat, next: nat, t: Piece, l: Piece, rest: seq<Piece>)
    requires start < |q| && t.Token? && l.Literal? && ' ' !in t.name
    requires |l.text| > 0 && l.text[0] == ' ' && ':' !in l.text
    requires rest == [] || rest[0].Token?
    requires q[start..] == Raw(t) + (Raw(l) + Render(rest))
    requires next == start + 1 + |t.name| + |l.text|
    ensures next <= |q|
    ensures q[next..] == Render(rest)
    ensures rest == [] ==> Scan(q, start) == [t, l]
    ensures rest != [] ==> next < |q| && q[next] == ':' && Scan(q, start) == [t, l] + Scan(q, next)
  {
    var tail := Render(rest);
    assert (rest == [] <==> tail == []) && (tail == [] || tail[0] == ':') by {
      if rest != [] {
        HeadSplit(rest);
      }
    }
    var end := start + 1 + |t.name|;
    assert q[start..] == [':'] + t.name + (l.text + tail);
    TokenThenLiteral(q, start, end, next, t.name, l.text, tail);
    ScanPair(q, start, end, next, t, l);
  }

  /** The scanner's step over a token and the literal that the two searches
      delimit. */
  lemma ScanPair(q: string, start: nat, end: nat, next: nat, t: Piece, l: Piece)
    requires start < |q| && q[start] == ':' && t.Token? && l.Literal?
    requires end == start + 1 + |t.name| && next == end + |l.text| <= |q|
    requires q[start + 1..end] == t.name && IndexOf(q, ' ', start + 1) == end
    requires next == |q| ==> q[end..] == l.text && IndexOf(q, ':', end) == -1
    requires next < |q| ==> q[next] == ':' && q[end..next] == l.text && IndexOf(q, ':', end) == next
    ensures next == |q| ==> Scan(q, start) == [t, l]
    ensures next < |q| ==> Scan(q, start) == [t, l] + Scan(q, next)
  {
    if next == |q| {
      ScanHead(q, start, end, true, -1);
      assert [Token(q[start + 1..end]), Literal(q[end..])] == [t, l];
    } else {
      ScanHead(q, start, end, true, next);
      assert [Token(q[start + 1..end]), Literal(q[end..next])] == [t, l];
    }
  }

  /** Where a token and the literal after it sit in the condition, and what
      the scanner's two searches find there. */
  lemma TokenThenLiteral(q: string, start: nat, end: nat, next: nat, name: string, text: string, tail: string)
    requires start < |q| && q[start..] == [':'] + name + (text + tail) && ' ' !in name
    requires |text| > 0 && text[0] == ' ' && ':' !in text
    requires tail == [] || tail[0] == ':'
    requires end == start + 1 + |name| && next == end + |text|
    ensures next <= |q| && q[start + 1..end] == name && IndexOf(q, ' ', start + 1) == end
    ensures q[next..] == tail
    ensures tail == [] ==> next == |q| && q[end..] == text && IndexOf(q, ':', end) == -1
    ensures tail != [] ==> next < |q| && q[next] == ':' && q[end..next] == text && IndexOf(q, ':', end) == next
  {
    TokenAt(q, start, name, text + tail);
    LiteralAt(q, end, text, tail);
    if tail != [] {
      assert q[next] == q[next..][0];
    }
  }

  /** The maximal reading is unique: reading the rendering of a well-formed
      piece sequence gives it back. */
  lemma TokenizeUnique(ps: seq<Piece>)
    requires WellFormed(ps)
    ensures Tokenize(Render(ps)) == ps
  {
    if |ps| == 1 {
      RenderOne(ps[0]);
    } else {
      var l, rest := ps[0], ps[1..];
      assert ps == [l] + rest;
      assert rest[0].Token?;
      LeadSplit(l, rest);
      ScanUnique(Render(ps), |l.text|, rest);
      assert l == Literal(l.text);
    }
  }

  /** A `:`-free leading literal before scanner pieces is read back as one
      literal, and the scanner starts right after it. */
  lemma LeadSplit(l: Piece, rest: seq<Piece>)
    requires l.Literal? && |l.text| > 0 && ':' !in l.text
    requires |rest| > 0 && rest[0].Token?
    ensures var q := Render([l] + rest);
      && |l.text| < |q| && q[|l.text|] == ':' && q[|l.text|..] == Render(rest)
      && Tokenize(q) == [Literal(l.text)] + Scan(q, |l.text|)
  {
    var q := Render([l] + rest);
    assert q == l.text + Render(rest) by {
      HeadSplit([l] + rest);
      assert ([l] + rest)[1..] == rest;
    }
    assert |Render(rest)| > 0 && Render(rest)[0] == ':' by {
      HeadSplit(rest);
    }
    assert q[..|l.text|] == l.text;
    IndexOfAt(q, ':', 0, |l.text|);
  }




  //---------------------------------------------------------------------------
  // The index

  lemma {:induction false} OrdinalsKeys(names: seq<string>)
    ensures Ordinals(names).Keys == set k | 0 <= k < |names| :: names[k]
  {
    if names != [] {
      var init := names[..|names| - 1];
      OrdinalsKeys(init);
      assert forall k :: 0 <= k < |init| ==> init[k] == names[k];
    }
  }

  /** Each name maps to the position of its last occurrence. */
  lemma {:induction false} OrdinalsAreLastPositions(names: seq<string>, n: string)
    requires n in Ordinals(names)
    ensures Ordinals(names)[n] < |names| && names[Ordinals(names)[n]] == n
    ensures forall j :: Ordinals(names)[n] < j < |names| ==> names[j] != n
  {
    var init := names[..|names| - 1];
    if names[|names| - 1] != n {
      OrdinalsAreLastPositions(init, n);
    }
  }

  predicate Distinct(names: seq<string>)
  {
    forall i, j :: 0 <= i < j < |names| ==> names[i] != names[j]
  }

  /** With distinct names the ordinals are exactly 0..k-1 in token order. */
  lemma OrdinalsOfDistinct(names: seq<string>)
    requires Distinct(names)
    ensures |Ordinals(names)| == |names|
    ensures forall j :: 0 <= j < |names| ==> names[j] in Ordinals(names) && Ordinals(names)[names[j]] == j
  {
    OrdinalsKeys(names);
    forall j | 0 <= j < |names|
      ensures names[j] in Ordinals(names) && Ordinals(names)[names[j]] == j
    {
      OrdinalsAreLastPositions(names, names[j]);
    }
    OrdinalsSize(names);
  }

  /** The index has one entry per distinct name: fewer than the tokens
      exactly when a name repeats. */
  lemma {:induction false} OrdinalsSize(names: seq<string>)
    ensures |Ordinals(names)| <= |names|
    ensures |Ordinals(names)| == |names| <==> Distinct(names)
  {
    if names != [] {
      var init, last := names[..|names| - 1], names[|names| - 1];
      OrdinalsSize(init);
      OrdinalsKeys(init);
      if last in Ordinals(init) {
        var k :| 0 <= k < |init| && init[k] == last;
        assert names[k] == names[|names| - 1];
      } else {
        assert forall k :: 0 <= k < |init| ==> init[k] != last;
        if Distinct(init) {
          assert Distinct(names) by {
            forall i, j | 0 <= i < j < |names| ensures names[i] != names[j] {
              if j < |names| - 1 {
                assert init[i] == names[i] && init[j] == names[j];
              } else {
                assert init[i] == names[i];
              }
            }
          }
        } else {
          var i, j :| 0 <= i < j < |init| && init[i] == init[j];
          assert names[i] == names[j];
        }
      }
    }
  }

  /** Whatever the names, the ordinals are distinct and below the token count. */
  lemma OrdinalsInjective(names: seq<string>)
    ensures forall n :: n in Ordinals(names) ==> Ordinals(names)[n] < |names|
    ensures forall a, b :: a in Ordinals(names) && b in Ordinals(names) && a != b ==>
              Ordinals(names)[a] != Ordinals(names)[b]
  {
    forall n | n in Ordinals(names) ensures Ordinals(names)[n] < |names| {
      OrdinalsAreLastPositions(names, n);
    }
    forall a, b | a in Ordinals(names) && b in Ordinals(names) && a != b
      ensures Ordinals(names)[a] != Ordinals(names)[b]
    {
      OrdinalsAreLastPositions(names, a);
      OrdinalsAreLastPositions(names, b);
    }
  }

  //---------------------------------------------------------------------------
  // Placeholder count

  /** Occurrences of `?` in the literals of `ps`. */
  function LiteralMarks(ps: seq<Piece>): nat
  {
    if ps == [] then 0
    else LiteralMarks(ps[..|ps| - 1]) + (if ps[|ps| - 1].Literal? then Count(ps[|ps| - 1].text, '?') else 0)
  }

  lemma {:induction false} MarkCounts(ps: seq<Piece>)
    ensures Count(Positional(ps), '?') == LiteralMarks(ps) + |Names(ps)|
    ensures Count(Render(ps), '?') >= LiteralMarks(ps)
  {
    if ps != [] {
      var init, last := ps[..|ps| - 1], ps[|ps| - 1];
      MarkCounts(init);
      CountAppend(Positional(init), Bound(last), '?');
      CountAppend(Render(init), Raw(last), '?');
      if last.Token? {
        assert Count("?", '?') == 1 by { assert "?"[1..] == ""; }
      }
    }
  }

  /** A condition without positional marks of its own gets exactly one `?`
      per token; with distinct names that is one per index entry. */
  lemma PlaceholderCount(q: string)
    requires !IsBlank(q) && Count(q, '?') == 0
    ensures Count(ToIndexedQuery(q).value.query, '?') == |Names(Tokenize(q))|
    ensures Distinct(Names(Tokenize(q))) <==>
              Count(ToIndexedQuery(q).value.query, '?') == |ToIndexedQuery(q).value.index|
  {
    var ps := Tokenize(q);
    TokenizeRender(q);
    MarkCounts(ps);
    OrdinalsSize(Names(ps));
  }

  //---------------------------------------------------------------------------
  // Edge cases of Repository.toIndexedQuery

  /** A condition without a `:` past position 0 comes back unchanged with an empty index. */
  lemma NoTokens(q: string)
    requires !IsBlank(q) && IndexOf(q, ':', 0) <= 0
    ensures ToIndexedQuery(q) == Some(IndexedQuery(q, map[]))
  {
    RenderOne(Literal(q));
  }

  /** The positional condition and the index that Repository.toIndexedQuery
      builds, read through the maximal tokenisation of the condition. */
  lemma IndexedQueryMeaning(q: string)
    requires !IsBlank(q)
    ensures var ps := Tokenize(q);
      && WellFormed(ps) && Render(ps) == q
      && ToIndexedQuery(q).value.query == Positional(ps)
      && (forall n :: n in ToIndexedQuery(q).value.index <==> n in Names(ps))
  {
    TokenizeWellFormed(q);
    TokenizeRender(q);
    var names := Names(Tokenize(q));
    OrdinalsKeys(names);
  }

  /** The renderings of a literal-token-literal-token reading. */
  lemma FourPieces(a: string, m: string, b: string, n: string)
    ensures var ps := [Literal(a), Token(m), Literal(b), Token(n)];
      && Render(ps) == a + ":" + m + b + ":" + n
      && Positional(ps) == a + "?" + b + "?"
      && Names(ps) == [m, n]
  {
    var s1 := [Literal(a)];
    var s2 := s1 + [Token(m)];
    var s3 := s2 + [Literal(b)];
    var s4 := s3 + [Token(n)];
    assert s4 == [Literal(a), Token(m), Literal(b), Token(n)];
    RenderOne(Literal(a));
    Snoc(s1, Token(m));
    Snoc(s2, Literal(b));
    Snoc(s3, Token(n));
    assert Render(s4) == a + ":" + m + b + ":" + n by {
      assert Render(s2) == a + ":" + m;
      assert Render(s3) == a + ":" + m + b;
    }
    assert Positional(s4) == a + "?" + b + "?" by {
      assert Positional(s3) == a + "?" + b;
    }
  }

  lemma TwoOrdinals(m: string, n: string)
    requires m != n
    ensures Ordinals([m, n]) == map[m := 0, n := 1]
  {
    OrdinalsStep([], m);
    OrdinalsStep([m], n);
    assert [] + [m] == [m] && [m] + [n] == [m, n];
  }

  /** The reading of `a:m b:n`, for `:`-free literals and space-free names,
      and what Repository.toIndexedQuery makes of it. */
  lemma TwoTokens(a: string, m: string, b: string, n: string)
    requires |a| > 0 && !IsSpace(a[0]) && ':' !in a && ':' !in b
    requires |b| > 0 && b[0] == ' ' && ' ' !in m && ' ' !in n && m != n
    ensures ToIndexedQuery(a + ":" + m + b + ":" + n)
         == Some(IndexedQuery(a + "?" + b + "?", map[m := 0, n := 1]))
  {
    var ps := [Literal(a), Token(m), Literal(b), Token(n)];
    FourPieces(a, m, b, n);
    assert ScanShape(ps[1..]);
    TokenizeUnique(ps);
    assert Render(ps)[0] == a[0];
    TwoOrdinals(m, n);
  }

  /** The same with a trailing literal `c`. */
  lemma TwoTokensThenText(a: string, m: string, b: string, n: string, c: string)
    requires |a| > 0 && !IsSpace(a[0]) && ':' !in a && ':' !in b && ':' !in c
    requires |b| > 0 && b[0] == ' ' && |c| > 0 && c[0] == ' ' && ' ' !in m && ' ' !in n && m != n
    ensures ToIndexedQuery(a + ":" + m + b + ":" + n + c)
         == Some(IndexedQuery(a + "?" + b + "?" + c, map[m := 0, n := 1]))
  {
    var ps4 := [Literal(a), Token(m), Literal(b), Token(n)];
    var ps := ps4 + [Literal(c)];
    FourPieces(a, m, b, n);
    Snoc(ps4, Literal(c));
    assert ps[1..] == [Token(m), Literal(b), Token(n), Literal(c)];
    assert ScanShape(ps[1..]);
    TokenizeUnique(ps);
    var q := a + ":" + m + b + ":" + n + c;
    assert Render(ps) == q && Tokenize(q) == ps;
    assert q[0] == a[0];
    assert Names(ps) == [m, n];
    assert Positional(ps) == a + "?" + b + "?" + c;
    TwoOrdinals(m, n);
  }

  /** The conditions of the repository's own examples. */
  lemma ExampleSpaced(q: string)
    requires q == "id = :foo_id AND name = :foo_name"
    ensures ToIndexedQuery(q) == Some(IndexedQuery("id = ? AND name = ?", map["foo_id" := 0, "foo_name" := 1]))
  {
    SpacedText();
    TwoTokens("id = ", "foo_id", " AND name = ", "foo_name");
  }

  lemma SpacedText()
    ensures "id = " + ":" + "foo_id" + " AND name = " + ":" + "foo_name" == "id = :foo_id AND name = :foo_name"
    ensures "id = " + "?" + " AND name = " + "?" == "id = ? AND name = ?"
  {
  }

  lemma ExampleNoSpaceBeforeToken(q: string)
    requires q == "id =:foo_id AND name =:foo_name OR id=1"
    ensures ToIndexedQuery(q) == Some(IndexedQuery("id =? AND name =? OR id=1", map["foo_id" := 0, "foo_name" := 1]))
  {
    UnspacedText();
    TwoTokensThenText("id =", "foo_id", " AND name =", "foo_name", " OR id=1");
  }

  lemma UnspacedText()
    ensures "id =" + ":" + "foo_id" + " AND name =" + ":" + "foo_name" + " OR id=1"
         == "id =:foo_id AND name =:foo_name OR id=1"
    ensures "id =" + "?" + " AND name =" + "?" + " OR id=1" == "id =? AND name =? OR id=1"
  {
  }

  lemma ExamplesWithoutTokens()
    ensures ToIndexedQuery("id=1") == Some(IndexedQuery("id=1", map[]))
    ensures ToIndexedQuery("") == None
  {
    IndexOfNone("id=1", ':', 0);
    assert !IsBlank("id=1") by { assert !IsSpace("id=1"[0]); }
    NoTokens("id=1");
  }

  //---------------------------------------------------------------------------
  // The scanner as written: a cursor loop over the condition

  /** Repository.toIndexedQuery as a loop moving the `start`/`end` cursors,
      appending to a builder and putting into the index. */
  method IndexQuery(q: string) returns (r: Option<IndexedQuery>)
    ensures r == ToIndexedQuery(q)
  {
    if IsBlank(q) {
      return None;
    }
    var start := IndexOf(q, ':', 0);
    if start <= 0 {
      NoTokens(q);
      return Some(IndexedQuery(q, map[]));
    }
    ghost var whole := Tokenize(q);
    var sb := q[..start];
    var index: map<string, nat> := map[];
    var i: nat := 0;
    ghost var done := [Literal(q[..start])];
    RenderOne(Literal(q[..start]));
    ghost var pending := Scan(q, start);
    assert whole == done + pending;
    while true
      invariant 0 < start < |q| && q[start] == ':'
      invariant pending == Scan(q, start) && whole == done + pending
      invariant sb == Positional(done) && index == Ordinals(Names(done)) && i == |Names(done)|
      decreases |q| - start
    {
      var end := IndexOf(q, ' ', start + 1);
      var more := true;
      if end < 0 {
        end := |q|;
        more := false;
      }
      var key := q[start + 1..end];
      var next := if more then IndexOf(q, ':', end) else -1;
      var literal := if next > 0 then q[end..next] else q[end..];
      ScanHead(q, start, end, more, next);
      AddToken(done, key);
      index := index[key := i];
      i := i + 1;
      sb := sb + "?";
      if !more {
        done := done + [Token(key)];
        assert done == whole;
        break;
      }
      AddLiteral(done + [Token(key)], literal);
      sb := sb + literal;
      if next <= 0 {
        assert pending == [Token(key), Literal(literal)];
        Append2(done, Token(key), Literal(literal));
        done := done + [Token(key)] + [Literal(literal)];
        break;
      }
      Regroup(done, Token(key), Literal(literal), Scan(q, next));
      done := done + [Token(key)] + [Literal(literal)];
      pending := Scan(q, next);
      start := next;
    }
    r := Some(IndexedQuery(sb, index));
  }

  /** One round of the scanner: the token up to `end` and, when there is a
      space, the literal up to the next `:` (or the end). */
  lemma ScanHead(q: string, start: nat, end: nat, more: bool, next: int)
    requires start < |q| && q[start] == ':'
    requires more <==> IndexOf(q, ' ', start + 1) >= 0
    requires end == if more then IndexOf(q, ' ', start + 1) else |q|
    requires next == if more then IndexOf(q, ':', end) else -1
    ensures !more ==> Scan(q, start) == [Token(q[start + 1..end])]
    ensures more && next <= 0 ==> Scan(q, start) == [Token(q[start + 1..end]), Literal(q[end..])]
    ensures more && next > 0 ==>
              Scan(q, start) == [Token(q[start + 1..end]), Literal(q[end..next])] + Scan(q, next)
  {
    if !more {
      assert q[start + 1..end] == q[start + 1..];
    }
  }

  lemma Append2(done: seq<Piece>, t: Piece, l: Piece)
    ensures done + [t] + [l] == done + [t, l]
  {
  }

  lemma Regroup(done: seq<Piece>, t: Piece, l: Piece, rest: seq<Piece>)
    ensures done + ([t, l] + rest) == done + [t] + [l] + rest
  {
    assert [t, l] + rest == [t] + [l] + rest;
  }

  /** A token extends the builder by `?` and the index by the next ordinal. */
  lemma AddToken(done: seq<Piece>, key: string)
    ensures Positional(done + [Token(key)]) == Positional(done) + "?"
    ensures Names(done + [Token(key)]) == Names(done) + [key]
    ensures Ordinals(Names(done + [Token(key)])) == Ordinals(Names(done))[key := |Names(done)|]
  {
    Snoc(done, Token(key));
    OrdinalsStep(Names(done), key);
  }

  /** A literal extends the builder by itself and leaves the index alone. */
  lemma AddLiteral(done: seq<Piece>, text: string)
    ensures Positional(done + [Literal(text)]) == Positional(done) + text
    ensures Names(done + [Literal(text)]) == Names(done)
  {
    Snoc(done, Literal(text));
  }

  lemma OrdinalsStep(names: seq<string>, key: string)
    ensures Ordinals(names + [key]) == Ordinals(names)[key := |names|]
  {
    assert (names + [key])[..|names|] == names;
  }

  //---------------------------------------------------------------------------
  // Repository.toParameters

  /** `parameters.get(name)`: None stands for Java null (absent name). */
  function Lookup<V>(params: map<string, V>, name: string): Option<V>
  {
    if name in params then Some(params[name]) else None
  }

  predicate InRange(index: map<string, nat>)
  {
    forall n :: n in index ==> index[n] < |index|
  }

  predicate Injective(index: map<string, nat>)
  {
    forall a, b :: a in index && b in index && a != b ==> index[a] != index[b]
  }

  /** Repository.toParameters: an array of `index.size()` slots filled entry by
      entry with `slots[ordinal] = parameters.get(name)`, in the map's own
      (unspecified) iteration order. An ordinal past the array throws. */
  method ToParameters<V>(index: map<string, nat>, params: map<string, V>) returns (r: Result<seq<Option<V>>>)
    ensures r.Failure? <==> !InRange(index)
    ensures r.Failure? ==> r.error == IndexOutOfBounds
    ensures r.Success? ==> |r.value| == |index|
    ensures r.Success? ==> forall j :: 0 <= j < |r.value| ==>
              r.value[j] == None || exists n :: n in index && index[n] == j && r.value[j] == Lookup(params, n)
    ensures r.Success? && Injective(index) ==>
              forall n :: n in index ==> r.value[index[n]] == Lookup(params, n)
  {
    var slots := new Option<V>[|index|](_ => None);
    var todo := index.Keys;
    while todo != {}
      invariant todo <= index.Keys
      invariant forall n :: n in index && n !in todo ==> index[n] < slots.Length
      invariant forall j :: 0 <= j < slots.Length ==>
                  slots[j] == None || exists n :: n in index && n !in todo && index[n] == j && slots[j] == Lookup(params, n)
      invariant Injective(index) ==>
                  forall n :: n in index && n !in todo ==> slots[index[n]] == Lookup(params, n)
      decreases todo
    {
      var name :| name in todo;
      var ordinal := index[name];
      if ordinal >= slots.Length {
        return Failure(IndexOutOfBounds);
      }
      slots[ordinal] := Lookup(params, name);
      todo := todo - {name};
    }
    r := Success(slots[..]);
  }

  /** The index of a condition never maps two names to one ordinal; its
      ordinals fit an array of its own size exactly when no name repeats,
      and then each name's ordinal is its position. */
  lemma IndexShape(q: string)
    requires !IsBlank(q)
    ensures Injective(ToIndexedQuery(q).value.index)
    ensures InRange(ToIndexedQuery(q).value.index) <==> Distinct(Names(Tokenize(q)))
    ensures Distinct(Names(Tokenize(q))) ==> |ToIndexedQuery(q).value.index| == |Names(Tokenize(q))|
    ensures Distinct(Names(Tokenize(q))) ==>
              forall j :: 0 <= j < |Names(Tokenize(q))| ==>
                Names(Tokenize(q))[j] in ToIndexedQuery(q).value.index
                && ToIndexedQuery(q).value.index[Names(Tokenize(q))[j]] == j
  {
    var names := Names(Tokenize(q));
    OrdinalsInjective(names);
    OrdinalsSize(names);
    if Distinct(names) {
      OrdinalsOfDistinct(names);
    } else {
      var last := |names| - 1;
      OrdinalsStep(names[..last], names[last]);
      assert names[..last] + [names[last]] == names;
      assert Ordinals(names)[names[last]] == last >= |Ordinals(names)|;
    }
  }

  /** The positional form of a named call (the named-parameter defaults of
      Repository): a blank condition is refused; otherwise the condition is
      translated and the values are laid out by ordinal. */
  datatype PositionalCall<V> = PositionalCall(query: string, params: seq<Option<V>>)

  method Translate<V>(q: string, params: map<string, V>) returns (r: Result<PositionalCall<V>>)
    ensures IsBlank(q) <==> r == Failure(IllegalArgument("No any condition in the query:" + q))
    ensures !IsBlank(q) ==> (r.Success? <==> Distinct(Names(Tokenize(q))))
    ensures !IsBlank(q) && r.Failure? ==> r.error == IndexOutOfBounds
    ensures r.Success? ==>
              && r.value.query == ToIndexedQuery(q).value.query
              && |r.value.params| == |Names(Tokenize(q))|
              && forall j :: 0 <= j < |r.value.params| ==> r.value.params[j] == Lookup(params, Names(Tokenize(q))[j])
  {
    if IsBlank(q) {
      return Failure(IllegalArgument("No any condition in the query:" + q));
    }
    var iq := IndexQuery(q);
    IndexShape(q);
    var laid := ToParameters(iq.value.index, params);
    if laid.Failure? {
      return Failure(laid.error);
    }
    r := Success(PositionalCall(iq.value.query, laid.value));
  }
}
