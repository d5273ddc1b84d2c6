/** The parts of java.lang.String that the modelled code relies on:
    indexOf, contains, endsWith, trim, toLowerCase/toUpperCase (ASCII letters
    only) and joining with a separator, plus the blank test used by
    StringUtil.isInvalid. */
module Text {

  /** `s.indexOf(c, from)`: the first position at or after `from` holding `c`, or -1. */
  function IndexOf(s: string, c: char, from: nat): (r: int)
    ensures r == -1 || from <= r < |s|
    ensures r >= 0 ==> s[r] == c && forall k :: from <= k < r ==> s[k] != c
    ensures r == -1 ==> forall k :: from <= k < |s| ==> s[k] != c
    decreases |s| - from
  {
    if from >= |s| then -1
    else if s[from] == c then from
    else IndexOf(s, c, from + 1)
  }

  /** IndexOf pinned down by the slice it skips. */
  lemma IndexOfAt(s: string, c: char, from: nat, r: nat)
    requires from <= r < |s| && s[r] == c && c !in s[from..r]
    ensures IndexOf(s, c, from) == r
  {
  }

  lemma IndexOfNone(s: string, c: char, from: nat)
    requires from <= |s| && c !in s[from..]
    ensures IndexOf(s, c, from) == -1
  {
  }

  predicate OccursAt(s: string, p: string, k: nat)
  {
    k + |p| <= |s| && s[k..k + |p|] == p
  }

  /** `s.indexOf(p, from)`: the first position at or after `from` where `p` occurs, or -1. */
  function IndexOfText(s: string, p: string, from: nat): (r: int)
    ensures r == -1 || (from <= r && OccursAt(s, p, r))
    ensures r >= 0 ==> forall k :: from <= k < r ==> !OccursAt(s, p, k)
    ensures r == -1 ==> forall k :: from <= k ==> !OccursAt(s, p, k)
    decreases |s| - from
  {
    if from + |p| > |s| then -1
    else if s[from..from + |p|] == p then from
    else IndexOfText(s, p, from + 1)
  }

  /** `s.contains(p)` */
  predicate Contains(s: string, p: string)
  {
    IndexOfText(s, p, 0) >= 0
  }

  /** `s.endsWith(p)` */
  predicate EndsWith(s: string, p: string)
  {
    |p| <= |s| && s[|s| - |p|..] == p
  }

  /** A character that String.trim removes. */
  predicate IsSpace(c: char)
  {
    c <= ' '
  }

  /** `StringUtil.isInvalid(s)`, read as `s == null || s.trim().isEmpty()`,
      for a non-null `s`. */
  predicate IsBlank(s: string)
  {
    forall k :: 0 <= k < |s| ==> IsSpace(s[k])
  }

  /** Position of the first character above ' ' at or after `k`, or |s|. */
  function TrimStart(s: string, k: nat): (r: nat)
    requires k <= |s|
    ensures k <= r <= |s|
    ensures forall j :: k <= j < r ==> IsSpace(s[j])
    ensures r < |s| ==> !IsSpace(s[r])
    decreases |s| - k
  {
    if k < |s| && IsSpace(s[k]) then TrimStart(s, k + 1) else k
  }

  /** One past the last character above ' ' before `k` and at or after `lo`, or `lo`. */
  function TrimEnd(s: string, lo: nat, k: nat): (r: nat)
    requires lo <= k <= |s|
    ensures lo <= r <= k
    ensures forall j :: r <= j < k ==> IsSpace(s[j])
    ensures r > lo ==> !IsSpace(s[r - 1])
    decreases k
  {
    if k > lo && IsSpace(s[k - 1]) then TrimEnd(s, lo, k - 1) else k
  }

  /** `s.trim()`: `s` without its leading and trailing characters at or below ' '. */
  function Trim(s: string): (r: string)
    ensures |r| <= |s|
    ensures r == [] || (!IsSpace(r[0]) && !IsSpace(r[|r| - 1]))
    ensures r == [] <==> IsBlank(s)
  {
    var a := TrimStart(s, 0);
    var b := TrimEnd(s, a, |s|);
    assert a < |s| ==> a < b;
    s[a..b]
  }

  /** Trimming removes only characters at or below ' ', so no other character is lost. */
  lemma CountTrim(s: string, c: char)
    requires !IsSpace(c)
    ensures Count(Trim(s), c) == Count(s, c)
  {
    var a := TrimStart(s, 0);
    var b := TrimEnd(s, a, |s|);
    CountSlices(s, a, b, c);
    CountAbsent(s[..a], c);
    CountAbsent(s[b..], c);
  }

  function Lower(c: char): char
  {
    if 'A' <= c <= 'Z' then (c as int + 32) as char else c
  }

  function Upper(c: char): char
  {
    if 'a' <= c <= 'z' then (c as int - 32) as char else c
  }

  /** `s.toLowerCase()` restricted to ASCII letters; the length is kept. */
  function ToLower(s: string): (r: string)
    ensures |r| == |s| && forall k :: 0 <= k < |s| ==> r[k] == Lower(s[k])
  {
    seq(|s|, k requires 0 <= k < |s| => Lower(s[k]))
  }

  /** `s.toUpperCase()` restricted to ASCII letters; the length is kept. */
  function ToUpper(s: string): (r: string)
    ensures |r| == |s| && forall k :: 0 <= k < |s| ==> r[k] == Upper(s[k])
  {
    seq(|s|, k requires 0 <= k < |s| => Upper(s[k]))
  }

  /** Number of occurrences of `c` in `s`. */
  function Count(s: string, c: char): nat
  {
    if s == [] then 0 else (if s[0] == c then 1 else 0) + Count(s[1..], c)
  }

  lemma {:induction false} CountAppend(a: string, b: string, c: char)
    ensures Count(a + b, c) == Count(a, c) + Count(b, c)
  {
    if a == [] {
      assert a + b == b;
    } else {
      assert (a + b)[1..] == a[1..] + b;
      CountAppend(a[1..], b, c);
    }
  }

  lemma {:induction false} CountAbsent(s: string, c: char)
    requires c !in s
    ensures Count(s, c) == 0
  {
    if s != [] {
      assert s == [s[0]] + s[1..];
      CountAbsent(s[1..], c);
    }
  }

  lemma SplitAt(s: string, i: nat)
    requires i <= |s|
    ensures s[..i] + s[i..] == s
  {
  }

  lemma Assoc(x: string, y: string, z: string)
    ensures (x + y) + z == x + (y + z)
  {
  }

  lemma HeadAt(s: string, i: nat)
    requires i < |s|
    ensures s[i..] == [s[i]] + s[i + 1..]
  {
  }

  lemma HeadAndCut(s: string, i: nat, j: nat)
    requires i < j <= |s|
    ensures s[i..] == [s[i]] + s[i + 1..j] + s[j..]
  {
  }

  /** A suffix whose upper-case form is free of `?` is itself free of `?`. */
  lemma UpperSuffixFree(t: string, w: string)
    requires EndsWith(ToUpper(t), w) && '?' !in w
    ensures '?' !in t[|t| - |w|..]
  {
    var u, n := ToUpper(t), |t| - |w|;
    forall k | n <= k < |t|
      ensures t[k] != '?'
    {
      assert u[n..][k - n] == u[k] == Upper(t[k]);
    }
  }

  /** Cutting off a suffix free of `?` keeps every `?`. */
  lemma CountCut(t: string, n: nat)
    requires n <= |t| && '?' !in t[n..]
    ensures Count(t[..n], '?') == Count(t, '?')
  {
    CountAbsent(t[n..], '?');
    assert t == t[..n] + t[n..];
    CountAppend(t[..n], t[n..], '?');
  }

  /** A text with exactly one `c`, between two `c`-free parts. */
  lemma CountSingle(a: string, c: char, b: string)
    requires c !in a && c !in b
    ensures Count(a + [c] + b, c) == 1
  {
    CountAbsent(a, c);
    CountAbsent(b, c);
    CountAppend(a + [c], b, c);
    CountAppend(a, [c], c);
    assert [c][1..] == [];
  }

  /** A text with exactly two `c`, separated by `c`-free parts. */
  lemma CountDouble(a: string, c: char, b: string, d: string)
    requires c !in a && c !in b && c !in d
    ensures Count(a + [c] + b + [c] + d, c) == 2
  {
    CountSingle(a, c, b);
    CountSingle([], c, d);
    assert [] + [c] + d == [c] + d;
    CountAppend(a + [c] + b, [c] + d, c);
    assert a + [c] + b + [c] + d == (a + [c] + b) + ([c] + d);
  }

  /** A text with one `?` between `?`-free parts. */
  lemma MarksOfOne(s: string, a: string, b: string)
    requires s == a + "?" + b && '?' !in a && '?' !in b
    ensures Count(s, '?') == 1
  {
    CountSingle(a, '?', b);
  }

  /** A text with two `?` between `?`-free parts. */
  lemma MarksOfTwo(s: string, a: string, b: string, d: string)
    requires s == a + "?" + b + "?" + d && '?' !in a && '?' !in b && '?' !in d
    ensures Count(s, '?') == 2
  {
    CountDouble(a, '?', b, d);
  }

  /** A slice of `s` holds no more of `c` than `s`; the rest accounts for the difference. */
  lemma CountSlices(s: string, i: nat, j: nat, c: char)
    requires i <= j <= |s|
    ensures Count(s, c) == Count(s[..i], c) + Count(s[i..j], c) + Count(s[j..], c)
  {
    assert s == s[..i] + s[i..j] + s[j..];
    CountAppend(s[..i] + s[i..j], s[j..], c);
    CountAppend(s[..i], s[i..j], c);
  }

  /** A suffix of `s` cut at a character and two further positions. */
  lemma SuffixPieces(s: string, i: nat, j: nat, k: nat)
    requires i < j <= k <= |s|
    ensures s[i..] == [s[i]] + s[i + 1..j] + s[j..k] + s[k..]
  {
    assert s[i..] == [s[i]] + s[i + 1..];
    assert s[i + 1..] == s[i + 1..j] + s[j..];
    assert s[j..] == s[j..k] + s[k..];
  }

  /** Cutting a suffix of `s` known to be `x + y` back into its parts. */
  lemma Cut(s: string, i: nat, x: string, y: string)
    requires i <= |s| && s[i..] == x + y
    ensures i + |x| <= |s| && s[i..i + |x|] == x && s[i + |x|..] == y
  {
    assert s[i..][..|x|] == x && s[i..][|x|..] == y;
  }

  /** `String.join(sep, parts)`: the parts separated by `sep`. */
  function Join(parts: seq<string>, sep: char): string
  {
    if |parts| == 0 then ""
    else if |parts| == 1 then parts[0]
    else parts[0] + [sep] + Join(parts[1..], sep)
  }

  lemma {:induction false} JoinSnoc(parts: seq<string>, x: string, sep: char)
    requires |parts| > 0
    ensures Join(parts + [x], sep) == Join(parts, sep) + [sep] + x
  {
    if |parts| == 1 {
      assert parts + [x] == [parts[0], x];
      assert [parts[0], x][1..] == [x];
    } else {
      assert (parts + [x])[1..] == parts[1..] + [x];
      JoinSnoc(parts[1..], x, sep);
    }
  }

  /** A builder holding `head` and the joined parts grows by the separator
      (unless it is the first part) and the new part. */
  lemma JoinExtend(head: string, parts: seq<string>, x: string, sep: char)
    ensures head + Join(parts + [x], sep) == head + Join(parts, sep) + (if parts == [] then x else [sep] + x)
  {
    if parts == [] {
      assert parts + [x] == [x];
    } else {
      JoinSnoc(parts, x, sep);
    }
  }

  /** Splits `s` at every `sep`; the inverse of Join for parts free of `sep`. */
  function Split(s: string, sep: char): (r: seq<string>)
    ensures |r| > 0
    decreases |s|
  {
    var i := IndexOf(s, sep, 0);
    if i < 0 then [s] else [s[..i]] + Split(s[i + 1..], sep)
  }

  lemma {:induction false} SplitJoin(parts: seq<string>, sep: char)
    requires |parts| > 0
    requires forall k, j :: 0 <= k < |parts| && 0 <= j < |parts[k]| ==> parts[k][j] != sep
    ensures Split(Join(parts, sep), sep) == parts
  {
    if |parts| == 1 {
      assert IndexOf(parts[0], sep, 0) == -1;
    } else {
      var s := Join(parts, sep);
      var rest := Join(parts[1..], sep);
      assert s == parts[0] + [sep] + rest;
      assert s[|parts[0]|] == sep;
      assert forall j :: 0 <= j < |parts[0]| ==> s[j] == parts[0][j] != sep;
      assert IndexOf(s, sep, 0) == |parts[0]|;
      assert s[..|parts[0]|] == parts[0];
      assert s[|parts[0]| + 1..] == rest;
      SplitJoin(parts[1..], sep);
      assert [parts[0]] + parts[1..] == parts;
    }
  }

  /** Total occurrences of `c` over all the strings of `parts`. */
  function CountAll(parts: seq<string>, c: char): nat
  {
    if parts == [] then 0 else Count(parts[0], c) + CountAll(parts[1..], c)
  }

  lemma {:induction false} CountJoin(parts: seq<string>, sep: char, c: char)
    requires sep != c
    ensures Count(Join(parts, sep), c) == CountAll(parts, c)
  {
    if |parts| == 1 {
      assert parts[1..] == [];
    } else if |parts| > 1 {
      CountAppend(parts[0] + [sep], Join(parts[1..], sep), c);
      CountAppend(parts[0], [sep], c);
      assert Count([sep], c) == 0 by { assert [sep][1..] == []; }
      CountJoin(parts[1..], sep, c);
    }
  }
}
