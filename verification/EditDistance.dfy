/** How alike two texts are: the two-row edit-distance table, and what the number it computes means. */
module EditDistance {
  import opened Options

  /** One step over the source text, from its front: keep the next character, replace it, drop it, or
      put in a new one. */
  datatype Edit = Keep | Replace(c: char) | Drop | Put(c: char)

  /** What a script makes of a text; nothing if it does not use up exactly that text. */
  function Apply(script: seq<Edit>, a: string): Option<string>
    decreases |script|
  {
    if |script| == 0 then (if |a| == 0 then Some("") else None)
    else
      var rest := script[..|script| - 1];
      match script[|script| - 1]
      case Put(c) => Extend(Apply(rest, a), [c])
      case Keep => if |a| == 0 then None else Extend(Apply(rest, a[..|a| - 1]), [a[|a| - 1]])
      case Replace(c) => if |a| == 0 then None else Extend(Apply(rest, a[..|a| - 1]), [c])
      case Drop => if |a| == 0 then None else Apply(rest, a[..|a| - 1])
  }

  function Extend(o: Option<string>, tail: string): Option<string> {
    match o
    case None => None
    case Some(s) => Some(s + tail)
  }

  /** Every edit but a Keep costs one. */
  function Price(script: seq<Edit>): nat {
    if |script| == 0 then 0 else Price(script[..|script| - 1]) + (if script[|script| - 1].Keep? then 0 else 1)
  }

  function Min(x: nat, y: nat): nat {
    if x <= y then x else y
  }

  function Max(x: nat, y: nat): nat {
    if x >= y then x else y
  }

  function Init(s: string): string
    requires |s| > 0
  {
    s[..|s| - 1]
  }

  function Last(s: string): char
    requires |s| > 0
  {
    s[|s| - 1]
  }

  function Mismatch(x: char, y: char): nat {
    if x == y then 0 else 1
  }

  /** The recurrence the table fills in. */
  function Distance(a: string, b: string): nat
    decreases |a| + |b|
  {
    if |a| == 0 then |b|
    else if |b| == 0 then |a|
    else Min(Min(Distance(a, Init(b)) + 1, Distance(Init(a), b) + 1),
             Distance(Init(a), Init(b)) + Mismatch(Last(a), Last(b)))
  }

  function Similarity(a: string, b: string): real {
    if |a| == 0 && |b| == 0 then 1.0
    else if |a| == 0 || |b| == 0 then 0.0
    else 1.0 - Distance(a, b) as real / Max(|a|, |b|) as real
  }

  // ---------------------------------------------------------------------------------------------
  // The distance is the length of a shortest script
  // ---------------------------------------------------------------------------------------------

  lemma InitLast(s: string)
    requires |s| > 0
    ensures Init(s) + [Last(s)] == s
  {
  }

  lemma {:induction false} ScriptAppend(script: seq<Edit>, e: Edit)
    ensures (script + [e])[..|script|] == script
    ensures Price(script + [e]) == Price(script) + (if e.Keep? then 0 else 1)
  {
    assert (script + [e])[..|script|] == script;
  }

  lemma {:induction false} ApplyPut(script: seq<Edit>, a: string, b: string, c: char)
    requires Apply(script, a) == Some(b)
    ensures Apply(script + [Put(c)], a) == Some(b + [c])
  {
    ScriptAppend(script, Put(c));
  }

  lemma {:induction false} ApplyKeep(script: seq<Edit>, a: string, b: string, c: char)
    requires Apply(script, a) == Some(b)
    ensures Apply(script + [Keep], a + [c]) == Some(b + [c])
  {
    ScriptAppend(script, Keep);
    assert (a + [c])[..|a|] == a;
  }

  lemma {:induction false} ApplyReplace(script: seq<Edit>, a: string, b: string, c: char, d: char)
    requires Apply(script, a) == Some(b)
    ensures Apply(script + [Replace(d)], a + [c]) == Some(b + [d])
  {
    ScriptAppend(script, Replace(d));
    assert (a + [c])[..|a|] == a;
  }

  lemma {:induction false} ApplyDrop(script: seq<Edit>, a: string, b: string, c: char)
    requires Apply(script, a) == Some(b)
    ensures Apply(script + [Drop], a + [c]) == Some(b)
  {
    ScriptAppend(script, Drop);
    assert (a + [c])[..|a|] == a;
  }

  /** A script for the pair of texts, at the pair's distance. */
  lemma {:induction false} SomeScript(a: string, b: string) returns (script: seq<Edit>)
    ensures Apply(script, a) == Some(b)
    ensures Price(script) == Distance(a, b)
    decreases |a| + |b|
  {
    if |a| == 0 && |b| == 0 {
      script := [];
    } else if |a| == 0 || (|b| > 0 && Distance(a, b) == Distance(a, Init(b)) + 1) {
      var s := SomeScript(a, Init(b));
      InitLast(b);
      ApplyPut(s, a, Init(b), Last(b));
      ScriptAppend(s, Put(Last(b)));
      script := s + [Put(Last(b))];
    } else if |b| == 0 || Distance(a, b) == Distance(Init(a), b) + 1 {
      var s := SomeScript(Init(a), b);
      InitLast(a);
      ApplyDrop(s, Init(a), b, Last(a));
      ScriptAppend(s, Drop);
      script := s + [Drop];
    } else {
      var s := SomeScript(Init(a), Init(b));
      InitLast(a);
      InitLast(b);
      if Last(a) == Last(b) {
        ApplyKeep(s, Init(a), Init(b), Last(a));
        ScriptAppend(s, Keep);
        script := s + [Keep];
      } else {
        ApplyReplace(s, Init(a), Init(b), Last(a), Last(b));
        ScriptAppend(s, Replace(Last(b)));
        script := s + [Replace(Last(b))];
      }
    }
  }

  /** One more character on either side moves the distance by at most one. */
  lemma {:induction false} OneMore(a: string, b: string)
    ensures |a| > 0 ==> Distance(a, b) <= Distance(Init(a), b) + 1
    ensures |b| > 0 ==> Distance(a, b) <= Distance(a, Init(b)) + 1
  {
    if |b| == 0 && |a| > 0 {
      assert Distance(Init(a), b) == |a| - 1;
    }
  }

  /** No script is cheaper than the distance. */
  lemma {:induction false} NoCheaperScript(script: seq<Edit>, a: string, b: string)
    requires Apply(script, a) == Some(b)
    ensures Distance(a, b) <= Price(script)
    decreases |script|
  {
    if |script| > 0 {
      var rest := script[..|script| - 1];
      OneMore(a, b);
      match script[|script| - 1] {
        case Put(c) =>
          NoCheaperScript(rest, a, Init(b));
        case Drop =>
          NoCheaperScript(rest, Init(a), b);
        case Keep =>
          NoCheaperScript(rest, Init(a), Init(b));
        case Replace(c) =>
          NoCheaperScript(rest, Init(a), Init(b));
      }
    }
  }

  // ---------------------------------------------------------------------------------------------
  // The distance is a metric
  // ---------------------------------------------------------------------------------------------

  lemma {:induction false} Symmetric(a: string, b: string)
    ensures Distance(a, b) == Distance(b, a)
    decreases |a| + |b|
  {
    if |a| > 0 && |b| > 0 {
      Symmetric(a, Init(b));
      Symmetric(Init(a), b);
      Symmetric(Init(a), Init(b));
    }
  }

  lemma {:induction false} ZeroIffEqual(a: string, b: string)
    ensures Distance(a, b) == 0 <==> a == b
    decreases |a| + |b|
  {
    if |a| > 0 && |b| > 0 {
      InitLast(a);
      InitLast(b);
      ZeroIffEqual(Init(a), Init(b));
    }
  }

  /** The distance is at most the longer length and at least the difference of the lengths. */
  lemma {:induction false} Bounds(a: string, b: string)
    ensures Distance(a, b) <= Max(|a|, |b|)
    ensures |a| - |b| <= Distance(a, b) && |b| - |a| <= Distance(a, b)
    decreases |a| + |b|
  {
    if |a| > 0 && |b| > 0 {
      Bounds(a, Init(b));
      Bounds(Init(a), b);
      Bounds(Init(a), Init(b));
    }
  }

  /** Two scripts in a row can be done as one, at no more than the two prices together. */
  lemma {:induction false} Compose(s: seq<Edit>, t: seq<Edit>, a: string, b: string, c: string)
    returns (u: seq<Edit>)
    requires Apply(s, a) == Some(b) && Apply(t, b) == Some(c)
    ensures Apply(u, a) == Some(c)
    ensures Price(u) <= Price(s) + Price(t)
    decreases |s| + |t|
  {
    if |s| == 0 && |t| == 0 {
      return [];
    }
    if |t| > 0 && t[|t| - 1].Put? {
      u := ComposePut(s, t, a, b, c);
    } else if |s| > 0 && s[|s| - 1].Drop? {
      u := ComposeDrop(s, t, a, b, c);
    } else {
      u := ComposeBoth(s, t, a, b, c);
    }
  }

  lemma {:induction false} ComposePut(s: seq<Edit>, t: seq<Edit>, a: string, b: string, c: string)
    returns (u: seq<Edit>)
    requires Apply(s, a) == Some(b) && Apply(t, b) == Some(c)
    requires |t| > 0 && t[|t| - 1].Put?
    ensures Apply(u, a) == Some(c)
    ensures Price(u) <= Price(s) + Price(t)
    decreases |s| + |t|, 0
  {
    var e := t[|t| - 1];
    var v := Compose(s, t[..|t| - 1], a, b, Init(c));
    ApplyPut(v, a, Init(c), e.c);
    ScriptAppend(v, e);
    u := v + [e];
  }

  lemma {:induction false} ComposeDrop(s: seq<Edit>, t: seq<Edit>, a: string, b: string, c: string)
    returns (u: seq<Edit>)
    requires Apply(s, a) == Some(b) && Apply(t, b) == Some(c)
    requires |s| > 0 && s[|s| - 1].Drop?
    ensures Apply(u, a) == Some(c)
    ensures Price(u) <= Price(s) + Price(t)
    decreases |s| + |t|, 0
  {
    var v := Compose(s[..|s| - 1], t, Init(a), b, c);
    InitLast(a);
    ApplyDrop(v, Init(a), c, Last(a));
    ScriptAppend(v, Drop);
    u := v + [Drop];
  }

  /** The first script produced the last character of b, and the second used it up. */
  lemma {:induction false} ComposeBoth(s: seq<Edit>, t: seq<Edit>, a: string, b: string, c: string)
    returns (u: seq<Edit>)
    requires Apply(s, a) == Some(b) && Apply(t, b) == Some(c)
    requires |s| > 0 || |t| > 0
    requires |t| > 0 ==> !t[|t| - 1].Put?
    requires |s| > 0 ==> !s[|s| - 1].Drop?
    ensures Apply(u, a) == Some(c)
    ensures Price(u) <= Price(s) + Price(t)
    decreases |s| + |t|, 0
  {
    var e, f := s[|s| - 1], t[|t| - 1];
    var a' := if e.Put? then a else Init(a);
    var c' := if f.Drop? then c else Init(c);
    var v := Compose(s[..|s| - 1], t[..|t| - 1], a', Init(b), c');
    if e.Put? && f.Drop? {
      u := v;
    } else if e.Put? {
      InitLast(c);
      ApplyPut(v, a, c', Last(c));
      ScriptAppend(v, Put(Last(c)));
      u := v + [Put(Last(c))];
    } else if f.Drop? {
      InitLast(a);
      ApplyDrop(v, a', c, Last(a));
      ScriptAppend(v, Drop);
      u := v + [Drop];
    } else {
      InitLast(a);
      InitLast(c);
      if e.Keep? && f.Keep? {
        ApplyKeep(v, a', c', Last(a));
        ScriptAppend(v, Keep);
        u := v + [Keep];
      } else {
        ApplyReplace(v, a', c', Last(a), Last(c));
        ScriptAppend(v, Replace(Last(c)));
        u := v + [Replace(Last(c))];
      }
    }
  }

  lemma {:induction false} Triangle(a: string, b: string, c: string)
    ensures Distance(a, c) <= Distance(a, b) + Distance(b, c)
  {
    var s := SomeScript(a, b);
    var t := SomeScript(b, c);
    var u := Compose(s, t, a, b, c);
    NoCheaperScript(u, a, c);
  }

  // ---------------------------------------------------------------------------------------------
  // The similarity
  // ---------------------------------------------------------------------------------------------

  lemma SmallerRatio(q: real, r: real, m: real, p: real)
    requires m > 0.0 && p == (r - q) * m
    ensures p > 0.0 <==> q < r
    ensures p == 0.0 <==> q == r
  {
  }

  lemma RatioRange(d: real, m: real, q: real)
    requires 0.0 <= d <= m && m > 0.0 && q == d / m
    ensures 0.0 <= q <= 1.0
    ensures q == 0.0 <==> d == 0.0
    ensures 1.0 - q > 0.9 <==> 10.0 * d < m
  {
    assert d == q * m;
    SmallerRatio(0.0, q, m, d);
    SmallerRatio(q, 1.0, m, m - d);
    SmallerRatio(q, 0.1, m, 0.1 * m - d);
  }

  /** The similarity lies in [0, 1], is 1 exactly for equal texts, does not depend on the order, and
      passes 0.9 exactly when fewer than one character in ten of the longer text has to be edited. */
  lemma {:induction false} SimilarityMeaning(a: string, b: string)
    ensures 0.0 <= Similarity(a, b) <= 1.0
    ensures Similarity(a, b) == 1.0 <==> a == b
    ensures Similarity(a, b) == Similarity(b, a)
    ensures Similarity(a, b) > 0.9 <==> a == b || 10 * Distance(a, b) < Max(|a|, |b|)
  {
    Bounds(a, b);
    ZeroIffEqual(a, b);
    Symmetric(a, b);
    if |a| > 0 && |b| > 0 {
      var d, m := Distance(a, b) as real, Max(|a|, |b|) as real;
      RatioRange(d, m, d / m);
      assert 10.0 * d == (10 * Distance(a, b)) as real;
    }
  }

  // ---------------------------------------------------------------------------------------------
  // The two-row table
  // ---------------------------------------------------------------------------------------------

  /** The first n cells of the row for the first j characters of b. */
  ghost function Row(a: string, b: string, n: nat, j: nat): (r: seq<nat>)
    requires n <= |a| + 1 && j <= |b|
    ensures |r| == n
  {
    if n == 0 then [] else Row(a, b, n - 1, j) + [Distance(a[..n - 1], b[..j])]
  }

  lemma {:induction false} RowAt(a: string, b: string, n: nat, j: nat, i: nat)
    requires i < n <= |a| + 1 && j <= |b|
    ensures Row(a, b, n, j)[i] == Distance(a[..i], b[..j])
  {
    if i < n - 1 {
      RowAt(a, b, n - 1, j, i);
    }
  }

  lemma {:induction false} FirstRowStep(a: string, b: string, i: nat)
    requires i <= |a|
    ensures Row(a, b, i + 1, 0) == Row(a, b, i, 0) + [i]
  {
  }

  lemma {:induction false} ColumnStart(a: string, b: string, j: nat)
    requires j <= |b|
    ensures Row(a, b, 1, j) == [j]
  {
    assert Row(a, b, 0, j) == [];
  }

  lemma {:induction false} RowNext(a: string, b: string, n: nat, j: nat, cell: nat)
    requires n <= |a| && j <= |b| && cell == Distance(a[..n], b[..j])
    ensures Row(a, b, n + 1, j) == Row(a, b, n, j) + [cell]
  {
  }

  lemma PrefixInit(s: string, n: nat)
    requires 0 < n <= |s|
    ensures Init(s[..n]) == s[..n - 1] && Last(s[..n]) == s[n - 1]
  {
  }

  /** The next cell from the one above, the one to the left and the one between. */
  lemma {:induction false} NextCell(a: string, b: string, a': string, b': string, above: nat, left: nat, diagonal: nat)
    returns (cell: nat)
    requires |a| > 0 && |b| > 0 && a' == Init(a) && b' == Init(b)
    requires above == Distance(a, b') && left == Distance(a', b) && diagonal == Distance(a', b')
    ensures cell == Distance(a, b)
    ensures cell == Min(Min(above + 1, left + 1), diagonal + Mismatch(Last(a), Last(b)))
  {
    cell := Distance(a, b);
  }

  lemma {:induction false} PrefixCell(a: string, b: string, i: nat, j: nat, above: nat, left: nat, diagonal: nat)
    returns (cell: nat)
    requires 0 < i <= |a| && 0 < j <= |b|
    requires above == Distance(a[..i], b[..j - 1]) && left == Distance(a[..i - 1], b[..j])
    requires diagonal == Distance(a[..i - 1], b[..j - 1])
    ensures cell == Distance(a[..i], b[..j])
    ensures cell == Min(Min(above + 1, left + 1), diagonal + Mismatch(a[i - 1], b[j - 1]))
  {
    PrefixInit(a, i);
    PrefixInit(b, j);
    cell := NextCell(a[..i], b[..j], a[..i - 1], b[..j - 1], above, left, diagonal);
  }

  lemma {:induction false} CellStep(a: string, b: string, i: nat, j: nat, above: nat, left: nat, diagonal: nat)
    requires 0 < i <= |a| && 0 < j <= |b|
    requires above == Row(a, b, |a| + 1, j - 1)[i] && diagonal == Row(a, b, |a| + 1, j - 1)[i - 1]
    requires left == Row(a, b, i, j)[i - 1]
    ensures Row(a, b, i + 1, j)
         == Row(a, b, i, j) + [Min(Min(above + 1, left + 1), diagonal + Mismatch(a[i - 1], b[j - 1]))]
  {
    RowAt(a, b, |a| + 1, j - 1, i);
    RowAt(a, b, |a| + 1, j - 1, i - 1);
    RowAt(a, b, i, j, i - 1);
    var cell := PrefixCell(a, b, i, j, above, left, diagonal);
    RowNext(a, b, i, j, cell);
  }

  method FirstRow(a: string, b: string, row: array<nat>)
    requires row.Length == |a| + 1
    modifies row
    ensures row[..] == Row(a, b, |a| + 1, 0)
  {
    var i := 0;
    while i <= |a|
      invariant 0 <= i <= |a| + 1
      invariant row[..i] == Row(a, b, i, 0)
    {
      FirstRowStep(a, b, i);
      row[i] := i;
      i := i + 1;
    }
    assert row[..i] == row[..];
  }

  method NextRow(a: string, b: string, j: nat, prev: array<nat>, curr: array<nat>)
    requires prev != curr && prev.Length == |a| + 1 && curr.Length == |a| + 1
    requires 0 < j <= |b| && prev[..] == Row(a, b, |a| + 1, j - 1)
    modifies curr
    ensures curr[..] == Row(a, b, |a| + 1, j)
  {
    curr[0] := j;
    ColumnStart(a, b, j);
    var i := 1;
    while i <= |a|
      invariant 1 <= i <= |a| + 1
      invariant curr[..i] == Row(a, b, i, j)
    {
      var cost := if a[i - 1] == b[j - 1] then 0 else 1;
      assert curr[i - 1] == curr[..i][i - 1] && prev[i] == prev[..][i] && prev[i - 1] == prev[..][i - 1];
      CellStep(a, b, i, j, prev[i], curr[i - 1], prev[i - 1]);
      curr[i] := Min(Min(prev[i] + 1, curr[i - 1] + 1), prev[i - 1] + cost);
      i := i + 1;
    }
    assert curr[..i] == curr[..];
  }

  method StringSimilarity(a: string, b: string) returns (r: real)
    ensures r == Similarity(a, b)
  {
    if |a| == 0 && |b| == 0 {
      return 1.0;
    }
    if |a| == 0 || |b| == 0 {
      return 0.0;
    }
    var prev, curr := new nat[|a| + 1], new nat[|a| + 1];
    FirstRow(a, b, prev);
    var j := 1;
    while j <= |b|
      invariant 1 <= j <= |b| + 1
      invariant fresh(prev) && fresh(curr) && prev != curr
      invariant prev.Length == |a| + 1 && curr.Length == |a| + 1
      invariant prev[..] == Row(a, b, |a| + 1, j - 1)
    {
      NextRow(a, b, j, prev, curr);
      prev, curr := curr, prev;
      j := j + 1;
    }
    RowAt(a, b, |a| + 1, |b|, |a|);
    assert prev[|a|] == prev[..][|a|] && a[..|a|] == a && b[..|b|] == b;
    r := 1.0 - prev[|a|] as real / Max(|a|, |b|) as real;
  }
}
