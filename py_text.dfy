/** The few Python string and list built-ins the representation builder rests on:
    `str.startswith`, `u' ' * n`, `sep.join(xs)`, `sorted` over names, and
    `s.split('\n')`, which the layout properties are stated with. */
module PyText {

  /** `s.startswith(p)` */
  predicate StartsWith(s: string, p: string) {
    |p| <= |s| && s[..|p|] == p
  }

  /** `s.startswith(p)` holds exactly when `s` is `p` followed by some rest. */
  lemma StartsWithIff(s: string, p: string)
    ensures StartsWith(s, p) <==> exists t :: s == p + t
  {
    if StartsWith(s, p) {
      assert s == p + s[|p|..];
    }
    if exists t :: s == p + t {
      var t :| s == p + t;
      assert s[..|p|] == p;
    }
  }

  /** `u' ' * n`: a run of `n` blanks. */
  function Spaces(n: nat): (r: string)
    ensures |r| == n
    ensures forall i :: 0 <= i < n ==> r[i] == ' '
  {
    if n == 0 then "" else " " + Spaces(n - 1)
  }

  /** `sep.join(xs)`: the items of `xs` with `sep` between each neighbouring pair. */
  function Join(sep: string, xs: seq<string>): string
    decreases |xs|
  {
    if |xs| == 0 then ""
    else if |xs| == 1 then xs[0]
    else xs[0] + sep + Join(sep, xs[1..])
  }

  /** The summed lengths of the items. */
  function TotalLength(xs: seq<string>): nat {
    if |xs| == 0 then 0 else |xs[0]| + TotalLength(xs[1..])
  }

  /** `sep.join(xs)` is empty for no items, starts with the first item, and is
      as long as the items together plus one separator between each pair. */
  lemma {:induction false} JoinShape(sep: string, xs: seq<string>)
    ensures |xs| == 0 ==> Join(sep, xs) == ""
    ensures |xs| > 0 ==> StartsWith(Join(sep, xs), xs[0])
    ensures |xs| > 0 ==> |Join(sep, xs)| == TotalLength(xs) + (|xs| - 1) * |sep|
    decreases |xs|
  {
    if |xs| > 1 {
      JoinShape(sep, xs[1..]);
      var r := Join(sep, xs);
      assert r[..|xs[0]|] == xs[0];
    }
  }

  /** `'\n' not in s` */
  predicate LineFree(s: string) {
    forall i :: 0 <= i < |s| ==> s[i] != '\n'
  }

  /** `s.split('\n')`: the lines of `s`; there is always at least one. */
  function Lines(s: string): (r: seq<string>)
    ensures |r| >= 1
  {
    if |s| == 0 then [""]
    else
      var rest := Lines(s[1..]);
      if s[0] == '\n' then [""] + rest else [[s[0]] + rest[0]] + rest[1..]
  }

  // ---------------------------------------------------------------------------
  // Lines: how splitting interacts with concatenation

  /** A leading line break opens an empty first line. */
  lemma LinesConsBreak(t: string)
    ensures |Lines("\n" + t)| == |Lines(t)| + 1
    ensures Lines("\n" + t)[0] == ""
    ensures Lines("\n" + t)[1..] == Lines(t)
  {
    assert ("\n" + t)[1..] == t;
  }

  /** Any other leading character joins the first line. */
  lemma LinesConsChar(c: char, t: string)
    requires c != '\n'
    ensures |Lines([c] + t)| == |Lines(t)|
    ensures Lines([c] + t)[0] == [c] + Lines(t)[0]
    ensures Lines([c] + t)[1..] == Lines(t)[1..]
  {
    assert ([c] + t)[1..] == t;
  }

  lemma LineFreeTail(a: string)
    requires LineFree(a) && |a| > 0
    ensures LineFree(a[1..]) && a[0] != '\n'
  {
    assert forall k :: 0 <= k < |a| - 1 ==> a[1..][k] == a[k + 1];
  }

  /** Text in front of the first line break extends the first line only. */
  lemma {:induction false} LinesPrepend(a: string, b: string)
    requires LineFree(a)
    ensures |Lines(a + b)| == |Lines(b)|
    ensures Lines(a + b)[0] == a + Lines(b)[0]
    ensures Lines(a + b)[1..] == Lines(b)[1..]
    decreases |a|
  {
    if |a| == 0 {
      assert a + b == b;
      assert a + Lines(b)[0] == Lines(b)[0];
    } else {
      var t := a[1..] + b;
      assert a + b == [a[0]] + t;
      LineFreeTail(a);
      LinesPrepend(a[1..], b);
      LinesConsChar(a[0], t);
      assert [a[0]] + (a[1..] + Lines(b)[0]) == a + Lines(b)[0];
    }
  }

  /** A string without a line break is a single line. */
  lemma LinesOfLineFree(a: string)
    requires LineFree(a)
    ensures Lines(a) == [a]
  {
    LinesPrepend(a, "");
    assert a + "" == a;
  }

  /** A line-free first line followed by a break: the first line, then the lines after. */
  lemma LinesAfterBreak(a: string, b: string)
    requires LineFree(a)
    ensures |Lines(a + "\n" + b)| == |Lines(b)| + 1
    ensures Lines(a + "\n" + b)[0] == a
    ensures Lines(a + "\n" + b)[1..] == Lines(b)
  {
    assert a + "\n" + b == a + ("\n" + b);
    LinesPrepend(a, "\n" + b);
    LinesConsBreak(b);
    assert a + "" == a;
  }

  /** `l2` is `l` with `b` added to the end of its last line. */
  predicate LastExtended(l: seq<string>, l2: seq<string>, b: string) {
    |l| >= 1 && |l2| == |l| && l2[..|l| - 1] == l[..|l| - 1] && l2[|l| - 1] == l[|l| - 1] + b
  }

  lemma LastExtendedBreak(l: seq<string>, l2: seq<string>, t: seq<string>, t2: seq<string>, b: string)
    requires LastExtended(t, t2, b)
    requires |l| == |t| + 1 && l[0] == "" && l[1..] == t
    requires |l2| == |t2| + 1 && l2[0] == "" && l2[1..] == t2
    ensures LastExtended(l, l2, b)
  {
    assert l == [""] + t;
    assert l2 == [""] + t2;
    assert l2[..|l| - 1] == [""] + t2[..|t| - 1];
    assert l[..|l| - 1] == [""] + t[..|t| - 1];
  }

  lemma LastExtendedChar(l: seq<string>, l2: seq<string>, t: seq<string>, t2: seq<string>, c: char, b: string)
    requires LastExtended(t, t2, b)
    requires |l| == |t| && l[0] == [c] + t[0] && l[1..] == t[1..]
    requires |l2| == |t2| && l2[0] == [c] + t2[0] && l2[1..] == t2[1..]
    ensures LastExtended(l, l2, b)
  {
    if |t| == 1 {
      assert l2[0] == ([c] + t[0]) + b;
    } else {
      assert l == [l[0]] + t[1..];
      assert l2 == [l2[0]] + t2[1..];
      assert t2[0] == t2[..|t| - 1][0] == t[..|t| - 1][0] == t[0];
      assert t2[1..][..|t| - 2] == t2[..|t| - 1][1..];
      assert t[1..][..|t| - 2] == t[..|t| - 1][1..];
      assert l2[..|l| - 1] == [l2[0]] + t2[1..][..|t| - 2];
      assert l[..|l| - 1] == [l[0]] + t[1..][..|t| - 2];
    }
  }

  /** Text after the last line break extends the last line only. */
  lemma {:induction false} LinesAppend(a: string, b: string)
    requires LineFree(b)
    ensures LastExtended(Lines(a), Lines(a + b), b)
    decreases |a|
  {
    if |a| == 0 {
      assert a + b == b;
      LinesOfLineFree(b);
    } else {
      var t := a[1..] + b;
      assert a + b == [a[0]] + t;
      assert a == [a[0]] + a[1..];
      LinesAppend(a[1..], b);
      if a[0] == '\n' {
        LinesConsBreak(t);
        LinesConsBreak(a[1..]);
        LastExtendedBreak(Lines(a), Lines(a + b), Lines(a[1..]), Lines(t), b);
      } else {
        LinesConsChar(a[0], t);
        LinesConsChar(a[0], a[1..]);
        LastExtendedChar(Lines(a), Lines(a + b), Lines(a[1..]), Lines(t), a[0], b);
      }
    }
  }

  /** A string is one line exactly when it holds no line break. */
  lemma {:induction false} SingleLineIff(s: string)
    ensures |Lines(s)| == 1 <==> LineFree(s)
    decreases |s|
  {
    if |s| > 0 {
      var t := s[1..];
      assert s == [s[0]] + t;
      SingleLineIff(t);
      if s[0] == '\n' {
        LinesConsBreak(t);
      } else {
        LinesConsChar(s[0], t);
        assert LineFree(t) ==> LineFree(s) by {
          assert forall k :: 0 < k < |s| ==> s[k] == t[k - 1];
        }
        assert LineFree(s) ==> LineFree(t) by {
          if LineFree(s) {
            LineFreeTail(s);
          }
        }
      }
    }
  }

  /** Splitting then joining with line breaks gives the text back. */
  lemma {:induction false} JoinLines(s: string)
    ensures Join("\n", Lines(s)) == s
    decreases |s|
  {
    if |s| > 0 {
      var t := s[1..];
      assert s == [s[0]] + t;
      JoinLines(t);
      var l := Lines(t);
      if s[0] == '\n' {
        LinesConsBreak(t);
        assert Join("\n", Lines(s)) == "" + "\n" + Join("\n", l);
      } else {
        LinesConsChar(s[0], t);
        if |l| > 1 {
          assert Join("\n", l) == l[0] + "\n" + Join("\n", l[1..]);
        }
      }
    }
  }

  // ---------------------------------------------------------------------------
  // Join

  /** Joining line-free items with a newline-plus-padding separator puts the
      first item on the first line and each later item on a line of its own,
      after the padding. */
  lemma {:induction false} LinesOfPaddedJoin(pad: string, xs: seq<string>)
    requires LineFree(pad)
    requires |xs| >= 1
    requires forall k :: 0 <= k < |xs| ==> LineFree(xs[k])
    ensures |Lines(Join("\n" + pad, xs))| == |xs|
    ensures Lines(Join("\n" + pad, xs))[0] == xs[0]
    ensures forall k :: 0 < k < |xs| ==> Lines(Join("\n" + pad, xs))[k] == pad + xs[k]
  {
    var sep := "\n" + pad;
    if |xs| == 1 {
      LinesOfLineFree(xs[0]);
    } else {
      var tail := Join(sep, xs[1..]);
      LinesOfPaddedJoin(pad, xs[1..]);
      assert Join(sep, xs) == xs[0] + "\n" + (pad + tail);
      LinesAfterBreak(xs[0], pad + tail);
      LinesPrepend(pad, tail);
      var lt := Lines(tail);
      var l := Lines(Join(sep, xs));
      assert l[1..] == Lines(pad + tail);
      forall k | 0 < k < |xs| ensures l[k] == pad + xs[k] {
        assert l[k] == Lines(pad + tail)[k - 1];
        if k > 1 {
          assert Lines(pad + tail)[k - 1] == Lines(pad + tail)[1..][k - 2] == lt[1..][k - 2] == lt[k - 1];
          assert xs[1..][k - 1] == xs[k];
        }
      }
    }
  }

  /** Joining line-free items with a line-free separator gives one line. */
  lemma {:induction false} JoinLineFree(sep: string, xs: seq<string>)
    requires LineFree(sep)
    requires forall k :: 0 <= k < |xs| ==> LineFree(xs[k])
    ensures LineFree(Join(sep, xs))
  {
    if |xs| > 1 {
      JoinLineFree(sep, xs[1..]);
    }
  }

  // ---------------------------------------------------------------------------
  // Ordering of names: Python compares strings by code point, a proper prefix first

  predicate LexLessEq(a: string, b: string)
    decreases |a|
  {
    |a| == 0 || (|b| > 0 && (a[0] < b[0] || (a[0] == b[0] && LexLessEq(a[1..], b[1..]))))
  }

  lemma {:induction false} LexReflexive(a: string)
    ensures LexLessEq(a, a)
  {
    if |a| > 0 {
      LexReflexive(a[1..]);
    }
  }

  lemma {:induction false} LexTotal(a: string, b: string)
    ensures LexLessEq(a, b) || LexLessEq(b, a)
  {
    if |a| > 0 && |b| > 0 && a[0] == b[0] {
      LexTotal(a[1..], b[1..]);
    }
  }

  lemma {:induction false} LexAntisymmetric(a: string, b: string)
    requires LexLessEq(a, b) && LexLessEq(b, a)
    ensures a == b
  {
    if |a| > 0 {
      LexAntisymmetric(a[1..], b[1..]);
      assert a == [a[0]] + a[1..];
      assert b == [b[0]] + b[1..];
    }
  }

  lemma {:induction false} LexTransitive(a: string, b: string, c: string)
    requires LexLessEq(a, b) && LexLessEq(b, c)
    ensures LexLessEq(a, c)
  {
    if |a| > 0 && a[0] == b[0] && b[0] == c[0] {
      LexTransitive(a[1..], b[1..], c[1..]);
    }
  }

  /** Ascending order, as `sorted` leaves a list of names. */
  predicate Sorted(s: seq<string>) {
    forall i, j :: 0 <= i < j < |s| ==> LexLessEq(s[i], s[j])
  }

  /** Every element of a sorted list is at least its head. */
  lemma HeadIsLeast(s: seq<string>, x: string)
    requires Sorted(s) && x in s
    ensures LexLessEq(s[0], x)
  {
    if x == s[0] {
      LexReflexive(x);
    }
  }

  /** `x` placed before its first larger-or-equal neighbour in a sorted list. */
  function Insert(x: string, s: seq<string>): (r: seq<string>)
    requires Sorted(s)
    ensures Sorted(r)
    ensures multiset(r) == multiset(s) + multiset{x}
  {
    if |s| == 0 then [x]
    else if LexLessEq(x, s[0]) then
      assert forall j :: 0 <= j < |s| ==> LexLessEq(x, s[j]) by {
        forall j | 0 <= j < |s| ensures LexLessEq(x, s[j]) {
          HeadIsLeast(s, s[j]);
          LexTransitive(x, s[0], s[j]);
        }
      }
      [x] + s
    else
      assert s == [s[0]] + s[1..];
      var rest := Insert(x, s[1..]);
      assert LexLessEq(s[0], x) by { LexTotal(x, s[0]); }
      assert forall y :: y in rest ==> LexLessEq(s[0], y) by {
        forall y | y in rest ensures LexLessEq(s[0], y) {
          assert y in multiset(rest);
          if y != x {
            assert y in s[1..];
            HeadIsLeast(s, y);
          }
        }
      }
      [s[0]] + rest
  }

  /** `sorted(names)`: insertion sort over names. */
  function SortStrings(s: seq<string>): (r: seq<string>)
    ensures Sorted(r)
    ensures multiset(r) == multiset(s)
  {
    if |s| == 0 then []
    else
      assert s == [s[0]] + s[1..];
      Insert(s[0], SortStrings(s[1..]))
  }

  /** There is only one ascending arrangement of a collection of names, so the
      result of sorting does not depend on the order the names came in. */
  lemma {:induction false} SortedUnique(a: seq<string>, b: seq<string>)
    requires Sorted(a) && Sorted(b)
    requires multiset(a) == multiset(b)
    ensures a == b
  {
    if |a| > 0 {
      assert a[0] in multiset(b);
      assert b[0] in multiset(a);
      HeadIsLeast(a, b[0]);
      HeadIsLeast(b, a[0]);
      LexAntisymmetric(a[0], b[0]);
      assert a == [a[0]] + a[1..];
      assert b == [b[0]] + b[1..];
      assert multiset(a) == multiset{a[0]} + multiset(a[1..]);
      assert multiset(b) == multiset{b[0]} + multiset(b[1..]);
      assert multiset(a[1..]) == multiset(a) - multiset{a[0]};
      assert multiset(b[1..]) == multiset(b) - multiset{b[0]};
      SortedUnique(a[1..], b[1..]);
    } else {
      assert |multiset(b)| == 0;
    }
  }
}
