/** Ordered lists of processors: the list operations behind the chain and their laws. */
module Lists {

  datatype Option<T> = None | Some(value: T)

  ghost predicate NoDup<T>(s: seq<T>) {
    forall i, j :: 0 <= i < j < |s| ==> s[i] != s[j]
  }

  /** `x` stands before `y` somewhere in `s`. */
  ghost predicate Before<T>(s: seq<T>, x: T, y: T) {
    exists i, j :: 0 <= i < j < |s| && s[i] == x && s[j] == y
  }

  lemma Assoc<T>(a: seq<T>, b: seq<T>, c: seq<T>)
    ensures a + (b + c) == a + b + c
  {
  }

  /** Conservation over two steps: what the first kept went into the second. */
  lemma Regroup<T>(sent: seq<T>, more: seq<T>, left: seq<T>, kept: seq<T>, input: seq<T>, tail: seq<T>)
    requires sent + kept == input && more + left == kept + tail
    ensures sent + more + left == input + tail
  {
    assert sent + more + left == sent + (more + left);
    assert sent + (kept + tail) == sent + kept + tail;
  }

  ghost function Members<T>(s: seq<T>): set<T> {
    set x | x in s
  }

  lemma {:induction false} SubsetSize<T>(a: set<T>, b: set<T>)
    requires a <= b
    ensures |a| <= |b|
  {
    if a != {} {
      var x :| x in a;
      SubsetSize(a - {x}, b - {x});
    }
  }

  /** Elements of `s` that lie in `keep`, in order. */
  ghost function Select<T>(s: seq<T>, keep: iset<T>): seq<T> {
    if s == [] then [] else (if s[0] in keep then [s[0]] else []) + Select(s[1..], keep)
  }

  /** Elements of `s` that do not occur in `t`, in order. */
  function Without<T(==)>(s: seq<T>, t: seq<T>): seq<T> {
    if s == [] then [] else (if s[0] in t then [] else [s[0]]) + Without(s[1..], t)
  }

  /** `std::find` followed by `erase`: drops the first occurrence of `x`. */
  function Erase<T(==)>(s: seq<T>, x: T): seq<T> {
    if s == [] then [] else if s[0] == x then s[1..] else [s[0]] + Erase(s[1..], x)
  }

  lemma {:induction false} SelectMembers<T>(s: seq<T>, keep: iset<T>)
    ensures forall x :: x in Select(s, keep) <==> x in s && x in keep
    ensures |Select(s, keep)| <= |s|
  {
    if s != [] { SelectMembers(s[1..], keep); }
  }

  lemma {:induction false} SelectConcat<T>(s: seq<T>, t: seq<T>, keep: iset<T>)
    ensures Select(s + t, keep) == Select(s, keep) + Select(t, keep)
  {
    if s == [] {
      assert s + t == t;
    } else {
      assert (s + t)[1..] == s[1..] + t;
      SelectConcat(s[1..], t, keep);
      Assoc(if s[0] in keep then [s[0]] else [], Select(s[1..], keep), Select(t, keep));
    }
  }

  lemma {:induction false} SelectAll<T>(s: seq<T>, keep: iset<T>)
    requires forall x :: x in s ==> x in keep
    ensures Select(s, keep) == s
  {
    if s != [] { SelectAll(s[1..], keep); }
  }

  lemma {:induction false} SelectNone<T>(s: seq<T>, keep: iset<T>)
    requires forall x :: x in s ==> x !in keep
    ensures Select(s, keep) == []
  {
    if s != [] { SelectNone(s[1..], keep); }
  }

  lemma {:induction false} SelectNoDup<T>(s: seq<T>, keep: iset<T>)
    requires NoDup(s)
    ensures NoDup(Select(s, keep))
  {
    if s != [] {
      SelectNoDup(s[1..], keep);
      SelectMembers(s[1..], keep);
    }
  }

  /** Selection keeps the relative order of what it keeps. */
  lemma {:induction false} SelectBefore<T>(s: seq<T>, keep: iset<T>, x: T, y: T)
    requires Before(s, x, y) && x in keep && y in keep
    ensures Before(Select(s, keep), x, y)
  {
    var i, j :| 0 <= i < j < |s| && s[i] == x && s[j] == y;
    var rest := Select(s[1..], keep);
    if i == 0 {
      SelectMembers(s[1..], keep);
      assert s[1..][j - 1] == y;
      var k :| 0 <= k < |rest| && rest[k] == y;
      assert Select(s, keep)[0] == x && Select(s, keep)[k + 1] == y;
    } else {
      assert s[1..][i - 1] == x && s[1..][j - 1] == y;
      SelectBefore(s[1..], keep, x, y);
      BeforeAppend(if s[0] in keep then [s[0]] else [], rest, [], x, y);
      assert Select(s, keep) == (if s[0] in keep then [s[0]] else []) + rest + [];
    }
  }

  /** `r` has exactly the elements of `s` that lie in `keep`, once each, in the order of `s`. */
  ghost predicate OrderedFilter<T>(s: seq<T>, keep: iset<T>, r: seq<T>) {
    && NoDup(r)
    && (forall x :: x in r ==> x in s && x in keep)
    && (forall x :: x in s && x in keep ==> x in r)
    && (forall i, j :: 0 <= i < j < |r| ==> Before(s, r[i], r[j]))
  }

  lemma BeforeHead<T>(s: seq<T>, x: T, y: T)
    requires NoDup(s) && Before(s, x, y)
    ensures s != [] && y != s[0]
    ensures x != s[0] ==> Before(s[1..], x, y)
  {
    var i, j :| 0 <= i < j < |s| && s[i] == x && s[j] == y;
    if i > 0 { assert s[1..][i - 1] == x && s[1..][j - 1] == y; }
  }

  /** On duplicate-free lists `Select` is the only order-preserving filter. */
  lemma {:induction false} SelectIsOrderedFilter<T>(s: seq<T>, keep: iset<T>, r: seq<T>)
    requires NoDup(s)
    ensures OrderedFilter(s, keep, r) <==> r == Select(s, keep)
  {
    SelectMembers(s, keep);
    SelectNoDup(s, keep);
    SelectOrdered(s, keep);
    if OrderedFilter(s, keep, r) { FilterIsSelect(s, keep, r); }
  }

  lemma {:induction false} SelectedFrom<T>(s: seq<T>, keep: iset<T>, j: nat)
    requires j < |Select(s, keep)|
    ensures Select(s, keep)[j] in s
  {
    if s[0] in keep && j == 0 {
      assert Select(s, keep)[0] == s[0];
    } else {
      var h := if s[0] in keep then [s[0]] else [];
      SelectedFrom(s[1..], keep, j - |h|);
      assert Select(s, keep)[j] == Select(s[1..], keep)[j - |h|];
    }
  }

  lemma {:induction false} SelectOrdered<T>(s: seq<T>, keep: iset<T>)
    ensures forall i, j :: 0 <= i < j < |Select(s, keep)| ==> Before(s, Select(s, keep)[i], Select(s, keep)[j])
  {
    if s != [] {
      var rest := Select(s[1..], keep);
      var h := if s[0] in keep then [s[0]] else [];
      SelectOrdered(s[1..], keep);
      SelectMembers(s[1..], keep);
      forall i, j | 0 <= i < j < |h + rest| ensures Before(s, (h + rest)[i], (h + rest)[j]) {
        var y := (h + rest)[j];
        assert y == rest[j - |h|];
        SelectedFrom(s[1..], keep, j - |h|);
        if i < |h| {
          var k :| 0 <= k < |s[1..]| && s[1..][k] == y;
          assert s[0] == (h + rest)[i] && s[k + 1] == y;
        } else {
          BeforeAppend([s[0]], s[1..], [], (h + rest)[i], y);
          assert [s[0]] + s[1..] + [] == s;
        }
      }
    }
  }

  lemma FilterHead<T>(s: seq<T>, keep: iset<T>, r: seq<T>)
    requires NoDup(s) && s != [] && s[0] in keep && OrderedFilter(s, keep, r)
    ensures r != [] && r[0] == s[0]
  {
    var k :| 0 <= k < |r| && r[k] == s[0];
    if k > 0 { BeforeHead(s, r[0], r[k]); }
  }

  lemma FilterTail<T>(s: seq<T>, keep: iset<T>, r: seq<T>)
    requires NoDup(s) && s != [] && r != [] && r[0] == s[0] && OrderedFilter(s, keep, r)
    ensures OrderedFilter(s[1..], keep, r[1..])
  {
    assert s == [s[0]] + s[1..] && r == [r[0]] + r[1..];
    forall i, j | 0 <= i < j < |r[1..]| ensures Before(s[1..], r[1..][i], r[1..][j]) {
      assert r[1..][i] == r[i + 1] && r[1..][j] == r[j + 1];
      BeforeHead(s, r[i + 1], r[j + 1]);
    }
    forall x | x in r[1..] ensures x in s[1..] { assert x in r && x != r[0]; }
    forall x | x in s[1..] && x in keep ensures x in r[1..] { assert x in s && x != s[0]; }
  }

  lemma FilterSkip<T>(s: seq<T>, keep: iset<T>, r: seq<T>)
    requires NoDup(s) && s != [] && s[0] !in keep && OrderedFilter(s, keep, r)
    ensures OrderedFilter(s[1..], keep, r)
  {
    assert s == [s[0]] + s[1..];
    forall i, j | 0 <= i < j < |r| ensures Before(s[1..], r[i], r[j]) {
      assert r[i] in r;
      BeforeHead(s, r[i], r[j]);
    }
  }

  lemma EmptyOrHead<T>(r: seq<T>)
    ensures r == [] || r[0] in r
  {
  }

  lemma {:induction false} FilterIsSelect<T>(s: seq<T>, keep: iset<T>, r: seq<T>)
    requires NoDup(s) && OrderedFilter(s, keep, r)
    ensures r == Select(s, keep)
  {
    if s == [] {
      EmptyOrHead(r);
    } else if s[0] in keep {
      FilterHead(s, keep, r);
      FilterTail(s, keep, r);
      FilterIsSelect(s[1..], keep, r[1..]);
      assert r == [r[0]] + r[1..];
    } else {
      FilterSkip(s, keep, r);
      FilterIsSelect(s[1..], keep, r);
    }
  }

  lemma BeforeAppend<T>(a: seq<T>, s: seq<T>, b: seq<T>, x: T, y: T)
    requires Before(s, x, y)
    ensures Before(a + s + b, x, y)
  {
    var i, j :| 0 <= i < j < |s| && s[i] == x && s[j] == y;
    assert (a + s + b)[|a| + i] == x && (a + s + b)[|a| + j] == y;
  }

  lemma {:induction false} EraseMembers<T>(s: seq<T>, x: T)
    requires NoDup(s)
    ensures NoDup(Erase(s, x))
    ensures forall y :: y in Erase(s, x) <==> y in s && y != x
  {
    if s != [] && s[0] != x {
      EraseMembers(s[1..], x);
      assert s[0] !in s[1..];
      assert s[0] !in Erase(s[1..], x);
    }
  }

  lemma {:induction false} EraseBefore<T>(s: seq<T>, z: T, x: T, y: T)
    requires Before(s, x, y) && z != x && z != y
    ensures Before(Erase(s, z), x, y)
  {
    var i, j :| 0 <= i < j < |s| && s[i] == x && s[j] == y;
    if s[0] == z {
      assert s[1..][i - 1] == x && s[1..][j - 1] == y;
    } else if i == 0 {
      EraseKeeps(s[1..], z, y, j - 1);
      var k :| 0 <= k < |Erase(s[1..], z)| && Erase(s[1..], z)[k] == y;
      assert Erase(s, z)[0] == x && Erase(s, z)[k + 1] == y;
    } else {
      assert s[1..][i - 1] == x && s[1..][j - 1] == y;
      EraseBefore(s[1..], z, x, y);
      BeforeAppend([s[0]], Erase(s[1..], z), [], x, y);
      assert Erase(s, z) == [s[0]] + Erase(s[1..], z) + [];
    }
  }

  lemma {:induction false} EraseKeeps<T>(s: seq<T>, z: T, y: T, j: nat)
    requires j < |s| && s[j] == y && y != z
    ensures y in Erase(s, z)
  {
    if s[0] != z && j > 0 { EraseKeeps(s[1..], z, y, j - 1); }
  }

  lemma {:induction false} EraseAbsent<T>(s: seq<T>, x: T)
    requires x !in s
    ensures Erase(s, x) == s
  {
    if s != [] { EraseAbsent(s[1..], x); }
  }

  lemma {:induction false} EraseAppend<T>(s: seq<T>, t: seq<T>, x: T)
    ensures Erase(s + t, x) == if x in s then Erase(s, x) + t else s + Erase(t, x)
  {
    if s == [] {
      assert s + t == t;
      assert [] + Erase(t, x) == Erase(t, x);
    } else {
      assert s + t == [s[0]] + (s[1..] + t) && (s + t)[1..] == s[1..] + t;
      if s[0] != x {
        EraseAppend(s[1..], t, x);
        assert x in s <==> x in s[1..];
        if x in s[1..] {
          Assoc([s[0]], Erase(s[1..], x), t);
        } else {
          Assoc([s[0]], s[1..], Erase(t, x));
          assert [s[0]] + s[1..] == s;
        }
      }
    }
  }

  lemma {:induction false} EraseCommutes<T>(s: seq<T>, x: T, y: T)
    ensures Erase(Erase(s, x), y) == Erase(Erase(s, y), x)
  {
    if s != [] && s[0] != x && s[0] != y {
      EraseCommutes(s[1..], x, y);
      assert Erase(s, x)[1..] == Erase(s[1..], x) && Erase(s, y)[1..] == Erase(s[1..], y);
    }
  }

  /** Erasing at the index where `x` was found is `Erase`. */
  lemma {:induction false} EraseAtIndex<T>(s: seq<T>, x: T, k: nat)
    requires k < |s| && s[k] == x && x !in s[..k]
    ensures Erase(s, x) == s[..k] + s[k + 1..]
  {
    if k > 0 {
      assert s[..k][0] == s[0] && x !in s[1..][..k - 1];
      EraseAtIndex(s[1..], x, k - 1);
      assert s[..k] == [s[0]] + s[1..][..k - 1];
      assert s[1..][k..] == s[k + 1..];
    }
  }

  /** Selection and erasure commute on duplicate-free lists. */
  lemma {:induction false} SelectErase<T>(s: seq<T>, keep: iset<T>, x: T)
    requires NoDup(s)
    ensures Select(Erase(s, x), keep) == Erase(Select(s, keep), x)
  {
    if s != [] {
      if s[0] == x {
        SelectMembers(s[1..], keep);
        if x !in keep { EraseAbsent(Select(s, keep), x); }
      } else {
        SelectErase(s[1..], keep, x);
        var h := if s[0] in keep then [s[0]] else [];
        assert Erase(s, x)[1..] == Erase(s[1..], x);
        assert Select(s, keep)[|h|..] == Select(s[1..], keep);
      }
    }
  }

  lemma {:induction false} WithoutMembers<T>(s: seq<T>, t: seq<T>)
    ensures forall x :: x in Without(s, t) <==> x in s && x !in t
  {
    if s != [] { WithoutMembers(s[1..], t); }
  }

  lemma {:induction false} WithoutNoDup<T>(s: seq<T>, t: seq<T>)
    requires NoDup(s)
    ensures NoDup(Without(s, t))
  {
    if s != [] {
      WithoutNoDup(s[1..], t);
      WithoutMembers(s[1..], t);
    }
  }

  lemma AppendNoDup<T>(s: seq<T>, t: seq<T>)
    requires NoDup(s) && NoDup(t)
    requires forall x :: x in t ==> x !in s
    ensures NoDup(s + t)
  {
    forall i, j | 0 <= i < j < |s + t| ensures (s + t)[i] != (s + t)[j] {
      if i < |s| <= j { assert t[j - |s|] in t; }
    }
  }

  lemma JoinNoDup<T>(s: seq<T>, t: seq<T>)
    requires NoDup(s + t)
    ensures NoDup(s) && NoDup(t) && forall x :: x in t ==> x !in s
  {
    forall i, j | 0 <= i < j < |s| ensures s[i] != s[j] { assert (s + t)[i] != (s + t)[j]; }
    forall i, j | 0 <= i < j < |t| ensures t[i] != t[j] { assert (s + t)[|s| + i] != (s + t)[|s| + j]; }
    forall i, j | 0 <= i < |s| && 0 <= j < |t| ensures s[i] != t[j] { assert (s + t)[i] != (s + t)[|s| + j]; }
  }

  /** Without a duplicate, erasing from a joined list erases from both parts. */
  lemma EraseJoin<T>(s: seq<T>, t: seq<T>, x: T)
    requires NoDup(s + t)
    ensures Erase(s + t, x) == Erase(s, x) + Erase(t, x)
  {
    JoinNoDup(s, t);
    EraseAppend(s, t, x);
    if x in s { EraseAbsent(t, x); } else { EraseAbsent(s, x); }
  }

  lemma {:induction false} WithoutConcat<T>(s: seq<T>, u: seq<T>, t: seq<T>)
    ensures Without(s + u, t) == Without(s, t) + Without(u, t)
  {
    if s == [] {
      assert s + u == u;
    } else {
      assert (s + u)[1..] == s[1..] + u;
      WithoutConcat(s[1..], u, t);
      Assoc(if s[0] in t then [] else [s[0]], Without(s[1..], t), Without(u, t));
    }
  }

  /** Filtering in two passes is filtering against both lists at once, and what `t`
      already excludes may be left out of `u`. */
  lemma {:induction false} WithoutTwice<T>(s: seq<T>, u: seq<T>, t: seq<T>)
    ensures Without(Without(s, u), t) == Without(s, t + Without(u, t))
  {
    WithoutMembers(u, t);
    if s != [] {
      WithoutTwice(s[1..], u, t);
      assert s[0] in t + Without(u, t) <==> s[0] in t || s[0] in u;
      var h := if s[0] in u then [] else [s[0]];
      assert Without(s, u)[|h|..] == Without(s[1..], u);
      WithoutConcat(h, Without(s[1..], u), t);
    }
  }

  lemma {:induction false} WithoutAll<T>(s: seq<T>, t: seq<T>)
    requires forall x :: x in s ==> x in t
    ensures Without(s, t) == []
  {
    if s != [] { WithoutAll(s[1..], t); }
  }

  lemma {:induction false} WithoutNone<T>(s: seq<T>, t: seq<T>)
    requires forall x :: x in s ==> x !in t
    ensures Without(s, t) == s
  {
    if s != [] { WithoutNone(s[1..], t); }
  }

  ghost function Count<T>(s: seq<T>, x: T): nat {
    if s == [] then 0 else (if s[0] == x then 1 else 0) + Count(s[1..], x)
  }

  lemma {:induction false} CountConcat<T>(s: seq<T>, t: seq<T>, x: T)
    ensures Count(s + t, x) == Count(s, x) + Count(t, x)
  {
    if s == [] {
      assert s + t == t;
    } else {
      assert (s + t)[1..] == s[1..] + t;
      CountConcat(s[1..], t, x);
    }
  }

  ghost function Flatten<T>(ss: seq<seq<T>>): seq<T> {
    if ss == [] then [] else ss[0] + Flatten(ss[1..])
  }

  lemma FlattenCons<T>(a: seq<T>, ss: seq<seq<T>>)
    ensures Flatten([a] + ss) == a + Flatten(ss)
  {
    assert ([a] + ss)[1..] == ss;
  }

  lemma {:induction false} FlattenConcat<T>(a: seq<seq<T>>, b: seq<seq<T>>)
    ensures Flatten(a + b) == Flatten(a) + Flatten(b)
  {
    if a == [] {
      assert a + b == b;
    } else {
      assert (a + b)[1..] == a[1..] + b;
      FlattenConcat(a[1..], b);
      Assoc(a[0], Flatten(a[1..]), Flatten(b));
    }
  }
}
