/**
 * Which lessons `main` processes (scripts/generate-playgrounds.py): the
 * `.mdx` files whose name does not start with `_`, in `sorted` order, that
 * have no playground yet, cut to the first `limit` when `limit` is positive.
 */
module LessonSelection {
  import opened Wrappers
  import opened Text
  import opened Lessons
  import opened Files

  /** Python's `a <= b` on strings: code point by code point, a proper prefix coming first. */
  predicate NameLe(a: string, b: string)
    decreases |a|
  {
    a == [] || (b != [] && (a[0] < b[0] || (a[0] == b[0] && NameLe(a[1..], b[1..]))))
  }

  /** Any two names are ordered one way or the other. */
  lemma {:induction false} NameLeTotal(a: string, b: string)
    ensures NameLe(a, b) || NameLe(b, a)
    decreases |a|
  {
    if a != [] && b != [] && a[0] == b[0] {
      NameLeTotal(a[1..], b[1..]);
    }
  }

  lemma {:induction false} NameLeTrans(a: string, b: string, c: string)
    requires NameLe(a, b) && NameLe(b, c)
    ensures NameLe(a, c)
    decreases |a|
  {
    if a != [] && a[0] == b[0] && b[0] == c[0] {
      NameLeTrans(a[1..], b[1..], c[1..]);
    }
  }

  lemma {:induction false} NameLeReflexive(a: string)
    ensures NameLe(a, a)
    decreases |a|
  {
    if a != [] {
      NameLeReflexive(a[1..]);
    }
  }

  /** Names ordered both ways are equal: the order sorts names without ties. */
  lemma {:induction false} NameLeAntisymmetric(a: string, b: string)
    requires NameLe(a, b) && NameLe(b, a)
    ensures a == b
    decreases |a|
  {
    if a != [] {
      NameLeAntisymmetric(a[1..], b[1..]);
      assert a == [a[0]] + a[1..] && b == [b[0]] + b[1..];
    }
  }

  predicate SortedNames(s: seq<string>) {
    forall i, j :: 0 <= i < j < |s| ==> NameLe(s[i], s[j])
  }

  /** `x` put into `s` before the first name it is not after. */
  function Insert(x: string, s: seq<string>): (r: seq<string>)
    ensures multiset(r) == multiset(s) + multiset{x}
  {
    if s == [] then [x]
    else if NameLe(x, s[0]) then [x] + s
    else
      var r := [s[0]] + Insert(x, s[1..]);
      assert s == [s[0]] + s[1..];
      assert multiset(r) == multiset{s[0]} + multiset(Insert(x, s[1..]));
      r
  }

  lemma {:induction false} InsertSorted(x: string, s: seq<string>)
    requires SortedNames(s)
    ensures SortedNames(Insert(x, s))
    decreases |s|
  {
    if s != [] && NameLe(x, s[0]) {
      forall k | 0 <= k < |s| ensures NameLe(x, s[k]) {
        if k > 0 {
          NameLeTrans(x, s[0], s[k]);
        }
      }
      SortedCons(x, s);
    } else if s != [] {
      var tail := Insert(x, s[1..]);
      InsertSorted(x, s[1..]);
      NameLeTotal(x, s[0]);
      forall k | 0 <= k < |tail| ensures NameLe(s[0], tail[k]) {
        assert tail[k] in multiset(s[1..]) + multiset{x};
        if tail[k] != x {
          var m :| 0 <= m < |s[1..]| && s[1..][m] == tail[k];
          assert s[1..][m] == s[m + 1];
        }
      }
      SortedCons(s[0], tail);
    }
  }

  lemma SortedCons(x: string, s: seq<string>)
    requires SortedNames(s) && forall k :: 0 <= k < |s| ==> NameLe(x, s[k])
    ensures SortedNames([x] + s)
  {
    forall i, j | 0 <= i < j < |[x] + s| ensures NameLe(([x] + s)[i], ([x] + s)[j]) {
      if i > 0 {
        assert ([x] + s)[i] == s[i - 1];
      }
      assert ([x] + s)[j] == s[j - 1];
    }
  }

  /** `sorted(names)`: the names in ascending order, each as often as before. */
  function SortNames(s: seq<string>): (r: seq<string>)
    ensures multiset(r) == multiset(s)
  {
    if s == [] then []
    else
      assert s == [s[0]] + s[1..];
      Insert(s[0], SortNames(s[1..]))
  }

  lemma {:induction false} SortNamesSorted(s: seq<string>)
    ensures SortedNames(SortNames(s))
    decreases |s|
  {
    if s != [] {
      SortNamesSorted(s[1..]);
      InsertSorted(s[0], SortNames(s[1..]));
    }
  }

  /** Two sorted sequences of the same names are equal. */
  lemma {:induction false} SortedUnique(a: seq<string>, b: seq<string>)
    requires SortedNames(a) && SortedNames(b) && multiset(a) == multiset(b)
    ensures a == b
    decreases |a|
  {
    if a != [] {
      assert |b| == |a| by { assert |multiset(b)| == |multiset(a)|; }
      SortedHeads(a, b);
      MultisetTail(a, b);
      assert SortedNames(a[1..]) && SortedNames(b[1..]);
      SortedUnique(a[1..], b[1..]);
      assert a == [a[0]] + a[1..] && b == [b[0]] + b[1..];
    }
  }

  /** Two sorted sequences of the same names start with the same name. */
  lemma SortedHeads(a: seq<string>, b: seq<string>)
    requires SortedNames(a) && SortedNames(b) && multiset(a) == multiset(b) && a != [] && b != []
    ensures a[0] == b[0]
  {
    assert a[0] in multiset(a) && b[0] in multiset(b);
    assert a[0] in b && b[0] in a;
    var i :| 0 <= i < |b| && b[i] == a[0];
    var j :| 0 <= j < |a| && a[j] == b[0];
    assert NameLe(b[0], a[0]) by { if i > 0 { assert NameLe(b[0], b[i]); } else { NameLeReflexive(a[0]); } }
    assert NameLe(a[0], b[0]) by { if j > 0 { assert NameLe(a[0], a[j]); } else { NameLeReflexive(b[0]); } }
    NameLeAntisymmetric(a[0], b[0]);
  }

  lemma MultisetTail(a: seq<string>, b: seq<string>)
    requires a != [] && b != [] && a[0] == b[0] && multiset(a) == multiset(b)
    ensures multiset(a[1..]) == multiset(b[1..])
  {
    assert a == [a[0]] + a[1..];
    assert b == [b[0]] + b[1..];
    assert multiset(a) == multiset([a[0]]) + multiset(a[1..]);
    assert multiset(b) == multiset([b[0]]) + multiset(b[1..]);
    assert multiset(a[1..]) == multiset(a) - multiset([a[0]]);
    assert multiset(b[1..]) == multiset(b) - multiset([b[0]]);
  }

  /** The order `main` sees does not depend on the order the directory lists its files in. */
  lemma SortIgnoresListing(s1: seq<string>, s2: seq<string>)
    requires multiset(s1) == multiset(s2)
    ensures SortNames(s1) == SortNames(s2)
  {
    SortNamesSorted(s1);
    SortNamesSorted(s2);
    SortedUnique(SortNames(s1), SortNames(s2));
  }

  /** A file `pages_dir.glob("*.mdx")` finds and the comprehension keeps. */
  predicate IsLessonFile(name: string) {
    EndsWith(name, ".mdx") && !StartsWith(name, "_")
  }

  /** The names that are lesson files, in the order given. */
  function LessonNames(names: seq<string>): (r: seq<string>)
    ensures forall n :: n in r <==> n in names && IsLessonFile(n)
  {
    if names == [] then []
    else if IsLessonFile(names[0]) then [names[0]] + LessonNames(names[1..])
    else LessonNames(names[1..])
  }

  /** `mdx_files`: the lesson files of the directory, sorted by name. */
  function LessonFiles(ls: seq<Lesson>): (r: seq<string>)
    ensures forall n :: n in r <==> n in Names(ls) && IsLessonFile(n)
  {
    var r := SortNames(LessonNames(Names(ls)));
    assert forall n :: n in r <==> n in multiset(r);
    r
  }

  /** The lesson files come in ascending order. */
  lemma LessonFilesSorted(ls: seq<Lesson>)
    ensures SortedNames(LessonFiles(ls))
  {
    SortNamesSorted(LessonNames(Names(ls)));
  }

  /** The file text behind a name of the directory. */
  function ContentOf(ls: seq<Lesson>, name: string): string
    requires name in Names(ls)
  {
    Lookup(ls, name).value
  }

  /** The loop that builds `needs_playground`: the names, in order, whose file has no playground. */
  function NeedingPlayground(ls: seq<Lesson>, names: seq<string>): seq<string>
    requires forall n :: n in names ==> n in Names(ls)
  {
    if names == [] then []
    else
      var init := names[..|names| - 1];
      var last := names[|names| - 1];
      assert forall n :: n in init ==> n in names;
      var before := NeedingPlayground(ls, init);
      if HasPlayground(ContentOf(ls, last)) then before else before + [last]
  }

  /** A name is kept exactly when it is one of the names given and its file has no playground. */
  lemma {:induction false} NeedingPlaygroundMembers(ls: seq<Lesson>, names: seq<string>, n: string)
    requires forall n :: n in names ==> n in Names(ls)
    ensures n in NeedingPlayground(ls, names) <==> n in names && !HasPlayground(ContentOf(ls, n))
    decreases |names|
  {
    if names != [] {
      var init := names[..|names| - 1];
      var last := names[|names| - 1];
      assert names == init + [last];
      assert forall m :: m in init ==> m in names;
      NeedingPlaygroundMembers(ls, init, n);
    }
  }

  /** Keeping some names of a sorted sequence, in order, keeps it sorted. */
  lemma {:induction false} NeedingPlaygroundSorted(ls: seq<Lesson>, names: seq<string>)
    requires forall n :: n in names ==> n in Names(ls)
    requires SortedNames(names)
    ensures SortedNames(NeedingPlayground(ls, names))
    decreases |names|
  {
    if names != [] {
      var init := names[..|names| - 1];
      var last := names[|names| - 1];
      assert forall n :: n in init ==> n in names;
      assert SortedNames(init);
      NeedingPlaygroundSorted(ls, init);
      var before := NeedingPlayground(ls, init);
      forall k | 0 <= k < |before| ensures NameLe(before[k], last) {
        NeedingPlaygroundMembers(ls, init, before[k]);
        var m :| 0 <= m < |init| && init[m] == before[k];
      }
      SortedSnoc(before, last);
    }
  }

  lemma SortedSnoc(s: seq<string>, x: string)
    requires SortedNames(s) && forall k :: 0 <= k < |s| ==> NameLe(s[k], x)
    ensures SortedNames(s + [x])
  {
    forall i, j | 0 <= i < j < |s + [x]| ensures NameLe((s + [x])[i], (s + [x])[j]) {
      assert (s + [x])[i] == s[i];
      if j < |s| {
        assert (s + [x])[j] == s[j];
      }
    }
  }

  /** `needs_playground[:limit]` when `limit` is positive: the first `limit` names, or all when there are fewer. */
  function Limit(s: seq<string>, limit: int): (r: seq<string>)
    ensures |r| == if 0 < limit < |s| then limit else |s|
    ensures r == s[..|r|]
  {
    if 0 < limit < |s| then s[..limit] else s
  }

  /** The lessons `main` processes, in order. */
  function Selection(ls: seq<Lesson>, limit: int): seq<string> {
    Limit(NeedingPlayground(ls, LessonFiles(ls)), limit)
  }

  /** The lessons selected come in ascending order of name. */
  lemma SelectionSorted(ls: seq<Lesson>, limit: int)
    ensures SortedNames(Selection(ls, limit))
  {
    LessonFilesSorted(ls);
    var needs := NeedingPlayground(ls, LessonFiles(ls));
    NeedingPlaygroundSorted(ls, LessonFiles(ls));
    var sel := Limit(needs, limit);
    forall i, j | 0 <= i < j < |sel| ensures NameLe(sel[i], sel[j]) {
      assert sel[i] == needs[i] && sel[j] == needs[j];
    }
  }

  /** Every lesson selected is a file of the directory. */
  lemma SelectionInNames(ls: seq<Lesson>, limit: int)
    ensures forall n :: n in Selection(ls, limit) ==> n in Names(ls)
  {
    forall n | n in Selection(ls, limit) ensures n in Names(ls) {
      SelectionMembers(ls, limit, n);
    }
  }

  /**
   * A lesson selected is a lesson file of the directory without a
   * playground, and a lesson file without a playground is left out only
   * when a positive `limit` has been reached.
   */
  lemma SelectionMembers(ls: seq<Lesson>, limit: int, n: string)
    ensures n in Selection(ls, limit) ==> n in Names(ls) && IsLessonFile(n) && !HasPlayground(ContentOf(ls, n))
    ensures n in Names(ls) && IsLessonFile(n) && !HasPlayground(ContentOf(ls, n)) && n !in Selection(ls, limit) ==>
              0 < limit == |Selection(ls, limit)|
  {
    var needs := NeedingPlayground(ls, LessonFiles(ls));
    NeedingPlaygroundMembers(ls, LessonFiles(ls), n);
    var sel := Limit(needs, limit);
    if n in sel {
      var k :| 0 <= k < |sel| && sel[k] == n;
      assert needs[k] == n;
    }
    if !(0 < limit < |needs|) {
      assert sel == needs;
    }
  }

  /** With `limit` 0 (or below) every lesson file without a playground is selected. */
  lemma NoLimitSelectsAll(ls: seq<Lesson>, limit: int)
    requires limit <= 0
    ensures Selection(ls, limit) == NeedingPlayground(ls, LessonFiles(ls))
  {
  }

  /** No name occurs twice. */
  predicate Distinct(s: seq<string>) {
    forall i, j :: 0 <= i < j < |s| ==> s[i] != s[j]
  }

  /** Dropping the first of different names leaves different names, none of them the first. */
  lemma DistinctTail(s: seq<string>)
    requires s != [] && Distinct(s)
    ensures Distinct(s[1..]) && s[0] !in s[1..]
  {
    forall i, j | 0 <= i < j < |s[1..]| ensures s[1..][i] != s[1..][j] {
      assert s[1..][i] == s[i + 1] && s[1..][j] == s[j + 1];
    }
    forall k | 0 <= k < |s[1..]| ensures s[1..][k] != s[0] {
      assert s[1..][k] == s[k + 1];
    }
  }

  /** Different names with one more name put in front that is none of them are different names. */
  lemma DistinctCons(x: string, s: seq<string>)
    requires Distinct(s) && x !in s
    ensures Distinct([x] + s)
  {
    forall i, j | 0 <= i < j < |[x] + s| ensures ([x] + s)[i] != ([x] + s)[j] {
      assert ([x] + s)[j] == s[j - 1];
      if i > 0 {
        assert ([x] + s)[i] == s[i - 1];
      }
    }
  }

  /** The names of a directory are different names. */
  lemma NamesDistinct(ls: seq<Lesson>)
    requires DistinctNames(ls)
    ensures Distinct(Names(ls))
  {
  }

  lemma {:induction false} LessonNamesDistinct(names: seq<string>)
    requires Distinct(names)
    ensures Distinct(LessonNames(names))
    decreases |names|
  {
    if names != [] {
      DistinctTail(names);
      LessonNamesDistinct(names[1..]);
      if IsLessonFile(names[0]) {
        DistinctCons(names[0], LessonNames(names[1..]));
      }
    }
  }

  lemma {:induction false} InsertDistinct(x: string, s: seq<string>)
    requires Distinct(s) && x !in s
    ensures Distinct(Insert(x, s))
    decreases |s|
  {
    if s != [] && NameLe(x, s[0]) {
      DistinctCons(x, s);
    } else if s != [] {
      DistinctTail(s);
      assert s == [s[0]] + s[1..];
      InsertDistinct(x, s[1..]);
      var tail := Insert(x, s[1..]);
      assert s[0] !in tail by {
        assert s[0] !in multiset(s[1..]) + multiset{x};
      }
      DistinctCons(s[0], tail);
    }
  }

  /** Sorting different names gives different names. */
  lemma {:induction false} SortNamesDistinct(s: seq<string>)
    requires Distinct(s)
    ensures Distinct(SortNames(s))
    decreases |s|
  {
    if s != [] {
      DistinctTail(s);
      SortNamesDistinct(s[1..]);
      assert s[0] !in SortNames(s[1..]) by {
        assert s[0] !in multiset(s[1..]);
      }
      InsertDistinct(s[0], SortNames(s[1..]));
    }
  }

  lemma {:induction false} NeedingPlaygroundDistinct(ls: seq<Lesson>, names: seq<string>)
    requires forall n :: n in names ==> n in Names(ls)
    requires Distinct(names)
    ensures Distinct(NeedingPlayground(ls, names))
    decreases |names|
  {
    if names != [] {
      var init := names[..|names| - 1];
      var last := names[|names| - 1];
      assert forall n :: n in init ==> n in names;
      assert Distinct(init);
      NeedingPlaygroundDistinct(ls, init);
      var before := NeedingPlayground(ls, init);
      NeedingPlaygroundMembers(ls, init, last);
      assert last !in init;
      forall i, j | 0 <= i < j < |before + [last]| ensures (before + [last])[i] != (before + [last])[j] {
        assert (before + [last])[i] == before[i];
        if j < |before| {
          assert (before + [last])[j] == before[j];
        }
      }
    }
  }

  /** In a directory, no lesson is selected twice. */
  lemma SelectionDistinct(ls: seq<Lesson>, limit: int)
    requires DistinctNames(ls)
    ensures Distinct(Selection(ls, limit))
  {
    NamesDistinct(ls);
    LessonNamesDistinct(Names(ls));
    SortNamesDistinct(LessonNames(Names(ls)));
    NeedingPlaygroundDistinct(ls, LessonFiles(ls));
    var needs := NeedingPlayground(ls, LessonFiles(ls));
    var sel := Limit(needs, limit);
    forall i, j | 0 <= i < j < |sel| ensures sel[i] != sel[j] {
      assert sel[i] == needs[i] && sel[j] == needs[j];
    }
  }

  /**
   * Building `mdx_files`, and `needs_playground` by reading every file and
   * appending the names without a playground, then applying the limit.
   */
  method SelectLessons(pages: Pages, limit: int) returns (total: nat, selected: seq<string>)
    ensures total == |LessonFiles(pages.lessons)|
    ensures selected == Selection(pages.lessons, limit)
  {
    var mdx := LessonFiles(pages.lessons);
    var needs: seq<string> := [];
    for k := 0 to |mdx|
      invariant needs == NeedingPlayground(pages.lessons, mdx[..k])
    {
      var content := pages.Read(mdx[k]);
      assert mdx[..k + 1][..k] == mdx[..k];
      if !HasPlayground(content) {
        needs := needs + [mdx[k]];
      }
    }
    assert mdx[..|mdx|] == mdx;
    total := |mdx|;
    if limit > 0 {
      needs := needs[..if limit < |needs| then limit else |needs|];
    }
    selected := needs;
  }
}
