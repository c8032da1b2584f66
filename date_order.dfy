/** The gallery's order: entries newest-first by their `date` string, compared
    character by character (which is what `localeCompare` does on ISO
    `YYYY-MM-DD` dates), with a missing or empty date read as ''. The sort is
    `Array.prototype.sort`, which must be stable; `SortByDate` is a stable
    insertion sort, and `StableSortIsUnique` shows that every arrangement that
    is both ordered and stable is exactly the one it returns. */
module DateOrder {
  import opened Feed

  /** Lexicographic `a <= b` on strings, by character code. */
  predicate LexLe(a: string, b: string)
    decreases |a|
  {
    a == [] || (b != [] && (a[0] < b[0] || (a[0] == b[0] && LexLe(a[1..], b[1..]))))
  }

  lemma {:induction false} LexLeReflexive(a: string)
    ensures LexLe(a, a)
    decreases |a|
  {
    if a != [] {
      LexLeReflexive(a[1..]);
    }
  }

  lemma {:induction false} LexLeTotal(a: string, b: string)
    ensures LexLe(a, b) || LexLe(b, a)
    decreases |a|
  {
    if a != [] && b != [] && a[0] == b[0] {
      LexLeTotal(a[1..], b[1..]);
    }
  }

  lemma {:induction false} LexLeAntisymmetric(a: string, b: string)
    requires LexLe(a, b) && LexLe(b, a)
    ensures a == b
    decreases |a|
  {
    if a != [] {
      LexLeAntisymmetric(a[1..], b[1..]);
      assert a == [a[0]] + a[1..] && b == [b[0]] + b[1..];
    }
  }

  lemma {:induction false} LexLeTransitive(a: string, b: string, c: string)
    requires LexLe(a, b) && LexLe(b, c)
    ensures LexLe(a, c)
    decreases |a|
  {
    if a != [] && a[0] == b[0] && b[0] == c[0] {
      LexLeTransitive(a[1..], b[1..], c[1..]);
    }
  }

  /** The empty string is below every other string, so an undated entry sorts last. */
  lemma EmptyIsLeast(a: string)
    ensures LexLe("", a)
    ensures LexLe(a, "") ==> a == ""
  {
  }

  /** The sort key `a.date || ''`. */
  function Key(e: Entry): (k: string)
    ensures k == "" <==> !Truthy(e.date)
  {
    Text(e.date)
  }

  /** The comparator `(b.date || '').localeCompare(a.date || '')` does not put
      `b` before `a`: `a` may stay first when its key is not smaller. */
  predicate NotAfter(a: Entry, b: Entry) {
    LexLe(Key(b), Key(a))
  }

  /** Newest-first: no later element has a larger key than an earlier one. */
  ghost predicate SortedDesc(r: seq<Entry>) {
    forall i, j :: 0 <= i < j < |r| ==> NotAfter(r[i], r[j])
  }

  /** The entries with sort key `k`, in their order in `s`. */
  function WithKey(s: seq<Entry>, k: string): (r: seq<Entry>)
    ensures |r| <= |s|
    ensures forall x :: x in r <==> x in s && Key(x) == k
  {
    if s == [] then []
    else if Key(s[0]) == k then [s[0]] + WithKey(s[1..], k)
    else WithKey(s[1..], k)
  }

  /** Stability: every group of equal keys keeps its input order. */
  ghost predicate KeepsTies(r: seq<Entry>, s: seq<Entry>) {
    forall k :: WithKey(r, k) == WithKey(s, k)
  }

  /** Inserts `e` in front of the first element whose key is not larger than
      its own, so `e` stays ahead of every equal key in `r`. */
  function Insert(e: Entry, r: seq<Entry>): (t: seq<Entry>)
    ensures |t| == |r| + 1
    ensures multiset(t) == multiset(r) + multiset{e}
  {
    if r == [] || NotAfter(e, r[0]) then [e] + r
    else
      assert r == [r[0]] + r[1..];
      [r[0]] + Insert(e, r[1..])
  }

  /** `[...data].sort(byDateDesc)`: a new sequence, the input left as it is. */
  function SortByDate(s: seq<Entry>): (r: seq<Entry>)
    ensures |r| == |s|
    ensures multiset(r) == multiset(s)
  {
    if s == [] then []
    else
      assert s == [s[0]] + s[1..];
      Insert(s[0], SortByDate(s[1..]))
  }

  lemma {:induction false} InsertSorted(e: Entry, r: seq<Entry>)
    requires SortedDesc(r)
    ensures SortedDesc(Insert(e, r))
    decreases |r|
  {
    var t := Insert(e, r);
    if r == [] || NotAfter(e, r[0]) {
      forall i, j | 0 <= i < j < |t| ensures NotAfter(t[i], t[j]) {
        if i == 0 && j > 1 {
          LexLeTransitive(Key(t[j]), Key(r[0]), Key(e));
        }
      }
    } else {
      LexLeTotal(Key(e), Key(r[0]));
      InsertSorted(e, r[1..]);
      var tail := Insert(e, r[1..]);
      assert t == [r[0]] + tail;
      forall j | 0 <= j < |tail| ensures NotAfter(r[0], tail[j]) {
        assert tail[j] in multiset(tail);
      }
    }
  }

  /** The result of the sort is newest-first. */
  lemma {:induction false} SortByDateSorted(s: seq<Entry>)
    ensures SortedDesc(SortByDate(s))
    decreases |s|
  {
    if s != [] {
      SortByDateSorted(s[1..]);
      InsertSorted(s[0], SortByDate(s[1..]));
    }
  }

  lemma {:induction false} InsertKeepsTies(e: Entry, r: seq<Entry>, k: string)
    ensures WithKey(Insert(e, r), k) == WithKey([e] + r, k)
    decreases |r|
  {
    assert ([e] + r)[1..] == r;
    if r != [] && !NotAfter(e, r[0]) {
      InsertKeepsTies(e, r[1..], k);
      LexLeReflexive(Key(e));
      assert ([r[0]] + Insert(e, r[1..]))[1..] == Insert(e, r[1..]);
      assert ([e] + r[1..])[1..] == r[1..];
    }
  }

  /** Equal dates keep their input order. */
  lemma {:induction false} SortByDateKeepsTies(s: seq<Entry>)
    ensures KeepsTies(SortByDate(s), s)
    decreases |s|
  {
    if s != [] {
      SortByDateKeepsTies(s[1..]);
      forall k ensures WithKey(SortByDate(s), k) == WithKey(s, k) {
        InsertKeepsTies(s[0], SortByDate(s[1..]), k);
        assert ([s[0]] + SortByDate(s[1..]))[1..] == SortByDate(s[1..]);
      }
    }
  }

  /** Among newest-first entries, an entry with a missing or empty date comes
      after every entry that has a date. */
  lemma UndatedLast(r: seq<Entry>, i: nat, j: nat)
    requires SortedDesc(r)
    requires i < |r| && j < |r|
    requires !Truthy(r[i].date) && Truthy(r[j].date)
    ensures j < i
  {
    if i < j {
      EmptyIsLeast(Key(r[j]));
    }
  }

  /** In a newest-first sequence the first element has the largest key. */
  lemma HeadIsLargest(r: seq<Entry>, x: Entry)
    requires SortedDesc(r) && x in r
    ensures LexLe(Key(x), Key(r[0]))
  {
    var j :| 0 <= j < |r| && r[j] == x;
    if j == 0 {
      LexLeReflexive(Key(x));
    }
  }

  lemma HeadHasGroup(s: seq<Entry>)
    requires s != []
    ensures WithKey(s, Key(s[0])) != []
  {
  }

  /** Any arrangement of `s` that is newest-first and keeps equal dates in input
      order is the same sequence: stable sorting has exactly one result. */
  lemma {:induction false} StableSortIsUnique(a: seq<Entry>, b: seq<Entry>)
    requires SortedDesc(a) && SortedDesc(b)
    requires KeepsTies(a, b)
    ensures a == b
    decreases |a|
  {
    if a == [] && b != [] {
      HeadHasGroup(b);
    } else if a != [] && b == [] {
      HeadHasGroup(a);
    } else if a != [] {
      var ka, kb := Key(a[0]), Key(b[0]);
      assert b[0] in WithKey(b, kb);
      assert b[0] in WithKey(a, kb);
      HeadIsLargest(a, b[0]);
      assert a[0] in WithKey(a, ka);
      assert a[0] in WithKey(b, ka);
      HeadIsLargest(b, a[0]);
      LexLeAntisymmetric(ka, kb);
      assert WithKey(a, ka)[0] == a[0];
      assert WithKey(b, ka)[0] == b[0];
      assert a[0] == b[0];
      forall k ensures WithKey(a[1..], k) == WithKey(b[1..], k) {
        assert WithKey(a, k) == WithKey(b, k);
        if k == ka {
          assert WithKey(a, k)[1..] == WithKey(a[1..], k);
          assert WithKey(b, k)[1..] == WithKey(b[1..], k);
        }
      }
      StableSortIsUnique(a[1..], b[1..]);
      assert a == [a[0]] + a[1..] && b == [b[0]] + b[1..];
    }
  }

  /** `SortByDate` is characterised by the ordering rule and stability:
      a sequence is its result exactly when it is newest-first and keeps
      every group of equal dates in input order. */
  lemma SortByDateCharacterised(s: seq<Entry>, r: seq<Entry>)
    ensures r == SortByDate(s) <==> SortedDesc(r) && KeepsTies(r, s)
  {
    SortByDateSorted(s);
    SortByDateKeepsTies(s);
    if SortedDesc(r) && KeepsTies(r, s) {
      StableSortIsUnique(r, SortByDate(s));
    }
  }

  /** Two entries dated 2020-01-01 followed by one dated 2019-12-31 are
      already newest-first, and the two equal dates keep their order. */
  lemma TiedDatesExample(e0: Entry, e1: Entry, e2: Entry)
    requires e0.date == e1.date == Present("2020-01-01")
    requires e2.date == Present("2019-12-31")
    ensures SortByDate([e0, e1, e2]) == [e0, e1, e2]
  {
    var s := [e0, e1, e2];
    assert LexLe("2019-12-31", "2020-01-01");
    LexLeReflexive("2020-01-01");
    assert SortedDesc(s);
    SortByDateCharacterised(s, s);
  }
}
