/** What the store does with a `find(query).sort(..).skip(..).limit(..)`
    chain: the page and limit arithmetic shared by every paginated query, the
    window that skip and limit cut out of a result list, and a descending sort
    by an integer key (newest first, most liked first, ...). */
module Listing {
  import opened Common

  // ---------------------------------------------------------------------------
  // Page and limit parameters

  /** `parseInt(raw) || default`: an absent or non-numeric value (None) and a
      value that parses to 0 both give the default. */
  function PageParam(raw: Option<int>, default: int): (r: int)
    ensures raw.None? ==> r == default
    ensures raw.Some? && raw.value != 0 ==> r == raw.value
    ensures raw == Some(0) ==> r == default
  {
    match raw
    case None => default
    case Some(n) => if n == 0 then default else n
  }

  /** `(page - 1) * limit`: how many matching documents precede the page. */
  function Skip(page: int, limit: int): int {
    (page - 1) * limit
  }

  /** How many documents `.limit(n)` lets through: 0 means no limit and a
      negative limit counts like its absolute value. */
  function LimitCount(limit: int, available: nat): (r: nat)
    ensures r <= available
    ensures limit != 0 ==> r <= if limit < 0 then -limit else limit
    ensures limit == 0 ==> r == available
  {
    var n := if limit < 0 then -limit else limit;
    if limit == 0 || n > available then available else n
  }

  /** `.skip(skip).limit(limit)` over a sorted result. The store refuses a
      negative skip with an error (None). */
  function Window<T>(s: seq<T>, skip: int, limit: int): (r: Option<seq<T>>)
    ensures r.None? <==> skip < 0
    ensures r.Some? && skip >= |s| ==> r.value == []
    ensures r.Some? && skip < |s| ==>
      r.value == s[skip..skip + LimitCount(limit, |s| - skip)]
  {
    if skip < 0 then None
    else if skip >= |s| then Some([])
    else Some(s[skip..skip + LimitCount(limit, |s| - skip)])
  }

  /** The first `k` pages of size `limit`, one after the other. */
  ghost function PagesUpTo<T>(s: seq<T>, limit: nat, k: nat): seq<T>
    requires limit >= 1
  {
    if k == 0 then [] else PagesUpTo(s, limit, k - 1) + Window(s, Skip(k, limit), limit).value
  }

  /** Pages 1..k together are exactly the first k*limit documents: nothing is
      skipped or repeated between consecutive pages. */
  lemma {:induction false} PagesTile<T>(s: seq<T>, limit: nat, k: nat)
    requires limit >= 1
    ensures PagesUpTo(s, limit, k) == s[..if k * limit <= |s| then k * limit else |s|]
  {
    if k > 0 {
      PagesTile(s, limit, k - 1);
      var a := (k - 1) * limit;
      assert Skip(k, limit) == a;
      var lo := if a <= |s| then a else |s|;
      var hi := if k * limit <= |s| then k * limit else |s|;
      if a < |s| {
        assert Window(s, a, limit).value == s[a..hi];
        assert s[..lo] + s[a..hi] == s[..hi];
      } else {
        assert hi == |s| && lo == |s|;
      }
    }
  }

  // ---------------------------------------------------------------------------
  // Sorting by a key, largest first

  ghost predicate SortedDesc<T>(s: seq<T>, key: T -> int) {
    forall i, j :: 0 <= i < j < |s| ==> key(s[i]) >= key(s[j])
  }

  ghost function InsertDesc<T>(x: T, s: seq<T>, key: T -> int): seq<T> {
    if s == [] then [x]
    else if key(x) >= key(s[0]) then [x] + s
    else [s[0]] + InsertDesc(x, s[1..], key)
  }

  lemma {:induction false} InsertDescPermutes<T>(x: T, s: seq<T>, key: T -> int)
    ensures multiset(InsertDesc(x, s, key)) == multiset(s) + multiset{x}
  {
    if s != [] && key(x) < key(s[0]) {
      assert s == [s[0]] + s[1..];
      InsertDescPermutes(x, s[1..], key);
    }
  }

  lemma {:induction false} InsertDescSorted<T>(x: T, s: seq<T>, key: T -> int)
    requires SortedDesc(s, key)
    ensures SortedDesc(InsertDesc(x, s, key), key)
  {
    var r := InsertDesc(x, s, key);
    if s == [] {
    } else if key(x) >= key(s[0]) {
      assert r == [x] + s;
      forall i, j | 0 <= i < j < |r|
        ensures key(r[i]) >= key(r[j])
      {
        if i == 0 {
          assert r[j] == s[j - 1];
          assert key(s[0]) >= key(s[j - 1]) || j - 1 == 0;
        } else {
          assert r[i] == s[i - 1] && r[j] == s[j - 1];
        }
      }
    } else {
      var rest := InsertDesc(x, s[1..], key);
      assert r == [s[0]] + rest;
      InsertDescSorted(x, s[1..], key);
      InsertDescPermutes(x, s[1..], key);
      forall j | 0 <= j < |rest|
        ensures key(s[0]) >= key(rest[j])
      {
        assert rest[j] in multiset(rest);
        if rest[j] != x {
          assert rest[j] in multiset(s[1..]);
          var i :| 0 <= i < |s[1..]| && s[1..][i] == rest[j];
          assert s[i + 1] == rest[j];
        }
      }
      forall i, j | 0 <= i < j < |r|
        ensures key(r[i]) >= key(r[j])
      {
        assert r[j] == rest[j - 1];
        if i > 0 {
          assert r[i] == rest[i - 1];
        }
      }
    }
  }

  /** Insertion sort: largest key first. */
  ghost function SortDesc<T>(s: seq<T>, key: T -> int): seq<T> {
    if s == [] then [] else InsertDesc(s[0], SortDesc(s[1..], key), key)
  }

  /** The sort returns a permutation of its input, largest key first. */
  lemma {:induction false} SortDescSorted<T>(s: seq<T>, key: T -> int)
    ensures SortedDesc(SortDesc(s, key), key)
    ensures multiset(SortDesc(s, key)) == multiset(s)
  {
    if s != [] {
      assert s == [s[0]] + s[1..];
      SortDescSorted(s[1..], key);
      InsertDescSorted(s[0], SortDesc(s[1..], key), key);
      InsertDescPermutes(s[0], SortDesc(s[1..], key), key);
    }
  }

  ghost predicate Distinct<T>(s: seq<T>) {
    forall i, j :: 0 <= i < j < |s| ==> s[i] != s[j]
  }

  /** Inserting a new element into a list without repeats keeps it without
      repeats. */
  lemma {:induction false} InsertDescDistinct<T>(x: T, s: seq<T>, key: T -> int)
    requires Distinct(s) && x !in s
    ensures Distinct(InsertDesc(x, s, key))
  {
    if s != [] && key(x) < key(s[0]) {
      var rest := InsertDesc(x, s[1..], key);
      InsertDescDistinct(x, s[1..], key);
      InsertDescPermutes(x, s[1..], key);
      forall j | 0 <= j < |rest| ensures rest[j] != s[0] {
        assert rest[j] in multiset(rest);
        if rest[j] != x {
          assert rest[j] in multiset(s[1..]);
          var i :| 0 <= i < |s[1..]| && s[1..][i] == rest[j];
          assert s[i + 1] == rest[j];
        }
      }
      var r := [s[0]] + rest;
      forall i, j | 0 <= i < j < |r| ensures r[i] != r[j] {
        assert r[j] == rest[j - 1];
        if i > 0 {
          assert r[i] == rest[i - 1];
        }
      }
    } else if s != [] {
      var r := [x] + s;
      forall i, j | 0 <= i < j < |r| ensures r[i] != r[j] {
        assert r[j] == s[j - 1];
        if i > 0 {
          assert r[i] == s[i - 1];
        }
      }
    }
  }

  /** Sorting a list without repeats gives a list without repeats. */
  lemma {:induction false} SortDescDistinct<T>(s: seq<T>, key: T -> int)
    requires Distinct(s)
    ensures Distinct(SortDesc(s, key))
  {
    if s != [] {
      assert forall i, j :: 0 <= i < j < |s[1..]| ==> s[1..][i] == s[i + 1] && s[1..][j] == s[j + 1];
      SortDescDistinct(s[1..], key);
      SortDescSorted(s[1..], key);
      assert s[0] !in s[1..];
      assert s[0] !in multiset(SortDesc(s[1..], key));
      InsertDescDistinct(s[0], SortDesc(s[1..], key), key);
    }
  }

  /** Some enumeration of a finite set, each element once. */
  ghost function SeqOfSet<T(!new)>(s: set<T>): (r: seq<T>)
    ensures |r| == |s|
    ensures forall x :: x in r <==> x in s
    ensures Distinct(r)
    decreases |s|
  {
    if s == {} then []
    else
      var x :| x in s;
      var rest := SeqOfSet(s - {x});
      assert forall j :: 0 <= j < |rest| ==> rest[j] != x;
      [x] + rest
  }

  /** The documents of `rows`, largest key first: what `find(..).sort({key: -1})`
      returns. Documents with equal keys come in an order the store chooses. */
  ghost function Ordered<T(!new)>(rows: set<T>, key: T -> int): (r: seq<T>)
    ensures SortedDesc(r, key)
    ensures |r| == |rows|
    ensures forall x :: x in r <==> x in rows
    ensures Distinct(r)
  {
    var e := SeqOfSet(rows);
    var r := SortDesc(e, key);
    SortDescSorted(e, key);
    SortDescDistinct(e, key);
    assert forall x :: x in r <==> x in multiset(e);
    assert |r| == |multiset(r)| == |multiset(e)| == |e|;
    r
  }

  /** Page `page` of a sorted listing cut `limit` at a time is the slice that
      starts `(page - 1) * limit` in: sorted, holding only listed elements and
      at most `limit` of them when `limit` is positive, all of the rest when
      it is 0. */
  lemma PageOfOrdered<T(!new)>(rows: set<T>, key: T -> int, skip: int, limit: int)
    requires skip >= 0
    ensures var s := Ordered(rows, key);
      var w := Window(s, skip, limit).value;
      var lo := if skip <= |s| then skip else |s|;
      && SortedDesc(w, key)
      && (forall x :: x in w ==> x in rows)
      && (limit > 0 ==> |w| <= limit)
      && (limit > 0 ==> w == s[lo..if lo + limit <= |s| then lo + limit else |s|])
      && (limit == 0 ==> w == s[lo..])
  {
    var s := Ordered(rows, key);
    var w := Window(s, skip, limit).value;
    if skip < |s| {
      assert forall i :: 0 <= i < |w| ==> w[i] == s[skip + i];
    }
  }

  /** `x` is on the window that starts `skip` in. */
  ghost predicate InWindow<T>(s: seq<T>, skip: int, limit: int, x: T) {
    var w := Window(s, skip, limit);
    w.Some? && x in w.value
  }

  lemma DivBounds(i: nat, limit: int)
    requires limit >= 1
    ensures 0 <= (i / limit) * limit <= i < (i / limit) * limit + limit
  {
  }

  lemma MulMono(a: int, b: int, c: int)
    requires a <= b && c >= 0
    ensures a * c <= b * c
  {
    assert b * c - a * c == (b - a) * c;
  }

  /** The page a position falls on: `m` pages of `limit` precede position
      `i` exactly when `m` is `i / limit`. */
  lemma PageOfPosition(i: nat, limit: int, m: int)
    requires limit >= 1
    requires m * limit <= i < m * limit + limit
    ensures m == i / limit
  {
    var d := i / limit;
    DivBounds(i, limit);
    if m < d {
      MulMono(m + 1, d, limit);
    } else if m > d {
      MulMono(d + 1, m, limit);
    }
  }

  /** The page, numbered from 1, that holds `x` when `s` is cut into pages
      of `limit`: its position divided by `limit`, plus one. */
  ghost function PageNumber<T>(s: seq<T>, limit: int, x: T): int
    requires limit >= 1 && x in s
  {
    var i :| 0 <= i < |s| && s[i] == x;
    i / limit + 1
  }

  /** In a listing without repeats cut into pages of a positive `limit`,
      `x` is on page `q` exactly when `q` is its page number, which is at
      least 1: every element is on one page and on no other. */
  lemma OnOnePage<T>(s: seq<T>, limit: int, x: T, q: int)
    requires limit >= 1 && Distinct(s) && x in s && q >= 1
    ensures PageNumber(s, limit, x) >= 1
    ensures InWindow(s, Skip(q, limit), limit, x) <==> q == PageNumber(s, limit, x)
  {
    var i :| 0 <= i < |s| && s[i] == x;
    assert PageNumber(s, limit, x) == i / limit + 1;
    OnPageOfPosition(s, limit, i);
    if InWindow(s, Skip(q, limit), limit, x) {
      OnlyPageOfPosition(s, limit, i, q);
    }
  }

  /** The element at position `i` is on page `i / limit + 1`. */
  lemma OnPageOfPosition<T>(s: seq<T>, limit: int, i: int)
    requires limit >= 1 && 0 <= i < |s|
    ensures i / limit + 1 >= 1
    ensures InWindow(s, Skip(i / limit + 1, limit), limit, s[i])
  {
    DivBounds(i, limit);
    var skip := Skip(i / limit + 1, limit);
    assert skip == (i / limit) * limit;
    var w := Window(s, skip, limit).value;
    assert w[i - skip] == s[i];
  }

  /** In a listing without repeats, a page showing the element at position
      `i` is page `i / limit + 1`. */
  lemma OnlyPageOfPosition<T>(s: seq<T>, limit: int, i: int, q: int)
    requires limit >= 1 && Distinct(s) && 0 <= i < |s| && q >= 1
    requires InWindow(s, Skip(q, limit), limit, s[i])
    ensures q == i / limit + 1
  {
    var sk := Skip(q, limit);
    var wq := Window(s, sk, limit).value;
    var j :| 0 <= j < |wq| && wq[j] == s[i];
    assert s[sk + j] == s[i];
    assert sk + j == i;
    PageOfPosition(i, limit, q - 1);
  }

  /** The page at `Skip(q, limit)` of a sorted listing holds a listed
      element exactly when `q` is that element's page number. */
  lemma PageHoldsOnce<T(!new)>(rows: set<T>, key: T -> int, limit: int, q: int, x: T, page: seq<T>)
    requires limit >= 1 && q >= 1 && x in rows
    requires Window(Ordered(rows, key), Skip(q, limit), limit) == Some(page)
    ensures x in page <==> q == PageNumber(Ordered(rows, key), limit, x)
  {
    OnOnePage(Ordered(rows, key), limit, x, q);
  }
}
