/** The table of logged entries: one row per (name, date) with the day's
    steps, calories and score. A submission removes the rows for its
    (name, date) and appends the new row; the latest-entry lookup picks the
    user's row with the greatest date. */
module Entries {

  datatype Option<T> = None | Some(value: T)

  /** A date is a day number. */
  datatype Entry = Entry(name: string, date: int, steps: int, calories: int, score: real)

  predicate HasKey(e: Entry, name: string, date: int) {
    e.name == name && e.date == date
  }

  /** The rows with key (name, date), in table order. */
  function Select(d: seq<Entry>, name: string, date: int): (r: seq<Entry>)
    ensures |r| <= |d|
    ensures forall x :: x in r <==> x in d && HasKey(x, name, date)
  {
    if d == [] then []
    else if HasKey(d[0], name, date) then [d[0]] + Select(d[1..], name, date)
    else Select(d[1..], name, date)
  }

  /** The filter data[~((Name == name) & (Date == date))]: the rows whose key
      is not (name, date), in table order. */
  function Without(d: seq<Entry>, name: string, date: int): (r: seq<Entry>)
    ensures |r| <= |d|
    ensures forall x :: x in r <==> x in d && !HasKey(x, name, date)
  {
    if d == [] then []
    else if HasKey(d[0], name, date) then Without(d[1..], name, date)
    else [d[0]] + Without(d[1..], name, date)
  }


  /** At most one row per (name, date). */
  ghost predicate UniqueKeys(d: seq<Entry>) {
    forall name, date :: |Select(d, name, date)| <= 1
  }

  /** a can be obtained from b by deleting elements (order is kept). */
  predicate IsSubseq(a: seq<Entry>, b: seq<Entry>) {
    a == [] || (b != [] && ((a[0] == b[0] && IsSubseq(a[1..], b[1..])) || IsSubseq(a, b[1..])))
  }

  lemma {:induction false} SelectConcat(a: seq<Entry>, b: seq<Entry>, name: string, date: int)
    ensures Select(a + b, name, date) == Select(a, name, date) + Select(b, name, date)
  {
    if a != [] {
      assert (a + b)[1..] == a[1..] + b;
      SelectConcat(a[1..], b, name, date);
    } else {
      assert a + b == b;
    }
  }

  lemma {:induction false} WithoutConcat(a: seq<Entry>, b: seq<Entry>, name: string, date: int)
    ensures Without(a + b, name, date) == Without(a, name, date) + Without(b, name, date)
  {
    if a != [] {
      assert (a + b)[1..] == a[1..] + b;
      WithoutConcat(a[1..], b, name, date);
    } else {
      assert a + b == b;
    }
  }

  /** Removing a key leaves the rows of every other key exactly as they were,
      and none of the removed key. */
  lemma {:induction false} SelectWithout(d: seq<Entry>, name: string, date: int, n: string, t: int)
    ensures Select(Without(d, name, date), n, t) ==
      if n == name && t == date then [] else Select(d, n, t)
  {
    if d != [] {
      SelectWithout(d[1..], name, date, n, t);
      if !HasKey(d[0], name, date) {
        assert Without(d, name, date) == [d[0]] + Without(d[1..], name, date);
        assert ([d[0]] + Without(d[1..], name, date))[1..] == Without(d[1..], name, date);
      }
    }
  }

  /** A table with no row of the key is left as it is by the filter. */
  lemma {:induction false} WithoutNothing(d: seq<Entry>, name: string, date: int)
    requires forall x | x in d :: !HasKey(x, name, date)
    ensures Without(d, name, date) == d
  {
    if d != [] {
      WithoutNothing(d[1..], name, date);
    }
  }

  /** The filter keeps order: its result is a subsequence of the table, and it
      drops exactly the rows of the removed key. */
  lemma {:induction false} WithoutIsSubseq(d: seq<Entry>, name: string, date: int)
    ensures IsSubseq(Without(d, name, date), d)
    ensures |Without(d, name, date)| == |d| - |Select(d, name, date)|
  {
    if d != [] {
      WithoutIsSubseq(d[1..], name, date);
      var w := Without(d[1..], name, date);
      if !HasKey(d[0], name, date) {
        assert ([d[0]] + w)[0] == d[0] && ([d[0]] + w)[1..] == w;
      } else if w != [] {
        assert IsSubseq(w, d[1..]);
      }
    }
  }

  /** Submitting e: drop the rows for e's (name, date), then append e. The
      table then holds exactly one row for that (name, date), the submitted
      one, as its last row, and the rows of every other key are unchanged. */
  function Upsert(d: seq<Entry>, e: Entry): (r: seq<Entry>)
    ensures Select(r, e.name, e.date) == [e]
    ensures r[|r| - 1] == e
    ensures forall n, t | n != e.name || t != e.date :: Select(r, n, t) == Select(d, n, t)
  {
    var w := Without(d, e.name, e.date);
    forall n, t ensures Select(w + [e], n, t) == Select(w, n, t) + Select([e], n, t) {
      SelectConcat(w, [e], n, t);
    }
    forall n, t ensures Select(w, n, t) == if n == e.name && t == e.date then [] else Select(d, n, t) {
      SelectWithout(d, e.name, e.date, n, t);
    }
    w + [e]
  }

  /** A submission changes nothing about other keys: their rows stay, in
      their relative order, and everything before the appended row is the
      table with the submitted key's rows deleted. */
  lemma UpsertKeepsOthers(d: seq<Entry>, e: Entry)
    ensures IsSubseq(Upsert(d, e)[..|Upsert(d, e)| - 1], d)
    ensures |Upsert(d, e)| == |d| - |Select(d, e.name, e.date)| + 1
  {
    var w := Without(d, e.name, e.date);
    WithoutIsSubseq(d, e.name, e.date);
    assert Upsert(d, e)[..|Upsert(d, e)| - 1] == w;
  }

  /** Submitting the same row twice gives the same table as submitting it once. */
  lemma UpsertIdempotent(d: seq<Entry>, e: Entry)
    ensures Upsert(Upsert(d, e), e) == Upsert(d, e)
  {
    var w := Without(d, e.name, e.date);
    WithoutConcat(w, [e], e.name, e.date);
    WithoutNothing(w, e.name, e.date);
    assert Without([e], e.name, e.date) == [];
  }

  /** A submission keeps the table at one row per (name, date). */
  lemma UpsertKeepsUniqueKeys(d: seq<Entry>, e: Entry)
    requires UniqueKeys(d)
    ensures UniqueKeys(Upsert(d, e))
  {
    forall n, t ensures |Select(Upsert(d, e), n, t)| <= 1 {
      if n != e.name || t != e.date {
        assert Select(Upsert(d, e), n, t) == Select(d, n, t);
      }
    }
  }

  /** The row that data[data.Name == name].sort_values("Date").iloc[-1]
      picks: one of the user's rows with the greatest date, or None when the
      user has no row (where the lookup would fail). */
  function Latest(d: seq<Entry>, name: string): (r: Option<Entry>)
    ensures r.None? <==> forall x | x in d :: x.name != name
    ensures r.Some? ==> r.value in d && r.value.name == name
    ensures r.Some? ==> forall x | x in d && x.name == name :: x.date <= r.value.date
  {
    if d == [] then None
    else
      var rest := Latest(d[1..], name);
      if d[0].name != name then rest
      else if rest.Some? && rest.value.date >= d[0].date then rest
      else Some(d[0])
  }

  /** With one row per (name, date), the latest entry is determined: it is the
      only row of the user carrying the greatest date. */
  lemma LatestIsDetermined(d: seq<Entry>, name: string, x: Entry)
    requires UniqueKeys(d)
    requires x in d && x.name == name
    requires forall y | y in d && y.name == name :: y.date <= x.date
    ensures Latest(d, name) == Some(x)
  {
    var l := Latest(d, name);
    assert l.Some?;
    assert l.value.date == x.date;
    assert x in Select(d, name, x.date) && l.value in Select(d, name, x.date);
    var s := Select(d, name, x.date);
    assert |s| <= 1;
    assert s[0] == x && s[0] == l.value;
  }
}
