/** The leaderboard: the entries grouped by name, each name's mean score,
    ranked by mean from highest to lowest, and the first three rows tagged
    gold, silver and bronze. */
module Leaderboard {
  import opened Entries

  datatype Row = Row(name: string, mean: real)

  datatype Medal = Gold | Silver | Bronze | Plain

  /** The names that occur in the table. */
  function NameSet(d: seq<Entry>): (r: set<string>)
    ensures forall n :: n in r <==> exists x | x in d :: x.name == n
  {
    if d == [] then {} else {d[0].name} + NameSet(d[1..])
  }

  /** Number of rows of the table with the given name. */
  function Count(d: seq<Entry>, name: string): nat {
    if d == [] then 0
    else (if d[0].name == name then 1 else 0) + Count(d[1..], name)
  }

  /** Sum of the scores of the rows with the given name. */
  function Total(d: seq<Entry>, name: string): real {
    if d == [] then 0.0
    else (if d[0].name == name then d[0].score else 0.0) + Total(d[1..], name)
  }

  /** The arithmetic mean of the name's scores (0 for a name without rows). */
  function Mean(d: seq<Entry>, name: string): real {
    if Count(d, name) == 0 then 0.0 else Total(d, name) / Count(d, name) as real
  }

  predicate Distinct(ns: seq<string>) {
    forall i, j | 0 <= i < j < |ns| :: ns[i] != ns[j]
  }

  /** Each name of the table once. */
  function NamesOf(d: seq<Entry>): (r: seq<string>)
    ensures Distinct(r)
    ensures forall n :: n in r <==> n in NameSet(d)
  {
    if d == [] then []
    else
      var rest := NamesOf(d[1..]);
      if d[0].name in rest then rest else [d[0].name] + rest
  }

  function MeanRows(ns: seq<string>, d: seq<Entry>): (r: seq<Row>)
    ensures |r| == |ns|
    ensures forall i | 0 <= i < |r| :: r[i] == Row(ns[i], Mean(d, ns[i]))
  {
    if ns == [] then [] else [Row(ns[0], Mean(d, ns[0]))] + MeanRows(ns[1..], d)
  }

  /** groupby("Name")["Score"].mean(): exactly one row for every name of the
      table and none other, each carrying the mean of that name's scores. */
  function Means(d: seq<Entry>): (r: seq<Row>)
    ensures forall n :: CountName(r, n) == if n in NameSet(d) then 1 else 0
    ensures forall i | 0 <= i < |r| :: r[i].mean == Mean(d, r[i].name)
  {
    var ns := NamesOf(d);
    forall n ensures CountName(MeanRows(ns, d), n) == if n in NameSet(d) then 1 else 0 {
      CountNameMeanRows(ns, d, n);
    }
    MeanRows(ns, d)
  }

  predicate NonIncreasing(s: seq<Row>) {
    forall i, j | 0 <= i < j < |s| :: s[i].mean >= s[j].mean
  }

  predicate UniqueNames(s: seq<Row>) {
    forall i, j | 0 <= i < j < |s| :: s[i].name != s[j].name
  }

  /** Number of rows of the board with the given name. */
  function CountName(s: seq<Row>, name: string): nat {
    if s == [] then 0
    else (if s[0].name == name then 1 else 0) + CountName(s[1..], name)
  }

  /** Places x into a board ordered by mean, highest first: before the first
      row whose mean is not greater than x's. */
  function Insert(x: Row, s: seq<Row>): seq<Row> {
    if s == [] || x.mean >= s[0].mean then [x] + s
    else [s[0]] + Insert(x, s[1..])
  }


  /** Inserting adds exactly x. */
  lemma {:induction false} InsertPermutes(x: Row, s: seq<Row>)
    ensures multiset(Insert(x, s)) == multiset(s) + multiset{x}
  {
    if s != [] && x.mean < s[0].mean {
      InsertPermutes(x, s[1..]);
      assert s == [s[0]] + s[1..];
    }
  }

  predicate AllAtMost(s: seq<Row>, m: real) {
    forall i | 0 <= i < |s| :: s[i].mean <= m
  }

  lemma ConsSorted(h: Row, s: seq<Row>)
    requires NonIncreasing(s) && AllAtMost(s, h.mean)
    ensures NonIncreasing([h] + s)
  {
    var r := [h] + s;
    forall i, j | 0 <= i < j < |r| ensures r[i].mean >= r[j].mean {
      assert r[j] == s[j - 1];
      if i > 0 {
        assert r[i] == s[i - 1];
      }
    }
  }

  lemma {:induction false} InsertAtMost(x: Row, s: seq<Row>, m: real)
    requires AllAtMost(s, m) && x.mean <= m
    ensures AllAtMost(Insert(x, s), m)
  {
    if s != [] && x.mean < s[0].mean {
      InsertAtMost(x, s[1..], m);
      assert Insert(x, s) == [s[0]] + Insert(x, s[1..]);
    }
  }

  /** Inserting into an ordered board keeps it ordered. */
  lemma {:induction false} InsertSorted(x: Row, s: seq<Row>)
    requires NonIncreasing(s)
    ensures NonIncreasing(Insert(x, s))
  {
    if s == [] || x.mean >= s[0].mean {
      ConsSorted(x, s);
    } else {
      InsertSorted(x, s[1..]);
      InsertAtMost(x, s[1..], s[0].mean);
      ConsSorted(s[0], Insert(x, s[1..]));
    }
  }

  /** sort_values(ascending=False) on the mean: the rows ordered from the
      highest mean to the lowest, as a permutation of the input. */
  function SortDesc(s: seq<Row>): (r: seq<Row>)
    ensures NonIncreasing(r)
    ensures multiset(r) == multiset(s)
  {
    if s == [] then []
    else
      var rest := SortDesc(s[1..]);
      InsertSorted(s[0], rest);
      InsertPermutes(s[0], rest);
      assert s == [s[0]] + s[1..];
      Insert(s[0], rest)
  }

  /** The leaderboard expression on the table: the per-name means, in
      non-increasing order of mean. */
  function Board(d: seq<Entry>): (r: seq<Row>)
    ensures NonIncreasing(r)
    ensures multiset(r) == multiset(Means(d))
  {
    SortDesc(Means(d))
  }

  lemma {:induction false} CountNameInsert(x: Row, s: seq<Row>, name: string)
    ensures CountName(Insert(x, s), name) == CountName(s, name) + (if x.name == name then 1 else 0)
  {
    if s == [] || x.mean >= s[0].mean {
      assert Insert(x, s)[1..] == s;
    } else {
      CountNameInsert(x, s[1..], name);
      assert ([s[0]] + Insert(x, s[1..]))[1..] == Insert(x, s[1..]);
    }
  }

  lemma {:induction false} CountNameSort(s: seq<Row>, name: string)
    ensures CountName(SortDesc(s), name) == CountName(s, name)
  {
    if s != [] {
      CountNameSort(s[1..], name);
      CountNameInsert(s[0], SortDesc(s[1..]), name);
    }
  }

  lemma {:induction false} CountNameMeanRows(ns: seq<string>, d: seq<Entry>, name: string)
    requires Distinct(ns)
    ensures CountName(MeanRows(ns, d), name) == if name in ns then 1 else 0
  {
    if ns != [] {
      assert Distinct(ns[1..]);
      assert ns[0] !in ns[1..];
      CountNameMeanRows(ns[1..], d, name);
      assert MeanRows(ns, d)[1..] == MeanRows(ns[1..], d);
      assert name in ns <==> name == ns[0] || name in ns[1..];
    }
  }

  lemma {:induction false} CountNameAtLeastOne(s: seq<Row>, k: int)
    requires 0 <= k < |s|
    ensures CountName(s, s[k].name) >= 1
  {
    if k > 0 {
      CountNameAtLeastOne(s[1..], k - 1);
    }
  }

  lemma {:induction false} CountNameAtLeastTwo(s: seq<Row>, i: int, j: int)
    requires 0 <= i < j < |s| && s[i].name == s[j].name
    ensures CountName(s, s[i].name) >= 2
  {
    if i == 0 {
      CountNameAtLeastOne(s[1..], j - 1);
    } else {
      CountNameAtLeastTwo(s[1..], i - 1, j - 1);
    }
  }

  /** A board on which no name is counted twice has pairwise distinct names. */
  lemma UniqueFromCounts(s: seq<Row>)
    requires forall n :: CountName(s, n) <= 1
    ensures UniqueNames(s)
  {
    forall i, j | 0 <= i < j < |s| ensures s[i].name != s[j].name {
      if s[i].name == s[j].name {
        CountNameAtLeastTwo(s, i, j);
      }
    }
  }

  /** The leaderboard is a permutation of the per-name means in non-increasing
      order of mean: it has exactly one row for every name of the table and
      none other, each row carries that name's mean score, and it is empty
      exactly when the table is. No order among equal means is promised. */
  lemma BoardSpec(d: seq<Entry>)
    ensures NonIncreasing(Board(d))
    ensures multiset(Board(d)) == multiset(Means(d))
    ensures forall n :: CountName(Board(d), n) == if n in NameSet(d) then 1 else 0
    ensures forall i | 0 <= i < |Board(d)| :: Board(d)[i].mean == Mean(d, Board(d)[i].name)
    ensures UniqueNames(Board(d))
    ensures Board(d) == [] <==> d == []
  {
    var b := Board(d);
    forall n ensures CountName(b, n) == if n in NameSet(d) then 1 else 0 {
      CountNameSort(Means(d), n);
    }
    UniqueFromCounts(b);
    forall i | 0 <= i < |b| ensures b[i].mean == Mean(d, b[i].name) {
      assert b[i] in multiset(Means(d));
    }
    if d != [] {
      assert d[0].name in NameSet(d);
      assert CountName(b, d[0].name) == 1;
    } else {
      assert |multiset(b)| == 0;
    }
  }

  /** On a board whose rows all carry one name, that name is counted once per row. */
  lemma {:induction false} CountNameAll(s: seq<Row>, name: string)
    requires forall i | 0 <= i < |s| :: s[i].name == name
    ensures CountName(s, name) == |s|
  {
    if s != [] {
      CountNameAll(s[1..], name);
    }
  }

  /** With every score between 0 and 100, every mean is too. */
  lemma {:induction false} TotalBounds(d: seq<Entry>, name: string)
    requires forall x | x in d :: 0.0 <= x.score <= 100.0
    ensures 0.0 <= Total(d, name) <= 100.0 * Count(d, name) as real
  {
    if d != [] {
      TotalBounds(d[1..], name);
    }
  }

  lemma MeanBounds(d: seq<Entry>, name: string)
    requires forall x | x in d :: 0.0 <= x.score <= 100.0
    ensures 0.0 <= Mean(d, name) <= 100.0
  {
    TotalBounds(d, name);
  }

  /** highlight_top3(row, sorted_df): the tag of a row of the board by its
      name. The board has at least the row being tagged. The first row's name
      is gold, and a name gets no colour exactly when none of the first three
      rows carries it. */
  function Highlight(name: string, board: seq<Row>): (r: Medal)
    requires |board| > 0
    ensures r == Gold <==> name == board[0].name
    ensures r == Plain <==> forall i | 0 <= i < |board| && i < 3 :: board[i].name != name
  {
    if name == board[0].name then Gold
    else if |board| > 1 && name == board[1].name then Silver
    else if |board| > 2 && name == board[2].name then Bronze
    else Plain
  }

  /** The tag for the row at a given rank. */
  function RankMedal(i: nat): (m: Medal)
    ensures m == Plain <==> i >= 3
  {
    if i == 0 then Gold else if i == 1 then Silver else if i == 2 then Bronze else Plain
  }

  /** On a board with distinct names, the rows at positions 0, 1 and 2 get
      gold, silver and bronze, each its own colour, and every later row gets none. */
  lemma HighlightByRank(board: seq<Row>)
    requires UniqueNames(board)
    ensures forall i | 0 <= i < |board| :: Highlight(board[i].name, board) == RankMedal(i)
    ensures forall i, j | 0 <= i < j < |board| && i < 3 ::
      Highlight(board[i].name, board) != Highlight(board[j].name, board)
  {
  }

  /** On a board with distinct names, a name gets a colour exactly when it is
      the name at position 0, 1 or 2; names not on the board get none. */
  lemma HighlightIff(name: string, board: seq<Row>)
    requires |board| > 0 && UniqueNames(board)
    ensures Highlight(name, board) == Gold <==> name == board[0].name
    ensures Highlight(name, board) == Silver <==> |board| > 1 && name == board[1].name
    ensures Highlight(name, board) == Bronze <==> |board| > 2 && name == board[2].name
    ensures Highlight(name, board) != Plain <==> exists i | 0 <= i < |board| && i < 3 :: board[i].name == name
  {
    if Highlight(name, board) == Plain {
      forall i | 0 <= i < |board| && i < 3 ensures board[i].name != name {
      }
    }
  }

  /** Tagging the rows of the leaderboard of a non-empty table. */
  lemma BoardHighlight(d: seq<Entry>)
    requires d != []
    ensures |Board(d)| > 0
    ensures forall i | 0 <= i < |Board(d)| :: Highlight(Board(d)[i].name, Board(d)) == RankMedal(i)
  {
    BoardSpec(d);
    HighlightByRank(Board(d));
  }
}
