/**
 The leaderboard: the score table's lines sorted by points, highest first, with
 a stable sort, so users with equal points keep the table's insertion order.
 An empty table gives a fixed "empty" board instead of a ranking.
 */
module Leaderboard {
  import opened ScoreTable

  /** What the leaderboard command replies with. */
  datatype Board =
    | EmptyBoard                   // the fixed "the leaderboard is empty" message
    | Ranking(lines: seq<Entry>)   // one "user: points" line per entry, in this order

  /** Points never increase along the sequence. */
  predicate SortedDesc(s: seq<Entry>) {
    forall i, j :: 0 <= i < j < |s| ==> s[i].points >= s[j].points
  }

  /** The entries with exactly `v` points, in their order in `s`. */
  function WithPoints(s: seq<Entry>, v: int): seq<Entry>
    decreases |s|
  {
    if |s| == 0 then []
    else (if s[0].points == v then [s[0]] else []) + WithPoints(s[1..], v)
  }

  /**
   `out` is the stable descending sort of `input`: the same lines, points never
   increasing, and for every score the lines with that score in input order.
   */
  ghost predicate StableSortOf(out: seq<Entry>, input: seq<Entry>) {
    && multiset(out) == multiset(input)
    && SortedDesc(out)
    && forall v :: WithPoints(out, v) == WithPoints(input, v)
  }

  lemma WithPointsCons(e: Entry, s: seq<Entry>, v: int)
    ensures WithPoints([e] + s, v) == (if e.points == v then [e] else []) + WithPoints(s, v)
  {
    assert ([e] + s)[1..] == s;
  }

  /**
   Places `e` into a descending sequence, before every entry with fewer or equal
   points: `e` came first in the input, so it goes before its equals.
   */
  function Insert(e: Entry, s: seq<Entry>): (r: seq<Entry>)
    requires SortedDesc(s)
    ensures |r| == |s| + 1
    ensures r[0] == e || (|s| > 0 && r[0] == s[0])
    ensures SortedDesc(r)
    decreases |s|
  {
    if |s| == 0 || s[0].points <= e.points then [e] + s
    else
      var rest := Insert(e, s[1..]);
      var r := [s[0]] + rest;
      assert rest[0].points <= s[0].points;
      forall i, j | 0 <= i < j < |r|
        ensures r[i].points >= r[j].points
      {
        assert r[j] == rest[j - 1];
        if i > 0 {
          assert r[i] == rest[i - 1];
        } else {
          assert rest[0].points >= rest[j - 1].points;
        }
      }
      r
  }

  /** Inserting adds exactly `e` to the multiset of entries. */
  lemma {:induction false} InsertPermutes(e: Entry, s: seq<Entry>)
    requires SortedDesc(s)
    ensures multiset(Insert(e, s)) == multiset(s) + multiset{e}
    decreases |s|
  {
    if |s| > 0 && s[0].points > e.points {
      InsertPermutes(e, s[1..]);
      assert s == [s[0]] + s[1..];
    }
  }

  /** Inserting `e` puts it ahead of the entries with its own score and moves no other tie. */
  lemma {:induction false} InsertKeepsTies(e: Entry, s: seq<Entry>, v: int)
    requires SortedDesc(s)
    ensures WithPoints(Insert(e, s), v) == (if e.points == v then [e] else []) + WithPoints(s, v)
    decreases |s|
  {
    if |s| == 0 || s[0].points <= e.points {
      WithPointsCons(e, s, v);
    } else {
      var rest := Insert(e, s[1..]);
      var tail := WithPoints(s[1..], v);
      assert Insert(e, s) == [s[0]] + rest;
      InsertKeepsTies(e, s[1..], v);
      WithPointsCons(s[0], rest, v);
      assert s == [s[0]] + s[1..];
      WithPointsCons(s[0], s[1..], v);
      if v == e.points {
        assert WithPoints(s, v) == tail;
        assert WithPoints(Insert(e, s), v) == WithPoints(rest, v) == [e] + tail;
      } else if v == s[0].points {
        assert WithPoints(rest, v) == tail;
      } else {
        assert WithPoints(rest, v) == tail;
      }
    }
  }

  /** Insertion sort: the stable descending sort Python's `sorted(..., reverse=True)` produces. */
  function Sort(s: seq<Entry>): (r: seq<Entry>)
    ensures StableSortOf(r, s)
    decreases |s|
  {
    if |s| == 0 then []
    else
      var rest := Sort(s[1..]);
      assert s == [s[0]] + s[1..];
      InsertPermutes(s[0], rest);
      forall v
        ensures WithPoints(Insert(s[0], rest), v) == WithPoints(s, v)
      {
        InsertKeepsTies(s[0], rest, v);
        WithPointsCons(s[0], s[1..], v);
      }
      Insert(s[0], rest)
  }

  /**
   The leaderboard command: the empty board for an empty table, otherwise the
   table's lines in stable descending order of points.
   */
  function Render(t: Table): (b: Board)
    requires ScoreTable.WellFormed(t)
    ensures b.EmptyBoard? <==> t.totals == map[]
    ensures b.Ranking? ==> StableSortOf(b.lines, Entries(t))
  {
    if t.totals == map[] then EmptyBoard
    else Ranking(Sort(Entries(t)))
  }

  lemma {:induction false} NoneWithPoints(s: seq<Entry>, v: int)
    requires forall k :: 0 <= k < |s| ==> s[k].points != v
    ensures WithPoints(s, v) == []
    decreases |s|
  {
    if |s| > 0 {
      NoneWithPoints(s[1..], v);
    }
  }

  /**
   A descending sequence is determined by its per-score subsequences: two such
   sequences that agree on every score are equal.
   */
  lemma {:induction false} DeterminedByTies(a: seq<Entry>, b: seq<Entry>)
    requires SortedDesc(a) && SortedDesc(b)
    requires forall v :: WithPoints(a, v) == WithPoints(b, v)
    ensures a == b
    decreases |a| + |b|
  {
    if |a| == 0 && |b| == 0 {
      return;
    }
    if |a| == 0 || (|b| > 0 && a[0].points < b[0].points) {
      // b's head score shows up in b but nowhere in a
      NoneWithPoints(a, b[0].points);
      assert false;
    }
    if |b| == 0 || a[0].points > b[0].points {
      NoneWithPoints(b, a[0].points);
      assert false;
    }
    var m := a[0].points;
    assert WithPoints(a, m)[0] == a[0] && WithPoints(b, m)[0] == b[0];
    forall v
      ensures WithPoints(a[1..], v) == WithPoints(b[1..], v)
    {
      assert WithPoints(a, v) == (if v == m then [a[0]] else []) + WithPoints(a[1..], v);
      assert WithPoints(b, v) == (if v == m then [b[0]] else []) + WithPoints(b[1..], v);
      if v == m {
        assert a[0] == b[0];
        assert WithPoints(a, v)[1..] == WithPoints(a[1..], v);
        assert WithPoints(b, v)[1..] == WithPoints(b[1..], v);
      } else {
        assert WithPoints(a, v) == WithPoints(a[1..], v);
        assert WithPoints(b, v) == WithPoints(b[1..], v);
      }
    }
    DeterminedByTies(a[1..], b[1..]);
    assert a == [a[0]] + a[1..] && b == [b[0]] + b[1..];
  }

  /** The stable descending sort of a sequence is unique: the ranking is whatever any such sort gives. */
  lemma StableSortUnique(a: seq<Entry>, b: seq<Entry>, input: seq<Entry>)
    requires StableSortOf(a, input) && StableSortOf(b, input)
    ensures a == b
  {
    DeterminedByTies(a, b);
  }

  /** Any stable descending ordering of a non-empty table is exactly the rendered ranking. */
  lemma RenderIsTheStableSort(t: Table, lines: seq<Entry>)
    requires ScoreTable.WellFormed(t) && t.totals != map[]
    requires StableSortOf(lines, Entries(t))
    ensures Render(t) == Ranking(lines)
  {
    StableSortUnique(Render(t).lines, lines, Entries(t));
  }
}
