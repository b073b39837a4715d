/**
 The vault listings merge direct and ticket messages: fetch the newest `limit` of each,
 concatenate, sort by date with a stable sort, cut to `limit`.
 */
module MediaMerge {

  datatype Source = Direct | Ticket

  datatype Row = Row(source: Source, id: int, createdAt: int)

  /** Newest first; rows of one instant in any order. */
  predicate NewestFirst(rows: seq<Row>) {
    forall i, j :: 0 <= i < j < |rows| ==> rows[i].createdAt >= rows[j].createdAt
  }

  /** The rows of one instant, in order. */
  function At(rows: seq<Row>, time: int): seq<Row> {
    if rows == [] then []
    else if rows[0].createdAt == time then [rows[0]] + At(rows[1..], time)
    else At(rows[1..], time)
  }

  /** What any stable sort must return: newest first, and equal dates in the order they came. */
  ghost predicate StablySorted(input: seq<Row>, output: seq<Row>) {
    NewestFirst(output) && forall time :: At(output, time) == At(input, time)
  }

  function Take(rows: seq<Row>, limit: nat): seq<Row> {
    if |rows| <= limit then rows else rows[..limit]
  }

  // ---------------------------------------------------------------- a stable sort has one answer

  lemma {:induction false} AtMember(rows: seq<Row>, time: int)
    ensures At(rows, time) != [] <==> exists i :: 0 <= i < |rows| && rows[i].createdAt == time
  {
    if rows != [] {
      AtMember(rows[1..], time);
      if exists i :: 0 <= i < |rows| && rows[i].createdAt == time {
        var i :| 0 <= i < |rows| && rows[i].createdAt == time;
        assert i > 0 ==> rows[1..][i - 1].createdAt == time;
      }
    }
  }

  lemma NewestHead(x: seq<Row>, y: seq<Row>)
    requires NewestFirst(y) && x != [] && forall time :: At(x, time) == At(y, time)
    ensures y != [] && x[0].createdAt <= y[0].createdAt
  {
    AtMember(x, x[0].createdAt);
    AtMember(y, x[0].createdAt);
  }

  lemma {:induction false} StableSortUnique(x: seq<Row>, y: seq<Row>)
    requires NewestFirst(x) && NewestFirst(y) && forall time :: At(x, time) == At(y, time)
    ensures x == y
  {
    if x == [] {
      if y != [] {
        NewestHead(y, x);
      }
    } else {
      NewestHead(x, y);
      NewestHead(y, x);
      var time := x[0].createdAt;
      assert At(x, time)[0] == x[0] && At(y, time)[0] == y[0];
      forall t
        ensures At(x[1..], t) == At(y[1..], t)
      {
        assert At(x, t) == At(y, t);
        if t == time {
          assert At(x, t) == [x[0]] + At(x[1..], t) && At(y, t) == [y[0]] + At(y[1..], t);
          assert At(x[1..], t) == At(x, t)[1..] && At(y[1..], t) == At(y, t)[1..];
        }
      }
      StableSortUnique(x[1..], y[1..]);
      assert x == [x[0]] + x[1..] && y == [y[0]] + y[1..];
    }
  }

  // ---------------------------------------------------------------- merging two sorted sources

  function Merge(a: seq<Row>, b: seq<Row>): seq<Row> {
    if a == [] then b
    else if b == [] then a
    else if a[0].createdAt >= b[0].createdAt then [a[0]] + Merge(a[1..], b)
    else [b[0]] + Merge(a, b[1..])
  }

  lemma {:induction false} AtConcat(a: seq<Row>, b: seq<Row>, time: int)
    ensures At(a + b, time) == At(a, time) + At(b, time)
  {
    if a == [] {
      assert a + b == b;
    } else {
      assert (a + b)[1..] == a[1..] + b;
      AtConcat(a[1..], b, time);
    }
  }

  lemma {:induction false} OlderThan(a: seq<Row>, time: int)
    requires forall i :: 0 <= i < |a| ==> a[i].createdAt < time
    ensures At(a, time) == []
  {
    if a != [] {
      OlderThan(a[1..], time);
    }
  }

  lemma {:induction false} MergeKeepsOrder(a: seq<Row>, b: seq<Row>, time: int)
    requires NewestFirst(a) && NewestFirst(b)
    ensures At(Merge(a, b), time) == At(a, time) + At(b, time)
  {
    if a != [] && b != [] {
      if a[0].createdAt >= b[0].createdAt {
        MergeKeepsOrder(a[1..], b, time);
        assert Merge(a, b)[1..] == Merge(a[1..], b);
      } else {
        MergeKeepsOrder(a, b[1..], time);
        assert Merge(a, b)[1..] == Merge(a, b[1..]);
        if time == b[0].createdAt {
          OlderThan(a, time);
        }
      }
    }
  }

  lemma {:induction false} MergeSorted(a: seq<Row>, b: seq<Row>, bound: int)
    requires NewestFirst(a) && NewestFirst(b)
    requires (a != [] ==> a[0].createdAt <= bound) && (b != [] ==> b[0].createdAt <= bound)
    ensures NewestFirst(Merge(a, b))
    ensures forall i :: 0 <= i < |Merge(a, b)| ==> Merge(a, b)[i].createdAt <= bound
  {
    if a != [] && b != [] {
      if a[0].createdAt >= b[0].createdAt {
        MergeSorted(a[1..], b, a[0].createdAt);
      } else {
        MergeSorted(a, b[1..], b[0].createdAt);
      }
    }
  }

  lemma {:induction false} MergeIsStableSort(a: seq<Row>, b: seq<Row>)
    requires NewestFirst(a) && NewestFirst(b)
    ensures StablySorted(a + b, Merge(a, b))
  {
    var bound := if a == [] then (if b == [] then 0 else b[0].createdAt)
                 else if b == [] || a[0].createdAt >= b[0].createdAt then a[0].createdAt else b[0].createdAt;
    MergeSorted(a, b, bound);
    forall time
      ensures At(Merge(a, b), time) == At(a + b, time)
    {
      MergeKeepsOrder(a, b, time);
      AtConcat(a, b, time);
    }
  }

  lemma MergeTakesLeft(a: seq<Row>, b: seq<Row>, m: nat, n: nat)
    requires a != [] && b != [] && m > 0 && n > 0 && a[0].createdAt >= b[0].createdAt
    ensures Merge(Take(a, m), Take(b, n)) == [a[0]] + Merge(Take(a[1..], m - 1), Take(b, n))
  {
    assert Take(a, m)[1..] == Take(a[1..], m - 1);
  }

  lemma MergeTakesRight(a: seq<Row>, b: seq<Row>, m: nat, n: nat)
    requires a != [] && b != [] && m > 0 && n > 0 && a[0].createdAt < b[0].createdAt
    ensures Merge(Take(a, m), Take(b, n)) == [b[0]] + Merge(Take(a, m), Take(b[1..], n - 1))
  {
    assert Take(b, n)[1..] == Take(b[1..], n - 1);
  }

  /** With one side empty, or nothing to take, the cut source decides alone. */
  lemma MergePrefixBase(a: seq<Row>, b: seq<Row>, m: nat, n: nat, limit: nat)
    requires limit <= m && limit <= n && (limit == 0 || a == [] || b == [])
    ensures Take(Merge(Take(a, m), Take(b, n)), limit) == Take(Merge(a, b), limit)
  {
    if limit > 0 {
      assert a == [] ==> Merge(Take(a, m), Take(b, n)) == Take(b, n);
      assert b == [] ==> Merge(Take(a, m), Take(b, n)) == Take(a, m);
    }
  }

  lemma MergeHead(a: seq<Row>, b: seq<Row>, m: nat, n: nat, limit: nat, head: Row, rest: seq<Row>, cut: seq<Row>)
    requires limit > 0 && Take(cut, limit - 1) == Take(rest, limit - 1)
    requires Merge(a, b) == [head] + rest && Merge(Take(a, m), Take(b, n)) == [head] + cut
    ensures Take(Merge(Take(a, m), Take(b, n)), limit) == Take(Merge(a, b), limit)
  {
    TakeCons(head, rest, limit);
    TakeCons(head, cut, limit);
  }

  /** The first `limit` merged rows depend only on the first `limit` rows of each side. */
  lemma {:induction false} MergePrefix(a: seq<Row>, b: seq<Row>, m: nat, n: nat, limit: nat)
    requires limit <= m && limit <= n
    ensures Take(Merge(Take(a, m), Take(b, n)), limit) == Take(Merge(a, b), limit)
    decreases |a| + |b| + limit
  {
    if limit == 0 || a == [] || b == [] {
      MergePrefixBase(a, b, m, n, limit);
    } else if a[0].createdAt >= b[0].createdAt {
      MergeTakesLeft(a, b, m, n);
      MergePrefix(a[1..], b, m - 1, n, limit - 1);
      MergeHead(a, b, m, n, limit, a[0], Merge(a[1..], b), Merge(Take(a[1..], m - 1), Take(b, n)));
    } else {
      MergeTakesRight(a, b, m, n);
      MergePrefix(a, b[1..], m, n - 1, limit - 1);
      MergeHead(a, b, m, n, limit, b[0], Merge(a, b[1..]), Merge(Take(a, m), Take(b[1..], n - 1)));
    }
  }

  lemma TakeCons(row: Row, rest: seq<Row>, limit: nat)
    requires limit > 0
    ensures Take([row] + rest, limit) == [row] + Take(rest, limit - 1)
  {
  }

  /**
   For every pair of date-ordered sources and every limit: whatever stable sort is used,
   sorting the two truncated pages and cutting gives the first rows of the sorted union.
   */
  lemma TruncatedMerge(direct: seq<Row>, ticket: seq<Row>, limit: nat, fast: seq<Row>, full: seq<Row>)
    requires NewestFirst(direct) && NewestFirst(ticket)
    requires StablySorted(Take(direct, limit) + Take(ticket, limit), fast)
    requires StablySorted(direct + ticket, full)
    ensures Take(fast, limit) == Take(full, limit)
  {
    var (a, b) := (Take(direct, limit), Take(ticket, limit));
    MergeIsStableSort(a, b);
    MergeIsStableSort(direct, ticket);
    StableSortUnique(fast, Merge(a, b));
    StableSortUnique(full, Merge(direct, ticket));
    MergePrefix(direct, ticket, limit, limit, limit);
  }

  // ---------------------------------------------------------------- the listing itself

  /** Puts an earlier row among later ones: ahead of those no newer than it. */
  function Insert(row: Row, rows: seq<Row>): seq<Row> {
    if rows == [] || row.createdAt >= rows[0].createdAt then [row] + rows
    else [rows[0]] + Insert(row, rows[1..])
  }

  function SortByDate(rows: seq<Row>): seq<Row> {
    if rows == [] then [] else Insert(rows[0], SortByDate(rows[1..]))
  }

  /** A table's answer to `orderBy: createdAt desc, take: limit`. */
  function Newest(table: seq<Row>, limit: nat): seq<Row> {
    Take(SortByDate(table), limit)
  }

  /** `getMedia` and `getDocsAndLinks` after their filters. */
  function Listing(direct: seq<Row>, ticket: seq<Row>, limit: nat): seq<Row> {
    Take(SortByDate(Newest(direct, limit) + Newest(ticket, limit)), limit)
  }

  lemma {:induction false} InsertSorted(row: Row, rows: seq<Row>, bound: int)
    requires NewestFirst(rows) && row.createdAt <= bound && (rows != [] ==> rows[0].createdAt <= bound)
    ensures NewestFirst(Insert(row, rows))
    ensures Insert(row, rows) != [] && Insert(row, rows)[0].createdAt <= bound
  {
    if rows != [] && row.createdAt < rows[0].createdAt {
      InsertSorted(row, rows[1..], rows[0].createdAt);
    }
  }

  lemma {:induction false} InsertAt(row: Row, rows: seq<Row>, time: int)
    requires NewestFirst(rows)
    ensures At(Insert(row, rows), time) == (if row.createdAt == time then [row] else []) + At(rows, time)
  {
    var out := Insert(row, rows);
    if rows == [] || row.createdAt >= rows[0].createdAt {
      assert out[1..] == rows;
    } else {
      InsertAt(row, rows[1..], time);
      assert out[1..] == Insert(row, rows[1..]);
      if time == rows[0].createdAt {
        assert At(out, time) == [rows[0]] + At(out[1..], time);
      }
    }
  }

  lemma {:induction false} SortIsStable(rows: seq<Row>)
    ensures StablySorted(rows, SortByDate(rows))
  {
    if rows != [] {
      var rest := SortByDate(rows[1..]);
      SortIsStable(rows[1..]);
      var bound := if rest != [] && rest[0].createdAt > rows[0].createdAt then rest[0].createdAt else rows[0].createdAt;
      InsertSorted(rows[0], rest, bound);
      forall time
        ensures At(SortByDate(rows), time) == At(rows, time)
      {
        InsertAt(rows[0], rest, time);
      }
    }
  }

  /** Whatever the two tables and the limit, the listing is the first `limit` rows of the sorted full union. */
  lemma {:induction false} ListingIsUnionPrefix(direct: seq<Row>, ticket: seq<Row>, limit: nat)
    ensures Listing(direct, ticket, limit) == Take(SortByDate(direct + ticket), limit)
  {
    SortIsStable(direct);
    SortIsStable(ticket);
    SortIsStable(direct + ticket);
    SortIsStable(Newest(direct, limit) + Newest(ticket, limit));
    forall time
      ensures At(SortByDate(direct) + SortByDate(ticket), time) == At(direct + ticket, time)
    {
      AtConcat(SortByDate(direct), SortByDate(ticket), time);
      AtConcat(direct, ticket, time);
    }
    TruncatedMerge(SortByDate(direct), SortByDate(ticket), limit,
                   SortByDate(Newest(direct, limit) + Newest(ticket, limit)), SortByDate(direct + ticket));
  }
}
