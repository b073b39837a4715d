/**
 Completed transactions of a friend: once by four grouped queries over a whole page of
 friends, once by a direct per-friend query with OR. Transfers and tickets are both rows
 naming two users; `done` is COMPLETED for the one and CLOSED for the other.
 */
module FriendCounters {

  datatype Pair = Pair(first: int, second: int, done: bool)

  datatype Friend = Friend(id: int, trades: nat)

  function One(condition: bool): nat {
    if condition then 1 else 0
  }

  function CountFirst(rows: seq<Pair>, id: int): nat {
    if rows == [] then 0
    else CountFirst(rows[..|rows| - 1], id) + One(rows[|rows| - 1].done && rows[|rows| - 1].first == id)
  }

  function CountSecond(rows: seq<Pair>, id: int): nat {
    if rows == [] then 0
    else CountSecond(rows[..|rows| - 1], id) + One(rows[|rows| - 1].done && rows[|rows| - 1].second == id)
  }

  /** The direct query: done rows with the friend on either side. */
  function CountEither(rows: seq<Pair>, id: int): nat {
    if rows == [] then 0
    else CountEither(rows[..|rows| - 1], id)
         + One(rows[|rows| - 1].done && (rows[|rows| - 1].first == id || rows[|rows| - 1].second == id))
  }

  /** Done rows that name the friend on both sides. */
  function CountSelf(rows: seq<Pair>, id: int): nat {
    if rows == [] then 0
    else CountSelf(rows[..|rows| - 1], id)
         + One(rows[|rows| - 1].done && rows[|rows| - 1].first == id && rows[|rows| - 1].second == id)
  }

  lemma {:induction false} SidesCountSelfTwice(rows: seq<Pair>, id: int)
    ensures CountFirst(rows, id) + CountSecond(rows, id) == CountEither(rows, id) + CountSelf(rows, id)
  {
    if rows != [] {
      SidesCountSelfTwice(rows[..|rows| - 1], id);
    }
  }

  /** `getTrustMetrics`. */
  function DirectMetric(friend: Friend, transfers: seq<Pair>, tickets: seq<Pair>): nat {
    friend.trades + CountEither(transfers, friend.id) + CountEither(tickets, friend.id)
  }

  /** The same friend's metric in `getFriends`: both sides of both tables, counted separately. */
  function BatchedMetric(friend: Friend, transfers: seq<Pair>, tickets: seq<Pair>): nat {
    friend.trades + CountFirst(transfers, friend.id) + CountSecond(transfers, friend.id)
    + CountFirst(tickets, friend.id) + CountSecond(tickets, friend.id)
  }

  /** One `groupBy` turned into a map: only ids of the page that occur have a key. */
  method GroupCounts(ids: seq<int>, rows: seq<Pair>, byFirst: bool) returns (counts: map<int, nat>)
    ensures forall id :: id in ids ==>
              (if id in counts then counts[id] else 0)
              == (if byFirst then CountFirst(rows, id) else CountSecond(rows, id))
  {
    counts := map[];
    for i := 0 to |rows|
      invariant forall id :: id in ids ==>
                  (if id in counts then counts[id] else 0)
                  == (if byFirst then CountFirst(rows[..i], id) else CountSecond(rows[..i], id))
    {
      var key := if byFirst then rows[i].first else rows[i].second;
      assert rows[..i + 1][..i] == rows[..i];
      if rows[i].done && key in ids {
        counts := counts[key := (if key in counts then counts[key] else 0) + 1];
      }
    }
    assert rows[..|rows|] == rows;
  }

  /** The enrichment of `getFriends`: four maps for the page, then constant-time sums per friend. */
  method EnrichPage(page: seq<Friend>, transfers: seq<Pair>, tickets: seq<Pair>) returns (metrics: seq<nat>)
    ensures |metrics| == |page|
    ensures forall i :: 0 <= i < |page| ==> metrics[i] == BatchedMetric(page[i], transfers, tickets)
  {
    var ids := seq(|page|, i requires 0 <= i < |page| => page[i].id);
    var sent := GroupCounts(ids, transfers, true);
    var received := GroupCounts(ids, transfers, false);
    var created := GroupCounts(ids, tickets, true);
    var countered := GroupCounts(ids, tickets, false);
    metrics := [];
    for i := 0 to |page|
      invariant |metrics| == i
      invariant forall j :: 0 <= j < i ==> metrics[j] == BatchedMetric(page[j], transfers, tickets)
    {
      var id := page[i].id;
      assert ids[i] == id;
      var transferCount := Get(sent, id) + Get(received, id);
      var ticketCount := Get(created, id) + Get(countered, id);
      metrics := metrics + [page[i].trades + transferCount + ticketCount];
    }
  }

  function Get(counts: map<int, nat>, id: int): nat {
    if id in counts then counts[id] else 0
  }

  predicate NoSelfPairs(rows: seq<Pair>, id: int) {
    forall i :: 0 <= i < |rows| && rows[i].done ==> !(rows[i].first == id && rows[i].second == id)
  }

  lemma {:induction false} SelfCountZero(rows: seq<Pair>, id: int)
    ensures CountSelf(rows, id) == 0 <==> NoSelfPairs(rows, id)
  {
    if rows != [] {
      var n := |rows| - 1;
      SelfCountZero(rows[..n], id);
      assert NoSelfPairs(rows, id) <==>
             NoSelfPairs(rows[..n], id) && !(rows[n].done && rows[n].first == id && rows[n].second == id) by {
        assert forall i :: 0 <= i < n ==> rows[..n][i] == rows[i];
      }
    }
  }

  /** Batched and direct counts agree for a friend exactly when no done row pairs the friend with itself. */
  lemma BatchedAgreesIff(friend: Friend, transfers: seq<Pair>, tickets: seq<Pair>)
    ensures BatchedMetric(friend, transfers, tickets) == DirectMetric(friend, transfers, tickets)
       <==> NoSelfPairs(transfers, friend.id) && NoSelfPairs(tickets, friend.id)
  {
    SidesCountSelfTwice(transfers, friend.id);
    SidesCountSelfTwice(tickets, friend.id);
    SelfCountZero(transfers, friend.id);
    SelfCountZero(tickets, friend.id);
  }

  /** A closed ticket a user opened with itself, as an escrow checkout at one's own store does, counts twice. */
  lemma SelfTicketCountsTwice(id: int, trades: nat)
    ensures var (friend, tickets) := (Friend(id, trades), [Pair(id, id, true)]);
            && DirectMetric(friend, [], tickets) == trades + 1
            && BatchedMetric(friend, [], tickets) == trades + 2
  {
    var tickets := [Pair(id, id, true)];
    assert tickets[..0] == [];
    assert CountFirst(tickets, id) == 1 && CountSecond(tickets, id) == 1 && CountEither(tickets, id) == 1;
  }
}
