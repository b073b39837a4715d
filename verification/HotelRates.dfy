/** Nightly hotel rates: overrides by priority, weekend and base prices, and the total of a stay. */
module HotelRates {
  import opened Common

  const MS_PER_DAY: int := 86_400_000

  /** The UTC day a timestamp falls in, counted from 1970-01-01; days are floors, before the epoch too. */
  function StartOfUtcDay(ms: int): int {
    ms / MS_PER_DAY
  }

  /** 1970-01-01 was a Thursday; Sunday is 0 and Saturday 6. */
  predicate IsWeekend(day: int) {
    (day + 4) % 7 == 0 || (day + 4) % 7 == 6
  }

  datatype Room = Room(business: int, id: int, roomType: int, basePrice: int, weekendPrice: Option<int>)

  /** An absent room id covers a whole type; an absent type covers all types. */
  datatype Override = Override(business: int, roomId: Option<int>, roomType: Option<int>, day: int, price: int)

  datatype Kind = FromOverride | FromWeekend | FromBase

  datatype Rate = Rate(day: int, price: int, kind: Kind)

  predicate Applies(o: Override, room: Room) {
    o.business == room.business
    && (o.roomId == Some(room.id)
        || (o.roomId == None && (o.roomType == Some(room.roomType) || o.roomType == None)))
  }

  function Priority(o: Override, room: Room): nat {
    if o.roomId == Some(room.id) then 3 else if o.roomType == Some(room.roomType) then 2 else 1
  }

  /** The query of `findNightlyRates`, keeping table order. */
  function Query(table: seq<Override>, room: Room, from: int, to: int): seq<Override> {
    if table == [] then []
    else
      var last := table[|table| - 1];
      Query(table[..|table| - 1], room, from, to)
      + if from <= last.day < to && Applies(last, room) then [last] else []
  }

  function ForDay(rows: seq<Override>, day: int): seq<Override> {
    if rows == [] then []
    else ForDay(rows[..|rows| - 1], day) + if rows[|rows| - 1].day == day then [rows[|rows| - 1]] else []
  }

  /** The highest-priority row; the earliest of those. */
  function Winner(rows: seq<Override>, room: Room): (w: Option<nat>)
    ensures w.None? <==> rows == []
    ensures w.Some? ==> w.value < |rows|
    ensures w.Some? ==> forall i :: 0 <= i < |rows| ==>
              if i < w.value then Priority(rows[i], room) < Priority(rows[w.value], room)
              else Priority(rows[i], room) <= Priority(rows[w.value], room)
  {
    if rows == [] then None
    else
      var n := |rows| - 1;
      var before := Winner(rows[..n], room);
      if before.None? || Priority(rows[n], room) > Priority(rows[before.value], room) then Some(n) else before
  }

  function NightRate(rows: seq<Override>, room: Room, day: int): Rate {
    var today := ForDay(rows, day);
    var winner := Winner(today, room);
    if winner.Some? then Rate(day, today[winner.value].price, FromOverride)
    else if IsWeekend(day) && room.weekendPrice.Some? then Rate(day, room.weekendPrice.value, FromWeekend)
    else Rate(day, room.basePrice, FromBase)
  }

  datatype Entry = Entry(override: Override, priority: nat)

  lemma ForDayAppend(rows: seq<Override>, o: Override, day: int)
    ensures ForDay(rows + [o], day) == ForDay(rows, day) + if o.day == day then [o] else []
  {
    assert (rows + [o])[..|rows|] == rows;
  }

  /** The map's entry for a day, if any, is the winner of that day's rows. */
  ghost predicate HoldsWinner(best: map<int, Entry>, today: seq<Override>, room: Room, day: int) {
    var winner := Winner(today, room);
    if winner.None? then day !in best
    else day in best && best[day] == Entry(today[winner.value], Priority(today[winner.value], room))
  }

  ghost predicate HoldsWinners(best: map<int, Entry>, rows: seq<Override>, room: Room) {
    forall day :: HoldsWinner(best, ForDay(rows, day), room, day)
  }

  lemma WinnerAppend(rows: seq<Override>, o: Override, room: Room)
    ensures var before := Winner(rows, room);
            Winner(rows + [o], room)
            == if before.None? || Priority(o, room) > Priority(rows[before.value], room) then Some(|rows|) else before
  {
    assert (rows + [o])[..|rows|] == rows;
  }

  function Offer(best: map<int, Entry>, o: Override, room: Room): map<int, Entry> {
    if o.day !in best || Priority(o, room) > best[o.day].priority
    then best[o.day := Entry(o, Priority(o, room))] else best
  }

  lemma OfferKeepsWinners(best: map<int, Entry>, rows: seq<Override>, o: Override, room: Room)
    requires HoldsWinners(best, rows, room)
    ensures HoldsWinners(Offer(best, o, room), rows + [o], room)
  {
    forall day ensures HoldsWinner(Offer(best, o, room), ForDay(rows + [o], day), room, day) {
      var today := ForDay(rows, day);
      assert HoldsWinner(best, today, room, day);
      ForDayAppend(rows, o, day);
      if day == o.day {
        WinnerAppend(today, o, room);
      } else {
        assert today + [] == today;
      }
    }
  }

  method BuildOverrideMap(rows: seq<Override>, room: Room) returns (best: map<int, Entry>)
    ensures HoldsWinners(best, rows, room)
  {
    best := map[];
    for i := 0 to |rows|
      invariant HoldsWinners(best, rows[..i], room)
    {
      var o := rows[i];
      var priority := Priority(o, room);
      OfferKeepsWinners(best, rows[..i], o, room);
      assert rows[..i + 1] == rows[..i] + [o];
      if o.day !in best || priority > best[o.day].priority {
        best := best[o.day := Entry(o, priority)];
      }
    }
    assert rows[..|rows|] == rows;
  }

  // ---------------------------------------------------------------- which override decides, in plain terms

  predicate ForThisRoom(o: Override, room: Room) {
    o.roomId == Some(room.id)
  }

  predicate ForThisType(o: Override, room: Room) {
    o.roomType == Some(room.roomType)
  }

  /** Row `k` decides the day: no row of that day beats it, and none as good comes before it. */
  predicate Decides(rows: seq<Override>, room: Room, day: int, k: nat) {
    && k < |rows| && rows[k].day == day
    && (forall j :: 0 <= j < |rows| && rows[j].day == day ==> Priority(rows[j], room) <= Priority(rows[k], room))
    && (forall j :: 0 <= j < k && rows[j].day == day ==> Priority(rows[j], room) < Priority(rows[k], room))
  }

  /** The first override for the room; without one the first for its type; without one the first at all. */
  predicate FirstOfBestKind(rows: seq<Override>, room: Room, day: int, k: nat) {
    && k < |rows| && rows[k].day == day
    && if exists j :: 0 <= j < |rows| && rows[j].day == day && ForThisRoom(rows[j], room)
       then ForThisRoom(rows[k], room) && forall j :: 0 <= j < k && rows[j].day == day ==> !ForThisRoom(rows[j], room)
       else if exists j :: 0 <= j < |rows| && rows[j].day == day && ForThisType(rows[j], room)
       then ForThisType(rows[k], room) && forall j :: 0 <= j < k && rows[j].day == day ==> !ForThisType(rows[j], room)
       else forall j :: 0 <= j < k ==> rows[j].day != day
  }

  lemma DecidesIsFirstOfBest(rows: seq<Override>, room: Room, day: int, k: nat)
    requires Decides(rows, room, day, k)
    ensures FirstOfBestKind(rows, room, day, k)
  {
    if exists j :: 0 <= j < |rows| && rows[j].day == day && ForThisRoom(rows[j], room) {
      var j :| 0 <= j < |rows| && rows[j].day == day && ForThisRoom(rows[j], room);
      assert Priority(rows[j], room) == 3;
    } else if exists j :: 0 <= j < |rows| && rows[j].day == day && ForThisType(rows[j], room) {
      var j :| 0 <= j < |rows| && rows[j].day == day && ForThisType(rows[j], room);
      assert Priority(rows[j], room) == 2;
    }
  }

  lemma {:induction false} NoneThatDay(rows: seq<Override>, day: int)
    ensures ForDay(rows, day) == [] <==> forall j :: 0 <= j < |rows| ==> rows[j].day != day
  {
    if rows != [] {
      var n := |rows| - 1;
      NoneThatDay(rows[..n], day);
      assert forall j :: 0 <= j < n ==> rows[..n][j] == rows[j];
      assert rows[n].day == day ==> ForDay(rows, day) != [];
    }
  }

  lemma DecidesSkip(before: seq<Override>, last: Override, room: Room, day: int, k: nat)
    requires Decides(before, room, day, k)
    requires last.day == day ==> Priority(last, room) <= Priority(before[k], room)
    ensures Decides(before + [last], room, day, k) && (before + [last])[k] == before[k]
  {
  }

  lemma DecidesTake(before: seq<Override>, last: Override, room: Room, day: int)
    requires last.day == day
    requires forall j :: 0 <= j < |before| && before[j].day == day ==> Priority(before[j], room) < Priority(last, room)
    ensures Decides(before + [last], room, day, |before|) && (before + [last])[|before|] == last
  {
  }

  /** The winner among a day's rows is the row that decides the day. */
  predicate WinnerIs(rows: seq<Override>, room: Room, day: int, k: nat) {
    var today := ForDay(rows, day);
    var winner := Winner(today, room);
    winner.Some? && k < |rows| && rows[k] == today[winner.value]
  }

  lemma WinnerSkips(before: seq<Override>, last: Override, room: Room, day: int, k: nat)
    requires WinnerIs(before, room, day, k)
    requires last.day == day ==> Priority(last, room) <= Priority(before[k], room)
    ensures WinnerIs(before + [last], room, day, k)
  {
    var today := ForDay(before, day);
    ForDayAppend(before, last, day);
    WinnerAppend(today, last, room);
    assert today + [] == today;
  }

  lemma WinnerTakes(before: seq<Override>, last: Override, room: Room, day: int)
    requires last.day == day
    requires var today := ForDay(before, day);
             today == [] || Priority(last, room) > Priority(today[Winner(today, room).value], room)
    ensures WinnerIs(before + [last], room, day, |before|)
  {
    ForDayAppend(before, last, day);
    WinnerAppend(ForDay(before, day), last, room);
  }

  lemma {:induction false} DecidedBy(rows: seq<Override>, room: Room, day: int) returns (k: nat)
    requires ForDay(rows, day) != []
    ensures Decides(rows, room, day, k) && WinnerIs(rows, room, day, k)
  {
    var (before, last) := (rows[..|rows| - 1], rows[|rows| - 1]);
    assert rows == before + [last];
    ForDayAppend(before, last, day);
    NoneThatDay(before, day);
    if ForDay(before, day) == [] {
      k := |before|;
      DecidesTake(before, last, room, day);
      WinnerTakes(before, last, room, day);
    } else {
      k := DecidedBy(before, room, day);
      if last.day == day && Priority(last, room) > Priority(before[k], room) {
        WinnerTakes(before, last, room, day);
        DecidesTake(before, last, room, day);
        k := |before|;
      } else {
        WinnerSkips(before, last, room, day, k);
        DecidesSkip(before, last, room, day, k);
      }
    }
  }

  /** 1970-01-03 was a Saturday, 1970-01-04 a Sunday, and weeks have seven days. */
  lemma WeekendExactly(day: int)
    ensures IsWeekend(day) <==> day % 7 == 2 || day % 7 == 3
  {
  }

  lemma DayExactly(ms: int)
    ensures StartOfUtcDay(ms) * 86_400_000 <= ms < (StartOfUtcDay(ms) + 1) * 86_400_000
  {
  }

  /** The price of a night: the override that decides its day; without one the weekend price; else the base price. */
  predicate IsNightRate(rows: seq<Override>, room: Room, rate: Rate) {
    var day := rate.day;
    if exists j :: 0 <= j < |rows| && rows[j].day == day
    then rate.kind == FromOverride
         && exists k :: 0 <= k < |rows| && FirstOfBestKind(rows, room, day, k) && rate.price == rows[k].price
    else if (day % 7 == 2 || day % 7 == 3) && room.weekendPrice.Some?
    then rate.kind == FromWeekend && rate.price == room.weekendPrice.value
    else rate.kind == FromBase && rate.price == room.basePrice
  }

  lemma NightRateExactly(rows: seq<Override>, room: Room, day: int)
    ensures IsNightRate(rows, room, NightRate(rows, room, day)) && NightRate(rows, room, day).day == day
  {
    NoneThatDay(rows, day);
    WeekendExactly(day);
    if ForDay(rows, day) != [] {
      var k := DecidedBy(rows, room, day);
      DecidesIsFirstOfBest(rows, room, day, k);
    }
  }

  /** The query returns exactly the business's overrides of the range that concern the room. */
  lemma {:induction false} QueryExactly(table: seq<Override>, room: Room, from: int, to: int, o: Override)
    ensures o in Query(table, room, from, to)
       <==> && o in table && from <= o.day < to && o.business == room.business
            && (|| o.roomId == Some(room.id)
                || (o.roomId == None && (o.roomType == Some(room.roomType) || o.roomType == None)))
  {
    if table != [] {
      var n := |table| - 1;
      QueryExactly(table[..n], room, from, to, o);
      assert table == table[..n] + [table[n]];
    }
  }

  /** The entry of one night, given the day's deciding override if there is one. */
  method RateNight(best: map<int, Entry>, rows: seq<Override>, room: Room, day: int) returns (rate: Rate)
    requires HoldsWinners(best, rows, room)
    ensures rate == NightRate(rows, room, day)
  {
    assert HoldsWinner(best, ForDay(rows, day), room, day);
    var weekend := IsWeekend(day) && room.weekendPrice.Some?;
    if day in best {
      rate := Rate(day, best[day].override.price, FromOverride);
    } else if weekend {
      rate := Rate(day, room.weekendPrice.value, FromWeekend);
    } else {
      rate := Rate(day, room.basePrice, FromBase);
    }
  }

  /** `findNightlyRates`: one entry per night of the stay, each the rate its own day's rows decide. */
  method FindNightlyRates(rows: seq<Override>, room: Room, checkIn: int, checkOut: int) returns (rates: seq<Rate>)
    ensures |rates| == if checkIn < checkOut then checkOut - checkIn else 0
    ensures forall i :: 0 <= i < |rates| ==> rates[i] == NightRate(rows, room, checkIn + i)
  {
    var nights := [];
    var cursor := checkIn;
    while cursor < checkOut
      invariant checkIn < checkOut ==> checkIn <= cursor <= checkOut
      invariant checkIn >= checkOut ==> cursor == checkIn
      invariant |nights| == cursor - checkIn
      invariant forall i :: 0 <= i < |nights| ==> nights[i] == checkIn + i
    {
      nights := nights + [cursor];
      cursor := cursor + 1;
    }
    var best := BuildOverrideMap(rows, room);
    rates := [];
    for i := 0 to |nights|
      invariant |rates| == i
      invariant forall j :: 0 <= j < i ==> rates[j] == NightRate(rows, room, checkIn + j)
    {
      var rate := RateNight(best, rows, room, nights[i]);
      rates := rates + [rate];
    }
  }

  // ---------------------------------------------------------------- the total of a stay

  /** The rates of the nights from `from` up to, not including, `to`. */
  function Nights(rows: seq<Override>, room: Room, from: int, to: int): (rates: seq<Rate>)
    requires from <= to
    ensures |rates| == to - from
  {
    seq(to - from, i requires 0 <= i < to - from => NightRate(rows, room, from + i))
  }

  function Sum(rates: seq<Rate>): int {
    if rates == [] then 0 else Sum(rates[..|rates| - 1]) + rates[|rates| - 1].price
  }

  /** The reservation total: each stay queries its own date range. */
  function StayTotal(table: seq<Override>, room: Room, from: int, to: int): int
    requires from <= to
  {
    Sum(Nights(Query(table, room, from, to), room, from, to))
  }

  /** Within its range, a query loses nothing about a day. */
  lemma {:induction false} QueryKeepsDay(
    table: seq<Override>, room: Room, from: int, to: int, from': int, to': int, day: int)
    requires from <= day < to && from' <= day < to'
    ensures ForDay(Query(table, room, from, to), day) == ForDay(Query(table, room, from', to'), day)
  {
    if table != [] {
      var shorter := table[..|table| - 1];
      var last := table[|table| - 1];
      QueryKeepsDay(shorter, room, from, to, from', to', day);
      ForDayAppend(Query(shorter, room, from, to), last, day);
      ForDayAppend(Query(shorter, room, from', to'), last, day);
      assert Query(shorter, room, from, to) + [] == Query(shorter, room, from, to);
      assert Query(shorter, room, from', to') + [] == Query(shorter, room, from', to');
    }
  }

  lemma {:induction false} SumConcat(a: seq<Rate>, b: seq<Rate>)
    ensures Sum(a + b) == Sum(a) + Sum(b)
  {
    if b == [] {
      assert a + b == a;
    } else {
      assert (a + b)[..|a + b| - 1] == a + b[..|b| - 1];
      SumConcat(a, b[..|b| - 1]);
    }
  }

  /** Part of a stay is priced by its own, narrower query exactly as by the wider one. */
  lemma PartHasOwnQuery(table: seq<Override>, room: Room, from: int, to: int, from': int, to': int)
    requires from <= from' <= to' <= to
    ensures Nights(Query(table, room, from, to), room, from', to')
         == Nights(Query(table, room, from', to'), room, from', to')
  {
    forall day | from' <= day < to'
      ensures NightRate(Query(table, room, from, to), room, day) == NightRate(Query(table, room, from', to'), room, day)
    {
      QueryKeepsDay(table, room, from, to, from', to', day);
    }
  }

  /** Splitting a stay at any day, each part with its own query, leaves the total unchanged. */
  lemma TotalIsAdditive(table: seq<Override>, room: Room, from: int, mid: int, to: int)
    requires from <= mid <= to
    ensures StayTotal(table, room, from, to) == StayTotal(table, room, from, mid) + StayTotal(table, room, mid, to)
  {
    var rows := Query(table, room, from, to);
    assert Nights(rows, room, from, to) == Nights(rows, room, from, mid) + Nights(rows, room, mid, to);
    SumConcat(Nights(rows, room, from, mid), Nights(rows, room, mid, to));
    PartHasOwnQuery(table, room, from, to, from, mid);
    PartHasOwnQuery(table, room, from, to, mid, to);
  }

  /** A single night costs its rate; with additivity this fixes every total. */
  lemma OneNightCostsItsRate(table: seq<Override>, room: Room, day: int)
    ensures var rate := NightRate(Query(table, room, day, day + 1), room, day);
            && rate.day == day && IsNightRate(Query(table, room, day, day + 1), room, rate)
            && StayTotal(table, room, day, day + 1) == rate.price && StayTotal(table, room, day, day) == 0
  {
    NightRateExactly(Query(table, room, day, day + 1), room, day);
    var night := Nights(Query(table, room, day, day + 1), room, day, day + 1);
    assert night[..0] == [] && night[0] == NightRate(Query(table, room, day, day + 1), room, day);
    assert Sum(night) == Sum(night[..0]) + night[0].price;
    assert Nights(Query(table, room, day, day), room, day, day) == [];
  }

  /** The pricing half of `createHotelReservation`: refused when checkout is not after checkin or nothing is priced. */
  method PriceStay(table: seq<Override>, room: Room, checkInMs: int, checkOutMs: int) returns (total: Option<int>)
    ensures var (from, to) := (StartOfUtcDay(checkInMs), StartOfUtcDay(checkOutMs));
            total == if from < to && StayTotal(table, room, from, to) > 0
                     then Some(StayTotal(table, room, from, to)) else None
  {
    var from, to := StartOfUtcDay(checkInMs), StartOfUtcDay(checkOutMs);
    if to <= from { return None; }
    var rates := FindNightlyRates(Query(table, room, from, to), room, from, to);
    var sum := 0;
    for i := 0 to |rates|
      invariant sum == Sum(rates[..i])
    {
      assert rates[..i + 1][..i] == rates[..i];
      sum := sum + rates[i].price;
    }
    assert rates[..|rates|] == rates;
    assert rates == Nights(Query(table, room, from, to), room, from, to);
    total := if sum <= 0 then None else Some(sum);
  }
}
