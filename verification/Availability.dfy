/** Finding free appointment slots in a day. Times count from midnight of that day, in any unit. */
module Availability {

  type Time = int

  datatype Interval = Interval(start: Time, end: Time)

  /** Opening hours, slot length, the busy intervals, the part of day asked for, and the units in an hour. */
  datatype Day = Day(open: Time, close: Time, step: int, busy: seq<Interval>, partOfDay: string, hour: int)

  predicate InWindow(day: Day, slot: Time)
    requires day.hour >= 1
  {
    || day.partOfDay == "any"
    || (day.partOfDay == "morning" && slot / day.hour < 12)
    || (day.partOfDay == "afternoon" && slot / day.hour >= 12)
  }

  predicate Overlaps(busy: Interval, start: Time, end: Time) {
    busy.start < end && start < busy.end
  }

  predicate Within(t: Time, i: Interval) {
    i.start <= t < i.end
  }

  /** The overlap test is right: it holds exactly when some moment is in both the slot and the busy interval. */
  lemma OverlapIsSharedMoment(busy: Interval, start: Time, end: Time)
    requires start < end && busy.start < busy.end
    ensures Overlaps(busy, start, end) <==> exists t :: Within(t, busy) && Within(t, Interval(start, end))
  {
    if Overlaps(busy, start, end) {
      var t := if start < busy.start then busy.start else start;
      assert Within(t, busy) && Within(t, Interval(start, end));
    }
  }

  predicate During(day: Day, slot: Time, t: Time) {
    slot <= t < slot + day.step
  }

  /** The k-th place of the grid. */
  function Grid(day: Day, k: nat): Time {
    if k == 0 then day.open else Grid(day, k - 1) + day.step
  }

  predicate Fits(day: Day, k: nat) {
    Grid(day, k) + day.step <= day.close
  }

  /** What makes a place of the grid a free slot; `clock(k)` is the time read when it is looked at. */
  ghost predicate Free(day: Day, clock: nat -> Time, k: nat)
    requires day.hour >= 1
  {
    var slot := Grid(day, k);
    && Fits(day, k)
    && (forall b | b in day.busy :: !Overlaps(b, slot, slot + day.step))
    && InWindow(day, slot)
    && slot > clock(k)
  }

  /** The free places among the first `n`, in order. */
  ghost function FreeBefore(day: Day, clock: nat -> Time, n: nat): seq<nat>
    requires day.hour >= 1
  {
    if n == 0 then []
    else FreeBefore(day, clock, n - 1) + if Free(day, clock, n - 1) then [n - 1] else []
  }

  function SlotsAt(day: Day, places: seq<nat>): (slots: seq<Time>)
    ensures |slots| == |places| && forall i | 0 <= i < |slots| :: slots[i] == Grid(day, places[i])
  {
    seq(|places|, i requires 0 <= i < |places| => Grid(day, places[i]))
  }

  method AnyOverlap(busy: seq<Interval>, start: Time, end: Time) returns (found: bool)
    ensures found <==> exists b :: b in busy && Overlaps(b, start, end)
  {
    for i := 0 to |busy|
      invariant forall j | 0 <= j < i :: !Overlaps(busy[j], start, end)
    {
      if Overlaps(busy[i], start, end) {
        return true;
      }
    }
    return false;
  }

  /** All the free slots of a day, and the ones offered; `n` is how many places of the grid fit before closing. */
  method CheckAvailability(day: Day, clock: nat -> Time) returns (slots: seq<Time>, offered: seq<Time>, ghost n: nat)
    requires day.step >= 1 && day.hour >= 1
    ensures slots == SlotsAt(day, FreeBefore(day, clock, n))
    ensures !Fits(day, n) && forall k: nat | k < n :: Fits(day, k)
    ensures offered == slots[..if |slots| < 3 then |slots| else 3]
  {
    slots, n := [], 0;
    var cursor, looks := day.open, 0;
    while cursor + day.step <= day.close
      invariant looks == n && cursor == Grid(day, n)
      invariant slots == SlotsAt(day, FreeBefore(day, clock, n))
      invariant forall k: nat | k < n :: Fits(day, k)
      decreases day.close - cursor
    {
      var end := cursor + day.step;
      var overlaps := AnyOverlap(day.busy, cursor, end);
      if !overlaps && InWindow(day, cursor) && cursor > clock(looks) {
        slots := slots + [cursor];
      }
      assert Free(day, clock, n) <==> !overlaps && InWindow(day, cursor) && cursor > clock(n);
      cursor, looks, n := end, looks + 1, n + 1;
    }
    offered := slots[..if |slots| < 3 then |slots| else 3];
  }

  // ---------------------------------------------------------------- what the list is

  lemma {:induction false} GridAdvances(day: Day, j: nat, k: nat)
    requires day.step >= 1
    ensures j < k ==> Grid(day, j) + day.step <= Grid(day, k)
    decreases k
  {
    if j < k && j != k - 1 {
      GridAdvances(day, j, k - 1);
    }
  }

  lemma {:induction false} GridIsEven(day: Day, k: nat)
    ensures Grid(day, k) == day.open + k * day.step
  {
    if k > 0 {
      GridIsEven(day, k - 1);
      assert k * day.step == (k - 1) * day.step + day.step;
    }
  }

  /**
   A free place, in plain terms: it begins a whole number of slots after opening and ends by closing, no busy interval
   reaches into it, it is before noon for the morning and not before for the afternoon, and it is still to come.
   */
  lemma FreeExactlyWhen(day: Day, clock: nat -> Time, k: nat)
    requires day.hour >= 1
    ensures
      var slot := day.open + k * day.step;
      && Grid(day, k) == slot
      && (Free(day, clock, k) <==>
            && slot + day.step <= day.close
            && (forall i | 0 <= i < |day.busy| :: day.busy[i].end <= slot || slot + day.step <= day.busy[i].start)
            && (day.partOfDay in {"any", "morning", "afternoon"})
            && (day.partOfDay == "morning" ==> slot < 12 * day.hour)
            && (day.partOfDay == "afternoon" ==> slot >= 12 * day.hour)
            && clock(k) < slot)
  {
    var slot := day.open + k * day.step;
    GridIsEven(day, k);
    BeforeNoon(slot, day.hour);
    ClearExactlyWhen(day.busy, slot, slot + day.step);
  }

  lemma ClearExactlyWhen(busy: seq<Interval>, start: Time, end: Time)
    ensures (forall b | b in busy :: !Overlaps(b, start, end)) <==>
              forall i | 0 <= i < |busy| :: busy[i].end <= start || end <= busy[i].start
  {
    if forall b | b in busy :: !Overlaps(b, start, end) {
      forall i | 0 <= i < |busy| ensures busy[i].end <= start || end <= busy[i].start {
        assert !Overlaps(busy[i], start, end);
      }
    }
  }

  lemma BeforeNoon(slot: Time, hour: int)
    requires hour >= 1
    ensures slot / hour < 12 <==> slot < 12 * hour
  {
    assert slot == slot / hour * hour + slot % hour;
    if slot / hour < 12 {
      assert slot / hour * hour <= 11 * hour;
    } else {
      assert slot / hour * hour >= 12 * hour;
    }
  }

  lemma {:induction false} FreePlaces(day: Day, clock: nat -> Time, n: nat, k: nat)
    requires day.hour >= 1
    ensures k in FreeBefore(day, clock, n) <==> k < n && Free(day, clock, k)
  {
    if n > 0 {
      FreePlaces(day, clock, n - 1, k);
    }
  }

  lemma {:induction false} FreePlacesAscend(day: Day, clock: nat -> Time, n: nat, i: nat, j: nat)
    requires day.hour >= 1 && i < j < |FreeBefore(day, clock, n)|
    ensures FreeBefore(day, clock, n)[i] < FreeBefore(day, clock, n)[j] < n
  {
    var front := FreeBefore(day, clock, n - 1);
    if j < |front| {
      FreePlacesAscend(day, clock, n - 1, i, j);
    } else {
      FreePlaces(day, clock, n - 1, front[i]);
      assert front[i] in front;
    }
  }

  /** A place that does not fit ends the grid: none after it fits. */
  lemma GridEnds(day: Day, n: nat, k: nat)
    requires day.step >= 1 && !Fits(day, n) && Fits(day, k)
    ensures k < n
  {
    GridAdvances(day, n, k);
  }

  /** The list holds a time exactly when it is that of a free place of the grid. */
  lemma SlotsAreTheFreePlaces(day: Day, clock: nat -> Time, n: nat, t: Time)
    requires day.step >= 1 && day.hour >= 1 && !Fits(day, n)
    ensures t in SlotsAt(day, FreeBefore(day, clock, n)) <==> exists k: nat :: Free(day, clock, k) && t == Grid(day, k)
  {
    var places := FreeBefore(day, clock, n);
    var slots := SlotsAt(day, places);
    if t in slots {
      var i :| 0 <= i < |slots| && slots[i] == t;
      FreePlaces(day, clock, n, places[i]);
      assert places[i] in places;
    }
    if k: nat :| Free(day, clock, k) && t == Grid(day, k) {
      GridEnds(day, n, k);
      FreePlaces(day, clock, n, k);
      var i :| 0 <= i < |places| && places[i] == k;
      assert slots[i] == t;
    }
  }

  /** The slots ascend without touching each other, so the ones offered are the earliest. */
  lemma SlotsAscendDisjoint(day: Day, clock: nat -> Time, n: nat, i: nat, j: nat)
    requires day.step >= 1 && day.hour >= 1 && i < j < |SlotsAt(day, FreeBefore(day, clock, n))|
    ensures
      var slots := SlotsAt(day, FreeBefore(day, clock, n));
      && slots[i] < slots[j]
      && forall t :: !(During(day, slots[i], t) && During(day, slots[j], t))
  {
    FreePlacesAscend(day, clock, n, i, j);
    GridAdvances(day, FreeBefore(day, clock, n)[i], FreeBefore(day, clock, n)[j]);
  }
}
