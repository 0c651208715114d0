/**
 * EventService.GetUpcoming: the upcoming public events, soonest first, at
 * most `limit` of them. The clock is read once by the caller and passed in
 * as `now`; all three time comparisons use that one value.
 */
module EventService {
  import opened Wrappers
  import opened Models
  import opened Store
  import opened Sequences

  /** The homepage asks for this many upcoming events. */
  const HomepageLimit: nat := 6

  /**
   * The WHERE clauses together with the default scope: public, not
   * soft-deleted, not yet past, and `now` inside the visibility window,
   * every bound inclusive and an unset bound unbounded.
   */
  predicate Eligible(now: Timestamp, e: Event)
  {
    && e.base.Live()
    && e.isPublic
    && e.eventDate >= now
    && (e.visibleFrom.None? || e.visibleFrom.value <= now)
    && (e.visibleUntil.None? || e.visibleUntil.value >= now)
  }

  /** Eligible(now, _) as a filter. */
  function EligibleAt(now: Timestamp): Event -> bool
  {
    e => Eligible(now, e)
  }

  /** `ORDER BY event_date ASC`. */
  predicate DateLe(a: Event, b: Event)
  {
    a.eventDate <= b.eventDate
  }

  lemma DateLeIsTotalPreorder()
    ensures TotalPreorder(DateLe)
  {
  }

  /** The eligible rows of the table, as a multiset. */
  ghost function EligibleRows(rows: seq<Event>, now: Timestamp): multiset<Event>
  {
    multiset(Filter(rows, EligibleAt(now)))
  }

  /**
   * What any correct answer to the query looks like. Rows with equal dates
   * may come back in any order, so this fixes sortedness, not one order.
   */
  ghost predicate IsUpcomingAnswer(rows: seq<Event>, now: Timestamp, limit: nat, r: seq<Event>)
  {
    var eligible := EligibleRows(rows, now);
    && (forall e :: e in r ==> Eligible(now, e) && e in rows)
    && multiset(r) <= eligible
    && Sorted(r, DateLe)
    && |r| <= limit
    && (|r| < limit ==> multiset(r) == eligible)
    && |r| == (if limit < |eligible| then limit else |eligible|)
    && (forall x, y :: x in eligible - multiset(r) && y in r ==> y.eventDate <= x.eventDate)
  }

  /** The rows the query returns: filter, order by date, take `limit`. */
  function UpcomingRows(rows: seq<Event>, now: Timestamp, limit: nat): (r: seq<Event>)
    ensures IsUpcomingAnswer(rows, now, limit, r)
  {
    FilterOrderTakeIsAnswer(rows, now, limit);
    Take(Sort(Filter(rows, EligibleAt(now)), DateLe), limit)
  }

  /** The WHERE, ORDER BY and LIMIT clauses together give a correct answer. */
  lemma FilterOrderTakeIsAnswer(rows: seq<Event>, now: Timestamp, limit: nat)
    ensures IsUpcomingAnswer(rows, now, limit, Take(Sort(Filter(rows, EligibleAt(now)), DateLe), limit))
  {
    var eligible := Filter(rows, EligibleAt(now));
    var ordered := Sort(eligible, DateLe);
    var k := if limit < |ordered| then limit else |ordered|;
    var r := ordered[..k];
    assert r == Take(ordered, limit);
    assert Sorted(ordered, DateLe) by {
      DateLeIsTotalPreorder();
      SortIsSorted(eligible, DateLe);
    }
    TakeSorted(ordered, k, DateLe);
    assert EligibleRows(rows, now) == multiset(ordered);
    forall e | e in r ensures Eligible(now, e) && e in rows {
      assert e in multiset(ordered);
      assert e in eligible;
      assert EligibleAt(now)(e);
    }
    forall x, y | x in multiset(ordered) - multiset(r) && y in r
      ensures y.eventDate <= x.eventDate
    {
      assert DateLe(y, x);
    }
  }

  /**
   * GetUpcoming(limit) against the table read `read`, at time `now`. A
   * failed read is returned unchanged; no match is an empty list, not an
   * error.
   */
  function GetUpcoming(read: Read<Event>, now: Timestamp, limit: nat): (r: Result<seq<Event>, DbError>)
    ensures read.Failed? ==> r == Err(StoreError(read.cause))
    ensures read.Rows? ==> r.Ok? && IsUpcomingAnswer(read.rows, now, limit, r.value)
  {
    match read
    case Failed(cause) => Err(StoreError(cause))
    case Rows(rows) => Ok(UpcomingRows(rows, now, limit))
  }

  /** No eligible event: an empty list and no error. */
  lemma NothingEligibleIsEmpty(rows: seq<Event>, now: Timestamp, limit: nat)
    requires forall e :: e in rows ==> !Eligible(now, e)
    ensures GetUpcoming(Rows(rows), now, limit) == Ok([])
  {
  }

  /** A soft-deleted event is never returned, whatever its other columns. */
  lemma SoftDeletedNeverReturned(rows: seq<Event>, now: Timestamp, limit: nat, e: Event)
    requires e.base.deletedAt.Some?
    ensures e !in GetUpcoming(Rows(rows), now, limit).value
  {
  }

  function PlainEvent(id: nat, date: Timestamp): Event
  {
    Event(SoftDeleteModel(id, 0, 0, None), "", "", date, None, "", "", false, "none",
          None, false, None, None, None, None, true, None, None)
  }

  /**
   * The homepage scenario: with one public, unbounded event tomorrow and one
   * yesterday, GetUpcoming(6) returns exactly tomorrow's.
   */
  lemma HomepageShowsOnlyFutureEvent(now: Timestamp)
    ensures var tomorrow := PlainEvent(1, now + 86400);
            var yesterday := PlainEvent(2, now - 86400);
            GetUpcoming(Rows([tomorrow, yesterday]), now, HomepageLimit) == Ok([tomorrow])
  {
    var tomorrow := PlainEvent(1, now + 86400);
    var yesterday := PlainEvent(2, now - 86400);
    var rows := [tomorrow, yesterday];
    assert Filter(rows, EligibleAt(now)) == [tomorrow] by {
      assert rows[1..] == [yesterday];
      assert rows[1..][1..] == [];
    }
  }
}
