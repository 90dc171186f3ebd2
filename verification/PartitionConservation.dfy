/** Whole runs of preparers and writers: rows are conserved, and success attaches the plan. */
module PartitionConservation {
  import opened Prelude
  import opened LogEntry
  import opened PartitionPreparer
  import opened PartitionInvariant

  ghost predicate IsRun(w: World, events: seq<Event>)
    decreases |events|
  {
    events == [] || (Enabled(w, events[0]) && IsRun(Next(w, events[0]), events[1..]))
  }

  ghost function AfterRun(w: World, events: seq<Event>): World
    requires IsRun(w, events)
    decreases |events|
  {
    if events == [] then w else AfterRun(Next(w, events[0]), events[1..])
  }

  function Arrivals(events: seq<Event>): multiset<Log> {
    if events == [] then multiset{}
    else (if events[0].RowArrives? then multiset{events[0].row} else multiset{}) + Arrivals(events[1..])
  }

  /**
   However preparers and writers interleave, and whatever fails: the rows stored are the rows there were
   and the rows that arrived, each in the attached partition of its day or else in the default, and no
   day is attached twice.
   */
  lemma {:induction false} RunConservesRows(w: World, events: seq<Event>)
    requires Invariant(w) && IsRun(w, events)
    ensures var after := AfterRun(w, events);
            && Invariant(after) && WellPlaced(after) && DistinctDays(after.partitions)
            && AllRows(after) == AllRows(w) + Arrivals(events)
    decreases |events|
  {
    if events == [] {
    } else {
      hide Invariant, AllRows, Next, Enabled, WellPlaced, DistinctDays;
      NextKeepsInvariant(w, events[0]);
      NextConservesRows(w, events[0]);
      RunConservesRows(Next(w, events[0]), events[1..]);
    }
  }

  /**
   The check of the plan before anything is locked. The source compares names, and the name of a
   partition identifies its day.
   */
  method CheckNames(days: seq<int>) returns (accepted: bool)
    ensures accepted <==> IsDayPlan(days)
  {
    var names := {};
    for i := 0 to |days|
      invariant IsDayPlan(days[..i])
      invariant names == set k | 0 <= k < i :: days[k]
    {
      if days[i] in names {
        return false;
      }
      names := names + {days[i]};
    }
    assert days[..|days|] == days;
    return true;
  }

  function NewPreparer(days: seq<int>): Preparer {
    Preparer(days, TryLock, false, true, NoTransaction, false, {}, 0)
  }

  /** Well placed tables and preparers that have not started satisfy the invariant. */
  lemma StartIsGood(w: World)
    requires WellPlaced(w) && DistinctDays(w.partitions) && w.lock.None? && w.defaultLock.None?
    requires forall i :: 0 <= i < |w.preparers| ==>
      IsDayPlan(w.preparers[i].days) && w.preparers[i] == NewPreparer(w.preparers[i].days)
    ensures Invariant(w)
  {
    hide AttachedDays, DayOf;
  }

  /** A preparer that ends without error leaves every planned day attached, in every later state. */
  lemma SuccessAttachesPlan(w: World, i: nat)
    requires Invariant(w) && i < |w.preparers| && w.preparers[i].place.Finished? && !w.preparers[i].failed
    ensures forall k :: 0 <= k < |w.preparers[i].days| ==> w.preparers[i].days[k] in AttachedDays(w.partitions)
  {
    Faithful(w, i);
    hide Invariant, AttachedDays;
  }
}
