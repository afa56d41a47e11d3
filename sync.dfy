/**
 * One run of pushing records to a CalDAV calendar, as the list of calendar
 * operations it issues. Connecting to the server, listing the principal's
 * calendars and searching the window are the server's business: the calendars
 * are an input and the search is a parameter.
 * The run picks the first calendar with the requested name, deletes every event
 * the search finds in the window, then saves one new event per record, in
 * record order. A record that cannot be projected stops the run; what was
 * issued before it stays issued.
 */
module Sync {
  import opened Wrappers
  import opened Report
  import opened Events

  /** A calendar owned by the principal. */
  datatype Calendar = Calendar(name: string, url: string)

  /** An event stored on the server, as returned by a search. */
  datatype EventRef = EventRef(href: string)

  /** One operation issued against the server. */
  datatype Action =
    | Delete(event: EventRef)
    | Save(calendar: Calendar, fields: Projection)

  datatype SyncError =
    | NoSuchCalendar(name: string)                   // no calendar has the requested name
    | BadRecord(index: nat, cause: ProjectionError)  // the record at this position could not be projected

  /** The position of the first calendar named `name`. */
  function SelectCalendar(calendars: seq<Calendar>, name: string): (r: Option<nat>)
    ensures r.Some? ==> r.value < |calendars| && calendars[r.value].name == name
    ensures r.Some? ==> forall i | 0 <= i < r.value :: calendars[i].name != name
    ensures r.None? <==> forall i | 0 <= i < |calendars| :: calendars[i].name != name
  {
    if calendars == [] then None
    else if calendars[0].name == name then Some(0)
    else match SelectCalendar(calendars[1..], name)
      case None => None
      case Some(i) => Some(i + 1)
  }

  /** Deletes every event found, in the order found. */
  method DeleteAll(found: seq<EventRef>) returns (deletes: seq<Action>)
    ensures |deletes| == |found|
    ensures forall i | 0 <= i < |found| :: deletes[i] == Delete(found[i])
  {
    deletes := [];
    var i := 0;
    while i < |found|
      invariant 0 <= i <= |found| && |deletes| == i
      invariant forall j | 0 <= j < i :: deletes[j] == Delete(found[j])
    {
      deletes := deletes + [Delete(found[i])];
      i := i + 1;
    }
  }

  /** Saves one event per record, in record order, stopping at the first record that cannot be projected. */
  method SaveAll(records: seq<Record>, calendar: Calendar, project: Record --> Result<Projection, ProjectionError>)
    returns (saves: seq<Action>, failure: Option<SyncError>)
    requires forall n | 0 <= n < |records| :: project.requires(records[n])
    ensures |saves| <= |records|
    ensures forall n | 0 <= n < |saves| ::
              saves[n].Save? && saves[n].calendar == calendar && project(records[n]) == Success(saves[n].fields)
    ensures failure.None? <==> |saves| == |records|
    ensures failure.Some? ==>
              && failure.value.BadRecord? && failure.value.index == |saves|
              && project(records[|saves|]) == Failure(failure.value.cause)
  {
    saves := [];
    var n := 0;
    while n < |records|
      invariant 0 <= n <= |records| && |saves| == n
      invariant forall m | 0 <= m < n ::
                  saves[m].Save? && saves[m].calendar == calendar && project(records[m]) == Success(saves[m].fields)
    {
      var fields := project(records[n]);
      if fields.Failure? {
        return saves, Some(BadRecord(n, fields.error));
      }
      saves := saves + [Save(calendar, fields.value)];
      n := n + 1;
    }
    return saves, None;
  }

  /** The operations one run issues, and the error that stopped it, if any. */
  method PushToCalDav(
    records: seq<Record>, calendars: seq<Calendar>, name: string, fromTime: int, toTime: int,
    search: (Calendar, int, int) -> seq<EventRef>, parseStart: string -> Option<int>)
    returns (actions: seq<Action>, failure: Option<SyncError>)
    requires forall n | 0 <= n < |records| :: IsRecord(records[n])
    ensures SelectCalendar(calendars, name).None? ==> actions == [] && failure == Some(NoSuchCalendar(name))
    ensures SelectCalendar(calendars, name).Some? ==>
      var calendar := calendars[SelectCalendar(calendars, name).value];
      var found := search(calendar, fromTime, toTime);
      var saved := |actions| - |found|;
      && |found| <= |actions| <= |found| + |records|
      && (forall i | 0 <= i < |found| :: actions[i] == Delete(found[i]))
      && (forall n | 0 <= n < saved ::
            && actions[|found| + n].Save? && actions[|found| + n].calendar == calendar
            && Project(records[n], parseStart) == Success(actions[|found| + n].fields))
      && (failure.None? <==> saved == |records|)
      && (failure.Some? ==>
            && failure.value.BadRecord? && failure.value.index == saved
            && Project(records[saved], parseStart) == Failure(failure.value.cause))
  {
    var selected := SelectCalendar(calendars, name);
    if selected.None? {
      return [], Some(NoSuchCalendar(name));
    }
    var calendar := calendars[selected.value];
    var found := search(calendar, fromTime, toTime);
    var deletes := DeleteAll(found);
    var saves;
    saves, failure := SaveAll(records, calendar, rec requires IsRecord(rec) => Project(rec, parseStart));
    actions := deletes + saves;
    assert forall i | 0 <= i < |found| :: actions[i] == deletes[i];
    assert forall n | 0 <= n < |saves| :: actions[|found| + n] == saves[n];
  }
}
