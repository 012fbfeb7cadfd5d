/**
 * `PyCamp`: the bot's store of the current room list and timetable, which
 * a periodic refresh replaces only when the new timetable is not empty.
 */
module Camp {
  import opened Wrappers
  import opened Sessions
  import opened Extractor

  class PyCamp {
    var rooms: seq<string>
    var sessions: Timetable

    /** The store starts from a fetched and extracted plan (the fetch itself is not modelled). */
    constructor (fetched: Plan)
      ensures rooms == fetched.rooms && sessions == fetched.sessions
    {
      rooms := fetched.rooms;
      sessions := fetched.sessions;
    }

    /** The store's contents as the plan they came from. */
    function Snapshot(): (p: Plan)
      reads this
      ensures p.rooms == rooms && p.sessions == sessions
    {
      Plan(rooms, sessions)
    }

    /**
     * `update`: both fields take the fetched plan's values when its
     * timetable has an entry; otherwise neither changes.
     */
    method Update(fetched: Plan)
      modifies this
      ensures fetched.sessions != [] ==> rooms == fetched.rooms && sessions == fetched.sessions
      ensures fetched.sessions == [] ==> rooms == old(rooms) && sessions == old(sessions)
      ensures old(WellFormed(Snapshot())) && WellFormed(fetched) ==> WellFormed(Snapshot())
    {
      if fetched.sessions != [] {
        rooms := fetched.rooms;
        sessions := fetched.sessions;
      }
    }

    /**
     * `update` given the fetched page's text: the extraction runs first, and
     * when it fails (the source raises) the failure is returned and nothing
     * changes.
     */
    method Refresh(body: string) returns (failure: Option<Failure>)
      modifies this
      ensures failure == if Extract(body).Err? then Some(Extract(body).error) else None
      ensures failure.Some? || Extract(body).value.sessions == [] ==>
        rooms == old(rooms) && sessions == old(sessions)
      ensures failure.None? && Extract(body).value.sessions != [] ==>
        rooms == Extract(body).value.rooms && sessions == Extract(body).value.sessions
      ensures old(WellFormed(Snapshot())) ==> WellFormed(Snapshot())
    {
      var fetched := GetRoomsAndSessions(body);
      if fetched.Err? {
        return Some(fetched.error);
      }
      Update(fetched.value);
      return None;
    }
  }
}
