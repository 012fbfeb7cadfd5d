/**
 * The session record (`PyCSession`) and the values the schedule is made of.
 */
module Sessions {
  import opened Wrappers
  import opened Text

  /** A session as stored in the schedule: title, optional description and room text. */
  datatype Session = Session(title: string, description: Option<string>, room: string)

  /** One entry of the sessions dictionary: a time label (`time`) and its sessions in page order. */
  datatype Slot = Slot(time: string, sessions: seq<Session>)

  /** The sessions dictionary, as a list of entries because a Python dict keeps insertion order. */
  type Timetable = seq<Slot>

  /** The timetable's time labels in order. */
  function Labels(tt: Timetable): (ks: seq<string>)
    ensures |ks| == |tt| && forall i :: 0 <= i < |tt| ==> ks[i] == tt[i].time
  {
    if tt == [] then [] else [tt[0].time] + Labels(tt[1..])
  }

  predicate DistinctLabels(tt: Timetable) {
    forall i, j :: 0 <= i < j < |tt| ==> tt[i].time != tt[j].time
  }

  /** The sessions' titles and rooms hold no line breaks. */
  predicate SingleLineSessions(ss: seq<Session>) {
    forall j :: 0 <= j < |ss| ==> NoBreak(ss[j].title) && NoBreak(ss[j].room)
  }

  /** The timetable's texts hold no line breaks (titles and rooms come from single joined lines). */
  predicate SingleLineTexts(tt: Timetable) {
    forall i, j :: 0 <= i < |tt| && 0 <= j < |tt[i].sessions| ==>
      NoBreak(tt[i].time) && NoBreak(tt[i].sessions[j].title) && NoBreak(tt[i].sessions[j].room)
  }

  const RoomPrefix := "Room:"

  /**
   * What the room setter stores for `value`: a value that starts with `Room:`
   * loses its first six characters (the prefix and the character after it);
   * any other value is kept as it is.
   */
  function NormaliseRoom(value: string): (r: string)
    ensures r == value <==> !StartsWith(value, RoomPrefix)
    ensures |r| <= |value| && r == value[|value| - |r|..]
    ensures StartsWith(value, RoomPrefix) ==> |r| == if |value| >= 6 then |value| - 6 else 0
  {
    if StartsWith(value, RoomPrefix) then
      if |value| >= 6 then value[6..] else ""
    else value
  }

  /** `PyCSession`: a session record whose `room` goes through a normalising setter. */
  class PyCSession {
    var title: string
    var description: Option<string>
    var room: Option<string>

    /** The constructor stores `room` as given; it does not go through the setter. */
    constructor (title: string, description: Option<string>, room: Option<string>)
      ensures this.title == title && this.description == description && this.room == room
    {
      this.title := title;
      this.description := description;
      this.room := room;
    }

    /** The `room` property setter. */
    method SetRoom(value: string)
      modifies this`room
      ensures room == Some(NormaliseRoom(value))
      ensures title == old(title) && description == old(description)
    {
      if StartsWith(value, RoomPrefix) {
        room := Some(if |value| >= 6 then value[6..] else "");
      } else {
        room := Some(value);
      }
    }
  }
}
