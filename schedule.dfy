/**
 * The queries of `PyCamp` over a snapshot of its `rooms` and `sessions`:
 * sessions at a time label, sessions in a room, the time labels worth
 * offering, and the room list.
 */
module Schedule {
  import opened Text
  import opened Sessions
  import opened Ordering

  /**
   * `self.sessions.get(timestring, dict())`: the sessions of the first slot
   * labelled `time`. The default is an empty `dict`, which iterates like an
   * empty list, so an unknown label gives no sessions.
   */
  function SessionsAt(tt: Timetable, time: string): (ss: seq<Session>)
    ensures time !in Labels(tt) ==> ss == []
    ensures forall i :: 0 <= i < |tt| && tt[i].time == time && (forall j :: 0 <= j < i ==> tt[j].time != time) ==>
      ss == tt[i].sessions
  {
    if tt == [] then []
    else if tt[0].time == time then tt[0].sessions
    else
      assert Labels(tt) == [tt[0].time] + Labels(tt[1..]);
      assert forall i :: 1 <= i < |tt| ==> tt[i] == tt[1..][i - 1];
      SessionsAt(tt[1..], time)
  }

  /** What `sessions.get` finds is empty or the sessions of a slot with that label. */
  lemma {:induction false} SessionsAtIsSlot(tt: Timetable, time: string)
    ensures SessionsAt(tt, time) == [] ||
      exists i :: 0 <= i < |tt| && tt[i].time == time && SessionsAt(tt, time) == tt[i].sessions
  {
    if tt != [] && tt[0].time != time {
      var rest := tt[1..];
      assert SessionsAt(tt, time) == SessionsAt(rest, time);
      SessionsAtIsSlot(rest, time);
      if SessionsAt(rest, time) != [] {
        var i :| 0 <= i < |rest| && rest[i].time == time && SessionsAt(rest, time) == rest[i].sessions;
        SlotOfRest(tt, i);
      }
    }
  }

  lemma SlotOfRest(tt: Timetable, i: nat)
    requires i + 1 < |tt|
    ensures tt[1..][i] == tt[i + 1]
  {
  }

  /**
   * `filter_session_time`: `(title, room)` of each session at `time`, in list
   * order. Its `if v` keeps every session: a `PyCSession` defines neither
   * `__bool__` nor `__len__`, so every record is true.
   */
  function FilterSessionTime(tt: Timetable, time: string): (r: seq<(string, string)>)
    ensures |r| == |SessionsAt(tt, time)|
    ensures forall i :: 0 <= i < |r| ==> r[i] == (SessionsAt(tt, time)[i].title, SessionsAt(tt, time)[i].room)
  {
    var ss := SessionsAt(tt, time);
    seq(|ss|, i requires 0 <= i < |ss| => (ss[i].title, ss[i].room))
  }

  /** The `(time, title)` pairs of one slot's sessions held in `room`. */
  function RoomHits(time: string, ss: seq<Session>, room: string): (r: seq<(string, string)>)
    ensures forall p :: p in r <==> exists j :: 0 <= j < |ss| && ss[j].room == room && p == (time, ss[j].title)
  {
    if ss == [] then []
    else
      var rest := RoomHits(time, ss[1..], room);
      assert forall j :: 1 <= j < |ss| ==> ss[j] == ss[1..][j - 1];
      (if ss[0].room == room then [(time, ss[0].title)] else []) + rest
  }

  /** A session of slot `i`, number `j`, is held in `room` and gives the pair `p`. */
  ghost predicate RoomEntry(tt: Timetable, room: string, p: (string, string), i: int, j: int) {
    0 <= i < |tt| && 0 <= j < |tt[i].sessions| && tt[i].sessions[j].room == room &&
    p == (tt[i].time, tt[i].sessions[j].title)
  }

  /** `filter_session_room`: `(time, title)` of each session held in exactly `room`, slot by slot. */
  function FilterSessionRoom(tt: Timetable, room: string): seq<(string, string)> {
    if tt == [] then [] else RoomHits(tt[0].time, tt[0].sessions, room) + FilterSessionRoom(tt[1..], room)
  }

  /** The pairs of `filter_session_room` are exactly the sessions held in the room. */
  lemma {:induction false} FilterSessionRoomMembers(tt: Timetable, room: string, p: (string, string))
    ensures p in FilterSessionRoom(tt, room) <==> exists i, j :: RoomEntry(tt, room, p, i, j)
  {
    if tt != [] {
      FilterSessionRoomMembers(tt[1..], room, p);
      if exists i, j :: RoomEntry(tt[1..], room, p, i, j) {
        var i, j :| RoomEntry(tt[1..], room, p, i, j);
        assert RoomEntry(tt, room, p, i + 1, j);
      }
      if exists j :: 0 <= j < |tt[0].sessions| && tt[0].sessions[j].room == room && p == (tt[0].time, tt[0].sessions[j].title) {
        var j :| 0 <= j < |tt[0].sessions| && tt[0].sessions[j].room == room && p == (tt[0].time, tt[0].sessions[j].title);
        assert RoomEntry(tt, room, p, 0, j);
      }
      if exists i, j :: RoomEntry(tt, room, p, i, j) {
        var i, j :| RoomEntry(tt, room, p, i, j);
        if i > 0 {
          assert RoomEntry(tt[1..], room, p, i - 1, j);
        }
      }
    }
  }

  /**
   * One slot's hits come in list order, one pair per matching session: the
   * hits of two runs of sessions are the first run's followed by the second's.
   */
  lemma {:induction false} RoomHitsAppend(time: string, a: seq<Session>, b: seq<Session>, room: string)
    ensures RoomHits(time, a + b, room) == RoomHits(time, a, room) + RoomHits(time, b, room)
  {
    if a != [] {
      assert (a + b)[0] == a[0] && (a + b)[1..] == a[1..] + b;
      RoomHitsAppend(time, a[1..], b, room);
      var head := if a[0].room == room then [(time, a[0].title)] else [];
      assert RoomHits(time, a + b, room) == head + RoomHits(time, a[1..] + b, room);
      assert RoomHits(time, a, room) == head + RoomHits(time, a[1..], room);
      assert head + (RoomHits(time, a[1..], room) + RoomHits(time, b, room)) ==
        (head + RoomHits(time, a[1..], room)) + RoomHits(time, b, room);
    } else {
      assert a + b == b;
    }
  }

  /**
   * The pairs come slot by slot in dictionary order: the pairs of two runs of
   * slots are the first run's followed by the second's.
   */
  lemma {:induction false} FilterSessionRoomAppend(a: Timetable, b: Timetable, room: string)
    ensures FilterSessionRoom(a + b, room) == FilterSessionRoom(a, room) + FilterSessionRoom(b, room)
  {
    if a != [] {
      assert (a + b)[0] == a[0] && (a + b)[1..] == a[1..] + b;
      FilterSessionRoomAppend(a[1..], b, room);
      var head := RoomHits(a[0].time, a[0].sessions, room);
      assert FilterSessionRoom(a + b, room) == head + FilterSessionRoom(a[1..] + b, room);
      assert head + (FilterSessionRoom(a[1..], room) + FilterSessionRoom(b, room)) ==
        (head + FilterSessionRoom(a[1..], room)) + FilterSessionRoom(b, room);
    } else {
      assert a + b == b;
    }
  }

  /** A single slot contributes its hits, and a single session at most one pair. */
  lemma FilterSessionRoomUnit(slot: Slot, s: Session, room: string)
    ensures FilterSessionRoom([slot], room) == RoomHits(slot.time, slot.sessions, room)
    ensures RoomHits(slot.time, [s], room) == if s.room == room then [(slot.time, s.title)] else []
  {
    assert [slot][1..] == [];
    assert [s][1..] == [];
  }

  /**
   * With distinct labels the two views agree: `(time, title)` is listed for
   * `room` exactly when `(title, room)` is listed for `time`.
   */
  lemma TimeRoomAgree(tt: Timetable, time: string, room: string, title: string)
    requires DistinctLabels(tt)
    ensures (time, title) in FilterSessionRoom(tt, room) <==> (title, room) in FilterSessionTime(tt, time)
  {
    FilterSessionRoomMembers(tt, room, (time, title));
    var r := FilterSessionTime(tt, time);
    if exists i, j :: RoomEntry(tt, room, (time, title), i, j) {
      var i, j :| RoomEntry(tt, room, (time, title), i, j);
      assert SessionsAt(tt, time) == tt[i].sessions;
      assert r[j] == (title, room);
    }
    if (title, room) in r {
      var j :| 0 <= j < |r| && r[j] == (title, room);
      assert time in Labels(tt);
      var i :| 0 <= i < |tt| && Labels(tt)[i] == time;
      assert SessionsAt(tt, time) == tt[i].sessions;
      assert RoomEntry(tt, room, (time, title), i, j);
    }
  }

  /** A slot whose label `filter_session_times` lists: it has sessions and its label does not start with `0`. */
  predicate Offered(slot: Slot) {
    slot.sessions != [] && slot.time != "" && slot.time[0] != '0'
  }

  /** `[k for k, v in sessions.items() for s in v if k[0] != '0']`, one entry per session. */
  function OfferedTimes(tt: Timetable): (ks: seq<string>)
    requires forall i :: 0 <= i < |tt| && tt[i].sessions != [] ==> tt[i].time != ""
    ensures forall k :: k in ks <==> exists i :: 0 <= i < |tt| && Offered(tt[i]) && tt[i].time == k
  {
    if tt == [] then []
    else
      var slot := tt[0];
      var rest := OfferedTimes(tt[1..]);
      assert forall i :: 1 <= i < |tt| ==> tt[i] == tt[1..][i - 1];
      var here := if slot.sessions != [] && slot.time[0] != '0' then seq(|slot.sessions|, _ => slot.time) else [];
      assert Offered(slot) ==> here[0] == slot.time;
      here + rest
  }

  /**
   * `filter_session_times`: the labels of the slots that have sessions and do
   * not start with `0`, sorted and without duplicates. A slot with sessions
   * must have a non-empty label, as `k[0]` fails on an empty one.
   */
  function FilterSessionTimes(tt: Timetable): (r: seq<string>)
    requires forall i :: 0 <= i < |tt| && tt[i].sessions != [] ==> tt[i].time != ""
    ensures StrictlySorted(r)
    ensures forall k :: k in r <==> exists i :: 0 <= i < |tt| && Offered(tt[i]) && tt[i].time == k
  {
    SortedSet(OfferedTimes(tt))
  }

  /** No other sorted, duplicate-free list has the same labels. */
  lemma FilterSessionTimesUnique(tt: Timetable, r: seq<string>)
    requires forall i :: 0 <= i < |tt| && tt[i].sessions != [] ==> tt[i].time != ""
    requires StrictlySorted(r)
    requires forall k :: k in r <==> exists i :: 0 <= i < |tt| && Offered(tt[i]) && tt[i].time == k
    ensures r == FilterSessionTimes(tt)
  {
    SortedUnique(r, FilterSessionTimes(tt));
  }

  /** Every label `filter_session_times` offers has sessions to show in `filter_session_time`. */
  lemma OfferedTimeHasSessions(tt: Timetable, time: string)
    requires forall i :: 0 <= i < |tt| && tt[i].sessions != [] ==> tt[i].time != ""
    requires DistinctLabels(tt) && time in FilterSessionTimes(tt)
    ensures FilterSessionTime(tt, time) != []
  {
    var i :| 0 <= i < |tt| && Offered(tt[i]) && tt[i].time == time;
    assert SessionsAt(tt, time) == tt[i].sessions;
  }

  /** The room filter of `filter_rooms(True)` (compared in lower case). */
  predicate Listed(room: string) {
    !Contains(Lower(room), "morgen") && !Contains(Lower(room), "ersatz")
  }

  /** `a` is `b` with some elements left out, order kept. */
  predicate Subsequence(a: seq<string>, b: seq<string>)
    decreases |b|
  {
    a == [] || (b != [] && ((a[0] == b[0] && Subsequence(a[1..], b[1..])) || Subsequence(a, b[1..])))
  }

  /** `filter_rooms(True)`: the rooms in page order, without those mentioning morgen or ersatz. */
  function ListedRooms(rooms: seq<string>): (r: seq<string>)
    ensures Subsequence(r, rooms)
    ensures forall x :: multiset(r)[x] == if Listed(x) then multiset(rooms)[x] else 0
  {
    if rooms == [] then []
    else
      var rest := ListedRooms(rooms[1..]);
      assert rooms == [rooms[0]] + rooms[1..];
      if Listed(rooms[0]) then [rooms[0]] + rest else rest
  }

  /** The rooms of one slot's sessions, in list order. */
  function RoomsOf(ss: seq<Session>): (rs: seq<string>)
    ensures forall x :: x in rs <==> exists j :: 0 <= j < |ss| && ss[j].room == x
  {
    if ss == [] then []
    else
      assert forall j :: 1 <= j < |ss| ==> ss[j] == ss[1..][j - 1];
      [ss[0].room] + RoomsOf(ss[1..])
  }

  /** `[s.room for k, v in sessions.items() for s in v]`. */
  function SessionRooms(tt: Timetable): (rs: seq<string>)
    ensures forall x :: x in rs <==> exists i, j :: 0 <= i < |tt| && 0 <= j < |tt[i].sessions| && tt[i].sessions[j].room == x
  {
    if tt == [] then []
    else
      var rest := SessionRooms(tt[1..]);
      assert forall i :: 1 <= i < |tt| ==> tt[i] == tt[1..][i - 1];
      RoomsOf(tt[0].sessions) + rest
  }

  /** `filter_rooms(all)`. */
  function FilterRooms(rooms: seq<string>, tt: Timetable, all: bool): (r: seq<string>)
    ensures all ==> r == ListedRooms(rooms)
    ensures !all ==> StrictlySorted(r)
    ensures !all ==>
      forall x :: x in r <==> exists i, j :: 0 <= i < |tt| && 0 <= j < |tt[i].sessions| && tt[i].sessions[j].room == x
  {
    if all then ListedRooms(rooms) else SortedSet(SessionRooms(tt))
  }
}
