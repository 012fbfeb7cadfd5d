/**
 * The bot's decisions, with the store's contents passed in as values: how
 * a text message is routed (`echo`), the two reply texts
 * (`return_time_result`, `return_room_result`) and which of them a button
 * press gets (`button`).
 */
module Bot {
  import opened Text
  import opened Sessions
  import opened Schedule

  /** What `echo` does with a text message. */
  datatype Command =
    | Times                        // start_times: offer the time labels
    | Rooms                        // room: offer the rooms
    | Now                          // sessions_now
    | Next                         // sessions_next
    | NotUnderstood(reply: string) // the reply sent back

  const NotUnderstoodSuffix := "? Das habe ich nicht verstanden..."

  predicate AsksTimes(m: string) {
    StartsWith(m, "t") || StartsWith(m, "z") || Contains(m, "time") || Contains(m, "zeit")
  }

  predicate AsksRooms(m: string) {
    StartsWith(m, "r") || Contains(m, "room") || Contains(m, "raum")
  }

  predicate AsksNow(m: string) {
    StartsWith(m, "j") || StartsWith(m, "no") || Contains(m, "jetzt") || Contains(m, "now")
  }

  predicate AsksNext(m: string) {
    StartsWith(m, "g") || StartsWith(m, "n") || Contains(m, "gleich") || Contains(m, "next")
  }

  /** `echo`'s routing: four tests on the lower-cased text, tried in this order. */
  function Route(text: string): (c: Command)
    ensures c.Times? <==> AsksTimes(Lower(text))
    ensures c.Rooms? <==> !AsksTimes(Lower(text)) && AsksRooms(Lower(text))
    ensures c.Now? <==> !AsksTimes(Lower(text)) && !AsksRooms(Lower(text)) && AsksNow(Lower(text))
    ensures c.Next? <==>
      !AsksTimes(Lower(text)) && !AsksRooms(Lower(text)) && !AsksNow(Lower(text)) && AsksNext(Lower(text))
    ensures c.NotUnderstood? ==> c.reply == text + NotUnderstoodSuffix
  {
    var m := Lower(text);
    if AsksTimes(m) then Times
    else if AsksRooms(m) then Rooms
    else if AsksNow(m) then Now
    else if AsksNext(m) then Next
    else NotUnderstood(text + NotUnderstoodSuffix)
  }

  /** Case does not matter to the routing; only the not-understood reply echoes the original text. */
  lemma RouteIgnoresCase(text: string)
    ensures Route(Lower(text)).NotUnderstood? <==> Route(text).NotUnderstood?
    ensures !Route(text).NotUnderstood? ==> Route(Lower(text)) == Route(text)
  {
    LowerIdempotent(text);
  }

  /** Every character of a contained text occurs in the containing one. */
  lemma MissingChar(s: string, t: string, k: nat)
    ensures Contains(s, t) && k < |t| ==> t[k] in s
  {
    if Contains(s, t) && k < |t| {
      var i := FirstFrom(s, Literal(t), 0).value;
      assert s[i + k] == Literal(t)[k].c;
    }
  }

  /** `"now"` starts with `n` as well, but the test for now comes first. */
  lemma RouteNow()
    ensures AsksNext("now") && Route("now") == Now
  {
    assert Lower("now") == "now";
    MissingChar("now", "time", 0);
    MissingChar("now", "zeit", 0);
    MissingChar("now", "room", 0);
    MissingChar("now", "raum", 0);
    assert "now"[..2] == "no";
  }

  /** `"next time"` mentions `time`, and the test for times comes first. */
  lemma RouteNextTime()
    ensures AsksNext("next time") && Route("next time") == Times
  {
    assert Lower("next time") == "next time";
    ContainsAt("next time", "time", 5);
  }

  const NoneYet := "bisher keine geplant."

  /** The reply's body lines: the given lines, or the placeholder when there are none. */
  function OrNoneYet(items: seq<string>): (ls: seq<string>)
    ensures |ls| >= 1 && (items != [] ==> ls == items)
    ensures items == [] ==> ls == [NoneYet]
  {
    if items == [] then [NoneYet] else items
  }

  /** One line per session at `time`: `in {room}: {title}`. */
  function TimeItems(tt: Timetable, time: string): (items: seq<string>)
    ensures |items| == |SessionsAt(tt, time)|
    ensures forall i :: 0 <= i < |items| ==>
      items[i] == "in " + SessionsAt(tt, time)[i].room + ": " + SessionsAt(tt, time)[i].title
  {
    var hits := FilterSessionTime(tt, time);
    seq(|hits|, i requires 0 <= i < |hits| => "in " + hits[i].1 + ": " + hits[i].0)
  }

  /** `return_time_result`. */
  function ReturnTimeResult(tt: Timetable, time: string): (reply: string)
    ensures StartsWith(reply, "Sessions um " + time + "\n")
  {
    var head, body := "Sessions um " + time + "\n", JoinLines(OrNoneYet(TimeItems(tt, time)));
    StartsWithConcat(head, body);
    head + body
  }

  /** One line per session in `room`: `um {time}: {title}`. */
  function RoomItems(tt: Timetable, room: string): (items: seq<string>)
    ensures |items| == |FilterSessionRoom(tt, room)|
    ensures forall i :: 0 <= i < |items| ==>
      items[i] == "um " + FilterSessionRoom(tt, room)[i].0 + ": " + FilterSessionRoom(tt, room)[i].1
  {
    var hits := FilterSessionRoom(tt, room);
    seq(|hits|, i requires 0 <= i < |hits| => "um " + hits[i].0 + ": " + hits[i].1)
  }

  /** The credentials of a room, keyed by the upper-cased room name. */
  type Creds = map<string, map<string, string>>

  /** `creds.get(key)` formatted with `{}`: a missing value prints as `None`. */
  function Shown(c: map<string, string>, key: string): string {
    if key in c then c[key] else "None"
  }

  /** The `Url:`/`Code:`/blank lines, present only when the room has a non-empty credentials entry. */
  function CredLines(creds: Creds, room: string): (ls: seq<string>)
    ensures |ls| == 0 || |ls| == 3
    ensures ls != [] <==> Upper(room) in creds && creds[Upper(room)] != map[]
    ensures ls != [] ==>
      ls == ["Url: " + Shown(creds[Upper(room)], "url"), "Code: " + Shown(creds[Upper(room)], "access_code"), ""]
  {
    var key := Upper(room);
    if key in creds && creds[key] != map[] then
      ["Url: " + Shown(creds[key], "url"), "Code: " + Shown(creds[key], "access_code"), ""]
    else []
  }

  /** `return_room_result`. */
  function ReturnRoomResult(tt: Timetable, creds: Creds, room: string): (reply: string)
    ensures StartsWith(reply, "Sessions in " + room)
  {
    var ls := ["Sessions in " + room] + CredLines(creds, room) + OrNoneYet(RoomItems(tt, room));
    JoinLinesStartsWith(ls);
    JoinLines(ls)
  }

  /** `button`: the room reply when the data names a room of the store, the time reply otherwise. */
  function ButtonReply(rooms: seq<string>, tt: Timetable, creds: Creds, data: string): string {
    if data in rooms then ReturnRoomResult(tt, creds, data) else ReturnTimeResult(tt, data)
  }

  lemma JoinLinesStartsWith(ls: seq<string>)
    requires ls != []
    ensures StartsWith(JoinLines(ls), ls[0])
  {
    if |ls| > 1 {
      assert JoinLines(ls) == ls[0] + ("\n" + JoinLines(ls[1..]));
    }
  }

  /** A button press gets the room reply exactly when its data is one of the store's rooms. */
  lemma ButtonChoosesReply(rooms: seq<string>, tt: Timetable, creds: Creds, data: string)
    ensures StartsWith(ButtonReply(rooms, tt, creds, data), "Sessions in ") <==> data in rooms
  {
    if data in rooms {
      RoomReplyHead(tt, creds, data);
    } else {
      TimeReplyHead(tt, data);
    }
  }

  lemma RoomReplyHead(tt: Timetable, creds: Creds, room: string)
    ensures StartsWith(ReturnRoomResult(tt, creds, room), "Sessions in ")
  {
    var ls := ["Sessions in " + room] + CredLines(creds, room) + OrNoneYet(RoomItems(tt, room));
    JoinLinesStartsWith(ls);
    StartsWithShorter(ReturnRoomResult(tt, creds, room), "Sessions in ", room);
  }

  lemma TimeReplyHead(tt: Timetable, time: string)
    ensures !StartsWith(ReturnTimeResult(tt, time), "Sessions in ")
  {
    var reply := ReturnTimeResult(tt, time);
    StartsWithConcat("Sessions um " + time + "\n", JoinLines(OrNoneYet(TimeItems(tt, time))));
    StartsWithShorter(reply, "Sessions um " + time, "\n");
    StartsWithShorter(reply, "Sessions um ", time);
    StartsWithOther(reply, "Sessions um ", "Sessions in ");
  }

  lemma StartsWithConcat(a: string, b: string)
    ensures StartsWith(a + b, a)
  {
    assert (a + b)[..|a|] == a;
  }

  lemma StartsWithShorter(s: string, a: string, b: string)
    requires StartsWith(s, a + b)
    ensures StartsWith(s, a)
  {
    assert s[..|a|] == (a + b)[..|a|];
  }

  /** A text that starts with `q` does not start with another text `p` of the same length. */
  lemma StartsWithOther(s: string, q: string, p: string)
    requires StartsWith(s, q) && |p| == |q| && p != q
    ensures !StartsWith(s, p)
  {
  }

  lemma JoinLinesCons(head: string, rest: seq<string>)
    requires rest != []
    ensures JoinLines([head] + rest) == head + "\n" + JoinLines(rest)
  {
    assert ([head] + rest)[1..] == rest;
  }

  /**
   * Read line by line, the time reply is its header followed by one line per
   * session in order, or by the placeholder line when there is none.
   */
  lemma TimeResultLines(tt: Timetable, time: string)
    requires SingleLineTexts(tt) && NoBreak(time)
    ensures SplitLines(ReturnTimeResult(tt, time)) == ["Sessions um " + time] + OrNoneYet(TimeItems(tt, time))
  {
    var header := "Sessions um " + time;
    var body := OrNoneYet(TimeItems(tt, time));
    var ls := [header] + body;
    JoinLinesCons(header, body);
    assert ReturnTimeResult(tt, time) == JoinLines(ls);
    NoBreakConcat("Sessions um ", time);
    ItemsSingleLine(tt, time);
    assert NoLineBreaks(ls) by {
      forall k | 0 <= k < |ls| ensures '\n' !in ls[k] {
        if k > 0 {
          assert ls[k] == body[k - 1];
        }
      }
    }
    SplitJoinLines(ls);
  }

  lemma ItemSingleLine(prefix: string, a: string, b: string)
    requires NoBreak(prefix) && NoBreak(a) && NoBreak(b)
    ensures NoBreak(prefix + a + ": " + b)
  {
    NoBreakConcat(prefix, a);
    NoBreakConcat(prefix + a, ": ");
    NoBreakConcat(prefix + a + ": ", b);
  }

  lemma ItemsSingleLine(tt: Timetable, time: string)
    requires SingleLineTexts(tt)
    ensures NoLineBreaks(OrNoneYet(TimeItems(tt, time)))
  {
    var ss := SessionsAt(tt, time);
    var items := TimeItems(tt, time);
    SessionsAtIsSlot(tt, time);
    if ss != [] {
      var i :| 0 <= i < |tt| && ss == tt[i].sessions;
      forall j | 0 <= j < |items| ensures NoBreak(items[j]) {
        ItemSingleLine("in ", ss[j].room, ss[j].title);
      }
    }
    assert NoBreak(NoneYet);
  }

  /** The credential values hold no line breaks. */
  predicate SingleLineCreds(creds: Creds) {
    forall key, field :: key in creds && field in creds[key] ==> NoBreak(creds[key][field])
  }

  lemma RoomItemsSingleLine(tt: Timetable, room: string)
    requires SingleLineTexts(tt)
    ensures NoLineBreaks(OrNoneYet(RoomItems(tt, room)))
  {
    var hits := FilterSessionRoom(tt, room);
    var items := RoomItems(tt, room);
    forall k | 0 <= k < |items| ensures NoBreak(items[k]) {
      FilterSessionRoomMembers(tt, room, hits[k]);
      var i, j :| RoomEntry(tt, room, hits[k], i, j);
      ItemSingleLine("um ", hits[k].0, hits[k].1);
    }
    assert NoBreak(NoneYet);
  }

  lemma CredLinesSingleLine(creds: Creds, room: string)
    requires SingleLineCreds(creds)
    ensures NoLineBreaks(CredLines(creds, room))
  {
    var key := Upper(room);
    if key in creds && creds[key] != map[] {
      var c := creds[key];
      NoBreakConcat("Url: ", Shown(c, "url"));
      NoBreakConcat("Code: ", Shown(c, "access_code"));
    }
  }

  /**
   * Read line by line, the room reply is its header, then the three
   * credential lines when the room has a credentials entry, then one line per
   * session in the room or the placeholder line.
   */
  lemma RoomResultLines(tt: Timetable, creds: Creds, room: string)
    requires SingleLineTexts(tt) && SingleLineCreds(creds) && NoBreak(room)
    ensures SplitLines(ReturnRoomResult(tt, creds, room)) ==
      ["Sessions in " + room] + CredLines(creds, room) + OrNoneYet(RoomItems(tt, room))
  {
    var header := "Sessions in " + room;
    var extra := CredLines(creds, room);
    var body := OrNoneYet(RoomItems(tt, room));
    var ls := [header] + extra + body;
    NoBreakConcat("Sessions in ", room);
    RoomItemsSingleLine(tt, room);
    CredLinesSingleLine(creds, room);
    assert NoLineBreaks(ls) by {
      forall k | 0 <= k < |ls| ensures '\n' !in ls[k] {
        if k == 0 {
          assert ls[k] == header;
        } else if k <= |extra| {
          assert ls[k] == extra[k - 1];
        } else {
          assert ls[k] == body[k - 1 - |extra|];
        }
      }
    }
    SplitJoinLines(ls);
  }
}
