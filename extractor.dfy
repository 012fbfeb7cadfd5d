/**
 * `get_rooms_and_sessions`: a three-phase scan over the lines of the page.
 * Phase 1 skips to the session table's header, phase 2 collects the room
 * names up to the first timeslot cell, phase 3 files the session lines
 * under their time labels, and each label's lines are then parsed into
 * sessions. Running out of lines in any phase gives no schedule.
 */
module Extractor {
  import opened Wrappers
  import opened Text
  import opened Sessions
  import opened Blocks
  import opened Grouping

  const Header := "sessiontable sessiontable-cols-"
  const RoomDiv := "<div class=\"room"
  const TimeslotDiv := "<div class=\"timeslot cell\">"
  const ActionsDiv := "<div class=\"sessiontable-actions\">"

  /** What the extractor returns: the room names and the sessions per time label. */
  datatype Plan = Plan(rooms: seq<string>, sessions: Timetable)

  /** Time labels are distinct and never empty. */
  predicate WellFormed(plan: Plan) {
    DistinctLabels(plan.sessions) && forall i :: 0 <= i < |plan.sessions| ==> plan.sessions[i].time != ""
  }

  /** The first line at or after `from` that contains `marker`. */
  function FirstLine(lines: seq<string>, marker: string, from: nat): (r: Option<nat>)
    decreases |lines| - from
    ensures r.Some? ==> from <= r.value < |lines| && Contains(lines[r.value], marker)
    ensures r.Some? ==> forall i :: from <= i < r.value ==> !Contains(lines[i], marker)
    ensures r.None? ==> forall i :: from <= i < |lines| ==> !Contains(lines[i], marker)
  {
    if from >= |lines| then None
    else if Contains(lines[from], marker) then Some(from)
    else FirstLine(lines, marker, from + 1)
  }

  /** Where a walk stopped and the lines it tested for a heading, in order. */
  datatype Walked = Walked(end: nat, visited: seq<string>)

  /** `visited` walked before the walk `r`. */
  function After(visited: seq<string>, r: Option<Walked>): Option<Walked> {
    match r
    case None => None
    case Some(w) => Some(Walked(w.end, visited + w.visited))
  }

  /**
   * The loop of phases 2 and 3, from the line at index `p`: it stops at a
   * line containing `stop`; a line containing `skip` is passed over and the
   * next line is tested instead, whatever it holds; every tested line is
   * visited. Advancing past the last line gives `None`.
   */
  function Walk(lines: seq<string>, p: nat, stop: string, skip: string): (r: Option<Walked>)
    requires p < |lines|
    decreases |lines| - p
    ensures r.Some? ==> p <= r.value.end < |lines| && Contains(lines[r.value.end], stop)
    ensures r.Some? ==> |r.value.visited| <= r.value.end - p
  {
    if Contains(lines[p], stop) then Some(Walked(p, []))
    else
      var q := if Contains(lines[p], skip) then p + 1 else p;
      if q + 1 >= |lines| then None
      else After([lines[q]], Walk(lines, q + 1, stop, skip))
  }

  /**
   * A skip line makes the walk test the line after it whatever it holds, so
   * a stop line right after a skip line is visited instead of ending the walk.
   */
  lemma WalkSkipHidesStop()
    ensures Walk(["h", "R", "T", "a", "T"], 0, "T", "R") == Some(Walked(4, ["h", "T", "a"]))
  {
    var lines := ["h", "R", "T", "a", "T"];
    NotContainsOther("h", "T");
    NotContainsOther("h", "R");
    NotContainsOther("R", "T");
    NotContainsOther("a", "T");
    NotContainsOther("a", "R");
    ContainsAt("R", "R", 0);
    ContainsAt("T", "T", 0);
    assert lines[0] == "h" && lines[1] == "R" && lines[2] == "T" && lines[3] == "a" && lines[4] == "T";
    assert Walk(lines, 4, "T", "R") == Some(Walked(4, []));
    WalkStep(lines, 3, 3, "T", "R");
    assert ["a"] + [] == ["a"];
    WalkStep(lines, 1, 2, "T", "R");
    assert ["T"] + ["a"] == ["T", "a"];
    WalkStep(lines, 0, 0, "T", "R");
    assert ["h"] + ["T", "a"] == ["h", "T", "a"];
  }

  /** A walk visits only lines of its input. */
  lemma {:induction false} WalkNoBreak(lines: seq<string>, p: nat, stop: string, skip: string)
    requires p < |lines| && NoLineBreaks(lines)
    decreases |lines| - p
    ensures Walk(lines, p, stop, skip).Some? ==> NoLineBreaks(Walk(lines, p, stop, skip).value.visited)
  {
    if !Contains(lines[p], stop) {
      var q := if Contains(lines[p], skip) then p + 1 else p;
      if q + 1 < |lines| {
        WalkNoBreak(lines, q + 1, stop, skip);
        var rest := Walk(lines, q + 1, stop, skip);
        if rest.Some? {
          NoLineBreaksCons(lines[q], rest.value.visited);
        }
      }
    }
  }

  /** One round of the walk's loop, from a line that is not a stop line to the line after `q`. */
  lemma WalkStep(lines: seq<string>, p: nat, q: nat, stop: string, skip: string)
    requires p < |lines| && !Contains(lines[p], stop)
    requires q == if Contains(lines[p], skip) then p + 1 else p
    requires q + 1 < |lines|
    ensures Walk(lines, p, stop, skip) == After([lines[q]], Walk(lines, q + 1, stop, skip))
  {
  }

  /** The walk from `start` is `seen` followed by the walk from `p`: the invariant of the walking loops. */
  ghost predicate Resumes(lines: seq<string>, start: nat, seen: seq<string>, p: nat, stop: string, skip: string) {
    start < |lines| && p < |lines| && Walk(lines, start, stop, skip) == After(seen, Walk(lines, p, stop, skip))
  }

  /** The loop's invariant carried over one round: `seen` grows by the visited line. */
  lemma Advance(lines: seq<string>, start: nat, p: nat, q: nat, stop: string, skip: string, seen: seq<string>)
    requires Resumes(lines, start, seen, p, stop, skip) && !Contains(lines[p], stop)
    requires q == if Contains(lines[p], skip) then p + 1 else p
    requires q + 1 < |lines|
    ensures Resumes(lines, start, seen + [lines[q]], q + 1, stop, skip)
  {
    WalkStep(lines, p, q, stop, skip);
    AfterAfter(seen, [lines[q]], Walk(lines, q + 1, stop, skip));
  }

  /** A round that runs past the last line ends the walk with `None`. */
  lemma RunsOut(lines: seq<string>, start: nat, p: nat, q: nat, stop: string, skip: string, seen: seq<string>)
    requires Resumes(lines, start, seen, p, stop, skip) && !Contains(lines[p], stop)
    requires q == if Contains(lines[p], skip) then p + 1 else p
    requires q + 1 >= |lines|
    ensures Walk(lines, start, stop, skip) == None
  {
  }

  /** Reaching a stop line ends the walk there, having visited `seen`. */
  lemma Arrives(lines: seq<string>, start: nat, p: nat, stop: string, skip: string, seen: seq<string>)
    requires Resumes(lines, start, seen, p, stop, skip) && Contains(lines[p], stop)
    ensures Walk(lines, start, stop, skip) == Some(Walked(p, seen))
  {
    assert seen + [] == seen;
  }

  lemma AfterNothing(r: Option<Walked>)
    ensures After([], r) == r
  {
    if r.Some? {
      assert [] + r.value.visited == r.value.visited;
    }
  }

  lemma AfterAfter(a: seq<string>, b: seq<string>, r: Option<Walked>)
    ensures After(a, After(b, r)) == After(a + b, r)
  {
    if r.Some? {
      assert a + (b + r.value.visited) == (a + b) + r.value.visited;
    }
  }

  /** The room names: the heading captures of the visited lines, in order. */
  function Headings(ls: seq<string>): seq<string> {
    if ls == [] then []
    else
      Headings(ls[..|ls| - 1]) +
      match Heading(ls[|ls| - 1]) case Some(c) => [c] case None => []
  }

  lemma HeadingsSnoc(ls: seq<string>, line: string)
    ensures Headings(ls + [line]) == Headings(ls) + match Heading(line) case Some(c) => [c] case None => []
  {
    assert (ls + [line])[..|ls|] == ls;
  }

  /** `{k: parse_session_raw(v) for k, v in buffers.items()}`, failing at the first failing buffer. */
  function ParseBuffers(bufs: seq<Buffer>): (r: Result<Timetable>)
    ensures r.Err? ==> r.error == MissingRoom
    ensures r.Ok? ==> |r.value| == |bufs|
  {
    if bufs == [] then Ok([]) else ParseBuffer(ParseBuffers(bufs[..|bufs| - 1]), bufs[|bufs| - 1])
  }

  function ParseBuffer(sofar: Result<Timetable>, buf: Buffer): Result<Timetable> {
    match sofar
    case Err(e) => Err(e)
    case Ok(tt) =>
      match ParseParts(Cut(buf.lines))
      case Err(e) => Err(e)
      case Ok(ss) => Ok(tt + [Slot(buf.time, ss)])
  }

  /** A parsed slot keeps its buffer's label and holds the sessions parsed from the buffer's lines. */
  lemma {:induction false} ParsedBuffer(bufs: seq<Buffer>, i: nat)
    requires ParseBuffers(bufs).Ok? && i < |bufs|
    ensures ParseBuffers(bufs).value[i].time == bufs[i].time
    ensures ParseParts(Cut(bufs[i].lines)) == Ok(ParseBuffers(bufs).value[i].sessions)
  {
    var init := bufs[..|bufs| - 1];
    if i < |init| {
      ParsedBuffer(init, i);
      assert bufs[i] == init[i];
    }
  }

  /** Parsing keeps the buffers' keys as the time labels, in the same order. */
  lemma ParsedLabels(bufs: seq<Buffer>)
    requires ParseBuffers(bufs).Ok?
    ensures Labels(ParseBuffers(bufs).value) == Keys(bufs)
    ensures Distinct(Keys(bufs)) && "" !in Keys(bufs) ==> WellFormed(Plan([], ParseBuffers(bufs).value))
  {
    var tt := ParseBuffers(bufs).value;
    forall i | 0 <= i < |bufs| ensures tt[i].time == bufs[i].time {
      ParsedBuffer(bufs, i);
    }
    assert Labels(tt) == Keys(bufs);
    if Distinct(Keys(bufs)) && "" !in Keys(bufs) {
      assert forall i :: 0 <= i < |tt| ==> tt[i].time == Keys(bufs)[i];
    }
  }

  /** The value `get_rooms_and_sessions(body)` returns or the failure it ends in. */
  function Extract(body: string): (r: Result<Plan>)
    ensures r.Ok? ==> WellFormed(r.value)
    ensures r.Err? && r.error == MissingRoom ==> FirstLine(SplitLines(body), Header, 0).Some?
  {
    var lines := SplitLines(body);
    match FirstLine(lines, Header, 0)
    case None => Err(EndOfInput)
    case Some(h) =>
      match Walk(lines, h, TimeslotDiv, RoomDiv)
      case None => Err(EndOfInput)
      case Some(rooms) =>
        match Walk(lines, rooms.end, ActionsDiv, TimeslotDiv)
        case None => Err(EndOfInput)
        case Some(slots) =>
          var bufs := Group(slots.visited).buffers;
          GroupKeysDistinct(slots.visited);
          match ParseBuffers(bufs)
          case Err(e) => Err(e)
          case Ok(tt) =>
            ParsedLabels(bufs);
            Ok(Plan(Headings(rooms.visited), tt))
  }

  lemma {:induction false} HeadingsNoBreak(ls: seq<string>)
    requires NoLineBreaks(ls)
    ensures NoLineBreaks(Headings(ls))
  {
    if ls != [] {
      var init := ls[..|ls| - 1];
      var line := ls[|ls| - 1];
      assert NoLineBreaks(init) by {
        assert forall k :: 0 <= k < |init| ==> init[k] == ls[k];
      }
      HeadingsNoBreak(init);
      SearchNoBreak(line, HeadingOpen, HeadingClose);
    }
  }

  /**
   * Every text of an extracted plan is a single line: the rooms, the time
   * labels, and the sessions' titles and rooms.
   */
  lemma ExtractSingleLine(body: string)
    ensures Extract(body).Ok? ==> NoLineBreaks(Extract(body).value.rooms)
    ensures Extract(body).Ok? ==> SingleLineTexts(Extract(body).value.sessions)
  {
    var lines := SplitLines(body);
    if Extract(body).Ok? {
      var h := FirstLine(lines, Header, 0).value;
      var rooms := Walk(lines, h, TimeslotDiv, RoomDiv).value;
      var slots := Walk(lines, rooms.end, ActionsDiv, TimeslotDiv).value;
      WalkNoBreak(lines, h, TimeslotDiv, RoomDiv);
      HeadingsNoBreak(rooms.visited);
      WalkNoBreak(lines, rooms.end, ActionsDiv, TimeslotDiv);
      var bufs := Group(slots.visited).buffers;
      GroupNoBreak(slots.visited);
      var tt := ParseBuffers(bufs).value;
      assert Extract(body).value == Plan(Headings(rooms.visited), tt);
      forall i | 0 <= i < |tt| ensures NoBreak(tt[i].time) && SingleLineSessions(tt[i].sessions) {
        ParsedBuffer(bufs, i);
        CutNoBreak(bufs[i].lines);
        ParsePartsNoBreak(Cut(bufs[i].lines));
      }
    }
  }

  /** Phase 1: the index of the header line, or `None` when the lines run out first. */
  method SkipHeader(lines: seq<string>) returns (r: Option<nat>)
    requires lines != []
    ensures r == FirstLine(lines, Header, 0)
  {
    var p := 0;
    while !Contains(lines[p], Header)
      invariant p < |lines|
      invariant FirstLine(lines, Header, 0) == FirstLine(lines, Header, p)
      decreases |lines| - p
    {
      if p + 1 >= |lines| {
        return None;
      }
      p := p + 1;
    }
    return Some(p);
  }

  /** One visited line of phase 2: the capture of its heading, if any, is the next room name. */
  method NoteRoom(rooms: seq<string>, line: string) returns (r: seq<string>)
    ensures r == rooms + match Heading(line) case Some(c) => [c] case None => []
  {
    r := rooms;
    var m := Heading(line);
    if m.Some? {
      r := r + [m.value];
    }
  }

  /** The phase-3 state after visiting `seen`: the latest label and the buffers. */
  ghost predicate Filed(seen: seq<string>, current: string, buffers: seq<Buffer>) {
    Group(seen) == GroupState(current, buffers)
  }

  /**
   * One visited line of phase 3: a heading sets the current label, and a
   * line under a label is appended to that label's buffer.
   */
  method FileLine(current: string, buffers: seq<Buffer>, line: string, ghost seen: seq<string>)
    returns (c: string, bufs: seq<Buffer>)
    requires Filed(seen, current, buffers)
    ensures Filed(seen + [line], c, bufs)
  {
    GroupSnoc(seen, line);
    c, bufs := current, buffers;
    var m := Heading(line);
    if m.Some? {
      c := m.value;
    }
    if c != "" {
      bufs := Append(bufs, c, line);
    }
  }

  /** Phase 2: the index of the first timeslot line and the room names collected on the way. */
  method CollectRooms(lines: seq<string>, h: nat) returns (r: Option<(nat, seq<string>)>)
    requires h < |lines|
    ensures r == match Walk(lines, h, TimeslotDiv, RoomDiv)
      case None => None
      case Some(w) => Some((w.end, Headings(w.visited)))
  {
    var stop, skip := TimeslotDiv, RoomDiv;
    var p := h;
    var rooms: seq<string> := [];
    ghost var seen: seq<string> := [];
    AfterNothing(Walk(lines, p, stop, skip));
    while !Contains(lines[p], stop)
      invariant p < |lines|
      invariant Resumes(lines, h, seen, p, stop, skip)
      invariant rooms == Headings(seen)
      decreases |lines| - p
    {
      var q := if Contains(lines[p], skip) then p + 1 else p;
      if q + 1 >= |lines| {
        RunsOut(lines, h, p, q, stop, skip, seen);
        return None;
      }
      HeadingsSnoc(seen, lines[q]);
      rooms := NoteRoom(rooms, lines[q]);
      Advance(lines, h, p, q, stop, skip, seen);
      seen := seen + [lines[q]];
      p := q + 1;
    }
    Arrives(lines, h, p, stop, skip, seen);
    return Some((p, rooms));
  }

  /** Phase 3: the lines filed under their time labels, in a dictionary of buffers. */
  method CollectSessionLines(lines: seq<string>, t: nat) returns (r: Option<seq<Buffer>>)
    requires t < |lines|
    ensures r == match Walk(lines, t, ActionsDiv, TimeslotDiv)
      case None => None
      case Some(w) => Some(Group(w.visited).buffers)
  {
    var stop, skip := ActionsDiv, TimeslotDiv;
    var p := t;
    var current := "";
    var buffers: seq<Buffer> := [];
    ghost var seen: seq<string> := [];
    AfterNothing(Walk(lines, p, stop, skip));
    while !Contains(lines[p], stop)
      invariant p < |lines|
      invariant Resumes(lines, t, seen, p, stop, skip)
      invariant Filed(seen, current, buffers)
      decreases |lines| - p
    {
      var q := if Contains(lines[p], skip) then p + 1 else p;
      if q + 1 >= |lines| {
        RunsOut(lines, t, p, q, stop, skip, seen);
        return None;
      }
      current, buffers := FileLine(current, buffers, lines[q], seen);
      Advance(lines, t, p, q, stop, skip, seen);
      seen := seen + [lines[q]];
      p := q + 1;
    }
    Arrives(lines, t, p, stop, skip, seen);
    return Some(buffers);
  }

  /** The closing dictionary comprehension: one `parse_session_raw` per buffer, in key order. */
  method ParseAllBuffers(buffers: seq<Buffer>) returns (r: Result<Timetable>)
    ensures r == ParseBuffers(buffers)
  {
    var sessions: Timetable := [];
    for i := 0 to |buffers|
      invariant ParseBuffers(buffers[..i]) == Ok(sessions)
    {
      ParseBuffersPrefix(buffers, i);
      var parsed := ParseSessionRaw(buffers[i].lines);
      if parsed.Err? {
        ParseBuffersErrorPersists(buffers, i + 1);
        return Err(parsed.error);
      }
      sessions := sessions + [Slot(buffers[i].time, parsed.value)];
    }
    assert buffers[..|buffers|] == buffers;
    return Ok(sessions);
  }

  /** `get_rooms_and_sessions`: the three phases over `body.split('\n')`, then the parse. */
  method GetRoomsAndSessions(body: string) returns (r: Result<Plan>)
    ensures r == Extract(body)
  {
    var lines := SplitLines(body);
    var header := SkipHeader(lines);
    if header.None? {
      return Err(EndOfInput);
    }
    var roomScan := CollectRooms(lines, header.value);
    if roomScan.None? {
      return Err(EndOfInput);
    }
    var (t, rooms) := roomScan.value;
    var buffers := CollectSessionLines(lines, t);
    if buffers.None? {
      return Err(EndOfInput);
    }
    var sessions := ParseAllBuffers(buffers.value);
    if sessions.Err? {
      return Err(sessions.error);
    }
    return Ok(Plan(rooms, sessions.value));
  }

  lemma ParseBuffersPrefix(bufs: seq<Buffer>, i: nat)
    requires i < |bufs|
    ensures ParseBuffers(bufs[..i + 1]) == ParseBuffer(ParseBuffers(bufs[..i]), bufs[i])
  {
    var init := bufs[..i];
    assert bufs[..i + 1] == init + [bufs[i]];
    assert (init + [bufs[i]])[..i] == init;
  }

  /** Once a prefix of the buffers fails to parse, the whole dictionary does, with that failure. */
  lemma {:induction false} ParseBuffersErrorPersists(bufs: seq<Buffer>, i: nat)
    requires i <= |bufs| && ParseBuffers(bufs[..i]).Err?
    ensures ParseBuffers(bufs) == ParseBuffers(bufs[..i])
    decreases |bufs| - i
  {
    if i < |bufs| {
      ParseBuffersPrefix(bufs, i);
      ParseBuffersErrorPersists(bufs, i + 1);
    } else {
      assert bufs[..i] == bufs;
    }
  }

  /** Some line contains `marker`. */
  predicate HasMarker(lines: seq<string>, marker: string) {
    exists i :: 0 <= i < |lines| && Contains(lines[i], marker)
  }

  /** Extraction gives `None` when the lines lack the header, a timeslot line or the actions line. */
  lemma ExtractNeedsMarkers(body: string)
    ensures !HasMarker(SplitLines(body), Header) ==> Extract(body) == Err(EndOfInput)
    ensures !HasMarker(SplitLines(body), TimeslotDiv) ==> Extract(body) == Err(EndOfInput)
    ensures !HasMarker(SplitLines(body), ActionsDiv) ==> Extract(body) == Err(EndOfInput)
  {
    var lines := SplitLines(body);
    match FirstLine(lines, Header, 0)
    case None =>
    case Some(h) =>
      match Walk(lines, h, TimeslotDiv, RoomDiv)
      case None =>
        assert Extract(body) == Err(EndOfInput);
      case Some(rooms) =>
        match Walk(lines, rooms.end, ActionsDiv, TimeslotDiv)
        case None =>
          assert Extract(body) == Err(EndOfInput);
        case Some(slots) =>
          assert Contains(lines[h], Header);
          assert Contains(lines[rooms.end], TimeslotDiv);
          assert Contains(lines[slots.end], ActionsDiv);
  }

  /** On success: the rooms are the phase-2 headings, the keys the phase-3 labels, each parsed from its bucket. */
  lemma ExtractOk(body: string)
    requires Extract(body).Ok?
    ensures var lines := SplitLines(body);
      var h := FirstLine(lines, Header, 0).value;
      var roomWalk := Walk(lines, h, TimeslotDiv, RoomDiv).value;
      var slotWalk := Walk(lines, roomWalk.end, ActionsDiv, TimeslotDiv).value;
      var plan := Extract(body).value;
      plan.rooms == Headings(roomWalk.visited) &&
      (forall time :: time in Labels(plan.sessions) <==> time != "" && HasHeading(slotWalk.visited, time)) &&
      (forall i :: 0 <= i < |plan.sessions| ==>
        ParseParts(Cut(Bucket(slotWalk.visited, plan.sessions[i].time))) == Ok(plan.sessions[i].sessions))
  {
    var lines := SplitLines(body);
    var h := FirstLine(lines, Header, 0).value;
    var roomWalk := Walk(lines, h, TimeslotDiv, RoomDiv).value;
    var slotWalk := Walk(lines, roomWalk.end, ActionsDiv, TimeslotDiv).value;
    var bufs := Group(slotWalk.visited).buffers;
    var tt := Extract(body).value.sessions;
    ParsedLabels(bufs);
    forall time ensures time in Keys(bufs) <==> time != "" && HasHeading(slotWalk.visited, time) {
      GroupKeys(slotWalk.visited, time);
    }
    forall i | 0 <= i < |tt| ensures ParseParts(Cut(Bucket(slotWalk.visited, tt[i].time))) == Ok(tt[i].sessions) {
      LookupEntry(bufs, i);
      ParsedBuffer(bufs, i);
      GroupBuckets(slotWalk.visited, tt[i].time);
    }
  }

  /** The lines of `ls` that do not contain `skip`. */
  function Unskipped(ls: seq<string>, skip: string): seq<string> {
    if ls == [] then [] else (if Contains(ls[0], skip) then [] else [ls[0]]) + Unskipped(ls[1..], skip)
  }

  /**
   * A regular stretch from `p` to the stop line at `t`: no stop line before
   * `t`, and each skip line is followed by a line that is neither a skip
   * line nor the stop line (as in a `room` div followed by its heading).
   */
  predicate Regular(lines: seq<string>, p: nat, t: nat, stop: string, skip: string) {
    p <= t < |lines| && Contains(lines[t], stop) &&
    forall i :: p <= i < t ==>
      (!Contains(lines[i], stop) && (Contains(lines[i], skip) ==> i + 1 < t && !Contains(lines[i + 1], skip)))
  }

  /** On a regular stretch the walk ends at its stop line and visits every line but the skip lines. */
  lemma {:induction false} WalkRegular(lines: seq<string>, p: nat, t: nat, stop: string, skip: string)
    requires Regular(lines, p, t, stop, skip)
    ensures Walk(lines, p, stop, skip) == Some(Walked(t, Unskipped(lines[p..t], skip)))
    decreases t - p
  {
    if p == t {
      assert lines[p..t] == [];
    } else if Contains(lines[p], skip) {
      WalkRegular(lines, p + 2, t, stop, skip);
      WalkStep(lines, p, p + 1, stop, skip);
      assert lines[p..t][1..] == lines[p + 1..t];
      assert lines[p + 1..t][1..] == lines[p + 2..t];
      assert Unskipped(lines[p..t], skip) == Unskipped(lines[p + 1..t], skip);
      assert Unskipped(lines[p + 1..t], skip) == [lines[p + 1]] + Unskipped(lines[p + 2..t], skip);
    } else {
      WalkRegular(lines, p + 1, t, stop, skip);
      WalkStep(lines, p, p, stop, skip);
      assert lines[p..t][1..] == lines[p + 1..t];
    }
  }

  /**
   * A page whose header line is at `h`, whose room stretch ends at the first
   * timeslot line `t` and whose session stretch ends at the actions line `e`:
   * the rooms are the headings of the room stretch, and the sessions come
   * from the session stretch without its timeslot lines.
   */
  lemma ExtractRegular(body: string, h: nat, t: nat, e: nat)
    requires var lines := SplitLines(body);
      h < |lines| && Contains(lines[h], Header) && (forall i :: 0 <= i < h ==> !Contains(lines[i], Header)) &&
      Regular(lines, h, t, TimeslotDiv, RoomDiv) && Regular(lines, t, e, ActionsDiv, TimeslotDiv)
    ensures var lines := SplitLines(body);
      Extract(body) ==
        match ParseBuffers(Group(Unskipped(lines[t..e], TimeslotDiv)).buffers)
        case Err(f) => Err(f)
        case Ok(tt) => Ok(Plan(Headings(Unskipped(lines[h..t], RoomDiv)), tt))
  {
    var lines := SplitLines(body);
    FirstLineAt(lines, Header, 0, h);
    WalkRegular(lines, h, t, TimeslotDiv, RoomDiv);
    WalkRegular(lines, t, e, ActionsDiv, TimeslotDiv);
  }

  /** The first marker line at or after `from` is found wherever it stands. */
  lemma {:induction false} FirstLineAt(lines: seq<string>, marker: string, from: nat, h: nat)
    requires from <= h < |lines| && Contains(lines[h], marker)
    requires forall i :: from <= i < h ==> !Contains(lines[i], marker)
    ensures FirstLine(lines, marker, from) == Some(h)
    decreases h - from
  {
    if from < h {
      FirstLineAt(lines, marker, from + 1, h);
    }
  }
}
