/**
 * The session blocks of one time slot: `cut_session_raw` splits the slot's
 * lines into blocks at every `sessionslot` line, and `parse_session_raw`
 * turns each block into at most one session.
 */
module Blocks {
  import opened Wrappers
  import opened Text
  import opened Sessions

  const SlotMarker := "<div class=\"sessionslot"
  const TitleOpen := "<h5>"
  const DescriptionOpen := "<div class=\"description\">"
  const RoomOpen := "<div class=\"room-description\">"
  /** `<.h5>`: a `<`, any character, then `h5>` */
  const TitleClose: Pattern := [Lit('<'), Any, Lit('h'), Lit('5'), Lit('>')]
  const DivClose: Pattern := Literal("</div>")
  /** The parser drops a session whose room contains this word (case-sensitive). */
  const Placeholder := "Morgen"

  predicate IsSlotLine(line: string) {
    Contains(line, SlotMarker)
  }

  /** The concatenation of the parts. */
  function Flatten(parts: seq<seq<string>>): seq<string> {
    if parts == [] then [] else Flatten(parts[..|parts| - 1]) + parts[|parts| - 1]
  }

  /**
   * The parts `cut_session_raw` yields: a new part starts at every line
   * holding the `sessionslot` marker, and empty parts are never yielded.
   */
  function Cut(lines: seq<string>): (parts: seq<seq<string>>)
    decreases |lines|
    ensures |parts| <= |lines|
    ensures parts == [] <==> lines == []
    ensures lines != [] ==> parts[|parts| - 1] != []
  {
    if lines == [] then []
    else
      var init := Cut(lines[..|lines| - 1]);
      var line := lines[|lines| - 1];
      if init == [] || IsSlotLine(line) then init + [[line]]
      else init[..|init| - 1] + [init[|init| - 1] + [line]]
  }

  /** `Cut` takes one more line the way the loop of `cut_session_raw` does. */
  lemma CutSnoc(lines: seq<string>, line: string)
    ensures var parts := Cut(lines);
      Cut(lines + [line]) ==
        if parts == [] || IsSlotLine(line) then parts + [[line]]
        else parts[..|parts| - 1] + [parts[|parts| - 1] + [line]]
  {
    assert (lines + [line])[..|lines|] == lines;
  }

  lemma FlattenSnoc(parts: seq<seq<string>>, part: seq<string>)
    ensures Flatten(parts + [part]) == Flatten(parts) + part
  {
    assert (parts + [part])[..|parts|] == parts;
  }

  lemma FlattenExtendLast(init: seq<seq<string>>, last: seq<string>, line: string)
    ensures Flatten(init + [last + [line]]) == Flatten(init + [last]) + [line]
  {
    FlattenSnoc(init, last);
    FlattenSnoc(init, last + [line]);
    assert Flatten(init) + (last + [line]) == (Flatten(init) + last) + [line];
  }

  /** The parts put back together are the input lines. */
  lemma {:induction false} CutFlatten(lines: seq<string>)
    ensures Flatten(Cut(lines)) == lines
  {
    if lines != [] {
      var init := lines[..|lines| - 1];
      var line := lines[|lines| - 1];
      assert lines == init + [line];
      CutFlatten(init);
      CutSnoc(init, line);
      var parts := Cut(init);
      if parts == [] || IsSlotLine(line) {
        FlattenSnoc(parts, [line]);
      } else {
        var done, current := parts[..|parts| - 1], parts[|parts| - 1];
        assert parts == done + [current];
        FlattenExtendLast(done, current, line);
      }
    }
  }

  /** The conditions `Cut` guarantees of its parts, besides covering the lines. */
  predicate WellCut(parts: seq<seq<string>>) {
    (forall i :: 0 <= i < |parts| ==> parts[i] != []) &&
    (forall i, j :: 0 <= i < |parts| && 0 < j < |parts[i]| ==> !IsSlotLine(parts[i][j])) &&
    (forall i :: 0 < i < |parts| ==> IsSlotLine(parts[i][0]))
  }

  lemma WellCutNewPart(parts: seq<seq<string>>, line: string)
    requires WellCut(parts) && (parts == [] || IsSlotLine(line))
    ensures WellCut(parts + [[line]])
  {
    var longer := parts + [[line]];
    assert forall i :: 0 <= i < |parts| ==> longer[i] == parts[i];
  }

  lemma WellCutExtendPart(parts: seq<seq<string>>, line: string)
    requires WellCut(parts) && parts != [] && !IsSlotLine(line)
    ensures WellCut(parts[..|parts| - 1] + [parts[|parts| - 1] + [line]])
  {
    var k := |parts| - 1;
    var longer := parts[..k] + [parts[k] + [line]];
    assert forall i :: 0 <= i < k ==> longer[i] == parts[i];
    assert forall j :: 0 <= j < |parts[k]| ==> longer[k][j] == parts[k][j];
  }

  /** Every part is non-empty, and a marker line can only open a part, which every part but the first does. */
  lemma {:induction false} CutWellCut(lines: seq<string>)
    ensures WellCut(Cut(lines))
  {
    if lines != [] {
      var init := lines[..|lines| - 1];
      var line := lines[|lines| - 1];
      CutWellCut(init);
      var before := Cut(init);
      if before == [] || IsSlotLine(line) {
        WellCutNewPart(before, line);
      } else {
        WellCutExtendPart(before, line);
      }
    }
  }

  /** The parts without their very last line. */
  function DropLastLine(parts: seq<seq<string>>): seq<seq<string>>
    requires parts != [] && parts[|parts| - 1] != []
  {
    var last := parts[|parts| - 1];
    if |last| == 1 then parts[..|parts| - 1]
    else parts[..|parts| - 1] + [last[..|last| - 1]]
  }

  lemma DropLastLineFlatten(parts: seq<seq<string>>)
    requires parts != [] && parts[|parts| - 1] != []
    ensures var last := parts[|parts| - 1];
      Flatten(parts) == Flatten(DropLastLine(parts)) + [last[|last| - 1]]
  {
    var n := |parts|;
    var last := parts[n - 1];
    assert Flatten(parts) == Flatten(parts[..n - 1]) + last;
    if |last| > 1 {
      FlattenSnoc(parts[..n - 1], last[..|last| - 1]);
      assert last == last[..|last| - 1] + [last[|last| - 1]];
    }
  }

  lemma DropLastLineWellCut(parts: seq<seq<string>>)
    requires parts != [] && WellCut(parts)
    ensures WellCut(DropLastLine(parts))
  {
    var shorter := DropLastLine(parts);
    forall i, j | 0 <= i < |shorter| && 0 < j < |shorter[i]| ensures !IsSlotLine(shorter[i][j]) {
      assert shorter[i][j] == parts[i][j];
    }
  }

  lemma RebuildNewPart(parts: seq<seq<string>>, line: string)
    requires parts != [] && parts[|parts| - 1] == [line]
    requires Cut(Flatten(parts[..|parts| - 1])) == parts[..|parts| - 1]
    requires |parts| > 1 ==> IsSlotLine(line)
    ensures Cut(Flatten(parts[..|parts| - 1]) + [line]) == parts
  {
    var init := parts[..|parts| - 1];
    CutSnoc(Flatten(init), line);
    assert parts == init + [[line]];
  }

  lemma RebuildExtendedPart(done: seq<seq<string>>, current: seq<string>, line: string)
    requires current != [] && !IsSlotLine(line)
    requires Cut(Flatten(done + [current])) == done + [current]
    ensures Cut(Flatten(done + [current]) + [line]) == done + [current + [line]]
  {
    CutExtendsPart(done, current, Flatten(done + [current]), line);
  }

  lemma DropLastLineRebuild(parts: seq<seq<string>>)
    requires parts != [] && parts[|parts| - 1] != []
    requires var last := parts[|parts| - 1];
      (|last| == 1 && |parts| > 1 ==> IsSlotLine(last[0])) &&
      (|last| > 1 ==> !IsSlotLine(last[|last| - 1]))
    requires Cut(Flatten(DropLastLine(parts))) == DropLastLine(parts)
    ensures var last := parts[|parts| - 1];
      Cut(Flatten(DropLastLine(parts)) + [last[|last| - 1]]) == parts
  {
    var n := |parts|;
    var last := parts[n - 1];
    var line := last[|last| - 1];
    if |last| == 1 {
      assert DropLastLine(parts) == parts[..n - 1];
      RebuildNewPart(parts, line);
    } else {
      var done := parts[..n - 1];
      var current := last[..|last| - 1];
      assert DropLastLine(parts) == done + [current];
      assert last == current + [line];
      RebuildExtendedPart(done, current, line);
      LastExtended(parts, current, line);
    }
  }

  lemma LastExtended(parts: seq<seq<string>>, current: seq<string>, line: string)
    requires parts != [] && parts[|parts| - 1] == current + [line]
    ensures parts == parts[..|parts| - 1] + [current + [line]]
  {
  }

  /** The conditions on `Cut` determine its result: no other cutting satisfies them. */
  lemma {:induction false} CutUnique(lines: seq<string>, parts: seq<seq<string>>)
    requires Flatten(parts) == lines && WellCut(parts)
    ensures parts == Cut(lines)
    decreases |lines|
  {
    if parts != [] {
      var shorter := DropLastLine(parts);
      DropLastLineFlatten(parts);
      DropLastLineWellCut(parts);
      CutUnique(Flatten(shorter), shorter);
      DropLastLineRebuild(parts);
    }
  }

  lemma CutFirstLine(line: string)
    ensures Cut([line]) == [[line]]
  {
    assert [line][..0] == [];
  }

  lemma CutStartsPart(done: seq<seq<string>>, current: seq<string>, lines: seq<string>, line: string)
    requires current != [] && done + [current] == Cut(lines) && IsSlotLine(line)
    ensures done + [current] + [[line]] == Cut(lines + [line])
  {
    CutSnoc(lines, line);
  }

  lemma CutExtendsPart(done: seq<seq<string>>, current: seq<string>, lines: seq<string>, line: string)
    requires current != [] && done + [current] == Cut(lines) && !IsSlotLine(line)
    ensures done + [current + [line]] == Cut(lines + [line])
  {
    CutSnoc(lines, line);
    var parts := done + [current];
    assert parts[..|parts| - 1] == done;
  }

  /** The parts hold only lines of the input, so no part of lines without line breaks holds one. */
  lemma {:induction false} CutNoBreak(lines: seq<string>)
    requires NoLineBreaks(lines)
    ensures forall i :: 0 <= i < |Cut(lines)| ==> NoLineBreaks(Cut(lines)[i])
  {
    if lines != [] {
      var shorter := lines[..|lines| - 1];
      var line := lines[|lines| - 1];
      var init := Cut(shorter);
      assert NoLineBreaks(shorter) by {
        assert forall k :: 0 <= k < |shorter| ==> shorter[k] == lines[k];
      }
      CutNoBreak(shorter);
      if init != [] && !IsSlotLine(line) {
        var last := init[|init| - 1] + [line];
        assert NoLineBreaks(last) by {
          assert forall k :: 0 <= k < |last| ==> last[k] == if k < |last| - 1 then init[|init| - 1][k] else line;
        }
      }
    }
  }

  /** `cut_session_raw`: walks the lines once, closing the current part at each marker line. */
  method CutSessionRaw(sessionRaw: seq<string>) returns (parts: seq<seq<string>>)
    ensures parts == Cut(sessionRaw)
  {
    parts := [];
    var currentPart: seq<string> := [];
    for i := 0 to |sessionRaw|
      invariant currentPart == [] <==> i == 0
      invariant i == 0 ==> parts == []
      invariant i > 0 ==> parts + [currentPart] == Cut(sessionRaw[..i])
    {
      var line := sessionRaw[i];
      ghost var before := sessionRaw[..i];
      assert sessionRaw[..i + 1] == before + [line];
      if IsSlotLine(line) {
        if currentPart != [] {
          CutStartsPart(parts, currentPart, before, line);
          parts := parts + [currentPart];
          currentPart := [];
        }
      } else if currentPart != [] {
        CutExtendsPart(parts, currentPart, before, line);
      }
      if i == 0 {
        assert before + [line] == [line];
        CutFirstLine(line);
      }
      assert [] + [line] == [line];
      currentPart := currentPart + [line];
    }
    assert sessionRaw[..|sessionRaw|] == sessionRaw;
    if currentPart != [] {
      parts := parts + [currentPart];
    }
  }

  /** What one block (its lines joined without separator) contributes. */
  datatype BlockOutcome =
    | Untitled                 // no `<h5>…<.h5>`: the block yields nothing
    | Roomless                 // a title but no room text: `'Morgen' in None` raises
    | Dropped(session: Session) // the room contains `Morgen`: the session is not kept
    | Kept(session: Session)

  function ParseBlock(text: string): (o: BlockOutcome)
    ensures o.Untitled? <==> SearchLazy(text, TitleOpen, TitleClose).None?
    ensures o.Roomless? <==>
      SearchLazy(text, TitleOpen, TitleClose).Some? && SearchLazy(text, RoomOpen, DivClose).None?
    ensures o.Kept? || o.Dropped? ==>
      && o.session.title == SearchLazy(text, TitleOpen, TitleClose).value
      && o.session.description == SearchLazy(text, DescriptionOpen, DivClose)
      && SearchLazy(text, RoomOpen, DivClose).Some?
      && o.session.room == NormaliseRoom(SearchLazy(text, RoomOpen, DivClose).value)
    ensures o.Kept? ==> !Contains(o.session.room, Placeholder)
    ensures o.Dropped? ==> Contains(o.session.room, Placeholder)
  {
    match SearchLazy(text, TitleOpen, TitleClose)
    case None => Untitled
    case Some(title) =>
      match SearchLazy(text, RoomOpen, DivClose)
      case None => Roomless
      case Some(room) =>
        var s := Session(title, SearchLazy(text, DescriptionOpen, DivClose), NormaliseRoom(room));
        if Contains(s.room, Placeholder) then Dropped(s) else Kept(s)
  }

  /** The sessions `parse_session_raw` returns for these parts, or the error it raises. */
  function ParseParts(parts: seq<seq<string>>): (r: Result<seq<Session>>)
    ensures r.Err? ==> r.error == MissingRoom
    ensures r.Ok? ==> |r.value| <= |parts|
    ensures r.Ok? ==> forall i :: 0 <= i < |r.value| ==> !Contains(r.value[i].room, Placeholder)
  {
    if parts == [] then Ok([]) else ParseStep(ParseParts(parts[..|parts| - 1]), parts[|parts| - 1])
  }

  /** One more part on top of the sessions parsed so far. */
  function ParseStep(sofar: Result<seq<Session>>, part: seq<string>): Result<seq<Session>> {
    match sofar
    case Err(e) => Err(e)
    case Ok(sessions) =>
      match ParseBlock(Concat(part))
      case Roomless => Err(MissingRoom)
      case Kept(s) => Ok(sessions + [s])
      case _ => Ok(sessions)
  }

  /**
   * Each part is joined with `''` before it is searched, so parts without
   * line breaks give titles and rooms without line breaks.
   */
  lemma {:induction false} ParsePartsNoBreak(parts: seq<seq<string>>)
    requires forall i :: 0 <= i < |parts| ==> NoLineBreaks(parts[i])
    ensures ParseParts(parts).Ok? ==> SingleLineSessions(ParseParts(parts).value)
  {
    if parts != [] {
      var init := parts[..|parts| - 1];
      var part := parts[|parts| - 1];
      ParsePartsNoBreak(init);
      var text := Concat(part);
      ConcatNoBreak(part);
      SearchNoBreak(text, TitleOpen, TitleClose);
      SearchNoBreak(text, RoomOpen, DivClose);
      var room := SearchLazy(text, RoomOpen, DivClose);
      if room.Some? {
        var normal := NormaliseRoom(room.value);
        SliceNoBreak(room.value, |room.value| - |normal|, |room.value|);
      }
    }
  }

  lemma ParseSnoc(parts: seq<seq<string>>, part: seq<string>)
    ensures ParseParts(parts + [part]) == ParseStep(ParseParts(parts), part)
  {
    assert (parts + [part])[..|parts|] == parts;
  }

  /** Both results in sequence: an error in either is an error of the whole. */
  function AndThen(a: Result<seq<Session>>, b: Result<seq<Session>>): Result<seq<Session>> {
    if a.Err? then a else if b.Err? then b else Ok(a.value + b.value)
  }

  lemma StepAndThen(a: Result<seq<Session>>, b: Result<seq<Session>>, part: seq<string>)
    ensures ParseStep(AndThen(a, b), part) == AndThen(a, ParseStep(b, part))
  {
    if a.Ok? && b.Ok? {
      match ParseBlock(Concat(part))
      case Kept(s) =>
        assert (a.value + b.value) + [s] == a.value + (b.value + [s]);
      case _ =>
    }
  }

  /** Parsing is part by part: the sessions of earlier parts come first. */
  lemma {:induction false} ParsePartsAppend(ps: seq<seq<string>>, qs: seq<seq<string>>)
    ensures ParseParts(ps + qs) == AndThen(ParseParts(ps), ParseParts(qs))
    decreases |qs|
  {
    if qs == [] {
      assert ps + qs == ps;
      var r := ParseParts(ps);
      assert r.Ok? ==> r.value + [] == r.value;
    } else {
      var n := |qs|;
      var init, last := qs[..n - 1], qs[n - 1];
      ParsePartsAppend(ps, init);
      assert ps + qs == (ps + init) + [last];
      ParseSnoc(ps + init, last);
      assert qs == init + [last];
      ParseSnoc(init, last);
      StepAndThen(ParseParts(ps), ParseParts(init), last);
    }
  }

  lemma ParsePrefix(parts: seq<seq<string>>, i: nat)
    requires i < |parts|
    ensures ParseParts(parts[..i + 1]) == ParseStep(ParseParts(parts[..i]), parts[i])
  {
    var init := parts[..i];
    assert parts[..i + 1] == init + [parts[i]];
    ParseSnoc(init, parts[i]);
  }

  /** Once a prefix of the parts fails to parse, so do all the parts. */
  lemma ParseErrorPersists(parts: seq<seq<string>>, i: nat)
    requires i <= |parts| && ParseParts(parts[..i]).Err?
    ensures ParseParts(parts) == Err(MissingRoom)
  {
    ParsePartsAppend(parts[..i], parts[i..]);
    assert parts[..i] + parts[i..] == parts;
  }

  /** Parsing fails exactly when some titled part has no room text. */
  lemma {:induction false} ParsePartsOk(parts: seq<seq<string>>)
    ensures ParseParts(parts).Ok? <==> forall i :: 0 <= i < |parts| ==> !ParseBlock(Concat(parts[i])).Roomless?
  {
    if parts != [] {
      var n := |parts|;
      ParsePartsOk(parts[..n - 1]);
      assert parts == parts[..n - 1] + [parts[n - 1]];
      ParseSnoc(parts[..n - 1], parts[n - 1]);
    }
  }

  /** A part without a title contributes no session, wherever it stands. */
  lemma UntitledPartAddsNothing(ps: seq<seq<string>>, part: seq<string>, qs: seq<seq<string>>)
    requires ParseBlock(Concat(part)).Untitled?
    ensures ParseParts(ps + [part] + qs) == ParseParts(ps + qs)
  {
    ParsePartsAppend(ps + [part], qs);
    ParsePartsAppend(ps, [part]);
    ParsePartsAppend(ps, qs);
    assert [part][..0] == [];
  }

  /**
   * The body of the loop of `parse_session_raw` for one block: a `PyCSession`
   * built from the title, then given its description and, through the
   * setter, its room.
   */
  method ParseJoinedBlock(line: string) returns (o: BlockOutcome)
    ensures o == ParseBlock(line)
  {
    var title := SearchLazy(line, TitleOpen, TitleClose);
    if title.None? {
      return Untitled;
    }
    var current := new PyCSession(title.value, None, None);
    var description := SearchLazy(line, DescriptionOpen, DivClose);
    if description.Some? {
      current.description := description;
    }
    var room := SearchLazy(line, RoomOpen, DivClose);
    if room.Some? {
      current.SetRoom(room.value);
    }
    if current.room.None? {
      return Roomless;
    }
    var session := Session(current.title, current.description, current.room.value);
    BlockOfSession(line, session);
    if Contains(session.room, Placeholder) {
      return Dropped(session);
    }
    return Kept(session);
  }

  /** The block's fields found, the outcome depends only on the room text. */
  lemma BlockOfSession(text: string, s: Session)
    requires SearchLazy(text, TitleOpen, TitleClose) == Some(s.title)
    requires SearchLazy(text, DescriptionOpen, DivClose) == s.description
    requires SearchLazy(text, RoomOpen, DivClose).Some?
    requires s.room == NormaliseRoom(SearchLazy(text, RoomOpen, DivClose).value)
    ensures ParseBlock(text) == if Contains(s.room, Placeholder) then Dropped(s) else Kept(s)
  {
  }

  /** `parse_session_raw`: cuts the lines into blocks and parses each joined block in turn. */
  method ParseSessionRaw(sessionRaw: seq<string>) returns (r: Result<seq<Session>>)
    ensures r == ParseParts(Cut(sessionRaw))
  {
    var parts := CutSessionRaw(sessionRaw);
    var sessions: seq<Session> := [];
    for i := 0 to |parts|
      invariant ParseParts(parts[..i]) == Ok(sessions)
    {
      ParsePrefix(parts, i);
      var outcome := ParseJoinedBlock(Concat(parts[i]));
      if outcome.Roomless? {
        ParseErrorPersists(parts, i + 1);
        return Err(MissingRoom);
      }
      if outcome.Kept? {
        sessions := sessions + [outcome.session];
      }
    }
    assert parts[..|parts|] == parts;
    return Ok(sessions);
  }
}
