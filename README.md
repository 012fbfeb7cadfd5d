# PythonCamp 2018 Telegram bot: schedule extraction and replies

This project models the core of a Telegram bot for a barcamp. The bot
reads the session table of a barcamp page and answers questions about
the schedule:

- which sessions run at a given time label;
- which sessions are held in a given room;
- which time labels and rooms can be offered as buttons.

The model covers two source files.

`src/quick_parse_sessions.py`:

- `get_rooms_and_sessions` is a three-phase scan over the page's lines:
  - phase 1 skips to the session table header;
  - phase 2 collects the `<h3>` room names up to the first timeslot cell;
  - phase 3 files every visited line under the latest `<h3>` time label
    in a `defaultdict(list)`, up to the actions div.
- Each label's lines are cut into session blocks by `cut_session_raw`
  and parsed by `parse_session_raw` into `PyCSession` records.
- A record's `room` setter drops the first six characters of a value
  that starts with `Room:`: the prefix and the character after it.
- The store class `PyCamp` keeps the room list and the timetable. It
  answers the filter queries and replaces its contents on `update` only
  when the new timetable is not empty.

`src/pyc2018_bot.py`:

- `echo` routes a text message by tests on its lower-cased text.
- `return_time_result` and `return_room_result` build the reply texts.
- `button` picks one of the two replies.

How Python is modelled:

- Python dictionaries keep insertion order, so the timetable and the
  buffer dictionary are association lists. A new key goes last.
- `re.search` with `(.*?)` and `(.*)` is a leftmost search. `Text`
  proves that each search function agrees with a declarative notion of
  a match. The model's `.` also matches a line break, while Python's
  does not; the two agree because every subject searched is a split
  line or a `''` join of split lines, so it holds no line break.
- `str.split('\n')`, `'\n'.join`, `in`, `startswith`, `lower`, `upper`
  and Python's `<` on strings are written out.
- A scan that runs out of lines returns `None`; the model calls this
  failure `EndOfInput`.
- A titled block without room text makes `'Morgen' in None` raise a
  `TypeError`; the model calls this failure `MissingRoom`.
- When a phase runs out of lines, everything it collected is discarded.
  The loop methods therefore test for the end of input before visiting
  a line. This gives the same result as visiting the line first.

Modules:

- `Wrappers`: `Option`, `Result`, and the two failures.
- `Text`: string operations.
- `Ordering`: Python string order and `sorted(set(...))`.
- `Sessions`: `Session` and `Slot` values, and the `PyCSession` class.
- `Blocks`: `cut_session_raw` and `parse_session_raw`.
- `Grouping`: the phase-3 buffer dictionary.
- `Extractor`: `get_rooms_and_sessions`.
- `Schedule`: the `PyCamp` queries.
- `Camp`: the `PyCamp` class and its `update`.
- `Bot`: routing and replies.

## Model

| member | source | states |
|---|---|---|
| Sessions.NormaliseRoom | src/quick_parse_sessions.py:31-36 | The value is kept exactly when it does not start with `Room:`. Otherwise the result is the value without its first six characters (empty if it is shorter). The result is always a suffix of the value. |
| Sessions.PyCSession.constructor | src/quick_parse_sessions.py:22-25 | Stores title, description and room as given, without going through the setter. |
| Sessions.PyCSession.SetRoom | src/quick_parse_sessions.py:31-36 | The room becomes the normalised value. Title and description do not change. |
| Text.SearchLazyIsLeftmostShortest | src/quick_parse_sessions.py:89-97 | On a line without line breaks, `(.*?)` finds nothing exactly when there is no match. Otherwise it captures the match with the leftmost start and, for that start, the shortest capture. |
| Text.SearchGreedyIsLeftmostLongest | src/quick_parse_sessions.py:121 | On a line without line breaks, `(.*)` finds nothing exactly when there is no match. Otherwise it captures the match with the leftmost start and the longest capture. |
| Text.SearchLazy | src/quick_parse_sessions.py:89-97 | The lazy `re.search` capture. `Text.SearchLazyIsLeftmostShortest` states what it finds on a subject without line breaks. |
| Text.SearchGreedy | src/quick_parse_sessions.py:121 | The greedy `re.search` capture. `Text.SearchGreedyIsLeftmostLongest` states what it finds on a subject without line breaks. |
| Text.SearchNoBreak | src/quick_parse_sessions.py:89-97 | A capture of either search is a slice of its subject, so a subject without line breaks gives a capture without line breaks. |
| Text.Contains | src/quick_parse_sessions.py:98 | Python's `t in s` on strings, the test behind every marker line and the `Morgen` test. `Text.ContainsIff` gives its meaning. |
| Text.ContainsIff | src/quick_parse_sessions.py:98 | `t in s` holds exactly when `t` occurs in `s` at some position. |
| Text.StartsWith | src/quick_parse_sessions.py:33 | `s.startswith(t)`: `s` begins with `t`, character for character. |
| Text.Concat | src/quick_parse_sessions.py:88 | `''.join(part)`: the lines one after another. `Text.ConcatNoBreak` shows that lines without line breaks give a text without line breaks. |
| Text.JoinLines | src/pyc2018_bot.py:173 | `'\n'.join(lines)`. `Text.JoinSplitLines` and `Text.SplitJoinLines` show it is the inverse of `split('\n')`. |
| Text.SplitLines | src/quick_parse_sessions.py:104-105 | `body.split('\n')` always has a first piece, so the first `next(lines)` never raises. No piece holds a line break. |
| Text.JoinSplitLines | src/quick_parse_sessions.py:104 | `'\n'.join(s.split('\n')) == s`. |
| Text.SplitJoinLines | src/pyc2018_bot.py:173 | Splitting the join of a non-empty list of lines without line breaks gives the lines back. |
| Text.LowerIdempotent | src/pyc2018_bot.py:78 | Lower-casing twice is lower-casing once. |
| Text.Lower | src/pyc2018_bot.py:78 | Lower-casing keeps the length, character by character. |
| Text.Upper | src/pyc2018_bot.py:166 | Upper-casing never shortens the text (`ß` becomes `SS`). |
| Text.UpperIdempotent | src/pyc2018_bot.py:166 | Upper-casing twice is upper-casing once, so an upper-cased room name is its own credentials key. |
| Ordering.Less | src/quick_parse_sessions.py:55 | Python's `<` on `str`, which `sorted` uses. `Ordering.LessIrreflexive`, `Ordering.LessTransitive` and `Ordering.LessTotal` show it is a strict total order. |
| Ordering.SortedSet | src/quick_parse_sessions.py:55 | `sorted(set(xs))`: the result is strictly increasing in Python string order and holds exactly the elements of `xs`. |
| Ordering.SortedUnique | src/quick_parse_sessions.py:55 | Two strictly sorted lists with the same elements are equal, so the result of `sorted(set(...))` is the only such list. |
| Blocks.Cut | src/quick_parse_sessions.py:72-81 | There are no more parts than lines. There are no parts exactly when there are no lines. The last part is never empty. |
| Blocks.CutFlatten | src/quick_parse_sessions.py:72-81 | The parts, concatenated, are the input lines: no line is lost, duplicated or reordered. |
| Blocks.CutWellCut | src/quick_parse_sessions.py:72-81 | Every part is non-empty. A `sessionslot` line only ever opens a part, and every part but the first opens with one. |
| Blocks.CutUnique | src/quick_parse_sessions.py:72-81 | Any non-empty parts that concatenate to the lines and satisfy those cut conditions are exactly the parts the generator yields. |
| Blocks.CutSessionRaw | src/quick_parse_sessions.py:72-81 | The generator's loop, with `current_part` as a growing list, yields `Cut(lines)`. |
| Blocks.CutNoBreak | src/quick_parse_sessions.py:72-81 | The parts hold only input lines, so lines without line breaks give parts without line breaks. |
| Blocks.ParseBlock | src/quick_parse_sessions.py:88-99 | A block is untitled exactly when the `<h5>` search fails. It is roomless exactly when it has a title but no room text. A kept or dropped block has the searched title, description and normalised room. Kept rooms do not contain `Morgen`; dropped rooms do. |
| Blocks.ParseJoinedBlock | src/quick_parse_sessions.py:88-99 | The loop body builds a `PyCSession` and sets its room through the setter. Its outcome is `ParseBlock` of the joined block. |
| Blocks.ParseParts | src/quick_parse_sessions.py:84-100 | The only failure is `MissingRoom`. On success there is at most one session per part, and no session's room contains `Morgen`. |
| Blocks.ParsePartsAppend | src/quick_parse_sessions.py:86-99 | Parsing works part by part. The sessions of earlier parts come first, and a failure anywhere fails the whole. |
| Blocks.ParseErrorPersists | src/quick_parse_sessions.py:98 | Once a prefix of the parts raises, the whole call raises `MissingRoom`. |
| Blocks.ParsePartsOk | src/quick_parse_sessions.py:95-99 | Parsing succeeds exactly when no part has a title but no room text. |
| Blocks.UntitledPartAddsNothing | src/quick_parse_sessions.py:90-91 | A part without `<h5>` heading contributes nothing, wherever it stands. |
| Blocks.ParseSessionRaw | src/quick_parse_sessions.py:84-100 | The loop returns `ParseParts(Cut(lines))`, including the `MissingRoom` failure. |
| Blocks.ParsePartsNoBreak | src/quick_parse_sessions.py:87-97 | Each part is joined with `''` before it is searched, so parts without line breaks give titles and rooms without line breaks. |
| Grouping.Append | src/quick_parse_sessions.py:139 | The key order is kept, and a new key is added last. Looking up the appended key gives its old lines plus the new line. Every other key is unchanged. |
| Grouping.Heading | src/quick_parse_sessions.py:121 | The greedy `<h3>(.*)<.h3>` capture of a line, used by phases 2 and 3. `Text.SearchGreedyIsLeftmostLongest` gives its meaning. |
| Grouping.Step | src/quick_parse_sessions.py:134-142 | One pass of the phase-3 loop body: a heading replaces the current label, and a non-empty label receives the line. What a run of steps builds is stated by `Grouping.GroupCurrent`, `Grouping.GroupBuckets` and `Grouping.GroupKeys`. |
| Grouping.Group | src/quick_parse_sessions.py:131-142 | The label and buffers after visiting lines in order, starting from `None` and an empty dictionary. `Grouping.GroupKeysDistinct` shows its keys are distinct and non-empty. |
| Grouping.GroupNoBreak | src/quick_parse_sessions.py:134-142 | Lines without line breaks are filed under labels without line breaks, and every buffer holds only such lines. |
| Grouping.LookupEntry | src/quick_parse_sessions.py:145 | With distinct keys, looking up an entry's key finds that entry's lines. |
| Grouping.GroupKeysDistinct | src/quick_parse_sessions.py:131-142 | The buffer dictionary's keys are distinct and never empty (a falsy label receives no lines). |
| Grouping.GroupCurrent | src/quick_parse_sessions.py:134-137 | `current_session` is always the capture of the latest heading visited, or empty before the first. |
| Grouping.GroupBuckets | src/quick_parse_sessions.py:139-142 | Each label's buffer holds exactly the visited lines whose latest heading has that label, in visiting order. |
| Grouping.GroupKeys | src/quick_parse_sessions.py:139-142 | A label is a key exactly when it is non-empty and some visited line is a heading with that capture. |
| Extractor.FirstLine | src/quick_parse_sessions.py:110-114 | The result is the first index at or after `from` whose line contains the marker. `None` means no such line exists. |
| Extractor.FirstLineAt | src/quick_parse_sessions.py:110-114 | A marker line with no marker line before it is the one phase 1 stops at. |
| Extractor.Walk | src/quick_parse_sessions.py:117-143 | A walk that succeeds ends at a line holding the stop marker, at or after its start. It visits no more lines than it passes. |
| Extractor.WalkSkipHidesStop | src/quick_parse_sessions.py:130-143 | After a skip line, the next line is visited whatever it holds: on `h, R, T, a, T` with stop `T` and skip `R`, the walk ends at the last line and visits `h`, `T`, `a`. |
| Extractor.WalkRegular | src/quick_parse_sessions.py:117-143 | On a stretch with no early stop line, where every skip line is followed by an ordinary line, the walk ends at the stop line. It visits every line of the stretch except the skip lines. |
| Extractor.WalkNoBreak | src/quick_parse_sessions.py:117-143 | A walk visits only input lines, so a walk over lines without line breaks visits only such lines. |
| Extractor.Headings | src/quick_parse_sessions.py:121-123 | The heading captures of the visited lines, in order. `Extractor.NoteRoom` and `Extractor.CollectRooms` are proved against it. |
| Extractor.SkipHeader | src/quick_parse_sessions.py:110-114 | The phase-1 loop returns `FirstLine(lines, Header, 0)`. |
| Extractor.NoteRoom | src/quick_parse_sessions.py:121-123 | The heading's capture, if any, is appended to the rooms. |
| Extractor.CollectRooms | src/quick_parse_sessions.py:117-126 | The phase-2 loop returns `None` exactly when the walk runs out. Otherwise it returns the stop index and the headings of the visited lines, in order. |
| Extractor.FileLine | src/quick_parse_sessions.py:134-142 | One phase-3 step keeps the buffers equal to `Group` of the lines visited so far. |
| Extractor.CollectSessionLines | src/quick_parse_sessions.py:129-143 | The phase-3 loop returns `None` exactly when the walk runs out. Otherwise it returns `Group` of the visited lines. |
| Extractor.ParseBuffers | src/quick_parse_sessions.py:145 | The comprehension fails only with `MissingRoom`. On success there is one slot per buffer. |
| Extractor.ParsedBuffer | src/quick_parse_sessions.py:145 | Slot `i` carries buffer `i`'s label and the sessions `parse_session_raw` returns for buffer `i`'s lines. |
| Extractor.ParsedLabels | src/quick_parse_sessions.py:145 | The timetable's labels are the dictionary's keys, in order. Distinct non-empty keys give a well-formed timetable. |
| Extractor.ParseBuffersErrorPersists | src/quick_parse_sessions.py:145 | A buffer that fails to parse fails the whole comprehension. |
| Extractor.ParseAllBuffers | src/quick_parse_sessions.py:145 | The loop over the buffers returns `ParseBuffers(buffers)`. |
| Extractor.Extract | src/quick_parse_sessions.py:103-145 | A successful result has distinct, non-empty time labels. A `MissingRoom` failure implies that the header line was found. |
| Extractor.GetRoomsAndSessions | src/quick_parse_sessions.py:103-145 | The composed phases return `Extract(body)`. |
| Extractor.ExtractNeedsMarkers | src/quick_parse_sessions.py:110-143 | A page without a header line, a timeslot line or an actions line gives `None`. |
| Extractor.ExtractOk | src/quick_parse_sessions.py:103-145 | On success: the rooms are the headings of the phase-2 lines. A label has a slot exactly when it is non-empty and heads a phase-3 line. Each slot's sessions are parsed from that label's bucket. |
| Extractor.ExtractRegular | src/quick_parse_sessions.py:103-145 | On a regular page, the rooms are the headings of the room stretch without its `room` div lines. The sessions are parsed from the session stretch grouped without its timeslot lines. |
| Extractor.ExtractSingleLine | src/quick_parse_sessions.py:103-145 | On success, the rooms, the time labels and the sessions' titles and rooms hold no line breaks. This is what the line-by-line reading of the replies requires. |
| Schedule.SessionsAt | src/quick_parse_sessions.py:49 | `self.sessions.get(timestring, dict())`: empty for an unknown label, and the first slot's sessions for a known one. The empty-`dict` default iterates like an empty list, and the `if v` filter keeps every record, so neither changes the result. |
| Schedule.SessionsAtIsSlot | src/quick_parse_sessions.py:49 | The result is empty or the sessions of a slot with that label. |
| Schedule.FilterSessionTime | src/quick_parse_sessions.py:48-49 | One `(title, room)` pair per session at the label, in list order. |
| Schedule.FilterSessionRoom | src/quick_parse_sessions.py:51-52 | The `(time, title)` pairs of the sessions held in exactly the room. Its order and multiplicity follow from `Schedule.FilterSessionRoomAppend` and `Schedule.FilterSessionRoomUnit`. |
| Schedule.RoomHitsAppend | src/quick_parse_sessions.py:52 | Within one slot, the pairs follow the session list: the pairs of two runs of sessions are the first run's followed by the second's. |
| Schedule.FilterSessionRoomAppend | src/quick_parse_sessions.py:52 | The pairs follow the dictionary's order: the pairs of two runs of slots are the first run's followed by the second's. |
| Schedule.FilterSessionRoomUnit | src/quick_parse_sessions.py:52 | A single slot contributes its own pairs. A single session contributes exactly one pair when it is held in the room, and none otherwise. |
| Schedule.FilterSessionRoomMembers | src/quick_parse_sessions.py:51-52 | A `(time, title)` pair is listed exactly when some session in a slot with that label is held in exactly that room. |
| Schedule.TimeRoomAgree | src/quick_parse_sessions.py:48-52 | With distinct labels, `(time, title)` is listed for a room exactly when `(title, room)` is listed for that time. |
| Schedule.OfferedTimes | src/quick_parse_sessions.py:55 | A label occurs exactly when some slot with that label has sessions and a label not starting with `0`. |
| Schedule.FilterSessionTimes | src/quick_parse_sessions.py:54-55 | Strictly sorted, and a label is listed exactly when some slot with that label has sessions and its label does not start with `0`. |
| Schedule.FilterSessionTimesUnique | src/quick_parse_sessions.py:54-55 | Any strictly sorted list with those members is the query's result. |
| Schedule.OfferedTimeHasSessions | src/quick_parse_sessions.py:48-55 | Every label offered has at least one session to show. |
| Schedule.ListedRooms | src/quick_parse_sessions.py:59-61 | The rooms in page order without those whose lower-cased name contains `morgen` or `ersatz`. Each kept room keeps its multiplicity. |
| Schedule.SessionRooms | src/quick_parse_sessions.py:63 | A room occurs exactly when some session is held in it. |
| Schedule.FilterRooms | src/quick_parse_sessions.py:57-63 | With `all`, the listed page rooms. Otherwise the strictly sorted set of the sessions' rooms. |
| Camp.PyCamp.constructor | src/quick_parse_sessions.py:44-46 | The store starts with the fetched plan's rooms and sessions. |
| Camp.PyCamp.Update | src/quick_parse_sessions.py:65-69 | Both fields take the fetched values exactly when the fetched timetable is non-empty; otherwise neither changes. Well-formedness is preserved. |
| Camp.PyCamp.Refresh | src/quick_parse_sessions.py:65-69 | Extracts the page and returns its failure, if any. On a failure or an empty timetable the store is unchanged; otherwise both fields are replaced. Well-formedness is preserved. |
| Bot.Route | src/pyc2018_bot.py:78-109 | The four tests on the lower-cased text are tried in order: times, rooms, now, next. Each command is chosen exactly when its test passes and no earlier one does. The not-understood reply is the original text plus the fixed suffix. |
| Bot.RouteIgnoresCase | src/pyc2018_bot.py:78 | The lower-cased text routes the same way as the text itself. |
| Bot.RouteNow | src/pyc2018_bot.py:96-105 | `now` also passes the next test, but routes to now. |
| Bot.RouteNextTime | src/pyc2018_bot.py:81-105 | `next time` passes the next test, but routes to the times. |
| Bot.OrNoneYet | src/pyc2018_bot.py:155-156 | The items when there are any; otherwise the single line `bisher keine geplant.`. |
| Bot.TimeItems | src/pyc2018_bot.py:152-154 | One `in {room}: {title}` line per session at the label, in order. |
| Bot.RoomItems | src/pyc2018_bot.py:161 | One `um {time}: {title}` line per pair of `filter_session_room`, in order. |
| Bot.CredLines | src/pyc2018_bot.py:166-170 | Exactly when the upper-cased room has a non-empty credentials entry, the three lines `Url: {url}`, `Code: {access_code}` and an empty line; otherwise none. |
| Bot.Shown | src/pyc2018_bot.py:167-168 | `creds.get(key)` formatted with `{}`: the value when the field is present, and `None` when it is missing. |
| Bot.ReturnTimeResult | src/pyc2018_bot.py:150-157 | The time reply starts with its `Sessions um {time}` line. |
| Bot.ReturnRoomResult | src/pyc2018_bot.py:160-173 | The room reply starts with `Sessions in {room}`. |
| Bot.ButtonReply | src/pyc2018_bot.py:176-186 | The room reply when the data is one of the store's rooms, and the time reply otherwise. `Bot.ButtonChoosesReply` shows the two can be told apart by their heading. |
| Bot.TimeResultLines | src/pyc2018_bot.py:150-157 | Read line by line, the time reply is its header followed by the session lines, or by the placeholder line when there are none. A timetable from `Extractor.Extract` meets its requirement (`Extractor.ExtractSingleLine`). |
| Bot.RoomResultLines | src/pyc2018_bot.py:160-173 | Read line by line, the room reply has three parts in order: its header; the credential lines, when present; then the session lines or the placeholder. A plan from `Extractor.Extract` meets its requirements on the timetable and the room (`Extractor.ExtractSingleLine`). |
| Bot.RoomReplyHead | src/pyc2018_bot.py:165-173 | The room reply starts with `Sessions in `. |
| Bot.TimeReplyHead | src/pyc2018_bot.py:157 | The time reply never starts with `Sessions in `. |
| Bot.ButtonChoosesReply | src/pyc2018_bot.py:176-182 | A button press gets the room reply exactly when its data is one of the store's rooms. |

## Left out

- Fetching the page over HTTP or reading it from a file (`get_sessionplan_from_url`, `get_sessionplan_from_file`) is not modelled. `Camp.PyCamp.constructor` takes the extracted plan, and `Camp.PyCamp.Refresh` takes the page's text.
- `random_advice` calls a web service and is not modelled.
- `PyCSession.__repr__` and the module's `__main__` block only print, so they are not modelled.
- The credentials store `pyc.access_creds` and the now/next resolver `pyc.get_now_and_next` are not defined in `src/quick_parse_sessions.py`, so they are not part of this model. The credentials are a map parameter (`Bot.Creds`).
- The Telegram handlers are left out because they send messages: `start`, `help`, `alarm`, `error`, `main` and its polling loop, `sessions_now` and `sessions_next`.
- The `room` and `start_times` keyboards are not modelled as such. Their button lists are the filters of `Schedule.ListedRooms` and `Schedule.FilterSessionTimes`.
- `echo`'s bookkeeping of chats in `mybots` and the logging calls are not modelled.
- `Text.Lower` and `Text.Upper` map ASCII and Latin-1 letters only. Python's full Unicode case mapping is not modelled.
- Parsed sessions are values, so object identity and aliasing between `PyCSession` objects are not modelled.
- Schedule.FilterSessionTimes: requires every slot with sessions to have a non-empty label. The source raises `IndexError` on `k[0]` otherwise. Timetables built by `Extractor.Extract` always meet this requirement.
- Extractor.CollectRooms: tests for the end of input before visiting a line, while the source visits the line first. On running out, the source discards the collected rooms, so the result is the same.
- Extractor.CollectSessionLines: tests for the end of input before visiting a line, for the same reason as `Extractor.CollectRooms`.

Notes on the source's behaviour (the model follows it):

- `filter_session_room` has no filter on title length.
- The `room` setter does not reset any URL or access-code fields; the class has none.
- `parse_session_raw` drops only rooms that contain `Morgen`, case-sensitively. Rooms containing `Ersatz` are kept at that point.
- `filter_rooms(True)` filters the page's room list, in page order. Only `filter_rooms(False)` is a sorted set, built from the sessions' rooms and with no filter.
- `filter_session_times` lists only labels of slots that have sessions and whose label does not start with `0`.
