/**
 * The session phase of `get_rooms_and_sessions` files every line it visits
 * under the latest `<h3>` time label seen so far, in a `defaultdict(list)`.
 * This module models that buffering on the sequence of visited lines.
 */
module Grouping {
  import opened Wrappers
  import opened Text

  const HeadingOpen := "<h3>"
  /** `<.h3>`: a `<`, any character, then `h3>` */
  const HeadingClose: Pattern := [Lit('<'), Any, Lit('h'), Lit('3'), Lit('>')]

  /**
   * `re.search('<h3>(.*)<.h3>', line)`: the greedy capture, if the line has a
   * heading. `line` is a piece of a split at line breaks, so it holds none.
   */
  function Heading(line: string): Option<string> {
    SearchGreedy(line, HeadingOpen, HeadingClose)
  }

  /** One entry of the buffer dictionary: a time label and its lines in visiting order. */
  datatype Buffer = Buffer(time: string, lines: seq<string>)

  /** The dictionary's keys in insertion order. */
  function Keys(bufs: seq<Buffer>): (ks: seq<string>)
    ensures |ks| == |bufs| && forall i :: 0 <= i < |bufs| ==> ks[i] == bufs[i].time
  {
    if bufs == [] then [] else [bufs[0].time] + Keys(bufs[1..])
  }

  predicate Distinct(ks: seq<string>) {
    forall i, j :: 0 <= i < j < |ks| ==> ks[i] != ks[j]
  }

  /** `buffers.get(key, [])`. */
  function Lookup(bufs: seq<Buffer>, key: string): seq<string> {
    if bufs == [] then []
    else if bufs[0].time == key then bufs[0].lines
    else Lookup(bufs[1..], key)
  }

  /** With distinct keys, looking up an entry's key finds that entry. */
  lemma {:induction false} LookupEntry(bufs: seq<Buffer>, i: nat)
    requires i < |bufs| && Distinct(Keys(bufs))
    ensures Lookup(bufs, bufs[i].time) == bufs[i].lines
  {
    if i > 0 {
      assert Keys(bufs)[0] != Keys(bufs)[i];
      var rest := bufs[1..];
      assert Keys(rest) == Keys(bufs)[1..];
      LookupEntry(rest, i - 1);
    }
  }

  /** `buffers[key].append(line)` on a `defaultdict(list)`: a new key goes last. */
  function Append(bufs: seq<Buffer>, key: string, line: string): (r: seq<Buffer>)
    ensures Keys(r) == if key in Keys(bufs) then Keys(bufs) else Keys(bufs) + [key]
    ensures forall k :: Lookup(r, k) == Lookup(bufs, k) + (if k == key then [line] else [])
  {
    if bufs == [] then [Buffer(key, [line])]
    else if bufs[0].time == key then [Buffer(key, bufs[0].lines + [line])] + bufs[1..]
    else
      var rest := Append(bufs[1..], key, line);
      assert Keys(bufs) == [bufs[0].time] + Keys(bufs[1..]);
      [bufs[0]] + rest
  }

  /** Labels and lines without line breaks. */
  predicate NoBreakBuffers(bufs: seq<Buffer>) {
    forall i :: 0 <= i < |bufs| ==> NoBreak(bufs[i].time) && NoLineBreaks(bufs[i].lines)
  }

  lemma {:induction false} AppendNoBreak(bufs: seq<Buffer>, key: string, line: string)
    requires NoBreakBuffers(bufs) && NoBreak(key) && NoBreak(line)
    ensures NoBreakBuffers(Append(bufs, key, line))
  {
    if bufs != [] {
      if bufs[0].time == key {
        var ls := bufs[0].lines + [line];
        assert forall k :: 0 <= k < |ls| ==> ls[k] == if k < |bufs[0].lines| then bufs[0].lines[k] else line;
      } else {
        AppendNoBreak(bufs[1..], key, line);
      }
    }
  }

  /** The scan's state: the latest label (`""` standing for `None`) and the buffers. */
  datatype GroupState = GroupState(current: string, buffers: seq<Buffer>)

  /** One visited line: a heading replaces the label; a non-empty label receives the line. */
  function Step(st: GroupState, line: string): GroupState {
    var current := match Heading(line) case Some(c) => c case None => st.current;
    GroupState(current, if current != "" then Append(st.buffers, current, line) else st.buffers)
  }

  /** The state after visiting `ls` in order. */
  function Group(ls: seq<string>): GroupState {
    if ls == [] then GroupState("", []) else Step(Group(ls[..|ls| - 1]), ls[|ls| - 1])
  }

  lemma GroupSnoc(ls: seq<string>, line: string)
    ensures Group(ls + [line]) == Step(Group(ls), line)
  {
    assert (ls + [line])[..|ls|] == ls;
  }

  /** Lines without line breaks are filed under labels without line breaks. */
  lemma {:induction false} GroupNoBreak(ls: seq<string>)
    requires NoLineBreaks(ls)
    ensures NoBreak(Group(ls).current) && NoBreakBuffers(Group(ls).buffers)
  {
    if ls != [] {
      var init := ls[..|ls| - 1];
      var line := ls[|ls| - 1];
      assert NoLineBreaks(init) by {
        assert forall k :: 0 <= k < |init| ==> init[k] == ls[k];
      }
      GroupNoBreak(init);
      SearchNoBreak(line, HeadingOpen, HeadingClose);
      var st := Group(init);
      var current := Step(st, line).current;
      if current != "" {
        AppendNoBreak(st.buffers, current, line);
      }
    }
  }

  /** The dictionary's keys are distinct and never empty. */
  lemma {:induction false} GroupKeysDistinct(ls: seq<string>)
    ensures Distinct(Keys(Group(ls).buffers)) && "" !in Keys(Group(ls).buffers)
  {
    if ls != [] {
      var before := Group(ls[..|ls| - 1]);
      GroupKeysDistinct(ls[..|ls| - 1]);
      var after := Step(before, ls[|ls| - 1]);
      assert Keys(after.buffers) == Keys(before.buffers) ||
        (after.current !in Keys(before.buffers) && Keys(after.buffers) == Keys(before.buffers) + [after.current]);
    }
  }

  /** The capture of the latest heading line in `ls`, or `""` when there is none. */
  function Latest(ls: seq<string>): string {
    if ls == [] then ""
    else match Heading(ls[|ls| - 1])
      case Some(c) => c
      case None => Latest(ls[..|ls| - 1])
  }

  /** The lines of `ls` whose latest label, counting the line itself, is `time`. */
  function Bucket(ls: seq<string>, time: string): seq<string> {
    if ls == [] then []
    else Bucket(ls[..|ls| - 1], time) + (if Latest(ls) == time then [ls[|ls| - 1]] else [])
  }

  /** The scan's label is always the latest heading's capture. */
  lemma {:induction false} GroupCurrent(ls: seq<string>)
    ensures Group(ls).current == Latest(ls)
  {
    if ls != [] {
      GroupCurrent(ls[..|ls| - 1]);
    }
  }

  /** Each label's buffer holds exactly the lines filed under it, in visiting order. */
  lemma {:induction false} GroupBuckets(ls: seq<string>, time: string)
    requires time != ""
    ensures Lookup(Group(ls).buffers, time) == Bucket(ls, time)
  {
    if ls != [] {
      var init := ls[..|ls| - 1];
      GroupBuckets(init, time);
      GroupCurrent(init);
    }
  }

  /** Some line of `ls` is a heading whose capture is `time` (checked from the last line back). */
  predicate HasHeading(ls: seq<string>, time: string) {
    ls != [] && (Heading(ls[|ls| - 1]) == Some(time) || HasHeading(ls[..|ls| - 1], time))
  }

  /** A latest label that is not empty is the capture of some heading line. */
  lemma {:induction false} LatestIsHeading(ls: seq<string>)
    requires Latest(ls) != ""
    ensures HasHeading(ls, Latest(ls))
  {
    if Heading(ls[|ls| - 1]).None? {
      LatestIsHeading(ls[..|ls| - 1]);
    }
  }

  /** The dictionary's keys are exactly the non-empty labels some visited line carries. */
  lemma {:induction false} GroupKeys(ls: seq<string>, time: string)
    ensures time in Keys(Group(ls).buffers) <==> time != "" && HasHeading(ls, time)
  {
    if ls != [] {
      var init := ls[..|ls| - 1];
      GroupKeys(init, time);
      GroupCurrent(init);
      if time in Keys(Group(ls).buffers) && time !in Keys(Group(init).buffers) {
        LatestIsHeading(ls);
      }
    }
  }
}
