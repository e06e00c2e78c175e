/** The live events : reading the stream's frames as its chunks arrive, and a listener that hears a
    name at most once a second. */
module LiveEvents {
  import opened Wrappers
  import opened Texts

  // ─── one frame ───────────────────────────────────────────────────────────────

  /** What JSON.parse gives for `name` in a frame's data ; None : it is no JSON, or has none. */
  type Parse = string -> Option<string>

  predicate StartsWith(s: string, prefix: string) {
    |prefix| <= |s| && s[..|prefix|] == prefix
  }

  /** The data of the first line that has some. */
  function DataOf(lines: seq<string>): string {
    if lines == [] then ""
    else if StartsWith(lines[0], "data:") then Trim(lines[0][5..])
    else DataOf(lines[1..])
  }

  /** The name a frame delivers : none when it is no change, has no data or no name. */
  function NameOf(frame: string, parse: Parse): seq<string> {
    var lines := Lines(frame);
    var data := DataOf(lines);
    if "event: changed" !in lines || data == "" then []
    else match parse(data)
         case None => []
         case Some(name) => if name == "" then [] else [name]
  }

  /** The first line that starts with data: */
  ghost predicate FirstData(lines: seq<string>, i: int) {
    0 <= i < |lines| && "data:" <= lines[i] && forall j :: 0 <= j < i ==> !("data:" <= lines[j])
  }

  /** A frame says that something changed : a line of it is the event, and its first data is not blank and has
      that name. */
  ghost predicate Delivers(lines: seq<string>, parse: Parse, name: string) {
    && "event: changed" in lines && name != ""
    && exists i :: FirstData(lines, i) && Trim(lines[i][5..]) != "" && parse(Trim(lines[i][5..])) == Some(name)
  }

  lemma {:induction false} DataIs(lines: seq<string>)
    ensures (forall i :: !FirstData(lines, i)) ==> DataOf(lines) == ""
    ensures forall i :: FirstData(lines, i) ==> DataOf(lines) == Trim(lines[i][5..])
  {
    hide Trim;
    if lines != [] {
      if StartsWith(lines[0], "data:") {
        assert FirstData(lines, 0);
      } else {
        DataIs(lines[1..]);
        forall i | FirstData(lines, i) ensures FirstData(lines[1..], i - 1) && lines[1..][i - 1] == lines[i] {
          assert !("data:" <= lines[0]);
        }
        forall i | FirstData(lines[1..], i) ensures FirstData(lines, i + 1) {
          assert lines[1..][i] == lines[i + 1];
          forall j | 0 <= j < i + 1 ensures !("data:" <= lines[j]) {
            if j > 0 { assert lines[j] == lines[1..][j - 1]; }
          }
        }
      }
    }
  }

  /** A frame delivers the name it says changed, once, and no other. */
  lemma {:induction false} NameOfIs(frame: string, parse: Parse, name: string)
    ensures |NameOf(frame, parse)| <= 1
    ensures name in NameOf(frame, parse) <==> Delivers(Lines(frame), parse, name)
  {
    hide Trim, Lines, DataOf;
    DataIs(Lines(frame));
  }

  // ─── the frames of a text ────────────────────────────────────────────────────

  const BLANK := "\n\n"

  /** The frames a text holds : what stands before each blank line, from the left. */
  function Frames(text: string): seq<string>
    decreases |text|
  {
    match IndexOf(text, BLANK)
    case None => []
    case Some(at) => [text[..at]] + Frames(text[at + 2..])
  }

  /** What is left of it : the frame not ended yet. */
  function Rest(text: string): (rest: string)
    ensures IndexOf(rest, BLANK) == None
    decreases |text|
  {
    match IndexOf(text, BLANK)
    case None => text
    case Some(at) => Rest(text[at + 2..])
  }

  function Names(frames: seq<string>, parse: Parse): seq<string> {
    if frames == [] then [] else Names(frames[..|frames| - 1], parse) + NameOf(frames[|frames| - 1], parse)
  }

  function Joined(frames: seq<string>): string {
    if frames == [] then "" else frames[0] + "\n\n" + Joined(frames[1..])
  }

  /** The frames and what is left are the whole text, nothing more, nothing less. */
  lemma {:induction false} FramesRebuild(text: string)
    ensures Joined(Frames(text)) + Rest(text) == text
    decreases |text|
  {
    match IndexOf(text, BLANK)
    case None =>
    case Some(at) =>
      FramesRebuild(text[at + 2..]);
      var frames := Frames(text);
      assert frames[1..] == Frames(text[at + 2..]);
      assert text == text[..at] + BLANK + text[at + 2..];
      Rebuilds(text[..at], Joined(Frames(text[at + 2..])), Rest(text[at + 2..]), text[at + 2..]);
  }

  lemma UpToTheBlank(text: string, at: int)
    requires OccursAt(text, BLANK, at)
    ensures text[..at] + "\n" == text[..at + 1]
  {
    assert text[at..at + 2][0] == BLANK[0] == '\n';
  }

  lemma OccursInFront(text: string, end: nat, i: int)
    requires end <= |text|
    ensures OccursAt(text[..end], BLANK, i) ==> OccursAt(text, BLANK, i)
  {
    if 0 <= i && i + 2 <= end {
      assert text[..end][i..i + 2] == text[i..i + 2];
    }
  }

  /** A frame ends at the first blank line after its start. */
  lemma {:induction false} FramesEndFirst(text: string, frame: string, i: int)
    requires frame in Frames(text)
    ensures !OccursAt(frame + "\n", "\n\n", i)
    decreases |text|
  {
    var at := IndexOf(text, BLANK).value;
    if frame == text[..at] {
      UpToTheBlank(text, at);
      OccursInFront(text, at + 1, i);
    } else {
      FramesEndFirst(text[at + 2..], frame, i);
    }
  }

  lemma Rebuilds(frame: string, joined: string, rest: string, text: string)
    requires joined + rest == text
    ensures (frame + BLANK + joined) + rest == frame + BLANK + text
  {
  }

  lemma FirstBlank(a: string, b: string)
    requires IndexOf(a, BLANK).Some?
    ensures IndexOf(a + b, BLANK) == IndexOf(a, BLANK)
  {
    hide IndexOf;
    var i, j := IndexOf(a, BLANK).value, IndexOf(a + b, BLANK);
    assert (a + b)[i..i + 2] == a[i..i + 2];
    assert OccursAt(a + b, BLANK, i);
    assert j.Some? && OccursAt(a + b, BLANK, j.value);
    assert j.value < i ==> (a + b)[j.value..j.value + 2] == a[j.value..j.value + 2];
    assert j.value < i ==> OccursAt(a, BLANK, j.value);
  }

  /** More text adds frames to those there are : they do not change, whatever comes. */
  lemma {:induction false} FramesOfMore(a: string, b: string)
    ensures Frames(a + b) == Frames(a) + Frames(Rest(a) + b)
    ensures Rest(a + b) == Rest(Rest(a) + b)
    decreases |a|
  {
    hide IndexOf;
    FrameFirst(a);
    match IndexOf(a, BLANK)
    case None =>
      assert [] + Frames(a + b) == Frames(a + b);
    case Some(at) =>
      FirstBlank(a, b);
      FrameFirst(a + b);
      assert (a + b)[at + 2..] == a[at + 2..] + b && (a + b)[..at] == a[..at];
      FramesOfMore(a[at + 2..], b);
      hide Frames, Rest;
      var frame, frames, more := a[..at], Frames(a[at + 2..]), Frames(Rest(a) + b);
      assert ([frame] + frames) + more == [frame] + (frames + more);
  }

  lemma {:induction false} FrameFirst(text: string)
    ensures match IndexOf(text, BLANK)
            case None => Frames(text) == [] && Rest(text) == text
            case Some(at) => Frames(text) == [text[..at]] + Frames(text[at + 2..]) && Rest(text) == Rest(text[at + 2..])
  {
    hide IndexOf;
  }

  lemma {:induction false} NamesOfMore(xs: seq<string>, ys: seq<string>, parse: Parse)
    ensures Names(xs + ys, parse) == Names(xs, parse) + Names(ys, parse)
  {
    hide NameOf;
    if ys == [] {
      assert xs + ys == xs;
    } else {
      assert (xs + ys)[..|xs + ys| - 1] == xs + ys[..|ys| - 1];
      NamesOfMore(xs, ys[..|ys| - 1], parse);
    }
  }

  // ─── reading the stream ──────────────────────────────────────────────────────

  function Concat(chunks: seq<string>): string {
    if chunks == [] then "" else Concat(chunks[..|chunks| - 1]) + chunks[|chunks| - 1]
  }

  /** What reading has come to : the names delivered, and the text of the frame not ended yet. */
  datatype Reading = Reading(names: seq<string>, buffer: string)

  /** Chunk by chunk : what each adds to the buffer ends the frames it ends. */
  function Fed(chunks: seq<string>, parse: Parse): Reading {
    if chunks == [] then Reading([], "")
    else
      var r := Fed(chunks[..|chunks| - 1], parse);
      var buffer := r.buffer + chunks[|chunks| - 1];
      Reading(r.names + Names(Frames(buffer), parse), Rest(buffer))
  }

  /** At any moment, what was delivered is what the frames of the whole stream so far deliver. */
  lemma {:induction false} FedIsWhole(chunks: seq<string>, parse: Parse)
    ensures Fed(chunks, parse) == Reading(Names(Frames(Concat(chunks)), parse), Rest(Concat(chunks)))
  {
    if chunks != [] {
      var front, last := chunks[..|chunks| - 1], chunks[|chunks| - 1];
      FedIsWhole(front, parse);
      var before := Concat(front);
      FramesOfMore(before, last);
      NamesOfMore(Frames(before), Frames(Rest(before) + last), parse);
    }
  }

  /** The names delivered depend on the stream only, not on how it was cut into chunks. */
  lemma {:induction false} ChunksDoNotMatter(chunks: seq<string>, chunks': seq<string>, parse: Parse)
    requires Concat(chunks) == Concat(chunks')
    ensures Fed(chunks, parse).names == Fed(chunks', parse).names
  {
    FedIsWhole(chunks, parse);
    FedIsWhole(chunks', parse);
  }

  /** Reads the chunks of a stream until it ends : the names delivered, in order. */
  method Read(chunks: seq<string>, parse: Parse) returns (delivered: seq<string>)
    ensures delivered == Fed(chunks, parse).names
    ensures delivered == Names(Frames(Concat(chunks)), parse)
  {
    delivered := [];
    var buffer := "";
    for i := 0 to |chunks|
      invariant Reading(delivered, buffer) == Fed(chunks[..i], parse)
    {
      assert chunks[..i + 1][..i] == chunks[..i];
      buffer := buffer + chunks[i];
      var names;
      names, buffer := TakeFrames(buffer, parse);
      delivered := delivered + names;
    }
    assert chunks[..|chunks|] == chunks;
    FedIsWhole(chunks, parse);
  }

  /** Taking one frame out of a text leaves the others. */
  lemma {:induction false} TakeOne(text: string, taken: seq<string>)
    requires IndexOf(text, BLANK).Some?
    ensures var at := IndexOf(text, BLANK).value;
            && taken + Frames(text) == (taken + [text[..at]]) + Frames(text[at + 2..])
            && Rest(text) == Rest(text[at + 2..])
  {
    FrameFirst(text);
    hide IndexOf, Frames, Rest;
    var at := IndexOf(text, BLANK).value;
    assert taken + ([text[..at]] + Frames(text[at + 2..])) == (taken + [text[..at]]) + Frames(text[at + 2..]);
  }

  lemma {:induction false} NamesOfOneMore(taken: seq<string>, frame: string, parse: Parse)
    ensures Names(taken + [frame], parse) == Names(taken, parse) + NameOf(frame, parse)
  {
    assert (taken + [frame])[..|taken|] == taken;
  }

  /** Takes the frames ended out of the buffer. */
  method TakeFrames(buffer0: string, parse: Parse) returns (names: seq<string>, buffer: string)
    ensures names == Names(Frames(buffer0), parse)
    ensures buffer == Rest(buffer0)
  {
    hide NameOf, Names;
    names, buffer := [], buffer0;
    ghost var taken: seq<string> := [];
    assert names == Names(taken, parse) by { NoNames(parse); }
    var end := IndexOf(buffer, BLANK);
    while end.Some?
      invariant end == IndexOf(buffer, BLANK)
      invariant taken + Frames(buffer) == Frames(buffer0)
      invariant Rest(buffer) == Rest(buffer0)
      invariant names == Names(taken, parse)
      decreases |buffer|
    {
      var frame := buffer[..end.value];
      TakeOne(buffer, taken);
      NamesOfOneMore(taken, frame, parse);
      buffer := buffer[end.value + 2..];
      names := names + NameOf(frame, parse);
      taken := taken + [frame];
      end := IndexOf(buffer, BLANK);
    }
    assert taken + [] == taken;
  }

  lemma NoNames(parse: Parse)
    ensures Names([], parse) == []
  {
  }

  // ─── once a second ───────────────────────────────────────────────────────────

  const SECOND_MS := 1000

  ghost predicate AllBelow(heard: seq<nat>, n: nat) {
    forall i :: 0 <= i < |heard| ==> heard[i] < n
  }

  lemma OneMoreHeard(heard: seq<nat>, n: nat)
    requires AllBelow(heard, n + 1)
    ensures AllBelow(heard + [n], n + 1) && AllBelow(heard + [n], n + 2) && !AllBelow(heard + [n], n)
  {
    assert (heard + [n])[|heard|] == n;
  }

  /** A listener that hears its name at most once a second. For the record : when it ran, and how many
      runs there had been each time it heard. */
  class Throttled {
    var last: int
    var timer: Option<int> // when the run waited for is due
    ghost var runs: seq<int>
    ghost var heard: seq<nat>

    constructor ()
      ensures Valid() && runs == [] && heard == []
    {
      last, timer := 0, None;
      runs, heard := [], [];
    }

    /** Runs are a second apart at least ; a run is waited for exactly when something heard was not
        followed by a run, and it is due a second after the last. */
    ghost predicate Valid()
      reads this
    {
      && last == (if runs == [] then 0 else runs[|runs| - 1])
      && (forall i :: 0 < i < |runs| ==> runs[i - 1] + 1000 <= runs[i])
      && AllBelow(heard, |runs| + 1)
      && (timer.Some? ==> timer.value == last + 1000)
      && (timer.None? <==> AllFollowed())
    }

    /** Everything heard was followed by a run. */
    ghost predicate AllFollowed()
      reads this
    {
      AllBelow(heard, |runs|)
    }

    method Run(now: int)
      modifies this`last, this`timer, this`runs
      ensures last == now && timer == None && runs == old(runs) + [now]
    {
      last := now;
      timer := None;
      runs := runs + [now];
    }

    /** Hears the name : runs at once when the last run is a second ago, else a run will. */
    method Hear(now: int)
      requires Valid()
      modifies this
      ensures Valid() && heard == old(heard) + [|old(runs)|]
      ensures if old(timer).None? && old(last) + 1000 <= now
              then runs == old(runs) + [now] && timer == None
              else runs == old(runs) && timer == Some(old(last) + 1000)
    {
      hide AllBelow;
      OneMoreHeard(heard, |runs|);
      heard := heard + [|runs|];
      if timer.Some? {
        return;
      }
      var wait := last + SECOND_MS - now;
      if wait <= 0 {
        Run(now);
      } else {
        timer := Some(now + wait);
      }
    }

    /** The timer goes off, not before it is due. */
    method Fire(now: int)
      requires Valid() && timer.Some? && timer.value <= now
      modifies this
      ensures Valid() && runs == old(runs) + [now] && heard == old(heard) && AllFollowed()
    {
      Run(now);
    }
  }
}
