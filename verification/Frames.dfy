/**
 The `git cat-file --batch` frame parser of scripts/check_artifact_source_reuse.py.

 A frame is a header line, the blob's bytes and a newline. The three-field header test
 and the integer in it are an arbitrary reader; a blob's hash is the blob itself.
 */
module Frames {
  import opened Outcomes

  type Bytes = seq<char>

  /** The size that a header line of the form "<oid> blob <size>" states; None for any other line. */
  type HeaderReader = Bytes -> Option<int>

  datatype Frame = Frame(header: Bytes, body: Bytes)

  predicate WellFormed(frame: Frame, read: HeaderReader) {
    '\n' !in frame.header && read(frame.header) == Some(|frame.body|)
  }

  function Print(frame: Frame): Bytes {
    frame.header + "\n" + frame.body + "\n"
  }

  function PrintAll(frames: seq<Frame>): Bytes {
    if |frames| == 0 then [] else Print(frames[0]) + PrintAll(frames[1..])
  }

  /** `raw.find(b'\n', cursor)`. */
  function FindNewline(raw: Bytes, cursor: nat): Option<nat>
    decreases |raw| - cursor
  {
    if cursor >= |raw| then None else if raw[cursor] == '\n' then Some(cursor) else FindNewline(raw, cursor + 1)
  }

  lemma {:induction false} FindsFirst(raw: Bytes, cursor: nat, end: nat)
    requires cursor <= end < |raw| && raw[end] == '\n' && forall i :: cursor <= i < end ==> raw[i] != '\n'
    ensures FindNewline(raw, cursor) == Some(end)
    decreases end - cursor
  {
    if cursor < end {
      FindsFirst(raw, cursor + 1, end);
    }
  }

  lemma {:induction false} FoundIsFirst(raw: Bytes, cursor: nat)
    requires FindNewline(raw, cursor).Some?
    ensures var end := FindNewline(raw, cursor).value;
            cursor <= end < |raw| && raw[end] == '\n' && forall i :: cursor <= i < end ==> raw[i] != '\n'
    decreases |raw| - cursor
  {
    if raw[cursor] != '\n' {
      FoundIsFirst(raw, cursor + 1);
    }
  }

  /** One turn of the inner loop: the frame at the cursor and the cursor after it. */
  function Next(raw: Bytes, cursor: nat, read: HeaderReader): Option<(Frame, nat)>
    requires cursor <= |raw|
  {
    var end := FindNewline(raw, cursor);
    if end.None? || end.value < cursor || end.value >= |raw| then None
    else
      var header := raw[cursor..end.value];
      var size := read(header);
      if size.None? then None
      else
        var start := end.value + 1;
        if size.value < 0 || start + size.value >= |raw| || raw[start + size.value] != '\n' then None
        else Some((Frame(header, raw[start..start + size.value]), start + size.value + 1))
  }

  lemma PrintPieces(frame: Frame)
    ensures var p, h := Print(frame), |frame.header|;
            && |p| == h + |frame.body| + 2 && p[h] == '\n' && p[|p| - 1] == '\n'
            && p[..h] == frame.header && p[h + 1..|p| - 1] == frame.body
  {
  }

  /** A frame printed at the cursor is parsed back, whatever newlines its body holds and whatever follows. */
  lemma NextAt(raw: Bytes, cursor: nat, frame: Frame, read: HeaderReader)
    requires '\n' !in frame.header && read(frame.header) == Some(|frame.body|)
    requires cursor + |Print(frame)| <= |raw|
    requires raw[cursor..cursor + |Print(frame)|] == frame.header + "\n" + frame.body + "\n"
    ensures Next(raw, cursor, read) == Some((frame, cursor + |Print(frame)|))
  {
    var p, end := Print(frame), cursor + |frame.header|;
    PrintPieces(frame);
    assert forall i :: 0 <= i < |p| ==> raw[cursor + i] == p[i];
    assert raw[end] == '\n';
    forall i | cursor <= i < end ensures raw[i] != '\n' {
      assert raw[i] == p[i - cursor] == frame.header[i - cursor];
    }
    FindsFirst(raw, cursor, end);
    SubSlice(raw, cursor, p, 0, |frame.header|);
    SubSlice(raw, cursor, p, |frame.header| + 1, |p| - 1);
    assert raw[end + 1 + |frame.body|] == p[|p| - 1];
  }

  lemma SubSlice(raw: Bytes, cursor: nat, p: Bytes, from: nat, to: nat)
    requires cursor + |p| <= |raw| && raw[cursor..cursor + |p|] == p && from <= to <= |p|
    ensures raw[cursor + from..cursor + to] == p[from..to]
  {
    assert forall i :: from <= i < to ==> raw[cursor + i] == p[i];
  }

  /** Whatever is accepted at the cursor is the print of a well-formed frame. */
  lemma NextIsPrinted(raw: Bytes, cursor: nat, read: HeaderReader)
    requires cursor <= |raw| && Next(raw, cursor, read).Some?
    ensures var (frame, after) := Next(raw, cursor, read).value;
            WellFormed(frame, read) && cursor < after <= |raw| && raw[cursor..after] == Print(frame)
  {
    FoundIsFirst(raw, cursor);
    var (frame, after) := Next(raw, cursor, read).value;
    var end := FindNewline(raw, cursor).value;
    forall c | c in frame.header ensures c != '\n' {
      var i :| 0 <= i < |frame.header| && frame.header[i] == c;
      assert raw[cursor + i] == c;
    }
    assert raw[cursor..after] == raw[cursor..end] + [raw[end]] + raw[end + 1..after - 1] + [raw[after - 1]];
  }

  /** Three well-formed frames for each expected blob, each holding exactly that blob. */
  ghost predicate Matches(frames: seq<Frame>, expected: seq<Bytes>, read: HeaderReader) {
    |frames| == 3 * |expected|
    && forall i :: 0 <= i < |frames| ==> WellFormed(frames[i], read) && frames[i].body == expected[i / 3]
  }

  lemma {:induction false} PrintAllConcat(a: seq<Frame>, b: seq<Frame>)
    ensures PrintAll(a + b) == PrintAll(a) + PrintAll(b)
  {
    if |a| == 0 {
      assert a + b == b;
    } else {
      PrintAllConcat(a[1..], b);
      assert (a + b)[0] == a[0] && (a + b)[1..] == a[1..] + b;
      Associates(Print(a[0]), PrintAll(a[1..]), PrintAll(b));
    }
  }

  lemma Associates(a: Bytes, b: Bytes, c: Bytes)
    ensures a + (b + c) == (a + b) + c
  {
  }

  lemma PrintOne(frame: Frame)
    ensures PrintAll([frame]) == Print(frame)
  {
    assert PrintAll([frame]) == Print(frame) + PrintAll([frame][1..]);
  }

  lemma PrintAllAppend(frames: seq<Frame>, frame: Frame)
    ensures PrintAll(frames + [frame]) == PrintAll(frames) + Print(frame)
  {
    PrintAllConcat(frames, [frame]);
    PrintOne(frame);
  }

  lemma SplitAt(done: seq<Frame>, fs: seq<Frame>)
    requires done < fs
    ensures PrintAll(fs) == PrintAll(done) + (Print(fs[|done|]) + PrintAll(fs[|done| + 1..]))
  {
    var rest := fs[|done|..];
    assert fs == done + rest;
    PrintAllConcat(done, rest);
    assert rest[1..] == fs[|done| + 1..];
  }

  lemma Continues(raw: Bytes, done: seq<Frame>, fs: seq<Frame>, cursor: nat, read: HeaderReader)
    requires done < fs && raw == PrintAll(fs) && cursor <= |raw| && raw[..cursor] == PrintAll(done)
    requires WellFormed(fs[|done|], read)
    ensures Next(raw, cursor, read) == Some((fs[|done|], cursor + |Print(fs[|done|])|))
  {
    SplitAt(done, fs);
    Middle(raw, cursor, PrintAll(done), Print(fs[|done|]), PrintAll(fs[|done| + 1..]));
    NextAt(raw, cursor, fs[|done|], read);
  }

  lemma Middle(raw: Bytes, cursor: nat, a: Bytes, b: Bytes, c: Bytes)
    requires cursor <= |raw| && raw == a + (b + c) && raw[..cursor] == a
    ensures cursor + |b| <= |raw| && raw[cursor..cursor + |b|] == b
  {
    assert |raw[..cursor]| == |a|;
  }

  /** Parsing has reached `cursor`: the frames so far are printed there, and begin every matching reading of `raw`. */
  ghost predicate Parsed(raw: Bytes, cursor: nat, frames: seq<Frame>, expected: seq<Bytes>, read: HeaderReader) {
    && cursor <= |raw| && raw[..cursor] == PrintAll(frames) && |frames| <= 3 * |expected|
    && (forall i :: 0 <= i < |frames| ==> WellFormed(frames[i], read) && frames[i].body == expected[i / 3])
    && (forall fs: seq<Frame> :: Matches(fs, expected, read) && raw == PrintAll(fs) ==> frames <= fs)
  }

  ghost predicate Unreadable(raw: Bytes, expected: seq<Bytes>, read: HeaderReader) {
    forall fs: seq<Frame> :: Matches(fs, expected, read) ==> raw != PrintAll(fs)
  }

  lemma ParseNext(raw: Bytes, cursor: nat, frames: seq<Frame>, expected: seq<Bytes>, read: HeaderReader)
    requires Parsed(raw, cursor, frames, expected, read) && |frames| < 3 * |expected|
    ensures var next := Next(raw, cursor, read);
            if next.None? || next.value.0.body != expected[|frames| / 3] then Unreadable(raw, expected, read)
            else Parsed(raw, next.value.1, frames + [next.value.0], expected, read)
  {
    var next := Next(raw, cursor, read);
    forall fs: seq<Frame> | Matches(fs, expected, read) && raw == PrintAll(fs)
      ensures next.Some? && next.value.0 == fs[|frames|] && fs[|frames|].body == expected[|frames| / 3]
      ensures frames + [fs[|frames|]] <= fs
    {
      Continues(raw, frames, fs, cursor, read);
      assert fs[..|frames| + 1] == frames + [fs[|frames|]];
    }
    if next.Some? {
      NextIsPrinted(raw, cursor, read);
      PrintAllAppend(frames, next.value.0);
      assert raw[..next.value.1] == raw[..cursor] + raw[cursor..next.value.1];
    }
  }

  lemma ParseEnd(raw: Bytes, cursor: nat, frames: seq<Frame>, expected: seq<Bytes>, read: HeaderReader)
    requires Parsed(raw, cursor, frames, expected, read) && |frames| == 3 * |expected|
    ensures Matches(frames, expected, read)
    ensures if cursor == |raw| then raw == PrintAll(frames) else Unreadable(raw, expected, read)
  {
    if cursor == |raw| {
      assert raw[..cursor] == raw;
    } else {
      forall fs: seq<Frame> | Matches(fs, expected, read) ensures frames <= fs && raw == PrintAll(fs) ==> fs == frames {
      }
    }
  }

  /**
   The nested loops of `verify_snapshot`: three frames for each expected blob, the same bytes in the working tree, and
   nothing after the last frame. `working` holds each file's bytes, or None where `checked_file` refuses the file.
   */
  method VerifyFrames(raw: Bytes, expected: seq<Bytes>, working: seq<Option<Bytes>>,
                      read: HeaderReader) returns (ok: bool)
    requires |working| == |expected|
    ensures ok <==> && (exists frames: seq<Frame> :: Matches(frames, expected, read) && raw == PrintAll(frames))
                    && forall n :: 0 <= n < |expected| ==> working[n] == Some(expected[n])
  {
    var cursor: nat := 0;
    ghost var frames: seq<Frame> := [];
    for n := 0 to |expected|
      invariant Parsed(raw, cursor, frames, expected, read) && |frames| == 3 * n
      invariant forall m :: 0 <= m < n ==> working[m] == Some(expected[m])
    {
      for m := 0 to 3
        invariant Parsed(raw, cursor, frames, expected, read) && |frames| == 3 * n + m
      {
        ParseNext(raw, cursor, frames, expected, read);
        var next := Next(raw, cursor, read);
        if next.None? || next.value.0.body != expected[n] {
          return false;
        }
        cursor, frames := next.value.1, frames + [next.value.0];
      }
      if working[n] != Some(expected[n]) {
        return false;
      }
    }
    ParseEnd(raw, cursor, frames, expected, read);
    return cursor == |raw|;
  }

  lemma HeadOfPrint(frames: seq<Frame>, read: HeaderReader)
    requires frames != [] && WellFormed(frames[0], read)
    ensures Next(PrintAll(frames), 0, read) == Some((frames[0], |Print(frames[0])|))
    ensures |Print(frames[0])| <= |PrintAll(frames)| && PrintAll(frames)[|Print(frames[0])|..] == PrintAll(frames[1..])
  {
    var p := Print(frames[0]);
    assert PrintAll(frames) == p + PrintAll(frames[1..]);
    assert PrintAll(frames)[0..|p|] == p;
    NextAt(PrintAll(frames), 0, frames[0], read);
  }

  /** Printed frames are read back as the same blobs, whatever newlines the bodies hold: no other frames print alike. */
  lemma {:induction false} PrintingIsInjective(a: seq<Frame>, b: seq<Frame>, read: HeaderReader)
    requires PrintAll(a) == PrintAll(b)
    requires (forall f :: f in a ==> WellFormed(f, read)) && (forall f :: f in b ==> WellFormed(f, read))
    ensures a == b
  {
    if a != [] && b != [] {
      HeadOfPrint(a, read);
      HeadOfPrint(b, read);
      PrintingIsInjective(a[1..], b[1..], read);
      assert a == [a[0]] + a[1..] && b == [b[0]] + b[1..];
    }
  }
}
