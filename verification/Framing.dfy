/** Bounded frames, one per line, over readers and writers that move as few bytes at a time as they like. */
module Framing {
  import opened Wire
  import opened JsonText
  import opened StrictJsonValidator

  const BUFFER_BYTES: nat := 0x8000

  // ---------------------------------------------------------------- what a reader should say

  /** How a byte stream ends: at its end, or with an error of the transport. */
  datatype Ending = Eof | Broken

  datatype Reading =
    | Frame(bytes: Bytes)
    | InvalidLimit
    | TooLarge
    | BareCarriageReturn
    | Unterminated
    | EndOfInput
    | TransportError

  predicate ValidLimit(limit: int) { 0 < limit <= AGGREGATE_ITEM_BYTES }

  /** The first line without its LF, and what comes after that LF. */
  function Line(s: Bytes): Bytes { if s == "" || s[0] == '\n' then "" else [s[0]] + Line(s[1..]) }

  function AfterLine(s: Bytes): Bytes { if s == "" then "" else if s[0] == '\n' then s[1..] else AfterLine(s[1..]) }

  function WithoutCr(line: Bytes): Bytes {
    if line != "" && line[|line| - 1] == '\r' then line[..|line| - 1] else line
  }

  function LineVerdict(line: Bytes, limit: int): Reading {
    var frame := WithoutCr(line);
    if |frame| > limit then TooLarge else if '\r' in frame then BareCarriageReturn else Frame(frame)
  }

  /** What reading one frame from s means: split at LF, strip one CR, check the length and the rest for CR. */
  function Verdict(s: Bytes, ending: Ending, limit: int): Reading {
    if !ValidLimit(limit) then InvalidLimit
    else if '\n' in s then LineVerdict(Line(s), limit)
    else if |s| > limit + 2 then TooLarge
    else if ending.Broken? then TransportError
    else if s == "" then EndOfInput
    else Unterminated
  }

  lemma {:induction false} LineSplits(s: Bytes, line: Bytes, rest: Bytes)
    requires s == line + "\n" + rest && '\n' !in line
    ensures '\n' in s && Line(s) == line && AfterLine(s) == rest
  {
    assert s[|line|] == '\n';
    if line != "" {
      assert s[1..] == line[1..] + "\n" + rest;
      LineSplits(s[1..], line[1..], rest);
      assert line == [line[0]] + line[1..];
    }
  }

  // ---------------------------------------------------------------- reading

  /** The transport: it hands out its bytes in non-empty pieces of any size, and may announce its end
      together with the last of them. */
  class Source {
    var rest: Bytes
    const ending: Ending

    constructor (bytes: Bytes, ending: Ending)
      ensures rest == bytes && this.ending == ending
    {
      this.rest, this.ending := bytes, ending;
    }

    method Read(space: nat) returns (chunk: Bytes, ended: bool)
      requires space > 0
      modifies this
      ensures old(rest) == chunk + rest && |chunk| <= space
      ensures chunk == "" ==> ended
      ensures ended ==> rest == ""
    {
      if rest == "" {
        return "", true;
      }
      var n: nat :| 1 <= n <= space && n <= |rest|;
      chunk, rest := rest[..n], rest[n..];
      ended := false;
      if rest == "" {
        ended := *;
      }
    }
  }

  datatype Slice = Found | Full | Ended

  /** The frame of a complete line, CR and LF included. */
  function FinishFrame(line: Bytes, limit: int): Reading {
    if line == "" || line[|line| - 1] != '\n' then Unterminated
    else
      var unbroken := line[..|line| - 1];
      var frame := if unbroken != "" && unbroken[|unbroken| - 1] == '\r' then unbroken[..|unbroken| - 1] else unbroken;
      if |frame| > limit then TooLarge
      else if '\r' in frame then BareCarriageReturn
      else Frame(frame)
  }

  /** Ends at the first LF it has, or has none. */
  predicate EndsAtLf(s: Bytes, found: bool) {
    if found then s != "" && s[|s| - 1] == '\n' && '\n' !in s[..|s| - 1] else '\n' !in s
  }

  lemma EndsAtLfTogether(before: Bytes, fragment: Bytes, found: bool)
    requires EndsAtLf(before, false) && EndsAtLf(fragment, found)
    ensures EndsAtLf(before + fragment, found)
  {
    if found {
      assert (before + fragment)[..|before + fragment| - 1] == before + fragment[..|fragment| - 1];
    }
  }

  lemma FinishedLine(all: Bytes, line: Bytes, rest: Bytes, ending: Ending, limit: int)
    requires all == line + rest && EndsAtLf(line, true)
    requires ValidLimit(limit)
    ensures FinishFrame(line, limit) == Verdict(all, ending, limit) && rest == AfterLine(all)
  {
    assert all == line[..|line| - 1] + "\n" + rest;
    LineSplits(all, line[..|line| - 1], rest);
  }

  lemma EndedVerdict(all: Bytes, ending: Ending, limit: int)
    requires ValidLimit(limit) && EndsAtLf(all, false) && |all| <= limit + 2
    ensures Verdict(all, ending, limit)
         == if ending.Broken? then TransportError else if all == "" then EndOfInput else Unterminated
  {}

  predicate SuffixOf(tail: Bytes, s: Bytes) { |tail| <= |s| && s[|s| - |tail|..] == tail }

  lemma Advance(all: Bytes, frame: Bytes, unread: Bytes, fragment: Bytes, rest: Bytes)
    requires all == frame + unread && unread == fragment + rest
    ensures all == frame + fragment + rest && SuffixOf(rest, all)
  {}

  class FrameReader {
    const source: Source
    const maximumBytes: int
    var buffer: Bytes
    var ended: bool

    ghost predicate Valid()
      reads this, source
    {
      |buffer| <= BUFFER_BYTES && (ended ==> source.rest == "")
    }

    /** The bytes that no read has consumed. */
    ghost function Unread(): Bytes
      reads this, source
    {
      buffer + source.rest
    }

    constructor (source: Source, maximumBytes: int)
      ensures Valid() && this.source == source && Unread() == source.rest
      ensures this.maximumBytes == if maximumBytes <= 0 then V1_FRAME_BYTES else maximumBytes
    {
      this.source := source;
      this.maximumBytes := if maximumBytes <= 0 then V1_FRAME_BYTES else maximumBytes;
      buffer, ended := "", false;
    }

    /** The buffered read up to and including a LF: a fragment, and why it stops there. */
    method ReadSlice() returns (fragment: Bytes, slice: Slice)
      requires Valid()
      modifies this, source
      ensures Valid() && old(Unread()) == fragment + Unread()
      ensures EndsAtLf(fragment, slice.Found?)
      ensures slice.Full? ==> fragment != ""
      ensures slice.Ended? ==> Unread() == ""
    {
      var searched := 0;
      while true
        invariant Valid() && Unread() == old(Unread())
        invariant 0 <= searched <= |buffer| && '\n' !in buffer[..searched]
        decreases |source.rest| + if ended then 0 else 1, |buffer| - searched
      {
        if searched < |buffer| {
          if buffer[searched] == '\n' {
            fragment, buffer := buffer[..searched + 1], buffer[searched + 1..];
            return fragment, Found;
          }
          searched := searched + 1;
        } else if ended {
          fragment, buffer, ended := buffer, "", false;
          return fragment, Ended;
        } else if |buffer| >= BUFFER_BYTES {
          fragment, buffer := buffer, "";
          return fragment, Full;
        } else {
          var chunk;
          chunk, ended := source.Read(BUFFER_BYTES - |buffer|);
          buffer := buffer + chunk;
        }
      }
    }

    /** However the bytes arrive, the reading is the verdict on what was unread, and after a frame
        reading goes on behind its line. */
    method ReadFrameLimit(limit: int) returns (reading: Reading)
      requires Valid()
      modifies this, source
      ensures Valid()
      ensures reading == Verdict(old(Unread()), source.ending, limit)
      ensures reading.Frame? || reading.BareCarriageReturn? ==> Unread() == AfterLine(old(Unread()))
      ensures !ValidLimit(limit) ==> Unread() == old(Unread())
      ensures SuffixOf(Unread(), old(Unread()))
    {
      ghost var all := Unread();
      if limit <= 0 || limit > AGGREGATE_ITEM_BYTES {
        return InvalidLimit;
      }
      var frame: Bytes := "";
      while true
        invariant Valid() && all == frame + Unread()
        invariant EndsAtLf(frame, false) && |frame| <= limit + 2
        decreases |Unread()|
      {
        ghost var unread := Unread();
        var fragment, slice := ReadSlice();
        EndsAtLfTogether(frame, fragment, slice.Found?);
        Advance(all, frame, unread, fragment, Unread());
        if |frame| + |fragment| > limit + 2 {
          TooLongToFit(all, frame + fragment, slice.Found?, Unread(), limit);
          return TooLarge;
        }
        frame := frame + fragment;
        match slice
        case Found =>
          FinishedLine(all, frame, Unread(), source.ending, limit);
          return FinishFrame(frame, limit);
        case Full =>
        case Ended =>
          assert all == frame;
          EndedVerdict(all, source.ending, limit);
          if source.ending.Broken? {
            return TransportError;
          }
          if frame == "" {
            return EndOfInput;
          }
          return Unterminated;
      }
    }

    method ReadFrame() returns (reading: Reading)
      requires Valid()
      modifies this, source
      ensures Valid()
      ensures reading == Verdict(old(Unread()), source.ending, maximumBytes)
      ensures reading.Frame? || reading.BareCarriageReturn? ==> Unread() == AfterLine(old(Unread()))
    {
      reading := ReadFrameLimit(maximumBytes);
    }
  }

  /** Giving up early is safe: more than limit + 2 bytes cannot be a frame, its CR and its LF. */
  lemma TooLongToFit(all: Bytes, consumed: Bytes, found: bool, rest: Bytes, limit: int)
    requires all == consumed + rest && |consumed| > limit + 2 && ValidLimit(limit)
    requires EndsAtLf(consumed, found)
    ensures Verdict(all, Eof, limit) == TooLarge && Verdict(all, Broken, limit) == TooLarge
  {
    var known := if found then consumed[..|consumed| - 1] else consumed;
    if '\n' in all {
      LongLine(all, known);
    }
  }

  lemma {:induction false} LongLine(s: Bytes, known: Bytes)
    requires known <= s && '\n' !in known
    ensures |Line(s)| >= |known|
  {
    if known != "" {
      assert s[0] == known[0];
      LongLine(s[1..], known[1..]);
    }
  }

  // ---------------------------------------------------------------- writing

  /** A frame as the encoder leaves it: whether its fields validate, and its JSON text if it has one. */
  datatype Encoding = Encoding(valid: bool, json: Option<Bytes>)

  datatype WriteError = InvalidFrame | FrameTooLarge | ShortWrite | WriterError

  function MarshalBounded(frame: Encoding, maximumBytes: int, maximumDepth: int): (r: Result)
    ensures r.Marshaled? <==>
              && frame.valid && frame.json.Some? && |frame.json.value| <= maximumBytes
              && Validate(frame.json.value, maximumDepth, true).None?
    ensures r.Marshaled? ==> frame.json == Some(r.data)
    ensures r == Refused(FrameTooLarge) <==> frame.valid && frame.json.Some? && |frame.json.value| > maximumBytes
  {
    if !frame.valid || frame.json.None? then Refused(InvalidFrame)
    else if |frame.json.value| > maximumBytes then Refused(FrameTooLarge)
    else if Validate(frame.json.value, maximumDepth, true).Some? then Refused(InvalidFrame)
    else Marshaled(frame.json.value)
  }

  datatype Result = Marshaled(data: Bytes) | Refused(error: WriteError)

  /** What can go wrong in one write: a count that is none, an error of the writer, or nothing taken without one. */
  datatype Fault = Miscounted | WriteFailed | TookNothing

  /** A writer that takes any part of what it is given, may fail at any time, and may miscount. */
  class Sink {
    var bytes: Bytes
    ghost var faults: seq<Fault>

    constructor ()
      ensures bytes == "" && faults == []
    {
      bytes, faults := "", [];
    }

    method Write(data: Bytes) returns (count: int, failed: bool)
      modifies this
      ensures old(bytes) <= bytes <= old(bytes) + data
      ensures 0 <= count <= |data| ==> bytes == old(bytes) + data[..count]
      ensures faults == old(faults) + FaultsOf(count, failed, |data|)
    {
      var taken: nat :| taken <= |data|;
      bytes := bytes + data[..taken];
      var miscount: int := *;
      count := if miscount < 0 || miscount > |data| then miscount else taken;
      failed := *;
      faults := faults + FaultsOf(count, failed, |data|);
    }
  }

  ghost function FaultsOf(count: int, failed: bool, length: nat): (faults: seq<Fault>)
    ensures faults == [] <==> 0 <= count <= length && (count == 0 ==> length == 0) && !failed
  {
    if count < 0 || count > length then [Miscounted]
    else if failed then [WriteFailed]
    else if count == 0 && length > 0 then [TookNothing]
    else []
  }

  function ErrorOf(fault: Fault): WriteError {
    match fault
    case Miscounted => InvalidFrame
    case WriteFailed => WriterError
    case TookNothing => ShortWrite
  }

  /** A frame is written as its text and a LF: all of it, exactly when the codec takes it and no write goes wrong, or
      with the error of the first write that did, and a part of it. */
  method WriteBounded(sink: Sink, frame: Encoding, maximumBytes: int, maximumDepth: int)
    returns (error: Option<WriteError>)
    modifies sink
    ensures var r := MarshalBounded(frame, maximumBytes, maximumDepth);
            match r
            case Refused(e) => error == Some(e) && sink.bytes == old(sink.bytes) && sink.faults == old(sink.faults)
            case Marshaled(data) =>
              && (error.None? <==> sink.faults == old(sink.faults))
              && (error.None? ==> sink.bytes == old(sink.bytes) + (data + "\n"))
              && (error.Some? ==>
                    exists fault :: sink.faults == old(sink.faults) + [fault] && error == Some(ErrorOf(fault)))
              && old(sink.bytes) <= sink.bytes <= old(sink.bytes) + (data + "\n")
  {
    var marshaled := MarshalBounded(frame, maximumBytes, maximumDepth);
    if marshaled.Refused? {
      return Some(marshaled.error);
    }
    ghost var target := sink.bytes + (marshaled.data + "\n");
    var data := marshaled.data + "\n";
    while |data| > 0
      invariant old(sink.bytes) <= sink.bytes && sink.bytes + data == target
      invariant sink.faults == old(sink.faults)
    {
      var count, failed := sink.Write(data);
      assert FaultsOf(count, failed, |data|) != [] ==>
               sink.faults == old(sink.faults) + [FaultsOf(count, failed, |data|)[0]];
      if count < 0 || count > |data| {
        return Some(InvalidFrame);
      }
      data := data[count..];
      if failed {
        return Some(WriterError);
      }
      if count == 0 {
        return Some(ShortWrite);
      }
    }
    return None;
  }

  // ---------------------------------------------------------------- what is written is read back

  /** The stream that writing the frames one after the other leaves. */
  function Stream(frames: seq<Bytes>): Bytes {
    if frames == [] then "" else frames[0] + "\n" + Stream(frames[1..])
  }

  /** The readings of successive reads under the given limits, as long as they are frames. */
  function ReadMany(s: Bytes, ending: Ending, limits: seq<int>): seq<Reading>
    decreases |limits|
  {
    if limits == [] then []
    else
      var reading := Verdict(s, ending, limits[0]);
      [reading] + if reading.Frame? then ReadMany(AfterLine(s), ending, limits[1..]) else []
  }

  predicate Sufficient(frames: seq<Bytes>, limits: seq<int>) {
    |limits| == |frames| && forall i :: 0 <= i < |frames| ==> ValidLimit(limits[i]) && |frames[i]| <= limits[i]
  }

  /** Every list of frames the codec can write, each under a nesting limit of its own, is read back byte for byte,
      under any sufficient limits, whatever follows them. */
  lemma {:induction false} WrittenFramesAreReadBack(
    frames: seq<Bytes>, depths: seq<int>, limits: seq<int>, more: Bytes, ending: Ending)
    requires |depths| == |frames| && forall i :: 0 <= i < |frames| ==> Validate(frames[i], depths[i], true).None?
    requires Sufficient(frames, limits)
    ensures var readings := ReadMany(Stream(frames) + more, ending, limits);
            |readings| == |frames| && forall i :: 0 <= i < |frames| ==> readings[i] == Frame(frames[i])
  {
    if frames != [] {
      var frame, rest := frames[0], Stream(frames[1..]) + more;
      var s := Stream(frames) + more;
      AcceptedIsOneLine(frame, depths[0], true);
      assert s == frame + "\n" + rest;
      LineSplits(s, frame, rest);
      FrameVerdict(frame, limits[0]);
      WrittenFramesAreReadBack(frames[1..], depths[1..], limits[1..], more, ending);
      var readings := ReadMany(rest, ending, limits[1..]);
      assert ReadMany(s, ending, limits) == [Frame(frame)] + readings;
      forall i | 0 <= i < |frames|
        ensures ([Frame(frame)] + readings)[i] == Frame(frames[i])
      {
        if i > 0 {
          assert readings[i - 1] == Frame(frames[1..][i - 1]);
        }
      }
    }
  }

  lemma FrameVerdict(frame: Bytes, limit: int)
    requires frame != "" && OneLine(frame) && |frame| <= limit
    ensures LineVerdict(frame, limit) == Frame(frame)
  {
    assert frame[|frame| - 1] != '\r';
  }

  // ---------------------------------------------------------------- a writer and a reader

  /** A frame to be written, with the bounds it is written under and the limit it will be read under. */
  datatype Sending = Sending(frame: Encoding, maximumBytes: int, maximumDepth: int, limit: int)

  predicate Writable(s: Sending) { MarshalBounded(s.frame, s.maximumBytes, s.maximumDepth).Marshaled? }

  function TextOf(frame: Encoding): Bytes { if frame.json.Some? then frame.json.value else "" }

  function Texts(sendings: seq<Sending>): (texts: seq<Bytes>)
    ensures |texts| == |sendings|
    ensures forall i :: 0 <= i < |texts| ==> texts[i] == TextOf(sendings[i].frame)
  {
    seq(|sendings|, i requires 0 <= i < |sendings| => TextOf(sendings[i].frame))
  }

  lemma {:induction false} StreamGrows(frames: seq<Bytes>, next: Bytes)
    ensures Stream(frames + [next]) == Stream(frames) + (next + "\n")
  {
    if frames == [] {
      assert [next][1..] == [];
    } else {
      assert (frames + [next])[1..] == frames[1..] + [next];
      StreamGrows(frames[1..], next);
    }
  }

  lemma SentMore(sendings: seq<Sending>, sent: nat)
    requires sent < |sendings|
    ensures Stream(Texts(sendings)[..sent + 1])
        == Stream(Texts(sendings)[..sent]) + (TextOf(sendings[sent].frame) + "\n")
  {
    StreamGrows(Texts(sendings)[..sent], TextOf(sendings[sent].frame));
    assert Texts(sendings)[..sent + 1] == Texts(sendings)[..sent] + [TextOf(sendings[sent].frame)];
  }

  lemma Onwards(before: Bytes, lines: Bytes, line: Bytes)
    ensures before + lines + line == before + (lines + line)
  {}

  /** Writes the frames in order up to the first error: the sink has the lines of those sent, and perhaps a part of
      the next. */
  method WriteAll(sink: Sink, sendings: seq<Sending>) returns (sent: nat)
    modifies sink
    ensures sent <= |sendings|
    ensures old(sink.bytes) + Stream(Texts(sendings)[..sent]) <= sink.bytes
    ensures forall i :: 0 <= i < sent ==> Writable(sendings[i])
    ensures sent == |sendings| || !Writable(sendings[sent]) || sink.faults != old(sink.faults)
  {
    sent := 0;
    while sent < |sendings|
      invariant sent <= |sendings|
      invariant sink.bytes == old(sink.bytes) + Stream(Texts(sendings)[..sent]) && sink.faults == old(sink.faults)
      invariant forall i :: 0 <= i < sent ==> Writable(sendings[i])
    {
      var next := sendings[sent];
      var error := WriteBounded(sink, next.frame, next.maximumBytes, next.maximumDepth);
      if error.Some? {
        return;
      }
      SentMore(sendings, sent);
      Onwards(old(sink.bytes), Stream(Texts(sendings)[..sent]), TextOf(next.frame) + "\n");
      sent := sent + 1;
    }
  }

  lemma ReadMore(readings: seq<Reading>, s: Bytes, ending: Ending, limits: seq<int>, i: nat)
    requires i < |limits|
    ensures readings + ReadMany(s, ending, limits[i..])
         == readings + [Verdict(s, ending, limits[i])]
              + if Verdict(s, ending, limits[i]).Frame? then ReadMany(AfterLine(s), ending, limits[i + 1..]) else []
  {
    assert limits[i..][0] == limits[i] && limits[i..][1..] == limits[i + 1..];
  }

  /** Reads under the given limits up to the first reading that is not a frame. */
  method ReadAll(reader: FrameReader, limits: seq<int>) returns (readings: seq<Reading>)
    requires reader.Valid()
    modifies reader, reader.source
    ensures readings == ReadMany(old(reader.Unread()), reader.source.ending, limits)
  {
    readings := [];
    ghost var all := ReadMany(reader.Unread(), reader.source.ending, limits);
    var i := 0;
    assert limits[0..] == limits;
    while i < |limits|
      invariant i <= |limits| && reader.Valid()
      invariant all == readings + ReadMany(reader.Unread(), reader.source.ending, limits[i..])
    {
      ReadMore(readings, reader.Unread(), reader.source.ending, limits, i);
      var reading := reader.ReadFrameLimit(limits[i]);
      readings := readings + [reading];
      if !reading.Frame? {
        return;
      }
      i := i + 1;
    }
  }

  lemma Prefixed(start: Bytes, all: Bytes)
    requires start <= all
    ensures all == start + all[|start|..]
  {}

  lemma SentIsRead(sendings: seq<Sending>, sent: nat, bytes: Bytes, ending: Ending, limits: seq<int>)
    requires sent <= |sendings| && Stream(Texts(sendings)[..sent]) <= bytes && |limits| == sent
    requires forall i :: 0 <= i < sent ==> Writable(sendings[i]) && limits[i] == sendings[i].limit
    requires forall i :: 0 <= i < sent ==>
                           ValidLimit(sendings[i].limit) && sendings[i].maximumBytes <= sendings[i].limit
    ensures var readings := ReadMany(bytes, ending, limits);
            |readings| == sent && forall i :: 0 <= i < sent ==> readings[i] == Frame(TextOf(sendings[i].frame))
  {
    var frames := Texts(sendings)[..sent];
    var depths := seq(sent, i requires 0 <= i < sent => sendings[i].maximumDepth);
    Prefixed(Stream(frames), bytes);
    WrittenFramesAreReadBack(frames, depths, limits, bytes[|Stream(frames)|..], ending);
  }

  /** What one side writes, however short its writes, the other reads frame by frame, however the stream is cut: all
      frames up to the first that the codec does not take, unless a write goes wrong. */
  method Transfer(sink: Sink, sendings: seq<Sending>, ending: Ending) returns (sent: nat, readings: seq<Reading>)
    requires sink.bytes == ""
    requires forall i :: 0 <= i < |sendings| ==>
                           ValidLimit(sendings[i].limit) && sendings[i].maximumBytes <= sendings[i].limit
    modifies sink
    ensures sent <= |sendings| && |readings| == sent
    ensures sent == |sendings| || !Writable(sendings[sent]) || sink.faults != old(sink.faults)
    ensures forall i :: 0 <= i < sent ==> Writable(sendings[i])
    ensures forall i :: 0 <= i < sent ==>
                          sendings[i].frame.json.Some? && readings[i] == Frame(sendings[i].frame.json.value)
  {
    sent := WriteAll(sink, sendings);
    var source := new Source(sink.bytes, ending);
    var reader := new FrameReader(source, 0);
    var limits := seq(sent, i requires 0 <= i < sent => sendings[i].limit);
    readings := ReadAll(reader, limits);
    SentIsRead(sendings, sent, sink.bytes, ending, limits);
  }
}
