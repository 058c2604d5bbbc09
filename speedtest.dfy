/** The host speed test (`dgs-speedtest`).

    The tool picks the serial port of the capture device, then loops for ever: it
    restarts its counters every 250 ms, appends whatever the port delivered to the bytes
    it holds, and cuts off at most one zero-terminated frame per turn, which it decodes and
    counts. */
module Speedtest {
  import opened Common

  /** Length of one statistics window, in milliseconds. */
  const WINDOW_MS: nat := 250

  // ---------------------------------------------------------------------------------
  // Port selection

  /** The kinds of port `serialport::available_ports()` reports; only a USB port carries
      a serial number. */
  datatype PortType = UsbPort(serialNumber: Option<string>) | OtherPort

  datatype PortInfo = PortInfo(name: string, portType: PortType)

  predicate IsUpper(c: char)
  {
    'A' <= c <= 'Z'
  }

  function LowerChar(c: char): char
  {
    if IsUpper(c) then (c as int + 32) as char else c
  }

  /** `str::to_lowercase`, over ASCII letters: every upper-case letter becomes its
      lower-case form and every other character is kept. */
  function ToLower(s: string): (r: string)
    ensures |r| == |s|
    ensures forall i :: 0 <= i < |r| ==> !IsUpper(r[i])
    ensures forall i :: 0 <= i < |s| && !IsUpper(s[i]) ==> r[i] == s[i]
    ensures forall i :: 0 <= i < |s| && IsUpper(s[i]) ==> r[i] as int == s[i] as int + 32
  {
    seq(|s|, i requires 0 <= i < |s| => LowerChar(s[i]))
  }

  predicate IsPrefix(p: string, s: string)
  {
    |p| <= |s| && s[..|p|] == p
  }

  /** `str::contains`: the pattern occurs somewhere in the text. */
  function Contains(s: string, pat: string): (r: bool)
    ensures r <==> exists i :: 0 <= i <= |s| && IsPrefix(pat, s[i..])
    decreases |s|
  {
    assert s[0..] == s;
    if IsPrefix(pat, s) then true
    else if s == [] then false
    else
      var rest := Contains(s[1..], pat);
      assert forall i :: 1 <= i <= |s| ==> s[1..][i - 1..] == s[i..];
      rest
  }

  /** A USB port whose serial number contains "diegesis", in any letter case. */
  predicate IsDiegesis(p: PortInfo)
  {
    p.portType.UsbPort? && p.portType.serialNumber.Some?
    && Contains(ToLower(p.portType.serialNumber.value), "diegesis")
  }

  /** The port loop: every matching port overwrites the choice, so the LAST match wins;
      no match leaves nothing, which the tool's `unwrap` turns into a panic. */
  method SelectPort(ports: seq<PortInfo>) returns (r: Option<string>)
    ensures r.None? <==> forall i :: 0 <= i < |ports| ==> !IsDiegesis(ports[i])
    ensures r.Some? ==> exists i :: 0 <= i < |ports| && IsDiegesis(ports[i]) && ports[i].name == r.value
                                    && forall j :: i < j < |ports| ==> !IsDiegesis(ports[j])
  {
    r := None;
    ghost var last := -1;
    var k := 0;
    while k < |ports|
      invariant 0 <= k <= |ports|
      invariant -1 <= last < k
      invariant r.None? <==> last == -1
      invariant last == -1 ==> forall i :: 0 <= i < k ==> !IsDiegesis(ports[i])
      invariant last >= 0 ==> IsDiegesis(ports[last]) && r == Some(ports[last].name)
      invariant forall j :: last < j < k ==> !IsDiegesis(ports[j])
    {
      match ports[k].portType {
        case UsbPort(num) =>
          if num.Some? && Contains(ToLower(num.value), "diegesis") {
            r := Some(ports[k].name);
            last := k;
          }
        case OtherPort =>
      }
      k := k + 1;
    }
  }

  // ---------------------------------------------------------------------------------
  // Splitting frames off the received bytes

  /** `current.iter().position(|b| *b == 0)`: the index of the first zero. */
  function FirstZero(s: seq<byte>): (r: Option<nat>)
    ensures r.None? <==> 0 !in s
    ensures r.Some? ==> r.value < |s| && s[r.value] == 0 && 0 !in s[..r.value]
    decreases |s|
  {
    if s == [] then None
    else if s[0] == 0 then Some(0)
    else
      match FirstZero(s[1..])
      case None => None
      case Some(k) =>
        assert s[..k + 1] == [s[0]] + s[1..][..k];
        Some(k + 1)
  }

  /** `split_off(pos + 1)` at the first zero: the frame before it and the bytes after
      it. Nothing is cut when no zero has arrived. */
  function SplitFrame(s: seq<byte>): (r: Option<(seq<byte>, seq<byte>)>)
    ensures r.None? <==> 0 !in s
    ensures r.Some? ==> s == r.value.0 + [0] + r.value.1 && 0 !in r.value.0
  {
    match FirstZero(s)
    case None => None
    case Some(pos) =>
      assert s == s[..pos] + [0] + s[pos + 1..];
      Some((s[..pos], s[pos + 1..]))
  }

  /** A frame split this way is the only one: the split is determined by the bytes. */
  lemma {:induction false} SplitFrameUnique(s: seq<byte>, f: seq<byte>, rest: seq<byte>)
    requires s == f + [0] + rest && 0 !in f
    ensures SplitFrame(s) == Some((f, rest))
  {
    assert s[|f|] == 0;
    assert forall i :: 0 <= i < |f| ==> s[i] == f[i];
    var g := SplitFrame(s).value.0;
    assert |g| == |f|;
    assert g == s[..|f|] == f;
    assert rest == s[|f| + 1..];
  }

  // ---------------------------------------------------------------------------------
  // One turn of the receive loop

  /** What `port.read(..)` answered: some bytes, a timeout, or any other error. */
  datatype ReadResult = Read(data: seq<byte>) | TimedOut | ReadFailed

  /** The bytes a read delivered; a timeout delivers none. */
  function Data(read: ReadResult): seq<byte>
  {
    if read.Read? then read.data else []
  }

  /** The loop's state: the bytes held back (`current`) and the two window counters. */
  datatype LoopState = LoopState(current: seq<byte>, bytesRxd: nat, bytesDec: nat)

  /** A turn either stops the tool or continues with a new state and the frame it cut
      (if any). */
  datatype Turn = Halted | Continued(state: LoopState, frame: Option<seq<byte>>)

  /** One turn. `elapsedMs` is the time since the window started; `decode` is the
      external frame decoder, `None` standing for the decoding error that `unwrap`
      turns into a panic. */
  function ReceiveTurn(s: LoopState, elapsedMs: nat, read: ReadResult,
                       decode: seq<byte> -> Option<seq<byte>>): Turn
  {
    var rxd := if elapsedMs >= WINDOW_MS then 0 else s.bytesRxd;
    var dec := if elapsedMs >= WINDOW_MS then 0 else s.bytesDec;
    if read.ReadFailed? then Halted
    else
      var cur := s.current + Data(read);
      match SplitFrame(cur)
      case None => Continued(LoopState(cur, rxd + |Data(read)|, dec), None)
      case Some((frame, rest)) =>
        match decode(frame)
        case None => Halted
        case Some(decoded) => Continued(LoopState(rest, rxd + |Data(read)|, dec + |decoded|), Some(frame))
  }

  /** What one turn does. */
  lemma TurnMeaning(s: LoopState, elapsedMs: nat, read: ReadResult, decode: seq<byte> -> Option<seq<byte>>)
    // a read error other than a timeout stops the tool
    ensures var r := ReceiveTurn(s, elapsedMs, read, decode);
            read.ReadFailed? ==> r.Halted?
    // no byte is lost or duplicated: the held bytes plus the new ones are the frame,
    // its terminator and what is held afterwards
    ensures var r := ReceiveTurn(s, elapsedMs, read, decode);
            r.Continued? ==>
              s.current + Data(read) == (if r.frame.Some? then r.frame.value + [0] else []) + r.state.current
    // the frame is cut at the first zero, and one is cut whenever a zero has arrived
    ensures var r := ReceiveTurn(s, elapsedMs, read, decode);
            r.Continued? && r.frame.Some? ==> 0 !in r.frame.value
    ensures var r := ReceiveTurn(s, elapsedMs, read, decode);
            r.Continued? ==> (r.frame.None? <==> 0 !in s.current + Data(read))
    // every received byte is counted, in a window restarted after 250 ms
    ensures var r := ReceiveTurn(s, elapsedMs, read, decode);
            r.Continued? ==>
              r.state.bytesRxd == (if elapsedMs >= WINDOW_MS then 0 else s.bytesRxd) + |Data(read)|
    // a cut frame is decoded, and its decoded length counted
    ensures var r := ReceiveTurn(s, elapsedMs, read, decode);
            r.Continued? && r.frame.Some? ==>
              decode(r.frame.value).Some?
              && r.state.bytesDec == (if elapsedMs >= WINDOW_MS then 0 else s.bytesDec) + |decode(r.frame.value).value|
    ensures var r := ReceiveTurn(s, elapsedMs, read, decode);
            r.Continued? && r.frame.None? ==>
              r.state.bytesDec == (if elapsedMs >= WINDOW_MS then 0 else s.bytesDec)
    // the only other way to stop is a frame the decoder rejects
    ensures var r := ReceiveTurn(s, elapsedMs, read, decode);
            r.Halted? && !read.ReadFailed? ==>
              var sp := SplitFrame(s.current + Data(read));
              sp.Some? && decode(sp.value.0).None?
  {
  }

  /** The inputs of one turn. */
  datatype Input = Input(elapsedMs: nat, read: ReadResult)

  /** The bytes a sequence of turns received. */
  function Received(inputs: seq<Input>): seq<byte>
  {
    if inputs == [] then [] else Data(inputs[0].read) + Received(inputs[1..])
  }

  /** The frames joined back together with their terminators. */
  function Joined(frames: seq<seq<byte>>): seq<byte>
  {
    if frames == [] then [] else frames[0] + [0] + Joined(frames[1..])
  }

  function FrameSeq(f: Option<seq<byte>>): seq<seq<byte>>
  {
    if f.Some? then [f.value] else []
  }

  /** Where a run of turns ends: stopped, or a final state and the frames cut on the way. */
  datatype Trace = Stopped | Reached(state: LoopState, frames: seq<seq<byte>>)

  function Run(s: LoopState, inputs: seq<Input>, decode: seq<byte> -> Option<seq<byte>>): Trace
    decreases |inputs|
  {
    if inputs == [] then Reached(s, [])
    else
      match ReceiveTurn(s, inputs[0].elapsedMs, inputs[0].read, decode)
      case Halted => Stopped
      case Continued(s', f) =>
        match Run(s', inputs[1..], decode)
        case Stopped => Stopped
        case Reached(last, fs) => Reached(last, FrameSeq(f) + fs)
  }

  /** A run that continues past its first turn ends where the rest of it ends, with the
      first turn's frame in front. */
  lemma RunUnfolds(s: LoopState, inputs: seq<Input>, decode: seq<byte> -> Option<seq<byte>>)
    requires inputs != []
    requires ReceiveTurn(s, inputs[0].elapsedMs, inputs[0].read, decode).Continued?
    ensures var turn := ReceiveTurn(s, inputs[0].elapsedMs, inputs[0].read, decode);
            var t := Run(turn.state, inputs[1..], decode);
            Run(s, inputs, decode) == if t.Stopped? then Stopped else Reached(t.state, FrameSeq(turn.frame) + t.frames)
  {
  }

  /** Over any run that does not stop, the bytes held at the start and every byte received
      are exactly the frames cut, each with its terminator, followed by the bytes still
      held, and no frame contains a zero. */
  lemma {:induction false} RunKeepsEveryByte(s: LoopState, inputs: seq<Input>, decode: seq<byte> -> Option<seq<byte>>)
    ensures var t := Run(s, inputs, decode);
            t.Reached? ==> s.current + Received(inputs) == Joined(t.frames) + t.state.current
                           && forall k :: 0 <= k < |t.frames| ==> 0 !in t.frames[k]
    decreases |inputs|
  {
    if inputs != [] {
      var turn := ReceiveTurn(s, inputs[0].elapsedMs, inputs[0].read, decode);
      if turn.Continued? {
        var s', f := turn.state, turn.frame;
        TurnMeaning(s, inputs[0].elapsedMs, inputs[0].read, decode);
        RunKeepsEveryByte(s', inputs[1..], decode);
        RunUnfolds(s, inputs, decode);
        var t := Run(s', inputs[1..], decode);
        if t.Reached? {
          JoinedAfter(f, t.frames);
          Regroup(s.current, Data(inputs[0].read), Received(inputs[1..]),
                  if f.Some? then f.value + [0] else [], s'.current, Joined(t.frames), t.state.current);
          forall k | 0 <= k < |FrameSeq(f) + t.frames| ensures 0 !in (FrameSeq(f) + t.frames)[k] {
            if k >= |FrameSeq(f)| {
              assert (FrameSeq(f) + t.frames)[k] == t.frames[k - |FrameSeq(f)|];
            }
          }
        }
      }
    }
  }

  lemma JoinedAfter(f: Option<seq<byte>>, frames: seq<seq<byte>>)
    ensures Joined(FrameSeq(f) + frames) == (if f.Some? then f.value + [0] else []) + Joined(frames)
  {
    if f.Some? {
      assert (FrameSeq(f) + frames)[1..] == frames;
    } else {
      assert FrameSeq(f) + frames == frames;
    }
  }

  /** Regrouping the bytes of one turn in front of the rest of a run. */
  lemma Regroup(held: seq<byte>, data: seq<byte>, later: seq<byte>, head: seq<byte>, held': seq<byte>,
                joined: seq<byte>, last: seq<byte>)
    requires held + data == head + held'
    requires held' + later == joined + last
    ensures held + (data + later) == head + joined + last
  {
    calc {
      held + (data + later);
      (held + data) + later;
      head + (held' + later);
    }
  }

  /** Within one window, every byte received is counted in `bytes_rxd`. */
  lemma {:induction false} RunCountsEveryByte(s: LoopState, inputs: seq<Input>, decode: seq<byte> -> Option<seq<byte>>)
    requires forall k :: 0 <= k < |inputs| ==> inputs[k].elapsedMs < WINDOW_MS
    ensures var t := Run(s, inputs, decode);
            t.Reached? ==> t.state.bytesRxd == s.bytesRxd + |Received(inputs)|
    decreases |inputs|
  {
    if inputs != [] {
      var turn := ReceiveTurn(s, inputs[0].elapsedMs, inputs[0].read, decode);
      if turn.Continued? {
        TurnMeaning(s, inputs[0].elapsedMs, inputs[0].read, decode);
        RunCountsEveryByte(turn.state, inputs[1..], decode);
        RunUnfolds(s, inputs, decode);
      }
    }
  }

  // ---------------------------------------------------------------------------------
  // The receive loop's variables

  class Receiver {
    var current: seq<byte>
    var bytesRxd: nat
    var bytesDec: nat

    function State(): LoopState
      reads this
    {
      LoopState(current, bytesRxd, bytesDec)
    }

    constructor()
      ensures State() == LoopState([], 0, 0)
    {
      current := [];
      bytesRxd := 0;
      bytesDec := 0;
    }

    /** One turn of the loop; `halted` means the tool exits (or panics) here. */
    method Turn(elapsedMs: nat, read: ReadResult, decode: seq<byte> -> Option<seq<byte>>)
      returns (halted: bool)
      modifies this
      ensures halted <==> ReceiveTurn(old(State()), elapsedMs, read, decode).Halted?
      ensures !halted ==> State() == ReceiveTurn(old(State()), elapsedMs, read, decode).state
    {
      var cur, rxd, dec := current, bytesRxd, bytesDec;
      if elapsedMs >= WINDOW_MS {
        rxd, dec := 0, 0;
      }
      match read {
        case Read(data) =>
          rxd := rxd + |data|;
          cur := cur + data;
        case TimedOut =>
        case ReadFailed =>
          return true;
      }
      assert cur == current + Data(read);
      var pos := FirstZero(cur);
      if pos.Some? {
        var remainder := cur[pos.value + 1..];
        assert SplitFrame(cur) == Some((cur[..pos.value], remainder));
        var decoded := decode(cur[..pos.value]);
        if decoded.None? {
          return true;
        }
        dec := dec + |decoded.value|;
        cur := remainder;
      }
      current, bytesRxd, bytesDec := cur, rxd, dec;
      halted := false;
    }
  }
}
