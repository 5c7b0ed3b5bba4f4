/**
 * Shared vocabulary of the two tutorial programs: bytes, decimal rendering
 * (std::to_string), the streams of a container and the first-match search
 * over them, packets, frames, the decoder seen as an oracle, and the
 * specification of the read/send/drain/unref packet pump that both `main`
 * functions run.
 */
module Media {

  datatype Option<T> = None | Some(value: T)

  newtype byte = x: int | 0 <= x < 256

  // ---------------------------------------------------------------------
  // Decimal rendering, as std::to_string does it for int
  // ---------------------------------------------------------------------

  predicate IsDigit(c: char) {
    '0' <= c <= '9'
  }

  predicate AllDigits(s: string) {
    forall i :: 0 <= i < |s| ==> IsDigit(s[i])
  }

  function DigitChar(d: nat): (c: char)
    requires d < 10
    ensures IsDigit(c) && c as int - '0' as int == d
  {
    ('0' as int + d) as char
  }

  /** The shortest decimal numeral of n (no leading zeros). */
  function NatToString(n: nat): (s: string)
    ensures |s| >= 1 && AllDigits(s)
    decreases n
  {
    if n < 10 then [DigitChar(n)] else NatToString(n / 10) + [DigitChar(n % 10)]
  }

  /** std::to_string(int): a minus sign, then the numeral of the magnitude. */
  function IntToString(n: int): string {
    if n < 0 then "-" + NatToString(-n) else NatToString(n)
  }

  /** The value of a numeral. */
  function DigitsValue(s: string): nat
    requires AllDigits(s)
  {
    if s == [] then 0
    else
      assert IsDigit(s[|s| - 1]);
      DigitsValue(s[..|s| - 1]) * 10 + (s[|s| - 1] as int - '0' as int)
  }

  /**
   * A decimal numeral with an optional leading '-'; None for anything that is
   * not one. Leading zeros and "-0" are accepted, so this reads back more than
   * IntToString writes, and reads what it writes exactly.
   */
  function ParseInt(s: string): Option<int> {
    if |s| > 1 && s[0] == '-' && AllDigits(s[1..]) then Some(0 - DigitsValue(s[1..]) as int)
    else if |s| > 0 && AllDigits(s) then Some(DigitsValue(s))
    else None
  }

  lemma {:induction false} NatToStringValue(n: nat)
    ensures DigitsValue(NatToString(n)) == n
    decreases n
  {
    if n >= 10 {
      NatToStringValue(n / 10);
      var s := NatToString(n);
      assert s[..|s| - 1] == NatToString(n / 10);
    }
  }

  /** IntToString is read back exactly, so distinct numbers get distinct numerals. */
  lemma IntToStringRoundTrip(n: int)
    ensures ParseInt(IntToString(n)) == Some(n)
  {
    if n < 0 {
      NatToStringValue(-n);
      assert IntToString(n)[1..] == NatToString(-n);
    } else {
      NatToStringValue(n);
      assert NatToString(n)[0] != '-';
    }
  }

  lemma IntToStringInjective(m: int, n: int)
    ensures IntToString(m) == IntToString(n) <==> m == n
  {
    IntToStringRoundTrip(m);
    IntToStringRoundTrip(n);
  }

  // ---------------------------------------------------------------------
  // Streams and the first-match search (get_video_stream, get_stream_by_type)
  // ---------------------------------------------------------------------

  datatype MediaType = Unknown | Video | Audio | Data | Subtitle | Attachment

  /** AVStream: its position in the container and codecpar->codec_type. */
  datatype Stream = Stream(index: int, codecType: MediaType)

  /** The position of the first stream at or after i whose type is t. */
  function FirstFrom(streams: seq<Stream>, t: MediaType, i: nat): (r: Option<nat>)
    requires i <= |streams|
    ensures r.Some? ==> i <= r.value < |streams| && streams[r.value].codecType == t
    ensures r.Some? ==> forall j :: i <= j < r.value ==> streams[j].codecType != t
    ensures r.None? ==> forall j :: i <= j < |streams| ==> streams[j].codecType != t
    decreases |streams| - i
  {
    if i == |streams| then None
    else if streams[i].codecType == t then Some(i)
    else FirstFrom(streams, t, i + 1)
  }

  /** The lowest position whose stream has type t, or None when there is none. */
  function FirstOfType(streams: seq<Stream>, t: MediaType): (r: Option<nat>)
    ensures r.Some? ==> r.value < |streams| && streams[r.value].codecType == t
    ensures r.Some? ==> forall j :: 0 <= j < r.value ==> streams[j].codecType != t
    ensures r.None? <==> forall j :: 0 <= j < |streams| ==> streams[j].codecType != t
  {
    FirstFrom(streams, t, 0)
  }

  /** The index loop with early return of both programs' stream lambdas. */
  method GetStreamByType(streams: seq<Stream>, t: MediaType) returns (found: Option<nat>)
    ensures found == FirstOfType(streams, t)
  {
    var i := 0;
    while i < |streams|
      invariant 0 <= i <= |streams|
      invariant FirstFrom(streams, t, i) == FirstOfType(streams, t)
    {
      if streams[i].codecType == t {
        return Some(i);
      }
      i := i + 1;
    }
    return None;
  }

  // ---------------------------------------------------------------------
  // Packets, frames and the decoder oracle
  // ---------------------------------------------------------------------

  /** AVPacket: the stream it belongs to and its compressed payload. */
  datatype Packet = Packet(streamIndex: int, payload: seq<byte>)

  /** AVFrame as the programs look at it: the decoder's picture counter. */
  datatype Frame = Frame(codedPictureNumber: int)

  /**
   * What the codec does with one avcodec_send_packet: reject it (a negative
   * error code), or accept it, after which avcodec_receive_frame returns 0
   * once for each of `frames` and then a non-zero code.
   */
  datatype SendReply = Rejected(errnum: int) | Accepted(frames: seq<Frame>)

  /**
   * The codec as an oracle: its reply to a packet, given every packet
   * submitted to it before (which stands for its hidden internal state).
   */
  type Decoder = (seq<Packet>, Packet) -> SendReply

  // ---------------------------------------------------------------------
  // The packet pump: `while (av_read_frame(...) >= 0) { ... av_packet_unref }`
  // ---------------------------------------------------------------------

  /** What the pump does, in order; A is what a program does per frame. */
  datatype Effect<A> =
    | Read(packet: Packet)   // av_read_frame delivered this packet
    | Send(packet: Packet)   // avcodec_send_packet
    | Unref                  // av_packet_unref
    | Act(action: A)         // program-specific work for a drained frame

  /** The packets of the selected stream, in container order. */
  function Matching(ps: seq<Packet>, sel: int): seq<Packet> {
    if ps == [] then []
    else Matching(ps[..|ps| - 1], sel) + (if ps[|ps| - 1].streamIndex == sel then [ps[|ps| - 1]] else [])
  }

  function Acts<A>(xs: seq<A>): seq<Effect<A>> {
    if xs == [] then [] else Acts(xs[..|xs| - 1]) + [Act(xs[|xs| - 1])]
  }

  /** The per-frame work for every frame of fs, in order, as effects. */
  function Drain<A>(fs: seq<Frame>, onFrame: Frame -> seq<A>): seq<Effect<A>> {
    if fs == [] then [] else Drain(fs[..|fs| - 1], onFrame) + Acts(onFrame(fs[|fs| - 1]))
  }

  /** The per-frame work for every frame of fs, in order. */
  function Expand<A>(fs: seq<Frame>, onFrame: Frame -> seq<A>): seq<A> {
    if fs == [] then [] else Expand(fs[..|fs| - 1], onFrame) + onFrame(fs[|fs| - 1])
  }

  /** One iteration of the pump for packet p, after `sent` went to the codec. */
  function PacketEffects<A>(p: Packet, sel: int, sent: seq<Packet>, dec: Decoder, onFrame: Frame -> seq<A>): seq<Effect<A>> {
    [Read(p)]
    + (if p.streamIndex != sel then []
       else [Send(p)] + match dec(sent, p) {
                          case Rejected(_) => []
                          case Accepted(fs) => Drain(fs, onFrame)
                        })
    + [Unref]
  }

  /** Everything the pump does for the packets ps, read in this order. */
  function PumpTrace<A>(ps: seq<Packet>, sel: int, dec: Decoder, onFrame: Frame -> seq<A>): seq<Effect<A>> {
    if ps == [] then []
    else
      var k := |ps| - 1;
      PumpTrace(ps[..k], sel, dec, onFrame) + PacketEffects(ps[k], sel, Matching(ps[..k], sel), dec, onFrame)
  }

  /** Every frame the codec hands back while the pump reads ps, in order. */
  function Received(ps: seq<Packet>, sel: int, dec: Decoder): seq<Frame> {
    if ps == [] then []
    else
      var k := |ps| - 1;
      Received(ps[..k], sel, dec)
      + (if ps[k].streamIndex != sel then []
         else match dec(Matching(ps[..k], sel), ps[k]) {
                case Rejected(_) => []
                case Accepted(fs) => fs
              })
  }

  // Observations of a pump trace.

  /** The packets submitted to the codec. */
  function Sent<A>(t: seq<Effect<A>>): seq<Packet> {
    if t == [] then []
    else (if t[0].Send? then [t[0].packet] else []) + Sent(t[1..])
  }

  /** The reads and unrefs, in order, with everything else left out. */
  function Markers<A>(t: seq<Effect<A>>): seq<Effect<A>> {
    if t == [] then []
    else (if t[0].Read? || t[0].Unref? then [t[0]] else []) + Markers(t[1..])
  }

  /** The program-specific per-frame actions. */
  function Actions<A>(t: seq<Effect<A>>): seq<A> {
    if t == [] then []
    else (if t[0].Act? then [t[0].action] else []) + Actions(t[1..])
  }

  /** Read of each packet immediately followed by its unref, packet after packet. */
  function ReadUnrefPairs<A>(ps: seq<Packet>): seq<Effect<A>> {
    if ps == [] then [] else ReadUnrefPairs(ps[..|ps| - 1]) + [Read(ps[|ps| - 1]), Unref]
  }

  lemma {:induction false} SentAppend<A>(a: seq<Effect<A>>, b: seq<Effect<A>>)
    ensures Sent(a + b) == Sent(a) + Sent(b)
  {
    if a != [] {
      assert (a + b)[1..] == a[1..] + b;
      SentAppend(a[1..], b);
    } else {
      assert a + b == b;
    }
  }

  lemma {:induction false} MarkersAppend<A>(a: seq<Effect<A>>, b: seq<Effect<A>>)
    ensures Markers(a + b) == Markers(a) + Markers(b)
  {
    if a != [] {
      assert (a + b)[1..] == a[1..] + b;
      MarkersAppend(a[1..], b);
    } else {
      assert a + b == b;
    }
  }

  lemma {:induction false} ActionsAppend<A>(a: seq<Effect<A>>, b: seq<Effect<A>>)
    ensures Actions(a + b) == Actions(a) + Actions(b)
  {
    if a != [] {
      assert (a + b)[1..] == a[1..] + b;
      ActionsAppend(a[1..], b);
    } else {
      assert a + b == b;
    }
  }

  lemma {:induction false} ActsObserved<A>(xs: seq<A>)
    ensures Sent(Acts(xs)) == [] && Markers(Acts(xs)) == [] && Actions(Acts(xs)) == xs
  {
    if xs != [] {
      var k := |xs| - 1;
      ActsObserved(xs[..k]);
      SentAppend(Acts(xs[..k]), [Act(xs[k])]);
      MarkersAppend(Acts(xs[..k]), [Act(xs[k])]);
      ActionsAppend(Acts(xs[..k]), [Act(xs[k])]);
      assert xs == xs[..k] + [xs[k]];
    }
  }

  /** Draining frames submits nothing, reads nothing, releases nothing. */
  lemma {:induction false} DrainObserved<A>(fs: seq<Frame>, onFrame: Frame -> seq<A>)
    ensures Sent(Drain(fs, onFrame)) == []
    ensures Markers(Drain(fs, onFrame)) == []
    ensures Actions(Drain(fs, onFrame)) == Expand(fs, onFrame)
  {
    if fs != [] {
      var k := |fs| - 1;
      DrainObserved(fs[..k], onFrame);
      ActsObserved(onFrame(fs[k]));
      SentAppend(Drain(fs[..k], onFrame), Acts(onFrame(fs[k])));
      MarkersAppend(Drain(fs[..k], onFrame), Acts(onFrame(fs[k])));
      ActionsAppend(Drain(fs[..k], onFrame), Acts(onFrame(fs[k])));
    }
  }

  lemma PacketEffectsObserved<A>(p: Packet, sel: int, sent: seq<Packet>, dec: Decoder, onFrame: Frame -> seq<A>)
    ensures Sent(PacketEffects(p, sel, sent, dec, onFrame)) == (if p.streamIndex == sel then [p] else [])
    ensures Markers(PacketEffects(p, sel, sent, dec, onFrame)) == [Read(p), Unref]
    ensures Actions(PacketEffects(p, sel, sent, dec, onFrame))
         == (if p.streamIndex != sel then []
             else match dec(sent, p) {
                    case Rejected(_) => []
                    case Accepted(fs) => Expand(fs, onFrame)
                  })
  {
    var middle: seq<Effect<A>> := if p.streamIndex != sel then [] else [Send(p)] + match dec(sent, p) {
                                                  case Rejected(_) => []
                                                  case Accepted(fs) => Drain(fs, onFrame)
                                                };
    assert PacketEffects(p, sel, sent, dec, onFrame) == [Read(p)] + middle + [Unref];
    SentAppend([Read(p)], middle);
    SentAppend([Read(p)] + middle, [Unref]);
    MarkersAppend([Read(p)], middle);
    MarkersAppend([Read(p)] + middle, [Unref]);
    ActionsAppend([Read(p)], middle);
    ActionsAppend([Read(p)] + middle, [Unref]);
    if p.streamIndex == sel {
      var rest: seq<Effect<A>> := match dec(sent, p) {
                                    case Rejected(_) => []
                                    case Accepted(fs) => Drain(fs, onFrame)
                                  };
      SentAppend([Send(p)], rest);
      MarkersAppend([Send(p)], rest);
      ActionsAppend([Send(p)], rest);
      if dec(sent, p).Accepted? {
        DrainObserved(dec(sent, p).frames, onFrame);
      }
    }
  }

  /** Exactly the packets of the selected stream reach the codec, in order. */
  lemma {:induction false} PumpSendsMatching<A>(ps: seq<Packet>, sel: int, dec: Decoder, onFrame: Frame -> seq<A>)
    ensures Sent(PumpTrace(ps, sel, dec, onFrame)) == Matching(ps, sel)
  {
    if ps != [] {
      var k := |ps| - 1;
      PumpSendsMatching(ps[..k], sel, dec, onFrame);
      SentAppend(PumpTrace(ps[..k], sel, dec, onFrame), PacketEffects(ps[k], sel, Matching(ps[..k], sel), dec, onFrame));
      PacketEffectsObserved(ps[k], sel, Matching(ps[..k], sel), dec, onFrame);
    }
  }

  /**
   * Every packet read is released exactly once, before the next read:
   * leaving everything else out, the trace is read, unref, read, unref, ...
   * over the packets in container order.
   */
  lemma {:induction false} PumpReadThenUnref<A>(ps: seq<Packet>, sel: int, dec: Decoder, onFrame: Frame -> seq<A>)
    ensures Markers(PumpTrace(ps, sel, dec, onFrame)) == ReadUnrefPairs(ps)
  {
    if ps != [] {
      var k := |ps| - 1;
      PumpReadThenUnref(ps[..k], sel, dec, onFrame);
      MarkersAppend(PumpTrace(ps[..k], sel, dec, onFrame), PacketEffects(ps[k], sel, Matching(ps[..k], sel), dec, onFrame));
      PacketEffectsObserved(ps[k], sel, Matching(ps[..k], sel), dec, onFrame);
    }
  }

  /**
   * The per-frame work is done once for every frame the codec yields after an
   * accepted packet, in order, and for nothing else: a rejected packet yields
   * no frame work.
   */
  lemma {:induction false} PumpActionsPerFrame<A>(ps: seq<Packet>, sel: int, dec: Decoder, onFrame: Frame -> seq<A>)
    ensures Actions(PumpTrace(ps, sel, dec, onFrame)) == Expand(Received(ps, sel, dec), onFrame)
  {
    if ps != [] {
      var k := |ps| - 1;
      PumpActionsPerFrame(ps[..k], sel, dec, onFrame);
      ActionsAppend(PumpTrace(ps[..k], sel, dec, onFrame), PacketEffects(ps[k], sel, Matching(ps[..k], sel), dec, onFrame));
      PacketEffectsObserved(ps[k], sel, Matching(ps[..k], sel), dec, onFrame);
      var fs: seq<Frame> := if ps[k].streamIndex != sel then []
                            else match dec(Matching(ps[..k], sel), ps[k]) {
                                   case Rejected(_) => []
                                   case Accepted(fs) => fs
                                 };
      ExpandAppend(Received(ps[..k], sel, dec), fs, onFrame);
    }
  }

  lemma {:induction false} ExpandAppend<A>(fs: seq<Frame>, gs: seq<Frame>, onFrame: Frame -> seq<A>)
    ensures Expand(fs + gs, onFrame) == Expand(fs, onFrame) + Expand(gs, onFrame)
    decreases |gs|
  {
    if gs != [] {
      var k := |gs| - 1;
      assert (fs + gs)[..|fs + gs| - 1] == fs + gs[..k];
      ExpandAppend(fs, gs[..k], onFrame);
    } else {
      assert fs + gs == fs;
    }
  }

  /** The action of every Act element of a pump trace is one of the trace's Actions. */
  lemma {:induction false} PumpTraceActsFromFrames<A>(ps: seq<Packet>, sel: int, dec: Decoder, onFrame: Frame -> seq<A>, i: nat)
    requires i < |PumpTrace(ps, sel, dec, onFrame)|
    ensures PumpTrace(ps, sel, dec, onFrame)[i].Act? ==> PumpTrace(ps, sel, dec, onFrame)[i].action in Actions(PumpTrace(ps, sel, dec, onFrame))
  {
    var t := PumpTrace(ps, sel, dec, onFrame);
    ActionsAppend(t[..i], t[i..]);
    assert t == t[..i] + t[i..];
    assert t[i..] == [t[i]] + t[i + 1..];
    ActionsAppend([t[i]], t[i + 1..]);
  }
}
