// The client transport: an adaptive pacer in front of the socket, with retransmission of unconfirmed
// frames after a rate-limit error and a hand-off of everything pending on reconnect. Times are
// milliseconds.
module TransportModel {
  import opened Wrappers

  datatype Envelope = Envelope(messageId: string, payload: string)

  // One transmission; `era` counts hand-offs and closes.
  datatype Sent = Sent(frame: Envelope, at: int, era: nat)

  const GAP_FLOOR := 55
  const GAP_CAP := 1000
  const CLEAN_STREAK := 8
  const MAX_UNCONFIRMED := 256

  // The last seven fields record what has happened; no decision reads them.
  datatype State = State(
    publishQueue: seq<Envelope>,
    unconfirmed: seq<Envelope>,
    publishDue: Option<int>,
    retryDue: Option<int>,
    gap: nat,
    clean: nat,
    published: seq<Envelope>,
    receipted: seq<Envelope>,
    dropped: seq<Envelope>,
    handedOff: seq<Envelope>,
    cleared: seq<Envelope>,
    sends: seq<Sent>,
    era: nat)

  const START := State([], [], None, None, GAP_FLOOR, 0, [], [], [], [], [], [], 0)

  // ---- Insertion-ordered map of unconfirmed frames, keyed by message id ------------------------------

  predicate HasId(s: seq<Envelope>, id: string) {
    exists i :: 0 <= i < |s| && s[i].messageId == id
  }

  // Setting an existing key keeps its place.
  function SetFrame(s: seq<Envelope>, e: Envelope): seq<Envelope> {
    if |s| == 0 then [e]
    else if s[0].messageId == e.messageId then [e] + s[1..]
    else [s[0]] + SetFrame(s[1..], e)
  }

  function DeleteId(s: seq<Envelope>, id: string): seq<Envelope> {
    if |s| == 0 then [] else if s[0].messageId == id then s[1..] else [s[0]] + DeleteId(s[1..], id)
  }

  function FindId(s: seq<Envelope>, id: string): seq<Envelope> {
    if |s| == 0 then [] else if s[0].messageId == id then [s[0]] else FindId(s[1..], id)
  }

  // How many of the oldest frames the bound pushes out.
  function Excess(s: seq<Envelope>): nat {
    if |s| > MAX_UNCONFIRMED then |s| - MAX_UNCONFIRMED else 0
  }

  // ---- The operations on values ----------------------------------------------------------------------

  // `sendOk` says whether the socket takes the frame or throws.
  function Drain(s: State, now: int, sendOk: bool): State {
    if s.publishDue.Some? || s.publishQueue == [] || !sendOk then s
    else
      var next := s.publishQueue[0];
      var all := SetFrame(s.unconfirmed, next);
      s.(publishQueue := s.publishQueue[1..],
         unconfirmed := all[Excess(all)..],
         dropped := s.dropped + all[..Excess(all)],
         publishDue := Some(now + s.gap),
         sends := s.sends + [Sent(next, now, s.era)])
  }

  function Publish(s: State, e: Envelope, now: int, sendOk: bool): State {
    Drain(s.(publishQueue := s.publishQueue + [e], published := s.published + [e]), now, sendOk)
  }

  function PublishTimer(s: State, now: int, sendOk: bool): State {
    Drain(s.(publishDue := None), now, sendOk)
  }

  function Slower(gap: nat): nat {
    if (gap * 3 + 1) / 2 < GAP_CAP then (gap * 3 + 1) / 2 else GAP_CAP
  }

  function Faster(gap: nat): nat {
    if gap * 2 / 3 > GAP_FLOOR then gap * 2 / 3 else GAP_FLOOR
  }

  function RateLimited(s: State, now: int): State {
    s.(gap := Slower(s.gap), clean := 0,
       retryDue := if s.retryDue.Some? then s.retryDue else Some(now + Slower(s.gap)))
  }

  function RetryTimer(s: State, now: int, sendOk: bool): State {
    Drain(s.(retryDue := None, unconfirmed := [], publishQueue := s.unconfirmed + s.publishQueue), now, sendOk)
  }

  function Delivered(s: State, id: string): State {
    var t := s.(unconfirmed := DeleteId(s.unconfirmed, id), receipted := s.receipted + FindId(s.unconfirmed, id));
    if s.gap <= GAP_FLOOR then t
    else if s.clean + 1 >= CLEAN_STREAK then t.(gap := Faster(s.gap), clean := 0)
    else t.(clean := s.clean + 1)
  }

  function Pending(s: State): seq<Envelope> {
    s.unconfirmed + s.publishQueue
  }

  function TakePending(s: State): State {
    s.(publishDue := None, retryDue := None, unconfirmed := [], publishQueue := [],
       handedOff := s.handedOff + Pending(s), era := s.era + 1)
  }

  function Close(s: State): State {
    s.(publishDue := None, retryDue := None, unconfirmed := [], publishQueue := [],
       cleared := s.cleared + Pending(s), era := s.era + 1)
  }
}
