/**
 Obtaining a lease: DISCOVER, OFFER, REQUEST, ACK (section 3.1 of RFC 2131), against an arbitrary
 network. What the network and the clock do during one attempt is an `Attempt`; what the client does
 is logged as sends and waits.
 */
module DhcpRun {
  import opened Wrappers
  import opened Bytes
  import opened DhcpCodec
  import opened IpUdp

  const OP_REQUEST: byte := 1
  const OP_REPLY: byte := 2
  const DISCOVER: byte := 1
  const OFFER: byte := 2
  const REQUEST: byte := 3
  const ACK: byte := 5
  const NAK: byte := 6

  const OPT_SUBNET: byte := 1
  const OPT_ROUTER: byte := 3
  const OPT_DNS: byte := 6
  const OPT_REQUESTED: byte := 50
  const OPT_LEASE_TIME: byte := 51
  const OPT_SERVER_ID: byte := 54
  const OPT_PARAMS: byte := 55

  const ORDER: seq<byte> := [OPT_MSG_TYPE, OPT_REQUESTED, OPT_SERVER_ID, OPT_PARAMS]
  const PARAMS: bytes := [OPT_SUBNET, OPT_ROUTER, OPT_DNS, OPT_LEASE_TIME]

  const MAX_ATTEMPTS := 5
  const RECV_BUFFER := 2048
  const CLIENT_PORT: uint16 := 68
  const SERVER_PORT: uint16 := 67

  function MsgType(p: Packet): (t: byte) {
    if OPT_MSG_TYPE in p.options && |p.options[OPT_MSG_TYPE]| == 1 then p.options[OPT_MSG_TYPE][0] else 0
  }

  /** One attempt of an exchange as the world plays it: whether the context is over, whether the send fails, and
      the packets the socket delivers before the attempt's deadline. */
  datatype Attempt = Attempt(cancelled: bool, sendFails: bool, frames: seq<bytes>)

  datatype Verdict = Ignore | Take(p: Packet) | Refuse

  /** What the client makes of one received packet. */
  function Judge(frame: bytes, xid: uint32, want: byte): (v: Verdict) {
    var payload := UdpPayload(if |frame| > RECV_BUFFER then frame[..RECV_BUFFER] else frame, CLIENT_PORT);
    if payload.None? then Ignore
    else
      var d := Decode(payload.value);
      if d.Err? || d.packet.op != OP_REPLY || d.packet.xid != xid then Ignore
      else if MsgType(d.packet) == want then Take(d.packet)
      else if MsgType(d.packet) == NAK then Refuse
      else Ignore
  }

  /** The first packet that settles the matter. */
  function FirstVerdict(frames: seq<bytes>, xid: uint32, want: byte): (v: Verdict) {
    if frames == [] then Ignore
    else if Judge(frames[0], xid, want) != Ignore then Judge(frames[0], xid, want)
    else FirstVerdict(frames[1..], xid, want)
  }

  datatype Outcome = Answer(p: Packet) | Nacked | Cancelled | SendFailed | NoAnswer

  datatype Act = Send(msg: bytes) | Wait(seconds: nat)

  /** The seconds attempt number `k` waits. */
  function WaitOf(k: nat): (s: nat) {
    2 + k * 2
  }

  /** What attempt number `k` does, and how the exchange ends if it ends there. */
  function OneAttempt(a: Attempt, k: nat, msg: bytes, xid: uint32, want: byte): (r: (Option<Outcome>, seq<Act>)) {
    if a.cancelled then (Some(Cancelled), [])
    else if a.sendFails then (Some(SendFailed), [Send(msg)])
    else
      (match FirstVerdict(a.frames, xid, want)
       case Take(p) => Some(Answer(p))
       case Refuse => Some(Nacked)
       case Ignore => None,
       [Send(msg), Wait(WaitOf(k))])
  }

  /** The outcome and the log of an exchange from attempt `k` on. */
  function Exchanged(attempts: seq<Attempt>, k: nat, msg: bytes, xid: uint32, want: byte): (r: (Outcome, seq<Act>))
    requires k <= MAX_ATTEMPTS <= |attempts|
    decreases MAX_ATTEMPTS - k
  {
    if k == MAX_ATTEMPTS then (NoAnswer, [])
    else
      var one := OneAttempt(attempts[k], k, msg, xid, want);
      if one.0.Some? then (one.0.value, one.1)
      else
        var rest := Exchanged(attempts, k + 1, msg, xid, want);
        (rest.0, one.1 + rest.1)
  }

  /** `exchange`. */
  method Exchange(attempts: seq<Attempt>, msg: bytes, xid: uint32, want: byte) returns (out: Outcome, log: seq<Act>)
    requires |attempts| >= MAX_ATTEMPTS
    ensures (out, log) == Exchanged(attempts, 0, msg, xid, want)
  {
    log := [];
    ghost var spec := Exchanged(attempts, 0, msg, xid, want);
    assert log + spec.1 == spec.1;
    var attempt := 0;
    while attempt < MAX_ATTEMPTS
      invariant 0 <= attempt <= MAX_ATTEMPTS
      invariant Exchanged(attempts, attempt, msg, xid, want).0 == spec.0
      invariant log + Exchanged(attempts, attempt, msg, xid, want).1 == spec.1
    {
      var end, acts := TryOnce(attempts[attempt], attempt, msg, xid, want);
      if end.Some? { return end.value, log + acts; }
      ghost var rest := Exchanged(attempts, attempt + 1, msg, xid, want).1;
      assert (log + acts) + rest == log + (acts + rest);
      log := log + acts;
      attempt := attempt + 1;
    }
    assert log + [] == log;
    out := NoAnswer;
  }

  /** One turn of the retry loop. */
  method TryOnce(a: Attempt, k: nat, msg: bytes, xid: uint32, want: byte) returns (end: Option<Outcome>, acts: seq<Act>)
    ensures (end, acts) == OneAttempt(a, k, msg, xid, want)
  {
    if a.cancelled { return Some(Cancelled), []; }
    acts := [Send(msg)];
    if a.sendFails { return Some(SendFailed), acts; }
    acts := acts + [Wait(2 + k * 2)];
    assert acts == [Send(msg), Wait(WaitOf(k))];
    var v := Recv(a.frames, xid, want);
    match v
    case Take(p) => end := Some(Answer(p));
    case Refuse => end := Some(Nacked);
    case Ignore => end := None;
  }

  /** The receive loop of one attempt: packets are taken off the socket until one settles the matter. */
  method Recv(frames: seq<bytes>, xid: uint32, want: byte) returns (v: Verdict)
    ensures v == FirstVerdict(frames, xid, want)
  {
    var i := 0;
    while i < |frames|
      invariant 0 <= i <= |frames|
      invariant FirstVerdict(frames, xid, want) == FirstVerdict(frames[i..], xid, want)
    {
      assert frames[i..][1..] == frames[i + 1..];
      v := Judge(frames[i], xid, want);
      if v != Ignore { return; }
      i := i + 1;
    }
    v := Ignore;
  }

  // ---- properties of one exchange ----

  function Sends(log: seq<Act>): (n: nat) {
    if log == [] then 0 else (if log[0].Send? then 1 else 0) + Sends(log[1..])
  }

  function Waited(log: seq<Act>): (n: nat) {
    if log == [] then 0 else (if log[0].Wait? then log[0].seconds else 0) + Waited(log[1..])
  }

  /** The packets delivered over attempts `k` up to `n`. */
  function Delivered(attempts: seq<Attempt>, k: nat, n: nat): (frames: seq<bytes>)
    requires k <= n <= |attempts|
    decreases n - k
  {
    if k == n then [] else attempts[k].frames + Delivered(attempts, k + 1, n)
  }

  lemma {:induction false} FirstVerdictConcat(xs: seq<bytes>, ys: seq<bytes>, xid: uint32, want: byte)
    ensures FirstVerdict(xs + ys, xid, want) ==
            if FirstVerdict(xs, xid, want) != Ignore then FirstVerdict(xs, xid, want) else FirstVerdict(ys, xid, want)
    decreases |xs|
  {
    if xs == [] {
      assert xs + ys == ys;
    } else {
      assert (xs + ys)[0] == xs[0] && (xs + ys)[1..] == xs[1..] + ys;
      FirstVerdictConcat(xs[1..], ys, xid, want);
    }
  }

  /** The verdict came from an actual packet, and every packet before it was ignored. */
  lemma {:induction false} VerdictHasPacket(frames: seq<bytes>, xid: uint32, want: byte) returns (i: nat)
    requires FirstVerdict(frames, xid, want) != Ignore
    ensures i < |frames| && Judge(frames[i], xid, want) == FirstVerdict(frames, xid, want)
    ensures forall j | 0 <= j < i :: Judge(frames[j], xid, want) == Ignore
    decreases |frames|
  {
    if Judge(frames[0], xid, want) != Ignore {
      i := 0;
    } else {
      var k := VerdictHasPacket(frames[1..], xid, want);
      i := k + 1;
      forall j | 0 <= j < i ensures Judge(frames[j], xid, want) == Ignore {
        if j > 0 { assert frames[j] == frames[1..][j - 1]; }
      }
    }
  }

  /** The sum of the waits of attempts `k` up to the last. */
  function Budget(k: nat): (n: nat)
    requires k <= MAX_ATTEMPTS
    decreases MAX_ATTEMPTS - k
  {
    if k == MAX_ATTEMPTS then 0 else WaitOf(k) + Budget(k + 1)
  }

  lemma TotalBudget()
    ensures Budget(0) == 30
  {
    assert Budget(4) == 10 && Budget(3) == 18 && Budget(2) == 24 && Budget(1) == 28;
  }

  lemma {:induction false} ExchangeIsBounded(attempts: seq<Attempt>, k: nat, msg: bytes, xid: uint32, want: byte)
    requires k <= MAX_ATTEMPTS <= |attempts|
    ensures var log := Exchanged(attempts, k, msg, xid, want).1;
            && Sends(log) <= MAX_ATTEMPTS - k && Waited(log) <= Budget(k)
            && forall a | a in log && a.Send? :: a.msg == msg
    decreases MAX_ATTEMPTS - k
  {
    if k < MAX_ATTEMPTS {
      ExchangeIsBounded(attempts, k + 1, msg, xid, want);
      var rest := Exchanged(attempts, k + 1, msg, xid, want).1;
      AttemptCounts(msg, WaitOf(k), rest);
      AttemptCounts(msg, WaitOf(k), []);
      assert [Send(msg), Wait(WaitOf(k))] + [] == [Send(msg), Wait(WaitOf(k))];
      assert [Send(msg)][1..] == [];
    }
  }

  lemma AttemptCounts(msg: bytes, wait: nat, rest: seq<Act>)
    ensures var log := [Send(msg), Wait(wait)] + rest;
            Sends(log) == 1 + Sends(rest) && Waited(log) == wait + Waited(rest)
  {
    var log := [Send(msg), Wait(wait)] + rest;
    assert log[1..] == [Wait(wait)] + rest && log[1..][1..] == rest;
  }

  /** An exchange that is given up has sent and waited in every attempt. */
  lemma {:induction false} GivesUpAfterAll(attempts: seq<Attempt>, k: nat, msg: bytes, xid: uint32, want: byte)
    requires k <= MAX_ATTEMPTS <= |attempts| && Exchanged(attempts, k, msg, xid, want).0 == NoAnswer
    ensures var log := Exchanged(attempts, k, msg, xid, want).1;
            Sends(log) == MAX_ATTEMPTS - k && Waited(log) == Budget(k)
    decreases MAX_ATTEMPTS - k
  {
    if k < MAX_ATTEMPTS {
      GivesUpAfterAll(attempts, k + 1, msg, xid, want);
      AttemptCounts(msg, WaitOf(k), Exchanged(attempts, k + 1, msg, xid, want).1);
    }
  }

  /** No send fails and the context stands from attempt `k` up to attempt `n`. */
  predicate Smooth(attempts: seq<Attempt>, k: nat, n: nat)
    requires n <= |attempts|
  {
    forall i | k <= i < n :: !attempts[i].cancelled && !attempts[i].sendFails
  }

  /** The outcome is decided by the first packet, over all attempts made so far, that answers this transaction: the
      wanted reply is returned, a NAK ends the exchange, and everything else is ignored. Attempts after the
      deciding packet play no part. */
  lemma {:induction false} FirstReplyDecides(attempts: seq<Attempt>, k: nat, n: nat, msg: bytes, xid: uint32, want: byte)
    requires k <= n <= MAX_ATTEMPTS <= |attempts| && Smooth(attempts, k, n)
    ensures Exchanged(attempts, k, msg, xid, want).0 ==
            match FirstVerdict(Delivered(attempts, k, n), xid, want)
            case Take(p) => Answer(p)
            case Refuse => Nacked
            case Ignore => Exchanged(attempts, n, msg, xid, want).0
    decreases n - k
  {
    if k < n {
      FirstVerdictConcat(attempts[k].frames, Delivered(attempts, k + 1, n), xid, want);
      FirstReplyDecides(attempts, k + 1, n, msg, xid, want);
    }
  }

  // ---- the outcome in terms of what was received ----

  /** The reply of transaction `xid` that a received packet carries: UDP to port 68 within the receive buffer, a
      well-formed message, and a BOOTREPLY with this xid (section 2 of RFC 2131). */
  function ReplyIn(frame: bytes, xid: uint32): (q: Option<Packet>) {
    var payload := UdpPayload(if |frame| > 2048 then frame[..2048] else frame, 68);
    if payload.None? then None
    else
      match Decode(payload.value)
      case Err(_) => None
      case Ok(q) => if q.op == 2 && q.xid == xid then Some(q) else None
  }

  /** The DHCP message type option (section 9.6 of RFC 2132) of `q` is `t`. */
  predicate HasType(q: Packet, t: byte) {
    53 in q.options && q.options[53] == [t]
  }

  /** A reply of the wanted type, or a NAK. */
  predicate Matters(frame: bytes, xid: uint32, want: byte) {
    var q := ReplyIn(frame, xid);
    q.Some? && (HasType(q.value, want) || HasType(q.value, 6))
  }

  /** What the client makes of any packet. */
  lemma JudgeIs(frame: bytes, xid: uint32, want: byte)
    requires want != 0
    ensures Judge(frame, xid, want) ==
            match ReplyIn(frame, xid)
            case None => Ignore
            case Some(q) => if HasType(q, want) then Take(q) else if HasType(q, 6) then Refuse else Ignore
  {
  }

  /** ... and of every packet that a server can put on the wire, whatever padding the link adds. */
  lemma JudgeOnTheWire(p: Packet, order: seq<byte>, srcPort: uint16, padding: bytes, xid: uint32, want: byte)
    requires Encodable(p, order) && Distinct(order) && want != 0 && 28 + |Encode(p, order)| <= 2048
    ensures ReplyIn(Frame(Encode(p, order), srcPort, 68) + padding, xid)
            == if p.op == 2 && p.xid == xid then Some(Seen(p, order)) else None
    ensures Judge(Frame(Encode(p, order), srcPort, 68) + padding, xid, want) ==
            if p.op != 2 || p.xid != xid || 53 !in order || 53 !in p.options then Ignore
            else if p.options[53] == [want] then Take(Seen(p, order))
            else if p.options[53] == [6] then Refuse
            else Ignore
  {
    var f := Frame(Encode(p, order), srcPort, 68);
    var frame := f + padding;
    var cut := if |frame| > 2048 then frame[..2048] else frame;
    assert cut == f + cut[|f|..];
    MessageRoundTrips(p, order, srcPort, 68, cut[|f|..]);
    JudgeIs(frame, xid, want);
  }

  /** Nothing that matters was received, and nothing went wrong, in attempts `k` up to `a`. */
  ghost predicate Silent(attempts: seq<Attempt>, k: nat, a: nat, xid: uint32, want: byte)
    requires a <= |attempts|
  {
    && Smooth(attempts, k, a)
    && forall b | k <= b < a :: Quiet(attempts[b].frames, xid, want)
  }

  predicate Quiet(frames: seq<bytes>, xid: uint32, want: byte) {
    forall i | 0 <= i < |frames| :: !Matters(frames[i], xid, want)
  }

  /** Packet `i` of attempt `a` is the first, from attempt `k` on, that matters. */
  ghost predicate DecidedBy(attempts: seq<Attempt>, k: nat, a: nat, i: nat, xid: uint32, want: byte)
    requires |attempts| >= MAX_ATTEMPTS
  {
    && k <= a < MAX_ATTEMPTS && Silent(attempts, k, a, xid, want)
    && !attempts[a].cancelled && !attempts[a].sendFails
    && i < |attempts[a].frames| && Matters(attempts[a].frames[i], xid, want)
    && Quiet(attempts[a].frames[..i], xid, want)
  }

  /** The first packet that matters is a reply `q` of the wanted type. */
  ghost predicate AnsweredBy(attempts: seq<Attempt>, k: nat, xid: uint32, want: byte, q: Packet)
    requires |attempts| >= MAX_ATTEMPTS
  {
    exists a: nat, i: nat :: DecidedBy(attempts, k, a, i, xid, want)
                             && ReplyIn(attempts[a].frames[i], xid) == Some(q) && HasType(q, want)
  }

  /** The first packet that matters is a NAK. */
  ghost predicate RefusedBy(attempts: seq<Attempt>, k: nat, xid: uint32, want: byte)
    requires |attempts| >= MAX_ATTEMPTS
  {
    exists a: nat, i: nat :: DecidedBy(attempts, k, a, i, xid, want)
                             && !HasType(ReplyIn(attempts[a].frames[i], xid).value, want)
  }

  lemma QuietAt(frames: seq<bytes>, i: nat, xid: uint32, want: byte)
    requires i <= |frames|
    ensures Quiet(frames[..i], xid, want) <==> forall j | 0 <= j < i :: !Matters(frames[j], xid, want)
  {
    assert forall j | 0 <= j < i :: frames[..i][j] == frames[j];
  }

  lemma {:induction false} FirstVerdictIs(frames: seq<bytes>, i: nat, xid: uint32, want: byte)
    requires want != 0 && i <= |frames| && Quiet(frames[..i], xid, want)
    requires i < |frames| ==> Matters(frames[i], xid, want)
    ensures FirstVerdict(frames, xid, want) == if i < |frames| then Judge(frames[i], xid, want) else Ignore
    decreases |frames|
  {
    if frames != [] {
      JudgeIs(frames[0], xid, want);
      if i > 0 {
        QuietAt(frames, i, xid, want);
        QuietAt(frames[1..], i - 1, xid, want);
        FirstVerdictIs(frames[1..], i - 1, xid, want);
      }
    }
  }

  lemma FirstThatMatters(frames: seq<bytes>, xid: uint32, want: byte) returns (i: nat)
    ensures i <= |frames| && Quiet(frames[..i], xid, want) && (i < |frames| ==> Matters(frames[i], xid, want))
  {
    i := 0;
    while i < |frames| && !Matters(frames[i], xid, want)
      invariant i <= |frames| && Quiet(frames[..i], xid, want)
    {
      i := i + 1;
    }
  }

  /** One exchange, against every network: it is answered, refused or given up exactly as the packets say. */
  lemma {:induction false} ExchangeIs(attempts: seq<Attempt>, k: nat, msg: bytes, xid: uint32, want: byte, q: Packet)
    requires k <= MAX_ATTEMPTS <= |attempts| && want != 0
    ensures var out := Exchanged(attempts, k, msg, xid, want).0;
            && (out == Answer(q) <==> AnsweredBy(attempts, k, xid, want, q))
            && (out == Nacked <==> RefusedBy(attempts, k, xid, want))
            && (out == NoAnswer <==> Silent(attempts, k, MAX_ATTEMPTS, xid, want))
    decreases MAX_ATTEMPTS - k
  {
    if k < MAX_ATTEMPTS {
      var one := attempts[k];
      var i := FirstThatMatters(one.frames, xid, want);
      FirstVerdictIs(one.frames, i, xid, want);
      if one.cancelled || one.sendFails {
        NothingDecides(attempts, k, xid, want);
      } else if i < |one.frames| {
        JudgeIs(one.frames[i], xid, want);
        DecidedHere(attempts, k, i, xid, want);
      } else {
        assert one.frames[..i] == one.frames;
        ExchangeIs(attempts, k + 1, msg, xid, want, q);
        DecidedLater(attempts, k, xid, want, q);
      }
    }
  }

  /** A send that fails, or a context that is over, is never followed by a decision. */
  lemma NothingDecides(attempts: seq<Attempt>, k: nat, xid: uint32, want: byte)
    requires k < MAX_ATTEMPTS <= |attempts| && (attempts[k].cancelled || attempts[k].sendFails)
    ensures forall a: nat, i: nat :: !DecidedBy(attempts, k, a, i, xid, want)
    ensures !Silent(attempts, k, MAX_ATTEMPTS, xid, want)
  {
  }

  /** The first packet that matters in the first attempt decides, and no other one does. */
  lemma DecidedHere(attempts: seq<Attempt>, k: nat, i: nat, xid: uint32, want: byte)
    requires k < MAX_ATTEMPTS <= |attempts| && !attempts[k].cancelled && !attempts[k].sendFails
    requires i < |attempts[k].frames| && Matters(attempts[k].frames[i], xid, want)
    requires Quiet(attempts[k].frames[..i], xid, want)
    ensures DecidedBy(attempts, k, k, i, xid, want)
    ensures forall a: nat, j: nat | DecidedBy(attempts, k, a, j, xid, want) :: a == k && j == i
    ensures !Silent(attempts, k, MAX_ATTEMPTS, xid, want)
  {
    var frames := attempts[k].frames;
    QuietAt(frames, i, xid, want);
    forall a: nat, j: nat | DecidedBy(attempts, k, a, j, xid, want) ensures a == k && j == i {
      if a == k { QuietAt(frames, j, xid, want); }
    }
  }

  lemma DecidedLater(attempts: seq<Attempt>, k: nat, xid: uint32, want: byte, q: Packet)
    requires k < MAX_ATTEMPTS <= |attempts| && !attempts[k].cancelled && !attempts[k].sendFails
    requires Quiet(attempts[k].frames, xid, want)
    ensures AnsweredBy(attempts, k, xid, want, q) <==> AnsweredBy(attempts, k + 1, xid, want, q)
    ensures RefusedBy(attempts, k, xid, want) <==> RefusedBy(attempts, k + 1, xid, want)
    ensures Silent(attempts, k, MAX_ATTEMPTS, xid, want) <==> Silent(attempts, k + 1, MAX_ATTEMPTS, xid, want)
  {
    forall a: nat, i: nat
      ensures DecidedBy(attempts, k, a, i, xid, want) <==> DecidedBy(attempts, k + 1, a, i, xid, want)
    {
    }
  }

  /** Every attempt made sends the message once: as many sends as it takes to get the deciding packet. */
  lemma {:induction false} SendsUntilDecided(attempts: seq<Attempt>, k: nat, a: nat, i: nat, msg: bytes, xid: uint32, want: byte)
    requires k <= MAX_ATTEMPTS <= |attempts| && want != 0 && DecidedBy(attempts, k, a, i, xid, want)
    ensures Sends(Exchanged(attempts, k, msg, xid, want).1) == a + 1 - k
    decreases MAX_ATTEMPTS - k
  {
    var frames := attempts[k].frames;
    AttemptCounts(msg, WaitOf(k), []);
    assert [Send(msg), Wait(WaitOf(k))] + [] == [Send(msg), Wait(WaitOf(k))];
    if a == k {
      FirstVerdictIs(frames, i, xid, want);
      JudgeIs(frames[i], xid, want);
    } else {
      assert Quiet(frames, xid, want) && frames[..|frames|] == frames;
      FirstVerdictIs(frames, |frames|, xid, want);
      SendsUntilDecided(attempts, k + 1, a, i, msg, xid, want);
      AttemptCounts(msg, WaitOf(k), Exchanged(attempts, k + 1, msg, xid, want).1);
    }
  }

  /** In every case, an answer is a reply with this xid and the wanted type that some packet carried. */
  lemma {:induction false} AnswerIsGenuine(attempts: seq<Attempt>, k: nat, msg: bytes, xid: uint32, want: byte)
    returns (a: nat, i: nat)
    requires k <= MAX_ATTEMPTS <= |attempts| && Exchanged(attempts, k, msg, xid, want).0.Answer?
    ensures k <= a < MAX_ATTEMPTS && i < |attempts[a].frames|
    ensures var p := Exchanged(attempts, k, msg, xid, want).0.p;
            && Judge(attempts[a].frames[i], xid, want) == Take(p)
            && p.op == OP_REPLY && p.xid == xid && MsgType(p) == want
            && p.yiaddr.Some? && |p.yiaddr.value| == 4
    decreases MAX_ATTEMPTS - k
  {
    if FirstVerdict(attempts[k].frames, xid, want) == Ignore {
      a, i := AnswerIsGenuine(attempts, k + 1, msg, xid, want);
    } else {
      a := k;
      i := VerdictHasPacket(attempts[k].frames, xid, want);
    }
  }

  // ---- the lease ----

  datatype Lease = Lease(ip: bytes, mask: bytes, router: Option<bytes>, dns: seq<bytes>, server: Option<bytes>, seconds: uint32)

  /** The whole addresses in `v`, in order; a trailing partial one is dropped. */
  function IpList(v: bytes): (r: seq<bytes>)
    ensures |r| == |v| / 4
    ensures forall i | 0 <= i < |r| :: r[i] == v[4 * i..4 * i + 4]
  {
    if |v| < 4 then []
    else
      assert forall i | 1 <= i < |v| / 4 :: v[4..][4 * (i - 1)..4 * (i - 1) + 4] == v[4 * i..4 * i + 4];
      [v[..4]] + IpList(v[4..])
  }

  /** `ipList`. */
  method IpListLoop(v: bytes) returns (out: seq<bytes>)
    ensures out == IpList(v)
  {
    out := [];
    var i := 0;
    while i + 4 <= |v|
      invariant 0 <= i <= |v| && i == 4 * |out|
      invariant forall j | 0 <= j < |out| :: out[j] == v[4 * j..4 * j + 4]
    {
      out := out + [v[i..i + 4]];
      i := i + 4;
    }
  }

  function OptionOr(p: Packet, code: byte): (v: bytes) {
    if code in p.options then p.options[code] else []
  }

  /** net.IP.DefaultMask of a four-byte address. */
  function DefaultMask(ip: bytes): (m: bytes)
    requires |ip| == 4
    ensures |m| == 4
  {
    if ip[0] < 0x80 then [255, 0, 0, 0] else if ip[0] < 0xC0 then [255, 255, 0, 0] else [255, 255, 255, 0]
  }

  function First(ips: seq<bytes>): (r: Option<bytes>) {
    if ips == [] then None else Some(ips[0])
  }

  /** `leaseFrom`: None when the reply offers no IPv4 address. */
  function LeaseFrom(p: Packet): (l: Option<Lease>)
    ensures l.Some? ==> |l.value.mask| == 4 && To4(l.value.ip).Some?
  {
    if p.yiaddr.None? || To4(p.yiaddr.value).None? || To4(p.yiaddr.value).value == Zeros(4) then None
    else
      var subnet := OptionOr(p, OPT_SUBNET);
      var time := OptionOr(p, OPT_LEASE_TIME);
      Some(Lease(p.yiaddr.value,
                 if |subnet| == 4 then subnet else DefaultMask(To4(p.yiaddr.value).value),
                 First(IpList(OptionOr(p, OPT_ROUTER))),
                 IpList(OptionOr(p, OPT_DNS)),
                 First(IpList(OptionOr(p, OPT_SERVER_ID))),
                 if |time| == 4 then FromBe32(time) else 0))
  }

  function Flatten(ips: seq<bytes>): (v: bytes) {
    if ips == [] then [] else ips[0] + Flatten(ips[1..])
  }

  lemma {:induction false} IpListInvertsFlatten(ips: seq<bytes>)
    requires forall ip | ip in ips :: |ip| == 4
    ensures IpList(Flatten(ips)) == ips
    decreases |ips|
  {
    if ips != [] {
      assert ips[0] in ips;
      IpListInvertsFlatten(ips[1..]);
      var v := Flatten(ips);
      assert v[..4] == ips[0] && v[4..] == Flatten(ips[1..]);
    }
  }

  predicate ProperLease(l: Lease) {
    && |l.ip| == 4 && l.ip != Zeros(4) && |l.mask| == 4
    && (l.router.Some? ==> |l.router.value| == 4) && (l.server.Some? ==> |l.server.value| == 4)
    && forall ip | ip in l.dns :: |ip| == 4
  }

  /** The ACK with which a server grants `l` (section 3 of RFC 2132); `more` are routers beyond the first. */
  function AckFor(l: Lease, xid: uint32, hw: bytes, more: seq<bytes>): (p: Packet)
    requires ProperLease(l)
  {
    Packet(OP_REPLY, xid, 0, None, Some(l.ip), hw, map[
      OPT_MSG_TYPE := [ACK],
      OPT_SUBNET := l.mask,
      OPT_ROUTER := if l.router.Some? then Flatten([l.router.value] + more) else [],
      OPT_DNS := Flatten(l.dns),
      OPT_SERVER_ID := if l.server.Some? then l.server.value else [],
      OPT_LEASE_TIME := Be32(l.seconds)])
  }

  /** The client ends up with exactly the lease that the server granted. */
  lemma LeaseRoundTrips(l: Lease, xid: uint32, hw: bytes, more: seq<bytes>)
    requires ProperLease(l) && forall ip | ip in more :: |ip| == 4
    ensures LeaseFrom(AckFor(l, xid, hw, more)) == Some(l)
  {
    AckCarries(l, xid, hw, more);
    IpListInvertsFlatten(l.dns);
    BigEndianRoundTrips(0, l.seconds);
    if l.router.Some? { IpListInvertsFlatten([l.router.value] + more); }
    if l.server.Some? { IpListOfOne(l.server.value); }
  }

  lemma AckCarries(l: Lease, xid: uint32, hw: bytes, more: seq<bytes>)
    requires ProperLease(l)
    ensures var p := AckFor(l, xid, hw, more);
            && OptionOr(p, OPT_SUBNET) == l.mask && OptionOr(p, OPT_DNS) == Flatten(l.dns)
            && OptionOr(p, OPT_ROUTER) == (if l.router.Some? then Flatten([l.router.value] + more) else [])
            && OptionOr(p, OPT_SERVER_ID) == (if l.server.Some? then l.server.value else [])
            && OptionOr(p, OPT_LEASE_TIME) == Be32(l.seconds)
  {
  }

  lemma IpListOfOne(ip: bytes)
    requires |ip| == 4
    ensures IpList(ip) == [ip]
  {
    assert ip[0..4] == ip;
  }

  /** A decoded reply gives a lease exactly when it offers an address other than 0.0.0.0. */
  lemma LeaseIff(p: Packet)
    requires p.yiaddr.Some? && |p.yiaddr.value| == 4
    ensures LeaseFrom(p).Some? <==> p.yiaddr.value != [0, 0, 0, 0]
    ensures LeaseFrom(p).Some? ==> LeaseFrom(p).value.ip == p.yiaddr.value
  {
    assert Zeros(4) == [0, 0, 0, 0];
  }

  /** Without a four-byte subnet option the mask is that of the address class, which the leading bits of the address
      tell: 0 is class A, 10 class B, and the rest class C. */
  lemma MaskOfClass(p: Packet)
    requires LeaseFrom(p).Some? && !(1 in p.options && |p.options[1]| == 4) && |p.yiaddr.value| == 4
    ensures var ip, mask := p.yiaddr.value, LeaseFrom(p).value.mask;
            && (ip[0] / 128 == 0 ==> mask == [255, 0, 0, 0])
            && (ip[0] / 64 == 2 ==> mask == [255, 255, 0, 0])
            && (ip[0] / 64 == 3 ==> mask == [255, 255, 255, 0])
  {
  }

  // ---- Acquire ----

  function Discover(xid: uint32, hw: bytes): (p: Packet) {
    Packet(OP_REQUEST, xid, 0x8000, None, None, hw, map[OPT_MSG_TYPE := [DISCOVER], OPT_PARAMS := PARAMS])
  }

  /** The REQUEST that answers `offer`. */
  function RequestFor(offer: Packet, xid: uint32, hw: bytes): (p: Packet)
    requires offer.yiaddr.Some? && To4(offer.yiaddr.value).Some?
  {
    var opts := map[OPT_MSG_TYPE := [REQUEST], OPT_REQUESTED := To4(offer.yiaddr.value).value, OPT_PARAMS := PARAMS];
    var sid := OptionOr(offer, OPT_SERVER_ID);
    Packet(OP_REQUEST, xid, 0x8000, None, None, hw, if |sid| == 4 then opts[OPT_SERVER_ID := sid] else opts)
  }

  datatype Acquired = Leased(lease: Lease) | NoAddress | Failed(why: Outcome)

  function Sent(p: Packet): (frame: bytes) {
    Frame(Encode(p, ORDER), CLIENT_PORT, SERVER_PORT)
  }

  /** `Acquire`, against what the network does in the first and in the second exchange. */
  method Acquire(xid: uint32, hw: bytes, first: seq<Attempt>, second: seq<Attempt>)
    returns (r: Acquired, log1: seq<Act>, log2: seq<Act>, ghost offer: Option<Packet>, ghost ack: Option<Packet>)
    requires |first| >= MAX_ATTEMPTS && |second| >= MAX_ATTEMPTS
    // the first phase only ever sends the DISCOVER, at most five times, waiting at most 30 seconds in all
    ensures Sends(log1) <= 5 && Waited(log1) <= 30 && forall a | a in log1 && a.Send? :: a.msg == Sent(Discover(xid, hw))
    // an offer is the OFFER (type 2) of this transaction that is the first reply to matter
    ensures forall q :: offer == Some(q) <==> AnsweredBy(first, 0, xid, 2, q)
    // nothing is sent in the second phase unless there is one
    ensures offer.None? ==> log2 == [] && ack.None?
    // what is sent then is the REQUEST for that offer, within the same bounds
    ensures offer.Some? ==>
              && offer.value.yiaddr.Some? && |offer.value.yiaddr.value| == 4
              && Sends(log2) <= 5 && Waited(log2) <= 30
              && forall a | a in log2 && a.Send? :: a.msg == Sent(RequestFor(offer.value, xid, hw))
    // an acknowledgement is the ACK (type 5) of this transaction that is then the first reply to matter
    ensures offer.Some? ==> forall q :: ack == Some(q) <==> AnsweredBy(second, 0, xid, 5, q)
    // with it, and only with it, comes the lease it carries
    ensures ack.Some? ==> r == match LeaseFrom(ack.value) case Some(l) => Leased(l) case None => NoAddress
    ensures ack.None? ==> r.Failed?
    // a NAK that is the first reply to matter ends the run, and nothing else is reported as one
    ensures r == Failed(Nacked) <==> RefusedBy(first, 0, xid, 2) || (offer.Some? && RefusedBy(second, 0, xid, 5))
    // the client gives up exactly when five attempts of a phase bring nothing that matters
    ensures r == Failed(NoAnswer) <==>
              Silent(first, 0, 5, xid, 2) || (offer.Some? && Silent(second, 0, 5, xid, 5))
    ensures offer.None? && r == Failed(NoAnswer) ==> Sends(log1) == 5 && Waited(log1) == 30
    ensures offer.Some? && r == Failed(NoAnswer) ==> Sends(log2) == 5 && Waited(log2) == 30
  {
    offer, ack, log2 := None, None, [];
    var out;
    var msg := EncodeLoop(Discover(xid, hw), ORDER);
    var frame := UdpPacket(msg, 68, 67);
    out, log1 := Exchange(first, frame, xid, OFFER);
    PhaseFacts(first, Sent(Discover(xid, hw)), xid, 2);
    if !out.Answer? { return Failed(out), log1, [], None, None; }
    var offered := out.p;
    offer := Some(offered);
    var request := RequestFor(offered, xid, hw);
    msg := EncodeLoop(request, ORDER);
    frame := UdpPacket(msg, 68, 67);
    out, log2 := Exchange(second, frame, xid, ACK);
    PhaseFacts(second, Sent(request), xid, 5);
    if !out.Answer? { return Failed(out), log1, log2, offer, None; }
    ack := Some(out.p);
    var lease := LeaseFrom(out.p);
    r := if lease.Some? then Leased(lease.value) else NoAddress;
  }

  lemma PhaseFacts(attempts: seq<Attempt>, msg: bytes, xid: uint32, want: byte)
    requires |attempts| >= MAX_ATTEMPTS && want != 0
    ensures var r := Exchanged(attempts, 0, msg, xid, want);
            && Sends(r.1) <= 5 && Waited(r.1) <= 30
            && (forall a | a in r.1 && a.Send? :: a.msg == msg)
            && (forall q :: r.0 == Answer(q) <==> AnsweredBy(attempts, 0, xid, want, q))
            && (r.0.Answer? ==> r.0.p.yiaddr.Some? && |r.0.p.yiaddr.value| == 4)
            && (r.0 == Nacked <==> RefusedBy(attempts, 0, xid, want))
            && (r.0 == NoAnswer <==> Silent(attempts, 0, MAX_ATTEMPTS, xid, want))
            && (r.0 == NoAnswer ==> Sends(r.1) == 5 && Waited(r.1) == 30)
  {
    TotalBudget();
    if Exchanged(attempts, 0, msg, xid, want).0 == NoAnswer { GivesUpAfterAll(attempts, 0, msg, xid, want); }
    ExchangeIsBounded(attempts, 0, msg, xid, want);
    forall q ensures Exchanged(attempts, 0, msg, xid, want).0 == Answer(q) <==> AnsweredBy(attempts, 0, xid, want, q) {
      ExchangeIs(attempts, 0, msg, xid, want, q);
    }
    ExchangeIs(attempts, 0, msg, xid, want, Discover(0, []));
    if Exchanged(attempts, 0, msg, xid, want).0.Answer? {
      var a, i := AnswerIsGenuine(attempts, 0, msg, xid, want);
    }
  }

  /** A server's message that arrives as packet `i` of attempt `a`, before anything else that matters, is the answer. */
  lemma ArrivalAnswers(attempts: seq<Attempt>, a: nat, i: nat, p: Packet, order: seq<byte>, srcPort: uint16, padding: bytes,
                       xid: uint32, want: byte)
    requires |attempts| >= MAX_ATTEMPTS && want != 0
    requires Encodable(p, order) && Distinct(order) && 28 + |Encode(p, order)| <= 2048
    requires p.op == 2 && p.xid == xid && 53 in order && 53 in p.options && p.options[53] == [want]
    requires a < MAX_ATTEMPTS && Silent(attempts, 0, a, xid, want)
    requires !attempts[a].cancelled && !attempts[a].sendFails && i < |attempts[a].frames|
    requires Quiet(attempts[a].frames[..i], xid, want)
    requires attempts[a].frames[i] == Frame(Encode(p, order), srcPort, 68) + padding
    ensures AnsweredBy(attempts, 0, xid, want, Seen(p, order))
  {
    JudgeOnTheWire(p, order, srcPort, padding, xid, want);
    assert HasType(Seen(p, order), want);
    assert DecidedBy(attempts, 0, a, i, xid, want);
  }

  const GRANT_ORDER: seq<byte> := [53, 1, 3, 6, 54, 51]

  /** A lease that fits into the options of one message, and further routers besides. */
  predicate Grantable(l: Lease, hw: bytes, more: seq<bytes>) {
    ProperLease(l) && (forall ip | ip in more :: |ip| == 4) && |hw| <= 16 && |l.dns| <= 63 && |more| <= 62
  }

  lemma GrantFits(l: Lease, xid: uint32, hw: bytes, more: seq<bytes>)
    requires Grantable(l, hw, more)
    ensures Encodable(AckFor(l, xid, hw, more), GRANT_ORDER) && Distinct(GRANT_ORDER)
    ensures forall c | c in GRANT_ORDER :: c in AckFor(l, xid, hw, more).options && |AckFor(l, xid, hw, more).options[c]| <= 255
  {
    FlattenSize(l.dns);
    if l.router.Some? { FlattenSize([l.router.value] + more); }
  }

  lemma GrantSize(p: Packet)
    requires forall c | c in GRANT_ORDER && c in p.options :: |p.options[c]| <= 255
    ensures 28 + |Encode(p, GRANT_ORDER)| <= 2048
  {
    OptionSize(p.options, GRANT_ORDER);
  }

  /** The grant of a lease is read back as that lease. */
  lemma GrantIsRead(l: Lease, xid: uint32, hw: bytes, more: seq<bytes>)
    requires Grantable(l, hw, more)
    ensures LeaseFrom(Seen(AckFor(l, xid, hw, more), GRANT_ORDER)) == Some(l)
  {
    var p := AckFor(l, xid, hw, more);
    LeaseRoundTrips(l, xid, hw, more);
    assert forall c | c in p.options :: c in GRANT_ORDER by {
      assert GRANT_ORDER[0] == 53 && GRANT_ORDER[1] == 1 && GRANT_ORDER[2] == 3 && GRANT_ORDER[3] == 6
             && GRANT_ORDER[4] == 54 && GRANT_ORDER[5] == 51;
    }
    SeenGivesLease(p, GRANT_ORDER);
  }

  /** A lease depends on the address and the options only, and they arrive as they were sent. */
  lemma SeenGivesLease(p: Packet, order: seq<byte>)
    requires p.yiaddr.Some? && |p.yiaddr.value| == 4 && forall c | c in p.options :: c in order
    ensures LeaseFrom(Seen(p, order)) == LeaseFrom(p)
  {
    assert Seen(p, order).options == p.options;
  }

  /** Lease `l` is granted in packet `i` of attempt `a`, before anything else that matters. */
  ghost predicate Grants(attempts: seq<Attempt>, a: nat, i: nat, xid: uint32, hw: bytes, l: Lease, more: seq<bytes>, padding: bytes)
    requires |attempts| >= MAX_ATTEMPTS && Grantable(l, hw, more)
  {
    && a < MAX_ATTEMPTS && Silent(attempts, 0, a, xid, 5) && !attempts[a].cancelled && !attempts[a].sendFails
    && i < |attempts[a].frames| && Quiet(attempts[a].frames[..i], xid, 5)
    && attempts[a].frames[i] == Frame(Encode(AckFor(l, xid, hw, more), GRANT_ORDER), 67, 68) + padding
  }

  lemma GrantAnswers(attempts: seq<Attempt>, a: nat, i: nat, xid: uint32, hw: bytes, l: Lease, more: seq<bytes>, padding: bytes)
    returns (q: Packet)
    requires |attempts| >= MAX_ATTEMPTS && Grantable(l, hw, more) && Grants(attempts, a, i, xid, hw, l, more, padding)
    ensures AnsweredBy(attempts, 0, xid, 5, q) && LeaseFrom(q) == Some(l)
  {
    var p := GrantMessage(l, xid, hw, more);
    ArrivalAnswers(attempts, a, i, p, GRANT_ORDER, 67, padding, xid, 5);
    q := Seen(p, GRANT_ORDER);
  }

  lemma GrantMessage(l: Lease, xid: uint32, hw: bytes, more: seq<bytes>) returns (p: Packet)
    requires Grantable(l, hw, more)
    ensures p == AckFor(l, xid, hw, more) && Encodable(p, GRANT_ORDER) && Distinct(GRANT_ORDER)
    ensures 28 + |Encode(p, GRANT_ORDER)| <= 2048 && LeaseFrom(Seen(p, GRANT_ORDER)) == Some(l)
    ensures p.op == 2 && p.xid == xid && 53 in GRANT_ORDER && 53 in p.options && p.options[53] == [5]
  {
    p := AckFor(l, xid, hw, more);
    GrantFits(l, xid, hw, more);
    GrantFitsBuffer(l, xid, hw, more);
    GrantIsRead(l, xid, hw, more);
    GrantIsAck(l, xid, hw, more);
  }

  lemma GrantIsAck(l: Lease, xid: uint32, hw: bytes, more: seq<bytes>)
    requires ProperLease(l)
    ensures var p := AckFor(l, xid, hw, more);
            p.op == 2 && p.xid == xid && 53 in GRANT_ORDER && 53 in p.options && p.options[53] == [5]
  {
    assert GRANT_ORDER[0] == 53;
  }

  lemma GrantFitsBuffer(l: Lease, xid: uint32, hw: bytes, more: seq<bytes>)
    requires Grantable(l, hw, more)
    ensures 28 + |Encode(AckFor(l, xid, hw, more), GRANT_ORDER)| <= 2048
  {
    GrantFits(l, xid, hw, more);
    GrantSize(AckFor(l, xid, hw, more));
  }

  lemma {:induction false} FlattenSize(ips: seq<bytes>)
    requires forall ip | ip in ips :: |ip| == 4
    ensures |Flatten(ips)| == 4 * |ips|
    decreases |ips|
  {
    if ips != [] {
      assert ips[0] in ips;
      FlattenSize(ips[1..]);
    }
  }

  /** End to end: a client that accepts an offer and is then granted lease `l` on the wire, after any number of silent
      attempts and among any other traffic, returns exactly `l`. */
  method AcquireGetsGrant(xid: uint32, hw: bytes, first: seq<Attempt>, second: seq<Attempt>, ghost offer: Packet,
                          ghost a: nat, ghost i: nat, ghost l: Lease, ghost more: seq<bytes>, ghost padding: bytes)
    returns (r: Acquired)
    requires |first| >= MAX_ATTEMPTS && |second| >= MAX_ATTEMPTS && AnsweredBy(first, 0, xid, 2, offer)
    requires Grantable(l, hw, more) && Grants(second, a, i, xid, hw, l, more, padding)
    ensures r == Leased(l)
  {
    ghost var q := GrantAnswers(second, a, i, xid, hw, l, more, padding);
    var log1, log2;
    ghost var accepted, ack;
    r, log1, log2, accepted, ack := Acquire(xid, hw, first, second);
    assert accepted == Some(offer) && ack == Some(q);
  }

  /** On the wire, the DISCOVER is a broadcast BOOTREQUEST of type 1 that asks for the subnet mask, the routers, the
      name servers and the lease time, and says nothing else. */
  lemma DiscoverOnTheWire(xid: uint32, hw: bytes, padding: bytes)
    requires |hw| <= 16
    ensures var payload := UdpPayload(Sent(Discover(xid, hw)) + padding, 67);
            && payload.Some?
            && Decode(payload.value) == Ok(Packet(1, xid, 0x8000, Some(Zeros(4)), Some(Zeros(4)), hw,
                                                  map[53 := [1], 55 := [1, 3, 6, 51]]))
  {
    var p := Discover(xid, hw);
    assert Encodable(p, ORDER) && Distinct(ORDER);
    EncodedSize(p);
    MessageRoundTrips(p, ORDER, CLIENT_PORT, SERVER_PORT, padding);
    assert OPT_MSG_TYPE in ORDER && OPT_PARAMS in ORDER by { assert ORDER[0] == OPT_MSG_TYPE && ORDER[3] == OPT_PARAMS; }
    assert Seen(p, ORDER).options == map[53 := [1], 55 := [1, 3, 6, 51]];
  }

  /** On the wire, the REQUEST names exactly the offered address and the offering server. */
  lemma RequestOnTheWire(offer: Packet, xid: uint32, hw: bytes, padding: bytes)
    requires |hw| <= 16 && offer.yiaddr.Some? && |offer.yiaddr.value| == 4
    ensures var payload := UdpPayload(Sent(RequestFor(offer, xid, hw)) + padding, 67);
            var named := map[53 := [3], 50 := offer.yiaddr.value, 55 := [1, 3, 6, 51]];
            && payload.Some?
            && Decode(payload.value) ==
               Ok(Packet(1, xid, 0x8000, Some(Zeros(4)), Some(Zeros(4)), hw,
                         if 54 in offer.options && |offer.options[54]| == 4 then named[54 := offer.options[54]] else named))
  {
    var p := RequestFor(offer, xid, hw);
    RequestIsEncodable(offer, xid, hw);
    EncodedSize(p);
    MessageRoundTrips(p, ORDER, CLIENT_PORT, SERVER_PORT, padding);
    RequestSeen(offer, xid, hw);
  }

  lemma RequestIsEncodable(offer: Packet, xid: uint32, hw: bytes)
    requires |hw| <= 16 && offer.yiaddr.Some? && |offer.yiaddr.value| == 4
    ensures Encodable(RequestFor(offer, xid, hw), ORDER) && Distinct(ORDER)
    ensures forall c | c in ORDER && c in RequestFor(offer, xid, hw).options :: |RequestFor(offer, xid, hw).options[c]| <= 255
  {
  }

  lemma RequestSeen(offer: Packet, xid: uint32, hw: bytes)
    requires offer.yiaddr.Some? && |offer.yiaddr.value| == 4
    ensures var named := map[53 := [3], 50 := offer.yiaddr.value, 55 := [1, 3, 6, 51]];
            Seen(RequestFor(offer, xid, hw), ORDER).options ==
            if 54 in offer.options && |offer.options[54]| == 4 then named[54 := offer.options[54]] else named
  {
    assert ORDER[0] == 53 && ORDER[1] == 50 && ORDER[2] == 54 && ORDER[3] == 55;
    assert forall c | c in RequestFor(offer, xid, hw).options :: c in ORDER;
  }

  lemma EncodedSize(p: Packet)
    requires forall c | c in ORDER && c in p.options :: |p.options[c]| <= 255
    ensures |Encode(p, ORDER)| <= MAX_PAYLOAD
  {
    assert ORDER[1..] == [OPT_REQUESTED, OPT_SERVER_ID, OPT_PARAMS];
    assert ORDER[1..][1..] == [OPT_SERVER_ID, OPT_PARAMS];
    OptionSize(p.options, ORDER);
  }

  lemma {:induction false} OptionSize(opts: Options, order: seq<byte>)
    requires forall c | c in order && c in opts :: |opts[c]| <= 255
    ensures |OptionBytes(opts, order)| <= 257 * |order|
    decreases |order|
  {
    if order != [] {
      assert order[0] in order;
      OptionSize(opts, order[1..]);
    }
  }
}
