/**
  The PPP control-protocol automaton: iias/ppp/pppcontrolprotocol.{cc,hh}
  (section 4 of RFC 1661).  `Endpoint` and the step functions are the
  specification; class `ControlProtocol` is the element that implements them.
 */
module PPPEndpoint {
  import opened Common

  datatype State =
    | Initial | Starting | Closed | Stopped | Closing | Stopping
    | ReqSent | AckRcvd | AckSent | Opened

  datatype Code =
    | ConfReq | ConfAck | ConfNak | ConfRej | TermReq | TermAck | CodeRej | ProtRej | Other

  /** `content` stands for the option list a configure frame carries. */
  datatype Frame = Frame(code: Code, id: Byte, content: nat)

  datatype Endpoint = Endpoint(state: State, id: Byte, reqid: Byte, seenAck: bool, retransmits: int, timer: bool)

  /** What `simple_action` can be handed; `verdict` is what `reqci` makes of a CONFREQ. */
  datatype Input =
    | Runt
    | Foreign(rejects: bool)
    | BadLength
    | Recv(f: Frame, verdict: Code)

  /** `opts` is what `addci` would write into a CONFREQ sent in this step. */
  datatype Event = Packet(input: Input, opts: nat) | Fire(opts: nat)

  const MAX_CONFREQS := 10

  const FRESH := Endpoint(Stopped, 0, 0, false, MAX_CONFREQS, false)

  predicate IsVerdict(c: Code) {
    c in {ConfAck, ConfNak, ConfRej}
  }

  function Next(id: Byte): Byte {
    (id + 1) % 256
  }

  // --- Step functions ------------------------------------------------------------

  function SConfReq(e: Endpoint, retransmit: bool, opts: nat): (Endpoint, seq<Frame>) {
    var s := if retransmit then e else e.(retransmits := MAX_CONFREQS, id := Next(e.id), reqid := Next(e.id));
    (s.(seenAck := false, retransmits := s.retransmits - 1, timer := true), [Frame(ConfReq, s.reqid, opts)])
  }

  function Restart(e: Endpoint, opts: nat): (Endpoint, seq<Frame>) {
    var (s, out) := SConfReq(e, false, opts);
    (s.(state := ReqSent), out)
  }

  function RConfReq(e: Endpoint, f: Frame, verdict: Code, opts: nat): (Endpoint, seq<Frame>) {
    var (s, out) := if e.state in {Opened, Stopped} then Restart(e, opts) else (e, []);
    var t :=
      if verdict == ConfAck then
        if s.state == AckRcvd then s.(timer := false, state := Opened) else s.(state := AckSent)
      else if s.state != AckRcvd then s.(state := ReqSent)
      else s;
    (t, out + [Frame(verdict, f.id, f.content)])
  }

  function RConfAck(e: Endpoint, f: Frame, opts: nat): (Endpoint, seq<Frame>) {
    if f.id != e.reqid || e.seenAck then (e, []) else
    var s := e.(seenAck := true);
    match e.state
    case Stopped => (s, [Frame(TermAck, f.id, 0)])
    case ReqSent => (s.(state := AckRcvd, retransmits := MAX_CONFREQS), [])
    case AckSent => (s.(timer := false, state := Opened, retransmits := MAX_CONFREQS), [])
    case AckRcvd => Restart(s.(timer := false), opts)
    case Opened => Restart(s.(timer := false), opts)
    case _ => (s, [])
  }

  function RConfNakRej(e: Endpoint, f: Frame, opts: nat): (Endpoint, seq<Frame>) {
    if f.id != e.reqid || e.seenAck then (e, []) else
    var s := e.(seenAck := true);
    match e.state
    case Stopped => (s, [Frame(TermAck, f.id, 0)])
    case ReqSent => SConfReq(s.(timer := false), false, opts)
    case AckSent => SConfReq(s.(timer := false), false, opts)
    case AckRcvd => Restart(s.(timer := false), opts)
    case Opened => Restart(s.(timer := false), opts)
    case _ => (s, [])
  }

  function RTermReq(e: Endpoint, f: Frame): (Endpoint, seq<Frame>) {
    var s := match e.state
      case AckRcvd => e.(state := ReqSent)
      case AckSent => e.(state := ReqSent)
      case Opened => e.(retransmits := 0, state := Stopping, timer := true)
      case _ => e;
    (s, [Frame(TermAck, f.id, 0)])
  }

  function RTermAck(e: Endpoint, opts: nat): (Endpoint, seq<Frame>) {
    match e.state
    case Stopping => (e.(timer := false, state := Stopped), [])
    case AckRcvd => (e.(state := ReqSent), [])
    case Opened => Restart(e, opts)
    case _ => (e, [])
  }

  /** The timer has fired, so it is no longer scheduled when the hook starts. */
  function Timeout(e: Endpoint, opts: nat): (Endpoint, seq<Frame>) {
    var s := e.(timer := false);
    match e.state
    case Stopping =>
      if e.retransmits <= 0 then (s.(state := Stopped), [])
      else (s.(id := Next(e.id), reqid := Next(e.id), timer := true, retransmits := e.retransmits - 1),
            [Frame(TermReq, Next(e.id), 0)])
    case ReqSent => if e.retransmits <= 0 then (s.(state := Stopped), []) else SConfReq(s, true, opts)
    case AckSent => if e.retransmits <= 0 then (s.(state := Stopped), []) else SConfReq(s, true, opts)
    case AckRcvd =>
      if e.retransmits <= 0 then (s.(state := Stopped), []) else
      var (t, out) := SConfReq(s, true, opts);
      (t.(state := ReqSent), out)
    case _ => (s, [])
  }

  function SimpleAction(e: Endpoint, i: Input, opts: nat): (Endpoint, seq<Frame>) {
    match i
    case Runt => (e, [])
    case Foreign(rejects) =>
      if rejects then (e.(id := Next(e.id)), [Frame(ProtRej, Next(e.id), 0)]) else (e, [])
    case BadLength => (e, [])
    case Recv(f, verdict) =>
      match f.code
      case ConfReq => RConfReq(e, f, verdict, opts)
      case ConfAck => RConfAck(e, f, opts)
      case ConfNak => RConfNakRej(e, f, opts)
      case ConfRej => RConfNakRej(e, f, opts)
      case TermReq => RTermReq(e, f)
      case TermAck => RTermAck(e, opts)
      case CodeRej => (if e.state == AckRcvd then e.(state := ReqSent) else e, [])
      case _ => (e, [])
  }

  function Step(e: Endpoint, ev: Event): (Endpoint, seq<Frame>) {
    match ev
    case Packet(i, opts) => SimpleAction(e, i, opts)
    case Fire(opts) => Timeout(e, opts)
  }

  predicate Enabled(e: Endpoint, ev: Event) {
    match ev
    case Packet(i, _) => i.Recv? ==> IsVerdict(i.verdict)
    case Fire(_) => e.timer
  }

  // --- The invariant of every run ------------------------------------------------

  predicate Waiting(s: State) {
    s in {ReqSent, AckRcvd, AckSent, Stopping}
  }

  predicate Inv(e: Endpoint) {
    && (Waiting(e.state) || e.state in {Stopped, Opened})
    && (e.timer <==> Waiting(e.state))
    && 0 <= e.retransmits <= MAX_CONFREQS
    && (e.state == Stopping ==> e.retransmits == 0)
    && (e.state in {AckRcvd, Opened} ==> e.seenAck && e.retransmits == MAX_CONFREQS)
  }

  lemma StepKeepsInv(e: Endpoint, ev: Event)
    requires Inv(e) && Enabled(e, ev)
    ensures Inv(Step(e, ev).0)
  {
  }

  predicate IsRun(e: Endpoint, evs: seq<Event>)
    decreases |evs|
  {
    evs == [] || (Enabled(e, evs[0]) && IsRun(Step(e, evs[0]).0, evs[1..]))
  }

  function After(e: Endpoint, evs: seq<Event>): Endpoint
    decreases |evs|
  {
    if evs == [] then e else After(Step(e, evs[0]).0, evs[1..])
  }

  /**
    In every run: the timer is scheduled exactly in REQSENT, ACKRCVD, ACKSENT and STOPPING; the retransmit counter
    stays between 0 and its maximum, is 0 in STOPPING and at its maximum in ACKRCVD and OPENED, which imply seen_ack.
   */
  lemma {:induction false} RunKeepsInv(e: Endpoint, evs: seq<Event>)
    requires Inv(e) && IsRun(e, evs)
    ensures Inv(After(e, evs))
    decreases |evs|
  {
    if evs != [] {
      StepKeepsInv(e, evs[0]);
      RunKeepsInv(Step(e, evs[0]).0, evs[1..]);
    }
  }

  /** The ACKRCVD and OPENED cases of `rconfack` and `rconfnakrej` are unreachable: the id/seen_ack guard rejects first. */
  lemma RestartCasesUnreachable(e: Endpoint, f: Frame, opts: nat, evs: seq<Event>)
    requires IsRun(FRESH, evs) && e == After(FRESH, evs) && e.state in {AckRcvd, Opened}
    ensures RConfAck(e, f, opts) == (e, []) && RConfNakRej(e, f, opts) == (e, [])
  {
    RunKeepsInv(FRESH, evs);
  }

  // --- The state transition table ----------------------------------------------------

  /** The events and actions of section 4.1 of RFC 1661; `NoEvent` is a packet that is silently discarded. */
  datatype Cause = RcrPlus | RcrMinus | Rca | Rcn | Rtr | Rta | Ruc | Rxj | ToPlus | ToMinus | NoEvent

  datatype Reset = Irc | Zrc | Keep

  datatype Send = Scr | Sca | Scn | Str | Sta | Scj

  /** What is done to the restart counter, what is sent, and the next state. */
  datatype Entry = Entry(reset: Reset, sends: seq<Send>, next: State)

  /** The columns Stopped, Stopping, Req-Sent, Ack-Rcvd, Ack-Sent and Opened of that table, without tlu, tld and tlf. */
  function Table(s: State, c: Cause): Entry {
    match c
    case RcrPlus =>
      (match s
       case Stopped => Entry(Irc, [Scr, Sca], AckSent)
       case Stopping => Entry(Keep, [], Stopping)
       case AckRcvd => Entry(Keep, [Sca], Opened)
       case Opened => Entry(Keep, [Scr, Sca], AckSent)
       case _ => Entry(Keep, [Sca], AckSent))
    case RcrMinus =>
      (match s
       case Stopped => Entry(Irc, [Scr, Scn], ReqSent)
       case Stopping => Entry(Keep, [], Stopping)
       case AckRcvd => Entry(Keep, [Scn], AckRcvd)
       case Opened => Entry(Keep, [Scr, Scn], ReqSent)
       case _ => Entry(Keep, [Scn], ReqSent))
    case Rca =>
      (match s
       case Stopped => Entry(Keep, [Sta], Stopped)
       case Stopping => Entry(Keep, [], Stopping)
       case ReqSent => Entry(Irc, [], AckRcvd)
       case AckSent => Entry(Irc, [], Opened)
       case _ => Entry(Keep, [Scr], ReqSent))
    case Rcn =>
      (match s
       case Stopped => Entry(Keep, [Sta], Stopped)
       case Stopping => Entry(Keep, [], Stopping)
       case ReqSent => Entry(Irc, [Scr], ReqSent)
       case AckSent => Entry(Irc, [Scr], AckSent)
       case _ => Entry(Keep, [Scr], ReqSent))
    case Rtr =>
      (match s
       case Stopped => Entry(Keep, [Sta], Stopped)
       case Stopping => Entry(Keep, [Sta], Stopping)
       case Opened => Entry(Zrc, [Sta], Stopping)
       case _ => Entry(Keep, [Sta], ReqSent))
    case Rta =>
      (match s
       case Stopping => Entry(Keep, [], Stopped)
       case AckRcvd => Entry(Keep, [], ReqSent)
       case Opened => Entry(Keep, [Scr], ReqSent)
       case _ => Entry(Keep, [], s))
    case Ruc => Entry(Keep, [Scj], s)
    case Rxj => Entry(Keep, [], if s == AckRcvd then ReqSent else s)
    case ToPlus => Entry(Keep, [if s == Stopping then Str else Scr], if s == AckRcvd then ReqSent else s)
    case ToMinus => Entry(Keep, [], Stopped)
    case NoEvent => Entry(Keep, [], s)
  }

  /** A configure answer is valid only under the identifier of the request outstanding (sections 5.2 to 5.4). */
  function CauseOf(e: Endpoint, ev: Event): Cause {
    match ev
    case Fire(_) => if e.retransmits > 0 then ToPlus else ToMinus
    case Packet(Recv(f, verdict), _) =>
      (match f.code
       case ConfReq => if verdict == ConfAck then RcrPlus else RcrMinus
       case ConfAck => if f.id == e.reqid then Rca else NoEvent
       case ConfNak => if f.id == e.reqid then Rcn else NoEvent
       case ConfRej => if f.id == e.reqid then Rcn else NoEvent
       case TermReq => Rtr
       case TermAck => Rta
       case CodeRej => Rxj
       case ProtRej => Rxj
       case Other => Ruc)
    case _ => NoEvent
  }

  /** The code of a frame; the verdict on a request that is not acknowledged is CONFNAK or CONFREJ. */
  function CodeOf(a: Send, verdict: Code): Code {
    match a
    case Scr => ConfReq
    case Sca => ConfAck
    case Scn => verdict
    case Str => TermReq
    case Sta => TermAck
    case Scj => CodeRej
  }

  /** irc sets the restart counter to its maximum, zrc to zero, and a request sent takes one off. */
  function Counter(n: int, t: Entry): int {
    (match t.reset case Irc => MAX_CONFREQS case Zrc => 0 case Keep => n)
    - (if Scr in t.sends || Str in t.sends then 1 else 0)
  }

  /** A step did what the entry says: the state, the codes of the frames sent in order, and the restart counter. */
  predicate Follows(e: Endpoint, t: Entry, verdict: Code, r: (Endpoint, seq<Frame>)) {
    && r.0.state == t.next
    && |r.1| == |t.sends|
    && (forall i :: 0 <= i < |t.sends| ==> r.1[i].code == CodeOf(t.sends[i], verdict))
    && r.0.retransmits == Counter(e.retransmits, t)
  }

  /**
    Where the code departs from the table: it negotiates in STOPPING, ignores a second answer to the same request,
    sends no Code-Reject, and ignores a Protocol-Reject.
   */
  predicate Departs(e: Endpoint, f: Frame) {
    match f.code
    case ConfReq => e.state == Stopping
    case ConfAck => f.id == e.reqid && e.seenAck && e.state != Stopping
    case ConfNak => f.id == e.reqid && e.seenAck && e.state != Stopping
    case ConfRej => f.id == e.reqid && e.seenAck && e.state != Stopping
    case ProtRej => e.state == AckRcvd
    case Other => true
    case _ => false
  }

  lemma ConfReqRow(e: Endpoint, f: Frame, verdict: Code, opts: nat)
    requires Inv(e) && IsVerdict(verdict)
    ensures var row := Table(e.state, if verdict == ConfAck then RcrPlus else RcrMinus);
            Follows(e, row, verdict, RConfReq(e, f, verdict, opts)) <==> e.state != Stopping
  {
  }

  lemma ConfAckRow(e: Endpoint, f: Frame, verdict: Code, opts: nat)
    requires Inv(e)
    ensures Follows(e, Table(e.state, if f.id == e.reqid then Rca else NoEvent), verdict, RConfAck(e, f, opts)) <==>
            !(f.id == e.reqid && e.seenAck && e.state != Stopping)
  {
  }

  lemma ConfNakRejRow(e: Endpoint, f: Frame, verdict: Code, opts: nat)
    requires Inv(e)
    ensures Follows(e, Table(e.state, if f.id == e.reqid then Rcn else NoEvent), verdict, RConfNakRej(e, f, opts)) <==>
            !(f.id == e.reqid && e.seenAck && e.state != Stopping)
  {
  }

  lemma TermReqRow(e: Endpoint, f: Frame, verdict: Code)
    requires Inv(e)
    ensures Follows(e, Table(e.state, Rtr), verdict, RTermReq(e, f))
  {
  }

  lemma TermAckRow(e: Endpoint, verdict: Code, opts: nat)
    requires Inv(e)
    ensures Follows(e, Table(e.state, Rta), verdict, RTermAck(e, opts))
  {
  }

  lemma TimeoutRow(e: Endpoint, opts: nat)
    requires Inv(e) && e.timer
    ensures Follows(e, Table(e.state, if e.retransmits > 0 then ToPlus else ToMinus), ConfAck, Timeout(e, opts))
  {
  }

  /** In every state a run can reach, a frame is handled as the table says exactly if it is none of the departures. */
  lemma FrameFollowsTable(e: Endpoint, f: Frame, verdict: Code, opts: nat)
    requires Inv(e) && IsVerdict(verdict)
    ensures var row := Table(e.state, CauseOf(e, Packet(Recv(f, verdict), opts)));
            Follows(e, row, verdict, SimpleAction(e, Recv(f, verdict), opts)) <==> !Departs(e, f)
  {
    match f.code
    case ConfReq => ConfReqRow(e, f, verdict, opts);
    case ConfAck => ConfAckRow(e, f, verdict, opts);
    case ConfNak => ConfNakRejRow(e, f, verdict, opts);
    case ConfRej => ConfNakRejRow(e, f, verdict, opts);
    case TermReq => TermReqRow(e, f, verdict);
    case TermAck => TermAckRow(e, verdict, opts);
    case CodeRej =>
    case ProtRej =>
    case Other =>
  }

  /**
    In every run, each frame and each timeout is handled by state, frames sent and restart counter as the table says,
    exactly if it is none of the departures.
   */
  lemma RunFollowsTable(evs: seq<Event>, ev: Event)
    requires IsRun(FRESH, evs) && Enabled(After(FRESH, evs), ev) && (ev.Packet? ==> ev.input.Recv?)
    ensures var e := After(FRESH, evs);
            var verdict := if ev.Packet? then ev.input.verdict else ConfAck;
            Follows(e, Table(e.state, CauseOf(e, ev)), verdict, Step(e, ev)) <==> !(ev.Packet? && Departs(e, ev.input.f))
  {
    RunKeepsInv(FRESH, evs);
    match ev
    case Packet(i, opts) => FrameFollowsTable(After(FRESH, evs), i.f, i.verdict, opts);
    case Fire(opts) => TimeoutRow(After(FRESH, evs), opts);
  }

  /** A departure is a frame that does nothing, or a request in STOPPING, which is answered as if in REQSENT. */
  lemma DeparturesDo(e: Endpoint, f: Frame, verdict: Code, opts: nat)
    requires IsVerdict(verdict) && Departs(e, f)
    ensures SimpleAction(e, Recv(f, verdict), opts) ==
            if f.code == ConfReq then
              (e.(state := if verdict == ConfAck then AckSent else ReqSent), [Frame(verdict, f.id, f.content)])
            else (e, [])
  {
    assert [] + [Frame(verdict, f.id, f.content)] == [Frame(verdict, f.id, f.content)];
  }

  /** Answers repeat the id of the frame answered, and configure answers its options; new requests are not answers. */
  lemma AnswersEcho(e: Endpoint, f: Frame, verdict: Code, opts: nat)
    requires IsVerdict(verdict)
    ensures forall g :: g in SimpleAction(e, Recv(f, verdict), opts).1 ==>
              if f.code == ConfReq && g.code == verdict then g.id == f.id && g.content == f.content
              else if g.code == TermAck then g.id == f.id && g.content == 0
              else g.code == ConfReq && g.content == opts
  {
  }

  /** seen_ack says that the request outstanding was answered. */
  lemma SeenAckExactly(e: Endpoint, ev: Event)
    requires Inv(e) && Enabled(e, ev)
    ensures var (t, out) := Step(e, ev);
            t.seenAck <==> NoRequest(out) && (e.seenAck || CauseOf(e, ev) in {Rca, Rcn})
  {
    if ev.Packet? && ev.input.Recv? {
      SeenAckReceived(e, ev.input.f, ev.input.verdict, ev.opts);
    }
  }

  predicate NoRequest(out: seq<Frame>) {
    forall f :: f in out ==> f.code != ConfReq
  }

  lemma SeenAckReceived(e: Endpoint, f: Frame, verdict: Code, opts: nat)
    requires Inv(e) && IsVerdict(verdict)
    ensures var (t, out) := SimpleAction(e, Recv(f, verdict), opts);
            t.seenAck <==> NoRequest(out) && (e.seenAck || CauseOf(e, Packet(Recv(f, verdict), opts)) in {Rca, Rcn})
  {
    match f.code
    case ConfReq => SeenAckRequest(e, f, verdict, opts);
    case _ =>
  }

  lemma SeenAckRequest(e: Endpoint, f: Frame, verdict: Code, opts: nat)
    requires IsVerdict(verdict)
    ensures var (t, out) := RConfReq(e, f, verdict, opts); t.seenAck <==> NoRequest(out) && e.seenAck
  {
  }

  // --- Termination -------------------------------------------------------------------

  /** A TERMREQ ends every negotiated state, is answered by one TERMACK with its id, and leaves OPENED for STOPPING. */
  lemma TermReqLeaves(e: Endpoint, f: Frame, verdict: Code, opts: nat)
    requires Inv(e) && f.code == TermReq
    ensures var (t, out) := SimpleAction(e, Recv(f, verdict), opts);
            && t.state == (if e.state == Opened then Stopping else if e.state in {Stopped, Stopping} then e.state else ReqSent)
            && out == [Frame(TermAck, f.id, 0)]
            && (e.state == Opened ==> t.timer && t.retransmits == 0)
  {
  }

  predicate IsConfReq(ev: Event) {
    ev.Packet? && ev.input.Recv? && ev.input.f.code == ConfReq
  }

  /** What STOPPING waits for. */
  predicate EndsStopping(ev: Event) {
    ev.Fire? || (ev.Packet? && ev.input.Recv? && ev.input.f.code == TermAck)
  }

  lemma StoppingStep(e: Endpoint, ev: Event)
    requires Inv(e) && Enabled(e, ev) && e.state in {Stopping, Stopped} && !IsConfReq(ev)
    ensures Inv(Step(e, ev).0)
    ensures Step(e, ev).0.state == if EndsStopping(ev) then Stopped else e.state
  {
    StepKeepsInv(e, ev);
  }

  /** Without a CONFREQ, the first TERMACK or timeout takes STOPPING to STOPPED, and nothing leads out of these two. */
  lemma {:induction false} StoppingEnds(e: Endpoint, evs: seq<Event>)
    requires Inv(e) && e.state in {Stopping, Stopped} && IsRun(e, evs)
    requires forall k :: 0 <= k < |evs| ==> !IsConfReq(evs[k])
    ensures After(e, evs).state ==
            if e.state == Stopped || exists k :: 0 <= k < |evs| && EndsStopping(evs[k]) then Stopped else Stopping
    decreases |evs|
  {
    if evs != [] {
      StoppingStep(e, evs[0]);
      StoppingEnds(Step(e, evs[0]).0, evs[1..]);
      assert forall k :: 0 < k < |evs| ==> evs[k] == evs[1..][k - 1];
    }
  }

  /** An OPENED endpoint that receives a TERMREQ is closed until it processes a CONFREQ. */
  lemma TerminatedUntilRequest(e: Endpoint, f: Frame, verdict: Code, opts: nat, evs: seq<Event>)
    requires Inv(e) && e.state == Opened && f.code == TermReq && IsVerdict(verdict)
    requires var t := SimpleAction(e, Recv(f, verdict), opts).0; IsRun(t, evs)
    requires forall k :: 0 <= k < |evs| ==> !IsConfReq(evs[k])
    ensures var t := SimpleAction(e, Recv(f, verdict), opts).0;
            After(t, evs).state == if exists k :: 0 <= k < |evs| && EndsStopping(evs[k]) then Stopped else Stopping
  {
    TermReqLeaves(e, f, verdict, opts);
    StepKeepsInv(e, Packet(Recv(f, verdict), opts));
    StoppingEnds(SimpleAction(e, Recv(f, verdict), opts).0, evs);
  }

  // --- Timeouts --------------------------------------------------------------------

  function Timeouts(e: Endpoint, n: nat, opts: nat): Endpoint {
    if n == 0 then e else Timeout(Timeouts(e, n - 1, opts), opts).0
  }

  lemma {:induction false} TimeoutsCount(e: Endpoint, n: nat, opts: nat)
    requires Inv(e) && e.timer && n <= e.retransmits
    ensures var t := Timeouts(e, n, opts); Inv(t) && t.timer && t.retransmits == e.retransmits - n
  {
    if n > 0 {
      TimeoutsCount(e, n - 1, opts);
    }
  }

  /** Left alone, an endpoint that waits gives up after exactly retransmits + 1 timeouts (section 4.6 of RFC 1661). */
  lemma GivesUpExactly(e: Endpoint, n: nat, opts: nat)
    requires Inv(e) && e.timer && n <= e.retransmits + 1
    ensures Timeouts(e, n, opts).state == Stopped <==> n == e.retransmits + 1
  {
    TimeoutsCount(e, if n <= e.retransmits then n else n - 1, opts);
  }
}

/** The element: every method is proved against the step function of the same name. */
module PPPControlProtocol {
  import opened Common
  import opened PPPEndpoint

  class ControlProtocol {
    var state: State
    var id: Byte
    var reqid: Byte
    var seenAck: bool
    var retransmits: int
    var timer: bool
    var output: seq<Frame>

    ghost function Now(): Endpoint
      reads this
    {
      Endpoint(state, id, reqid, seenAck, retransmits, timer)
    }

    /** The fields changed as `r` says and the frames of `r` were sent. */
    twostate predicate Did(r: (Endpoint, seq<Frame>))
      reads this
    {
      Now() == r.0 && output == old(output) + r.1
    }

    /** What the assertions in the code need; part of `Inv`, hence true in every run. */
    predicate TimerRuns()
      reads this
    {
      state in {Opened, Stopped} || timer
    }

    constructor ()
      ensures Now() == FRESH && output == []
    {
      state, id, reqid, seenAck := Stopped, 0, 0, false;
      retransmits, timer, output := MAX_CONFREQS, false, [];
    }

    method Send(f: Frame)
      modifies `output
      ensures output == old(output) + [f]
    {
      output := output + [f];
    }

    /** The one frame sent carries the id the endpoint now waits for; sent while negotiating, it keeps the invariant. */
    method SendConfReq(retransmit: bool, opts: nat)
      modifies this
      ensures Did(SConfReq(old(Now()), retransmit, opts))
      ensures old(Inv(Now()) && state in {ReqSent, AckSent} && (retransmit ==> retransmits > 0)) ==> Inv(Now())
      ensures retransmit ==> reqid == old(reqid)
      ensures !retransmit ==> reqid == id != old(id)
    {
      if !retransmit {
        retransmits := MAX_CONFREQS;
        id := Next(id);
        reqid := id;
      }
      seenAck := false;
      Send(Frame(ConfReq, reqid, opts));
      retransmits := retransmits - 1;
      timer := true;
    }

    method ReceiveConfReq(f: Frame, verdict: Code, opts: nat) returns (reply: Frame)
      requires TimerRuns() && IsVerdict(verdict)
      modifies this
      ensures old(Inv(Now())) ==> Inv(Now())
      ensures var r := RConfReq(old(Now()), f, verdict, opts); Now() == r.0 && output + [reply] == old(output) + r.1
    {
      if Inv(Now()) {
        StepKeepsInv(Now(), Packet(Recv(f.(code := ConfReq), verdict), opts));
      }
      if state in {Opened, Stopped} {
        SendConfReq(false, opts);
        state := ReqSent;
      }
      if verdict == ConfAck {
        if state == AckRcvd {
          timer := false;
          state := Opened;
        } else {
          state := AckSent;
          assert timer;
        }
      } else if state != AckRcvd {
        state := ReqSent;
        assert timer;
      }
      reply := Frame(verdict, f.id, f.content);
    }

    method TimerFired(opts: nat)
      requires TimerRuns() && timer
      modifies this
      ensures old(Inv(Now())) ==> Inv(Now())
      ensures Did(Timeout(old(Now()), opts))
    {
      if Inv(Now()) {
        StepKeepsInv(Now(), Fire(opts));
      }
      timer := false;
      if state == Stopping {
        if retransmits <= 0 {
          state := Stopped;
        } else {
          id := Next(id);
          reqid := id;
          Send(Frame(TermReq, reqid, 0));
          timer := true;
          retransmits := retransmits - 1;
        }
      } else if state in {ReqSent, AckRcvd, AckSent} {
        if retransmits <= 0 {
          state := Stopped;
        } else {
          SendConfReq(true, opts);
          if state == AckRcvd {
            state := ReqSent;
            assert timer;
          }
        }
      }
    }

    method ReceiveConfAck(f: Frame, opts: nat)
      requires TimerRuns()
      modifies this
      ensures old(Inv(Now())) ==> Inv(Now())
      ensures Did(RConfAck(old(Now()), f, opts))
    {
      if Inv(Now()) {
        StepKeepsInv(Now(), Packet(Recv(f.(code := ConfAck), ConfAck), opts));
      }
      if f.id != reqid || seenAck {
        return;
      }
      seenAck := true;
      match state
      case Stopped =>
        Send(Frame(TermAck, f.id, 0));
      case ReqSent =>
        state := AckRcvd;
        retransmits := MAX_CONFREQS;
        assert timer;
      case AckSent =>
        timer := false;
        state := Opened;
        retransmits := MAX_CONFREQS;
      case AckRcvd | Opened =>
        timer := false;
        SendConfReq(false, opts);
        state := ReqSent;
      case _ =>
    }

    method ReceiveConfNakRej(f: Frame, opts: nat)
      requires TimerRuns()
      modifies this
      ensures old(Inv(Now())) ==> Inv(Now())
      ensures Did(RConfNakRej(old(Now()), f, opts))
    {
      if Inv(Now()) {
        StepKeepsInv(Now(), Packet(Recv(f.(code := ConfNak), ConfAck), opts));
      }
      if f.id != reqid || seenAck {
        return;
      }
      seenAck := true;
      match state
      case Stopped =>
        Send(Frame(TermAck, f.id, 0));
      case ReqSent | AckSent =>
        timer := false;
        SendConfReq(false, opts);
      case AckRcvd | Opened =>
        timer := false;
        SendConfReq(false, opts);
        state := ReqSent;
      case _ =>
    }

    method ReceiveTermReq(f: Frame)
      requires TimerRuns()
      modifies this
      ensures old(Inv(Now())) ==> Inv(Now())
      ensures Did(RTermReq(old(Now()), f))
    {
      match state {
        case AckRcvd | AckSent =>
          state := ReqSent;
        case Opened =>
          retransmits := 0;
          state := Stopping;
          timer := true;
        case _ =>
      }
      Send(Frame(TermAck, f.id, 0));
    }

    method ReceiveTermAck(opts: nat)
      requires TimerRuns()
      modifies this
      ensures old(Inv(Now())) ==> Inv(Now())
      ensures Did(RTermAck(old(Now()), opts))
    {
      match state
      case Stopping =>
        timer := false;
        state := Stopped;
      case AckRcvd =>
        state := ReqSent;
      case Opened =>
        SendConfReq(false, opts);
        state := ReqSent;
      case _ =>
    }

    method Receive(i: Input, opts: nat)
      requires TimerRuns() && Enabled(Now(), Packet(i, opts))
      modifies this
      ensures old(Inv(Now())) ==> Inv(Now())
      ensures Did(SimpleAction(old(Now()), i, opts))
    {
      match i
      case Foreign(rejects) =>
        if rejects {
          id := Next(id);
          Send(Frame(ProtRej, id, 0));
        }
      case Recv(f, verdict) =>
        match f.code {
          case ConfReq =>
            var reply := ReceiveConfReq(f, verdict, opts);
            Send(reply);
          case ConfAck =>
            ReceiveConfAck(f, opts);
          case ConfNak | ConfRej =>
            ReceiveConfNakRej(f, opts);
          case TermReq =>
            ReceiveTermReq(f);
          case TermAck =>
            ReceiveTermAck(opts);
          case CodeRej =>
            if state == AckRcvd {
              state := ReqSent;
            }
          case _ =>
        }
      case _ =>
    }
  }
}

/** Two endpoints over a channel that may lose, duplicate and reorder frames, but not forge them. */
module PPPLink {
  import opened PPPEndpoint

  /**
    An endpoint with history: `ids` counts the ids it has drawn, `serial` numbers its current request (both unbounded),
    `answered` is what it replied to the last CONFREQ it processed, and `sent` is every frame it ever sent.
   */
  datatype Node = Node(ep: Endpoint, ids: nat, serial: nat, answered: seq<Code>, sent: set<Frame>)

  datatype Link = Link(a: Node, b: Node)

  datatype Move = Move(atA: bool, ev: Event)

  /**
    A new request carries its serial number as content and a retransmission repeats it.
    Any frame the peer ever sent may arrive, any number of times and in any order, or never.
   */
  predicate MayMove(n: Node, peer: Node, ev: Event) {
    && Enabled(n.ep, ev)
    && (ev.Packet? && ev.input.Recv? ==> ev.input.f in peer.sent)
    && ev.opts == (if ev.Packet? then n.ids + 1 else n.serial)
  }

  function NodeStep(n: Node, ev: Event): Node {
    var (ep, out) := Step(n.ep, ev);
    var drew := ep.id != n.ep.id;
    Node(ep,
         if drew then n.ids + 1 else n.ids,
         if drew && !(ev.Packet? && ev.input.Foreign?) then n.ids + 1 else n.serial,
         if ev.Packet? && ev.input.Recv? && ev.input.f.code == ConfReq then n.answered + [ev.input.verdict] else n.answered,
         n.sent + (set f | f in out))
  }

  predicate CanMove(l: Link, m: Move) {
    if m.atA then MayMove(l.a, l.b, m.ev) else MayMove(l.b, l.a, m.ev)
  }

  function LinkStep(l: Link, m: Move): Link {
    if m.atA then l.(a := NodeStep(l.a, m.ev)) else l.(b := NodeStep(l.b, m.ev))
  }

  /** The element itself never opens a link; an initiating peer has sent one CONFREQ and waits in REQSENT. */
  function Start(opens: bool): Node {
    if opens then
      var (ep, out) := Restart(FRESH, 1);
      Node(ep, 1, 1, [], set f | f in out)
    else Node(FRESH, 0, 0, [], {})
  }

  predicate IsRun(l: Link, ms: seq<Move>)
    decreases |ms|
  {
    ms == [] || (CanMove(l, ms[0]) && IsRun(LinkStep(l, ms[0]), ms[1..]))
  }

  function After(l: Link, ms: seq<Move>): Link
    decreases |ms|
  {
    if ms == [] then l else After(LinkStep(l, ms[0]), ms[1..])
  }

  // --- Invariant -------------------------------------------------------------------

  predicate GoodIds(n: Node) {
    && n.ep.id == n.ids % 256
    && n.ep.reqid == n.serial % 256
    && n.serial <= n.ids
    && (n.ep.state != Stopped ==> n.serial >= 1)
    && forall f :: f in n.sent && f.code == ConfReq ==> f.id == f.content % 256 && 1 <= f.content <= n.serial
  }

  /** The peer acknowledges only requests that were sent. */
  predicate AcksAnswer(n: Node, peer: Node) {
    forall f :: f in peer.sent && f.code == ConfAck ==> Frame(ConfReq, f.id, f.content) in n.sent
  }

  /** Some CONFACK of the peer carries the current request id. */
  predicate Acked(n: Node, peer: Node) {
    exists f :: f in peer.sent && f.code == ConfAck && f.id == n.ep.reqid
  }

  predicate LastWasAck(n: Node) {
    n.answered != [] && n.answered[|n.answered| - 1] == ConfAck
  }

  predicate SideInv(n: Node, peer: Node) {
    && Inv(n.ep)
    && GoodIds(n)
    && AcksAnswer(n, peer)
    && (n.ep.state in {AckRcvd, Opened} ==> Acked(n, peer))
    && (n.ep.state in {AckSent, Opened} ==> LastWasAck(n))
  }

  predicate LinkInv(l: Link) {
    SideInv(l.a, l.b) && SideInv(l.b, l.a)
  }

  /** A received packet draws at most one id; a new request takes it and is the only one sent. */
  predicate Drawn(e: Endpoint, opts: nat, t: Endpoint, out: seq<Frame>) {
    && t.id in {e.id, Next(e.id)}
    && t.reqid == (if t.id != e.id then t.id else e.reqid)
    && forall f :: f in out && f.code == ConfReq ==> f.id == t.reqid && f.content == opts && t.id != e.id
  }

  lemma ConfReqDraws(e: Endpoint, f: Frame, verdict: Code, opts: nat)
    requires IsVerdict(verdict)
    ensures var (t, out) := RConfReq(e, f, verdict, opts); Drawn(e, opts, t, out)
  {
  }

  lemma ConfAckDraws(e: Endpoint, f: Frame, opts: nat)
    ensures var (t, out) := RConfAck(e, f, opts); Drawn(e, opts, t, out)
    ensures var (t, out) := RConfNakRej(e, f, opts); Drawn(e, opts, t, out)
  {
  }

  lemma TermDraws(e: Endpoint, f: Frame, opts: nat)
    ensures var (t, out) := RTermReq(e, f); Drawn(e, opts, t, out)
    ensures var (t, out) := RTermAck(e, opts); Drawn(e, opts, t, out)
  {
  }

  lemma ReceiveDraws(e: Endpoint, f: Frame, verdict: Code, opts: nat)
    requires IsVerdict(verdict)
    ensures var (t, out) := SimpleAction(e, Recv(f, verdict), opts); Drawn(e, opts, t, out)
  {
    if f.code == ConfReq {
      ConfReqDraws(e, f, verdict, opts);
    } else if f.code in {ConfAck, ConfNak, ConfRej} {
      ConfAckDraws(e, f, opts);
    } else {
      TermDraws(e, f, opts);
    }
  }

  /** A step draws at most one id, a new request takes the drawn id, and a repeated one keeps its id. */
  lemma StepDrawsOneId(e: Endpoint, ev: Event)
    requires Enabled(e, ev)
    ensures var (t, out) := Step(e, ev);
            && t.id in {e.id, Next(e.id)}
            && t.reqid == (if t.id != e.id && !(ev.Packet? && ev.input.Foreign?) then t.id else e.reqid)
            && (forall f :: f in out && f.code == ConfReq ==>
                  f.id == t.reqid && f.content == ev.opts && (ev.Packet? ==> t.id != e.id && !ev.input.Foreign?))
            && (ev.Fire? && e.state != Stopping ==> t.id == e.id)
  {
    if ev.Packet? && ev.input.Recv? {
      ReceiveDraws(e, ev.input.f, ev.input.verdict, ev.opts);
    }
  }

  lemma StepIds(n: Node, ev: Event)
    requires Inv(n.ep) && GoodIds(n) && Enabled(n.ep, ev)
    requires ev.opts == (if ev.Packet? then n.ids + 1 else n.serial)
    ensures GoodIds(NodeStep(n, ev))
  {
    NextId(n.ids);
    StepDrawsOneId(n.ep, ev);
    var (t, out) := Step(n.ep, ev);
    if n.ep.state == Stopped && t.state != Stopped {
      LeavesStopped(n.ep, ev);
    }
    IdsFollow(n, ev, t, out, NodeStep(n, ev));
  }

  lemma IdsFollow(n: Node, ev: Event, t: Endpoint, out: seq<Frame>, m: Node)
    requires GoodIds(n) && m.ep == t && m.sent == n.sent + (set f | f in out)
    requires m.ids == (if t.id != n.ep.id then n.ids + 1 else n.ids)
    requires m.serial == (if t.id != n.ep.id && !(ev.Packet? && ev.input.Foreign?) then n.ids + 1 else n.serial)
    requires ev.opts == (if ev.Packet? then n.ids + 1 else n.serial)
    requires t.id in {n.ep.id, Next(n.ep.id)} && (n.ids + 1) % 256 == Next(n.ep.id)
    requires t.reqid == if t.id != n.ep.id && !(ev.Packet? && ev.input.Foreign?) then t.id else n.ep.reqid
    requires forall f :: f in out && f.code == ConfReq ==>
                           f.id == t.reqid && f.content == ev.opts && (ev.Packet? ==> t.id != n.ep.id && !ev.input.Foreign?)
    requires forall f :: f in out && f.code == ConfReq && ev.Fire? ==> t.id == n.ep.id && n.serial >= 1
    requires t.state != Stopped ==> m.serial >= 1
    ensures GoodIds(m)
  {
  }

  /** STOPPED is left only by sending a new request. */
  lemma LeavesStopped(e: Endpoint, ev: Event)
    requires Inv(e) && Enabled(e, ev) && e.state == Stopped && Step(e, ev).0.state != Stopped
    ensures Step(e, ev).0.id != e.id && !(ev.Packet? && ev.input.Foreign?)
  {
  }

  lemma NextId(n: nat)
    ensures (n + 1) % 256 == (n % 256 + 1) % 256
  {
  }

  /** ACKRCVD and OPENED are entered by a CONFACK for the current id, or left alone. */
  lemma StepToAcked(e: Endpoint, ev: Event)
    requires Inv(e) && Enabled(e, ev) && Step(e, ev).0.state in {AckRcvd, Opened}
    ensures Step(e, ev).0.reqid == e.reqid
    ensures e.state in {AckRcvd, Opened} ||
            (ev.Packet? && ev.input.Recv? && ev.input.f.code == ConfAck && ev.input.f.id == e.reqid)
  {
  }

  /** ACKSENT and OPENED are entered by acknowledging a CONFREQ, or kept by steps that process none. */
  lemma StepToAnswered(e: Endpoint, ev: Event)
    requires Inv(e) && Enabled(e, ev) && Step(e, ev).0.state in {AckSent, Opened}
    ensures if ev.Packet? && ev.input.Recv? && ev.input.f.code == ConfReq then ev.input.verdict == ConfAck
            else e.state in {AckSent, Opened}
  {
  }

  /** A moving endpoint keeps its own side of the invariant. */
  lemma MoverKeeps(n: Node, peer: Node, ev: Event)
    requires SideInv(n, peer) && MayMove(n, peer, ev)
    ensures SideInv(NodeStep(n, ev), peer)
  {
    StepKeepsInv(n.ep, ev);
    StepIds(n, ev);
    var m := NodeStep(n, ev);
    assert n.sent <= m.sent;
    if m.ep.state in {AckRcvd, Opened} {
      StepToAcked(n.ep, ev);
    }
    if m.ep.state in {AckSent, Opened} {
      StepToAnswered(n.ep, ev);
    }
  }

  /** What an endpoint adds to the channel keeps the peer's side of the invariant. */
  lemma PeerKeeps(n: Node, peer: Node, ev: Event)
    requires SideInv(peer, n) && MayMove(n, peer, ev)
    ensures SideInv(peer, NodeStep(n, ev))
  {
    var m := NodeStep(n, ev);
    assert n.sent <= m.sent;
    forall f | f in m.sent && f.code == ConfAck
      ensures Frame(ConfReq, f.id, f.content) in peer.sent
    {
      if f !in n.sent {
        AckAnswers(n.ep, ev, f);
      }
    }
  }

  /** A CONFACK is sent only in answer to a CONFREQ, and repeats it. */
  lemma AckAnswers(e: Endpoint, ev: Event, f: Frame)
    requires Enabled(e, ev) && f in Step(e, ev).1 && f.code == ConfAck
    ensures ev.Packet? && ev.input.Recv? && ev.input.f == Frame(ConfReq, f.id, f.content)
  {
  }

  lemma {:induction false} RunKeepsInv(l: Link, ms: seq<Move>)
    requires LinkInv(l) && IsRun(l, ms)
    ensures LinkInv(After(l, ms))
    decreases |ms|
  {
    if ms != [] {
      if ms[0].atA {
        MoverKeeps(l.a, l.b, ms[0].ev);
        PeerKeeps(l.a, l.b, ms[0].ev);
      } else {
        MoverKeeps(l.b, l.a, ms[0].ev);
        PeerKeeps(l.b, l.a, ms[0].ev);
      }
      RunKeepsInv(LinkStep(l, ms[0]), ms[1..]);
    }
  }

  // --- Main theorems -----------------------------------------------------------------

  /**
    An OPENED endpoint has been answered: the peer sent a CONFACK for a CONFREQ of this endpoint that carries the current
    request id, and this endpoint acknowledged the last CONFREQ it processed.  The acknowledged request is the current one
    up to wrap-around of the 8-bit id, so it is the current one as long as at most 256 ids were drawn; AgreementExactly
    says that no larger bound will do.
   */
  lemma OpenedIsAgreed(opensA: bool, opensB: bool, ms: seq<Move>, atA: bool) returns (ack: Frame)
    requires IsRun(Link(Start(opensA), Start(opensB)), ms)
    requires var l := After(Link(Start(opensA), Start(opensB)), ms);
             (if atA then l.a else l.b).ep.state == Opened
    ensures var l := After(Link(Start(opensA), Start(opensB)), ms);
            var (me, peer) := if atA then (l.a, l.b) else (l.b, l.a);
            && ack.code == ConfAck && ack.id == me.ep.reqid
            && ack in peer.sent && Frame(ConfReq, ack.id, ack.content) in me.sent
            && ack.content <= me.serial && ack.content % 256 == me.serial % 256
            && (me.ids <= 256 ==> ack.content == me.serial)
            && LastWasAck(me)
  {
    var l0 := Link(Start(opensA), Start(opensB));
    RunKeepsInv(l0, ms);
    var l := After(l0, ms);
    if atA {
      ack := TheAck(l.a, l.b);
    } else {
      ack := TheAck(l.b, l.a);
    }
  }

  lemma TheAck(n: Node, peer: Node) returns (ack: Frame)
    requires SideInv(n, peer) && n.ep.state == Opened
    ensures ack.code == ConfAck && ack.id == n.ep.reqid
    ensures ack in peer.sent && Frame(ConfReq, ack.id, ack.content) in n.sent
    ensures ack.content <= n.serial && ack.content % 256 == n.serial % 256
    ensures n.ids <= 256 ==> ack.content == n.serial
    ensures LastWasAck(n)
  {
    ack :| ack in peer.sent && ack.code == ConfAck && ack.id == n.ep.reqid;
    AckedRequest(n, peer, ack);
    if n.ids <= 256 {
      SameSerial(ack.content, n.serial);
    }
  }

  /** The request an acknowledgement of the current id answers. */
  lemma AckedRequest(n: Node, peer: Node, ack: Frame)
    requires GoodIds(n) && AcksAnswer(n, peer) && ack in peer.sent && ack.code == ConfAck && ack.id == n.ep.reqid
    ensures Frame(ConfReq, ack.id, ack.content) in n.sent
    ensures 1 <= ack.content <= n.serial && ack.content % 256 == n.serial % 256
  {
    assert Frame(ConfReq, ack.id, ack.content).content % 256 == ack.id;
  }

  lemma SameSerial(c: nat, serial: nat)
    requires 1 <= c <= serial <= 256 && c % 256 == serial % 256
    ensures c == serial
  {
  }

  /** Two endpoints as the element starts them stay STOPPED for ever: neither ever sends a configure frame. */
  lemma {:induction false} NobodyOpens(l: Link, ms: seq<Move>)
    requires l.a.ep.state == l.b.ep.state == Stopped && !l.a.ep.timer && !l.b.ep.timer
    requires forall f :: f in l.a.sent + l.b.sent ==> f.code == ProtRej
    requires IsRun(l, ms)
    ensures After(l, ms).a.ep.state == After(l, ms).b.ep.state == Stopped
    decreases |ms|
  {
    if ms != [] {
      NobodyOpens(LinkStep(l, ms[0]), ms[1..]);
    }
  }

  /** No end has terminated, and none has asked to. */
  ghost predicate Unterminated(n: Node) {
    Inv(n.ep) && n.ep.state != Stopping && forall f :: f in n.sent ==> f.code != TermReq
  }

  lemma UnterminatedStep(n: Node, peer: Node, ev: Event)
    requires Unterminated(n) && Unterminated(peer) && MayMove(n, peer, ev)
    ensures Unterminated(NodeStep(n, ev))
  {
    StepKeepsInv(n.ep, ev);
    NoTermReq(n.ep, ev);
  }

  /** STOPPING is entered by receiving a TERMREQ, and one is sent only from there, with retransmissions left. */
  lemma NoTermReq(e: Endpoint, ev: Event)
    requires Inv(e) && Enabled(e, ev) && e.state != Stopping
    requires ev.Packet? && ev.input.Recv? ==> ev.input.f.code != TermReq
    ensures Step(e, ev).0.state != Stopping && forall f :: f in Step(e, ev).1 ==> f.code != TermReq
  {
  }

  /** Between two such elements nobody terminates a link: no TERMREQ is ever sent and STOPPING is never entered. */
  lemma {:induction false} NobodyTerminates(l: Link, ms: seq<Move>)
    requires Unterminated(l.a) && Unterminated(l.b) && IsRun(l, ms)
    ensures Unterminated(After(l, ms).a) && Unterminated(After(l, ms).b)
    decreases |ms|
  {
    if ms != [] {
      if ms[0].atA {
        UnterminatedStep(l.a, l.b, ms[0].ev);
      } else {
        UnterminatedStep(l.b, l.a, ms[0].ev);
      }
      NobodyTerminates(LinkStep(l, ms[0]), ms[1..]);
    }
  }

  const REQ := Frame(ConfReq, 1, 1)
  const ACK := Frame(ConfAck, 1, 1)

  /** An endpoint that has sent request 1 acknowledges the peer's request 1 ... */
  lemma Acknowledges(n: Node)
    requires n.ep == Endpoint(ReqSent, 1, 1, false, 9, true) && n.sent == {REQ}
    ensures var m := NodeStep(n, Packet(Recv(REQ, ConfAck), 2));
            m.ep == Endpoint(AckSent, 1, 1, false, 9, true) && m.sent == {REQ, ACK}
  {
  }

  /** ... and opens on the peer's acknowledgement. */
  lemma Opens(n: Node)
    requires n.ep == Endpoint(AckSent, 1, 1, false, 9, true)
    ensures NodeStep(n, Packet(Recv(ACK, ConfAck), 2)).ep.state == Opened
  {
  }

  lemma PassiveAnswers()
    ensures var m := NodeStep(Start(false), Packet(Recv(REQ, ConfAck), 1));
            m.ep == Endpoint(AckSent, 1, 1, false, 9, true) && m.sent == {REQ, ACK} && m.ids == 1
  {
  }

  /** With one initiator, the plain exchange of two requests and two acknowledgements opens both ends. */
  lemma HandshakeOpens()
    ensures exists ms :: IsRun(Link(Start(true), Start(false)), ms)
                         && After(Link(Start(true), Start(false)), ms).a.ep.state == Opened
                         && After(Link(Start(true), Start(false)), ms).b.ep.state == Opened
  {
    var l0 := Link(Start(true), Start(false));
    assert l0.a == Node(Endpoint(ReqSent, 1, 1, false, 9, true), 1, 1, [], {REQ});
    var m0 := Move(false, Packet(Recv(REQ, ConfAck), 1));
    var m1 := Move(true, Packet(Recv(REQ, ConfAck), 2));
    var m2 := Move(true, Packet(Recv(ACK, ConfAck), 2));
    var m3 := Move(false, Packet(Recv(ACK, ConfAck), 2));
    var l1 := LinkStep(l0, m0);
    PassiveAnswers();
    var l2 := LinkStep(l1, m1);
    Acknowledges(l1.a);
    var l3 := LinkStep(l2, m2);
    Opens(l2.a);
    var l4 := LinkStep(l3, m3);
    Opens(l3.b);
    Prepend(l3, m3, []);
    Prepend(l2, m2, [m3] + []);
    Prepend(l1, m1, [m2] + ([m3] + []));
    Prepend(l0, m0, [m1] + ([m2] + ([m3] + [])));
  }

  // --- How long an acknowledgement identifies the request ----------------------------------------

  /** The run leaves one end OPENED after it has drawn k ids. */
  ghost predicate OpensAfter(opensA: bool, opensB: bool, ms: seq<Move>, atA: bool, k: nat) {
    && IsRun(Link(Start(opensA), Start(opensB)), ms)
    && var l := After(Link(Start(opensA), Start(opensB)), ms);
       (if atA then l.a else l.b).ep.state == Opened && (if atA then l.a else l.b).ids == k
  }

  /** The peer has acknowledged the very request this end is on. */
  ghost predicate Confirmed(me: Node, peer: Node) {
    Frame(ConfAck, me.ep.reqid, me.serial) in peer.sent
  }

  ghost predicate ConfirmedAfter(opensA: bool, opensB: bool, ms: seq<Move>, atA: bool) {
    var l := After(Link(Start(opensA), Start(opensB)), ms);
    if atA then Confirmed(l.a, l.b) else Confirmed(l.b, l.a)
  }

  const NAK := Frame(ConfNak, 1, 1)
  const FOREIGN := Foreign(true)

  function Reject(l: Link): Move {
    Move(true, Packet(FOREIGN, l.a.ids + 1))
  }

  /** The link after end a has rejected k foreign protocols. */
  function Rejected(l: Link, k: nat): Link
    decreases k
  {
    if k == 0 then l else Rejected(LinkStep(l, Reject(l)), k - 1)
  }

  lemma RejectDraws(l: Link)
    ensures CanMove(l, Reject(l)) && LinkStep(l, Reject(l)).b == l.b
    ensures var a := LinkStep(l, Reject(l)).a;
            && a.ep == l.a.ep.(id := Next(l.a.ep.id))
            && a.ids == l.a.ids + 1
            && a.serial == l.a.serial
  {
  }

  predicate DrawnBy(l: Link, k: nat, l': Link) {
    && l'.b == l.b
    && l'.a.ep == l.a.ep.(id := (l.a.ep.id + k) % 256)
    && l'.a.ids == l.a.ids + k
    && l'.a.serial == l.a.serial
  }

  /** Rejecting k foreign protocols draws k ids and changes nothing else that matters. */
  lemma {:induction false} RejectedDraws(l: Link, k: nat)
    ensures DrawnBy(l, k, Rejected(l, k))
    decreases k
  {
    if k > 0 {
      RejectDraws(l);
      RejectedDraws(LinkStep(l, Reject(l)), k - 1);
      OneMoreDrawn(l, LinkStep(l, Reject(l)), Rejected(l, k), k);
    }
  }

  lemma OneMoreDrawn(l: Link, l1: Link, l': Link, k: nat)
    requires k > 0 && DrawnBy(l1, k - 1, l') && l1.b == l.b && l1.a.ep == l.a.ep.(id := Next(l.a.ep.id))
    requires l1.a.ids == l.a.ids + 1 && l1.a.serial == l.a.serial
    ensures DrawnBy(l, k, l')
  {
    AddIds(l.a.ep.id, k);
  }

  lemma AddIds(id: nat, k: nat)
    requires k > 0
    ensures ((id + 1) % 256 + (k - 1)) % 256 == (id + k) % 256
  {
  }

  lemma {:induction false} RejectedRun(l: Link, k: nat, rest: seq<Move>) returns (ms: seq<Move>)
    requires IsRun(Rejected(l, k), rest)
    ensures IsRun(l, ms) && After(l, ms) == After(Rejected(l, k), rest)
    decreases k
  {
    ms := rest;
    if k > 0 {
      RejectDraws(l);
      var tail := RejectedRun(LinkStep(l, Reject(l)), k - 1, rest);
      Prepend(l, Reject(l), tail);
      ms := [Reject(l)] + tail;
    }
  }

  /** What frame f, judged as v, does to one end. */
  function Receives(l: Link, atA: bool, f: Frame, v: Code): Move {
    Move(atA, Packet(Recv(f, v), (if atA then l.a else l.b).ids + 1))
  }

  /** The peer acknowledges request 1, and later refuses a duplicate of it. */
  lemma AckThenNak() returns (m0: Move, m1: Move, l1: Link, l2: Link)
    ensures var l0 := Link(Start(true), Start(false));
            CanMove(l0, m0) && l1 == LinkStep(l0, m0) && CanMove(l1, m1) && l2 == LinkStep(l1, m1)
    ensures Answered(l2, Endpoint(ReqSent, 1, 1, false, 9, true), 1)
  {
    var l0 := Link(Start(true), Start(false));
    assert l0.a.sent == {REQ} && l0.a.ep == Endpoint(ReqSent, 1, 1, false, 9, true) && l0.a.ids == 1;
    m0 := Receives(l0, false, REQ, ConfAck);
    l1 := LinkStep(l0, m0);
    PassiveAnswers();
    m1 := NakDuplicate(l1);
    l2 := LinkStep(l1, m1);
  }

  lemma NakDuplicate(l: Link) returns (m: Move)
    requires l.b.ep == Endpoint(AckSent, 1, 1, false, 9, true) && l.b.sent == {REQ, ACK} && l.a.sent == {REQ}
    ensures CanMove(l, m) && LinkStep(l, m).a == l.a && LinkStep(l, m).b.sent == {REQ, ACK, NAK}
  {
    m := Receives(l, false, REQ, ConfNak);
  }

  predicate Answered(l: Link, ep: Endpoint, ids: nat) {
    l.a.ep == ep && l.a.ids == ids && l.b.sent == {REQ, ACK, NAK}
  }

  /** After 255 more ids the refusal makes the request number 257, under id 1 again ... */
  lemma NakRenews(l: Link) returns (m: Move)
    requires Answered(l, Endpoint(ReqSent, 0, 1, false, 9, true), 256)
    ensures CanMove(l, m) && Answered(LinkStep(l, m), Endpoint(ReqSent, 1, 1, false, 9, true), 257)
    ensures LinkStep(l, m).a.serial == 257
  {
    m := Receives(l, true, NAK, ConfAck);
  }

  /** ... the acknowledgement of request 1 answers it ... */
  lemma OldAckAnswers(l: Link) returns (m: Move)
    requires Answered(l, Endpoint(ReqSent, 1, 1, false, 9, true), 257)
    ensures CanMove(l, m) && Answered(LinkStep(l, m), Endpoint(AckRcvd, 1, 1, true, 10, true), 257)
    ensures LinkStep(l, m).a.serial == l.a.serial
  {
    m := Receives(l, true, ACK, ConfAck);
  }

  /** ... and the peer's own request opens the link. */
  lemma RequestOpens(l: Link) returns (m: Move)
    requires Answered(l, Endpoint(AckRcvd, 1, 1, true, 10, true), 257)
    ensures CanMove(l, m) && Answered(LinkStep(l, m), Endpoint(Opened, 1, 1, true, 10, false), 257)
    ensures LinkStep(l, m).a.serial == l.a.serial
  {
    m := Receives(l, true, REQ, ConfAck);
  }

  predicate OpenedOld(l: Link, k: nat) {
    l.a.ep.state == Opened && l.a.ep.reqid == 1 && l.a.ids == k && l.a.serial == 257 && l.b.sent == {REQ, ACK, NAK}
  }

  /** Further ids can be drawn in OPENED. */
  lemma StaysOpen(l: Link, n: nat) returns (ms: seq<Move>)
    requires OpenedOld(l, 257)
    ensures IsRun(l, ms) && OpenedOld(After(l, ms), 257 + n)
  {
    RejectedDraws(l, n);
    assert OpenedOld(Rejected(l, n), 257 + n);
    ms := RejectedRun(l, n, []);
  }

  lemma OpensOn(l: Link, k: nat) returns (ms: seq<Move>)
    requires k > 256 && Answered(l, Endpoint(AckRcvd, 1, 1, true, 10, true), 257) && l.a.serial == 257
    ensures IsRun(l, ms) && OpenedOld(After(l, ms), k)
  {
    var m := RequestOpens(l);
    var rest := StaysOpen(LinkStep(l, m), k - 257);
    Prepend(l, m, rest);
    ms := [m] + rest;
  }

  lemma AnswersOn(l: Link, k: nat) returns (ms: seq<Move>)
    requires k > 256 && Answered(l, Endpoint(ReqSent, 1, 1, false, 9, true), 257) && l.a.serial == 257
    ensures IsRun(l, ms) && OpenedOld(After(l, ms), k)
  {
    var m := OldAckAnswers(l);
    var rest := OpensOn(LinkStep(l, m), k);
    Prepend(l, m, rest);
    ms := [m] + rest;
  }

  lemma RenewsOn(l: Link, k: nat) returns (ms: seq<Move>)
    requires k > 256 && Answered(l, Endpoint(ReqSent, 0, 1, false, 9, true), 256)
    ensures IsRun(l, ms) && OpenedOld(After(l, ms), k)
  {
    var m := NakRenews(l);
    var rest := AnswersOn(LinkStep(l, m), k);
    Prepend(l, m, rest);
    ms := [m] + rest;
  }

  lemma RejectsOn(l: Link, n: nat, k: nat) returns (ms: seq<Move>)
    requires k > 256 && l.a.ids + n == 256 && Answered(l, Endpoint(ReqSent, 1, 1, false, 9, true), 1)
    ensures IsRun(l, ms) && OpenedOld(After(l, ms), k)
  {
    RejectedDraws(l, n);
    DrawnAnswered(l, n, Rejected(l, n));
    var rest := RenewsOn(Rejected(l, n), k);
    ms := RejectedRun(l, n, rest);
  }

  lemma DrawnAnswered(l: Link, n: nat, l': Link)
    requires l.a.ids + n == 256 && Answered(l, Endpoint(ReqSent, 1, 1, false, 9, true), 1) && DrawnBy(l, n, l')
    ensures Answered(l', Endpoint(ReqSent, 0, 1, false, 9, true), 256)
  {
  }

  /** Beyond 256 ids there is always a run that opens on the acknowledgement of an older request. */
  lemma OpensOnOldAck(k: nat) returns (ms: seq<Move>)
    requires k > 256
    ensures OpensAfter(true, false, ms, true, k) && !ConfirmedAfter(true, false, ms, true)
  {
    var m0, m1, l1, l2 := AckThenNak();
    var rest := RejectsOn(l2, 256 - l2.a.ids, k);
    Prepend(l1, m1, rest);
    Prepend(Link(Start(true), Start(false)), m0, [m1] + rest);
    ms := [m0] + ([m1] + rest);
    assert OpenedOld(After(Link(Start(true), Start(false)), ms), k);
  }

  /** For which numbers of drawn ids OPENED guarantees that the current request itself was acknowledged. */
  lemma AgreementExactly(k: nat)
    ensures (forall opensA, opensB, ms, atA ::
               OpensAfter(opensA, opensB, ms, atA, k) ==> ConfirmedAfter(opensA, opensB, ms, atA)) <==> k <= 256
  {
    if k <= 256 {
      forall opensA, opensB, ms, atA | OpensAfter(opensA, opensB, ms, atA, k)
        ensures ConfirmedAfter(opensA, opensB, ms, atA)
      {
        var ack := OpenedIsAgreed(opensA, opensB, ms, atA);
      }
    } else {
      var ms := OpensOnOldAck(k);
    }
  }

  lemma Prepend(l: Link, m: Move, ms: seq<Move>)
    requires CanMove(l, m) && IsRun(LinkStep(l, m), ms)
    ensures IsRun(l, [m] + ms) && After(l, [m] + ms) == After(LinkStep(l, m), ms)
  {
    assert ([m] + ms)[1..] == ms;
  }
}
