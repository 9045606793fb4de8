/**
 A BFD session as a value: the packet checks, the state table of section 6.8.6 of RFC 5880, and
 what each handler makes of a session.
 */
module BfdModel {
  datatype State = AdminDown | Down | Init | Up

  /** A scheduled thread with the delay it was given, or none. */
  datatype Timer = Off | In(delay: int)

  const DIAG_NONE: nat := 0
  const DIAG_EXPIRED: nat := 1
  const DIAG_NBR_SIGNALLED_DOWN: nat := 3
  const VERSION_1: nat := 1
  const HEADER_LEN: nat := 24
  const NO_HOP_LIMIT: nat := 255
  const UINT32: nat := 0x1_0000_0000

  /** A received packet: the control header, and the length and TTL the socket reported. */
  datatype Packet = Packet(
    version: nat, diag: nat, state: State, poll: bool, final: bool, auth: bool, demand: bool, multipoint: bool,
    detectMult: nat, lenField: nat, localDiscr: nat, remoteDiscr: nat, minTx: nat, minRx: nat,
    len: nat, ttl: nat)

  datatype Config = Config(
    minRx: nat, minTx: nat, idleTx: nat, detectMult: nat, ttl: nat, maxHops: nat, passive: bool)

  datatype Session = Session(
    cfg: Config,
    local: State, remote: State, localDiscr: nat, remoteDiscr: nat, localDiag: nat, remoteDiag: nat,
    remoteMinTx: nat, remoteMinRx: nat, remoteDemand: bool, remoteMult: nat, poll: bool, final: bool,
    localTx: nat, remoteTx: nat, localDetect: nat, remoteDetect: nat,
    exp: Timer, rst: Timer, out: Timer,
    queued: nat, events: seq<State>)

  function Max(a: nat, b: nat): nat { if a > b then a else b }

  /** A product of 8 and 32 bits kept in 32. */
  function Detect(mult: nat, intv: nat): nat { (mult * intv) % UINT32 }

  /** `bfd_check_packet`, with the result turned around: true when the packet is in order. */
  predicate Sane(p: Packet) {
    && HEADER_LEN <= p.len
    && p.lenField == p.len
    && p.version == VERSION_1
    && p.detectMult != 0
    && !p.multipoint
    && p.localDiscr != 0
    && (p.remoteDiscr == 0 ==> p.state == Down || p.state == AdminDown)
    && !(p.poll && p.final)
    && p.diag <= 8
  }

  /** `bfd_check_packet_ttl`, turned around likewise; a TTL of 0 was not reported. */
  predicate Near(c: Config, ttl: nat) { c.maxHops == NO_HOP_LIMIT || ttl == 0 || c.ttl <= c.maxHops + ttl }

  /** The packet is processed by this session: it is sane, found by discriminator or address, and passes. */
  predicate Accepts(s: Session, p: Packet) {
    Sane(p) && (p.remoteDiscr == 0 || p.remoteDiscr == s.localDiscr) && Near(s.cfg, p.ttl) && !p.auth
  }

  /** The session state after a packet that reports `remote`. */
  function NextState(local: State, remote: State): State {
    match remote
    case AdminDown => Down
    case Down => if local == Down then Init else if local == Up then Down else local
    case Init => Up
    case Up => if local == Down then Down else Up
  }

  /** The bounds `get_jitter` draws from: 10 to 25 per cent of the interval. */
  predicate Jitter(c: Config, tx: nat, j: nat) {
    (if c.detectMult != 0 then tx / 10 else 0) <= j <= tx / 4
  }

  function Idle(s: Session): nat { Max(s.cfg.idleTx, s.remoteMinRx) }

  /** `bfd_init_state` with the sender that `bfd_register_workers` starts. */
  function Initial(c: Config, discr: nat, jitter: nat): Session {
    Session(c, Down, Down, discr, 0, DIAG_NONE, DIAG_NONE, 0, 0, false, 0, false, false, c.idleTx, 0, 0, 0,
            Off, Off, if c.passive then Off else In(c.idleTx - jitter), if c.passive then 0 else 1, [Down])
  }

  // ----- What the handlers make of a session

  /** The variables a packet is copied into; a final ends a poll sequence. */
  function Copied(s: Session, p: Packet): Session {
    s.(remoteDiscr := p.localDiscr, remote := p.state, remoteDiag := p.diag,
       remoteMinRx := p.minRx, remoteMinTx := p.minTx,
       remoteDemand := p.demand, remoteMult := p.detectMult, poll := s.poll && !p.final)
  }

  /** New intervals, unless the session is Up and no poll sequence is going on. */
  function Negotiated(s: Session, p: Packet): Session {
    if s.local == Up && !p.poll && !p.final then s
    else
      var tx := if s.remote == Up && s.local in {Init, Up} then s.cfg.minTx else s.cfg.idleTx;
      s.(localTx := Max(tx, s.remoteMinRx), remoteTx := Max(s.cfg.minRx, s.remoteMinTx))
  }

  function Timed(s: Session): Session {
    s.(localDetect := Detect(s.remoteMult, s.remoteTx), remoteDetect := Detect(s.cfg.detectMult, s.localTx))
  }

  function Absorb(s: Session, p: Packet): Session { Timed(Negotiated(Copied(s, p), p)) }

  /**
   Going Down: a new discriminator when the session was Up, the reset timer, and an event unless the
   neighbour is AdminDown.
   */
  function Fall(s: Session, diag: nat, discr: nat): Session {
    s.(local := Down, localDiag := diag, localDiscr := if s.local == Up then discr else s.localDiscr,
       rst := In(s.localDetect), exp := Off, out := if s.cfg.passive then Off else s.out,
       localTx := Idle(s), events := if s.local == Up && s.remote != AdminDown then s.events + [Down] else s.events)
  }

  /** Going Init or Up. */
  function Rise(s: Session, to: State): Session {
    s.(local := to, localDiag := DIAG_NONE, rst := Off, exp := if s.exp.Off? then In(s.localDetect) else s.exp,
       poll := s.poll || (to == Up && s.cfg.idleTx != s.cfg.minTx && !s.final),
       events := if to == Up then s.events + [Up] else s.events)
  }

  function Transit(s: Session, discr: nat): Session {
    var to := NextState(s.local, s.remote);
    if to == s.local then s else if to == Down then Fall(s, DIAG_NBR_SIGNALLED_DOWN, discr) else Rise(s, to)
  }

  /** A passive session starts sending when it becomes Init. */
  function Machined(s: Session, discr: nat, jitter: nat): Session {
    var t := Transit(s, discr);
    if t.cfg.passive && t.out.Off? && t.local == Init && s.local == Down then t.(out := In(t.localTx - jitter)) else t
  }

  /** A sender that runs is moved when the interval has become shorter. */
  function Rescheduled(s: Session, oldTx: nat, jitter: nat): Session {
    if s.localTx < oldTx && s.out.In? then s.(out := In(s.localTx - jitter)) else s
  }

  /** The neighbour wants no periodic packets. */
  predicate Silenced(s: Session) { s.remoteDemand && s.local == Up && s.remote == Up }

  /** Demand mode stops the sender, anything else starts it; a poll is answered; a live session does not expire yet. */
  function Finished(s: Session, p: Packet, jitter: nat): Session {
    var s1 := if Silenced(s) then s.(out := Off) else if s.out.Off? then s.(out := In(s.localTx - jitter)) else s;
    var s2 := if p.poll then s1.(final := true, queued := s1.queued + 1) else s1;
    if s2.local == Up && s2.exp.In? then s2.(exp := In(s2.localDetect)) else s2
  }

  /** An accepted packet; `discr` is drawn if the session leaves Up, `jitter` when the sender is (re)scheduled. */
  function Receive(s: Session, p: Packet, discr: nat, jitter: nat): Session {
    Finished(Machined(Rescheduled(Absorb(s, p), s.localTx, jitter), discr, jitter), p, jitter)
  }

  function Expire(s: Session, discr: nat): Session {
    Fall(s.(exp := Off, remoteDiscr := 0), DIAG_EXPIRED, discr)
  }

  function Reset(s: Session): Session {
    s.(rst := Off, local := Down, remote := Down, remoteDiscr := 0, remoteDiag := DIAG_NONE, remoteDemand := false,
       poll := false, final := false, localTx := Idle(s))
  }

  /** The packet `bfd_build_packet` builds; `ttl` is what the receiver will see. */
  function Built(s: Session, ttl: nat): Packet {
    Packet(VERSION_1, s.localDiag, s.local, s.poll && !s.final, s.final, false, false, false,
           s.cfg.detectMult, HEADER_LEN, s.localDiscr, s.remoteDiscr,
           if s.local == Up then s.cfg.minTx else s.cfg.idleTx, s.cfg.minRx, HEADER_LEN, ttl)
  }

  /** After sending: a poll is dropped in favour of a final, which is answered by this packet. */
  function Sent(s: Session): Session { s.(poll := s.poll && !s.final, final := false) }

  function SendTimed(s: Session, jitter: nat): Session { Sent(s).(out := In(s.localTx - jitter)) }

  function SendQueued(s: Session): Session
    requires s.queued > 0
  {
    Sent(s).(queued := s.queued - 1)
  }
}
