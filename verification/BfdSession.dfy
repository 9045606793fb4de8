/**
 The BFD session object of keepalived/bfd: its handlers update the record `s` field by field. The
 assertions of the source are the preconditions of the schedule and cancel helpers, so that a
 handler that verifies cannot make any of them fail.
 */
module BfdSession {
  import opened BfdModel

  /** What holds between any two handlers. */
  ghost predicate Inv(s: Session) {
    && s.cfg.detectMult >= 1
    && s.local != AdminDown
    && (s.exp.In? <==> s.local in {Init, Up})
    && (s.rst.In? ==> s.local == Down)
    && s.localDiscr != 0
    && (s.local in {Init, Up} ==> s.remoteDiscr != 0)
    && (s.local == Up ==> s.remote in {Init, Up})
    && (s.local == Init ==> s.remote == Down)
    && (s.local != Up ==> s.localTx == Idle(s))
    && s.localDiag <= 8
  }

  lemma InitialInv(c: Config, discr: nat, jitter: nat)
    requires c.detectMult >= 1 && discr != 0
    ensures Inv(Initial(c, discr, jitter))
  {}

  /** A packet moves the session as the state table says, and keeps the invariant. */
  lemma ReceiveKeeps(s: Session, p: Packet, discr: nat, jitter: nat)
    requires Inv(s) && Accepts(s, p) && discr != 0
    ensures Inv(Receive(s, p, discr, jitter))
    ensures Receive(s, p, discr, jitter).local == NextState(s.local, p.state)
    ensures Receive(s, p, discr, jitter).localDiscr ==
      if s.local == Up && NextState(s.local, p.state) == Down then discr else s.localDiscr
    ensures Receive(s, p, discr, jitter).remoteDiscr == p.localDiscr
  {
    var s1 := Rescheduled(Absorb(s, p), s.localTx, jitter);
    AbsorbKeeps(s, p, jitter);
    MachinedKeeps(s1, discr, jitter);
    FinishedKeeps(Machined(s1, discr, jitter), p, jitter);
  }

  /** What absorbing a packet leaves true before the state machine runs. */
  ghost predicate Half(s: Session) {
    && s.cfg.detectMult >= 1 && s.local != AdminDown && s.localDiscr != 0 && s.remoteDiscr != 0 && s.localDiag <= 8
    && (s.exp.In? <==> s.local in {Init, Up}) && (s.rst.In? ==> s.local == Down)
    && (s.local == Down || (s.local == Init && s.remote in {AdminDown, Down}) ==> s.localTx == Idle(s))
  }

  lemma AbsorbKeeps(s: Session, p: Packet, jitter: nat)
    requires Inv(s) && Sane(p)
    ensures var s1 := Rescheduled(Absorb(s, p), s.localTx, jitter);
      Half(s1) && s1.local == s.local && s1.remote == p.state && s1.localDiscr == s.localDiscr
        && s1.remoteDiscr == p.localDiscr
  {}

  lemma AbsorbFrame(s: Session, p: Packet, jitter: nat)
    ensures var s1 := Rescheduled(Absorb(s, p), s.localTx, jitter); s1.local == s.local && s1.rst == s.rst
  {}

  lemma FallKeeps(s: Session, discr: nat)
    requires Half(s) && discr != 0 && s.local != Down
    ensures Inv(Fall(s, DIAG_NBR_SIGNALLED_DOWN, discr))
  {}

  lemma RiseKeeps(s: Session, to: State)
    requires Half(s) && ((to == Init && s.local == Down && s.remote == Down) || (to == Up && s.remote in {Init, Up}))
    ensures Inv(Rise(s, to))
  {}

  lemma MachinedKeeps(s: Session, discr: nat, jitter: nat)
    requires Half(s) && discr != 0
    ensures var t := Machined(s, discr, jitter);
      && Inv(t) && t.local == NextState(s.local, s.remote) && t.remoteDiscr == s.remoteDiscr
      && t.localDiscr == if s.local == Up && t.local == Down then discr else s.localDiscr
  {
    var to := NextState(s.local, s.remote);
    if to != s.local {
      if to == Down { FallKeeps(s, discr); } else { RiseKeeps(s, to); }
    }
  }

  lemma SenderKeeps(s: Session, out: Timer)
    requires Inv(s)
    ensures Inv(s.(out := out))
  {}

  lemma PollKeeps(s: Session)
    requires Inv(s)
    ensures Inv(s.(final := true, queued := s.queued + 1))
  {}

  lemma FinishedKeeps(s: Session, p: Packet, jitter: nat)
    requires Inv(s)
    ensures var t := Finished(s, p, jitter);
      Inv(t) && t.local == s.local && t.localDiscr == s.localDiscr && t.remoteDiscr == s.remoteDiscr
  {
    var out := if Silenced(s) then Off else if s.out.Off? then In(s.localTx - jitter) else s.out;
    var s1 := s.(out := out);
    SenderKeeps(s, out);
    var s2 := if p.poll then s1.(final := true, queued := s1.queued + 1) else s1;
    PollKeeps(s1);
    DelayKeeps(s2);
    assert Finished(s, p, jitter) == if s2.local == Up && s2.exp.In? then s2.(exp := In(s2.localDetect)) else s2;
  }

  lemma DelayKeeps(s: Session)
    requires Inv(s)
    ensures s.exp.In? ==> Inv(s.(exp := In(s.localDetect)))
  {}

  lemma ExpireKeeps(s: Session, discr: nat)
    requires Inv(s) && s.exp.In? && discr != 0
    ensures Inv(Expire(s, discr)) && Expire(s, discr).local == Down
    ensures s.local == Up ==> Expire(s, discr).events == s.events + [Down]
  {}

  lemma ResetKeeps(s: Session)
    requires Inv(s) && s.rst.In?
    ensures Inv(Reset(s)) && Reset(s).remoteDiscr == 0
  {}

  /** Every packet a session sends passes the sanity checks of the other end. */
  lemma BuiltIsSane(s: Session, ttl: nat)
    requires Inv(s)
    ensures Sane(Built(s, ttl))
  {}

  /** Every change into and out of Up is reported once, except that a neighbour's AdminDown is not reported. */
  lemma ReceiveReports(s: Session, p: Packet, discr: nat, jitter: nat)
    ensures var to := NextState(s.local, p.state);
      Receive(s, p, discr, jitter).events == s.events +
        if to == s.local then []
        else if to == Up then [Up]
        else if s.local == Up && to == Down && p.state != AdminDown then [Down]
        else []
  {
    var s1 := Rescheduled(Absorb(s, p), s.localTx, jitter);
    AbsorbStates(s, p, jitter);
    MachinedReports(s1, discr, jitter);
    FinishedReports(Machined(s1, discr, jitter), p, jitter);
  }

  lemma AbsorbStates(s: Session, p: Packet, jitter: nat)
    ensures var s1 := Rescheduled(Absorb(s, p), s.localTx, jitter);
      s1.local == s.local && s1.remote == p.state && s1.events == s.events && s1.cfg == s.cfg
  {}

  lemma MachinedReports(s: Session, discr: nat, jitter: nat)
    ensures var to := NextState(s.local, s.remote);
      Machined(s, discr, jitter).events == s.events +
        if to == s.local then []
        else if to == Up then [Up]
        else if s.local == Up && to == Down && s.remote != AdminDown then [Down]
        else []
  {
    assert s.events + [] == s.events;
  }

  lemma FinishedReports(s: Session, p: Packet, jitter: nat)
    ensures Finished(s, p, jitter).events == s.events && Finished(s, p, jitter).cfg == s.cfg
  {}

  /** Two sessions that are Down come Up with three packets, if the first of these is accepted. */
  lemma {:induction false} ThreeWay(x: Session, y: Session, d: nat, j: nat, tx: nat, ty: nat)
    requires Inv(x) && Inv(y) && x.local == Down && y.local == Down && d != 0 && Near(x.cfg, tx) && Near(y.cfg, ty)
    ensures Accepts(x, Built(y, tx)) <==> y.remoteDiscr == 0 || y.remoteDiscr == x.localDiscr
    ensures Accepts(x, Built(y, tx)) ==>
      var x1 := Receive(x, Built(y, tx), d, j);
      && x1.local == Init && Accepts(y, Built(x1, ty))
      && var y1 := Receive(y, Built(x1, ty), d, j);
         y1.local == Up && Accepts(x1, Built(y1, tx)) && Receive(x1, Built(y1, tx), d, j).local == Up
  {
    BuiltIsSane(y, tx);
    if Accepts(x, Built(y, tx)) {
      ReceiveKeeps(x, Built(y, tx), d, j);
      var x1 := Receive(x, Built(y, tx), d, j);
      BuiltIsSane(x1, ty);
      ConfigKept(x, Built(y, tx), d, j);
      ReceiveKeeps(y, Built(x1, ty), d, j);
      var y1 := Receive(y, Built(x1, ty), d, j);
      BuiltIsSane(y1, tx);
      ReceiveKeeps(x1, Built(y1, tx), d, j);
    }
  }

  lemma ConfigKept(s: Session, p: Packet, discr: nat, jitter: nat)
    ensures Receive(s, p, discr, jitter).cfg == s.cfg
  {
    var s1 := Rescheduled(Absorb(s, p), s.localTx, jitter);
    AbsorbStates(s, p, jitter);
    MachinedConfig(s1, discr, jitter);
    FinishedReports(Machined(s1, discr, jitter), p, jitter);
  }

  lemma MachinedConfig(s: Session, discr: nat, jitter: nat)
    ensures Machined(s, discr, jitter).cfg == s.cfg
  {}

  /** The session has taken in the neighbour's `minRx` and keeps to the fast or to the idle interval. */
  predicate Settled(s: Session, minRx: nat) {
    s.remoteMinRx == minRx && (s.localTx == Max(s.cfg.minTx, minRx) || s.localTx == Max(s.cfg.idleTx, minRx))
  }

  /** What holds of a session whose neighbour asks for `minRx` in all its packets. */
  predicate Paced(s: Session, minRx: nat) {
    (s.remoteMinRx == 0 || s.remoteMinRx == minRx) && (s.local == Up ==> Settled(s, minRx))
  }

  lemma ReceivePaced(s: Session, p: Packet, discr: nat, jitter: nat)
    requires Paced(s, p.minRx)
    ensures Settled(Receive(s, p, discr, jitter), p.minRx)
  {
    var s1 := Rescheduled(Absorb(s, p), s.localTx, jitter);
    assert Settled(s1, p.minRx);
    MachinedPaced(s1, p.minRx, discr, jitter);
    FinishedFrame(Machined(s1, discr, jitter), p, jitter);
  }

  lemma MachinedPaced(s: Session, minRx: nat, discr: nat, jitter: nat)
    requires Settled(s, minRx)
    ensures Settled(Machined(s, discr, jitter), minRx)
  {}

  lemma FinishedFrame(s: Session, p: Packet, jitter: nat)
    ensures var t := Finished(s, p, jitter);
      t.cfg == s.cfg && t.local == s.local && t.localTx == s.localTx && t.remoteMinRx == s.remoteMinRx
  {}

  /** The session is Up, announces its fast interval, and still keeps to a slower one. */
  predicate StillIdle(s: Session, minRx: nat) {
    s.local == Up && s.localTx == s.cfg.idleTx > Max(s.cfg.minTx, minRx)
  }

  /**
   A receiver that takes new intervals in expects packets no sooner than the sender keeps to,
   unless the sender is still idle; while the sender is not Up it expects exactly its interval. Its
   detection time is always the sender's multiplier times the interval expected.
   */
  lemma {:induction false} DetectionCovers(x: Session, y: Session, ttl: nat)
    requires Inv(x) && Paced(x, y.cfg.minRx)
    ensures var p, y1 := Built(x, ttl), Absorb(y, Built(x, ttl));
      && y1.localDetect == Detect(x.cfg.detectMult, y1.remoteTx)
      && (y.local == Up && !p.poll && !p.final ==> y1.remoteTx == y.remoteTx)
      && (y.local != Up || p.poll || p.final ==> (x.localTx <= y1.remoteTx <==> !StillIdle(x, y.cfg.minRx)))
      && (y.local != Up && x.local != Up && x.remoteMinRx == y.cfg.minRx ==> y1.remoteTx == x.localTx)
  {
    assert x.local != Up ==> x.localTx == Idle(x);
  }

  /** A session that comes Up at once, its neighbour being Init, is still idle if its idle interval is the longest. */
  lemma UpStillIdle(s: Session, p: Packet, discr: nat, jitter: nat)
    requires s.local == Down && p.state == Init
    ensures StillIdle(Receive(s, p, discr, jitter), p.minRx) <==> s.cfg.idleTx > Max(s.cfg.minTx, p.minRx)
  {
    var s1 := Rescheduled(Absorb(s, p), s.localTx, jitter);
    assert s1.localTx == Max(s.cfg.idleTx, p.minRx) && s1.local == Down && s1.remote == Init && s1.cfg == s.cfg;
    var s2 := Machined(s1, discr, jitter);
    assert s2.localTx == s1.localTx && s2.local == Up && s2.cfg == s.cfg;
    FinishedFrame(s2, p, jitter);
  }

  /** With the jitter applied a packet is sent after 75 to 90 per cent of the interval (section 6.8.7 of RFC 5880). */
  lemma JitterKeeps(c: Config, tx: nat, jitter: nat)
    requires c.detectMult >= 1 && Jitter(c, tx, jitter)
    ensures 3 * tx <= 4 * (tx - jitter) && 10 * (tx - jitter) <= 9 * tx + 9
  {}

  // ----- Whole runs of one session

  datatype Input =
    | Arrives(p: Packet, discr: nat, jitter: nat)
    | ExpireFires(discr: nat)
    | ResetFires
    | SenderFires(jitter: nat)
    | EventFires

  /** Timers and events fire only when they are scheduled; packets come at any time, with any contents. */
  ghost predicate Enabled(s: Session, i: Input) {
    match i
    case Arrives(p, discr, _) => discr != 0
    case ExpireFires(discr) => s.exp.In? && discr != 0
    case ResetFires => s.rst.In?
    case SenderFires(_) => s.out.In?
    case EventFires => s.queued > 0
  }

  ghost function Next(s: Session, i: Input): Session
    requires Enabled(s, i)
  {
    match i
    case Arrives(p, discr, jitter) => if Accepts(s, p) then Receive(s, p, discr, jitter) else s
    case ExpireFires(discr) => Expire(s, discr)
    case ResetFires => Reset(s)
    case SenderFires(jitter) => SendTimed(s, jitter)
    case EventFires => SendQueued(s)
  }

  /** `states` is what a session goes through under `inputs`. */
  ghost predicate IsRun(states: seq<Session>, inputs: seq<Input>) {
    && |states| == |inputs| + 1
    && (exists c: Config, discr: nat, jitter: nat ::
          c.detectMult >= 1 && discr != 0 && states[0] == Initial(c, discr, jitter))
    && forall i :: 0 <= i < |inputs| ==> Enabled(states[i], inputs[i]) && states[i + 1] == Next(states[i], inputs[i])
  }

  lemma StepKeeps(s: Session, i: Input)
    requires Inv(s) && Enabled(s, i)
    ensures Inv(Next(s, i))
  {
    match i
    case Arrives(p, discr, jitter) => if Accepts(s, p) { ReceiveKeeps(s, p, discr, jitter); }
    case ExpireFires(discr) => ExpireKeeps(s, discr);
    case ResetFires => ResetKeeps(s);
    case SenderFires(jitter) =>
    case EventFires =>
  }

  /** The invariant holds after every interleaving of packets and timers. */
  lemma {:induction false} RunsKeepInv(states: seq<Session>, inputs: seq<Input>, n: nat)
    requires IsRun(states, inputs) && n <= |inputs|
    ensures Inv(states[n])
  {
    if n > 0 {
      RunsKeepInv(states, inputs, n - 1);
      StepKeeps(states[n - 1], inputs[n - 1]);
    }
  }

  // ----- When an active session falls silent

  /** An active session is going to send, or has been asked not to (section 6.8.7 of RFC 5880). */
  ghost predicate Talking(s: Session) { s.out.In? || Silenced(s) }

  /**
   A session stops talking exactly when it expires while silenced, because nothing restarts the
   sender then; an accepted packet makes it talk again.
   */
  lemma StepTalks(s: Session, i: Input)
    requires Inv(s) && Enabled(s, i) && !s.cfg.passive
    ensures Talking(Next(s, i)) <==>
      (i.Arrives? && Accepts(s, i.p)) || (Talking(s) && !(i.ExpireFires? && s.out.Off?))
  {
    match i
    case Arrives(p, discr, jitter) =>
      if Accepts(s, p) {
        var s1 := Rescheduled(Absorb(s, p), s.localTx, jitter);
        FinishedTalks(Machined(s1, discr, jitter), p, jitter);
      }
    case ExpireFires(discr) =>
    case ResetFires =>
    case SenderFires(jitter) =>
    case EventFires =>
  }

  lemma FinishedTalks(s: Session, p: Packet, jitter: nat)
    ensures Talking(Finished(s, p, jitter))
  {}

  /** An active session that is Up, as silenced by a packet of its neighbour, and then expired. */
  lemma {:induction false} SilentAfterExpiry(s: Session, p: Packet, discr: nat, jitter: nat)
    requires Inv(s) && s.local == Up && !s.cfg.passive && discr != 0
    requires Accepts(s, p) && p.state == Up && p.demand
    ensures var t := Receive(s, p, discr, jitter);
      && Silenced(t) && t.exp.In?
      && !Talking(Expire(t, discr))
  {
    var s1 := Rescheduled(Absorb(s, p), s.localTx, jitter);
    AbsorbKeeps(s, p, jitter);
    MachinedKeeps(s1, discr, jitter);
    assert Machined(s1, discr, jitter) == s1 && s1.remoteDemand;
    ReceiveKeeps(s, p, discr, jitter);
    SilencedStops(s1, p, jitter);
  }

  lemma SilencedStops(s: Session, p: Packet, jitter: nat)
    requires Silenced(s)
    ensures Silenced(Finished(s, p, jitter)) && Finished(s, p, jitter).out.Off?
  {}

  // ----- When a session does not forget its neighbour

  /** A discriminator that is held will be given up if nothing is received (section 6.8.1 of RFC 5880). */
  ghost predicate Forgets(s: Session) { s.remoteDiscr != 0 ==> s.exp.In? || s.rst.In? }

  /** A packet that leaves a session Down, and with neither timer to make it forget the sender. */
  predicate Sticks(s: Session, p: Packet) { s.local == Down && s.rst.Off? && p.state in {AdminDown, Up} }

  lemma ReceiveForgets(s: Session, p: Packet, discr: nat, jitter: nat)
    requires Inv(s) && Accepts(s, p) && discr != 0
    ensures Forgets(Receive(s, p, discr, jitter)) <==> !Sticks(s, p)
  {
    ReceiveKeeps(s, p, discr, jitter);
    var s1 := Rescheduled(Absorb(s, p), s.localTx, jitter);
    AbsorbKeeps(s, p, jitter);
    AbsorbFrame(s, p, jitter);
    MachinedResets(s1, discr, jitter);
    FinishedResets(Machined(s1, discr, jitter), p, jitter);
  }

  lemma MachinedResets(s: Session, discr: nat, jitter: nat)
    ensures var to := NextState(s.local, s.remote);
      Machined(s, discr, jitter).rst.In? <==> if to == s.local then s.rst.In? else to == Down
  {}

  lemma FinishedResets(s: Session, p: Packet, jitter: nat)
    ensures Finished(s, p, jitter).rst == s.rst
  {}

  /** Every step leaves a timer that will make the session forget its neighbour, unless a packet sticks. */
  lemma StepForgets(s: Session, i: Input)
    requires Inv(s) && Enabled(s, i)
    ensures Forgets(Next(s, i)) <==>
      if i.Arrives? && Accepts(s, i.p) then !Sticks(s, i.p) else i.ExpireFires? || i.ResetFires? || Forgets(s)
  {
    match i
    case Arrives(p, discr, jitter) => if Accepts(s, p) { ReceiveForgets(s, p, discr, jitter); }
    case ExpireFires(discr) =>
    case ResetFires =>
    case SenderFires(jitter) =>
    case EventFires =>
  }

  /** A new session that hears from a neighbour that is AdminDown has no timer to forget it. */
  lemma {:induction false} HeldUntimed(c: Config, d0: nat, p: Packet, discr: nat, jitter: nat)
    requires c.detectMult >= 1 && d0 != 0 && discr != 0 && p.state == AdminDown && Accepts(Initial(c, d0, jitter), p)
    ensures var s := Receive(Initial(c, d0, jitter), p, discr, jitter);
      Inv(s) && !Forgets(s) && s.local == Down && s.rst.Off? && s.remoteDiscr == p.localDiscr != 0
  {
    var s := Initial(c, d0, jitter);
    InitialInv(c, d0, jitter);
    ReceiveKeeps(s, p, discr, jitter);
    ReceiveForgets(s, p, discr, jitter);
  }

  /** What such a session sends is rejected by a neighbour that has another discriminator by now. */
  lemma StaleRejected(s: Session, y: Session, ttl: nat)
    requires s.remoteDiscr != 0 && s.remoteDiscr != y.localDiscr
    ensures !Accepts(y, Built(s, ttl))
  {}

  class Bfd {
    var s: Session

    /** `bfd_init_state`, then the threads started by `bfd_register_workers`. */
    constructor (c: Config, discr: nat, jitter: nat)
      requires c.detectMult >= 1 && discr != 0
      ensures s == Initial(c, discr, jitter) && Inv(s)
    {
      s := Initial(c, discr, jitter);
    }

    // ----- Schedule and cancel helpers

    method SenderSchedule(jitter: nat)
      requires s.out.Off?
      modifies this
      ensures s == old(s).(out := In(old(s).localTx - jitter))
    {
      s := s.(out := In(s.localTx - jitter));
    }

    method SenderCancel()
      requires s.out.In?
      modifies this
      ensures s == old(s).(out := Off)
    {
      s := s.(out := Off);
    }

    method SenderReschedule(jitter: nat)
      requires s.out.In?
      modifies this
      ensures s == old(s).(out := In(old(s).localTx - jitter))
    {
      s := s.(out := In(s.localTx - jitter));
    }

    method ExpireSchedule()
      requires s.exp.Off?
      modifies this
      ensures s == old(s).(exp := In(old(s).localDetect))
    {
      s := s.(exp := In(s.localDetect));
    }

    method ExpireCancel()
      requires s.exp.In?
      modifies this
      ensures s == old(s).(exp := Off)
    {
      s := s.(exp := Off);
    }

    method ExpireReschedule()
      requires s.exp.In?
      modifies this
      ensures s == old(s).(exp := In(old(s).localDetect))
    {
      s := s.(exp := In(s.localDetect));
    }

    method ResetSchedule()
      requires s.rst.Off?
      modifies this
      ensures s == old(s).(rst := In(old(s).localDetect))
    {
      s := s.(rst := In(s.localDetect));
    }

    method ResetCancel()
      requires s.rst.In?
      modifies this
      ensures s == old(s).(rst := Off)
    {
      s := s.(rst := Off);
    }

    method IdleLocalTx()
      modifies this
      ensures s == old(s).(localTx := Idle(old(s)))
    {
      s := s.(localTx := if s.cfg.idleTx > s.remoteMinRx then s.cfg.idleTx else s.remoteMinRx);
    }

    method EventSend()
      modifies this
      ensures s == old(s).(events := old(s).events + [old(s).local])
    {
      s := s.(events := s.events + [s.local]);
    }

    // ----- State changes

    /** `bfd_state_down` with `bfd_state_fall`; `discr` is what `bfd_get_random_discr` would draw. */
    method StateDown(diag: nat, discr: nat)
      requires diag <= 8 && s.rst.Off?
      modifies this
      ensures s == Fall(old(s), diag, discr)
    {
      var oldState := s.local;
      if s.local == Up {
        s := s.(localDiscr := discr);
      }
      s := s.(local := Down);
      s := s.(localDiag := diag);
      ResetSchedule();
      if s.cfg.passive && s.out.In? {
        SenderCancel();
      }
      IdleLocalTx();
      if s.exp.In? {
        ExpireCancel();
      }
      if oldState == Up && s.remote != AdminDown {
        EventSend();
      }
    }

    /** `bfd_state_rise` */
    method StateRise()
      modifies this
      ensures s ==
        old(s).(localDiag := DIAG_NONE, rst := Off,
                exp := if old(s).exp.Off? then In(old(s).localDetect) else old(s).exp)
    {
      s := s.(localDiag := DIAG_NONE);
      if s.rst.In? {
        ResetCancel();
      }
      if s.exp.Off? {
        ExpireSchedule();
      }
    }

    /** `bfd_state_up` */
    method StateUp()
      modifies this
      ensures s == Rise(old(s), Up)
    {
      s := s.(local := Up);
      StateRise();
      if s.cfg.idleTx != s.cfg.minTx {
        if !s.final {
          s := s.(poll := true);
        }
      }
      EventSend();
    }

    /** `bfd_state_init` */
    method StateInit(jitter: nat)
      requires s.local != Up
      modifies this
      ensures var r := Rise(old(s), Init);
              s == if r.cfg.passive && r.out.Off? then r.(out := In(r.localTx - jitter)) else r
    {
      s := s.(local := Init);
      StateRise();
      if s.cfg.passive && s.out.Off? {
        SenderSchedule(jitter);
      }
    }

    // ----- Handlers

    method CopyPacket(p: Packet)
      modifies this
      ensures s == Copied(old(s), p)
    {
      s := s.(remoteDiscr := p.localDiscr, remote := p.state, remoteDiag := p.diag, remoteMinRx := p.minRx,
              remoteMinTx := p.minTx, remoteDemand := p.demand, remoteMult := p.detectMult);
      if p.final {
        s := s.(poll := false);
      }
    }

    method UpdateIntervals(p: Packet)
      modifies this
      ensures s == Negotiated(old(s), p)
    {
      if (s.local == Up && (p.poll || p.final)) || s.local != Up {
        if s.remote == Up && (s.local == Init || s.local == Up) {
          s := s.(localTx := if s.cfg.minTx > s.remoteMinRx then s.cfg.minTx else s.remoteMinRx);
        } else {
          IdleLocalTx();
        }
        s := s.(remoteTx := if s.cfg.minRx > s.remoteMinTx then s.cfg.minRx else s.remoteMinTx);
      }
    }

    method UpdateDetection()
      modifies this
      ensures s == Timed(old(s))
    {
      s := s.(localDetect := Detect(s.remoteMult, s.remoteTx));
      s := s.(remoteDetect := Detect(s.cfg.detectMult, s.localTx));
    }

    /** The variables, intervals and detection times that a packet brings. */
    method TakeIn(p: Packet)
      modifies this
      ensures s == Absorb(old(s), p)
    {
      CopyPacket(p);
      UpdateIntervals(p);
      UpdateDetection();
    }

    /** The state machine of `bfd_handle_packet`. */
    method Machine(discr: nat, jitter: nat)
      requires s.local != AdminDown && (s.local != Down ==> s.rst.Off?)
      modifies this
      ensures s == Machined(old(s), discr, jitter)
    {
      if s.remote == AdminDown && s.local != Down {
        StateDown(DIAG_NBR_SIGNALLED_DOWN, discr);
      } else {
        if s.local == Down {
          if s.remote == Down {
            StateInit(jitter);
          } else if s.remote == Init {
            StateUp();
          }
        } else if s.local == Init {
          if s.remote == Init || s.remote == Up {
            StateUp();
          }
        } else if s.local == Up {
          if s.remote == Down {
            StateDown(DIAG_NBR_SIGNALLED_DOWN, discr);
          }
        }
      }
    }

    /** The end of `bfd_handle_packet`: demand mode, poll reply and expiry. */
    method Finish(p: Packet, jitter: nat)
      modifies this
      ensures s == Finished(old(s), p, jitter)
    {
      if s.remoteDemand && s.local == Up && s.remote == Up {
        if s.out.In? {
          SenderCancel();
        }
      }
      if !s.remoteDemand || s.local != Up || s.remote != Up {
        if s.out.Off? {
          SenderSchedule(jitter);
        }
      }
      if p.poll {
        s := s.(final := true, queued := s.queued + 1);
      }
      if s.local == Up && s.exp.In? {
        ExpireReschedule();
      }
    }

    /** The sender is moved if the interval has become shorter. */
    method Hasten(oldTx: nat, jitter: nat)
      modifies this
      ensures s == Rescheduled(old(s), oldTx, jitter)
    {
      if s.localTx < oldTx && s.out.In? {
        SenderReschedule(jitter);
      }
    }

    method Conclude(p: Packet, discr: nat, jitter: nat)
      requires s.local != AdminDown && (s.local != Down ==> s.rst.Off?)
      modifies this
      ensures s == Finished(Machined(old(s), discr, jitter), p, jitter)
    {
      Machine(discr, jitter);
      Finish(p, jitter);
    }

    /** `bfd_handle_packet` from line 729 on. */
    method Process(p: Packet, discr: nat, jitter: nat)
      requires s.local != AdminDown && (s.local != Down ==> s.rst.Off?)
      modifies this
      ensures s == Receive(old(s), p, discr, jitter)
    {
      var oldTx := s.localTx;
      AbsorbFrame(s, p, jitter);
      TakeIn(p);
      Hasten(oldTx, jitter);
      Conclude(p, discr, jitter);
    }

    /** `bfd_handle_packet`: a packet that is not accepted changes nothing. */
    method HandlePacket(p: Packet, discr: nat, jitter: nat)
      requires Inv(s) && discr != 0
      modifies this
      ensures s == if Accepts(old(s), p) then Receive(old(s), p, discr, jitter) else old(s)
      ensures Inv(s)
    {
      if !Sane(p) {
        return;
      }
      if p.remoteDiscr != 0 && p.remoteDiscr != s.localDiscr {
        return;
      }
      if s.cfg.maxHops != NO_HOP_LIMIT && p.ttl != 0 && s.cfg.maxHops + p.ttl < s.cfg.ttl {
        return;
      }
      if p.auth {
        return;
      }
      ReceiveKeeps(s, p, discr, jitter);
      Process(p, discr, jitter);
    }

    /** `bfd_expire_thread` */
    method ExpireThread(discr: nat)
      requires Inv(s) && s.exp.In? && discr != 0
      modifies this
      ensures s == Expire(old(s), discr) && Inv(s)
    {
      ExpireKeeps(s, discr);
      assert s.local == Up || s.local == Init;
      s := s.(exp := Off);
      s := s.(remoteDiscr := 0);
      StateDown(DIAG_EXPIRED, discr);
    }

    /** `bfd_reset_thread` with `bfd_reset_state` */
    method ResetThread()
      requires Inv(s) && s.rst.In?
      modifies this
      ensures s == Reset(old(s)) && Inv(s)
    {
      ResetKeeps(s);
      s := s.(rst := Off);
      s := s.(local := Down, remote := Down, remoteDiscr := 0, remoteDiag := DIAG_NONE, remoteDemand := false,
              poll := false, final := false);
      IdleLocalTx();
    }

    /** `bfd_build_packet`; a poll gives way to a final. */
    method BuildPacket(ttl: nat) returns (p: Packet)
      modifies this
      ensures p == Built(old(s), ttl) && s == old(s).(poll := old(s).poll && !old(s).final)
    {
      if s.poll && s.final {
        s := s.(poll := false);
      }
      p := Packet(VERSION_1, s.localDiag, s.local, s.poll, s.final, false, false, false, s.cfg.detectMult, HEADER_LEN,
                  s.localDiscr, s.remoteDiscr, if s.local == Up then s.cfg.minTx else s.cfg.idleTx, s.cfg.minRx,
                  HEADER_LEN, ttl);
    }

    /** `bfd_sender_thread`, run by its timer or as a queued event. */
    method SenderThread(event: bool, ttl: nat, jitter: nat) returns (p: Packet)
      requires Inv(s) && (if event then s.queued > 0 else s.out.In?)
      modifies this
      ensures p == Built(old(s), ttl)
      ensures s == (if event then SendQueued(old(s)) else SendTimed(old(s), jitter)) && Inv(s)
    {
      assert s.local != AdminDown;
      if event {
        s := s.(queued := s.queued - 1);
      } else {
        s := s.(out := Off);
      }
      p := BuildPacket(ttl);
      s := s.(final := false);
      if !event {
        SenderSchedule(jitter);
      }
    }
  }
}
