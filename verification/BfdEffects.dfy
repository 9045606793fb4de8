/**
 What each handler does to a session, variable by variable, in terms of the old session and the
 packet alone: the rules of sections 6.8.1 to 6.8.7 of RFC 5880 as keepalived follows them.
 */
module BfdEffects {
  import opened BfdModel
  import opened BfdSession

  // ----- A packet: state and discriminators

  /** The state table. */
  lemma StateTable(s: Session, p: Packet, discr: nat, jitter: nat)
    requires Inv(s) && Accepts(s, p) && discr != 0
    ensures var t := Receive(s, p, discr, jitter).local;
      && (s.local == Down ==> (t == Init <==> p.state == Down) && (t == Up <==> p.state == Init))
      && (s.local == Down ==> (t == Down <==> p.state in {AdminDown, Up}))
      && (s.local == Init ==> (t == Init <==> p.state == Down) && (t == Up <==> p.state in {Init, Up}))
      && (s.local == Init ==> (t == Down <==> p.state == AdminDown))
      && (s.local == Up ==> (t == Up <==> p.state in {Init, Up}) && (t == Down <==> p.state in {AdminDown, Down}))
  {
    ReceiveKeeps(s, p, discr, jitter);
  }

  /** The packet makes the session fall. */
  predicate Falls(s: Session, p: Packet) {
    (s.local == Init && p.state == AdminDown) || (s.local == Up && p.state in {AdminDown, Down})
  }

  /** The packet makes the session rise to Up. */
  predicate Completes(s: Session, p: Packet) {
    (s.local == Down && p.state == Init) || (s.local == Init && p.state in {Init, Up})
  }

  /** The packet makes the session rise to Init. */
  predicate Begins(s: Session, p: Packet) { s.local == Down && p.state == Down }

  /** The interval the session keeps to once it has looked at the intervals of the packet. */
  function TxAfter(s: Session, p: Packet): nat {
    if s.local == Up && !p.poll && !p.final then s.localTx
    else if p.state == Up && s.local != Down then Max(s.cfg.minTx, p.minRx)
    else Max(s.cfg.idleTx, p.minRx)
  }

  /** The interval the session expects of its neighbour. */
  function RxAfter(s: Session, p: Packet): nat {
    if s.local == Up && !p.poll && !p.final then s.remoteTx else Max(s.cfg.minRx, p.minTx)
  }

  /** What the state machine starts from. */
  lemma Absorbed(s: Session, p: Packet, jitter: nat)
    requires s.local != AdminDown
    ensures Rescheduled(Absorb(s, p), s.localTx, jitter) ==
      s.(remote := p.state, remoteDiscr := p.localDiscr, remoteDiag := p.diag, remoteDemand := p.demand,
         remoteMinRx := p.minRx, remoteMinTx := p.minTx, remoteMult := p.detectMult, poll := s.poll && !p.final,
         localTx := TxAfter(s, p), remoteTx := RxAfter(s, p),
         localDetect := (p.detectMult * RxAfter(s, p)) % 0x1_0000_0000,
         remoteDetect := (s.cfg.detectMult * TxAfter(s, p)) % 0x1_0000_0000,
         out := if s.out.In? && TxAfter(s, p) < s.localTx then In(TxAfter(s, p) - jitter) else s.out)
  {
    var c := Copied(s, p);
    assert Negotiated(c, p) == c.(localTx := TxAfter(s, p), remoteTx := RxAfter(s, p));
  }

  /** The variables the state machine may change. */
  lemma MachinedFrame(a: Session, discr: nat, jitter: nat)
    ensures var m := Machined(a, discr, jitter);
      m == a.(local := m.local, localDiag := m.localDiag, localDiscr := m.localDiscr, localTx := m.localTx,
              exp := m.exp, rst := m.rst, out := m.out, poll := m.poll, events := m.events)
  {
    var to := NextState(a.local, a.remote);
    if to == a.local {
    } else if to == Down {
      assert Transit(a, discr) == Fall(a, DIAG_NBR_SIGNALLED_DOWN, discr);
    } else {
      assert Transit(a, discr) == Rise(a, to);
    }
  }

  /** After the state machine only the sender and the expiry change, and a poll asks for an answer. */
  lemma FinishedRest(m: Session, p: Packet, jitter: nat)
    ensures var t := Finished(m, p, jitter);
      t == m.(out := t.out, exp := t.exp, final := m.final || p.poll, queued := m.queued + if p.poll then 1 else 0)
  {
    var out := if Silenced(m) then Off else if m.out.Off? then In(m.localTx - jitter) else m.out;
    var s1 := m.(out := out);
    var s2 := s1.(final := m.final || p.poll, queued := m.queued + if p.poll then 1 else 0);
    assert s2 == if p.poll then s1.(final := true, queued := s1.queued + 1) else s1;
  }

  /** What is remembered of the neighbour is what the packet says. */
  lemma Remembers(s: Session, p: Packet, discr: nat, jitter: nat)
    requires Inv(s)
    ensures var t := Receive(s, p, discr, jitter);
      && t.remote == p.state && t.remoteDiscr == p.localDiscr && t.remoteDiag == p.diag && t.remoteDemand == p.demand
      && t.remoteMinRx == p.minRx && t.remoteMinTx == p.minTx && t.remoteMult == p.detectMult && t.cfg == s.cfg
  {
    var a := Rescheduled(Absorb(s, p), s.localTx, jitter);
    Absorbed(s, p, jitter);
    MachinedFrame(a, discr, jitter);
    FinishedRest(Machined(a, discr, jitter), p, jitter);
  }

  /** A new discriminator exactly on leaving Up; the diagnostic says why the session fell, or is cleared by a rise. */
  lemma Redraws(s: Session, p: Packet, discr: nat, jitter: nat)
    requires Inv(s) && Accepts(s, p) && discr != 0
    ensures var t := Receive(s, p, discr, jitter);
      && t.localDiscr == (if s.local == Up && p.state in {AdminDown, Down} then discr else s.localDiscr)
      && t.localDiag == if Falls(s, p) then 3 else if Begins(s, p) || Completes(s, p) then 0 else s.localDiag
  {
    ReceiveKeeps(s, p, discr, jitter);
    var a := Rescheduled(Absorb(s, p), s.localTx, jitter);
    Absorbed(s, p, jitter);
    MachinedDiag(a, discr, jitter);
    FinishedRest(Machined(a, discr, jitter), p, jitter);
  }

  lemma MachinedDiag(a: Session, discr: nat, jitter: nat)
    requires a.local != AdminDown
    ensures Machined(a, discr, jitter).localDiag ==
      if (a.local == Init && a.remote == AdminDown) || (a.local == Up && a.remote in {AdminDown, Down}) then 3
      else if (a.local == Down && a.remote in {Down, Init}) || (a.local == Init && a.remote in {Init, Up}) then 0
      else a.localDiag
  {}

  // ----- A packet: intervals and detection times

  /** Intervals are renegotiated unless the session is Up and no poll sequence is going on; a fall makes it idle. */
  lemma Negotiates(s: Session, p: Packet, discr: nat, jitter: nat)
    requires Inv(s)
    ensures var t := Receive(s, p, discr, jitter);
      && t.localTx == (if Falls(s, p) then Max(s.cfg.idleTx, p.minRx) else TxAfter(s, p))
      && t.remoteTx == RxAfter(s, p)
      && t.localDetect == (p.detectMult * RxAfter(s, p)) % 0x1_0000_0000
      && t.remoteDetect == (s.cfg.detectMult * TxAfter(s, p)) % 0x1_0000_0000
  {
    var a := Rescheduled(Absorb(s, p), s.localTx, jitter);
    Absorbed(s, p, jitter);
    MachinedFrame(a, discr, jitter);
    MachinedTx(a, discr, jitter);
    FinishedRest(Machined(a, discr, jitter), p, jitter);
  }

  lemma MachinedTx(a: Session, discr: nat, jitter: nat)
    requires a.local != AdminDown
    ensures Machined(a, discr, jitter).localTx ==
      if (a.local == Init && a.remote == AdminDown) || (a.local == Up && a.remote in {AdminDown, Down})
      then Max(a.cfg.idleTx, a.remoteMinRx) else a.localTx
  {}

  // ----- A packet: timers

  /** Expiry runs from the last packet while Up, from the rise while Init; a fall starts the reset timer. */
  lemma Rearms(s: Session, p: Packet, discr: nat, jitter: nat)
    requires Inv(s)
    ensures var t := Receive(s, p, discr, jitter);
      var detect := (p.detectMult * RxAfter(s, p)) % 0x1_0000_0000;
      && t.exp == (if Falls(s, p) then Off
                   else if Begins(s, p) || Completes(s, p) || s.local == Up then In(detect)
                   else s.exp)
      && t.rst == if Falls(s, p) then In(detect) else if Begins(s, p) || Completes(s, p) then Off else s.rst
  {
    var a := Rescheduled(Absorb(s, p), s.localTx, jitter);
    Absorbed(s, p, jitter);
    MachinedFrame(a, discr, jitter);
    MachinedTimers(a, discr, jitter);
    var m := Machined(a, discr, jitter);
    FinishedRest(m, p, jitter);
    FinishedExp(m, p, jitter);
  }

  lemma MachinedTimers(a: Session, discr: nat, jitter: nat)
    requires a.local != AdminDown && (a.exp.In? <==> a.local in {Init, Up})
    ensures var m := Machined(a, discr, jitter);
      if (a.local == Init && a.remote == AdminDown) || (a.local == Up && a.remote in {AdminDown, Down})
      then m.local == Down && m.exp == Off && m.rst == In(a.localDetect)
      else if a.local == Down && a.remote in {Down, Init}
      then m.local == (if a.remote == Down then Init else Up) && m.exp == In(a.localDetect) && m.rst == Off
      else if a.local == Init && a.remote in {Init, Up} then m.local == Up && m.exp == a.exp && m.rst == Off
      else m.local == a.local && m.exp == a.exp && m.rst == a.rst
  {}

  lemma FinishedExp(m: Session, p: Packet, jitter: nat)
    ensures Finished(m, p, jitter).exp == if m.local == Up && m.exp.In? then In(m.localDetect) else m.exp
  {}

  /** The neighbour is Up, wants no periodic packets, and the session is or comes Up. */
  predicate Hushed(s: Session, p: Packet) { p.demand && p.state == Up && s.local in {Init, Up} }

  /** The sender runs unless silenced; it is moved if the interval is shorter, and started if it was not running. */
  lemma KeepsSending(s: Session, p: Packet, discr: nat, jitter: nat)
    requires Inv(s)
    ensures var t := Receive(s, p, discr, jitter);
      t.out ==
        if Hushed(s, p) then Off
        else if s.out.Off? || (s.cfg.passive && Falls(s, p)) then In(t.localTx - jitter)
        else if TxAfter(s, p) < s.localTx then In(TxAfter(s, p) - jitter)
        else s.out
  {
    var a := Rescheduled(Absorb(s, p), s.localTx, jitter);
    Absorbed(s, p, jitter);
    MachinedFrame(a, discr, jitter);
    MachinedTimers(a, discr, jitter);
    MachinedOut(a, discr, jitter);
    var m := Machined(a, discr, jitter);
    FinishedRest(m, p, jitter);
    FinishedOut(m, p, jitter);
  }

  lemma MachinedOut(a: Session, discr: nat, jitter: nat)
    requires a.local != AdminDown
    ensures var m := Machined(a, discr, jitter);
      m.out ==
        if (a.local == Init && a.remote == AdminDown) || (a.local == Up && a.remote in {AdminDown, Down})
        then (if a.cfg.passive then Off else a.out)
        else if a.local == Down && a.remote == Down && a.cfg.passive && a.out.Off? then In(m.localTx - jitter)
        else a.out
  {}

  lemma FinishedOut(m: Session, p: Packet, jitter: nat)
    ensures Finished(m, p, jitter).out ==
      if m.remoteDemand && m.local == Up && m.remote == Up then Off
      else if m.out.Off? then In(m.localTx - jitter) else m.out
  {}

  // ----- A packet: poll and final

  /** A poll is answered by a packet of its own with Final set; nothing else sets Final or sends out of turn. */
  lemma Answers(s: Session, p: Packet, discr: nat, jitter: nat)
    requires Inv(s)
    ensures var t := Receive(s, p, discr, jitter);
      && (p.poll ==> t.final && t.queued == s.queued + 1)
      && (!p.poll ==> t.final == s.final && t.queued == s.queued)
  {
    var a := Rescheduled(Absorb(s, p), s.localTx, jitter);
    Absorbed(s, p, jitter);
    MachinedFrame(a, discr, jitter);
    FinishedRest(Machined(a, discr, jitter), p, jitter);
  }

  /** A poll sequence ends with a Final, and begins with the rise to Up if the interval is going to change. */
  lemma Polls(s: Session, p: Packet, discr: nat, jitter: nat)
    requires Inv(s)
    ensures Receive(s, p, discr, jitter).poll <==>
      (s.poll && !p.final) || (Completes(s, p) && s.cfg.idleTx != s.cfg.minTx && !s.final)
  {
    var a := Rescheduled(Absorb(s, p), s.localTx, jitter);
    Absorbed(s, p, jitter);
    MachinedPoll(a, discr, jitter);
    FinishedRest(Machined(a, discr, jitter), p, jitter);
  }

  lemma MachinedPoll(a: Session, discr: nat, jitter: nat)
    requires a.local != AdminDown
    ensures var up := (a.local == Down && a.remote == Init) || (a.local == Init && a.remote in {Init, Up});
      Machined(a, discr, jitter).poll <==> a.poll || (up && a.cfg.idleTx != a.cfg.minTx && !a.final)
  {}

  // ----- Which packets are accepted

  /** Of a packet that is accepted, each field that is checked decides alone; the others do not matter. */
  lemma AcceptsExact(s: Session, p: Packet, n: nat, b: bool)
    requires Accepts(s, p)
    ensures Accepts(s, p.(version := n)) <==> n == 1
    ensures Accepts(s, p.(detectMult := n)) <==> n != 0
    ensures Accepts(s, p.(multipoint := b)) <==> !b
    ensures Accepts(s, p.(auth := b)) <==> !b
    ensures Accepts(s, p.(localDiscr := n)) <==> n != 0
    ensures Accepts(s, p.(diag := n)) <==> n <= 8
    ensures Accepts(s, p.(poll := b)) <==> !(b && p.final)
    ensures Accepts(s, p.(final := b)) <==> !(b && p.poll)
    ensures Accepts(s, p.(lenField := n)) <==> n == p.len
    ensures Accepts(s, p.(lenField := n, len := n)) <==> n >= 24
    ensures Accepts(s, p.(ttl := n)) <==> s.cfg.maxHops == 255 || n == 0 || s.cfg.ttl <= s.cfg.maxHops + n
    ensures Accepts(s, p.(remoteDiscr := n)) <==> if n == 0 then p.state in {Down, AdminDown} else n == s.localDiscr
    ensures Accepts(s, p.(demand := b, minTx := n, minRx := n))
  {}

  lemma AcceptsState(s: Session, p: Packet, to: State)
    requires Accepts(s, p)
    ensures Accepts(s, p.(state := to)) <==> p.remoteDiscr != 0 || to in {Down, AdminDown}
  {}

  // ----- Expiry and reset

  /** Expiry forgets the neighbour, draws a new discriminator if the session was Up, and starts the reset timer. */
  lemma ExpiryExact(s: Session, discr: nat)
    ensures var t := Expire(s, discr);
      && t.local == Down && t.localDiag == 1 && t.remoteDiscr == 0
      && t.localDiscr == (if s.local == Up then discr else s.localDiscr)
      && t.exp == Off && t.rst == In(s.localDetect) && t.out == (if s.cfg.passive then Off else s.out)
      && t.localTx == Max(s.cfg.idleTx, s.remoteMinRx)
      && t.events == s.events + (if s.local == Up && s.remote != AdminDown then [Down] else [])
      && t.cfg == s.cfg && t.remote == s.remote && t.remoteDiag == s.remoteDiag && t.remoteDemand == s.remoteDemand
      && t.poll == s.poll && t.final == s.final && t.queued == s.queued
      && t.remoteTx == s.remoteTx && t.localDetect == s.localDetect && t.remoteDetect == s.remoteDetect
  {
    assert s.events + [] == s.events;
  }

  /** A reset forgets the neighbour and any poll sequence, and leaves sender, discriminator and detection times. */
  lemma ResetExact(s: Session)
    ensures var t := Reset(s);
      && t.local == Down && t.remote == Down && t.remoteDiscr == 0 && t.remoteDiag == 0 && !t.remoteDemand
      && !t.poll && !t.final && t.rst == Off && t.localTx == Max(s.cfg.idleTx, s.remoteMinRx)
      && t.cfg == s.cfg && t.localDiscr == s.localDiscr && t.localDiag == s.localDiag && t.exp == s.exp
      && t.out == s.out && t.queued == s.queued && t.events == s.events
      && t.remoteTx == s.remoteTx && t.localDetect == s.localDetect && t.remoteDetect == s.remoteDetect
  {}

  // ----- Sending

  /** What a packet says of its sender; Final takes precedence over Poll. */
  lemma PacketExact(s: Session, ttl: nat)
    ensures var p := Built(s, ttl);
      && p.state == s.local && p.diag == s.localDiag && p.localDiscr == s.localDiscr && p.remoteDiscr == s.remoteDiscr
      && p.detectMult == s.cfg.detectMult && p.minRx == s.cfg.minRx
      && (s.local == Up ==> p.minTx == s.cfg.minTx) && (s.local != Up ==> p.minTx == s.cfg.idleTx)
      && (p.final <==> s.final) && (p.poll <==> s.poll && !s.final)
      && p.version == 1 && p.lenField == 24 && p.len == 24 && !p.auth && !p.demand && !p.multipoint
  {}

  /** A packet sent answers the poll; a poll of its own that had to wait for this is given up. */
  lemma SentExact(s: Session, jitter: nat)
    ensures var t := SendTimed(s, jitter);
      && !t.final && (t.poll <==> s.poll && !s.final) && t.out == In(s.localTx - jitter) && t.queued == s.queued
      && t.local == s.local && t.localDiscr == s.localDiscr && t.remoteDiscr == s.remoteDiscr
      && t.exp == s.exp && t.rst == s.rst && t.localTx == s.localTx && t.events == s.events
    ensures s.queued > 0 ==>
      var t := SendQueued(s);
      && !t.final && (t.poll <==> s.poll && !s.final) && t.out == s.out && t.queued == s.queued - 1
      && t.local == s.local && t.localDiscr == s.localDiscr && t.remoteDiscr == s.remoteDiscr
      && t.exp == s.exp && t.rst == s.rst && t.localTx == s.localTx && t.events == s.events
  {}

  /** A new session is Down and knows nobody; unless passive it sends at once and then at the idle interval. */
  lemma InitialExact(c: Config, discr: nat, jitter: nat)
    ensures var s := Initial(c, discr, jitter);
      && s.cfg == c && s.local == Down && s.remote == Down && s.localDiscr == discr && s.remoteDiscr == 0
      && s.localDiag == 0 && !s.poll && !s.final && !s.remoteDemand && s.remoteMinRx == 0 && s.localTx == c.idleTx
      && s.exp == Off && s.rst == Off && s.events == [Down]
      && s.out == (if c.passive then Off else In(c.idleTx - jitter)) && s.queued == if c.passive then 0 else 1
  {}

  // ----- Polls answered on whole runs

  predicate Sends(i: Input) { i.SenderFires? || i.EventFires? }

  /** A poll is accepted at step `k`. */
  ghost predicate PolledAt(states: seq<Session>, inputs: seq<Input>, k: nat) {
    k < |inputs| && k < |states| && inputs[k].Arrives? && Accepts(states[k], inputs[k].p) && inputs[k].p.poll
  }

  /** A poll was accepted at a step from `i` to `j`, and the session has not been reset since. */
  ghost predicate PollOpen(states: seq<Session>, inputs: seq<Input>, i: nat, j: nat) {
    j <= |inputs| &&
    exists k :: i <= k < j && PolledAt(states, inputs, k) && forall m :: k < m < j ==> !inputs[m].ResetFires?
  }

  lemma StepFinal(s: Session, i: Input)
    requires Inv(s) && Enabled(s, i) && !Sends(i)
    ensures Next(s, i).final <==> (i.Arrives? && Accepts(s, i.p) && i.p.poll) || (s.final && !i.ResetFires?)
  {
    match i
    case Arrives(p, discr, jitter) => if Accepts(s, p) { Answers(s, p, discr, jitter); }
    case ExpireFires(discr) => ExpiryExact(s, discr);
    case ResetFires => ResetExact(s);
    case SenderFires(_) =>
    case EventFires =>
  }

  lemma PollGrows(states: seq<Session>, inputs: seq<Input>, i: nat, j: nat)
    requires i <= j < |inputs|
    ensures PollOpen(states, inputs, i, j + 1) <==>
      PolledAt(states, inputs, j) || (PollOpen(states, inputs, i, j) && !inputs[j].ResetFires?)
  {
    if PollOpen(states, inputs, i, j) && !inputs[j].ResetFires? {
      var k :| i <= k < j && PolledAt(states, inputs, k) && forall m :: k < m < j ==> !inputs[m].ResetFires?;
      assert forall m :: k < m < j + 1 ==> !inputs[m].ResetFires?;
    }
    if PollOpen(states, inputs, i, j + 1) && !PolledAt(states, inputs, j) {
      var k :| i <= k < j + 1 && PolledAt(states, inputs, k) && forall m :: k < m < j + 1 ==> !inputs[m].ResetFires?;
      assert k < j && !inputs[j].ResetFires?;
    }
  }

  lemma {:induction false} FinalStep(states: seq<Session>, inputs: seq<Input>, j: nat)
    requires IsRun(states, inputs) && j < |inputs| && !Sends(inputs[j])
    ensures states[j + 1].final <==>
      PolledAt(states, inputs, j) || (states[j].final && !inputs[j].ResetFires?)
  {
    RunsKeepInv(states, inputs, j);
    assert Enabled(states[j], inputs[j]) && states[j + 1] == Next(states[j], inputs[j]);
    StepFinal(states[j], inputs[j]);
  }

  lemma NoPoll(states: seq<Session>, inputs: seq<Input>, i: nat)
    ensures !PollOpen(states, inputs, i, i)
  {}

  lemma {:induction false} FinalSince(states: seq<Session>, inputs: seq<Input>, i: nat, j: nat)
    requires IsRun(states, inputs) && i <= j <= |inputs| && !states[i].final
    requires forall m :: i <= m < j ==> !Sends(inputs[m])
    ensures states[j].final <==> PollOpen(states, inputs, i, j)
  {
    if i == j {
      NoPoll(states, inputs, i);
    } else {
      var k := j - 1;
      FinalSince(states, inputs, i, k);
      FinalStep(states, inputs, k);
      PollGrows(states, inputs, i, k);
    }
  }

  /** Of two packets sent one after the other, the second carries Final exactly if a poll came in between. */
  lemma {:induction false} FinalAnswersPoll(states: seq<Session>, inputs: seq<Input>, i: nat, j: nat)
    requires IsRun(states, inputs) && i < j < |inputs| && Sends(inputs[i]) && Sends(inputs[j])
    requires forall m :: i < m < j ==> !Sends(inputs[m])
    ensures Built(states[j], 0).final <==> PollOpen(states, inputs, i + 1, j)
  {
    assert Enabled(states[i], inputs[i]) && states[i + 1] == Next(states[i], inputs[i]);
    match inputs[i] {
      case SenderFires(jitter) => SentExact(states[i], jitter);
      case EventFires => SentExact(states[i], 0);
    }
    FinalSince(states, inputs, i + 1, j);
    PacketExact(states[j], 0);
  }

  /** The first packet carries Final exactly if a poll came before it. */
  lemma {:induction false} FirstFinal(states: seq<Session>, inputs: seq<Input>, j: nat)
    requires IsRun(states, inputs) && j < |inputs| && forall m :: 0 <= m < j ==> !Sends(inputs[m])
    ensures Built(states[j], 0).final <==> PollOpen(states, inputs, 0, j)
  {
    FinalSince(states, inputs, 0, j);
    PacketExact(states[j], 0);
  }

  /** A reset drops the answer: the packet that is queued goes out without Final. */
  lemma ResetDropsFinal(s: Session, p: Packet, discr: nat, jitter: nat)
    requires Inv(s) && Accepts(s, p) && discr != 0 && s.local == Down && s.rst.In? && p.state == AdminDown && p.poll
    ensures var t := Receive(s, p, discr, jitter);
      t.final && t.rst.In? && Reset(t).queued > 0 && !Built(Reset(t), 0).final
  {
    Answers(s, p, discr, jitter);
    Rearms(s, p, discr, jitter);
    ResetExact(Receive(s, p, discr, jitter));
    PacketExact(Reset(Receive(s, p, discr, jitter)), 0);
  }

  /** Polls accepted and queued packets sent in the first `n` steps. */
  ghost function PollCount(states: seq<Session>, inputs: seq<Input>, n: nat): nat {
    if n == 0 then 0 else PollCount(states, inputs, n - 1) + if PolledAt(states, inputs, n - 1) then 1 else 0
  }

  ghost function EventCount(inputs: seq<Input>, n: nat): nat
    requires n <= |inputs|
  {
    if n == 0 then 0 else EventCount(inputs, n - 1) + if inputs[n - 1].EventFires? then 1 else 0
  }

  lemma StepQueued(s: Session, i: Input)
    requires Inv(s) && Enabled(s, i)
    ensures Next(s, i).queued + (if i.EventFires? then 1 else 0) ==
      s.queued + if i.Arrives? && Accepts(s, i.p) && i.p.poll then 1 else 0
  {
    match i
    case Arrives(p, discr, jitter) => if Accepts(s, p) { Answers(s, p, discr, jitter); }
    case ExpireFires(discr) => ExpiryExact(s, discr);
    case ResetFires => ResetExact(s);
    case SenderFires(jitter) => SentExact(s, jitter);
    case EventFires => SentExact(s, 0);
  }

  /** Every poll is answered once: what is queued is the first packet and the polls, less what has been sent so. */
  lemma {:induction false} PollsBalance(states: seq<Session>, inputs: seq<Input>, n: nat)
    requires IsRun(states, inputs) && n <= |inputs|
    ensures states[n].queued + EventCount(inputs, n) == states[0].queued + PollCount(states, inputs, n)
  {
    if n > 0 {
      PollsBalance(states, inputs, n - 1);
      RunsKeepInv(states, inputs, n - 1);
      assert Enabled(states[n - 1], inputs[n - 1]) && states[n - 1 + 1] == Next(states[n - 1], inputs[n - 1]);
      StepQueued(states[n - 1], inputs[n - 1]);
    }
  }
}
