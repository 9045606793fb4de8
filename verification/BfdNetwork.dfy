/**
 Two BFD sessions joined by a network that may lose, duplicate, delay and reorder packets.
 */
module BfdNetwork {
  import opened BfdModel
  import opened BfdSession
  import E = BfdEffects

  /** A session and all discriminators it has held. */
  datatype Host = Host(s: Session, used: set<nat>)

  /** The packets under way are never taken out: each may arrive any number of times, or not at all. */
  datatype Net = Net(x: Host, y: Host, toX: set<Packet>, toY: set<Packet>) {
    function Swap(): Net { Net(y, x, toY, toX) }
  }

  datatype Move =
    | Deliver(p: Packet, discr: nat, jitter: nat)
    | Expires(discr: nat)
    | Resets
    | Sends(event: bool, jitter: nat)

  datatype Event = ByX(m: Move) | ByY(m: Move) {
    function Swap(): Event { if ByX? then ByY(m) else ByX(m) }
  }

  /** A discriminator that was never used before; the model of `bfd_get_random_discr`. */
  ghost predicate Fresh(h: Host, discr: nat) { discr != 0 && discr !in h.used }

  ghost predicate EnabledX(n: Net, m: Move) {
    match m
    case Deliver(p, discr, _) => p.(ttl := 0) in n.toX && Fresh(n.x, discr)
    case Expires(discr) => n.x.s.exp.In? && Fresh(n.x, discr)
    case Resets => n.x.s.rst.In?
    case Sends(event, _) => if event then n.x.s.queued > 0 else n.x.s.out.In?
  }

  ghost function After(s: Session, m: Move): Session
    requires m.Sends? && m.event ==> s.queued > 0
  {
    match m
    case Deliver(p, discr, jitter) => if Accepts(s, p) then Receive(s, p, discr, jitter) else s
    case Expires(discr) => Expire(s, discr)
    case Resets => Reset(s)
    case Sends(event, jitter) => if event then SendQueued(s) else SendTimed(s, jitter)
  }

  /** A move of the session at `x`. */
  ghost predicate StepX(n: Net, m: Move, n': Net) {
    && EnabledX(n, m)
    && var s := After(n.x.s, m);
       n' == Net(Host(s, n.x.used + {s.localDiscr}), n.y, n.toX, if m.Sends? then n.toY + {Built(n.x.s, 0)} else n.toY)
  }

  ghost predicate Step(n: Net, e: Event, n': Net) {
    if e.ByX? then StepX(n, e.m, n') else StepX(n.Swap(), e.m, n'.Swap())
  }

  ghost predicate Start(h: Host) {
    exists c: Config, discr: nat, jitter: nat ::
      c.detectMult >= 1 && discr != 0 && h == Host(Initial(c, discr, jitter), {discr})
  }

  ghost predicate IsRun(run: seq<Net>, es: seq<Event>) {
    && |run| == |es| + 1
    && Start(run[0].x) && Start(run[0].y) && run[0].toX == {} && run[0].toY == {}
    && forall i :: 0 <= i < |es| ==> Step(run[i], es[i], run[i + 1])
  }

  /** At step `k` the session at `y` accepts a packet sent under discriminator `d`. */
  ghost predicate AcceptedAt(run: seq<Net>, es: seq<Event>, k: nat, d: nat)
    requires |run| == |es| + 1
  {
    && k < |es| && es[k].ByY? && es[k].m.Deliver?
    && Accepts(run[k].y.s, es[k].m.p) && es[k].m.p.localDiscr == d
  }

  ghost predicate AcceptedBefore(run: seq<Net>, es: seq<Event>, i: nat, d: nat)
    requires |run| == |es| + 1
  {
    exists k: nat :: k < i && AcceptedAt(run, es, k, d)
  }

  /** Packet `p` is the one the session at `x` sends at step `l`. */
  ghost predicate SentByX(run: seq<Net>, es: seq<Event>, l: nat, p: Packet)
    requires |run| == |es| + 1
  {
    l < |es| && es[l].ByX? && es[l].m.Sends? && p == Built(run[l].x.s, 0)
  }

  /** Packet `p` is the one the session at `y` sends at step `l`. */
  ghost predicate SentByY(run: seq<Net>, es: seq<Event>, l: nat, p: Packet)
    requires |run| == |es| + 1
  {
    l < |es| && es[l].ByY? && es[l].m.Sends? && p == Built(run[l].y.s, 0)
  }

  ghost predicate BeforeX(run: seq<Net>, es: seq<Event>, i: nat, p: Packet)
    requires |run| == |es| + 1
  {
    exists l: nat :: l < i && SentByX(run, es, l, p)
  }

  ghost predicate BeforeY(run: seq<Net>, es: seq<Event>, i: nat, p: Packet)
    requires |run| == |es| + 1
  {
    exists l: nat :: l < i && SentByY(run, es, l, p)
  }

  /** What is known after `i` steps: every packet was sent, and a discriminator that `y` echoes was received by it. */
  ghost predicate Known(run: seq<Net>, es: seq<Event>, i: nat)
    requires |run| == |es| + 1 && i <= |es|
  {
    var n := run[i];
    && Inv(n.x.s) && Inv(n.y.s) && n.x.s.localDiscr in n.x.used
    && (forall p :: p in n.toY ==> BeforeX(run, es, i, p))
    && (forall p :: p in n.toX ==> BeforeY(run, es, i, p))
    && (n.y.s.remoteDiscr != 0 ==> AcceptedBefore(run, es, i, n.y.s.remoteDiscr))
  }

  lemma Later(run: seq<Net>, es: seq<Event>, i: nat, d: nat)
    requires |run| == |es| + 1
    ensures AcceptedBefore(run, es, i, d) ==> AcceptedBefore(run, es, i + 1, d)
  {}

  lemma SentLater(run: seq<Net>, es: seq<Event>, i: nat, p: Packet)
    requires |run| == |es| + 1
    ensures BeforeX(run, es, i, p) ==> BeforeX(run, es, i + 1, p)
    ensures BeforeY(run, es, i, p) ==> BeforeY(run, es, i + 1, p)
  {}

  /** What a move does to the two discriminators, and to the invariant. */
  lemma AfterKeeps(n: Net, m: Move)
    requires EnabledX(n, m) && Inv(n.x.s)
    ensures Inv(After(n.x.s, m))
    ensures var s := After(n.x.s, m);
      && (s.localDiscr == n.x.s.localDiscr || Fresh(n.x, s.localDiscr))
      && (s.remoteDiscr in {0, n.x.s.remoteDiscr}
        || (m.Deliver? && Accepts(n.x.s, m.p) && s.remoteDiscr == m.p.localDiscr))
  {
    match m
    case Deliver(p, discr, jitter) => if Accepts(n.x.s, p) { ReceiveKeeps(n.x.s, p, discr, jitter); }
    case Expires(discr) => ExpireKeeps(n.x.s, discr);
    case Resets => ResetKeeps(n.x.s);
    case Sends(event, jitter) =>
  }

  lemma {:induction false} RunKnown(run: seq<Net>, es: seq<Event>, i: nat)
    requires IsRun(run, es) && i <= |es|
    ensures Known(run, es, i)
  {
    if i > 0 {
      RunKnown(run, es, i - 1);
      if es[i - 1].ByX? { KnownX(run, es, i - 1); } else { KnownY(run, es, i - 1); }
    }
  }

  lemma KnownX(run: seq<Net>, es: seq<Event>, i: nat)
    requires |run| == |es| + 1 && i < |es| && Known(run, es, i) && es[i].ByX? && Step(run[i], es[i], run[i + 1])
    ensures Known(run, es, i + 1)
  {
    var n, n', m := run[i], run[i + 1], es[i].m;
    AfterKeeps(n, m);
    Later(run, es, i, n.y.s.remoteDiscr);
    forall p | p in n'.toY ensures BeforeX(run, es, i + 1, p) {
      if p in n.toY { SentLater(run, es, i, p); } else { assert SentByX(run, es, i, p); }
    }
    forall p | p in n'.toX ensures BeforeY(run, es, i + 1, p) { SentLater(run, es, i, p); }
  }

  lemma KnownY(run: seq<Net>, es: seq<Event>, i: nat)
    requires |run| == |es| + 1 && i < |es| && Known(run, es, i) && es[i].ByY? && Step(run[i], es[i], run[i + 1])
    ensures Known(run, es, i + 1)
  {
    var n, n', m := run[i], run[i + 1], es[i].m;
    AfterKeeps(n.Swap(), m);
    forall p | p in n'.toX ensures BeforeY(run, es, i + 1, p) {
      if p in n.toX { SentLater(run, es, i, p); } else { assert SentByY(run, es, i, p); }
    }
    forall p | p in n'.toY ensures BeforeX(run, es, i + 1, p) { SentLater(run, es, i, p); }
    var d := n'.y.s.remoteDiscr;
    if d != 0 {
      if d == n.y.s.remoteDiscr { Later(run, es, i, d); } else { assert AcceptedAt(run, es, i, d); }
    }
  }

  /** A discriminator once given up does not come back. */
  lemma {:induction false} Held(run: seq<Net>, es: seq<Event>, k: nat, j: nat, i: nat, d: nat)
    requires IsRun(run, es) && k <= j <= i <= |es| && d in run[k].x.used && run[i].x.s.localDiscr == d
    ensures run[j].x.s.localDiscr == d && run[k].x.used <= run[j].x.used
    decreases i - j, j
  {
    if j < i {
      Held(run, es, k, j + 1, i, d);
      RunKnown(run, es, j);
      UsedGrows(run, es, k, j);
      if es[j].ByX? { AfterKeeps(run[j], es[j].m); }
    } else {
      UsedGrows(run, es, k, j);
    }
  }

  lemma {:induction false} UsedGrows(run: seq<Net>, es: seq<Event>, k: nat, j: nat)
    requires IsRun(run, es) && k <= j <= |es|
    ensures run[k].x.used <= run[j].x.used
  {
    if k < j { UsedGrows(run, es, k, j - 1); assert Step(run[j - 1], es[j - 1], run[j]); }
  }

  /**
   `x` sends a packet at step `l`, `y` accepts that packet at step `k`, `y` sends packet `p` that
   echoes `d` at step `m`, and `x` holds `d` from step `l` up to step `i`.
   */
  ghost predicate RoundTrip(run: seq<Net>, es: seq<Event>, l: nat, k: nat, m: nat, i: nat, d: nat, p: Packet)
    requires |run| == |es| + 1 && i <= |es|
  {
    && l < k < m < i && AcceptedAt(run, es, k, d) && SentByX(run, es, l, es[k].m.p.(ttl := 0))
    && SentByY(run, es, m, p) && p.remoteDiscr == d
    && forall j :: l <= j <= i ==> run[j].x.s.localDiscr == d
  }

  /** The packet that `y` has accepted last under `d` was sent by `x`. */
  lemma {:induction false} Accepted(run: seq<Net>, es: seq<Event>, m: nat, d: nat) returns (l: nat, k: nat)
    requires IsRun(run, es) && m <= |es| && run[m].y.s.remoteDiscr == d != 0
    ensures l < k < m && AcceptedAt(run, es, k, d) && SentByX(run, es, l, es[k].m.p.(ttl := 0))
    ensures run[l].x.s.localDiscr == d
  {
    RunKnown(run, es, m);
    k :| k < m && AcceptedAt(run, es, k, d);
    RunKnown(run, es, k);
    assert Step(run[k], es[k], run[k + 1]);
    var q := es[k].m.p.(ttl := 0);
    assert BeforeX(run, es, k, q);
    l :| l < k && SentByX(run, es, l, q);
  }

  /**
   Handshake freshness: the session at `x` enters Up only on a packet that `y` sent after accepting a
   packet that `x` sent, all while `x` was holding the discriminator with which it enters Up.
   */
  lemma {:induction false} Handshake(run: seq<Net>, es: seq<Event>, i: nat)
    requires IsRun(run, es) && i < |es| && run[i].x.s.local != Up && run[i + 1].x.s.local == Up
    ensures run[i + 1].x.s.localDiscr == run[i].x.s.localDiscr && es[i].ByX? && es[i].m.Deliver?
    ensures var d := run[i].x.s.localDiscr;
      exists l: nat, k: nat, m: nat :: RoundTrip(run, es, l, k, m, i, d, es[i].m.p.(ttl := 0))
  {
    var n, d := run[i], run[i].x.s.localDiscr;
    RunKnown(run, es, i);
    assert Step(n, es[i], run[i + 1]);
    RisesByPacket(n, es[i], run[i + 1]);
    var p := es[i].m.p.(ttl := 0);
    assert BeforeY(run, es, i, p);
    var m: nat :| m < i && SentByY(run, es, m, p);
    var l, k := Accepted(run, es, m, d);
    RunKnown(run, es, l);
    forall j | l <= j <= i ensures run[j].x.s.localDiscr == d { Held(run, es, l, j, i, d); }
    assert RoundTrip(run, es, l, k, m, i, d, p);
  }

  /** Only an accepted packet that carries the session's own discriminator takes it Up. */
  lemma RisesByPacket(n: Net, e: Event, n': Net)
    requires Step(n, e, n') && Inv(n.x.s) && n.x.s.local != Up && n'.x.s.local == Up
    ensures e.ByX? && e.m.Deliver? && e.m.p.(ttl := 0) in n.toX
    ensures e.m.p.remoteDiscr == n.x.s.localDiscr == n'.x.s.localDiscr
  {
    if e.ByX? && e.m.Deliver? && Accepts(n.x.s, e.m.p) { ReceiveKeeps(n.x.s, e.m.p, e.m.discr, e.m.jitter); }
  }

  // ----- Leaving Up

  /** A session that leaves Up, whatever the step, takes a discriminator it has never held. */
  lemma {:induction false} LeavesUp(run: seq<Net>, es: seq<Event>, i: nat)
    requires IsRun(run, es) && i < |es| && run[i].x.s.local == Up && run[i + 1].x.s.local != Up
    ensures run[i + 1].x.s.localDiscr !in run[i].x.used && run[i + 1].x.s.localDiscr != 0
  {
    RunKnown(run, es, i);
    assert Step(run[i], es[i], run[i + 1]);
    if es[i].ByX? { FallsFresh(run[i], es[i].m); }
  }

  lemma FallsFresh(n: Net, m: Move)
    requires EnabledX(n, m) && Inv(n.x.s) && n.x.s.local == Up && After(n.x.s, m).local != Up
    ensures Fresh(n.x, After(n.x.s, m).localDiscr)
  {
    match m
    case Deliver(p, discr, jitter) =>
      if Accepts(n.x.s, p) {
        E.StateTable(n.x.s, p, discr, jitter);
        E.Redraws(n.x.s, p, discr, jitter);
      }
    case Expires(discr) => E.ExpiryExact(n.x.s, discr);
    case Resets =>
    case Sends(event, jitter) => E.SentExact(n.x.s, jitter);
  }

  /** The first step between `i` and `m` at which the session leaves Up. */
  lemma {:induction false} Leaving(run: seq<Net>, i: nat, m: nat) returns (k: nat)
    requires i < m < |run| && run[i].x.s.local == Up && run[m].x.s.local != Up
    ensures i <= k < m && run[k].x.s.local == Up && run[k + 1].x.s.local != Up
  {
    k := i;
    while run[k + 1].x.s.local == Up
      invariant i <= k < m && run[k].x.s.local == Up
      decreases m - k
    {
      k := k + 1;
    }
  }

  /** A discriminator is Up once: after the session has left Up it never has the discriminator of before. */
  lemma {:induction false} UpOnce(run: seq<Net>, es: seq<Event>, i: nat, m: nat, j: nat)
    requires IsRun(run, es) && i < m <= j <= |es| && run[i].x.s.local == Up && run[m].x.s.local != Up
    ensures run[j].x.s.localDiscr != run[i].x.s.localDiscr
  {
    var d := run[i].x.s.localDiscr;
    if run[j].x.s.localDiscr == d {
      var k := Leaving(run, i, m);
      RunKnown(run, es, i);
      UsedGrows(run, es, i, k);
      LeavesUp(run, es, k);
      Held(run, es, i, k + 1, j, d);
    }
  }

  // ----- Intervals

  /** Each end keeps its configuration and is paced by the other's. */
  ghost predicate PacedNet(n: Net, n0: Net) {
    && n.x.s.cfg == n0.x.s.cfg && n.y.s.cfg == n0.y.s.cfg
    && Paced(n.x.s, n0.y.s.cfg.minRx) && Paced(n.y.s, n0.x.s.cfg.minRx)
    && (forall p :: p in n.toX ==> p.minRx == n0.y.s.cfg.minRx)
    && (forall p :: p in n.toY ==> p.minRx == n0.x.s.cfg.minRx)
  }

  lemma AfterPaced(s: Session, m: Move, minRx: nat)
    requires (m.Sends? && m.event ==> s.queued > 0) && Paced(s, minRx) && (m.Deliver? ==> m.p.minRx == minRx)
    ensures After(s, m).cfg == s.cfg && Paced(After(s, m), minRx)
  {
    if m.Deliver? {
      ConfigKept(s, m.p, m.discr, m.jitter);
      ReceivePaced(s, m.p, m.discr, m.jitter);
    }
  }

  lemma StepPaced(n: Net, m: Move, n': Net, n0: Net)
    requires StepX(n, m, n') && PacedNet(n, n0)
    ensures PacedNet(n', n0)
  {
    if m.Deliver? { assert m.p.(ttl := 0) in n.toX; }
    AfterPaced(n.x.s, m, n0.y.s.cfg.minRx);
  }

  lemma {:induction false} RunPaced(run: seq<Net>, es: seq<Event>, i: nat)
    requires IsRun(run, es) && i <= |es|
    ensures PacedNet(run[i], run[0])
  {
    if i > 0 {
      RunPaced(run, es, i - 1);
      assert Step(run[i - 1], es[i - 1], run[i - 1 + 1]);
      if es[i - 1].ByX? {
        StepPaced(run[i - 1], es[i - 1].m, run[i], run[0]);
      } else {
        StepPaced(run[i - 1].Swap(), es[i - 1].m, run[i].Swap(), run[0].Swap());
      }
    }
  }

  /** What `y` makes of a packet: it expects the next one no sooner than `x`, as it was when sending, keeps to. */
  ghost predicate Covers(x: Session, y: Session, p: Packet) {
    var y1 := Absorb(y, p);
    && y1.localDetect == Detect(x.cfg.detectMult, y1.remoteTx)
    && (y.local != Up || p.poll || p.final ==> (x.localTx <= y1.remoteTx <==> !StillIdle(x, y.cfg.minRx)))
  }

  /** On every run: intervals that `y` takes in cover the sender of the packet, unless it was still idle. */
  lemma {:induction false} DetectionOnRuns(run: seq<Net>, es: seq<Event>, i: nat)
    requires IsRun(run, es) && i < |es| && es[i].ByY? && es[i].m.Deliver?
    ensures exists l: nat ::
      l < i && SentByX(run, es, l, es[i].m.p.(ttl := 0)) && Covers(run[l].x.s, run[i].y.s, es[i].m.p)
  {
    var p := es[i].m.p;
    assert Step(run[i], es[i], run[i + 1]);
    RunKnown(run, es, i);
    assert BeforeX(run, es, i, p.(ttl := 0));
    var l: nat :| l < i && SentByX(run, es, l, p.(ttl := 0));
    RunKnown(run, es, l);
    RunPaced(run, es, l);
    RunPaced(run, es, i);
    assert p == Built(run[l].x.s, p.ttl);
    DetectionCovers(run[l].x.s, run[i].y.s, p.ttl);
  }

  // ----- A neighbour that is not forgotten

  /**
   `x` holds a discriminator that `y` does not have and no timer to forget it; `y` waits to be spoken
   to, and every packet under way to it is addressed to somebody else.
   */
  ghost predicate Stuck(n: Net) {
    var x, y := n.x.s, n.y.s;
    && Inv(x) && x.local == Down && x.rst.Off? && x.remoteDiscr != 0 && x.remoteDiscr != y.localDiscr
    && Inv(y) && y.local == Down && y.rst.Off? && y.out.Off? && y.queued == 0
    && n.toX == {} && forall p :: p in n.toY ==> p.remoteDiscr != 0 && p.remoteDiscr != y.localDiscr
  }

  lemma StuckStays(n: Net, e: Event, n': Net)
    requires Stuck(n) && Step(n, e, n')
    ensures Stuck(n')
  {
    if e.ByY? && e.m.Deliver? { assert e.m.p.(ttl := 0) in n.toY; }
  }

  /** Two such sessions stay Down for ever, whatever is delivered and whichever timers fire. */
  lemma {:induction false} StuckForGood(run: seq<Net>, es: seq<Event>, i: nat)
    requires |run| == |es| + 1 && i <= |es| && Stuck(run[0])
    requires forall j :: 0 <= j < |es| ==> Step(run[j], es[j], run[j + 1])
    ensures run[i].x.s.local == Down && run[i].y.s.local == Down && Stuck(run[i])
  {
    if i > 0 {
      StuckForGood(run, es, i - 1);
      assert Step(run[i - 1], es[i - 1], run[i - 1 + 1]);
      StuckStays(run[i - 1], es[i - 1], run[i]);
    }
  }

  /** It takes an AdminDown packet to a new session, and a passive neighbour that starts afresh. */
  lemma {:induction false} StuckByRestart(c: Config, d0: nat, p: Packet, discr: nat, jitter: nat, c': Config, d': nat)
    requires c.detectMult >= 1 && d0 != 0 && discr != 0 && p.state == AdminDown && Accepts(Initial(c, d0, jitter), p)
    requires c'.detectMult >= 1 && c'.passive && d' != 0 && d' != p.localDiscr
    ensures var s := Receive(Initial(c, d0, jitter), p, discr, jitter);
      Stuck(Net(Host(s, {d0}), Host(Initial(c', d', jitter), {d'}), {}, {}))
  {
    HeldUntimed(c, d0, p, discr, jitter);
    InitialInv(c', d', jitter);
  }

  // ----- The other end

  ghost function SwapRun(run: seq<Net>): (r: seq<Net>)
    ensures |r| == |run| && forall i :: 0 <= i < |run| ==> r[i] == run[i].Swap()
  {
    seq(|run|, i requires 0 <= i < |run| => run[i].Swap())
  }

  ghost function SwapEvents(es: seq<Event>): (r: seq<Event>)
    ensures |r| == |es| && forall i :: 0 <= i < |es| ==> r[i] == es[i].Swap()
  {
    seq(|es|, i requires 0 <= i < |es| => es[i].Swap())
  }

  /** A run seen from the other end is a run, so that `Handshake` holds for both. */
  lemma SwapIsRun(run: seq<Net>, es: seq<Event>)
    requires IsRun(run, es)
    ensures IsRun(SwapRun(run), SwapEvents(es))
  {
    var r, f := SwapRun(run), SwapEvents(es);
    forall i | 0 <= i < |f| ensures Step(r[i], f[i], r[i + 1]) {
      assert Step(run[i], es[i], run[i + 1]);
      assert r[i].Swap() == run[i] && r[i + 1].Swap() == run[i + 1];
    }
  }
}
