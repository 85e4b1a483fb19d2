/**
  Conservation of sent counts from the data sender's process to the emit windows, over every
  interleaving of sends, publishes (failed ones included), window rotations with readable or
  unreadable files, and sender restarts.
 */
module SentPipeline {
  import opened Wrappers
  import opened LossReports
  import opened SentCounters

  /**
    The whole pipeline.  `inProcess` and `everSent` are bookkeeping: what was recorded through
    `record_sent`, and what the data sender really sent over all its lives.  The three `life`
    numbers say which life of the sender the writer, the file and the last read belong to.
   */
  datatype Sys = Sys(
    planes: nat, paths: nat,
    writer: Counts, file: Option<Counts>, last: Option<Counts>,
    current: Counts, closed: seq<Counts>,
    inProcess: Counts, everSent: Counts,
    writerLife: nat, fileLife: nat, lastLife: nat)

  datatype Event =
    | Send(plane: int, path: int)          // the data sender puts a packet on the wire
    | SendInProcess(plane: int, path: int) // the agent's own record_sent
    | Publish(writable: bool)
    | Rotate(readable: bool)
    | Restart                              // the data sender starts over with zero counts

  function Init(planes: nat, paths: nat): Sys {
    var z := Zeros(planes, paths);
    Sys(planes, paths, z, None, None, z, [], z, z, 0, 0, 0)
  }

  ghost predicate WellSized(s: Sys) {
    && Sized(s.writer, s.planes, s.paths) && Sized(s.current, s.planes, s.paths)
    && Sized(s.inProcess, s.planes, s.paths) && Sized(s.everSent, s.planes, s.paths)
    && (s.file.Some? ==> Sized(s.file.value, s.planes, s.paths))
    && (s.last.Some? ==> Sized(s.last.value, s.planes, s.paths))
    && (forall k :: 0 <= k < |s.closed| ==> Sized(s.closed[k], s.planes, s.paths))
  }

  predicate InGrid(s: Sys, plane: int, path: int) { 0 <= plane < s.planes && 0 <= path < s.paths }

  /** What `read_delta` hands the rotation. */
  function Delta(s: Sys, readable: bool): Option<Counts>
    requires WellSized(s)
  {
    if !readable || s.file == None then None
    else if s.last == None then s.file
    else Some(DeltaGrid(s.file.value, s.last.value))
  }

  function Step(s: Sys, e: Event): (s': Sys)
    requires WellSized(s)
    ensures WellSized(s') && s'.planes == s.planes && s'.paths == s.paths
  {
    match e
    case Send(p, q) =>
      if !InGrid(s, p, q) then s else s.(writer := Bump(s.writer, p, q), everSent := Bump(s.everSent, p, q))
    case SendInProcess(p, q) =>
      if !InGrid(s, p, q) then s
      else s.(current := Bump(s.current, p, q), inProcess := Bump(s.inProcess, p, q))
    case Publish(writable) =>
      if writable then s.(file := Some(s.writer), fileLife := s.writerLife) else s
    case Rotate(readable) =>
      var d := Delta(s, readable);
      var window := if d.Some? then AddGrid(s.current, d.value) else s.current;
      var read := readable && s.file.Some?;
      s.(last := if read then s.file else s.last, lastLife := if read then s.fileLife else s.lastLife,
         current := Zeros(s.planes, s.paths), closed := s.closed + [window])
    case Restart => s.(writer := Zeros(s.planes, s.paths), writerLife := s.writerLife + 1)
  }

  function Run(s: Sys, es: seq<Event>): (s': Sys)
    requires WellSized(s)
    ensures WellSized(s') && s'.planes == s.planes && s'.paths == s.paths
    decreases |es|
  {
    if es == [] then s else Run(Step(s, es[0]), es[1..])
  }

  // ---------------------------------------------------------------- one cell

  function ClosedAt(closed: seq<Counts>, p: nat, q: nat): nat {
    if closed == [] then 0 else ClosedAt(closed[..|closed| - 1], p, q) + At(closed[|closed| - 1], p, q)
  }

  function OptAt(g: Option<Counts>, p: nat, q: nat): nat {
    match g
    case None => 0
    case Some(c) => At(c, p, q)
  }

  /** Packets of a cell in closed windows and in the open one. */
  function Fused(s: Sys, p: nat, q: nat): nat {
    ClosedAt(s.closed, p, q) + At(s.current, p, q)
  }

  /** What a rotation does to one cell. */
  lemma {:induction false} RotateCell(s: Sys, readable: bool, p: nat, q: nat)
    requires WellSized(s) && p < s.planes && q < s.paths
    ensures var s' := Step(s, Rotate(readable));
      Fused(s', p, q) == Fused(s, p, q) +
      if readable && s.file.Some? then CellDelta(OptAt(s.file, p, q), OptAt(s.last, p, q)) else 0
  {
    var s' := Step(s, Rotate(readable));
    assert s'.closed[..|s.closed|] == s.closed;
  }

  // ---------------------------------------------------------------- one life of the sender

  /** Nothing is lost and nothing counted twice; reads lag publishes, publishes lag sends. */
  ghost predicate Conserved(s: Sys, p: nat, q: nat) {
    && OptAt(s.last, p, q) <= OptAt(s.file, p, q) <= At(s.writer, p, q)
    && At(s.writer, p, q) == At(s.everSent, p, q)
    && (s.last.Some? ==> s.file.Some?)
    && Fused(s, p, q) == At(s.inProcess, p, q) + OptAt(s.last, p, q)
  }

  lemma {:induction false} StepConserves(s: Sys, e: Event, p: nat, q: nat)
    requires WellSized(s) && p < s.planes && q < s.paths && e != Restart
    requires Conserved(s, p, q)
    ensures Conserved(Step(s, e), p, q)
  {
    if e.Rotate? { RotateCell(s, e.readable, p, q); }
  }

  /**
    Over every run without a sender restart, for every cell: the closed windows plus the open one
    hold exactly the in-process sends plus the last count read, which is never above what the data
    sender really sent.
   */
  lemma {:induction false} CountsConserved(s: Sys, es: seq<Event>, p: nat, q: nat)
    requires WellSized(s) && p < s.planes && q < s.paths && Restart !in es
    requires Conserved(s, p, q)
    ensures Conserved(Run(s, es), p, q)
    decreases |es|
  {
    if es != [] {
      StepConserves(s, es[0], p, q);
      CountsConserved(Step(s, es[0]), es[1..], p, q);
    }
  }

  lemma {:induction false} InitConserved(planes: nat, paths: nat, p: nat, q: nat)
    requires p < planes && q < paths
    ensures WellSized(Init(planes, paths)) && Conserved(Init(planes, paths), p, q)
    ensures Ordered(Init(planes, paths), p, q) && Balance(Init(planes, paths), p, q) == 0
  {
  }

  // ---------------------------------------------------------------- any number of lives

  /**
    Files and reads never run ahead of the life that wrote them, and within a life counts only grow.
   */
  ghost predicate Ordered(s: Sys, p: nat, q: nat) {
    && s.lastLife <= s.fileLife <= s.writerLife
    && (s.last.Some? ==> s.file.Some?)
    && (s.last.Some? && s.lastLife == s.fileLife ==> OptAt(s.last, p, q) <= OptAt(s.file, p, q))
    && (s.file.Some? && s.fileLife == s.writerLife ==> OptAt(s.file, p, q) <= At(s.writer, p, q))
  }

  /** What reading the current file would still add. */
  function Pending(s: Sys, p: nat, q: nat): nat {
    if s.last.Some? && s.lastLife == s.fileLife && OptAt(s.last, p, q) <= OptAt(s.file, p, q)
    then OptAt(s.file, p, q) - OptAt(s.last, p, q) else OptAt(s.file, p, q)
  }

  /** What the writer holds beyond the file. */
  function Surplus(s: Sys, p: nat, q: nat): nat {
    if s.file.Some? && s.fileLife == s.writerLife && OptAt(s.file, p, q) <= At(s.writer, p, q)
    then At(s.writer, p, q) - OptAt(s.file, p, q) else At(s.writer, p, q)
  }

  /**
    The packets of a cell that an event puts out of reach: at a restart those not yet published, when
    a new life first publishes those published and not yet read, and at the first read of a new life
    the old count, unless the new count is smaller and so gives the restart away.
   */
  function LostBy(s: Sys, e: Event, p: nat, q: nat): nat {
    match e
    case Restart => Surplus(s, p, q)
    case Publish(writable) => if writable && s.file.Some? && s.fileLife != s.writerLife then Pending(s, p, q) else 0
    case Rotate(readable) =>
      if readable && s.file.Some? && s.last.Some? && s.lastLife != s.fileLife
        && OptAt(s.last, p, q) <= OptAt(s.file, p, q)
      then OptAt(s.last, p, q) else 0
    case _ => 0
  }

  ghost function Lost(s: Sys, es: seq<Event>, p: nat, q: nat): nat
    requires WellSized(s)
    decreases |es|
  {
    if es == [] then 0 else LostBy(s, es[0], p, q) + Lost(Step(s, es[0]), es[1..], p, q)
  }

  /** What has been fused, what reads and publishes can still bring, against what was sent. */
  function Balance(s: Sys, p: nat, q: nat): int {
    At(s.inProcess, p, q) + At(s.everSent, p, q) - Fused(s, p, q) - Pending(s, p, q) - Surplus(s, p, q)
  }

  lemma {:induction false} StepBalance(s: Sys, e: Event, p: nat, q: nat)
    requires WellSized(s) && p < s.planes && q < s.paths && Ordered(s, p, q)
    ensures Ordered(Step(s, e), p, q)
    ensures Balance(Step(s, e), p, q) == Balance(s, p, q) + LostBy(s, e, p, q)
  {
    match e
    case Send(_, _) => SendBalance(s, e, p, q);
    case SendInProcess(_, _) => SendBalance(s, e, p, q);
    case Publish(_) => PublishBalance(s, e, p, q);
    case Rotate(_) => RotateBalance(s, e, p, q);
    case Restart => RestartBalance(s, p, q);
  }

  lemma {:induction false} SendBalance(s: Sys, e: Event, p: nat, q: nat)
    requires WellSized(s) && p < s.planes && q < s.paths && Ordered(s, p, q) && (e.Send? || e.SendInProcess?)
    ensures Ordered(Step(s, e), p, q) && Balance(Step(s, e), p, q) == Balance(s, p, q)
  {
    var s' := Step(s, e);
    assert s'.closed == s.closed && s'.file == s.file && s'.last == s.last;
    assert e.Send? ==> At(s'.writer, p, q) - At(s.writer, p, q) == At(s'.everSent, p, q) - At(s.everSent, p, q) >= 0;
    assert e.SendInProcess? ==>
      At(s'.current, p, q) - At(s.current, p, q) == At(s'.inProcess, p, q) - At(s.inProcess, p, q);
    hide Step, WellSized, ClosedAt;
  }

  lemma {:induction false} PublishBalance(s: Sys, e: Event, p: nat, q: nat)
    requires WellSized(s) && p < s.planes && q < s.paths && Ordered(s, p, q) && e.Publish?
    ensures Ordered(Step(s, e), p, q) && Balance(Step(s, e), p, q) == Balance(s, p, q) + LostBy(s, e, p, q)
  {
    hide WellSized, ClosedAt, At;
  }

  lemma {:induction false} RestartBalance(s: Sys, p: nat, q: nat)
    requires WellSized(s) && p < s.planes && q < s.paths && Ordered(s, p, q)
    ensures Ordered(Step(s, Restart), p, q)
    ensures Balance(Step(s, Restart), p, q) == Balance(s, p, q) + LostBy(s, Restart, p, q)
  {
    assert At(Step(s, Restart).writer, p, q) == 0;
    hide WellSized, ClosedAt, At;
  }

  lemma {:induction false} RotateBalance(s: Sys, e: Event, p: nat, q: nat)
    requires WellSized(s) && p < s.planes && q < s.paths && Ordered(s, p, q) && e.Rotate?
    ensures Ordered(Step(s, e), p, q) && Balance(Step(s, e), p, q) == Balance(s, p, q) + LostBy(s, e, p, q)
  {
    RotateCell(s, e.readable, p, q);
    hide Fused, At, WellSized;
  }

  /**
    Every packet is accounted for.  Over every run, restarts included, what was sent on a cell is what
    its windows hold, what the current file and the current sender can still bring, and exactly the
    packets Lost counts.
   */
  lemma {:induction false} EveryPacketAccounted(s: Sys, es: seq<Event>, p: nat, q: nat)
    requires WellSized(s) && p < s.planes && q < s.paths && Ordered(s, p, q)
    ensures Ordered(Run(s, es), p, q)
    ensures Balance(Run(s, es), p, q) == Balance(s, p, q) + Lost(s, es, p, q)
    decreases |es|
  {
    if es != [] {
      StepBalance(s, es[0], p, q);
      hide Step, Balance, LostBy, Ordered, WellSized;
      EveryPacketAccounted(Step(s, es[0]), es[1..], p, q);
    }
  }

  /**
    From the start: no cell's fused total ever exceeds what was really sent on it by all lives of the
    sender together, and once everything is published and read it falls short by exactly the packets
    lost at restarts, so by none when every restart is clean (see NothingLostIffCleanRestarts).
   */
  lemma {:induction false} NeverOvercounts(planes: nat, paths: nat, es: seq<Event>, p: nat, q: nat)
    requires p < planes && q < paths
    ensures WellSized(Init(planes, paths))
    ensures var s := Run(Init(planes, paths), es);
      && Fused(s, p, q) <= At(s.inProcess, p, q) + At(s.everSent, p, q)
      && (Pending(s, p, q) == 0 && Surplus(s, p, q) == 0 ==>
            At(s.inProcess, p, q) + At(s.everSent, p, q) - Fused(s, p, q) == Lost(Init(planes, paths), es, p, q))
  {
    InitConserved(planes, paths, p, q);
    EveryPacketAccounted(Init(planes, paths), es, p, q);
  }

  /** A restart that loses nothing: all was published, and all published was read before the new life's. */
  ghost predicate CleanRestarts(s: Sys, es: seq<Event>, p: nat, q: nat)
    requires WellSized(s)
    decreases |es|
  {
    es == [] ||
    (&& (es[0] == Restart ==> Surplus(s, p, q) == 0)
     && (es[0].Publish? && es[0].writable && s.file.Some? && s.fileLife != s.writerLife ==> Pending(s, p, q) == 0)
     && (es[0].Rotate? && es[0].readable && s.file.Some? && s.last.Some? && s.lastLife != s.fileLife ==>
           OptAt(s.file, p, q) < OptAt(s.last, p, q) || OptAt(s.last, p, q) == 0)
     && CleanRestarts(Step(s, es[0]), es[1..], p, q))
  }

  /** Nothing of a cell is lost exactly when every restart is clean for it. */
  lemma {:induction false} NothingLostIffCleanRestarts(s: Sys, es: seq<Event>, p: nat, q: nat)
    requires WellSized(s)
    ensures Lost(s, es, p, q) == 0 <==> CleanRestarts(s, es, p, q)
    decreases |es|
  {
    if es != [] {
      NothingLostIffCleanRestarts(Step(s, es[0]), es[1..], p, q);
      hide Step, Surplus, WellSized;
    }
  }

  /**
    The exact condition: once everything is published and read, the windows of a cell hold every packet
    sent on it, in process and by all lives of the sender, if and only if every restart was clean.
   */
  lemma {:induction false} FusedIsSentIffCleanRestarts(planes: nat, paths: nat, es: seq<Event>, p: nat, q: nat)
    requires p < planes && q < paths
    ensures WellSized(Init(planes, paths))
    ensures var s := Run(Init(planes, paths), es);
      Pending(s, p, q) == 0 && Surplus(s, p, q) == 0 ==>
        (Fused(s, p, q) == At(s.inProcess, p, q) + At(s.everSent, p, q) <==>
           CleanRestarts(Init(planes, paths), es, p, q))
  {
    NeverOvercounts(planes, paths, es, p, q);
    NothingLostIffCleanRestarts(Init(planes, paths), es, p, q);
  }

  /** One packet sent, published and read. */
  function OneLife(p: nat, q: nat): seq<Event> { [Send(p, q), Publish(true), Rotate(true)] }

  /** A restart that catches up unseen: one packet in each of two lives, all read, and only one fused. */
  lemma {:induction false} RestartHidesAPacket(planes: nat, paths: nat, p: nat, q: nat)
    requires p < planes && q < paths
    ensures WellSized(Init(planes, paths))
    ensures var s := Run(Step(Run(Init(planes, paths), OneLife(p, q)), Restart), OneLife(p, q));
      Fused(s, p, q) == 1 && At(s.everSent, p, q) == 2 && Pending(s, p, q) == 0 && Surplus(s, p, q) == 0
  {
    var s := Init(planes, paths);
    InitConserved(planes, paths, p, q);
    LifeOnCell(s, p, q);
    var t := Step(Run(s, OneLife(p, q)), Restart);
    assert At(t.writer, p, q) == 0;
    LifeOnCell(t, p, q);
  }

  /** What one life adds to a cell whose writer starts at zero. */
  lemma {:induction false} LifeOnCell(s: Sys, p: nat, q: nat)
    requires WellSized(s) && p < s.planes && q < s.paths && At(s.writer, p, q) == 0
    ensures var s' := Run(s, OneLife(p, q));
      && s'.planes == s.planes && s'.paths == s.paths && s'.writerLife == s'.fileLife == s'.lastLife == s.writerLife
      && s'.file.Some? && s'.last == s'.file && At(s'.file.value, p, q) == At(s'.writer, p, q) == 1
      && Fused(s', p, q) == Fused(s, p, q) + CellDelta(1, OptAt(s.last, p, q))
      && At(s'.everSent, p, q) == At(s.everSent, p, q) + 1
  {
    var s1 := Step(s, Send(p, q));
    var s2 := Step(s1, Publish(true));
    RotateCell(s2, true, p, q);
    assert At(s1.writer, p, q) == 1 && At(s1.everSent, p, q) == At(s.everSent, p, q) + 1;
    assert Fused(s2, p, q) == Fused(s, p, q);
    RunCons(s, Send(p, q), [Publish(true), Rotate(true)]);
    RunCons(s1, Publish(true), [Rotate(true)]);
    RunCons(s2, Rotate(true), []);
    assert [Rotate(true)] + [] == [Rotate(true)] && [Publish(true)] + [Rotate(true)] == [Publish(true), Rotate(true)];
    assert [Send(p, q)] + [Publish(true), Rotate(true)] == OneLife(p, q);
  }

  lemma {:induction false} RunCons(s: Sys, e: Event, es: seq<Event>)
    requires WellSized(s)
    ensures Run(s, [e] + es) == Run(Step(s, e), es)
  {
    assert ([e] + es)[1..] == es;
  }

  // ---------------------------------------------------------------- the objects run the machine

  lemma {:induction false} RunSnoc(s: Sys, es: seq<Event>, e: Event)
    requires WellSized(s)
    ensures Run(s, es + [e]) == Step(Run(s, es), e)
    decreases |es|
  {
    hide Step, WellSized;
    if es == [] {
      assert ([] + [e])[1..] == [];
    } else {
      assert (es + [e])[1..] == es[1..] + [e];
      RunSnoc(Step(s, es[0]), es[1..], e);
    }
  }

  /** The objects' fields are the machine's. */
  ghost predicate Mirrors(s: Sys, w: SentCounterWriter, r: SentCounterReader, k: WindowKeeper, file: Option<Counts>)
    reads w, r, k, k.ring
  {
    && WellSized(s) && w.Valid() && r.Valid() && k.Valid()
    && w.planes == r.planes == k.planes == s.planes && w.paths == r.paths == k.paths == s.paths
    && w.sent == s.writer && file == s.file && r.last == s.last && k.current == s.current
  }

  /** A rotation: read the file's delta, close the window with it. */
  method RotateOnce(ghost s: Sys, readable: bool, r: SentCounterReader, k: WindowKeeper, file: Option<Counts>, now: int)
    returns (closed: Counts)
    requires WellSized(s) && r.Valid() && k.Valid() && r.planes == k.planes == s.planes && r.paths == k.paths == s.paths
    requires file == s.file && r.last == s.last && k.current == s.current
    modifies r, k, k.ring
    ensures r.Valid() && k.Valid()
    ensures var s' := Step(s, Rotate(readable));
      r.last == s'.last && k.current == s'.current && s'.closed == s.closed + [closed]
  {
    var view := if file == None then NoFile else if !readable then Unreadable else Parsed(file.value);
    var delta := r.ReadDelta(view);
    var window := k.RotateWindow(delta, now);
    closed := window.sent;
  }

  /** One event on the objects; a restart makes a new writer. */
  method Act(ghost s: Sys, e: Event, w: SentCounterWriter, r: SentCounterReader, k: WindowKeeper,
             file: Option<Counts>, closed: seq<Counts>)
    returns (w': SentCounterWriter, file': Option<Counts>, closed': seq<Counts>)
    requires Mirrors(s, w, r, k, file) && closed == s.closed
    modifies w, r, k, k.ring
    ensures w' == w || fresh(w')
    ensures Mirrors(Step(s, e), w', r, k, file') && closed' == Step(s, e).closed
  {
    w', file', closed' := w, file, closed;
    match e
    case Send(p, q) => w.Record(p, q);
    case SendInProcess(p, q) => k.RecordSent(p, q);
    case Publish(writable) => file' := w.Publish(file, writable);
    case Rotate(readable) =>
      var window := RotateOnce(s, readable, r, k, file, 0);
      closed' := closed + [window];
    case Restart => w' := new SentCounterWriter(w.planes, w.paths);
  }

  /**
    The writer, reader and window objects run the machine: after any sequence of events their fields
    and the windows closed on the way are those of Run, so what is proved of it is about them.
   */
  method RunObjects(planes: nat, paths: nat, es: seq<Event>)
    returns (written: Counts, file: Option<Counts>, last: Option<Counts>, open: Counts, closed: seq<Counts>)
    requires planes > 0 && paths > 0
    ensures var s := Run(Init(planes, paths), es);
      written == s.writer && file == s.file && last == s.last && open == s.current && closed == s.closed
  {
    var w := new SentCounterWriter(planes, paths);
    var r := new SentCounterReader(planes, paths);
    var ring := new SentWindowRing(planes, paths, 16);
    var k := new WindowKeeper(planes, paths, ring, 0);
    file, closed := None, [];
    ghost var s := Init(planes, paths);
    assert es[..0] == [];
    assert Mirrors(s, w, r, k, file);
    hide Step, WellSized, Init;
    for i := 0 to |es|
      invariant fresh(w) && fresh(r) && fresh(k) && fresh(k.ring)
      invariant s == Run(Init(planes, paths), es[..i])
      invariant Mirrors(s, w, r, k, file) && closed == s.closed
    {
      assert es[..i + 1] == es[..i] + [es[i]];
      RunSnoc(Init(planes, paths), es[..i], es[i]);
      w, file, closed := Act(s, es[i], w, r, k, file, closed);
      s := Step(s, es[i]);
    }
    assert es[..|es|] == es;
    written, last, open := w.sent, r.last, k.current;
  }
}
