/** The worker, the durable store and crashes, over every run. */
module DurableProtocol {
  // One state machine; runs mix opens, operations, aborts, crashes and reopens.

  import opened BrowserHost

  /** The store, the worker that owns it, and two facts kept for the statements: what was last
      acknowledged, and the one operation whose record may or may not have become durable. */
  datatype World<E> = World(
    disk: Option<Record<E>>, worker: Option<Machine<E>>,
    acked: Option<Saved<E>>, inFlight: Option<(Request, Saved<E>)>)

  datatype Event =
    | Start
    | Crash
    | VersionChange
    | Deliver(message: Message)
    | Load
    | Commit
    | Abort
    | Resume

  function InitialWorld<E>(): World<E> {
    World(None, None, None, None)
  }

  /** The operation a message puts in flight, when it starts a write. */
  function NewFlight<E>(m: Message, s: Machine<E>, before: Option<(Request, Saved<E>)>): Option<(Request, Saved<E>)> {
    if m.Operate? && s.phase.Writing? then Some((m.request, s.phase.record.saved)) else before
  }

  predicate Enabled<E>(w: World<E>, e: Event) {
    match e
    case Start => w.worker.None?
    case Crash => w.worker.Some?
    case VersionChange => w.worker.Some?
    case Deliver(_) => w.worker.Some?
    case Load => w.worker.Some? && w.worker.value.phase.Opening?
    case Commit => w.worker.Some? && w.worker.value.phase.Writing?
    case Abort => w.worker.Some? && (w.worker.value.phase.Opening? || w.worker.value.phase.Writing?)
    case Resume => w.worker.Some? && w.worker.value.phase.Written?
  }

  /** One step: a segment of the worker, a decision of the store, or a crash. */
  function Next<E>(host: Host<E>, w: World<E>, e: Event): World<E>
    requires Enabled(w, e)
  {
    match e
    case Start => w.(worker := Some(Fresh()))
    case Crash => w.(worker := None)
    case VersionChange => w.(worker := Some(w.worker.value.(poisoned := true)))
    case Deliver(m) =>
      // a busy or poisoned worker leaves its write as it is
      var s := Receive(host, w.worker.value, m).0;
      var started := w.worker.value.phase.Idle?;
      w.(worker := Some(s), inFlight := if started then NewFlight(m, s, w.inFlight) else w.inFlight)
    case Load => w.(worker := Some(Loaded(host, w.worker.value, w.disk).0))
    case Commit =>
      var s := w.worker.value;
      w.(disk := Some(s.phase.record), worker := Some(s.(phase := Written(s.phase.record, s.phase.opening))))
    case Abort => w.(worker := Some(Poison(w.worker.value)))
    case Resume =>
      var s := w.worker.value;
      w.(worker := Some(Confirmed(s)), acked := Some(s.phase.record.saved), inFlight := None)
  }

  /** A run: a world before every event and after the last one. */
  ghost predicate Run<E>(host: Host<E>, ws: seq<World<E>>, es: seq<Event>) {
    && |ws| == |es| + 1 && ws[0] == InitialWorld()
    && forall i | 0 <= i < |es| :: Enabled(ws[i], es[i]) && ws[i + 1] == Next(host, ws[i], es[i])
  }

  // ----- the invariant -----

  predicate Distinct(journal: seq<Entry>) {
    forall i, j | 0 <= i < j < |journal| :: journal[i] != journal[j]
  }

  predicate GoodJournal(journal: seq<Entry>) {
    |journal| <= MAX_ARTIFACTS && Distinct(journal)
  }

  function DiskGeneration<E>(disk: Option<Record<E>>): nat {
    if disk.Some? then disk.value.generation else 0
  }

  /** The journal with an artifact in it: where it was, or at the end. */
  function With(journal: seq<Entry>, entry: Entry): seq<Entry> {
    if entry in journal then journal else journal + [entry]
  }

  /** What the journal is once the engine took a request: every installed artifact is in it. */
  function Journaled(journal: seq<Entry>, r: Request): seq<Entry> {
    match r
    case InstallActor(config) => With(journal, Actor(config))
    case InstallHandler(config, sdk) => With(journal, Handler(config, sdk))
    case RetainSdk(sdk) => With(journal, Sdk(sdk))
    case Call(_) => journal
    case OtherKind => journal
  }

  /** `saved` is what one operation makes of `from`. */
  predicate OneOperation<E(==)>(host: Host<E>, from: Saved<E>, r: Request, saved: Saved<E>) {
    var out := host.apply(from.engine, r);
    saved == Saved(out.engine, if out.ok then Journaled(from.journal, r) else from.journal)
  }

  /** What is durable is what was acknowledged, or that and the one operation in flight. */
  predicate Recoverable<E(==)>(w: World<E>) {
    w.acked.Some? ==>
      && w.disk.Some?
      && (w.disk.value.saved == w.acked.value
          || (w.inFlight.Some? && w.disk.value.saved == w.inFlight.value.1))
  }

  predicate FlightIsOne<E(==)>(host: Host<E>, w: World<E>) {
    w.inFlight.Some? ==> w.acked.Some? && OneOperation(host, w.acked.value, w.inFlight.value.0, w.inFlight.value.1)
  }

  predicate DiskGood<E(==)>(w: World<E>) {
    && (w.disk.Some? ==> GoodJournal(w.disk.value.saved.journal) && w.disk.value.generation >= 1)
    && (w.disk.None? ==> w.acked.None? && w.inFlight.None?)
  }

  /** A session that can take requests agrees with the store. */
  predicate SessionGood<E(==)>(w: World<E>, s: Machine<E>) {
    && w.disk.Some? && w.inFlight.None?
    && s.engine == Some(w.disk.value.saved.engine) && s.journal == w.disk.value.saved.journal
    && s.generation == w.disk.value.generation
    && w.acked == Some(w.disk.value.saved)
  }

  predicate WriteGood<E(==)>(w: World<E>, s: Machine<E>, record: Record<E>, opening: bool) {
    && record.generation == DiskGeneration(w.disk) + 1 && GoodJournal(record.saved.journal)
    && s.engine == Some(record.saved.engine)
    && (opening ==> w.disk.Some? ==> record.saved == w.disk.value.saved)
    && (!opening ==>
          && w.disk.Some? && w.acked == Some(w.disk.value.saved)
          && w.inFlight.Some? && w.inFlight.value.1 == record.saved
          && w.disk.value.saved.journal <= record.saved.journal)
  }

  predicate WrittenGood<E(==)>(w: World<E>, s: Machine<E>, record: Record<E>, opening: bool) {
    && w.disk == Some(record) && s.engine == Some(record.saved.engine)
    && (!opening ==> w.acked.Some? && w.inFlight.Some? && w.inFlight.value.1 == record.saved)
  }

  predicate WorkerGood<E(==)>(w: World<E>, s: Machine<E>) {
    match s.phase
    case Idle =>
      && (!s.poisoned && s.initialized ==> SessionGood(w, s))
      && (!s.poisoned && !s.initialized ==> s == Fresh())
    case Opening(_) => !s.initialized && s.engine.None? && s.journal == [] && s.generation == 0
    case Writing(record, opening) => WriteGood(w, s, record, opening) && (!opening ==> s.initialized)
    case Written(record, opening) => WrittenGood(w, s, record, opening) && (!opening ==> s.initialized)
  }

  predicate Inv<E(==)>(host: Host<E>, w: World<E>) {
    && DiskGood(w) && Recoverable(w) && FlightIsOne(host, w)
    && (w.worker.Some? ==> WorkerGood(w, w.worker.value))
  }

  lemma ExtendedGood(journal: seq<Entry>, r: Request)
    requires GoodJournal(journal)
    ensures Extended(journal, r) == journal || |journal| < MAX_ARTIFACTS ==> GoodJournal(Extended(journal, r))
    ensures journal <= Extended(journal, r)
  {
  }

  lemma OperateKeeps<E(!new)>(host: Host<E>, w: World<E>, r: Request)
    requires Fences(host) && Inv(host, w) && w.worker.Some?
    requires var s := w.worker.value; s.phase.Idle? && !s.poisoned && !Preflight(host, s, r)
    ensures Inv(host, Next(host, w, Deliver(Operate(r))))
  {
    var s := w.worker.value;
    assert SessionGood(w, s);
    ExtendedGood(s.journal, r);
    var out := host.apply(s.engine.value, r);
    if !out.poisoned && !out.fence { assert out.engine == s.engine.value; }
  }

  /** Every step keeps the invariant. */
  lemma StepKeeps<E(!new)>(host: Host<E>, w: World<E>, e: Event)
    requires Fences(host) && Inv(host, w) && Enabled(w, e)
    ensures Inv(host, Next(host, w, e))
  {
    match e
    case Deliver(m) =>
      var s := w.worker.value;
      if !s.poisoned && s.phase.Idle? && m.Operate? && !Preflight(host, s, m.request) {
        OperateKeeps(host, w, m.request);
      }
    case _ =>
  }

  lemma {:induction false} RunKeeps<E(!new)>(host: Host<E>, ws: seq<World<E>>, es: seq<Event>, k: nat)
    requires Fences(host) && Run(host, ws, es) && k < |ws|
    ensures Inv(host, ws[k])
  {
    hide Inv, Next, Enabled;
    if k == 0 { InitialGood(host); } else {
      RunKeeps(host, ws, es, k - 1);
      StepKeeps(host, ws[k - 1], es[k - 1]);
    }
  }

  lemma InitialGood<E>(host: Host<E>)
    ensures Inv(host, InitialWorld())
  {
  }

  // ----- what every run guarantees -----

  /** `saved` is what the operation in flight makes of `from`. */
  predicate FlightLands<E(==)>(host: Host<E>, w: World<E>, from: Saved<E>, saved: Saved<E>) {
    w.inFlight.Some? && saved == w.inFlight.value.1 && OneOperation(host, from, w.inFlight.value.0, saved)
  }

  /** At every moment of every run the store holds the last acknowledged state, or that state with
      the single operation in flight applied to it. So a crash loses no acknowledged operation. */
  lemma AcknowledgedIsDurable<E(!new)>(host: Host<E>, ws: seq<World<E>>, es: seq<Event>, k: nat)
    requires Fences(host) && Run(host, ws, es) && k < |ws| && ws[k].acked.Some?
    ensures ws[k].disk.Some?
    ensures
      var saved, acked := ws[k].disk.value.saved, ws[k].acked.value;
      saved == acked || FlightLands(host, ws[k], acked, saved)
  {
    RunKeeps(host, ws, es, k);
  }

  /** The request was delivered before step `k`, and nothing was acknowledged since. */
  predicate SentAt(es: seq<Event>, j: nat, k: nat, r: Request)
    requires k <= |es|
  {
    j < k && es[j] == Deliver(Operate(r)) && forall i | j < i < k :: es[i] != Resume
  }

  /** What is in flight is a request that a client sent, after the last acknowledgement: no effect
      comes from anywhere else, and none is applied again once it is acknowledged. */
  lemma {:induction false} FlightWasSent<E(!new)>(host: Host<E>, ws: seq<World<E>>, es: seq<Event>, k: nat)
    requires Run(host, ws, es) && k <= |es| && ws[k].inFlight.Some?
    ensures exists j :: SentAt(es, j, k, ws[k].inFlight.value.0)
  {
    if k > 0 {
      var r := ws[k].inFlight.value.0;
      FlightStep(host, ws[k - 1], es[k - 1]);
      assert ws[k] == Next(host, ws[k - 1], es[k - 1]);
      if es[k - 1] == Deliver(Operate(r)) {
        assert SentAt(es, k - 1, k, r);
      } else {
        FlightWasSent(host, ws, es, k - 1);
        var j :| SentAt(es, j, k - 1, r);
        assert SentAt(es, j, k, r);
      }
    }
  }

  lemma FlightStep<E(!new)>(host: Host<E>, w: World<E>, e: Event)
    requires Enabled(w, e) && Next(host, w, e).inFlight.Some?
    ensures
      var after := Next(host, w, e).inFlight;
      e == Deliver(Operate(after.value.0)) || (after == w.inFlight && e != Resume)
  {
  }

  /** Right after an acknowledgement the store holds exactly what was acknowledged. */
  lemma ResumeIsDurable<E(!new)>(host: Host<E>, ws: seq<World<E>>, es: seq<Event>, k: nat)
    requires Fences(host) && Run(host, ws, es) && k < |es| && es[k] == Resume
    ensures ws[k + 1].disk.Some? && ws[k + 1].acked == Some(ws[k + 1].disk.value.saved)
  {
    RunKeeps(host, ws, es, k);
  }

  /** A session that takes requests shows exactly the acknowledged state, which is the durable one,
      under the durable generation. */
  lemma SessionIsAcknowledged<E(!new)>(host: Host<E>, ws: seq<World<E>>, es: seq<Event>, k: nat)
    requires Fences(host) && Run(host, ws, es) && k < |ws| && ws[k].worker.Some?
    requires var s := ws[k].worker.value; s.initialized && !s.poisoned && s.phase.Idle?
    ensures
      var s := ws[k].worker.value;
      && ws[k].disk.Some? && s.engine.Some? && ws[k].acked == Some(ws[k].disk.value.saved)
      && ws[k].disk.value == Record(s.generation, Saved(s.engine.value, s.journal))
  {
    RunKeeps(host, ws, es, k);
  }

  /** Reopening brings back the last acknowledged state or that with the one operation in flight. */
  lemma ReopenedState<E(!new)>(host: Host<E>, ws: seq<World<E>>, es: seq<Event>, k: nat)
    requires Fences(host) && Run(host, ws, es) && k < |es| && es[k] == Load && ws[k].acked.Some?
    requires !ws[k + 1].worker.value.poisoned
    ensures
      var s, acked := ws[k + 1].worker.value, ws[k].acked.value;
      && s.phase.Writing?
      && (s.phase.record.saved == acked || FlightLands(host, ws[k], acked, s.phase.record.saved))
  {
    RunKeeps(host, ws, es, k);
    AcknowledgedIsDurable(host, ws, es, k);
  }

  /** How often the store was written in the first `k` steps. */
  function Writes(es: seq<Event>, k: nat): nat
    requires k <= |es|
  {
    if k == 0 then 0 else Writes(es, k - 1) + if es[k - 1].Commit? then 1 else 0
  }

  /** The generation counts the durable writes, one by one. */
  lemma {:induction false} GenerationCountsWrites<E(!new)>(host: Host<E>, ws: seq<World<E>>, es: seq<Event>, k: nat)
    requires Fences(host) && Run(host, ws, es) && k <= |es|
    ensures DiskGeneration(ws[k].disk) == Writes(es, k)
  {
    if k > 0 {
      GenerationCountsWrites(host, ws, es, k - 1);
      RunKeeps(host, ws, es, k - 1);
    }
  }

  function DiskJournal<E>(w: World<E>): seq<Entry> {
    if w.disk.Some? then w.disk.value.saved.journal else []
  }

  lemma JournalStep<E(!new)>(host: Host<E>, w: World<E>, e: Event)
    requires Inv(host, w) && Enabled(w, e)
    ensures DiskJournal(w) <= DiskJournal(Next(host, w, e))
  {
  }

  /** The durable journal only extends, holds no entry twice and never more than sixteen. */
  lemma {:induction false} JournalOnlyExtends<E(!new)>(host: Host<E>, ws: seq<World<E>>, es: seq<Event>, i: nat, k: nat)
    requires Fences(host) && Run(host, ws, es) && i <= k <= |es|
    ensures DiskJournal(ws[i]) <= DiskJournal(ws[k])
    ensures GoodJournal(DiskJournal(ws[k]))
    decreases k
  {
    RunKeeps(host, ws, es, k);
    if i < k {
      JournalOnlyExtends(host, ws, es, i, k - 1);
      RunKeeps(host, ws, es, k - 1);
      JournalStep(host, ws[k - 1], es[k - 1]);
    }
  }

  /** The store changes only by a commit, and then by nothing or by exactly one operation, which was
      sent and not acknowledged before: no update is lost, invented or applied again. */
  lemma DurableHistory<E(!new)>(host: Host<E>, ws: seq<World<E>>, es: seq<Event>, k: nat)
    requires Fences(host) && Run(host, ws, es) && k < |es| && ws[k].disk.Some?
    ensures ws[k + 1].disk.Some?
    ensures
      var before, after := ws[k].disk.value, ws[k + 1].disk.value;
      if es[k].Commit? then
        && after.generation == before.generation + 1
        && (after.saved == before.saved
            || (FlightLands(host, ws[k], before.saved, after.saved)
                && exists j :: SentAt(es, j, k, ws[k].inFlight.value.0)))
      else after == before
  {
    RunKeeps(host, ws, es, k);
    if es[k].Commit? && ws[k + 1].disk.value.saved != ws[k].disk.value.saved {
      FlightWasSent(host, ws, es, k);
    }
  }

  /** A delivery the worker turns down before the engine is asked: poisoned, busy, or a request
      that fails preflight. */
  predicate TurnedDown<E>(host: Host<E>, w: World<E>, e: Event) {
    && e.Deliver? && w.worker.Some?
    && var s := w.worker.value;
       s.poisoned || !s.phase.Idle? || (e.message.Operate? && Preflight(host, s, e.message.request))
  }

  lemma TurnedDownStays<E(!new)>(host: Host<E>, w: World<E>, e: Event)
    requires Enabled(w, e) && TurnedDown(host, w, e)
    ensures Next(host, w, e) == w
  {
    hide Preflight;
  }

  /** Engine, journal, session and store are as if the request had never been sent: without the
      delivery the run goes on through the same worlds. */
  lemma RefusalChangesNothing<E(!new)>(host: Host<E>, ws: seq<World<E>>, es: seq<Event>, k: nat)
    requires Run(host, ws, es) && k < |es| && TurnedDown(host, ws[k], es[k])
    ensures Run(host, ws[..k] + ws[k + 1..], es[..k] + es[k + 1..])
  {
    hide Next, TurnedDown;
    TurnedDownStays(host, ws[k], es[k]);
    var vs, fs := ws[..k] + ws[k + 1..], es[..k] + es[k + 1..];
    assert ws[k + 1] == ws[k];
    forall i | 0 <= i < |fs| ensures Enabled(vs[i], fs[i]) && vs[i + 1] == Next(host, vs[i], fs[i]) {
      var j := if i < k then i else i + 1;
      assert vs[i] == ws[j] && fs[i] == es[j] && vs[i + 1] == ws[j + 1];
    }
  }

  /** The worlds and events of a run without the deliveries that were turned down. */
  function Heeded<E>(host: Host<E>, ws: seq<World<E>>, es: seq<Event>): (seq<World<E>>, seq<Event>)
    requires |ws| == |es| + 1
    decreases |es|
  {
    if es == [] then (ws, es) else
      var n := |es| - 1;
      var (vs, fs) := Heeded(host, ws[..n + 1], es[..n]);
      if TurnedDown(host, ws[n], es[n]) then (vs, fs) else (vs + [ws[n + 1]], fs + [es[n]])
  }

  /** Whatever else was sent, a run ends as it would with the heeded messages alone. */
  lemma {:induction false} HeededRun<E(!new)>(host: Host<E>, ws: seq<World<E>>, es: seq<Event>)
    requires Run(host, ws, es)
    ensures
      var (vs, fs) := Heeded(host, ws, es);
      && Run(host, vs, fs) && vs[|fs|] == ws[|es|]
      && forall i | 0 <= i < |fs| :: !TurnedDown(host, vs[i], fs[i])
    decreases |es|
  {
    hide Next, TurnedDown, Enabled;
    if es != [] {
      var n := |es| - 1;
      assert Enabled(ws[n], es[n]);
      HeededRun(host, ws[..n + 1], es[..n]);
      if TurnedDown(host, ws[n], es[n]) { TurnedDownStays(host, ws[n], es[n]); }
    }
  }

  /** Once poisoned a worker never asks the engine or writes a new record again. */
  lemma PoisonIsFinal<E(!new)>(host: Host<E>, w: World<E>, e: Event)
    requires Enabled(w, e) && w.worker.Some? && w.worker.value.poisoned && Next(host, w, e).worker.Some?
    ensures
      var s, t := w.worker.value, Next(host, w, e).worker.value;
      t.poisoned && t.engine == s.engine && (t.phase.Writing? ==> t.phase == s.phase)
  {
  }

  // ----- what an acknowledged request leaves behind -----

  /** The write a delivery started is still the one the worker is about, or it was given up. */
  predicate StillWriting<E(==)>(w: World<E>, record: Record<E>) {
    && w.worker.Some?
    && var s := w.worker.value;
       || s.phase == Writing(record, false)
       || (s.phase == Written(record, false) && w.disk == Some(record))
       || (s.phase.Idle? && s.poisoned)
  }

  lemma StillWritingStep<E(!new)>(host: Host<E>, w: World<E>, e: Event, record: Record<E>)
    requires Enabled(w, e) && StillWriting(w, record) && e != Crash && e != Resume
    ensures StillWriting(Next(host, w, e), record)
  {
  }

  lemma {:induction false} WriteGoesOn<E(!new)>(host: Host<E>, ws: seq<World<E>>, es: seq<Event>, j: nat, k: nat,
                                                record: Record<E>)
    requires Run(host, ws, es) && j < k < |ws| && StillWriting(ws[j + 1], record)
    requires forall i | j < i < k :: es[i] != Resume && es[i] != Crash
    ensures StillWriting(ws[k], record)
    decreases k
  {
    hide Next, Enabled, StillWriting;
    if j + 1 < k {
      WriteGoesOn(host, ws, es, j, k - 1, record);
      assert Enabled(ws[k - 1], es[k - 1]) && ws[k] == Next(host, ws[k - 1], es[k - 1]);
      StillWritingStep(host, ws[k - 1], es[k - 1], record);
    }
  }

  /** A request that an idle worker received started a write, and the first acknowledgement after it
      answers that request. */
  ghost predicate Acknowledges<E(!new)>(ws: seq<World<E>>, es: seq<Event>, j: nat, k: nat, r: Request)
    requires |ws| == |es| + 1
  {
    && j < k < |es| && es[j] == Deliver(Operate(r)) && es[k] == Resume
    && (forall i | j < i < k :: es[i] != Resume && es[i] != Crash)
    && ws[j].worker.Some? && ws[j].worker.value.phase.Idle?
    && ws[j + 1].worker.Some? && ws[j + 1].worker.value.phase.Writing?
  }

  /** What the worker hands to the store for a request. */
  lemma RequestWrites<E(!new)>(host: Host<E>, w: World<E>, r: Request)
    requires Inv(host, w) && Enabled(w, Deliver(Operate(r))) && w.worker.value.phase.Idle?
    requires Next(host, w, Deliver(Operate(r))).worker.value.phase.Writing?
    ensures w.disk.Some?
    ensures
      var (saved, s) := (w.disk.value.saved, Next(host, w, Deliver(Operate(r))).worker.value);
      var out := host.apply(saved.engine, r);
      && out.fence && !out.poisoned && !s.phase.opening
      && OneOperation(host, saved, r, s.phase.record.saved)
  {
    assert SessionGood(w, w.worker.value);
  }

  /** After the acknowledgement of a request the store holds what the engine made of it. An installed
      actor, an installed handler or a retained SDK that the engine took is in the durable journal,
      after all that was there before; a call, or a request the engine refused, adds nothing. */
  lemma AcknowledgedRequest<E(!new)>(host: Host<E>, ws: seq<World<E>>, es: seq<Event>, j: nat, k: nat, r: Request)
    requires Fences(host) && Run(host, ws, es) && Acknowledges(ws, es, j, k, r)
    ensures ws[j].disk.Some? && ws[k + 1].disk.Some?
    ensures
      var (before, after) := (ws[j].disk.value.saved, ws[k + 1].disk.value.saved);
      var out := host.apply(before.engine, r);
      && out.fence && after.engine == out.engine && before.journal <= after.journal
      && (r.InstallActor? && out.ok ==>
            Actor(r.config) in after.journal && after.journal == With(before.journal, Actor(r.config)))
      && (r.InstallHandler? && out.ok ==>
            Handler(r.config, r.sdk) in after.journal && after.journal == With(before.journal, Handler(r.config, r.sdk)))
      && (r.RetainSdk? && out.ok ==> Sdk(r.sdk) in after.journal && after.journal == With(before.journal, Sdk(r.sdk)))
      && (r.Call? || !out.ok ==> after.journal == before.journal)
  {
    RunKeeps(host, ws, es, j);
    assert Enabled(ws[j], es[j]) && ws[j + 1] == Next(host, ws[j], es[j]);
    RequestWrites(host, ws[j], r);
    hide Inv, Receive, Next, Fences;
    var record := ws[j + 1].worker.value.phase.record;
    WriteGoesOn(host, ws, es, j, k, record);
    assert Enabled(ws[k], es[k]) && ws[k + 1] == Next(host, ws[k], es[k]);
    ResumeKeepsDisk(host, ws[k]);
  }

  lemma ResumeKeepsDisk<E(!new)>(host: Host<E>, w: World<E>)
    requires Enabled(w, Resume)
    ensures Next(host, w, Resume).disk == w.disk
  {
  }

  // ----- which requests reach the engine -----

  /** A text within a limit in characters and in bytes that decodes to itself. */
  predicate Within<E>(host: Host<E>, raw: string, limit: nat) {
    |raw| <= limit && host.utf8(raw) <= limit && host.decodable(raw)
  }

  /** The artifact is journaled already, or there is room: fewer than sixteen, and 8 MiB. */
  predicate Room<E>(host: Host<E>, journal: seq<Entry>, entry: Entry) {
    entry in journal || (|journal| < 16 && host.journalBytes(journal + [entry]) <= 8 * 1024 * 1024)
  }

  /** An opened, idle worker asks the engine exactly about well-formed requests within their limits
      whose artifact the journal has room for; everything else it refuses and stays as it is. */
  lemma AskedExactly<E(!new)>(host: Host<E>, s: Machine<E>, r: Request)
    requires s.initialized && s.engine.Some? && !s.poisoned && s.phase.Idle?
    ensures
      var asked := match r
        case Call(raw) => Within(host, raw, 16 * 1024 * 1024)
        case InstallHandler(config, sdk) =>
          Within(host, config, 256 * 1024) && Within(host, sdk, 16 * 1024 * 1024 + 4096)
          && Room(host, s.journal, Handler(config, sdk))
        case InstallActor(config) => Within(host, config, 2 * 1024 * 1024) && Room(host, s.journal, Actor(config))
        case RetainSdk(sdk) => Within(host, sdk, 16 * 1024 * 1024 + 4096) && Room(host, s.journal, Sdk(sdk))
        case OtherKind => false;
      && (asked <==> !Preflight(host, s, r))
      && (!asked ==> Receive(host, s, Operate(r)) == (s, Refused))
  {
  }

  // ----- what can go wrong at any moment -----

  /** A crash can come at any moment of a run with a worker; it takes the worker and leaves the store. */
  lemma CrashKeepsStore<E(!new)>(host: Host<E>, ws: seq<World<E>>, es: seq<Event>)
    requires Run(host, ws, es) && ws[|es|].worker.Some?
    ensures Run(host, ws + [ws[|es|].(worker := None)], es + [Crash])
  {
    Extend(host, ws, es, Crash, ws[|es|].(worker := None));
  }

  lemma Extend<E(!new)>(host: Host<E>, ws: seq<World<E>>, es: seq<Event>, e: Event, w: World<E>)
    requires Run(host, ws, es) && Enabled(ws[|es|], e) && w == Next(host, ws[|es|], e)
    ensures Run(host, ws + [w], es + [e])
  {
    hide Enabled, Next;
    var vs, fs := ws + [w], es + [e];
    forall i | 0 <= i < |fs| ensures Enabled(vs[i], fs[i]) && vs[i + 1] == Next(host, vs[i], fs[i]) {
      if i < |es| { assert vs[i] == ws[i] && vs[i + 1] == ws[i + 1] && fs[i] == es[i]; }
    }
  }

  /** A write that has not been stored, or an open that is still reading, can be aborted: the worker is
      poisoned and waits for nothing, and store and acknowledgements stay as they were. A write in flight
      can equally be stored, and only then be acknowledged. */
  lemma WriteCanFail<E(!new)>(host: Host<E>, ws: seq<World<E>>, es: seq<Event>)
    requires Run(host, ws, es) && ws[|es|].worker.Some?
    requires ws[|es|].worker.value.phase.Writing? || ws[|es|].worker.value.phase.Opening?
    ensures
      var (w, s) := (ws[|es|], ws[|es|].worker.value);
      && Run(host, ws + [w.(worker := Some(s.(poisoned := true, phase := Idle)))], es + [Abort])
      && (s.phase.Writing? ==>
            Run(host, ws + [w.(disk := Some(s.phase.record), worker := Some(s.(phase := Written(s.phase.record, s.phase.opening))))],
                es + [Commit]))
      && !Enabled(w, Resume)
  {
    var w, s := ws[|es|], ws[|es|].worker.value;
    Extend(host, ws, es, Abort, w.(worker := Some(s.(poisoned := true, phase := Idle))));
    if s.phase.Writing? {
      Extend(host, ws, es, Commit,
             w.(disk := Some(s.phase.record), worker := Some(s.(phase := Written(s.phase.record, s.phase.opening)))));
    }
  }
}
