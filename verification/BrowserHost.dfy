/** The browser host worker: one durable record, one owner at a time, persist before
    acknowledging, poison on doubt. Awaits are the points between segments, and a crash can come
    at any of them. */
module BrowserHost {

  datatype Option<T> = None | Some(value: T)

  /** An installed artifact the journal keeps. */
  datatype Entry = Handler(config: string, sdk: string) | Actor(config: string) | Sdk(sdk: string)

  /** What a client can ask of an opened session. */
  datatype Request =
    | Call(raw: string)
    | InstallHandler(config: string, sdk: string)
    | InstallActor(config: string)
    | RetainSdk(sdk: string)
    | OtherKind

  datatype Message = Open(create: bool, wellFormed: bool) | Operate(request: Request)

  /** What the engine says of one operation. */
  datatype Outcome<E> = Outcome(engine: E, ok: bool, fence: bool, poisoned: bool)

  /** The parts of the host this model does not open: the engine, the text codec, the sizes. */
  datatype Host<!E> = Host(
    apply: (E, Request) -> Outcome<E>, initial: E, opens: E -> bool, exports: E -> bool,
    imageBytes: E -> nat, utf8: string -> nat, decodable: string -> bool, journalBytes: seq<Entry> -> nat)

  const LIMIT := 8388608
  const REQUEST_LIMIT := 16777216
  const SDK_LIMIT := 16781312
  const HANDLER_LIMIT := 262144
  const ACTOR_LIMIT := 2097152
  const MIN_IMAGE := 100
  const MAX_ARTIFACTS := 16
  const MAX_GENERATION := 18446744073709551615

  /** Every operation that changes the engine asks for a fence. */
  ghost predicate Fences<E(!new)>(host: Host<E>) {
    forall e, r ::
      !host.apply(e, r).poisoned && !host.apply(e, r).fence ==> host.apply(e, r).engine == e
  }

  // ----- requests -----

  predicate Acceptable<E>(host: Host<E>, raw: string, limit: nat) {
    |raw| <= limit && host.utf8(raw) <= limit && host.decodable(raw)
  }

  predicate GoodRequest<E>(host: Host<E>, r: Request) {
    match r
    case Call(raw) => Acceptable(host, raw, REQUEST_LIMIT)
    case InstallHandler(config, sdk) => Acceptable(host, config, HANDLER_LIMIT) && Acceptable(host, sdk, SDK_LIMIT)
    case InstallActor(config) => Acceptable(host, config, ACTOR_LIMIT)
    case RetainSdk(sdk) => Acceptable(host, sdk, SDK_LIMIT)
    case OtherKind => false
  }

  function EntryOf(r: Request): Option<Entry> {
    match r
    case InstallHandler(config, sdk) => Some(Handler(config, sdk))
    case InstallActor(config) => Some(Actor(config))
    case RetainSdk(sdk) => Some(Sdk(sdk))
    case _ => None
  }

  /** The journal with the request's artifact, if it has a new one. */
  function Extended(journal: seq<Entry>, r: Request): seq<Entry> {
    var entry := EntryOf(r);
    if entry.Some? && entry.value !in journal then journal + [entry.value] else journal
  }

  predicate JournalFits<E>(host: Host<E>, journal: seq<Entry>, r: Request) {
    Extended(journal, r) == journal ||
      (|journal| < MAX_ARTIFACTS && host.journalBytes(Extended(journal, r)) <= LIMIT)
  }

  // ----- the worker -----

  /** What a durable record holds. */
  datatype Saved<E> = Saved(engine: E, journal: seq<Entry>)

  datatype Record<E> = Record(generation: nat, saved: Saved<E>)

  /** Where the worker waits. `Writing` has handed a record to the store; `Written` has it stored
      but has not heard. An opening write answers an open, another one answers a request. */
  datatype Phase<E> =
    | Idle
    | Opening(create: bool)
    | Writing(record: Record<E>, opening: bool)
    | Written(record: Record<E>, opening: bool)

  datatype Machine<E> = Machine(
    initialized: bool, poisoned: bool, generation: nat, journal: seq<Entry>, engine: Option<E>, phase: Phase<E>)

  datatype Reply = Refused | Poisoned | Busy | Done | Pending

  function Fresh<E>(): Machine<E> {
    Machine(false, false, 0, [], None, Idle)
  }

  /** Give up: nothing more is answered. */
  function Poison<E>(s: Machine<E>): Machine<E> {
    s.(poisoned := true, phase := Idle)
  }

  predicate Storable<E>(host: Host<E>, engine: E, journal: seq<Entry>, generation: nat) {
    && host.exports(engine) && host.imageBytes(engine) >= MIN_IMAGE
    && host.imageBytes(engine) + host.journalBytes(journal) <= LIMIT
    && generation + 1 <= MAX_GENERATION
  }

  /** Start writing the engine and a journal as the next generation, or give up. */
  function Persist<E>(host: Host<E>, s: Machine<E>, engine: E, pending: seq<Entry>, opening: bool): (Machine<E>, Reply) {
    var t := s.(engine := Some(engine));
    if Storable(host, engine, pending, s.generation)
    then (t.(phase := Writing(Record(s.generation + 1, Saved(engine, pending)), opening)), Pending)
    else (Poison(t), Refused)
  }

  /** A refusal before the engine is asked: nothing has changed and the session goes on. */
  predicate Preflight<E>(host: Host<E>, s: Machine<E>, r: Request) {
    !s.initialized || s.engine.None? || !GoodRequest(host, r) || !JournalFits(host, s.journal, r)
  }

  function Operated<E>(host: Host<E>, s: Machine<E>, r: Request): (Machine<E>, Reply)
    requires s.engine.Some?
  {
    var out := host.apply(s.engine.value, r);
    if out.poisoned then (Poison(s.(engine := Some(out.engine))), Refused)
    else if out.fence then
      Persist(host, s, out.engine, if out.ok then Extended(s.journal, r) else s.journal, false)
    else (s.(engine := Some(out.engine)), Done)
  }

  /** A message: refused, answered, or the start of a write. */
  function Receive<E>(host: Host<E>, s: Machine<E>, m: Message): (Machine<E>, Reply) {
    if s.poisoned then (s, Poisoned)
    else if !s.phase.Idle? then (s, Busy)
    else match m
      case Open(create, wellFormed) =>
        if s.initialized || s.engine.Some? || !wellFormed then (Poison(s), Refused)
        else (s.(phase := Opening(create)), Pending)
      case Operate(r) =>
        if Preflight(host, s, r) then (s, Refused) else Operated(host, s, r)
  }

  /** The store has been read: build the engine and write it back as the next generation. A version
      change closed the database, and then reading throws. */
  function Loaded<E>(host: Host<E>, s: Machine<E>, disk: Option<Record<E>>): (Machine<E>, Reply)
    requires s.phase.Opening?
  {
    if s.poisoned || s.phase.create != disk.None? then (Poison(s), Refused)
    else
      var engine := if disk.None? then host.initial else disk.value.saved.engine;
      var journal := if disk.None? then s.journal else disk.value.saved.journal;
      var generation := if disk.None? then s.generation else disk.value.generation;
      var t := s.(journal := journal, generation := generation, engine := Some(engine));
      if host.opens(engine) then Persist(host, t, engine, journal, true) else (Poison(t), Refused)
  }

  /** The store has confirmed: adopt the record and answer. */
  function Confirmed<E>(s: Machine<E>): Machine<E>
    requires s.phase.Written?
  {
    s.(generation := s.phase.record.generation, journal := s.phase.record.saved.journal,
       initialized := s.initialized || s.phase.opening, phase := Idle)
  }

  /** The worker's module variables, changed segment by segment. */
  class Worker<E(==)> {
    const host: Host<E>
    var initialized: bool
    var poisoned: bool
    var generation: nat
    var journal: seq<Entry>
    var engine: Option<E>
    var phase: Phase<E>

    constructor (host: Host<E>)
      ensures this.host == host && View() == Fresh()
    {
      this.host := host;
      initialized, poisoned, generation, journal, engine, phase := false, false, 0, [], None, Idle;
    }

    function View(): Machine<E>
      reads this
    {
      Machine(initialized, poisoned, generation, journal, engine, phase)
    }

    /** `persist`, up to handing the record to the store. */
    method Begin(pending: seq<Entry>, opening: bool) returns (reply: Reply)
      requires engine.Some?
      modifies this
      ensures (View(), reply) == Persist(host, old(View()), old(engine).value, pending, opening)
    {
      if !host.exports(engine.value) || host.imageBytes(engine.value) < MIN_IMAGE
         || host.imageBytes(engine.value) + host.journalBytes(pending) > LIMIT
         || generation + 1 > MAX_GENERATION {
        poisoned, phase := true, Idle;
        return Refused;
      }
      phase := Writing(Record(generation + 1, Saved(engine.value, pending)), opening);
      return Pending;
    }

    method OnMessage(m: Message) returns (reply: Reply)
      modifies this
      ensures (View(), reply) == Receive(host, old(View()), m)
    {
      if poisoned { return Poisoned; }
      if !phase.Idle? { return Busy; }
      match m {
        case Open(create, wellFormed) =>
          if initialized || engine.Some? || !wellFormed {
            poisoned := true;
            return Refused;
          }
          phase := Opening(create);
          return Pending;
        case Operate(r) =>
          if !initialized || engine.None? || !GoodRequest(host, r) { return Refused; }
          var pending, entry := journal, EntryOf(r);
          if entry.Some? && entry.value !in journal {
            if |journal| >= MAX_ARTIFACTS { return Refused; }
            pending := journal + [entry.value];
            if host.journalBytes(pending) > LIMIT { return Refused; }
          }
          var result := host.apply(engine.value, r);
          engine := Some(result.engine);
          if result.poisoned {
            poisoned := true;
            return Refused;
          }
          if !result.ok { pending := journal; }
          if result.fence {
            reply := Begin(pending, false);
            return;
          }
          return Done;
      }
    }

    method OnLoad(disk: Option<Record<E>>) returns (reply: Reply)
      requires phase.Opening?
      modifies this
      ensures (View(), reply) == Loaded(host, old(View()), disk)
    {
      if poisoned || phase.create != disk.None? {
        poisoned, phase := true, Idle;
        return Refused;
      }
      if disk.Some? {
        journal, generation := disk.value.saved.journal, disk.value.generation;
        engine := Some(disk.value.saved.engine);
      } else {
        engine := Some(host.initial);
      }
      if !host.opens(engine.value) {
        poisoned, phase := true, Idle;
        return Refused;
      }
      reply := Begin(journal, true);
    }

    method OnComplete() returns (reply: Reply)
      requires phase.Written?
      modifies this
      ensures View() == Confirmed(old(View())) && reply == Done
    {
      generation, journal := phase.record.generation, phase.record.saved.journal;
      if phase.opening { initialized := true; }
      phase := Idle;
      return Done;
    }

    method OnAbort() returns (reply: Reply)
      modifies this
      ensures View() == Poison(old(View())) && reply == Refused
    {
      poisoned, phase := true, Idle;
      return Refused;
    }
  }
}
