/** The lifetime of a usb_serial object in usb-serial.c: a reference count that probe, installed ttys and
    lookups in progress share, and a table of minor numbers through which lookups find the ports.

    A step of the model is what runs under table_lock or under the object's disc_mutex, or one change of the count. */
module SerialLifetime {
  import opened Arith
  import opened Wrappers

  /** A port: its usb_serial and its index there. */
  datatype Port = Port(serial: nat, index: nat)

  type Table = map<nat, Port>

  // ---------------------------------------------------------------- the table of minor numbers

  ghost predicate Distinct(minors: seq<nat>) {
    forall i, j :: 0 <= i < j < |minors| ==> minors[i] != minors[j]
  }

  /** The table with the ports of one object added. */
  function Reserve(t: Table, serial: nat, minors: seq<nat>): Table {
    if minors == [] then t
    else Reserve(t, serial, minors[..|minors| - 1])[minors[|minors| - 1] := Port(serial, |minors| - 1)]
  }

  function Release(t: Table, minors: seq<nat>): Table {
    map m | m in t && m !in minors :: t[m]
  }

  lemma {:induction false} ReserveAdds(t: Table, serial: nat, minors: seq<nat>)
    requires Distinct(minors)
    ensures forall m :: m in Reserve(t, serial, minors) <==> m in t || m in minors
    ensures forall i :: 0 <= i < |minors| ==> Reserve(t, serial, minors)[minors[i]] == Port(serial, i)
    ensures forall m :: m in t && m !in minors ==> Reserve(t, serial, minors)[m] == t[m]
  {
    if minors != [] {
      var front := minors[..|minors| - 1];
      ReserveAdds(t, serial, front);
      assert minors == front + [minors[|minors| - 1]];
    }
  }

  /** Releasing fresh minors undoes reserving them. */
  lemma {:induction false} ReleaseUndoesReserve(t: Table, serial: nat, minors: seq<nat>)
    requires Distinct(minors) && forall m :: m in minors ==> m !in t
    ensures Release(Reserve(t, serial, minors), minors) == t
  {
    ReserveAdds(t, serial, minors);
  }

  class MinorTable {
    var table: Table

    constructor ()
      ensures table == map[]
    {
      table := map[];
    }

    /** idr_alloc from 0: the lowest free number, unless there is no memory. */
    method IdrAlloc(port: Port, memory: bool) returns (ok: bool, minor: nat)
      modifies this
      ensures ok == memory
      ensures !ok ==> table == old(table)
      ensures ok ==> minor !in old(table) && (forall m: nat :: m < minor ==> m in old(table))
                     && table == old(table)[minor := port]
    {
      minor := 0;
      if !memory {
        return false, 0;
      }
      ghost var below: set<nat> := {};
      while minor in table
        invariant forall m: nat :: m < minor <==> m in below
        invariant |below| == minor && below <= table.Keys && table == old(table)
        decreases |table.Keys| - minor
      {
        below := below + {minor};
        SubsetSize(below, table.Keys);
        minor := minor + 1;
      }
      table := table[minor := port];
      ok := true;
    }

    /** allocate_minors: all ports get numbers that were free, or the table is as before; `room` is the number of
        allocations for which there is memory. */
    method AllocateMinors(serial: nat, numPorts: nat, room: nat) returns (ok: bool, minors: seq<nat>)
      modifies this
      ensures ok <==> numPorts <= room
      ensures ok ==> |minors| == numPorts && Distinct(minors) && (forall m :: m in minors ==> m !in old(table))
                     && table == Reserve(old(table), serial, minors)
      ensures !ok ==> table == old(table)
    {
      minors := [];
      var i := 0;
      while i < numPorts
        invariant |minors| == i <= numPorts && i <= room
        invariant Distinct(minors) && forall m :: m in minors ==> m !in old(table)
        invariant table == Reserve(old(table), serial, minors)
      {
        ReserveAdds(old(table), serial, minors);
        var found, minor := IdrAlloc(Port(serial, i), i < room);
        if !found {
          ReleaseUndoesReserve(old(table), serial, minors);
          ReleaseMinors(minors);
          return false, [];
        }
        assert (minors + [minor])[..i] == minors;
        minors := minors + [minor];
        i := i + 1;
      }
      ok := true;
    }

    /** release_minors, and the unwinding loop of allocate_minors. */
    method ReleaseMinors(minors: seq<nat>)
      modifies this
      ensures table == Release(old(table), minors)
    {
      var i := 0;
      while i < |minors|
        invariant i <= |minors|
        invariant table == Release(old(table), minors[..i])
      {
        assert minors[..i + 1] == minors[..i] + [minors[i]];
        table := map m | m in table && m != minors[i] :: table[m];
        i := i + 1;
      }
      assert minors[..i] == minors;
    }
  }

  // ---------------------------------------------------------------- one object

  /** How far probe and disconnect have come: before the disconnected flag is set up, with it but without minors,
      with minors, with all ports registered; accepted without ports; disconnected, and its reference dropped;
      probe given up. */
  datatype Stage = Probing | Starting | Numbered | Live | Quiet | Leaving | Left | Failed

  /** `refs` is the kref, `lookup` a lookup that has returned the port and holds disc_mutex, `ttys` those installed,
      `destroys` how often destroy_serial has been entered, `freed` whether it has finished. `added` counts the ports
      handed to device_add; `modules` and `awake` are the references that installed ttys hold on the driver module
      and on the power management of the interface. */
  datatype Serial = Serial(stage: Stage, refs: nat, disconnected: bool, reserved: bool, minors: seq<nat>, added: nat,
                           lookup: bool, ttys: set<nat>, modules: nat, awake: nat, destroys: nat, freed: bool)

  /** create_serial's result: one reference, that of probe. */
  const NEW: Serial := Serial(Probing, 1, false, false, [], 0, false, {}, 0, 0, 0, false)

  /** Probe's reference lives until disconnect or failure drops it. */
  predicate ProbeHolds(x: Serial) { !x.stage.Left? && !x.stage.Failed? }

  function Holders(x: Serial): nat {
    (if ProbeHolds(x) then 1 else 0) + (if x.lookup then 1 else 0) + |x.ttys|
  }

  /** kref_put: the last reference enters destroy_serial. */
  function Put(x: Serial): Serial {
    if x.refs == 0 then x
    else x.(refs := x.refs - 1, destroys := if x.refs == 1 then x.destroys + 1 else x.destroys)
  }

  function Less(n: nat): nat { if n == 0 then 0 else n - 1 }

  /** A tty is installed: the reference of the lookup becomes its own. */
  function Kept(x: Serial, tty: nat): Serial {
    x.(lookup := false, ttys := x.ttys + {tty}, modules := x.modules + 1, awake := x.awake + 1)
  }

  /** A tty goes; the interface is left alone once it is disconnected. */
  function Gone(x: Serial, tty: nat): Serial {
    x.(ttys := x.ttys - {tty}, modules := Less(x.modules), awake := if x.disconnected then x.awake else Less(x.awake))
  }

  ghost predicate SerialInv(x: Serial) {
    && x.refs == Holders(x)
    && x.destroys == (if x.refs == 0 then 1 else 0)
    && (x.lookup ==> x.stage.Live?)
    && (x.ttys != {} ==> x.stage.Live? || x.stage.Leaving? || x.stage.Left?)
    && (x.reserved && !x.disconnected <==> x.stage.Live?)
    && (x.reserved ==> x.stage.Numbered? || x.stage.Live? || x.stage.Leaving? || x.stage.Left?)
    && (x.stage.Numbered? ==> x.reserved)
    && (x.stage.Starting? || x.stage.Numbered? || x.stage.Leaving? || x.stage.Left? ==> x.disconnected)
    && (x.freed ==> x.refs == 0 && !x.reserved)
    && (x.stage.Live? ==> x.added == |x.minors|)
    && x.modules == |x.ttys|
    && (!x.stage.Leaving? && !x.stage.Left? ==> x.awake == |x.ttys|)
  }

  // ---------------------------------------------------------------- all objects and the table

  datatype State = State(serials: map<nat, Serial>, table: Table)

  datatype Event =
    | Create(k: nat)
    | GiveUp(k: nat)                          // probe_error
    | AcceptQuietly(k: nat)                   // attach returned a positive value
    | SetUp(k: nat)                           // disconnected := 1 before the minors
    | Number(k: nat, minors: seq<nat>)        // allocate_minors succeeds
    | AddPort(k: nat)                         // device_add for the next port
    | GoLive(k: nat)                          // all ports registered, disconnected := 0
    | Lookup(minor: nat)                      // usb_serial_port_get_by_minor finds a port
    | Install(k: nat, tty: nat)               // serial_install keeps the reference for the tty
    | DropLookup(k: nat)                      // an error path of serial_install: put, then unlock
    | Cleanup(k: nat, tty: nat, console: bool)
    | Disconnect(k: nat)                      // the flag, under disc_mutex
    | DropProbe(k: nat)                       // the end of usb_serial_disconnect
    | Finish(k: nat)                          // destroy_serial releases the minors and frees

  predicate Enabled(s: State, e: Event) {
    match e
    case Create(k) => k !in s.serials
    case GiveUp(k) => k in s.serials && (s.serials[k].stage.Probing? || s.serials[k].stage.Starting?)
    case AcceptQuietly(k) => k in s.serials && s.serials[k].stage.Probing?
    case SetUp(k) => k in s.serials && s.serials[k].stage.Probing?
    case Number(k, minors) =>
      k in s.serials && s.serials[k].stage.Starting?
      && (forall i, j :: 0 <= i < j < |minors| ==> minors[i] != minors[j]) && (forall m :: m in minors ==> m !in s.table)
    case AddPort(k) =>
      k in s.serials && s.serials[k].stage.Numbered? && s.serials[k].added < |s.serials[k].minors|
    case GoLive(k) =>
      k in s.serials && s.serials[k].stage.Numbered? && s.serials[k].added == |s.serials[k].minors|
    case Lookup(minor) => minor in s.table && s.table[minor].serial in s.serials && !s.serials[s.table[minor].serial].lookup
    case Install(k, tty) => k in s.serials && s.serials[k].lookup && tty !in s.serials[k].ttys
    case DropLookup(k) => k in s.serials && s.serials[k].lookup
    case Cleanup(k, tty, console) => k in s.serials && tty in s.serials[k].ttys
    case Disconnect(k) =>
      k in s.serials && (s.serials[k].stage.Live? || s.serials[k].stage.Quiet?) && !s.serials[k].lookup
    case DropProbe(k) => k in s.serials && s.serials[k].stage.Leaving?
    case Finish(k) => k in s.serials && s.serials[k].refs == 0 && !s.serials[k].freed
  }

  function With(s: State, k: nat, x: Serial): State {
    s.(serials := s.serials[k := x])
  }

  /** What a lookup hands out; the reference is taken only where the flag is clear. */
  function Found(s: State, minor: nat): bool
    requires Enabled(s, Lookup(minor))
  {
    !s.serials[s.table[minor].serial].disconnected
  }

  /** A lookup takes a reference and disc_mutex, unless the object is disconnected. */
  function AfterLookup(s: State, minor: nat): State
    requires Enabled(s, Lookup(minor))
  {
    var k := s.table[minor].serial;
    if Found(s, minor) then With(s, k, s.serials[k].(lookup := true, refs := s.serials[k].refs + 1)) else s
  }

  function Step(s: State, e: Event): State
    requires Enabled(s, e)
  {
    match e
    case Create(k) => With(s, k, NEW)
    case GiveUp(k) => With(s, k, Put(s.serials[k].(stage := Failed)))
    case AcceptQuietly(k) => With(s, k, s.serials[k].(stage := Quiet))
    case SetUp(k) => With(s, k, s.serials[k].(stage := Starting, disconnected := true))
    case Number(k, minors) =>
      State(s.serials[k := s.serials[k].(stage := Numbered, reserved := true, minors := minors, added := 0)],
            Reserve(s.table, k, minors))
    case AddPort(k) => With(s, k, s.serials[k].(added := s.serials[k].added + 1))
    case GoLive(k) => With(s, k, s.serials[k].(stage := Live, disconnected := false))
    case Lookup(minor) => AfterLookup(s, minor)
    case Install(k, tty) => With(s, k, Kept(s.serials[k], tty))
    case DropLookup(k) => With(s, k, Put(s.serials[k]).(lookup := false))
    case Cleanup(k, tty, console) =>
      if console then s else With(s, k, Put(Gone(s.serials[k], tty)))
    case Disconnect(k) => With(s, k, s.serials[k].(stage := Leaving, disconnected := true))
    case DropProbe(k) => With(s, k, Put(s.serials[k]).(stage := Left))
    case Finish(k) =>
      var x := s.serials[k];
      State(s.serials[k := x.(reserved := false, freed := true)], if x.reserved then Release(s.table, x.minors) else s.table)
  }

  /** Table and objects agree on which minors belong to whom. */
  ghost predicate TableInv(s: State) {
    && (forall m :: m in s.table ==>
          var p := s.table[m];
          p.serial in s.serials && s.serials[p.serial].reserved
          && p.index < |s.serials[p.serial].minors| && s.serials[p.serial].minors[p.index] == m)
    && (forall k, i :: k in s.serials && s.serials[k].reserved && 0 <= i < |s.serials[k].minors| ==>
          s.serials[k].minors[i] in s.table && s.table[s.serials[k].minors[i]] == Port(k, i))
  }

  ghost predicate SerialsInv(s: State) {
    forall k :: k in s.serials ==> SerialInv(s.serials[k])
  }

  ghost predicate Inv(s: State) {
    TableInv(s) && SerialsInv(s)
  }

  // ---------------------------------------------------------------- every step keeps the invariant

  /** The object a step is about. */
  function Subject(s: State, e: Event): nat
    requires Enabled(s, e)
  {
    match e
    case Create(k) => k
    case GiveUp(k) => k
    case AcceptQuietly(k) => k
    case SetUp(k) => k
    case Number(k, _) => k
    case AddPort(k) => k
    case GoLive(k) => k
    case Lookup(minor) => s.table[minor].serial
    case Install(k, _) => k
    case DropLookup(k) => k
    case Cleanup(k, _, _) => k
    case Disconnect(k) => k
    case DropProbe(k) => k
    case Finish(k) => k
  }

  lemma StepKeepsOthers(s: State, e: Event)
    requires Enabled(s, e)
    ensures
      var k, r := Subject(s, e), Step(s, e).serials;
      k in r && forall l :: l != k ==> (l in r <==> l in s.serials) && (l in r ==> r[l] == s.serials[l])
  {
  }

  lemma StepKeepsSubject(s: State, e: Event)
    requires Enabled(s, e)
    requires !e.Create? ==> SerialInv(s.serials[Subject(s, e)])
    requires e.Lookup? ==> s.serials[Subject(s, e)].reserved
    ensures SerialInv(Step(s, e).serials[Subject(s, e)])
  {
    match e {
      case Create(k) =>
      case GiveUp(k) => GiveUpKeepsInv(s.serials[k]);
      case AcceptQuietly(k) => EarlyStagesKeepInv(s.serials[k], []);
      case SetUp(k) => EarlyStagesKeepInv(s.serials[k], []);
      case Number(k, minors) => EarlyStagesKeepInv(s.serials[k], minors);
      case AddPort(k) => EarlyStagesKeepInv(s.serials[k], []);
      case GoLive(k) => EarlyStagesKeepInv(s.serials[k], []);
      case Lookup(minor) =>
        if Found(s, minor) {
          LookupKeepsInv(s.serials[s.table[minor].serial]);
        }
      case Install(k, tty) => InstallKeepsInv(s.serials[k], tty);
      case DropLookup(k) => DropLookupKeepsInv(s.serials[k]);
      case Cleanup(k, tty, console) => PutKeepsInv(s.serials[k], tty);
      case Disconnect(k) => DisconnectKeepsInv(s.serials[k]);
      case DropProbe(k) => DropProbeKeepsInv(s.serials[k]);
      case Finish(k) => FinishKeepsInv(s.serials[k]);
    }
  }

  lemma {:induction false} StepKeepsSerials(s: State, e: Event)
    requires Inv(s) && Enabled(s, e)
    ensures SerialsInv(Step(s, e))
  {
    StepKeepsOthers(s, e);
    StepKeepsSubject(s, e);
  }

  lemma EarlyStagesKeepInv(x: Serial, minors: seq<nat>)
    requires SerialInv(x)
    ensures x.stage.Probing? ==> SerialInv(x.(stage := Quiet)) && SerialInv(x.(stage := Starting, disconnected := true))
    ensures x.stage.Starting? ==> SerialInv(x.(stage := Numbered, reserved := true, minors := minors, added := 0))
    ensures x.stage.Numbered? ==> SerialInv(x.(added := x.added + 1))
    ensures x.stage.Numbered? && x.added == |x.minors| ==> SerialInv(x.(stage := Live, disconnected := false))
  {
  }

  lemma DisconnectKeepsInv(x: Serial)
    requires SerialInv(x) && (x.stage.Live? || x.stage.Quiet?) && !x.lookup
    ensures SerialInv(x.(stage := Leaving, disconnected := true))
  {
  }

  lemma FinishKeepsInv(x: Serial)
    requires SerialInv(x) && x.refs == 0
    ensures SerialInv(x.(reserved := false, freed := true))
  {
  }

  lemma LookupKeepsInv(x: Serial)
    requires SerialInv(x) && x.reserved && !x.lookup && !x.disconnected
    ensures SerialInv(x.(lookup := true, refs := x.refs + 1))
  {
  }

  lemma GiveUpKeepsInv(x: Serial)
    requires SerialInv(x) && (x.stage.Probing? || x.stage.Starting?)
    ensures SerialInv(Put(x.(stage := Failed)))
  {
  }

  lemma DropLookupKeepsInv(x: Serial)
    requires SerialInv(x) && x.lookup
    ensures SerialInv(Put(x).(lookup := false))
  {
  }

  lemma DropProbeKeepsInv(x: Serial)
    requires SerialInv(x) && x.stage.Leaving?
    ensures SerialInv(Put(x).(stage := Left))
  {
  }

  lemma PutKeepsInv(x: Serial, tty: nat)
    requires SerialInv(x) && tty in x.ttys
    ensures SerialInv(Put(Gone(x, tty)))
  {
    assert x.ttys == (x.ttys - {tty}) + {tty};
  }

  lemma InstallKeepsInv(x: Serial, tty: nat)
    requires SerialInv(x) && x.lookup && tty !in x.ttys
    ensures SerialInv(Kept(x, tty))
  {
  }

  lemma {:induction false} StepKeepsTable(s: State, e: Event)
    requires Inv(s) && Enabled(s, e)
    ensures TableInv(Step(s, e))
  {
    match e {
      case Number(k, minors) =>
        NumberKeepsTable(s, k, minors);
      case Finish(k) =>
        FinishKeepsTable(s, k);
      case Cleanup(k, tty, console) =>
        SameMinors(s, k, Step(s, e).serials[k]);
      case Lookup(minor) =>
        SameMinors(s, s.table[minor].serial, Step(s, e).serials[s.table[minor].serial]);
      case Create(k) =>
      case GiveUp(k) =>
        SameMinors(s, k, Step(s, e).serials[k]);
      case AcceptQuietly(k) =>
        SameMinors(s, k, Step(s, e).serials[k]);
      case SetUp(k) =>
        SameMinors(s, k, Step(s, e).serials[k]);
      case AddPort(k) =>
        SameMinors(s, k, Step(s, e).serials[k]);
      case GoLive(k) =>
        SameMinors(s, k, Step(s, e).serials[k]);
      case Install(k, tty) =>
        SameMinors(s, k, Step(s, e).serials[k]);
      case DropLookup(k) =>
        SameMinors(s, k, Step(s, e).serials[k]);
      case Disconnect(k) =>
        SameMinors(s, k, Step(s, e).serials[k]);
      case DropProbe(k) =>
        SameMinors(s, k, Step(s, e).serials[k]);
    }
  }

  lemma SameMinors(s: State, k: nat, x: Serial)
    requires TableInv(s) && k in s.serials
    requires x.reserved == s.serials[k].reserved && x.minors == s.serials[k].minors
    ensures TableInv(With(s, k, x)) && (x == s.serials[k] ==> With(s, k, x) == s)
  {
    assert x == s.serials[k] ==> s.serials[k := x] == s.serials;
  }

  lemma NumberKeepsTable(s: State, k: nat, minors: seq<nat>)
    requires Inv(s) && Enabled(s, Number(k, minors))
    ensures TableInv(Step(s, Number(k, minors)))
  {
    var s' := Step(s, Number(k, minors));
    ReserveAdds(s.table, k, minors);
    assert !s.serials[k].reserved;
    forall m | m in s'.table
      ensures
        var p := s'.table[m];
        p.serial in s'.serials && s'.serials[p.serial].reserved
        && p.index < |s'.serials[p.serial].minors| && s'.serials[p.serial].minors[p.index] == m
    {
      if m in minors {
        var i :| 0 <= i < |minors| && minors[i] == m;
      }
    }
  }

  lemma FinishKeepsTable(s: State, k: nat)
    requires Inv(s) && Enabled(s, Finish(k))
    ensures TableInv(Step(s, Finish(k)))
  {
    var x := s.serials[k];
    if x.reserved {
      forall m | m in s.table && m !in x.minors
        ensures s.table[m].serial != k
      {
      }
      forall j, i | j in s.serials && j != k && s.serials[j].reserved && 0 <= i < |s.serials[j].minors|
        ensures s.serials[j].minors[i] !in x.minors
      {
        assert s.table[s.serials[j].minors[i]] == Port(j, i);
      }
    }
  }

  lemma StepKeepsInv(s: State, e: Event)
    requires Inv(s) && Enabled(s, e)
    ensures Inv(Step(s, e))
  {
    StepKeepsSerials(s, e);
    StepKeepsTable(s, e);
  }

  ghost predicate Possible(s: State, events: seq<Event>)
    decreases |events|
  {
    events == [] ||
    (Enabled(s, events[0]) && Possible(Step(s, events[0]), events[1..]))
  }

  ghost function Run(s: State, events: seq<Event>): State
    requires Possible(s, events)
    decreases |events|
  {
    if events == [] then s else Run(Step(s, events[0]), events[1..])
  }

  lemma {:induction false} RunKeepsInv(s: State, events: seq<Event>)
    requires Inv(s) && Possible(s, events)
    ensures Inv(Run(s, events))
    decreases |events|
  {
    if events != [] {
      StepKeepsInv(s, events[0]);
      RunKeepsInv(Step(s, events[0]), events[1..]);
    }
  }

  // ---------------------------------------------------------------- consequences

  /** The count is the number of holders; destroy_serial is entered once, exactly when the last holder is gone,
      so never while a tty is installed or a lookup in progress. */
  lemma DestroyedOnceWithoutHolders(s: State, k: nat)
    requires Inv(s) && k in s.serials
    ensures
      var x := s.serials[k];
      && x.refs == Holders(x)
      && x.destroys <= 1
      && (x.destroys == 1 <==> !ProbeHolds(x) && !x.lookup && x.ttys == {})
  {
  }

  /** An object whose count has reached zero is never referenced again, although its ports may still be in the table:
      lookups that meet it see the disconnected flag. */
  lemma {:induction false} DeadStaysDead(s: State, events: seq<Event>, k: nat)
    requires Inv(s) && Possible(s, events) && k in s.serials && s.serials[k].refs == 0
    ensures k in Run(s, events).serials && Run(s, events).serials[k].refs == 0
    ensures Run(s, events).serials[k].destroys == 1
    decreases |events|
  {
    if events != [] {
      StepKeepsInv(s, events[0]);
      DeadStep(s, events[0], k);
      DeadStaysDead(Step(s, events[0]), events[1..], k);
    }
  }

  lemma DeadStep(s: State, e: Event, k: nat)
    requires Enabled(s, e) && k in s.serials && s.serials[k].refs == 0 && SerialInv(s.serials[k])
    requires e.Lookup? ==> s.serials[Subject(s, e)].reserved
    ensures k in Step(s, e).serials && Step(s, e).serials[k].refs == 0
  {
    StepKeepsOthers(s, e);
    assert s.serials[k].ttys == {};
  }

  /** A lookup hands out a port only between the registration of all ports and the disconnect,
      and then the object is held by probe. */
  lemma LookupOnlyWhileLive(s: State, minor: nat)
    requires Inv(s) && Enabled(s, Lookup(minor))
    ensures
      var p := s.table[minor];
      var x := s.serials[p.serial];
      && (Found(s, minor) <==> x.stage.Live?)
      && (Found(s, minor) ==> x.refs > 0 && !x.freed && x.minors[p.index] == minor && x.added == |x.minors|)
  {
  }

  /** An error path of serial_install drops its reference while it still holds disc_mutex:
      that is never the last one, so the mutex it unlocks afterwards still exists. */
  lemma ErrorPathKeepsObject(s: State, k: nat)
    requires Inv(s) && Enabled(s, DropLookup(k))
    ensures Step(s, DropLookup(k)).serials[k].refs >= 1 && Step(s, DropLookup(k)).serials[k].destroys == 0
  {
  }

  /** A freed object has left the table; releasing its minors touches nobody else's. */
  lemma FreedHasNoMinors(s: State, k: nat)
    requires Inv(s) && k in s.serials
    ensures s.serials[k].freed ==> forall m :: m in s.table ==> s.table[m].serial != k
    ensures Enabled(s, Finish(k)) ==>
      && Step(s, Finish(k)).serials[k].freed
      && forall m :: m in Step(s, Finish(k)).table ==> Step(s, Finish(k)).table[m].serial != k
    ensures Enabled(s, Finish(k)) ==>
      forall m :: m in s.table && s.table[m].serial != k ==>
        m in Step(s, Finish(k)).table && Step(s, Finish(k)).table[m] == s.table[m]
  {
    var x := s.serials[k];
    if x.reserved {
      forall m | m in s.table && s.table[m].serial != k
        ensures m !in x.minors
      {
        assert forall i :: 0 <= i < |x.minors| ==> s.table[x.minors[i]] == Port(k, i);
      }
    }
  }

  /** After the disconnect the power references stay what they were: one for every tty open at that moment, none of
      them given back to an interface that is gone. */
  lemma {:induction false} PowerFrozenOnDisconnect(s: State, events: seq<Event>, k: nat)
    requires Inv(s) && Possible(s, events) && k in s.serials && (s.serials[k].stage.Leaving? || s.serials[k].stage.Left?)
    ensures k in Run(s, events).serials && Run(s, events).serials[k].awake == s.serials[k].awake
    decreases |events|
  {
    if events != [] {
      StepKeepsInv(s, events[0]);
      FrozenStep(s, events[0], k);
      PowerFrozenOnDisconnect(Step(s, events[0]), events[1..], k);
    }
  }

  lemma FrozenStep(s: State, e: Event, k: nat)
    requires Enabled(s, e) && k in s.serials && SerialInv(s.serials[k])
    requires s.serials[k].stage.Leaving? || s.serials[k].stage.Left?
    ensures
      var r := Step(s, e).serials;
      k in r && (r[k].stage.Leaving? || r[k].stage.Left?) && r[k].awake == s.serials[k].awake
  {
    StepKeepsOthers(s, e);
  }

  /** The console's tty keeps its reference when it is cleaned up; any other tty gives it back. */
  lemma CleanupGivesBack(s: State, k: nat, tty: nat, console: bool)
    requires Inv(s) && Enabled(s, Cleanup(k, tty, console))
    ensures
      var r := Step(s, Cleanup(k, tty, console)).serials[k];
      && (tty in r.ttys <==> console)
      && r.modules == |r.ttys| && (!r.disconnected ==> r.awake == |r.ttys|)
      && r.refs == s.serials[k].refs - (if console then 0 else 1)
      && (console ==> r.destroys == 0)
  {
    StepKeepsInv(s, Cleanup(k, tty, console));
  }

  // ---------------------------------------------------------------- the program: every function is a run of steps

  /** destroy_serial, where the last reference is gone. */
  function Destroyed(x: Serial): Serial {
    if x.refs == 0 then x.(reserved := false, freed := true) else x
  }

  /** A usb_serial. */
  class UsbSerial {
    /** Stands for its address. */
    const id: nat
    var refs: nat
    var disconnected: bool
    var minorsReserved: bool
    /** port->minor of every port. */
    var minors: seq<nat>
    /** How many ports device_add has been called for. */
    var added: nat
    /** disc_mutex, as far as a lookup holds it. */
    var mutexHeld: bool
    /** The ttys whose driver_data is one of the ports. */
    var ttys: set<nat>
    /** References on the driver module, and on the power management of the interface, that the ttys hold. */
    var modules: nat
    var awake: nat
    var freed: bool
    ghost var stage: Stage
    ghost var destroys: nat

    ghost function View(): Serial
      reads this
    {
      Serial(stage, refs, disconnected, minorsReserved, minors, added, mutexHeld, ttys, modules, awake, destroys, freed)
    }

    /** create_serial. */
    constructor (id: nat)
      ensures View() == NEW && this.id == id
    {
      this.id := id;
      refs, disconnected, minorsReserved, minors, added := 1, false, false, [], 0;
      mutexHeld, ttys, modules, awake, freed := false, {}, 0, 0, false;
      stage, destroys := Probing, 0;
    }

    /** usb_serial_put, with destroy_serial behind the last reference. */
    method KrefPut(table: MinorTable)
      requires refs > 0
      modifies this, table
      ensures View() == Destroyed(Put(old(View())))
      ensures table.table == if refs == 0 && old(minorsReserved) then Release(old(table.table), old(minors))
                             else old(table.table)
    {
      refs := refs - 1;
      if refs == 0 {
        destroys := destroys + 1;
        if minorsReserved {
          table.ReleaseMinors(minors);
          minorsReserved := false;
        }
        freed := true;
      }
    }

    /** The ports of a new object get their numbers and are registered one by one; a failing device_add is ignored. */
    method GoLive(numbers: seq<nat>)
      modifies this
      ensures View() == old(View()).(minors := numbers, reserved := true, added := |numbers|,
                                     disconnected := false, stage := Live)
    {
      minors := numbers;
      minorsReserved := true;
      added := 0;
      while added < |minors|
        invariant added <= |minors|
        invariant View() == old(View()).(minors := numbers, reserved := true, added := added)
      {
        added := added + 1;
      }
      disconnected := false;
      stage := Live;
    }

    /** serial_install behind its lookup: what was taken is given back in reverse order where a call fails,
        and the reference last, under the mutex. */
    method FinishInstall(tty: nat, moduleGet: bool, autopm: bool, portInstall: bool, table: MinorTable) returns (ok: bool)
      requires refs > 1
      modifies this, table
      ensures ok <==> moduleGet && autopm && portInstall
      ensures View() == Finished(old(View()), tty, ok)
      ensures table.table == old(table.table)
    {
      ok := false;
      if moduleGet {
        modules := modules + 1;
        if autopm {
          awake := awake + 1;
          if portInstall {
            mutexHeld := false;
            ttys := ttys + {tty};
            return true;
          }
          awake := awake - 1;
        }
        modules := modules - 1;
      }
      KrefPut(table);
      mutexHeld := false;
    }

    /** serial_cleanup of a tty that is not the console. */
    method DropTty(tty: nat, table: MinorTable)
      requires refs > 0 && modules > 0 && (!disconnected ==> awake > 0)
      modifies this, table
      ensures View() == Destroyed(Put(Gone(old(View()), tty)))
      ensures table.table == if old(refs) == 1 && old(minorsReserved) then Release(old(table.table), old(minors))
                             else old(table.table)
    {
      ttys := ttys - {tty};
      if !disconnected {
        awake := awake - 1;
      }
      KrefPut(table);
      modules := modules - 1;
    }

    /** The flag and the put of usb_serial_disconnect. */
    method Leave(table: MinorTable)
      requires refs > 0
      modifies this, table
      ensures View() == Destroyed(Put(old(View()).(stage := Left, disconnected := true)))
      ensures table.table == if old(refs) == 1 && old(minorsReserved) then Release(old(table.table), old(minors))
                             else old(table.table)
    {
      disconnected := true;
      stage := Left;
      KrefPut(table);
    }
  }

  /** One reference of object k goes, whose record is `x` by then; the last one takes minors and object with it. */
  function AfterPut(s: State, k: nat, x: Serial): State {
    State(s.serials[k := Destroyed(Put(x))],
          if x.refs == 1 && x.reserved then Release(s.table, x.minors) else s.table)
  }

  function AfterInstall(s: State, minor: nat, tty: nat): State
    requires Enabled(s, Lookup(minor))
  {
    var k := s.table[minor].serial;
    var x := Kept(s.serials[k], tty);
    With(s, k, x.(lookup := s.serials[k].lookup, refs := x.refs + 1))
  }

  function AfterCleanup(s: State, k: nat, tty: nat, console: bool): State
    requires k in s.serials
  {
    if console then s else AfterPut(s, k, Gone(s.serials[k], tty))
  }

  /** A registered object, of a new one. */
  function AfterRegister(s: State, k: nat, minors: seq<nat>): State {
    State(s.serials[k := NEW.(stage := Live, reserved := true, minors := minors, added := |minors|)],
          Reserve(s.table, k, minors))
  }

  /** A new object given up, before or after its disconnected flag was set. */
  function AfterFailure(s: State, k: nat, started: bool): State {
    AfterPut(s, k, NEW.(stage := Failed, disconnected := started))
  }

  function AfterDisconnect(s: State, k: nat): State
    requires k in s.serials
  {
    AfterPut(s, k, s.serials[k].(stage := Left, disconnected := true))
  }

  /** A later record replaces an earlier one. */
  lemma RecordReplaced(s: State, k: nat, x: Serial, y: Serial)
    ensures With(With(s, k, x), k, y) == With(s, k, y)
  {
    assert s.serials[k := x][k := y] == s.serials[k := y];
  }

  lemma PutReplaced(s: State, k: nat, x: Serial, y: Serial)
    ensures AfterPut(With(s, k, x), k, y) == AfterPut(s, k, y)
  {
    var z := Destroyed(Put(y));
    assert s.serials[k := x][k := z] == s.serials[k := z];
  }

  lemma RegisterReplaced(s: State, k: nat, x: Serial, minors: seq<nat>)
    ensures AfterRegister(With(s, k, x), k, minors) == AfterRegister(s, k, minors)
  {
    var z := NEW.(stage := Live, reserved := true, minors := minors, added := |minors|);
    assert s.serials[k := x][k := z] == s.serials[k := z];
  }

  /** The end of serial_install. */
  function Finished(x: Serial, tty: nat, ok: bool): Serial {
    if ok then Kept(x, tty) else x.(lookup := false, refs := Less(x.refs))
  }

  lemma InstallComposes(s: State, minor: nat, tty: nat, ok: bool)
    requires Enabled(s, Lookup(minor)) && Found(s, minor)
    ensures
      var t, k := AfterLookup(s, minor), s.table[minor].serial;
      With(t, k, Finished(t.serials[k], tty, ok)) == if ok then AfterInstall(s, minor, tty) else s
  {
    var k := s.table[minor].serial;
    var x := AfterLookup(s, minor).serials[k];
    RecordReplaced(s, k, x, Finished(x, tty, ok));
    assert s.serials[k := s.serials[k]] == s.serials;
  }

  class Core {
    const minors: MinorTable
    var serials: map<nat, UsbSerial>
    /** What objects and table stand for. */
    ghost var state: State

    ghost predicate Valid()
      reads this, minors, serials.Values
    {
      state.table == minors.table && Agree()
    }

    /** The objects hold what the abstract state says. */
    ghost predicate Agree()
      reads this, serials.Values
    {
      && (forall k :: k in state.serials <==> k in serials)
      && forall k :: k in serials ==> serials[k].id == k && state.serials[k] == serials[k].View()
    }

    /** The same, but for object k, which has changed. */
    ghost predicate AgreeBut(k: nat)
      reads this, serials.Values
    {
      && (forall l :: l in state.serials <==> l in serials)
      && forall l :: l in serials ==> serials[l].id == l && (l != k ==> state.serials[l] == serials[l].View())
    }

    ghost method Record(k: nat)
      requires k in serials && AgreeBut(k)
      modifies this`state
      ensures Valid() && state == State(old(state).serials[k := serials[k].View()], minors.table)
    {
      state := State(state.serials[k := serials[k].View()], minors.table);
    }

    constructor ()
      ensures Valid() && state == State(map[], map[])
    {
      minors := new MinorTable();
      serials := map[];
      state := State(map[], map[]);
    }

    /** usb_serial_port_get_by_minor; it waits for the mutex of the object it finds, and keeps it on success. */
    method GetByMinor(minor: nat) returns (port: Option<Port>)
      requires Valid() && (minor in state.table ==> Enabled(state, Lookup(minor)))
      modifies this`state, serials.Values
      ensures Valid() && state == if minor in old(state).table then AfterLookup(old(state), minor) else old(state)
      ensures port == if minor in old(state).table && Found(old(state), minor) then Some(old(state).table[minor]) else None
    {
      port := None;
      if minor in minors.table {
        var p := minors.table[minor];
        var serial := serials[p.serial];
        if !serial.disconnected {
          serial.refs := serial.refs + 1;
          serial.mutexHeld := true;
          port := Some(p);
          Record(p.serial);
        }
      }
    }

    /** serial_install; the last three parameters say which of its calls succeed. */
    method Install(minor: nat, tty: nat, moduleGet: bool, autopm: bool, portInstall: bool) returns (ok: bool)
      requires Valid() && (minor in state.table ==> Enabled(state, Lookup(minor)))
      requires minor in state.table && Found(state, minor) ==> state.serials[state.table[minor].serial].refs > 0
      modifies this`state, serials.Values, minors
      ensures Valid()
      ensures ok <==> minor in old(state).table && Found(old(state), minor) && moduleGet && autopm && portInstall
      ensures state == if ok then AfterInstall(old(state), minor, tty) else old(state)
    {
      ok := false;
      var port := GetByMinor(minor);
      if port.Some? {
        ok := FinishInstall(port.value.serial, tty, moduleGet, autopm, portInstall);
        InstallComposes(old(state), minor, tty, ok);
      }
    }

    method FinishInstall(k: nat, tty: nat, moduleGet: bool, autopm: bool, portInstall: bool) returns (ok: bool)
      requires Valid() && k in serials && serials[k].refs > 1
      modifies this`state, serials[k], minors
      ensures Valid() && (ok <==> moduleGet && autopm && portInstall)
      ensures state == With(old(state), k, Finished(old(state).serials[k], tty, ok))
    {
      ok := serials[k].FinishInstall(tty, moduleGet, autopm, portInstall, minors);
      Record(k);
    }

    /** serial_cleanup. */
    method Cleanup(k: nat, tty: nat, console: bool)
      requires Valid() && k in serials
      requires !console ==> serials[k].refs > 0 && serials[k].modules > 0 && (!serials[k].disconnected ==> serials[k].awake > 0)
      modifies this`state, serials[k], minors
      ensures Valid() && state == AfterCleanup(old(state), k, tty, console)
    {
      if !console {
        serials[k].DropTty(tty, minors);
        Record(k);
      }
    }

    /** usb_serial_probe; `accepted` says that everything before the attach function succeeds, `attach` is its result,
        0 if there is none; `room` says how many minors can be had. */
    method Probe(k: nat, memory: bool, accepted: bool, attach: int, numPorts: nat, room: nat)
        returns (ok: bool)
      requires Valid() && k !in serials
      modifies this`state, this`serials, minors
      ensures Valid() && (memory ==> k in serials)
      ensures ok <==> memory && accepted && (attach > 0 || (attach == 0 && numPorts <= room))
      ensures !memory ==> state == old(state)
      ensures memory && !ok ==> state == AfterFailure(old(state), k, accepted && attach >= 0)
      ensures ok && attach > 0 ==> state == With(old(state), k, NEW.(stage := Quiet))
      ensures ok && attach == 0 ==>
        |serials[k].minors| == numPorts && state == AfterRegister(old(state), k, serials[k].minors)
    {
      ok := false;
      if memory {
        CreateSerial(k);
        if !accepted || attach < 0 {
          GiveUp(k);
          PutReplaced(old(state), k, NEW, NEW.(stage := Failed));
        } else if attach > 0 {
          AcceptQuietly(k);
          RecordReplaced(old(state), k, NEW, NEW.(stage := Quiet));
          ok := true;
        } else {
          ok := Register(k, numPorts, room);
          if ok {
            RegisterReplaced(old(state), k, NEW, serials[k].minors);
          } else {
            PutReplaced(old(state), k, NEW, NEW.(stage := Failed, disconnected := true));
          }
        }
      }
    }

    method CreateSerial(k: nat)
      requires Valid() && k !in serials
      modifies this`state, this`serials
      ensures Valid() && k in serials && fresh(serials[k]) && state == With(old(state), k, NEW)
    {
      var serial := new UsbSerial(k);
      serials := serials[k := serial];
      state := With(state, k, NEW);
    }

    method AcceptQuietly(k: nat)
      requires Valid() && k in serials
      modifies this`state, serials[k]
      ensures Valid() && state == With(old(state), k, old(state).serials[k].(stage := Quiet))
    {
      serials[k].stage := Quiet;
      Record(k);
    }

    /** probe_error: the only reference goes, and the object with it. */
    method GiveUp(k: nat)
      requires Valid() && k in serials && serials[k].refs == 1
      modifies this`state, serials[k], minors
      ensures Valid() && state == AfterPut(old(state), k, old(state).serials[k].(stage := Failed))
    {
      var serial := serials[k];
      serial.stage := Failed;
      serial.KrefPut(minors);
      Record(k);
    }

    /** The end of usb_serial_probe: minors and ports, between setting and clearing the disconnected flag. */
    method Register(k: nat, numPorts: nat, room: nat) returns (ok: bool)
      requires Valid() && k in serials && state.serials[k] == NEW
      modifies this`state, serials[k], minors
      ensures Valid() && (ok <==> numPorts <= room)
      ensures ok ==> |serials[k].minors| == numPorts && state == AfterRegister(old(state), k, serials[k].minors)
      ensures ok ==> Distinct(serials[k].minors) && forall m :: m in serials[k].minors ==> m !in old(state).table
      ensures !ok ==> state == AfterFailure(old(state), k, true)
    {
      SetUp(k);
      ghost var x := state.serials[k];
      var numbers;
      ok, numbers := minors.AllocateMinors(k, numPorts, room);
      if ok {
        GoLive(k, numbers);
        RegisterReplaced(old(state), k, x, numbers);
      } else {
        GiveUp(k);
        PutReplaced(old(state), k, x, x.(stage := Failed));
      }
    }

    method SetUp(k: nat)
      requires Valid() && k in serials
      modifies this`state, serials[k]
      ensures Valid()
      ensures state == With(old(state), k, old(state).serials[k].(stage := Starting, disconnected := true))
    {
      serials[k].disconnected := true;
      serials[k].stage := Starting;
      Record(k);
    }

    method GoLive(k: nat, numbers: seq<nat>)
      requires Agree() && k in serials && state.serials[k] == NEW.(stage := Starting, disconnected := true)
      requires minors.table == Reserve(state.table, k, numbers)
      modifies this`state, serials[k]
      ensures Valid() && serials[k].minors == numbers && state == AfterRegister(old(state), k, numbers)
    {
      serials[k].GoLive(numbers);
      Record(k);
    }

    /** usb_serial_disconnect. */
    method Disconnect(k: nat)
      requires Valid() && k in serials && serials[k].refs > 0
      modifies this`state, serials[k], minors
      ensures Valid() && state == AfterDisconnect(old(state), k)
    {
      serials[k].Leave(minors);
      Record(k);
    }
  }

  // ---------------------------------------------------------------- what the functions do is a run of steps

  /** destroy_serial follows, if no reference is left. */
  function Settled(s: State, k: nat): State
    requires k in s.serials && !s.serials[k].freed
  {
    if s.serials[k].refs == 0 then Step(s, Finish(k)) else s
  }

  /** usb_serial_put at the end of some step. */
  lemma PutSettles(s: State, k: nat, x: Serial, e: Event)
    requires Inv(s) && Enabled(s, e) && Step(s, e) == With(s, k, Put(x)) && x.refs > 0 && !x.freed
    ensures AfterPut(s, k, x) == Settled(Step(s, e), k) && Inv(AfterPut(s, k, x))
  {
    StepKeepsInv(s, e);
    var t := Step(s, e);
    if Put(x).refs == 0 {
      assert t.serials[k := Destroyed(Put(x))] == s.serials[k := Destroyed(Put(x))];
      StepKeepsInv(t, Finish(k));
    }
  }

  lemma InstallSteps(s: State, minor: nat, tty: nat)
    requires Enabled(s, Lookup(minor)) && Found(s, minor) && tty !in s.serials[s.table[minor].serial].ttys
    ensures
      var k, t := s.table[minor].serial, Step(s, Lookup(minor));
      && Enabled(t, Install(k, tty)) && AfterInstall(s, minor, tty) == Step(t, Install(k, tty))
      && Enabled(t, DropLookup(k)) && (s.serials[k].refs > 0 ==> s == Step(t, DropLookup(k)))
  {
    InstallComposes(s, minor, tty, true);
    InstallComposes(s, minor, tty, false);
  }

  /** serial_install takes a reference for the tty, or returns the one of its lookup. */
  lemma InstallIsRun(s: State, minor: nat, tty: nat)
    requires Inv(s) && Enabled(s, Lookup(minor)) && Found(s, minor) && tty !in s.serials[s.table[minor].serial].ttys
    ensures
      var k, t := s.table[minor].serial, Step(s, Lookup(minor));
      && s.serials[k].refs > 0
      && AfterInstall(s, minor, tty) == Step(t, Install(k, tty)) && Inv(AfterInstall(s, minor, tty))
      && s == Step(t, DropLookup(k))
  {
    var k := s.table[minor].serial;
    LookupOnlyWhileLive(s, minor);
    InstallSteps(s, minor, tty);
    StepKeepsInv(s, Lookup(minor));
    StepKeepsInv(Step(s, Lookup(minor)), Install(k, tty));
  }

  lemma CleanupIsRun(s: State, k: nat, tty: nat, console: bool)
    requires Inv(s) && Enabled(s, Cleanup(k, tty, console))
    ensures
      var x := s.serials[k];
      x.refs > 0 && x.modules > 0 && (!x.disconnected ==> x.awake > 0)
    ensures AfterCleanup(s, k, tty, console) == Settled(Step(s, Cleanup(k, tty, console)), k)
    ensures Inv(AfterCleanup(s, k, tty, console))
  {
    assert s.serials[k].ttys != {};
    if !console {
      PutSettles(s, k, Gone(s.serials[k], tty), Cleanup(k, tty, console));
    }
  }

  lemma StartedInv(s: State, k: nat)
    requires Inv(s) && k !in s.serials
    ensures
      var t := Step(Step(s, Create(k)), SetUp(k));
      Inv(t) && t == With(s, k, NEW.(stage := Starting, disconnected := true))
  {
    var t := Step(s, Create(k));
    StepKeepsInv(s, Create(k));
    StepKeepsInv(t, SetUp(k));
    RecordReplaced(s, k, NEW, NEW.(stage := Starting, disconnected := true));
  }

  /** The loop over device_add. */
  ghost function AllAdded(s: State, k: nat): State
    decreases if k in s.serials then |s.serials[k].minors| - s.serials[k].added else 0
  {
    if Enabled(s, AddPort(k)) then AllAdded(Step(s, AddPort(k)), k) else s
  }

  lemma {:induction false} AllAddedInv(s: State, k: nat)
    requires Inv(s) && k in s.serials && s.serials[k].stage.Numbered? && s.serials[k].added <= |s.serials[k].minors|
    ensures Inv(AllAdded(s, k))
    ensures AllAdded(s, k) == With(s, k, s.serials[k].(added := |s.serials[k].minors|))
    decreases |s.serials[k].minors| - s.serials[k].added
  {
    var x := s.serials[k];
    if x.added < |x.minors| {
      StepKeepsInv(s, AddPort(k));
      AllAddedInv(Step(s, AddPort(k)), k);
      RecordReplaced(s, k, x.(added := x.added + 1), x.(added := |x.minors|));
    } else {
      assert s.serials[k := x] == s.serials;
    }
  }

  lemma NumberedInv(t: State, k: nat, minors: seq<nat>)
    requires Inv(t) && k in t.serials && t.serials[k] == NEW.(stage := Starting, disconnected := true)
    requires Distinct(minors) && forall m :: m in minors ==> m !in t.table
    ensures
      var u := AllAdded(Step(t, Number(k, minors)), k);
      && Enabled(u, GoLive(k)) && Inv(Step(u, GoLive(k)))
      && Step(u, GoLive(k)) == AfterRegister(t, k, minors)
  {
    var u := Step(t, Number(k, minors));
    StepKeepsInv(t, Number(k, minors));
    AllAddedInv(u, k);
    StepKeepsInv(AllAdded(u, k), GoLive(k));
    LiveComposes(t, u, AllAdded(u, k), k, minors);
  }

  lemma LiveComposes(t: State, u: State, v: State, k: nat, minors: seq<nat>)
    requires k in t.serials && t.serials[k] == NEW.(stage := Starting, disconnected := true)
    requires Enabled(t, Number(k, minors)) && u == Step(t, Number(k, minors))
    requires v == With(u, k, u.serials[k].(added := |minors|))
    ensures Enabled(v, GoLive(k)) && Step(v, GoLive(k)) == AfterRegister(t, k, minors)
  {
    assert Step(v, GoLive(k)).serials == AfterRegister(t, k, minors).serials;
  }

  /** A successful probe: creation, flag, minors, one device_add after the other, going live. */
  lemma RegisterIsRun(s: State, k: nat, minors: seq<nat>)
    requires Inv(s) && k !in s.serials && Distinct(minors) && forall m :: m in minors ==> m !in s.table
    ensures
      var u := AllAdded(Step(Step(Step(s, Create(k)), SetUp(k)), Number(k, minors)), k);
      && Enabled(u, GoLive(k)) && AfterRegister(s, k, minors) == Step(u, GoLive(k))
    ensures Inv(AfterRegister(s, k, minors))
  {
    var t := Step(Step(s, Create(k)), SetUp(k));
    StartedInv(s, k);
    NumberedInv(t, k, minors);
    RegisterReplaced(s, k, t.serials[k], minors);
  }

  lemma GiveUpSettles(s: State, t: State, k: nat, started: bool)
    requires Inv(t) && t == With(s, k, if started then NEW.(stage := Starting, disconnected := true) else NEW)
    ensures Enabled(t, GiveUp(k)) && Enabled(Step(t, GiveUp(k)), Finish(k))
    ensures AfterFailure(s, k, started) == Step(Step(t, GiveUp(k)), Finish(k)) && Inv(AfterFailure(s, k, started))
  {
    var x := NEW.(stage := Failed, disconnected := started);
    PutSettles(t, k, x, GiveUp(k));
    PutReplaced(s, k, t.serials[k], x);
  }

  lemma FailureIsRun(s: State, k: nat, started: bool)
    requires Inv(s) && k !in s.serials
    ensures
      var t := if started then Step(Step(s, Create(k)), SetUp(k)) else Step(s, Create(k));
      AfterFailure(s, k, started) == Step(Step(t, GiveUp(k)), Finish(k))
    ensures Inv(AfterFailure(s, k, started))
    ensures AfterFailure(s, k, started).table == s.table
  {
    if started {
      StartedInv(s, k);
      GiveUpSettles(s, Step(Step(s, Create(k)), SetUp(k)), k, true);
    } else {
      StepKeepsInv(s, Create(k));
      GiveUpSettles(s, Step(s, Create(k)), k, false);
    }
  }

  lemma DisconnectIsRun(s: State, k: nat)
    requires Inv(s) && Enabled(s, Disconnect(k))
    ensures s.serials[k].refs > 0
    ensures AfterDisconnect(s, k) == Settled(Step(Step(s, Disconnect(k)), DropProbe(k)), k)
    ensures Inv(AfterDisconnect(s, k))
  {
    var t := Step(s, Disconnect(k));
    var x := s.serials[k].(stage := Left, disconnected := true);
    StepKeepsInv(s, Disconnect(k));
    PutReplaced(s, k, t.serials[k], x);
    assert Step(t, DropProbe(k)).serials == With(t, k, Put(x)).serials;
    PutSettles(t, k, x, DropProbe(k));
  }

  lemma EmptyInv()
    ensures Inv(State(map[], map[]))
  {
  }
}
