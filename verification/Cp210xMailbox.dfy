/** The control-request mailbox of the CP210x driver in usbuart.c.

    Status polls restart themselves on the control pipe: each completion callback submits the next one.
    A client thread slips a request into that stream through the context's iStatus, a three-valued flag
    (0 free, 1 posted, 2 being served), and spins until it is 0 again. Every write of the client and every callback
    is one step of the model. */
module Cp210xMailbox {
  import opened Wrappers

  /** The fields of a control request. */
  datatype Request = Request(bmRequestType: nat, bRequest: nat, wValue: nat, wIndex: nat, wLength: nat, buffer: nat)

  const ZEROED: Request := Request(0, 0, 0, 0, 0, 0)

  datatype Context = Context(iStatus: nat, fields: Request)

  // ---------------------------------------------------------------- the driver's half

  datatype Driver = Driver(context: Option<Context>, present: bool, busy: bool)

  datatype Submission = StatusPoll | ClientRequest(fields: Request)

  /** Whether a completion restarts the stream; `closed` is USB_STATUS_CLOSED. */
  predicate Running(d: Driver, closed: bool) {
    !closed && d.present && d.busy
  }

  function WithStatus(d: Driver, status: nat): Driver {
    if d.context.Some? then d.(context := Some(d.context.value.(iStatus := status))) else d
  }

  predicate Status(d: Driver, status: nat) {
    d.context.Some? && d.context.value.iStatus == status
  }

  /** The driver after a completion, and what it submits. */
  function Callback(d: Driver, closed: bool): (Driver, Option<Submission>) {
    if !Running(d, closed) then (WithStatus(d, 0), None)
    else if Status(d, 1) then (WithStatus(d, 2), Some(ClientRequest(d.context.value.fields)))
    else if Status(d, 2) then (WithStatus(d, 0), Some(StatusPoll))
    else (d, Some(StatusPoll))
  }

  /** An open device with a zeroed context, or with none if there is no memory for it. */
  function Opened(d: Driver, memory: bool): Driver {
    d.(busy := true, context := if memory then Some(Context(0, ZEROED)) else None)
  }

  /** The context goes; a transfer that is still outstanding stays. */
  function Closed(d: Driver): Driver {
    d.(busy := false, context := None)
  }

  /** A posted request: all its fields, and the flag 1. */
  function PostedTo(d: Driver, r: Request): Driver {
    d.(context := Some(Context(1, r)))
  }

  class MailboxContext {
    var iStatus: nat
    var bmRequestType: nat
    var bRequest: nat
    var wValue: nat
    var wIndex: nat
    var wLength: nat
    var buffer: nat

    ghost function View(): Context
      reads this
    {
      Context(iStatus, Request(bmRequestType, bRequest, wValue, wIndex, wLength, buffer))
    }

    constructor ()
      ensures View() == Context(0, ZEROED)
    {
      iStatus, bmRequestType, bRequest, wValue, wIndex, wLength, buffer := 0, 0, 0, 0, 0, 0, 0;
    }
  }

  class Device {
    var context: MailboxContext?
    var present: bool
    var busy: bool

    ghost function View(): Driver
      reads this, context
    {
      Driver(if context == null then None else Some(context.View()), present, busy)
    }

    constructor ()
      ensures View() == Driver(None, true, false)
    {
      context, present, busy := null, true, false;
    }

    /** The CP210x part of Callback_Intr; the result is the transfer it asks for. */
    method CallbackIntr(closed: bool) returns (submission: Option<Submission>)
      modifies context
      ensures (View(), submission) == Callback(old(View()), closed)
    {
      submission := None;
      if !closed && present && busy {
        var restart := true;
        if context != null {
          if context.iStatus == 1 {
            context.iStatus := 2;
            restart := false;
            submission := Some(ClientRequest(Request(context.bmRequestType, context.bRequest, context.wValue,
                                                     context.wIndex, context.wLength, context.buffer)));
          } else if context.iStatus == 2 {
            context.iStatus := 0;
          }
        }
        if restart {
          submission := Some(StatusPoll);
        }
      } else {
        if context != null {
          context.iStatus := 0;
        }
      }
    }

    /** The CP210x part of ProcCmd_OPEN_UART, behind the enable request it waits for; `memory` says whether
        the context can be allocated. The stream starts in either case. */
    method OpenUart(memory: bool) returns (submission: Option<Submission>)
      requires present && !busy
      modifies this
      ensures View() == Opened(old(View()), memory) && submission == Some(StatusPoll)
    {
      busy := true;
      context := null;
      if memory {
        context := new MailboxContext();
      }
      submission := Some(StatusPoll);
    }

    /** The CP210x part of ProcCmd_CLOSE_DEVICE. */
    method CloseDevice()
      modifies this
      ensures View() == Closed(old(View()))
    {
      busy := false;
      if context != null {
        context := null;
      }
    }

    /** Lcp210x__usb_control_msg up to its waiting loop; `posted` tells whether it enters that loop. */
    method PostRequest(r: Request) returns (posted: bool)
      modifies context
      ensures posted <==> Status(old(View()), 0)
      ensures View() == if posted then PostedTo(old(View()), r) else old(View())
    {
      posted := false;
      if context != null && context.iStatus == 0 {
        context.bRequest := r.bRequest;
        context.bmRequestType := r.bmRequestType;
        context.wValue := r.wValue;
        context.wIndex := r.wIndex;
        context.buffer := r.buffer;
        context.wLength := r.wLength;
        context.iStatus := 1;
        posted := true;
      }
    }
  }

  // ---------------------------------------------------------------- client, driver and pipe together

  /** What the client thread is doing; `n` fields of the request are written. */
  datatype Client = Idle | Writing(r: Request, n: nat) | Waiting(r: Request)

  /** A transfer on the control pipe. A client request is tagged with the number of its posting. */
  datatype Transfer = Poll | Control(ticket: nat, fields: Request)

  /** `pipe` holds the outstanding transfers, `log` every transfer submitted so far, `posted` every request posted;
      `lost` says that some submission has failed. */
  datatype State = State(driver: Driver, client: Client, pipe: seq<Transfer>, log: seq<Transfer>,
                         posted: seq<Request>, lost: bool)

  datatype Event =
    | Begin(r: Request)                                // the client finds a free mailbox
    | WriteField
    | Post                                             // iStatus := 1
    | Observe                                          // the client sees iStatus == 0
    | Complete(index: nat, closed: bool, ok: bool)     // a callback; `ok`: its submission succeeds
    | Unplug
    | Close
    | Open(memory: bool, ok: bool)

  /** The n-th write of the client, in the order of the source. */
  function WriteNth(f: Request, r: Request, n: nat): Request {
    if n == 0 then f.(bRequest := r.bRequest)
    else if n == 1 then f.(bmRequestType := r.bmRequestType)
    else if n == 2 then f.(wValue := r.wValue)
    else if n == 3 then f.(wIndex := r.wIndex)
    else if n == 4 then f.(buffer := r.buffer)
    else f.(wLength := r.wLength)
  }

  /** The fields hold the first n writes. */
  predicate Written(f: Request, r: Request, n: nat) {
    && (n > 0 ==> f.bRequest == r.bRequest)
    && (n > 1 ==> f.bmRequestType == r.bmRequestType)
    && (n > 2 ==> f.wValue == r.wValue)
    && (n > 3 ==> f.wIndex == r.wIndex)
    && (n > 4 ==> f.buffer == r.buffer)
    && (n > 5 ==> f.wLength == r.wLength)
  }

  /** Steps the two parties can take. A single client: it is not waiting while it opens or closes. */
  predicate Enabled(s: State, e: Event) {
    match e
    case Begin(_) => s.client.Idle? && Status(s.driver, 0)
    case WriteField => s.client.Writing? && s.client.n < 6 && s.driver.context.Some?
    case Post => s.client.Writing? && s.client.n == 6 && s.driver.context.Some?
    case Observe => s.client.Waiting? && Status(s.driver, 0)
    case Complete(i, _, _) => i < |s.pipe|
    case Unplug => true
    case Close => s.client.Idle? && s.driver.busy
    case Open(_, _) => s.client.Idle? && s.driver.present && !s.driver.busy
  }

  function Submit(s: State, t: Transfer, ok: bool): State {
    s.(log := s.log + [t], pipe := if ok then s.pipe + [t] else s.pipe, lost := s.lost || !ok)
  }

  function Step(s: State, e: Event): State
    requires Enabled(s, e)
  {
    match e
    case Begin(r) => s.(client := Writing(r, 0))
    case WriteField =>
      var c := s.driver.context.value;
      s.(client := s.client.(n := s.client.n + 1),
         driver := s.driver.(context := Some(c.(fields := WriteNth(c.fields, s.client.r, s.client.n)))))
    case Post => s.(client := Waiting(s.client.r), driver := WithStatus(s.driver, 1), posted := s.posted + [s.client.r])
    case Observe => s.(client := Idle)
    case Complete(i, closed, ok) =>
      var (d, submission) := Callback(s.driver, closed);
      var s1 := s.(driver := d, pipe := s.pipe[..i] + s.pipe[i + 1..]);
      (match submission
       case None => s1
       case Some(StatusPoll) => Submit(s1, Poll, ok)
       case Some(ClientRequest(f)) => Submit(s1, Control(if s.posted == [] then 0 else |s.posted| - 1, f), ok))
    case Unplug => s.(driver := s.driver.(present := false))
    case Close => s.(driver := Closed(s.driver))
    case Open(memory, ok) => Submit(s.(driver := Opened(s.driver, memory)), Poll, ok)
  }

  /** The device is closed, and no transfer runs. */
  ghost predicate Initial(s: State) {
    s.driver == Driver(None, s.driver.present, false) && s.client.Idle? && s.pipe == [] && s.log == []
    && s.posted == [] && !s.lost
  }

  // ---------------------------------------------------------------- the invariant

  /** One transfer at most; it is the last one submitted; a client request runs only under iStatus 2,
      and under iStatus 2 nothing else runs. */
  ghost predicate PipeInv(s: State) {
    && |s.pipe| <= 1
    && (s.pipe != [] ==> s.log != [] && s.pipe[0] == s.log[|s.log| - 1])
    && (s.pipe != [] ==> (s.pipe[0].Control? <==> Status(s.driver, 2)))
    && (Status(s.driver, 2) && !s.lost ==> s.pipe != [])
  }

  /** The client's own view of the mailbox. */
  ghost predicate ClientInv(s: State) {
    && (s.driver.context.Some? ==> s.driver.context.value.iStatus <= 2)
    && (Status(s.driver, 1) || Status(s.driver, 2) ==> s.client.Waiting?)
    && (s.client.Writing? ==> s.driver.context.Some? && s.client.n <= 6
                              && Written(s.driver.context.value.fields, s.client.r, s.client.n))
    && (s.client.Waiting? ==> s.driver.context.Some? && s.driver.context.value.fields == s.client.r
                              && s.posted != [] && s.posted[|s.posted| - 1] == s.client.r)
  }

  /** Every posting is submitted at most once, with exactly its fields and in the order of posting;
      the one still waiting for its turn has not been submitted; and two client requests
      are never submitted without a poll in between. */
  ghost predicate LogInv(s: State) {
    && (forall i :: 0 <= i < |s.log| && s.log[i].Control? ==>
          s.log[i].ticket < |s.posted| && s.log[i].fields == s.posted[s.log[i].ticket])
    && (forall i, j :: 0 <= i < j < |s.log| && s.log[i].Control? && s.log[j].Control? ==>
          s.log[i].ticket < s.log[j].ticket)
    && (Status(s.driver, 1) ==>
          forall i :: 0 <= i < |s.log| && s.log[i].Control? ==> s.log[i].ticket < |s.posted| - 1)
    && (forall i, j :: 0 <= i && j == i + 1 && j < |s.log| && s.log[j].Control? ==> s.log[i] == Poll)
    && (s.pipe != [] && s.pipe[0].Control? ==> s.pipe[0].ticket == |s.posted| - 1)
  }

  ghost predicate Inv(s: State) {
    PipeInv(s) && ClientInv(s) && LogInv(s)
  }

  /** The step does not put a second stream beside a running one. */
  ghost predicate Proper(s: State, e: Event) {
    Enabled(s, e) && (e.Open? && e.ok ==> s.pipe == [])
  }

  lemma {:induction false} StepKeepsPipe(s: State, e: Event)
    requires Inv(s) && Proper(s, e)
    ensures PipeInv(Step(s, e))
  {
    match e {
      case Complete(i, closed, ok) =>
        CompleteKeepsPipe(s, closed, ok);
      case Begin(_) =>
      case WriteField =>
      case Post =>
      case Observe =>
      case Unplug =>
      case Close =>
      case Open(_, _) =>
    }
  }

  lemma CompleteKeepsPipe(s: State, closed: bool, ok: bool)
    requires PipeInv(s) && ClientInv(s) && s.pipe != []
    ensures PipeInv(Step(s, Complete(0, closed, ok)))
  {
    assert s.pipe[..0] + s.pipe[1..] == [];
  }

  lemma {:induction false} StepKeepsClient(s: State, e: Event)
    requires Inv(s) && Proper(s, e)
    ensures ClientInv(Step(s, e))
  {
  }

  lemma {:induction false} StepKeepsLog(s: State, e: Event)
    requires Inv(s) && Proper(s, e)
    ensures LogInv(Step(s, e))
  {
    match e {
      case Complete(i, closed, ok) =>
        CompleteKeepsLog(s, closed, ok);
      case Open(memory, ok) =>
        PollKeepsLog(s, Step(s, e));
      case Begin(_) =>
      case WriteField =>
      case Post =>
      case Observe =>
      case Unplug =>
      case Close =>
    }
  }

  /** A poll behind the log. */
  lemma PollKeepsLog(s: State, s': State)
    requires LogInv(s) && s'.log == s.log + [Poll] && s'.posted == s.posted
    requires !Status(s'.driver, 1) && (s'.pipe == [] || s'.pipe == [Poll])
    ensures LogInv(s')
  {
  }

  /** A client request behind the log: the last entry was a poll, and the ticket is new. */
  lemma RequestKeepsLog(s: State, s': State, t: Transfer)
    requires LogInv(s) && PipeInv(s) && ClientInv(s) && s.pipe != [] && Status(s.driver, 1)
    requires t == Control(|s.posted| - 1, s.driver.context.value.fields)
    requires s'.log == s.log + [t] && s'.posted == s.posted
    requires !Status(s'.driver, 1) && (s'.pipe == [] || s'.pipe == [t])
    ensures LogInv(s')
  {
    assert s.log[|s.log| - 1] == Poll;
  }

  lemma CompleteKeepsLog(s: State, closed: bool, ok: bool)
    requires Inv(s) && s.pipe != []
    ensures LogInv(Step(s, Complete(0, closed, ok)))
  {
    var s' := Step(s, Complete(0, closed, ok));
    assert s.pipe[..0] + s.pipe[1..] == [];
    if Running(s.driver, closed) {
      if Status(s.driver, 1) {
        RequestKeepsLog(s, s', s'.log[|s'.log| - 1]);
      } else {
        PollKeepsLog(s, s');
      }
    }
  }

  lemma StepKeepsInv(s: State, e: Event)
    requires Inv(s) && Proper(s, e)
    ensures Inv(Step(s, e))
  {
    StepKeepsPipe(s, e);
    StepKeepsClient(s, e);
    StepKeepsLog(s, e);
  }

  ghost predicate Possible(s: State, events: seq<Event>)
    decreases |events|
  {
    events == [] || (Enabled(s, events[0]) && Possible(Step(s, events[0]), events[1..]))
  }

  ghost function Run(s: State, events: seq<Event>): State
    requires Possible(s, events)
    decreases |events|
  {
    if events == [] then s else Run(Step(s, events[0]), events[1..])
  }

  // ---------------------------------------------------------------- which schedules keep the invariant

  /** What the opens, closes and completions seen so far tell: is the device open, is it present, and has the last
      submission not completed yet? */
  datatype Watch = Watch(open: bool, present: bool, owed: bool)

  function Watched(w: Watch, e: Event): Watch {
    match e
    case Open(_, ok) => w.(open := true, owed := w.owed || ok)
    case Close => w.(open := false)
    case Unplug => w.(present := false)
    case Complete(_, closed, ok) => w.(owed := w.open && w.present && !closed && ok)
    case Begin(_) => w
    case WriteField => w
    case Post => w
    case Observe => w
  }

  /** No open of the schedule comes before the completion that an earlier session still owes. */
  predicate Waits(w: Watch, events: seq<Event>)
    decreases |events|
  {
    events == [] || ((events[0].Open? && events[0].ok ==> !w.owed) && Waits(Watched(w, events[0]), events[1..]))
  }

  function WatchOf(s: State): Watch {
    Watch(s.driver.busy, s.driver.present, s.pipe != [])
  }

  lemma WatchFollows(s: State, e: Event)
    requires Inv(s) && Proper(s, e)
    ensures WatchOf(Step(s, e)) == Watched(WatchOf(s), e)
  {
  }

  /** Every interleaving of client and callbacks, across any number of sessions. */
  lemma {:induction false} RunKeepsInv(s: State, events: seq<Event>)
    requires Inv(s) && Possible(s, events) && Waits(WatchOf(s), events)
    ensures Inv(Run(s, events))
    decreases |events|
  {
    if events != [] {
      StepKeepsInv(s, events[0]);
      WatchFollows(s, events[0]);
      RunKeepsInv(Step(s, events[0]), events[1..]);
    }
  }

  /** At most one transfer is outstanding all along the run. */
  ghost predicate OneTransfer(s: State, events: seq<Event>)
    requires Possible(s, events)
    decreases |events|
  {
    |s.pipe| <= 1 && (events != [] ==> OneTransfer(Step(s, events[0]), events[1..]))
  }

  /** The transfers never overlap, exactly in the schedules that wait. */
  lemma {:induction false} OneTransferExactly(s: State, events: seq<Event>)
    requires Inv(s) && Possible(s, events)
    ensures OneTransfer(s, events) <==> Waits(WatchOf(s), events)
    decreases |events|
  {
    if events != [] {
      var e := events[0];
      if Proper(s, e) {
        StepKeepsInv(s, e);
        WatchFollows(s, e);
        OneTransferExactly(Step(s, e), events[1..]);
      } else {
        assert |Step(s, e).pipe| == 2;
      }
    }
  }

  // ---------------------------------------------------------------- consequences

  /** The outstanding transfer is the request the client waits for. */
  ghost predicate OwnTransfer(s: State) {
    s.client.Waiting? && s.posted != [] && s.pipe == [Control(|s.posted| - 1, s.client.r)]
  }

  /** While no submission has failed, iStatus is 2 exactly when the one outstanding transfer is the request posted last,
      and polls run only under 0 or 1. */
  lemma StatusTellsTransfer(s: State)
    requires Inv(s) && !s.lost
    ensures Status(s.driver, 2) <==> OwnTransfer(s)
    ensures s.pipe == [Poll] ==> !Status(s.driver, 2)
  {
    if Status(s.driver, 2) {
      assert s.pipe[0] == s.log[|s.log| - 1];
    }
  }

  /** A waiting client is released only by the completion of its own request or by the stop of the stream. */
  lemma ReleasedByOwnCompletion(s: State, e: Event)
    requires Inv(s) && Proper(s, e) && s.client.Waiting? && !Status(s.driver, 0) && Status(Step(s, e).driver, 0)
    ensures e.Complete?
    ensures Running(s.driver, e.closed) ==> OwnTransfer(s)
  {
    assert s.pipe[0] == s.log[|s.log| - 1];
  }

  /** Completions and unplugging: all that can happen while the client spins. */
  predicate WhileWaiting(e: Event) {
    e.Unplug? || (e.Complete? && e.ok)
  }

  /** How many completions the waiting client is still away from its release. */
  function Pending(s: State): nat {
    if Status(s.driver, 1) then 2 else if Status(s.driver, 2) then 1 else 0
  }

  function Completions(events: seq<Event>): nat {
    if events == [] then 0 else (if events[0].Complete? then 1 else 0) + Completions(events[1..])
  }

  lemma {:induction false} CompletionCounts(s: State, e: Event)
    requires Inv(s) && Proper(s, e) && WhileWaiting(e) && (Pending(s) > 0 ==> s.pipe != [])
    ensures
      var s' := Step(s, e);
      && (Pending(s') > 0 ==> s'.pipe != [])
      && (Pending(s') == 0 || Pending(s') + (if e.Complete? then 1 else 0) <= Pending(s))
  {
  }

  /** A request posted while a transfer is outstanding is released within two completions, if submissions succeed. */
  lemma {:induction false} ReleasedWithinTwo(s: State, events: seq<Event>)
    requires Inv(s) && Possible(s, events) && (Pending(s) > 0 ==> s.pipe != [])
    requires forall e :: e in events ==> WhileWaiting(e)
    ensures Pending(Run(s, events)) == 0 || Pending(Run(s, events)) + Completions(events) <= Pending(s)
    ensures Completions(events) >= 2 ==> Pending(Run(s, events)) == 0
    decreases |events|
  {
    if events != [] {
      var e := events[0];
      CompletionCounts(s, e);
      StepKeepsInv(s, e);
      ReleasedWithinTwo(Step(s, e), events[1..]);
    }
  }

  /** On an open, present device a transfer is outstanding, unless a submission has failed. */
  ghost predicate Streaming(s: State) {
    s.driver.present && s.driver.busy && !s.lost ==> s.pipe != []
  }

  /** The USB stack has not closed the pipe under the driver. */
  predicate PipeStays(e: Event) {
    e.Complete? ==> !e.closed
  }

  lemma StepKeepsStream(s: State, e: Event)
    requires Inv(s) && Streaming(s) && Proper(s, e) && PipeStays(e)
    ensures Streaming(Step(s, e))
  {
  }

  /** The stream of transfers never dries up by itself. */
  lemma {:induction false} RunKeepsStream(s: State, events: seq<Event>)
    requires Inv(s) && Streaming(s) && Possible(s, events) && Waits(WatchOf(s), events)
    requires forall e :: e in events ==> PipeStays(e)
    ensures Streaming(Run(s, events))
    decreases |events|
  {
    if events != [] {
      StepKeepsInv(s, events[0]);
      StepKeepsStream(s, events[0]);
      WatchFollows(s, events[0]);
      RunKeepsStream(Step(s, events[0]), events[1..]);
    }
  }

  /** Whatever has happened since the start, a request posted on an open, present device is released
      within two completions; only failed submissions and a pipe closed by the USB stack are excluded. */
  lemma {:induction false} ReleasedOnLiveDevice(start: State, before: seq<Event>, after: seq<Event>)
    requires Initial(start) && Possible(start, before) && Waits(WatchOf(start), before)
    requires forall e :: e in before ==> PipeStays(e)
    requires
      var s := Run(start, before);
      s.driver.present && s.driver.busy && !s.lost && Possible(s, after)
    requires (forall e :: e in after ==> WhileWaiting(e)) && Completions(after) >= 2
    ensures Pending(Run(Run(start, before), after)) == 0
  {
    InitialInv(start);
    RunKeepsInv(start, before);
    RunKeepsStream(start, before);
    ReleasedWithinTwo(Run(start, before), after);
  }

  /** Without an outstanding transfer, after a failed submission or on a stopped stream, nothing ever releases it. */
  lemma {:induction false} NeverReleasedWithoutTransfer(s: State, events: seq<Event>)
    requires Inv(s) && Possible(s, events) && s.pipe == [] && Pending(s) > 0
    ensures Pending(Run(s, events)) == Pending(s)
    decreases |events|
  {
    if events != [] {
      assert events[0] == Unplug;
      StepKeepsInv(s, Unplug);
      NeverReleasedWithoutTransfer(Step(s, Unplug), events[1..]);
    }
  }

  // ---------------------------------------------------------------- closing and opening again

  predicate AfterClose(e: Event) {
    e.Unplug? || e.Complete?
  }

  lemma ClosedStep(s: State, e: Event)
    requires Inv(s) && !s.driver.busy && s.client.Idle? && Enabled(s, e) && AfterClose(e)
    ensures
      var r := Step(s, e);
      && !r.driver.busy && r.client.Idle?
      && (r.pipe == [] <==> s.pipe == [] || e.Complete?)
      && (e.Complete? ==> r.driver.present == s.driver.present)
  {
  }

  lemma {:induction false} ClosedDrains(s: State, events: seq<Event>)
    requires Inv(s) && !s.driver.busy && s.client.Idle? && Possible(s, events)
    requires forall e :: e in events ==> AfterClose(e)
    ensures
      var r := Run(s, events);
      && Inv(r) && !r.driver.busy && r.client.Idle?
      && (r.pipe == [] <==> s.pipe == [] || Completions(events) > 0)
      && ((forall e :: e in events ==> e.Complete?) ==> r.driver.present == s.driver.present)
    decreases |events|
  {
    if events != [] {
      var e := events[0];
      assert AfterClose(e) by {
        assert e in events;
      }
      StepKeepsInv(s, e);
      ClosedStep(s, e);
      ClosedDrains(Step(s, e), events[1..]);
    }
  }

  /** The pipe of a closed device is idle exactly if it was idle when the device was closed
      or one completion has come since. */
  lemma {:induction false} IdleAfterCompletion(s: State, events: seq<Event>)
    requires Inv(s) && Enabled(s, Close) && Possible(Step(s, Close), events)
    requires forall e :: e in events ==> AfterClose(e)
    ensures Run(Step(s, Close), events).pipe == [] <==> s.pipe == [] || Completions(events) > 0
  {
    StepKeepsInv(s, Close);
    ClosedDrains(Step(s, Close), events);
  }

  /** Reopening a live device: the two streams do not overlap exactly if the poll of the first one
      has completed between the close and the open. */
  lemma {:induction false} ReopenOverlapsExactly(s: State, between: seq<Event>, memory: bool)
    requires Inv(s) && Streaming(s) && !s.lost && s.driver.present && Enabled(s, Close)
    requires Possible(Step(s, Close), between) && forall e :: e in between ==> e.Complete?
    ensures
      var r := Run(Step(s, Close), between);
      && Enabled(r, Open(memory, true))
      && (|Step(r, Open(memory, true)).pipe| <= 1 <==> Completions(between) > 0)
  {
    StepKeepsInv(s, Close);
    ClosedDrains(Step(s, Close), between);
  }

  const FRESH: State := State(Driver(None, true, false), Idle, [], [], [], false)
  const REQUEST: Request := Request(1, 2, 3, 4, 5, 6)

  /** Open, close, open: two streams run. */
  const OVERLAP: seq<Event> := [Open(true, true), Close, Open(true, true)]

  const OVERLAPPED: State :=
    State(Driver(Some(Context(0, ZEROED)), true, true), Idle, [Poll, Poll], [Poll, Poll], [], false)

  lemma RunCons(s: State, e: Event, rest: seq<Event>)
    requires Enabled(s, e) && Possible(Step(s, e), rest)
    ensures Possible(s, [e] + rest) && Run(s, [e] + rest) == Run(Step(s, e), rest)
  {
    assert ([e] + rest)[1..] == rest;
  }

  lemma OverlapReached()
    ensures Initial(FRESH) && Possible(FRESH, OVERLAP) && Run(FRESH, OVERLAP) == OVERLAPPED
    ensures !Waits(WatchOf(FRESH), OVERLAP) && |OVERLAPPED.pipe| == 2
  {
    var a, b, c := OVERLAP[0], OVERLAP[1], OVERLAP[2];
    var s1 := Step(FRESH, a);
    var s2 := Step(s1, b);
    RunCons(s2, c, []);
    RunCons(s1, b, [c]);
    RunCons(FRESH, a, [b, c]);
    assert [b] + [c] == [b, c] && [a] + [b, c] == OVERLAP && [c] + [] == [c];
    assert OVERLAP[1..] == [b, c] && OVERLAP[1..][1..] == [c];
  }

  /** A call of Lcp210x__usb_control_msg, up to its waiting loop, that nothing interrupts. */
  function Posting(r: Request, n: nat): seq<Event>
    requires n <= 6
    decreases 6 - n
  {
    if n == 6 then [Post] else [WriteField] + Posting(r, n + 1)
  }

  function Posted(s: State, r: Request): State {
    s.(client := Waiting(r), posted := s.posted + [r], driver := PostedTo(s.driver, r))
  }

  lemma {:induction false} WritesAll(s: State, r: Request, n: nat)
    requires s.driver.context.Some? && s.client == Writing(r, n) && n <= 6 && Written(s.driver.context.value.fields, r, n)
    ensures Possible(s, Posting(r, n)) && Run(s, Posting(r, n)) == Posted(s, r)
    decreases 6 - n
  {
    if n == 6 {
      RunCons(s, Post, []);
      assert [Post] + [] == [Post];
    } else {
      WritesAll(Step(s, WriteField), r, n + 1);
      RunCons(s, WriteField, Posting(r, n + 1));
    }
  }

  /** The writes of the client, one by one, amount to what PostRequest does at once. */
  lemma PostingPosts(s: State, r: Request)
    requires Enabled(s, Begin(r))
    ensures Possible(s, [Begin(r)] + Posting(r, 0)) && Run(s, [Begin(r)] + Posting(r, 0)) == Posted(s, r)
  {
    WritesAll(Step(s, Begin(r)), r, 0);
    RunCons(s, Begin(r), Posting(r, 0));
  }

  /** In an overlap a client can be released while its request is still running: the poll of the other stream
      completes under iStatus 2. */
  lemma OverlapReleasesEarly()
    ensures
      var s := Posted(OVERLAPPED, REQUEST);
      && Possible(OVERLAPPED, [Begin(REQUEST)] + Posting(REQUEST, 0))
      && Run(OVERLAPPED, [Begin(REQUEST)] + Posting(REQUEST, 0)) == s
      && var t := Step(s, Complete(0, false, true));
      && Status(t.driver, 2) && t.pipe == [Poll, Control(0, REQUEST)]
      && var u := Step(t, Complete(0, false, true));
         Status(u.driver, 0) && Enabled(u, Observe) && u.pipe == [Control(0, REQUEST), Poll]
  {
    PostingPosts(OVERLAPPED, REQUEST);
  }

  // ---------------------------------------------------------------- the context

  /** Whether a schedule leaves a context: its last open found memory, and no close came after it. */
  function LeavesContext(before: bool, events: seq<Event>): bool
    decreases |events|
  {
    if events == [] then before
    else
      LeavesContext(if events[0].Open? then events[0].memory else if events[0].Close? then false else before, events[1..])
  }

  /** The driver has a context exactly while a session that could allocate one is open, so the mailbox takes requests
      only on an open device. */
  lemma {:induction false} ContextExactly(s: State, events: seq<Event>)
    requires Possible(s, events) && (s.driver.context.Some? ==> s.driver.busy)
    ensures
      var d := Run(s, events).driver;
      && (d.context.Some? <==> LeavesContext(s.driver.context.Some?, events))
      && (d.context.Some? ==> d.busy)
    ensures forall r :: Enabled(Run(s, events), Begin(r)) ==> Run(s, events).driver.busy
    decreases |events|
  {
    if events != [] {
      ContextStep(s, events[0]);
      ContextExactly(Step(s, events[0]), events[1..]);
    }
  }

  lemma ContextStep(s: State, e: Event)
    requires Enabled(s, e) && (s.driver.context.Some? ==> s.driver.busy)
    ensures
      var d := Step(s, e).driver;
      && (d.context.Some? <==> if e.Open? then e.memory else if e.Close? then false else s.driver.context.Some?)
      && (d.context.Some? ==> d.busy)
  {
  }

  lemma InitialInv(s: State)
    requires Initial(s)
    ensures Inv(s)
  {
  }
}
