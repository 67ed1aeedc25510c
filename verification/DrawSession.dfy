/**
 The life of a draw packet (src/client/client.rs): received by the UI thread, decoded on the decode
 thread, returned through the event queue and acknowledged on the socket. Both queues are first in,
 first out; a step is what one thread does between two points where the other may run.
 */
module DrawSession {
  import opened Wrappers
  import opened Ints
  import Mmap
  import Window

  // What decoding a draw yields: pixels, none of them for a frame that is not ready yet, or a failure.
  datatype Decoded = Pixels(bytes: Window.Buffer) | Failure

  // `id` numbers the draws as received; `size` is how many fields the packet has, `fields` are those a
  // shared-memory draw looks at, and `decoded` is what its decoder makes of it.
  datatype Draw = Draw(id: nat, wid: nat, x: i32, y: i32, w: u32, h: u32, size: nat, coding: string,
                       fields: Mmap.DrawFields, decoded: Decoded)

  // The decode thread reads the fields up to the sequence number before anything else.
  const DRAW_FIELDS: nat := 9

  // An mmap draw whose chunk list parses: ring space comes back for it. `area` says whether this
  // client has a shared area at all.
  predicate UsesRing(area: bool, d: Draw) {
    area && d.coding == "mmap" && Mmap.HasList(d.fields)
  }

  // Anything else makes the decode thread panic: a field that is not there, or the lookup of a
  // missing `rgb_format` once the list has parsed.
  predicate Sound(area: bool, d: Draw) {
    d.size >= DRAW_FIELDS && !(UsesRing(area, d) && Mmap.FormatPanics(d.fields))
  }

  datatype Status = Shown | NoWindow | DecodeError

  predicate HasFrame(decoded: Decoded) {
    decoded.Pixels? && decoded.bytes != []
  }

  // What `paint` is given.
  function Painting(d: Draw, bytes: Window.Buffer): Window.Draw {
    Window.Draw(d.x, d.y, d.w, d.h, d.coding in {"jpeg", "h264", "webp", "mmap"}, bytes)
  }

  // Painting the draw stops the UI thread at an index out of bounds.
  predicate Stops(windows: map<nat, Window.Size>, d: Draw, decoded: Decoded) {
    HasFrame(decoded) && d.wid in windows && Window.Panics(windows[d.wid], Painting(d, decoded.bytes))
  }

  // What waits for the UI thread.
  datatype Event =
    | DrawPacket(draw: Draw)
    | Result(draw: Draw, decoded: Decoded)
    | NewWindow(wid: nat, size: Window.Size, managed: bool)   // `managed`: not override-redirect
    | LostWindow(wid: nat)
    | Resized(wid: nat, size: Window.Size)
    | EndOfStream
    | Quit(code: int)       // disconnect, connection-lost, invalid-packet, ...
    | Speaks                // anything answered with a packet of another kind

  datatype Job = Decode(draw: Draw) | Drop

  datatype Packet = Ack(draw: Draw, status: Status) | OtherPacket

  // What happened, in order: on the decode thread, and to the windows and acks.
  datatype Trace =
    | Released(draw: Draw)
    | Posted(draw: Draw, decoded: Decoded)
    | Opened(wid: nat)
    | Closed(wid: nat)
    | Painted(draw: Draw)
    | Acked(draw: Draw, status: Status)

  datatype State = State(
    events: seq<Event>,
    jobs: seq<Job>,
    unwinds: bool,              // a panic ends only its thread; otherwise it ends the process
    running: bool,              // the process is up
    alive: bool,                // the decode thread has not panicked
    inFlight: Option<Draw>,     // what it is decoding
    done: bool,                 // ... and whether that draw's ring space is back with the server
    windows: map<nat, Window.Size>,
    area: bool,                 // there is a shared area to read mmap draws from
    exitCode: Option<int>,
    wire: seq<Packet>,          // packets written to the server
    answered: seq<Draw>,        // draws the UI thread has acknowledged or tried to
    fatal: seq<Draw>,           // the draw the UI thread stopped at
    stuck: seq<Draw>,           // the draw the decode thread died on
    refused: seq<Draw>,         // draws the UI thread could not hand to a dead decode thread
    received: seq<Draw>,
    trace: seq<Trace>)

  datatype Action =
    | Receive(draw: Draw)
    | Arrive(event: Event)
    | Handle(works: bool)       // the UI thread takes one event; `works`: a write it makes succeeds
    | TakeJob
    | ReleaseRing
    | Post(decoded: Decoded)

  ghost predicate Enabled(s: State, a: Action) {
    s.running &&
    match a
    case Receive(d) =>
      // both sizes come from the same two fields
      d.id == |s.received| && d.fields.width == Wrap(d.w) && d.fields.height == Wrap(d.h)
    case Arrive(e) => !e.DrawPacket? && !e.Result?
    case Handle(_) => s.events != []
    case TakeJob => s.alive && s.inFlight.None? && s.jobs != []
    case ReleaseRing => s.inFlight.Some? && UsesRing(s.area, s.inFlight.value) && !s.done
    case Post(decoded) =>
      s.inFlight.Some? && decoded == s.inFlight.value.decoded && (UsesRing(s.area, s.inFlight.value) ==> s.done)
  }

  // `write_json`: dropped once an exit code is set; a failed write sets one and posts an event.
  function WriteJson(s: State, p: Packet, works: bool): State {
    if s.exitCode.Some? then s
    else if works then s.(wire := s.wire + [p])
    else s.(exitCode := Some(1), events := s.events + [Quit(1)])
  }

  function StatusOf(s: State, d: Draw, decoded: Decoded): Status {
    if decoded.Failure? then DecodeError
    else if d.wid in s.windows then Shown
    else NoWindow
  }

  // The trace once the UI thread has painted a decoded draw, if it has a frame and a window.
  function Drawn(s: State, d: Draw, decoded: Decoded): seq<Trace> {
    if HasFrame(decoded) && d.wid in s.windows then s.trace + [Painted(d)] else s.trace
  }

  // `process_draw_decoded` and `process_draw_failed`, up to the ack.
  function Answered(s: State, d: Draw, decoded: Decoded): State {
    s.(answered := s.answered + [d], trace := Drawn(s, d, decoded) + [Acked(d, StatusOf(s, d, decoded))])
  }

  // The UI thread's handlers, once it has taken the event.

  function Took(s: State): State
    requires s.events != []
  {
    s.(events := s.events[1..])
  }

  function OnDraw(s: State, d: Draw): State {
    if s.alive then s.(jobs := s.jobs + [Decode(d)]) else s.(refused := s.refused + [d])
  }

  function OnResult(s: State, d: Draw, decoded: Decoded, works: bool): State {
    if Stops(s.windows, d, decoded) then s.(fatal := s.fatal + [d], running := false)
    else WriteJson(Answered(s, d, decoded), Ack(d, StatusOf(s, d, decoded)), works)
  }

  function OnNewWindow(s: State, wid: nat, size: Window.Size, managed: bool, works: bool): State {
    var t := s.(windows := s.windows[wid := size], trace := s.trace + [Opened(wid)]);
    if managed then WriteJson(t, OtherPacket, works) else t
  }

  function OnResized(s: State, wid: nat, size: Window.Size, works: bool): State {
    if wid in s.windows then WriteJson(s.(windows := s.windows[wid := size]), OtherPacket, works) else s
  }

  // Window and stream ends are forwarded to the decode thread, which drops its decoder for them.
  function OnEnd(s: State): State {
    if s.alive then s.(jobs := s.jobs + [Drop]) else s
  }

  function OnLostWindow(s: State, wid: nat): State {
    OnEnd(s.(windows := s.windows - {wid}, trace := s.trace + [Closed(wid)]))
  }

  function OnQuit(s: State, code: int): State {
    if s.exitCode.Some? then s else s.(exitCode := Some(code))
  }

  // The UI thread handles one event.
  function HandleEvent(s: State, works: bool): State
    requires s.events != []
  {
    match s.events[0]
    case DrawPacket(d) => OnDraw(Took(s), d)
    case Result(d, decoded) => OnResult(Took(s), d, decoded, works)
    case NewWindow(wid, size, managed) => OnNewWindow(Took(s), wid, size, managed, works)
    case Resized(wid, size) => OnResized(Took(s), wid, size, works)
    case LostWindow(wid) => OnLostWindow(Took(s), wid)
    case EndOfStream => OnEnd(Took(s))
    case Quit(code) => OnQuit(Took(s), code)
    case Speaks => WriteJson(Took(s), OtherPacket, works)
  }

  // The decode thread takes one job.
  function StartJob(s: State): State
    requires s.jobs != []
  {
    if s.jobs[0].Drop? then s.(jobs := s.jobs[1..])
    else if Sound(s.area, s.jobs[0].draw) then
      s.(jobs := s.jobs[1..], inFlight := Some(s.jobs[0].draw), done := false)
    else
      s.(jobs := s.jobs[1..], alive := false, stuck := s.stuck + [s.jobs[0].draw], running := s.unwinds)
  }

  function Next(s: State, a: Action): State
    requires Enabled(s, a)
  {
    match a
    case Receive(d) => s.(events := s.events + [DrawPacket(d)], received := s.received + [d])
    case Arrive(e) => s.(events := s.events + [e])
    case Handle(works) => HandleEvent(s, works)
    case TakeJob => StartJob(s)
    case ReleaseRing => s.(done := true, trace := s.trace + [Released(s.inFlight.value)])
    case Post(decoded) =>
      s.(inFlight := None, events := s.events + [Result(s.inFlight.value, decoded)],
         trace := s.trace + [Posted(s.inFlight.value, decoded)])
  }

  ghost predicate Initial(s: State) {
    && s.events == [] && s.jobs == [] && s.running && s.alive && s.inFlight.None? && s.exitCode.None? && s.wire == []
    && s.answered == [] && s.stuck == [] && s.refused == [] && s.received == [] && s.trace == []
    && s.fatal == [] && s.windows == map[]
  }

  ghost predicate Runs(s: State, actions: seq<Action>)
    decreases |actions|
  {
    actions != [] ==> Enabled(s, actions[0]) && Runs(Next(s, actions[0]), actions[1..])
  }

  function After(s: State, actions: seq<Action>): State
    requires Runs(s, actions)
    decreases |actions|
  {
    if actions == [] then s else After(Next(s, actions[0]), actions[1..])
  }

  // ---------------------------------------------------------------- conservation

  function Waiting(events: seq<Event>): seq<Draw> {
    if events == [] then []
    else (if events[0].DrawPacket? then [events[0].draw] else []) + Waiting(events[1..])
  }

  function Results(events: seq<Event>): seq<Draw> {
    if events == [] then []
    else (if events[0].Result? then [events[0].draw] else []) + Results(events[1..])
  }

  function Queued(jobs: seq<Job>): seq<Draw> {
    if jobs == [] then []
    else (if jobs[0].Decode? then [jobs[0].draw] else []) + Queued(jobs[1..])
  }

  lemma EventsAppend(events: seq<Event>, e: Event)
    ensures Waiting(events + [e]) == if e.DrawPacket? then Waiting(events) + [e.draw] else Waiting(events)
    ensures Results(events + [e]) == if e.Result? then Results(events) + [e.draw] else Results(events)
  {
    WaitingAppend(events, e);
    ResultsAppend(events, e);
  }

  lemma {:induction false} WaitingAppend(events: seq<Event>, e: Event)
    ensures Waiting(events + [e]) == if e.DrawPacket? then Waiting(events) + [e.draw] else Waiting(events)
  {
    if events != [] {
      WaitingAppend(events[1..], e);
      assert (events + [e])[1..] == events[1..] + [e];
    }
  }

  lemma {:induction false} ResultsAppend(events: seq<Event>, e: Event)
    ensures Results(events + [e]) == if e.Result? then Results(events) + [e.draw] else Results(events)
  {
    if events != [] {
      ResultsAppend(events[1..], e);
      assert (events + [e])[1..] == events[1..] + [e];
    }
  }

  lemma HeadOfEvents(events: seq<Event>)
    requires events != []
    ensures Waiting(events) == if events[0].DrawPacket? then [events[0].draw] + Waiting(events[1..]) else Waiting(events[1..])
    ensures Results(events) == if events[0].Result? then [events[0].draw] + Results(events[1..]) else Results(events[1..])
  {
  }

  lemma {:induction false} JobsAppend(jobs: seq<Job>, j: Job)
    ensures Queued(jobs + [j]) == if j.Decode? then Queued(jobs) + [j.draw] else Queued(jobs)
  {
    if jobs != [] {
      JobsAppend(jobs[1..], j);
      assert (jobs + [j])[1..] == jobs[1..] + [j];
    }
  }

  function Flying(s: State): seq<Draw> {
    if s.inFlight.Some? then [s.inFlight.value] else []
  }

  // On its way back to the UI thread or past it, with the decode thread, and still ahead of it.
  function Front(s: State): seq<Draw> { s.answered + (s.fatal + Results(s.events)) }

  function Middle(s: State): seq<Draw> { Flying(s) + s.stuck + Queued(s.jobs) }

  function Back(s: State): seq<Draw> { s.refused + Waiting(s.events) }

  // Every draw, from the oldest answered to the newest received.
  function Everywhere(s: State): seq<Draw> {
    Front(s) + (Middle(s) + Back(s))
  }

  predicate Healthy(s: State) {
    s.running == (s.fatal == [] && (s.unwinds || s.alive)) &&
    if s.alive then s.stuck == [] && s.refused == []
    else s.inFlight.None? && |s.stuck| == 1 && !Sound(s.area, s.stuck[0])
  }

  predicate Conserved(s: State) {
    Everywhere(s) == s.received && Healthy(s)
  }

  // A write changes only the wire, the exit code and perhaps the tail of the event queue.
  lemma WriteKeepsDraws(s: State, p: Packet, works: bool)
    ensures var t := WriteJson(s, p, works);
      && Waiting(t.events) == Waiting(s.events) && Results(t.events) == Results(s.events)
      && t == s.(events := t.events, exitCode := t.exitCode, wire := t.wire)
  {
    EventsAppend(s.events, Quit(1));
  }

  lemma Regroup(x: seq<Draw>, y: seq<Draw>, z: seq<Draw>)
    ensures (x + y) + z == x + (y + z)
  {
  }

  lemma OnDrawConserves(s: State)
    requires Conserved(s) && s.events != [] && s.events[0].DrawPacket?
    ensures Conserved(OnDraw(Took(s), s.events[0].draw))
  {
    HeadOfEvents(s.events);
    JobsAppend(s.jobs, Decode(s.events[0].draw));
    hide Waiting, Results, Queued;
    if s.alive { HandToDecoder(s); } else { RefuseDraw(s); }
  }

  lemma HandToDecoder(s: State)
    requires Conserved(s) && s.events != [] && s.events[0].DrawPacket? && s.alive
    requires var d := s.events[0].draw;
      Waiting(s.events) == [d] + Waiting(s.events[1..]) && Results(s.events) == Results(s.events[1..])
      && Queued(s.jobs + [Decode(d)]) == Queued(s.jobs) + [d]
    ensures Conserved(OnDraw(Took(s), s.events[0].draw))
  {
    hide Waiting, Results, Queued, Sound;
    var d, rest := s.events[0].draw, Waiting(s.events[1..]);
    var t := s.(events := s.events[1..], jobs := s.jobs + [Decode(d)]);
    assert Front(t) == Front(s) && Middle(t) == Middle(s) + [d] && Back(s) == [d] + rest && Back(t) == rest;
    hide Front;
    Regroup(Middle(s), [d], rest);
  }

  lemma RefuseDraw(s: State)
    requires Conserved(s) && s.events != [] && s.events[0].DrawPacket? && !s.alive
    requires Waiting(s.events) == [s.events[0].draw] + Waiting(s.events[1..])
    requires Results(s.events) == Results(s.events[1..])
    ensures Conserved(OnDraw(Took(s), s.events[0].draw))
  {
    hide Waiting, Results, Queued, Sound;
    Regroup(s.refused, [s.events[0].draw], Waiting(s.events[1..]));
  }

  // A step that moves no draw between the three parts.
  lemma SameParts(s: State, t: State)
    requires Conserved(s) && t.received == s.received && Healthy(t)
    requires Front(t) == Front(s)
    requires Middle(t) == Middle(s)
    requires t.refused == s.refused && Waiting(t.events) == Waiting(s.events)
    ensures Conserved(t)
  {
  }

  // A step that leaves the decode thread alone and only moves results on.
  lemma Untouched(s: State, t: State)
    requires Conserved(s)
    requires t.area == s.area && t.received == s.received && t.alive == s.alive && t.inFlight == s.inFlight && t.stuck == s.stuck
    requires t.refused == s.refused && Queued(t.jobs) == Queued(s.jobs) && Waiting(t.events) == Waiting(s.events)
    requires Front(t) == Front(s) && t.unwinds == s.unwinds && t.running == (t.fatal == [] && (t.unwinds || t.alive))
    ensures Conserved(t)
  {
  }

  // The UI thread stops at the draw whose result it took.
  lemma StopConserves(s: State, t: State)
    requires Conserved(s) && s.running && s.events != [] && s.events[0].Result?
    requires t == s.(events := s.events[1..], fatal := s.fatal + [s.events[0].draw], running := false)
    ensures Conserved(t) && Front(t) == Front(s)
  {
    HeadOfEvents(s.events);
    hide Waiting, Results, Queued, Sound;
    Regroup(s.fatal, [s.events[0].draw], Results(t.events));
    Untouched(s, t);
  }

  lemma FrontUnstopped(s: State)
    requires s.fatal == []
    ensures Front(s) == s.answered + Results(s.events)
  {
    hide Results;
  }

  lemma AnsweredConserves(s: State)
    requires Conserved(s) && s.running && s.events != [] && s.events[0].Result?
    ensures var t := Answered(Took(s), s.events[0].draw, s.events[0].decoded); Conserved(t) && Front(t) == Front(s)
  {
    var d := s.events[0].draw;
    HeadOfEvents(s.events);
    hide Waiting, Results, Queued, Sound, StatusOf, Drawn, Front, Middle, Back, Everywhere;
    var t := Answered(Took(s), d, s.events[0].decoded);
    FrontUnstopped(s);
    FrontUnstopped(t);
    Regroup(s.answered, [d], Results(s.events[1..]));
    Untouched(s, t);
  }

  lemma WriteConserves(s: State, p: Packet, works: bool)
    requires Conserved(s)
    ensures var t := WriteJson(s, p, works); Conserved(t) && Front(t) == Front(s)
  {
    WriteKeepsDraws(s, p, works);
    hide Waiting, Results, Queued, Sound, WriteJson;
    Untouched(s, WriteJson(s, p, works));
  }

  lemma OnResultConserves(s: State, works: bool)
    requires Conserved(s) && s.running && s.events != [] && s.events[0].Result?
    ensures var t := OnResult(Took(s), s.events[0].draw, s.events[0].decoded, works);
      Conserved(t) && Front(t) == Front(s)
  {
    hide Conserved, Front, WriteJson, StatusOf, Stops, Answered;
    var d, decoded := s.events[0].draw, s.events[0].decoded;
    if Stops(s.windows, d, decoded) {
      StopConserves(s, Took(s).(fatal := s.fatal + [d], running := false));
    } else {
      AnsweredConserves(s);
      WriteConserves(Answered(Took(s), d, decoded), Ack(d, StatusOf(Took(s), d, decoded)), works);
    }
  }

  // Taking any other event leaves the draws where they are, and so do the handlers of those.
  lemma TookConserves(s: State)
    requires Conserved(s) && s.events != [] && !s.events[0].DrawPacket? && !s.events[0].Result?
    ensures Conserved(Took(s)) && Front(Took(s)) == Front(s)
  {
    HeadOfEvents(s.events);
    hide Waiting, Results, Queued, Sound;
    Untouched(s, Took(s));
  }

  lemma WindowsConserve(s: State, windows: map<nat, Window.Size>, trace: seq<Trace>)
    requires Conserved(s)
    ensures var t := s.(windows := windows, trace := trace); Conserved(t) && Front(t) == Front(s)
  {
    hide Waiting, Results, Queued, Sound;
    Untouched(s, s.(windows := windows, trace := trace));
  }

  lemma OnEndConserves(s: State)
    requires Conserved(s)
    ensures Conserved(OnEnd(s)) && Front(OnEnd(s)) == Front(s)
  {
    JobsAppend(s.jobs, Drop);
    hide Waiting, Results, Queued, Sound;
    Untouched(s, OnEnd(s));
  }

  lemma OnQuitConserves(s: State, code: int)
    requires Conserved(s)
    ensures Conserved(OnQuit(s, code)) && Front(OnQuit(s, code)) == Front(s)
  {
    hide Waiting, Results, Queued, Sound;
    Untouched(s, OnQuit(s, code));
  }

  lemma HandleConserves(s: State, works: bool)
    requires Conserved(s) && s.running && s.events != []
    ensures Conserved(HandleEvent(s, works))
    ensures !s.events[0].DrawPacket? ==> Front(HandleEvent(s, works)) == Front(s)
  {
    hide Conserved, Front, WriteJson, OnDraw, OnResult, OnEnd, OnQuit, Took;
    var e := s.events[0];
    if e.DrawPacket? { OnDrawConserves(s); }
    else if e.Result? { OnResultConserves(s, works); }
    else {
      TookConserves(s);
      var t := Took(s);
      match e
      case NewWindow(wid, size, managed) =>
        WindowsConserve(t, t.windows[wid := size], t.trace + [Opened(wid)]);
        WriteConserves(t.(windows := t.windows[wid := size], trace := t.trace + [Opened(wid)]), OtherPacket, works);
      case Resized(wid, size) =>
        WindowsConserve(t, t.windows[wid := size], t.trace);
        WriteConserves(t.(windows := t.windows[wid := size], trace := t.trace), OtherPacket, works);
      case LostWindow(wid) =>
        WindowsConserve(t, t.windows - {wid}, t.trace + [Closed(wid)]);
        OnEndConserves(t.(windows := t.windows - {wid}, trace := t.trace + [Closed(wid)]));
      case EndOfStream => OnEndConserves(t);
      case Quit(code) => OnQuitConserves(t, code);
      case Speaks => WriteConserves(t, OtherPacket, works);
    }
  }

  lemma SameFront(s: State, t: State)
    requires t.answered == s.answered && t.fatal == s.fatal && t.events == s.events
    ensures Front(t) == Front(s)
  {
  }

  lemma FirstJob(jobs: seq<Job>)
    requires jobs != []
    ensures Queued(jobs) == (if jobs[0].Decode? then [jobs[0].draw] else []) + Queued(jobs[1..])
  {
  }

  // The decode thread's own part of the state.
  predicate Unit(s: State, jobs: seq<Job>, inFlight: Option<Draw>, alive: bool, running: bool, stuck: seq<Draw>) {
    s.jobs == jobs && s.inFlight == inFlight && s.alive == alive && s.running == running && s.stuck == stuck
  }

  lemma StartJobParts(s: State)
    requires s.jobs != []
    ensures var t, rest := StartJob(s), s.jobs[1..];
      if s.jobs[0].Drop? then Unit(t, rest, s.inFlight, s.alive, s.running, s.stuck)
      else if Sound(s.area, s.jobs[0].draw) then Unit(t, rest, Some(s.jobs[0].draw), s.alive, s.running, s.stuck)
      else Unit(t, rest, s.inFlight, false, s.unwinds, s.stuck + [s.jobs[0].draw])
  {
    hide Sound, UsesRing;
    if s.jobs[0].Drop? {
    } else if Sound(s.area, s.jobs[0].draw) {
    } else {
    }
  }

  lemma StartJobKeeps(s: State)
    requires s.jobs != []
    ensures var t := StartJob(s);
      && t.answered == s.answered && t.fatal == s.fatal && t.events == s.events && t.unwinds == s.unwinds
      && t.received == s.received && t.refused == s.refused && t.area == s.area
  {
    hide Sound, UsesRing;
    if s.jobs[0].Drop? {
    } else if Sound(s.area, s.jobs[0].draw) {
    } else {
    }
  }

  // A job taken goes from the queue into the air, or is what the thread dies of.
  lemma TakeJobMiddle(s: State)
    requires Healthy(s) && Enabled(s, TakeJob)
    ensures Middle(StartJob(s)) == Middle(s) && Healthy(StartJob(s))
  {
    FirstJob(s.jobs);
    StartJobParts(s);
    StartJobKeeps(s);
    hide Queued, Sound, UsesRing, StartJob;
    assert s.stuck == [] && Flying(s) == [] && Middle(s) == Queued(s.jobs);
  }

  lemma TakeJobConserves(s: State)
    requires Conserved(s) && Enabled(s, TakeJob)
    ensures Conserved(StartJob(s))
  {
    TakeJobMiddle(s);
    StartJobKeeps(s);
    hide Waiting, Results, Everywhere, Front, Middle, Healthy, Sound, UsesRing, StartJob, Enabled;
    SameFront(s, StartJob(s));
    SameParts(s, StartJob(s));
  }

  lemma PostConserves(s: State, decoded: Decoded)
    requires Conserved(s) && Enabled(s, Post(decoded))
    ensures Conserved(Next(s, Post(decoded)))
  {
    var d := s.inFlight.value;
    EventsAppend(s.events, Result(d, decoded));
    hide Waiting, Results, Queued, Sound, UsesRing;
    var rest, back := s.stuck + Queued(s.jobs), Back(s);
    PostFront(s, decoded);
    hide Front;
    Regroup([d], s.stuck, Queued(s.jobs));
    Regroup(Front(s), [d], rest + back);
    Regroup([d], rest, back);
  }

  lemma ReceiveConserves(s: State, d: Draw)
    requires Conserved(s)
    ensures Conserved(s.(events := s.events + [DrawPacket(d)], received := s.received + [d]))
  {
    EventsAppend(s.events, DrawPacket(d));
    hide Waiting, Results, Queued;
    var u := s.(events := s.events + [DrawPacket(d)], received := s.received + [d]);
    Regroup(s.refused, Waiting(s.events), [d]);
    assert Front(u) == Front(s) && Middle(u) == Middle(s) && Back(u) == Back(s) + [d];
    Regroup(Middle(s), Back(s), [d]);
    Regroup(Front(s), Middle(s) + Back(s), [d]);
  }

  lemma {:induction false} StepConserves(s: State, a: Action)
    requires Conserved(s) && Enabled(s, a)
    ensures Conserved(Next(s, a))
  {
    hide Waiting, Results, Queued, HandleEvent, StartJob;
    match a
    case Receive(d) => ReceiveConserves(s, d);
    case Arrive(e) => EventsAppend(s.events, e);
    case Handle(works) => HandleConserves(s, works);
    case TakeJob => TakeJobConserves(s);
    case ReleaseRing =>
    case Post(decoded) => PostConserves(s, decoded);
  }

  // ---------------------------------------------------------------- the exit code and the wire

  function Acks(wire: seq<Packet>): seq<Draw> {
    if wire == [] then []
    else Acks(wire[..|wire| - 1]) + if wire[|wire| - 1].Ack? then [wire[|wire| - 1].draw] else []
  }

  // Until there is an exit code every answer is on the wire; afterwards only the earlier ones are.
  predicate WireFollows(s: State) {
    Acks(s.wire) <= s.answered && (s.exitCode.None? ==> Acks(s.wire) == s.answered)
  }

  lemma WriteFollows(s: State, p: Packet, works: bool)
    requires if s.exitCode.Some? then Acks(s.wire) <= s.answered
             else s.answered == if p.Ack? then Acks(s.wire) + [p.draw] else Acks(s.wire)
    ensures WireFollows(WriteJson(s, p, works))
    ensures s.exitCode.Some? ==> WriteJson(s, p, works) == s
  {
  }

  // The exit code and the wire are final once there is an exit code.
  predicate Final(s: State, t: State) {
    s.exitCode.Some? ==> t.exitCode == s.exitCode && t.wire == s.wire
  }

  lemma OtherFollows(s: State, works: bool)
    requires WireFollows(s)
    ensures WireFollows(WriteJson(s, OtherPacket, works)) && Final(s, WriteJson(s, OtherPacket, works))
  {
    WriteFollows(s, OtherPacket, works);
    hide Acks, WriteJson;
  }

  lemma OnResultFollows(s: State, d: Draw, decoded: Decoded, works: bool)
    requires WireFollows(s)
    ensures WireFollows(OnResult(s, d, decoded, works)) && Final(s, OnResult(s, d, decoded, works))
  {
    hide Acks, WriteJson, Stops, StatusOf, Drawn;
    WriteFollows(Answered(s, d, decoded), Ack(d, StatusOf(s, d, decoded)), works);
  }

  lemma OnDrawFollows(s: State, d: Draw)
    requires WireFollows(s)
    ensures WireFollows(OnDraw(s, d)) && Final(s, OnDraw(s, d))
  {
    hide Acks;
  }

  lemma OnQuitFollows(s: State, code: int)
    requires WireFollows(s)
    ensures WireFollows(OnQuit(s, code)) && Final(s, OnQuit(s, code))
  {
    hide Acks;
  }

  lemma OnNewFollows(s: State, wid: nat, size: Window.Size, managed: bool, works: bool)
    requires WireFollows(s)
    ensures var t := OnNewWindow(s, wid, size, managed, works); WireFollows(t) && Final(s, t)
    ensures var t := OnResized(s, wid, size, works); WireFollows(t) && Final(s, t)
  {
    hide Acks, WriteJson;
    OtherFollows(s.(windows := s.windows[wid := size], trace := s.trace + [Opened(wid)]), works);
    OtherFollows(s.(windows := s.windows[wid := size]), works);
  }

  lemma OnEndFollows(s: State, wid: nat)
    requires WireFollows(s)
    ensures WireFollows(OnEnd(s)) && Final(s, OnEnd(s))
    ensures WireFollows(OnLostWindow(s, wid)) && Final(s, OnLostWindow(s, wid))
  {
    hide Acks;
  }

  lemma TookFollows(s: State, t: State)
    requires WireFollows(s) && s.events != []
    ensures WireFollows(Took(s)) && (Final(Took(s), t) ==> Final(s, t))
  {
    hide Acks;
  }

  lemma HandleKeepsWire(s: State, works: bool)
    requires WireFollows(s) && s.events != []
    ensures WireFollows(HandleEvent(s, works)) && Final(s, HandleEvent(s, works))
  {
    var t := Took(s);
    TookFollows(s, HandleEvent(s, works));
    hide WireFollows, Final, Took;
    HandlerFollows(s, t, works);
  }

  lemma HandlerFollows(s: State, t: State, works: bool)
    requires s.events != [] && t == Took(s) && WireFollows(t)
    ensures WireFollows(HandleEvent(s, works)) && Final(t, HandleEvent(s, works))
  {
    hide WireFollows, Final, WriteJson, OnDraw, OnResult, OnNewWindow, OnResized, OnEnd, OnLostWindow, OnQuit, Took;
    match s.events[0]
    case DrawPacket(d) => OnDrawFollows(t, d);
    case Result(d, decoded) => OnResultFollows(t, d, decoded, works);
    case NewWindow(wid, size, managed) => OnNewFollows(t, wid, size, managed, works);
    case Resized(wid, size) => OnNewFollows(t, wid, size, false, works);
    case LostWindow(wid) => OnEndFollows(t, wid);
    case EndOfStream => OnEndFollows(t, 0);
    case Quit(code) => OnQuitFollows(t, code);
    case Speaks => OtherFollows(t, works);
  }

  // Once set, the exit code never changes and nothing more is written.
  lemma StepKeepsWire(s: State, a: Action)
    requires WireFollows(s) && Enabled(s, a)
    ensures WireFollows(Next(s, a))
    ensures s.exitCode.Some? ==> Next(s, a).exitCode == s.exitCode && Next(s, a).wire == s.wire
  {
    hide Acks, HandleEvent;
    if a.Handle? { HandleKeepsWire(s, a.works); }
  }

  // ---------------------------------------------------------------- releases come before acks

  function OnRing(area: bool, draws: seq<Draw>): seq<Draw> {
    if draws == [] then []
    else OnRing(area, draws[..|draws| - 1]) + if UsesRing(area, draws[|draws| - 1]) then [draws[|draws| - 1]] else []
  }

  function ReleasesIn(trace: seq<Trace>): seq<Draw> {
    if trace == [] then []
    else ReleasesIn(trace[..|trace| - 1]) + if trace[|trace| - 1].Released? then [trace[|trace| - 1].draw] else []
  }

  function PostedIn(trace: seq<Trace>): seq<Draw> {
    if trace == [] then []
    else PostedIn(trace[..|trace| - 1]) + if trace[|trace| - 1].Posted? then [trace[|trace| - 1].draw] else []
  }

  // Draws whose ring space is already back with the server: what is past the decode thread, and what
  // it has released itself.
  function Freed(s: State): seq<Draw> {
    if s.done && s.inFlight.Some? then Front(s) + [s.inFlight.value] else Front(s)
  }

  predicate Ordered(area: bool, trace: seq<Trace>) {
    forall i :: 0 <= i < |trace| && trace[i].Acked? && UsesRing(area, trace[i].draw) ==>
      Released(trace[i].draw) in trace[..i]
  }

  predicate ReleasedFirst(s: State) {
    ReleasesIn(s.trace) == OnRing(s.area, Freed(s)) && Ordered(s.area, s.trace) && PostedIn(s.trace) == Front(s)
  }

  lemma OnRingAppend(area: bool, draws: seq<Draw>, d: Draw)
    ensures OnRing(area, draws + [d]) == if UsesRing(area, d) then OnRing(area, draws) + [d] else OnRing(area, draws)
  {
    hide UsesRing;
  }

  lemma {:induction false} OnRingHas(area: bool, draws: seq<Draw>, d: Draw)
    requires d in draws && UsesRing(area, d)
    ensures d in OnRing(area, draws)
  {
    hide UsesRing;
    var last := |draws| - 1;
    if draws[last] != d { OnRingHas(area, draws[..last], d); }
  }

  lemma {:induction false} ReleasesHave(trace: seq<Trace>, d: Draw)
    requires d in ReleasesIn(trace)
    ensures Released(d) in trace
  {
    var last := |trace| - 1;
    if trace[last] != Released(d) { ReleasesHave(trace[..last], d); }
  }

  lemma TraceAppend(area: bool, trace: seq<Trace>, t: Trace)
    requires Ordered(area, trace) && (t.Acked? && UsesRing(area, t.draw) ==> Released(t.draw) in trace)
    ensures Ordered(area, trace + [t])
    ensures PostedIn(trace + [t]) == if t.Posted? then PostedIn(trace) + [t.draw] else PostedIn(trace)
    ensures ReleasesIn(trace + [t]) == if t.Released? then ReleasesIn(trace) + [t.draw] else ReleasesIn(trace)
  {
    hide UsesRing;
  }

  // The trace of a handled result: nothing, or the paint and the ack.
  lemma ResultTrace(s: State, d: Draw, decoded: Decoded, works: bool)
    ensures var t := OnResult(s, d, decoded, works);
      && t.inFlight == s.inFlight && t.done == s.done && t.area == s.area
      && (t.trace == s.trace || t.trace == Answered(s, d, decoded).trace)
  {
    hide Stops, StatusOf, Drawn, WriteJson, Waiting, Results;
    WriteKeepsDraws(Answered(s, d, decoded), Ack(d, StatusOf(s, d, decoded)), works);
  }

  lemma HeadIsFront(s: State)
    requires s.events != [] && s.events[0].Result?
    ensures s.events[0].draw in Front(s)
  {
    HeadOfEvents(s.events);
  }

  lemma ResultKeepsOrder(s: State, works: bool)
    requires ReleasedFirst(s) && Conserved(s) && s.events != [] && s.events[0].Result? && s.running
    ensures ReleasedFirst(OnResult(Took(s), s.events[0].draw, s.events[0].decoded, works))
  {
    hide OnResult, StatusOf, Drawn, Front, OnRing, ReleasesIn, PostedIn, UsesRing, Ordered, Conserved;
    var d, decoded := s.events[0].draw, s.events[0].decoded;
    OnResultConserves(s, works);
    ResultTrace(Took(s), d, decoded, works);
    HeadIsFront(s);
    if UsesRing(s.area, d) {
      assert d in Freed(s);
      OnRingHas(s.area, Freed(s), d);
      ReleasesHave(s.trace, d);
    }
    DrawnKeepsOrder(Took(s), d, decoded);
    TraceAppend(s.area, Drawn(Took(s), d, decoded), Acked(d, StatusOf(Took(s), d, decoded)));
  }

  lemma DrawnKeepsOrder(s: State, d: Draw, decoded: Decoded)
    requires Ordered(s.area, s.trace)
    ensures Ordered(s.area, Drawn(s, d, decoded)) && ReleasesIn(Drawn(s, d, decoded)) == ReleasesIn(s.trace)
    ensures PostedIn(Drawn(s, d, decoded)) == PostedIn(s.trace)
    ensures s.trace <= Drawn(s, d, decoded)
  {
    TraceAppend(s.area, s.trace, Painted(d));
    hide Ordered, ReleasesIn, PostedIn, UsesRing;
  }

  lemma SameFreed(s: State, t: State)
    requires ReleasedFirst(s) && Ordered(t.area, t.trace) && t.area == s.area
    requires ReleasesIn(t.trace) == ReleasesIn(s.trace) && PostedIn(t.trace) == PostedIn(s.trace)
    requires Freed(t) == Freed(s) && Front(t) == Front(s)
    ensures ReleasedFirst(t)
  {
  }

  // The front of the line is left alone and no release or ack is recorded.
  predicate Aside(s: State, t: State) {
    && t.inFlight == s.inFlight && t.done == s.done && t.area == s.area && Ordered(t.area, t.trace)
    && ReleasesIn(t.trace) == ReleasesIn(s.trace) && PostedIn(t.trace) == PostedIn(s.trace)
  }

  lemma WriteAside(s: State, t: State, p: Packet, works: bool)
    requires Aside(s, t)
    ensures Aside(s, WriteJson(t, p, works))
  {
    hide Ordered, ReleasesIn, PostedIn;
  }

  lemma TraceAside(s: State, t: State, windows: map<nat, Window.Size>, wid: nat)
    requires Aside(s, t)
    ensures Aside(s, t.(windows := windows))
    ensures Aside(s, t.(windows := windows, trace := t.trace + [Opened(wid)]))
    ensures Aside(s, t.(windows := windows, trace := t.trace + [Closed(wid)]))
  {
    TraceAppend(t.area, t.trace, Opened(wid));
    TraceAppend(t.area, t.trace, Closed(wid));
    hide Ordered, ReleasesIn, PostedIn;
  }

  lemma DrawAside(s: State, t: State, d: Draw)
    requires Aside(s, t)
    ensures Aside(s, OnDraw(t, d))
  {
    hide Ordered, ReleasesIn, PostedIn;
  }

  lemma TookAside(s: State)
    requires s.events != [] && Ordered(s.area, s.trace)
    ensures Aside(s, Took(s))
  {
    hide Ordered, ReleasesIn, PostedIn;
  }

  lemma HandleAside(s: State, works: bool)
    requires s.events != [] && !s.events[0].Result? && Ordered(s.area, s.trace)
    ensures Aside(s, HandleEvent(s, works))
  {
    hide Aside, WriteJson, OnDraw, OnEnd, OnQuit, Took, Ordered;
    var t := Took(s);
    TookAside(s);
    match s.events[0]
    case DrawPacket(d) => DrawAside(s, t, d);
    case NewWindow(wid, size, _) =>
      TraceAside(s, t, t.windows[wid := size], wid);
      WriteAside(s, t.(windows := t.windows[wid := size], trace := t.trace + [Opened(wid)]), OtherPacket, works);
    case Resized(wid, size) =>
      TraceAside(s, t, t.windows[wid := size], wid);
      WriteAside(s, t.(windows := t.windows[wid := size]), OtherPacket, works);
    case LostWindow(wid) =>
      TraceAside(s, t, t.windows - {wid}, wid);
      EndAside(s, t.(windows := t.windows - {wid}, trace := t.trace + [Closed(wid)]));
    case EndOfStream => EndAside(s, t);
    case Quit(code) => QuitAside(s, t, code);
    case Speaks => WriteAside(s, t, OtherPacket, works);
  }

  lemma EndAside(s: State, t: State)
    requires Aside(s, t)
    ensures Aside(s, OnEnd(t))
  {
    hide Ordered, ReleasesIn, PostedIn;
  }

  lemma QuitAside(s: State, t: State, code: int)
    requires Aside(s, t)
    ensures Aside(s, OnQuit(t, code))
  {
    hide Ordered, ReleasesIn, PostedIn;
  }

  // Handing a draw to the decode thread leaves the front alone too.
  lemma DrawFront(s: State)
    requires s.events != [] && s.events[0].DrawPacket?
    ensures Front(OnDraw(Took(s), s.events[0].draw)) == Front(s)
  {
    HeadOfEvents(s.events);
    hide Waiting, Results;
  }

  lemma HandleFront(s: State, works: bool)
    requires Conserved(s) && s.running && s.events != []
    ensures Front(HandleEvent(s, works)) == Front(s)
  {
    hide Conserved, Front, OnDraw;
    if s.events[0].DrawPacket? { DrawFront(s); } else { HandleConserves(s, works); }
  }

  lemma HandleKeepsOrder(s: State, works: bool)
    requires ReleasedFirst(s) && Conserved(s) && s.running && s.events != []
    ensures ReleasedFirst(HandleEvent(s, works))
  {
    if s.events[0].Result? {
      hide OnResult, ReleasedFirst, Conserved;
      ResultKeepsOrder(s, works);
    } else {
      hide HandleEvent, Conserved, Front, Waiting, Results, Ordered, ReleasesIn, PostedIn, UsesRing, OnRing;
      HandleFront(s, works);
      HandleAside(s, works);
      SameFreed(s, HandleEvent(s, works));
    }
  }

  lemma StepKeepsOrder(s: State, a: Action)
    requires ReleasedFirst(s) && Conserved(s) && Enabled(s, a)
    ensures ReleasedFirst(Next(s, a))
  {
    hide HandleEvent, Results, OnRing, ReleasesIn, PostedIn, UsesRing, Ordered, Conserved, Sound;
    match a
    case Handle(works) => HandleKeepsOrder(s, works);
    case Receive(d) => EventsAppend(s.events, DrawPacket(d));
    case Arrive(e) => EventsAppend(s.events, e);
    case TakeJob =>
      assert Freed(StartJob(s)) == Freed(s);
    case ReleaseRing =>
      var d := s.inFlight.value;
      OnRingAppend(s.area, Front(s), d);
      TraceAppend(s.area, s.trace, Released(d));
    case Post(decoded) => PostKeepsOrder(s, decoded);
  }

  lemma PostKeepsOrder(s: State, decoded: Decoded)
    requires ReleasedFirst(s) && Enabled(s, Post(decoded))
    ensures ReleasedFirst(Next(s, Post(decoded)))
  {
    PostChanges(s, decoded);
    PostFront(s, decoded);
    PostFreesNothing(s, decoded);
    hide Next, Enabled, Freed, Front, ReleasesIn, PostedIn, UsesRing, Ordered, OnRing;
    TraceAppend(s.area, s.trace, Posted(s.inFlight.value, decoded));
  }

  lemma PostChanges(s: State, decoded: Decoded)
    requires Enabled(s, Post(decoded))
    ensures var n := Next(s, Post(decoded));
      s.inFlight.Some? && n.area == s.area && n.trace == s.trace + [Posted(s.inFlight.value, decoded)]
  {
  }

  lemma PostFront(s: State, decoded: Decoded)
    requires Enabled(s, Post(decoded))
    ensures Front(Next(s, Post(decoded))) == Front(s) + [s.inFlight.value]
  {
    EventsAppend(s.events, Result(s.inFlight.value, decoded));
    hide Results, Waiting;
    Regroup(s.fatal, Results(s.events), [s.inFlight.value]);
    Regroup(s.answered, s.fatal + Results(s.events), [s.inFlight.value]);
  }

  lemma PostFreesNothing(s: State, decoded: Decoded)
    requires Enabled(s, Post(decoded))
    ensures OnRing(s.area, Freed(Next(s, Post(decoded)))) == OnRing(s.area, Freed(s))
  {
    var d := s.inFlight.value;
    OnRingAppend(s.area, Front(s), d);
    hide Waiting, OnRing;
    PostFront(s, decoded);
    hide Front;
    assert Freed(Next(s, Post(decoded))) == Front(s) + [d];
    hide Next;
  }

  // ---------------------------------------------------------------- acks say what happened

  // Window `wid` is open after what `trace` records.
  predicate OpenIn(trace: seq<Trace>, wid: nat) {
    trace != [] &&
    var last, before := trace[|trace| - 1], trace[..|trace| - 1];
    match last
    case Opened(w) => w == wid || OpenIn(before, wid)
    case Closed(w) => w != wid && OpenIn(before, wid)
    case _ => OpenIn(before, wid)
  }

  function Verdict(decoded: Decoded, open: bool): Status {
    if decoded.Failure? then DecodeError else if open then Shown else NoWindow
  }

  predicate EndsPainting(trace: seq<Trace>, d: Draw) {
    trace != [] && trace[|trace| - 1] == Painted(d)
  }

  // An ack of `d` may follow `before`: the decode thread posted the result it reports, and the draw
  // was painted just before exactly when there was a frame and a window to paint it in.
  predicate Justified(before: seq<Trace>, d: Draw, status: Status) {
    && Posted(d, d.decoded) in before && status == Verdict(d.decoded, OpenIn(before, d.wid))
    && (EndsPainting(before, d) <==> HasFrame(d.decoded) && OpenIn(before, d.wid))
  }

  predicate AcksJustified(trace: seq<Trace>) {
    forall i :: 0 <= i < |trace| && trace[i].Acked? ==> Justified(trace[..i], trace[i].draw, trace[i].status)
  }

  // Every paint is acked at once.
  predicate PaintsAcked(trace: seq<Trace>) {
    forall i :: 0 <= i < |trace| && trace[i].Painted? ==>
      i + 1 < |trace| && trace[i + 1] == Acked(trace[i].draw, Shown)
  }

  ghost predicate WindowsOpen(s: State) {
    forall wid: nat :: wid in s.windows <==> OpenIn(s.trace, wid)
  }

  predicate ResultsPosted(events: seq<Event>, trace: seq<Trace>) {
    forall e <- events :: e.Result? ==> e.decoded == e.draw.decoded && Posted(e.draw, e.decoded) in trace
  }

  predicate WireAcked(wire: seq<Packet>, trace: seq<Trace>) {
    forall p <- wire :: p.Ack? ==> Acked(p.draw, p.status) in trace
  }

  ghost predicate Truthful(s: State) {
    && AcksJustified(s.trace) && PaintsAcked(s.trace) && WindowsOpen(s)
    && ResultsPosted(s.events, s.trace) && WireAcked(s.wire, s.trace)
  }

  lemma Recorded(trace: seq<Trace>, t: Trace)
    requires AcksJustified(trace) && PaintsAcked(trace)
    requires !t.Painted? && (t.Acked? ==> Justified(trace, t.draw, t.status))
    ensures AcksJustified(trace + [t]) && PaintsAcked(trace + [t])
    ensures forall wid: nat :: OpenIn(trace + [t], wid) ==
              if t == Opened(wid) then true else if t == Closed(wid) then false else OpenIn(trace, wid)
  {
    var longer := trace + [t];
    hide Justified;
    assert longer[..|trace|] == trace;
    forall i | 0 <= i < |longer| && longer[i].Acked?
      ensures Justified(longer[..i], longer[i].draw, longer[i].status)
    {
      assert longer[..i] == trace[..i];
    }
  }

  lemma PaintRecorded(trace: seq<Trace>, d: Draw)
    requires AcksJustified(trace) && PaintsAcked(trace) && Justified(trace + [Painted(d)], d, Shown)
    ensures AcksJustified(trace + [Painted(d)] + [Acked(d, Shown)])
    ensures PaintsAcked(trace + [Painted(d)] + [Acked(d, Shown)])
    ensures forall wid: nat :: OpenIn(trace + [Painted(d)] + [Acked(d, Shown)], wid) == OpenIn(trace, wid)
  {
    var once := trace + [Painted(d)];
    var longer := once + [Acked(d, Shown)];
    hide Justified;
    assert longer[..|once|] == once && once[..|trace|] == trace;
    forall i | 0 <= i < |longer| && longer[i].Acked?
      ensures Justified(longer[..i], longer[i].draw, longer[i].status)
    {
      if i < |trace| { assert longer[..i] == trace[..i]; }
    }
  }

  // What the UI thread appends for a posted result is justified.
  lemma AnswerJustified(s: State, d: Draw)
    requires PaintsAcked(s.trace) && WindowsOpen(s) && Posted(d, d.decoded) in s.trace
    ensures Justified(Drawn(s, d, d.decoded), d, StatusOf(s, d, d.decoded))
  {
  }

  lemma AnswerTrace(s: State, d: Draw, decoded: Decoded)
    requires AcksJustified(s.trace) && PaintsAcked(s.trace)
    requires Justified(Drawn(s, d, decoded), d, StatusOf(s, d, decoded))
    ensures var trace := Answered(s, d, decoded).trace;
      && AcksJustified(trace) && PaintsAcked(trace) && s.trace <= trace
      && forall wid: nat :: OpenIn(trace, wid) == OpenIn(s.trace, wid)
  {
    hide Justified, OpenIn, AcksJustified, PaintsAcked, HasFrame;
    if HasFrame(decoded) && d.wid in s.windows {
      FrameShown(s, d, decoded);
      PaintRecorded(s.trace, d);
    } else {
      Recorded(s.trace, Acked(d, StatusOf(s, d, decoded)));
    }
  }

  lemma FrameShown(s: State, d: Draw, decoded: Decoded)
    requires HasFrame(decoded) && d.wid in s.windows
    ensures StatusOf(s, d, decoded) == Shown
  {
  }

  lemma LongerTrace(s: State, longer: seq<Trace>)
    requires ResultsPosted(s.events, s.trace) && WireAcked(s.wire, s.trace) && s.trace <= longer
    ensures ResultsPosted(s.events, longer) && WireAcked(s.wire, longer)
  {
  }

  lemma AnswerKeepsTruth(s: State, d: Draw)
    requires Truthful(s) && Posted(d, d.decoded) in s.trace
    ensures Truthful(Answered(s, d, d.decoded))
    ensures Acked(d, StatusOf(s, d, d.decoded)) in Answered(s, d, d.decoded).trace
  {
    AnswerJustified(s, d);
    hide Justified, OpenIn, AcksJustified, PaintsAcked, ResultsPosted, WireAcked, StatusOf, Drawn;
    AnswerTrace(s, d, d.decoded);
    LongerTrace(s, Answered(s, d, d.decoded).trace);
  }

  lemma WriteKeepsTruth(s: State, p: Packet, works: bool)
    requires Truthful(s) && (p.Ack? ==> Acked(p.draw, p.status) in s.trace)
    ensures Truthful(WriteJson(s, p, works))
  {
    hide Justified, OpenIn, AcksJustified, PaintsAcked;
  }

  lemma TookKeepsTruth(s: State)
    requires Truthful(s) && s.events != []
    ensures Truthful(Took(s))
    ensures s.events[0].Result? ==>
              var d := s.events[0].draw; s.events[0].decoded == d.decoded && Posted(d, d.decoded) in s.trace
  {
    hide Justified, OpenIn, AcksJustified, PaintsAcked, WireAcked;
  }

  lemma OnResultKeepsTruth(s: State, d: Draw, works: bool)
    requires Truthful(s) && Posted(d, d.decoded) in s.trace
    ensures Truthful(OnResult(s, d, d.decoded, works))
  {
    hide Stops, WriteJson, Answered, StatusOf, AcksJustified, PaintsAcked, OpenIn;
    if !Stops(s.windows, d, d.decoded) {
      AnswerKeepsTruth(s, d);
      WriteKeepsTruth(Answered(s, d, d.decoded), Ack(d, StatusOf(s, d, d.decoded)), works);
    }
  }

  lemma WindowsKeepTruth(s: State, wid: nat, size: Window.Size)
    requires Truthful(s)
    ensures Truthful(s.(windows := s.windows[wid := size], trace := s.trace + [Opened(wid)]))
    ensures wid in s.windows ==> Truthful(s.(windows := s.windows[wid := size]))
  {
    Recorded(s.trace, Opened(wid));
    LongerTrace(s, s.trace + [Opened(wid)]);
    hide Justified, OpenIn, AcksJustified, PaintsAcked, ResultsPosted, WireAcked;
  }

  lemma OnLostKeepsTruth(s: State, wid: nat)
    requires Truthful(s)
    ensures Truthful(OnLostWindow(s, wid)) && Truthful(OnEnd(s))
  {
    Recorded(s.trace, Closed(wid));
    LongerTrace(s, s.trace + [Closed(wid)]);
    hide Justified, OpenIn, AcksJustified, PaintsAcked, ResultsPosted, WireAcked;
  }

  lemma OnQuitKeepsTruth(s: State, code: int)
    requires Truthful(s)
    ensures Truthful(OnQuit(s, code))
  {
    hide Justified, OpenIn, AcksJustified, PaintsAcked, ResultsPosted, WireAcked;
  }

  lemma OnDrawKeepsTruth(s: State, d: Draw)
    requires Truthful(s)
    ensures Truthful(OnDraw(s, d))
  {
    hide Justified, OpenIn, AcksJustified, PaintsAcked, ResultsPosted, WireAcked;
  }

  lemma HandleKeepsTruth(s: State, works: bool)
    requires Truthful(s) && s.events != []
    ensures Truthful(HandleEvent(s, works))
  {
    TookKeepsTruth(s);
    var t := Took(s);
    assert t.trace == s.trace;
    hide Truthful, WriteJson, OnDraw, OnResult, OnEnd, OnLostWindow, OnQuit, Took;
    match s.events[0]
    case DrawPacket(d) => OnDrawKeepsTruth(t, d);
    case Result(d, decoded) => OnResultKeepsTruth(t, d, works);
    case NewWindow(wid, size, managed) =>
      WindowsKeepTruth(t, wid, size);
      WriteKeepsTruth(t.(windows := t.windows[wid := size], trace := t.trace + [Opened(wid)]), OtherPacket, works);
    case Resized(wid, size) =>
      WindowsKeepTruth(t, wid, size);
      if wid in t.windows { WriteKeepsTruth(t.(windows := t.windows[wid := size]), OtherPacket, works); }
    case LostWindow(wid) => OnLostKeepsTruth(t, wid);
    case EndOfStream => OnLostKeepsTruth(t, 0);
    case Quit(code) => OnQuitKeepsTruth(t, code);
    case Speaks => WriteKeepsTruth(t, OtherPacket, works);
  }

  lemma PostKeepsTruth(s: State, decoded: Decoded)
    requires Truthful(s) && Enabled(s, Post(decoded))
    ensures Truthful(Next(s, Post(decoded)))
  {
    var posted := Posted(s.inFlight.value, decoded);
    Recorded(s.trace, posted);
    LongerTrace(s, s.trace + [posted]);
    hide AcksJustified, PaintsAcked, OpenIn, UsesRing, WireAcked;
  }

  lemma StepKeepsTruth(s: State, a: Action)
    requires Truthful(s) && Enabled(s, a)
    ensures Truthful(Next(s, a))
  {
    hide HandleEvent, AcksJustified, PaintsAcked, OpenIn, UsesRing, Sound;
    match a
    case Handle(works) => HandleKeepsTruth(s, works);
    case ReleaseRing => Recorded(s.trace, Released(s.inFlight.value));
    case Post(decoded) => PostKeepsTruth(s, decoded);
    case _ =>
  }

  // ---------------------------------------------------------------- whole runs

  ghost predicate Inv(s: State) {
    Conserved(s) && WireFollows(s) && ReleasedFirst(s) && Truthful(s)
  }

  lemma {:induction false} RunKeepsInv(s: State, actions: seq<Action>)
    requires Inv(s) && Runs(s, actions)
    ensures Inv(After(s, actions))
    ensures s.exitCode.Some? ==> After(s, actions).exitCode == s.exitCode && After(s, actions).wire == s.wire
    decreases |actions|
  {
    hide Enabled, Next, Conserved, WireFollows, ReleasedFirst, Truthful;
    if actions != [] {
      StepConserves(s, actions[0]);
      StepKeepsWire(s, actions[0]);
      StepKeepsOrder(s, actions[0]);
      StepKeepsTruth(s, actions[0]);
      RunKeepsInv(Next(s, actions[0]), actions[1..]);
    }
  }

  lemma InitialInv(s: State)
    requires Initial(s)
    ensures Inv(s)
  {
  }

  lemma WhereDrawsAre(e: State)
    requires Conserved(e)
    ensures e.received == Everywhere(e) && e.answered <= Front(e) <= e.received
    ensures e.alive ==> e.received == Front(e) + (Flying(e) + Queued(e.jobs) + Waiting(e.events))
  {
  }

  lemma FreedIsPrefix(e: State)
    requires Conserved(e)
    ensures e.alive ==> Freed(e) <= e.received
  {
  }

  // Under every interleaving each draw received is in exactly one place, in order; answered ones are
  // the oldest, and while there is no exit code the acks on the wire are exactly those.
  lemma ExactlyOnce(s: State, actions: seq<Action>)
    requires Initial(s) && Runs(s, actions)
    ensures var e := After(s, actions);
      && e.received == Everywhere(e) && e.answered <= e.received
      && Acks(e.wire) <= e.answered && (e.exitCode.None? ==> Acks(e.wire) == e.answered)
      && (e.alive ==> e.received == Front(e) + (Flying(e) + Queued(e.jobs) + Waiting(e.events)))
  {
    hide Runs, After, Conserved, ReleasedFirst, Truthful, Everywhere, Front, Flying;
    InitialInv(s);
    RunKeepsInv(s, actions);
    WhereDrawsAre(After(s, actions));
  }

  // ---------------------------------------------------------------- the same, in the packet's own terms

  lemma RingDraws(area: bool, d: Draw)
    ensures UsesRing(area, d) <==> area && d.coding == "mmap" && exists chunks :: Mmap.Parses(d.fields, chunks)
  {
    Mmap.HasListMeans(d.fields);
  }

  // Nine fields, and no list of chunks beside options without a format.
  lemma SoundDraws(area: bool, d: Draw)
    ensures Sound(area, d) <==>
            && d.size >= 9
            && !(area && d.coding == "mmap" && (exists chunks :: Mmap.Parses(d.fields, chunks)) &&
                 d.fields.options.Some? && d.fields.options.value.Hash? &&
                 "rgb_format" !in d.fields.options.value.entries)
  {
    RingDraws(area, d);
    hide UsesRing;
  }

  // A window is open when it was opened and not closed since.
  lemma {:induction false} OpenMeans(trace: seq<Trace>, wid: nat)
    ensures OpenIn(trace, wid) <==>
            exists i :: 0 <= i < |trace| && trace[i] == Opened(wid) && Closed(wid) !in trace[i..]
  {
    if trace != [] {
      var before, last := trace[..|trace| - 1], trace[|trace| - 1];
      OpenMeans(before, wid);
      assert trace[|trace| - 1..] == [last];
      forall i | 0 <= i < |before|
        ensures before[i] == trace[i] && trace[i..] == before[i..] + [last]
      {
      }
    }
  }

  // A draw goes to the decode thread, behind what is there.
  lemma DrawIsQueued(s: State, works: bool)
    requires s.events != [] && s.events[0].DrawPacket? && s.alive
    ensures var t := HandleEvent(s, works); t.jobs == s.jobs + [Decode(s.events[0].draw)] && t.events == s.events[1..]
  {
  }

  // Windows open, change size and close as the server says.
  lemma WindowEvents(s: State, works: bool)
    requires s.events != [] && (s.events[0].NewWindow? || s.events[0].LostWindow? || s.events[0].Resized?)
    ensures var e, t := s.events[0], HandleEvent(s, works);
      && (e.NewWindow? ==> t.windows == s.windows[e.wid := e.size] && t.trace == s.trace + [Opened(e.wid)])
      && (e.LostWindow? ==> t.windows == s.windows - {e.wid} && t.trace == s.trace + [Closed(e.wid)])
      && (e.Resized? ==> t.windows == if e.wid in s.windows then s.windows[e.wid := e.size] else s.windows)
  {
    hide WriteJson;
    match s.events[0]
    case NewWindow(wid, size, managed) => KeepsWindows(Took(s).(windows := s.windows[wid := size], trace := s.trace + [Opened(wid)]), works);
    case Resized(wid, size) => KeepsWindows(Took(s).(windows := s.windows[wid := size]), works);
    case LostWindow(wid) =>
  }

  // The decode thread hears of a closed window and of the end of a stream, behind the draws before it.
  lemma EndsAreQueued(s: State, works: bool)
    requires s.events != [] && s.alive && (s.events[0].LostWindow? || s.events[0].EndOfStream?)
    ensures HandleEvent(s, works).jobs == s.jobs + [Drop] && HandleEvent(s, works).wire == s.wire
  {
  }

  lemma KeepsWindows(s: State, works: bool)
    ensures WriteJson(s, OtherPacket, works).windows == s.windows && WriteJson(s, OtherPacket, works).trace == s.trace
  {
  }

  // The first cause of an exit wins, and later ones change nothing.
  lemma QuitSetsCode(s: State, works: bool)
    requires s.events != [] && s.events[0].Quit?
    ensures HandleEvent(s, works).exitCode == if s.exitCode.None? then Some(s.events[0].code) else s.exitCode
    ensures HandleEvent(s, works).wire == s.wire
  {
  }

  // What is to be answered is answered with one packet, while no exit code is set and the write works.
  lemma RepliesWritten(s: State)
    requires s.events != [] && s.exitCode.None?
    requires var e := s.events[0];
      e.Speaks? || (e.NewWindow? && e.managed) || (e.Resized? && e.wid in s.windows)
    ensures HandleEvent(s, true).wire == s.wire + [OtherPacket] && HandleEvent(s, true).exitCode == None
  {
    hide WriteJson;
    match s.events[0]
    case NewWindow(wid, size, managed) => PlainWrite(Took(s).(windows := s.windows[wid := size], trace := s.trace + [Opened(wid)]), OtherPacket);
    case Resized(wid, size) => PlainWrite(Took(s).(windows := s.windows[wid := size]), OtherPacket);
    case Speaks => PlainWrite(Took(s), OtherPacket);
  }

  lemma PlainWrite(s: State, p: Packet)
    requires s.exitCode.None?
    ensures WriteJson(s, p, true).wire == s.wire + [p] && WriteJson(s, p, true).exitCode == None
  {
  }

  // So is a result, unless painting it stops the UI thread.
  lemma ResultIsAcked(s: State)
    requires s.events != [] && s.exitCode.None? && s.events[0].Result? && s.running
    requires HandleEvent(s, true).running
    ensures exists status :: HandleEvent(s, true).wire == s.wire + [Ack(s.events[0].draw, status)]
  {
    hide Stops, StatusOf, Drawn;
    var d, decoded := s.events[0].draw, s.events[0].decoded;
    PlainWrite(Answered(Took(s), d, decoded), Ack(d, StatusOf(Took(s), d, decoded)));
    hide WriteJson;
  }

  // A write that fails sets an exit code and leaves an event that says so.
  lemma FailedWrite(s: State, p: Packet)
    requires s.exitCode.None?
    ensures var t := WriteJson(s, p, false);
      t.exitCode.Some? && t.wire == s.wire && |t.events| == |s.events| + 1 && t.events[|s.events|].Quit?
  {
  }

  // Ring space is given back in the order the draws arrived, once each, and always before the ack: that
  // of every acked mmap draw whose list of chunks parses.
  lemma ReleasedInOrderBeforeAck(s: State, actions: seq<Action>)
    requires Initial(s) && Runs(s, actions)
    ensures var e := After(s, actions);
      && ReleasesIn(e.trace) == OnRing(e.area, Freed(e)) && (e.alive ==> Freed(e) <= e.received)
      && forall i, chunks :: 0 <= i < |e.trace| && e.trace[i].Acked? && e.area ==>
           e.trace[i].draw.coding == "mmap" && Mmap.Parses(e.trace[i].draw.fields, chunks) ==>
           Released(e.trace[i].draw) in e.trace[..i]
  {
    hide Runs, After, Conserved, WireFollows, Truthful, Freed, UsesRing, Mmap.Parses;
    InitialInv(s);
    RunKeepsInv(s, actions);
    var e := After(s, actions);
    FreedIsPrefix(e);
    forall i, chunks | 0 <= i < |e.trace| && e.trace[i].Acked? && e.area && e.trace[i].draw.coding == "mmap"
      && Mmap.Parses(e.trace[i].draw.fields, chunks)
      ensures Released(e.trace[i].draw) in e.trace[..i]
    {
      RingDraws(e.area, e.trace[i].draw);
    }
  }

  // Every ack on the wire tells the truth: it reports the result the decode thread posted and
  // whether the window was open, and a draw is painted exactly when its ack says shown and it had a
  // frame.
  lemma AcksTellTheTruth(s: State, actions: seq<Action>, p: Packet)
    requires Initial(s) && Runs(s, actions) && p in After(s, actions).wire && p.Ack?
    ensures var trace := After(s, actions).trace;
      exists i :: 0 <= i < |trace| && trace[i] == Acked(p.draw, p.status) && Told(trace[..i], p.draw, p.status)
    ensures PaintsAcked(After(s, actions).trace)
    // the results posted are those of the draws at the front, one each, in order
    ensures PostedIn(After(s, actions).trace) == Front(After(s, actions))
  {
    hide Runs, After, Conserved, WireFollows, Justified, PaintsAcked, Front, OnRing, Ordered, ReleasesIn, PostedIn;
    InitialInv(s);
    RunKeepsInv(s, actions);
    var trace := After(s, actions).trace;
    var i :| 0 <= i < |trace| && trace[i] == Acked(p.draw, p.status);
    JustifiedTells(trace[..i], p.draw, p.status);
  }

  // The ack says: an error exactly for a failed decode, shown exactly for any other draw whose window
  // was opened and not closed; the draw was painted exactly when it is shown and has pixels.
  predicate Told(before: seq<Trace>, d: Draw, status: Status) {
    && Posted(d, d.decoded) in before
    && (status == DecodeError <==> d.decoded.Failure?)
    && (status == Shown <==> d.decoded.Pixels? && exists i :: 0 <= i < |before| && before[i] == Opened(d.wid) && Closed(d.wid) !in before[i..])
    && (before[|before| - 1] == Painted(d) <==> status == Shown && d.decoded.bytes != [])
  }

  lemma JustifiedTells(before: seq<Trace>, d: Draw, status: Status)
    requires Justified(before, d, status)
    ensures Told(before, d, status)
  {
    OpenMeans(before, d.wid);
    hide OpenIn;
  }

  // ---------------------------------------------------------------- one draw, from end to end

  lemma RunFirst(s: State, a: Action, actions: seq<Action>)
    requires Enabled(s, a) && Runs(Next(s, a), actions)
    ensures Runs(s, [a] + actions) && After(s, [a] + actions) == After(Next(s, a), actions)
  {
    assert ([a] + actions)[1..] == actions;
  }

  lemma RunNothing(s: State)
    ensures Runs(s, []) && After(s, []) == s
  {
  }

  // What the decode thread does with a sound draw it takes.
  function Decoding(area: bool, d: Draw, rest: seq<Action>): seq<Action> {
    [TakeJob] + ((if UsesRing(area, d) then [ReleaseRing] else []) + ([Post(d.decoded)] + rest))
  }

  // The state it leaves.
  function Returned(s: State, d: Draw): State {
    s.(jobs := [], done := UsesRing(s.area, d), events := [Result(d, d.decoded)],
       trace := s.trace + (if UsesRing(s.area, d) then [Released(d)] else []) + [Posted(d, d.decoded)])
  }

  predicate NextInLine(s: State, d: Draw) {
    s.running && s.alive && s.inFlight.None? && s.events == [] && s.jobs == [Decode(d)] && Sound(s.area, d)
  }

  lemma Decodes(s: State, d: Draw, rest: seq<Action>)
    requires NextInLine(s, d) && Runs(Returned(s, d), rest)
    ensures Runs(s, Decoding(s.area, d, rest))
    ensures After(s, Decoding(s.area, d, rest)) == After(Returned(s, d), rest)
  {
    var taken := Next(s, TakeJob);
    var ready := if UsesRing(s.area, d) then Next(taken, ReleaseRing) else taken;
    hide Runs, After, UsesRing, Sound;
    assert Next(ready, Post(d.decoded)) == Returned(s, d);
    RunFirst(ready, Post(d.decoded), rest);
    var posting := [Post(d.decoded)] + rest;
    if UsesRing(s.area, d) {
      RunFirst(taken, ReleaseRing, posting);
    } else {
      assert [] + posting == posting;
    }
    RunFirst(s, TakeJob, (if UsesRing(s.area, d) then [ReleaseRing] else []) + posting);
  }

  function Outcome(s: State, d: Draw): Status {
    if d.decoded.Failure? then DecodeError else if d.wid in s.windows then Shown else NoWindow
  }

  lemma Answers(s: State, d: Draw)
    requires s.running && s.events == [Result(d, d.decoded)] && s.exitCode.None? && !Stops(s.windows, d, d.decoded)
    ensures Runs(s, [Handle(true)] + [])
    ensures var e := After(s, [Handle(true)] + []);
      && e.wire == s.wire + [Ack(d, Outcome(s, d))]
      && e.trace == s.trace
           + (if d.decoded.Pixels? && d.decoded.bytes != [] && d.wid in s.windows then [Painted(d)] else [])
           + [Acked(d, Outcome(s, d))]
      && e.events == [] && e.jobs == s.jobs && e.running && e.alive == s.alive && e.windows == s.windows
  {
    hide Stops;
    var end := Next(s, Handle(true));
    assert end.events == [];
    RunNothing(end);
    hide Runs, After;
    RunFirst(s, Handle(true), []);
  }

  // A draw that is next in line, with nothing else under way, is decoded, painted if it can be, and
  // acknowledged; its ring space is back before that, and nothing else is written.
  lemma OneDraw(s: State, d: Draw)
    requires NextInLine(s, d) && s.exitCode.None? && !Stops(s.windows, d, d.decoded)
    ensures var actions := Decoding(s.area, d, [Handle(true)] + []);
      && Runs(s, actions)
      && var e, status := After(s, actions), Outcome(s, d);
         && e.wire == s.wire + [Ack(d, status)]
         && e.trace == s.trace
              + (if UsesRing(s.area, d) then [Released(d)] else []) + [Posted(d, d.decoded)]
              + (if d.decoded.Pixels? && d.decoded.bytes != [] && d.wid in s.windows then [Painted(d)] else [])
              + [Acked(d, status)]
         && e.events == [] && e.jobs == [] && e.running && e.alive && e.windows == s.windows
  {
    hide Stops, Runs, After, Sound, UsesRing;
    Answers(Returned(s, d), d);
    Decodes(s, d, [Handle(true)] + []);
  }
}
