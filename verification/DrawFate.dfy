/**
 What becomes of draws when some cannot be decoded or painted (src/client/client.rs): exactly when the
 decode thread survives, exactly when every draw is answered, and that none is answered twice.
 */
module DrawFate {
  import opened Wrappers
  import opened DrawSession
  import Ints
  import Mmap
  import Window

  // Everything the decode thread got through, or is getting through, is sound.
  predicate DecodedSound(s: State) {
    forall d <- Front(s) + Flying(s) :: Sound(s.area, d)
  }

  predicate Numbered(draws: seq<Draw>) {
    forall i :: 0 <= i < |draws| ==> draws[i].id == i
  }

  // ---------------------------------------------------------------- what each step keeps

  lemma HandleKeepsFlight(s: State, works: bool)
    requires s.events != [] && Ordered(s.area, s.trace)
    ensures HandleEvent(s, works).inFlight == s.inFlight && HandleEvent(s, works).area == s.area
  {
    if s.events[0].Result? {
      hide OnResult;
      ResultTrace(Took(s), s.events[0].draw, s.events[0].decoded, works);
    } else {
      hide HandleEvent, Ordered, ReleasesIn, PostedIn;
      HandleAside(s, works);
    }
  }

  // Only a posted result moves the front on.
  lemma StepFront(s: State, a: Action)
    requires Conserved(s) && Enabled(s, a)
    ensures Front(Next(s, a)) == Front(s) + if a.Post? then [s.inFlight.value] else []
  {
    hide HandleEvent, Results, Waiting, UsesRing, Sound, Conserved;
    match a
    case Handle(works) => HandleFront(s, works);
    case Receive(d) => EventsAppend(s.events, DrawPacket(d));
    case Arrive(e) => EventsAppend(s.events, e);
    case TakeJob => SameFront(s, Next(s, a));
    case ReleaseRing => SameFront(s, Next(s, a));
    case Post(decoded) => PostFront(s, decoded);
  }

  // Only a sound draw gets into the air.
  lemma StepFlight(s: State, a: Action)
    requires Ordered(s.area, s.trace) && Enabled(s, a)
    ensures var n := Next(s, a);
      && n.area == s.area
      && (n.inFlight == s.inFlight || n.inFlight.None? || (a == TakeJob && Sound(s.area, n.inFlight.value)))
  {
    hide HandleEvent, UsesRing, Sound, Ordered;
    if a.Handle? { HandleKeepsFlight(s, a.works); }
  }

  lemma StepKeepsSound(s: State, a: Action)
    requires ReleasedFirst(s) && Conserved(s) && DecodedSound(s) && Enabled(s, a)
    ensures DecodedSound(Next(s, a)) && Next(s, a).area == s.area
  {
    StepFront(s, a);
    StepFlight(s, a);
    var n := Next(s, a);
    assert a.Post? ==> s.inFlight.Some? && n.inFlight.None?;
    hide Next, Enabled, Front, Sound, Conserved, Ordered, OnRing, ReleasesIn, PostedIn;
    forall d <- Front(n) + Flying(n) ensures Sound(n.area, d) {
      if d !in Front(s) && n.inFlight != Some(d) { assert d in Flying(s); }
      if n.inFlight == Some(d) && n.inFlight == s.inFlight { assert d in Flying(s); }
    }
  }

  // What no handler of the UI thread changes.
  predicate Unmoved(s: State, t: State) {
    t.received == s.received && t.alive == s.alive && t.unwinds == s.unwinds
  }

  lemma WriteUnmoved(s: State, p: Packet, works: bool)
    ensures Unmoved(s, WriteJson(s, p, works))
  {
  }

  lemma OnResultUnmoved(s: State, d: Draw, decoded: Decoded, works: bool)
    ensures Unmoved(s, OnResult(s, d, decoded, works))
  {
    WriteUnmoved(Answered(s, d, decoded), Ack(d, StatusOf(s, d, decoded)), works);
    hide WriteJson, Stops, StatusOf, Drawn;
  }

  lemma OnWindowUnmoved(s: State, wid: nat, size: Window.Size, managed: bool, works: bool)
    ensures Unmoved(s, OnNewWindow(s, wid, size, managed, works)) && Unmoved(s, OnResized(s, wid, size, works))
  {
    WriteUnmoved(s.(windows := s.windows[wid := size], trace := s.trace + [Opened(wid)]), OtherPacket, works);
    WriteUnmoved(s.(windows := s.windows[wid := size]), OtherPacket, works);
    hide WriteJson;
  }

  lemma OnDrawUnmoved(s: State, d: Draw)
    ensures Unmoved(s, OnDraw(s, d))
  {
  }

  lemma OnQuitUnmoved(s: State, code: int)
    ensures Unmoved(s, OnQuit(s, code)) && Unmoved(s, OnEnd(s))
  {
  }

  lemma OnLostUnmoved(s: State, wid: nat)
    ensures Unmoved(s, OnLostWindow(s, wid))
  {
  }

  lemma TookUnmoved(s: State, t: State)
    requires s.events != [] && Unmoved(Took(s), t)
    ensures Unmoved(s, t)
  {
  }

  lemma HandlerUnmoved(s: State, t: State, works: bool)
    requires s.events != [] && t == Took(s)
    ensures Unmoved(t, HandleEvent(s, works))
  {
    hide Unmoved, WriteJson, OnDraw, OnResult, OnNewWindow, OnResized, OnEnd, OnLostWindow, OnQuit, Took;
    match s.events[0]
    case DrawPacket(d) => OnDrawUnmoved(t, d);
    case Result(d, decoded) => OnResultUnmoved(t, d, decoded, works);
    case NewWindow(wid, size, managed) => OnWindowUnmoved(t, wid, size, managed, works);
    case Resized(wid, size) => OnWindowUnmoved(t, wid, size, false, works);
    case LostWindow(wid) => OnLostUnmoved(t, wid);
    case EndOfStream => OnQuitUnmoved(t, 0);
    case Quit(code) => OnQuitUnmoved(t, code);
    case Speaks => WriteUnmoved(t, OtherPacket, works);
  }

  lemma HandleUnmoved(s: State, works: bool)
    requires s.events != []
    ensures Unmoved(s, HandleEvent(s, works))
  {
    hide HandleEvent;
    HandlerUnmoved(s, Took(s), works);
    TookUnmoved(s, HandleEvent(s, works));
  }

  // The UI thread and the decode thread leave what was received alone.
  lemma StepReceives(s: State, a: Action)
    requires Enabled(s, a)
    ensures Next(s, a).received == s.received + if a.Receive? then [a.draw] else []
  {
    hide HandleEvent, Sound, UsesRing;
    if a.Handle? { HandleUnmoved(s, a.works); }
  }

  lemma StepKeepsNumbers(s: State, a: Action)
    requires Numbered(s.received) && Enabled(s, a)
    ensures Numbered(Next(s, a).received)
  {
    StepReceives(s, a);
    hide Next;
  }

  lemma {:induction false} RunKeepsSound(s: State, actions: seq<Action>)
    requires Inv(s) && DecodedSound(s) && Numbered(s.received) && Runs(s, actions)
    ensures var e := After(s, actions); Inv(e) && DecodedSound(e) && Numbered(e.received) && e.area == s.area
    decreases |actions|
  {
    hide Enabled, Next, Conserved, WireFollows, ReleasedFirst, Truthful, DecodedSound, Numbered;
    if actions != [] {
      var n := Next(s, actions[0]);
      StepConserves(s, actions[0]);
      StepKeepsWire(s, actions[0]);
      StepKeepsOrder(s, actions[0]);
      StepKeepsTruth(s, actions[0]);
      StepKeepsSound(s, actions[0]);
      StepKeepsNumbers(s, actions[0]);
      RunKeepsSound(n, actions[1..]);
    }
  }

  lemma FromStart(s: State, actions: seq<Action>)
    requires Initial(s) && Runs(s, actions)
    ensures var e := After(s, actions); Inv(e) && DecodedSound(e) && Numbered(e.received) && e.area == s.area
  {
    hide After, Runs;
    InitialInv(s);
    assert DecodedSound(s) && Numbered(s.received);
    RunKeepsSound(s, actions);
  }

  // ---------------------------------------------------------------- exactly when the thread survives

  lemma AliveExactly(e: State)
    requires Conserved(e) && DecodedSound(e)
    ensures e.alive <==> forall d <- Front(e) + Flying(e) + e.stuck :: Sound(e.area, d)
  {
    hide Front, Sound, Waiting, Results, Queued, Everywhere;
    if !e.alive { assert e.stuck[0] in Front(e) + Flying(e) + e.stuck; }
  }

  // The decode thread is alive exactly as long as every draw it has started on is sound: fields
  // enough, and no missing format behind a chunk list that parses. Without an unsound draw nothing is
  // lost.
  lemma SoundDrawsAreNeverLost(s: State, actions: seq<Action>)
    requires Initial(s) && Runs(s, actions)
    ensures var e := After(s, actions);
      && (e.alive <==> forall d <- Front(e) + Flying(e) + e.stuck :: Sound(e.area, d))
      && ((forall d <- e.received :: Sound(e.area, d)) ==> e.alive && e.stuck == [] && e.refused == [])
  {
    hide Runs, After, Front;
    FromStart(s, actions);
    var e := After(s, actions);
    AliveExactly(e);
    if !e.alive { StuckIsReceived(e); }
  }

  lemma StuckIsReceived(e: State)
    requires Conserved(e) && !e.alive
    ensures |e.stuck| == 1 && e.stuck[0] in e.received && !Sound(e.area, e.stuck[0]) && Front(e) + e.stuck <= e.received
  {
    hide Waiting, Results, Queued, Sound;
    assert Middle(e) == e.stuck + Queued(e.jobs);
    Regroup(e.stuck, Queued(e.jobs), Back(e));
    Regroup(Front(e), e.stuck, Queued(e.jobs) + Back(e));
  }

  // ---------------------------------------------------------------- after the thread has died

  lemma DeadStep(s: State, a: Action)
    requires Inv(s) && !s.alive && Enabled(s, a)
    ensures var n := Next(s, a); !n.alive && Front(n) == Front(s)
  {
    hide HandleEvent, Results, Waiting, UsesRing, Sound, Everywhere, WireFollows, Truthful, ReleasedFirst;
    match a
    case Handle(works) =>
      HandleFront(s, works);
      HandleUnmoved(s, works);
    case Receive(d) => EventsAppend(s.events, DrawPacket(d));
    case Arrive(e) => EventsAppend(s.events, e);
    case _ =>
  }

  lemma {:induction false} DeadStays(s: State, more: seq<Action>)
    requires Inv(s) && !s.alive && Runs(s, more)
    ensures !After(s, more).alive && Front(After(s, more)) == Front(s)
    decreases |more|
  {
    hide Inv, Enabled, Next, Front;
    if more != [] {
      DeadStep(s, more[0]);
      RunKeepsInv(s, more[..1]);
      assert more[..1][1..] == [];
      DeadStays(Next(s, more[0]), more[1..]);
    }
  }

  // A dead decode thread died of one unsound draw, the next one in line, and in every continuation
  // that draw and all behind it stay without a result: none of them is ever answered.
  lemma DeadOnUnsoundDraw(s: State, actions: seq<Action>, more: seq<Action>)
    requires Initial(s) && Runs(s, actions) && !After(s, actions).alive && Runs(After(s, actions), more)
    ensures var e, f := After(s, actions), After(After(s, actions), more);
      && |e.stuck| == 1 && !Sound(e.area, e.stuck[0]) && Front(e) + e.stuck <= e.received
      && !f.alive && Front(f) == Front(e) && f.answered <= Front(e)
  {
    hide Runs, After, Front;
    FromStart(s, actions);
    var e := After(s, actions);
    StuckIsReceived(e);
    DeadStays(e, more);
    AnsweredFirst(After(e, more));
  }

  lemma AnsweredFirst(s: State)
    ensures s.answered <= Front(s)
  {
  }

  // ---------------------------------------------------------------- nothing goes on for ever

  // How far everything still is from its answer. A write that fails leaves an event behind, once.
  function EventWeight(e: Event): nat {
    match e
    case DrawPacket(_) => 5
    case Result(_, _) => 1
    case _ => 2
  }

  function EventsWeight(events: seq<Event>): nat {
    if events == [] then 0 else EventWeight(events[0]) + EventsWeight(events[1..])
  }

  function JobsWeight(jobs: seq<Job>): nat {
    if jobs == [] then 0 else (if jobs[0].Decode? then 4 else 1) + JobsWeight(jobs[1..])
  }

  function FlightWeight(s: State): nat {
    if s.inFlight.None? then 0 else if UsesRing(s.area, s.inFlight.value) && !s.done then 3 else 2
  }

  function WriteWeight(s: State): nat {
    if s.exitCode.None? then 2 else 0
  }

  function Weight(s: State): nat {
    EventsWeight(s.events) + JobsWeight(s.jobs) + FlightWeight(s) + WriteWeight(s)
  }

  // Nothing new comes from outside.
  predicate Inner(a: Action) {
    !a.Receive? && !a.Arrive?
  }

  lemma {:induction false} EventsWeightAppend(events: seq<Event>, e: Event)
    ensures EventsWeight(events + [e]) == EventsWeight(events) + EventWeight(e)
  {
    if events != [] {
      EventsWeightAppend(events[1..], e);
      assert (events + [e])[1..] == events[1..] + [e];
    }
  }

  lemma {:induction false} JobsWeightAppend(jobs: seq<Job>, j: Job)
    ensures JobsWeight(jobs + [j]) == JobsWeight(jobs) + if j.Decode? then 4 else 1
  {
    if jobs != [] {
      JobsWeightAppend(jobs[1..], j);
      assert (jobs + [j])[1..] == jobs[1..] + [j];
    }
  }

  lemma WriteWeighs(s: State, p: Packet, works: bool)
    ensures Weight(WriteJson(s, p, works)) <= Weight(s)
  {
    EventsWeightAppend(s.events, Quit(1));
    hide UsesRing, EventsWeight, JobsWeight;
  }

  lemma TookWeighs(s: State)
    requires s.events != []
    ensures Weight(Took(s)) == Weight(s) - EventWeight(s.events[0])
  {
    hide UsesRing, JobsWeight;
  }

  lemma OnDrawWeighs(s: State, d: Draw)
    ensures Weight(OnDraw(s, d)) <= Weight(s) + 4
  {
    JobsWeightAppend(s.jobs, Decode(d));
    hide UsesRing, EventsWeight, JobsWeight;
  }

  lemma OnResultWeighs(s: State, d: Draw, decoded: Decoded, works: bool)
    ensures Weight(OnResult(s, d, decoded, works)) <= Weight(s)
  {
    WriteWeighs(Answered(s, d, decoded), Ack(d, StatusOf(s, d, decoded)), works);
    hide UsesRing, EventsWeight, JobsWeight, Stops, WriteJson, StatusOf, Drawn;
  }

  lemma OnWindowWeighs(s: State, wid: nat, size: Window.Size, managed: bool, works: bool)
    ensures Weight(OnNewWindow(s, wid, size, managed, works)) <= Weight(s)
    ensures Weight(OnResized(s, wid, size, works)) <= Weight(s)
  {
    WriteWeighs(s.(windows := s.windows[wid := size], trace := s.trace + [Opened(wid)]), OtherPacket, works);
    WriteWeighs(s.(windows := s.windows[wid := size]), OtherPacket, works);
    hide UsesRing, EventsWeight, JobsWeight, WriteJson;
  }

  lemma OnEndWeighs(s: State, wid: nat)
    ensures Weight(OnEnd(s)) <= Weight(s) + 1 && Weight(OnLostWindow(s, wid)) <= Weight(s) + 1
  {
    JobsWeightAppend(s.jobs, Drop);
    hide UsesRing, EventsWeight, JobsWeight;
  }

  lemma OnQuitWeighs(s: State, code: int)
    ensures Weight(OnQuit(s, code)) <= Weight(s)
  {
    hide UsesRing, EventsWeight, JobsWeight;
  }

  lemma HandleLowers(s: State, works: bool)
    requires s.events != []
    ensures Weight(HandleEvent(s, works)) < Weight(s)
  {
    hide Weight, WriteJson, OnDraw, OnResult, OnNewWindow, OnResized, OnEnd, OnLostWindow, OnQuit;
    TookWeighs(s);
    hide Took;
    var t := Took(s);
    match s.events[0]
    case DrawPacket(d) => OnDrawWeighs(t, d);
    case Result(d, decoded) => OnResultWeighs(t, d, decoded, works);
    case NewWindow(wid, size, managed) => OnWindowWeighs(t, wid, size, managed, works);
    case Resized(wid, size) => OnWindowWeighs(t, wid, size, false, works);
    case LostWindow(wid) => OnEndWeighs(t, wid);
    case EndOfStream => OnEndWeighs(t, 0);
    case Quit(code) => OnQuitWeighs(t, code);
    case Speaks => WriteWeighs(t, OtherPacket, works);
  }

  // Whatever a decoder yields and whether or not a write fails.
  lemma InnerLowers(s: State, a: Action)
    requires Enabled(s, a) && Inner(a)
    ensures Weight(Next(s, a)) < Weight(s)
  {
    hide HandleEvent, UsesRing, Sound;
    match a
    case Handle(works) => HandleLowers(s, works);
    case TakeJob =>
    case ReleaseRing =>
    case Post(decoded) => EventsWeightAppend(s.events, Result(s.inFlight.value, decoded));
  }

  lemma {:induction false} EndsInTime(s: State, more: seq<Action>)
    requires Runs(s, more) && forall a <- more :: Inner(a)
    ensures |more| + Weight(After(s, more)) <= Weight(s)
    decreases |more|
  {
    hide Enabled, Next, Weight, Inner;
    if more != [] {
      assert more[0] in more && forall a <- more[1..] :: a in more;
      InnerLowers(s, more[0]);
      EndsInTime(Next(s, more[0]), more[1..]);
    }
  }

  // Nothing is left to do but wait for the outside.
  ghost predicate Quiet(s: State) {
    forall a :: Inner(a) ==> !Enabled(s, a)
  }

  lemma {:induction false} QuietComes(s: State) returns (more: seq<Action>)
    ensures Runs(s, more) && (forall a <- more :: Inner(a)) && Quiet(After(s, more))
    decreases Weight(s)
  {
    if Quiet(s) {
      more := [];
    } else {
      var a :| Inner(a) && Enabled(s, a);
      InnerLowers(s, a);
      hide Enabled, Next, Inner;
      var rest := QuietComes(Next(s, a));
      more := [a] + rest;
      assert more[1..] == rest;
    }
  }

  // ---------------------------------------------------------------- exactly when every draw is answered

  // The windows after one event.
  function WindowsAfter(windows: map<nat, Window.Size>, e: Event): map<nat, Window.Size> {
    match e
    case NewWindow(wid, size, _) => windows[wid := size]
    case LostWindow(wid) => windows - {wid}
    case Resized(wid, size) => if wid in windows then windows[wid := size] else windows
    case _ => windows
  }

  // Every result waiting in `events` can be painted in the window it will find, and so can those of
  // the draws in `later`, which come after them all.
  predicate Paints(windows: map<nat, Window.Size>, events: seq<Event>, later: set<Draw>)
    decreases |events|
  {
    if events == [] then forall d <- later :: !Stops(windows, d, d.decoded)
    else
      && (events[0].Result? ==> !Stops(windows, events[0].draw, events[0].decoded))
      && Paints(WindowsAfter(windows, events[0]), events[1..], later)
  }

  // The draws without a result yet.
  function Later(s: State): set<Draw> {
    set d <- Flying(s) + Queued(s.jobs) + Waiting(s.events)
  }

  // The process is up, and what is still to be painted can be.
  predicate Paintable(s: State) {
    s.running && Paints(s.windows, s.events, Later(s))
  }

  lemma {:induction false} PaintsAppend(windows: map<nat, Window.Size>, events: seq<Event>, e: Event, later: set<Draw>)
    requires e.Quit? || (e.Result? && e.decoded == e.draw.decoded)
    ensures Paints(windows, events + [e], later) ==
            Paints(windows, events, if e.Result? then later + {e.draw} else later)
    decreases |events|
  {
    hide Stops;
    if events == [] {
      assert [e][1..] == [];
    } else {
      PaintsAppend(WindowsAfter(windows, events[0]), events[1..], e, later);
      assert (events + [e])[1..] == events[1..] + [e];
    }
  }

  lemma {:induction false} NothingToPaint(windows: map<nat, Window.Size>, events: seq<Event>)
    requires Results(events) == []
    ensures Paints(windows, events, {})
    decreases |events|
  {
    hide Stops;
    if events != [] { NothingToPaint(WindowsAfter(windows, events[0]), events[1..]); }
  }

  lemma WritePaintable(s: State, p: Packet, works: bool)
    ensures Paintable(WriteJson(s, p, works)) == Paintable(s)
  {
    WriteKeepsDraws(s, p, works);
    PaintsAppend(s.windows, s.events, Quit(1), Later(s));
    hide Paints, Waiting, Results, Queued;
  }

  // Handling an event that is not a result only moves the windows on.
  lemma TookPaintable(s: State)
    requires s.events != [] && !s.events[0].DrawPacket? && s.running
    ensures Later(Took(s)) == Later(s)
    ensures var e := s.events[0];
      Paintable(s) == ((e.Result? ==> !Stops(s.windows, e.draw, e.decoded)) &&
                       Paints(WindowsAfter(s.windows, e), s.events[1..], Later(s)))
  {
    HeadOfEvents(s.events);
    hide Waiting, Results, Queued, Stops;
  }

  lemma OnResultPaintable(s: State, works: bool)
    requires s.events != [] && s.events[0].Result? && s.running
    ensures Paintable(OnResult(Took(s), s.events[0].draw, s.events[0].decoded, works)) == Paintable(s)
  {
    TookPaintable(s);
    hide Paints, Later, WriteJson, Stops;
    var d, decoded := s.events[0].draw, s.events[0].decoded;
    var t := Took(s);
    if !Stops(s.windows, d, decoded) {
      SameLater(t, Answered(t, d, decoded));
      WritePaintable(Answered(t, d, decoded), Ack(d, StatusOf(t, d, decoded)), works);
      hide StatusOf, Drawn;
    }
  }

  lemma SameLater(s: State, t: State)
    requires t.inFlight == s.inFlight && Queued(t.jobs) == Queued(s.jobs) && t.events == s.events
    ensures Later(t) == Later(s)
  {
    hide Waiting, Queued;
  }

  lemma MovedPaintable(s: State, t: State)
    requires s.events != [] && s.running && !s.events[0].DrawPacket? && !s.events[0].Result?
    requires t.running && t.events == s.events[1..] && t.windows == WindowsAfter(s.windows, s.events[0])
    requires t.inFlight == s.inFlight && Queued(t.jobs) == Queued(s.jobs)
    ensures Paintable(t) == Paintable(s)
  {
    TookPaintable(s);
    SameLater(Took(s), t);
    hide Later, Queued, WindowsAfter;
  }

  lemma OnWindowPaintable(s: State, works: bool)
    requires s.events != [] && s.running && !s.events[0].DrawPacket? && !s.events[0].Result?
    ensures Paintable(HandleEvent(s, works)) == Paintable(s)
  {
    JobsAppend(s.jobs, Drop);
    hide Paintable, WriteJson, Queued;
    var t, e := Took(s), s.events[0];
    match e
    case NewWindow(wid, size, managed) =>
      var u := t.(windows := t.windows[wid := size], trace := t.trace + [Opened(wid)]);
      MovedPaintable(s, u);
      WritePaintable(u, OtherPacket, works);
    case Resized(wid, size) =>
      if wid in t.windows {
        var u := t.(windows := t.windows[wid := size]);
        MovedPaintable(s, u);
        WritePaintable(u, OtherPacket, works);
      } else {
        MovedPaintable(s, t);
      }
    case Speaks =>
      MovedPaintable(s, t);
      WritePaintable(t, OtherPacket, works);
    case LostWindow(wid) => MovedPaintable(s, OnLostWindow(t, wid));
    case EndOfStream => MovedPaintable(s, OnEnd(t));
    case Quit(code) => MovedPaintable(s, OnQuit(t, code));
  }

  lemma OnDrawPaintable(s: State)
    requires s.events != [] && s.running && s.alive && s.events[0].DrawPacket?
    ensures Paintable(OnDraw(Took(s), s.events[0].draw)) == Paintable(s)
  {
    HeadOfEvents(s.events);
    JobsAppend(s.jobs, Decode(s.events[0].draw));
    hide Waiting, Results, Queued, Stops;
    assert Later(OnDraw(Took(s), s.events[0].draw)) == Later(s);
  }

  // While the decode thread lives, each step keeps it so that all can be painted, and keeps it not so.
  lemma InnerPaintable(s: State, a: Action)
    requires Enabled(s, a) && Inner(a) && Next(s, a).alive
    ensures Paintable(Next(s, a)) == Paintable(s)
  {
    hide HandleEvent, UsesRing, Sound, Paints, Stops;
    match a
    case Handle(works) => HandlePaintable(s, works);
    case TakeJob =>
      assert Queued(s.jobs) == (if s.jobs[0].Decode? then [s.jobs[0].draw] else []) + Queued(s.jobs[1..]);
      hide Queued, Waiting;
      assert Later(StartJob(s)) == Later(s);
    case ReleaseRing => SameLater(s, Next(s, a));
    case Post(decoded) => PostPaintable(s, decoded);
  }

  lemma HandlePaintable(s: State, works: bool)
    requires s.events != [] && s.running && HandleEvent(s, works).alive
    ensures Paintable(HandleEvent(s, works)) == Paintable(s)
  {
    HandleUnmoved(s, works);
    hide Paintable, OnDraw, OnResult;
    if s.events[0].DrawPacket? { OnDrawPaintable(s); }
    else if s.events[0].Result? { OnResultPaintable(s, works); }
    else {
      hide HandleEvent;
      OnWindowPaintable(s, works);
    }
  }

  lemma PostPaintable(s: State, decoded: Decoded)
    requires Enabled(s, Post(decoded))
    ensures Paintable(Next(s, Post(decoded))) == Paintable(s)
  {
    var d, n := s.inFlight.value, Next(s, Post(decoded));
    PostLater(s, decoded);
    PaintsAppend(s.windows, s.events, Result(d, decoded), Later(n));
    hide Later, Paints, UsesRing;
  }

  lemma PostLater(s: State, decoded: Decoded)
    requires Enabled(s, Post(decoded))
    ensures Later(Next(s, Post(decoded))) + {s.inFlight.value} == Later(s)
  {
    var d, n := s.inFlight.value, Next(s, Post(decoded));
    EventsAppend(s.events, Result(d, decoded));
    hide Waiting, Results, Queued, UsesRing;
    assert Flying(s) == [d] && Flying(n) == [];
    assert n.jobs == s.jobs && Waiting(n.events) == Waiting(s.events);
    hide Next, Enabled, Flying;
    OneFewer(d, Queued(s.jobs), Waiting(s.events));
  }

  lemma OneFewer(d: Draw, a: seq<Draw>, b: seq<Draw>)
    ensures (set x <- [] + a + b) + {d} == set x <- [d] + a + b
  {
  }

  lemma OneStep(s: State, a: Action)
    requires Inv(s) && DecodedSound(s) && Enabled(s, a) && Inner(a)
    ensures var n := Next(s, a); Inv(n) && DecodedSound(n) && n.area == s.area && n.received == s.received
  {
    hide Enabled, Next, Conserved, WireFollows, ReleasedFirst, Truthful, DecodedSound;
    StepConserves(s, a);
    StepKeepsWire(s, a);
    StepKeepsOrder(s, a);
    StepKeepsTruth(s, a);
    StepKeepsSound(s, a);
    StepReceives(s, a);
  }

  predicate AllSound(s: State) {
    forall d <- s.received :: Sound(s.area, d)
  }

  lemma AllSoundAlive(s: State)
    requires Inv(s) && AllSound(s)
    ensures s.alive
  {
    hide Sound;
    if !s.alive { StuckIsReceived(s); }
  }

  lemma {:induction false} RunPaintable(s: State, more: seq<Action>)
    requires Inv(s) && DecodedSound(s) && AllSound(s) && Runs(s, more) && forall a <- more :: Inner(a)
    ensures var f := After(s, more);
      && Inv(f) && DecodedSound(f) && f.area == s.area && f.received == s.received
      && f.alive && Paintable(f) == Paintable(s)
    decreases |more|
  {
    hide Inv, Enabled, Next, Paintable, DecodedSound, Inner, Sound;
    if more == [] {
      AllSoundAlive(s);
    } else {
      assert more[0] in more && forall a <- more[1..] :: a in more;
      OneStep(s, more[0]);
      AllSoundAlive(Next(s, more[0]));
      InnerPaintable(s, more[0]);
      RunPaintable(Next(s, more[0]), more[1..]);
    }
  }

  lemma {:induction false} RunReceives(s: State, more: seq<Action>)
    requires Runs(s, more) && forall a <- more :: Inner(a)
    ensures After(s, more).received == s.received
    decreases |more|
  {
    hide Enabled, Next;
    if more != [] {
      assert more[0] in more && forall a <- more[1..] :: a in more;
      StepReceives(s, more[0]);
      RunReceives(Next(s, more[0]), more[1..]);
    }
  }

  lemma FlightGoesOn(s: State)
    requires s.running && s.inFlight.Some?
    ensures Enabled(s, ReleaseRing) || Enabled(s, Post(s.inFlight.value.decoded))
  {
    hide UsesRing;
  }

  lemma SettledAnswered(s: State)
    requires Conserved(s) && s.running && s.alive && s.inFlight.None? && s.jobs == [] && s.events == []
    ensures s.answered == s.received
  {
    hide Sound;
    assert Front(s) == s.answered && Middle(s) == [] && Back(s) == [];
  }

  lemma QuietIsEmpty(s: State)
    requires Quiet(s) && s.running && s.alive
    ensures s.inFlight.None? && s.jobs == [] && s.events == []
  {
    hide UsesRing;
    assert !Enabled(s, Handle(true)) && !Enabled(s, TakeJob);
    if s.inFlight.Some? { FlightGoesOn(s); }
  }

  // A quiet process that is up has answered everything.
  lemma QuietAnswered(s: State)
    requires Inv(s) && Quiet(s) && s.running && s.alive
    ensures s.answered == s.received
  {
    QuietIsEmpty(s);
    hide Quiet, Conserved, WireFollows, ReleasedFirst, Truthful;
    SettledAnswered(s);
  }

  // When everything is answered, nothing is left that could not be painted.
  lemma AnsweredPaintable(s: State)
    requires Inv(s) && DecodedSound(s) && s.answered == s.received
    ensures AllSound(s) && Paintable(s)
  {
    var rest := s.fatal + Results(s.events) + (Middle(s) + Back(s));
    assert Everywhere(s) == s.answered + rest by { hide Results, Waiting, Queued, Sound; }
    assert rest == [];
    hide Sound, Stops;
    assert s.fatal == [] && Results(s.events) == [] && s.stuck == [] && s.alive;
    assert Later(s) == {};
    NothingToPaint(s.windows, s.events);
  }

  // No draw is lost: from any state of any run, every way of going on without anything new from
  // outside comes to an end within a known number of steps, and when nothing is left to do, every draw
  // received is answered if and only if the process was up, every draw was sound, and each one still
  // to be painted fits the window it finds.
  lemma NoDrawIsLost(s: State, actions: seq<Action>, more: seq<Action>)
    requires Initial(s) && Runs(s, actions) && Runs(After(s, actions), more) && forall a <- more :: Inner(a)
    ensures var e, f := After(s, actions), After(After(s, actions), more);
      && |more| <= Weight(e)
      && f.received == e.received
      && (Quiet(f) ==> (f.answered == f.received <==> AllSound(e) && Paintable(e)))
  {
    hide Runs, After, Quiet, Inv, DecodedSound, Paintable, Weight, Inner, Sound;
    FromStart(s, actions);
    var e := After(s, actions);
    EndsInTime(e, more);
    RunReceives(e, more);
    var f := After(e, more);
    if AllSound(e) {
      RunPaintable(e, more);
      if Quiet(f) && Paintable(e) { QuietPaintable(f); }
    }
    RunSoundly(e, more);
    if f.answered == f.received { AnsweredPaintable(f); }
  }

  lemma QuietPaintable(s: State)
    requires Inv(s) && Quiet(s) && Paintable(s) && s.alive
    ensures s.answered == s.received
  {
    hide Inv, Quiet;
    QuietAnswered(s);
  }

  lemma {:induction false} RunSoundly(s: State, more: seq<Action>)
    requires Inv(s) && DecodedSound(s) && Runs(s, more) && forall a <- more :: Inner(a)
    ensures var f := After(s, more); Inv(f) && DecodedSound(f) && f.area == s.area
    decreases |more|
  {
    hide Inv, Enabled, Next, DecodedSound, Inner;
    if more != [] {
      assert more[0] in more && forall a <- more[1..] :: a in more;
      OneStep(s, more[0]);
      RunSoundly(Next(s, more[0]), more[1..]);
    }
  }

  // ---------------------------------------------------------------- what can and cannot be painted

  predicate Fits(size: Window.Size) {
    size.height * size.width < Ints.M32
  }

  predicate FitsEvent(e: Event) {
    e.NewWindow? || e.Resized? ==> Fits(e.size)
  }

  // Bytes enough for every draw, in windows of any size below 2^32 pixels: nothing fails to be painted.
  lemma {:induction false} SmallDrawsPaint(windows: map<nat, Window.Size>, events: seq<Event>, later: set<Draw>)
    requires forall wid <- windows :: Fits(windows[wid])
    requires forall e <- events :: FitsEvent(e) && (e.Result? ==> 4 * Window.Offset(e.draw.w, 0, e.draw.h) < Ints.M64)
    requires forall d <- later :: 4 * Window.Offset(d.w, 0, d.h) < Ints.M64
    ensures Paints(windows, events, later)
    decreases |events|
  {
    hide Fits, Stops;
    if events == [] {
      forall d <- later ensures !Stops(windows, d, d.decoded) { SmallDrawPaints(windows, d, d.decoded); }
    } else {
      var e := events[0];
      assert e in events && forall x <- events[1..] :: x in events;
      if e.Result? { SmallDrawPaints(windows, e.draw, e.decoded); }
      SmallDrawsPaint(WindowsAfter(windows, e), events[1..], later);
    }
  }

  lemma SmallDrawPaints(windows: map<nat, Window.Size>, d: Draw, decoded: Decoded)
    requires forall wid <- windows :: Fits(windows[wid])
    requires 4 * Window.Offset(d.w, 0, d.h) < Ints.M64
    ensures !Stops(windows, d, decoded)
  {
    hide Window.Panics, Window.Offset;
    if HasFrame(decoded) && d.wid in windows { Window.NeverPanics(windows[d.wid], Painting(d, decoded.bytes)); }
  }

  // A png draw is painted with its first byte as red, the other encodings with it as blue.
  lemma CodingColors(d: Draw, bytes: Window.Buffer)
    ensures d.coding == "png" ==> !Painting(d, bytes).bgr
    ensures d.coding == "jpeg" || d.coding == "h264" || d.coding == "webp" || d.coding == "mmap" ==> Painting(d, bytes).bgr
    ensures var p := Painting(d, bytes); p.x == d.x && p.y == d.y && p.w == d.w && p.h == d.h && p.pixels == bytes
  {
  }

  // Some draw may be unsound: this one is an mmap draw whose options lack the format.
  lemma UnsoundDraw()
    ensures var options := Mmap.Hash(map["chunks" := Mmap.ListYaml([Mmap.Chunk(8, 4)])]);
      !Sound(true, Draw(0, 1, 0, 0, 1, 1, 11, "mmap", Mmap.DrawFields(1, 1, 4, Some(options), None), Failure))
  {
    Mmap.NotAlwaysReleased();
    Mmap.HasListMeans(Mmap.DrawFields(1, 1, 4, Some(Mmap.Hash(map["chunks" := Mmap.ListYaml([Mmap.Chunk(8, 4)])])), None));
  }

  // ... and some sound draw cannot be painted: a webp image of one pixel, announced as 2^31 by 2^31,
  // on a window two pixels wide.
  lemma UnpaintableDraw(fields: Mmap.DrawFields)
    ensures var d := Draw(0, 1, 0, 0, 0x8000_0000, 0x8000_0000, 10, "webp", fields, Pixels([0, 0, 0, 0]));
      Sound(true, d) && Stops(map[1 := Window.Size(2, 1)], d, d.decoded)
  {
    hide Window.Panics, Window.Expected, Window.Complete, Window.Readable;
    Window.FourBytesPass();
  }

  // ---------------------------------------------------------------- one result per draw

  lemma {:induction false} PostedHas(trace: seq<Trace>, i: nat)
    requires i < |trace| && trace[i].Posted?
    ensures trace[i].draw in PostedIn(trace)
  {
    var last := |trace| - 1;
    if i < last { PostedHas(trace[..last], i); }
  }

  lemma {:induction false} PostedApart(trace: seq<Trace>, i: nat, j: nat)
    requires i < j < |trace| && trace[i].Posted? && trace[j].Posted?
    requires forall a, b :: 0 <= a < b < |PostedIn(trace)| ==> PostedIn(trace)[a] != PostedIn(trace)[b]
    ensures trace[i].draw != trace[j].draw
  {
    var last := |trace| - 1;
    var before := PostedIn(trace[..last]);
    assert before == PostedIn(trace)[..|before|];
    if j < last {
      PostedApart(trace[..last], i, j);
    } else {
      PostedHas(trace[..last], i);
      assert PostedIn(trace)[|before|] == trace[j].draw;
      var k :| 0 <= k < |before| && before[k] == trace[i].draw;
      assert PostedIn(trace)[k] == before[k];
    }
  }

  // The decode thread posts one result per draw, in the order of the draws.
  lemma PostedOnce(s: State, actions: seq<Action>, i: nat, j: nat)
    requires Initial(s) && Runs(s, actions)
    requires i < j < |After(s, actions).trace|
    requires After(s, actions).trace[i].Posted? && After(s, actions).trace[j].Posted?
    ensures var e := After(s, actions);
      && PostedIn(e.trace) == Front(e) && Front(e) <= e.received
      && e.trace[i].draw != e.trace[j].draw
  {
    hide Runs, After, Front, WireFollows, Truthful, OnRing, Ordered, ReleasesIn;
    FromStart(s, actions);
    var e := After(s, actions);
    WhereDrawsAre(e);
    var posted := PostedIn(e.trace);
    assert posted <= e.received;
    forall a, b | 0 <= a < b < |posted| ensures posted[a] != posted[b] {
      assert posted[a] == e.received[a] && posted[b] == e.received[b];
    }
    PostedApart(e.trace, i, j);
  }
}
