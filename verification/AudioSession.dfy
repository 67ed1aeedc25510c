/**
 The speaker protocol between the server, the UI thread and the audio worker (src/client/audio.rs,
 src/client/client.rs, src/client/windows_audio.rs). The worker sits behind a bounded queue; a step is
 one handler of the UI thread or one command of the worker.
 */
module AudioSession {
  import opened Wrappers

  const CAPACITY: nat := 96
  const MAX_U64: nat := 0xFFFF_FFFF_FFFF_FFFF
  const SYNC_THRESHOLD: nat := 40

  datatype Command =
    | Reset(sequence: nat)
    | Configure(sequence: nat)
    | Packet(sequence: nat, data: nat)   // `data` stands for the packet's bytes
    | End(sequence: nat)

  // What the UI thread writes to the server.
  datatype Control = Capabilities | Start | Stop(sequence: nat) | NewSequence(sequence: nat) | Sync(ms: nat)

  // Commands given to the worker and packets written to the server, in the order it happened.
  datatype Mark = Used(command: Command) | Sent(control: Control)

  // `exiting`: an exit code is set, and nothing more is written. `writable` is how many more writes
  // succeed before one fails.
  datatype Net = Net(log: seq<Mark>, exiting: bool, writable: nat)

  datatype State = State(
    // UI thread
    worker: bool,               // it still owns the worker's handle
    capabilitiesSent: bool,
    negotiated: bool,
    active: bool,
    headerSeen: bool,
    sequence: nat,
    avSync: bool,
    reported: Option<nat>,
    net: Net,
    // worker thread
    alive: bool,
    pipeline: Option<nat>,      // the sequence its decoder is configured for
    queue: seq<Command>)

  // One buffer of an audio packet.
  datatype Buffer = OpusHead(valid: bool) | OpusTags | Payload(data: nat)

  // A parsed audio-data packet. `streamCodec` and `codec` say whether each is Opus.
  datatype AudioData = AudioData(sequence: Option<nat>, start: bool, end: bool, streamCodec: bool, codec: bool,
                                 headers: seq<Buffer>, data: Option<Buffer>)

  datatype Outcome = Queued | Full | Stopped

  // ---------------------------------------------------------------- UI thread helpers

  // `write_json`: a write that fails sets the exit code.
  function Write(n: Net, c: Control): Net {
    if n.exiting then n
    else if n.writable == 0 then n.(exiting := true)
    else n.(log := n.log + [Sent(c)], writable := n.writable - 1)
  }

  function Send(s: State, c: Control): State {
    s.(net := Write(s.net, c))
  }

  function Announce(s: State): State {
    Send(s, NewSequence(s.sequence))
  }

  function OutcomeOf(s: State): Outcome {
    if !s.worker || !s.alive then Stopped else if |s.queue| >= CAPACITY then Full else Queued
  }

  function Enqueue(s: State, c: Command): State {
    if OutcomeOf(s) == Queued then s.(queue := s.queue + [c], net := s.net.(log := s.net.log + [Used(c)])) else s
  }

  function Successor(sequence: nat): nat {
    if sequence < MAX_U64 then sequence + 1 else MAX_U64
  }

  function Finish(s: State): State {
    s.(active := false, headerSeen := false, sequence := Successor(s.sequence))
  }

  function Disable(s: State): State {
    if !s.worker then s
    else Announce(Finish(Send(s, Stop(s.sequence)))).(negotiated := false, worker := false)
  }

  // What `handle_audio_enqueue` makes of a failed attempt to queue.
  function AfterFailure(s: State, critical: bool): State {
    if OutcomeOf(s) == Stopped || critical then Disable(s) else s
  }

  function ReportLatency(s: State, ms: nat): State {
    if !s.negotiated || !s.avSync then s
    else if s.reported.Some? && ms < s.reported.value + SYNC_THRESHOLD && s.reported.value < ms + SYNC_THRESHOLD then s
    else Send(s.(reported := Some(ms)), Sync(ms))
  }

  function StopStream(s: State): State {
    if OutcomeOf(s) != Queued then AfterFailure(s, true)
    else
      var t := Send(Enqueue(s, End(s.sequence)), Stop(s.sequence));
      ReportLatency(Announce(Finish(t)).(reported := None), 0)
  }

  // ---------------------------------------------------------------- UI thread handlers

  // The buffer's effect, and whether the rest of the packet is still looked at.
  function ProcessBuffer(s: State, b: Buffer): (State, bool) {
    match b
    case OpusHead(valid) =>
      if !valid then (StopStream(s), false)
      else if OutcomeOf(s) != Queued then (AfterFailure(s, true), false)
      else (Enqueue(s, Configure(s.sequence)).(headerSeen := true), true)
    case OpusTags => (s, true)
    case Payload(data) =>
      if !s.headerSeen then (s, true)
      else if OutcomeOf(s) != Queued then (AfterFailure(s, false), false)
      else (Enqueue(s, Packet(s.sequence, data)), true)
  }

  function ProcessBuffers(s: State, buffers: seq<Buffer>): State
    decreases |buffers|
  {
    if buffers == [] then s
    else
      var (t, more) := ProcessBuffer(s, buffers[0]);
      if more then ProcessBuffers(t, buffers[1..]) else t
  }

  predicate Accepts(s: State, sequence: Option<nat>) {
    sequence.Some? ==> sequence.value >= s.sequence
  }

  // `begin`, once the codec and the sequence are accepted.
  function Begin(s: State, sequence: Option<nat>): State {
    s.(sequence := if sequence.Some? then sequence.value else s.sequence, active := true, headerSeen := false)
  }

  // The part of a packet after any start of stream.
  function ProcessBody(s: State, p: AudioData): State {
    if p.end then
      if OutcomeOf(s) != Queued then AfterFailure(s, true)
      else ReportLatency(Announce(Finish(Enqueue(s, End(s.sequence)))), 0)
    else if !p.codec then StopStream(s)
    else ProcessBuffers(s, if p.data.Some? then p.headers + [p.data.value] else p.headers)
  }

  function ProcessAudioData(s: State, p: AudioData): State {
    if !s.negotiated || !s.worker || !Accepts(s, p.sequence) then s
    else if p.start then
      if !p.streamCodec then StopStream(s)
      else
        var t := Begin(s, p.sequence);
        if OutcomeOf(t) != Queued then AfterFailure(t, true)
        else ProcessBody(ReportLatency(Enqueue(t, Reset(t.sequence)).(reported := None), 0), p)
    else if !s.active then s
    else ProcessBody(s, p)
  }

  function ProcessHello(s: State, async: bool, avSync: bool): State {
    if s.worker && !s.capabilitiesSent && async then
      Send(s.(avSync := avSync), Capabilities).(capabilitiesSent := true)
    else s
  }

  function ProcessCapabilities(s: State, canSendOpus: bool): State {
    if !s.worker || !s.capabilitiesSent || s.negotiated || !canSendOpus then s
    else ReportLatency(Send(s.(negotiated := true), Start).(reported := None), 0)
  }

  // ---------------------------------------------------------------- worker

  // The pipeline after one command, when nothing fails.
  function Handled(pipeline: Option<nat>, c: Command): Option<nat> {
    match c
    case Reset(_) => None
    case Configure(sequence) => Some(sequence)
    case Packet(_, _) => pipeline
    case End(sequence) => if pipeline == Some(sequence) then None else pipeline
  }

  // Only a packet whose pipeline is configured for its own sequence is decoded.
  predicate Decodes(pipeline: Option<nat>, c: Command) {
    c.Packet? ==> pipeline == Some(c.sequence)
  }

  datatype Action =
    | Hello(async: bool, avSync: bool)
    | ServerCapabilities(canSendOpus: bool)
    | Data(packet: AudioData)
    | Latency(ms: nat)           // posted by the worker
    | WorkerFailed
    | Exit                       // an exit code is set
    | Work(works: bool)          // the worker handles one command; a failure ends its thread
    | WorkerEnds

  predicate Enabled(s: State, a: Action) {
    match a
    case Work(_) => s.alive && s.queue != []
    case Data(p) => p.sequence.Some? ==> p.sequence.value <= MAX_U64
    case _ => true
  }

  function Next(s: State, a: Action): State
    requires Enabled(s, a)
  {
    match a
    case Hello(async, avSync) => ProcessHello(s, async, avSync)
    case ServerCapabilities(can) => ProcessCapabilities(s, can)
    case Data(p) => ProcessAudioData(s, p)
    case Latency(ms) => ReportLatency(s, ms)
    case WorkerFailed => Disable(s)
    case Exit => s.(net := s.net.(exiting := true))
    case Work(works) =>
      s.(queue := s.queue[1..], pipeline := if works then Handled(s.pipeline, s.queue[0]) else s.pipeline,
         alive := works)
    case WorkerEnds => s.(alive := false)
  }

  predicate Initial(s: State) {
    && s.worker && s.alive && !s.negotiated && !s.active && !s.headerSeen && !s.capabilitiesSent
    && s.sequence == 0 && s.net.log == [] && s.pipeline == None && s.queue == []
  }

  predicate Runs(s: State, actions: seq<Action>)
    decreases |actions|
  {
    actions != [] ==> Enabled(s, actions[0]) && Runs(Next(s, actions[0]), actions[1..])
  }

  function After(s: State, actions: seq<Action>): State
    requires Runs(s, actions)
    decreases |actions|
  {
    if actions == [] then s else After(Next(s, actions[0]), actions[1..])
  }

  // ---------------------------------------------------------------- the queue always decodes

  function PipelineAfter(pipeline: Option<nat>, queue: seq<Command>): Option<nat>
    decreases |queue|
  {
    if queue == [] then pipeline else PipelineAfter(Handled(pipeline, queue[0]), queue[1..])
  }

  // Each packet in the queue will meet a pipeline configured for its own sequence.
  predicate QueueDecodes(pipeline: Option<nat>, queue: seq<Command>)
    decreases |queue|
  {
    queue != [] ==> Decodes(pipeline, queue[0]) && QueueDecodes(Handled(pipeline, queue[0]), queue[1..])
  }

  lemma {:induction false} QueueAppend(pipeline: Option<nat>, queue: seq<Command>, c: Command)
    ensures PipelineAfter(pipeline, queue + [c]) == Handled(PipelineAfter(pipeline, queue), c)
    ensures QueueDecodes(pipeline, queue + [c]) <==>
            QueueDecodes(pipeline, queue) && Decodes(PipelineAfter(pipeline, queue), c)
    decreases |queue|
  {
    if queue == [] {
      assert [c][1..] == [];
    } else {
      QueueAppend(Handled(pipeline, queue[0]), queue[1..], c);
      assert (queue + [c])[1..] == queue[1..] + [c];
    }
  }

  predicate QueueOk(s: State) {
    s.alive ==> QueueDecodes(s.pipeline, s.queue)
  }

  // Once the client has queued a header, the worker will be configured for its current sequence.
  predicate HeaderOk(s: State) {
    s.alive && s.worker && s.headerSeen ==> PipelineAfter(s.pipeline, s.queue) == Some(s.sequence)
  }

  // The sequence an entry carries, if any.
  function SequenceOf(m: Mark): int {
    match m
    case Used(command) => command.sequence
    case Sent(Stop(sequence)) => sequence
    case Sent(NewSequence(sequence)) => sequence
    case Sent(_) => -1
  }

  predicate Announces(m: Mark) {
    m.Sent? && m.control.NewSequence?
  }

  // Nothing above the current sequence was used or sent, and each announcement is above everything
  // before it unless the sequence has reached its maximum.
  predicate Rising(log: seq<Mark>, sequence: nat) {
    && sequence <= MAX_U64
    && (forall i :: 0 <= i < |log| ==> SequenceOf(log[i]) <= sequence)
    && (forall i, j :: 0 <= i < j < |log| && Announces(log[j]) ==>
          SequenceOf(log[i]) < SequenceOf(log[j]) || SequenceOf(log[j]) == MAX_U64)
  }

  // A stop is followed at once by the next sequence, or is the last packet before the exit. A new
  // sequence comes right after a stop or an end of stream and is the next one.
  predicate Paired(log: seq<Mark>, exiting: bool) {
    forall i :: 0 <= i < |log| ==> PairedAt(log, exiting, i)
  }

  predicate PairedAt(log: seq<Mark>, exiting: bool, i: nat)
    requires i < |log|
  {
    && (IsStop(log[i]) ==> Followed(log, i) || (exiting && forall j :: i < j < |log| ==> log[j].Used?))
    && (Announces(log[i]) ==>
          i > 0 && Ends(log[i - 1]) && SequenceOf(log[i]) == Successor(SequenceOf(log[i - 1])))
  }

  predicate IsStop(m: Mark) {
    m.Sent? && m.control.Stop?
  }

  predicate Followed(log: seq<Mark>, i: nat)
    requires i < |log| && IsStop(log[i])
  {
    i + 1 < |log| && log[i + 1] == Sent(NewSequence(Successor(log[i].control.sequence)))
  }

  predicate Ends(m: Mark) {
    if m.Used? then m.command.End? else m.control.Stop?
  }

  predicate NetOk(n: Net, sequence: nat) {
    Rising(n.log, sequence) && Paired(n.log, n.exiting)
  }

  predicate Sound(s: State) {
    QueueOk(s) && NetOk(s.net, s.sequence)
  }

  predicate Silent(s: State) {
    !s.worker && !s.negotiated
  }

  // Giving up the worker ends the negotiation with it.
  predicate Inv(s: State) {
    Sound(s) && HeaderOk(s) && (s.worker || Silent(s))
  }

  // Only what a write changes and the latency report differ, and the log is still in order.
  predicate SameBut(s: State, t: State) {
    t == s.(net := t.net, reported := t.reported) && (NetOk(s.net, s.sequence) ==> NetOk(t.net, s.sequence))
  }

  lemma WriteKeeps(n: Net, c: Control, sequence: nat)
    requires NetOk(n, sequence) && !c.NewSequence? && !c.Stop?
    ensures NetOk(Write(n, c), sequence)
  {
    if !n.exiting { LogPaired(n.log, Sent(c)); }
    hide Paired;
  }

  lemma SendKeeps(s: State, c: Control)
    requires !c.NewSequence? && !c.Stop?
    ensures SameBut(s, Send(s, c))
  {
    if NetOk(s.net, s.sequence) { WriteKeeps(s.net, c, s.sequence); }
    hide NetOk, Write;
  }

  lemma ReportKeeps(s: State, ms: nat)
    ensures SameBut(s, ReportLatency(s, ms))
  {
    SendKeeps(s.(reported := Some(ms)), Sync(ms));
    hide NetOk, Write;
  }

  lemma EnqueueKeeps(s: State, c: Command)
    requires Sound(s) && OutcomeOf(s) == Queued && c.sequence == s.sequence
    requires Decodes(PipelineAfter(s.pipeline, s.queue), c)
    ensures Sound(Enqueue(s, c))
    ensures PipelineAfter(s.pipeline, Enqueue(s, c).queue) == Handled(PipelineAfter(s.pipeline, s.queue), c)
  {
    QueueAppend(s.pipeline, s.queue, c);
    UsedPaired(s.net.log, s.net.exiting, c);
    hide Paired;
  }

  lemma UsedPaired(log: seq<Mark>, exiting: bool, c: Command)
    requires Paired(log, exiting)
    ensures Paired(log + [Used(c)], exiting)
  {
    forall i | 0 <= i < |log| + 1 ensures PairedAt(log + [Used(c)], exiting, i) {
      if i < |log| { assert PairedAt(log, exiting, i); }
    }
  }

  lemma ExitKeeps(log: seq<Mark>, exiting: bool)
    requires Paired(log, exiting)
    ensures Paired(log, true)
  {
    forall i | 0 <= i < |log| ensures PairedAt(log, true, i) {
      assert PairedAt(log, exiting, i);
    }
  }

  // One more packet, or the exit in its place.
  lemma LogPaired(log: seq<Mark>, m: Mark)
    requires Paired(log, false)
    requires Announces(m) ==>
               log != [] && Ends(log[|log| - 1]) && SequenceOf(m) == Successor(SequenceOf(log[|log| - 1]))
    ensures Paired(log, true) && Paired(log + [m], IsStop(m))
  {
    forall i | 0 <= i < |log| + 1
      ensures PairedAt(log + [m], IsStop(m), i) && (i < |log| ==> PairedAt(log, true, i))
    {
      if i < |log| { assert PairedAt(log, false, i); }
    }
  }

  lemma StopPaired(log: seq<Mark>, sequence: nat)
    requires Paired(log, false)
    ensures Paired(log + [Sent(Stop(sequence))] + [Sent(NewSequence(Successor(sequence)))], false)
  {
    var longer := log + [Sent(Stop(sequence))] + [Sent(NewSequence(Successor(sequence)))];
    forall i | 0 <= i < |longer| ensures PairedAt(longer, false, i) {
      if i < |log| { assert PairedAt(log, false, i); }
    }
  }

  lemma RisingAppend(log: seq<Mark>, sequence: nat, m: Mark, later: nat)
    requires Rising(log, sequence) && sequence <= later <= MAX_U64 && SequenceOf(m) <= later
    requires Announces(m) ==> SequenceOf(m) > sequence || SequenceOf(m) == MAX_U64
    ensures Rising(log, later) && Rising(log + [m], later)
  {
  }

  // The stream is over: the next sequence is current, and only a write changed anything else.
  predicate Over(s: State, t: State) {
    && t == s.(active := false, headerSeen := false, sequence := Successor(s.sequence), net := t.net)
    && NetOk(t.net, t.sequence)
  }

  lemma OverKeeps(s: State, t: State)
    requires Sound(s) && Over(s, t) && (s.worker || Silent(s))
    ensures Inv(t)
  {
    hide NetOk;
  }

  lemma EndWritten(n: Net, sequence: nat)
    requires NetOk(n, sequence) && n.log != [] && n.log[|n.log| - 1] == Used(End(sequence))
    ensures NetOk(Write(n, NewSequence(Successor(sequence))), Successor(sequence))
  {
    var next := Sent(NewSequence(Successor(sequence)));
    RisingAppend(n.log, sequence, next, Successor(sequence));
    if !n.exiting { LogPaired(n.log, next); }
    hide Paired, Rising;
  }

  lemma StopWritten(n: Net, sequence: nat)
    requires NetOk(n, sequence)
    ensures NetOk(Write(Write(n, Stop(sequence)), NewSequence(Successor(sequence))), Successor(sequence))
  {
    var stop, next := Sent(Stop(sequence)), Sent(NewSequence(Successor(sequence)));
    RisingAppend(n.log, sequence, stop, sequence);
    RisingAppend(n.log + [stop], sequence, next, Successor(sequence));
    RisingAppend(n.log, sequence, stop, Successor(sequence));
    if !n.exiting {
      LogPaired(n.log, stop);
      StopPaired(n.log, sequence);
    }
    hide Paired, Rising;
  }

  lemma EndAnnounced(s: State)
    requires NetOk(s.net, s.sequence) && s.net.log != [] && s.net.log[|s.net.log| - 1] == Used(End(s.sequence))
    ensures Over(s, Announce(Finish(s)))
  {
    EndWritten(s.net, s.sequence);
    hide NetOk, Write;
  }

  lemma StopAnnounced(s: State)
    requires NetOk(s.net, s.sequence)
    ensures Over(s, Announce(Finish(Send(s, Stop(s.sequence)))))
  {
    StopWritten(s.net, s.sequence);
    hide NetOk, Write;
  }

  lemma DisableKeeps(s: State)
    requires Sound(s) && (!s.worker ==> HeaderOk(s) && Silent(s))
    ensures Inv(Disable(s))
  {
    if s.worker {
      var t := Announce(Finish(Send(s, Stop(s.sequence))));
      StopAnnounced(s);
      OverKeeps(s, t);
      assert Disable(s) == t.(negotiated := false, worker := false);
      hide Announce, Disable;
    }
  }

  lemma StopKeeps(s: State)
    requires Inv(s)
    ensures Inv(StopStream(s))
  {
    if OutcomeOf(s) != Queued {
      DisableKeeps(s);
    } else {
      EnqueueKeeps(s, End(s.sequence));
      var t := Enqueue(s, End(s.sequence));
      var u := Announce(Finish(Send(t, Stop(t.sequence))));
      StopAnnounced(t);
      OverKeeps(t, u);
      ReportKeeps(u.(reported := None), 0);
      assert StopStream(s) == ReportLatency(u.(reported := None), 0);
      hide Announce, ReportLatency, StopStream, NetOk;
    }
  }

  lemma BufferKeeps(s: State, b: Buffer)
    requires Inv(s)
    ensures Inv(ProcessBuffer(s, b).0)
  {
    match b
    case OpusHead(valid) =>
      if !valid { StopKeeps(s); }
      else if OutcomeOf(s) != Queued { DisableKeeps(s); }
      else { EnqueueKeeps(s, Configure(s.sequence)); }
    case OpusTags =>
    case Payload(data) =>
      if s.headerSeen {
        if OutcomeOf(s) == Queued { EnqueueKeeps(s, Packet(s.sequence, data)); } else { DisableKeeps(s); }
      }
  }

  lemma {:induction false} BuffersKeep(s: State, buffers: seq<Buffer>)
    requires Inv(s)
    ensures Inv(ProcessBuffers(s, buffers))
    decreases |buffers|
  {
    hide Inv, ProcessBuffer;
    if buffers != [] {
      BufferKeeps(s, buffers[0]);
      BuffersKeep(ProcessBuffer(s, buffers[0]).0, buffers[1..]);
    }
  }

  lemma BodyKeeps(s: State, p: AudioData)
    requires Inv(s)
    ensures Inv(ProcessBody(s, p))
  {
    if p.end {
      if OutcomeOf(s) != Queued {
        DisableKeeps(s);
      } else {
        EnqueueKeeps(s, End(s.sequence));
        var t := Enqueue(s, End(s.sequence));
        EndAnnounced(t);
        OverKeeps(t, Announce(Finish(t)));
        ReportKeeps(Announce(Finish(t)), 0);
        hide Announce, ReportLatency, NetOk;
      }
    } else if !p.codec {
      StopKeeps(s);
    } else {
      BuffersKeep(s, if p.data.Some? then p.headers + [p.data.value] else p.headers);
    }
  }

  lemma DataKeeps(s: State, p: AudioData)
    requires Inv(s) && Enabled(s, Data(p))
    ensures Inv(ProcessAudioData(s, p))
  {
    if s.negotiated && s.worker && Accepts(s, p.sequence) {
      if p.start && !p.streamCodec {
        StopKeeps(s);
      } else if p.start {
        StartKeeps(s, p);
      } else if s.active {
        BodyKeeps(s, p);
      }
    }
  }

  lemma StartKeeps(s: State, p: AudioData)
    requires Inv(s) && Accepts(s, p.sequence) && Enabled(s, Data(p)) && s.worker && s.negotiated && p.start && p.streamCodec
    ensures Inv(ProcessAudioData(s, p))
  {
    var t := Begin(s, p.sequence);
    assert Sound(t);
    if OutcomeOf(t) != Queued {
      DisableKeeps(t);
    } else {
      EnqueueKeeps(t, Reset(t.sequence));
      var u := Enqueue(t, Reset(t.sequence)).(reported := None);
      ReportKeeps(u, 0);
      BodyKeeps(ReportLatency(u, 0), p);
    }
  }

  // The worker takes the oldest command: what it does to the pipeline was foreseen.
  lemma WorkKeeps(s: State, works: bool)
    requires Inv(s) && Enabled(s, Work(works))
    ensures Inv(Next(s, Work(works))) && Decodes(s.pipeline, s.queue[0])
  {
  }

  // The sequence never goes back, whatever a handler does.
  predicate Raises(s: State, t: State) {
    s.sequence <= t.sequence <= MAX_U64
  }

  lemma StopRaises(s: State)
    requires s.sequence <= MAX_U64
    ensures Raises(s, StopStream(s)) && Raises(s, Disable(s))
  {
    var t := Enqueue(s, End(s.sequence));
    ReportKeeps(Announce(Finish(Send(t, Stop(t.sequence)))).(reported := None), 0);
    hide ReportLatency, Write, NetOk;
  }

  lemma BufferRaises(s: State, b: Buffer)
    requires s.sequence <= MAX_U64
    ensures Raises(s, ProcessBuffer(s, b).0)
  {
    StopRaises(s);
    hide StopStream, Disable;
  }

  lemma {:induction false} BuffersRaise(s: State, buffers: seq<Buffer>)
    requires s.sequence <= MAX_U64
    ensures Raises(s, ProcessBuffers(s, buffers))
    decreases |buffers|
  {
    hide ProcessBuffer;
    if buffers != [] {
      BufferRaises(s, buffers[0]);
      BuffersRaise(ProcessBuffer(s, buffers[0]).0, buffers[1..]);
    }
  }

  lemma BodyRaises(s: State, p: AudioData)
    requires s.sequence <= MAX_U64
    ensures Raises(s, ProcessBody(s, p))
  {
    StopRaises(s);
    BuffersRaise(s, if p.data.Some? then p.headers + [p.data.value] else p.headers);
    ReportKeeps(Announce(Finish(Enqueue(s, End(s.sequence)))), 0);
    hide StopStream, Disable, ProcessBuffers, ReportLatency, Write, NetOk;
  }

  lemma DataRaises(s: State, p: AudioData)
    requires s.sequence <= MAX_U64 && Enabled(s, Data(p))
    ensures Raises(s, ProcessAudioData(s, p))
  {
    hide StopStream, Disable, ProcessBody, ReportLatency;
    StopRaises(s);
    BodyRaises(s, p);
    if Accepts(s, p.sequence) {
      var t := Begin(s, p.sequence);
      var u := Enqueue(t, Reset(t.sequence)).(reported := None);
      StopRaises(t);
      ReportKeeps(u, 0);
      BodyRaises(ReportLatency(u, 0), p);
    }
  }

  lemma SameKeeps(s: State, t: State)
    requires Inv(s) && SameBut(s, t)
    ensures Inv(t)
  {
    hide NetOk;
  }

  lemma HelloKeeps(s: State, async: bool, avSync: bool)
    requires Inv(s)
    ensures Inv(ProcessHello(s, async, avSync)) && ProcessHello(s, async, avSync).sequence == s.sequence
  {
    SendKeeps(s.(avSync := avSync), Capabilities);
    hide NetOk, Write;
  }

  lemma CapabilitiesKeep(s: State, canSendOpus: bool)
    requires Inv(s)
    ensures var t := ProcessCapabilities(s, canSendOpus); Inv(t) && t.sequence == s.sequence
  {
    SendKeeps(s.(negotiated := true), Start);
    ReportKeeps(Send(s.(negotiated := true), Start).(reported := None), 0);
    hide NetOk, Write, ReportLatency;
  }

  lemma LatencyKeeps(s: State, ms: nat)
    requires Inv(s)
    ensures Inv(ReportLatency(s, ms)) && ReportLatency(s, ms).sequence == s.sequence
  {
    ReportKeeps(s, ms);
    SameKeeps(s, ReportLatency(s, ms));
    hide Inv, NetOk, ReportLatency;
  }

  lemma FailureKeeps(s: State)
    requires Inv(s)
    ensures Inv(Disable(s)) && s.sequence <= Disable(s).sequence
  {
    DisableKeeps(s);
    StopRaises(s);
    hide Disable, StopStream, Paired, QueueOk;
  }

  lemma ExitKeepsAll(s: State)
    requires Inv(s)
    ensures Inv(s.(net := s.net.(exiting := true)))
  {
    ExitKeeps(s.net.log, s.net.exiting);
    hide Paired, QueueDecodes, Rising;
  }

  lemma StepKeeps(s: State, a: Action)
    requires Inv(s) && Enabled(s, a)
    ensures Inv(Next(s, a)) && s.sequence <= Next(s, a).sequence
  {
    hide ProcessHello, ProcessCapabilities, ProcessAudioData, ReportLatency, Disable, NetOk, QueueDecodes, Handled;
    match a
    case Hello(async, avSync) => HelloKeeps(s, async, avSync);
    case ServerCapabilities(can) => CapabilitiesKeep(s, can);
    case Data(p) =>
      DataKeeps(s, p);
      SequenceFits(s);
      DataRaises(s, p);
    case Latency(ms) => LatencyKeeps(s, ms);
    case WorkerFailed => FailureKeeps(s);
    case Exit => ExitKeepsAll(s);
    case Work(works) => WorkKeeps(s, works);
    case WorkerEnds =>
  }

  lemma SequenceFits(s: State)
    requires Inv(s)
    ensures s.sequence <= MAX_U64
  {
  }

  lemma {:induction false} RunKeeps(s: State, actions: seq<Action>)
    requires Inv(s) && Runs(s, actions)
    ensures Inv(After(s, actions)) && s.sequence <= After(s, actions).sequence
    decreases |actions|
  {
    hide Inv, Enabled, Next;
    if actions != [] {
      StepKeeps(s, actions[0]);
      RunKeeps(Next(s, actions[0]), actions[1..]);
    }
  }

  // ---------------------------------------------------------------- whole runs

  // In every run, the next command of a live worker finds the pipeline it needs: the worker's two
  // branches that drop a packet are never taken.
  lemma EveryPacketDecodes(s: State, actions: seq<Action>)
    requires Initial(s) && Runs(s, actions)
    ensures var e := After(s, actions);
      e.alive && e.queue != [] ==> Decodes(e.pipeline, e.queue[0])
  {
    RunKeeps(s, actions);
  }

  // In every run, each announced sequence is above every sequence used or sent before it, short of
  // the u64 limit, and the current one is the highest of all.
  lemma AnnouncementsRise(s: State, actions: seq<Action>)
    requires Initial(s) && Runs(s, actions)
    ensures Rising(After(s, actions).net.log, After(s, actions).sequence)
  {
    RunKeeps(s, actions);
  }

  // In every run, each stop is followed at once by the next sequence unless the exit cuts it off, and
  // no other announcement is made than after a stop or an end of stream.
  lemma StopsAreAnnounced(s: State, actions: seq<Action>)
    requires Initial(s) && Runs(s, actions)
    ensures Paired(After(s, actions).net.log, After(s, actions).net.exiting)
  {
    RunKeeps(s, actions);
  }

  lemma SilentStep(s: State, a: Action)
    requires Silent(s) && Enabled(s, a)
    ensures var t := Next(s, a);
      Silent(t) && t.net.log == s.net.log && |t.queue| <= |s.queue|
  {
  }

  lemma {:induction false} SilenceLasts(s: State, actions: seq<Action>)
    requires Silent(s) && Runs(s, actions)
    ensures var e := After(s, actions);
      Silent(e) && e.net.log == s.net.log && |e.queue| <= |s.queue|
    decreases |actions|
  {
    hide Silent, Enabled, Next;
    if actions != [] {
      SilentStep(s, actions[0]);
      SilenceLasts(Next(s, actions[0]), actions[1..]);
    }
  }

  lemma {:induction false} RunsSplit(s: State, before: seq<Action>, after: seq<Action>)
    requires Runs(s, before) && Runs(s, before + after)
    ensures Runs(After(s, before), after) && After(s, before + after) == After(After(s, before), after)
    decreases |before|
  {
    hide Enabled, Next;
    if before == [] {
      assert before + after == after;
    } else {
      assert (before + after)[1..] == before[1..] + after;
      RunsSplit(Next(s, before[0]), before[1..], after);
    }
  }

  // In every run, from the moment the worker is given up nothing more is queued or written, whatever
  // comes next.
  lemma DisableSilences(s: State, before: seq<Action>, after: seq<Action>)
    requires Initial(s) && Runs(s, before + after) && Runs(s, before) && !After(s, before).worker
    ensures Runs(After(s, before), after)
    ensures var d, e := After(s, before), After(s, before + after);
      Silent(d) && Silent(e) && e.net.log == d.net.log && |e.queue| <= |d.queue|
  {
    hide Runs, After;
    RunKeeps(s, before);
    RunsSplit(s, before, after);
    SilenceLasts(After(s, before), after);
  }
}
