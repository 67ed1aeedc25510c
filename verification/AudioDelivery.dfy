/**
 What reaches the audio worker (src/client/client.rs): which commands an audio-data packet calls for,
 that all of them are queued in order while there is room, and that the worker takes them in that order.
 */
module AudioDelivery {
  import opened Wrappers
  import opened AudioSession

  // The commands among the entries of a log.
  function CommandsIn(log: seq<Mark>): seq<Command> {
    if log == [] then []
    else
      var last := log[|log| - 1];
      CommandsIn(log[..|log| - 1]) + if last.Used? then [last.command] else []
  }

  lemma CommandsAppend(log: seq<Mark>, m: Mark)
    ensures CommandsIn(log + [m]) == CommandsIn(log) + if m.Used? then [m.command] else []
  {
    assert (log + [m])[..|log|] == log;
  }

  // ---------------------------------------------------------------- what a packet calls for

  // A header configures the decoder and lets the payloads after it through; an invalid one ends the
  // stream.
  function BuffersWanted(sequence: nat, header: bool, buffers: seq<Buffer>): seq<Command>
    decreases |buffers|
  {
    if buffers == [] then []
    else match buffers[0]
         case OpusHead(false) => [End(sequence)]
         case OpusHead(true) => [Configure(sequence)] + BuffersWanted(sequence, true, buffers[1..])
         case OpusTags => BuffersWanted(sequence, header, buffers[1..])
         case Payload(data) =>
           (if header then [Packet(sequence, data)] else []) + BuffersWanted(sequence, header, buffers[1..])
  }

  function BodyWanted(sequence: nat, header: bool, p: AudioData): seq<Command> {
    if p.end || !p.codec then [End(sequence)]
    else BuffersWanted(sequence, header, if p.data.Some? then p.headers + [p.data.value] else p.headers)
  }

  // A start resets the worker to the packet's sequence, or ends the stream if it is not Opus.
  function Wanted(s: State, p: AudioData): seq<Command> {
    if !p.start then BodyWanted(s.sequence, s.headerSeen, p)
    else if !p.streamCodec then [End(s.sequence)]
    else
      var sequence := if p.sequence.Some? then p.sequence.value else s.sequence;
      [Reset(sequence)] + BodyWanted(sequence, false, p)
  }

  // The packet is looked at: the speaker is negotiated, its sequence is not an old one, and it starts a
  // stream or belongs to one.
  predicate Heard(s: State, p: AudioData) {
    && s.negotiated && s.worker && (p.sequence.Some? ==> p.sequence.value >= s.sequence) && (p.start || s.active)
  }

  // The worker is there and has room for so many commands.
  predicate Room(s: State, count: nat) {
    s.worker && s.alive && |s.queue| + count <= 96
  }

  // ---------------------------------------------------------------- it is queued

  // From `s` to `t` exactly these commands are queued.
  predicate Delivers(s: State, t: State, commands: seq<Command>) {
    && t.queue == s.queue + commands && CommandsIn(t.net.log) == CommandsIn(s.net.log) + commands
  }

  // ... and the stream goes on.
  predicate GoesOn(s: State, t: State) {
    t.worker == s.worker && t.alive == s.alive && t.sequence == s.sequence
  }

  lemma DeliversThen(s: State, t: State, u: State, a: seq<Command>, b: seq<Command>)
    requires Delivers(s, t, a) && Delivers(t, u, b)
    ensures Delivers(s, u, a + b)
  {
    hide CommandsIn;
    assert s.queue + a + b == s.queue + (a + b);
    assert CommandsIn(s.net.log) + a + b == CommandsIn(s.net.log) + (a + b);
  }

  lemma EnqueueDelivers(s: State, c: Command)
    requires Room(s, 1)
    ensures var t := Enqueue(s, c); Delivers(s, t, [c]) && GoesOn(s, t) && t.headerSeen == s.headerSeen
  {
    CommandsAppend(s.net.log, Used(c));
    hide CommandsIn;
  }

  lemma WriteDelivers(n: Net, c: Control)
    ensures CommandsIn(Write(n, c).log) == CommandsIn(n.log)
  {
    CommandsAppend(n.log, Sent(c));
    hide CommandsIn;
  }

  lemma SendDelivers(s: State, c: Control)
    ensures Delivers(s, Send(s, c), [])
  {
    WriteDelivers(s.net, c);
    hide CommandsIn, Write;
  }

  lemma ReportDelivers(s: State, ms: nat)
    ensures var t := ReportLatency(s, ms);
      Delivers(s, t, []) && GoesOn(s, t) && t.headerSeen == s.headerSeen
  {
    WriteDelivers(s.net, Sync(ms));
    hide CommandsIn, Write;
  }

  // The end of a stream queues its one command, whatever is written to the server.
  lemma EndDelivers(s: State, stop: bool)
    requires Room(s, 1)
    ensures var t := Enqueue(s, End(s.sequence));
      Delivers(s, Announce(Finish(if stop then Send(t, Stop(s.sequence)) else t)), [End(s.sequence)])
  {
    EnqueueDelivers(s, End(s.sequence));
    var t := Enqueue(s, End(s.sequence));
    SendDelivers(t, Stop(s.sequence));
    var u := if stop then Send(t, Stop(s.sequence)) else t;
    WriteDelivers(u.net, NewSequence(Successor(u.sequence)));
    hide CommandsIn, Write, Enqueue;
  }

  lemma StopDelivers(s: State)
    requires Room(s, 1)
    ensures Delivers(s, StopStream(s), [End(s.sequence)])
  {
    EndDelivers(s, true);
    var t := Announce(Finish(Send(Enqueue(s, End(s.sequence)), Stop(s.sequence))));
    ReportDelivers(t.(reported := None), 0);
    hide CommandsIn, ReportLatency, Announce;
    DeliversThen(s, t.(reported := None), StopStream(s), [End(s.sequence)], []);
    assert [End(s.sequence)] + [] == [End(s.sequence)];
  }

  lemma {:induction false} BuffersDeliver(s: State, buffers: seq<Buffer>)
    requires Room(s, |BuffersWanted(s.sequence, s.headerSeen, buffers)|)
    ensures Delivers(s, ProcessBuffers(s, buffers), BuffersWanted(s.sequence, s.headerSeen, buffers))
    decreases |buffers|
  {
    hide CommandsIn, Enqueue, StopStream, Delivers;
    if buffers == [] {
      NothingDelivered(s);
    } else {
      var rest := buffers[1..];
      match buffers[0]
      case OpusHead(valid) =>
        if valid {
          EnqueueDelivers(s, Configure(s.sequence));
          HeaderDelivers(s, Enqueue(s, Configure(s.sequence)), [Configure(s.sequence)]);
          var t := Enqueue(s, Configure(s.sequence)).(headerSeen := true);
          RoomLeft(s, t, [Configure(s.sequence)], |BuffersWanted(t.sequence, true, rest)|);
          BuffersDeliver(t, rest);
          DeliversThen(s, t, ProcessBuffers(t, rest), [Configure(s.sequence)], BuffersWanted(s.sequence, true, rest));
        } else {
          StopDelivers(s);
        }
      case OpusTags => BuffersDeliver(s, rest);
      case Payload(data) =>
        if s.headerSeen {
          var c := Packet(s.sequence, data);
          EnqueueDelivers(s, c);
          var t := Enqueue(s, c);
          RoomLeft(s, t, [c], |BuffersWanted(t.sequence, true, rest)|);
          BuffersDeliver(t, rest);
          DeliversThen(s, t, ProcessBuffers(t, rest), [c], BuffersWanted(s.sequence, true, rest));
        } else {
          BuffersDeliver(s, rest);
          assert [] + BuffersWanted(s.sequence, false, rest) == BuffersWanted(s.sequence, false, rest);
        }
    }
  }

  lemma NothingDelivered(s: State)
    ensures Delivers(s, s, [])
  {
  }

  lemma HeaderDelivers(s: State, t: State, commands: seq<Command>)
    requires Delivers(s, t, commands)
    ensures Delivers(s, t.(headerSeen := true), commands)
  {
    hide CommandsIn;
  }

  lemma RoomLeft(s: State, t: State, commands: seq<Command>, count: nat)
    requires Room(s, |commands| + count) && Delivers(s, t, commands) && GoesOn(s, t)
    ensures Room(t, count)
  {
    hide CommandsIn;
  }

  lemma BodyDelivers(s: State, p: AudioData)
    requires Room(s, |BodyWanted(s.sequence, s.headerSeen, p)|)
    ensures Delivers(s, ProcessBody(s, p), BodyWanted(s.sequence, s.headerSeen, p))
  {
    hide CommandsIn, StopStream, ProcessBuffers, BuffersWanted, Delivers;
    if p.end {
      EndDelivers(s, false);
      var t := Announce(Finish(Enqueue(s, End(s.sequence))));
      ReportDelivers(t, 0);
      DeliversThen(s, t, ReportLatency(t, 0), [End(s.sequence)], []);
      assert [End(s.sequence)] + [] == [End(s.sequence)];
      hide ReportLatency, Announce, Enqueue;
    } else if !p.codec {
      StopDelivers(s);
    } else {
      BuffersDeliver(s, if p.data.Some? then p.headers + [p.data.value] else p.headers);
    }
  }

  // A packet that is heard queues exactly the commands it calls for, in order.
  lemma DataDelivers(s: State, p: AudioData)
    requires Heard(s, p) && Room(s, |Wanted(s, p)|)
    ensures Delivers(s, ProcessAudioData(s, p), Wanted(s, p))
  {
    hide CommandsIn, StopStream, ProcessBody, BodyWanted, Delivers;
    if !p.start {
      BodyDelivers(s, p);
    } else if !p.streamCodec {
      StopDelivers(s);
    } else {
      StartDelivers(s, p);
    }
  }

  lemma StartDelivers(s: State, p: AudioData)
    requires Heard(s, p) && p.start && p.streamCodec && Room(s, |Wanted(s, p)|)
    ensures Delivers(s, ProcessAudioData(s, p), Wanted(s, p))
  {
    var t := Begin(s, p.sequence);
    EnqueueDelivers(t, Reset(t.sequence));
    var u := Enqueue(t, Reset(t.sequence)).(reported := None);
    ReportDelivers(u, 0);
    hide CommandsIn, ProcessBody, BodyWanted, ReportLatency, Enqueue;
    var v := ReportLatency(u, 0);
    assert Delivers(s, u, [Reset(t.sequence)]);
    DeliversThen(s, u, v, [Reset(t.sequence)], []);
    assert [Reset(t.sequence)] + [] == [Reset(t.sequence)];
    BodyDelivers(v, p);
    DeliversThen(s, v, ProcessBody(v, p), [Reset(t.sequence)], BodyWanted(t.sequence, false, p));
  }

  // ---------------------------------------------------------------- the three ordinary packets

  // A payload of a stream whose header was seen.
  lemma PayloadIsQueued(s: State, p: AudioData, data: nat)
    requires Heard(s, p) && s.headerSeen && Room(s, 1)
    requires !p.start && !p.end && p.codec && p.headers == [] && p.data == Some(Payload(data))
    ensures ProcessAudioData(s, p).queue == s.queue + [Packet(s.sequence, data)]
  {
    assert p.headers + [p.data.value] == [Payload(data)] && [Payload(data)][1..] == [];
    assert BuffersWanted(s.sequence, true, [Payload(data)]) == [Packet(s.sequence, data)];
    DataDelivers(s, p);
    hide ProcessAudioData, CommandsIn;
  }

  // A start of stream that brings its header and a payload.
  lemma StartIsQueued(s: State, p: AudioData, sequence: nat, data: nat)
    requires Heard(s, p) && Room(s, 3) && p.sequence == Some(sequence)
    requires p.start && p.streamCodec && !p.end && p.codec && p.headers == [OpusHead(true)] && p.data == Some(Payload(data))
    ensures ProcessAudioData(s, p).queue ==
            s.queue + [Reset(sequence), Configure(sequence), Packet(sequence, data)]
  {
    var buffers := p.headers + [p.data.value];
    assert buffers == [OpusHead(true), Payload(data)];
    assert buffers[1..] == [Payload(data)] && buffers[1..][1..] == [];
    assert BuffersWanted(sequence, true, buffers[1..]) == [Packet(sequence, data)];
    assert Wanted(s, p) == [Reset(sequence), Configure(sequence), Packet(sequence, data)];
    DataDelivers(s, p);
    hide ProcessAudioData, CommandsIn;
  }

  // An end of stream.
  lemma EndIsQueued(s: State, p: AudioData)
    requires Heard(s, p) && Room(s, 1) && !p.start && p.end
    ensures ProcessAudioData(s, p).queue == s.queue + [End(s.sequence)]
  {
    DataDelivers(s, p);
    hide ProcessAudioData, CommandsIn;
  }

  // A payload that finds the queue full is dropped and nothing else happens. Any other command that
  // does gives up the worker: a start, an end, another codec, a header.
  lemma FullQueue(s: State, p: AudioData, data: nat)
    requires Heard(s, p) && s.alive && |s.queue| >= 96
    ensures !p.start && !p.end && p.codec && s.headerSeen && p.headers == [] && p.data == Some(Payload(data)) ==>
              ProcessAudioData(s, p) == s
    ensures p.start || p.end || !p.codec || (p.headers != [] && p.headers[0].OpusHead?) ==>
              !ProcessAudioData(s, p).worker && ProcessAudioData(s, p).queue == s.queue
  {
    assert p.headers == [] && p.data.Some? ==> p.headers + [p.data.value] == [p.data.value];
    if !p.start && !p.end && p.codec && p.headers != [] && p.headers[0].OpusHead? {
      HeaderFindsFull(s, if p.data.Some? then p.headers + [p.data.value] else p.headers);
    }
    hide Write;
  }

  lemma HeaderFindsFull(s: State, buffers: seq<Buffer>)
    requires s.worker && s.alive && |s.queue| >= 96 && buffers != [] && buffers[0].OpusHead?
    ensures ProcessBuffers(s, buffers) == Disable(s) && Disable(s).queue == s.queue && !Disable(s).worker
  {
  }

  // A worker that has died is given up at the next command for it, payloads included.
  lemma DeadWorker(s: State, p: AudioData, data: nat)
    requires Heard(s, p) && !s.alive
    requires p.start || p.end || !p.codec || (s.headerSeen && p.headers == [] && p.data == Some(Payload(data)))
    ensures !ProcessAudioData(s, p).worker && ProcessAudioData(s, p).queue == s.queue
  {
    assert p.headers == [] && p.data.Some? ==> p.headers + [p.data.value] == [p.data.value];
    hide Write;
  }

  // ---------------------------------------------------------------- over runs

  // What the packets of a run call for.
  function WantedOver(s: State, actions: seq<Action>): seq<Command>
    requires Runs(s, actions)
    decreases |actions|
  {
    if actions == [] then []
    else
      (if actions[0].Data? && Heard(s, actions[0].packet) then Wanted(s, actions[0].packet) else []) +
      WantedOver(Next(s, actions[0]), actions[1..])
  }

  // The worker keeps up: it is there, with room, whenever a packet is heard.
  predicate KeepsUp(s: State, actions: seq<Action>)
    requires Runs(s, actions)
    decreases |actions|
  {
    actions != [] ==>
      && (actions[0].Data? && Heard(s, actions[0].packet) ==> Room(s, |Wanted(s, actions[0].packet)|))
      && KeepsUp(Next(s, actions[0]), actions[1..])
  }

  lemma DisableDelivers(s: State)
    ensures Delivers(s, Disable(s), [])
  {
    WriteDelivers(s.net, Stop(s.sequence));
    WriteDelivers(Write(s.net, Stop(s.sequence)), NewSequence(Successor(s.sequence)));
    hide CommandsIn, Write;
  }

  lemma OtherStep(s: State, a: Action)
    requires Enabled(s, a) && !a.Data? && !a.Work?
    ensures Delivers(s, Next(s, a), [])
  {
    hide Disable, ReportLatency, Write, CommandsIn;
    match a
    case Hello(async, avSync) => WriteDelivers(s.net, Capabilities);
    case ServerCapabilities(can) =>
      WriteDelivers(s.net, Start);
      ReportDelivers(Send(s.(negotiated := true), Start).(reported := None), 0);
    case Latency(ms) => ReportDelivers(s, ms);
    case WorkerFailed => DisableDelivers(s);
    case _ =>
  }

  lemma UnheardIsIgnored(s: State, p: AudioData)
    requires !Heard(s, p)
    ensures ProcessAudioData(s, p) == s
  {
  }

  lemma StepDelivers(s: State, a: Action)
    requires Enabled(s, a) && (a.Data? && Heard(s, a.packet) ==> Room(s, |Wanted(s, a.packet)|))
    ensures CommandsIn(Next(s, a).net.log) ==
            CommandsIn(s.net.log) + if a.Data? && Heard(s, a.packet) then Wanted(s, a.packet) else []
  {
    hide CommandsIn, Wanted, Heard, ProcessAudioData, ProcessHello, ProcessCapabilities, ReportLatency, Disable;
    if a.Data? {
      if Heard(s, a.packet) { DataDelivers(s, a.packet); } else { UnheardIsIgnored(s, a.packet); }
    } else if !a.Work? {
      OtherStep(s, a);
    }
  }

  // In every run the worker keeps up with, the commands given to it are exactly those its packets call
  // for: each payload behind a header, in order, none twice, none left out.
  lemma {:induction false} EverythingWantedIsQueued(s: State, actions: seq<Action>)
    requires Runs(s, actions) && KeepsUp(s, actions)
    ensures CommandsIn(After(s, actions).net.log) == CommandsIn(s.net.log) + WantedOver(s, actions)
    decreases |actions|
  {
    hide Enabled, Next, CommandsIn, Heard, Wanted, Room;
    if actions != [] {
      StepDelivers(s, actions[0]);
      EverythingWantedIsQueued(Next(s, actions[0]), actions[1..]);
    }
  }

  // What the worker takes from its queue.
  function TakenOver(s: State, actions: seq<Action>): seq<Command>
    requires Runs(s, actions)
    decreases |actions|
  {
    if actions == [] then []
    else (if actions[0].Work? then [s.queue[0]] else []) + TakenOver(Next(s, actions[0]), actions[1..])
  }

  // ... is what was given to it, in order, and what is left is still to come.
  lemma {:induction false} TakenInOrder(s: State, actions: seq<Action>)
    requires Runs(s, actions) && KeepsUp(s, actions)
    ensures TakenOver(s, actions) + After(s, actions).queue == s.queue + WantedOver(s, actions)
    decreases |actions|
  {
    hide Next, CommandsIn, Heard, Wanted, Room;
    if actions != [] {
      var a, n := actions[0], Next(s, actions[0]);
      StepQueues(s, a);
      TakenInOrder(n, actions[1..]);
      var wanted := if a.Data? && Heard(s, a.packet) then Wanted(s, a.packet) else [];
      var taken, later, left := TakenOver(n, actions[1..]), WantedOver(n, actions[1..]), After(n, actions[1..]).queue;
      if a.Work? {
        assert s.queue == [s.queue[0]] + n.queue;
        Regrouped([s.queue[0]], taken, left);
        Regrouped([s.queue[0]], n.queue, later);
        assert [] + later == later;
      } else {
        Regrouped(s.queue, wanted, later);
        assert [] + taken == taken;
      }
    }
  }

  lemma Regrouped(a: seq<Command>, b: seq<Command>, c: seq<Command>)
    ensures a + (b + c) == (a + b) + c
  {
  }

  lemma StepQueues(s: State, a: Action)
    requires Enabled(s, a) && (a.Data? && Heard(s, a.packet) ==> Room(s, |Wanted(s, a.packet)|))
    ensures Next(s, a).queue ==
            if a.Work? then s.queue[1..]
            else s.queue + if a.Data? && Heard(s, a.packet) then Wanted(s, a.packet) else []
  {
    hide CommandsIn, Wanted, Heard, ProcessAudioData, ProcessHello, ProcessCapabilities, ReportLatency, Disable;
    if a.Data? {
      if Heard(s, a.packet) { DataDelivers(s, a.packet); } else { UnheardIsIgnored(s, a.packet); }
    } else if !a.Work? {
      OtherStep(s, a);
    }
  }

  // ---------------------------------------------------------------- a whole stream

  function Fed(s: State, packets: seq<AudioData>): State
    decreases |packets|
  {
    if packets == [] then s else Fed(ProcessAudioData(s, packets[0]), packets[1..])
  }

  lemma {:induction false} FedJoin(s: State, a: seq<AudioData>, b: seq<AudioData>)
    ensures Fed(s, a + b) == Fed(Fed(s, a), b)
    decreases |a|
  {
    if a == [] {
      assert a + b == b;
    } else {
      FedJoin(ProcessAudioData(s, a[0]), a[1..], b);
      assert (a + b)[1..] == a[1..] + b;
    }
  }

  function StartPacket(sequence: nat): AudioData {
    AudioData(Some(sequence), true, false, true, true, [OpusHead(true)], None)
  }

  function EndPacket(sequence: nat): AudioData {
    AudioData(Some(sequence), false, true, true, true, [], None)
  }

  function PayloadPackets(sequence: nat, payloads: seq<nat>): seq<AudioData> {
    if payloads == [] then []
    else [AudioData(Some(sequence), false, false, true, true, [], Some(Payload(payloads[0])))] +
         PayloadPackets(sequence, payloads[1..])
  }

  function PacketsOf(sequence: nat, payloads: seq<nat>): (c: seq<Command>)
    ensures |c| == |payloads|
  {
    if payloads == [] then [] else [Packet(sequence, payloads[0])] + PacketsOf(sequence, payloads[1..])
  }

  predicate Playing(s: State, sequence: nat) {
    s.negotiated && s.worker && s.active && s.headerSeen && s.sequence == sequence
  }

  lemma StartPlays(s: State, sequence: nat)
    requires s.negotiated && s.sequence <= sequence && Room(s, 2)
    ensures var t := ProcessAudioData(s, StartPacket(sequence));
      Playing(t, sequence) && t.alive && t.queue == s.queue + [Reset(sequence), Configure(sequence)]
  {
    var t := Begin(s, Some(sequence));
    var u := ReportLatency(Enqueue(t, Reset(sequence)).(reported := None), 0);
    assert u == s.(sequence := sequence, active := true, headerSeen := false,
                   queue := s.queue + [Reset(sequence)], net := u.net, reported := u.reported);
    hide ReportLatency, Write;
    var buffers := [OpusHead(true)];
    assert StartPacket(sequence).headers == buffers && buffers[1..] == [];
    assert ProcessBuffers(u, buffers) == Enqueue(u, Configure(sequence)).(headerSeen := true);
  }

  lemma PayloadPlays(s: State, sequence: nat, p: AudioData, data: nat)
    requires Playing(s, sequence) && Room(s, 1)
    requires p == AudioData(Some(sequence), false, false, true, true, [], Some(Payload(data)))
    ensures var t := ProcessAudioData(s, p);
      Playing(t, sequence) && t.alive && t.queue == s.queue + [Packet(sequence, data)]
  {
    var buffers := [Payload(data)];
    assert p.headers + [p.data.value] == buffers && buffers[1..] == [];
    assert ProcessBuffers(s, buffers) == Enqueue(s, Packet(sequence, data));
  }

  lemma {:induction false} PayloadsPlay(s: State, sequence: nat, payloads: seq<nat>)
    requires Playing(s, sequence) && Room(s, |payloads|)
    ensures var t := Fed(s, PayloadPackets(sequence, payloads));
      Playing(t, sequence) && t.alive && t.queue == s.queue + PacketsOf(sequence, payloads)
    decreases |payloads|
  {
    if payloads != [] {
      var packets := PayloadPackets(sequence, payloads);
      PayloadPlays(s, sequence, packets[0], payloads[0]);
      hide ProcessAudioData;
      PayloadsPlay(ProcessAudioData(s, packets[0]), sequence, payloads[1..]);
    }
  }

  // A stream from its start to its end, with room for it: the worker is given every payload, in order,
  // between a reset and header in front and the end behind, and the next sequence is up.
  lemma StreamIsQueued(s: State, sequence: nat, payloads: seq<nat>)
    requires s.negotiated && s.sequence <= sequence < MAX_U64 && Room(s, |payloads| + 3)
    ensures var t := Fed(s, [StartPacket(sequence)] + PayloadPackets(sequence, payloads) + [EndPacket(sequence)]);
      && t.queue == s.queue + [Reset(sequence), Configure(sequence)] + PacketsOf(sequence, payloads) + [End(sequence)]
      && !t.active && t.sequence == sequence + 1
  {
    var started := ProcessAudioData(s, StartPacket(sequence));
    StartPlays(s, sequence);
    PayloadsPlay(started, sequence, payloads);
    var played := Fed(started, PayloadPackets(sequence, payloads));
    EndIsQueued(played, EndPacket(sequence));
    EndsStream(played, sequence);
    hide ProcessAudioData;
    FedJoin(s, [StartPacket(sequence)] + PayloadPackets(sequence, payloads), [EndPacket(sequence)]);
    FedJoin(s, [StartPacket(sequence)], PayloadPackets(sequence, payloads));
    FedOne(s, StartPacket(sequence));
    FedOne(played, EndPacket(sequence));
  }

  lemma FedOne(s: State, p: AudioData)
    ensures Fed(s, [p]) == ProcessAudioData(s, p)
  {
    assert [p][1..] == [];
  }

  lemma EndsStream(s: State, sequence: nat)
    requires Playing(s, sequence) && Room(s, 1) && sequence < MAX_U64
    ensures var t := ProcessAudioData(s, EndPacket(sequence)); !t.active && t.sequence == sequence + 1
  {
  }

  // ---------------------------------------------------------------- the handshake

  // A server that asks for capabilities is sent them once, and one that can send Opus is told to start.
  lemma HandshakeStarts(s: State, avSync: bool)
    requires Initial(s) && !s.net.exiting && s.net.writable >= 3
    ensures var actions := [Hello(true, avSync), ServerCapabilities(true)];
      && Runs(s, actions)
      && var e := After(s, actions);
         e.negotiated && e.sequence == 0 && e.queue == [] && e.pipeline == None && e.net.log == [Sent(Capabilities), Sent(Start)] + (if avSync then [Sent(Sync(0))] else [])
         && Next(e, Hello(true, avSync)) == e && Next(e, ServerCapabilities(true)) == e
  {
    var actions := [Hello(true, avSync), ServerCapabilities(true)];
    var n := Next(s, actions[0]);
    assert actions[1..] == [ServerCapabilities(true)] && [ServerCapabilities(true)][1..] == [];
    assert Runs(Next(n, ServerCapabilities(true)), []);
    assert Runs(n, [ServerCapabilities(true)]);
    assert After(n, [ServerCapabilities(true)]) == Next(n, ServerCapabilities(true));
  }

  // The total latency is reported when it is 40 ms away from what was last reported, or nothing was.
  lemma LatencyReports(s: State, ms: nat)
    requires s.negotiated && s.avSync && !s.net.exiting && s.net.writable > 0
    ensures ReportLatency(s, ms).net.log ==
            if s.reported == None || s.reported.value >= ms + 40 || ms >= s.reported.value + 40
            then s.net.log + [Sent(Sync(ms))] else s.net.log
  {
  }

  // The worker: a reset drops the decoder, a header makes one for its sequence, and the end of that
  // sequence drops it again.
  lemma WorkerCommands(pipeline: Option<nat>, sequence: nat, data: nat)
    ensures !Decodes(Handled(pipeline, Reset(sequence)), Packet(sequence, data))
    ensures Decodes(Handled(pipeline, Configure(sequence)), Packet(sequence, data))
    ensures !Decodes(Handled(Some(sequence), End(sequence)), Packet(sequence, data))
    ensures Handled(pipeline, Packet(sequence, data)) == pipeline
    ensures pipeline != Some(sequence) ==> Handled(pipeline, End(sequence)) == pipeline
  {
  }
}
