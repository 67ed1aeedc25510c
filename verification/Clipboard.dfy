/**
 Plain-text clipboard sync (src/client/clipboard.rs and the handlers of src/client/client.rs). The
 clipboard thread and the UI thread each keep the last text they saw; between them run a queue of
 texts to set and a queue of change events. Any local program may copy at any moment.
 */
module Clipboard {
  import opened Wrappers

  datatype State = State(
    os: Option<string>,        // the OS clipboard; None is a selection that is not text
    last: string,              // the clipboard thread's
    uiLast: string,            // the UI thread's `last_clipboard`
    enabled: bool,
    sets: seq<string>,         // UI thread -> clipboard thread
    events: seq<string>,       // clipboard thread -> UI thread
    sent: seq<string>,         // clipboard-data packets
    copies: seq<string>)       // texts local programs put on the clipboard, in order

  datatype Action =
    | LocalCopy(content: Option<string>)
    | Poll(readable: bool)     // an idle tick; reading the OS clipboard may fail
    | TakeSet(works: bool)
    | RemoteText(text: string) // a token or contents from the server
    | HandleChange
    | Toggle(on: bool)

  predicate Enabled(s: State, a: Action) {
    match a
    case TakeSet(_) => s.sets != []
    case HandleChange => s.events != []
    case _ => true
  }

  // `apply_set`: a failed write leaves both the clipboard and `last` alone.
  function ApplySet(s: State, text: string, works: bool): State {
    if works then s.(os := Some(text), last := text) else s
  }

  function PollClipboard(s: State, readable: bool): State {
    if readable && s.os.Some? && s.os.value != "" && s.os.value != s.last
    then s.(last := s.os.value, events := s.events + [s.os.value])
    else s
  }

  function SetLocalClipboard(s: State, text: string): State {
    if !s.enabled || text == "" then s else s.(uiLast := text, sets := s.sets + [text])
  }

  function ProcessChanged(s: State, text: string): State {
    if !s.enabled || text == "" || text == s.uiLast then s
    else s.(uiLast := text, sent := s.sent + [text])
  }

  function Next(s: State, a: Action): State
    requires Enabled(s, a)
  {
    match a
    case LocalCopy(content) => s.(os := content, copies := if content.Some? then s.copies + [content.value] else s.copies)
    case Poll(readable) => PollClipboard(s, readable)
    case TakeSet(works) => ApplySet(s.(sets := s.sets[1..]), s.sets[0], works)
    case RemoteText(text) => SetLocalClipboard(s, text)
    case HandleChange => ProcessChanged(s.(events := s.events[1..]), s.events[0])
    case Toggle(on) => s.(enabled := on)
  }

  // The thread seeds `last` with the selection it finds. When it cannot read that selection, a text
  // already there is as good as a first local copy.
  function Started(os: Option<string>, readable: bool): State {
    State(os, if readable && os.Some? then os.value else "", "", true, [], [], [],
          if !readable && os.Some? then [os.value] else [])
  }

  predicate Runs(s: State, actions: seq<Action>)
    decreases |actions|
  {
    actions != [] ==> Enabled(s, actions[0]) && Runs(Next(s, actions[0]), actions[1..])
  }

  function After(s: State, actions: seq<Action>): State
    requires Runs(s, actions)
    decreases |actions|
  {
    if actions == [] then s else After(Next(s, actions[0]), actions[1..])
  }

  // ---------------------------------------------------------------- subsequences

  // `a` is what is left of `b` after leaving some elements out.
  predicate Within(a: seq<string>, b: seq<string>) {
    a == [] ||
    (b != [] &&
     var a', b' := a[..|a| - 1], b[..|b| - 1];
     (a[|a| - 1] == b[|b| - 1] && Within(a', b')) || Within(a, b'))
  }

  lemma WithinLonger(a: seq<string>, b: seq<string>, x: string)
    requires Within(a, b)
    ensures Within(a, b + [x]) && Within(a + [x], b + [x])
  {
  }

  lemma {:induction false} WithinPrefix(a: seq<string>, x: string, b: seq<string>)
    requires Within(a + [x], b)
    ensures Within(a, b)
  {
    assert (a + [x])[..|a|] == a;
    var b' := b[..|b| - 1];
    if Within(a + [x], b') { WithinPrefix(a, x, b'); }
    WithinShorter(a, b);
  }

  lemma WithinShorter(a: seq<string>, b: seq<string>)
    ensures b != [] && Within(a, b[..|b| - 1]) ==> Within(a, b)
  {
  }

  lemma {:induction false} WithinWithout(a: seq<string>, x: string, c: seq<string>, b: seq<string>)
    requires Within(a + [x] + c, b)
    ensures Within(a + c, b)
    decreases |b|
  {
    if c == [] {
      assert a + [x] + c == a + [x] && a + c == a;
      WithinPrefix(a, x, b);
    } else {
      var whole, b', c' := a + [x] + c, b[..|b| - 1], c[..|c| - 1];
      assert whole[..|whole| - 1] == a + [x] + c' && (a + c)[..|a + c| - 1] == a + c';
      if Within(whole, b') {
        WithinWithout(a, x, c, b');
        WithinShorter(a + c, b);
      } else {
        WithinWithout(a, x, c', b');
      }
    }
  }

  lemma {:induction false} WithinMeans(a: seq<string>, b: seq<string>)
    requires Within(a, b)
    ensures |a| <= |b| && forall t <- a :: t in b
    decreases |b|
  {
    if a != [] {
      var a', b' := a[..|a| - 1], b[..|b| - 1];
      if Within(a, b') {
        WithinMeans(a, b');
      } else {
        WithinMeans(a', b');
        assert a == a' + [a[|a| - 1]];
      }
    }
  }

  // ---------------------------------------------------------------- no feedback

  // A text on the OS clipboard that the next tick would report.
  function Unreported(s: State): seq<string> {
    if s.os.Some? && s.os.value != "" && s.os.value != s.last then [s.os.value] else []
  }

  // What was sent, what is queued to be sent and what is about to be noticed are, in order, some of
  // the local copies; a text this client set itself is never among them.
  predicate Inv(s: State) {
    Within(s.sent + s.events + Unreported(s), s.copies)
  }

  lemma CopyKeeps(s: State, text: string)
    requires Inv(s)
    ensures Inv(s.(os := Some(text), copies := s.copies + [text]))
  {
    var base, pending := s.sent + s.events, Unreported(s);
    if pending == [] { assert base + [] == base; } else { WithinPrefix(base, pending[0], s.copies); }
    WithinLonger(base, s.copies, text);
    assert base + [] == base;
  }

  // Putting something of ours, or nothing readable, on the clipboard only takes a candidate away.
  lemma ForgettingKeeps(s: State, t: State)
    requires Inv(s) && t.sent == s.sent && t.events == s.events && t.copies == s.copies
    requires Unreported(t) == [] || Unreported(t) == Unreported(s)
    ensures Inv(t)
  {
    var base, pending := s.sent + s.events, Unreported(s);
    assert base + [] == base;
    if pending != [] { WithinPrefix(base, pending[0], s.copies); }
  }

  lemma PollKeeps(s: State, readable: bool)
    requires Inv(s)
    ensures Inv(PollClipboard(s, readable))
  {
    var t := PollClipboard(s, readable);
    if t.events != s.events {
      assert s.sent + s.events + Unreported(s) == s.sent + t.events + [];
    }
  }

  lemma ChangeKeeps(s: State)
    requires Inv(s) && s.events != []
    ensures Inv(ProcessChanged(s.(events := s.events[1..]), s.events[0]))
  {
    hide Within;
    var text, rest, pending := s.events[0], s.events[1..], Unreported(s);
    assert s.events == [text] + rest;
    Regrouped(s.sent, text, rest, pending);
    WithinWithout(s.sent, text, rest + pending, s.copies);
  }

  lemma Regrouped(sent: seq<string>, text: string, rest: seq<string>, pending: seq<string>)
    ensures sent + ([text] + rest) + pending == sent + [text] + (rest + pending)
    ensures (sent + [text]) + rest + pending == sent + [text] + (rest + pending)
    ensures sent + (rest + pending) == sent + rest + pending
  {
  }

  lemma StepKeeps(s: State, a: Action)
    requires Inv(s) && Enabled(s, a)
    ensures Inv(Next(s, a))
  {
    hide Within, Inv;
    match a
    case LocalCopy(content) =>
      if content.Some? { CopyKeeps(s, content.value); } else { ForgettingKeeps(s, s.(os := None)); }
    case Poll(readable) => PollKeeps(s, readable);
    case TakeSet(works) => ForgettingKeeps(s, Next(s, a));
    case RemoteText(text) => ForgettingKeeps(s, Next(s, a));
    case HandleChange => ChangeKeeps(s);
    case Toggle(on) => ForgettingKeeps(s, Next(s, a));
  }

  lemma {:induction false} RunKeeps(s: State, actions: seq<Action>)
    requires Inv(s) && Runs(s, actions)
    ensures Inv(After(s, actions))
    decreases |actions|
  {
    hide Enabled, Next, Inv;
    if actions != [] {
      StepKeeps(s, actions[0]);
      RunKeeps(Next(s, actions[0]), actions[1..]);
    }
  }

  lemma SentWithin(s: State)
    requires Inv(s)
    ensures Within(s.sent, s.copies)
    decreases |s.events|
  {
    var pending := Unreported(s);
    assert s.sent + s.events + [] == s.sent + s.events;
    if pending != [] { WithinPrefix(s.sent + s.events, pending[0], s.copies); }
    DropTail(s.sent, s.events, s.copies);
  }

  lemma {:induction false} DropTail(a: seq<string>, tail: seq<string>, b: seq<string>)
    requires Within(a + tail, b)
    ensures Within(a, b)
    decreases |tail|
  {
    if tail == [] {
      assert a + tail == a;
    } else {
      var init := tail[..|tail| - 1];
      assert a + tail == a + init + [tail[|tail| - 1]];
      WithinPrefix(a + init, tail[|tail| - 1], b);
      DropTail(a, init, b);
    }
  }

  // For every interleaving: the clipboard-data packets carry, in order, texts that local programs
  // copied, each copy at most once. So they never outnumber the copies, and a text only the server
  // supplied is never sent back.
  lemma NoFeedback(os: Option<string>, readable: bool, actions: seq<Action>)
    requires Runs(Started(os, readable), actions)
    ensures var e := After(Started(os, readable), actions);
      Within(e.sent, e.copies) && |e.sent| <= |e.copies| && forall t <- e.sent :: t in e.copies
  {
    var s := Started(os, readable);
    assert s.sent + s.events + Unreported(s) == Unreported(s);
    assert Inv(s) by {
      if Unreported(s) != [] { WithinLonger([], [], s.copies[0]); assert Unreported(s) == [] + [s.copies[0]] && s.copies == [] + [s.copies[0]]; }
    }
    RunKeeps(s, actions);
    SentWithin(After(s, actions));
    WithinMeans(After(s, actions).sent, After(s, actions).copies);
  }

  // From a quiet state a text from the server reaches the clipboard exactly when sync is on and the text
  // is not empty, and neither thread then sends it back.
  lemma RemoteTextArrives(s: State, text: string)
    requires s.sets == [] && s.events == [] && Runs(s, [RemoteText(text)])
    ensures var t := Next(s, RemoteText(text));
      if s.enabled && text != "" then
        && t.sets == [text] && Enabled(t, TakeSet(true))
        && var u := Next(t, TakeSet(true));
           u.os == Some(text) && u.sets == [] && PollClipboard(u, true) == u && ProcessChanged(u, text) == u
      else t == s
  {
  }

  // From a quiet state a local copy reaches the server with the next tick and event, exactly when it
  // is a text neither thread has as its last one.
  lemma CopyIsForwarded(s: State, text: string)
    requires s.enabled && s.sets == [] && s.events == []
    ensures var actions := [LocalCopy(Some(text)), Poll(true)];
      && Runs(s, actions)
      && (After(s, actions).events == [text] <==> text != "" && text != s.last)
      && (After(s, actions).events == [text] ==>
            var t := Next(After(s, actions), HandleChange);
            t.sent == if text == s.uiLast then s.sent else s.sent + [text])
  {
    var actions := [LocalCopy(Some(text)), Poll(true)];
    var t := Next(s, actions[0]);
    assert actions[1..] == [Poll(true)] && [Poll(true)][1..] == [];
    assert Runs(Next(t, Poll(true)), []);
    assert Runs(t, [Poll(true)]);
    assert After(t, [Poll(true)]) == Next(t, Poll(true));
  }
}
