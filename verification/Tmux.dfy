/**
 Sends to tmux windows as interleaved steps: each tmux command is one step, and a per-window lock
 is held from the existence check to the last command. A command may fail at any time; windows may
 appear and vanish at any time.
 */
module Tmux {
  import opened Collections

  type Window = string

  /** What reaches a window, tagged with the call it came from. */
  datatype Key = Text(call: nat) | EnterKey(call: nat) | CtrlC(call: nat)

  datatype Kind = Short | Long | Interrupt

  /** Where a call is; Pausing and Entering remember whose text was typed. */
  datatype Pc =
    | WaitingForLock
    | Checking
    | Typing
    | Loading
    | Pasting
    | Pausing(text: nat)
    | Entering(text: nat)
    | Interrupting
    | Returned
    | Raised

  datatype Call = Call(kind: Kind, window: Window, pc: Pc)

  /** A whole block of a window's stream: text with its Enter or without, or an interrupt. */
  datatype Block = Typed(call: nat, text: nat, submitted: bool) | Interrupted(call: nat)

  /** `buffer` is tmux's one paste buffer; `blocks` records the finished blocks of each window. */
  datatype Service = Service(windows: set<Window>, holders: map<Window, nat>, buffer: Option<nat>,
                             calls: map<nat, Call>, streams: map<Window, seq<Key>>, blocks: map<Window, seq<Block>>)

  datatype Action =
    | Begin(call: nat, kind: Kind, window: Window)
    | Acquire(call: nat)
    | Advance(call: nat, ok: bool)
    | CreateWindow(window: Window)
    | KillWindow(window: Window)

  function Stream(s: Service, w: Window): seq<Key> {
    if w in s.streams then s.streams[w] else []
  }

  function Blocks(s: Service, w: Window): seq<Block> {
    if w in s.blocks then s.blocks[w] else []
  }

  function Goto(s: Service, call: nat, pc: Pc): Service
    requires call in s.calls
  {
    s.(calls := s.calls[call := s.calls[call].(pc := pc)])
  }

  function Send(s: Service, w: Window, key: Key): Service {
    s.(streams := s.streams[w := Stream(s, w) + [key]])
  }

  function Record(s: Service, w: Window, block: Block): Service {
    s.(blocks := s.blocks[w := Blocks(s, w) + [block]])
  }

  /** Leaving the locked region, by return or by exception. */
  function Leave(s: Service, call: nat, pc: Pc): Service
    requires call in s.calls
  {
    Goto(s, call, pc).(holders := s.holders - {s.calls[call].window})
  }

  function AdvanceCall(s: Service, call: nat, ok: bool): Service
    requires call in s.calls
  {
    var w := s.calls[call].window;
    match s.calls[call].pc
    case Checking =>
      if w !in s.windows then Leave(s, call, Raised)
      else Goto(s, call, match s.calls[call].kind case Short => Typing case Long => Loading case Interrupt => Interrupting)
    case Typing =>
      if ok then Goto(Send(s, w, Text(call)), call, Pausing(call)) else Leave(s, call, Raised)
    case Loading =>
      if ok then Goto(s, call, Pasting).(buffer := Some(call)) else Leave(s, call, Raised)
    case Pasting =>
      if ok && s.buffer.Some? then Goto(Send(s, w, Text(s.buffer.value)), call, Pausing(s.buffer.value))
      else Leave(s, call, Raised)
    case Pausing(text) => Goto(s, call, Entering(text))
    case Entering(text) =>
      if ok then Leave(Record(Send(s, w, EnterKey(call)), w, Typed(call, text, true)), call, Returned)
      else Leave(Record(s, w, Typed(call, text, false)), call, Raised)
    case Interrupting =>
      if ok then Leave(Record(Send(s, w, CtrlC(call)), w, Interrupted(call)), call, Returned)
      else Leave(s, call, Raised)
    case _ => s
  }

  function Step(s: Service, a: Action): Service {
    match a
    case Begin(call, kind, window) =>
      if call in s.calls then s else s.(calls := s.calls[call := Call(kind, window, WaitingForLock)])
    case Acquire(call) =>
      if call in s.calls && s.calls[call].pc.WaitingForLock? && s.calls[call].window !in s.holders
      then Goto(s, call, Checking).(holders := s.holders[s.calls[call].window := call]) else s
    case Advance(call, ok) => if call in s.calls then AdvanceCall(s, call, ok) else s
    case CreateWindow(w) => s.(windows := s.windows + {w})
    case KillWindow(w) => s.(windows := s.windows - {w})
  }

  const INITIAL := Service({}, map[], None, map[], map[], map[])

  ghost function Run(s: Service, actions: seq<Action>): Service
    decreases |actions|
  {
    if actions == [] then s else Run(Step(s, actions[0]), actions[1..])
  }

  // ---- blocks ----

  function KeysOf(b: Block): seq<Key> {
    match b
    case Typed(call, text, submitted) => [Text(text)] + if submitted then [EnterKey(call)] else []
    case Interrupted(call) => [CtrlC(call)]
  }

  ghost function Flatten(blocks: seq<Block>): seq<Key> {
    if blocks == [] then [] else Flatten(blocks[..|blocks| - 1]) + KeysOf(blocks[|blocks| - 1])
  }

  /** Text already typed into w by the call that holds its lock, whose Enter is still to come. */
  function Pending(s: Service, w: Window): seq<Key> {
    if w in s.holders && s.holders[w] in s.calls then
      match s.calls[s.holders[w]].pc
      case Pausing(text) => [Text(text)]
      case Entering(text) => [Text(text)]
      case _ => []
    else []
  }

  predicate InRegion(pc: Pc) {
    !pc.WaitingForLock? && !pc.Returned? && !pc.Raised?
  }

  ghost predicate CallOk(s: Service, call: nat)
    requires call in s.calls
  {
    var c := s.calls[call];
    && (InRegion(c.pc) <==> c.window in s.holders && s.holders[c.window] == call)
    && (c.pc.Typing? ==> c.kind == Short) && (c.pc.Loading? || c.pc.Pasting? ==> c.kind == Long)
    && (c.pc.Interrupting? ==> c.kind == Interrupt)
    && (c.pc.Pausing? || c.pc.Entering? ==> c.kind != Interrupt && (c.kind == Short ==> c.pc.text == call))
    && (c.pc.Returned? && c.kind == Short ==> Typed(call, call, true) in Blocks(s, c.window))
  }

  /** Blocks and keys name the call that made them; an Enter means that its call returned. */
  ghost predicate WindowOk(s: Service, w: Window) {
    && Stream(s, w) == Flatten(Blocks(s, w)) + Pending(s, w)
    && (w in s.holders ==> s.holders[w] in s.calls && s.calls[s.holders[w]].window == w)
    && (forall k :: k in Stream(s, w) && k.EnterKey? ==>
          k.call in s.calls && s.calls[k.call].window == w && s.calls[k.call].pc.Returned?)
    && (forall b :: b in Blocks(s, w) && b.Typed? ==>
          b.call in s.calls && s.calls[b.call].window == w && (s.calls[b.call].kind == Short ==> b.text == b.call))
  }

  ghost predicate Inv(s: Service) {
    && (forall c :: c in s.calls ==> CallOk(s, c))
    && (forall w :: WindowOk(s, w))
  }

  lemma FlattenAppend(blocks: seq<Block>, b: Block)
    ensures Flatten(blocks + [b]) == Flatten(blocks) + KeysOf(b)
  {
    assert (blocks + [b])[..|blocks|] == blocks;
  }

  /** A window none of whose parts changed, whoever moved elsewhere. */
  lemma WindowStays(s: Service, t: Service, w: Window)
    requires WindowOk(s, w) && Stream(t, w) == Stream(s, w) && Blocks(t, w) == Blocks(s, w)
    requires w in s.holders <==> w in t.holders
    requires w in s.holders ==> t.holders[w] == s.holders[w]
    requires forall c :: c in s.calls ==> c in t.calls && t.calls[c].window == s.calls[c].window && t.calls[c].kind == s.calls[c].kind
    requires forall c :: c in s.calls && s.calls[c].pc.Returned? ==> t.calls[c].pc.Returned?
    requires w in s.holders ==> s.holders[w] in s.calls && t.calls[s.holders[w]].pc == s.calls[s.holders[w]].pc
    ensures WindowOk(t, w)
  {
  }

  lemma CallStays(s: Service, t: Service, call: nat)
    requires call in s.calls && call in t.calls && t.calls[call] == s.calls[call] && CallOk(s, call)
    requires var w := s.calls[call].window;
             (w in t.holders && t.holders[w] == call) <==> (w in s.holders && s.holders[w] == call)
    requires forall b :: b in Blocks(s, s.calls[call].window) ==> b in Blocks(t, s.calls[call].window)
    ensures CallOk(t, call)
  {
  }

  /** One call moves inside its window; everything else follows. */
  lemma MoveKeepsInv(s: Service, t: Service, call: nat)
    requires Inv(s) && call in s.calls && t.calls.Keys == s.calls.Keys
    requires forall c :: c in s.calls && c != call ==> t.calls[c] == s.calls[c]
    requires t.calls[call].window == s.calls[call].window && t.calls[call].kind == s.calls[call].kind
    requires !s.calls[call].pc.Returned?
    requires InRegion(s.calls[call].pc) || s.calls[call].window !in s.holders
    requires SameElsewhere(s, t, s.calls[call].window)
    requires s.calls[call].window in t.holders ==> t.holders[s.calls[call].window] == call
    requires CallOk(t, call) && WindowOk(t, s.calls[call].window)
    ensures Inv(t)
  {
    hide WindowOk, Stream, Blocks;
    var w0 := s.calls[call].window;
    assert CallOk(s, call);
    forall c | c in t.calls ensures CallOk(t, c) {
      if c != call {
        assert CallOk(s, c);
        CallStays(s, t, c);
      }
    }
    forall w ensures WindowOk(t, w) {
      if w != w0 {
        assert WindowOk(s, w);
        HolderIn(s, w);
        WindowStays(s, t, w);
      }
    }
  }

  lemma HolderIn(s: Service, w: Window)
    requires WindowOk(s, w)
    ensures w in s.holders ==> s.holders[w] in s.calls && s.calls[s.holders[w]].window == w
  {
  }

  /** Only w0 saw keys, blocks or a change of its lock, and its blocks only grew. */
  ghost predicate SameElsewhere(s: Service, t: Service, w0: Window) {
    && (forall w :: w != w0 ==>
          Stream(t, w) == Stream(s, w) && Blocks(t, w) == Blocks(s, w) && (w in t.holders <==> w in s.holders)
          && (w in s.holders ==> t.holders[w] == s.holders[w]))
    && (forall b :: b in Blocks(s, w0) ==> b in Blocks(t, w0))
  }

  lemma OtherWindows(s: Service, t: Service, w0: Window)
    requires t.streams == s.streams || (w0 in t.streams && t.streams == s.streams[w0 := t.streams[w0]])
    requires t.blocks == s.blocks || (exists block :: t.blocks == s.blocks[w0 := Blocks(s, w0) + [block]])
    requires t.holders == s.holders || t.holders == s.holders - {w0} || (w0 in t.holders && t.holders == s.holders[w0 := t.holders[w0]])
    ensures SameElsewhere(s, t, w0)
  {
  }

  /** The stream, blocks and pending text of w are as before, and whoever had returned has. */
  lemma OwnWindowStays(s: Service, t: Service, w: Window, call: nat)
    requires WindowOk(s, w) && call in s.calls && s.calls[call].window == w && !s.calls[call].pc.Returned?
    requires Stream(t, w) == Stream(s, w) && Blocks(t, w) == Blocks(s, w) && Pending(t, w) == Pending(s, w)
    requires t.calls.Keys == s.calls.Keys && (forall c :: c in s.calls && c != call ==> t.calls[c] == s.calls[c])
    requires t.calls[call].window == w && t.calls[call].kind == s.calls[call].kind
    requires w in t.holders ==> t.holders[w] == call
    ensures WindowOk(t, w)
  {
    hide Flatten;
  }

  /** One key is sent to w and becomes pending, or is pending no more because a block closed. */
  lemma OwnWindowGrows(s: Service, t: Service, w: Window, call: nat, keys: seq<Key>, more: seq<Block>)
    requires WindowOk(s, w) && call in s.calls && s.calls[call].window == w && !s.calls[call].pc.Returned?
    requires Stream(t, w) == Stream(s, w) + keys && Blocks(t, w) == Blocks(s, w) + more
    requires Flatten(Blocks(s, w)) + Pending(s, w) + keys == Flatten(Blocks(t, w)) + Pending(t, w)
    requires t.calls.Keys == s.calls.Keys && (forall c :: c in s.calls && c != call ==> t.calls[c] == s.calls[c])
    requires t.calls[call].window == w && t.calls[call].kind == s.calls[call].kind
    requires forall k :: k in keys && k.EnterKey? ==> k.call == call && t.calls[call].pc.Returned?
    requires forall b :: b in more && b.Typed? ==> b.call == call && (s.calls[call].kind == Short ==> b.text == call)
    requires w in t.holders ==> t.holders[w] == call
    ensures WindowOk(t, w)
  {
    hide Flatten;
    assert forall k :: k in Stream(t, w) <==> k in Stream(s, w) || k in keys;
    assert forall b :: b in Blocks(t, w) <==> b in Blocks(s, w) || b in more;
  }

  /** A step inside the region that sends nothing and leaves what is pending. */
  lemma SilentMove(s: Service, t: Service, call: nat, pc: Pc)
    requires Inv(s) && call in s.calls && InRegion(s.calls[call].pc) && InRegion(pc)
    requires t == Goto(s, call, pc).(buffer := t.buffer)
    requires Pending(t, s.calls[call].window) == Pending(s, s.calls[call].window) && CallOk(t, call)
    ensures Inv(t)
  {
    var w := s.calls[call].window;
    assert CallOk(s, call) && WindowOk(s, w);
    hide Inv, Flatten, WindowOk, SameElsewhere, CallOk;
    OtherWindows(s, t, w);
    OwnWindowStays(s, t, w, call);
    MoveKeepsInv(s, t, call);
  }

  /** Leaving the region by an exception with nothing typed. */
  lemma FailedMove(s: Service, t: Service, call: nat)
    requires Inv(s) && call in s.calls && InRegion(s.calls[call].pc)
    requires !s.calls[call].pc.Pausing? && !s.calls[call].pc.Entering?
    requires t == Leave(s, call, Raised)
    ensures Inv(t)
  {
    var w := s.calls[call].window;
    assert CallOk(s, call) && WindowOk(s, w);
    hide Inv, Flatten, WindowOk, SameElsewhere;
    OtherWindows(s, t, w);
    OwnWindowStays(s, t, w, call);
    MoveKeepsInv(s, t, call);
  }

  /** Text is typed or pasted: it becomes the window's pending part. */
  lemma TypedMove(s: Service, t: Service, call: nat, text: nat)
    requires Inv(s) && call in s.calls && (s.calls[call].pc.Typing? || s.calls[call].pc.Pasting?)
    requires s.calls[call].pc.Typing? ==> text == call
    requires t == Goto(Send(s, s.calls[call].window, Text(text)), call, Pausing(text))
    ensures Inv(t)
  {
    var w := s.calls[call].window;
    assert CallOk(s, call) && WindowOk(s, w);
    hide Inv, Flatten, WindowOk, SameElsewhere;
    TypedShape(s, t, call, text);
    OtherWindows(s, t, w);
    hide Stream, Blocks, Pending, CallOk, Send;
    assert Blocks(s, w) + [] == Blocks(s, w);
    OwnWindowGrows(s, t, w, call, [Text(text)], []);
    MoveKeepsInv(s, t, call);
  }

  lemma TypedShape(s: Service, t: Service, call: nat, text: nat)
    requires call in s.calls && (s.calls[call].pc.Typing? || s.calls[call].pc.Pasting?) && CallOk(s, call)
    requires s.calls[call].pc.Typing? ==> text == call
    requires t == Goto(Send(s, s.calls[call].window, Text(text)), call, Pausing(text))
    ensures var w := s.calls[call].window;
            && Stream(t, w) == Stream(s, w) + [Text(text)] && Blocks(t, w) == Blocks(s, w)
            && Pending(s, w) == [] && Pending(t, w) == [Text(text)]
            && t.calls == s.calls[call := s.calls[call].(pc := Pausing(text))] && w in t.holders && t.holders[w] == call
            && CallOk(t, call)
  {
  }

  /** Enter goes out and closes the block. */
  lemma EnteredMove(s: Service, t: Service, call: nat, text: nat)
    requires Inv(s) && call in s.calls && s.calls[call].pc == Entering(text)
    requires var w := s.calls[call].window;
             t == Leave(Record(Send(s, w, EnterKey(call)), w, Typed(call, text, true)), call, Returned)
    ensures Inv(t)
  {
    var w, block := s.calls[call].window, Typed(call, text, true);
    assert CallOk(s, call) && WindowOk(s, w);
    hide Inv, Flatten, WindowOk, SameElsewhere;
    EnteredShape(s, t, call, text);
    OtherWindows(s, t, w);
    FlattenAppend(Blocks(s, w), block);
    InAppend(Blocks(s, w), block);
    hide Stream, Blocks, Pending, CallOk, Send, Record, Leave;
    OwnWindowGrows(s, t, w, call, [EnterKey(call)], [block]);
    MoveKeepsInv(s, t, call);
  }

  lemma EnteredShape(s: Service, t: Service, call: nat, text: nat)
    requires call in s.calls && s.calls[call].pc == Entering(text) && CallOk(s, call)
    requires var w := s.calls[call].window;
             t == Leave(Record(Send(s, w, EnterKey(call)), w, Typed(call, text, true)), call, Returned)
    ensures var w := s.calls[call].window;
            && Stream(t, w) == Stream(s, w) + [EnterKey(call)] && Blocks(t, w) == Blocks(s, w) + [Typed(call, text, true)]
            && Pending(s, w) == [Text(text)] && Pending(t, w) == []
            && t.calls == s.calls[call := s.calls[call].(pc := Returned)] && w !in t.holders
            && CallOk(t, call)
  {
    var w := s.calls[call].window;
    InAppend(Blocks(s, w), Typed(call, text, true));
  }

  lemma InAppend<T>(s: seq<T>, x: T)
    ensures x in s + [x]
  {
    assert (s + [x])[|s|] == x;
  }

  /** Enter fails: the text stands alone. */
  lemma AbandonedMove(s: Service, t: Service, call: nat, text: nat)
    requires Inv(s) && call in s.calls && s.calls[call].pc == Entering(text)
    requires var w := s.calls[call].window; t == Leave(Record(s, w, Typed(call, text, false)), call, Raised)
    ensures Inv(t)
  {
    var w, block := s.calls[call].window, Typed(call, text, false);
    assert CallOk(s, call) && WindowOk(s, w);
    hide Inv, Flatten, WindowOk, SameElsewhere;
    AbandonedShape(s, t, call, text);
    OtherWindows(s, t, w);
    FlattenAppend(Blocks(s, w), block);
    InAppend(Blocks(s, w), block);
    hide Stream, Blocks, Pending, CallOk, Record, Leave;
    assert Stream(s, w) + [] == Stream(s, w);
    OwnWindowGrows(s, t, w, call, [], [block]);
    MoveKeepsInv(s, t, call);
  }

  lemma AbandonedShape(s: Service, t: Service, call: nat, text: nat)
    requires call in s.calls && s.calls[call].pc == Entering(text) && CallOk(s, call)
    requires var w := s.calls[call].window; t == Leave(Record(s, w, Typed(call, text, false)), call, Raised)
    ensures var w := s.calls[call].window;
            && Stream(t, w) == Stream(s, w) && Blocks(t, w) == Blocks(s, w) + [Typed(call, text, false)]
            && Pending(s, w) == [Text(text)] && Pending(t, w) == []
            && t.calls == s.calls[call := s.calls[call].(pc := Raised)] && w !in t.holders && CallOk(t, call)
  {
  }

  lemma InterruptedMove(s: Service, t: Service, call: nat)
    requires Inv(s) && call in s.calls && s.calls[call].pc.Interrupting?
    requires var w := s.calls[call].window; t == Leave(Record(Send(s, w, CtrlC(call)), w, Interrupted(call)), call, Returned)
    ensures Inv(t)
  {
    var w := s.calls[call].window;
    assert CallOk(s, call) && WindowOk(s, w);
    hide Inv, Flatten, WindowOk, SameElsewhere;
    InterruptedShape(s, t, call);
    OtherWindows(s, t, w);
    FlattenAppend(Blocks(s, w), Interrupted(call));
    InAppend(Blocks(s, w), Interrupted(call));
    hide Stream, Blocks, Pending, CallOk, Send, Record, Leave;
    NothingPending(Flatten(Blocks(s, w)), CtrlC(call));
    OwnWindowGrows(s, t, w, call, [CtrlC(call)], [Interrupted(call)]);
    MoveKeepsInv(s, t, call);
  }

  lemma NothingPending(keys: seq<Key>, key: Key)
    ensures keys + [] + [key] == (keys + [key]) + []
  {
  }

  lemma InterruptedShape(s: Service, t: Service, call: nat)
    requires call in s.calls && s.calls[call].pc.Interrupting? && CallOk(s, call)
    requires var w := s.calls[call].window; t == Leave(Record(Send(s, w, CtrlC(call)), w, Interrupted(call)), call, Returned)
    ensures var w := s.calls[call].window;
            && Stream(t, w) == Stream(s, w) + [CtrlC(call)] && Blocks(t, w) == Blocks(s, w) + [Interrupted(call)]
            && Pending(s, w) == [] && Pending(t, w) == []
            && t.calls == s.calls[call := s.calls[call].(pc := Returned)] && w !in t.holders && CallOk(t, call)
  {
  }

  lemma AdvanceKeepsInv(s: Service, call: nat, ok: bool)
    requires Inv(s) && call in s.calls
    ensures Inv(AdvanceCall(s, call, ok))
  {
    assert CallOk(s, call);
    hide Inv, Send, Record;
    var t, c := AdvanceCall(s, call, ok), s.calls[call];
    match c.pc
    case Checking =>
      if c.window !in s.windows {
        FailedMove(s, t, call);
      } else {
        SilentMove(s, t, call, t.calls[call].pc);
      }
    case Typing => if ok { TypedMove(s, t, call, call); } else { FailedMove(s, t, call); }
    case Loading => if ok { SilentMove(s, t, call, Pasting); } else { FailedMove(s, t, call); }
    case Pasting => if ok && s.buffer.Some? { TypedMove(s, t, call, s.buffer.value); } else { FailedMove(s, t, call); }
    case Pausing(text) => SilentMove(s, t, call, Entering(text));
    case Entering(text) => if ok { EnteredMove(s, t, call, text); } else { AbandonedMove(s, t, call, text); }
    case Interrupting => if ok { InterruptedMove(s, t, call); } else { FailedMove(s, t, call); }
    case _ =>
  }

  lemma AcquireKeepsInv(s: Service, call: nat)
    requires Inv(s)
    ensures Inv(Step(s, Acquire(call)))
  {
    var t := Step(s, Acquire(call));
    if t != s {
      var w := s.calls[call].window;
      assert CallOk(s, call) && WindowOk(s, w);
      hide Inv, Flatten, WindowOk, SameElsewhere;
      OtherWindows(s, t, w);
      OwnWindowStays(s, t, w, call);
      MoveKeepsInv(s, t, call);
    }
  }

  /** A new call, or a window that comes or goes, touches no stream. */
  lemma ArrivalKeepsInv(s: Service, a: Action)
    requires Inv(s) && (a.Begin? || a.CreateWindow? || a.KillWindow?)
    ensures Inv(Step(s, a))
  {
    var t := Step(s, a);
    assert Arrived(s, t);
    hide Step, Flatten, CallOk, WindowOk, Stream, Blocks;
    forall c | c in t.calls ensures CallOk(t, c) {
      if c in s.calls {
        assert CallOk(s, c);
        CallStays(s, t, c) by { SameBlocks(s, t); }
      } else {
        NewCall(s, t, c);
      }
    }
    forall w ensures WindowOk(t, w) {
      assert WindowOk(s, w);
      HolderIn(s, w);
      SameStreams(s, t, w);
      WindowStays(s, t, w);
    }
  }

  /** The calls there were are the same; new ones wait for their lock. */
  ghost predicate Arrived(s: Service, t: Service) {
    && t.streams == s.streams && t.blocks == s.blocks && t.holders == s.holders
    && (forall c :: c in s.calls ==> c in t.calls && t.calls[c] == s.calls[c])
    && (forall c :: c in t.calls && c !in s.calls ==> t.calls[c].pc.WaitingForLock?)
  }

  lemma SameStreams(s: Service, t: Service, w: Window)
    requires t.streams == s.streams && t.blocks == s.blocks
    ensures Stream(t, w) == Stream(s, w) && Blocks(t, w) == Blocks(s, w)
  {
  }

  lemma NewCall(s: Service, t: Service, call: nat)
    requires Inv(s) && Arrived(s, t) && call in t.calls && call !in s.calls
    ensures CallOk(t, call)
  {
    hide Flatten;
    assert WindowOk(s, t.calls[call].window);
  }

  lemma StepKeepsInv(s: Service, a: Action)
    requires Inv(s)
    ensures Inv(Step(s, a))
  {
    hide Inv;
    match a
    case Acquire(call) => AcquireKeepsInv(s, call);
    case Advance(call, ok) =>
      if call in s.calls {
        AdvanceKeepsInv(s, call, ok);
      }
    case _ => ArrivalKeepsInv(s, a);
  }

  lemma {:induction false} RunKeepsInv(s: Service, actions: seq<Action>)
    requires Inv(s)
    ensures Inv(Run(s, actions))
    decreases |actions|
  {
    if actions != [] {
      StepKeepsInv(s, actions[0]);
      RunKeepsInv(Step(s, actions[0]), actions[1..]);
    }
  }

  lemma InitialInv()
    ensures Inv(INITIAL)
  {
  }

  // ---- main results, for every interleaving ----

  /**
   Each window's key stream is a concatenation of whole blocks, followed at most by the text of the
   call that holds the lock; blocks of short sends carry their own text.
   */
  lemma StreamsAreBlocks(actions: seq<Action>, w: Window)
    ensures var s := Run(INITIAL, actions);
            && Stream(s, w) == Flatten(Blocks(s, w)) + Pending(s, w)
            && (w !in s.holders ==> Stream(s, w) == Flatten(Blocks(s, w)))
            && (forall b :: b in Blocks(s, w) && b.Typed? ==>
                  b.call in s.calls && s.calls[b.call].window == w && (s.calls[b.call].kind == Short ==> b.text == b.call))
  {
    InitialInv();
    RunKeepsInv(INITIAL, actions);
    assert WindowOk(Run(INITIAL, actions), w);
  }

  /** The call's own text directly followed by its own Enter. */
  ghost predicate Contiguous(stream: seq<Key>, call: nat) {
    exists i :: 0 <= i < |stream| - 1 && stream[i] == Text(call) && stream[i + 1] == EnterKey(call)
  }

  lemma {:induction false} BlockIsContiguous(blocks: seq<Block>, rest: seq<Key>, call: nat)
    requires Typed(call, call, true) in blocks
    ensures Contiguous(Flatten(blocks) + rest, call)
  {
    var n := |blocks| - 1;
    var init, last := blocks[..n], blocks[n];
    assert blocks == init + [last];
    if last == Typed(call, call, true) {
      var all := Flatten(blocks) + rest;
      assert all[|Flatten(init)|] == Text(call) && all[|Flatten(init)| + 1] == EnterKey(call);
    } else {
      BlockIsContiguous(init, KeysOf(last) + rest, call);
      assert Flatten(init) + (KeysOf(last) + rest) == Flatten(blocks) + rest;
    }
  }

  /** A short send returns normally exactly when its text and Enter stand together in the stream. */
  lemma ReturnsIffContiguous(actions: seq<Action>, call: nat)
    requires var s := Run(INITIAL, actions); call in s.calls && s.calls[call].kind == Short
    ensures var s := Run(INITIAL, actions);
            s.calls[call].pc.Returned? <==> Contiguous(Stream(s, s.calls[call].window), call)
  {
    InitialInv();
    RunKeepsInv(INITIAL, actions);
    var s := Run(INITIAL, actions);
    var w := s.calls[call].window;
    assert CallOk(s, call) && WindowOk(s, w);
    hide Flatten;
    if s.calls[call].pc.Returned? {
      BlockIsContiguous(Blocks(s, w), Pending(s, w), call);
    }
    if Contiguous(Stream(s, w), call) {
      assert EnterKey(call) in Stream(s, w);
    }
  }

  // ---- each key once ----

  /** What a step of a call sends to its window. */
  function Sends(s: Service, call: nat, ok: bool): seq<Key>
    requires call in s.calls
  {
    match s.calls[call].pc
    case Typing => if ok then [Text(call)] else []
    case Pasting => if ok && s.buffer.Some? then [Text(s.buffer.value)] else []
    case Entering(_) => if ok then [EnterKey(call)] else []
    case Interrupting => if ok then [CtrlC(call)] else []
    case _ => []
  }

  lemma AdvanceStreams(s: Service, call: nat, ok: bool)
    requires call in s.calls
    ensures var w, sent := s.calls[call].window, Sends(s, call, ok);
            AdvanceCall(s, call, ok).streams == if sent == [] then s.streams else s.streams[w := Stream(s, w) + sent]
  {
    hide Blocks, Stream;
  }

  lemma AdvanceSends(s: Service, call: nat, ok: bool)
    requires call in s.calls
    ensures forall w :: Stream(AdvanceCall(s, call, ok), w)
                     == Stream(s, w) + if w == s.calls[call].window then Sends(s, call, ok) else []
  {
    AdvanceStreams(s, call, ok);
    hide AdvanceCall, Sends;
    assert forall w :: Stream(s, w) + [] == Stream(s, w);
  }

  /** Where a short call is once its text is typed. */
  predicate AfterText(pc: Pc) {
    pc.Pausing? || pc.Entering? || pc.Returned?
  }

  /**
   A call's Enter is sent once if it returned and never otherwise, likewise the Ctrl-C of an
   interrupt; the text of a short call is sent once, unless it raised before that; all to its own
   window, and nothing of a call that never was.
   */
  ghost predicate KeysOk(s: Service, w: Window, c: nat) {
    var keys := multiset(Stream(s, w));
    if c in s.calls && s.calls[c].window == w
    then CountsOk(keys[EnterKey(c)], keys[CtrlC(c)], keys[Text(c)], s.calls[c].kind, s.calls[c].pc)
    else keys[EnterKey(c)] == 0 && keys[CtrlC(c)] == 0 && (c !in s.calls || s.calls[c].kind != Long ==> keys[Text(c)] == 0)
  }

  /** How often a call's Enter, Ctrl-C and text are in its window. */
  predicate CountsOk(enters: nat, ctrlCs: nat, texts: nat, kind: Kind, pc: Pc) {
    && enters == (if pc.Returned? && kind != Interrupt then 1 else 0)
    && ctrlCs == (if pc.Returned? && kind == Interrupt then 1 else 0)
    && (kind == Interrupt ==> texts == 0)
    && (kind == Short ==> if AfterText(pc) then texts == 1 else if pc.Raised? then texts <= 1 else texts == 0)
  }

  ghost predicate BufferIsLong(s: Service) {
    s.buffer.Some? ==> s.buffer.value in s.calls && s.calls[s.buffer.value].kind == Long
  }

  ghost predicate AllKeysOk(s: Service) {
    BufferIsLong(s) && forall w, c :: KeysOk(s, w, c)
  }

  lemma AdvanceKeepsKeys(s: Service, call: nat, ok: bool)
    requires Inv(s) && call in s.calls && AllKeysOk(s)
    ensures AllKeysOk(AdvanceCall(s, call, ok))
  {
    var t := AdvanceCall(s, call, ok);
    assert CallOk(s, call);
    AdvanceGoes(s, call, ok);
    AdvanceSends(s, call, ok);
    AdvanceLoads(s, call, ok);
    hide Inv, AdvanceCall, Blocks, Stream, WindowOk;
    forall w, c ensures KeysOk(t, w, c) {
      assert KeysOk(s, w, c);
      KeysMove(s, t, call, ok, w, c);
    }
  }

  /** What a step sends is one key of the moving call, or a long call's text. */
  lemma SentKey(s: Service, call: nat, ok: bool, key: Key)
    requires call in s.calls && CallOk(s, call) && BufferIsLong(s)
    ensures var sent, c := multiset(Sends(s, call, ok)), s.calls[call];
            && sent[key] <= 1
            && (key.EnterKey? ==> sent[key] == if key.call == call && c.pc.Entering? && ok then 1 else 0)
            && (key.CtrlC? ==> sent[key] == if key.call == call && c.pc.Interrupting? && ok then 1 else 0)
            && (key.Text? && (key.call !in s.calls || s.calls[key.call].kind != Long) ==>
                  sent[key] == if key.call == call && c.pc.Typing? && ok then 1 else 0)
  {
    hide Blocks;
  }

  lemma KeysMove(s: Service, t: Service, call: nat, ok: bool, w: Window, c: nat)
    requires call in s.calls && CallOk(s, call) && BufferIsLong(s) && KeysOk(s, w, c)
    requires t.calls == s.calls[call := s.calls[call].(pc := NextPc(s, call, ok))]
    requires Stream(t, w) == Stream(s, w) + if w == s.calls[call].window then Sends(s, call, ok) else []
    ensures KeysOk(t, w, c)
  {
    hide Blocks, Stream, Sends, NextPc, CountsOk, CallOk;
    var keys, now := multiset(Stream(s, w)), multiset(Stream(t, w));
    if w == s.calls[call].window {
      assert now == keys + multiset(Sends(s, call, ok));
      SentKey(s, call, ok, Text(c));
      SentKey(s, call, ok, EnterKey(c));
      SentKey(s, call, ok, CtrlC(c));
      if c == call {
        OwnKeysMove(s, call, ok, keys[EnterKey(c)], keys[CtrlC(c)], keys[Text(c)], now[Text(c)]);
      } else if c in s.calls && s.calls[c].kind == Long {
        AnyLongTexts(keys[EnterKey(c)], keys[CtrlC(c)], keys[Text(c)], now[Text(c)], s.calls[c].pc);
      }
    } else {
      assert Stream(t, w) == Stream(s, w);
    }
  }

  /** How often a long call's text is somewhere is not said. */
  lemma AnyLongTexts(enters: nat, ctrlCs: nat, texts: nat, now: nat, pc: Pc)
    ensures CountsOk(enters, ctrlCs, texts, Long, pc) == CountsOk(enters, ctrlCs, now, Long, pc)
  {
  }

  lemma OwnKeysMove(s: Service, call: nat, ok: bool, enters: nat, ctrlCs: nat, texts: nat, now: nat)
    requires call in s.calls && CallOk(s, call) && CountsOk(enters, ctrlCs, texts, s.calls[call].kind, s.calls[call].pc)
    requires s.calls[call].kind != Long ==> now == texts + if s.calls[call].pc.Typing? && ok then 1 else 0
    ensures var c := s.calls[call];
            CountsOk(enters + (if c.pc.Entering? && ok then 1 else 0), ctrlCs + (if c.pc.Interrupting? && ok then 1 else 0),
                     now, c.kind, NextPc(s, call, ok))
  {
    KindsAtPc(s, call);
    hide CallOk;
  }

  lemma KindsAtPc(s: Service, call: nat)
    requires call in s.calls && CallOk(s, call)
    ensures var c := s.calls[call];
            && (c.pc.Typing? ==> c.kind == Short) && (c.pc.Loading? || c.pc.Pasting? ==> c.kind == Long)
            && (c.pc.Interrupting? ==> c.kind == Interrupt) && (c.pc.Pausing? || c.pc.Entering? ==> c.kind != Interrupt)
  {
    hide Blocks;
  }

  /** Calls that come, or get their lock, have sent nothing. */
  lemma QuietStep(s: Service, a: Action)
    requires !a.Advance?
    ensures var t := Step(s, a);
            && t.streams == s.streams && t.blocks == s.blocks && t.buffer == s.buffer
            && (forall c :: c in s.calls ==>
                  && c in t.calls && t.calls[c].(pc := s.calls[c].pc) == s.calls[c]
                  && (t.calls[c].pc == s.calls[c].pc || (s.calls[c].pc.WaitingForLock? && t.calls[c].pc.Checking?)))
            && (forall c :: c in t.calls && c !in s.calls ==> t.calls[c].pc.WaitingForLock?)
  {
  }

  lemma StepKeepsKeys(s: Service, a: Action)
    requires Inv(s) && AllKeysOk(s)
    ensures AllKeysOk(Step(s, a))
  {
    if a.Advance? {
      if a.call in s.calls {
        AdvanceKeepsKeys(s, a.call, a.ok);
      }
    } else {
      var t := Step(s, a);
      hide Inv, AdvanceCall;
      QuietStep(s, a);
      hide Step, Stream;
      forall w, c ensures KeysOk(t, w, c) {
        assert KeysOk(s, w, c);
        assert Stream(t, w) == Stream(s, w) by { SameStreams(s, t, w); }
      }
    }
  }

  lemma {:induction false} RunKeepsKeys(actions: seq<Action>)
    ensures AllKeysOk(Run(INITIAL, actions))
  {
    if actions != [] {
      var n := |actions| - 1;
      RunKeepsKeys(actions[..n]);
      InitialInv();
      RunKeepsInv(INITIAL, actions[..n]);
      assert actions == actions[..n] + [actions[n]];
      RunAppend(INITIAL, actions[..n], actions[n]);
      StepKeepsKeys(Run(INITIAL, actions[..n]), actions[n]);
    }
  }

  /** In every run each call's keys go out once each, and to its own window. */
  lemma EachKeyOnce(actions: seq<Action>, w: Window, call: nat)
    requires call in Run(INITIAL, actions).calls
    ensures var s := Run(INITIAL, actions);
            var c, keys := s.calls[call], multiset(Stream(s, w));
            && (w != c.window ==> keys[EnterKey(call)] == 0 && keys[CtrlC(call)] == 0 && (c.kind != Long ==> keys[Text(call)] == 0))
            && (w == c.window ==>
                 && keys[EnterKey(call)] == (if c.pc.Returned? && c.kind != Interrupt then 1 else 0)
                 && keys[CtrlC(call)] == (if c.pc.Returned? && c.kind == Interrupt then 1 else 0)
                 && (c.kind == Short && c.pc.Returned? ==> keys[Text(call)] == 1)
                 && (c.kind == Short ==> keys[Text(call)] <= 1)
                 && (c.kind == Interrupt ==> keys[Text(call)] == 0))
  {
    RunKeepsKeys(actions);
    assert KeysOk(Run(INITIAL, actions), w, call);
  }

  lemma {:induction false} EnterAfterText(blocks: seq<Block>, i: nat)
    requires i < |Flatten(blocks)| && Flatten(blocks)[i].EnterKey?
    ensures i > 0 && Flatten(blocks)[i - 1].Text?
    ensures Typed(Flatten(blocks)[i].call, Flatten(blocks)[i - 1].call, true) in blocks
  {
    var n := |blocks| - 1;
    var init, last := blocks[..n], blocks[n];
    assert blocks == init + [last];
    if i < |Flatten(init)| {
      EnterAfterText(init, i);
    } else {
      assert last in blocks;
      assert Flatten(blocks)[i] == KeysOf(last)[i - |Flatten(init)|];
    }
  }

  /** Whatever is submitted: right before an Enter stands a text, and for a short call its own. */
  lemma EnterSubmitsText(actions: seq<Action>, w: Window, i: nat)
    requires var stream := Stream(Run(INITIAL, actions), w); i < |stream| && stream[i].EnterKey?
    ensures var s := Run(INITIAL, actions);
            var stream := Stream(s, w);
            && i > 0 && stream[i - 1].Text? && stream[i].call in s.calls
            && (s.calls[stream[i].call].kind == Short ==> stream[i - 1] == Text(stream[i].call))
  {
    InitialInv();
    RunKeepsInv(INITIAL, actions);
    var s := Run(INITIAL, actions);
    assert WindowOk(s, w);
    hide Run, Inv, Flatten;
    assert i < |Flatten(Blocks(s, w))|;
    EnterAfterText(Blocks(s, w), i);
  }

  // ---- nothing is sent to a window that was not found ----

  /** At step k the call, holding its lock, found its window. */
  ghost predicate FoundAt(actions: seq<Action>, k: nat, call: nat) {
    && k < |actions| && actions[k].Advance? && actions[k].call == call
    && var s := Run(INITIAL, actions[..k]);
       call in s.calls && s.calls[call].pc.Checking? && s.calls[call].window in s.windows
  }

  /** Under way after the check, or returned. */
  predicate PastCheck(pc: Pc) {
    !pc.WaitingForLock? && !pc.Checking? && !pc.Raised?
  }

  ghost predicate Sent(s: Service, call: nat) {
    call in s.calls && (PastCheck(s.calls[call].pc) || (s.calls[call].kind == Short && Text(call) in Stream(s, s.calls[call].window)))
  }

  lemma SentBefore(s: Service, a: Action, call: nat)
    requires Inv(s) && AllKeysOk(s) && Sent(Step(s, a), call)
    ensures Sent(s, call) || (a.Advance? && a.call == call && call in s.calls && s.calls[call].pc.Checking? && s.calls[call].window in s.windows)
  {
    if a.Advance? && a.call in s.calls {
      AdvanceGoes(s, a.call, a.ok);
      AdvanceSends(s, a.call, a.ok);
      assert CallOk(s, a.call);
      hide Inv, AdvanceCall, KeysOk, Blocks, Stream, WindowOk;
      assert Step(s, a) == AdvanceCall(s, a.call, a.ok);
    } else {
      hide Inv, AdvanceCall;
      if call !in s.calls && call in Step(s, a).calls {
        assert KeysOk(s, Step(s, a).calls[call].window, call);
      }
    }
  }

  /** A call that is past its check, or whose text was typed, found its window while it held the lock. */
  lemma {:induction false} SentAfterCheck(actions: seq<Action>, call: nat)
    requires Sent(Run(INITIAL, actions), call)
    ensures exists k: nat :: FoundAt(actions, k, call)
  {
    if actions != [] {
      var n := |actions| - 1;
      var before := actions[..n];
      var s := Run(INITIAL, before);
      assert actions == before + [actions[n]];
      RunAppend(INITIAL, before, actions[n]);
      InitialInv();
      RunKeepsInv(INITIAL, before);
      RunKeepsKeys(before);
      SentBefore(s, actions[n], call);
      if Sent(s, call) {
        hide Run, Step, Sent;
        SentAfterCheck(before, call);
        var k: nat :| FoundAt(before, k, call);
        assert before[..k] == actions[..k];
        assert FoundAt(actions, k, call);
      } else {
        assert FoundAt(actions, n, call);
      }
    }
  }

  // ---- long messages share one buffer ----

  /** What has been typed, pending or in a block, is the typing call's own text. */
  ghost predicate OwnText(s: Service) {
    && (forall c :: c in s.calls && (s.calls[c].pc.Pausing? || s.calls[c].pc.Entering?) ==> s.calls[c].pc.text == c)
    && (forall w, b :: b in Blocks(s, w) && b.Typed? ==> b.text == b.call)
  }

  predicate Loads(s: Service, a: Action, call: nat) {
    a == Advance(call, true) && call in s.calls && s.calls[call].pc.Loading?
  }

  predicate Pastes(s: Service, a: Action, call: nat) {
    a == Advance(call, true) && call in s.calls && s.calls[call].pc.Pasting?
  }

  /** Step k of a run is a successful load by the call. */
  ghost predicate LoadsAt(actions: seq<Action>, k: nat, call: nat) {
    k < |actions| && Loads(Run(INITIAL, actions[..k]), actions[k], call)
  }

  ghost predicate PastesAt(actions: seq<Action>, k: nat, call: nat) {
    k < |actions| && Pastes(Run(INITIAL, actions[..k]), actions[k], call)
  }

  /** Another call loads the buffer between a call's own load and its paste. */
  ghost predicate LoadBetween(actions: seq<Action>, k: nat, call: nat) {
    exists i: nat, j: nat, other: nat :: i < j < k && LoadsAt(actions, i, call) && LoadsAt(actions, j, other) && other != call
  }

  ghost predicate Crossed(actions: seq<Action>) {
    exists k: nat, call: nat :: PastesAt(actions, k, call) && LoadBetween(actions, k, call)
  }

  lemma BlocksAppended(s: Service, t: Service, w: Window, block: Block)
    requires t.blocks == s.blocks[w := Blocks(s, w) + [block]]
    ensures forall v, b :: b in Blocks(t, v) <==> b in Blocks(s, v) || (v == w && b == block)
  {
  }

  lemma SameBlocks(s: Service, t: Service)
    requires t.blocks == s.blocks
    ensures forall w :: Blocks(t, w) == Blocks(s, w)
  {
  }

  /** A block is closed: it carries the text that was pending. */
  lemma CloseKeepsText(s: Service, t: Service, call: nat, block: Block, pc: Pc)
    requires call in s.calls
    requires if block.Typed? then s.calls[call].pc == Entering(block.text) && block.call == call
             else !s.calls[call].pc.Pausing? && !s.calls[call].pc.Entering?
    requires t.blocks == s.blocks[s.calls[call].window := Blocks(s, s.calls[call].window) + [block]]
    requires t.calls == s.calls[call := s.calls[call].(pc := pc)] && (pc.Returned? || pc.Raised?)
    ensures OwnText(t) <==> OwnText(s)
  {
    hide Blocks;
    var w := s.calls[call].window;
    BlocksAppended(s, t, w, block);
    assert block in Blocks(t, w);
    if OwnText(t) {
      assert forall c :: c in s.calls && c != call ==> t.calls[c] == s.calls[c];
    }
  }

  /** No block is closed. */
  lemma OpenKeepsText(s: Service, t: Service, call: nat, pc: Pc)
    requires call in s.calls && t.blocks == s.blocks
    requires t.calls == s.calls[call := s.calls[call].(pc := pc)]
    requires if s.calls[call].pc.Pausing? then pc == Entering(s.calls[call].pc.text) else !s.calls[call].pc.Entering?
    ensures OwnText(t) <==> OwnText(s) && (!s.calls[call].pc.Pausing? && (pc.Pausing? || pc.Entering?) ==> pc.text == call)
  {
    hide Blocks;
    SameBlocks(s, t);
    assert t.calls[call].pc == pc;
    assert forall c :: c in s.calls && c != call ==> t.calls[c] == s.calls[c];
  }

  lemma AdvanceKeepsTextIff(s: Service, call: nat, ok: bool)
    requires call in s.calls && (Pastes(s, Advance(call, ok), call) ==> s.buffer.Some?)
    ensures OwnText(AdvanceCall(s, call, ok))
            <==> OwnText(s) && (Pastes(s, Advance(call, ok), call) ==> s.buffer == Some(call))
  {
    var t, pc, next := AdvanceCall(s, call, ok), s.calls[call].pc, NextPc(s, call, ok);
    AdvanceGoes(s, call, ok);
    AdvanceCloses(s, call, ok);
    assert s.calls[call := s.calls[call].(pc := pc)] == s.calls;
    hide OwnText, AdvanceCall, Blocks;
    if pc.Entering? {
      CloseKeepsText(s, t, call, Typed(call, pc.text, ok), next);
    } else if pc.Interrupting? && ok {
      CloseKeepsText(s, t, call, Interrupted(call), next);
    } else if next != pc {
      OpenKeepsText(s, t, call, next);
    } else {
      SameText(s, t);
    }
  }

  lemma SameText(s: Service, t: Service)
    requires t.calls == s.calls && t.blocks == s.blocks
    ensures OwnText(t) <==> OwnText(s)
  {
    SameBlocks(s, t);
    hide Blocks;
  }

  /** Where a step takes a call. */
  function NextPc(s: Service, call: nat, ok: bool): Pc
    requires call in s.calls
  {
    match s.calls[call].pc
    case Checking =>
      if s.calls[call].window !in s.windows then Raised
      else (match s.calls[call].kind case Short => Typing case Long => Loading case Interrupt => Interrupting)
    case Typing => if ok then Pausing(call) else Raised
    case Loading => if ok then Pasting else Raised
    case Pasting => if ok && s.buffer.Some? then Pausing(s.buffer.value) else Raised
    case Pausing(text) => Entering(text)
    case Entering(_) => if ok then Returned else Raised
    case Interrupting => if ok then Returned else Raised
    case pc => pc
  }

  /** A step of a call changes its place only. */
  lemma AdvanceGoes(s: Service, call: nat, ok: bool)
    requires call in s.calls
    ensures AdvanceCall(s, call, ok).calls == s.calls[call := s.calls[call].(pc := NextPc(s, call, ok))]
  {
    hide Stream, Blocks;
    assert s.calls[call := s.calls[call].(pc := s.calls[call].pc)] == s.calls;
  }

  /** The buffer changes only by a load. */
  lemma AdvanceLoads(s: Service, call: nat, ok: bool)
    requires call in s.calls
    ensures AdvanceCall(s, call, ok).buffer == if ok && s.calls[call].pc.Loading? then Some(call) else s.buffer
  {
    hide Stream, Blocks;
  }

  /** What a step of a call closes. */
  lemma AdvanceCloses(s: Service, call: nat, ok: bool)
    requires call in s.calls
    ensures var w, pc := s.calls[call].window, s.calls[call].pc;
            AdvanceCall(s, call, ok).blocks
            == if pc.Entering? then s.blocks[w := Blocks(s, w) + [Typed(call, pc.text, ok)]]
               else if pc.Interrupting? && ok then s.blocks[w := Blocks(s, w) + [Interrupted(call)]]
               else s.blocks
  {
    hide Stream;
  }

  predicate HasTyped(s: Service, c: nat) {
    c in s.calls && (s.calls[c].pc.Pausing? || s.calls[c].pc.Entering?)
  }

  lemma QuietKeepsText(s: Service, a: Action)
    requires a.Advance? ==> a.call !in s.calls
    ensures OwnText(Step(s, a)) <==> OwnText(s)
  {
    hide AdvanceCall, Blocks;
    var t := Step(s, a);
    SameBlocks(s, t);
    assert forall c: nat :: HasTyped(s, c) <==> HasTyped(t, c);
    assert forall c: nat :: HasTyped(s, c) ==> t.calls[c].pc == s.calls[c].pc;
    hide Step;
    assert OwnText(s) ==> OwnText(t);
    assert OwnText(t) ==> OwnText(s);
  }

  /** Only a paste can spoil it, and a wrong paste is never mended. */
  lemma StepKeepsTextIff(s: Service, a: Action)
    requires forall c: nat :: Pastes(s, a, c) ==> s.buffer.Some?
    ensures OwnText(Step(s, a)) <==> OwnText(s) && forall c: nat :: Pastes(s, a, c) ==> s.buffer == Some(c)
  {
    if a.Advance? && a.call in s.calls {
      AdvanceKeepsTextIff(s, a.call, a.ok);
      hide AdvanceCall, OwnText;
      assert forall c: nat :: Pastes(s, a, c) ==> c == a.call;
    } else {
      QuietKeepsText(s, a);
      hide Step, OwnText;
      assert forall c: nat :: !Pastes(s, a, c);
    }
  }

  lemma RunAppend(s: Service, actions: seq<Action>, a: Action)
    ensures Run(s, actions + [a]) == Step(Run(s, actions), a)
    decreases |actions|
  {
    if actions == [] {
      assert [a][1..] == [];
    } else {
      assert (actions + [a])[1..] == actions[1..] + [a];
      RunAppend(Step(s, actions[0]), actions[1..], a);
    }
  }

  lemma EventsAppend(actions: seq<Action>, a: Action, k: nat, call: nat)
    ensures LoadsAt(actions + [a], k, call)
            <==> LoadsAt(actions, k, call) || (k == |actions| && Loads(Run(INITIAL, actions), a, call))
    ensures PastesAt(actions + [a], k, call)
            <==> PastesAt(actions, k, call) || (k == |actions| && Pastes(Run(INITIAL, actions), a, call))
  {
    hide Run, Loads, Pastes;
    assert (actions + [a])[..|actions|] == actions;
    if k < |actions| {
      assert (actions + [a])[..k] == actions[..k];
    }
  }

  /** A call that has loaded does not load again. */
  predicate PastLoad(pc: Pc) {
    pc.Pasting? || pc.Pausing? || pc.Entering? || pc.Returned? || pc.Raised?
  }

  ghost predicate LastLoad(actions: seq<Action>, call: nat, i: nat) {
    LoadsAt(actions, i, call) && forall j: nat, d: nat :: LoadsAt(actions, j, d) ==> j <= i
  }

  /** The buffer holds the text of the last load. */
  ghost predicate BufferOk(actions: seq<Action>, s: Service) {
    && (forall i: nat, c: nat :: LoadsAt(actions, i, c) ==> c in s.calls && PastLoad(s.calls[c].pc))
    && (forall c :: c in s.calls && s.calls[c].pc.Pasting? ==> exists i: nat :: LoadsAt(actions, i, c))
    && (s.buffer.None? ==> forall i: nat, c: nat :: !LoadsAt(actions, i, c))
    && (s.buffer.Some? ==> exists i: nat :: LastLoad(actions, s.buffer.value, i))
  }

  ghost predicate Moves(s: Service, t: Service, loads: set<nat>) {
    && (forall c :: c in s.calls ==> c in t.calls && (PastLoad(s.calls[c].pc) ==> PastLoad(t.calls[c].pc)))
    && (forall c :: c in loads ==> c in t.calls && t.calls[c].pc.Pasting? && t.buffer == Some(c))
    && (forall c :: c in t.calls && t.calls[c].pc.Pasting? ==> c in loads || (c in s.calls && s.calls[c].pc.Pasting?))
    && (t.buffer == s.buffer || loads != {})
  }

  ghost function NowLoading(s: Service, a: Action): set<nat> {
    if a.Advance? && Loads(s, a, a.call) then {a.call} else {}
  }

  lemma CallsMove(s: Service, a: Action)
    ensures Moves(s, Step(s, a), NowLoading(s, a))
  {
    hide Stream, Blocks;
    if a.Advance? && a.call in s.calls {
      CallMoves(s, a.call, a.ok);
    }
  }

  lemma CallMoves(s: Service, call: nat, ok: bool)
    requires call in s.calls
    ensures Moves(s, AdvanceCall(s, call, ok), NowLoading(s, Advance(call, ok)))
  {
    AdvanceGoes(s, call, ok);
    AdvanceLoads(s, call, ok);
    assert NextPc(s, call, ok).Pasting? <==> ok && s.calls[call].pc.Loading?;
    assert PastLoad(s.calls[call].pc) ==> PastLoad(NextPc(s, call, ok));
    hide AdvanceCall, NextPc, PastLoad;
  }

  lemma {:induction false} BufferIsLastLoad(actions: seq<Action>)
    ensures BufferOk(actions, Run(INITIAL, actions))
  {
    if actions != [] {
      var n := |actions| - 1;
      var before, a := actions[..n], actions[n];
      assert actions == before + [a];
      BufferIsLastLoad(before);
      RunAppend(INITIAL, before, a);
      BufferStep(before, a, Run(INITIAL, before), Run(INITIAL, actions));
    }
  }

  lemma BufferStep(before: seq<Action>, a: Action, s: Service, t: Service)
    requires s == Run(INITIAL, before) && t == Step(s, a) && BufferOk(before, s)
    ensures BufferOk(before + [a], t)
  {
    var actions, n := before + [a], |before|;
    var loads := NowLoading(s, a);
    CallsMove(s, a);
    assert forall i: nat, c: nat :: LoadsAt(before, i, c) ==> i < n;
    assert forall c :: c in loads ==> PastLoad(t.calls[c].pc);
    forall i: nat, c: nat ensures LoadsAt(actions, i, c) <==> LoadsAt(before, i, c) || (i == n && c in loads) {
      EventsAppend(before, a, i, c);
    }
    hide Run, Step, NowLoading, LoadsAt, PastLoad;
    BufferAfter(before, actions, s, t, loads);
  }

  lemma BufferAfter(before: seq<Action>, actions: seq<Action>, s: Service, t: Service, loads: set<nat>)
    requires BufferOk(before, s) && Moves(s, t, loads) && (forall c :: c in loads ==> PastLoad(t.calls[c].pc))
    requires forall i: nat, c: nat :: LoadsAt(before, i, c) ==> i < |before|
    requires forall i: nat, c: nat :: LoadsAt(actions, i, c) <==> LoadsAt(before, i, c) || (i == |before| && c in loads)
    ensures BufferOk(actions, t)
  {
    var n := |before|;
    hide LoadsAt, PastLoad;
    forall c | c in t.calls && t.calls[c].pc.Pasting? ensures exists i: nat :: LoadsAt(actions, i, c) {
      if c in loads {
        assert LoadsAt(actions, n, c);
      } else {
        var i: nat :| LoadsAt(before, i, c);
        assert LoadsAt(actions, i, c);
      }
    }
    if c: nat :| c in loads {
      assert LastLoad(actions, c, n);
    } else if s.buffer.Some? {
      var i: nat :| LastLoad(before, s.buffer.value, i);
      assert LastLoad(actions, t.buffer.value, i);
    }
  }

  lemma EventsOfPrefix(actions: seq<Action>, k: nat, i: nat, call: nat)
    requires i < k <= |actions|
    ensures LoadsAt(actions[..k], i, call) <==> LoadsAt(actions, i, call)
  {
    assert actions[..k][..i] == actions[..i];
  }

  lemma LoadsOnce(actions: seq<Action>, i: nat, j: nat, call: nat)
    requires i < j && LoadsAt(actions, i, call)
    ensures !LoadsAt(actions, j, call)
  {
    if j < |actions| {
      BufferIsLastLoad(actions[..j]);
      EventsOfPrefix(actions, j, i, call);
    }
  }

  /** What a call pastes is its own exactly when nobody else loaded in between. */
  lemma PasteIsOwnIff(actions: seq<Action>, k: nat, call: nat)
    requires PastesAt(actions, k, call)
    ensures Run(INITIAL, actions[..k]).buffer.Some?
    ensures Run(INITIAL, actions[..k]).buffer == Some(call) <==> !LoadBetween(actions, k, call)
  {
    var before, s := actions[..k], Run(INITIAL, actions[..k]);
    BufferIsLastLoad(before);
    assert call in s.calls && s.calls[call].pc.Pasting?;
    assert forall i: nat, c: nat :: LoadsAt(before, i, c) ==> i < k;
    forall i: nat, c: nat | i < k ensures LoadsAt(before, i, c) <==> LoadsAt(actions, i, c) {
      EventsOfPrefix(actions, k, i, c);
    }
    hide Run, LoadsAt, PastesAt, LoadBetween;
    var own: nat :| LoadsAt(before, own, call);
    assert s.buffer.Some?;
    var last: nat :| LastLoad(before, s.buffer.value, last);
    LastLoadDecides(actions, k, call, own, s.buffer.value, last);
  }

  /** The last load before step k is the call's own exactly when no other comes after its own. */
  lemma LastLoadDecides(actions: seq<Action>, k: nat, call: nat, own: nat, loader: nat, last: nat)
    requires own < k && last < k && LoadsAt(actions, own, call) && LoadsAt(actions, last, loader)
    requires forall j: nat, d: nat :: j < k && LoadsAt(actions, j, d) ==> j <= last
    ensures loader == call <==> !LoadBetween(actions, k, call)
  {
    hide LoadsAt;
    if loader == call {
      forall i: nat | i < k && LoadsAt(actions, i, call) ensures i == last {
        if i < last {
          LoadsOnce(actions, i, last, call);
        }
      }
    } else {
      OneLoadAt(actions, own, call, loader);
    }
  }

  /** A step is a load of one call at most. */
  lemma OneLoadAt(actions: seq<Action>, k: nat, call: nat, other: nat)
    requires LoadsAt(actions, k, call) && other != call
    ensures !LoadsAt(actions, k, other)
  {
  }

  ghost predicate PastesOwn(actions: seq<Action>) {
    forall k: nat, call: nat :: PastesAt(actions, k, call) ==> Run(INITIAL, actions[..k]).buffer == Some(call)
  }

  lemma {:induction false} OwnTextIffPastesOwn(actions: seq<Action>)
    ensures OwnText(Run(INITIAL, actions)) <==> PastesOwn(actions)
  {
    if actions != [] {
      var n := |actions| - 1;
      var before, a := actions[..n], actions[n];
      assert actions == before + [a];
      OwnTextIffPastesOwn(before);
      RunAppend(INITIAL, before, a);
      forall k: nat, c: nat
        ensures PastesAt(actions, k, c) <==> PastesAt(before, k, c) || (k == n && Pastes(Run(INITIAL, before), a, c))
      {
        EventsAppend(before, a, k, c);
      }
      forall c: nat | Pastes(Run(INITIAL, before), a, c) ensures Run(INITIAL, before).buffer.Some? {
        PasteIsOwnIff(actions, n, c);
      }
      StepKeepsTextIff(Run(INITIAL, before), a);
      PastesOwnAppend(before, a);
    }
  }

  lemma PastesOwnAppend(before: seq<Action>, a: Action)
    ensures PastesOwn(before + [a])
            <==> PastesOwn(before) && forall c: nat :: Pastes(Run(INITIAL, before), a, c) ==> Run(INITIAL, before).buffer == Some(c)
  {
    var actions, n := before + [a], |before|;
    assert actions[..n] == before;
    forall k: nat, c: nat
      ensures PastesAt(actions, k, c) <==> PastesAt(before, k, c) || (k == n && Pastes(Run(INITIAL, before), a, c))
      ensures k < n ==> actions[..k] == before[..k]
    {
      EventsAppend(before, a, k, c);
    }
    assert forall k: nat, c: nat :: PastesAt(before, k, c) ==> k < n;
    hide Run, PastesAt, Pastes;
    if PastesOwn(actions) {
      forall k: nat, c: nat | PastesAt(before, k, c) ensures Run(INITIAL, before[..k]).buffer == Some(c) {
        assert PastesAt(actions, k, c);
      }
      forall c: nat | Pastes(Run(INITIAL, before), a, c) ensures Run(INITIAL, before).buffer == Some(c) {
        assert PastesAt(actions, n, c);
      }
    }
  }

  /**
   In every run, all that was typed is the typing call's own text exactly when no other call's
   load came between a call's load and its paste.
   */
  lemma OwnTextIff(actions: seq<Action>)
    ensures OwnText(Run(INITIAL, actions)) <==> !Crossed(actions)
  {
    OwnTextIffPastesOwn(actions);
    forall k: nat, c: nat | PastesAt(actions, k, c)
      ensures Run(INITIAL, actions[..k]).buffer == Some(c) <==> !LoadBetween(actions, k, c)
    {
      PasteIsOwnIff(actions, k, c);
    }
  }

  function TwoLongSends(): seq<Action> {
    [CreateWindow("a"), CreateWindow("b"), Begin(1, Long, "a"), Acquire(1), Advance(1, true), Begin(2, Long, "b"), Acquire(2),
     Advance(2, true), Advance(1, true), Advance(2, true), Advance(1, true)]
  }

  function TwoLongCalls(first: Pc, second: Pc): map<nat, Call> {
    map[1 := Call(Long, "a", first), 2 := Call(Long, "b", second)]
  }

  /** The states of this run from the moment call 1 has its lock and found its window. */
  function CrossStage(k: nat): Service
    requires 5 <= k <= 10
  {
    var s := INITIAL.(windows := {"a", "b"});
    var one, both := map["a" := 1], map["a" := 1, "b" := 2];
    if k == 5 then s.(calls := map[1 := Call(Long, "a", Loading)], holders := one)
    else if k == 6 then s.(calls := TwoLongCalls(Loading, WaitingForLock), holders := one)
    else if k == 7 then s.(calls := TwoLongCalls(Loading, Checking), holders := both)
    else if k == 8 then s.(calls := TwoLongCalls(Loading, Loading), holders := both)
    else if k == 9 then s.(calls := TwoLongCalls(Pasting, Loading), holders := both, buffer := Some(1))
    else s.(calls := TwoLongCalls(Pasting, Pasting), holders := both, buffer := Some(2))
  }

  lemma FirstCallReady()
    ensures Run(INITIAL, TwoLongSends()) == Run(CrossStage(5), TwoLongSends()[5..])
  {
    var a := TwoLongSends();
    var s1 := Step(INITIAL, a[0]);
    var s2 := Step(s1, a[1]);
    assert s2 == INITIAL.(windows := {"a", "b"});
    assert Step(Step(Step(s2, a[2]), a[3]), a[4]) == CrossStage(5);
    RunFrom(INITIAL, a, 0);
    RunFrom(s1, a, 1);
    RunFrom(s2, a, 2);
    RunFrom(Step(s2, a[2]), a, 3);
    RunFrom(Step(Step(s2, a[2]), a[3]), a, 4);
    assert a[0..] == a;
  }

  lemma RunFrom(s: Service, actions: seq<Action>, i: nat)
    requires i < |actions|
    ensures Run(s, actions[i..]) == Run(Step(s, actions[i]), actions[i + 1..])
  {
    assert actions[i..][1..] == actions[i + 1..];
  }

  lemma CrossStep(k: nat)
    requires 5 <= k < 10
    ensures Step(CrossStage(k), TwoLongSends()[k]) == CrossStage(k + 1)
  {
    hide Stream, Blocks, AdvanceCall;
    if k < 7 {
      SecondComes(k);
    } else if k == 7 {
      SecondFinds(k);
    } else {
      BothLoad(k);
    }
  }

  lemma SecondComes(k: nat)
    requires k == 5 || k == 6
    ensures Step(CrossStage(k), TwoLongSends()[k]) == CrossStage(k + 1)
  {
    hide AdvanceCall;
  }

  lemma SecondFinds(k: nat)
    requires k == 7
    ensures Step(CrossStage(k), TwoLongSends()[k]) == CrossStage(k + 1)
  {
    hide Stream, Blocks;
  }

  lemma BothLoad(k: nat)
    requires k == 8 || k == 9
    ensures Step(CrossStage(k), TwoLongSends()[k]) == CrossStage(k + 1)
  {
    hide Stream, Blocks;
  }

  /** Two long sends to different windows: the second load replaces the first, and window a gets call 2's text. */
  lemma LongSendsCross()
    ensures Stream(Run(INITIAL, TwoLongSends()), "a") == [Text(2)]
  {
    var a := TwoLongSends();
    FirstCallReady();
    hide Step;
    for k := 5 to 10
      invariant Run(INITIAL, a) == Run(CrossStage(k), a[k..])
    {
      CrossStep(k);
      RunFrom(CrossStage(k), a, k);
    }
    RunFrom(CrossStage(10), a, 10);
    LastPaste();
  }

  lemma LastPaste()
    ensures var a := TwoLongSends();
            Stream(Run(Step(CrossStage(10), a[10]), a[11..]), "a") == [Text(2)]
  {
  }
}
