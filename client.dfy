/** The client object of lib/client.js: the request counter and the table of
    pending requests, the event handlers, the frames written to the socket, and the
    reassembly reader. The socket is not modelled: what `send_message` writes is
    appended to `sent`. A promise is modelled by its resolution, recorded in
    `resolved`; a call to an event handler is recorded in `events` (the handler
    itself is not run).

    The methods of `Client` are proved against the pure functions below: each
    operation on the abstract state `ClientState`, and `Inv`, the invariant every
    operation keeps. */
module SwankClient {
  import opened Wrappers
  import opened JsText
  import opened Sexp
  import opened LispCodec
  import opened Framing
  import opened FrameReader
  import opened Debugger
  import opened Commands
  import opened Dispatch

  // ---------------------------------------------------------------------------
  // Abstract state

  /** An entry of `req_table`: the command and package of a request awaiting its
      :return. (The stored id is the key itself; the resolve function is modelled
      by the `Resolution` recorded when the :return arrives.) */
  datatype Pending = Pending(cmd: string, pkg: string)

  /** A handler slot of `on_handlers`: the built-in no-op, or a callback
      registered with `on`, identified by a name. */
  datatype Handler = NoOp | Callback(name: string)

  /** What a handler was called with. */
  datatype Payload =
    | Text(text: string)                                   // print_string, new_package
    | Presentation(id: Option<string>)                     // presentation_start / _end
    | Setup(session: DebugSession)                         // debug_setup
    | ThreadLevel(thread: Option<string>, level: Option<string>)   // debug_activate / _return

  /** One call of an event handler: the slot, the handler in it at the time, the
      argument. */
  datatype Event = Event(slot: string, handler: Handler, payload: Payload)

  /** A request's promise resolved with the return value (None: undefined). */
  datatype Resolution = Resolution(id: nat, cmd: string, value: Option<Node>)

  datatype ClientState = ClientState(
    counter: nat,                        // req_counter
    table: map<nat, Pending>,            // req_table
    handlers: map<string, Handler>,      // on_handlers
    sent: seq<seq<Byte>>,                // frames written to the socket
    events: seq<Event>,                  // handler calls, in order
    resolved: seq<Resolution>)           // promise resolutions, in order

  /** The handler slots the constructor fills with no-ops. */
  function DefaultSlots(): set<string> {
    {"connect", "print_string", "presentation_start", "presentation_end", "new_package",
     "debug_activate", "debug_setup", "debug_return", "profile_command_complete", "disconnect"}
  }

  /** Every id in the table was issued; every resolved id was issued, is no longer
      pending, and was resolved once; every default slot holds a handler. */
  predicate Inv(s: ClientState) {
    && s.counter >= 1
    && (forall id :: id in s.table ==> id < s.counter)
    && (forall i :: 0 <= i < |s.resolved| ==> s.resolved[i].id < s.counter && s.resolved[i].id !in s.table)
    && (forall i, j :: 0 <= i < j < |s.resolved| ==> s.resolved[i].id != s.resolved[j].id)
    && DefaultSlots() <= s.handlers.Keys
  }

  /** The state the constructor leaves: counter 1, nothing pending, no-op handlers. */
  function Start(): (s: ClientState)
    ensures Inv(s) && s.counter == 1 && s.table == map[]
    ensures forall e :: e in DefaultSlots() ==> e in s.handlers && s.handlers[e] == NoOp
  {
    ClientState(1, map[], map e | e in DefaultSlots() :: NoOp, [], [], [])
  }

  /** `send_message(msg)`: the frame of the UTF-8 bytes is written; when the
      length does not fit the header the call throws and nothing is written. */
  function Written(sent: seq<seq<Byte>>, msg: string): seq<seq<Byte>> {
    match Frame(Utf8(msg))
    case Some(f) => sent + [f]
    case None => sent
  }

  /** The message `rex` sends for request `id`. */
  function Envelope(cmd: string, pkg: string, thread: string, id: nat): string {
    "(:EMACS-REX " + cmd + " \"" + pkg + "\" " + thread + " " + Decimal(id) + ")"
  }

  /** `rex(cmd, pkg, thread)`: the envelope is sent under the current counter; the
      counter moves on and the request is recorded, also when sending throws (the
      exception only rejects the promise). */
  function AfterRex(s: ClientState, cmd: string, pkg: string, thread: string): ClientState {
    s.(counter := s.counter + 1,
       table := s.table[s.counter := Pending(cmd, pkg)],
       sent := Written(s.sent, Envelope(cmd, pkg, thread, s.counter)))
  }

  /** The request a :return id names: `id in req_table` looks the text up as a
      property name, so only the canonical decimal text of a pending id matches
      (an undefined id is the property "undefined", which is never present). */
  function Named(s: ClientState, id: Option<string>): (r: Option<nat>)
    ensures r.Some? <==> id.Some? && ParseId(id.value).Some? && ParseId(id.value).value in s.table
    ensures r.Some? ==> r.value in s.table && id.value == Decimal(r.value)
  {
    if id.None? then None
    else match ParseId(id.value)
      case Some(n) =>
        if n in s.table then
          ParseIdExact(id.value, n);
          Some(n)
        else None
      case None => None
  }

  /** swank_message_rex_return_handler: a pending request named by the id is
      removed from the table and its promise resolved with the value; any other
      id is logged and ignored. */
  function AfterReturn(s: ClientState, id: Option<string>, value: Option<Node>): ClientState {
    match Named(s, id)
    case Some(n) =>
      s.(table := s.table - {n}, resolved := s.resolved + [Resolution(n, s.table[n].cmd, value)])
    case None => s
  }

  /** Calling the handler in `slot`. */
  function Notify(s: ClientState, slot: string, p: Payload): ClientState
    requires slot in s.handlers
  {
    s.(events := s.events + [Event(slot, s.handlers[slot], p)])
  }

  /** on_swank_message on a decoded message; None (the code threw, and
      data_complete_callback caught it) changes nothing. */
  function Receive(s: ClientState, m: Option<Message>): ClientState
    requires DefaultSlots() <= s.handlers.Keys
  {
    match m
    case None => s
    case Some(msg) =>
      match msg
      case Return(id, value) => AfterReturn(s, id, value)
      case WriteString(text) => Notify(s, "print_string", Text(text))
      case PresentationStart(p) => Notify(s, "presentation_start", Presentation(p))
      case PresentationEnd(p) => Notify(s, "presentation_end", Presentation(p))
      case NewPackage(name) => Notify(s, "new_package", Text(name))
      case Debug(session) => Notify(s, "debug_setup", Setup(session))
      case DebugActivate(thread, level) => Notify(s, "debug_activate", ThreadLevel(thread, level))
      case DebugReturn(thread, level) => Notify(s, "debug_return", ThreadLevel(thread, level))
      case Ping(thread, tag) => s.(sent := Written(s.sent, PongCommand(thread, tag)))
      case Ignored(_) => s
  }

  /** Bodies handled one after another, each parsed by `parse` (paredit). */
  function ReceiveAll(s: ClientState, bodies: seq<seq<Byte>>, parse: seq<Byte> -> Node): (r: ClientState)
    requires DefaultSlots() <= s.handlers.Keys
    ensures DefaultSlots() <= r.handlers.Keys
  {
    if |bodies| == 0 then s
    else Receive(ReceiveAll(s, bodies[..|bodies| - 1], parse), DecodeMessage(parse(bodies[|bodies| - 1])))
  }

  // ---------------------------------------------------------------------------
  // The invariant and request correlation

  /** `rex` keeps the invariant, and the id it issues is neither pending nor
      resolved before. */
  lemma RexKeepsInv(s: ClientState, cmd: string, pkg: string, thread: string)
    requires Inv(s)
    ensures Inv(AfterRex(s, cmd, pkg, thread))
    ensures s.counter !in s.table
    ensures forall i :: 0 <= i < |s.resolved| ==> s.resolved[i].id != s.counter
  {
    var t := AfterRex(s, cmd, pkg, thread);
    forall i | 0 <= i < |t.resolved| ensures t.resolved[i].id !in t.table {
      assert t.resolved[i].id < s.counter;
    }
  }

  /** Every message keeps the invariant; in particular no request is resolved twice. */
  lemma ReceiveKeepsInv(s: ClientState, m: Option<Message>)
    requires Inv(s)
    ensures Inv(Receive(s, m))
  {
    if m.Some? && m.value.Return? {
      var t := Receive(s, m);
      var n := Named(s, m.value.id);
      if n.Some? {
        var k := |s.resolved|;
        assert t.resolved[k].id == n.value;
        forall i, j | 0 <= i < j < |t.resolved| ensures t.resolved[i].id != t.resolved[j].id {
          if j == k {
            assert t.resolved[i] == s.resolved[i];
          }
        }
      }
    }
  }

  lemma {:induction false} ReceiveAllKeepsInv(s: ClientState, bodies: seq<seq<Byte>>, parse: seq<Byte> -> Node)
    requires Inv(s)
    ensures Inv(ReceiveAll(s, bodies, parse))
  {
    if |bodies| > 0 {
      var init := bodies[..|bodies| - 1];
      ReceiveAllKeepsInv(s, init, parse);
      ReceiveKeepsInv(ReceiveAll(s, init, parse), DecodeMessage(parse(bodies[|bodies| - 1])));
    }
  }

  /** A request and its :return: the promise is resolved with the returned value,
      for the command sent, and the table is as before the request. */
  lemma RexThenReturn(s: ClientState, cmd: string, pkg: string, thread: string, v: Option<Node>)
    requires Inv(s)
    ensures var t := Receive(AfterRex(s, cmd, pkg, thread), Some(Return(Some(Decimal(s.counter)), v)));
      && t.table == s.table
      && t.resolved == s.resolved + [Resolution(s.counter, cmd, v)]
      && t.counter == s.counter + 1
      && t.events == s.events
  {
    var a := AfterRex(s, cmd, pkg, thread);
    ParseIdExact(Decimal(s.counter), s.counter);
    assert Named(a, Some(Decimal(s.counter))) == Some(s.counter);
    assert s.counter !in s.table;
    assert a.table - {s.counter} == s.table;
  }

  /** Replies are matched by id, not by order: two requests answered in reverse
      order resolve each with its own value, and nothing stays pending. */
  lemma OutOfOrderReplies(s: ClientState, c1: string, p1: string, t1: string,
                          c2: string, p2: string, t2: string, v1: Option<Node>, v2: Option<Node>)
    requires Inv(s)
    ensures var a := AfterRex(AfterRex(s, c1, p1, t1), c2, p2, t2);
      var b := Receive(a, Some(Return(Some(Decimal(s.counter + 1)), v2)));
      var c := Receive(b, Some(Return(Some(Decimal(s.counter)), v1)));
      && c.table == s.table
      && c.resolved == s.resolved + [Resolution(s.counter + 1, c2, v2), Resolution(s.counter, c1, v1)]
  {
    var n1, n2 := s.counter, s.counter + 1;
    var a1 := AfterRex(s, c1, p1, t1);
    var a := AfterRex(a1, c2, p2, t2);
    var b := Receive(a, Some(Return(Some(Decimal(n2)), v2)));
    ParseIdExact(Decimal(n2), n2);
    ParseIdExact(Decimal(n1), n1);
    assert Named(a, Some(Decimal(n2))) == Some(n2);
    assert b.table == s.table[n1 := Pending(c1, p1)] by {
      assert n2 !in s.table[n1 := Pending(c1, p1)];
    }
    assert Named(b, Some(Decimal(n1))) == Some(n1);
    assert n1 !in s.table;
    assert b.table - {n1} == s.table;
  }

  /** A :return whose id names no pending request, a second :return for the same
      request among them, changes nothing. */
  lemma UnknownReturnIgnored(s: ClientState, id: Option<string>, v: Option<Node>)
    requires Inv(s)
    requires id.None? || ParseId(id.value).None? || ParseId(id.value).value !in s.table
    ensures Receive(s, Some(Return(id, v))) == s
  {
  }

  lemma DuplicateReturnIgnored(s: ClientState, n: nat, v1: Option<Node>, v2: Option<Node>)
    requires Inv(s) && n in s.table
    ensures var t := Receive(s, Some(Return(Some(Decimal(n)), v1)));
      && t.resolved == s.resolved + [Resolution(n, s.table[n].cmd, v1)]
      && Receive(t, Some(Return(Some(Decimal(n)), v2))) == t
  {
    ParseIdExact(Decimal(n), n);
    assert Named(s, Some(Decimal(n))) == Some(n);
  }

  /** A `(:ping thread tag)` is answered with a pong frame that echoes both, and
      nothing else changes. */
  lemma PingAnswered(s: ClientState, head: string, thread: string, tag: string, more: seq<Node>)
    requires DefaultSlots() <= s.handlers.Keys
    requires Lower(head) == ":ping"
    requires |Utf8("(:EMACS-PONG " + thread + " " + tag + ")")| < Pow16(6)
    ensures Receive(s, DecodeMessage(List([List([Sym(head), Sym(thread), Sym(tag)])] + more)))
         == s.(sent := s.sent + [Frame(Utf8("(:EMACS-PONG " + thread + " " + tag + ")")).value])
  {
    PingEchoes(head, thread, tag, more);
    var pong := "(:EMACS-PONG " + thread + " " + tag + ")";
    assert Frame(Utf8(pong)).Some?;
    assert Receive(s, Some(Ping(Some(thread), Some(tag)))) == s.(sent := Written(s.sent, pong));
  }

  /** An event reaches the handler registered last for its slot. */
  lemma EventReachesHandler(s: ClientState, name: string, text: string)
    requires DefaultSlots() <= s.handlers.Keys
    ensures var t := Receive(s.(handlers := s.handlers["print_string" := Callback(name)]), Some(WriteString(text)));
      t.events == s.events + [Event("print_string", Callback(name), Text(text))]
  {
  }

  /** End to end, the output of an evaluation at the REPL: a presentation is
      opened, the printed result is written, the presentation is closed and a
      newline is written. Each body reaches its handler in order, with the
      strings unquoted, and nothing else changes. */
  lemma EvalOutputReachesHandlers(s: ClientState, parse: seq<Byte> -> Node, bodies: seq<seq<Byte>>,
                                  id: string, result: string, newline: string)
    requires DefaultSlots() <= s.handlers.Keys
    requires |bodies| == 4
    requires parse(bodies[0]) == List([List([Keyword("presentation-start"), Sym(id), Keyword("repl-result")])])
    requires parse(bodies[1]) == List([List([Keyword("write-string"), Str(result), Keyword("repl-result")])])
    requires parse(bodies[2]) == List([List([Keyword("presentation-end"), Sym(id), Keyword("repl-result")])])
    requires parse(bodies[3]) == List([List([Keyword("write-string"), Str(newline), Keyword("repl-result")])])
    ensures ReceiveAll(s, bodies, parse) == s.(events := s.events + [
      Event("presentation_start", s.handlers["presentation_start"], Presentation(Some(id))),
      Event("print_string", s.handlers["print_string"], Text(FromLispString(result))),
      Event("presentation_end", s.handlers["presentation_end"], Presentation(Some(id))),
      Event("print_string", s.handlers["print_string"], Text(FromLispString(newline)))])
  {
    PresentationStartEventDecodes(id, Keyword("repl-result"));
    WriteStringEventDecodes(result, Keyword("repl-result"));
    PresentationEndEventDecodes(id, Keyword("repl-result"));
    WriteStringEventDecodes(newline, Keyword("repl-result"));
    var e0 := Event("presentation_start", s.handlers["presentation_start"], Presentation(Some(id)));
    var e1 := Event("print_string", s.handlers["print_string"], Text(FromLispString(result)));
    var e2 := Event("presentation_end", s.handlers["presentation_end"], Presentation(Some(id)));
    var e3 := Event("print_string", s.handlers["print_string"], Text(FromLispString(newline)));
    ReceiveAllStep(s, bodies, parse, 0);
    ReceiveAllStep(s, bodies, parse, 1);
    ReceiveAllStep(s, bodies, parse, 2);
    ReceiveAllStep(s, bodies, parse, 3);
    assert bodies[..0] == [] && bodies[..4] == bodies;
    EventsAppendFour(s, e0, e1, e2, e3);
  }

  /** The REPL output of evaluating `(list (+ 1 1) "4")`: the result `(2 "4")`,
      as Swank quotes it, and then a newline reach print_string unquoted,
      between the two presentation events with the same id. */
  lemma EvalListExample(s: ClientState, parse: seq<Byte> -> Node, bodies: seq<seq<Byte>>, id: string)
    requires DefaultSlots() <= s.handlers.Keys
    requires |bodies| == 4
    requires parse(bodies[0]) == List([List([Keyword("presentation-start"), Sym(id), Keyword("repl-result")])])
    requires parse(bodies[1]) == List([List([Keyword("write-string"), Str("\"(2 \\\"4\\\")\""), Keyword("repl-result")])])
    requires parse(bodies[2]) == List([List([Keyword("presentation-end"), Sym(id), Keyword("repl-result")])])
    requires parse(bodies[3]) == List([List([Keyword("write-string"), Str("\"\n\""), Keyword("repl-result")])])
    ensures ReceiveAll(s, bodies, parse) == s.(events := s.events + [
      Event("presentation_start", s.handlers["presentation_start"], Presentation(Some(id))),
      Event("print_string", s.handlers["print_string"], Text("(2 \"4\")")),
      Event("presentation_end", s.handlers["presentation_end"], Presentation(Some(id))),
      Event("print_string", s.handlers["print_string"], Text("\n"))])
  {
    UnquoteReplResult("\"(2 \\\"4\\\")\"");
    UnquoteNewline();
    EvalOutputReachesHandlers(s, parse, bodies, id, "\"(2 \\\"4\\\")\"", "\"\n\"");
  }

  /** Receiving the bodies up to `k` and then body `k`. */
  lemma ReceiveAllStep(s: ClientState, bodies: seq<seq<Byte>>, parse: seq<Byte> -> Node, k: nat)
    requires DefaultSlots() <= s.handlers.Keys
    requires k < |bodies|
    ensures ReceiveAll(s, bodies[..k + 1], parse)
      == Receive(ReceiveAll(s, bodies[..k], parse), DecodeMessage(parse(bodies[k])))
  {
    assert bodies[..k + 1][..k] == bodies[..k];
  }

  /** Four events appended one at a time are the four appended at once. */
  lemma EventsAppendFour(s: ClientState, e0: Event, e1: Event, e2: Event, e3: Event)
    ensures var s1 := s.(events := s.events + [e0]);
      var s2 := s1.(events := s1.events + [e1]);
      var s3 := s2.(events := s2.events + [e2]);
      s3.(events := s3.events + [e3]) == s.(events := s.events + [e0, e1, e2, e3])
  {
    assert s.events + [e0] + [e1] + [e2] + [e3] == s.events + [e0, e1, e2, e3];
  }

  /** End to end: a backtrace request, answered with the frames a Swank server
      sends, resolves with a reply that decodes to exactly those frames. */
  lemma BacktraceExchange(s: ClientState, thread: string, frames: seq<StackFrame>)
    requires Inv(s)
    requires forall i :: 0 <= i < |frames| ==> frames[i].frameNumber.Some?
    ensures var t := Receive(AfterRex(s, BacktraceCommand, "COMMON-LISP-USER", thread),
                             Some(Return(Some(Decimal(s.counter)), Some(List(EncodeFrames(frames))))));
      && |t.resolved| == |s.resolved| + 1
      && t.resolved[|s.resolved|].id == s.counter
      && DecodeStackTrace(t.resolved[|s.resolved|].value) == Some(frames)
  {
    RexThenReturn(s, BacktraceCommand, "COMMON-LISP-USER", thread, Some(List(EncodeFrames(frames))));
    StackTraceRoundTrip(frames);
  }

  // ---------------------------------------------------------------------------
  // Commands sent through rex

  const BacktraceCommand: string := "(SWANK:BACKTRACE 0 NIL)"

  function FrameLocalsCommand(index: string): string {
    "(SWANK:FRAME-LOCALS-AND-CATCH-TAGS " + index + ")"
  }

  function FrameSourceCommand(frame: string): string {
    "(SWANK:FRAME-SOURCE-LOCATION " + frame + ")"
  }

  function FindDefinitionsCommand(name: string): string {
    "(SWANK:FIND-DEFINITIONS-FOR-EMACS \"" + name + "\")"
  }

  /** The value is sent as a Lisp string literal, which reads back as the value. */
  function ReturnFromFrameCommand(frame: string, value: string): (cmd: string)
    ensures exists lit :: cmd == "(SWANK:SLDB-RETURN-FROM-FRAME " + frame + " " + lit + ")"
                          && FromLispString(lit) == value
  {
    LispStringRoundTrip(value);
    "(SWANK:SLDB-RETURN-FROM-FRAME " + frame + " " + ToLispString(value) + ")"
  }

  /** The outcome of debug_stack_frame_details: no frame has that number (the code
      throws), the frame already has its details (`locals` set), or a request was
      sent for them. Frames are given by their position in the list. */
  datatype DetailsOutcome = NoSuchFrame | Cached(frame: nat) | Requested(frame: nat, id: nat)

  // ---------------------------------------------------------------------------
  // Objects

  /** A stack frame object as debug_setup_handler and debug_get_stack_trace build
      it; debug_stack_frame_details adds `locals` and `catch_tags` to it in place. */
  class FrameInfo {
    const frameNumber: Option<string>
    const description: string
    const restartable: bool
    var locals: Option<seq<Local>>
    var catchTags: Option<seq<string>>

    constructor (f: StackFrame)
      ensures frameNumber == f.frameNumber && description == f.description && restartable == f.restartable
      ensures locals.None? && catchTags.None?
    {
      frameNumber := f.frameNumber;
      description := f.description;
      restartable := f.restartable;
      locals := None;
      catchTags := None;
    }

    /** The callback of debug_stack_frame_details: it assigns `locals`, then
        `catch_tags`, and stops at the first exception. */
    method ApplyDetails(reply: Option<Node>)
      modifies this
      ensures var d := DecodeFrameDetails(reply);
        && locals == (if d.locals.Some? then d.locals else old(locals))
        && catchTags == (if d.catchTags.Some? then d.catchTags else old(catchTags))
    {
      var d := DecodeFrameDetails(reply);
      if d.locals.Some? {
        locals := d.locals;
      }
      if d.catchTags.Some? {
        catchTags := d.catchTags;
      }
    }
  }

  // ---------------------------------------------------------------------------
  // Where frame-details replies land

  /** Frame-details replies applied in order: reply `i` becomes the locals of
      frame `target[i]`. */
  function ApplyReplies(frames: seq<Option<seq<Local>>>, target: seq<nat>, replies: seq<seq<Local>>)
    : (r: seq<Option<seq<Local>>>)
    requires |target| == |replies|
    requires forall i :: 0 <= i < |target| ==> target[i] < |frames|
    ensures |r| == |frames|
    decreases |replies|
  {
    if |replies| == 0 then frames
    else
      var n := |replies| - 1;
      ApplyReplies(frames, target[..n], replies[..n])[target[n] := Some(replies[n])]
  }

  /** As written, debug_stack_frame_details stores the frame in a variable shared
      by all calls, and each reply is applied to the frame that variable holds
      when the reply arrives. With every request sent before the first reply,
      that is the frame requested last. */
  function SharedVariableReplies(frames: seq<Option<seq<Local>>>, requested: seq<nat>, replies: seq<seq<Local>>)
    : (r: seq<Option<seq<Local>>>)
    requires |requested| == |replies|
    requires forall i :: 0 <= i < |requested| ==> requested[i] < |frames|
    ensures |r| == |frames|
  {
    if |requested| == 0 then frames
    else ApplyReplies(frames, seq(|replies|, _ => requested[|requested| - 1]), replies)
  }

  /** Frames 0 and 1 requested before either reply: the first reply, the locals
      of frame 0, are stored in frame 1, and after both replies frame 0 still
      has none. Applied to the frame each request captured, both land. */
  lemma SharedVariableMisfiles(a: seq<Local>, b: seq<Local>)
    ensures ApplyReplies([None, None], [1], [a]) == [None, Some(a)]
    ensures SharedVariableReplies([None, None], [0, 1], [a, b]) == [None, Some(b)]
    ensures ApplyReplies([None, None], [0, 1], [a, b]) == [Some(a), Some(b)]
  {
    assert [1][..0] == [] && [a][..0] == [];
    assert seq(2, _ => 1) == [1, 1];
    assert [1, 1][..1] == [1] && [a, b][..1] == [a];
    assert [0, 1][..1] == [0] && [0][..0] == [];
  }

  /** Each reply applied to the frame its own request named: every requested
      frame gets the locals of its reply, and no other frame changes. */
  lemma {:induction false} CapturedRepliesLand(frames: seq<Option<seq<Local>>>, requested: seq<nat>, replies: seq<seq<Local>>)
    requires |requested| == |replies|
    requires forall i :: 0 <= i < |requested| ==> requested[i] < |frames|
    requires forall i, j :: 0 <= i < j < |requested| ==> requested[i] != requested[j]
    ensures var r := ApplyReplies(frames, requested, replies);
      && (forall i :: 0 <= i < |requested| ==> r[requested[i]] == Some(replies[i]))
      && (forall f :: 0 <= f < |frames| && f !in requested ==> r[f] == frames[f])
  {
    if |replies| > 0 {
      var n := |replies| - 1;
      CapturedRepliesLand(frames, requested[..n], replies[..n]);
      var r := ApplyReplies(frames, requested, replies);
      forall i | 0 <= i < n ensures r[requested[i]] == Some(replies[i]) {
        assert requested[..n][i] == requested[i] && replies[..n][i] == replies[i];
      }
    }
  }

  /** The frame numbers of a list of frame objects. */
  function Numbers(frames: seq<FrameInfo>): (r: seq<Option<string>>)
    ensures |r| == |frames| && forall i :: 0 <= i < |frames| ==> r[i] == frames[i].frameNumber
  {
    seq(|frames|, i requires 0 <= i < |frames| => frames[i].frameNumber)
  }

  class Client {
    var reqCounter: nat
    var reqTable: map<nat, Pending>
    var handlers: map<string, Handler>
    var sent: seq<seq<Byte>>
    var events: seq<Event>
    var resolved: seq<Resolution>
    const reader: Reader

    function Abstract(): ClientState
      reads this
    {
      ClientState(reqCounter, reqTable, handlers, sent, events, resolved)
    }

    ghost predicate Valid()
      reads this, reader
    {
      reader.Valid() && Inv(Abstract())
    }

    /** `new Client(host, port)`: counter 1, empty table, no-op handlers, and a
        reader awaiting a six-byte header. */
    constructor ()
      ensures Valid() && fresh(reader) && fresh(reader.buffer)
      ensures Abstract() == Start() && reader.State() == Initial
    {
      reqCounter := 1;
      reqTable := map[];
      handlers := map e | e in DefaultSlots() :: NoOp;
      sent := [];
      events := [];
      resolved := [];
      reader := new Reader();
    }

    /** `send_message(msg)`; `ok` is false when the header throws. */
    method SendMessage(msg: string) returns (ok: bool)
      modifies this`sent
      ensures ok <==> Frame(Utf8(msg)).Some?
      ensures sent == Written(old(sent), msg)
      ensures |Utf8(msg)| < Pow16(6) ==> ok && var f := sent[|sent| - 1];
        ParseHeader(f[..6]) == Some(|Utf8(msg)|) && f[6..] == Utf8(msg)
    {
      var frame := Frame(Utf8(msg));
      if frame.Some? {
        sent := sent + [frame.value];
        if |Utf8(msg)| < Pow16(6) {
          FrameLayout(Utf8(msg));
        }
      }
      ok := frame.Some?;
    }

    /** `on(event, fn)`. */
    method On(event: string, h: Handler)
      requires Valid()
      modifies this`handlers
      ensures Valid()
      ensures Abstract() == old(Abstract()).(handlers := old(handlers)[event := h])
    {
      handlers := handlers[event := h];
    }

    /** `rex(cmd, pkg, thread)`; `id` is the request's id. */
    method Rex(cmd: string, pkg: string, thread: string) returns (id: nat)
      requires Valid()
      modifies this
      ensures Valid()
      ensures id == old(reqCounter) && id !in old(reqTable)
      ensures Abstract() == AfterRex(old(Abstract()), cmd, pkg, thread)
    {
      RexKeepsInv(Abstract(), cmd, pkg, thread);
      id := reqCounter;
      var _ := SendMessage(Envelope(cmd, pkg, thread, id));
      reqCounter := reqCounter + 1;
      reqTable := reqTable[id := Pending(cmd, pkg)];
    }

    /** swank_message_rex_return_handler, after its arguments are read. */
    method ReturnHandler(id: Option<string>, value: Option<Node>)
      requires Valid()
      modifies this
      ensures Valid()
      ensures Abstract() == AfterReturn(old(Abstract()), id, value)
    {
      ReceiveKeepsInv(Abstract(), Some(Return(id, value)));
      var n := Named(Abstract(), id);
      if n.Some? {
        var req := reqTable[n.value];
        reqTable := reqTable - {n.value};
        resolved := resolved + [Resolution(n.value, req.cmd, value)];
      }
    }

    /** ping_handler, after its arguments are read. */
    method PingHandler(thread: Option<string>, tag: Option<string>)
      requires Valid()
      modifies this
      ensures Valid()
      ensures Abstract() == old(Abstract()).(sent := Written(old(sent), PongCommand(thread, tag)))
    {
      var _ := SendMessage(PongCommand(thread, tag));
    }

    /** Calling the handler in `slot`. */
    method CallHandler(slot: string, p: Payload)
      requires Valid() && slot in DefaultSlots()
      modifies this
      ensures Valid()
      ensures Abstract() == Notify(old(Abstract()), slot, p)
    {
      events := events + [Event(slot, handlers[slot], p)];
    }

    /** on_swank_message on the parsed message `ast`, inside the try of
        data_complete_callback. */
    method OnSwankMessage(ast: Node)
      requires Valid()
      modifies this
      ensures Valid()
      ensures Abstract() == Receive(old(Abstract()), DecodeMessage(ast))
    {
      ReceiveKeepsInv(Abstract(), DecodeMessage(ast));
      var m := DecodeMessage(ast);
      if m.None? {
        return;
      }
      match m.value
      case Return(id, value) => ReturnHandler(id, value);
      case WriteString(text) => CallHandler("print_string", Text(text));
      case PresentationStart(p) => CallHandler("presentation_start", Presentation(p));
      case PresentationEnd(p) => CallHandler("presentation_end", Presentation(p));
      case NewPackage(name) => CallHandler("new_package", Text(name));
      case Debug(session) => CallHandler("debug_setup", Setup(session));
      case DebugActivate(thread, level) => CallHandler("debug_activate", ThreadLevel(thread, level));
      case DebugReturn(thread, level) => CallHandler("debug_return", ThreadLevel(thread, level));
      case Ping(thread, tag) => PingHandler(thread, tag);
      case Ignored(_) =>
    }

    /** socket_data_handler: the reader reassembles the bodies, and each body,
        parsed by `parse`, is handled in order. `ok` is false when a header failed
        to parse (the exception leaves socket_data_handler). */
    method SocketData(data: seq<Byte>, parse: seq<Byte> -> Node) returns (ok: bool)
      requires Valid()
      modifies this, reader, reader.buffer
      ensures Valid()
      ensures var run := Run(old(reader.State()), data);
        && reader.State() == run.state && ok == run.ok
        && Abstract() == ReceiveAll(old(Abstract()), run.out, parse)
    {
      var bodies;
      bodies, ok := reader.Feed(data);
      ghost var s0 := Abstract();
      ghost var st := reader.State();
      var i := 0;
      while i < |bodies|
        invariant 0 <= i <= |bodies|
        invariant Valid() && reader.State() == st
        invariant Abstract() == ReceiveAll(s0, bodies[..i], parse)
      {
        assert bodies[..i + 1][..i] == bodies[..i];
        OnSwankMessage(parse(bodies[i]));
        i := i + 1;
      }
      assert bodies[..i] == bodies;
    }

    // -------------------------------------------------------------------------
    // Commands

    /** debug_get_stack_trace; the reply is read by `DecodeStackTrace`. */
    method DebugGetStackTrace(thread: string) returns (id: nat)
      requires Valid()
      modifies this
      ensures Valid() && id == old(reqCounter)
      ensures Abstract() == AfterRex(old(Abstract()), BacktraceCommand, "COMMON-LISP-USER", thread)
    {
      id := Rex(BacktraceCommand, "COMMON-LISP-USER", thread);
    }

    /** debug_stack_frame_details: find the frame by number; a frame with locals
        is answered at once, otherwise its details are requested (the reply is
        applied by `FrameInfo.ApplyDetails`). */
    method DebugStackFrameDetails(index: string, frames: seq<FrameInfo>, thread: string)
      returns (outcome: DetailsOutcome)
      requires Valid()
      modifies this
      ensures Valid()
      ensures var k := FindFrame(Numbers(frames), index);
        && (k.None? ==> outcome == NoSuchFrame && Abstract() == old(Abstract()))
        && (k.Some? && frames[k.value].locals.Some? ==>
              outcome == Cached(k.value) && Abstract() == old(Abstract()))
        && (k.Some? && frames[k.value].locals.None? ==>
              outcome == Requested(k.value, old(reqCounter))
              && Abstract() == AfterRex(old(Abstract()), FrameLocalsCommand(index), "COMMON-LISP-USER", thread))
    {
      var k := FindFrame(Numbers(frames), index);
      if k.None? {
        return NoSuchFrame;
      }
      if frames[k.value].locals.Some? {
        return Cached(k.value);
      }
      var id := Rex(FrameLocalsCommand(index), "COMMON-LISP-USER", thread);
      outcome := Requested(k.value, id);
    }

    /** Details asked for twice, with the reply to the first request applied in
        between: the second call is answered from the frame object exactly when
        the reply's locals decoded; otherwise the frame is requested again. */
    method FrameDetailsTwice(index: string, frames: seq<FrameInfo>, thread: string, reply: Option<Node>)
      returns (first: DetailsOutcome, second: DetailsOutcome)
      requires Valid()
      modifies this, frames
      ensures Valid()
      ensures first.Requested? && DecodeFrameDetails(reply).locals.Some? ==> second == Cached(first.frame)
      ensures first.Requested? && DecodeFrameDetails(reply).locals.None?
              ==> second == Requested(first.frame, first.id + 1)
      ensures !first.Requested? ==> second == first
    {
      first := DebugStackFrameDetails(index, frames, thread);
      ghost var k := FindFrame(Numbers(frames), index);
      if first.Requested? {
        assert k == Some(first.frame);
        var frame := frames[first.frame];
        ghost var before := Abstract();
        frame.ApplyDetails(reply);
        assert Abstract() == before && reader.Valid();
        assert frame.locals.Some? <==> DecodeFrameDetails(reply).locals.Some?;
      } else if first.Cached? {
        assert k == Some(first.frame) && frames[first.frame].locals.Some?;
      } else {
        assert k.None?;
      }
      ghost var counter := reqCounter;
      second := DebugStackFrameDetails(index, frames, thread);
      assert second.Requested? ==> second.id == counter;
    }

    /** debug_abort_current_level. */
    method DebugAbortCurrentLevel(level: string, thread: string) returns (id: nat)
      requires Valid()
      modifies this
      ensures Valid() && id == old(reqCounter)
      ensures Abstract() == AfterRex(old(Abstract()), AbortCommand(level), "COMMON-LISP-USER", thread)
    {
      id := Rex(AbortCommand(level), "COMMON-LISP-USER", thread);
    }

    /** debug_return_from_frame; the reply is read by `DecodeReturnFromFrame`. */
    method DebugReturnFromFrame(frame: string, value: string, thread: string) returns (id: nat)
      requires Valid()
      modifies this
      ensures Valid() && id == old(reqCounter)
      ensures Abstract() == AfterRex(old(Abstract()), ReturnFromFrameCommand(frame, value), "COMMON-LISP-USER", thread)
    {
      id := Rex(ReturnFromFrameCommand(frame, value), "COMMON-LISP-USER", thread);
    }

    /** debug_frame_source; the reply is read by `FrameSource.DecodeLocation`. */
    method DebugFrameSource(frame: string, thread: string) returns (id: nat)
      requires Valid()
      modifies this
      ensures Valid() && id == old(reqCounter)
      ensures Abstract() == AfterRex(old(Abstract()), FrameSourceCommand(frame), "COMMON-LISP-USER", thread)
    {
      id := Rex(FrameSourceCommand(frame), "COMMON-LISP-USER", thread);
    }

    /** find_definitions; the reply is read by `CollectDefinitions`. */
    method FindDefinitions(name: string, pkg: string) returns (id: nat)
      requires Valid()
      modifies this
      ensures Valid() && id == old(reqCounter)
      ensures Abstract() == AfterRex(old(Abstract()), FindDefinitionsCommand(name), pkg, "T")
    {
      id := Rex(FindDefinitionsCommand(name), pkg, "T");
    }

    /** autodoc: the forms of the parsed text (None when the parse has no list) and
        the cursor give the request; without one nothing is sent and the answer is
        `:not-available`. */
    method Autodoc(text: string, forms: Option<seq<Span>>, cursor: int, pkg: string) returns (id: Option<nat>)
      requires Valid()
      modifies this
      ensures Valid()
      ensures forms.None? ==> id.None? && Abstract() == old(Abstract())
      ensures forms.Some? ==>
        && id == Some(old(reqCounter))
        && Abstract() == AfterRex(old(Abstract()), AutodocRequest(AutodocForms(text, forms.value, cursor)), pkg, ":REPL-THREAD")
    {
      var cmd := BuildAutodoc(text, forms, cursor);
      if cmd.None? {
        return None;
      }
      var n := Rex(cmd.value, pkg, ":REPL-THREAD");
      id := Some(n);
    }

    /** on_compilation: a LOAD-FILE request follows a successful compilation that
        asks for loading. `ok` is false when the result is malformed (the code
        throws). */
    method OnCompilation(pkg: string, result: Option<Node>) returns (ok: bool)
      requires Valid()
      modifies this
      ensures Valid()
      ensures ok <==> CompilationFollowUp(result).Some?
      ensures match CompilationFollowUp(result)
        case Some(Some(load)) => Abstract() == AfterRex(old(Abstract()), load, pkg, "T")
        case _ => Abstract() == old(Abstract())
    {
      var follow := CompilationFollowUp(result);
      if follow.None? {
        return false;
      }
      if follow.value.Some? {
        var _ := Rex(follow.value.value, pkg, "T");
      }
      ok := true;
    }
  }
}
