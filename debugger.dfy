/** The debugger replies the client decodes (lib/client.js): the `:debug` event
    (debug_setup_handler), the backtrace (debug_get_stack_trace), the locals and
    catch tags of one frame (debug_stack_frame_details), and the reply to
    sldb-return-from-frame; and the choice of abort command. Each decoder maps a
    parsed reply to a record, or to None where the JavaScript code throws. The
    `Encode...` functions build the replies a Swank server sends for a record;
    decoding them gives the record back. */
module Debugger {
  import opened Wrappers
  import opened JsText
  import opened Sexp
  import opened LispCodec

  // ---------------------------------------------------------------------------
  // Stack frames

  datatype StackFrame = StackFrame(frameNumber: Option<string>, description: string, restartable: bool)

  /** One frame `(number "description" (:restartable flag))`: a frame of three or
      more elements is restartable unless the flag's source reads nil in any case;
      one of two elements is not restartable. Throws when the frame is not a list,
      has fewer than two elements, its description is not an atom, or (with three
      or more elements) the third element has no atom at position 1. */
  function DecodeFrame(f: Node): (r: Option<StackFrame>)
    ensures r.Some? <==> f.List? && |f.children| >= 2 && !f.children[1].List?
                         && (|f.children| >= 3 ==> AtomAt(f.children[2], 1).Some?)
    ensures r.Some? ==> r.value.frameNumber == Source(f.children[0])
    ensures r.Some? ==> r.value.description == FromLispString(f.children[1].src)
    ensures r.Some? && |f.children| < 3 ==> !r.value.restartable
  {
    var kids :- Children(f);
    var restartable :-
      if |kids| >= 3 then
        var flag :- AtomAt(kids[2], 1);
        Some(Lower(flag) != "nil")
      else Some(false);
    var number :- SourceAt(f, 0);
    var description :- AtomAt(f, 1);
    Some(StackFrame(number, FromLispString(description), restartable))
  }

  /** The restartable flag is `from_lisp_bool` of the flag node, whether it is a
      symbol (nil in any case is false) or a string literal (always true). */
  lemma RestartableIsLispBool(f: Node)
    requires DecodeFrame(f).Some? && |f.children| >= 3
    requires var flag := f.children[2].children[1];
      flag.Sym? || (|flag.src| > 0 && flag.src[0] == '"')
    ensures DecodeFrame(f).value.restartable == FromLispBool(f.children[2].children[1])
  {
    var flag := f.children[2].children[1];
    if !flag.Sym? {
      assert Lower(flag.src)[0] == '"';
    }
  }

  /** The frame a Swank server sends for a stack frame with a number. */
  function EncodeFrame(s: StackFrame): Node
    requires s.frameNumber.Some?
  {
    List([Sym(s.frameNumber.value), Str(ToLispString(s.description)),
          List([Sym(":restartable"), Sym(ToLispBool(s.restartable))])])
  }

  lemma FrameRoundTrip(s: StackFrame)
    requires s.frameNumber.Some?
    ensures DecodeFrame(EncodeFrame(s)) == Some(s)
  {
    LispStringRoundTrip(s.description);
    assert Lower("NIL") == "nil";
    assert Lower("T") == "t";
  }

  /** Backtrace reply (debug_get_stack_trace): a list of frames, all of which must
      decode. */
  function DecodeStackTrace(reply: Option<Node>): (r: Option<seq<StackFrame>>)
    ensures r.Some? <==> reply.Some? && reply.value.List?
                         && forall i :: 0 <= i < |reply.value.children| ==> DecodeFrame(reply.value.children[i]).Some?
    ensures r.Some? ==> |r.value| == |reply.value.children|
    ensures r.Some? ==> forall i :: 0 <= i < |r.value| ==> DecodeFrame(reply.value.children[i]) == Some(r.value[i])
  {
    var sexp :- reply;
    var frames :- Children(sexp);
    MapAll(frames, DecodeFrame)
  }

  function EncodeFrames(frames: seq<StackFrame>): seq<Node>
    requires forall i :: 0 <= i < |frames| ==> frames[i].frameNumber.Some?
  {
    seq(|frames|, i requires 0 <= i < |frames| => EncodeFrame(frames[i]))
  }

  lemma FramesRoundTrip(frames: seq<StackFrame>)
    requires forall i :: 0 <= i < |frames| ==> frames[i].frameNumber.Some?
    ensures MapAll(EncodeFrames(frames), DecodeFrame) == Some(frames)
  {
    var nodes := EncodeFrames(frames);
    forall i | 0 <= i < |frames| ensures DecodeFrame(nodes[i]) == Some(frames[i]) {
      FrameRoundTrip(frames[i]);
    }
    MapAllInverse(nodes, DecodeFrame, frames);
  }

  /** A backtrace sent as a list of frames reads back as those frames. */
  lemma StackTraceRoundTrip(frames: seq<StackFrame>)
    requires forall i :: 0 <= i < |frames| ==> frames[i].frameNumber.Some?
    ensures DecodeStackTrace(Some(List(EncodeFrames(frames)))) == Some(frames)
  {
    FramesRoundTrip(frames);
  }

  // ---------------------------------------------------------------------------
  // The :debug event

  datatype Restart = Restart(cmd: string, description: string)

  datatype DebugSession = DebugSession(
    thread: Option<string>, level: Option<string>, title: string, kind: string,
    restarts: seq<Restart>, frames: seq<StackFrame>)

  /** A restart `("NAME" "description")`: both elements must be atoms. */
  function DecodeRestart(n: Node): (r: Option<Restart>)
    ensures r.Some? <==> AtomAt(n, 0).Some? && AtomAt(n, 1).Some?
    ensures r.Some? ==> r.value == Restart(FromLispString(n.children[0].src), FromLispString(n.children[1].src))
  {
    var cmd :- AtomAt(n, 0);
    var description :- AtomAt(n, 1);
    Some(Restart(FromLispString(cmd), FromLispString(description)))
  }

  /** `(:debug thread level (title type ...) (restarts...) (frames...) ...)`: thread
      and level are kept as their source text; the condition, restart and frame
      elements must be lists, and every restart and frame must decode. */
  function DecodeDebugSetup(sexp: Node): (r: Option<DebugSession>)
    ensures r.Some? ==> sexp.List? && |sexp.children| >= 6
                        && sexp.children[4].List? && sexp.children[5].List?
    ensures r.Some? ==> r.value.thread == Source(sexp.children[1]) && r.value.level == Source(sexp.children[2])
    ensures r.Some? ==> |r.value.restarts| == |sexp.children[4].children|
                        && |r.value.frames| == |sexp.children[5].children|
  {
    var thread :- SourceAt(sexp, 1);
    var level :- SourceAt(sexp, 2);
    var condition :- Child(sexp, 3);
    var title :- AtomAt(condition, 0);
    var kind :- AtomAt(condition, 1);
    var restartList :- Child(sexp, 4);
    var restartNodes :- Children(restartList);
    var restarts :- MapAll(restartNodes, DecodeRestart);
    var frameList :- Child(sexp, 5);
    var frameNodes :- Children(frameList);
    var frames :- MapAll(frameNodes, DecodeFrame);
    Some(DebugSession(thread, level, FromLispString(title), FromLispString(kind), restarts, frames))
  }

  function EncodeRestart(r: Restart): Node {
    List([Str(ToLispString(r.cmd)), Str(ToLispString(r.description))])
  }

  /** A session whose thread and level are atoms and whose frames have numbers. */
  predicate Encodable(s: DebugSession) {
    s.thread.Some? && s.level.Some?
    && forall i :: 0 <= i < |s.frames| ==> s.frames[i].frameNumber.Some?
  }

  /** The `:debug` event a Swank server sends for a session. */
  function EncodeDebugSetup(s: DebugSession): Node
    requires Encodable(s)
  {
    List([Sym(":debug"), Sym(s.thread.value), Sym(s.level.value),
          List([Str(ToLispString(s.title)), Str(ToLispString(s.kind)), Sym("nil")]),
          List(EncodeRestarts(s.restarts)),
          List(EncodeFrames(s.frames)),
          List([])])
  }

  function EncodeRestarts(rs: seq<Restart>): seq<Node> {
    seq(|rs|, i requires 0 <= i < |rs| => EncodeRestart(rs[i]))
  }

  lemma RestartsRoundTrip(rs: seq<Restart>)
    ensures MapAll(EncodeRestarts(rs), DecodeRestart) == Some(rs)
  {
    var nodes := EncodeRestarts(rs);
    forall i | 0 <= i < |rs| ensures DecodeRestart(nodes[i]) == Some(rs[i]) {
      LispStringRoundTrip(rs[i].cmd);
      LispStringRoundTrip(rs[i].description);
    }
    MapAllInverse(nodes, DecodeRestart, rs);
  }

  /** The decoder reads a `:debug` event whose parts decode. */
  lemma DecodeDebugSetupOf(sexp: Node, title: string, kind: string, restarts: seq<Restart>, frames: seq<StackFrame>)
    requires sexp.List? && |sexp.children| >= 6
    requires var condition := sexp.children[3];
      AtomAt(condition, 0) == Some(ToLispString(title)) && AtomAt(condition, 1) == Some(ToLispString(kind))
    requires sexp.children[4].List? && MapAll(sexp.children[4].children, DecodeRestart) == Some(restarts)
    requires sexp.children[5].List? && MapAll(sexp.children[5].children, DecodeFrame) == Some(frames)
    ensures DecodeDebugSetup(sexp) ==
      Some(DebugSession(Source(sexp.children[1]), Source(sexp.children[2]), title, kind, restarts, frames))
  {
    var condition := sexp.children[3];
    assert FromLispString(AtomAt(condition, 0).value) == title by {
      LispStringRoundTrip(title);
    }
    assert FromLispString(AtomAt(condition, 1).value) == kind by {
      LispStringRoundTrip(kind);
    }
    assert Child(sexp, 3) == Some(condition);
    assert Children(sexp.children[4]) == Some(sexp.children[4].children);
    assert Children(sexp.children[5]) == Some(sexp.children[5].children);
  }

  lemma DebugSetupRoundTrip(s: DebugSession)
    requires Encodable(s)
    ensures DecodeDebugSetup(EncodeDebugSetup(s)) == Some(s)
  {
    var e := EncodeDebugSetup(s);
    assert e.children[3] == List([Str(ToLispString(s.title)), Str(ToLispString(s.kind)), Sym("nil")]);
    RestartsRoundTrip(s.restarts);
    FramesRoundTrip(s.frames);
    DecodeDebugSetupOf(e, s.title, s.kind, s.restarts, s.frames);
    assert Source(e.children[1]) == s.thread && Source(e.children[2]) == s.level;
  }

  // ---------------------------------------------------------------------------
  // Frame locals and catch tags

  datatype Local = Local(name: string, id: Option<string>, value: Option<string>)

  /** A local `(:name "x" :id 0 :value "1")`: the name (element 1) must be an atom;
      the id (element 3) and the value (element 5) must exist and keep their source. */
  function DecodeLocal(n: Node): (r: Option<Local>)
    ensures r.Some? <==> AtomAt(n, 1).Some? && |n.children| >= 6
    ensures r.Some? ==> r.value == Local(FromLispString(n.children[1].src), Source(n.children[3]), Source(n.children[5]))
  {
    var name :- AtomAt(n, 1);
    var id :- SourceAt(n, 3);
    var value :- SourceAt(n, 5);
    Some(Local(FromLispString(name), id, value))
  }

  /** A catch tag: a string atom. */
  function DecodeCatchTag(n: Node): (r: Option<string>)
    ensures r.Some? <==> !n.List?
  {
    var src :- Source(n);
    Some(FromLispString(src))
  }

  /** What the callback of debug_stack_frame_details assigns before it returns or
      throws: `locals` first, then `catch_tags`. None means the assignment was not
      reached. */
  datatype FrameDetails = FrameDetails(locals: Option<seq<Local>>, catchTags: Option<seq<string>>)

  /** An element that is not a list gives []; a list must decode element-wise. */
  function ListOrEmpty<T>(n: Node, decode: Node -> Option<T>): (r: Option<seq<T>>)
    ensures !n.List? ==> r == Some([])
    ensures n.List? ==> r == MapAll(n.children, decode)
  {
    if n.List? then MapAll(n.children, decode) else Some([])
  }

  /** The reply `(locals catch-tags)`: element 0 must exist for `locals` to be
      assigned, element 1 for `catch_tags`. Catch tags are never assigned without
      locals. */
  function DecodeFrameDetails(reply: Option<Node>): (r: FrameDetails)
    ensures r.locals.None? ==> r.catchTags.None?
    ensures r.locals.Some? <==> reply.Some? && Child(reply.value, 0).Some?
                                && ListOrEmpty(reply.value.children[0], DecodeLocal).Some?
    ensures r.catchTags.Some? <==> r.locals.Some? && |reply.value.children| >= 2
                                   && ListOrEmpty(reply.value.children[1], DecodeCatchTag).Some?
    ensures r.locals.Some? ==> r.locals == ListOrEmpty(reply.value.children[0], DecodeLocal)
    ensures r.catchTags.Some? ==> r.catchTags == ListOrEmpty(reply.value.children[1], DecodeCatchTag)
  {
    match reply
    case None => FrameDetails(None, None)
    case Some(sexp) =>
      match Child(sexp, 0)
      case None => FrameDetails(None, None)
      case Some(first) =>
        match ListOrEmpty(first, DecodeLocal)
        case None => FrameDetails(None, None)
        case Some(locals) =>
          match Child(sexp, 1)
          case None => FrameDetails(Some(locals), None)
          case Some(second) => FrameDetails(Some(locals), ListOrEmpty(second, DecodeCatchTag))
  }

  function EncodeLocal(l: Local): Node
    requires l.id.Some? && l.value.Some?
  {
    List([Sym(":name"), Str(ToLispString(l.name)), Sym(":id"), Sym(l.id.value),
          Sym(":value"), Str(l.value.value)])
  }

  /** Locals and catch tags sent as lists read back as themselves. */
  lemma FrameDetailsRoundTrip(locals: seq<Local>, tags: seq<string>)
    requires forall i :: 0 <= i < |locals| ==> locals[i].id.Some? && locals[i].value.Some?
    ensures var reply := List([
        List(seq(|locals|, i requires 0 <= i < |locals| => EncodeLocal(locals[i]))),
        List(seq(|tags|, i requires 0 <= i < |tags| => Str(ToLispString(tags[i]))))]);
      DecodeFrameDetails(Some(reply)) == FrameDetails(Some(locals), Some(tags))
  {
    var ls := seq(|locals|, i requires 0 <= i < |locals| => EncodeLocal(locals[i]));
    var ts := seq(|tags|, i requires 0 <= i < |tags| => Str(ToLispString(tags[i])));
    LocalsRoundTrip(locals, ls);
    CatchTagsRoundTrip(tags, ts);
    var reply := List([List(ls), List(ts)]);
    assert Child(reply, 0) == Some(List(ls)) && Child(reply, 1) == Some(List(ts));
  }

  /** Elements that are not lists (Swank sends `nil` for none) give empty locals
      and catch tags. */
  lemma FrameDetailsOfAtoms(first: Node, second: Node, more: seq<Node>)
    requires !first.List? && !second.List?
    ensures DecodeFrameDetails(Some(List([first, second] + more))) == FrameDetails(Some([]), Some([]))
  {
  }

  lemma LocalsRoundTrip(locals: seq<Local>, ls: seq<Node>)
    requires |ls| == |locals|
    requires forall i :: 0 <= i < |locals| ==> locals[i].id.Some? && locals[i].value.Some? && ls[i] == EncodeLocal(locals[i])
    ensures ListOrEmpty(List(ls), DecodeLocal) == Some(locals)
  {
    forall i | 0 <= i < |locals| ensures DecodeLocal(ls[i]) == Some(locals[i]) {
      LispStringRoundTrip(locals[i].name);
    }
    MapAllInverse(ls, DecodeLocal, locals);
  }

  lemma CatchTagsRoundTrip(tags: seq<string>, ts: seq<Node>)
    requires |ts| == |tags|
    requires forall i :: 0 <= i < |tags| ==> ts[i] == Str(ToLispString(tags[i]))
    ensures ListOrEmpty(List(ts), DecodeCatchTag) == Some(tags)
  {
    forall i | 0 <= i < |tags| ensures DecodeCatchTag(ts[i]) == Some(tags[i]) {
      LispStringRoundTrip(tags[i]);
    }
    MapAllInverse(ts, DecodeCatchTag, tags);
  }

  /** Which frame debug_stack_frame_details works on: the first whose number, read
      with `Number`, is the same number as the index (`===`, so NaN matches
      nothing). None makes the following `hasOwnProperty` throw. */
  function FindFrame(numbers: seq<Option<string>>, index: string): (r: Option<nat>)
    ensures r.Some? ==> r.value < |numbers| && SameNumber(ToNumberOpt(numbers[r.value]), ToNumber(index))
    ensures r.Some? ==> forall j :: 0 <= j < r.value ==> !SameNumber(ToNumberOpt(numbers[j]), ToNumber(index))
    ensures r.None? ==> forall j :: 0 <= j < |numbers| ==> !SameNumber(ToNumberOpt(numbers[j]), ToNumber(index))
  {
    if |numbers| == 0 then None
    else if SameNumber(ToNumberOpt(numbers[0]), ToNumber(index)) then Some(0)
    else
      match FindFrame(numbers[1..], index)
      case None => None
      case Some(k) => Some(k + 1)
  }

  /** `===` on numbers: NaN equals nothing. */
  predicate SameNumber(a: JsNumber, b: JsNumber) {
    a.Int? && b.Int? && a.i == b.i
  }

  /** A frame numbered by `String(k)` is found by the index `String(k)`. */
  lemma FindFrameByDecimal(numbers: seq<Option<string>>, k: nat, j: nat)
    requires j < |numbers| && numbers[j] == Some(Decimal(k))
    ensures FindFrame(numbers, Decimal(k)).Some? && FindFrame(numbers, Decimal(k)).value <= j
  {
    assert SameNumber(ToNumberOpt(numbers[j]), ToNumber(Decimal(k)));
  }

  // ---------------------------------------------------------------------------
  // Commands

  /** debug_abort_current_level: `level == 1` (loose equality, so the level's text
      is read as a number) selects THROW-TO-TOPLEVEL, anything else SLDB-ABORT. */
  function AbortCommand(level: string): (cmd: string)
    ensures cmd == "(SWANK:THROW-TO-TOPLEVEL)" || cmd == "(SWANK:SLDB-ABORT)"
    ensures cmd == "(SWANK:THROW-TO-TOPLEVEL)" <==> ToNumber(level) == Int(1)
  {
    if ToNumber(level) == Int(1) then "(SWANK:THROW-TO-TOPLEVEL)" else "(SWANK:SLDB-ABORT)"
  }

  /** For a level written as `String(k)`, the top level is exactly level 1. */
  lemma AbortTopLevelExactlyOne(k: nat)
    ensures AbortCommand(Decimal(k)) == "(SWANK:THROW-TO-TOPLEVEL)" <==> k == 1
  {
  }

  /** What the promise of debug_return_from_frame settles to. */
  datatype ReturnOutcome =
    | Returned                   // the reply read "NIL"
    | Refused(message: string)   // rejected with Error(message)
    | Malformed                  // rejected with a TypeError: the reply has no source

  /** The reply is read with from_lisp_string; only the text NIL means success. */
  function DecodeReturnFromFrame(reply: Option<Node>): (r: ReturnOutcome)
    ensures r == Malformed <==> reply.None? || reply.value.List?
    ensures r == Returned <==> reply.Some? && !reply.value.List? && FromLispString(reply.value.src) == "NIL"
    ensures r.Refused? ==> r.message != "NIL"
  {
    match reply
    case None => Malformed
    case Some(n) =>
      match Source(n)
      case None => Malformed
      case Some(src) =>
        var message := FromLispString(src);
        if message != "NIL" then Refused(message) else Returned
  }

  /** The Swank server answers with a string: "NIL" on success, otherwise the
      reason, which becomes the error message. */
  lemma ReturnFromFrameReply(message: string)
    ensures DecodeReturnFromFrame(Some(Str(ToLispString(message)))) ==
      if message == "NIL" then Returned else Refused(message)
  {
    LispStringRoundTrip(message);
  }

  /** The bare symbol NIL is not success: its text loses its first and last
      character, leaving "I". */
  lemma ReturnFromFrameSymbolNil()
    ensures DecodeReturnFromFrame(Some(Sym("NIL"))) == Refused("I")
  {
    assert DropEnds("NIL") == "I";
    assert Unescape("I") == "I";
  }
}
