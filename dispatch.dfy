/** What on_swank_message reads from an incoming message (lib/client.js:142-172,
    with the argument extraction of swank_message_rex_return_handler, ping_handler,
    debug_setup_handler, debug_activate_handler and debug_return_handler). The
    first top-level form is a list headed by a keyword; the head, lower-cased,
    selects the handler. None is an exception, which data_complete_callback
    catches: the message then has no effect. */
module Dispatch {
  import opened Wrappers
  import opened JsText
  import opened Sexp
  import opened LispCodec
  import opened Debugger

  datatype Message =
    | Return(id: Option<string>, value: Option<Node>)      // :return
    | WriteString(text: string)                            // :write-string
    | PresentationStart(presentation: Option<string>)      // :presentation-start
    | PresentationEnd(presentation: Option<string>)        // :presentation-end
    | NewPackage(package: string)                          // :new-package
    | Debug(session: DebugSession)                         // :debug
    | DebugActivate(thread: Option<string>, level: Option<string>)   // :debug-activate
    | DebugReturn(thread: Option<string>, level: Option<string>)     // :debug-return
    | Ping(thread: Option<string>, tag: Option<string>)    // :ping
    | Ignored(command: string)                             // anything else

  /** The lower-cased heads that have a handler. */
  function Handled(): set<string> {
    {":return", ":write-string", ":presentation-start", ":presentation-end", ":new-package",
     ":debug", ":debug-activate", ":debug-return", ":ping"}
  }

  /** The lower-cased head a message is decoded from. */
  function HeadOf(m: Message): (r: string)
    ensures !m.Ignored? ==> r in Handled()
  {
    match m
    case Return(_, _) => ":return"
    case WriteString(_) => ":write-string"
    case PresentationStart(_) => ":presentation-start"
    case PresentationEnd(_) => ":presentation-end"
    case NewPackage(_) => ":new-package"
    case Debug(_) => ":debug"
    case DebugActivate(_, _) => ":debug-activate"
    case DebugReturn(_, _) => ":debug-return"
    case Ping(_, _) => ":ping"
    case Ignored(command) => command
  }

  /** `(:return (status value) id)`: the status must be an atom (it is lower-cased
      and then unused), the id element must exist; the value may be missing
      (undefined). */
  function DecodeReturn(sexp: Node): (r: Option<Message>)
    ensures r.Some? ==> r.value.Return?
    ensures r.Some? <==> sexp.List? && |sexp.children| >= 3 && AtomAt(sexp.children[1], 0).Some?
    ensures r.Some? ==> r.value.id == Source(sexp.children[2]) && r.value.value == Child(sexp.children[1], 1)
  {
    var outcome :- Child(sexp, 1);
    var _ :- AtomAt(outcome, 0);
    var id :- SourceAt(sexp, 2);
    Some(Return(id, Child(outcome, 1)))
  }

  /** The thread and level (elements 1 and 2) of :debug-activate and :debug-return. */
  function ThreadAndLevel(sexp: Node): (r: Option<(Option<string>, Option<string>)>)
    ensures r.Some? <==> sexp.List? && |sexp.children| >= 3
    ensures r.Some? ==> r.value == (Source(sexp.children[1]), Source(sexp.children[2]))
  {
    var thread :- SourceAt(sexp, 1);
    var level :- SourceAt(sexp, 2);
    Some((thread, level))
  }

  /** on_swank_message on the parsed message `ast`. */
  function DecodeMessage(ast: Node): (r: Option<Message>)
    ensures r.Some? ==> Child(ast, 0).Some? && AtomAt(ast.children[0], 0).Some?
    ensures r.Some? ==> (r.value.Ignored? <==> Lower(ast.children[0].children[0].src) !in Handled())
    ensures r.Some? && r.value.Ignored? ==> r.value.command == Lower(ast.children[0].children[0].src)
    ensures r.Some? ==> HeadOf(r.value) == Lower(ast.children[0].children[0].src)
  {
    var sexp :- Child(ast, 0);
    var head :- AtomAt(sexp, 0);
    Route(Lower(head), sexp)
  }

  /** The if-chain on the lower-cased head `cmd` of the message `sexp`. */
  function Route(cmd: string, sexp: Node): (r: Option<Message>)
    ensures r.Some? ==> HeadOf(r.value) == cmd
    ensures r.Some? && r.value.Ignored? ==> cmd !in Handled()
  {
    if cmd == ":return" then DecodeReturn(sexp)
    else if cmd == ":write-string" then
      var text :- AtomAt(sexp, 1);
      Some(WriteString(FromLispString(text)))
    else if cmd == ":presentation-start" then
      var id :- SourceAt(sexp, 1);
      Some(PresentationStart(id))
    else if cmd == ":presentation-end" then
      var id :- SourceAt(sexp, 1);
      Some(PresentationEnd(id))
    else if cmd == ":new-package" then
      var name :- AtomAt(sexp, 1);
      Some(NewPackage(FromLispString(name)))
    else RouteDebugger(cmd, sexp)
  }

  /** The rest of the chain: the debugger events, the ping and the fallback. */
  function RouteDebugger(cmd: string, sexp: Node): (r: Option<Message>)
    requires cmd !in {":return", ":write-string", ":presentation-start", ":presentation-end", ":new-package"}
    ensures r.Some? ==> HeadOf(r.value) == cmd
    ensures r.Some? && r.value.Ignored? ==> cmd !in Handled()
  {
    if cmd == ":debug" then
      var session :- DecodeDebugSetup(sexp);
      Some(Debug(session))
    else if cmd == ":debug-activate" then
      var tl :- ThreadAndLevel(sexp);
      Some(DebugActivate(tl.0, tl.1))
    else if cmd == ":debug-return" then
      var tl :- ThreadAndLevel(sexp);
      Some(DebugReturn(tl.0, tl.1))
    else if cmd == ":ping" then
      var tl :- ThreadAndLevel(sexp);
      Some(Ping(tl.0, tl.1))
    else Some(Ignored(cmd))
  }

  /** The dispatch tag is compared without regard to case: two messages whose
      heads differ only in case decode alike. */
  lemma DispatchIgnoresCase(h1: string, h2: string, rest: seq<Node>, more: seq<Node>)
    requires Lower(h1) == Lower(h2)
    ensures DecodeMessage(List([List([Sym(h1)] + rest)] + more))
         == DecodeMessage(List([List([Sym(h2)] + rest)] + more))
  {
    var s1, s2 := List([Sym(h1)] + rest), List([Sym(h2)] + rest);
    assert s1.children[1..] == s2.children[1..];
    RouteIgnoresHead(Lower(h1), s1, s2);
  }

  /** Routing reads the elements after the head only. */
  lemma RouteIgnoresHead(cmd: string, s1: Node, s2: Node)
    requires s1.List? && s2.List? && |s1.children| == |s2.children| > 0
    requires s1.children[1..] == s2.children[1..]
    ensures Route(cmd, s1) == Route(cmd, s2)
  {
    assert forall i :: 1 <= i < |s1.children| ==> s1.children[i] == s1.children[1..][i - 1];
    assert SourceAt(s1, 1) == SourceAt(s2, 1) && SourceAt(s1, 2) == SourceAt(s2, 2);
    assert AtomAt(s1, 1) == AtomAt(s2, 1) && Child(s1, 1) == Child(s2, 1);
    DebugSetupIgnoresHead(s1, s2);
  }

  /** The :debug decoder does not look at the head. */
  lemma DebugSetupIgnoresHead(s1: Node, s2: Node)
    requires s1.List? && s2.List? && |s1.children| == |s2.children| > 0
    requires s1.children[1..] == s2.children[1..]
    ensures DecodeDebugSetup(s1) == DecodeDebugSetup(s2)
  {
    assert forall i :: 1 <= i < |s1.children| ==> s1.children[i] == s1.children[1..][i - 1];
  }

  /** `ping_handler`: the reply echoes the source text of the thread and the tag
      verbatim. */
  function PongCommand(thread: Option<string>, tag: Option<string>): string {
    "(:EMACS-PONG " + Show(thread) + " " + Show(tag) + ")"
  }

  /** A `(:ping thread tag)` from Swank is answered by `(:EMACS-PONG thread tag)`. */
  lemma PingEchoes(head: string, thread: string, tag: string, more: seq<Node>)
    requires Lower(head) == ":ping"
    ensures var r := DecodeMessage(List([List([Sym(head), Sym(thread), Sym(tag)])] + more));
      r == Some(Ping(Some(thread), Some(tag)))
      && PongCommand(r.value.thread, r.value.tag) == "(:EMACS-PONG " + thread + " " + tag + ")"
  {
  }

  /** The `:return` for request n carries the id `String(n)`, which names exactly
      request n, and the value in second place of the outcome. */
  lemma ReturnNamesRequest(status: string, value: Node, n: nat, more: seq<Node>)
    ensures var r := DecodeMessage(List([List([Keyword("return"), List([Sym(status), value]), Sym(Decimal(n))])] + more));
      r == Some(Return(Some(Decimal(n)), Some(value))) && ParseId(r.value.id.value) == Some(n)
  {
    assert Keyword("return").src == ":return";
    LowerNoCapitals(":return");
    ParseIdExact(Decimal(n), n);
  }

  /** `(:write-string "text" ...)`: the text, unquoted. */
  lemma WriteStringDecodes(head: string, quoted: string, rest: seq<Node>, more: seq<Node>)
    requires Lower(head) == ":write-string"
    ensures DecodeMessage(List([List([Sym(head), Str(quoted)] + rest)] + more))
      == Some(WriteString(FromLispString(quoted)))
  {
  }

  /** `(:new-package "name" ...)`: the package name, unquoted. */
  lemma NewPackageDecodes(head: string, quoted: string, rest: seq<Node>, more: seq<Node>)
    requires Lower(head) == ":new-package"
    ensures DecodeMessage(List([List([Sym(head), Str(quoted)] + rest)] + more))
      == Some(NewPackage(FromLispString(quoted)))
  {
  }

  /** `(:presentation-start id ...)`: the id as written. */
  lemma PresentationStartDecodes(head: string, id: Node, rest: seq<Node>, more: seq<Node>)
    requires Lower(head) == ":presentation-start"
    ensures DecodeMessage(List([List([Sym(head), id] + rest)] + more)) == Some(PresentationStart(Source(id)))
  {
  }

  /** `(:presentation-end id ...)`: the id as written. */
  lemma PresentationEndDecodes(head: string, id: Node, rest: seq<Node>, more: seq<Node>)
    requires Lower(head) == ":presentation-end"
    ensures DecodeMessage(List([List([Sym(head), id] + rest)] + more)) == Some(PresentationEnd(Source(id)))
  {
  }

  /** `(:debug-activate thread level ...)`: thread and level as written. */
  lemma DebugActivateDecodes(head: string, thread: Node, level: Node, rest: seq<Node>, more: seq<Node>)
    requires Lower(head) == ":debug-activate"
    ensures DecodeMessage(List([List([Sym(head), thread, level] + rest)] + more))
      == Some(DebugActivate(Source(thread), Source(level)))
  {
  }

  /** `(:debug-return thread level ...)`: thread and level as written. */
  lemma DebugReturnDecodes(head: string, thread: Node, level: Node, rest: seq<Node>, more: seq<Node>)
    requires Lower(head) == ":debug-return"
    ensures DecodeMessage(List([List([Sym(head), thread, level] + rest)] + more))
      == Some(DebugReturn(Source(thread), Source(level)))
  {
  }

  /** The `:debug` event a server sends for a session decodes to that session. */
  lemma DebugEventDecodes(session: DebugSession, more: seq<Node>)
    requires Encodable(session)
    ensures DecodeMessage(List([EncodeDebugSetup(session)] + more)) == Some(Debug(session))
  {
    DebugSetupRoundTrip(session);
    DebugHeadLower();
    DebugDecodes(":debug", EncodeDebugSetup(session), more, session);
  }

  lemma DebugHeadLower()
    ensures Lower(":debug") == ":debug"
  {
    LowerNoCapitals(":debug");
  }

  /** `(:debug ...)` whose elements decode to a session. */
  lemma DebugDecodes(head: string, sexp: Node, more: seq<Node>, session: DebugSession)
    requires Lower(head) == ":debug" && AtomAt(sexp, 0) == Some(head)
    requires DecodeDebugSetup(sexp) == Some(session)
    ensures DecodeMessage(List([sexp] + more)) == Some(Debug(session))
  {
  }

  /** The output heads as Swank writes them are already in lower case. */
  lemma OutputHeadsLower()
    ensures Lower(":write-string") == ":write-string"
    ensures Lower(":presentation-start") == ":presentation-start"
    ensures Lower(":presentation-end") == ":presentation-end"
  {
    LowerNoCapitals(":write-string");
    LowerNoCapitals(":presentation-start");
    LowerNoCapitals(":presentation-end");
  }

  /** `(:write-string "text" ...)` as Swank writes it decodes to the text, unquoted. */
  lemma WriteStringEventDecodes(quoted: string, target: Node)
    ensures DecodeMessage(List([List([Keyword("write-string"), Str(quoted), target])]))
      == Some(WriteString(FromLispString(quoted)))
  {
    OutputHeadsLower();
    assert Keyword("write-string") == Sym(":write-string");
    var body := [Keyword("write-string"), Str(quoted), target];
    assert body == [Sym(":write-string"), Str(quoted)] + [target];
    assert [List(body)] + [] == [List(body)];
    WriteStringDecodes(":write-string", quoted, [target], []);
  }

  /** `(:presentation-start id ...)` as Swank writes it. */
  lemma PresentationStartEventDecodes(id: string, target: Node)
    ensures DecodeMessage(List([List([Keyword("presentation-start"), Sym(id), target])]))
      == Some(PresentationStart(Some(id)))
  {
    OutputHeadsLower();
    assert Keyword("presentation-start") == Sym(":presentation-start");
    var body := [Keyword("presentation-start"), Sym(id), target];
    assert body == [Sym(":presentation-start"), Sym(id)] + [target];
    assert [List(body)] + [] == [List(body)];
    PresentationStartDecodes(":presentation-start", Sym(id), [target], []);
  }

  /** `(:presentation-end id ...)` as Swank writes it. */
  lemma PresentationEndEventDecodes(id: string, target: Node)
    ensures DecodeMessage(List([List([Keyword("presentation-end"), Sym(id), target])]))
      == Some(PresentationEnd(Some(id)))
  {
    OutputHeadsLower();
    assert Keyword("presentation-end") == Sym(":presentation-end");
    var body := [Keyword("presentation-end"), Sym(id), target];
    assert body == [Sym(":presentation-end"), Sym(id)] + [target];
    assert [List(body)] + [] == [List(body)];
    PresentationEndDecodes(":presentation-end", Sym(id), [target], []);
  }

  /** A message with any other head is ignored. */
  lemma UnknownIgnored(head: string, rest: seq<Node>, more: seq<Node>)
    requires Lower(head) !in Handled()
    ensures DecodeMessage(List([List([Sym(head)] + rest)] + more)) == Some(Ignored(Lower(head)))
  {
  }
}
