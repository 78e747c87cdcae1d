/** Command builders and reply decoders of lib/client.js that hold logic: the
    autodoc request with its cursor marker, the find_definitions reply (entries
    that do not decode are dropped), and the load that follows a compilation. */
module Commands {
  import opened Wrappers
  import opened JsText
  import opened Sexp
  import opened LispCodec

  // ---------------------------------------------------------------------------
  // autodoc

  /** The `start` and `end` offsets the parser records for a form. */
  datatype Span = Span(start: int, end: int)

  /** The cursor is in a form when it lies between its start and its end, both
      included. */
  predicate Contains(s: Span, cursor: int) {
    s.start <= cursor <= s.end
  }

  /** The first form that contains the cursor. */
  function FirstContaining(spans: seq<Span>, cursor: int): (r: Option<nat>)
    ensures r.Some? ==> r.value < |spans| && Contains(spans[r.value], cursor)
    ensures r.Some? ==> forall j :: 0 <= j < r.value ==> !Contains(spans[j], cursor)
    ensures r.None? ==> forall j :: 0 <= j < |spans| ==> !Contains(spans[j], cursor)
  {
    if |spans| == 0 then None
    else if Contains(spans[0], cursor) then Some(0)
    else
      match FirstContaining(spans[1..], cursor)
      case None => None
      case Some(k) => Some(k + 1)
  }

  const CursorMarker: string := "SWANK::%CURSOR-MARKER%"

  /** A form's text, cut out with `substring` and wrapped in double quotes. */
  function QuotedForm(text: string, s: Span): (r: string)
    ensures |r| >= 2 && r[0] == '"'
  {
    "\"" + Substring(text, s.start, s.end) + "\""
  }

  function QuotedForms(text: string, spans: seq<Span>): (r: seq<string>)
    ensures |r| == |spans| && forall i :: 0 <= i < |spans| ==> r[i] == QuotedForm(text, spans[i])
  {
    seq(|spans|, i requires 0 <= i < |spans| => QuotedForm(text, spans[i]))
  }

  /** The list autodoc sends: every form up to and including the first that
      contains the cursor, then the marker; when no form contains it, every form,
      an empty string and the marker. */
  function AutodocForms(text: string, spans: seq<Span>, cursor: int): seq<string> {
    match FirstContaining(spans, cursor)
    case Some(k) => QuotedForms(text, spans[..k + 1]) + [CursorMarker]
    case None => QuotedForms(text, spans) + ["\"\"", CursorMarker]
  }

  /** `parts.join(sep)`. */
  function Join(parts: seq<string>, sep: string): string {
    if |parts| == 0 then ""
    else if |parts| == 1 then parts[0]
    else Join(parts[..|parts| - 1], sep) + sep + parts[|parts| - 1]
  }

  function AutodocRequest(forms: seq<string>): string {
    "(SWANK:AUTODOC '(" + Join(forms, " ") + ") :PRINT-RIGHT-MARGIN 80)"
  }

  /** The marker is the last element and occurs nowhere else. */
  lemma MarkerOnceAtEnd(text: string, spans: seq<Span>, cursor: int)
    ensures var forms := AutodocForms(text, spans, cursor);
      && |forms| >= 2 && forms[|forms| - 1] == CursorMarker
      && forall i :: 0 <= i < |forms| - 1 ==> forms[i] != CursorMarker
  {
    var forms := AutodocForms(text, spans, cursor);
    forall i | 0 <= i < |forms| - 1 ensures forms[i] != CursorMarker {
      assert forms[i][0] == '"';
    }
  }

  /** When a form contains the cursor, the marker follows that form and nothing
      after it is sent; otherwise every form is sent, followed by `""`. */
  lemma MarkerPlacement(text: string, spans: seq<Span>, cursor: int)
    ensures var forms := AutodocForms(text, spans, cursor);
      match FirstContaining(spans, cursor)
      case Some(k) => |forms| == k + 2 && forms[k] == QuotedForm(text, spans[k])
                      && forms[..k] == QuotedForms(text, spans[..k])
      case None => |forms| == |spans| + 2 && forms[|spans|] == "\"\""
                   && forms[..|spans|] == QuotedForms(text, spans)
  {
  }

  /** autodoc's loop: walk the forms, quote each, and stop after the first that
      contains the cursor. None when the parse has no list of forms (the code
      throws, and autodoc answers `:not-available` without sending anything). */
  method BuildAutodoc(text: string, forms: Option<seq<Span>>, cursor: int) returns (cmd: Option<string>)
    ensures forms.None? ==> cmd.None?
    ensures forms.Some? ==> cmd == Some(AutodocRequest(AutodocForms(text, forms.value, cursor)))
  {
    if forms.None? {
      return None;
    }
    var spans := forms.value;
    var output: seq<string> := [];
    var didCursor := false;
    var i := 0;
    while i < |spans|
      invariant 0 <= i <= |spans|
      invariant !didCursor ==> FirstContaining(spans[..i], cursor).None? && output == QuotedForms(text, spans[..i])
      invariant didCursor ==> FirstContaining(spans, cursor) == Some(i - 1) && output == AutodocForms(text, spans, cursor)
      decreases if didCursor then 0 else |spans| - i + 1
    {
      output := output + [QuotedForm(text, spans[i])];
      if cursor >= spans[i].start && cursor <= spans[i].end && !didCursor {
        output := output + [CursorMarker];
        didCursor := true;
        FirstContainingExtend(spans, i, cursor);
        QuotedFormsExtend(text, spans, i);
        i := i + 1;
        break;
      }
      FirstContainingExtend(spans, i, cursor);
      QuotedFormsExtend(text, spans, i);
      i := i + 1;
    }
    if !didCursor {
      assert spans[..i] == spans;
      output := output + ["\"\"", CursorMarker];
      assert output == AutodocForms(text, spans, cursor);
    }
    return Some(AutodocRequest(output));
  }

  /** Quoting one more form of the prefix. */
  lemma QuotedFormsExtend(text: string, spans: seq<Span>, i: nat)
    requires i < |spans|
    ensures QuotedForms(text, spans[..i + 1]) == QuotedForms(text, spans[..i]) + [QuotedForm(text, spans[i])]
  {
  }

  /** Extending the scanned prefix by one form. */
  lemma FirstContainingExtend(spans: seq<Span>, i: nat, cursor: int)
    requires i < |spans| && FirstContaining(spans[..i], cursor).None?
    ensures Contains(spans[i], cursor) ==> FirstContaining(spans, cursor) == Some(i)
    ensures !Contains(spans[i], cursor) ==> FirstContaining(spans[..i + 1], cursor).None?
  {
    var r := FirstContaining(spans, cursor);
    forall j | 0 <= j < i ensures !Contains(spans[j], cursor) {
      assert spans[..i][j] == spans[j];
    }
    if Contains(spans[i], cursor) {
      FirstContainingUnique(spans, i, cursor);
    } else {
      var p := spans[..i + 1];
      forall j | 0 <= j < |p| ensures !Contains(p[j], cursor) {
        assert p[j] == spans[j];
      }
      FirstContainingNone(p, cursor);
    }
  }

  lemma {:induction false} FirstContainingUnique(spans: seq<Span>, i: nat, cursor: int)
    requires i < |spans| && Contains(spans[i], cursor)
    requires forall j :: 0 <= j < i ==> !Contains(spans[j], cursor)
    ensures FirstContaining(spans, cursor) == Some(i)
  {
    if i > 0 {
      FirstContainingUnique(spans[1..], i - 1, cursor);
    }
  }

  lemma {:induction false} FirstContainingNone(spans: seq<Span>, cursor: int)
    requires forall j :: 0 <= j < |spans| ==> !Contains(spans[j], cursor)
    ensures FirstContaining(spans, cursor).None?
  {
    if |spans| > 0 {
      FirstContainingNone(spans[1..], cursor);
    }
  }

  /** What the autodoc promise yields for the reply: its first element, or the
      symbol `:not-available` when the reply is missing or not a list (None is
      `undefined`, the first element of an empty list). */
  function AutodocReply(reply: Option<Node>): (r: Option<Node>)
    ensures reply.Some? && reply.value.List? && |reply.value.children| > 0 ==> r == Some(reply.value.children[0])
    ensures reply.None? || !reply.value.List? ==> r == Some(Sym(":not-available"))
    ensures r.None? <==> reply == Some(List([]))
  {
    match reply
    case None => Some(Sym(":not-available"))
    case Some(ast) =>
      if !ast.List? then Some(Sym(":not-available"))
      else if |ast.children| == 0 then None
      else Some(ast.children[0])
  }

  // ---------------------------------------------------------------------------
  // find_definitions

  /** `{label, filename, index}`; `name` is the label; `filename` is null unless the location is a
      :file or :buffer-and-file one. */
  datatype Definition = Definition(name: string, filename: Option<string>, index: JsNumber)

  /** One entry `("name" (:location (:file "f") (:position n) ...))`. None is an
      exception inside the loop's try block. */
  function DecodeDefinition(entry: Node): (r: Option<Definition>)
    ensures r.Some? ==> AtomAt(entry, 0).Some? && r.value.name == FromLispString(entry.children[0].src)
    ensures r.Some? ==> Child(entry, 1).Some? && Child(entry.children[1], 1).Some?
                        && AtomAt(entry.children[1].children[1], 0).Some?
                        && SourceAt(entry.children[1], 2).Some? && SourceAt(entry.children[1].children[2], 1).Some?
    ensures r.Some? ==> r.value.index == ParseInt(Source(entry.children[1].children[2].children[1]))
    ensures r.Some? ==> var buffer := entry.children[1].children[1]; var head := Lower(buffer.children[0].src);
      && (head == ":file" ==> AtomAt(buffer, 1).Some? && r.value.filename == Some(FromLispString(buffer.children[1].src)))
      && (head == ":buffer-and-file" ==> AtomAt(buffer, 2).Some?
                                         && r.value.filename == Some(FromLispString(buffer.children[2].src)))
      && (head != ":file" && head != ":buffer-and-file" ==> r.value.filename.None?)
  {
    var location :- Child(entry, 1);
    var buffer :- Child(location, 1);
    var head :- AtomAt(buffer, 0);
    var filename :-
      if Lower(head) == ":file" then
        var file :- AtomAt(buffer, 1);
        Some(Some(FromLispString(file)))
      else if Lower(head) == ":buffer-and-file" then
        var file :- AtomAt(buffer, 2);
        Some(Some(FromLispString(file)))
      else Some(None);
    var name :- AtomAt(entry, 0);
    var position :- Child(location, 2);
    var index :- SourceAt(position, 1);
    Some(Definition(FromLispString(name), filename, ParseInt(index)))
  }

  /** The entries that decode, in order (a loop whose body may throw inside a
      try block that swallows the exception). */
  function KeepDecoded<T>(entries: seq<Node>, decode: Node -> Option<T>): (r: seq<T>)
    ensures |r| <= |entries|
  {
    if |entries| == 0 then []
    else KeepDecoded(entries[..|entries| - 1], decode) + Kept(entries[|entries| - 1], decode)
  }

  /** What one entry contributes: its decoding, or nothing. */
  function Kept<T>(entry: Node, decode: Node -> Option<T>): (r: seq<T>)
    ensures |r| <= 1
  {
    match decode(entry)
    case Some(d) => [d]
    case None => []
  }

  /** Filtering distributes over concatenation: what an entry contributes does
      not depend on its neighbours. */
  lemma {:induction false} KeepDecodedAppend<T>(a: seq<Node>, b: seq<Node>, decode: Node -> Option<T>)
    ensures KeepDecoded(a + b, decode) == KeepDecoded(a, decode) + KeepDecoded(b, decode)
  {
    if |b| > 0 {
      var ab, front, last := a + b, b[..|b| - 1], b[|b| - 1];
      assert ab[..|ab| - 1] == a + front;
      assert ab[|ab| - 1] == last;
      KeepDecodedAppend(a, front, decode);
    } else {
      assert a + b == a;
    }
  }

  /** One more entry of the prefix. */
  lemma KeepDecodedSnoc<T>(entries: seq<Node>, i: nat, decode: Node -> Option<T>)
    requires i < |entries|
    ensures KeepDecoded(entries[..i + 1], decode) == KeepDecoded(entries[..i], decode) + Kept(entries[i], decode)
  {
    assert entries[..i + 1][..i] == entries[..i];
  }

  /** Every entry that decodes is kept, so when all decode the result is the
      decoded list. */
  lemma {:induction false} KeepDecodedAll<T>(entries: seq<Node>, decode: Node -> Option<T>)
    requires forall i :: 0 <= i < |entries| ==> decode(entries[i]).Some?
    ensures KeepDecoded(entries, decode) == MapAll(entries, decode).value
  {
    if |entries| > 0 {
      var init := entries[..|entries| - 1];
      assert forall i :: 0 <= i < |init| ==> init[i] == entries[i];
      KeepDecodedAll(init, decode);
      var last := entries[|entries| - 1];
      var whole := MapAll(entries, decode).value;
      var front := MapAll(init, decode).value;
      forall i | 0 <= i < |init| ensures whole[i] == front[i] {
        assert whole[i] == decode(entries[i]).value;
      }
      assert whole == front + [decode(last).value];
    }
  }

  /** Every kept value is the decoding of some entry. */
  lemma {:induction false} KeepDecodedFrom<T>(entries: seq<Node>, decode: Node -> Option<T>, d: T)
    requires d in KeepDecoded(entries, decode)
    ensures exists i :: 0 <= i < |entries| && decode(entries[i]) == Some(d)
  {
    var init := entries[..|entries| - 1];
    if d in KeepDecoded(init, decode) {
      KeepDecodedFrom(init, decode, d);
      var i :| 0 <= i < |init| && decode(init[i]) == Some(d);
      assert entries[i] == init[i];
    } else {
      assert decode(entries[|entries| - 1]) == Some(d);
    }
  }

  /** The callback of find_definitions: the reply must be a list; the loop keeps
      the entries that decode. */
  method CollectDefinitions(reply: Option<Node>) returns (refs: Option<seq<Definition>>)
    ensures refs.Some? <==> reply.Some? && reply.value.List?
    ensures refs.Some? ==> refs.value == KeepDecoded(reply.value.children, DecodeDefinition)
  {
    if reply.None? || !reply.value.List? {
      return None;
    }
    var entries := reply.value.children;
    var out: seq<Definition> := [];
    var i := 0;
    while i < |entries|
      invariant 0 <= i <= |entries|
      invariant out == KeepDecoded(entries[..i], DecodeDefinition)
    {
      KeepDecodedSnoc(entries, i, DecodeDefinition);
      match DecodeDefinition(entries[i]) {
        case Some(d) => out := out + [d];
        case None =>
      }
      i := i + 1;
    }
    assert entries[..i] == entries;
    return Some(out);
  }

  /** The entry Swank sends for a definition in a file at a character position. */
  function FileDefinition(name: string, file: string, position: nat): Node {
    List([Str(ToLispString(name)),
          List([Keyword("location"),
                List([Keyword("file"), Str(ToLispString(file))]),
                List([Keyword("position"), Sym(Decimal(position))]),
                List([Keyword("snippet"), Str("\"\"")])])])
  }

  lemma FileDefinitionDecodes(name: string, file: string, position: nat)
    ensures DecodeDefinition(FileDefinition(name, file, position))
      == Some(Definition(name, Some(file), Int(position)))
  {
    FileEntryDecodes(ToLispString(name), ToLispString(file), Decimal(position), List([Keyword("snippet"), Str("\"\"")]));
    LispStringRoundTrip(name);
    LispStringRoundTrip(file);
    assert ParseInt(Some(Decimal(position))) == Int(position);
  }

  /** A :file entry, whatever its quoted name and file and its position text. */
  lemma FileEntryDecodes(qname: string, qfile: string, index: string, snippet: Node)
    ensures DecodeDefinition(List([Str(qname), List([Keyword("location"), List([Keyword("file"), Str(qfile)]),
                                                     List([Keyword("position"), Sym(index)]), snippet])]))
      == Some(Definition(FromLispString(qname), Some(FromLispString(qfile)), ParseInt(Some(index))))
  {
    assert Keyword("file").src == ":file";
    LowerNoCapitals(":file");
  }

  /** The entry for a definition in an editor buffer visiting a file; `tag` is
      the `:buffer-and-file` keyword as the server spells it. */
  function BufferAndFileDefinition(tag: string, name: string, buffer: string, file: string, position: nat): Node {
    List([Str(ToLispString(name)),
          List([Keyword("location"),
                List([Sym(tag), Str(ToLispString(buffer)), Str(ToLispString(file))]),
                List([Keyword("position"), Sym(Decimal(position))]),
                List([Keyword("snippet"), Str("\"\"")])])])
  }

  /** A :buffer-and-file entry, tag in any letter case, reports the file and not
      the buffer name. */
  lemma BufferAndFileDefinitionDecodes(tag: string, name: string, buffer: string, file: string, position: nat)
    requires Lower(tag) == ":buffer-and-file"
    ensures DecodeDefinition(BufferAndFileDefinition(tag, name, buffer, file, position))
      == Some(Definition(name, Some(file), Int(position)))
  {
    BufferAndFileEntryDecodes(tag, ToLispString(name), ToLispString(buffer), ToLispString(file),
                              Decimal(position), List([Keyword("snippet"), Str("\"\"")]));
    LispStringRoundTrip(name);
    LispStringRoundTrip(file);
    assert ParseInt(Some(Decimal(position))) == Int(position);
  }

  /** A buffer-and-file entry whose tag is written in any letter case. */
  lemma BufferAndFileEntryDecodes(tag: string, qname: string, qbuffer: string, qfile: string, index: string, snippet: Node)
    requires Lower(tag) == ":buffer-and-file"
    ensures DecodeDefinition(List([Str(qname), List([Keyword("location"), List([Sym(tag), Str(qbuffer), Str(qfile)]),
                                                     List([Keyword("position"), Sym(index)]), snippet])]))
      == Some(Definition(FromLispString(qname), Some(FromLispString(qfile)), ParseInt(Some(index))))
  {
  }

  /** Any other buffer kind, such as `(:buffer "name")`, gives a null filename. */
  lemma BufferDefinitionHasNoFile(qname: string, qbuffer: string, index: string, snippet: Node)
    ensures DecodeDefinition(List([Str(qname), List([Keyword("location"), List([Keyword("buffer"), Str(qbuffer)]),
                                                     List([Keyword("position"), Sym(index)]), snippet])]))
      == Some(Definition(FromLispString(qname), None, ParseInt(Some(index))))
  {
    assert Keyword("buffer").src == ":buffer";
    assert |":buffer"| != |":file"| && |":buffer"| != |":buffer-and-file"|;
    LowerNoCapitals(":buffer");
  }

  /** An entry whose location is `(:error "message")` is dropped. */
  lemma ErrorEntryDropped(others: seq<Node>, name: string, message: string)
    ensures var bad := List([Str(ToLispString(name)), List([Keyword("error"), Str(ToLispString(message))])]);
      KeepDecoded(others + [bad], DecodeDefinition) == KeepDecoded(others, DecodeDefinition)
  {
    var bad := List([Str(ToLispString(name)), List([Keyword("error"), Str(ToLispString(message))])]);
    assert DecodeDefinition(bad).None?;
    var all := others + [bad];
    assert all[..|all| - 1] == others;
  }

  // ---------------------------------------------------------------------------
  // on_compilation

  /** The compilation result `(:compilation-result notes successp duration loadp
      fasl)`: a LOAD-FILE of the fasl is sent exactly when element 2 and element 4
      are both something other than NIL (in any case). Element 4 is not looked at
      when element 2 is NIL. None is a TypeError. */
  function CompilationFollowUp(result: Option<Node>): (r: Option<Option<string>>)
    ensures r.Some? && r.value.Some? ==>
      && result.Some? && AtomAt(result.value, 2).Some? && AtomAt(result.value, 4).Some?
      && Upper(AtomAt(result.value, 2).value) != "NIL" && Upper(AtomAt(result.value, 4).value) != "NIL"
      && SourceAt(result.value, 5).Some?
      && r.value.value == "(SWANK:LOAD-FILE " + Show(SourceAt(result.value, 5).value) + ")"
    ensures r == Some(None) ==>
      && result.Some? && AtomAt(result.value, 2).Some?
      && (Upper(AtomAt(result.value, 2).value) == "NIL"
          || (AtomAt(result.value, 4).Some? && Upper(AtomAt(result.value, 4).value) == "NIL"))
    ensures (&& result.Some? && AtomAt(result.value, 2).Some? && Upper(AtomAt(result.value, 2).value) != "NIL"
             && AtomAt(result.value, 4).Some? && Upper(AtomAt(result.value, 4).value) != "NIL"
             && SourceAt(result.value, 5).Some?)
            ==> r.Some? && r.value.Some?
    ensures result.Some? && AtomAt(result.value, 2).Some? && Upper(AtomAt(result.value, 2).value) == "NIL"
            ==> r == Some(None)
    ensures (&& result.Some? && AtomAt(result.value, 2).Some? && AtomAt(result.value, 4).Some?
             && Upper(AtomAt(result.value, 4).value) == "NIL")
            ==> r == Some(None)
  {
    var res :- result;
    var success :- AtomAt(res, 2);
    if Upper(success) == "NIL" then Some(None)
    else
      var load :- AtomAt(res, 4);
      if Upper(load) == "NIL" then Some(None)
      else
        var fasl :- SourceAt(res, 5);
        Some(Some("(SWANK:LOAD-FILE " + Show(fasl) + ")"))
  }

  /** For symbol flags, the load is sent exactly when both read as true with
      from_lisp_bool. */
  lemma CompilationLoadsIffBothTrue(notes: Node, success: string, duration: Node, load: string, fasl: string)
    ensures var result := List([Keyword("compilation-result"), notes, Sym(success), duration, Sym(load), Str(fasl)]);
      CompilationFollowUp(Some(result)) ==
        Some(if FromLispBool(Sym(success)) && FromLispBool(Sym(load))
             then Some("(SWANK:LOAD-FILE " + fasl + ")") else None)
  {
    UpperNilIffLowerNil(success);
    UpperNilIffLowerNil(load);
  }

  /** A NIL success flag sends nothing, even when elements 3 to 5 are missing. */
  lemma CompilationFailureShortCircuits(notes: Node)
    ensures CompilationFollowUp(Some(List([Keyword("compilation-result"), notes, Sym("nil")]))) == Some(None)
  {
    assert Upper("nil") == "NIL";
  }
}
