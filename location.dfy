/** The reply to FRAME-SOURCE-LOCATION as debug_frame_source decodes it
    (lib/client.js:463-531): `(:location <buffer> <position> <hints>)` or
    `(:error "message")`. The buffer element is tagged :file, :buffer,
    :buffer-and-file, :source-form or :zip; the position element :position,
    :offset, :line, :function-name, :source_path or :method. Any other tag leaves
    the corresponding detail out. */
module FrameSource {
  import opened Wrappers
  import opened JsText
  import opened Sexp
  import opened LispCodec

  /** The buffer fields the decoder sets, by buffer type. */
  datatype BufferDetail =
    | ErrorText(error: string)
    | File(file: string)
    | BufferName(bufferName: string)
    | BufferAndFile(bufferName: string, file: string)
    | SourceForm(sourceForm: string)
    | Zip(zipFile: string, zipEntry: string)
    | NoBufferDetail

  /** The position fields the decoder sets, by position type. */
  datatype PositionDetail =
    | Offset(offset: JsNumber)
    | Line(line: JsNumber, column: Option<JsNumber>)
    | FunctionName(functionName: Option<string>)
    | SourcePath(pathList: seq<Option<string>>, start: Option<string>)
    | Method(methodName: Option<string>, specializers: seq<Option<string>>, qualifiers: seq<Option<string>>)
    | NoPositionDetail

  /** The `location` object: `buffer_type` and `position_type` and the fields that
      go with them. An error location has no position type. */
  datatype Location = Location(bufferType: string, buffer: BufferDetail,
                               positionType: Option<string>, position: PositionDetail)

  /** The buffer fields present are the ones the buffer type names. */
  predicate BufferTyped(bufferType: string, d: BufferDetail) {
    && !d.ErrorText?
    && (bufferType == "file" <==> d.File?)
    && (bufferType == "buffer" <==> d.BufferName?)
    && (bufferType == "buffer-and-file" <==> d.BufferAndFile?)
    && (bufferType == "source-form" <==> d.SourceForm?)
    && (bufferType == "zip" <==> d.Zip?)
  }

  /** The position fields present are the ones the position type names. */
  predicate PositionTyped(positionType: string, d: PositionDetail) {
    && (positionType == "position" <==> d.Offset?)
    && (positionType == "line" <==> d.Line?)
    && (positionType == "function-name" <==> d.FunctionName?)
    && (positionType == "source_path" <==> d.SourcePath?)
    && (positionType == "method" <==> d.Method?)
  }

  /** An error location has the error text and nothing else; any other location
      has a position type, and its fields are the ones its two types name. */
  predicate WellTyped(l: Location) {
    if l.buffer.ErrorText? then
      l.bufferType == "error" && l.positionType.None? && l.position.NoPositionDetail?
    else
      BufferTyped(l.bufferType, l.buffer) && l.positionType.Some?
      && PositionTyped(l.positionType.value, l.position)
  }

  /** `n.children[i].source.slice(1).toLowerCase()`: a keyword's name in lower case. */
  function Tag(n: Node, i: nat): (r: Option<string>)
    ensures r.Some? <==> AtomAt(n, i).Some?
  {
    var src :- AtomAt(n, i);
    Some(Lower(DropFirst(src)))
  }

  /** The buffer element, once its tag is known. The zip entry is read from
      element 1, the same element as the zip file. */
  function DecodeBuffer(bufferType: string, b: Node): (r: Option<BufferDetail>)
    ensures r.Some? ==> BufferTyped(bufferType, r.value)
    ensures r.Some? && r.value.Zip? ==> r.value.zipEntry == r.value.zipFile
    ensures bufferType in {"file", "buffer", "source-form", "zip"} ==> (r.Some? <==> AtomAt(b, 1).Some?)
    ensures bufferType == "buffer-and-file" ==> (r.Some? <==> AtomAt(b, 1).Some? && AtomAt(b, 2).Some?)
    ensures bufferType !in {"file", "buffer", "buffer-and-file", "source-form", "zip"} ==> r == Some(NoBufferDetail)
  {
    if bufferType == "file" then
      var file :- AtomAt(b, 1);
      Some(File(FromLispString(file)))
    else if bufferType == "buffer" then
      var name :- AtomAt(b, 1);
      Some(BufferName(FromLispString(name)))
    else if bufferType == "buffer-and-file" then
      var name :- AtomAt(b, 1);
      var file :- AtomAt(b, 2);
      Some(BufferAndFile(FromLispString(name), FromLispString(file)))
    else if bufferType == "source-form" then
      var form :- AtomAt(b, 1);
      Some(SourceForm(FromLispString(form)))
    else if bufferType == "zip" then
      var file :- AtomAt(b, 1);
      Some(Zip(FromLispString(file), FromLispString(file)))
    else Some(NoBufferDetail)
  }

  /** The sources of a list of elements (`map(elt => elt.source)`). */
  function Sources(nodes: seq<Node>): (r: seq<Option<string>>)
    ensures |r| == |nodes| && forall i :: 0 <= i < |nodes| ==> r[i] == Source(nodes[i])
  {
    seq(|nodes|, i requires 0 <= i < |nodes| => Source(nodes[i]))
  }

  /** The position element (a list), once its tag is known: the final position
      type and the detail. `Number` of a parsed node object is NaN; `.type.toLowerCase`
      is a function and never equals 'list', so path lists and specializers are empty. */
  function DecodePosition(positionType: string, p: Node): (r: Option<(string, PositionDetail)>)
    requires p.List?
    ensures r.Some? && positionType == "offset" ==> r.value.0 == "position"
    ensures r.Some? && positionType != "offset" ==> r.value.0 == positionType
    ensures r.Some? ==> PositionTyped(r.value.0, r.value.1)
    ensures r.Some? && r.value.1.Line? ==> r.value.1.line == NaN
    ensures r.Some? && r.value.1.SourcePath? ==> r.value.1.pathList == []
    ensures r.Some? && r.value.1.Method? ==> r.value.1.specializers == []
    ensures positionType in {"position", "function-name"} ==> (r.Some? <==> |p.children| >= 2)
    ensures positionType in {"offset", "source_path", "method"} ==> (r.Some? <==> |p.children| >= 3)
    ensures positionType !in {"position", "offset", "function-name", "source_path", "method"} ==> r.Some?
  {
    if positionType == "position" then
      var offset :- SourceAt(p, 1);
      Some(("position", Offset(ToNumberOpt(offset))))
    else if positionType == "offset" then
      var start :- SourceAt(p, 1);
      var delta :- SourceAt(p, 2);
      Some(("position", Offset(Add(ToNumberOpt(start), ToNumberOpt(delta)))))
    else if positionType == "line" then
      Some(("line", Line(NaN, if |p.children| >= 3 then Some(NaN) else None)))
    else if positionType == "function-name" then
      var name :- SourceAt(p, 1);
      Some(("function-name", FunctionName(name)))
    else if positionType == "source_path" then
      var _ :- Child(p, 1);
      var start :- SourceAt(p, 2);
      Some(("source_path", SourcePath([], start)))
    else if positionType == "method" then
      var name :- SourceAt(p, 1);
      var _ :- Child(p, 2);
      Some(("method", Method(name, [], Sources(p.children[3..]))))
    else Some((positionType, NoPositionDetail))
  }

  /** A reply whose head is not :error: the buffer element (1) and the position
      element (2) must be lists headed by an atom. */
  function DecodeFound(loc: Node): (r: Option<Location>)
    ensures r.Some? ==> WellTyped(r.value) && r.value.positionType.Some?
    ensures r.Some? && r.value.buffer.Zip? ==> r.value.buffer.zipEntry == r.value.buffer.zipFile
    ensures r.Some? && r.value.position.Method? ==> r.value.position.specializers == []
    ensures r.Some? && r.value.positionType == Some("source-path") ==> r.value.position.NoPositionDetail?
  {
    var buffer :- Child(loc, 1);
    var bufferType :- Tag(buffer, 0);
    var bufferDetail :- DecodeBuffer(bufferType, buffer);
    var position :- Child(loc, 2);
    var rawType :- Tag(position, 0);
    var decoded :- DecodePosition(rawType, position);
    Some(Location(bufferType, bufferDetail, Some(decoded.0), decoded.1))
  }

  /** The callback of debug_frame_source. None is a rejected promise. */
  function DecodeLocation(reply: Option<Node>): (r: Option<Location>)
    ensures r.Some? ==> WellTyped(r.value)
    ensures r.Some? ==> reply.Some? && AtomAt(reply.value, 0).Some?
    ensures r.Some? && r.value.buffer.ErrorText? <==> r.Some? && Lower(reply.value.children[0].src) == ":error"
    ensures r.Some? && r.value.buffer.Zip? ==> r.value.buffer.zipEntry == r.value.buffer.zipFile
    ensures r.Some? && r.value.position.Method? ==> r.value.position.specializers == []
    ensures r.Some? && r.value.positionType == Some("source-path") ==> r.value.position.NoPositionDetail?
  {
    var loc :- reply;
    var head :- AtomAt(loc, 0);
    if Lower(head) == ":error" then
      var message :- AtomAt(loc, 1);
      Some(Location("error", ErrorText(FromLispString(message)), None, NoPositionDetail))
    else DecodeFound(loc)
  }

  // ---------------------------------------------------------------------------
  // What the decoder makes of the replies a Swank server sends

  function LocationReply(buffer: Node, position: Node): Node {
    List([Keyword("location"), buffer, position, Sym("nil")])
  }

  lemma KeywordTag(name: string, rest: seq<Node>)
    requires forall i :: 0 <= i < |name| ==> !('A' <= name[i] <= 'Z')
    ensures Tag(List([Keyword(name)] + rest), 0) == Some(name)
  {
    assert Keyword(name).src == ":" + name;
    assert DropFirst(":" + name) == name;
    LowerNoCapitals(name);
  }

  /** An `(:error "text")` reply gives the error type and the text, and nothing else. */
  lemma ErrorReply(message: string, rest: seq<Node>)
    ensures DecodeLocation(Some(List([Keyword("error"), Str(ToLispString(message))] + rest)))
      == Some(Location("error", ErrorText(message), None, NoPositionDetail))
  {
    ErrorQuoted(ToLispString(message), rest);
    LispStringRoundTrip(message);
  }

  lemma ErrorQuoted(quoted: string, rest: seq<Node>)
    ensures DecodeLocation(Some(List([Keyword("error"), Str(quoted)] + rest)))
      == Some(Location("error", ErrorText(FromLispString(quoted)), None, NoPositionDetail))
  {
    assert Lower(":error") == ":error";
  }

  /** Decoding a `:location` reply whose two elements decode. */
  lemma DecodeLocationOf(buffer: Node, position: Node, bufferType: string, bufferDetail: BufferDetail,
                         positionType: string, detail: PositionDetail)
    requires Tag(buffer, 0) == Some(bufferType) && DecodeBuffer(bufferType, buffer) == Some(bufferDetail)
    requires position.List? && Tag(position, 0).Some?
    requires DecodePosition(Tag(position, 0).value, position) == Some((positionType, detail))
    ensures DecodeLocation(Some(LocationReply(buffer, position)))
      == Some(Location(bufferType, bufferDetail, Some(positionType), detail))
  {
    var loc := LocationReply(buffer, position);
    assert |Lower(":" + "location")| != |":error"|;
    FoundHead(loc, ":" + "location");
    DecodeFoundOf(loc, bufferType, bufferDetail, positionType, detail);
  }

  lemma FoundHead(loc: Node, head: string)
    requires AtomAt(loc, 0) == Some(head) && Lower(head) != ":error"
    ensures DecodeLocation(Some(loc)) == DecodeFound(loc)
  {
  }

  lemma DecodeFoundOf(loc: Node, bufferType: string, bufferDetail: BufferDetail,
                      positionType: string, detail: PositionDetail)
    requires Child(loc, 1).Some? && Child(loc, 2).Some?
    requires var buffer := loc.children[1];
      Tag(buffer, 0) == Some(bufferType) && DecodeBuffer(bufferType, buffer) == Some(bufferDetail)
    requires var position := loc.children[2];
      position.List? && Tag(position, 0).Some?
      && DecodePosition(Tag(position, 0).value, position) == Some((positionType, detail))
    ensures DecodeFound(loc) == Some(Location(bufferType, bufferDetail, Some(positionType), detail))
  {
  }

  /** `(:file "f")` with `(:position n)`, tags in any case: the file and the
      offset n. */
  lemma FilePositionReply(fileTag: string, positionTag: string, file: string, n: nat)
    requires Lower(DropFirst(fileTag)) == "file" && Lower(DropFirst(positionTag)) == "position"
    ensures DecodeLocation(Some(LocationReply(List([Sym(fileTag), Str(ToLispString(file))]),
                                              List([Sym(positionTag), Sym(Decimal(n))]))))
      == Some(Location("file", File(file), Some("position"), Offset(Int(n))))
  {
    FileBuffer(fileTag, file);
    PositionOffset(positionTag, n);
    DecodeLocationOf(List([Sym(fileTag), Str(ToLispString(file))]), List([Sym(positionTag), Sym(Decimal(n))]),
                     "file", File(file), "position", Offset(Int(n)));
  }

  lemma FileBuffer(tag: string, file: string)
    requires Lower(DropFirst(tag)) == "file"
    ensures var buffer := List([Sym(tag), Str(ToLispString(file))]);
      Tag(buffer, 0) == Some("file") && DecodeBuffer("file", buffer) == Some(File(file))
  {
    FileQuoted(tag, ToLispString(file));
    LispStringRoundTrip(file);
  }

  lemma FileQuoted(tag: string, quoted: string)
    requires Lower(DropFirst(tag)) == "file"
    ensures var buffer := List([Sym(tag), Str(quoted)]);
      Tag(buffer, 0) == Some("file") && DecodeBuffer("file", buffer) == Some(File(FromLispString(quoted)))
  {
  }

  lemma PositionOffset(tag: string, n: nat)
    requires Lower(DropFirst(tag)) == "position"
    ensures var position := List([Sym(tag), Sym(Decimal(n))]);
      Tag(position, 0) == Some("position") && DecodePosition("position", position) == Some(("position", Offset(Int(n))))
  {
    var position := List([Sym(tag), Sym(Decimal(n))]);
    assert SourceAt(position, 1) == Some(Some(Decimal(n)));
  }

  /** `(:buffer-and-file "b" "f")`, tag in any case, sets both the buffer name and
      the file. */
  lemma BufferAndFileReply(tag: string, name: string, file: string, position: Node)
    requires Lower(DropFirst(tag)) == "buffer-and-file"
    requires position.List? && Tag(position, 0).Some?
    requires DecodePosition(Tag(position, 0).value, position).Some?
    ensures var r := DecodeLocation(Some(LocationReply(
        List([Sym(tag), Str(ToLispString(name)), Str(ToLispString(file))]), position)));
      r.Some? && r.value.bufferType == "buffer-and-file" && r.value.buffer == BufferAndFile(name, file)
  {
    BufferAndFileBuffer(tag, name, file);
    var d := DecodePosition(Tag(position, 0).value, position).value;
    DecodeLocationOf(List([Sym(tag), Str(ToLispString(name)), Str(ToLispString(file))]), position,
                     "buffer-and-file", BufferAndFile(name, file), d.0, d.1);
  }

  lemma BufferAndFileBuffer(tag: string, name: string, file: string)
    requires Lower(DropFirst(tag)) == "buffer-and-file"
    ensures var buffer := List([Sym(tag), Str(ToLispString(name)), Str(ToLispString(file))]);
      Tag(buffer, 0) == Some("buffer-and-file") && DecodeBuffer("buffer-and-file", buffer) == Some(BufferAndFile(name, file))
  {
    BufferAndFileQuoted(tag, ToLispString(name), ToLispString(file));
    LispStringRoundTrip(name);
    LispStringRoundTrip(file);
  }

  lemma BufferAndFileQuoted(tag: string, quotedName: string, quotedFile: string)
    requires Lower(DropFirst(tag)) == "buffer-and-file"
    ensures var buffer := List([Sym(tag), Str(quotedName), Str(quotedFile)]);
      Tag(buffer, 0) == Some("buffer-and-file")
      && DecodeBuffer("buffer-and-file", buffer) == Some(BufferAndFile(FromLispString(quotedName), FromLispString(quotedFile)))
  {
  }

  /** `(:offset start delta)` becomes a position whose offset is the sum. */
  lemma OffsetReply(start: nat, delta: nat)
    ensures DecodePosition("offset", List([Keyword("offset"), Sym(Decimal(start)), Sym(Decimal(delta))]))
      == Some(("position", Offset(Int(start + delta))))
  {
    var p := List([Keyword("offset"), Sym(Decimal(start)), Sym(Decimal(delta))]);
    assert SourceAt(p, 1) == Some(Some(Decimal(start))) && SourceAt(p, 2) == Some(Some(Decimal(delta)));
    assert ToNumber(Decimal(start)) == Int(start) && ToNumber(Decimal(delta)) == Int(delta);
  }

  /** `(:zip "file" "entry")`: the entry is lost, the file is reported twice. */
  lemma ZipReply(file: string, entry: string)
    ensures DecodeBuffer("zip", List([Keyword("zip"), Str(ToLispString(file)), Str(ToLispString(entry))]))
      == Some(Zip(file, file))
  {
    ZipQuoted(ToLispString(file), ToLispString(entry));
    LispStringRoundTrip(file);
  }

  lemma ZipQuoted(quotedFile: string, quotedEntry: string)
    ensures DecodeBuffer("zip", List([Keyword("zip"), Str(quotedFile), Str(quotedEntry)]))
      == Some(Zip(FromLispString(quotedFile), FromLispString(quotedFile)))
  {
  }

  /** `(:source-path (0 1) 5)`, the tag Swank sends, matches no branch: the
      position type is "source-path" and no path or start is set. */
  lemma SourcePathReply(path: seq<Node>, start: string)
    ensures DecodePosition("source-path", List([Keyword("source-path"), List(path), Sym(start)]))
      == Some(("source-path", NoPositionDetail))
  {
  }
  /** `(:buffer "name")`, tag in any case: the buffer name, unquoted. */
  lemma BufferReply(tag: string, name: string)
    requires Lower(DropFirst(tag)) == "buffer"
    ensures var buffer := List([Sym(tag), Str(ToLispString(name))]);
      Tag(buffer, 0) == Some("buffer") && DecodeBuffer("buffer", buffer) == Some(BufferName(name))
  {
    BufferQuoted(tag, ToLispString(name));
    LispStringRoundTrip(name);
  }

  lemma BufferQuoted(tag: string, quoted: string)
    requires Lower(DropFirst(tag)) == "buffer"
    ensures var buffer := List([Sym(tag), Str(quoted)]);
      Tag(buffer, 0) == Some("buffer") && DecodeBuffer("buffer", buffer) == Some(BufferName(FromLispString(quoted)))
  {
  }

  /** `(:source-form "form")`, tag in any case: the form text, unquoted. */
  lemma SourceFormReply(tag: string, form: string)
    requires Lower(DropFirst(tag)) == "source-form"
    ensures var buffer := List([Sym(tag), Str(ToLispString(form))]);
      Tag(buffer, 0) == Some("source-form") && DecodeBuffer("source-form", buffer) == Some(SourceForm(form))
  {
    SourceFormQuoted(tag, ToLispString(form));
    LispStringRoundTrip(form);
  }

  lemma SourceFormQuoted(tag: string, quoted: string)
    requires Lower(DropFirst(tag)) == "source-form"
    ensures var buffer := List([Sym(tag), Str(quoted)]);
      Tag(buffer, 0) == Some("source-form") && DecodeBuffer("source-form", buffer) == Some(SourceForm(FromLispString(quoted)))
  {
  }

  /** `(:function-name f)`: the function is element 1's text as written, not
      unquoted; a list there gives an undefined function. */
  lemma FunctionNameReply(f: Node, rest: seq<Node>)
    ensures DecodePosition("function-name", List([Keyword("function-name"), f] + rest))
      == Some(("function-name", FunctionName(if f.List? then None else Some(f.src))))
  {
    var p := List([Keyword("function-name"), f] + rest);
    assert p.children[1] == f;
  }

  /** `(:source_path path start)`: the path list is always empty and the start
      is element 2's text. */
  lemma SourcePathStartReply(path: Node, start: string, rest: seq<Node>)
    ensures DecodePosition("source_path", List([Keyword("source_path"), path, Sym(start)] + rest))
      == Some(("source_path", SourcePath([], Some(start))))
  {
    var p := List([Keyword("source_path"), path, Sym(start)] + rest);
    assert p.children[2] == Sym(start);
  }

  /** `(:method name specializers q1 q2 ...)`: the name and the qualifiers are the
      texts of their atoms; the specializers are always empty. */
  lemma MethodReply(name: string, specializers: Node, qualifiers: seq<string>)
    ensures var quals := seq(|qualifiers|, i requires 0 <= i < |qualifiers| => Sym(qualifiers[i]));
      DecodePosition("method", List([Keyword("method"), Sym(name), specializers] + quals))
      == Some(("method", Method(Some(name), [], seq(|qualifiers|, i requires 0 <= i < |qualifiers| => Some(qualifiers[i])))))
  {
    var quals := seq(|qualifiers|, i requires 0 <= i < |qualifiers| => Sym(qualifiers[i]));
    var p := List([Keyword("method"), Sym(name), specializers] + quals);
    assert p.children[1] == Sym(name);
    assert p.children[3..] == quals;
    assert Sources(quals) == seq(|qualifiers|, i requires 0 <= i < |qualifiers| => Some(qualifiers[i]));
  }
}
