/** The parsed s-expression tree that the client consumes. The parser itself is
    external; its output is modelled by this datatype. An atom keeps its raw source
    text (a string atom keeps its quotes); a list has children and no source. */
module Sexp {
  import opened Wrappers

  datatype Node =
    | Sym(src: string)           // symbols, keywords and numbers
    | Str(src: string)           // string literals, quotes included
    | List(children: seq<Node>)

  /** A keyword symbol such as `:return`. */
  function Keyword(name: string): Node {
    Sym(":" + name)
  }

  /** `n.children`: undefined (None) on an atom. */
  function Children(n: Node): (r: Option<seq<Node>>)
    ensures r.Some? <==> n.List?
  {
    if n.List? then Some(n.children) else None
  }

  /** `n.children[i]` when it is about to be dereferenced: None when `n` is an atom
      (the indexing throws) or when the child is missing (undefined). */
  function Child(n: Node, i: nat): (r: Option<Node>)
    ensures r.Some? <==> n.List? && i < |n.children|
    ensures r.Some? ==> r.value < n
  {
    if n.List? && i < |n.children| then Some(n.children[i]) else None
  }

  /** `n.source`: undefined (None) on a list. */
  function Source(n: Node): (r: Option<string>)
    ensures r.Some? <==> !n.List?
  {
    if n.List? then None else Some(n.src)
  }

  /** `n.children[i].source` when the result is then used as a string (sliced,
      lower-cased): None when anything on the way is missing. */
  function AtomAt(n: Node, i: nat): (r: Option<string>)
    ensures r.Some? <==> n.List? && i < |n.children| && !n.children[i].List?
    ensures r.Some? ==> r.value == n.children[i].src
  {
    var c :- Child(n, i);
    Source(c)
  }

  /** `n.children[i].source` when it is only stored or concatenated: the child must
      exist (else TypeError), but its source may be undefined. */
  function SourceAt(n: Node, i: nat): (r: Option<Option<string>>)
    ensures r.Some? <==> n.List? && i < |n.children|
    ensures r.Some? ==> r.value == Source(n.children[i])
  {
    var c :- Child(n, i);
    Some(Source(c))
  }

  /** String concatenation with a value that may be undefined renders it "undefined". */
  function Show(x: Option<string>): (r: string)
    ensures x.Some? ==> r == x.value
  {
    match x
    case Some(s) => s
    case None => "undefined"
  }

  /** `nodes.forEach(n => out.push(decode(n)))` where `decode` may throw: the whole
      result exists exactly when every element decodes, and then it is the list of
      the decoded elements, in order. */
  function MapAll<T>(nodes: seq<Node>, decode: Node -> Option<T>): (r: Option<seq<T>>)
    ensures r.Some? <==> forall i :: 0 <= i < |nodes| ==> decode(nodes[i]).Some?
    ensures r.Some? ==> |r.value| == |nodes|
    ensures r.Some? ==> forall i :: 0 <= i < |nodes| ==> r.value[i] == decode(nodes[i]).value
  {
    if |nodes| == 0 then Some([])
    else
      var head :- decode(nodes[0]);
      var tail :- MapAll(nodes[1..], decode);
      assert forall i :: 1 <= i < |nodes| ==> nodes[i] == nodes[1..][i - 1];
      Some([head] + tail)
  }

  /** Mapping a list built element by element from values that decode gives back
      those values. */
  lemma MapAllInverse<T>(nodes: seq<Node>, decode: Node -> Option<T>, values: seq<T>)
    requires |nodes| == |values|
    requires forall i :: 0 <= i < |nodes| ==> decode(nodes[i]) == Some(values[i])
    ensures MapAll(nodes, decode) == Some(values)
  {
    var r := MapAll(nodes, decode);
    assert r.Some?;
    assert forall i :: 0 <= i < |values| ==> r.value[i] == values[i];
    assert r.value == values;
  }
}
