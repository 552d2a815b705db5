/**
 * AnonymousFunction (src/handlers/AnonymousFunction.php): the `reduce` pass that
 * normalises a function literal's parameter list before the literal is first
 * evaluated. Afterwards `params` is a plain list holding each parameter
 * node's `text`.
 */
module AnonymousFunction {
  import opened Ast

  /**
   * `ensure_indexed`, reconstructed (its definition is not part of this model):
   * a PHP array whose element 0 is set is kept as it is; any other value (a
   * single dictionary node, an empty list, a list whose first element is null)
   * becomes a one-element list around it.
   */
  function EnsureIndexed(f: Field): (items: seq<Field>)
    ensures |items| >= 1
  {
    if f.List? && |f.items| > 0 && f.items[0] != Null then f.items else [f]
  }

  /**
   * What `ensure_indexed` returns is already indexed: passed through it again
   * (as a list) it comes back unchanged, unless it is the wrapped null.
   */
  lemma EnsureIndexedIsNormalForm(f: Field)
    requires f != Null
    ensures EnsureIndexed(f)[0] != Null
    ensures EnsureIndexed(List(EnsureIndexed(f))) == EnsureIndexed(f)
  {
  }

  /** `$p['text']`: the "text" entry of a dictionary node, and null for anything without one. */
  function TextOf(p: Field): Field
  {
    if p.Dict? && "text" in p.entries then p.entries["text"] else Null
  }

  /** `isset($node['params'])`: the key is there and not null. */
  predicate HasParams(node: Node)
  {
    "params" in node && node["params"] != Null
  }

  /** The parameter nodes `reduce` walks over, in order. */
  function IndexedParams(node: Node): seq<Field>
  {
    if HasParams(node) then EnsureIndexed(node["params"]) else []
  }

  /**
   * The parameter lists the parser builds: absent, one parameter node or a
   * list of them. Text in place of a parameter node is not something the
   * parser produces.
   */
  predicate WellFormedParams(node: Node)
  {
    && (HasParams(node) ==> !node["params"].Text?)
    && forall p | p in IndexedParams(node) :: !p.Text?
  }

  /** The node as `reduce` leaves it. */
  function Reduced(node: Node): Node
  {
    var indexed := IndexedParams(node);
    node["params" := List(seq(|indexed|, i requires 0 <= i < |indexed| => TextOf(indexed[i])))]
  }

  /**
   * `reduce(&$node)`: collect the `text` of each parameter node into a fresh
   * list and store it under `params`; nothing else in the node is written.
   */
  method Reduce(node: Node) returns (reduced: Node)
    requires WellFormedParams(node)
    ensures reduced.Keys == node.Keys + {"params"}
    ensures forall k | k in node && k != "params" :: reduced[k] == node[k]
    ensures reduced["params"].List?
    ensures |reduced["params"].items| == |IndexedParams(node)|
    ensures forall i | 0 <= i < |IndexedParams(node)| :: reduced["params"].items[i] == TextOf(IndexedParams(node)[i])
    ensures reduced == Reduced(node)
  {
    var params: seq<Field> := [];
    if "params" in node && node["params"] != Null {
      var indexed := EnsureIndexed(node["params"]);
      var i := 0;
      while i < |indexed|
        invariant 0 <= i <= |indexed|
        invariant |params| == i
        invariant forall j | 0 <= j < i :: params[j] == TextOf(indexed[j])
      {
        params := params + [TextOf(indexed[i])];
        i := i + 1;
      }
    }
    ghost var indexed := IndexedParams(node);
    assert params == seq(|indexed|, i requires 0 <= i < |indexed| => TextOf(indexed[i]));
    reduced := node["params" := List(params)];
  }

  /** When every parameter node carries its name as text, `params` becomes a list of those names. */
  lemma ParamsBecomeNames(node: Node)
    requires forall p | p in IndexedParams(node) :: p.Dict? && "text" in p.entries && p.entries["text"].Text?
    ensures forall f | f in Reduced(node)["params"].items :: f.Text?
    ensures |Reduced(node)["params"].items| == |IndexedParams(node)|
  {
    var items := Reduced(node)["params"].items;
    forall f | f in items
      ensures f.Text?
    {
      var i :| 0 <= i < |items| && items[i] == f;
      assert IndexedParams(node)[i] in IndexedParams(node);
    }
  }

  /** Without parameters, `params` becomes the empty list. */
  lemma NoParamsGiveEmptyList(node: Node)
    requires !HasParams(node)
    ensures Reduced(node)["params"] == List([])
  {
  }

  /** A single parameter node, not wrapped in a list, is treated as a one-element list. */
  lemma SingleParamIsWrapped(node: Node, entries: map<string, Field>)
    requires "params" in node && node["params"] == Dict(entries)
    ensures Reduced(node)["params"] == List([TextOf(Dict(entries))])
  {
  }

  /**
   * `reduce` is not idempotent: run again on its own output it does not
   * always give the same node. The empty list it makes for a
   * parameterless literal is an array without element 0, which a second run
   * wraps into a list holding one parameter whose text is null.
   */
  lemma ReduceNotIdempotent()
    ensures WellFormedParams(map[]) && WellFormedParams(Reduced(map[]))
    ensures Reduced(map[]) == map["params" := List([])]
    ensures Reduced(Reduced(map[])) == map["params" := List([Null])]
    ensures Reduced(Reduced(map[])) != Reduced(map[])
  {
    var none: seq<Field> := [];
    assert seq(|none|, i requires 0 <= i < |none| => TextOf(none[i])) == [];
    var once := Reduced(map[]);
    assert once == map["params" := List([])];
    var wrapped := IndexedParams(once);
    assert wrapped == [List([])];
    assert seq(|wrapped|, i requires 0 <= i < |wrapped| => TextOf(wrapped[i])) == [Null];
    assert List([Null]).items != List([]).items;
  }
}
