/**
 * HandlerFactory (src/Handlers/HandlerFactory.php): from a node kind to the
 * handler class that evaluates it, by building the class name from a fixed
 * namespace prefix and remembering the classes found.
 */
module HandlerFactory {
  import opened Wrappers
  import opened Ast

  /** The namespace under which handler classes live. */
  const Prefix: string := "\\Smuuf\\Primi\\Handlers\\Kinds"

  datatype EngineInternalError = EngineInternalError(message: string)

  /** `getClassName`: the prefix, a namespace separator, then the node name. */
  function ClassName(nodeName: string): (c: string)
    ensures |c| == |Prefix| + 1 + |nodeName|
    ensures c[..|Prefix|] == Prefix && c[|Prefix|] == '\\'
    ensures c[|Prefix| + 1..] == nodeName
  {
    Prefix + "\\" + nodeName
  }

  /** Distinct node names never share a class name, so one cache entry never answers for another name. */
  lemma ClassNameInjective(a: string, b: string)
    requires ClassName(a) == ClassName(b)
    ensures a == b
  {
    assert a == ClassName(a)[|Prefix| + 1..];
  }

  function NotFound(name: string): EngineInternalError
  {
    EngineInternalError("Handler type '" + name + "' not found")
  }

  /**
   * What `getFor` answers given the set of handler classes that exist: the
   * class when it exists, otherwise an engine error (strict) or null (lenient).
   */
  function Resolve(known: set<string>, name: string, strict: bool): (r: Result<Option<string>, EngineInternalError>)
    ensures r.Success? && r.value.Some? <==> ClassName(name) in known
    ensures r.Success? && r.value.Some? ==> r.value.value == ClassName(name)
    ensures r.Failure? <==> strict && ClassName(name) !in known
    ensures r.Failure? ==> r.error == NotFound(name)
  {
    if ClassName(name) in known then Success(Some(ClassName(name)))
    else if strict then Failure(NotFound(name))
    else Success(None)
  }

  /** A strict lookup never comes back empty-handed: it finds the class or fails. */
  lemma StrictNeverEmpty(known: set<string>, name: string)
    ensures Resolve(known, name, true).Success? ==> Resolve(known, name, true).value.Some?
  {
  }

  class HandlerFactory {
    /** The handler classes that exist (what `class_exists` would report). */
    const known: set<string>
    /** `$handlersCache`: node name to the handler class found for it. */
    var cache: map<string, string>

    /** Every cached entry is the class its name leads to, and that class exists. */
    ghost predicate Valid()
      reads this
    {
      forall name | name in cache :: cache[name] == ClassName(name) && cache[name] in known
    }

    constructor (known: set<string>)
      ensures this.known == known && cache == map[]
      ensures Valid()
    {
      this.known := known;
      cache := map[];
    }

    /**
     * `getFor`: the answer never depends on what is cached (so two lookups of
     * one name agree); a cached name is answered without probing and leaves the
     * cache alone; a found class is stored under its name; a missing class is
     * never stored.
     */
    method GetFor(name: string, strict: bool := true) returns (r: Result<Option<string>, EngineInternalError>)
      requires Valid()
      modifies this`cache
      ensures Valid()
      ensures r == Resolve(known, name, strict)
      ensures name in old(cache) ==> cache == old(cache)
      ensures ClassName(name) !in known ==> cache == old(cache)
      ensures ClassName(name) in known ==> cache == old(cache)[name := ClassName(name)]
    {
      if name in cache {
        return Success(Some(cache[name]));
      }
      var className := ClassName(name);
      if className !in known {
        if strict {
          return Failure(NotFound(name));
        }
        return Success(None);
      }
      cache := cache[name := className];
      return Success(Some(className));
    }

    /**
     * `runNode`: a strict lookup on the node's name, then the handler's `run`
     * (abstract here) on the node.
     */
    method RunNode<R>(node: Node, run: (string, Node) -> R) returns (r: Result<R, EngineInternalError>)
      requires Valid()
      requires HasName(node)
      modifies this`cache
      ensures Valid()
      ensures ClassName(NameOf(node)) in known ==> r == Success(run(ClassName(NameOf(node)), node))
      ensures ClassName(NameOf(node)) !in known ==> r == Failure(NotFound(NameOf(node)))
      ensures cache == if ClassName(NameOf(node)) in known then old(cache)[NameOf(node) := ClassName(NameOf(node))] else old(cache)
    {
      var handler := GetFor(NameOf(node));
      if handler.Failure? {
        return Failure(handler.error);
      }
      return Success(run(handler.value.value, node));
    }
  }
}
