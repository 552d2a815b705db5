/**
 * Vector (src/handlers/Vector.php): resolution of a right-nested chain of
 * index segments `subject[k1][k2]...[kn]` in a write context. Every segment
 * but the last fetches the child at its key and hands it to the next segment;
 * the last one returns an insertion proxy for its key.
 */
module Vector {
  import opened Wrappers

  /**
   * One segment of the chain: the index expression, the deeper chain node
   * (`$node['vector']`, absent on the leaf) and the node's source position.
   */
  datatype ChainNode<X> = ChainNode(index: X, vector: Option<ChainNode<X>>, position: nat)

  /** The result of `arrayGet` or `getInsertionProxy`: the item, or InternalUndefinedIndexException. */
  datatype Fetch<T> = Found(item: T) | Missing(message: string)

  datatype ChainError =
    | ErrorAt(message: string, position: nat)        // ErrorException carrying the node
    | UndefinedIndex(message: string, position: nat) // UndefinedIndexException carrying the node
    | Raised(message: string)                        // an error of the index expression, passed on as it is

  /** What values offer to the resolver (the ISupportsKeyAccess interface and the type name). */
  datatype Containers<!V, !K, !P> = Containers(
    keyed: V -> bool,
    typeName: V -> string,
    arrayGet: (V, K) -> Fetch<V>,
    insertionProxy: (V, K) -> Fetch<P>)

  function CannotInsert(typeName: string, position: nat): ChainError
  {
    ErrorAt("Cannot insert into '" + typeName + "'", position)
  }

  /**
   * `chain`: check that the subject supports keyed access, evaluate the key
   * (`keyOf`: the index handler followed by `getInternalValue`), then either
   * return the proxy (leaf) or fetch the child and recurse. A missing key in
   * this segment's own proxy or fetch becomes an undefined-index error at this
   * node; errors from deeper segments are passed on unchanged.
   */
  function Chain<X, V, K, P>(node: ChainNode<X>, subject: V, c: Containers<V, K, P>, keyOf: (X, V) -> Result<K, ChainError>)
    : (r: Result<P, ChainError>)
    ensures Descend(node, subject, c, keyOf).Failure? ==> r == Failure(Descend(node, subject, c, keyOf).error)
    ensures r.Success? ==> Descend(node, subject, c, keyOf).Success? && c.keyed(Descend(node, subject, c, keyOf).value)
    decreases node
  {
    if !c.keyed(subject) then Failure(CannotInsert(c.typeName(subject), node.position))
    else
      match keyOf(node.index, subject)
      case Failure(e) => Failure(e)
      case Success(key) =>
        match node.vector
        case None =>
          (match c.insertionProxy(subject, key)
           case Found(proxy) => Success(proxy)
           case Missing(m) => Failure(UndefinedIndex(m, node.position)))
        case Some(deeper) =>
          match c.arrayGet(subject, key)
          case Missing(m) => Failure(UndefinedIndex(m, node.position))
          case Found(next) => Chain(deeper, next, c, keyOf)
  }

  /** The last segment of the chain. */
  function Leaf<X>(node: ChainNode<X>): (leaf: ChainNode<X>)
    ensures leaf.vector.None?
    decreases node
  {
    match node.vector
    case None => node
    case Some(deeper) => Leaf(deeper)
  }

  /** The positions of all segments of the chain. */
  function Positions<X>(node: ChainNode<X>): set<nat>
    decreases node
  {
    {node.position} + match node.vector
                      case None => {}
                      case Some(deeper) => Positions(deeper)
  }

  /**
   * The read half of the walk: from the subject, fetch through every segment
   * but the last and give the subject the leaf segment works on. Never asks
   * for a proxy.
   */
  function Descend<X, V, K, P>(node: ChainNode<X>, subject: V, c: Containers<V, K, P>, keyOf: (X, V) -> Result<K, ChainError>)
    : Result<V, ChainError>
    decreases node
  {
    match node.vector
    case None => Success(subject)
    case Some(deeper) =>
      if !c.keyed(subject) then Failure(CannotInsert(c.typeName(subject), node.position))
      else
        match keyOf(node.index, subject)
        case Failure(e) => Failure(e)
        case Success(key) =>
          match c.arrayGet(subject, key)
          case Missing(m) => Failure(UndefinedIndex(m, node.position))
          case Found(next) => Descend(deeper, next, c, keyOf)
  }

  /**
   * Resolving a chain is descending to the leaf's subject and resolving the
   * leaf segment alone there: only the leaf ever asks for a proxy, and every
   * other segment only fetches.
   */
  lemma {:induction false} ChainIsDescentThenLeaf<X, V, K, P>(node: ChainNode<X>, subject: V, c: Containers<V, K, P>, keyOf: (X, V) -> Result<K, ChainError>)
    ensures Chain(node, subject, c, keyOf) ==
      match Descend(node, subject, c, keyOf)
      case Failure(e) => Failure(e)
      case Success(v) => Chain(Leaf(node), v, c, keyOf)
    decreases node
  {
    match node.vector
    case None =>
    case Some(deeper) =>
      if c.keyed(subject) {
        match keyOf(node.index, subject)
        case Failure(_) =>
        case Success(key) =>
          match c.arrayGet(subject, key)
          case Missing(_) =>
          case Found(next) => ChainIsDescentThenLeaf(deeper, next, c, keyOf);
      }
  }

  /**
   * Errors raised by the resolver itself carry the position of one of the
   * chain's segments: the one whose subject, fetch or proxy failed.
   */
  lemma {:induction false} ErrorsCarryChainPosition<X, V, K, P>(node: ChainNode<X>, subject: V, c: Containers<V, K, P>, keyOf: (X, V) -> Result<K, ChainError>)
    requires Chain(node, subject, c, keyOf).Failure?
    requires !Chain(node, subject, c, keyOf).error.Raised?
    requires forall x, v :: keyOf(x, v).Failure? ==> keyOf(x, v).error.Raised?
    ensures Chain(node, subject, c, keyOf).error.position in Positions(node)
    decreases node
  {
    if c.keyed(subject) && keyOf(node.index, subject).Success? {
      var key := keyOf(node.index, subject).value;
      match node.vector
      case None =>
      case Some(deeper) =>
        match c.arrayGet(subject, key)
        case Missing(_) =>
        case Found(next) => ErrorsCarryChainPosition(deeper, next, c, keyOf);
    }
  }

  /** A subject without keyed access fails at once, whatever the index expression would do. */
  lemma NonKeyedSubjectFailsFirst<X, V, K, P>(node: ChainNode<X>, subject: V, c: Containers<V, K, P>, keyOf: (X, V) -> Result<K, ChainError>, keyOf': (X, V) -> Result<K, ChainError>)
    requires !c.keyed(subject)
    ensures Chain(node, subject, c, keyOf) == Chain(node, subject, c, keyOf')
      == Failure(ErrorAt("Cannot insert into '" + c.typeName(subject) + "'", node.position))
  {
  }

  /** A leaf segment never fetches: its result does not depend on `arrayGet`. */
  lemma LeafNeverFetches<X, V, K, P>(node: ChainNode<X>, subject: V, c: Containers<V, K, P>, arrayGet': (V, K) -> Fetch<V>, keyOf: (X, V) -> Result<K, ChainError>)
    requires node.vector.None?
    ensures Chain(node, subject, c, keyOf) == Chain(node, subject, c.(arrayGet := arrayGet'), keyOf)
  {
  }

  /**
   * Two-level chain whose fetched child lacks keyed access: a type error at
   * the second segment, before its index expression is evaluated.
   */
  lemma ChildWithoutKeyedAccess<X, V, K, P>(node: ChainNode<X>, subject: V, c: Containers<V, K, P>, keyOf: (X, V) -> Result<K, ChainError>)
    requires node.vector.Some? && c.keyed(subject) && keyOf(node.index, subject).Success?
    requires c.arrayGet(subject, keyOf(node.index, subject).value).Found?
    requires !c.keyed(c.arrayGet(subject, keyOf(node.index, subject).value).item)
    ensures Chain(node, subject, c, keyOf) ==
      Failure(CannotInsert(c.typeName(c.arrayGet(subject, keyOf(node.index, subject).value).item), node.vector.value.position))
  {
  }

  /** A missing key at the leaf is an undefined-index error carrying the leaf's position. */
  lemma MissingLeafKey<X, V, K, P>(node: ChainNode<X>, subject: V, c: Containers<V, K, P>, keyOf: (X, V) -> Result<K, ChainError>)
    requires node.vector.None? && c.keyed(subject) && keyOf(node.index, subject).Success?
    requires c.insertionProxy(subject, keyOf(node.index, subject).value).Missing?
    ensures Chain(node, subject, c, keyOf) ==
      Failure(UndefinedIndex(c.insertionProxy(subject, keyOf(node.index, subject).value).message, node.position))
  {
  }
}
