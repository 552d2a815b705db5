/**
 * AST nodes as the parser hands them over: PHP arrays. A node is a
 * dictionary from keys ("name", "text", "params", ...) to fields.
 */
module Ast {

  /** A field of a node array: text, a nested dictionary, a list, or PHP null. */
  datatype Field =
    | Text(text: string)
    | Dict(entries: map<string, Field>)
    | List(items: seq<Field>)
    | Null

  type Node = map<string, Field>

  /** A node carries its kind as text under "name". */
  predicate HasName(node: Node)
  {
    "name" in node && node["name"].Text?
  }

  /** `$node['name']`: the node's kind. */
  function NameOf(node: Node): string
    requires HasName(node)
  {
    node["name"].text
  }
}
