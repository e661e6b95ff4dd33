/** The selection tree built from a `fields` request: field nodes with optional
    modifiers and optional child nodes, under a root that holds the top-level list. */
module Fields {

  datatype Option<+T> = None | Some(value: T)

  /** The value of a modifier: the text between parentheses, or PHP's `true`
      when the segment carries no parenthesised argument. */
  datatype ModValue = Flag | Text(text: string)

  /** One `.name` or `.name(value)` segment of a field path. The name is
      `None` when the segment holds no character other than `(` (the PHP
      pattern does not match and the name is read from a missing group). */
  datatype Modifier = Modifier(name: Option<string>, value: ModValue)

  /** The `fields` attribute of a node: unset until a child node is attached. */
  datatype Children = NoChildren | Children(nodes: seq<Field>)

  /** A field node. `modifiers` is absent when the path has no `.`. */
  datatype Field = Field(name: string, modifiers: Option<seq<Modifier>>, fields: Children)

  /** The root object: it always carries a (possibly empty) `fields` list. */
  datatype Filter = Filter(fields: seq<Field>)

  /** What a single match contributes to a node: its name and modifiers. */
  datatype Head = Head(name: string, modifiers: Option<seq<Modifier>>)

  function HeadOf(f: Field): Head {
    Head(f.name, f.modifiers)
  }

  /** The heads of a forest in pre-order: a node, then its children, then its
      next sibling. This is the order in which the parser meets them. */
  function Heads(fs: seq<Field>): (hs: seq<Head>)
    ensures fs != [] ==> hs != [] && hs[0] == HeadOf(fs[0])
  {
    if fs == [] then [] else SubtreeHeads(fs[0]) + Heads(fs[1..])
  }

  /** The heads of one node's subtree in pre-order. */
  function SubtreeHeads(f: Field): (hs: seq<Head>)
    ensures hs != [] && hs[0] == HeadOf(f)
  {
    [HeadOf(f)] + (if f.fields.Children? then Heads(f.fields.nodes) else [])
  }
}
