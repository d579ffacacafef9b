/** Parsed GraphQL documents: what the parser produces and the analyser walks. */
module GraphqlDocument {
  /** A field with children, a fragment spread, or an inline fragment; the unused parts stay empty. */
  datatype Selection = Selection(field: string, children: seq<Selection>, spread: string, inlined: bool)

  function Field(name: string, children: seq<Selection>): Selection { Selection(name, children, "", false) }

  function Spread(name: string): Selection { Selection("", [], name, false) }

  function Inline(children: seq<Selection>): Selection { Selection("", children, "", true) }

  type Fragments = map<string, seq<Selection>>

  datatype Operation = Operation(typ: string, name: string, variables: map<string, string>, selections: seq<Selection>)

  datatype Document = Document(operations: seq<Operation>, fragments: Fragments)

  const MAX_FIELDS := 2048
}
