/** Edges between interest points and wiki pages, as the store lists them. */
module Graph {
  type Id = string

  datatype Kind = Related | Contradicts | Sequel | References | HasPage

  datatype Edge = Edge(source: Id, target: Id, kind: Kind, weight: real)

  /** What one reader sees of the edge table: the lists the two queries answer with.  A
    * query that fails is read as an empty list, as its callers read it. */
  datatype Links = Links(outs: Id -> seq<Edge>, ins: Id -> seq<Edge>)
}
