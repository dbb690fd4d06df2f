/** The template record every pipeline stage reads and updates, and the fatal errors of a compile. */
module Model {
  import opened Ast
  import opened Tokens
  import opened Strings

  /** An `@import` edge as the importer records it. */
  datatype ChildEdge = ChildEdge(index: nat, path: string, raws: string, start: Pos, end: Pos)

  /** The template indices of a list of edges, in order. */
  function Indices(es: seq<ChildEdge>): seq<nat>
    decreases |es|
  {
    if |es| == 0 then [] else [es[0].index] + Indices(es[1..])
  }

  lemma {:induction false} IndicesAppend(a: seq<ChildEdge>, b: seq<ChildEdge>)
    ensures Indices(a + b) == Indices(a) + Indices(b)
    decreases |a|
  {
    if |a| > 0 {
      IndicesAppend(a[1..], b);
      assert (a + b)[1..] == a[1..] + b;
    } else {
      assert a + b == b;
    }
  }

  /** The reverse of an `@import` edge, as the imported template records it. */
  datatype ParentEdge = ParentEdge(index: nat, path: string)

  /**
   * One stylesheet of the compile. `tokens` is the encoded stylesheet,
   * `diag` the selector diagnostic ("" when there is none), `needComm` and
   * `commIndex` the chunk fields, `out` and `key` the generated invocation.
   */
  datatype Template = Template(
    path: string,
    content: string,
    children: seq<ChildEdge>,
    parents: seq<ParentEdge>,
    out: string,
    tokens: seq<Token>,
    diag: string,
    key: string,
    needComm: bool,
    commIndex: nat)

  /** A freshly loaded template: no edges, nothing encoded, eligible for the bundle at index 0. */
  function Loaded(path: string, content: string): Template {
    Template(path, content, [], [], "", [], "", "", true, 0)
  }

  /** The fatal errors; the first one raised aborts the whole compile. */
  datatype CompileError =
    | ImportNotFound(target: string, importer: string)
    | CycleImport(trail: seq<string>)
    | ParseFailure(message: string)
    | ReadFailure(message: string)
    | RuntimeFault(what: string)

  /** The message the compile is rejected with. */
  function ErrorMessage(e: CompileError): string {
    match e
    case ImportNotFound(t, i) => "ERR: path `" + t + "` not found from `" + i + "`."
    case CycleImport(trail) => "ERR: exist cycle import " + Join(trail, "->")
    case ParseFailure(m) => m
    case ReadFailure(m) => m
    case RuntimeFault(w) => w
  }
}
