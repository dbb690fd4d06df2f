/**
 * The parsed forms the encoder walks. The stylesheet, selector and value
 * parsers are foreign libraries; these datatypes stand for the trees they
 * produce, with every source position already defaulted to 0 where the
 * parser left it out.
 */
module Ast {

  /** A line/column position in the stylesheet. */
  datatype Pos = Pos(line: int, column: int)

  /** One node of a parsed selector. */
  datatype SelNode =
    | Attribute(attribute: string, operator: string, rawValue: string)
    | Class(name: string)
    | Id(name: string)
    | Tag(name: string)
    | Pseudo(name: string, args: seq<Selector>)
    | Universal(value: string)
    | Combinator(value: string)
    | OtherSel   // nesting, string and comment nodes, which the encoder ignores

  /** A compound selector: its nodes, combinators included, in order. */
  datatype Selector = Selector(nodes: seq<SelNode>)

  /** One node of a parsed declaration value. */
  datatype ValNode =
    | Word(value: string)
    | Str(quote: string, value: string)
    | Div(value: string)
    | ValComment(value: string)
    | Func(name: string, args: seq<ValNode>)
    | Space(value: string)
    | UnicodeRange(value: string)
  {
    /** The node's `value` field (a function's name). */
    function Value(): string {
      match this
      case Word(v) => v
      case Str(_, v) => v
      case Div(v) => v
      case ValComment(v) => v
      case Func(name, _) => name
      case Space(v) => v
      case UnicodeRange(v) => v
    }

    /** The node's `quote` field, empty for every node but a string. */
    function Quote(): string {
      if Str? then quote else ""
    }
  }

  /** One node of a parsed stylesheet. */
  datatype CssNode =
    | Rule(selector: string, selectors: seq<Selector>, start: Pos, nodes: seq<CssNode>)
    | Decl(prop: string, between: string, value: seq<ValNode>, important: bool, rawImportant: string, start: Pos)
    | AtRule(name: string, params: string, nodes: seq<CssNode>, start: Pos, end: Pos)
    | Comment
}
