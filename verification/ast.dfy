/** Syntax tree nodes built by the parser and walked by the interpreter (Ast.java, Parser.java,
    Interpreter.java). */
module Ast {

  datatype Node =
    | Program(body: seq<Node>)
    | NumericLiteral(number: int)
    | Identifier(symbol: string)
    | Atom(name: string)
    | BinaryExpr(left: Node, right: Node, op: string)
    | MatchExpr(toAssigned: Node, value: Node)
    | Tuple(contents: seq<Node>)
}
