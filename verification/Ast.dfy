/** The syntax tree (crates/compiler-core/src/ast.rs). Spans are kept where the code
    generator reads them: they name its hidden variables. */
module Ast {
  import opened Results
  import opened Bytecode

  datatype BinaryOperator =
    | Power | Multiply | Divide | IntegerDivide | Remainder | Add | Subtract
    | Greater | Less | GreaterOrEqual | LessOrEqual | Equal | NotEqual | And | Or | Dot

  datatype UnaryOperator = Minus | Plus | Negation | Length

  datatype Expr =
    | IntegerLit(int64: int)
    | BooleanLit(flag: bool)
    | RealLit(double: F64)
    | TextLit(bytes: seq<Byte>)
    | NullLit
    | Name(name: string)
    | Binary(operator: BinaryOperator, left: Expr, right: Expr)
    | Unary(unary: UnaryOperator, operand: Expr)
    | TupleConstruct(elements: seq<Expr>)
    | FunctionCall(function_: Expr, arguments: seq<Expr>)
    | Subscript(collection: Expr, index: Expr)
    | SliceExpr(collection: Expr, from: MaybeExpr, to: MaybeExpr)

  datatype MaybeExpr = Absent | Present(expr: Expr)

  datatype LValue =
    | NameTarget(name: string)
    | SubscriptTarget(collection: Expr, index: Expr)
    | SliceTarget(collection: Expr, from: MaybeExpr, to: MaybeExpr)
    | FieldTarget(left: Expr, field: string)

  datatype Span = Span(start: nat, end: nat)

  datatype LoopHeader =
    | While(condition: Expr)
    | Repeat(count: Expr, span: Span)
    | For(variable: string, from: MaybeExpr, to: MaybeExpr, step: MaybeExpr)

  datatype Stmt =
    | Empty
    | Declaration(target: LValue, value: Expr)
    | Assignment(target: LValue, value: Expr)
    | ProcedureCall(procedure: Expr, arguments: seq<Expr>)
    | Conditional(condition: Expr, thenBody: seq<Stmt>, elseBody: MaybeBody)
    | ValueMatch(span: Span, subject: Expr, cases: seq<Case>, elseBody: MaybeBody)
    | Loop(header: LoopHeader, body: seq<Stmt>)
    | Output(noNewline: bool, values: seq<Expr>)
    | Input(textMode: bool, variables: seq<LValue>)
    | ExitLoop
    | ReturnFromProcedure
    | ReturnFromFunction(result: Expr)
    | Import(module_: string, definitions: seq<string>)

  datatype MaybeBody = NoBody | Body(stmts: seq<Stmt>)

  datatype Case = Case(values: seq<Expr>, body: seq<Stmt>)

  datatype FunctionDef = FunctionDef(name: string, parameters: seq<string>, body: seq<Stmt>)

  predicate IsWhile(s: Stmt) { s.Loop? && s.header.While? }

  predicate IsRepeat(s: Stmt) { s.Loop? && s.header.Repeat? }

  predicate IsFor(s: Stmt) { s.Loop? && s.header.For? }
}
