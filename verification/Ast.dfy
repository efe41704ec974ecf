// The syntax tree that the parser hands to the interpreter.
module Ast {
  import opened Prelude

  type Name = string

  // A described type.  A struct type carries its printed name, which for a
  // generic instance already contains the printed arguments ("Box<int>").
  datatype TypeDesc =
    | IntType
    | FloatType
    | BoolType
    | StringType
    | ErrorType
    | NilType
    | VoidType
    | StructType(name: Name, args: seq<TypeDesc>)
    | ArrayType(element: Option<TypeDesc>)

  // The printed form of a type, which is also how types are compared.
  function ToString(t: TypeDesc): string {
    match t
    case IntType => "int"
    case FloatType => "float"
    case BoolType => "bool"
    case StringType => "string"
    case ErrorType => "Error"
    case NilType => "nil"
    case VoidType => "void"
    case StructType(name, _) => name
    case ArrayType(None) => "Array<?>"
    case ArrayType(Some(element)) => "Array<" + ToString(element) + ">"
  }

  datatype Literal =
    | IntLit(i: int)
    | FloatLit(r: real)
    | BoolLit(b: bool)
    | StringLit(s: string)

  datatype BinaryOp = Add | Sub | Mul | Div | Eq | Ne | Lt | Gt | Le | Ge | And | Or

  datatype UnaryOp = Not | Neg

  datatype Expr =
    | Lit(literal: Literal)
    | NilLit
    | Var(name: Name)
    | Binary(bop: BinaryOp, left: Expr, right: Expr)
    | Unary(uop: UnaryOp, operand: Expr)
    | Member(obj: Expr, member: Name)
    | MethodCall(obj: Expr, method_: Name, args: seq<Expr>)
    | Index(obj: Expr, index: Expr)
    | Call(function_: Name, arguments: seq<Arg>)

  // A call argument; a positional one has no name.
  datatype Arg = Arg(name: Option<Name>, value: Expr)

  datatype Target =
    | VarTarget(name: Name)
    | FieldTarget(obj: Expr, field: Name)

  datatype VarDeclaration = VarDeclaration(ty: TypeDesc, name: Name, init: Option<Expr>)

  datatype Stmt =
    | VarDecl(decl: VarDeclaration)
    | Assign(targets: seq<Target>, value: Expr)
    | FieldAssign(obj: Expr, field: Name, value: Expr)
    | ExprStmt(expr: Expr)
    | If(condition: Expr, thenBody: seq<Stmt>, elseBody: seq<Stmt>)
    | Transition(target: Name, params: seq<Expr>)
    | Terminal

  datatype Param = Param(ty: TypeDesc, name: Name, default: Option<Expr>)

  datatype Routine = Routine(name: Name, inputs: seq<Param>, outputs: seq<Param>, body: seq<Stmt>)

  datatype StructDecl = StructDecl(name: Name, params: seq<Name>, fields: seq<VarDeclaration>, routines: seq<Routine>)

  datatype StateDecl = StateDecl(name: Name, params: seq<Param>, body: seq<Stmt>)

  datatype Autotuner = Autotuner(name: Name, inputs: seq<Param>, outputs: seq<Param>,
                                 variables: seq<VarDeclaration>, entry: Name, entryParams: seq<Expr>,
                                 states: seq<StateDecl>)

  // The first routine of a struct with the given name.
  function FindRoutine(routines: seq<Routine>, name: Name): Option<Routine> {
    if routines == [] then None
    else if routines[0].name == name then Some(routines[0])
    else FindRoutine(routines[1..], name)
  }

  function FindState(states: seq<StateDecl>, name: Name): Option<StateDecl> {
    if states == [] then None
    else if states[0].name == name then Some(states[0])
    else FindState(states[1..], name)
  }

  // The text before the first '<', or the whole text.
  function BaseName(name: Name): Name {
    if name == "" || name[0] == '<' then "" else [name[0]] + BaseName(name[1..])
  }

  predicate IsQualified(name: Name) {
    |name| >= 2 && ((name[0] == ':' && name[1] == ':') || IsQualified(name[1..]))
  }

  // The text after the first "::", or the whole text.
  function StripModule(name: Name): Name {
    if !IsQualified(name) then name
    else if name[0] == ':' && name[1] == ':' then name[2..]
    else StripModule(name[1..])
  }
}
