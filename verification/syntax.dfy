/** A small abstract syntax for the generated Rust code: just enough of
    expressions, types, patterns and function items to state what the code
    generator produces. Token spans, punctuation and every other detail of a
    concrete syntax tree are left out. */
module Syntax {

  datatype Type =
    | Path(name: string)
      /** A tuple type; `()` is the empty tuple. */
    | TupleType(elems: seq<Type>)

  datatype Expr =
      /** `Default::default()` */
    | DefaultValue
      /** `{ ident }` */
    | VarRef(name: string)
      /** `{ ident.clone() }` */
    | CloneOf(name: string)
      /** Whatever the expression generator of a node of kind `kind` yields
          for `args`: an uninterpreted term of its arguments. */
    | Generated(kind: nat, args: seq<Expr>)
      /** `{ state.clone() }` */
    | StateClone
      /** `{ let state: &mut ty = state; *state = value; }` */
    | StoreState(ty: Type, value: Expr)

  datatype Pattern =
      /** `()` */
    | UnitPat
    | IdentPat(name: string)
      /** A tuple of identifier patterns `(a, b, ..)`. */
    | TuplePat(names: seq<string>)

  /** `let pat = value;` */
  datatype Stmt = Let(pat: Pattern, value: Expr)

  datatype FnArg = Arg(name: string, ty: Type)

  datatype ReturnType =
      /** No `-> T`: the function returns `()`. */
    | DefaultReturn
    | Returns(ty: Type)

  /** Parameters and return type of a function (`syn::FnDecl`). */
  datatype FnDecl = FnDecl(inputs: seq<FnArg>, output: ReturnType)

  datatype Signature = Signature(name: string, decl: FnDecl)

  datatype Visibility = Public | Inherited

  type Attribute = string

  datatype Block = Block(stmts: seq<Stmt>)

  datatype ItemFn = ItemFn(attrs: seq<Attribute>, vis: Visibility, sig: Signature, block: Block)

  /** A generated source file: its items in order. */
  datatype File = File(items: seq<ItemFn>)
}
