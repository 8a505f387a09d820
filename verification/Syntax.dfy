/** The parse trees yagmin works on (yagtemplate/parse/node.go), and the values literals denote. */
module Syntax {

  /** A value a template computes. A container is a dict, an sdict or a cslice, by reference:
      what it holds is part of the world the oracle answers for, and so is every other value. */
  datatype Value =
    | NoValue                 // reflect's invalid Value
    | Text(s: string)
    | Container(id: int)
    | Other(id: int)

  /** An operand. A path is the field names after it; `Field([])` is the dot. */
  datatype Arg =
    | Nil
    | Str(text: string)
    | Lit(value: Value)       // a number, a boolean
    | Field(fieldPath: seq<string>)
    | Ident(name: string)
    | Var(varName: string, varPath: seq<string>)
    | Paren(pipe: Pipe)
    | Chain(node: Arg, chainPath: seq<string>)

  datatype Command = Command(args: seq<Arg>)

  /** A pipeline; `isAssign` tells `$x = v` from `$x := v`. */
  datatype Pipe = Pipe(isAssign: bool, decl: seq<string>, cmds: seq<Command>)

  datatype BranchKind = If | With | Range | While

  /** A node of a list. A list that is missing in the source (no else) is empty here. */
  datatype Node =
    | TextNode(text: string)
    | Action(pipe: Pipe)
    | Branch(kind: BranchKind, pipe: Pipe, list: seq<Node>, elseList: seq<Node>)
    | Try(list: seq<Node>, catchList: seq<Node>)
    | Return(pipes: seq<Pipe>)            // no pipe, or one
    | Template(name: string, pipes: seq<Pipe>)
    | Break
    | Continue

  /** One of a file's trees: the command's own, or a define's. */
  datatype Tree = Tree(name: string, root: seq<Node>, isMain: bool)

  predicate IsDefine(trees: seq<Tree>, name: string) {
    exists i :: 0 <= i < |trees| && !trees[i].isMain && trees[i].name == name
  }
}
