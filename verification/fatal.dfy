/** The fatal outcomes of the syntax-tree core. All of them signal a bug in a
    compiler pass, never a user error: the compiler reports them and stops. */
module Fatal {

  datatype Fault =
    | HaveOpt                                   // SetVal on a node that carries optimizer data
    | HaveVal                                   // SetOpt with non-nil data on a node that carries a value
    | NilDereference                            // reading through a nil pointer (e.g. an unset Nodes)
    | IndexOutOfRange(index: int, length: nat)  // positional access outside 0 .. length-1
}
