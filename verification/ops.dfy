/** The node discriminant. In the compiler it is a `uint8` whose values are
    assigned in declaration order; it carries no behaviour of its own, and
    which generic Node fields a given value uses is a convention of the
    passes, not something this core checks. */
module Ops {

  newtype Op = x: int | 0 <= x < 256

  const OXXX: Op := 0

  // names
  const ONAME: Op := 1
  const ONONAME: Op := 2
  const OTYPE: Op := 3
  const OPACK: Op := 4
  const OLITERAL: Op := 5

  // expressions
  const OADD: Op := 6
  const OSUB: Op := 7
  const OOR: Op := 8
  const OXOR: Op := 9
  const OADDSTR: Op := 10
  const OADDR: Op := 11
  const OANDAND: Op := 12
  const OAPPEND: Op := 13
  const OARRAYBYTESTR: Op := 14
  const OARRAYBYTESTRTMP: Op := 15
  const OARRAYRUNESTR: Op := 16
  const OSTRARRAYBYTE: Op := 17
  const OSTRARRAYBYTETMP: Op := 18
  const OSTRARRAYRUNE: Op := 19
  const OAS: Op := 20
  const OAS2: Op := 21
  const OAS2FUNC: Op := 22
  const OAS2RECV: Op := 23
  const OAS2MAPR: Op := 24
  const OAS2DOTTYPE: Op := 25
  const OASOP: Op := 26
  const OASWB: Op := 27
  const OCALL: Op := 28
  const OCALLFUNC: Op := 29
  const OCALLMETH: Op := 30
  const OCALLINTER: Op := 31
  const OCALLPART: Op := 32
  const OCAP: Op := 33
  const OCLOSE: Op := 34
  const OCLOSURE: Op := 35
  const OCMPIFACE: Op := 36
  const OCMPSTR: Op := 37
  const OCOMPLIT: Op := 38
  const OMAPLIT: Op := 39
  const OSTRUCTLIT: Op := 40
  const OARRAYLIT: Op := 41
  const OPTRLIT: Op := 42
  const OCONV: Op := 43
  const OCONVIFACE: Op := 44
  const OCONVNOP: Op := 45
  const OCOPY: Op := 46
  const ODCL: Op := 47

  // declarations, used during parsing only
  const ODCLFUNC: Op := 48
  const ODCLFIELD: Op := 49
  const ODCLCONST: Op := 50
  const ODCLTYPE: Op := 51
  const ODELETE: Op := 52
  const ODOT: Op := 53
  const ODOTPTR: Op := 54
  const ODOTMETH: Op := 55
  const ODOTINTER: Op := 56
  const OXDOT: Op := 57
  const ODOTTYPE: Op := 58
  const ODOTTYPE2: Op := 59
  const OEQ: Op := 60
  const ONE: Op := 61
  const OLT: Op := 62
  const OLE: Op := 63
  const OGE: Op := 64
  const OGT: Op := 65
  const OIND: Op := 66
  const OINDEX: Op := 67
  const OINDEXMAP: Op := 68
  const OKEY: Op := 69
  const OPARAM: Op := 70
  const OLEN: Op := 71
  const OMAKE: Op := 72
  const OMAKECHAN: Op := 73
  const OMAKEMAP: Op := 74
  const OMAKESLICE: Op := 75
  const OMUL: Op := 76
  const ODIV: Op := 77
  const OMOD: Op := 78
  const OLSH: Op := 79
  const ORSH: Op := 80
  const OAND: Op := 81
  const OANDNOT: Op := 82
  const ONEW: Op := 83
  const ONOT: Op := 84
  const OCOM: Op := 85
  const OPLUS: Op := 86
  const OMINUS: Op := 87
  const OOROR: Op := 88
  const OPANIC: Op := 89
  const OPRINT: Op := 90
  const OPRINTN: Op := 91
  const OPAREN: Op := 92
  const OSEND: Op := 93
  const OSLICE: Op := 94
  const OSLICEARR: Op := 95
  const OSLICESTR: Op := 96
  const OSLICE3: Op := 97
  const OSLICE3ARR: Op := 98
  const ORECOVER: Op := 99
  const ORECV: Op := 100
  const ORUNESTR: Op := 101
  const OSELRECV: Op := 102
  const OSELRECV2: Op := 103
  const OIOTA: Op := 104
  const OREAL: Op := 105
  const OIMAG: Op := 106
  const OCOMPLEX: Op := 107

  // statements
  const OBLOCK: Op := 108
  const OBREAK: Op := 109
  const OCASE: Op := 110
  const OXCASE: Op := 111
  const OCONTINUE: Op := 112
  const ODEFER: Op := 113
  const OEMPTY: Op := 114
  const OFALL: Op := 115
  const OXFALL: Op := 116
  const OFOR: Op := 117
  const OGOTO: Op := 118
  const OIF: Op := 119
  const OLABEL: Op := 120
  const OPROC: Op := 121
  const ORANGE: Op := 122
  const ORETURN: Op := 123
  const OSELECT: Op := 124
  const OSWITCH: Op := 125
  const OTYPESW: Op := 126

  // type forms
  const OTCHAN: Op := 127
  const OTMAP: Op := 128
  const OTSTRUCT: Op := 129
  const OTINTER: Op := 130
  const OTFUNC: Op := 131
  const OTARRAY: Op := 132

  // miscellaneous
  const ODDD: Op := 133
  const ODDDARG: Op := 134
  const OINLCALL: Op := 135
  const OEFACE: Op := 136
  const OITAB: Op := 137
  const OSPTR: Op := 138
  const OCLOSUREVAR: Op := 139
  const OCFUNC: Op := 140
  const OCHECKNIL: Op := 141
  const OVARKILL: Op := 142
  const OVARLIVE: Op := 143

  // machine registers
  const OREGISTER: Op := 144
  const OINDREG: Op := 145

  // architecture-specific opcodes
  const OCMP: Op := 146
  const ODEC: Op := 147
  const OINC: Op := 148
  const OEXTEND: Op := 149
  const OHMUL: Op := 150
  const OLROT: Op := 151
  const ORROTC: Op := 152
  const ORETJMP: Op := 153
  const OPS: Op := 154
  const OPC: Op := 155
  const OSQRT: Op := 156
  const OGETG: Op := 157
  const OEND: Op := 158

  /** The operations for which the parser creates exactly one node per
      variable, type or literal, so that every use site shares it. */
  predicate IsIdentityOp(op: Op) {
    op == ONAME || op == OTYPE || op == OLITERAL
  }
}
