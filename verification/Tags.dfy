/** Term tags and the version byte (include/etf/constants.h). */
module Tags {
  import opened Bytes

  const FORMAT_VERSION: byte := 131
  const NEW_FLOAT_EXT: byte := 70
  const COMPRESSED: byte := 80
  const SMALL_INTEGER_EXT: byte := 97
  const INTEGER_EXT: byte := 98
  const FLOAT_EXT: byte := 99
  const ATOM_EXT: byte := 100
  const REFERENCE_EXT: byte := 101
  const PORT_EXT: byte := 102
  const PID_EXT: byte := 103
  const SMALL_TUPLE_EXT: byte := 104
  const LARGE_TUPLE_EXT: byte := 105
  const NIL_EXT: byte := 106
  const STRING_EXT: byte := 107
  const LIST_EXT: byte := 108
  const BINARY_EXT: byte := 109
  const SMALL_BIG_EXT: byte := 110
  const LARGE_BIG_EXT: byte := 111
  const EXPORT_EXT: byte := 113
  const NEW_REFERENCE_EXT: byte := 114
  const SMALL_ATOM_EXT: byte := 115
  const MAP_EXT: byte := 116

  // Atom names, in ASCII.
  const NIL: seq<byte> := [110, 105, 108]
  const NULL: seq<byte> := [110, 117, 108, 108]
  const TRUE: seq<byte> := [116, 114, 117, 101]
  const FALSE: seq<byte> := [102, 97, 108, 115, 101]
}
