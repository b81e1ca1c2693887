/**
 The vocabulary shared by every part of the model: identifiers, strings as Go
 holds them (byte sequences), property values, nodes and edges.
 */
module Types {
  newtype byte = b: int | 0 <= b < 256

  /** A Go string is an immutable byte sequence. */
  type Str = seq<byte>

  const TWO64: nat := 0x1_0000_0000_0000_0000

  type uint64 = n: nat | n < TWO64

  type NodeID = uint64
  type EdgeID = uint64

  datatype Option<+T> = None | Some(value: T)

  /** The numeric Go kinds a property value can have. */
  datatype NumKind = Float64 | Float32 | Int | Int64 | Int32 | Uint64

  /** A property value. `Other` stands for every remaining dynamic type. */
  datatype Value =
    | Nil
    | Num(kind: NumKind, num: real)
    | Text(str: Str)
    | Bool(flag: bool)
    | Other(repr: Str)

  type Props = map<Str, Value>

  datatype Edge = Edge(id: EdgeID, from: NodeID, to: NodeID, lbl: Str, props: Props)

  datatype Node = Node(id: NodeID, labels: seq<Str>, props: Props)

  datatype Direction = Outgoing | Incoming | Both
}
