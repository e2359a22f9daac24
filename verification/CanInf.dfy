/** The CAN frame as the driver's clients see it, with the widths of its bit-fields. */
module CanInf {
  datatype CanId = CanId(id: bv29, exide: bool, rtr: bool, err: bool)

  const CAN_MAX_DLC: nat := 8

  datatype Frame = Frame(ident: CanId, prio: bv2, dlc: bv4, data: seq<bv8>)

  /** The payload array of a frame has eight bytes, of which dlc are meaningful. */
  predicate IsFrame(f: Frame) {
    |f.data| == CAN_MAX_DLC
  }
}
