/** Command codes, response codes and the contents of requests and responses. */
module Protocol {
  import opened Devices

  /** Identifiers, arguments and times travel as unsigned 16-bit integers. */
  type U16 = i: int | 0 <= i < 0x1_0000

  type Code = bv8

  const REQUEST_ARGUMENT_FLAG: Code := 0x20
  const RESPONSE_ARGUMENTS_FLAG: Code := 0x40
  const COMMAND_MASK: Code := 0x78
  const INFO: Code := 0x48
  const SWITCH: Code := 0x10
  const DELETE: Code := 0x18
  const LINK: Code := 0x68
  const REGISTRY: Code := 0x70
  const NULL_COMMAND: Code := 0x00
  const LINK_MASK: Code := 0x01
  const LINK_CHANGE_PARENT: Code := 0x00
  const LINK_REMOVE_CHILD: Code := 0x01
  const REGISTRY_MASK: Code := 0x07
  const REGISTRY_BEGIN: Code := 0x01
  const REGISTRY_END: Code := 0x02
  const SWITCH_MASK: Code := 0x06
  const SWITCH_POWER: Code := 0x02
  const SWITCH_OPEN: Code := 0x04
  const SWITCH_CLOSE: Code := 0x06
  const POSITION_OFF: Code := 0x00
  const POSITION_ON: Code := 0x01

  const ERROR_MASK: Code := 0xF0
  const OK: Code := 0x00
  const DEVICE_TYPE_MISMATCH: Code := 0x14
  const DEVICE_NOT_FOUND: Code := 0x15
  const LINKING_PARENT_TO_CHILD: Code := 0x16
  const CANNOT_ADD_TO_PARENT: Code := 0x17
  const REQUEST_FORMAT_ERROR: Code := 0x23
  const RESPONSE_FORMAT_ERROR: Code := 0x24
  const BUFFER_TOO_SHORT: Code := 0x25
  const INVALID_REQUEST_ARGUMENT: Code := 0x27
  const UNEXPECTED_COMMAND: Code := 0x28
  const ROUTE_NOT_FOUND: Code := 0x29
  const CHILD_NOT_FOUND: Code := 0x2A
  const CHILD_ERROR: Code := 0x2B
  const UNABLE_TO_CREATE_PIPE: Code := 0x52

  predicate IsInfo(c: Code) { c & COMMAND_MASK == INFO }

  predicate IsLink(c: Code) { c & COMMAND_MASK == LINK }

  predicate IsRemoveChild(c: Code) { c & LINK_MASK == LINK_REMOVE_CHILD }

  predicate IsSwitch(c: Code) { c & COMMAND_MASK == SWITCH }

  predicate IsDelete(c: Code) { c & COMMAND_MASK == DELETE }

  predicate IsError(e: Code) { e & ERROR_MASK != OK }

  predicate HasRequestArgument(c: Code) { c & REQUEST_ARGUMENT_FLAG == REQUEST_ARGUMENT_FLAG }

  predicate HasResponseArguments(c: Code) { c & RESPONSE_ARGUMENTS_FLAG == RESPONSE_ARGUMENTS_FLAG }

  /**
   Whether a switch names the label that leaf devices of this type obey: power for bulbs, open or close for
   the others.
   */
  predicate SwitchFits(ty: DeviceType, c: Code) {
    var kind := c & SWITCH_MASK;
    var leaf := ChildType(ty);
    || (leaf == BULB_DEVICE && kind == SWITCH_POWER)
    || ((leaf == FRIDGE_DEVICE || leaf == WINDOW_DEVICE) && (kind == SWITCH_OPEN || kind == SWITCH_CLOSE))
  }

  /**
   What a leaf device of this type, on or open if `on`, makes of a switch: a bulb follows the position of a power
   switch, the others open or close when the position is positive, and any other label is ignored.
   */
  function Obeyed(ty: DeviceType, on: bool, c: Code): bool {
    var kind := c & SWITCH_MASK;
    var positive := c & POSITION_ON == POSITION_ON;
    var leaf := ChildType(ty);
    if leaf == BULB_DEVICE && kind == SWITCH_POWER then positive
    else if (leaf == FRIDGE_DEVICE || leaf == WINDOW_DEVICE) && positive && kind == SWITCH_OPEN then true
    else if (leaf == FRIDGE_DEVICE || leaf == WINDOW_DEVICE) && positive && kind == SWITCH_CLOSE then false
    else on
  }

  /** A label fits a device exactly when a switch with that label can change its state. */
  lemma SwitchFitsIff(ty: DeviceType, c: Code)
    ensures SwitchFits(ty, c) <==>
            exists on: bool, d: Code :: d & SWITCH_MASK == c & SWITCH_MASK && Obeyed(ty, on, d) != on
  {
    if SwitchFits(ty, c) {
      var kind := c & SWITCH_MASK;
      var d := kind | POSITION_ON;
      SameLabel(kind);
      assert Obeyed(ty, !Obeyed(ty, true, d), d) != !Obeyed(ty, true, d);
    }
  }

  lemma SameLabel(kind: Code)
    requires kind == kind & SWITCH_MASK
    ensures (kind | POSITION_ON) & SWITCH_MASK == kind && (kind | POSITION_ON) & POSITION_ON == POSITION_ON
  {
  }

  datatype Request = Request(destination: DeviceId, commandCode: Code, argument: U16)

  /** `arguments` holds the first `arguments_size` arguments. */
  datatype Response = Response(source: DeviceId, commandCode: Code, responseCode: Code, arguments: seq<U16>)

  const MAX_RESPONSE_ARGUMENTS := 6

  /** A request written to the pipe `fd`. */
  datatype Sent = Sent(fd: int, request: Request)

  /** A device type as an argument, and back with the truncation to eight bits. */
  function TypeArgument(ty: DeviceType): U16 { ty as int }

  function ArgumentType(a: U16): DeviceType { (a % 0x100) as bv8 }

  lemma ByteAsInt(b: bv8)
    ensures (b as int) as bv8 == b
  {
  }

  lemma TypeTravels(ty: DeviceType)
    ensures ArgumentType(TypeArgument(ty)) == ty
  {
    ByteAsInt(ty);
  }

  const MANUAL_OVERRIDE := 2
  const UNDEFINED_STATE := 3

  /** The response a device sends, or a control device fakes, to announce its parent and type. */
  function ChangeParent(source: DeviceId, parent: DeviceId, ty: DeviceType): Response {
    Response(source, LINK | LINK_CHANGE_PARENT, OK, [parent, TypeArgument(ty)])
  }
}
