/** Device identifiers, device types and the bit masks that classify them. */
module Devices {

  datatype Option<+T> = None | Some(value: T)

  /** `device_id_t` is an unsigned 16-bit integer. */
  type DeviceId = i: int | 0 <= i < 0x1_0000

  /** `device_type_t` is an unsigned 8-bit integer read through bit masks. */
  type DeviceType = bv8

  const NO_ID: DeviceId := 0xFFFF
  const CONTROLLER_ID: DeviceId := 0

  const LEAF_DEVICE_MASK: DeviceType := 0x03
  const BULB_DEVICE: DeviceType := 0x01
  const WINDOW_DEVICE: DeviceType := 0x02
  const FRIDGE_DEVICE: DeviceType := 0x03
  const CONTROL_DEVICE_FLAG: DeviceType := 0x08
  const CONTROL_DEVICE_MASK: DeviceType := 0x0C
  const HUB_DEVICE: DeviceType := 0x08
  const TIMER_DEVICE: DeviceType := 0x0C

  predicate IsLeaf(t: DeviceType) { t & CONTROL_DEVICE_FLAG == 0 }

  predicate IsControl(t: DeviceType) { t & CONTROL_DEVICE_FLAG == CONTROL_DEVICE_FLAG }

  predicate IsHub(t: DeviceType) { t & CONTROL_DEVICE_MASK == HUB_DEVICE }

  predicate IsTimer(t: DeviceType) { t & CONTROL_DEVICE_MASK == TIMER_DEVICE }

  predicate IsEmpty(t: DeviceType) { t & LEAF_DEVICE_MASK == 0 }

  /** The leaf bits: what kind of leaf devices a branch holds. */
  function ChildType(t: DeviceType): DeviceType { t & LEAF_DEVICE_MASK }

  /** The control bits: Hub, Timer, or neither. */
  function ControlClass(t: DeviceType): DeviceType { t & CONTROL_DEVICE_MASK }

  /** The bucket of an id: its four least significant bits. */
  function Hash(id: DeviceId): (h: int)
    ensures 0 <= h < 16
  {
    id % 16
  }

  /** Buckets are visited in order and each is sorted by id; `Key` is that order as one number. */
  function Key(id: DeviceId): (k: int)
    ensures Hash(id) * 0x1_0000 <= k < (Hash(id) + 1) * 0x1_0000
    ensures 0 <= k < 0x10_0000
  {
    Hash(id) * 0x1_0000 + id
  }

  lemma KeyInjective(a: DeviceId, b: DeviceId)
    ensures Key(a) == Key(b) <==> a == b
    ensures Key(a) < Key(b) <==> Hash(a) < Hash(b) || (Hash(a) == Hash(b) && a < b)
  {
    if Hash(a) < Hash(b) {
      assert Key(a) < Key(b);
    } else if Hash(b) < Hash(a) {
      assert Key(b) < Key(a);
    }
  }
}
