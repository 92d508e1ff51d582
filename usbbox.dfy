/** Types and constants of the driver's public interface (usbbox.h). */
module UsbBox {

  /** An unsigned char. */
  newtype byte = b: int | 0 <= b < 256

  /** The device identity the driver looks for. */
  const VendorId: int := 0x19BC
  const ProductId: int := 0x0001

  /** Every message exchanged with the box is exactly this many bytes. */
  const MessageSize: nat := 8

  /** usb_box_message: 8 bytes, copied by value. */
  type Message = m: seq<byte> | |m| == MessageSize witness [0, 0, 0, 0, 0, 0, 0, 0]

  /** Largest value of a C `int` and range of a C `long` (LP64). */
  const IntMax: int := 0x7FFF_FFFF
  const IntMin: int := -0x8000_0000
  const LongMax: int := 0x7FFF_FFFF_FFFF_FFFF
  const LongMin: int := -0x8000_0000_0000_0000

  datatype Option<T> = None | Some(value: T)
}
