/** Vocabulary shared by every component. A digest of a file is modelled by the contents it stands for. */
module Common {

  datatype Option<+T> = None | Some(value: T)

  newtype Byte = b: int | 0 <= b < 256

  type Bytes = seq<Byte>
}
