/** What the storage root is made of: file bytes, and the names the backup engine keeps for itself in it. */
module Storage {

  newtype Byte = x: int | 0 <= x < 256
  type Bytes = seq<Byte>

  const INTERNAL_PREFIX := ".varya-"

  predicate Internal(name: string) {
    INTERNAL_PREFIX <= name
  }
}
