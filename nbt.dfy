/**
 * The NBT tag tree the codec reads and writes, as an abstract value: one constructor per
 * tag kind, compounds as maps from tag name to tag. The tag IDs are those Minecraft's NBT
 * format fixes on the wire.
 */
module Nbt {
  import opened Wrappers
  import opened JavaModel

  const NBT_TAG_END: int := 0
  const NBT_TAG_BYTE: int := 1
  const NBT_TAG_SHORT: int := 2
  const NBT_TAG_INT: int := 3
  const NBT_TAG_LONG: int := 4
  const NBT_TAG_FLOAT: int := 5
  const NBT_TAG_DOUBLE: int := 6
  const NBT_TAG_BYTE_ARRAY: int := 7
  const NBT_TAG_STRING: int := 8
  const NBT_TAG_LIST: int := 9
  const NBT_TAG_COMPOUND: int := 10
  const NBT_TAG_INT_ARRAY: int := 11

  /** A tag. End (ID 0) only marks the element kind of an empty list and is never a value. */
  datatype Tag =
    | ByteTag(b: Int8)
    | ShortTag(s: Int16)
    | IntTag(i: Int32)
    | LongTag(l: Int64)
    | FloatTag(f: FloatBits)
    | DoubleTag(d: DoubleBits)
    | ByteArrayTag(bytes: seq<Int8>)
    | StringTag(str: string)
    | ListTag(elems: seq<Tag>)
    | CompoundTag(entries: map<string, Tag>)
    | IntArrayTag(ints: seq<Int32>)
  {
    /** The wire ID of this tag's kind. */
    function Id(): (id: int)
      ensures NBT_TAG_BYTE <= id <= NBT_TAG_INT_ARRAY
    {
      match this
      case ByteTag(_) => NBT_TAG_BYTE
      case ShortTag(_) => NBT_TAG_SHORT
      case IntTag(_) => NBT_TAG_INT
      case LongTag(_) => NBT_TAG_LONG
      case FloatTag(_) => NBT_TAG_FLOAT
      case DoubleTag(_) => NBT_TAG_DOUBLE
      case ByteArrayTag(_) => NBT_TAG_BYTE_ARRAY
      case StringTag(_) => NBT_TAG_STRING
      case ListTag(_) => NBT_TAG_LIST
      case CompoundTag(_) => NBT_TAG_COMPOUND
      case IntArrayTag(_) => NBT_TAG_INT_ARRAY
    }
  }

  type Compound = map<string, Tag>

  /** The element kind a list tag records: End while it is empty, else the kind of its first element. */
  function ElementId(elems: seq<Tag>): int {
    if |elems| == 0 then NBT_TAG_END else elems[0].Id()
  }

  /**
   * NBTTagCompound.getTagList(key, kind) on a present key: the list stored there when it
   * is empty or records element kind `kind`; any other tag is a kind mismatch.
   */
  function TagListOfKind(tag: Tag, kind: int): (r: Option<seq<Tag>>)
    ensures r.Some? <==> tag.ListTag? && (tag.elems == [] || tag.elems[0].Id() == kind)
    ensures r.Some? ==> r.value == tag.elems
  {
    if tag.ListTag? && (ElementId(tag.elems) == NBT_TAG_END || ElementId(tag.elems) == kind) then Some(tag.elems)
    else None
  }

  /** NBTTagCompound.setBoolean stores a boolean as the byte 1 or 0. */
  function BooleanByte(z: bool): (b: Int8)
    ensures b == 0 || b == 1
    ensures (b != 0) == z
  {
    if z then 1 else 0
  }
}
