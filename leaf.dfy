/**
 * The direct conversions between a Java value and one tag, shared by the field and the
 * list-element paths: the NBTTagCompound.set* / NBTTag* constructors on the way out
 * and the get* accessors plus Byte.valueOf, Boolean.valueOf, ... on the way in.
 */
module LeafCodec {
  import opened Wrappers
  import opened JavaModel
  import opened Nbt
  import opened ArrayUtils
  import opened Classifier

  /**
   * Writes v under a leaf rule. The cast to the rule's class fails on a value of
   * another class, and unboxing a Byte[] or Integer[] fails on a null element.
   */
  function EncodeLeaf(rule: Rule, v: JVal): (r: Result<Tag, Error>)
    requires rule.IsLeaf()
    ensures r.Ok? ==> r.value.Id() == RuleTagId(rule)
    ensures v == Null ==> r == Err(NullPointer)
  {
    match rule
    case ByteRule => if v.ByteVal? then Ok(ByteTag(v.b)) else Err(CastFailure(v))
    case BooleanRule => if v.BoolVal? then Ok(ByteTag(BooleanByte(v.z))) else Err(CastFailure(v))
    case ShortRule => if v.ShortVal? then Ok(ShortTag(v.s)) else Err(CastFailure(v))
    case IntRule => if v.IntVal? then Ok(IntTag(v.i)) else Err(CastFailure(v))
    case LongRule => if v.LongVal? then Ok(LongTag(v.l)) else Err(CastFailure(v))
    case FloatRule => if v.FloatVal? then Ok(FloatTag(v.f)) else Err(CastFailure(v))
    case DoubleRule => if v.DoubleVal? then Ok(DoubleTag(v.d)) else Err(CastFailure(v))
    case ByteArrayRule => if v.ByteArrayVal? then Ok(ByteArrayTag(v.bytes)) else Err(CastFailure(v))
    case BoxedByteArrayRule =>
      if !v.BoxedByteArrayVal? then Err(CastFailure(v))
      else (match ToPrimitive(v.boxedBytes)
            case None => Err(NullPointer)
            case Some(a) => Ok(ByteArrayTag(a)))
    case StringRule => if v.StringVal? then Ok(StringTag(v.str)) else Err(CastFailure(v))
    case IntArrayRule => if v.IntArrayVal? then Ok(IntArrayTag(v.ints)) else Err(CastFailure(v))
    case BoxedIntArrayRule =>
      if !v.BoxedIntArrayVal? then Err(CastFailure(v))
      else (match ToPrimitive(v.boxedInts)
            case None => Err(NullPointer)
            case Some(a) => Ok(IntArrayTag(a)))
  }

  /**
   * Reads a value under a leaf rule. A Boolean is any nonzero byte; a Byte[] or
   * Integer[] is the boxed copy of the stored array. None: the tag is of another kind.
   */
  function DecodeLeaf(rule: Rule, t: Tag): (r: Option<JVal>)
    requires rule.IsLeaf()
    ensures r.Some? <==> t.Id() == RuleTagId(rule)
  {
    match rule
    case ByteRule => if t.ByteTag? then Some(ByteVal(t.b)) else None
    case BooleanRule => if t.ByteTag? then Some(BoolVal(t.b != 0)) else None
    case ShortRule => if t.ShortTag? then Some(ShortVal(t.s)) else None
    case IntRule => if t.IntTag? then Some(IntVal(t.i)) else None
    case LongRule => if t.LongTag? then Some(LongVal(t.l)) else None
    case FloatRule => if t.FloatTag? then Some(FloatVal(t.f)) else None
    case DoubleRule => if t.DoubleTag? then Some(DoubleVal(t.d)) else None
    case ByteArrayRule => if t.ByteArrayTag? then Some(ByteArrayVal(t.bytes)) else None
    case BoxedByteArrayRule => if t.ByteArrayTag? then Some(BoxedByteArrayVal(ToObject(t.bytes))) else None
    case StringRule => if t.StringTag? then Some(StringVal(t.str)) else None
    case IntArrayRule => if t.IntArrayTag? then Some(IntArrayVal(t.ints)) else None
    case BoxedIntArrayRule => if t.IntArrayTag? then Some(BoxedIntArrayVal(ToObject(t.ints))) else None
  }

  /** Reading back what a leaf rule wrote restores the value; for Byte[] and Integer[] this is toObject undoing toPrimitive. */
  lemma {:induction false} LeafRoundTrip(rule: Rule, v: JVal)
    requires rule.IsLeaf() && EncodeLeaf(rule, v).Ok?
    ensures DecodeLeaf(rule, EncodeLeaf(rule, v).value) == Some(v)
  {
    match rule {
      case BoxedByteArrayRule => ToObjectToPrimitive(v.boxedBytes);
      case BoxedIntArrayRule => ToObjectToPrimitive(v.boxedInts);
      case BooleanRule =>
      case _ =>
    }
  }

  /**
   * Writing back what a leaf rule read restores the tag, except that a Boolean
   * normalises every nonzero byte to 1.
   */
  lemma {:induction false} LeafTagRoundTrip(rule: Rule, t: Tag)
    requires rule.IsLeaf() && DecodeLeaf(rule, t).Some?
    ensures EncodeLeaf(rule, DecodeLeaf(rule, t).value) ==
            if rule == BooleanRule then Ok(ByteTag(if t.b != 0 then 1 else 0)) else Ok(t)
  {
    match rule {
      case BoxedByteArrayRule => ToPrimitiveToObject(t.bytes);
      case BoxedIntArrayRule => ToPrimitiveToObject(t.ints);
      case _ =>
    }
  }

  /** The Boolean encoding of a list element or field: true is byte 1, false byte 0, and any nonzero byte reads as true. */
  lemma BooleanRoundTrip(z: bool, b: Int8)
    ensures EncodeLeaf(BooleanRule, BoolVal(z)) == Ok(ByteTag(if z then 1 else 0))
    ensures DecodeLeaf(BooleanRule, ByteTag(b)) == Some(BoolVal(b != 0))
    ensures DecodeLeaf(BooleanRule, EncodeLeaf(BooleanRule, BoolVal(z)).value) == Some(BoolVal(z))
  {
  }
}
