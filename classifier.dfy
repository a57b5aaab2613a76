/**
 * The type classifier: getIDFromClass, and the ordered isAssignableFrom chains that
 * serialize, deserialize, serializeList and deserializeList use to pick how a value of
 * a class is written or read.
 */
module Classifier {
  import opened JavaModel
  import opened Nbt

  /**
   * getIDFromClass: the NBT tag ID for a class. The first matching test wins; a class
   * matching none of them is classified as a compound. Never NBT_TAG_END.
   */
  function GetIDFromClass(clazz: Class): (id: int)
    ensures NBT_TAG_BYTE <= id <= NBT_TAG_INT_ARRAY
    ensures IsSerializable(clazz) ==> id == NBT_TAG_COMPOUND
  {
    if AssignableFrom(clazz, Primitive(PByte)) || AssignableFrom(clazz, Boxed(PByte))
       || AssignableFrom(clazz, Primitive(PBoolean)) || AssignableFrom(clazz, Boxed(PBoolean)) then NBT_TAG_BYTE
    else if AssignableFrom(clazz, Primitive(PShort)) || AssignableFrom(clazz, Boxed(PShort)) then NBT_TAG_SHORT
    else if AssignableFrom(clazz, Primitive(PInt)) || AssignableFrom(clazz, Boxed(PInt)) then NBT_TAG_INT
    else if AssignableFrom(clazz, Primitive(PLong)) || AssignableFrom(clazz, Boxed(PLong)) then NBT_TAG_LONG
    else if AssignableFrom(clazz, Primitive(PFloat)) || AssignableFrom(clazz, Boxed(PFloat)) then NBT_TAG_FLOAT
    else if AssignableFrom(clazz, Primitive(PDouble)) || AssignableFrom(clazz, Boxed(PDouble)) then NBT_TAG_DOUBLE
    else if AssignableFrom(clazz, ByteArrayClass) || AssignableFrom(clazz, BoxedByteArrayClass) then NBT_TAG_BYTE_ARRAY
    else if AssignableFrom(clazz, StringClass) then NBT_TAG_STRING
    else if AssignableFrom(clazz, IntArrayClass) || AssignableFrom(clazz, BoxedIntArrayClass) then NBT_TAG_INT_ARRAY
    else if IsSerializable(clazz) then NBT_TAG_COMPOUND
    else if IsList(clazz) then NBT_TAG_LIST
    else NBT_TAG_COMPOUND
  }

  /** The ID of a primitive type, and of its boxed class; char matches no test and falls through to compound. */
  function PrimId(p: Prim): int {
    match p
    case PByte => NBT_TAG_BYTE
    case PBoolean => NBT_TAG_BYTE
    case PShort => NBT_TAG_SHORT
    case PInt => NBT_TAG_INT
    case PLong => NBT_TAG_LONG
    case PFloat => NBT_TAG_FLOAT
    case PDouble => NBT_TAG_DOUBLE
    case PChar => NBT_TAG_COMPOUND
  }

  /**
   * The ID of each class, read off class by class rather than through the ordered
   * chain. Object, Number, Serializable and Comparable are assignable from Byte, so the
   * first test already claims them; Cloneable and Object[] are claimed by the byte-array
   * test, CharSequence by the string test; boolean is stored as a byte; a class the chain
   * does not recognise is a compound.
   */
  function ReferenceId(clazz: Class): int {
    match clazz
    case Primitive(p) => PrimId(p)
    case Boxed(p) => PrimId(p)
    case ByteArrayClass => NBT_TAG_BYTE_ARRAY
    case BoxedByteArrayClass => NBT_TAG_BYTE_ARRAY
    case IntArrayClass => NBT_TAG_INT_ARRAY
    case BoxedIntArrayClass => NBT_TAG_INT_ARRAY
    case StringClass => NBT_TAG_STRING
    case ObjectClass => NBT_TAG_BYTE
    case NumberClass => NBT_TAG_BYTE
    case IoSerializableClass => NBT_TAG_BYTE
    case ComparableClass => NBT_TAG_BYTE
    case CharSequenceClass => NBT_TAG_STRING
    case CloneableClass => NBT_TAG_BYTE_ARRAY
    case ObjectArrayClass => NBT_TAG_BYTE_ARRAY
    case SerializableClass(_) => NBT_TAG_COMPOUND
    case ListClass(_) => NBT_TAG_LIST
    case OtherClass(_) => NBT_TAG_COMPOUND
  }

  /** How a value is written or read, as an if-chain of the codec selects it. */
  datatype Rule =
    | ByteRule | BooleanRule | ShortRule | IntRule | LongRule | FloatRule | DoubleRule
    | ByteArrayRule | BoxedByteArrayRule | StringRule | IntArrayRule | BoxedIntArrayRule
    | CompoundRule | ListRule | NoRule
  {
    /** A rule that converts the value directly, without recursion. */
    predicate IsLeaf() {
      !CompoundRule? && !ListRule? && !NoRule?
    }
  }

  /** The ID of the tag a rule writes. */
  function RuleTagId(rule: Rule): int
    requires rule != NoRule
  {
    match rule
    case ByteRule => NBT_TAG_BYTE
    case BooleanRule => NBT_TAG_BYTE
    case ShortRule => NBT_TAG_SHORT
    case IntRule => NBT_TAG_INT
    case LongRule => NBT_TAG_LONG
    case FloatRule => NBT_TAG_FLOAT
    case DoubleRule => NBT_TAG_DOUBLE
    case ByteArrayRule => NBT_TAG_BYTE_ARRAY
    case BoxedByteArrayRule => NBT_TAG_BYTE_ARRAY
    case StringRule => NBT_TAG_STRING
    case IntArrayRule => NBT_TAG_INT_ARRAY
    case BoxedIntArrayRule => NBT_TAG_INT_ARRAY
    case CompoundRule => NBT_TAG_COMPOUND
    case ListRule => NBT_TAG_LIST
  }

  /** The chain serialize runs on a field's declared class fc. */
  function FieldWriteChain(fc: Class): Rule {
    if AssignableFrom(fc, Primitive(PByte)) || AssignableFrom(fc, Boxed(PByte)) then ByteRule
    else if AssignableFrom(fc, Primitive(PBoolean)) || AssignableFrom(fc, Boxed(PBoolean)) then BooleanRule
    else if AssignableFrom(fc, Primitive(PShort)) || AssignableFrom(fc, Boxed(PShort)) then ShortRule
    else if AssignableFrom(fc, Primitive(PInt)) || AssignableFrom(fc, Boxed(PInt)) then IntRule
    else if AssignableFrom(fc, Primitive(PLong)) || AssignableFrom(fc, Boxed(PLong)) then LongRule
    else if AssignableFrom(fc, Primitive(PFloat)) || AssignableFrom(fc, Boxed(PFloat)) then FloatRule
    else if AssignableFrom(fc, Primitive(PDouble)) || AssignableFrom(fc, Boxed(PDouble)) then DoubleRule
    else if AssignableFrom(fc, ByteArrayClass) then ByteArrayRule
    else if AssignableFrom(fc, BoxedByteArrayClass) then BoxedByteArrayRule
    else if AssignableFrom(fc, StringClass) then StringRule
    else if AssignableFrom(fc, IntArrayClass) then IntArrayRule
    else if AssignableFrom(fc, BoxedIntArrayClass) then BoxedIntArrayRule
    else if IsSerializable(fc) then CompoundRule
    else if IsList(fc) then ListRule
    else NoRule
  }

  /**
   * The chain deserialize runs on a field's declared class fc. It tests each primitive
   * class before its boxed class; both branches of a pair store the same value.
   */
  function FieldReadChain(fc: Class): Rule {
    if AssignableFrom(fc, Primitive(PByte)) then ByteRule
    else if AssignableFrom(fc, Boxed(PByte)) then ByteRule
    else if AssignableFrom(fc, Primitive(PBoolean)) then BooleanRule
    else if AssignableFrom(fc, Boxed(PBoolean)) then BooleanRule
    else if AssignableFrom(fc, Primitive(PShort)) then ShortRule
    else if AssignableFrom(fc, Boxed(PShort)) then ShortRule
    else if AssignableFrom(fc, Primitive(PInt)) then IntRule
    else if AssignableFrom(fc, Boxed(PInt)) then IntRule
    else if AssignableFrom(fc, Primitive(PLong)) then LongRule
    else if AssignableFrom(fc, Boxed(PLong)) then LongRule
    else if AssignableFrom(fc, Primitive(PFloat)) then FloatRule
    else if AssignableFrom(fc, Boxed(PFloat)) then FloatRule
    else if AssignableFrom(fc, Primitive(PDouble)) then DoubleRule
    else if AssignableFrom(fc, Boxed(PDouble)) then DoubleRule
    else if AssignableFrom(fc, ByteArrayClass) then ByteArrayRule
    else if AssignableFrom(fc, BoxedByteArrayClass) then BoxedByteArrayRule
    else if AssignableFrom(fc, StringClass) then StringRule
    else if AssignableFrom(fc, IntArrayClass) then IntArrayRule
    else if AssignableFrom(fc, BoxedIntArrayClass) then BoxedIntArrayRule
    else if IsSerializable(fc) then CompoundRule
    else if IsList(fc) then ListRule
    else NoRule
  }

  /**
   * The chain serializeList runs on the first element's runtime class and
   * deserializeList runs on the declared element class: only boxed classes, and no
   * primitive arrays.
   */
  function ElementChain(subclass: Class): Rule {
    if AssignableFrom(subclass, Boxed(PByte)) then ByteRule
    else if AssignableFrom(subclass, Boxed(PBoolean)) then BooleanRule
    else if AssignableFrom(subclass, Boxed(PShort)) then ShortRule
    else if AssignableFrom(subclass, Boxed(PInt)) then IntRule
    else if AssignableFrom(subclass, Boxed(PLong)) then LongRule
    else if AssignableFrom(subclass, Boxed(PFloat)) then FloatRule
    else if AssignableFrom(subclass, Boxed(PDouble)) then DoubleRule
    else if AssignableFrom(subclass, BoxedByteArrayClass) then BoxedByteArrayRule
    else if AssignableFrom(subclass, StringClass) then StringRule
    else if AssignableFrom(subclass, BoxedIntArrayClass) then BoxedIntArrayRule
    else if IsSerializable(subclass) then CompoundRule
    else if IsList(subclass) then ListRule
    else NoRule
  }

  /** The leaf rule of a primitive type and of its boxed class; no branch handles char or Character. */
  function PrimRule(p: Prim): (rule: Rule)
    ensures rule.IsLeaf() <==> p != PChar
    ensures p == PChar ==> rule == NoRule
  {
    match p
    case PByte => ByteRule
    case PBoolean => BooleanRule
    case PShort => ShortRule
    case PInt => IntRule
    case PLong => LongRule
    case PFloat => FloatRule
    case PDouble => DoubleRule
    case PChar => NoRule
  }

  /**
   * The branch a field of declared class fc takes, class by class. Object, Number,
   * Serializable and Comparable are assignable from Byte, so they take the byte branch;
   * Cloneable takes the byte[] branch, Object[] the Byte[] branch and CharSequence the
   * String branch.
   */
  function FieldRule(fc: Class): (rule: Rule)
    ensures rule == CompoundRule <==> IsSerializable(fc)
    ensures rule == ListRule <==> IsList(fc)
  {
    match fc
    case Primitive(p) => PrimRule(p)
    case Boxed(p) => PrimRule(p)
    case ByteArrayClass => ByteArrayRule
    case BoxedByteArrayClass => BoxedByteArrayRule
    case IntArrayClass => IntArrayRule
    case BoxedIntArrayClass => BoxedIntArrayRule
    case StringClass => StringRule
    case ObjectClass => ByteRule
    case NumberClass => ByteRule
    case IoSerializableClass => ByteRule
    case ComparableClass => ByteRule
    case CharSequenceClass => StringRule
    case CloneableClass => ByteArrayRule
    case ObjectArrayClass => BoxedByteArrayRule
    case SerializableClass(_) => CompoundRule
    case ListClass(_) => ListRule
    case OtherClass(_) => NoRule
  }

  /**
   * The branch a list element of class subclass takes, class by class: primitive classes
   * and primitive arrays take none, and Cloneable, which no longer meets a byte[] test,
   * takes the Byte[] branch.
   */
  function ElementRule(subclass: Class): (rule: Rule)
    ensures rule == CompoundRule <==> IsSerializable(subclass)
    ensures rule == ListRule <==> IsList(subclass)
  {
    match subclass
    case Boxed(p) => PrimRule(p)
    case BoxedByteArrayClass => BoxedByteArrayRule
    case BoxedIntArrayClass => BoxedIntArrayRule
    case StringClass => StringRule
    case ObjectClass => ByteRule
    case NumberClass => ByteRule
    case IoSerializableClass => ByteRule
    case ComparableClass => ByteRule
    case CharSequenceClass => StringRule
    case CloneableClass => BoxedByteArrayRule
    case ObjectArrayClass => BoxedByteArrayRule
    case SerializableClass(_) => CompoundRule
    case ListClass(_) => ListRule
    case _ => NoRule
  }

  // ---------------------------------------------------------------- the chains against the tables

  // The outcome of every isAssignableFrom test the chains make, a few classes at a time.
  /** A primitive class is assignable only from itself. */
  lemma TestsOnPrimitive(c: Class)
    requires c.Primitive?
    ensures AssignableFrom(c, Primitive(PByte)) == (c == Primitive(PByte))
    ensures !AssignableFrom(c, Boxed(PByte))
    ensures AssignableFrom(c, Primitive(PBoolean)) == (c == Primitive(PBoolean))
    ensures !AssignableFrom(c, Boxed(PBoolean))
    ensures AssignableFrom(c, Primitive(PShort)) == (c == Primitive(PShort))
    ensures !AssignableFrom(c, Boxed(PShort))
    ensures AssignableFrom(c, Primitive(PInt)) == (c == Primitive(PInt))
    ensures !AssignableFrom(c, Boxed(PInt))
    ensures AssignableFrom(c, Primitive(PLong)) == (c == Primitive(PLong))
    ensures !AssignableFrom(c, Boxed(PLong))
    ensures AssignableFrom(c, Primitive(PFloat)) == (c == Primitive(PFloat))
    ensures !AssignableFrom(c, Boxed(PFloat))
    ensures AssignableFrom(c, Primitive(PDouble)) == (c == Primitive(PDouble))
    ensures !AssignableFrom(c, Boxed(PDouble))
    ensures !AssignableFrom(c, ByteArrayClass)
    ensures !AssignableFrom(c, BoxedByteArrayClass)
    ensures !AssignableFrom(c, StringClass)
    ensures !AssignableFrom(c, IntArrayClass)
    ensures !AssignableFrom(c, BoxedIntArrayClass)
  {
  }

  /** A boxed class is assignable only from itself. */
  lemma TestsOnBoxed(c: Class)
    requires c.Boxed?
    ensures !AssignableFrom(c, Primitive(PByte))
    ensures AssignableFrom(c, Boxed(PByte)) == (c == Boxed(PByte))
    ensures !AssignableFrom(c, Primitive(PBoolean))
    ensures AssignableFrom(c, Boxed(PBoolean)) == (c == Boxed(PBoolean))
    ensures !AssignableFrom(c, Primitive(PShort))
    ensures AssignableFrom(c, Boxed(PShort)) == (c == Boxed(PShort))
    ensures !AssignableFrom(c, Primitive(PInt))
    ensures AssignableFrom(c, Boxed(PInt)) == (c == Boxed(PInt))
    ensures !AssignableFrom(c, Primitive(PLong))
    ensures AssignableFrom(c, Boxed(PLong)) == (c == Boxed(PLong))
    ensures !AssignableFrom(c, Primitive(PFloat))
    ensures AssignableFrom(c, Boxed(PFloat)) == (c == Boxed(PFloat))
    ensures !AssignableFrom(c, Primitive(PDouble))
    ensures AssignableFrom(c, Boxed(PDouble)) == (c == Boxed(PDouble))
    ensures !AssignableFrom(c, ByteArrayClass)
    ensures !AssignableFrom(c, BoxedByteArrayClass)
    ensures !AssignableFrom(c, StringClass)
    ensures !AssignableFrom(c, IntArrayClass)
    ensures !AssignableFrom(c, BoxedIntArrayClass)
  {
  }

  /** A serializable class is assignable from none of the tested classes. */
  lemma TestsOnSerializable(c: Class)
    requires c.SerializableClass?
    ensures forall q :: !AssignableFrom(c, Primitive(q))
    ensures forall q :: !AssignableFrom(c, Boxed(q))
    ensures !AssignableFrom(c, ByteArrayClass)
    ensures !AssignableFrom(c, BoxedByteArrayClass)
    ensures !AssignableFrom(c, StringClass)
    ensures !AssignableFrom(c, IntArrayClass)
    ensures !AssignableFrom(c, BoxedIntArrayClass)
  {
  }

  /** A List class is assignable from none of the tested classes. */
  lemma TestsOnList(c: Class)
    requires c.ListClass?
    ensures forall q :: !AssignableFrom(c, Primitive(q))
    ensures forall q :: !AssignableFrom(c, Boxed(q))
    ensures !AssignableFrom(c, ByteArrayClass)
    ensures !AssignableFrom(c, BoxedByteArrayClass)
    ensures !AssignableFrom(c, StringClass)
    ensures !AssignableFrom(c, IntArrayClass)
    ensures !AssignableFrom(c, BoxedIntArrayClass)
  {
  }

  /** Any other class is assignable from none of the tested classes. */
  lemma TestsOnOther(c: Class)
    requires c.OtherClass?
    ensures forall q :: !AssignableFrom(c, Primitive(q))
    ensures forall q :: !AssignableFrom(c, Boxed(q))
    ensures !AssignableFrom(c, ByteArrayClass)
    ensures !AssignableFrom(c, BoxedByteArrayClass)
    ensures !AssignableFrom(c, StringClass)
    ensures !AssignableFrom(c, IntArrayClass)
    ensures !AssignableFrom(c, BoxedIntArrayClass)
  {
  }

  /** Which tested classes ByteArrayClass is assignable from. */
  lemma TestsOnByteArray()
    ensures forall q :: !AssignableFrom(ByteArrayClass, Primitive(q))
    ensures forall q :: !AssignableFrom(ByteArrayClass, Boxed(q))
    ensures AssignableFrom(ByteArrayClass, ByteArrayClass)
    ensures !AssignableFrom(ByteArrayClass, BoxedByteArrayClass)
    ensures !AssignableFrom(ByteArrayClass, StringClass)
    ensures !AssignableFrom(ByteArrayClass, IntArrayClass)
    ensures !AssignableFrom(ByteArrayClass, BoxedIntArrayClass)
  {
  }

  /** Which tested classes BoxedByteArrayClass is assignable from. */
  lemma TestsOnBoxedByteArray()
    ensures forall q :: !AssignableFrom(BoxedByteArrayClass, Primitive(q))
    ensures forall q :: !AssignableFrom(BoxedByteArrayClass, Boxed(q))
    ensures !AssignableFrom(BoxedByteArrayClass, ByteArrayClass)
    ensures AssignableFrom(BoxedByteArrayClass, BoxedByteArrayClass)
    ensures !AssignableFrom(BoxedByteArrayClass, StringClass)
    ensures !AssignableFrom(BoxedByteArrayClass, IntArrayClass)
    ensures !AssignableFrom(BoxedByteArrayClass, BoxedIntArrayClass)
  {
  }

  /** Which tested classes IntArrayClass is assignable from. */
  lemma TestsOnIntArray()
    ensures forall q :: !AssignableFrom(IntArrayClass, Primitive(q))
    ensures forall q :: !AssignableFrom(IntArrayClass, Boxed(q))
    ensures !AssignableFrom(IntArrayClass, ByteArrayClass)
    ensures !AssignableFrom(IntArrayClass, BoxedByteArrayClass)
    ensures !AssignableFrom(IntArrayClass, StringClass)
    ensures AssignableFrom(IntArrayClass, IntArrayClass)
    ensures !AssignableFrom(IntArrayClass, BoxedIntArrayClass)
  {
  }

  /** Which tested classes BoxedIntArrayClass is assignable from. */
  lemma TestsOnBoxedIntArray()
    ensures forall q :: !AssignableFrom(BoxedIntArrayClass, Primitive(q))
    ensures forall q :: !AssignableFrom(BoxedIntArrayClass, Boxed(q))
    ensures !AssignableFrom(BoxedIntArrayClass, ByteArrayClass)
    ensures !AssignableFrom(BoxedIntArrayClass, BoxedByteArrayClass)
    ensures !AssignableFrom(BoxedIntArrayClass, StringClass)
    ensures !AssignableFrom(BoxedIntArrayClass, IntArrayClass)
    ensures AssignableFrom(BoxedIntArrayClass, BoxedIntArrayClass)
  {
  }

  /** Which tested classes StringClass is assignable from. */
  lemma TestsOnString()
    ensures forall q :: !AssignableFrom(StringClass, Primitive(q))
    ensures forall q :: !AssignableFrom(StringClass, Boxed(q))
    ensures !AssignableFrom(StringClass, ByteArrayClass)
    ensures !AssignableFrom(StringClass, BoxedByteArrayClass)
    ensures AssignableFrom(StringClass, StringClass)
    ensures !AssignableFrom(StringClass, IntArrayClass)
    ensures !AssignableFrom(StringClass, BoxedIntArrayClass)
  {
  }

  /** Which tested classes CharSequenceClass is assignable from. */
  lemma TestsOnCharSequence()
    ensures forall q :: !AssignableFrom(CharSequenceClass, Primitive(q))
    ensures forall q :: !AssignableFrom(CharSequenceClass, Boxed(q))
    ensures !AssignableFrom(CharSequenceClass, ByteArrayClass)
    ensures !AssignableFrom(CharSequenceClass, BoxedByteArrayClass)
    ensures AssignableFrom(CharSequenceClass, StringClass)
    ensures !AssignableFrom(CharSequenceClass, IntArrayClass)
    ensures !AssignableFrom(CharSequenceClass, BoxedIntArrayClass)
  {
  }

  /** Which tested classes ObjectClass is assignable from. */
  lemma TestsOnObject()
    ensures forall q :: !AssignableFrom(ObjectClass, Primitive(q))
    ensures forall q :: AssignableFrom(ObjectClass, Boxed(q))
    ensures AssignableFrom(ObjectClass, ByteArrayClass)
    ensures AssignableFrom(ObjectClass, BoxedByteArrayClass)
    ensures AssignableFrom(ObjectClass, StringClass)
    ensures AssignableFrom(ObjectClass, IntArrayClass)
    ensures AssignableFrom(ObjectClass, BoxedIntArrayClass)
  {
  }

  /** Which tested classes NumberClass is assignable from. */
  lemma TestsOnNumber()
    ensures forall q :: !AssignableFrom(NumberClass, Primitive(q))
    ensures forall q :: AssignableFrom(NumberClass, Boxed(q)) == (q != PBoolean && q != PChar)
    ensures !AssignableFrom(NumberClass, ByteArrayClass)
    ensures !AssignableFrom(NumberClass, BoxedByteArrayClass)
    ensures !AssignableFrom(NumberClass, StringClass)
    ensures !AssignableFrom(NumberClass, IntArrayClass)
    ensures !AssignableFrom(NumberClass, BoxedIntArrayClass)
  {
  }

  /** Which tested classes IoSerializableClass is assignable from. */
  lemma TestsOnIoSerializable()
    ensures forall q :: !AssignableFrom(IoSerializableClass, Primitive(q))
    ensures forall q :: AssignableFrom(IoSerializableClass, Boxed(q))
    ensures AssignableFrom(IoSerializableClass, ByteArrayClass)
    ensures AssignableFrom(IoSerializableClass, BoxedByteArrayClass)
    ensures AssignableFrom(IoSerializableClass, StringClass)
    ensures AssignableFrom(IoSerializableClass, IntArrayClass)
    ensures AssignableFrom(IoSerializableClass, BoxedIntArrayClass)
  {
  }

  /** Which tested classes ComparableClass is assignable from. */
  lemma TestsOnComparable()
    ensures forall q :: !AssignableFrom(ComparableClass, Primitive(q))
    ensures forall q :: AssignableFrom(ComparableClass, Boxed(q))
    ensures !AssignableFrom(ComparableClass, ByteArrayClass)
    ensures !AssignableFrom(ComparableClass, BoxedByteArrayClass)
    ensures AssignableFrom(ComparableClass, StringClass)
    ensures !AssignableFrom(ComparableClass, IntArrayClass)
    ensures !AssignableFrom(ComparableClass, BoxedIntArrayClass)
  {
  }

  /** Which tested classes CloneableClass is assignable from. */
  lemma TestsOnCloneable()
    ensures forall q :: !AssignableFrom(CloneableClass, Primitive(q))
    ensures forall q :: !AssignableFrom(CloneableClass, Boxed(q))
    ensures AssignableFrom(CloneableClass, ByteArrayClass)
    ensures AssignableFrom(CloneableClass, BoxedByteArrayClass)
    ensures !AssignableFrom(CloneableClass, StringClass)
    ensures AssignableFrom(CloneableClass, IntArrayClass)
    ensures AssignableFrom(CloneableClass, BoxedIntArrayClass)
  {
  }

  /** Which tested classes ObjectArrayClass is assignable from. */
  lemma TestsOnObjectArray()
    ensures forall q :: !AssignableFrom(ObjectArrayClass, Primitive(q))
    ensures forall q :: !AssignableFrom(ObjectArrayClass, Boxed(q))
    ensures !AssignableFrom(ObjectArrayClass, ByteArrayClass)
    ensures AssignableFrom(ObjectArrayClass, BoxedByteArrayClass)
    ensures !AssignableFrom(ObjectArrayClass, StringClass)
    ensures !AssignableFrom(ObjectArrayClass, IntArrayClass)
    ensures AssignableFrom(ObjectArrayClass, BoxedIntArrayClass)
  {
  }

  // The tables' values on the classes that carry a parameter.
  lemma ReferenceIdOnPrimitive(clazz: Class)
    requires clazz.Primitive?
    ensures ReferenceId(clazz) == PrimId(clazz.p)
  {
  }

  lemma ReferenceIdOnBoxed(clazz: Class)
    requires clazz.Boxed?
    ensures ReferenceId(clazz) == PrimId(clazz.p)
  {
  }

  lemma ReferenceIdOnSerializable(clazz: Class)
    requires clazz.SerializableClass?
    ensures ReferenceId(clazz) == NBT_TAG_COMPOUND
  {
  }

  lemma ReferenceIdOnList(clazz: Class)
    requires clazz.ListClass?
    ensures ReferenceId(clazz) == NBT_TAG_LIST
  {
  }

  lemma ReferenceIdOnOther(clazz: Class)
    requires clazz.OtherClass?
    ensures ReferenceId(clazz) == NBT_TAG_COMPOUND
  {
  }

  lemma FieldRuleOnPrimitive(fc: Class)
    requires fc.Primitive?
    ensures FieldRule(fc) == PrimRule(fc.p)
  {
  }

  lemma FieldRuleOnBoxed(fc: Class)
    requires fc.Boxed?
    ensures FieldRule(fc) == PrimRule(fc.p)
  {
  }

  lemma FieldRuleOnSerializable(fc: Class)
    requires fc.SerializableClass?
    ensures FieldRule(fc) == CompoundRule
  {
  }

  lemma FieldRuleOnList(fc: Class)
    requires fc.ListClass?
    ensures FieldRule(fc) == ListRule
  {
  }

  lemma FieldRuleOnOther(fc: Class)
    requires fc.OtherClass?
    ensures FieldRule(fc) == NoRule
  {
  }

  lemma ElementRuleOnPrimitive(subclass: Class)
    requires subclass.Primitive?
    ensures ElementRule(subclass) == NoRule
  {
  }

  lemma ElementRuleOnBoxed(subclass: Class)
    requires subclass.Boxed?
    ensures ElementRule(subclass) == PrimRule(subclass.p)
  {
  }

  lemma ElementRuleOnSerializable(subclass: Class)
    requires subclass.SerializableClass?
    ensures ElementRule(subclass) == CompoundRule
  {
  }

  lemma ElementRuleOnList(subclass: Class)
    requires subclass.ListClass?
    ensures ElementRule(subclass) == ListRule
  {
  }

  lemma ElementRuleOnOther(subclass: Class)
    requires subclass.OtherClass?
    ensures ElementRule(subclass) == NoRule
  {
  }

  // GetIDFromClass against ReferenceId, one group of classes at a time.
  lemma GetIDFromClassOnPrimitive(clazz: Class)
    requires clazz.Primitive?
    ensures GetIDFromClass(clazz) == ReferenceId(clazz)
  {
    TestsOnPrimitive(clazz);
    ReferenceIdOnPrimitive(clazz);
  }

  lemma GetIDFromClassOnBoxed(clazz: Class)
    requires clazz.Boxed?
    ensures GetIDFromClass(clazz) == ReferenceId(clazz)
  {
    TestsOnBoxed(clazz);
    ReferenceIdOnBoxed(clazz);
  }

  lemma GetIDFromClassOnSerializable(clazz: Class)
    requires clazz.SerializableClass?
    ensures GetIDFromClass(clazz) == ReferenceId(clazz)
  {
    TestsOnSerializable(clazz);
    ReferenceIdOnSerializable(clazz);
  }

  lemma GetIDFromClassOnList(clazz: Class)
    requires clazz.ListClass?
    ensures GetIDFromClass(clazz) == ReferenceId(clazz)
  {
    TestsOnList(clazz);
    ReferenceIdOnList(clazz);
  }

  lemma GetIDFromClassOnOther(clazz: Class)
    requires clazz.OtherClass?
    ensures GetIDFromClass(clazz) == ReferenceId(clazz)
  {
    TestsOnOther(clazz);
    ReferenceIdOnOther(clazz);
  }

  lemma GetIDFromClassOnByteArray(clazz: Class)
    requires clazz == ByteArrayClass
    ensures GetIDFromClass(clazz) == ReferenceId(clazz)
  {
    TestsOnByteArray();
  }

  lemma GetIDFromClassOnBoxedByteArray(clazz: Class)
    requires clazz == BoxedByteArrayClass
    ensures GetIDFromClass(clazz) == ReferenceId(clazz)
  {
    TestsOnBoxedByteArray();
  }

  lemma GetIDFromClassOnIntArray(clazz: Class)
    requires clazz == IntArrayClass
    ensures GetIDFromClass(clazz) == ReferenceId(clazz)
  {
    TestsOnIntArray();
  }

  lemma GetIDFromClassOnBoxedIntArray(clazz: Class)
    requires clazz == BoxedIntArrayClass
    ensures GetIDFromClass(clazz) == ReferenceId(clazz)
  {
    TestsOnBoxedIntArray();
  }

  lemma GetIDFromClassOnString(clazz: Class)
    requires clazz == StringClass
    ensures GetIDFromClass(clazz) == ReferenceId(clazz)
  {
    TestsOnString();
  }

  lemma GetIDFromClassOnCharSequence(clazz: Class)
    requires clazz == CharSequenceClass
    ensures GetIDFromClass(clazz) == ReferenceId(clazz)
  {
    TestsOnCharSequence();
  }

  lemma GetIDFromClassOnObject(clazz: Class)
    requires clazz == ObjectClass
    ensures GetIDFromClass(clazz) == ReferenceId(clazz)
  {
    TestsOnObject();
  }

  lemma GetIDFromClassOnNumber(clazz: Class)
    requires clazz == NumberClass
    ensures GetIDFromClass(clazz) == ReferenceId(clazz)
  {
    TestsOnNumber();
  }

  lemma GetIDFromClassOnIoSerializable(clazz: Class)
    requires clazz == IoSerializableClass
    ensures GetIDFromClass(clazz) == ReferenceId(clazz)
  {
    TestsOnIoSerializable();
  }

  lemma GetIDFromClassOnComparable(clazz: Class)
    requires clazz == ComparableClass
    ensures GetIDFromClass(clazz) == ReferenceId(clazz)
  {
    TestsOnComparable();
  }

  lemma GetIDFromClassOnCloneable(clazz: Class)
    requires clazz == CloneableClass
    ensures GetIDFromClass(clazz) == ReferenceId(clazz)
  {
    TestsOnCloneable();
  }

  lemma GetIDFromClassOnObjectArray(clazz: Class)
    requires clazz == ObjectArrayClass
    ensures GetIDFromClass(clazz) == ReferenceId(clazz)
  {
    TestsOnObjectArray();
  }

  /** The ordered chain of getIDFromClass gives every class its reference ID. */
  lemma GetIDFromClassIsReference(clazz: Class)
    ensures GetIDFromClass(clazz) == ReferenceId(clazz)
  {
    match clazz {
      case Primitive(_) => GetIDFromClassOnPrimitive(clazz);
      case Boxed(_) => GetIDFromClassOnBoxed(clazz);
      case SerializableClass(_) => GetIDFromClassOnSerializable(clazz);
      case ListClass(_) => GetIDFromClassOnList(clazz);
      case OtherClass(_) => GetIDFromClassOnOther(clazz);
      case ByteArrayClass => GetIDFromClassOnByteArray(clazz);
      case BoxedByteArrayClass => GetIDFromClassOnBoxedByteArray(clazz);
      case IntArrayClass => GetIDFromClassOnIntArray(clazz);
      case BoxedIntArrayClass => GetIDFromClassOnBoxedIntArray(clazz);
      case StringClass => GetIDFromClassOnString(clazz);
      case CharSequenceClass => GetIDFromClassOnCharSequence(clazz);
      case ObjectClass => GetIDFromClassOnObject(clazz);
      case NumberClass => GetIDFromClassOnNumber(clazz);
      case IoSerializableClass => GetIDFromClassOnIoSerializable(clazz);
      case ComparableClass => GetIDFromClassOnComparable(clazz);
      case CloneableClass => GetIDFromClassOnCloneable(clazz);
      case ObjectArrayClass => GetIDFromClassOnObjectArray(clazz);
    }
  }

  // FieldWriteChain against FieldRule, one group of classes at a time.
  lemma FieldWriteChainOnPrimitive(fc: Class)
    requires fc.Primitive?
    ensures FieldWriteChain(fc) == FieldRule(fc)
  {
    TestsOnPrimitive(fc);
    FieldRuleOnPrimitive(fc);
  }

  lemma FieldWriteChainOnBoxed(fc: Class)
    requires fc.Boxed?
    ensures FieldWriteChain(fc) == FieldRule(fc)
  {
    TestsOnBoxed(fc);
    FieldRuleOnBoxed(fc);
  }

  lemma FieldWriteChainOnSerializable(fc: Class)
    requires fc.SerializableClass?
    ensures FieldWriteChain(fc) == FieldRule(fc)
  {
    TestsOnSerializable(fc);
    FieldRuleOnSerializable(fc);
  }

  lemma FieldWriteChainOnList(fc: Class)
    requires fc.ListClass?
    ensures FieldWriteChain(fc) == FieldRule(fc)
  {
    TestsOnList(fc);
    FieldRuleOnList(fc);
  }

  lemma FieldWriteChainOnOther(fc: Class)
    requires fc.OtherClass?
    ensures FieldWriteChain(fc) == FieldRule(fc)
  {
    TestsOnOther(fc);
    FieldRuleOnOther(fc);
  }

  lemma FieldWriteChainOnByteArray(fc: Class)
    requires fc == ByteArrayClass
    ensures FieldWriteChain(fc) == FieldRule(fc)
  {
    TestsOnByteArray();
  }

  lemma FieldWriteChainOnBoxedByteArray(fc: Class)
    requires fc == BoxedByteArrayClass
    ensures FieldWriteChain(fc) == FieldRule(fc)
  {
    TestsOnBoxedByteArray();
  }

  lemma FieldWriteChainOnIntArray(fc: Class)
    requires fc == IntArrayClass
    ensures FieldWriteChain(fc) == FieldRule(fc)
  {
    TestsOnIntArray();
  }

  lemma FieldWriteChainOnBoxedIntArray(fc: Class)
    requires fc == BoxedIntArrayClass
    ensures FieldWriteChain(fc) == FieldRule(fc)
  {
    TestsOnBoxedIntArray();
  }

  lemma FieldWriteChainOnString(fc: Class)
    requires fc == StringClass
    ensures FieldWriteChain(fc) == FieldRule(fc)
  {
    TestsOnString();
  }

  lemma FieldWriteChainOnCharSequence(fc: Class)
    requires fc == CharSequenceClass
    ensures FieldWriteChain(fc) == FieldRule(fc)
  {
    TestsOnCharSequence();
  }

  lemma FieldWriteChainOnObject(fc: Class)
    requires fc == ObjectClass
    ensures FieldWriteChain(fc) == FieldRule(fc)
  {
    TestsOnObject();
  }

  lemma FieldWriteChainOnNumber(fc: Class)
    requires fc == NumberClass
    ensures FieldWriteChain(fc) == FieldRule(fc)
  {
    TestsOnNumber();
  }

  lemma FieldWriteChainOnIoSerializable(fc: Class)
    requires fc == IoSerializableClass
    ensures FieldWriteChain(fc) == FieldRule(fc)
  {
    TestsOnIoSerializable();
  }

  lemma FieldWriteChainOnComparable(fc: Class)
    requires fc == ComparableClass
    ensures FieldWriteChain(fc) == FieldRule(fc)
  {
    TestsOnComparable();
  }

  lemma FieldWriteChainOnCloneable(fc: Class)
    requires fc == CloneableClass
    ensures FieldWriteChain(fc) == FieldRule(fc)
  {
    TestsOnCloneable();
  }

  lemma FieldWriteChainOnObjectArray(fc: Class)
    requires fc == ObjectArrayClass
    ensures FieldWriteChain(fc) == FieldRule(fc)
  {
    TestsOnObjectArray();
  }

  /** serialize's chain selects, for every declared class, the branch FieldRule gives it. */
  lemma FieldWriteChainIsFieldRule(fc: Class)
    ensures FieldWriteChain(fc) == FieldRule(fc)
  {
    match fc {
      case Primitive(_) => FieldWriteChainOnPrimitive(fc);
      case Boxed(_) => FieldWriteChainOnBoxed(fc);
      case SerializableClass(_) => FieldWriteChainOnSerializable(fc);
      case ListClass(_) => FieldWriteChainOnList(fc);
      case OtherClass(_) => FieldWriteChainOnOther(fc);
      case ByteArrayClass => FieldWriteChainOnByteArray(fc);
      case BoxedByteArrayClass => FieldWriteChainOnBoxedByteArray(fc);
      case IntArrayClass => FieldWriteChainOnIntArray(fc);
      case BoxedIntArrayClass => FieldWriteChainOnBoxedIntArray(fc);
      case StringClass => FieldWriteChainOnString(fc);
      case CharSequenceClass => FieldWriteChainOnCharSequence(fc);
      case ObjectClass => FieldWriteChainOnObject(fc);
      case NumberClass => FieldWriteChainOnNumber(fc);
      case IoSerializableClass => FieldWriteChainOnIoSerializable(fc);
      case ComparableClass => FieldWriteChainOnComparable(fc);
      case CloneableClass => FieldWriteChainOnCloneable(fc);
      case ObjectArrayClass => FieldWriteChainOnObjectArray(fc);
    }
  }

  // FieldReadChain against FieldRule, one group of classes at a time.
  lemma FieldReadChainOnPrimitive(fc: Class)
    requires fc.Primitive?
    ensures FieldReadChain(fc) == FieldRule(fc)
  {
    TestsOnPrimitive(fc);
    FieldRuleOnPrimitive(fc);
  }

  lemma FieldReadChainOnBoxed(fc: Class)
    requires fc.Boxed?
    ensures FieldReadChain(fc) == FieldRule(fc)
  {
    TestsOnBoxed(fc);
    FieldRuleOnBoxed(fc);
  }

  lemma FieldReadChainOnSerializable(fc: Class)
    requires fc.SerializableClass?
    ensures FieldReadChain(fc) == FieldRule(fc)
  {
    TestsOnSerializable(fc);
    FieldRuleOnSerializable(fc);
  }

  lemma FieldReadChainOnList(fc: Class)
    requires fc.ListClass?
    ensures FieldReadChain(fc) == FieldRule(fc)
  {
    TestsOnList(fc);
    FieldRuleOnList(fc);
  }

  lemma FieldReadChainOnOther(fc: Class)
    requires fc.OtherClass?
    ensures FieldReadChain(fc) == FieldRule(fc)
  {
    TestsOnOther(fc);
    FieldRuleOnOther(fc);
  }

  lemma FieldReadChainOnByteArray(fc: Class)
    requires fc == ByteArrayClass
    ensures FieldReadChain(fc) == FieldRule(fc)
  {
    TestsOnByteArray();
  }

  lemma FieldReadChainOnBoxedByteArray(fc: Class)
    requires fc == BoxedByteArrayClass
    ensures FieldReadChain(fc) == FieldRule(fc)
  {
    TestsOnBoxedByteArray();
  }

  lemma FieldReadChainOnIntArray(fc: Class)
    requires fc == IntArrayClass
    ensures FieldReadChain(fc) == FieldRule(fc)
  {
    TestsOnIntArray();
  }

  lemma FieldReadChainOnBoxedIntArray(fc: Class)
    requires fc == BoxedIntArrayClass
    ensures FieldReadChain(fc) == FieldRule(fc)
  {
    TestsOnBoxedIntArray();
  }

  lemma FieldReadChainOnString(fc: Class)
    requires fc == StringClass
    ensures FieldReadChain(fc) == FieldRule(fc)
  {
    TestsOnString();
  }

  lemma FieldReadChainOnCharSequence(fc: Class)
    requires fc == CharSequenceClass
    ensures FieldReadChain(fc) == FieldRule(fc)
  {
    TestsOnCharSequence();
  }

  lemma FieldReadChainOnObject(fc: Class)
    requires fc == ObjectClass
    ensures FieldReadChain(fc) == FieldRule(fc)
  {
    TestsOnObject();
  }

  lemma FieldReadChainOnNumber(fc: Class)
    requires fc == NumberClass
    ensures FieldReadChain(fc) == FieldRule(fc)
  {
    TestsOnNumber();
  }

  lemma FieldReadChainOnIoSerializable(fc: Class)
    requires fc == IoSerializableClass
    ensures FieldReadChain(fc) == FieldRule(fc)
  {
    TestsOnIoSerializable();
  }

  lemma FieldReadChainOnComparable(fc: Class)
    requires fc == ComparableClass
    ensures FieldReadChain(fc) == FieldRule(fc)
  {
    TestsOnComparable();
  }

  lemma FieldReadChainOnCloneable(fc: Class)
    requires fc == CloneableClass
    ensures FieldReadChain(fc) == FieldRule(fc)
  {
    TestsOnCloneable();
  }

  lemma FieldReadChainOnObjectArray(fc: Class)
    requires fc == ObjectArrayClass
    ensures FieldReadChain(fc) == FieldRule(fc)
  {
    TestsOnObjectArray();
  }

  /** deserialize's chain selects the same branch: it reads a field the way serialize writes it. */
  lemma FieldReadChainIsFieldRule(fc: Class)
    ensures FieldReadChain(fc) == FieldRule(fc)
  {
    match fc {
      case Primitive(_) => FieldReadChainOnPrimitive(fc);
      case Boxed(_) => FieldReadChainOnBoxed(fc);
      case SerializableClass(_) => FieldReadChainOnSerializable(fc);
      case ListClass(_) => FieldReadChainOnList(fc);
      case OtherClass(_) => FieldReadChainOnOther(fc);
      case ByteArrayClass => FieldReadChainOnByteArray(fc);
      case BoxedByteArrayClass => FieldReadChainOnBoxedByteArray(fc);
      case IntArrayClass => FieldReadChainOnIntArray(fc);
      case BoxedIntArrayClass => FieldReadChainOnBoxedIntArray(fc);
      case StringClass => FieldReadChainOnString(fc);
      case CharSequenceClass => FieldReadChainOnCharSequence(fc);
      case ObjectClass => FieldReadChainOnObject(fc);
      case NumberClass => FieldReadChainOnNumber(fc);
      case IoSerializableClass => FieldReadChainOnIoSerializable(fc);
      case ComparableClass => FieldReadChainOnComparable(fc);
      case CloneableClass => FieldReadChainOnCloneable(fc);
      case ObjectArrayClass => FieldReadChainOnObjectArray(fc);
    }
  }

  // ElementChain against ElementRule, one group of classes at a time.
  lemma ElementChainOnPrimitive(subclass: Class)
    requires subclass.Primitive?
    ensures ElementChain(subclass) == ElementRule(subclass)
  {
    TestsOnPrimitive(subclass);
    ElementRuleOnPrimitive(subclass);
  }

  lemma ElementChainOnBoxed(subclass: Class)
    requires subclass.Boxed?
    ensures ElementChain(subclass) == ElementRule(subclass)
  {
    TestsOnBoxed(subclass);
    ElementRuleOnBoxed(subclass);
  }

  lemma ElementChainOnSerializable(subclass: Class)
    requires subclass.SerializableClass?
    ensures ElementChain(subclass) == ElementRule(subclass)
  {
    TestsOnSerializable(subclass);
    ElementRuleOnSerializable(subclass);
  }

  lemma ElementChainOnList(subclass: Class)
    requires subclass.ListClass?
    ensures ElementChain(subclass) == ElementRule(subclass)
  {
    TestsOnList(subclass);
    ElementRuleOnList(subclass);
  }

  lemma ElementChainOnOther(subclass: Class)
    requires subclass.OtherClass?
    ensures ElementChain(subclass) == ElementRule(subclass)
  {
    TestsOnOther(subclass);
    ElementRuleOnOther(subclass);
  }

  lemma ElementChainOnByteArray(subclass: Class)
    requires subclass == ByteArrayClass
    ensures ElementChain(subclass) == ElementRule(subclass)
  {
    TestsOnByteArray();
  }

  lemma ElementChainOnBoxedByteArray(subclass: Class)
    requires subclass == BoxedByteArrayClass
    ensures ElementChain(subclass) == ElementRule(subclass)
  {
    TestsOnBoxedByteArray();
  }

  lemma ElementChainOnIntArray(subclass: Class)
    requires subclass == IntArrayClass
    ensures ElementChain(subclass) == ElementRule(subclass)
  {
    TestsOnIntArray();
  }

  lemma ElementChainOnBoxedIntArray(subclass: Class)
    requires subclass == BoxedIntArrayClass
    ensures ElementChain(subclass) == ElementRule(subclass)
  {
    TestsOnBoxedIntArray();
  }

  lemma ElementChainOnString(subclass: Class)
    requires subclass == StringClass
    ensures ElementChain(subclass) == ElementRule(subclass)
  {
    TestsOnString();
  }

  lemma ElementChainOnCharSequence(subclass: Class)
    requires subclass == CharSequenceClass
    ensures ElementChain(subclass) == ElementRule(subclass)
  {
    TestsOnCharSequence();
  }

  lemma ElementChainOnObject(subclass: Class)
    requires subclass == ObjectClass
    ensures ElementChain(subclass) == ElementRule(subclass)
  {
    TestsOnObject();
  }

  lemma ElementChainOnNumber(subclass: Class)
    requires subclass == NumberClass
    ensures ElementChain(subclass) == ElementRule(subclass)
  {
    TestsOnNumber();
  }

  lemma ElementChainOnIoSerializable(subclass: Class)
    requires subclass == IoSerializableClass
    ensures ElementChain(subclass) == ElementRule(subclass)
  {
    TestsOnIoSerializable();
  }

  lemma ElementChainOnComparable(subclass: Class)
    requires subclass == ComparableClass
    ensures ElementChain(subclass) == ElementRule(subclass)
  {
    TestsOnComparable();
  }

  lemma ElementChainOnCloneable(subclass: Class)
    requires subclass == CloneableClass
    ensures ElementChain(subclass) == ElementRule(subclass)
  {
    TestsOnCloneable();
  }

  lemma ElementChainOnObjectArray(subclass: Class)
    requires subclass == ObjectArrayClass
    ensures ElementChain(subclass) == ElementRule(subclass)
  {
    TestsOnObjectArray();
  }

  /** serializeList's and deserializeList's chain selects, for every element class, the branch ElementRule gives it. */
  lemma ElementChainIsElementRule(subclass: Class)
    ensures ElementChain(subclass) == ElementRule(subclass)
  {
    match subclass {
      case Primitive(_) => ElementChainOnPrimitive(subclass);
      case Boxed(_) => ElementChainOnBoxed(subclass);
      case SerializableClass(_) => ElementChainOnSerializable(subclass);
      case ListClass(_) => ElementChainOnList(subclass);
      case OtherClass(_) => ElementChainOnOther(subclass);
      case ByteArrayClass => ElementChainOnByteArray(subclass);
      case BoxedByteArrayClass => ElementChainOnBoxedByteArray(subclass);
      case IntArrayClass => ElementChainOnIntArray(subclass);
      case BoxedIntArrayClass => ElementChainOnBoxedIntArray(subclass);
      case StringClass => ElementChainOnString(subclass);
      case CharSequenceClass => ElementChainOnCharSequence(subclass);
      case ObjectClass => ElementChainOnObject(subclass);
      case NumberClass => ElementChainOnNumber(subclass);
      case IoSerializableClass => ElementChainOnIoSerializable(subclass);
      case ComparableClass => ElementChainOnComparable(subclass);
      case CloneableClass => ElementChainOnCloneable(subclass);
      case ObjectArrayClass => ElementChainOnObjectArray(subclass);
    }
  }

  /** The table of field rules writes, for each class, the kind of tag the reference table gives it. */
  lemma FieldRuleAgreesWithReference(fc: Class)
    requires FieldRule(fc) != NoRule
    ensures RuleTagId(FieldRule(fc)) == ReferenceId(fc)
  {
  }

  /** The tag serialize writes for a field has the kind getIDFromClass gives its declared class. */
  lemma FieldRuleAgreesWithId(fc: Class)
    requires FieldRule(fc) != NoRule
    ensures RuleTagId(FieldRule(fc)) == GetIDFromClass(fc)
  {
    GetIDFromClassIsReference(fc);
    FieldRuleAgreesWithReference(fc);
  }

  /** The table of element rules writes, for each class, the kind of tag the reference table gives it. */
  lemma ElementRuleAgreesWithReference(subclass: Class)
    requires ElementRule(subclass) != NoRule
    ensures RuleTagId(ElementRule(subclass)) == ReferenceId(subclass)
  {
  }

  /**
   * The tags serializeList writes have the kind getIDFromClass gives the element class,
   * which is the kind deserialize requests with getTagList.
   */
  lemma ElementRuleAgreesWithId(subclass: Class)
    requires ElementRule(subclass) != NoRule
    ensures RuleTagId(ElementRule(subclass)) == GetIDFromClass(subclass)
  {
    GetIDFromClassIsReference(subclass);
    ElementRuleAgreesWithReference(subclass);
  }
}
