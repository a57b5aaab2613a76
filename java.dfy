/**
 * The Java side of the codec: the classes a serializable field can be declared with,
 * the generic types reflection reports for them, per-class field descriptors (standing
 * in for reflection and the @NBTSerialize annotation), runtime values and the
 * exceptions the codec can raise.
 */
module JavaModel {
  import opened Wrappers

  // Java's fixed-width integers.
  type Int8 = x: int | -0x80 <= x < 0x80
  type Int16 = x: int | -0x8000 <= x < 0x8000
  type Int32 = x: int | -0x8000_0000 <= x < 0x8000_0000
  type Int64 = x: int | -0x8000_0000_0000_0000 <= x < 0x8000_0000_0000_0000
  // float and double are carried as opaque IEEE 754 bit patterns; no arithmetic is done on them.
  type FloatBits = x: int | 0 <= x < 0x1_0000_0000
  type DoubleBits = x: int | 0 <= x < 0x1_0000_0000_0000_0000
  // char is an unsigned 16-bit UTF-16 code unit.
  type Char16 = x: int | 0 <= x < 0x1_0000

  /** The primitive types a field can be declared with (char is one; the codec has no branch for it). */
  datatype Prim = PByte | PBoolean | PShort | PInt | PLong | PFloat | PDouble | PChar

  /**
   * java.util.List and the two concrete implementations the model distinguishes. Any
   * other List class stands as one of the two when it can be constructed, and as the
   * interface when it cannot.
   */
  datatype ListImpl = ListInterface | ArrayList | LinkedList

  /**
   * A raw java.lang.Class. The classes the codec's chains test against (the primitive
   * and boxed numeric classes, the four array classes and String) are listed with the
   * library supertypes they have, so that a field declared with a supertype takes the
   * branch Java gives it.
   */
  datatype Class =
    | Primitive(p: Prim)             // byte.class, boolean.class, ..., char.class
    | Boxed(p: Prim)                 // Byte.class, Boolean.class, ..., Character.class
    | ByteArrayClass                 // byte[].class
    | BoxedByteArrayClass            // Byte[].class
    | IntArrayClass                  // int[].class
    | BoxedIntArrayClass             // Integer[].class
    | StringClass
    | ObjectClass                    // java.lang.Object
    | NumberClass                    // java.lang.Number
    | IoSerializableClass            // java.io.Serializable
    | ComparableClass                // java.lang.Comparable
    | CharSequenceClass              // java.lang.CharSequence
    | CloneableClass                 // java.lang.Cloneable
    | ObjectArrayClass               // Object[].class
    | SerializableClass(name: string)  // a class implementing INBTSerializable
    | ListClass(impl: ListImpl)
    | OtherClass(name: string)       // any other reference type that is neither a supertype nor a subtype of List or INBTSerializable and is a supertype of none of the tested classes (Map, Thread, ...)
  {
    /** An array class. */
    predicate IsArray() {
      ByteArrayClass? || BoxedByteArrayClass? || IntArrayClass? || BoxedIntArrayClass? || ObjectArrayClass?
    }

    /** A concrete list class: ArrayList or LinkedList. */
    predicate IsListImpl() {
      ListClass? && impl != ListInterface
    }
  }

  /**
   * What Field.getGenericType reports: a plain class, or a list parameterized by its
   * element type, which is itself a class or a parameterized list.
   */
  datatype JType = Plain(c: Class) | Parameterized(impl: ListImpl, arg: JType)

  /** The raw class of a generic type (Field.getType, ParameterizedType.getRawType). */
  function RawClass(t: JType): Class {
    match t
    case Plain(c) => c
    case Parameterized(impl, _) => ListClass(impl)
  }

  /**
   * to.isAssignableFrom(from): `from` is `to` or one of its subtypes, as in the Java 8
   * class library. Primitive classes are assignable only from themselves; every
   * reference class is an Object; the boxed numeric classes are Numbers; the boxed
   * classes, String, Number, arrays, ArrayList and LinkedList are java.io.Serializable;
   * the boxed classes and String are Comparable; String is a CharSequence; arrays,
   * ArrayList and LinkedList are Cloneable; Byte[] and Integer[] are Object[]s;
   * ArrayList and LinkedList are Lists. The interfaces a user class implements are not
   * recorded: it is taken to be a subtype of Object only.
   */
  predicate AssignableFrom(to: Class, from: Class): (r: bool)
    ensures to.Primitive? || from.Primitive? ==> (r <==> to == from)
  {
    || to == from
    || (to == ObjectClass && !from.Primitive?)
    || (to == NumberClass && from.Boxed? && from.p != PBoolean && from.p != PChar)
    || (to == IoSerializableClass && (from.Boxed? || from.IsArray() || from == StringClass || from == NumberClass || from.IsListImpl()))
    || (to == ComparableClass && (from.Boxed? || from == StringClass))
    || (to == CharSequenceClass && from == StringClass)
    || (to == CloneableClass && (from.IsArray() || from.IsListImpl()))
    || (to == ObjectArrayClass && (from == BoxedByteArrayClass || from == BoxedIntArrayClass))
    || (to == ListClass(ListInterface) && from.ListClass?)
  }

  /** Assignability is transitive: a subtype of a subtype is a subtype. */
  lemma AssignableFromTransitive(a: Class, b: Class, c: Class)
    requires AssignableFrom(a, b) && AssignableFrom(b, c)
    ensures AssignableFrom(a, c)
  {
  }

  /** Assignability is antisymmetric: two classes each assignable from the other are the same class. */
  lemma AssignableFromAntisymmetric(a: Class, b: Class)
    requires AssignableFrom(a, b) && AssignableFrom(b, a)
    ensures a == b
  {
  }

  /** INBTSerializable.class.isAssignableFrom(c). */
  predicate IsSerializable(c: Class) {
    c.SerializableClass?
  }

  /** List.class.isAssignableFrom(c). */
  predicate IsList(c: Class) {
    c.ListClass?
  }

  /**
   * One declared field of a serializable class: its identifier, its @NBTSerialize
   * annotation (None when the field is not annotated; the annotation's name() defaults
   * to "") and its declared generic type; and the value its initialiser or the nullary
   * constructor leaves in it (None when neither assigns it).
   */
  datatype FieldDesc = FieldDesc(name: string, annotation: Option<string>, declared: JType, initial: Option<JVal>)

  /**
   * What reflection reports about a serializable class: its name, whether
   * Class.newInstance succeeds on it (a nullary constructor exists and the class is not
   * abstract), and its declared fields in getDeclaredFields order.
   */
  datatype ClassDesc = ClassDesc(name: string, constructible: bool, fields: seq<FieldDesc>)

  /** The tag name of an annotated field: the annotation's name, or the field's own name when that is empty. */
  function TagName(fd: FieldDesc): (tn: string)
    requires fd.annotation.Some?
    ensures fd.annotation.value != "" ==> tn == fd.annotation.value
    ensures fd.annotation.value == "" ==> tn == fd.name
  {
    var n := fd.annotation.value;
    if n == "" then fd.name else n
  }

  function FieldNames(d: ClassDesc): set<string> {
    set i | 0 <= i < |d.fields| :: d.fields[i].name
  }

  /** A Java value as reflection sees it: null, a (boxed) primitive, an array, a string, or an object. */
  datatype JVal =
    | Null
    | ByteVal(b: Int8)
    | BoolVal(z: bool)
    | ShortVal(s: Int16)
    | IntVal(i: Int32)
    | LongVal(l: Int64)
    | FloatVal(f: FloatBits)
    | DoubleVal(d: DoubleBits)
    | ByteArrayVal(bytes: seq<Int8>)
    | BoxedByteArrayVal(boxedBytes: seq<Option<Int8>>)
    | IntArrayVal(ints: seq<Int32>)
    | BoxedIntArrayVal(boxedInts: seq<Option<Int32>>)
    | StringVal(str: string)
    | ObjectVal(desc: ClassDesc, fields: map<string, JVal>)   // an INBTSerializable instance
    | ListVal(impl: ListImpl, elems: seq<JVal>)
    | CharVal(c: Char16)                                       // a Character
    | OtherVal(cls: string)                                    // an instance of some other class

  /** v.getClass() for a non-null value. */
  function ClassOf(v: JVal): Class
    requires v != Null
  {
    match v
    case ByteVal(_) => Boxed(PByte)
    case BoolVal(_) => Boxed(PBoolean)
    case ShortVal(_) => Boxed(PShort)
    case IntVal(_) => Boxed(PInt)
    case LongVal(_) => Boxed(PLong)
    case FloatVal(_) => Boxed(PFloat)
    case DoubleVal(_) => Boxed(PDouble)
    case ByteArrayVal(_) => ByteArrayClass
    case BoxedByteArrayVal(_) => BoxedByteArrayClass
    case IntArrayVal(_) => IntArrayClass
    case BoxedIntArrayVal(_) => BoxedIntArrayClass
    case StringVal(_) => StringClass
    case ObjectVal(d, _) => SerializableClass(d.name)
    case ListVal(impl, _) => ListClass(impl)
    case CharVal(_) => Boxed(PChar)
    case OtherVal(n) => OtherClass(n)
  }

  /** The value of field `name`; a field the map does not hold reads as null. */
  function FieldValue(fields: map<string, JVal>, name: string): (v: JVal)
    ensures name in fields ==> v == fields[name]
    ensures name !in fields ==> v == Null
  {
    if name in fields then fields[name] else Null
  }

  /** The value Java gives a field of type t that nothing assigns: zero, false, '\0' or null. */
  function Default(t: JType): JVal {
    match t
    case Plain(Primitive(p)) =>
      (match p
       case PByte => ByteVal(0)
       case PBoolean => BoolVal(false)
       case PShort => ShortVal(0)
       case PInt => IntVal(0)
       case PLong => LongVal(0)
       case PFloat => FloatVal(0)
       case PDouble => DoubleVal(0)
       case PChar => CharVal(0))
    case _ => Null
  }

  /** The value a field holds once Class.newInstance has run the initialisers and the nullary constructor. */
  function InitialValue(fd: FieldDesc): JVal {
    if fd.initial.Some? then fd.initial.value else Default(fd.declared)
  }

  /** The fields of an object just built by Class.newInstance. */
  function InitialFields(d: ClassDesc): (m: map<string, JVal>)
    ensures m.Keys == FieldNames(d)
  {
    map n | n in FieldNames(d) :: InitialOf(d.fields, n)
  }

  /** The initial value of the first field called `n`. */
  function InitialOf(fds: seq<FieldDesc>, n: string): JVal {
    if |fds| == 0 then Null
    else if fds[0].name == n then InitialValue(fds[0])
    else InitialOf(fds[1..], n)
  }

  /** No two declared fields share an identifier (as javac guarantees within one class). */
  predicate DistinctFieldNames(d: ClassDesc) {
    forall i, j :: 0 <= i < j < |d.fields| ==> d.fields[i].name != d.fields[j].name
  }

  /**
   * A field whose name no earlier field has starts out with what its initialiser or the
   * constructor assigns, and otherwise with its type's default.
   */
  lemma {:induction false} InitialOfAt(fds: seq<FieldDesc>, j: nat)
    requires j < |fds| && forall i :: 0 <= i < j ==> fds[i].name != fds[j].name
    ensures InitialOf(fds, fds[j].name) == InitialValue(fds[j])
  {
    if j > 0 {
      assert fds[0].name != fds[j].name;
      var rest := fds[1..];
      assert rest[j - 1] == fds[j];
      forall i | 0 <= i < j - 1
        ensures rest[i].name != rest[j - 1].name
      {
        assert rest[i] == fds[i + 1];
      }
      InitialOfAt(rest, j - 1);
    }
  }

  /** The exceptions the codec can raise. */
  datatype Error =
    | ClassCast        // a cast in the codec fails: the value or tag is of another kind than the matched rule
    | NullPointer      // a null list element, or a null element of a boxed array being unboxed
    | Instantiation    // Class.newInstance on an interface, an abstract class or a class without a nullary constructor
    | IllegalArgument  // Field.set(instance, null) on a field of primitive type
    | WrongTagKind     // the NBT compound holds a tag of another kind than the one requested

  /** The exception a failed cast of v raises once the value is used. */
  function CastFailure(v: JVal): Error {
    if v == Null then NullPointer else ClassCast
  }
}
