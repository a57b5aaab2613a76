# NBT-Serializer codec, modelled in Dafny

`NBTSerializer` turns an object of a class implementing `INBTSerializable` into an
NBT compound tag, and back again. The fields it handles are the ones annotated with
`@NBTSerialize`. Each field goes under a tag name: the annotation's `name()`, or the
field's own name when that is empty. The field's declared class picks the tag kind and
how the value is written, through an ordered chain of `isAssignableFrom` tests. The
supported kinds are:

- byte, boolean (as a byte), short, int, long, float and double, each boxed or not;
- `byte[]`/`Byte[]`, `int[]`/`Integer[]` and `String`;
- nested serializable objects;
- `List`s, whose element kind `serializeList` takes from the runtime class of the first
  element.

Reading back works the opposite way:

- `deserialize(instance, data, asNull)` overwrites an existing instance field by field.
  When a field's tag is missing, the field is set to null if `asNull` holds and left
  alone otherwise.
- `deserialize(definition, data)` constructs a fresh instance and fills it with `asNull`
  set.
- `deserializeList` rebuilds a list of the field's declared implementation. It takes the
  element type from the field's generic type argument, and nested lists recurse.
- `getIDFromClass` gives the tag kind that `getTagList` is asked for.

The model is organised as follows:

- `JavaModel` is the Java side:
  - raw classes and generic types;
  - `isAssignableFrom`;
  - per-class field descriptors, which stand in for reflection and the annotation;
  - runtime values;
  - the exceptions the codec can raise.
- `Nbt` holds the tag tree and the tag IDs 0–11.
- `ArrayUtils` holds `toObject` and `toPrimitive`.
- `Classifier` holds `getIDFromClass` and the three `isAssignableFrom` chains:
  - each chain is written as it appears in the source;
  - each is proved equal to a class-by-class table (`FieldRule`, `ElementRule`,
    `ReferenceId`), which shows that the first matching test wins.
- `LeafCodec` holds the direct value-to-tag conversions.
- `Serializer` holds `serialize` and `serializeList`:
  - each is a method with the source's loop;
  - each is proved to compute a specification function;
  - lemmas state what they write.
- `Deserializer` holds the `Instance` class. Its mutable `fields` map is overwritten in
  place by `Deserialize`. The module also holds:
  - the methods for `deserialize(definition, data)` and `deserializeList`, each proved to
    compute a specification function;
  - lemmas for the missing-tag policy, failure without rollback and order preservation.
- `RoundTrip` states when serialize-then-deserialize rebuilds an object, and proves it.

Floats and doubles are carried as opaque bit patterns.

Two behaviours of the code are worth stating, because the model follows them:

- `NBTSerialize` has only `name()`, so nothing can name a concrete class for a field
  declared with an interface. When a tag is present:
  - a field declared as `List<X>` reaches `deserializeList`. That constructs the declared
    class with `newInstance` (line 415), and an interface cannot be constructed, so the
    call throws `InstantiationException`;
  - a field declared as a raw `List` has a generic type that is not parameterized, so
    the cast at line 346 throws `ClassCastException` before `deserializeList` is reached.

  When the tag is missing, the field is skipped or set to null like any other field.
- `UnserializableClassException` is declared but never thrown. A field whose declared
  class no rule matches is never written. On reading, it is left alone when its tag is
  present; when its tag is missing, the missing-tag policy applies as to any other field.

## Model

| member | source | states |
|---|---|---|
| JavaModel.TagName | src/main/java/info/varden/nbtserial/NBTSerializer.java:87-88 | The tag name is the annotation's name when that is non-empty, and the field's own name when it is empty; serialize and deserialize both use this one definition |
| JavaModel.AssignableFrom | src/main/java/info/varden/nbtserial/NBTSerializer.java:100-118 | Class.isAssignableFrom on a primitive class holds only between the class and itself |
| JavaModel.AssignableFromTransitive | src/main/java/info/varden/nbtserial/NBTSerializer.java:100-118 | Assignability is transitive, as subtyping is |
| JavaModel.AssignableFromAntisymmetric | src/main/java/info/varden/nbtserial/NBTSerializer.java:100-118 | Two classes each assignable from the other are the same class |
| JavaModel.InitialFields | src/main/java/info/varden/nbtserial/NBTSerializer.java:212 | A freshly constructed instance holds exactly its declared fields |
| JavaModel.InitialOfAt | src/main/java/info/varden/nbtserial/NBTSerializer.java:212 | A constructed field starts at what its initialiser or the nullary constructor leaves there, or else at its type's default: zero, false or '\0' for a primitive, null otherwise |
| ArrayUtils.ToObject | src/main/java/info/varden/nbtserial/NBTSerializer.java:317 | toObject boxes every element, keeping length and order |
| ArrayUtils.ToPrimitive | src/main/java/info/varden/nbtserial/NBTSerializer.java:108 | toPrimitive succeeds exactly when no element is null, and then unboxes every element in order |
| ArrayUtils.ToPrimitiveToObject | src/main/java/info/varden/nbtserial/NBTSerializer.java:317 | Unboxing a boxed copy of a primitive array gives back that array |
| ArrayUtils.ToObjectToPrimitive | src/main/java/info/varden/nbtserial/NBTSerializer.java:111 | Boxing the unboxed copy of a null-free boxed array gives back that array |
| Nbt.Tag.Id | src/main/java/info/varden/nbtserial/NBTSerializer.java:33-44 | Every tag that holds a value has an ID from 1 to 11; End (0) is never one |
| Nbt.TagListOfKind | src/main/java/info/varden/nbtserial/NBTSerializer.java:372 | getTagList yields the stored list exactly when it is a list tag that is empty or records the requested element kind |
| Nbt.BooleanByte | src/main/java/info/varden/nbtserial/NBTSerializer.java:101 | A boolean is stored as byte 1 or 0, and the byte is nonzero exactly when the boolean is true |
| Classifier.GetIDFromClass | src/main/java/info/varden/nbtserial/NBTSerializer.java:502-521 | getIDFromClass is total and never returns NBT_TAG_END (every ID is 1 to 11); every serializable class gets NBT_TAG_COMPOUND |
| Classifier.GetIDFromClassIsReference | src/main/java/info/varden/nbtserial/NBTSerializer.java:507-520 | The first matching test decides the ID of every class: boolean and Boolean are Byte, Object and Number are Byte (Byte is tested first), every List is List, and a class matching no test is Compound |
| Classifier.FieldWriteChain | src/main/java/info/varden/nbtserial/NBTSerializer.java:100-118 | serialize's ordered chain of isAssignableFrom tests on a field's declared class, each boxed class tested with its primitive |
| Classifier.FieldReadChain | src/main/java/info/varden/nbtserial/NBTSerializer.java:302-378 | deserialize's ordered chain, which tests each primitive before its boxed class |
| Classifier.ElementChain | src/main/java/info/varden/nbtserial/NBTSerializer.java:420-490 | The element chain of serializeList and deserializeList, which tests boxed classes only |
| Classifier.PrimRule | src/main/java/info/varden/nbtserial/NBTSerializer.java:100-106 | Every primitive and boxed primitive is written directly as one tag |
| Classifier.FieldRule | src/main/java/info/varden/nbtserial/NBTSerializer.java:100-118 | A field is written as a compound exactly when its class is serializable, and as a list exactly when it is a List |
| Classifier.ElementRule | src/main/java/info/varden/nbtserial/NBTSerializer.java:162-178 | A list element is written as a compound exactly when its class is serializable, and as a list exactly when it is a List |
| Classifier.FieldWriteChainIsFieldRule | src/main/java/info/varden/nbtserial/NBTSerializer.java:100-118 | serialize's ordered chain picks, for every declared class, the branch that the class-by-class table gives it |
| Classifier.FieldReadChainIsFieldRule | src/main/java/info/varden/nbtserial/NBTSerializer.java:302-340 | deserialize's chain, which tests each primitive before its boxed class, picks the same branch as serialize's for every declared class |
| Classifier.ElementChainIsElementRule | src/main/java/info/varden/nbtserial/NBTSerializer.java:162-178 | The element chain that serializeList and deserializeList share picks, for every element class, the branch the table gives it; primitive arrays match nothing |
| Classifier.FieldRuleAgreesWithId | src/main/java/info/varden/nbtserial/NBTSerializer.java:100-118 | A handled field class is written as a tag of the kind getIDFromClass gives that class |
| Classifier.ElementRuleAgreesWithId | src/main/java/info/varden/nbtserial/NBTSerializer.java:372 | The element kind serializeList writes for a class is the kind deserialize asks getTagList for |
| LeafCodec.EncodeLeaf | src/main/java/info/varden/nbtserial/NBTSerializer.java:100-111 | A direct write produces a tag of the rule's kind; a null value throws NullPointerException |
| LeafCodec.DecodeLeaf | src/main/java/info/varden/nbtserial/NBTSerializer.java:302-320 | A direct read succeeds exactly when the stored tag has the rule's kind |
| LeafCodec.LeafRoundTrip | src/main/java/info/varden/nbtserial/NBTSerializer.java:100-111 | Reading back any scalar, String or array value that was written restores it, Byte[] and Integer[] included |
| LeafCodec.LeafTagRoundTrip | src/main/java/info/varden/nbtserial/NBTSerializer.java:302-320 | Writing back a value that was read restores the tag, except that a Boolean turns every nonzero byte into 1 |
| LeafCodec.BooleanRoundTrip | src/main/java/info/varden/nbtserial/NBTSerializer.java:163 | In a list, true is written as byte 1 and false as byte 0; any nonzero byte reads as true, so Booleans survive a round trip |
| Serializer.Encoded | src/main/java/info/varden/nbtserial/NBTSerializer.java:55-125 | What serialize returns for an object: the compound its field loop builds, or the first exception |
| Serializer.EncodedFields | src/main/java/info/varden/nbtserial/NBTSerializer.java:67-120 | The compound after the field loop has visited a prefix of the declared fields |
| Serializer.EncodedWith | src/main/java/info/varden/nbtserial/NBTSerializer.java:100-118 | The tag one branch writes for a value, or the exception its cast or unboxing throws |
| Serializer.EncodedList | src/main/java/info/varden/nbtserial/NBTSerializer.java:135-184 | What serializeList returns: no tags for an empty list, otherwise the tags its loop appends under the first element's branch |
| Serializer.EncodedElems | src/main/java/info/varden/nbtserial/NBTSerializer.java:155-179 | The tags serializeList's loop has appended after a prefix of the elements |
| Serializer.FieldOutcome | src/main/java/info/varden/nbtserial/NBTSerializer.java:67-80 | A field produces a tag only when it is annotated and holds a non-null value |
| Serializer.Serialize | src/main/java/info/varden/nbtserial/NBTSerializer.java:55-125 | The field loop computes Encoded: its result, or the exception it throws |
| Serializer.SerializeWith | src/main/java/info/varden/nbtserial/NBTSerializer.java:100-118 | One field's branch computes EncodedWith, recursing into serialize and serializeList |
| Serializer.SerializeList | src/main/java/info/varden/nbtserial/NBTSerializer.java:135-184 | The counted element loop computes EncodedList |
| Serializer.EncodedFieldsFails | src/main/java/info/varden/nbtserial/NBTSerializer.java:67-120 | serialize throws exactly when writing one of the fields throws |
| Serializer.EncodedFieldsKeys | src/main/java/info/varden/nbtserial/NBTSerializer.java:67-120 | The keys written are exactly the tag names of the fields that write |
| Serializer.EncodedFieldsLastWins | src/main/java/info/varden/nbtserial/NBTSerializer.java:67-120 | When tag names collide, setTag overwrites: the entry under a name holds the tag of the last field that writes under it |
| Serializer.EncodedFieldsValues | src/main/java/info/varden/nbtserial/NBTSerializer.java:100-118 | When tag names are distinct, each field that writes finds its own tag under its name |
| Serializer.SerializeEntries | src/main/java/info/varden/nbtserial/NBTSerializer.java:55-125 | serialize fails exactly when some field throws; otherwise it writes exactly one entry, holding that field's tag, under the resolved name of each annotated non-null field of a matched class, and no other entry |
| Serializer.SerializeSkips | src/main/java/info/varden/nbtserial/NBTSerializer.java:79-80 | An annotated field that is null, or declared with a class no test matches, leaves no entry |
| Serializer.EncodedWithKind | src/main/java/info/varden/nbtserial/NBTSerializer.java:100-118 | A written tag always has the kind of the branch that wrote it |
| Serializer.SerializedFieldKind | src/main/java/info/varden/nbtserial/NBTSerializer.java:92-118 | The tag written for a field has the kind getIDFromClass gives its declared class |
| Serializer.EncodedElemsFails | src/main/java/info/varden/nbtserial/NBTSerializer.java:155-179 | serializeList's loop fails exactly when writing one element throws |
| Serializer.EncodedElemsLength | src/main/java/info/varden/nbtserial/NBTSerializer.java:155-179 | With a matched element class, the loop appends exactly one tag per element |
| Serializer.EncodedElemsAt | src/main/java/info/varden/nbtserial/NBTSerializer.java:155-179 | The k-th tag appended is the one written for the k-th element |
| Serializer.EncodedElemsUnrecognised | src/main/java/info/varden/nbtserial/NBTSerializer.java:155-179 | With an element class no test matches, the loop appends nothing |
| Serializer.SerializeListInOrder | src/main/java/info/varden/nbtserial/NBTSerializer.java:152-179 | An empty list becomes an empty list tag; otherwise there is one tag per element, in order, each of the kind getIDFromClass gives the first element's class, or no tags when that class matches nothing |
| Deserializer.DecodedNew | src/main/java/info/varden/nbtserial/NBTSerializer.java:205-221 | What deserialize(definition, data) returns: an Instantiation failure for a class that cannot be constructed, else the new instance after the loop with asNull set |
| Deserializer.DecodedFields | src/main/java/info/varden/nbtserial/NBTSerializer.java:254-380 | The instance's fields, and whether an exception stopped the loop, after a prefix of the declared fields |
| Deserializer.FieldUpdate | src/main/java/info/varden/nbtserial/NBTSerializer.java:255-378 | What one field's turn does: nothing for an unannotated field; for a missing tag, nothing, or null, or an IllegalArgument failure on a primitive field; else the value read |
| Deserializer.DecodedValue | src/main/java/info/varden/nbtserial/NBTSerializer.java:294-378 | The value one read branch gives a present tag, recursing into deserialize and deserializeList |
| Deserializer.DecodedList | src/main/java/info/varden/nbtserial/NBTSerializer.java:401-494 | What deserializeList returns: an Instantiation failure for the List interface, else a list of the declared implementation holding what the loop adds |
| Deserializer.DecodedElement | src/main/java/info/varden/nbtserial/NBTSerializer.java:420-488 | One element's turn of deserializeList: nothing when the element class matches no test; ClassCast for a tag of another kind; a compound element is built, then dropped as written and kept under Corrected; a nested list recurses on the type argument; any other tag is converted directly |
| Deserializer.DecodedElems | src/main/java/info/varden/nbtserial/NBTSerializer.java:417-489 | The elements deserializeList's loop has added after a prefix of the tags |
| Deserializer.Instance.constructor | src/main/java/info/varden/nbtserial/NBTSerializer.java:212 | newInstance gives every declared field what its initialiser or the nullary constructor leaves there, or else its type's default |
| Deserializer.Instance.Deserialize | src/main/java/info/varden/nbtserial/NBTSerializer.java:247-381 | The in-place field loop leaves the instance's fields, and reports the outcome, exactly as DecodedFields gives them |
| Deserializer.ReadField | src/main/java/info/varden/nbtserial/NBTSerializer.java:255-378 | One turn of the field loop, missing-tag policy included, computes FieldUpdate |
| Deserializer.DeserializeNew | src/main/java/info/varden/nbtserial/NBTSerializer.java:205-221 | Constructing and then deserializing in place with asNull set computes DecodedNew |
| Deserializer.DeserializeValue | src/main/java/info/varden/nbtserial/NBTSerializer.java:294-378 | One field's read branch computes DecodedValue, recursing into deserialize and deserializeList |
| Deserializer.DeserializeList | src/main/java/info/varden/nbtserial/NBTSerializer.java:401-494 | Constructing the list, then running the counted loop, computes DecodedList |
| Deserializer.DeserializeElement | src/main/java/info/varden/nbtserial/NBTSerializer.java:417-488 | One element's read branch computes DecodedElement |
| Deserializer.DecodedFieldsFails | src/main/java/info/varden/nbtserial/NBTSerializer.java:254-380 | deserialize throws exactly when some field throws; the first such field decides the exception, and nothing written before it is rolled back |
| Deserializer.DecodedFieldsUntouched | src/main/java/info/varden/nbtserial/NBTSerializer.java:254-380 | A field that every visited field leaves alone keeps its value, even when a later field throws |
| Deserializer.DecodedFieldsSets | src/main/java/info/varden/nbtserial/NBTSerializer.java:254-380 | After a completed loop, each field the loop sets holds the value read for it |
| Deserializer.DecodedFieldsKeys | src/main/java/info/varden/nbtserial/NBTSerializer.java:254-380 | Deserializing never removes a field and only ever adds declared ones |
| Deserializer.MissingTagPolicy | src/main/java/info/varden/nbtserial/NBTSerializer.java:268-283 | A field whose tag is missing keeps its value when asNull is false; when asNull is true it becomes null, and the call throws if the field is primitive, char included |
| Deserializer.UnannotatedUntouched | src/main/java/info/varden/nbtserial/NBTSerializer.java:255 | A field without the annotation is never touched |
| Deserializer.DecodedNewFields | src/main/java/info/varden/nbtserial/NBTSerializer.java:205-221 | deserialize(definition, data) fails exactly when the class cannot be constructed or some field throws; otherwise every declared field holds the value read for it, or its initial value when left alone |
| Deserializer.DecodedFieldFromInitial | src/main/java/info/varden/nbtserial/NBTSerializer.java:212-216 | After the loop completes on a new instance, each field holds the value read for it, or its initial value |
| Deserializer.RetainedElement | src/main/java/info/varden/nbtserial/NBTSerializer.java:423-488 | An element of a kept type always contributes a value when it does not throw |
| Deserializer.DecodedElemsFails | src/main/java/info/varden/nbtserial/NBTSerializer.java:417-489 | deserializeList's loop fails exactly when reading one of the tags fails |
| Deserializer.DecodedElemsLength | src/main/java/info/varden/nbtserial/NBTSerializer.java:417-489 | A kept element type yields one element per tag |
| Deserializer.DecodedElemsAt | src/main/java/info/varden/nbtserial/NBTSerializer.java:417-489 | The k-th element added is the one read from the k-th tag |
| Deserializer.DecodedElemsDropped | src/main/java/info/varden/nbtserial/NBTSerializer.java:443-449 | With an element type that is not kept (no matching test, or serializable as written), the rebuilt list is empty |
| Deserializer.DeserializeListInOrder | src/main/java/info/varden/nbtserial/NBTSerializer.java:401-494 | The List interface cannot be constructed. Otherwise deserializeList fails exactly when some element fails, and yields one element per tag, in order, for a kept element type, and an empty list for any other |
| RoundTrip.ObjectRoundTrip | src/main/java/info/varden/nbtserial/NBTSerializer.java:55-381 | For every representable object, serialize succeeds, and deserialize(definition, data) on its output rebuilds the object exactly. This holds as written for objects whose lists, at any depth, hold no serializable elements, and for every representable object once those elements are appended |
| RoundTrip.DecodedNewOfFields | src/main/java/info/varden/nbtserial/NBTSerializer.java:205-221 | A new instance whose every field reads back is the original object |
| RoundTrip.FieldWrites | src/main/java/info/varden/nbtserial/NBTSerializer.java:67-118 | Writing a representable field never throws |
| RoundTrip.FieldReads | src/main/java/info/varden/nbtserial/NBTSerializer.java:254-378 | Every representable field is restored from what serialize wrote: an absent null comes back null, an unannotated field keeps its initial value |
| RoundTrip.ValueRoundTrip | src/main/java/info/varden/nbtserial/NBTSerializer.java:302-378 | A representable field value is written as one tag, and the same declared type reads that tag back as the value |
| RoundTrip.ListRoundTrip | src/main/java/info/varden/nbtserial/NBTSerializer.java:135-184 | A representable list is written with the element kind that getTagList asks for, and is read back, element by element, as the same list |
| RoundTrip.ElemRoundTrip | src/main/java/info/varden/nbtserial/NBTSerializer.java:162-178 | A representable element is written under its type's rule and read back by the element path as the same value |
| RoundTrip.EncodedListOfElements | src/main/java/info/varden/nbtserial/NBTSerializer.java:152-179 | If every element writes one tag, serializeList writes exactly those tags, in order |
| RoundTrip.DecodedListOfElements | src/main/java/info/varden/nbtserial/NBTSerializer.java:415-493 | If every tag reads back one element, deserializeList rebuilds exactly those elements, in order |
| RoundTrip.CompoundListLost | src/main/java/info/varden/nbtserial/NBTSerializer.java:443-449 | As written, a non-empty list of serializable objects that serialize writes is never read back: the rebuilt list is empty or the call throws |

## Left out

- Reflection (`getDeclaredFields`, `isAnnotationPresent`, `setAccessible`,
  `getGenericType`) is replaced by explicit field descriptors.
  - Inherited fields are not modelled, because `getDeclaredFields` does not report them
    either.
  - Field access control is not modelled, so `Field.get` and `Field.set` never throw
    `IllegalAccessException`.
- `char` and `Character` are modelled as classes that no test matches, as in the source.
  A `char` field is never written, reads as '\0' after construction, and makes
  `deserialize` throw when its tag is missing and `asNull` holds. Other arrays
  (`long[]`, `char[]`, `String[]`, ...) are classes that no test matches; their values
  are not modelled.
- JavaModel.AssignableFrom follows the Java 8 class library. The interfaces the boxed
  classes gained later (`Constable`, `ConstantDesc`) are not modelled.
  - Of the supertypes of the tested classes, the model has `Object`, `Number`,
    `java.io.Serializable`, `Comparable`, `CharSequence`, `Cloneable` and `Object[]`.
  - Other array supertypes, such as `Number[]`, `Comparable[]` or `Serializable[]`, are
    not modelled.
  - The interfaces a user class implements, other than `INBTSerializable`, are not
    recorded. A user class is taken to be assignable to `Object` only.
- JavaModel.InitialFields, JavaModel.InitialOfAt, Deserializer.Instance.constructor,
  Deserializer.DecodedNewFields and RoundTrip.ObjectRoundTrip: what field initialisers
  and the nullary constructor do is recorded as one fixed initial value per field, in
  its descriptor. Constructors with other effects, such as reading a clock or a global
  counter, are not modelled.
- Static fields are treated as per-instance fields. `getDeclaredFields` reports them
  (lines 66 and 253), and their values are shared by every instance and not reset by
  `newInstance`. The model does not capture that sharing: a static field that one
  `deserialize` has written starts from that value in every later
  `deserialize(definition, data)`, not from its initial value.
- Class.newInstance is modelled by a `constructible` flag on each serializable class. A
  `List` class that cannot be constructed stands as the `List` interface, which is the
  only list class `newInstance` fails on. The library's classes that take constructor
  arguments are not modelled. Every way `newInstance` can fail (lines 212 and 415) is reported as
  `Instantiation`. That includes the inaccessible nullary constructor, for which the
  source throws `IllegalAccessException`.
- List classes: the model's `ListImpl` distinguishes only `ArrayList`, `LinkedList` and
  the `List` interface, and `OtherClass` covers no List class and no supertype of one.
  - Any other List class (`Vector`, `Stack`, `CopyOnWriteArrayList`, a user-defined
    List) is represented by one of the two implementations when it can be constructed,
    and by the interface when it cannot.
  - `Collection`, `Iterable` and the other supertypes of `List` are not modelled.
  - Wildcard and type-variable type arguments (`List<?>`, `List<? extends Number>`,
    `List<T>`) are not modelled. For those the cast at line 365 throws
    `ClassCastException` whenever the tag is present.
- Objects and lists are values. Aliasing between nested objects, shared references and
  cycles are not represented. Object graphs are taken to be finite and acyclic.
- Concurrent use of one instance is not modelled, because the source does nothing to
  make it safe.
- The Minecraft NBT library is an abstract tree: `Compound` is a map and a list tag is a
  sequence of tags.
  - Its byte-level encoding is not modelled.
  - So is `NBTTagList`'s own check that appended tags share one kind.
- Deserializer.DecodedValue and Deserializer.DeserializeValue: when a present tag has a
  kind other than the one the field's branch reads, each reports `WrongTagKind`. What the
  NBT library's `get*` accessors return for such a tag is not modelled.
- Serializer.EncodedWith and Serializer.SerializeWith: a null list element after the
  first is reported as `NullPointer` for every element kind. For String, Byte[] and
  Integer[] elements the source may instead append a tag holding null, since
  `ArrayUtils.toPrimitive(null)` returns null, and the tag model has no such tag.
- Float and double arithmetic is left out. Their values are opaque bit patterns carried
  through unchanged.
- Serializer.Serialize: that the source object is not modified holds because objects are
  values passed in, not because of a proof about a heap.

## Findings

| source | as written | input that shows it | evidently intended | confidence | as-written member | corrected member |
|---|---|---|---|---|---|---|
| src/main/java/info/varden/nbtserial/NBTSerializer.java:443-449 | deserializeList builds each serializable element into `c2` and never adds it to the list | an object with an annotated `ArrayList<Inner>` field holding one `Inner`, serialized and then deserialized: the field comes back as an empty list | `c.add((T) c2)`, as the nested-list branch does at line 487 | not executed | RoundTrip.CompoundListLost | RoundTrip.ObjectRoundTrip |

The model has both versions: `Deserializer.DecodedElement` and its method take a
`Revision`. `AsWritten` drops the element, as the source does; `Corrected` appends it.
The round-trip theorem is proved for both. Under `AsWritten` it covers only objects whose
lists, at any depth, hold no serializable elements; under `Corrected` it covers every
representable object.
