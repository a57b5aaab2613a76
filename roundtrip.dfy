/**
 * serialize followed by deserialize(definition, data): for every object whose fields
 * hold values the codec can represent, reading back what was written rebuilds the
 * object exactly. Representable depends on the revision of deserializeList: as
 * written it drops serializable list elements, so there an object qualifies only when
 * none of its lists, at any depth, holds one; any non-empty list of serializable
 * objects is lost.
 */
module RoundTrip {
  import opened Wrappers
  import opened JavaModel
  import opened Nbt
  import opened Classifier
  import opened LeafCodec
  import opened Serializer
  import opened Deserializer

  // ---------------------------------------------------------------- representable objects

  /**
   * An object the codec can carry: its class is the schema's class of that name and
   * can be constructed, its field and tag names are distinct, it holds every declared
   * field, and each field's value is representable under its declaration.
   */
  predicate ObjConforms(schema: Schema, rev: Revision, d: ClassDesc, f: map<string, JVal>)
    decreases ObjectVal(d, f), 0
  {
    && d.name in schema && schema[d.name] == d && d.constructible
    && DistinctFieldNames(d) && DistinctTagNames(d)
    && f.Keys == FieldNames(d)
    && forall j :: 0 <= j < |d.fields| ==> d.fields[j].name in f && FieldConforms(schema, rev, d.fields[j], f[d.fields[j].name])
  }

  /**
   * An unannotated field is never written, so it must hold what construction gives it;
   * an annotated null is skipped and read back as null, which a primitive field cannot
   * hold; any other value must be representable under the declared type.
   */
  predicate FieldConforms(schema: Schema, rev: Revision, fd: FieldDesc, v: JVal)
    decreases v, 2
  {
    if fd.annotation.None? then v == InitialValue(fd)
    else if v == Null then !RawClass(fd.declared).Primitive?
    else ValueConforms(schema, rev, fd.declared, v)
  }

  /**
   * A non-null field value the rule of its declared class writes and reads back:
   * an object of exactly the declared class, a list of the declared implementation
   * with representable elements, or a value the leaf rule accepts.
   */
  predicate ValueConforms(schema: Schema, rev: Revision, t: JType, v: JVal)
    decreases v, 1
  {
    var rule := FieldRule(RawClass(t));
    if rule.CompoundRule? then
      v.ObjectVal? && v.desc.name == RawClass(t).name && ObjConforms(schema, rev, v.desc, v.fields)
    else if rule.ListRule? then
      t.Parameterized? && v.ListVal? && v.impl == t.impl && ListConforms(schema, rev, t.arg, v.impl, v.elems)
    else
      rule.IsLeaf() && EncodeLeaf(rule, v).Ok?
  }

  /**
   * A list the codec can carry as elements of type elemT: a constructible implementation,
   * and when it is non-empty, an element type whose elements rev keeps, a first element
   * whose class selects the same rule as elemT and no null element, every element
   * representable.
   */
  predicate ListConforms(schema: Schema, rev: Revision, elemT: JType, impl: ListImpl, elems: seq<JVal>)
    decreases ListVal(impl, elems), 0
  {
    && impl != ListInterface
    && (|elems| > 0 ==>
          && Retains(rev, elemT)
          && elems[0] != Null
          && ElementRule(ClassOf(elems[0])) == ElementRule(RawClass(elemT))
          && forall k :: 0 <= k < |elems| ==> elems[k] != Null && ElemConforms(schema, rev, elemT, elems[k]))
  }

  /** A list element representable as type elemT. */
  predicate ElemConforms(schema: Schema, rev: Revision, elemT: JType, e: JVal)
    decreases e, 1
  {
    var rule := ElementRule(RawClass(elemT));
    if rule.CompoundRule? then
      e.ObjectVal? && e.desc.name == RawClass(elemT).name && ObjConforms(schema, rev, e.desc, e.fields)
    else if rule.ListRule? then
      elemT.Parameterized? && e.ListVal? && e.impl == elemT.impl && ListConforms(schema, rev, elemT.arg, e.impl, e.elems)
    else
      rule.IsLeaf() && EncodeLeaf(rule, e).Ok?
  }

  /** What deserialize(definition, data) leaves in field j matches the object's value. */
  predicate ReadsBack(schema: Schema, rev: Revision, d: ClassDesc, f: map<string, JVal>, c: Compound, j: nat)
    requires j < |d.fields| && d.fields[j].name in f
  {
    var u := FieldUpdate(schema, rev, d.fields[j], c, true);
    u.Ok? && (if u.value.Some? then u.value.value else InitialValue(d.fields[j])) == f[d.fields[j].name]
  }

  // ---------------------------------------------------------------- the round trip

  /** serialize, then deserialize(definition, data) under rev, rebuilds every object representable under rev. */
  lemma ObjectRoundTrip(schema: Schema, rev: Revision, d: ClassDesc, f: map<string, JVal>)
    requires ObjConforms(schema, rev, d, f)
    ensures Encoded(d, f).Ok?
    ensures DecodedNew(schema, rev, d.name, Encoded(d, f).value) == Ok(ObjectVal(d, f))
    decreases ObjectVal(d, f), 1
  {
    forall j | 0 <= j < |d.fields|
      ensures !Throws(d, f, j)
    {
      FieldWrites(schema, rev, d, f, j);
    }
    SerializeEntries(d, f);
    var c := Encoded(d, f).value;
    forall j | 0 <= j < |d.fields|
      ensures ReadsBack(schema, rev, d, f, c, j)
    {
      FieldReads(schema, rev, d, f, j);
    }
    DecodedNewOfFields(schema, rev, d, f, c);
  }

  /** deserialize(definition, data) restores an object when every field reads back. */
  lemma DecodedNewOfFields(schema: Schema, rev: Revision, d: ClassDesc, f: map<string, JVal>, c: Compound)
    requires d.name in schema && schema[d.name] == d && d.constructible && DistinctFieldNames(d) && f.Keys == FieldNames(d)
    requires forall j :: 0 <= j < |d.fields| ==> d.fields[j].name in f && ReadsBack(schema, rev, d, f, c, j)
    ensures DecodedNew(schema, rev, d.name, c) == Ok(ObjectVal(d, f))
  {
    DecodedNewFields(schema, rev, d.name, c);
    var v := DecodedNew(schema, rev, d.name, c).value;
    forall n | n in f
      ensures n in v.fields && v.fields[n] == f[n]
    {
      var j :| 0 <= j < |d.fields| && d.fields[j].name == n;
      assert ReadsBack(schema, rev, d, f, c, j);
    }
    assert v.fields == f;
  }

  /** Writing a representable field never throws. */
  lemma FieldWrites(schema: Schema, rev: Revision, d: ClassDesc, f: map<string, JVal>, j: nat)
    requires ObjConforms(schema, rev, d, f) && j < |d.fields|
    ensures FieldOutcome(d, f, j).Ok?
    decreases ObjectVal(d, f), 0
  {
    var fd := d.fields[j];
    assert FieldConforms(schema, rev, fd, f[fd.name]);
    if fd.annotation.Some? && f[fd.name] != Null {
      ValueRoundTrip(schema, rev, fd.declared, f[fd.name]);
    }
  }

  /** Each representable field is restored from what serialize wrote. */
  lemma FieldReads(schema: Schema, rev: Revision, d: ClassDesc, f: map<string, JVal>, j: nat)
    requires ObjConforms(schema, rev, d, f) && j < |d.fields| && Encoded(d, f).Ok?
    ensures ReadsBack(schema, rev, d, f, Encoded(d, f).value, j)
    decreases ObjectVal(d, f), 0
  {
    var fd := d.fields[j];
    var v := f[fd.name];
    assert FieldConforms(schema, rev, fd, v);
    if fd.annotation.Some? {
      if v == Null {
        SerializeSkips(d, f, j);
      } else {
        ValueRoundTrip(schema, rev, fd.declared, v);
        assert Writes(d, f, j);
        SerializeEntries(d, f);
      }
    }
  }

  /** A representable field value is written as one tag, which the same declaration reads back as the value. */
  lemma ValueRoundTrip(schema: Schema, rev: Revision, t: JType, v: JVal)
    requires v != Null && ValueConforms(schema, rev, t, v)
    ensures EncodedWith(FieldRule(RawClass(t)), v).Ok? && EncodedWith(FieldRule(RawClass(t)), v).value.Some?
    ensures DecodedValue(schema, rev, t, EncodedWith(FieldRule(RawClass(t)), v).value.value) == Ok(Some(v))
    decreases v, 2
  {
    var rule := FieldRule(RawClass(t));
    if rule.CompoundRule? {
      ObjectRoundTrip(schema, rev, v.desc, v.fields);
    } else if rule.ListRule? {
      ListRoundTrip(schema, rev, t.arg, v.impl, v.elems);
    } else {
      LeafRoundTrip(rule, v);
    }
  }

  /**
   * A representable list is written as a list tag whose elements have the kind the
   * element type reads, and read back, element by element, as the same list.
   */
  lemma ListRoundTrip(schema: Schema, rev: Revision, elemT: JType, impl: ListImpl, elems: seq<JVal>)
    requires ListConforms(schema, rev, elemT, impl, elems)
    ensures EncodedList(impl, elems).Ok?
    ensures EncodedList(impl, elems).value == [] || EncodedList(impl, elems).value[0].Id() == GetIDFromClass(RawClass(elemT))
    ensures DecodedList(schema, rev, impl, elemT, EncodedList(impl, elems).value) == Ok(ListVal(impl, elems))
    decreases ListVal(impl, elems), 1
  {
    if |elems| > 0 {
      var rule := ElementRule(RawClass(elemT));
      forall k | 0 <= k < |elems|
        ensures EncodedWith(rule, elems[k]).Ok? && EncodedWith(rule, elems[k]).value.Some?
        ensures DecodedElement(schema, rev, elemT, EncodedWith(rule, elems[k]).value.value) == Ok(Some(elems[k]))
      {
        ElemRoundTrip(schema, rev, elemT, elems[k]);
      }
      EncodedListOfElements(impl, elems, rule);
      var c := EncodedList(impl, elems).value;
      EncodedWithKind(rule, elems[0]);
      ElementRuleAgreesWithId(RawClass(elemT));
      DecodedListOfElements(schema, rev, impl, elemT, c, elems);
    }
  }

  /** A representable element is written under its type's rule and read back by the element path. */
  lemma ElemRoundTrip(schema: Schema, rev: Revision, elemT: JType, e: JVal)
    requires e != Null && Retains(rev, elemT) && ElemConforms(schema, rev, elemT, e)
    ensures EncodedWith(ElementRule(RawClass(elemT)), e).Ok? && EncodedWith(ElementRule(RawClass(elemT)), e).value.Some?
    ensures DecodedElement(schema, rev, elemT, EncodedWith(ElementRule(RawClass(elemT)), e).value.value) == Ok(Some(e))
    decreases e, 2
  {
    var rule := ElementRule(RawClass(elemT));
    if rule.CompoundRule? {
      ObjectRoundTrip(schema, rev, e.desc, e.fields);
    } else if rule.ListRule? {
      ListRoundTrip(schema, rev, elemT.arg, e.impl, e.elems);
    } else {
      LeafRoundTrip(rule, e);
    }
  }

  /** serializeList on elements that each write one tag under the first element's rule writes exactly those tags, in order. */
  lemma EncodedListOfElements(impl: ListImpl, elems: seq<JVal>, rule: Rule)
    requires |elems| > 0 && elems[0] != Null && rule == ElementRule(ClassOf(elems[0])) && rule != NoRule
    requires forall k :: 0 <= k < |elems| ==> EncodedWith(rule, elems[k]).Ok? && EncodedWith(rule, elems[k]).value.Some?
    ensures EncodedList(impl, elems).Ok? && |EncodedList(impl, elems).value| == |elems|
    ensures forall k :: 0 <= k < |elems| ==> EncodedList(impl, elems).value[k] == EncodedWith(rule, elems[k]).value.value
  {
    EncodedElemsFails(impl, elems, rule, |elems|);
    forall k | 0 <= k < |elems|
      ensures |EncodedList(impl, elems).value| == |elems|
      ensures EncodedWith(rule, elems[k]) == Ok(Some(EncodedList(impl, elems).value[k]))
    {
      EncodedElemsAt(impl, elems, rule, |elems|, k);
    }
  }

  /** deserializeList on tags that each read back one element rebuilds exactly those elements, in order. */
  lemma DecodedListOfElements(schema: Schema, rev: Revision, impl: ListImpl, elemT: JType, tags: seq<Tag>, elems: seq<JVal>)
    requires impl != ListInterface && Retains(rev, elemT) && |tags| == |elems|
    requires forall k :: 0 <= k < |tags| ==> DecodedElement(schema, rev, elemT, tags[k]) == Ok(Some(elems[k]))
    ensures DecodedList(schema, rev, impl, elemT, tags) == Ok(ListVal(impl, elems))
  {
    DeserializeListInOrder(schema, rev, impl, elemT, tags);
    var v := DecodedList(schema, rev, impl, elemT, tags).value;
    assert v.elems == elems;
  }

  // ---------------------------------------------------------------- as written

  /**
   * As written, deserializeList builds each serializable element and drops it, so a
   * non-empty list of serializable objects that serialize writes is not read back.
   */
  lemma CompoundListLost(schema: Schema, elemT: JType, impl: ListImpl, elems: seq<JVal>)
    requires ElementRule(RawClass(elemT)) == CompoundRule && |elems| > 0
    requires ListConforms(schema, Corrected, elemT, impl, elems)
    ensures EncodedList(impl, elems).Ok?
    ensures DecodedList(schema, AsWritten, impl, elemT, EncodedList(impl, elems).value) != Ok(ListVal(impl, elems))
    ensures DecodedList(schema, AsWritten, impl, elemT, EncodedList(impl, elems).value).Ok? ==>
            DecodedList(schema, AsWritten, impl, elemT, EncodedList(impl, elems).value) == Ok(ListVal(impl, []))
  {
    ListRoundTrip(schema, Corrected, elemT, impl, elems);
    DeserializeListInOrder(schema, AsWritten, impl, elemT, EncodedList(impl, elems).value);
  }
}
