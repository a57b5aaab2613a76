/**
 * deserialize and deserializeList: an existing instance is overwritten field by field
 * from a compound, under a policy for missing tags; a new instance is constructed and
 * filled with missing tags read as null; a list is rebuilt element by element from a
 * list tag, taking the element type from the field's generic type argument.
 *
 * The functions are the specification; the class and the methods follow the source's
 * loops and are proved to compute them.
 */
module Deserializer {
  import opened Wrappers
  import opened JavaModel
  import opened Nbt
  import opened Classifier
  import opened LeafCodec

  /**
   * Whether deserializeList keeps the objects it builds from compound elements. The
   * source as written builds each one and drops it; Corrected appends it.
   */
  datatype Revision = AsWritten | Corrected

  /** The classes Class.newInstance can be asked for, by name: the loaded serializable classes. */
  type Schema = map<string, ClassDesc>

  // ---------------------------------------------------------------- specification

  /**
   * deserialize(definition, data): construct the class named `name` (it must be known and
   * constructible), then fill it with missing tags read as null.
   */
  function DecodedNew(schema: Schema, rev: Revision, name: string, data: Compound): Result<JVal, Error>
    decreases CompoundTag(data), 2, 0
  {
    if name !in schema || !schema[name].constructible then Err(Instantiation)
    else
      var d := schema[name];
      var p := DecodedFields(schema, rev, d, data, true, InitialFields(d), |d.fields|);
      if p.1.Fail? then Err(p.1.error) else Ok(ObjectVal(d, p.0))
  }

  /**
   * deserialize(instance, data, asNull): the field values after the loop has visited the
   * first i declared fields, starting from fields0, and whether an exception stopped it.
   * Fields already written stay written when a later one throws.
   */
  function DecodedFields(schema: Schema, rev: Revision, d: ClassDesc, data: Compound, asNull: bool,
                         fields0: map<string, JVal>, i: nat): (map<string, JVal>, Outcome<Error>)
    requires i <= |d.fields|
    decreases CompoundTag(data), 1, i
  {
    if i == 0 then (fields0, Pass)
    else
      var p := DecodedFields(schema, rev, d, data, asNull, fields0, i - 1);
      if p.1.Fail? then p
      else
        match FieldUpdate(schema, rev, d.fields[i - 1], data, asNull)
        case Err(e) => (p.0, Fail(e))
        case Ok(None) => p
        case Ok(Some(v)) => (p.0[d.fields[i - 1].name := v], Pass)
  }

  /**
   * What the loop does to one field: None leaves it alone, Some(v) sets it to v. An
   * unannotated field is left alone; a field whose tag is missing is set to null when
   * asNull holds (which fails on a primitive field) and left alone otherwise.
   */
  function FieldUpdate(schema: Schema, rev: Revision, fd: FieldDesc, data: Compound, asNull: bool): Result<Option<JVal>, Error>
    decreases CompoundTag(data), 0, 0
  {
    if fd.annotation.None? then Ok(None)
    else
      var tn := TagName(fd);
      if tn !in data then
        if !asNull then Ok(None)
        else if RawClass(fd.declared).Primitive? then Err(IllegalArgument)
        else Ok(Some(Null))
      else DecodedValue(schema, rev, fd.declared, data[tn])
  }

  /** The value read for a field declared with type t from the tag stored under its name; None when no rule matches. */
  function DecodedValue(schema: Schema, rev: Revision, t: JType, tag: Tag): Result<Option<JVal>, Error>
    decreases tag, 3, 0
  {
    var fc := RawClass(t);
    var rule := FieldRule(fc);
    if rule.NoRule? then Ok(None)
    else if rule.CompoundRule? then
      if !tag.CompoundTag? then Err(WrongTagKind)
      else
        var v :- DecodedNew(schema, rev, fc.name, tag.entries);
        Ok(Some(v))
    else if rule.ListRule? then
      if !t.Parameterized? then Err(ClassCast)
      else
        (match TagListOfKind(tag, GetIDFromClass(RawClass(t.arg)))
         case None => Err(WrongTagKind)
         case Some(tags) =>
           var l :- DecodedList(schema, rev, t.impl, t.arg, tags);
           Ok(Some(l)))
    else
      (match DecodeLeaf(rule, tag)
       case None => Err(WrongTagKind)
       case Some(v) => Ok(Some(v)))
  }

  /**
   * deserializeList(listClass, subclass, subtype, list): a fresh list of class impl
   * (List itself is an interface and cannot be constructed) holding the elements read
   * from tags as values of type elemT.
   */
  function DecodedList(schema: Schema, rev: Revision, impl: ListImpl, elemT: JType, tags: seq<Tag>): Result<JVal, Error>
    decreases ListTag(tags), 2, 0
  {
    if impl == ListInterface then Err(Instantiation)
    else
      var elems :- DecodedElems(schema, rev, elemT, tags, |tags|);
      Ok(ListVal(impl, elems))
  }

  /** The list after the loop has visited the first i tags. */
  function DecodedElems(schema: Schema, rev: Revision, elemT: JType, tags: seq<Tag>, i: nat): Result<seq<JVal>, Error>
    requires i <= |tags|
    decreases ListTag(tags), 1, i
  {
    if i == 0 then Ok([])
    else
      var acc :- DecodedElems(schema, rev, elemT, tags, i - 1);
      var w :- DecodedElement(schema, rev, elemT, tags[i - 1]);
      Ok(if w.Some? then acc + [w.value] else acc)
  }

  /**
   * What the loop adds for one tag: the element of type elemT it reads, or None when it
   * adds nothing. Casting a tag of the wrong kind fails; a compound element is built and,
   * as written, dropped.
   */
  function DecodedElement(schema: Schema, rev: Revision, elemT: JType, tag: Tag): Result<Option<JVal>, Error>
    decreases tag, 3, 0
  {
    var subclass := RawClass(elemT);
    var rule := ElementRule(subclass);
    if rule.NoRule? then Ok(None)
    else if rule.CompoundRule? then
      if !tag.CompoundTag? then Err(ClassCast)
      else
        var v :- DecodedNew(schema, rev, subclass.name, tag.entries);
        Ok(if rev == Corrected then Some(v) else None)
    else if rule.ListRule? then
      if !elemT.Parameterized? || !tag.ListTag? then Err(ClassCast)
      else
        var l :- DecodedList(schema, rev, elemT.impl, elemT.arg, tag.elems);
        Ok(Some(l))
    else
      (match DecodeLeaf(rule, tag)
       case None => Err(ClassCast)
       case Some(v) => Ok(Some(v)))
  }

  // ---------------------------------------------------------------- the source's loops

  /** An instance of a serializable class: its runtime class and its mutable field values. */
  class Instance {
    const desc: ClassDesc
    var fields: map<string, JVal>

    /** Class.newInstance: every field holds what its initialiser or the nullary constructor leaves in it, or its type's default. */
    constructor (desc: ClassDesc)
      ensures this.desc == desc && fields == InitialFields(desc)
    {
      this.desc := desc;
      fields := InitialFields(desc);
    }

    /** The instance as a value. */
    function Value(): (v: JVal)
      reads this
      ensures v.ObjectVal? && v.desc == desc && v.fields == fields
    {
      ObjectVal(desc, fields)
    }

    /** deserialize(instance, data, asNull): overwrites the annotated fields in place, in declaration order. */
    method Deserialize(schema: Schema, rev: Revision, data: Compound, asNull: bool) returns (o: Outcome<Error>)
      modifies this
      ensures (fields, o) == DecodedFields(schema, rev, desc, data, asNull, old(fields), |desc.fields|)
      decreases CompoundTag(data), 1
    {
      var i := 0;
      while i < |desc.fields|
        invariant i <= |desc.fields|
        invariant DecodedFields(schema, rev, desc, data, asNull, old(fields), i) == (fields, Pass)
      {
        var u := ReadField(schema, rev, desc.fields[i], data, asNull);
        if u.Err? {
          DecodedFieldsFailurePersists(schema, rev, desc, data, asNull, old(fields), i + 1, |desc.fields|);
          return Fail(u.error);
        }
        var x := u.value;
        if x.Some? {
          fields := fields[desc.fields[i].name := x.value];
        }
        i := i + 1;
      }
      return Pass;
    }
  }

  /** One turn of deserialize's loop: what it does to field fd, under the missing-tag policy. */
  method ReadField(schema: Schema, rev: Revision, fd: FieldDesc, data: Compound, asNull: bool) returns (r: Result<Option<JVal>, Error>)
    ensures r == FieldUpdate(schema, rev, fd, data, asNull)
    decreases CompoundTag(data), 0
  {
    if fd.annotation.None? {
      return Ok(None);
    }
    var tn := TagName(fd);
    if tn !in data {
      if !asNull {
        r := Ok(None);
      } else if RawClass(fd.declared).Primitive? {
        r := Err(IllegalArgument);
      } else {
        r := Ok(Some(Null));
      }
    } else {
      r := DeserializeValue(schema, rev, fd.declared, data[tn]);
    }
  }

  /** deserialize(definition, data): construct, then deserialize in place with missing tags read as null. */
  method DeserializeNew(schema: Schema, rev: Revision, name: string, data: Compound) returns (r: Result<JVal, Error>)
    ensures r == DecodedNew(schema, rev, name, data)
    decreases CompoundTag(data), 2
  {
    if name !in schema || !schema[name].constructible {
      return Err(Instantiation);
    }
    var instance := new Instance(schema[name]);
    var o := instance.Deserialize(schema, rev, data, true);
    if o.Fail? {
      return Err(o.error);
    }
    return Ok(instance.Value());
  }

  /** The if-chain of deserialize on a field whose tag is present. */
  method DeserializeValue(schema: Schema, rev: Revision, t: JType, tag: Tag) returns (r: Result<Option<JVal>, Error>)
    ensures r == DecodedValue(schema, rev, t, tag)
    decreases tag, 3
  {
    var fc := RawClass(t);
    var rule := FieldRule(fc);
    if rule.NoRule? {
      r := Ok(None);
    } else if rule.CompoundRule? {
      if !tag.CompoundTag? {
        r := Err(WrongTagKind);
      } else {
        var c := DeserializeNew(schema, rev, fc.name, tag.entries);
        r := if c.Ok? then Ok(Some(c.value)) else Err(c.error);
      }
    } else if rule.ListRule? {
      if !t.Parameterized? {
        r := Err(ClassCast);
      } else {
        var ntl := TagListOfKind(tag, GetIDFromClass(RawClass(t.arg)));
        if ntl.None? {
          r := Err(WrongTagKind);
        } else {
          var c := DeserializeList(schema, rev, t.impl, t.arg, ntl.value);
          r := if c.Ok? then Ok(Some(c.value)) else Err(c.error);
        }
      }
    } else {
      var v := DecodeLeaf(rule, tag);
      r := if v.Some? then Ok(Some(v.value)) else Err(WrongTagKind);
    }
  }

  /** deserializeList: construct the list, then the counted loop adding one element per tag. */
  method DeserializeList(schema: Schema, rev: Revision, impl: ListImpl, elemT: JType, tags: seq<Tag>) returns (r: Result<JVal, Error>)
    ensures r == DecodedList(schema, rev, impl, elemT, tags)
    decreases ListTag(tags), 2
  {
    if impl == ListInterface {
      return Err(Instantiation);
    }
    var c: seq<JVal> := [];
    for i := 0 to |tags|
      invariant DecodedElems(schema, rev, elemT, tags, i) == Ok(c)
    {
      var w := DeserializeElement(schema, rev, elemT, tags[i]);
      DecodedElemsStep(schema, rev, elemT, tags, i);
      if w.Err? {
        DecodedElemsFailurePersists(schema, rev, elemT, tags, i + 1, |tags|);
        return Err(w.error);
      }
      var x := w.value;
      if x.Some? {
        c := c + [x.value];
      }
    }
    return Ok(ListVal(impl, c));
  }

  /** The if-chain of deserializeList on one tag. */
  method DeserializeElement(schema: Schema, rev: Revision, elemT: JType, tag: Tag) returns (r: Result<Option<JVal>, Error>)
    ensures r == DecodedElement(schema, rev, elemT, tag)
    decreases tag, 3
  {
    var subclass := RawClass(elemT);
    var rule := ElementRule(subclass);
    if rule.NoRule? {
      r := Ok(None);
    } else if rule.CompoundRule? {
      if !tag.CompoundTag? {
        r := Err(ClassCast);
      } else {
        var c := DeserializeNew(schema, rev, subclass.name, tag.entries);
        r := if c.Err? then Err(c.error) else if rev == Corrected then Ok(Some(c.value)) else Ok(None);
      }
    } else if rule.ListRule? {
      if !elemT.Parameterized? || !tag.ListTag? {
        r := Err(ClassCast);
      } else {
        var c := DeserializeList(schema, rev, elemT.impl, elemT.arg, tag.elems);
        r := if c.Ok? then Ok(Some(c.value)) else Err(c.error);
      }
    } else {
      var v := DecodeLeaf(rule, tag);
      r := if v.Some? then Ok(Some(v.value)) else Err(ClassCast);
    }
  }

  // ---------------------------------------------------------------- properties

  /** Once a field throws, deserialize stops: later fields change neither the values nor the outcome. */
  lemma {:induction false} DecodedFieldsFailurePersists(schema: Schema, rev: Revision, d: ClassDesc, data: Compound, asNull: bool,
                                                        fields0: map<string, JVal>, i: nat, j: nat)
    requires i <= j <= |d.fields| && DecodedFields(schema, rev, d, data, asNull, fields0, i).1.Fail?
    ensures DecodedFields(schema, rev, d, data, asNull, fields0, j) == DecodedFields(schema, rev, d, data, asNull, fields0, i)
    decreases j
  {
    if j > i {
      DecodedFieldsFailurePersists(schema, rev, d, data, asNull, fields0, i, j - 1);
    }
  }

  /** Once an element throws, deserializeList stops: later tags do not change the outcome. */
  lemma {:induction false} DecodedElemsFailurePersists(schema: Schema, rev: Revision, elemT: JType, tags: seq<Tag>, i: nat, j: nat)
    requires i <= j <= |tags| && DecodedElems(schema, rev, elemT, tags, i).Err?
    ensures DecodedElems(schema, rev, elemT, tags, j) == DecodedElems(schema, rev, elemT, tags, i)
    decreases j
  {
    if j > i {
      DecodedElemsFailurePersists(schema, rev, elemT, tags, i, j - 1);
    }
  }

  /** One turn of deserializeList's loop. */
  lemma DecodedElemsStep(schema: Schema, rev: Revision, elemT: JType, tags: seq<Tag>, i: nat)
    requires i < |tags| && DecodedElems(schema, rev, elemT, tags, i).Ok?
    ensures DecodedElement(schema, rev, elemT, tags[i]).Err? ==>
      DecodedElems(schema, rev, elemT, tags, i + 1) == Err(DecodedElement(schema, rev, elemT, tags[i]).error)
    ensures DecodedElement(schema, rev, elemT, tags[i]).Ok? ==>
      var acc := DecodedElems(schema, rev, elemT, tags, i).value;
      var w := DecodedElement(schema, rev, elemT, tags[i]).value;
      DecodedElems(schema, rev, elemT, tags, i + 1) == Ok(if w.Some? then acc + [w.value] else acc)
  {
  }

  /**
   * deserialize(instance, data, asNull) throws after i fields exactly when one of them
   * throws. The first field to throw decides the exception, and nothing is rolled back:
   * the fields before it keep the values it wrote.
   */
  lemma {:induction false} DecodedFieldsFails(schema: Schema, rev: Revision, d: ClassDesc, data: Compound, asNull: bool,
                                              fields0: map<string, JVal>, i: nat)
    requires i <= |d.fields|
    ensures DecodedFields(schema, rev, d, data, asNull, fields0, i).1.Fail? <==>
      exists j :: 0 <= j < i && FieldUpdate(schema, rev, d.fields[j], data, asNull).Err?
    ensures DecodedFields(schema, rev, d, data, asNull, fields0, i).1.Fail? ==>
      exists j :: 0 <= j < i
        && DecodedFields(schema, rev, d, data, asNull, fields0, j).1 == Pass
        && FieldUpdate(schema, rev, d.fields[j], data, asNull) == Err(DecodedFields(schema, rev, d, data, asNull, fields0, i).1.error)
        && DecodedFields(schema, rev, d, data, asNull, fields0, i).0 == DecodedFields(schema, rev, d, data, asNull, fields0, j).0
  {
    if i > 0 {
      DecodedFieldsFails(schema, rev, d, data, asNull, fields0, i - 1);
      var p := DecodedFields(schema, rev, d, data, asNull, fields0, i - 1);
      var u := FieldUpdate(schema, rev, d.fields[i - 1], data, asNull);
      if p.1.Pass? && u.Err? {
        assert DecodedFields(schema, rev, d, data, asNull, fields0, i) == (p.0, Fail(u.error));
      }
    }
  }

  /** A field that the visited fields leave alone keeps its value, whether or not a later field throws. */
  lemma {:induction false} DecodedFieldsUntouched(schema: Schema, rev: Revision, d: ClassDesc, data: Compound, asNull: bool,
                                                  fields0: map<string, JVal>, i: nat, n: string)
    requires i <= |d.fields|
    requires forall j :: 0 <= j < i && d.fields[j].name == n ==> FieldUpdate(schema, rev, d.fields[j], data, asNull) == Ok(None)
    ensures n in DecodedFields(schema, rev, d, data, asNull, fields0, i).0 <==> n in fields0
    ensures n in fields0 ==> DecodedFields(schema, rev, d, data, asNull, fields0, i).0[n] == fields0[n]
  {
    if i > 0 {
      DecodedFieldsUntouched(schema, rev, d, data, asNull, fields0, i - 1, n);
    }
  }

  /** With distinct field names, each field the loop sets holds the value read for it once the loop completes. */
  lemma {:induction false} DecodedFieldsSets(schema: Schema, rev: Revision, d: ClassDesc, data: Compound, asNull: bool,
                                             fields0: map<string, JVal>, i: nat, j: nat)
    requires j < i <= |d.fields| && DistinctFieldNames(d)
    requires DecodedFields(schema, rev, d, data, asNull, fields0, i).1 == Pass
    requires FieldUpdate(schema, rev, d.fields[j], data, asNull).Ok? && FieldUpdate(schema, rev, d.fields[j], data, asNull).value.Some?
    ensures d.fields[j].name in DecodedFields(schema, rev, d, data, asNull, fields0, i).0
    ensures DecodedFields(schema, rev, d, data, asNull, fields0, i).0[d.fields[j].name] ==
            FieldUpdate(schema, rev, d.fields[j], data, asNull).value.value
  {
    var p := DecodedFields(schema, rev, d, data, asNull, fields0, i - 1);
    assert p.1 == Pass;
    if j < i - 1 {
      DecodedFieldsSets(schema, rev, d, data, asNull, fields0, i - 1, j);
      assert d.fields[j].name != d.fields[i - 1].name;
    }
  }

  /** Deserializing never removes a field and only ever adds declared ones. */
  lemma {:induction false} DecodedFieldsKeys(schema: Schema, rev: Revision, d: ClassDesc, data: Compound, asNull: bool,
                                             fields0: map<string, JVal>, i: nat)
    requires i <= |d.fields|
    ensures fields0.Keys <= DecodedFields(schema, rev, d, data, asNull, fields0, i).0.Keys <= fields0.Keys + FieldNames(d)
  {
    if i > 0 {
      DecodedFieldsKeys(schema, rev, d, data, asNull, fields0, i - 1);
      assert d.fields[i - 1].name in FieldNames(d);
    }
  }

  /**
   * The missing-tag policy of deserialize(instance, data, asNull): a field whose tag is
   * absent keeps its value when asNull is false; when asNull is true it becomes null,
   * and on a primitive field that makes the whole call throw.
   */
  lemma MissingTagPolicy(schema: Schema, rev: Revision, d: ClassDesc, data: Compound, asNull: bool,
                         fields0: map<string, JVal>, j: nat)
    requires j < |d.fields| && DistinctFieldNames(d)
    requires d.fields[j].annotation.Some? && TagName(d.fields[j]) !in data
    ensures var p := DecodedFields(schema, rev, d, data, asNull, fields0, |d.fields|);
      && (!asNull ==> (d.fields[j].name in p.0 <==> d.fields[j].name in fields0))
      && (!asNull && d.fields[j].name in fields0 ==> p.0[d.fields[j].name] == fields0[d.fields[j].name])
      && (asNull && RawClass(d.fields[j].declared).Primitive? ==> p.1.Fail?)
      && (asNull && !RawClass(d.fields[j].declared).Primitive? && p.1 == Pass ==>
            d.fields[j].name in p.0 && p.0[d.fields[j].name] == Null)
  {
    var n := d.fields[j].name;
    if !asNull {
      DecodedFieldsUntouched(schema, rev, d, data, asNull, fields0, |d.fields|, n);
    } else if RawClass(d.fields[j].declared).Primitive? {
      DecodedFieldsFails(schema, rev, d, data, asNull, fields0, |d.fields|);
    } else if DecodedFields(schema, rev, d, data, asNull, fields0, |d.fields|).1 == Pass {
      DecodedFieldsSets(schema, rev, d, data, asNull, fields0, |d.fields|, j);
    }
  }

  /** A field without the annotation is never touched, even when another field throws. */
  lemma UnannotatedUntouched(schema: Schema, rev: Revision, d: ClassDesc, data: Compound, asNull: bool,
                             fields0: map<string, JVal>, j: nat)
    requires j < |d.fields| && DistinctFieldNames(d) && d.fields[j].annotation.None?
    ensures d.fields[j].name in DecodedFields(schema, rev, d, data, asNull, fields0, |d.fields|).0 <==> d.fields[j].name in fields0
    ensures d.fields[j].name in fields0 ==>
      DecodedFields(schema, rev, d, data, asNull, fields0, |d.fields|).0[d.fields[j].name] == fields0[d.fields[j].name]
  {
    DecodedFieldsUntouched(schema, rev, d, data, asNull, fields0, |d.fields|, d.fields[j].name);
  }

  /**
   * deserialize(definition, data): it fails exactly when the class cannot be constructed
   * or some field throws; otherwise the result is an object of that class holding, for
   * every declared field, the value read for it, or its initial value when the loop left it
   * alone.
   */
  lemma DecodedNewFields(schema: Schema, rev: Revision, name: string, data: Compound)
    requires name in schema && DistinctFieldNames(schema[name])
    ensures DecodedNew(schema, rev, name, data).Err? <==>
      || !schema[name].constructible
      || exists j :: 0 <= j < |schema[name].fields| && FieldUpdate(schema, rev, schema[name].fields[j], data, true).Err?
    ensures DecodedNew(schema, rev, name, data).Ok? ==>
      var v := DecodedNew(schema, rev, name, data).value;
      && v.ObjectVal? && v.desc == schema[name] && v.fields.Keys == FieldNames(v.desc)
      && forall j :: 0 <= j < |v.desc.fields| ==>
           var u := FieldUpdate(schema, rev, v.desc.fields[j], data, true);
           && u.Ok?
           && v.fields[v.desc.fields[j].name] == if u.value.Some? then u.value.value else InitialValue(v.desc.fields[j])
  {
    var d := schema[name];
    if d.constructible {
      DecodedFieldsFails(schema, rev, d, data, true, InitialFields(d), |d.fields|);
      DecodedFieldsKeys(schema, rev, d, data, true, InitialFields(d), |d.fields|);
      var p := DecodedFields(schema, rev, d, data, true, InitialFields(d), |d.fields|);
      if p.1 == Pass {
        forall j | 0 <= j < |d.fields|
          ensures FieldUpdate(schema, rev, d.fields[j], data, true).Ok?
          ensures p.0[d.fields[j].name] ==
            if FieldUpdate(schema, rev, d.fields[j], data, true).value.Some? then FieldUpdate(schema, rev, d.fields[j], data, true).value.value
            else InitialValue(d.fields[j])
        {
          DecodedFieldFromInitial(schema, rev, d, data, j);
        }
      }
    }
  }

  /** After a completed loop from a new instance, a field holds the value read for it, or its initial value when it was left alone. */
  lemma DecodedFieldFromInitial(schema: Schema, rev: Revision, d: ClassDesc, data: Compound, j: nat)
    requires j < |d.fields| && DistinctFieldNames(d)
    requires DecodedFields(schema, rev, d, data, true, InitialFields(d), |d.fields|).1 == Pass
    ensures FieldUpdate(schema, rev, d.fields[j], data, true).Ok?
    ensures d.fields[j].name in DecodedFields(schema, rev, d, data, true, InitialFields(d), |d.fields|).0
    ensures DecodedFields(schema, rev, d, data, true, InitialFields(d), |d.fields|).0[d.fields[j].name] ==
      if FieldUpdate(schema, rev, d.fields[j], data, true).value.Some? then FieldUpdate(schema, rev, d.fields[j], data, true).value.value
      else InitialValue(d.fields[j])
  {
    DecodedFieldsFails(schema, rev, d, data, true, InitialFields(d), |d.fields|);
    var u := FieldUpdate(schema, rev, d.fields[j], data, true);
    if u.value.Some? {
      DecodedFieldsSets(schema, rev, d, data, true, InitialFields(d), |d.fields|, j);
    } else {
      DecodedFieldsUntouched(schema, rev, d, data, true, InitialFields(d), |d.fields|, d.fields[j].name);
      assert d.fields[j].name in FieldNames(d);
      InitialOfAt(d.fields, j);
    }
  }

  /** Whether deserializeList keeps an element of type elemT: its class has a rule, and a compound element is kept only once corrected. */
  predicate Retains(rev: Revision, elemT: JType) {
    var rule := ElementRule(RawClass(elemT));
    rule != NoRule && (rule == CompoundRule ==> rev == Corrected)
  }

  /** An element whose class is retained always contributes a value when it does not throw. */
  lemma RetainedElement(schema: Schema, rev: Revision, elemT: JType, tag: Tag)
    requires Retains(rev, elemT) && DecodedElement(schema, rev, elemT, tag).Ok?
    ensures DecodedElement(schema, rev, elemT, tag).value.Some?
  {
  }

  /** The element loop fails after i tags exactly when one of them fails. */
  lemma {:induction false} DecodedElemsFails(schema: Schema, rev: Revision, elemT: JType, tags: seq<Tag>, i: nat)
    requires i <= |tags|
    ensures DecodedElems(schema, rev, elemT, tags, i).Err? <==> exists k :: 0 <= k < i && DecodedElement(schema, rev, elemT, tags[k]).Err?
  {
    if i > 0 {
      DecodedElemsFails(schema, rev, elemT, tags, i - 1);
      if DecodedElems(schema, rev, elemT, tags, i - 1).Ok? {
        DecodedElemsStep(schema, rev, elemT, tags, i - 1);
      }
    }
  }

  /** A retained element type yields one element per tag. */
  lemma {:induction false} DecodedElemsLength(schema: Schema, rev: Revision, elemT: JType, tags: seq<Tag>, i: nat)
    requires i <= |tags| && Retains(rev, elemT) && DecodedElems(schema, rev, elemT, tags, i).Ok?
    ensures |DecodedElems(schema, rev, elemT, tags, i).value| == i
  {
    if i > 0 {
      assert DecodedElems(schema, rev, elemT, tags, i - 1).Ok?;
      DecodedElemsLength(schema, rev, elemT, tags, i - 1);
      DecodedElemsStep(schema, rev, elemT, tags, i - 1);
      RetainedElement(schema, rev, elemT, tags[i - 1]);
    }
  }

  /** Order preservation: the k-th element read is the one read from the k-th tag. */
  lemma {:induction false} DecodedElemsAt(schema: Schema, rev: Revision, elemT: JType, tags: seq<Tag>, i: nat, k: nat)
    requires k < i <= |tags| && Retains(rev, elemT) && DecodedElems(schema, rev, elemT, tags, i).Ok?
    ensures |DecodedElems(schema, rev, elemT, tags, i).value| == i
    ensures DecodedElement(schema, rev, elemT, tags[k]) == Ok(Some(DecodedElems(schema, rev, elemT, tags, i).value[k]))
  {
    var prev := DecodedElems(schema, rev, elemT, tags, i - 1);
    assert prev.Ok?;
    DecodedElemsLength(schema, rev, elemT, tags, i);
    DecodedElemsLength(schema, rev, elemT, tags, i - 1);
    DecodedElemsStep(schema, rev, elemT, tags, i - 1);
    RetainedElement(schema, rev, elemT, tags[i - 1]);
    if k < i - 1 {
      DecodedElemsAt(schema, rev, elemT, tags, i - 1, k);
    }
  }

  /** An element type that is not retained contributes nothing: the list read back is empty. */
  lemma {:induction false} DecodedElemsDropped(schema: Schema, rev: Revision, elemT: JType, tags: seq<Tag>, i: nat)
    requires i <= |tags| && !Retains(rev, elemT) && DecodedElems(schema, rev, elemT, tags, i).Ok?
    ensures DecodedElems(schema, rev, elemT, tags, i).value == []
  {
    if i > 0 {
      assert DecodedElems(schema, rev, elemT, tags, i - 1).Ok?;
      DecodedElemsDropped(schema, rev, elemT, tags, i - 1);
    }
  }

  /**
   * deserializeList: the List interface cannot be constructed; otherwise it fails exactly
   * when some element does, and it yields a list of the requested class holding one
   * element per tag, in order, when the element type is retained, and an empty one
   * when it is not (which, as written, is the case for every serializable element class).
   */
  lemma DeserializeListInOrder(schema: Schema, rev: Revision, impl: ListImpl, elemT: JType, tags: seq<Tag>)
    ensures impl == ListInterface ==> DecodedList(schema, rev, impl, elemT, tags) == Err(Instantiation)
    ensures impl != ListInterface ==>
      (DecodedList(schema, rev, impl, elemT, tags).Err? <==> exists k :: 0 <= k < |tags| && DecodedElement(schema, rev, elemT, tags[k]).Err?)
    ensures DecodedList(schema, rev, impl, elemT, tags).Ok? && !Retains(rev, elemT) ==>
      DecodedList(schema, rev, impl, elemT, tags) == Ok(ListVal(impl, []))
    ensures DecodedList(schema, rev, impl, elemT, tags).Ok? && Retains(rev, elemT) ==>
      var v := DecodedList(schema, rev, impl, elemT, tags).value;
      && v.ListVal? && v.impl == impl && |v.elems| == |tags|
      && forall k :: 0 <= k < |tags| ==> DecodedElement(schema, rev, elemT, tags[k]) == Ok(Some(v.elems[k]))
  {
    if impl != ListInterface {
      DecodedElemsFails(schema, rev, elemT, tags, |tags|);
      if DecodedList(schema, rev, impl, elemT, tags).Ok? {
        if Retains(rev, elemT) {
          DecodedElemsLength(schema, rev, elemT, tags, |tags|);
          forall k | 0 <= k < |tags|
            ensures DecodedElement(schema, rev, elemT, tags[k]) == Ok(Some(DecodedList(schema, rev, impl, elemT, tags).value.elems[k]))
          {
            DecodedElemsAt(schema, rev, elemT, tags, |tags|, k);
          }
        } else {
          DecodedElemsDropped(schema, rev, elemT, tags, |tags|);
        }
      }
    }
  }
}
