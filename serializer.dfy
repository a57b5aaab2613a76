/**
 * serialize and serializeList: an object becomes a compound with one entry per
 * annotated, non-null field of a recognised declared class; a list becomes a list tag
 * whose element kind is chosen from the runtime class of its first element.
 *
 * The functions are the specification; the methods follow the source's loops and are
 * proved to compute them.
 */
module Serializer {
  import opened Wrappers
  import opened JavaModel
  import opened Nbt
  import opened Classifier
  import opened LeafCodec

  // ---------------------------------------------------------------- specification

  /** serialize(object): the compound an object with descriptor d and field values f becomes. */
  function Encoded(d: ClassDesc, f: map<string, JVal>): Result<Compound, Error>
    decreases ObjectVal(d, f), 2, 0
  {
    EncodedFields(d, f, |d.fields|)
  }

  /** The compound after the field loop has visited the first i declared fields. */
  function EncodedFields(d: ClassDesc, f: map<string, JVal>, i: nat): Result<Compound, Error>
    requires i <= |d.fields|
    decreases ObjectVal(d, f), 1, i
  {
    if i == 0 then Ok(map[])
    else
      var t :- EncodedFields(d, f, i - 1);
      var w :- FieldOutcome(d, f, i - 1);
      if w.None? then Ok(t) else Ok(t[TagName(d.fields[i - 1]) := w.value])
  }

  /**
   * What field j contributes: nothing when it is not annotated or holds null (a field
   * the map lacks reads as null), else the tag of the branch its declared class selects.
   */
  function FieldOutcome(d: ClassDesc, f: map<string, JVal>, j: nat): (r: Result<Option<Tag>, Error>)
    requires j < |d.fields|
    ensures r.Ok? && r.value.Some? ==> d.fields[j].annotation.Some? && FieldValue(f, d.fields[j].name) != Null
    decreases ObjectVal(d, f), 0, 0
  {
    var fd := d.fields[j];
    if fd.annotation.None? || fd.name !in f || f[fd.name] == Null then Ok(None)
    else EncodedWith(FieldRule(RawClass(fd.declared)), f[fd.name])
  }

  /**
   * The tag written for value v under a rule: serialize applies it to a field's value,
   * serializeList to an element. A cast to the rule's class fails on another kind of
   * value; None when no rule matched, so nothing is written.
   */
  function EncodedWith(rule: Rule, v: JVal): Result<Option<Tag>, Error>
    decreases v, 3, 0
  {
    match rule
    case NoRule => Ok(None)
    case CompoundRule =>
      if !v.ObjectVal? then Err(CastFailure(v))
      else
        var c :- Encoded(v.desc, v.fields);
        Ok(Some(CompoundTag(c)))
    case ListRule =>
      if !v.ListVal? then Err(CastFailure(v))
      else
        var l :- EncodedList(v.impl, v.elems);
        Ok(Some(ListTag(l)))
    case _ =>
      var t :- EncodeLeaf(rule, v);
      Ok(Some(t))
  }

  /** serializeList(list): the element tags. Empty when the list is; the first element decides the rule. */
  function EncodedList(impl: ListImpl, elems: seq<JVal>): Result<seq<Tag>, Error>
    decreases ListVal(impl, elems), 2, 0
  {
    if |elems| == 0 then Ok([])
    else if elems[0] == Null then Err(NullPointer)
    else EncodedElems(impl, elems, ElementRule(ClassOf(elems[0])), |elems|)
  }

  /** The element tags after the loop has visited the first i elements under the given rule. */
  function EncodedElems(impl: ListImpl, elems: seq<JVal>, rule: Rule, i: nat): Result<seq<Tag>, Error>
    requires i <= |elems|
    decreases ListVal(impl, elems), 1, i
  {
    if i == 0 then Ok([])
    else
      var acc :- EncodedElems(impl, elems, rule, i - 1);
      var w :- EncodedWith(rule, elems[i - 1]);
      Ok(if w.Some? then acc + [w.value] else acc)
  }

  // ---------------------------------------------------------------- the source's loops

  /** serialize: the loop over the declared fields, writing into a fresh compound. */
  method Serialize(d: ClassDesc, f: map<string, JVal>) returns (r: Result<Compound, Error>)
    ensures r == Encoded(d, f)
    decreases ObjectVal(d, f), 2
  {
    var t: Compound := map[];
    var i := 0;
    while i < |d.fields|
      invariant i <= |d.fields|
      invariant EncodedFields(d, f, i) == Ok(t)
    {
      var fd := d.fields[i];
      if fd.annotation.Some? {
        var fv := FieldValue(f, fd.name);
        if fv != Null {
          var tn := TagName(fd);
          var fc := RawClass(fd.declared);
          var w := SerializeWith(FieldRule(fc), fv);
          if w.Err? {
            EncodedFieldsFailurePersists(d, f, i + 1, |d.fields|);
            return Err(w.error);
          }
          var x := w.value;
          if x.Some? {
            t := t[tn := x.value];
          }
        }
      }
      i := i + 1;
    }
    return Ok(t);
  }

  /** The action of the matched branch of serialize's or serializeList's if-chain on one value. */
  method SerializeWith(rule: Rule, v: JVal) returns (r: Result<Option<Tag>, Error>)
    ensures r == EncodedWith(rule, v)
    decreases v, 3
  {
    match rule {
      case NoRule =>
        r := Ok(None);
      case CompoundRule =>
        if !v.ObjectVal? {
          return Err(CastFailure(v));
        }
        var c := Serialize(v.desc, v.fields);
        r := if c.Ok? then Ok(Some(CompoundTag(c.value))) else Err(c.error);
      case ListRule =>
        if !v.ListVal? {
          return Err(CastFailure(v));
        }
        var l := SerializeList(v.impl, v.elems);
        r := if l.Ok? then Ok(Some(ListTag(l.value))) else Err(l.error);
      case _ =>
        var t := EncodeLeaf(rule, v);
        r := if t.Ok? then Ok(Some(t.value)) else Err(t.error);
    }
  }

  /** serializeList: the counted loop appending one tag per element. */
  method SerializeList(impl: ListImpl, elems: seq<JVal>) returns (r: Result<seq<Tag>, Error>)
    ensures r == EncodedList(impl, elems)
    decreases ListVal(impl, elems), 2
  {
    var c: seq<Tag> := [];
    if |elems| <= 0 {
      return Ok(c);
    }
    if elems[0] == Null {
      return Err(NullPointer);
    }
    var subclass := ClassOf(elems[0]);
    var rule := ElementRule(subclass);
    for i := 0 to |elems|
      invariant EncodedElems(impl, elems, rule, i) == Ok(c)
    {
      var w := SerializeWith(rule, elems[i]);
      EncodedElemsStep(impl, elems, rule, i);
      if w.Err? {
        EncodedElemsFailurePersists(impl, elems, rule, i + 1, |elems|);
        return Err(w.error);
      }
      var x := w.value;
      if x.Some? {
        c := c + [x.value];
      }
    }
    return Ok(c);
  }

  // ---------------------------------------------------------------- properties

  /** Once a field fails to serialize, serialize throws: later fields do not change the outcome. */
  lemma {:induction false} EncodedFieldsFailurePersists(d: ClassDesc, f: map<string, JVal>, i: nat, j: nat)
    requires i <= j <= |d.fields| && EncodedFields(d, f, i).Err?
    ensures EncodedFields(d, f, j) == EncodedFields(d, f, i)
    decreases j
  {
    if j > i {
      EncodedFieldsFailurePersists(d, f, i, j - 1);
    }
  }

  /** Once an element fails to serialize, serializeList throws: later elements do not change the outcome. */
  lemma {:induction false} EncodedElemsFailurePersists(impl: ListImpl, elems: seq<JVal>, rule: Rule, i: nat, j: nat)
    requires i <= j <= |elems| && EncodedElems(impl, elems, rule, i).Err?
    ensures EncodedElems(impl, elems, rule, j) == EncodedElems(impl, elems, rule, i)
    decreases j
  {
    if j > i {
      EncodedElemsFailurePersists(impl, elems, rule, i, j - 1);
    }
  }

  /** One turn of serializeList's loop. */
  lemma EncodedElemsStep(impl: ListImpl, elems: seq<JVal>, rule: Rule, i: nat)
    requires i < |elems| && EncodedElems(impl, elems, rule, i).Ok?
    ensures EncodedWith(rule, elems[i]).Err? ==> EncodedElems(impl, elems, rule, i + 1) == Err(EncodedWith(rule, elems[i]).error)
    ensures EncodedWith(rule, elems[i]).Ok? ==>
      var acc := EncodedElems(impl, elems, rule, i).value;
      var w := EncodedWith(rule, elems[i]).value;
      EncodedElems(impl, elems, rule, i + 1) == Ok(if w.Some? then acc + [w.value] else acc)
  {
  }

  /** Field j of d contributes an entry: it is annotated, holds a non-null value, and a rule matches its declared class. */
  predicate Writes(d: ClassDesc, f: map<string, JVal>, j: nat)
    requires j < |d.fields|
  {
    FieldOutcome(d, f, j).Ok? && FieldOutcome(d, f, j).value.Some?
  }

  /** Field j of d writes an entry under tag name k. */
  predicate WritesUnder(d: ClassDesc, f: map<string, JVal>, j: nat, k: string)
    requires j < |d.fields|
  {
    Writes(d, f, j) && TagName(d.fields[j]) == k
  }

  /** Field j of d makes serialize throw: it is annotated and non-null, and writing its value fails. */
  predicate Throws(d: ClassDesc, f: map<string, JVal>, j: nat)
    requires j < |d.fields|
  {
    FieldOutcome(d, f, j).Err?
  }

  /** No two annotated fields of d resolve to the same tag name. */
  predicate DistinctTagNames(d: ClassDesc) {
    forall j, k :: 0 <= j < k < |d.fields| && d.fields[j].annotation.Some? && d.fields[k].annotation.Some? ==>
      TagName(d.fields[j]) != TagName(d.fields[k])
  }

  /** One turn of serialize's loop, in terms of what field i does. */
  lemma EncodedFieldsStep(d: ClassDesc, f: map<string, JVal>, i: nat)
    requires i < |d.fields| && EncodedFields(d, f, i).Ok?
    ensures Throws(d, f, i) ==> EncodedFields(d, f, i + 1).Err?
    ensures Writes(d, f, i) ==>
      EncodedFields(d, f, i + 1) == Ok(EncodedFields(d, f, i).value[TagName(d.fields[i]) := FieldOutcome(d, f, i).value.value])
    ensures !Throws(d, f, i) && !Writes(d, f, i) ==> EncodedFields(d, f, i + 1) == EncodedFields(d, f, i)
  {
  }

  /** The field loop fails after i fields exactly when one of them throws. */
  lemma {:induction false} EncodedFieldsFails(d: ClassDesc, f: map<string, JVal>, i: nat)
    requires i <= |d.fields|
    ensures EncodedFields(d, f, i).Err? <==> exists j :: 0 <= j < i && Throws(d, f, j)
  {
    if i > 0 {
      EncodedFieldsFails(d, f, i - 1);
      if EncodedFields(d, f, i - 1).Ok? {
        EncodedFieldsStep(d, f, i - 1);
      }
    }
  }

  /** One turn of serialize's loop adds the tag name of field i to the keys exactly when the field writes. */
  lemma EncodedFieldsKeysStep(d: ClassDesc, f: map<string, JVal>, i: nat)
    requires i < |d.fields| && EncodedFields(d, f, i + 1).Ok?
    ensures EncodedFields(d, f, i).Ok?
    ensures EncodedFields(d, f, i + 1).value.Keys ==
      EncodedFields(d, f, i).value.Keys + (if Writes(d, f, i) then {TagName(d.fields[i])} else {})
  {
    EncodedFieldsStep(d, f, i);
  }

  /**
   * The keys written after i fields are the tag names of the fields among them that
   * write: unannotated fields, null fields and fields of unrecognised classes leave no entry.
   */
  lemma {:induction false} EncodedFieldsKeys(d: ClassDesc, f: map<string, JVal>, i: nat, k: string)
    requires i <= |d.fields| && EncodedFields(d, f, i).Ok?
    ensures k in EncodedFields(d, f, i).value <==> exists j :: 0 <= j < i && WritesUnder(d, f, j, k)
  {
    if i > 0 {
      EncodedFieldsKeysStep(d, f, i - 1);
      EncodedFieldsKeys(d, f, i - 1, k);
      if WritesUnder(d, f, i - 1, k) {
        assert k in EncodedFields(d, f, i).value;
      }
    }
  }

  /** When annotated fields have distinct tag names, each field that writes finds its own tag under its name. */
  lemma {:induction false} EncodedFieldsValues(d: ClassDesc, f: map<string, JVal>, i: nat, j: nat)
    requires j < i <= |d.fields| && EncodedFields(d, f, i).Ok?
    requires DistinctTagNames(d) && Writes(d, f, j)
    ensures TagName(d.fields[j]) in EncodedFields(d, f, i).value
    ensures EncodedFields(d, f, i).value[TagName(d.fields[j])] == FieldOutcome(d, f, j).value.value
  {
    var prev := EncodedFields(d, f, i - 1);
    assert prev.Ok?;
    EncodedFieldsStep(d, f, i - 1);
    if j < i - 1 {
      EncodedFieldsValues(d, f, i - 1, j);
      if Writes(d, f, i - 1) {
        assert TagName(d.fields[j]) != TagName(d.fields[i - 1]);
      }
    }
  }

  /** Field j is the last of the first i fields that writes under tag name k. */
  predicate LastWriter(d: ClassDesc, f: map<string, JVal>, i: nat, k: string, j: nat)
    requires i <= |d.fields|
  {
    j < i && WritesUnder(d, f, j, k) && forall l :: j < l < i ==> !WritesUnder(d, f, l, k)
  }

  /**
   * Tag names may collide; setTag then overwrites, so the entry under a name holds the
   * tag of the last field among the first i that writes under it.
   */
  lemma {:induction false} EncodedFieldsLastWins(d: ClassDesc, f: map<string, JVal>, i: nat, k: string)
    requires i <= |d.fields| && EncodedFields(d, f, i).Ok? && k in EncodedFields(d, f, i).value
    ensures exists j :: LastWriter(d, f, i, k, j) && EncodedFields(d, f, i).value[k] == FieldOutcome(d, f, j).value.value
  {
    assert i > 0;
    EncodedFieldsKeysStep(d, f, i - 1);
    EncodedFieldsStep(d, f, i - 1);
    var prev := EncodedFields(d, f, i - 1).value;
    if WritesUnder(d, f, i - 1, k) {
      assert LastWriter(d, f, i, k, i - 1);
    } else {
      assert k in prev && EncodedFields(d, f, i).value[k] == prev[k];
      EncodedFieldsLastWins(d, f, i - 1, k);
      var j :| LastWriter(d, f, i - 1, k, j) && prev[k] == FieldOutcome(d, f, j).value.value;
      assert LastWriter(d, f, i, k, j);
    }
  }

  /**
   * What serialize writes, as the source promises: it throws exactly when writing some
   * field's value does; otherwise there is an entry under the resolved name of every
   * annotated, non-null field whose declared class has a rule, holding that field's
   * tag, and no other entry.
   */
  lemma SerializeEntries(d: ClassDesc, f: map<string, JVal>)
    requires DistinctTagNames(d)
    ensures Encoded(d, f).Err? <==> exists j :: 0 <= j < |d.fields| && Throws(d, f, j)
    ensures Encoded(d, f).Ok? ==>
      forall k :: k in Encoded(d, f).value <==> exists j :: 0 <= j < |d.fields| && WritesUnder(d, f, j, k)
    ensures Encoded(d, f).Ok? ==>
      forall j :: 0 <= j < |d.fields| && Writes(d, f, j) ==>
        TagName(d.fields[j]) in Encoded(d, f).value && Encoded(d, f).value[TagName(d.fields[j])] == FieldOutcome(d, f, j).value.value
  {
    EncodedFieldsFails(d, f, |d.fields|);
    if Encoded(d, f).Ok? {
      forall k {
        EncodedFieldsKeys(d, f, |d.fields|, k);
      }
      forall j | 0 <= j < |d.fields| && Writes(d, f, j) {
        EncodedFieldsValues(d, f, |d.fields|, j);
      }
    }
  }

  /**
   * An annotated field holding null, or declared with a class no rule matches, is
   * skipped: its tag name is absent, as no other field uses it.
   */
  lemma SerializeSkips(d: ClassDesc, f: map<string, JVal>, j: nat)
    requires j < |d.fields| && d.fields[j].annotation.Some?
    requires FieldValue(f, d.fields[j].name) == Null || FieldRule(RawClass(d.fields[j].declared)) == NoRule
    requires DistinctTagNames(d) && Encoded(d, f).Ok?
    ensures TagName(d.fields[j]) !in Encoded(d, f).value
  {
    EncodedFieldsKeys(d, f, |d.fields|, TagName(d.fields[j]));
    assert FieldOutcome(d, f, j) == Ok(None);
    forall k | 0 <= k < |d.fields| && Writes(d, f, k)
      ensures TagName(d.fields[k]) != TagName(d.fields[j])
    {
      assert k != j;
    }
  }

  /** The kind of tag a rule writes is the one the rule stands for. */
  lemma {:induction false} EncodedWithKind(rule: Rule, v: JVal)
    requires EncodedWith(rule, v).Ok? && EncodedWith(rule, v).value.Some?
    ensures rule != NoRule && EncodedWith(rule, v).value.value.Id() == RuleTagId(rule)
  {
  }

  /** The kind of tag written for a field agrees with getIDFromClass of its declared class. */
  lemma SerializedFieldKind(d: ClassDesc, f: map<string, JVal>, j: nat)
    requires j < |d.fields| && Writes(d, f, j)
    ensures FieldOutcome(d, f, j).value.value.Id() == GetIDFromClass(RawClass(d.fields[j].declared))
  {
    var fc := RawClass(d.fields[j].declared);
    EncodedWithKind(FieldRule(fc), f[d.fields[j].name]);
    FieldRuleAgreesWithId(fc);
  }

  /** The element loop fails after i elements exactly when one of them fails. */
  lemma {:induction false} EncodedElemsFails(impl: ListImpl, elems: seq<JVal>, rule: Rule, i: nat)
    requires i <= |elems|
    ensures EncodedElems(impl, elems, rule, i).Err? <==> exists k :: 0 <= k < i && EncodedWith(rule, elems[k]).Err?
  {
    if i > 0 {
      EncodedElemsFails(impl, elems, rule, i - 1);
      if EncodedElems(impl, elems, rule, i - 1).Ok? {
        EncodedElemsStep(impl, elems, rule, i - 1);
      }
    }
  }

  /** Under a rule that matches, the loop appends exactly one tag per element. */
  lemma {:induction false} EncodedElemsLength(impl: ListImpl, elems: seq<JVal>, rule: Rule, i: nat)
    requires i <= |elems| && rule != NoRule && EncodedElems(impl, elems, rule, i).Ok?
    ensures |EncodedElems(impl, elems, rule, i).value| == i
  {
    if i > 0 {
      assert EncodedElems(impl, elems, rule, i - 1).Ok?;
      EncodedElemsLength(impl, elems, rule, i - 1);
      EncodedElemsStep(impl, elems, rule, i - 1);
    }
  }

  /** Order preservation: the k-th tag appended is the one written for the k-th element. */
  lemma {:induction false} EncodedElemsAt(impl: ListImpl, elems: seq<JVal>, rule: Rule, i: nat, k: nat)
    requires k < i <= |elems| && rule != NoRule && EncodedElems(impl, elems, rule, i).Ok?
    ensures |EncodedElems(impl, elems, rule, i).value| == i
    ensures EncodedWith(rule, elems[k]) == Ok(Some(EncodedElems(impl, elems, rule, i).value[k]))
  {
    var prev := EncodedElems(impl, elems, rule, i - 1);
    assert prev.Ok?;
    EncodedElemsLength(impl, elems, rule, i);
    EncodedElemsLength(impl, elems, rule, i - 1);
    EncodedElemsStep(impl, elems, rule, i - 1);
    if k < i - 1 {
      EncodedElemsAt(impl, elems, rule, i - 1, k);
    }
  }

  /** Under no rule the loop appends nothing. */
  lemma {:induction false} EncodedElemsUnrecognised(impl: ListImpl, elems: seq<JVal>, i: nat)
    requires i <= |elems|
    ensures EncodedElems(impl, elems, NoRule, i) == Ok([])
  {
    if i > 0 {
      EncodedElemsUnrecognised(impl, elems, i - 1);
    }
  }

  /**
   * serializeList: an empty list is an empty list tag; a list whose first element has a
   * recognised class becomes one tag per element, in order, each of the kind
   * getIDFromClass gives that class; one whose first element's class is not recognised
   * becomes an empty list tag.
   */
  lemma SerializeListInOrder(impl: ListImpl, elems: seq<JVal>)
    requires EncodedList(impl, elems).Ok?
    ensures |elems| == 0 ==> EncodedList(impl, elems) == Ok([])
    ensures |elems| > 0 && ElementRule(ClassOf(elems[0])) == NoRule ==> EncodedList(impl, elems) == Ok([])
    ensures |elems| > 0 && ElementRule(ClassOf(elems[0])) != NoRule ==>
      var c := EncodedList(impl, elems).value;
      var rule := ElementRule(ClassOf(elems[0]));
      && |c| == |elems|
      && (forall k :: 0 <= k < |elems| ==> EncodedWith(rule, elems[k]) == Ok(Some(c[k])))
      && (forall k :: 0 <= k < |elems| ==> c[k].Id() == GetIDFromClass(ClassOf(elems[0])))
  {
    if |elems| > 0 {
      var rule := ElementRule(ClassOf(elems[0]));
      if rule == NoRule {
        EncodedElemsUnrecognised(impl, elems, |elems|);
      } else {
        EncodedElemsLength(impl, elems, rule, |elems|);
        ElementRuleAgreesWithId(ClassOf(elems[0]));
        forall k | 0 <= k < |elems|
          ensures EncodedWith(rule, elems[k]) == Ok(Some(EncodedList(impl, elems).value[k]))
          ensures EncodedList(impl, elems).value[k].Id() == RuleTagId(rule)
        {
          EncodedElemsAt(impl, elems, rule, |elems|, k);
          EncodedWithKind(rule, elems[k]);
        }
      }
    }
  }
}
