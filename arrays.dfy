/**
 * The two array conversions of Apache Commons Lang's ArrayUtils that the codec uses
 * between boxed arrays (Byte[], Integer[]) and primitive arrays (byte[], int[]).
 * A boxed array may hold null elements; they are `None` here.
 */
module ArrayUtils {
  import opened Wrappers

  /** toObject: boxes every element, in order. */
  function ToObject<T>(a: seq<T>): (r: seq<Option<T>>)
    ensures |r| == |a|
    ensures forall i :: 0 <= i < |a| ==> r[i] == Some(a[i])
  {
    if |a| == 0 then [] else [Some(a[0])] + ToObject(a[1..])
  }

  /** toPrimitive: unboxes every element, in order; a null element throws a
      NullPointerException, which is `None` here. */
  function ToPrimitive<T>(b: seq<Option<T>>): (r: Option<seq<T>>)
    ensures r.Some? <==> forall i :: 0 <= i < |b| ==> b[i].Some?
    ensures r.Some? ==> |r.value| == |b| && forall i :: 0 <= i < |b| ==> b[i] == Some(r.value[i])
  {
    if |b| == 0 then Some([])
    else match b[0]
      case None => None
      case Some(x) =>
        match ToPrimitive(b[1..])
        case None => None
        case Some(rest) => Some([x] + rest)
  }

  /** Unboxing what was boxed gives back the primitive array. */
  lemma ToPrimitiveToObject<T>(a: seq<T>)
    ensures ToPrimitive(ToObject(a)) == Some(a)
  {
    var r := ToPrimitive(ToObject(a));
    assert r.Some?;
    assert r.value == a;
  }

  /** Boxing what was unboxed gives back the boxed array. */
  lemma ToObjectToPrimitive<T>(b: seq<Option<T>>)
    requires ToPrimitive(b).Some?
    ensures ToObject(ToPrimitive(b).value) == b
  {
  }
}
