// The JSON value of the evaluation engine: a type tag with the scalar text,
// the array elements or the object entries, and the helpers that build
// values, measure their nesting depth and count their elements.
module Json {
  import opened Wrappers

  datatype JsonType = TypeNull | TypeObject | TypeArray | TypeString | TypeNumber | TypeBoolean
                    | TypeBlob | TypeBit | TypeDate | TypeDateTime | TypeTime

  /** A JSON value. Only the field matching the tag is meaningful: `s` for
      scalars, `a` for arrays, `o` for objects. */
  datatype Value = Value(t: JsonType, s: seq<byte>, a: seq<Value>, o: Object)

  /** The entries of an object, in order. */
  datatype Object = Object(kvs: seq<Kv>)

  datatype Kv = Kv(k: string, v: Value)

  // ---------------------------------------------------------------------------
  // Constructors

  function NewArray(vals: seq<Value>): (v: Value)
    ensures v.t == TypeArray && v.a == vals && v.s == [] && v.o == Object([])
  {
    Value(TypeArray, [], vals, Object([]))
  }

  function NewObject(): (v: Value)
    ensures v.t == TypeObject && v.o == Object([]) && v.s == [] && v.a == []
  {
    Value(TypeObject, [], [], Object([]))
  }

  /** A scalar of the given type holding `raw`. */
  function NewScalar(t: JsonType, raw: seq<byte>): (v: Value)
    ensures v.t == t && v.s == raw && v.a == [] && v.o == Object([])
  {
    Value(t, raw, [], Object([]))
  }

  function NewNumber(num: seq<byte>): (v: Value)
    ensures v.t == TypeNumber && v.s == num && v.a == [] && v.o == Object([])
  {
    NewScalar(TypeNumber, num)
  }

  function NewString(raw: seq<byte>): (v: Value)
    ensures v.t == TypeString && v.s == raw && v.a == [] && v.o == Object([])
  {
    NewScalar(TypeString, raw)
  }

  function NewBlob(raw: seq<byte>): (v: Value)
    ensures v.t == TypeBlob && v.s == raw && v.a == [] && v.o == Object([])
  {
    NewScalar(TypeBlob, raw)
  }

  function NewBit(raw: seq<byte>): (v: Value)
    ensures v.t == TypeBit && v.s == raw && v.a == [] && v.o == Object([])
  {
    NewScalar(TypeBit, raw)
  }

  function NewDate(raw: seq<byte>): (v: Value)
    ensures v.t == TypeDate && v.s == raw && v.a == [] && v.o == Object([])
  {
    NewScalar(TypeDate, raw)
  }

  function NewDateTime(raw: seq<byte>): (v: Value)
    ensures v.t == TypeDateTime && v.s == raw && v.a == [] && v.o == Object([])
  {
    NewScalar(TypeDateTime, raw)
  }

  function NewTime(raw: seq<byte>): (v: Value)
    ensures v.t == TypeTime && v.s == raw && v.a == [] && v.o == Object([])
  {
    NewScalar(TypeTime, raw)
  }

  // ---------------------------------------------------------------------------
  // Depth and length

  /** Whether the value's tag makes it an array or an object. */
  predicate IsContainer(v: Value)
  {
    v.t == TypeArray || v.t == TypeObject
  }

  /** The nesting depth: one more than the deepest child of an array or an
      object, one for every other value (see `DepthBounds`). */
  function DepthOf(v: Value): (d: nat)
    ensures d >= 1
    decreases v, 1
  {
    match v.t
    case TypeObject => 1 + MaxEntryDepth(v.o.kvs)
    case TypeArray => 1 + MaxDepth(v.a)
    case _ => 1
  }

  /** The greatest depth of the elements, 0 when there are none. */
  function MaxDepth(vs: seq<Value>): nat
    decreases vs, 0
  {
    if vs == [] then 0
    else
      var d := DepthOf(vs[|vs| - 1]);
      var m := MaxDepth(vs[..|vs| - 1]);
      if d > m then d else m
  }

  /** The greatest depth of the entries' values, 0 when there are none. */
  function MaxEntryDepth(kvs: seq<Kv>): nat
    decreases kvs, 0
  {
    if kvs == [] then 0
    else
      var d := DepthOf(kvs[|kvs| - 1].v);
      var m := MaxEntryDepth(kvs[..|kvs| - 1]);
      if d > m then d else m
  }

  /** The greatest depth is at least each element's, is 0 exactly when
      there are no elements, and is some element's depth otherwise. */
  lemma {:induction false} MaxDepthBounds(vs: seq<Value>)
    ensures forall i :: 0 <= i < |vs| ==> MaxDepth(vs) >= DepthOf(vs[i])
    ensures vs == [] <==> MaxDepth(vs) == 0
    ensures vs != [] ==> exists i :: 0 <= i < |vs| && MaxDepth(vs) == DepthOf(vs[i])
  {
    if vs != [] {
      var init := vs[..|vs| - 1];
      MaxDepthBounds(init);
      assert forall i :: 0 <= i < |init| ==> init[i] == vs[i];
      if init != [] {
        var j :| 0 <= j < |init| && MaxDepth(init) == DepthOf(init[j]);
        assert vs[j] == init[j];
      }
    }
  }

  /** The same for the entries of an object. */
  lemma {:induction false} MaxEntryDepthBounds(kvs: seq<Kv>)
    ensures forall i :: 0 <= i < |kvs| ==> MaxEntryDepth(kvs) >= DepthOf(kvs[i].v)
    ensures kvs == [] <==> MaxEntryDepth(kvs) == 0
    ensures kvs != [] ==> exists i :: 0 <= i < |kvs| && MaxEntryDepth(kvs) == DepthOf(kvs[i].v)
  {
    if kvs != [] {
      var init := kvs[..|kvs| - 1];
      MaxEntryDepthBounds(init);
      assert forall i :: 0 <= i < |init| ==> init[i] == kvs[i];
      if init != [] {
        var j :| 0 <= j < |init| && MaxEntryDepth(init) == DepthOf(init[j].v);
        assert kvs[j] == init[j];
      }
    }
  }

  /** A container is deeper than each of its children and exactly one
      deeper than its deepest child; a scalar, an empty array and an empty
      object have depth 1. */
  lemma DepthBounds(v: Value)
    ensures v.t == TypeArray ==> forall i :: 0 <= i < |v.a| ==> DepthOf(v) > DepthOf(v.a[i])
    ensures v.t == TypeObject ==> forall i :: 0 <= i < |v.o.kvs| ==> DepthOf(v) > DepthOf(v.o.kvs[i].v)
    ensures v.t == TypeArray && v.a != [] ==> exists i :: 0 <= i < |v.a| && DepthOf(v) == 1 + DepthOf(v.a[i])
    ensures v.t == TypeObject && v.o.kvs != [] ==> exists i :: 0 <= i < |v.o.kvs| && DepthOf(v) == 1 + DepthOf(v.o.kvs[i].v)
    ensures !IsContainer(v) || (v.t == TypeArray && v.a == []) || (v.t == TypeObject && v.o.kvs == []) ==> DepthOf(v) == 1
  {
    MaxDepthBounds(v.a);
    MaxEntryDepthBounds(v.o.kvs);
  }

  /** Computes the depth the way the engine does: a running maximum over
      the children of an array or an object, plus one. */
  method Depth(v: Value) returns (d: int)
    ensures d == DepthOf(v)
    decreases v
  {
    var depth := 0;
    match v.t {
      case TypeObject =>
        var i := 0;
        while i < |v.o.kvs|
          invariant 0 <= i <= |v.o.kvs|
          invariant depth == MaxEntryDepth(v.o.kvs[..i])
        {
          assert v.o.kvs[..i + 1][..i] == v.o.kvs[..i];
          assert v.o.kvs[i] in v.o.kvs;
          var c := Depth(v.o.kvs[i].v);
          if c > depth {
            depth := c;
          }
          i := i + 1;
        }
        assert v.o.kvs[..i] == v.o.kvs;
      case TypeArray =>
        var i := 0;
        while i < |v.a|
          invariant 0 <= i <= |v.a|
          invariant depth == MaxDepth(v.a[..i])
        {
          assert v.a[..i + 1][..i] == v.a[..i];
          var c := Depth(v.a[i]);
          if c > depth {
            depth := c;
          }
          i := i + 1;
        }
        assert v.a[..i] == v.a;
      case _ =>
    }
    return depth + 1;
  }

  /** The number of elements of an array, of entries of an object, and 1
      for any other value. */
  function Len(v: Value): (n: nat)
    ensures v.t == TypeArray ==> n == |v.a|
    ensures v.t == TypeObject ==> n == |v.o.kvs|
    ensures !IsContainer(v) ==> n == 1
  {
    match v.t
    case TypeArray => |v.a|
    case TypeObject => |v.o.kvs|
    case _ => 1
  }

  /** What the constructors build: a scalar has depth and length 1; a new
      object is empty, with depth 1 and length 0; an array has one element
      per value and is one deeper than its deepest value. */
  lemma ConstructedShapes(t: JsonType, raw: seq<byte>, vals: seq<Value>)
    requires t != TypeArray && t != TypeObject
    ensures DepthOf(NewScalar(t, raw)) == 1 && Len(NewScalar(t, raw)) == 1
    ensures DepthOf(NewObject()) == 1 && Len(NewObject()) == 0
    ensures Len(NewArray(vals)) == |vals|
    ensures forall i :: 0 <= i < |vals| ==> DepthOf(NewArray(vals)) > DepthOf(vals[i])
    ensures vals == [] <==> DepthOf(NewArray(vals)) == 1
  {
    MaxDepthBounds(vals);
  }

  /** Nesting a value in an array makes it exactly one deeper. */
  lemma WrapDeepens(v: Value)
    ensures DepthOf(NewArray([v])) == DepthOf(v) + 1
  {
    assert [v][..0] == [];
    assert MaxDepth([]) == 0;
    assert MaxDepth([v]) == DepthOf(v);
  }
}
