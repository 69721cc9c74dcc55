/**
 * MayaSerializer.create_attr: the shape of the attribute a value would be
 * stored in, derived without writing anything.
 */
module Schemas {
  import opened Wrappers
  import opened MayaValues

  /** The MFn attribute kinds create_attr builds. */
  datatype Kind =
    | KString                        // typed attribute, kString
    | KBool                          // numeric, kBoolean
    | KInt                           // numeric, kInt
    | KFloat                         // numeric, kFloat
    | KMessage                       // message attribute (dictionaries, nodes, objects)
    | KMatrix                        // matrix attribute
    | KDouble3(children: seq<string>) // numeric compound of three kDouble children
    | KAngle                         // unit attribute, kAngle
    | KTime                          // unit attribute, kTime

  /** An attribute shape: its long name, its kind, and whether setArray(True) was called. */
  datatype Schema = Schema(name: string, kind: Kind, isArray: bool)

  /**
   * create_attr(name, data). Ok(None) is the `return None` of the source (the
   * attribute is skipped); Err is a raise. The dispatch follows the source's
   * order: string, bool, int, float, dict, list, matrix, vector, attribute,
   * `__melobject__`, `__dict__`. A tuple never reaches the array branch because
   * that branch tests `isinstance(type, tuple)`, which is always false, and a
   * `long` passes none of the tests.
   */
  function CreateAttr(name: string, v: Value): (r: Result<Option<Schema>>)
    ensures r.Ok? && r.value.Some? ==> r.value.value.name == name
    decreases v
  {
    match v
    case VStr(_) => Ok(Some(Schema(name, KString, false)))
    case VBool(_) => Ok(Some(Schema(name, KBool, false)))
    case VInt(_) => Ok(Some(Schema(name, KInt, false)))
    case VLong(_) => Err(CreateAttrFailed(name))
    case VFloat(_) => Ok(Some(Schema(name, KFloat, false)))
    case VDict(_) => Ok(Some(Schema(name, KMessage, false)))
    case VList(es) =>
      if |es| < 1 then Ok(None)
      else
        (match CreateAttr(name, es[0])
         case Err(e) => Err(e)
         case Ok(None) => Err(ArrayOfNothing(name))
         case Ok(Some(s)) => Ok(Some(s.(isArray := true))))
    case VMatrix => Ok(Some(Schema(name, KMatrix, false)))
    case VVector(_, _, _) =>
      Ok(Some(Schema(name, KDouble3([name + "X", name + "Y", name + "Z"]), false)))
    case VAttrRef(_, t, cur) =>
      if !IsValidPyNode(v) then Ok(None)
      else if t == "doubleAngle" then Ok(Some(Schema(name, KAngle, false)))
      else if t == "time" then Ok(Some(Schema(name, KTime, false)))
      else CreateAttr(name, cur)
    case VNode(_, _) => Ok(Some(Schema(name, KMessage, false)))
    case VObject(_) => Ok(Some(Schema(name, KMessage, false)))
    case VNone => Err(CreateAttrFailed(name))
    case VTuple(_) => Err(CreateAttrFailed(name))
    case VOpaque => Err(CreateAttrFailed(name))
  }

  /**
   * The values create_attr skips, defined independently of it: an empty list,
   * a dead attribute reference, and a live attribute reference of no unit type
   * whose current value is itself skipped.
   */
  predicate Skipped(v: Value)
  {
    match v
    case VList(es) => es == []
    case VAttrRef(alive, t, cur) =>
      !alive || (t != "doubleAngle" && t != "time" && Skipped(cur))
    case _ => false
  }

  /** Scalars get the schema of their own Python type: a bool is never an int. */
  lemma ScalarSchemas(name: string, v: Value)
    requires v.VStr? || v.VBool? || v.VInt? || v.VFloat?
    ensures CreateAttr(name, v).Ok? && CreateAttr(name, v).value.Some?
    ensures var s := CreateAttr(name, v).value.value;
      && !s.isArray
      && (v.VStr? <==> s.kind == KString)
      && (v.VBool? <==> s.kind == KBool)
      && (v.VInt? <==> s.kind == KInt)
      && (v.VFloat? <==> s.kind == KFloat)
  {
  }

  /**
   * A `long`, however small, is no subclass of `int` and has no `__dict__`:
   * create_attr rejects it.
   */
  lemma LongRejected(name: string, l: int)
    ensures CreateAttr(name, VLong(l)) == Err(CreateAttrFailed(name))
  {
  }

  /**
   * A non-empty list is shaped by its first element alone: the other elements
   * never matter, and the result is the first element's schema marked as an array.
   */
  lemma {:induction false} ListSchemaFromHead(name: string, head: Value, rest1: seq<Value>, rest2: seq<Value>)
    ensures CreateAttr(name, VList([head] + rest1)) == CreateAttr(name, VList([head] + rest2))
    ensures CreateAttr(name, head).Ok? && CreateAttr(name, head).value.Some? ==>
      CreateAttr(name, VList([head] + rest1)) == Ok(Some(CreateAttr(name, head).value.value.(isArray := true)))
  {
    assert ([head] + rest1)[0] == head;
    assert ([head] + rest2)[0] == head;
  }

  /** An empty list, or a sequence that is not a list, never becomes an array attribute. */
  lemma NoArrayForEmptyOrTuple(name: string, es: seq<Value>)
    ensures CreateAttr(name, VList([])) == Ok(None)
    ensures CreateAttr(name, VTuple(es)).Err?
  {
  }

  /**
   * An attribute reference: dead gives None, `doubleAngle` an angle unit, `time`
   * a time unit, and any other type exactly the schema of its current value.
   */
  lemma AttrRefSchema(name: string, alive: bool, t: string, cur: Value)
    ensures var r := CreateAttr(name, VAttrRef(alive, t, cur));
      && (!alive ==> r == Ok(None))
      && (alive && t == "doubleAngle" ==> r == Ok(Some(Schema(name, KAngle, false))))
      && (alive && t == "time" ==> r == Ok(Some(Schema(name, KTime, false))))
      && (alive && t != "doubleAngle" && t != "time" ==> r == CreateAttr(name, cur))
  {
  }

  /** create_attr returns None exactly for the values Skipped describes. */
  lemma {:induction false} SkippedIff(name: string, v: Value)
    ensures CreateAttr(name, v) == Ok(None) <==> Skipped(v)
  {
    match v
    case VAttrRef(alive, t, cur) =>
      if alive && t != "doubleAngle" && t != "time" {
        SkippedIff(name, cur);
      }
    case VList(es) =>
    case _ =>
  }

  /**
   * A vector becomes one double3 compound, not an array, whose three children
   * are the name suffixed with X, Y and Z; they are distinct from each other
   * and from the compound itself.
   */
  lemma VectorSchema(name: string, x: FloatTag, y: FloatTag, z: FloatTag)
    ensures var r := CreateAttr(name, VVector(x, y, z));
      && r == Ok(Some(Schema(name, KDouble3([name + "X", name + "Y", name + "Z"]), false)))
      && var cs := r.value.value.kind.children;
         && (forall j, k :: 0 <= j < k < 3 ==> cs[j] != cs[k])
         && (forall j :: 0 <= j < 3 ==> cs[j] != name)
  {
    var cs := [name + "X", name + "Y", name + "Z"];
    forall j, k | 0 <= j < k < 3 ensures cs[j] != cs[k] {
      assert cs[j][|name|] != cs[k][|name|];
    }
    forall j | 0 <= j < 3 ensures cs[j] != name {
      assert |cs[j]| == |name| + 1;
    }
  }
}
