/**
 * Small failure-compatible wrappers shared by the whole model.
 */
module Wrappers {

  datatype Option<+T> = None | Some(value: T)

  /** The exceptions the serializer raises, one constructor per kind of failure. */
  datatype Error =
    | CreateAttrFailed(attrName: string) // pymel.error: no attribute shape for the value
    | ArrayOfNothing(arrayName: string)  // None.setArray: the first element of a list got no schema
    | EmptyName                          // IndexError: name[0] on an empty attribute name
    | NoPlugToSet                        // None.setMObject / None.child: matrix and vector writes
    | UnknownDagType                     // Exception("Unknow TYPE") for a reference with no writer
    | NotImplemented                     // NotImplementedError for a category set_attr does not handle
    | MissingClassMarker                 // AttributeError: the network has no _class attribute
    | NoInput                            // IndexError: inputs()[0] on a plug that is only a source
    | DictFieldName                      // AttributeError: longName() called on a str key
    | IntOverflow                        // OverflowError: setInt given an int outside 32 bits
    | NotDagNode                         // AttributeError: getParent() on a node outside the DAG

  datatype Result<+T> = Ok(value: T) | Err(error: Error)
}

/**
 * The runtime values the serializer is handed, and how they are classified
 * before the dictionary serializer of the core gets to see them.
 */
module MayaValues {

  /** Store-native identity of a node in the scene. */
  type NodeId = nat
  /** Identity of a live Python object. */
  type ObjId = nat
  /** Floating-point values are opaque: the serializer never computes with them. */
  type FloatTag = nat

  /**
   * A closed view of the Python values that reach the serializer.
   * VNode is a pymel.PyNode that is not an attribute, VAttrRef a pymel.Attribute
   * (its type name and its current value `get()`), VObject an instance with a
   * `__dict__`, and VOpaque a value with none of the capabilities probed.
   */
  datatype Value =
    | VNone
    | VStr(s: string)
    | VBool(b: bool)
    | VInt(i: int)            // an `int`
    | VLong(l: int)           // a `long`, whatever its magnitude: not a subclass of `int`
    | VFloat(f: FloatTag)
    | VDict(dictId: ObjId)
    | VList(elems: seq<Value>)
    | VTuple(elems: seq<Value>)
    | VMatrix
    | VVector(x: FloatTag, y: FloatTag, z: FloatTag)
    | VAttrRef(alive: bool, attrType: string, current: Value)
    | VNode(alive: bool, node: NodeId)
    | VObject(objId: ObjId)
    | VOpaque

  /** What a `kInt` attribute and `MPlug.setInt` hold: a signed 32-bit integer. */
  predicate FitsInt32(i: int)
  {
    -0x8000_0000 <= i <= 0x7fff_ffff
  }

  /**
   * Storage categories (consts.DataTypes). TypeOther stands for every category
   * of the core classifier that set_attr has no branch for (dictionaries, None, ...).
   */
  datatype DataType = TypeBasic | TypeList | TypeComplex | TypeDagNode | TypeOther

  /** A classifier of the core that only puts sequences in the list category. */
  ghost predicate BaseSound(base: Value -> DataType)
  {
    forall v: Value :: base(v) == TypeList ==> v.VList? || v.VTuple?
  }

  /**
   * A classifier that, in addition, puts scalars in the basic category and
   * lists in the list category, as the dictionary serializer does.
   */
  ghost predicate BaseStandard(base: Value -> DataType)
  {
    && BaseSound(base)
    && (forall v: Value :: (v.VStr? || v.VBool? || v.VInt? || v.VFloat?) ==> base(v) == TypeBasic)
    && (forall v: Value :: v.VList? ==> base(v) == TypeList)
  }

  /** MayaSerializer.is_data_pymel: an instance of one of the four pymel types. */
  predicate IsDataPymel(v: Value)
  {
    v.VNode? || v.VAttrRef? || v.VMatrix? || v.VVector?
  }

  /**
   * is_valid_PyNode: the value is truthy, has an `exists` method, and it answers true.
   * Only node and attribute references have `exists`.
   */
  predicate IsValidPyNode(v: Value)
  {
    match v
    case VNode(alive, _) => alive
    case VAttrRef(alive, _, _) => alive
    case _ => false
  }

  /**
   * MayaSerializer.get_data_type: pymel values are references before the base
   * classifier of the core (`base`) is consulted.
   */
  function GetDataType(base: Value -> DataType, v: Value): DataType
  {
    if IsDataPymel(v) then TypeDagNode else base(v)
  }

  /**
   * The base classifier decides the category of every value but the pymel
   * ones: two classifiers give a pymel value the same category, a reference,
   * and give any other value the same category exactly when they agree on it.
   */
  lemma PymelOverridesBase(b1: Value -> DataType, b2: Value -> DataType, v: Value)
    ensures IsDataPymel(v) ==> GetDataType(b1, v) == TypeDagNode && GetDataType(b2, v) == TypeDagNode
    ensures !IsDataPymel(v) ==> (GetDataType(b1, v) == GetDataType(b2, v) <==> b1(v) == b2(v))
  {
  }

  /** Every live reference is a reference, whatever the base classifier says. */
  lemma ValidPyNodeIsDagNode(base: Value -> DataType, v: Value)
    requires IsValidPyNode(v)
    ensures GetDataType(base, v) == TypeDagNode
  {
  }

  /** The list category, once the pymel check is passed, only ever holds sequences. */
  lemma ListCategoryIsSequence(base: Value -> DataType, v: Value)
    requires BaseSound(base)
    requires GetDataType(base, v) == TypeList
    ensures v.VList? || v.VTuple?
  {
  }
}
