/**
 * MayaSerializer.set_attr and add_attr: writing a value into a node's
 * attribute. A node is a map from attribute name to its schema and stored
 * data; a plug is modelled by the data it holds, and a write returns the
 * plug's new data.
 */
module Attributes {
  import opened Wrappers
  import opened MayaValues
  import opened Schemas

  /** What a plug holds: nothing yet, a scalar, or one entry per array element. */
  datatype Data =
    | Unset
    | DBool(b: bool)
    | DInt(i: int)
    | DFloat(f: FloatTag)
    | DString(s: string)
    | DArray(cells: seq<Data>)

  /** Whether a write ran to the end or raised. */
  datatype Status = Done | Raised(error: Error)

  /**
   * The outcome of set_attr on one plug: the plug's new data, the values the
   * source connects the plug for (the connection itself is not modelled), and
   * the status. On a raise, `data` is what was written before the raise.
   */
  datatype WriteResult = WriteResult(data: Data, links: seq<Value>, status: Status)

  /** An attribute of a node: its shape, its nice-name override and its data. */
  datatype Attr = Attr(schema: Schema, niceName: string, data: Data)

  /**
   * A network node: its name, its attributes by long name, and the order in
   * which they were added (the order listAttr reports them in).
   */
  datatype Node = Node(name: string, attrs: map<string, Attr>, order: seq<string>)

  /** The attribute order lists each attribute exactly once. */
  ghost predicate NodeValid(n: Node)
  {
    && (forall i :: 0 <= i < |n.order| ==> n.order[i] in n.attrs)
    && (forall k :: k in n.attrs ==> k in n.order)
    && (forall i, j :: 0 <= i < j < |n.order| ==> n.order[i] != n.order[j])
  }

  /**
   * The cells a list write starts from: the plug's existing elements, and
   * unset cells beyond them up to `n`. Elements past `n` stay as they were.
   */
  function StartCells(d: Data, n: nat): (r: seq<Data>)
    ensures |r| == if d.DArray? && |d.cells| > n then |d.cells| else n
    ensures forall j :: 0 <= j < |r| ==> r[j] == OldCell(d, j)
  {
    var before := if d.DArray? then d.cells else [];
    if |before| >= n then before else before + seq(n - |before|, _ => Unset)
  }

  /** Element `j` of what a plug holds: its cell when it is an array that long, else nothing. */
  function OldCell(d: Data, j: nat): Data
  {
    if d.DArray? && j < |d.cells| then d.cells[j] else Unset
  }

  /**
   * set_attr(plug, data): the list branch writes every element at its logical
   * index, stopping at the first element that raises, and leaves the elements
   * past the list's length alone; the basic branch picks the typed setter
   * bool, then int, then float, then string, where a `long` matches none and
   * an int outside 32 bits overflows `setInt`; complex values and live
   * references are connected; matrix and vector values dereference a plug
   * that is None.
   */
  function Write(base: Value -> DataType, d: Data, v: Value): (r: WriteResult)
    requires BaseSound(base)
    decreases v, 1, 0
  {
    match GetDataType(base, v)
    case TypeList =>
      ListCategoryIsSequence(base, v);
      WriteCells(base, v, 0, StartCells(d, |v.elems|), [])
    case TypeBasic =>
      (match v
       case VBool(b) => WriteResult(DBool(b), [], Done)
       case VInt(i) =>
         if FitsInt32(i) then WriteResult(DInt(i), [], Done)
         else WriteResult(d, [], Raised(IntOverflow))
       case VFloat(f) => WriteResult(DFloat(f), [], Done)
       case VStr(s) => WriteResult(DString(s), [], Done)
       case _ => WriteResult(d, [], Done))
    case TypeComplex => WriteResult(d, [v], Done)
    case TypeDagNode =>
      (match v
       case VAttrRef(alive, _, _) =>
         if alive then WriteResult(d, [v], Done) else WriteResult(d, [], Done)
       case VMatrix => WriteResult(d, [], Raised(NoPlugToSet))
       case VVector(_, _, _) => WriteResult(d, [], Raised(NoPlugToSet))
       case VNode(alive, _) =>
         if alive then WriteResult(d, [v], Done) else WriteResult(d, [], Done)
       case _ => WriteResult(d, [], Raised(UnknownDagType)))
    case TypeOther => WriteResult(d, [], Raised(NotImplemented))
  }

  /** The element loop of the list branch, from element `i` on. */
  function WriteCells(base: Value -> DataType, v: Value, i: nat, cells: seq<Data>, links: seq<Value>): (r: WriteResult)
    requires BaseSound(base)
    requires v.VList? || v.VTuple?
    requires i <= |v.elems| <= |cells|
    decreases v, 0, |v.elems| - i
  {
    if i == |v.elems| then WriteResult(DArray(cells), links, Done)
    else
      var w := Write(base, cells[i], v.elems[i]);
      if w.status.Raised? then WriteResult(DArray(cells[i := w.data]), links + w.links, w.status)
      else WriteCells(base, v, i + 1, cells[i := w.data], links + w.links)
  }

  /** set_attr on one plug, with the element loop of the list branch. */
  method WritePlug(base: Value -> DataType, d: Data, v: Value) returns (r: WriteResult)
    requires BaseSound(base)
    ensures r == Write(base, d, v)
    decreases v
  {
    var t := GetDataType(base, v);
    if t == TypeList {
      ListCategoryIsSequence(base, v);
      var n := |v.elems|;
      var cells := StartCells(d, n);
      var links := [];
      var i := 0;
      while i < n
        invariant 0 <= i <= n <= |cells|
        invariant WriteCells(base, v, i, cells, links) == Write(base, d, v)
      {
        var w := WritePlug(base, cells[i], v.elems[i]);
        cells := cells[i := w.data];
        links := links + w.links;
        if w.status.Raised? {
          return WriteResult(DArray(cells), links, w.status);
        }
        i := i + 1;
      }
      r := WriteResult(DArray(cells), links, Done);
    } else if t == TypeBasic {
      r := WriteResult(d, [], Done);
      if v.VBool? {
        r := r.(data := DBool(v.b));
      } else if v.VInt? {
        if FitsInt32(v.i) {
          r := r.(data := DInt(v.i));
        } else {
          r := r.(status := Raised(IntOverflow));
        }
      } else if v.VFloat? {
        r := r.(data := DFloat(v.f));
      } else if v.VStr? {
        r := r.(data := DString(v.s));
      }
    } else if t == TypeComplex {
      r := WriteResult(d, [v], Done);
    } else if t == TypeDagNode {
      if v.VAttrRef? {
        if !v.alive {
          return WriteResult(d, [], Done);
        }
        r := WriteResult(d, [v], Done);
      } else if v.VMatrix? || v.VVector? {
        r := WriteResult(d, [], Raised(NoPlugToSet));
      } else if v.VNode? {
        if !v.alive {
          return WriteResult(d, [], Done);
        }
        r := WriteResult(d, [v], Done);
      } else {
        r := WriteResult(d, [], Raised(UnknownDagType));
      }
    } else {
      r := WriteResult(d, [], Raised(NotImplemented));
    }
  }

  /** The node after add_attr, the values linked, and the status. */
  datatype AddResult = AddResult(node: Node, links: seq<Value>, status: Status)

  /**
   * add_attr(node, name, data): an empty sequence of the list category is
   * skipped; an existing attribute is written in place; otherwise the schema is
   * built, a None schema adds nothing, and a new attribute (nice name = name)
   * is added and then written.
   */
  function AddAttrSpec(base: Value -> DataType, node: Node, name: string, v: Value): (r: AddResult)
    requires BaseSound(base)
  {
    if GetDataType(base, v) == TypeList && (v.VList? || v.VTuple?) && |v.elems| == 0 then
      AddResult(node, [], Done)
    else if name in node.attrs then
      var a := node.attrs[name];
      var w := Write(base, a.data, v);
      AddResult(node.(attrs := node.attrs[name := a.(data := w.data)]), w.links, w.status)
    else
      match CreateAttr(name, v)
      case Err(e) => AddResult(node, [], Raised(e))
      case Ok(None) => AddResult(node, [], Done)
      case Ok(Some(s)) =>
        var w := Write(base, Unset, v);
        AddResult(node.(attrs := node.attrs[name := Attr(s, name, w.data)], order := node.order + [name]),
                  w.links, w.status)
  }

  // ---------------------------------------------------------------------
  // What a write stores, defined independently of set_attr.

  /** The scalars a typed setter stores as they are: a bool, an int of 32 bits, a float, a string. */
  predicate StorableScalar(v: Value)
  {
    v.VStr? || v.VBool? || (v.VInt? && FitsInt32(v.i)) || v.VFloat?
  }

  /** Two scalars of the same Python type. */
  predicate SameKind(a: Value, b: Value)
  {
    (a.VStr? && b.VStr?) || (a.VBool? && b.VBool?) || (a.VInt? && b.VInt?) || (a.VFloat? && b.VFloat?)
  }

  /**
   * Values a write stores as they are into an attribute create_attr shaped for
   * them: a storable scalar, or a flat list of storable scalars that all have
   * the kind of the first, which is the kind the array attribute takes.
   */
  predicate Storable(v: Value)
  {
    match v
    case VList(es) => forall j :: 0 <= j < |es| ==> StorableScalar(es[j]) && SameKind(es[j], es[0])
    case _ => StorableScalar(v)
  }

  /** The data a storable scalar is stored as. */
  function EncodeScalar(v: Value): Data
    requires StorableScalar(v)
  {
    match v
    case VStr(s) => DString(s)
    case VBool(b) => DBool(b)
    case VInt(i) => DInt(i)
    case VFloat(f) => DFloat(f)
  }

  /** The data a storable value is stored as on a plug that held no longer array. */
  function Encode(v: Value): Data
    requires Storable(v)
  {
    match v
    case VList(es) => DArray(seq(|es|, j requires 0 <= j < |es| => EncodeScalar(es[j])))
    case _ => EncodeScalar(v)
  }

  /** The value a plug's `get()` answers for stored data. */
  function Decode(d: Data): Value
  {
    match d
    case Unset => VNone
    case DBool(b) => VBool(b)
    case DInt(i) => VInt(i)
    case DFloat(f) => VFloat(f)
    case DString(s) => VStr(s)
    case DArray(cs) => VList(seq(|cs|, j requires 0 <= j < |cs| => Decode(cs[j])))
  }

  /** Decoding undoes encoding: a stored bool reads back as a bool, never as an int. */
  lemma DecodeEncode(v: Value)
    requires Storable(v)
    ensures Decode(Encode(v)) == v
  {
    if v.VList? {
      var cs := Encode(v).cells;
      assert forall j :: 0 <= j < |v.elems| ==> Decode(cs[j]) == v.elems[j];
      assert Decode(Encode(v)).elems == v.elems;
    }
  }

  /** A storable scalar overwrites whatever the plug held, links nothing and does not raise. */
  lemma WriteScalar(base: Value -> DataType, d: Data, v: Value)
    requires BaseStandard(base) && StorableScalar(v)
    ensures Write(base, d, v) == WriteResult(EncodeScalar(v), [], Done)
  {
  }
  /**
   * A `long` in the basic category matches none of the `isinstance` tests of
   * set_attr: the plug keeps its data, nothing is linked and the write completes.
   */
  lemma LongIgnored(base: Value -> DataType, d: Data, l: int)
    requires BaseSound(base) && base(VLong(l)) == TypeBasic
    ensures Write(base, d, VLong(l)) == WriteResult(d, [], Done)
  {
  }


  /** The element loop, from element `i` on, on a list of storable values. */
  lemma {:induction false} WriteCellsStorable(base: Value -> DataType, v: Value, i: nat, cells: seq<Data>)
    requires BaseStandard(base)
    requires v.VList? && Storable(v)
    requires i <= |v.elems| <= |cells|
    requires forall j :: 0 <= j < i ==> cells[j] == Encode(v).cells[j]
    ensures WriteCells(base, v, i, cells, []) ==
      WriteResult(DArray(Encode(v).cells + cells[|v.elems|..]), [], Done)
    decreases |v.elems| - i
  {
    var es := v.elems;
    if i == |es| {
      assert cells == Encode(v).cells + cells[|es|..];
    } else {
      WriteScalar(base, cells[i], es[i]);
      var none: seq<Value> := [];
      assert none + none == none;
      WriteCellsStorable(base, v, i + 1, cells[i := EncodeScalar(es[i])]);
      assert cells[i := EncodeScalar(es[i])][|es|..] == cells[|es|..];
    }
  }

  /**
   * With the standard classifier, writing a storable value links nothing and
   * does not raise. A scalar replaces what the plug held; a list stores its
   * encoding in the first cells and keeps any further cells of an array the
   * plug already held.
   */
  lemma WriteStorable(base: Value -> DataType, d: Data, v: Value)
    requires BaseStandard(base)
    requires Storable(v)
    ensures var r := Write(base, d, v);
      && r.links == [] && r.status == Done
      && (v.VList? && d.DArray? && |d.cells| > |v.elems| ==> r.data == DArray(Encode(v).cells + d.cells[|v.elems|..]))
      && (!(v.VList? && d.DArray? && |d.cells| > |v.elems|) ==> r.data == Encode(v))
  {
    if v.VList? {
      var cells := StartCells(d, |v.elems|);
      WriteCellsStorable(base, v, 0, cells);
      if d.DArray? && |d.cells| > |v.elems| {
        assert cells == d.cells;
      } else {
        assert cells[|v.elems|..] == [];
        assert Encode(v).cells + [] == Encode(v).cells;
      }
    }
  }

  /**
   * The element loop writes the elements in index order: when it finishes,
   * cell `j` below the list's length is what writing element `j` over the old
   * cell produces, and the cells past the list's length are untouched.
   */
  lemma {:induction false} WriteCellsInOrder(base: Value -> DataType, v: Value, i: nat, cells: seq<Data>, links: seq<Value>)
    requires BaseSound(base)
    requires v.VList? || v.VTuple?
    requires i <= |v.elems| <= |cells|
    ensures var r := WriteCells(base, v, i, cells, links);
      && r.data.DArray? && |r.data.cells| == |cells|
      && (forall j :: 0 <= j < i ==> r.data.cells[j] == cells[j])
      && (forall j :: |v.elems| <= j < |cells| ==> r.data.cells[j] == cells[j])
      && (r.status.Done? ==> forall j :: i <= j < |v.elems| ==> r.data.cells[j] == Write(base, cells[j], v.elems[j]).data)
    decreases |v.elems| - i
  {
    if i < |v.elems| {
      var w := Write(base, cells[i], v.elems[i]);
      if !w.status.Raised? {
        WriteCellsInOrder(base, v, i + 1, cells[i := w.data], links + w.links);
      }
    }
  }

  /**
   * set_attr on a list-category value, once it has run to the end: the plug
   * is an array at least as long as the list; cell `j` of the list is element
   * `j` written over the old cell `j`, and the old cells past the list remain.
   */
  lemma WriteListInOrder(base: Value -> DataType, d: Data, v: Value)
    requires BaseSound(base)
    requires GetDataType(base, v) == TypeList
    requires Write(base, d, v).status.Done?
    ensures v.VList? || v.VTuple?
    ensures var r := Write(base, d, v);
      && r.data.DArray?
      && |r.data.cells| == (if d.DArray? && |d.cells| > |v.elems| then |d.cells| else |v.elems|)
      && (forall j :: 0 <= j < |v.elems| ==> r.data.cells[j] == Write(base, OldCell(d, j), v.elems[j]).data)
      && (forall j :: |v.elems| <= j < |r.data.cells| ==> r.data.cells[j] == d.cells[j])
  {
    ListCategoryIsSequence(base, v);
    WriteCellsInOrder(base, v, 0, StartCells(d, |v.elems|), []);
  }

  // ---------------------------------------------------------------------
  // add_attr

  /**
   * An empty list or tuple never changes the node, whatever the classifier;
   * with the standard classifier it is skipped without a raise.
   */
  lemma AddEmptySequenceUnchanged(base: Value -> DataType, node: Node, name: string, v: Value)
    requires BaseSound(base)
    requires (v.VList? || v.VTuple?) && v.elems == []
    ensures AddAttrSpec(base, node, name, v).node == node
    ensures BaseStandard(base) && v.VList? ==> AddAttrSpec(base, node, name, v) == AddResult(node, [], Done)
  {
    if name in node.attrs && !(GetDataType(base, v) == TypeList) {
      assert node.attrs[name := node.attrs[name]] == node.attrs;
    }
  }

  /** No schema, no change: a value create_attr skips or rejects adds nothing. */
  lemma AddWithoutSchemaUnchanged(base: Value -> DataType, node: Node, name: string, v: Value)
    requires BaseSound(base)
    requires name !in node.attrs
    requires CreateAttr(name, v).Err? || CreateAttr(name, v) == Ok(None)
    ensures AddAttrSpec(base, node, name, v).node == node
    ensures AddAttrSpec(base, node, name, v).status ==
      if CreateAttr(name, v).Err? && !(GetDataType(base, v) == TypeList && (v.VList? || v.VTuple?) && v.elems == [])
      then Raised(CreateAttr(name, v).error) else Done
  {
  }

  /**
   * An existing attribute is written in place: no attribute is created, the
   * order of attributes and the schema stay as they were, no other attribute
   * changes, and the attribute, the links and the status are those of
   * set_attr over the attribute's data (unless the empty-sequence skip applies).
   */
  lemma AddReusesExisting(base: Value -> DataType, node: Node, name: string, v: Value)
    requires BaseSound(base)
    requires name in node.attrs
    ensures var a := AddAttrSpec(base, node, name, v);
      var n := a.node;
      var w := Write(base, node.attrs[name].data, v);
      && n.attrs.Keys == node.attrs.Keys && n.order == node.order && n.name == node.name
      && n.attrs[name].schema == node.attrs[name].schema
      && n.attrs[name].niceName == node.attrs[name].niceName
      && (forall k :: k in node.attrs && k != name ==> n.attrs[k] == node.attrs[k])
      && (!(GetDataType(base, v) == TypeList && (v.VList? || v.VTuple?) && |v.elems| == 0) ==>
            n.attrs[name].data == w.data && a.links == w.links && a.status == w.status)
  {
  }

  /**
   * A missing attribute with a schema is created with that schema and its
   * own name as nice name, appended to the attribute order, and then written.
   */
  lemma AddCreatesNew(base: Value -> DataType, node: Node, name: string, v: Value, s: Schema)
    requires BaseSound(base)
    requires name !in node.attrs
    requires CreateAttr(name, v) == Ok(Some(s))
    ensures var n := AddAttrSpec(base, node, name, v).node;
      && n.attrs.Keys == node.attrs.Keys + {name} && n.order == node.order + [name]
      && n.attrs[name] == Attr(s, name, Write(base, Unset, v).data)
      && (forall k :: k in node.attrs ==> n.attrs[k] == node.attrs[k])
  {
    SkippedIff(name, v);
  }

  /** add_attr keeps the attribute order in step with the attributes. */
  lemma AddKeepsNodeValid(base: Value -> DataType, node: Node, name: string, v: Value)
    requires BaseSound(base)
    ensures NodeValid(node) ==> NodeValid(AddAttrSpec(base, node, name, v).node)
  {
  }
}
