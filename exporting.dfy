/**
 * MayaSerializer.export_network and add_attr on a scene: network nodes are
 * created or reused, and the object's attribute dictionary is written into
 * them. The `_network` attribute the source monkey-patches onto objects is a
 * side table from object identity to node.
 */
module Exporting {
  import opened Wrappers
  import opened MayaValues
  import opened Schemas
  import opened Attributes
  import opened Reading

  /**
   * What export_network needs of the object besides its dictionary: its
   * identity, its class name, what `__getNetworkName__` answers (None when it
   * is missing or raises), and whether it is a dict.
   */
  datatype ObjInfo = ObjInfo(id: ObjId, className: string, networkName: Option<string>, isDict: bool)

  /** The dictionary keys export_network writes: `_class`, or any key not starting with `_`. */
  predicate Exportable(key: string)
  {
    key == "_class" || (|key| > 0 && key[0] != '_')
  }

  /**
   * One item of the loop over the object's dictionary: a None value is
   * skipped, `key[0]` raises on an empty key, and an exportable key goes
   * through add_attr.
   */
  function ExportItem(base: Value -> DataType, node: Node, key: string, val: Value): (r: AddResult)
    requires BaseSound(base)
    ensures val == VNone || !(Exportable(key) || |key| == 0) ==> r == AddResult(node, [], Done)
    ensures val != VNone && |key| == 0 ==> r == AddResult(node, [], Raised(EmptyName))
  {
    if val == VNone then AddResult(node, [], Done)
    else if key != "_class" && |key| == 0 then AddResult(node, [], Raised(EmptyName))
    else if Exportable(key) then AddAttrSpec(base, node, key, val)
    else AddResult(node, [], Done)
  }

  /** The loop over the object's dictionary, from item `i` on; the first raise stops it. */
  function ExportFrom(base: Value -> DataType, node: Node, items: seq<(string, Value)>, i: nat, links: seq<Value>): (r: AddResult)
    requires BaseSound(base)
    requires i <= |items|
    ensures NodeValid(node) ==> NodeValid(r.node)
    decreases |items| - i
  {
    if i == |items| then AddResult(node, links, Done)
    else
      var a := ExportItem(base, node, items[i].0, items[i].1);
      AddKeepsNodeValid(base, node, items[i].0, items[i].1);
      if a.status.Raised? then AddResult(a.node, links + a.links, a.status)
      else ExportFrom(base, a.node, items, i + 1, links + a.links)
  }

  /** One turn of the dictionary loop. */
  lemma ExportFromStep(base: Value -> DataType, node: Node, items: seq<(string, Value)>, i: nat, links: seq<Value>)
    requires BaseSound(base)
    requires i < |items|
    ensures var a := ExportItem(base, node, items[i].0, items[i].1);
      ExportFrom(base, node, items, i, links) ==
        if a.status.Raised? then AddResult(a.node, links + a.links, a.status)
        else ExportFrom(base, a.node, items, i + 1, links + a.links)
  {
  }

  /** The Maya scene: its network nodes, the `_network` side table, and the links requested. */
  class Scene {
    var nodes: map<NodeId, Node>
    var backrefs: map<ObjId, NodeId>
    var next: NodeId
    var links: seq<Value>

    ghost predicate Valid()
      reads this
    {
      forall id :: id in nodes ==> id < next && NodeValid(nodes[id])
    }

    constructor ()
      ensures Valid()
      ensures nodes == map[] && backrefs == map[] && links == []
    {
      nodes, backrefs, next, links := map[], map[], 0, [];
    }

    /** `hasattr(data, '_network') and is_valid_PyNode(data._network)`. */
    predicate Reusable(obj: ObjInfo)
      reads this
    {
      !obj.isDict && obj.id in backrefs && backrefs[obj.id] in nodes
    }

    /** The node the dictionary is written into, as it is before the writing loop. */
    function StartNode(obj: ObjInfo): Node
      reads this
    {
      if Reusable(obj) then nodes[backrefs[obj.id]]
      else Node(if obj.networkName.Some? then obj.networkName.value else obj.className, map[], [])
    }

    /**
     * import_network's `obj._network = network`: the object `o` rebuilt for
     * the live object `obj` records its network, unless its class is a dict,
     * so that a later export of the object reuses that network.
     */
    method RecordImport(obj: ObjId, o: Imported)
      requires Valid()
      modifies this
      ensures Valid()
      ensures backrefs == if o.network.Some? then old(backrefs)[obj := o.network.value] else old(backrefs)
      ensures nodes == old(nodes) && next == old(next) && links == old(links)
      ensures forall info: ObjInfo :: info.id == obj && !info.isDict && o.network.Some? && o.network.value in nodes ==>
        Reusable(info) && StartNode(info) == nodes[o.network.value]
    {
      if o.network.Some? {
        backrefs := backrefs[obj := o.network.value];
      }
    }

    /**
     * The node export_network writes into: the object's valid `_network`, or a
     * new node named by the naming hook or the class name, recorded on the
     * object unless it is a dict.
     */
    method NetworkFor(obj: ObjInfo) returns (id: NodeId)
      requires Valid()
      modifies this
      ensures Valid() && id in nodes && nodes[id] == old(StartNode(obj)) && links == old(links)
      ensures old(Reusable(obj)) ==>
        && id == old(backrefs[obj.id]) && nodes == old(nodes) && backrefs == old(backrefs) && next == old(next)
      ensures !old(Reusable(obj)) ==>
        && id == old(next) && id !in old(nodes) && next == old(next) + 1
        && nodes == old(nodes)[id := old(StartNode(obj))]
        && backrefs == if obj.isDict then old(backrefs) else old(backrefs)[obj.id := id]
    {
      if Reusable(obj) {
        id := backrefs[obj.id];
      } else {
        id := next;
        nodes := nodes[id := StartNode(obj)];
        next := next + 1;
        if !obj.isDict {
          backrefs := backrefs[obj.id := id];
        }
      }
    }

    /**
     * export_network(data): reuse the object's valid `_network`, or create a
     * node named by the naming hook or the class name and record it on the
     * object unless it is a dict; then write the dictionary into it.
     */
    method ExportNetwork(base: Value -> DataType, obj: ObjInfo, items: seq<(string, Value)>) returns (id: NodeId, st: Status)
      requires Valid() && BaseSound(base)
      modifies this
      ensures Valid()
      ensures old(Reusable(obj)) ==>
        && id == old(backrefs[obj.id]) && backrefs == old(backrefs) && next == old(next)
        && nodes.Keys == old(nodes.Keys)
      ensures !old(Reusable(obj)) ==>
        && id == old(next) && id !in old(nodes) && next == old(next) + 1
        && nodes.Keys == old(nodes.Keys) + {id}
        && backrefs == if obj.isDict then old(backrefs) else old(backrefs)[obj.id := id]
      ensures var e := ExportFrom(base, old(StartNode(obj)), items, 0, []);
        && nodes == old(nodes)[id := e.node] && links == old(links) + e.links && st == e.status
    {
      id := NetworkFor(obj);
      var e := ExportItems(base, nodes[id], items);
      nodes := nodes[id := e.node];
      links := links + e.links;
      st := e.status;
    }
  }

  /** add_attr on a node value: the step of `ExportItems`, proved to compute `AddAttrSpec`. */
  method AddAttrTo(base: Value -> DataType, node: Node, name: string, v: Value) returns (r: AddResult)
    requires BaseSound(base)
    ensures r == AddAttrSpec(base, node, name, v)
  {
    if GetDataType(base, v) == TypeList && (v.VList? || v.VTuple?) && |v.elems| == 0 {
      return AddResult(node, [], Done);
    }
    if name in node.attrs {
      var a := node.attrs[name];
      var w := WritePlug(base, a.data, v);
      return AddResult(node.(attrs := node.attrs[name := a.(data := w.data)]), w.links, w.status);
    }
    var schema := CreateAttr(name, v);
    if schema.Err? {
      return AddResult(node, [], Raised(schema.error));
    }
    if schema.value.None? {
      return AddResult(node, [], Done);
    }
    var w := WritePlug(base, Unset, v);
    r := AddResult(node.(attrs := node.attrs[name := Attr(schema.value.value, name, w.data)],
                         order := node.order + [name]), w.links, w.status);
  }

  /** The loop of export_network over the object's dictionary, writing into `node`. */
  method ExportItems(base: Value -> DataType, node: Node, items: seq<(string, Value)>) returns (r: AddResult)
    requires BaseSound(base)
    ensures r == ExportFrom(base, node, items, 0, [])
  {
    var n := node;
    var links: seq<Value> := [];
    var i := 0;
    while i < |items|
      invariant 0 <= i <= |items|
      invariant ExportFrom(base, n, items, i, links) == ExportFrom(base, node, items, 0, [])
    {
      var (key, val) := items[i];
      ExportFromStep(base, n, items, i, links);
      if val != VNone {
        if key != "_class" && |key| == 0 {
          return AddResult(n, links, Raised(EmptyName));
        }
        if key == "_class" || key[0] != '_' {
          var a := AddAttrTo(base, n, key, val);
          n, links := a.node, links + a.links;
          if a.status.Raised? {
            return AddResult(n, links, a.status);
          }
        }
      }
      assert links + [] == links;
      i := i + 1;
    }
    r := AddResult(n, links, Done);
  }

  // ---------------------------------------------------------------------
  // What the export loop writes.

  /** Items the export loop gives an attribute, when the key is not on the node yet. */
  predicate Kept(item: (string, Value))
  {
    && item.1 != VNone
    && Exportable(item.0)
    && !((item.1.VList? || item.1.VTuple?) && item.1.elems == [])
    && CreateAttr(item.0, item.1).Ok? && CreateAttr(item.0, item.1).value.Some?
  }

  /** add_attr only ever adds the attribute it is asked for, and only with a schema. */
  lemma AddAttrAddsOnlyName(base: Value -> DataType, node: Node, name: string, v: Value)
    requires BaseSound(base)
    ensures var n := AddAttrSpec(base, node, name, v).node;
      && n.attrs.Keys <= node.attrs.Keys + {name}
      && (name in n.attrs && name !in node.attrs ==>
            && !((v.VList? || v.VTuple?) && v.elems == [])
            && CreateAttr(name, v).Ok? && CreateAttr(name, v).value.Some?)
  {
  }

  /**
   * Every attribute the export loop adds comes from an item whose value is not
   * None, whose key is `_class` or public, whose value is no empty sequence and
   * has a schema: `_class_module`, `_uid` and every other private key are never
   * written, and neither are empty lists.
   */
  lemma {:induction false} ExportWritesOnlyKept(base: Value -> DataType, node: Node, items: seq<(string, Value)>, i: nat, links: seq<Value>)
    requires BaseSound(base)
    requires i <= |items|
    ensures var n := ExportFrom(base, node, items, i, links).node;
      forall k :: k in n.attrs && k !in node.attrs ==>
        exists j :: i <= j < |items| && items[j].0 == k && Kept(items[j])
    decreases |items| - i
  {
    if i < |items| {
      var (key, val) := items[i];
      var a := ExportItem(base, node, key, val);
      AddAttrAddsOnlyName(base, node, key, val);
      if !a.status.Raised? {
        ExportWritesOnlyKept(base, a.node, items, i + 1, links + a.links);
      }
    }
  }

  /** A private key other than `_class` that a node lacks is still missing after export. */
  lemma PrivateNeverWritten(base: Value -> DataType, node: Node, items: seq<(string, Value)>, k: string)
    requires BaseSound(base)
    requires IsPrivate(k) && k != "_class" && k !in node.attrs
    ensures k !in ExportFrom(base, node, items, 0, []).node.attrs
  {
    ExportWritesOnlyKept(base, node, items, 0, []);
  }

  /** Exporting `{key: []}` leaves no attribute named `key` on a node that lacked it. */
  lemma EmptyListNotExported(base: Value -> DataType, node: Node, items: seq<(string, Value)>, k: string)
    requires BaseSound(base)
    requires k !in node.attrs
    requires forall j :: 0 <= j < |items| && items[j].0 == k ==> items[j].1 == VList([])
    ensures k !in ExportFrom(base, node, items, 0, []).node.attrs
  {
    ExportWritesOnlyKept(base, node, items, 0, []);
  }

  // ---------------------------------------------------------------------
  // Reading an exported node back.

  /** The plug of stored data: an array is a multi plug; nothing is connected. */
  function PlugOfData(d: Data, isMessage: bool): PlugView
  {
    match d
    case DArray(cs) => MultiPlug(seq(|cs|, j requires 0 <= j < |cs| => PlugOfData(cs[j], isMessage)))
    case _ => SinglePlug(isMessage, false, [], Decode(d))
  }

  /** The plug of a stored attribute. */
  function PlugOfAttr(a: Attr): PlugView
  {
    if a.schema.isArray && !a.data.DArray? then MultiPlug([])
    else PlugOfData(a.data, a.schema.kind == KMessage)
  }

  /** The long names of a compound's children. */
  function ChildNames(k: Kind): seq<string>
  {
    if k.KDouble3? then k.children else []
  }

  /** A node of the scene as import_network sees it: its attributes in listAttr order. */
  function ViewOf(id: NodeId, n: Node): (r: NetView)
    requires forall i :: 0 <= i < |n.order| ==> n.order[i] in n.attrs
    ensures |r.attrs| == |n.order|
    ensures forall i :: 0 <= i < |n.order| ==>
      r.attrs[i] == AttrView(n.order[i], PlugOfAttr(n.attrs[n.order[i]]), ChildNames(n.attrs[n.order[i]].schema.kind))
  {
    NetView(id, seq(|n.order|, i requires 0 <= i < |n.order| =>
      AttrView(n.order[i], PlugOfAttr(n.attrs[n.order[i]]), ChildNames(n.attrs[n.order[i]].schema.kind))))
  }

  /** What reading a storable value back should give. */
  function Lift(v: Value): Read
    requires Storable(v)
  {
    if v.VList? then RList(seq(|v.elems|, j requires 0 <= j < |v.elems| => RValue(v.elems[j])))
    else RValue(v)
  }

  /** The attribute the export loop builds for a kept storable item. */
  function AttrFor(item: (string, Value)): Attr
    requires Kept(item) && Storable(item.1)
  {
    Attr(CreateAttr(item.0, item.1).value.value, item.0, Encode(item.1))
  }

  /** A storable value written and read back reads as itself. */
  lemma ReadBackStorable(resolve: (Value, Option<Value>) -> Option<ClassInfo>, item: (string, Value))
    requires Kept(item) && Storable(item.1)
    ensures ReadPlug(resolve, PlugOfAttr(AttrFor(item))) == Ok(Lift(item.1))
    ensures ChildNames(AttrFor(item).schema.kind) == []
  {
    var v := item.1;
    if v.VList? {
      ScalarSchemas(item.0, v.elems[0]);
      var cs := Encode(v).cells;
      assert AttrFor(item).schema.kind != KMessage;
      var es := PlugOfAttr(AttrFor(item)).elements;
      assert |es| == |v.elems|;
      forall j | 0 <= j < |es| ensures ReadPlug(resolve, es[j]) == Ok(RValue(v.elems[j])) {
        assert cs[j] == EncodeScalar(v.elems[j]);
        assert es[j] == PlugOfData(cs[j], false);
        DecodeEncode(v.elems[j]);
      }
      ReadMulti(resolve, es);
      var r := ReadPlug(resolve, MultiPlug(es));
      assert r.value.items == Lift(v).items;
    } else {
      ScalarSchemas(item.0, v);
    }
  }

  /** On storable values, the export loop adds a kept item as AttrFor describes it. */
  lemma ExportItemStorable(base: Value -> DataType, node: Node, item: (string, Value))
    requires BaseStandard(base)
    requires |item.0| > 0 && (item.1 == VNone || Storable(item.1)) && item.0 !in node.attrs
    ensures var a := ExportItem(base, node, item.0, item.1);
      && (Kept(item) ==> a.node == node.(attrs := node.attrs[item.0 := AttrFor(item)], order := node.order + [item.0]))
      && (!Kept(item) ==> a.node == node)
  {
    var (key, val) := item;
    if val != VNone && Exportable(key) {
      if val.VList? && val.elems == [] {
        AddEmptySequenceUnchanged(base, node, key, val);
      } else {
        if val.VList? {
          ScalarSchemas(key, val.elems[0]);
        } else {
          ScalarSchemas(key, val);
        }
        assert Kept(item);
        WriteStorable(base, Unset, val);
      }
    }
  }

  /** On storable values with non-empty keys, one item of the export loop neither raises nor links. */
  lemma ExportItemDone(base: Value -> DataType, node: Node, item: (string, Value))
    requires BaseStandard(base)
    requires |item.0| > 0 && (item.1 == VNone || Storable(item.1))
    ensures var a := ExportItem(base, node, item.0, item.1);
      a.status == Done && a.links == []
  {
    var (key, val) := item;
    if val != VNone && Exportable(key) && !(val.VList? && val.elems == []) {
      if val.VList? {
        ScalarSchemas(key, val.elems[0]);
      } else {
        ScalarSchemas(key, val);
      }
      WriteStorable(base, Unset, val);
      if key in node.attrs {
        WriteStorable(base, node.attrs[key].data, val);
      }
    }
  }

  /** On storable values with non-empty keys, the export loop neither raises nor links. */
  lemma {:induction false} ExportStorableDone(base: Value -> DataType, node: Node, items: seq<(string, Value)>, i: nat, links: seq<Value>)
    requires BaseStandard(base)
    requires i <= |items|
    requires forall j :: i <= j < |items| ==> |items[j].0| > 0 && (items[j].1 == VNone || Storable(items[j].1))
    ensures var e := ExportFrom(base, node, items, i, links);
      e.status == Done && e.links == links
    decreases |items| - i
  {
    if i < |items| {
      var a := ExportItem(base, node, items[i].0, items[i].1);
      ExportItemDone(base, node, items[i]);
      assert links + a.links == links;
      ExportStorableDone(base, a.node, items, i + 1, links);
    }
  }

  /** The keys of the kept items from item `i` on. */
  ghost function KeptKeys(items: seq<(string, Value)>, i: nat): set<string>
  {
    set j | i <= j < |items| && Kept(items[j]) :: items[j].0
  }

  lemma KeptKeysStep(items: seq<(string, Value)>, i: nat)
    requires i < |items|
    ensures KeptKeys(items, i) == KeptKeys(items, i + 1) + (if Kept(items[i]) then {items[i].0} else {})
  {
  }

  /**
   * The export loop on storable values with non-empty, distinct keys adds exactly
   * the kept items, each with its schema, its own name as nice name, and its
   * encoded value.
   */
  lemma {:induction false} ExportStorableAttrs(base: Value -> DataType, node: Node, items: seq<(string, Value)>, i: nat, links: seq<Value>)
    requires BaseStandard(base)
    requires i <= |items|
    requires forall j, l :: i <= j < l < |items| ==> items[j].0 != items[l].0
    requires forall j :: i <= j < |items| ==> |items[j].0| > 0 && (items[j].1 == VNone || Storable(items[j].1))
    requires forall j :: i <= j < |items| ==> items[j].0 !in node.attrs
    ensures var n := ExportFrom(base, node, items, i, links).node;
      && n.attrs.Keys == node.attrs.Keys + KeptKeys(items, i)
      && (forall k :: k in node.attrs ==> n.attrs[k] == node.attrs[k])
      && (forall j :: i <= j < |items| && Kept(items[j]) ==> n.attrs[items[j].0] == AttrFor(items[j]))
    decreases |items| - i
  {
    if i < |items| {
      var a := ExportItem(base, node, items[i].0, items[i].1);
      ExportItemStorable(base, node, items[i]);
      ExportItemDone(base, node, items[i]);
      ExportStorableAttrs(base, a.node, items, i + 1, links + a.links);
      KeptKeysStep(items, i);
    }
  }

  /**
   * The long and short names of the attributes a `network` node is created
   * with. `findPlug` finds them on a fresh network, so a key named after one
   * is written into that plug; `listAttr(userDefined=True)` never lists them.
   * A fresh node of this model holds user-defined attributes only, so the
   * lemmas about fresh nodes leave such keys out.
   */
  const BuiltinNames: set<string> := {
    "message", "msg", "caching", "cch", "frozen", "fzn", "isHistoricallyInteresting", "ihi",
    "nodeState", "nds", "binMembership", "bnm", "affects", "aff", "affectedBy", "afb"}

  /** The node the export loop builds from a fresh node, on storable values with distinct, non-empty keys. */
  lemma ExportedNode(base: Value -> DataType, name: string, items: seq<(string, Value)>)
    requires BaseStandard(base)
    requires forall j, l :: 0 <= j < l < |items| ==> items[j].0 != items[l].0
    requires forall j :: 0 <= j < |items| ==> |items[j].0| > 0 && (items[j].1 == VNone || Storable(items[j].1))
    requires forall j :: 0 <= j < |items| ==> items[j].0 !in BuiltinNames
    ensures var e := ExportFrom(base, Node(name, map[], []), items, 0, []);
      && e.status == Done && e.links == [] && NodeValid(e.node)
      && e.node.attrs.Keys == KeptKeys(items, 0)
      && (forall j :: 0 <= j < |items| && Kept(items[j]) ==> e.node.attrs[items[j].0] == AttrFor(items[j]))
  {
    ExportStorableDone(base, Node(name, map[], []), items, 0, []);
    ExportStorableAttrs(base, Node(name, map[], []), items, 0, []);
  }

  /** Every attribute of the view of such a node is the view of a kept item, and reads back as it. */
  lemma ViewOfExported(resolve: (Value, Option<Value>) -> Option<ClassInfo>, id: NodeId, n: Node, items: seq<(string, Value)>)
    requires NodeValid(n)
    requires n.attrs.Keys == KeptKeys(items, 0)
    requires forall j :: 0 <= j < |items| ==> items[j].1 == VNone || Storable(items[j].1)
    requires forall j :: 0 <= j < |items| && Kept(items[j]) ==> n.attrs[items[j].0] == AttrFor(items[j])
    ensures var view := ViewOf(id, n);
      && DistinctNames(view.attrs)
      && (forall i :: 0 <= i < |view.attrs| ==> |view.attrs[i].name| > 0 && view.attrs[i].children == [])
      && (forall i :: 0 <= i < |view.attrs| ==> ReadPlug(resolve, view.attrs[i].plug).Ok?)
      && (forall i, j :: 0 <= i < |view.attrs| && 0 <= j < |items| && Kept(items[j]) && view.attrs[i].name == items[j].0 ==>
            ReadPlug(resolve, view.attrs[i].plug) == Ok(Lift(items[j].1)))
  {
    var view := ViewOf(id, n);
    forall i | 0 <= i < |view.attrs|
      ensures |view.attrs[i].name| > 0 && view.attrs[i].children == []
      ensures ReadPlug(resolve, view.attrs[i].plug).Ok?
    {
      var k := n.order[i];
      var j :| 0 <= j < |items| && Kept(items[j]) && items[j].0 == k;
      ReadBackStorable(resolve, items[j]);
    }
    forall i, j | 0 <= i < |view.attrs| && 0 <= j < |items| && Kept(items[j]) && view.attrs[i].name == items[j].0
      ensures ReadPlug(resolve, view.attrs[i].plug) == Ok(Lift(items[j].1))
    {
      ReadBackStorable(resolve, items[j]);
    }
  }

  /** Every attribute of the view of such a node carries the name of a kept item. */
  lemma ViewNamesKept(id: NodeId, n: Node, items: seq<(string, Value)>, l: nat)
    requires NodeValid(n)
    requires n.attrs.Keys == KeptKeys(items, 0)
    requires l < |n.order|
    ensures exists j :: 0 <= j < |items| && Kept(items[j]) && items[j].0 == ViewOf(id, n).attrs[l].name
  {
    assert n.order[l] in KeptKeys(items, 0);
  }

  /** The view of such a node has no `_class_module` attribute. */
  lemma NoModuleInExported(id: NodeId, n: Node, items: seq<(string, Value)>)
    requires NodeValid(n)
    requires n.attrs.Keys == KeptKeys(items, 0)
    ensures !HasAttr(ViewOf(id, n), "_class_module")
  {
  }

  /** The class marker of a node view: `_class` holds the string the node stores under it. */
  lemma ClassMarkerOfView(id: NodeId, n: Node, c: string)
    requires NodeValid(n)
    requires "_class" in n.attrs && n.attrs["_class"].data == DString(c) && !n.attrs["_class"].schema.isArray
    ensures var view := ViewOf(id, n);
      && HasAttr(view, "_class") && GetAttr(view, "_class") == VStr(c)
  {
    var view := ViewOf(id, n);
    var i :| 0 <= i < |n.order| && n.order[i] == "_class";
    assert DistinctNames(view.attrs);
    LookupDistinct(view.attrs, i);
  }

  /** No attribute of such a node is a compound. */
  lemma ExportedNoChildren(n: Node, items: seq<(string, Value)>)
    requires NodeValid(n)
    requires n.attrs.Keys == KeptKeys(items, 0)
    requires forall j :: 0 <= j < |items| ==> items[j].1 == VNone || Storable(items[j].1)
    requires forall j :: 0 <= j < |items| && Kept(items[j]) ==> n.attrs[items[j].0] == AttrFor(items[j])
    ensures forall i :: 0 <= i < |n.order| ==> ChildNames(n.attrs[n.order[i]].schema.kind) == []
  {
    forall i | 0 <= i < |n.order| ensures ChildNames(n.attrs[n.order[i]].schema.kind) == [] {
      var j :| 0 <= j < |items| && Kept(items[j]) && items[j].0 == n.order[i];
      ReadBackStorable((_, _) => None, items[j]);
    }
  }

  /** A kept item is the attribute of the view under its key, and that attribute reads back as its value. */
  lemma KeptReadsBack(resolve: (Value, Option<Value>) -> Option<ClassInfo>, id: NodeId, n: Node, items: seq<(string, Value)>, j: nat)
    requires NodeValid(n)
    requires n.attrs.Keys == KeptKeys(items, 0)
    requires j < |items| && Kept(items[j]) && Storable(items[j].1)
    requires n.attrs[items[j].0] == AttrFor(items[j])
    ensures exists i :: (0 <= i < |ViewOf(id, n).attrs| && ViewOf(id, n).attrs[i].name == items[j].0 &&
                         ReadPlug(resolve, ViewOf(id, n).attrs[i].plug) == Ok(Lift(items[j].1)))
  {
    assert items[j].0 in KeptKeys(items, 0);
    var i :| 0 <= i < |n.order| && n.order[i] == items[j].0;
    ReadBackStorable(resolve, items[j]);
    assert ViewOf(id, n).attrs[i].plug == PlugOfAttr(AttrFor(items[j]));
  }

  /** The attributes import_network sets from the view of such a node: the kept keys but `_class`. */
  lemma ExportedKeptNames(id: NodeId, n: Node, items: seq<(string, Value)>)
    requires NodeValid(n)
    requires n.attrs.Keys == KeptKeys(items, 0)
    requires forall i :: 0 <= i < |n.order| ==> ChildNames(n.attrs[n.order[i]].schema.kind) == []
    ensures KeptNames(ViewOf(id, n)) == KeptKeys(items, 0) - {"_class"}
  {
    var view := ViewOf(id, n);
    assert PublicChildren(view) == {};
    forall k | k in KeptKeys(items, 0) - {"_class"} ensures k in PublicNames(view) {
      var j :| 0 <= j < |items| && Kept(items[j]) && items[j].0 == k;
      assert k in n.order;
      var i :| 0 <= i < |n.order| && n.order[i] == k;
      assert view.attrs[i].name == k;
    }
  }

  /** import_network succeeds on the view of such a node, with the class `_class` names. */
  lemma ImportOfExportedSucceeds(resolve: (Value, Option<Value>) -> Option<ClassInfo>, id: NodeId, n: Node,
                                 items: seq<(string, Value)>, c: string, cls: ClassInfo)
    requires NodeValid(n)
    requires n.attrs.Keys == KeptKeys(items, 0)
    requires forall j :: 0 <= j < |items| ==> items[j].1 == VNone || Storable(items[j].1)
    requires forall j :: 0 <= j < |items| && Kept(items[j]) ==> n.attrs[items[j].0] == AttrFor(items[j])
    requires ("_class", VStr(c)) in items
    requires resolve(VStr(c), None) == Some(cls) && !cls.isDict
    ensures var r := ImportSpec(resolve, ViewOf(id, n));
      r.Ok? && r.value.Some? && r.value.value.cls == cls
  {
    ViewOfExported(resolve, id, n, items);
    var jc :| 0 <= jc < |items| && items[jc] == ("_class", VStr(c));
    assert Kept(items[jc]);
    assert "_class" in KeptKeys(items, 0);
    ClassMarkerOfView(id, n, c);
    NoModuleInExported(id, n, items);
    ImportSucceeds(resolve, ViewOf(id, n), cls);
  }

  /**
   * The object import_network rebuilds from a network exported from `items`:
   * of class `cls`, linked back to the network `id`, post-built when the class
   * asks for it, with exactly the kept keys other than `_class` as fields, each
   * holding the value it was exported with.
   */
  ghost predicate RebuiltFrom(o: Imported, id: NodeId, items: seq<(string, Value)>, cls: ClassInfo)
    requires forall j :: 0 <= j < |items| ==> items[j].1 == VNone || Storable(items[j].1)
  {
    && o.cls == cls && o.network == Some(id) && o.postBuilt == cls.hasPostBuild
    && o.fields.Keys == KeptKeys(items, 0) - {"_class"}
    && (forall j :: 0 <= j < |items| && Kept(items[j]) && items[j].0 != "_class" ==>
          o.fields[items[j].0] == Lift(items[j].1))
  }

  /** What import_network sets on the object it rebuilds from the view of such a node. */
  lemma ImportOfExported(resolve: (Value, Option<Value>) -> Option<ClassInfo>, id: NodeId, n: Node,
                         items: seq<(string, Value)>, c: string, cls: ClassInfo)
    requires NodeValid(n)
    requires n.attrs.Keys == KeptKeys(items, 0)
    requires forall j :: 0 <= j < |items| ==> items[j].1 == VNone || Storable(items[j].1)
    requires forall j :: 0 <= j < |items| && Kept(items[j]) ==> n.attrs[items[j].0] == AttrFor(items[j])
    requires ("_class", VStr(c)) in items
    requires resolve(VStr(c), None) == Some(cls) && !cls.isDict
    ensures var r := ImportSpec(resolve, ViewOf(id, n));
      && r.Ok? && r.value.Some?
      && RebuiltFrom(r.value.value, id, items, cls)
  {
    var view := ViewOf(id, n);
    ImportOfExportedSucceeds(resolve, id, n, items, c, cls);
    ExportedNoChildren(n, items);
    assert DistinctNames(view.attrs);
    ImportedFields(resolve, view);
    ExportedKeptNames(id, n, items);
    var o := ImportSpec(resolve, view).value.value;
    forall j | 0 <= j < |items| && Kept(items[j]) && items[j].0 != "_class"
      ensures o.fields[items[j].0] == Lift(items[j].1)
    {
      KeptReadsBack(resolve, id, n, items, j);
    }
  }

  /**
   * Export then import: a fresh network written from storable values with
   * distinct, non-empty keys that name no built-in attribute, among them
   * `_class`, and read back by a registry
   * that resolves that class to a non-dict class, rebuilds an object of that
   * class linked to the network, post-built when the class asks for it, whose
   * fields are exactly the public keys that were given an attribute, each
   * holding the value it was exported with.
   */
  lemma ExportImportRoundTrip(base: Value -> DataType, resolve: (Value, Option<Value>) -> Option<ClassInfo>,
                              id: NodeId, name: string, items: seq<(string, Value)>, c: string, cls: ClassInfo)
    requires BaseStandard(base)
    requires forall j, l :: 0 <= j < l < |items| ==> items[j].0 != items[l].0
    requires forall j :: 0 <= j < |items| ==> |items[j].0| > 0 && (items[j].1 == VNone || Storable(items[j].1))
    requires forall j :: 0 <= j < |items| ==> items[j].0 !in BuiltinNames
    requires ("_class", VStr(c)) in items
    requires resolve(VStr(c), None) == Some(cls) && !cls.isDict
    ensures var e := ExportFrom(base, Node(name, map[], []), items, 0, []);
      var r := ImportSpec(resolve, ViewOf(id, e.node));
      && e.status == Done
      && r.Ok? && r.value.Some?
      && RebuiltFrom(r.value.value, id, items, cls)
  {
    ExportedNode(base, name, items);
    ImportOfExported(resolve, id, ExportFrom(base, Node(name, map[], []), items, 0, []).node, items, c, cls);
  }
}
