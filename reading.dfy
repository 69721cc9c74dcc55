/**
 * MayaSerializer.get_network_attr and import_network: reading plugs back into
 * values and rebuilding objects from network nodes. The scene is seen through
 * plug and node views: what the Maya API answers about each plug.
 */
module Reading {
  import opened Wrappers
  import opened MayaValues

  /**
   * What get_network_attr can ask of a plug: a multi plug and its elements by
   * physical index, or a single plug with its type (message or not), whether
   * it is connected (in either direction, as isConnected answers), its inputs
   * (the upstream node and plug), and the value `get()` answers.
   */
  datatype PlugView =
    | MultiPlug(elements: seq<PlugView>)
    | SinglePlug(isMessage: bool, connected: bool, inputs: seq<Input>, stored: Value)

  /** An upstream connection: the source node and the source attribute's name. */
  datatype Input = Input(node: NetView, attr: string)

  /** A node as import_network sees it: its identity and listAttr(userDefined=True). */
  datatype NetView = NetView(id: NodeId, attrs: seq<AttrView>)

  /** One user-defined attribute: long name, plug, and compound children's long names. */
  datatype AttrView = AttrView(name: string, plug: PlugView, children: seq<string>)

  /** What the class registry answers for a class name. */
  datatype ClassInfo = ClassInfo(name: string, isDict: bool, hasPostBuild: bool)

  /**
   * A value rebuilt from the scene: None, a list, an imported object, a node,
   * a source plug, or a stored value.
   */
  datatype Read =
    | RNone
    | RList(items: seq<Read>)
    | RObject(obj: Imported)
    | RNode(id: NodeId)
    | RPlug(node: NodeId, attr: string)
    | RValue(value: Value)

  /**
   * An object built by import_network: its class, its `_network` back-reference
   * (None for dictionaries, which cannot carry it), the fields set on it, and
   * whether its post-build callback ran.
   */
  datatype Imported = Imported(cls: ClassInfo, network: Option<NodeId>, fields: map<string, Read>, postBuilt: bool)

  /** The first attribute of that name. */
  function Lookup(attrs: seq<AttrView>, name: string): (r: Option<AttrView>)
    ensures r.Some? ==> r.value in attrs && r.value.name == name
    ensures r.None? ==> forall i :: 0 <= i < |attrs| ==> attrs[i].name != name
  {
    if attrs == [] then None
    else if attrs[0].name == name then Some(attrs[0])
    else Lookup(attrs[1..], name)
  }

  /** network.hasAttr(name). */
  predicate HasAttr(net: NetView, name: string)
  {
    Lookup(net.attrs, name).Some?
  }

  /** What `getAttr` answers for a plug: its value, or the list of its elements' values. */
  function StoredValue(p: PlugView): Value
  {
    match p
    case SinglePlug(_, _, _, stored) => stored
    case MultiPlug(es) => VList(seq(|es|, j requires 0 <= j < |es| => StoredValue(es[j])))
  }

  /** network.getAttr(name), for an attribute the node has. */
  function GetAttr(net: NetView, name: string): Value
    requires HasAttr(net, name)
  {
    StoredValue(Lookup(net.attrs, name).value.plug)
  }

  /**
   * get_network_attr(attr): a multi plug reads each element; a message plug
   * reads None when unconnected, the imported object when its source carries
   * `_class`, and the source node otherwise; any other connected plug reads its
   * source plug; everything else reads its stored value.
   */
  function ReadPlug(resolve: (Value, Option<Value>) -> Option<ClassInfo>, p: PlugView): (r: Result<Read>)
    decreases p
  {
    match p
    case MultiPlug(_) => ReadElems(resolve, p, 0, [])
    case SinglePlug(isMessage, connected, inputs, stored) =>
      if isMessage then
        if !connected then Ok(RNone)
        else if |inputs| == 0 then Err(NoInput)
        else if HasAttr(inputs[0].node, "_class") then
          (match ImportSpec(resolve, inputs[0].node)
           case Err(e) => Err(e)
           case Ok(None) => Ok(RNone)
           case Ok(Some(o)) => Ok(RObject(o)))
        else Ok(RNode(inputs[0].node.id))
      else if connected then
        if |inputs| == 0 then Err(NoInput) else Ok(RPlug(inputs[0].node.id, inputs[0].attr))
      else Ok(RValue(stored))
  }

  /** The list comprehension over a multi plug's elements, from element `i` on. */
  function ReadElems(resolve: (Value, Option<Value>) -> Option<ClassInfo>, p: PlugView, i: nat, acc: seq<Read>): (r: Result<Read>)
    requires p.MultiPlug? && i <= |p.elements|
    decreases p, |p.elements| - i
  {
    if i == |p.elements| then Ok(RList(acc))
    else
      match ReadPlug(resolve, p.elements[i])
      case Err(e) => Err(e)
      case Ok(x) => ReadElems(resolve, p, i + 1, acc + [x])
  }

  /** Attribute names import_network treats as private. */
  predicate IsPrivate(name: string)
  {
    |name| > 0 && name[0] == '_'
  }

  /** attrs_by_longname, built from the attributes from `i` on. */
  function PublicFrom(attrs: seq<AttrView>, i: nat, acc: map<string, AttrView>): (r: Result<map<string, AttrView>>)
    requires i <= |attrs|
    decreases |attrs| - i
  {
    if i == |attrs| then Ok(acc)
    else if |attrs[i].name| == 0 then Err(EmptyName)
    else if attrs[i].name[0] != '_' then PublicFrom(attrs, i + 1, acc[attrs[i].name := attrs[i]])
    else PublicFrom(attrs, i + 1, acc)
  }

  /** The children of every compound attribute among `s`. */
  function ChildrenOf(s: set<AttrView>): set<string>
  {
    set a, c | a in s && c in a.children :: c
  }

  /** attrs_by_longname once the children of its compound attributes are popped. */
  function DropChildren(m: map<string, AttrView>): map<string, AttrView>
  {
    map k | k in m && k !in ChildrenOf(m.Values) :: m[k]
  }

  /**
   * The field loop: the attributes kept, in listAttr order, are read and set on
   * the object; a dictionary class fails on the first one.
   */
  function ReadFields(resolve: (Value, Option<Value>) -> Option<ClassInfo>, net: NetView,
                      keep: map<string, AttrView>, i: nat, obj: Imported): (r: Result<Imported>)
    requires i <= |net.attrs|
    decreases net, |net.attrs| - i
  {
    if i == |net.attrs| then Ok(obj)
    else
      var av := net.attrs[i];
      if av.name in keep && keep[av.name] == av then
        match ReadPlug(resolve, av.plug)
        case Err(e) => Err(e)
        case Ok(val) =>
          if obj.cls.isDict then Err(DictFieldName)
          else ReadFields(resolve, net, keep, i + 1, obj.(fields := obj.fields[av.name := val]))
      else ReadFields(resolve, net, keep, i + 1, obj)
  }

  /**
   * import_network(network): `_class` is mandatory; an unresolved class gives
   * None; otherwise a fresh instance gets its back-reference, every public
   * attribute that is not a child of a public compound, and its post-build call.
   */
  function ImportSpec(resolve: (Value, Option<Value>) -> Option<ClassInfo>, net: NetView): (r: Result<Option<Imported>>)
    decreases net
  {
    if !HasAttr(net, "_class") then Err(MissingClassMarker)
    else
      var className := GetAttr(net, "_class");
      var classModule := if HasAttr(net, "_class_module") then Some(GetAttr(net, "_class_module")) else None;
      match resolve(className, classModule)
      case None => Ok(None)
      case Some(cls) =>
        match PublicFrom(net.attrs, 0, map[])
        case Err(e) => Err(e)
        case Ok(byName) =>
          var start := Imported(cls, if cls.isDict then None else Some(net.id), map[], false);
          match ReadFields(resolve, net, DropChildren(byName), 0, start)
          case Err(e) => Err(e)
          case Ok(obj) => Ok(Some(obj.(postBuilt := cls.hasPostBuild)))
  }

  /**
   * import_network with its three loops: building attrs_by_longname, popping
   * the compound children, and setting the fields.
   */
  method ImportNetwork(resolve: (Value, Option<Value>) -> Option<ClassInfo>, net: NetView) returns (r: Result<Option<Imported>>)
    ensures r == ImportSpec(resolve, net)
  {
    if !HasAttr(net, "_class") {
      return Err(MissingClassMarker);
    }
    var className := GetAttr(net, "_class");
    var classModule := if HasAttr(net, "_class_module") then Some(GetAttr(net, "_class_module")) else None;
    var cls := resolve(className, classModule);
    if cls.None? {
      return Ok(None);
    }
    var obj := Imported(cls.value, if cls.value.isDict then None else Some(net.id), map[], false);
    ghost var start := obj;

    // attrs_by_longname
    var byName: map<string, AttrView> := map[];
    var i := 0;
    while i < |net.attrs|
      invariant 0 <= i <= |net.attrs|
      invariant PublicFrom(net.attrs, i, byName) == PublicFrom(net.attrs, 0, map[])
    {
      var name := net.attrs[i].name;
      if |name| == 0 {
        return Err(EmptyName);
      }
      if name[0] != '_' {
        byName := byName[name := net.attrs[i]];
      }
      i := i + 1;
    }

    // pop the children of compound attributes
    var keep := byName;
    var todo := byName.Values;
    while todo != {}
      invariant todo <= byName.Values
      invariant keep == map k | k in byName && k !in ChildrenOf(byName.Values - todo) :: byName[k]
      decreases todo
    {
      var a :| a in todo;
      var j := 0;
      while j < |a.children|
        invariant 0 <= j <= |a.children|
        invariant keep == map k | k in byName && k !in ChildrenOf(byName.Values - todo) && k !in a.children[..j] :: byName[k]
      {
        keep := keep - {a.children[j]};
        j := j + 1;
      }
      assert a.children[..j] == a.children;
      todo := todo - {a};
    }
    assert keep == DropChildren(byName);

    // set the fields
    i := 0;
    while i < |net.attrs|
      invariant 0 <= i <= |net.attrs|
      invariant obj.cls == cls.value
      invariant ReadFields(resolve, net, keep, i, obj) == ReadFields(resolve, net, keep, 0, start)
    {
      var av := net.attrs[i];
      if av.name in keep && keep[av.name] == av {
        var val := ReadPlug(resolve, av.plug);
        if val.Err? {
          return Err(val.error);
        }
        if obj.cls.isDict {
          return Err(DictFieldName);
        }
        obj := obj.(fields := obj.fields[av.name := val.value]);
      }
      i := i + 1;
    }
    r := Ok(Some(obj.(postBuilt := obj.cls.hasPostBuild)));
  }

  // ---------------------------------------------------------------------
  // get_network_attr

  /** The element reads, from element `i` on, appended to `acc` in index order. */
  lemma {:induction false} ReadElemsInOrder(resolve: (Value, Option<Value>) -> Option<ClassInfo>, p: PlugView, i: nat, acc: seq<Read>)
    requires p.MultiPlug? && i <= |p.elements|
    ensures var r := ReadElems(resolve, p, i, acc);
      && (r.Ok? <==> forall j :: i <= j < |p.elements| ==> ReadPlug(resolve, p.elements[j]).Ok?)
      && (r.Ok? ==>
            && r.value.RList? && |r.value.items| == |acc| + |p.elements| - i
            && r.value.items[..|acc|] == acc
            && forall j :: i <= j < |p.elements| ==> r.value.items[|acc| + j - i] == ReadPlug(resolve, p.elements[j]).value)
    decreases |p.elements| - i
  {
    if i < |p.elements| {
      var x := ReadPlug(resolve, p.elements[i]);
      if x.Ok? {
        ReadElemsInOrder(resolve, p, i + 1, acc + [x.value]);
        var r := ReadElems(resolve, p, i + 1, acc + [x.value]);
        if r.Ok? {
          assert r.value.items[..|acc| + 1][..|acc|] == r.value.items[..|acc|];
        }
      }
    }
  }

  /**
   * A multi plug reads as the list of its elements' reads in index order, and
   * it reads without a raise exactly when every element does.
   */
  lemma ReadMulti(resolve: (Value, Option<Value>) -> Option<ClassInfo>, es: seq<PlugView>)
    ensures var r := ReadPlug(resolve, MultiPlug(es));
      && (r.Ok? <==> forall j :: 0 <= j < |es| ==> ReadPlug(resolve, es[j]).Ok?)
      && (r.Ok? ==>
            && r.value.RList? && |r.value.items| == |es|
            && forall j :: 0 <= j < |es| ==> ReadPlug(resolve, es[j]) == Ok(r.value.items[j]))
  {
    ReadElemsInOrder(resolve, MultiPlug(es), 0, []);
  }

  /**
   * A single plug: an unconnected message plug reads None; a connected one
   * reads the import of its source node when that node has `_class`, and the
   * node otherwise; any other connected plug reads its source plug; an
   * unconnected one reads its stored value.
   */
  lemma ReadSingle(resolve: (Value, Option<Value>) -> Option<ClassInfo>, isMessage: bool, connected: bool,
                   inputs: seq<Input>, stored: Value)
    ensures var r := ReadPlug(resolve, SinglePlug(isMessage, connected, inputs, stored));
      && (!connected ==> r == if isMessage then Ok(RNone) else Ok(RValue(stored)))
      && (connected && inputs == [] ==> r == Err(NoInput))
      && (connected && inputs != [] && isMessage && HasAttr(inputs[0].node, "_class") ==>
            r == match ImportSpec(resolve, inputs[0].node)
                 case Err(e) => Err(e)
                 case Ok(None) => Ok(RNone)
                 case Ok(Some(o)) => Ok(RObject(o)))
      && (connected && inputs != [] && isMessage && !HasAttr(inputs[0].node, "_class") ==>
            r == Ok(RNode(inputs[0].node.id)))
      && (connected && inputs != [] && !isMessage ==> r == Ok(RPlug(inputs[0].node.id, inputs[0].attr)))
  {
  }

  // ---------------------------------------------------------------------
  // import_network

  /** No two attributes of a node share a long name (Maya enforces this). */
  ghost predicate DistinctNames(attrs: seq<AttrView>)
  {
    forall i, j :: 0 <= i < j < |attrs| ==> attrs[i].name != attrs[j].name
  }

  /** With distinct names, looking an attribute's name up finds that attribute. */
  lemma {:induction false} LookupDistinct(attrs: seq<AttrView>, i: nat)
    requires DistinctNames(attrs) && i < |attrs|
    ensures Lookup(attrs, attrs[i].name) == Some(attrs[i])
  {
    if i > 0 {
      assert attrs[1..][i - 1] == attrs[i];
      LookupDistinct(attrs[1..], i - 1);
    }
  }

  /** The long names of the public attributes. */
  ghost function PublicNames(net: NetView): set<string>
  {
    set i | 0 <= i < |net.attrs| && !IsPrivate(net.attrs[i].name) :: net.attrs[i].name
  }

  /** The children of the public compound attributes. */
  ghost function PublicChildren(net: NetView): set<string>
  {
    set i, c | 0 <= i < |net.attrs| && !IsPrivate(net.attrs[i].name) && c in net.attrs[i].children :: c
  }

  /** The attributes an import sets as fields: public, and no child of a public compound. */
  ghost function KeptNames(net: NetView): set<string>
  {
    PublicNames(net) - PublicChildren(net)
  }

  /** A missing `_class` raises; an unresolved class gives None. */
  lemma ImportOutcomes(resolve: (Value, Option<Value>) -> Option<ClassInfo>, net: NetView)
    ensures !HasAttr(net, "_class") ==> ImportSpec(resolve, net) == Err(MissingClassMarker)
    ensures HasAttr(net, "_class") &&
      resolve(GetAttr(net, "_class"),
              if HasAttr(net, "_class_module") then Some(GetAttr(net, "_class_module")) else None).None?
      ==> ImportSpec(resolve, net) == Ok(None)
  {
  }

  /** The long names of the public attributes from attribute `i` on. */
  ghost function PublicNamesFrom(attrs: seq<AttrView>, i: nat): set<string>
  {
    set j | i <= j < |attrs| && !IsPrivate(attrs[j].name) :: attrs[j].name
  }

  lemma PublicNamesStep(attrs: seq<AttrView>, i: nat)
    requires i < |attrs|
    ensures PublicNamesFrom(attrs, i) ==
      PublicNamesFrom(attrs, i + 1) + (if IsPrivate(attrs[i].name) then {} else {attrs[i].name})
  {
  }

  /** The long names of the attributes from `i` on that the field loop takes from `keep`. */
  ghost function TakenNames(attrs: seq<AttrView>, keep: map<string, AttrView>, i: nat): set<string>
  {
    set j | i <= j < |attrs| && attrs[j].name in keep && keep[attrs[j].name] == attrs[j] :: attrs[j].name
  }

  lemma TakenNamesStep(attrs: seq<AttrView>, keep: map<string, AttrView>, i: nat)
    requires i < |attrs|
    ensures TakenNames(attrs, keep, i) ==
      TakenNames(attrs, keep, i + 1) + (if attrs[i].name in keep && keep[attrs[i].name] == attrs[i] then {attrs[i].name} else {})
  {
  }

  /** What building attrs_by_longname from attribute `i` on yields, with distinct names. */
  lemma {:induction false} PublicFromSpec(attrs: seq<AttrView>, i: nat, acc: map<string, AttrView>)
    requires i <= |attrs| && DistinctNames(attrs)
    requires forall j :: i <= j < |attrs| ==> attrs[j].name !in acc
    ensures var r := PublicFrom(attrs, i, acc);
      && (r.Ok? <==> forall j :: i <= j < |attrs| ==> |attrs[j].name| > 0)
      && (r.Ok? ==>
            && r.value.Keys == acc.Keys + PublicNamesFrom(attrs, i)
            && (forall k :: k in acc ==> r.value[k] == acc[k])
            && (forall j :: i <= j < |attrs| && !IsPrivate(attrs[j].name) ==> r.value[attrs[j].name] == attrs[j]))
    decreases |attrs| - i
  {
    if i < |attrs| && |attrs[i].name| > 0 {
      var acc' := if attrs[i].name[0] != '_' then acc[attrs[i].name := attrs[i]] else acc;
      PublicFromSpec(attrs, i + 1, acc');
      var r := PublicFrom(attrs, i + 1, acc');
      PublicNamesStep(attrs, i);
    }
  }

  /** What the field loop sets, from attribute `i` on, with distinct names. */
  lemma {:induction false} ReadFieldsSpec(resolve: (Value, Option<Value>) -> Option<ClassInfo>, net: NetView,
                                          keep: map<string, AttrView>, i: nat, obj: Imported)
    requires i <= |net.attrs| && DistinctNames(net.attrs)
    requires forall j :: i <= j < |net.attrs| ==> net.attrs[j].name !in obj.fields
    requires ReadFields(resolve, net, keep, i, obj).Ok?
    ensures var o := ReadFields(resolve, net, keep, i, obj).value;
      && o.cls == obj.cls && o.network == obj.network && o.postBuilt == obj.postBuilt
      && o.fields.Keys == obj.fields.Keys + TakenNames(net.attrs, keep, i)
      && (forall k :: k in obj.fields ==> o.fields[k] == obj.fields[k])
      && (forall j :: i <= j < |net.attrs| && net.attrs[j].name in o.fields && !(net.attrs[j].name in obj.fields) ==>
            ReadPlug(resolve, net.attrs[j].plug) == Ok(o.fields[net.attrs[j].name]))
      && (obj.cls.isDict ==> o.fields == obj.fields)
    decreases |net.attrs| - i
  {
    if i < |net.attrs| {
      var av := net.attrs[i];
      var taken := av.name in keep && keep[av.name] == av;
      var obj' := if taken then obj.(fields := obj.fields[av.name := ReadPlug(resolve, av.plug).value]) else obj;
      ReadFieldsSpec(resolve, net, keep, i + 1, obj');
      TakenNamesStep(net.attrs, keep, i);
    }
  }

  /** attrs_by_longname after popping: the kept names, each mapped to its own attribute. */
  lemma KeptAttrs(net: NetView)
    requires DistinctNames(net.attrs)
    requires PublicFrom(net.attrs, 0, map[]).Ok?
    ensures var keep := DropChildren(PublicFrom(net.attrs, 0, map[]).value);
      && keep.Keys == KeptNames(net)
      && forall j :: 0 <= j < |net.attrs| && net.attrs[j].name in keep ==> keep[net.attrs[j].name] == net.attrs[j]
  {
    PublicFromSpec(net.attrs, 0, map[]);
    var byName := PublicFrom(net.attrs, 0, map[]).value;
    assert byName.Keys == PublicNames(net);
    forall c | c in ChildrenOf(byName.Values) ensures c in PublicChildren(net) {
      var a :| a in byName.Values && c in a.children;
      var k :| k in byName && byName[k] == a;
      var j :| 0 <= j < |net.attrs| && !IsPrivate(net.attrs[j].name) && net.attrs[j].name == k;
      assert net.attrs[j] == a;
    }
    forall c | c in PublicChildren(net) ensures c in ChildrenOf(byName.Values) {
      var j :| 0 <= j < |net.attrs| && !IsPrivate(net.attrs[j].name) && c in net.attrs[j].children;
      assert byName[net.attrs[j].name] == net.attrs[j];
      assert net.attrs[j] in byName.Values;
    }
  }

  /** The names the field loop takes, over a kept map of that form, are the kept names. */
  lemma TakenAreKept(net: NetView, keep: map<string, AttrView>)
    requires keep.Keys == KeptNames(net)
    requires forall j :: 0 <= j < |net.attrs| && net.attrs[j].name in keep ==> keep[net.attrs[j].name] == net.attrs[j]
    ensures TakenNames(net.attrs, keep, 0) == KeptNames(net)
  {
    forall k | k in KeptNames(net)
      ensures exists j :: 0 <= j < |net.attrs| && net.attrs[j].name in keep && keep[net.attrs[j].name] == net.attrs[j] && net.attrs[j].name == k
    {
      var j :| 0 <= j < |net.attrs| && !IsPrivate(net.attrs[j].name) && net.attrs[j].name == k;
      assert keep[k] == net.attrs[j];
    }
  }

  /**
   * An import that succeeds sets exactly the public attributes that are not
   * children of a public compound, each to what reading its plug gives; the
   * object carries the network as back-reference unless it is a dictionary,
   * a dictionary class gets no field, and the post-build callback ran when
   * the class has one.
   */
  lemma ImportedFields(resolve: (Value, Option<Value>) -> Option<ClassInfo>, net: NetView)
    requires DistinctNames(net.attrs)
    requires ImportSpec(resolve, net).Ok? && ImportSpec(resolve, net).value.Some?
    ensures var o := ImportSpec(resolve, net).value.value;
      && HasAttr(net, "_class")
      && Some(o.cls) == resolve(GetAttr(net, "_class"),
                                if HasAttr(net, "_class_module") then Some(GetAttr(net, "_class_module")) else None)
      && o.network == (if o.cls.isDict then None else Some(net.id))
      && o.postBuilt == o.cls.hasPostBuild
      && o.fields.Keys == KeptNames(net)
      && (o.cls.isDict ==> o.fields == map[])
      && (forall j :: 0 <= j < |net.attrs| && net.attrs[j].name in o.fields ==>
            ReadPlug(resolve, net.attrs[j].plug) == Ok(o.fields[net.attrs[j].name]))
  {
    var className := GetAttr(net, "_class");
    var classModule := if HasAttr(net, "_class_module") then Some(GetAttr(net, "_class_module")) else None;
    var cls := resolve(className, classModule).value;
    var byName := PublicFrom(net.attrs, 0, map[]).value;
    var keep := DropChildren(byName);
    var start := Imported(cls, if cls.isDict then None else Some(net.id), map[], false);
    KeptAttrs(net);
    TakenAreKept(net, keep);
    ReadFieldsSpec(resolve, net, keep, 0, start);
  }

  /** The field loop succeeds when every read it makes succeeds. */
  lemma {:induction false} ReadFieldsOk(resolve: (Value, Option<Value>) -> Option<ClassInfo>, net: NetView,
                                        keep: map<string, AttrView>, i: nat, obj: Imported)
    requires i <= |net.attrs| && !obj.cls.isDict
    requires forall j :: i <= j < |net.attrs| && net.attrs[j].name in keep && keep[net.attrs[j].name] == net.attrs[j] ==>
      ReadPlug(resolve, net.attrs[j].plug).Ok?
    ensures ReadFields(resolve, net, keep, i, obj).Ok?
    ensures ReadFields(resolve, net, keep, i, obj).value.cls == obj.cls
    decreases |net.attrs| - i
  {
    if i < |net.attrs| {
      var av := net.attrs[i];
      if av.name in keep && keep[av.name] == av {
        ReadFieldsOk(resolve, net, keep, i + 1, obj.(fields := obj.fields[av.name := ReadPlug(resolve, av.plug).value]));
      } else {
        ReadFieldsOk(resolve, net, keep, i + 1, obj);
      }
    }
  }

  /** attrs_by_longname is built whenever every attribute has a name. */
  lemma {:induction false} PublicFromOk(attrs: seq<AttrView>, i: nat, acc: map<string, AttrView>)
    requires i <= |attrs|
    requires forall j :: i <= j < |attrs| ==> |attrs[j].name| > 0
    ensures PublicFrom(attrs, i, acc).Ok?
    decreases |attrs| - i
  {
    if i < |attrs| {
      PublicFromOk(attrs, i + 1, if attrs[i].name[0] != '_' then acc[attrs[i].name := attrs[i]] else acc);
    }
  }

  /**
   * import_network succeeds, with the class the registry resolves, when
   * `_class` together with `_class_module` (if present) resolves to a class
   * that is no dictionary, every attribute has a name (`attr_name[0]`), and
   * the plug of every attribute the import reads, the public ones that are no
   * child of a public compound, reads.
   */
  lemma ImportSucceeds(resolve: (Value, Option<Value>) -> Option<ClassInfo>, net: NetView, cls: ClassInfo)
    requires DistinctNames(net.attrs) && HasAttr(net, "_class")
    requires resolve(GetAttr(net, "_class"),
                     if HasAttr(net, "_class_module") then Some(GetAttr(net, "_class_module")) else None) == Some(cls)
    requires !cls.isDict
    requires forall i :: 0 <= i < |net.attrs| ==> |net.attrs[i].name| > 0
    requires forall i :: 0 <= i < |net.attrs| && net.attrs[i].name in KeptNames(net) ==> ReadPlug(resolve, net.attrs[i].plug).Ok?
    ensures var r := ImportSpec(resolve, net);
      r.Ok? && r.value.Some? && r.value.value.cls == cls
  {
    PublicFromOk(net.attrs, 0, map[]);
    KeptAttrs(net);
    var byName := PublicFrom(net.attrs, 0, map[]).value;
    ReadFieldsOk(resolve, net, DropChildren(byName), 0, Imported(cls, Some(net.id), map[], false));
  }
}
