/**
 * `JavascriptObjectRepository`: the registry of host objects exposed to
 * JavaScript. Nodes are stored by id; the root object's member list holds the
 * ids of the registered nodes; a process-wide counter hands out the ids.
 */
module Repository {
  import opened Wrappers
  import opened Naming
  import opened Host
  import opened Analysis

  /** The static `lastId` field, shared by every repository of the process. */
  class IdCounter {
    var lastId: int

    constructor ()
      ensures lastId == 0
    {
      lastId := 0;
    }
  }

  datatype MemberKind = MethodMember | PropertyMember

  /** Why a dispatch to a known node throws. */
  datatype Fault =
      /** `InvalidOperationException`, naming the member and the runtime type of the node's value. */
    | MemberNotFound(kind: MemberKind, name: string, typeName: string)
      /** The node's value is null, so building the message dereferences null. */
    | NullReference

  /**
   * The outcome of a `Try*` call: `false` for an unknown id, `true` with a
   * result, or an exception.
   */
  datatype Dispatch<T> = NotHandled | Handled(result: T) | Throws(fault: Fault)

  /** The call a successful `TrySetProperty` makes to the property's setter. */
  datatype SetterCall = SetterCall(accessor: PropertyInfo, target: HostValue, value: HostValue)

  /** `FirstOrDefault`: the index of the first element that matches, if any. */
  function FirstIndex<T>(xs: seq<T>, matches: T -> bool): (r: Option<nat>)
    ensures r.None? <==> forall i :: 0 <= i < |xs| ==> !matches(xs[i])
    ensures r.Some? ==>
      r.value < |xs| && matches(xs[r.value]) && forall i :: 0 <= i < r.value ==> !matches(xs[i])
  {
    if xs == [] then None
    else if matches(xs[0]) then Some(0)
    else
      match FirstIndex(xs[1..], matches)
      case None => None
      case Some(i) => Some(i + 1)
  }

  /** The method a call by `name` resolves to: the first one whose managed name is `name`. */
  function FindMethod(methods: seq<JsMethod>, name: string): (r: Option<nat>)
    ensures r.None? <==> forall i :: 0 <= i < |methods| ==> methods[i].managedName != name
    ensures r.Some? ==>
      r.value < |methods| && methods[r.value].managedName == name &&
      forall i :: 0 <= i < r.value ==> methods[i].managedName != name
  {
    FirstIndex(methods, (m: JsMethod) => m.managedName == name)
  }

  /** The property a get or set by `name` resolves to: the first one whose managed name is `name`. */
  function FindProperty(properties: seq<JsProperty>, name: string): (r: Option<nat>)
    ensures r.None? <==> forall i :: 0 <= i < |properties| ==> properties[i].managedName != name
    ensures r.Some? ==>
      r.value < |properties| && properties[r.value].managedName == name &&
      forall i :: 0 <= i < r.value ==> properties[i].managedName != name
  {
    FirstIndex(properties, (p: JsProperty) => p.managedName == name)
  }

  /**
   * What building the "not found" message does with the node's value: a null
   * value is dereferenced for its type, anything else names the member and
   * the value's runtime type.
   */
  function MissingMember(kind: MemberKind, name: string, v: HostValue): (r: Fault)
    ensures r.NullReference? <==> v.Null?
    ensures r.MemberNotFound? ==> r.kind == kind && r.name == name && r.typeName == TypeName(v)
  {
    if v.Null? then NullReference else MemberNotFound(kind, name, TypeName(v))
  }

  /**
   * One retained property of the loop in `Analyse`, as map updates: the
   * registry after one more property is the one the functional specification
   * describes for the longer prefix of the property list.
   */
  lemma ChildStep(
    objects0: map<int, JsNode>, before: map<int, JsNode>, sub: map<int, JsNode>,
    id: int, n1: JsNode, properties: seq<JsProperty>, child: JsNode, jsProperty: JsProperty)
    requires id !in sub && id != child.id
    ensures var p := n1.(properties := n1.properties + properties);
      var w := (objects0 + before)[id := p];
      (w + sub)[child.id := child][id := p.(properties := p.properties + [jsProperty])]
      == (objects0 + (before + sub)[child.id := child])[id := n1.(properties := n1.properties + (properties + [jsProperty]))]
  {
    assert n1.properties + properties + [jsProperty] == n1.properties + (properties + [jsProperty]);
  }

  /**
   * The map updates `AnalyseProperty` makes for a retained property: allocate
   * child `c`, give it the property's value, store the child's analysis and
   * append the descriptor to the parent `id`.
   */
  lemma AllocateChild(
    objs: map<int, JsNode>, id: int, c: int, value: HostValue, sub: map<int, JsNode>,
    methods: seq<JsMethod>, properties: seq<JsProperty>, jsProperty: JsProperty)
    requires id in objs && id != c && id !in sub
    ensures var y := objs[c := EmptyNode(c)][c := EmptyNode(c).(value := value)];
      var x := (y + sub)[c := y[c].(methods := y[c].methods + methods, properties := y[c].properties + properties)];
      x[id := x[id].(properties := x[id].properties + [jsProperty])]
      == (objs + sub)[c := JsNode(c, None, None, value, methods, properties)][id := objs[id].(properties := objs[id].properties + [jsProperty])]
  {
    assert [] + methods == methods && [] + properties == properties;
  }

  /** Appending one method descriptor to node `id`, as a map update. */
  lemma AppendMethod(objs: map<int, JsNode>, id: int, n: JsNode, done: seq<JsMethod>, jsMethod: JsMethod)
    ensures var w := objs[id := n.(methods := n.methods + done)];
      w[id := w[id].(methods := w[id].methods + [jsMethod])] == objs[id := n.(methods := n.methods + (done + [jsMethod]))]
  {
    assert n.methods + done + [jsMethod] == n.methods + (done + [jsMethod]);
  }

  /** The method loop followed by the property loop, as map updates. */
  lemma AnalyseSteps(
    objs: map<int, JsNode>, id: int, n: JsNode,
    methods: seq<JsMethod>, sub: map<int, JsNode>, properties: seq<JsProperty>)
    ensures var w := objs[id := n.(methods := n.methods + methods)];
      (w + sub)[id := w[id].(properties := w[id].properties + properties)]
      == (objs + sub)[id := n.(methods := n.methods + methods, properties := n.properties + properties)]
  {
  }

  /** The map updates `Register` makes: allocate root `id`, name it, store its analysis. */
  lemma RegisterRoot(objs: map<int, JsNode>, id: int, root: JsNode, sub: map<int, JsNode>)
    requires id !in sub && root.id == id
    ensures var n := EmptyNode(id).(value := root.value, name := root.name, javascriptName := root.javascriptName);
      var y := objs[id := EmptyNode(id)][id := n];
      (y + sub)[id := y[id].(methods := y[id].methods + root.methods, properties := y[id].properties + root.properties)]
      == (objs + sub)[id := root]
  {
    assert [] + root.methods == root.methods && [] + root.properties == root.properties;
  }

  class JavascriptObjectRepository {
    const counter: IdCounter
    /** `objects`: every node this repository created, by id. */
    var objects: map<int, JsNode>
    /** `RootObject.MemberObjects`: the registered nodes, by id, in registration order. */
    var rootObjects: seq<int>

    /** Every node sits under its own id, below the counter; every root is a node. */
    ghost predicate Valid()
      reads this, counter
    {
      (forall k :: k in objects ==> k < counter.lastId && objects[k].id == k) &&
      (forall i :: 0 <= i < |rootObjects| ==> rootObjects[i] in objects)
    }

    /** Every node holds exactly the discovered surface of its value. */
    ghost predicate Analysed()
      reads this
    {
      AllDescribed(objects)
    }

    constructor (counter: IdCounter)
      ensures this.counter == counter
      ensures objects == map[] && rootObjects == []
      ensures Valid() && Analysed()
    {
      this.counter := counter;
      objects := map[];
      rootObjects := [];
    }

    /** Allocates a node with the next id and stores it. */
    method CreateJavascriptObject() returns (node: JsNode)
      requires Valid()
      modifies this, counter
      ensures Valid()
      ensures node == EmptyNode(old(counter.lastId)) && node.id !in old(objects)
      ensures counter.lastId == old(counter.lastId) + 1
      ensures objects == old(objects)[node.id := node]
      ensures rootObjects == old(rootObjects)
    {
      var id := counter.lastId;
      counter.lastId := counter.lastId + 1;
      node := EmptyNode(id);
      objects := objects[id := node];
    }

    /** Registers `value` under `name`: one new root node, analysed, appended to the roots. */
    method Register(name: Option<string>, value: HostValue)
      requires Valid()
      modifies this, counter
      ensures Valid()
      ensures var id := old(counter.lastId);
        var a := AnalyseSpec(value, id + 1);
        objects == (old(objects) + a.nodes)[id := JsNode(id, name, Some(LowercaseFirst(name)), value, a.methods, a.properties)] &&
        rootObjects == old(rootObjects) + [id]
      ensures counter.lastId == old(counter.lastId) + 1 + CountIds(value)
      ensures forall k :: k in old(objects) ==> k in objects && objects[k] == old(objects)[k]
      ensures forall k :: k in objects && k !in old(objects) ==> old(counter.lastId) <= k < counter.lastId
      ensures old(Analysed()) ==> Analysed()
    {
      var jsObject := CreateJavascriptObject();
      jsObject := jsObject.(value := value, name := name, javascriptName := Some(LowercaseFirst(name)));
      objects := objects[jsObject.id := jsObject];

      Analyse(jsObject.id);

      rootObjects := rootObjects + [jsObject.id];

      ghost var id := old(counter.lastId);
      AnalyseSpecIds(value, id + 1);
      ghost var a := AnalyseSpec(value, id + 1);
      ghost var root := JsNode(id, name, Some(LowercaseFirst(name)), value, a.methods, a.properties);
      RegisterRoot(old(objects), id, root, a.nodes);
      if old(Analysed()) {
        AnalyseSpecDescribes(value, id + 1);
        JoinDescribed(old(objects), a.nodes, root);
      }
    }

    /**
     * Discovers the surface of node `id`'s value: nothing for null, primitive
     * and string values; otherwise the retained methods, then one fresh child
     * node per retained property, each analysed in turn.
     */
    method Analyse(id: int)
      requires Valid() && id in objects
      modifies this, counter
      decreases objects[id].value, 2
      ensures Valid()
      ensures var n := old(objects[id]);
        var a := AnalyseSpec(n.value, old(counter.lastId));
        counter.lastId == a.next &&
        objects == (old(objects) + a.nodes)[id := n.(methods := n.methods + a.methods, properties := n.properties + a.properties)]
      ensures rootObjects == old(rootObjects)
    {
      var v := objects[id].value;
      if v.Null? {
        NoDiscovery(id);
        return;
      }
      if v.Prim? || v.Str? {
        NoDiscovery(id);
        return;
      }
      ghost var n0 := objects[id];
      AnalyseMethods(id, v.methods);
      AnalyseProperties(id, v.properties);
      ghost var a := AnalyseSpec(v, old(counter.lastId));
      AnalyseSteps(old(objects), id, n0, a.methods, a.nodes, a.properties);
    }

    /** The method loop of `Analyse`: one descriptor per retained method, in order. */
    method AnalyseMethods(id: int, methodInfos: seq<MethodInfo>)
      requires Valid() && id in objects
      modifies this
      ensures Valid() && rootObjects == old(rootObjects)
      ensures var n := old(objects[id]);
        objects == old(objects)[id := n.(methods := n.methods + CreateJavaScriptMethods(RetainedMethods(methodInfos)))]
    {
      ghost var n0 := objects[id];
      var i := 0;
      assert n0.(methods := n0.methods + CreateJavaScriptMethods(RetainedMethods(methodInfos[..0]))) == n0;
      while i < |methodInfos|
        invariant 0 <= i <= |methodInfos|
        invariant Valid() && rootObjects == old(rootObjects)
        invariant objects == old(objects)[id := n0.(methods := n0.methods + CreateJavaScriptMethods(RetainedMethods(methodInfos[..i])))]
      {
        var methodInfo := methodInfos[i];
        MethodsStep(methodInfos, i);
        ghost var done := CreateJavaScriptMethods(RetainedMethods(methodInfos[..i]));
        if !methodInfo.isSpecialName && methodInfo.returnType != TypeDescriptor {
          var jsMethod := CreateJavaScriptMethod(methodInfo);
          objects := objects[id := objects[id].(methods := objects[id].methods + [jsMethod])];
          AppendMethod(old(objects), id, n0, done, jsMethod);
        } else {
          assert done + [] == done;
        }
        i := i + 1;
      }
      assert methodInfos[..i] == methodInfos;
    }

    /** The property loop of `Analyse`. */
    method AnalyseProperties(id: int, propertyInfos: seq<PropertyInfo>)
      requires Valid() && id in objects
      modifies this, counter
      decreases propertyInfos, 1
      ensures Valid() && rootObjects == old(rootObjects)
      ensures var n := old(objects[id]);
        var b := BuildProperties(propertyInfos, old(counter.lastId));
        counter.lastId == b.next &&
        objects == (old(objects) + b.nodes)[id := n.(properties := n.properties + b.properties)]
    {
      ghost var n1 := objects[id];
      ghost var objects0 := objects;
      ghost var next0 := counter.lastId;
      var j := 0;
      assert objects == objects0[id := n1];
      assert n1.properties + [] == n1.properties;
      assert objects0 + map[] == objects0;
      while j < |propertyInfos|
        invariant 0 <= j <= |propertyInfos|
        invariant Valid() && id in objects && rootObjects == old(rootObjects)
        invariant var b := BuildProperties(propertyInfos[..j], next0);
          counter.lastId == b.next &&
          objects == (objects0 + b.nodes)[id := n1.(properties := n1.properties + b.properties)]
      {
        var propertyInfo := propertyInfos[j];
        ghost var b := BuildProperties(propertyInfos[..j], next0);
        PropertiesStep(propertyInfos, j, next0);
        AnalyseProperty(id, propertyInfo);
        if PropertyRetained(propertyInfo) {
          ghost var c := b.next;
          AnalyseSpecIds(propertyInfo.value, c + 1);
          ChildStep(objects0, b.nodes, AnalyseSpec(propertyInfo.value, c + 1).nodes, id, n1, b.properties,
            ChildNode(propertyInfo, c), CreateJavaScriptProperty(propertyInfo, c));
        }
        j := j + 1;
      }
      assert propertyInfos[..j] == propertyInfos;
    }

    /**
     * The body of the property loop of `Analyse`, for one enumerated property
     * of node `id`'s value: a retained property gets a fresh child node holding
     * its value, the child is analysed, and the descriptor is appended.
     */
    method AnalyseProperty(id: int, propertyInfo: PropertyInfo)
      requires Valid() && id in objects
      modifies this, counter
      decreases propertyInfo, 0
      ensures Valid() && id in objects && rootObjects == old(rootObjects)
      ensures !PropertyRetained(propertyInfo) ==>
        objects == old(objects) && counter.lastId == old(counter.lastId)
      ensures PropertyRetained(propertyInfo) ==>
        var c := old(counter.lastId);
        var a := AnalyseSpec(propertyInfo.value, c + 1);
        var n := old(objects[id]);
        counter.lastId == a.next &&
        objects == (old(objects) + a.nodes)[c := ChildNode(propertyInfo, c)][id := n.(properties := n.properties + [CreateJavaScriptProperty(propertyInfo, c)])]
    {
      if propertyInfo.isSpecialName || propertyInfo.propertyType == TypeDescriptor {
        return;
      }
      var child := CreateJavascriptObject();
      objects := objects[child.id := child.(value := propertyInfo.value)];
      Analyse(child.id);
      AnalyseSpecIds(propertyInfo.value, child.id + 1);
      var jsProperty := CreateJavaScriptProperty(propertyInfo, child.id);
      objects := objects[id := objects[id].(properties := objects[id].properties + [jsProperty])];
      ghost var a := AnalyseSpec(propertyInfo.value, child.id + 1);
      AllocateChild(old(objects), id, child.id, propertyInfo.value, a.nodes, a.methods, a.properties, jsProperty);
    }

    /** Analysing a value with no discoverable members leaves the registry as it is. */
    lemma NoDiscovery(id: int)
      requires id in objects
      ensures objects[id := objects[id].(methods := objects[id].methods + [], properties := objects[id].properties + [])] == objects
    {
      var n := objects[id];
      assert n.methods + [] == n.methods && n.properties + [] == n.properties;
    }

    /**
     * `TryCallMethod`: `false` for an unknown id; for a known id, the first
     * method named `name` is invoked on the node's value, and a missing method
     * throws.
     */
    method TryCallMethod(objectId: int, name: string, parameters: seq<HostValue>, invoke: Invoker)
      returns (r: Dispatch<HostValue>)
      ensures r.NotHandled? <==> objectId !in objects
      ensures r.Throws? <==>
        objectId in objects && forall i :: 0 <= i < |objects[objectId].methods| ==> objects[objectId].methods[i].managedName != name
      ensures objectId in objects ==>
        var obj := objects[objectId];
        match FindMethod(obj.methods, name)
        case None => r == Throws(MissingMember(MethodMember, name, obj.value))
        case Some(k) => r == Handled(invoke(obj.methods[k].invoker, obj.value, parameters))
    {
      if objectId !in objects {
        return NotHandled;
      }
      var obj := objects[objectId];
      var found := FindMethod(obj.methods, name);
      if found.None? {
        return Throws(MissingMember(MethodMember, name, obj.value));
      }
      r := Handled(invoke(obj.methods[found.value].invoker, obj.value, parameters));
    }

    /**
     * `TryGetProperty`: `false` for an unknown id; for a known id, the getter of
     * the first property named `name` is applied to the node's value, and a
     * missing property throws.
     */
    method TryGetProperty(objectId: int, name: string, get: Getter) returns (r: Dispatch<HostValue>)
      ensures r.NotHandled? <==> objectId !in objects
      ensures r.Throws? <==>
        objectId in objects && forall i :: 0 <= i < |objects[objectId].properties| ==> objects[objectId].properties[i].managedName != name
      ensures objectId in objects ==>
        var obj := objects[objectId];
        match FindProperty(obj.properties, name)
        case None => r == Throws(MissingMember(PropertyMember, name, obj.value))
        case Some(k) => r == Handled(get(obj.properties[k].accessor, obj.value))
    {
      if objectId !in objects {
        return NotHandled;
      }
      var obj := objects[objectId];
      var property := FindProperty(obj.properties, name);
      if property.None? {
        return Throws(MissingMember(PropertyMember, name, obj.value));
      }
      r := Handled(get(obj.properties[property.value].accessor, obj.value));
    }

    /**
     * `TrySetProperty`: `false` for an unknown id; for a known id, the setter of
     * the first property named `name` is called on the node's value, and a
     * missing property throws.
     */
    method TrySetProperty(objectId: int, name: string, value: HostValue) returns (r: Dispatch<SetterCall>)
      ensures r.NotHandled? <==> objectId !in objects
      ensures r.Throws? <==>
        objectId in objects && forall i :: 0 <= i < |objects[objectId].properties| ==> objects[objectId].properties[i].managedName != name
      ensures objectId in objects ==>
        var obj := objects[objectId];
        match FindProperty(obj.properties, name)
        case None => r == Throws(MissingMember(PropertyMember, name, obj.value))
        case Some(k) => r == Handled(SetterCall(obj.properties[k].accessor, obj.value, value))
    {
      if objectId !in objects {
        return NotHandled;
      }
      var obj := objects[objectId];
      var property := FindProperty(obj.properties, name);
      if property.None? {
        return Throws(MissingMember(PropertyMember, name, obj.value));
      }
      r := Handled(SetterCall(obj.properties[property.value].accessor, obj.value, value));
    }
  }

  /**
   * `lastId` is static, so every repository of the process draws ids from one
   * counter: a registration in one repository allocates no id that another
   * repository on the same counter already holds.
   */
  method RegisterBeside(
    other: JavascriptObjectRepository, repository: JavascriptObjectRepository,
    name: Option<string>, value: HostValue)
    requires other != repository && other.counter == repository.counter
    requires other.Valid() && repository.Valid()
    requires other.objects.Keys !! repository.objects.Keys
    modifies repository, repository.counter
    ensures other.Valid() && repository.Valid()
    ensures other.objects == old(other.objects) && other.rootObjects == old(other.rootObjects)
    ensures repository.rootObjects == old(repository.rootObjects) + [old(repository.counter.lastId)]
    ensures other.objects.Keys !! repository.objects.Keys
  {
    ghost var bound := repository.counter.lastId;
    assert forall k :: k in other.objects ==> k < bound;
    repository.Register(name, value);
    forall k | k in repository.objects
      ensures k !in other.objects
    {
      if k !in old(repository.objects) {
        assert bound <= k;
      }
    }
  }

  /**
   * Two repositories of one process: both are built on the one counter, so the
   * nodes registered in them never share an id.
   */
  method TwoRepositories(first: Option<string>, firstValue: HostValue, second: Option<string>, secondValue: HostValue)
    returns (a: JavascriptObjectRepository, b: JavascriptObjectRepository)
    ensures a != b && a.counter == b.counter && a.Valid() && b.Valid()
    ensures |a.rootObjects| == 1 && |b.rootObjects| == 1
    ensures a.objects.Keys !! b.objects.Keys
  {
    var counter := new IdCounter();
    a := new JavascriptObjectRepository(counter);
    b := new JavascriptObjectRepository(counter);
    RegisterBeside(b, a, first, firstValue);
    RegisterBeside(a, b, second, secondValue);
  }
}
