/**
 * What the repository builds for a host value: the method and property
 * descriptors of a node, the member filters of `Analyse`, and a functional
 * specification of the whole recursive analysis, with the facts proved about it.
 */
module Analysis {
  import opened Wrappers
  import opened Naming
  import opened Host

  /** `JavascriptMethod`: names and the bound reflective invoker. */
  datatype JsMethod = JsMethod(managedName: string, javascriptName: string, invoker: MethodInfo)

  /**
   * `JavascriptProperty`: names, the reflective accessor pair, the complex-type
   * flag and the child node (by id) that holds the value read at analysis time.
   */
  datatype JsProperty = JsProperty(
    managedName: string,
    javascriptName: string,
    isComplexType: bool,
    accessor: PropertyInfo,
    child: int)

  /** `JavascriptObject`: one node of the registry. */
  datatype JsNode = JsNode(
    id: int,
    name: Option<string>,
    javascriptName: Option<string>,
    value: HostValue,
    methods: seq<JsMethod>,
    properties: seq<JsProperty>)

  /** The node `CreateJavascriptObject` allocates: only its id is set. */
  function EmptyNode(id: int): JsNode
  {
    JsNode(id, None, None, Null, [], [])
  }

  /**
   * `CreateJavaScriptMethod`: the descriptor keeps the reflected name as its
   * managed name and binds the reflected method; its JavaScript name is the
   * managed name in lower-first form, of the same length.
   */
  function CreateJavaScriptMethod(info: MethodInfo): (r: JsMethod)
    ensures r.managedName == info.name && r.invoker == info
    ensures r.javascriptName == LowercaseFirst(Some(r.managedName))
    ensures |r.javascriptName| == |info.name|
    ensures LowercaseFirst(Some(r.javascriptName)) == r.javascriptName
  {
    LowercaseFirstIdempotent(Some(info.name));
    JsMethod(info.name, LowercaseFirst(Some(info.name)), info)
  }

  /**
   * `CreateJavaScriptProperty` together with the assignment of the child node
   * that `Analyse` makes right after it. The property counts as complex exactly
   * when its declared type is neither primitive nor `System.String`.
   */
  function CreateJavaScriptProperty(info: PropertyInfo, child: int): (r: JsProperty)
    ensures r.managedName == info.name && r.accessor == info && r.child == child
    ensures r.javascriptName == LowercaseFirst(Some(r.managedName))
    ensures |r.javascriptName| == |info.name|
    ensures LowercaseFirst(Some(r.javascriptName)) == r.javascriptName
    ensures r.isComplexType <==> info.propertyType != PrimitiveType && info.propertyType != StringType
  {
    LowercaseFirstIdempotent(Some(info.name));
    var complex := info.propertyType != PrimitiveType && info.propertyType != StringType;
    JsProperty(info.name, LowercaseFirst(Some(info.name)), complex, info, child)
  }

  /** A method `Analyse` keeps: not special-named and not returning `System.Type`. */
  predicate MethodRetained(m: MethodInfo)
  {
    !m.isSpecialName && m.returnType != TypeDescriptor
  }

  /** A property `Analyse` keeps: not special-named and not of type `System.Type`. */
  predicate PropertyRetained(p: PropertyInfo)
  {
    !p.isSpecialName && p.propertyType != TypeDescriptor
  }

  /** The retained methods, in enumeration order. */
  function RetainedMethods(ms: seq<MethodInfo>): seq<MethodInfo>
  {
    if ms == [] then []
    else
      var rest := RetainedMethods(ms[..|ms| - 1]);
      var m := ms[|ms| - 1];
      if MethodRetained(m) then rest + [m] else rest
  }

  /** The retained properties, in enumeration order. */
  function RetainedProperties(ps: seq<PropertyInfo>): seq<PropertyInfo>
  {
    if ps == [] then []
    else
      var rest := RetainedProperties(ps[..|ps| - 1]);
      var p := ps[|ps| - 1];
      if PropertyRetained(p) then rest + [p] else rest
  }

  /**
   * `RetainedMethods` keeps exactly the retained methods, each as often as it
   * was enumerated, and no more than were enumerated.
   */
  lemma {:induction false} RetainedMethodsExactly(ms: seq<MethodInfo>)
    ensures |RetainedMethods(ms)| <= |ms|
    ensures forall m :: m in RetainedMethods(ms) <==> m in ms && MethodRetained(m)
    ensures forall m :: multiset(RetainedMethods(ms))[m] == if MethodRetained(m) then multiset(ms)[m] else 0
  {
    if ms != [] {
      var pre := ms[..|ms| - 1];
      RetainedMethodsExactly(pre);
      assert ms == pre + [ms[|ms| - 1]];
    }
  }

  /**
   * `RetainedProperties` keeps exactly the retained properties, each as often
   * as it was enumerated, and no more than were enumerated.
   */
  lemma {:induction false} RetainedPropertiesExactly(ps: seq<PropertyInfo>)
    ensures |RetainedProperties(ps)| <= |ps|
    ensures forall p :: p in RetainedProperties(ps) <==> p in ps && PropertyRetained(p)
    ensures forall p :: multiset(RetainedProperties(ps))[p] == if PropertyRetained(p) then multiset(ps)[p] else 0
  {
    if ps != [] {
      var pre := ps[..|ps| - 1];
      RetainedPropertiesExactly(pre);
      assert ps == pre + [ps[|ps| - 1]];
    }
  }

  function CreateJavaScriptMethods(ms: seq<MethodInfo>): seq<JsMethod>
  {
    seq(|ms|, i requires 0 <= i < |ms| => CreateJavaScriptMethod(ms[i]))
  }

  /** One step of the method loop of `Analyse`: the descriptors of one more enumerated method. */
  lemma MethodsStep(ms: seq<MethodInfo>, i: nat)
    requires i < |ms|
    ensures CreateJavaScriptMethods(RetainedMethods(ms[..i + 1])) ==
      CreateJavaScriptMethods(RetainedMethods(ms[..i])) +
      (if MethodRetained(ms[i]) then [CreateJavaScriptMethod(ms[i])] else [])
  {
    assert ms[..i + 1][..i] == ms[..i];
    var rs := RetainedMethods(ms[..i]);
    if MethodRetained(ms[i]) {
      assert CreateJavaScriptMethods(rs + [ms[i]]) == CreateJavaScriptMethods(rs) + [CreateJavaScriptMethod(ms[i])];
    } else {
      assert CreateJavaScriptMethods(rs) + [] == CreateJavaScriptMethods(rs);
    }
  }

  /** Ids a value's analysis allocates: one per retained property anywhere in its tree. */
  function CountIds(v: HostValue): nat
    decreases v
  {
    match v
    case Obj(_, _, ps) => PropertiesCountIds(ps)
    case _ => 0
  }

  function PropertiesCountIds(ps: seq<PropertyInfo>): nat
    decreases ps
  {
    if ps == [] then 0
    else
      var p := ps[|ps| - 1];
      PropertiesCountIds(ps[..|ps| - 1]) + (if PropertyRetained(p) then 1 + CountIds(p.value) else 0)
  }

  /**
   * The result of analysing one value with the id counter at `next`: the
   * descriptors added to the analysed node, the child nodes allocated on the
   * way (by id) and the counter afterwards.
   */
  datatype Discovered = Discovered(
    methods: seq<JsMethod>,
    properties: seq<JsProperty>,
    nodes: map<int, JsNode>,
    next: int)

  /** `Analyse` as a function of the value and the counter. */
  function AnalyseSpec(v: HostValue, next: int): Discovered
    decreases v
  {
    match v
    case Obj(_, ms, ps) =>
      var b := BuildProperties(ps, next);
      Discovered(CreateJavaScriptMethods(RetainedMethods(ms)), b.properties, b.nodes, b.next)
    case _ => Discovered([], [], map[], next)
  }

  /**
   * The property loop of `Analyse`: each retained property, in order, takes the
   * next id for its child node, whose value is the property's value and whose
   * own analysis continues the count.
   */
  function BuildProperties(ps: seq<PropertyInfo>, next: int): Discovered
    decreases ps
  {
    if ps == [] then Discovered([], [], map[], next)
    else
      var b := BuildProperties(ps[..|ps| - 1], next);
      var p := ps[|ps| - 1];
      if !PropertyRetained(p) then b
      else
        var c := b.next;
        Discovered([], b.properties + [CreateJavaScriptProperty(p, c)],
          (b.nodes + AnalyseSpec(p.value, c + 1).nodes)[c := ChildNode(p, c)],
          AnalyseSpec(p.value, c + 1).next)
  }

  /** The child node a retained property `p` gets when the counter is at `c`. */
  function ChildNode(p: PropertyInfo, c: int): JsNode
  {
    var a := AnalyseSpec(p.value, c + 1);
    JsNode(c, None, None, p.value, a.methods, a.properties)
  }

  /** One step of the property loop of `Analyse`. */
  lemma PropertiesStep(ps: seq<PropertyInfo>, j: nat, next: int)
    requires j < |ps|
    ensures var b := BuildProperties(ps[..j], next);
      var p := ps[j];
      var c := b.next;
      BuildProperties(ps[..j + 1], next) ==
        if !PropertyRetained(p) then b
        else Discovered([], b.properties + [CreateJavaScriptProperty(p, c)],
          (b.nodes + AnalyseSpec(p.value, c + 1).nodes)[c := ChildNode(p, c)],
          AnalyseSpec(p.value, c + 1).next)
  {
    assert ps[..j + 1][..j] == ps[..j];
  }

  /** The descriptors `properties` are those of the retained properties `rs`, each with its child node in `objs`. */
  ghost predicate PropertiesDescribe(objs: map<int, JsNode>, rs: seq<PropertyInfo>, properties: seq<JsProperty>)
  {
    |properties| == |rs| &&
    forall i :: 0 <= i < |rs| ==>
      properties[i] == CreateJavaScriptProperty(rs[i], properties[i].child) &&
      properties[i].child in objs && objs[properties[i].child].value == rs[i].value
  }

  /** `methods` and `properties` are exactly the discovered surface of `v`. */
  ghost predicate Surface(objs: map<int, JsNode>, v: HostValue, methods: seq<JsMethod>, properties: seq<JsProperty>)
  {
    if v.Obj? then
      methods == CreateJavaScriptMethods(RetainedMethods(v.methods)) &&
      PropertiesDescribe(objs, RetainedProperties(v.properties), properties)
    else
      methods == [] && properties == []
  }

  /** A node holds exactly the discovered surface of its value. */
  ghost predicate Describes(objs: map<int, JsNode>, n: JsNode)
  {
    Surface(objs, n.value, n.methods, n.properties)
  }

  /** Every node in `objs` sits under its own id and describes its value. */
  ghost predicate AllDescribed(objs: map<int, JsNode>)
  {
    forall k :: k in objs ==> objs[k].id == k && Describes(objs, objs[k])
  }

  /** `m2` keeps every node of `m1` with the same value. */
  ghost predicate ValuesKept(m1: map<int, JsNode>, m2: map<int, JsNode>)
  {
    forall k :: k in m1 ==> k in m2 && m2[k].value == m1[k].value
  }

  lemma SurfaceKept(m1: map<int, JsNode>, m2: map<int, JsNode>, v: HostValue, ms: seq<JsMethod>, ps: seq<JsProperty>)
    requires ValuesKept(m1, m2) && Surface(m1, v, ms, ps)
    ensures Surface(m2, v, ms, ps)
  {
  }

  /**
   * The analysis of `v` with the counter at `next` uses exactly the ids from
   * `next` up to `next + CountIds(v)`, one per node it creates, and stores each
   * node under its own id.
   */
  lemma {:induction false} AnalyseSpecIds(v: HostValue, next: int)
    ensures AnalyseSpec(v, next).next == next + CountIds(v)
    ensures forall k :: k in AnalyseSpec(v, next).nodes <==> next <= k < AnalyseSpec(v, next).next
    ensures forall k :: k in AnalyseSpec(v, next).nodes ==> AnalyseSpec(v, next).nodes[k].id == k
    ensures var a := AnalyseSpec(v, next);
      forall i :: 0 <= i < |a.properties| ==> next <= a.properties[i].child < a.next
    ensures var a := AnalyseSpec(v, next);
      forall i, j :: 0 <= i < j < |a.properties| ==> a.properties[i].child < a.properties[j].child
    decreases v
  {
    match v
    case Obj(_, ms, ps) => BuildPropertiesIds(ps, next);
    case _ =>
  }

  /** The property loop's part of `AnalyseSpecIds`. */
  lemma {:induction false} BuildPropertiesIds(ps: seq<PropertyInfo>, next: int)
    ensures BuildProperties(ps, next).next == next + PropertiesCountIds(ps)
    ensures forall k :: k in BuildProperties(ps, next).nodes <==> next <= k < BuildProperties(ps, next).next
    ensures forall k :: k in BuildProperties(ps, next).nodes ==> BuildProperties(ps, next).nodes[k].id == k
    ensures var b := BuildProperties(ps, next);
      forall i :: 0 <= i < |b.properties| ==> next <= b.properties[i].child < b.next
    ensures var b := BuildProperties(ps, next);
      forall i, j :: 0 <= i < j < |b.properties| ==> b.properties[i].child < b.properties[j].child
    decreases ps
  {
    if ps != [] {
      var pre := ps[..|ps| - 1];
      var p := ps[|ps| - 1];
      BuildPropertiesIds(pre, next);
      if PropertyRetained(p) {
        var b := BuildProperties(pre, next);
        AnalyseSpecIds(p.value, b.next + 1);
        var jsProperty := CreateJavaScriptProperty(p, b.next);
        assert BuildProperties(ps, next).properties == b.properties + [jsProperty];
        assert jsProperty.child == b.next;
      }
    }
  }

  /**
   * Every node the analysis of `v` creates holds exactly the surface of its
   * own value, and the descriptors it returns are the surface of `v`: the
   * retained methods, and the retained properties each with a child node
   * holding the property's value.
   */
  lemma {:induction false} AnalyseSpecDescribes(v: HostValue, next: int)
    ensures AllDescribed(AnalyseSpec(v, next).nodes)
    ensures var a := AnalyseSpec(v, next); Surface(a.nodes, v, a.methods, a.properties)
    decreases v
  {
    match v
    case Obj(_, ms, ps) => BuildPropertiesDescribes(ps, next);
    case _ =>
  }

  /** Adding a child node and its subtree keeps every node described. */
  lemma JoinDescribed(before: map<int, JsNode>, sub: map<int, JsNode>, child: JsNode)
    requires AllDescribed(before) && AllDescribed(sub)
    requires forall k :: k in before ==> k < child.id
    requires forall k :: k in sub ==> child.id < k
    requires Describes(sub, child)
    ensures ValuesKept(before, (before + sub)[child.id := child])
    ensures ValuesKept(sub, (before + sub)[child.id := child])
    ensures AllDescribed((before + sub)[child.id := child])
  {
    var nodes := (before + sub)[child.id := child];
    forall k | k in nodes
      ensures nodes[k].id == k && Describes(nodes, nodes[k])
    {
      if k == child.id {
        SurfaceKept(sub, nodes, child.value, child.methods, child.properties);
      } else if k in sub {
        SurfaceKept(sub, nodes, sub[k].value, sub[k].methods, sub[k].properties);
      } else {
        SurfaceKept(before, nodes, before[k].value, before[k].methods, before[k].properties);
      }
    }
  }

  /** Appending the descriptor of one more retained property whose child node is in `objs`. */
  lemma JoinProperties(
    before: map<int, JsNode>, objs: map<int, JsNode>, rs: seq<PropertyInfo>,
    properties: seq<JsProperty>, p: PropertyInfo, c: int)
    requires PropertiesDescribe(before, rs, properties) && ValuesKept(before, objs)
    requires c in objs && objs[c].value == p.value
    ensures PropertiesDescribe(objs, rs + [p], properties + [CreateJavaScriptProperty(p, c)])
  {
    var props := properties + [CreateJavaScriptProperty(p, c)];
    forall i | 0 <= i < |rs| + 1
      ensures props[i] == CreateJavaScriptProperty((rs + [p])[i], props[i].child) &&
              props[i].child in objs && objs[props[i].child].value == (rs + [p])[i].value
    {
      if i < |rs| {
        assert props[i] == properties[i];
      }
    }
  }

  /** The property loop's part of `AnalyseSpecDescribes`. */
  lemma {:induction false} BuildPropertiesDescribes(ps: seq<PropertyInfo>, next: int)
    ensures AllDescribed(BuildProperties(ps, next).nodes)
    ensures var b := BuildProperties(ps, next);
      PropertiesDescribe(b.nodes, RetainedProperties(ps), b.properties)
    decreases ps
  {
    if ps != [] {
      var pre := ps[..|ps| - 1];
      var p := ps[|ps| - 1];
      BuildPropertiesDescribes(pre, next);
      BuildPropertiesIds(pre, next);
      var b := BuildProperties(pre, next);
      if PropertyRetained(p) {
        var c := b.next;
        AnalyseSpecDescribes(p.value, c + 1);
        AnalyseSpecIds(p.value, c + 1);
        var a := AnalyseSpec(p.value, c + 1);
        var child := ChildNode(p, c);
        var nodes := (b.nodes + a.nodes)[c := child];
        assert BuildProperties(ps, next) == Discovered([], b.properties + [CreateJavaScriptProperty(p, c)], nodes, a.next);
        JoinDescribed(b.nodes, a.nodes, child);
        assert RetainedProperties(ps) == RetainedProperties(pre) + [p];
        JoinProperties(b.nodes, nodes, RetainedProperties(pre), b.properties, p, c);
      } else {
        assert BuildProperties(ps, next) == b;
        assert RetainedProperties(ps) == RetainedProperties(pre);
      }
    }
  }

  /**
   * A property of primitive declared type is not complex, yet it still gets a
   * child node with an id of its own: an object with one `int` property uses
   * two ids when registered, one for itself and one for the property's child.
   */
  lemma PrimitivePropertyGetsChild(next: int)
    ensures var count := PropertyInfo("Count", false, PrimitiveType, Prim("System.Int32", 5));
      var v := Obj("Counter", [], [count]);
      var a := AnalyseSpec(v, next);
      CountIds(v) == 1 &&
      |a.properties| == 1 && !a.properties[0].isComplexType &&
      a.properties[0].child == next && next in a.nodes &&
      a.nodes[next].value == Prim("System.Int32", 5) &&
      a.nodes[next].methods == [] && a.nodes[next].properties == []
  {
    var count := PropertyInfo("Count", false, PrimitiveType, Prim("System.Int32", 5));
    assert [count][..0] == [];
    assert PropertiesCountIds([count]) == PropertiesCountIds([]) + 1 + CountIds(count.value);
    var sub := AnalyseSpec(count.value, next + 1);
    assert sub == Discovered([], [], map[], next + 1);
    var child := ChildNode(count, next);
    assert child == JsNode(next, None, None, count.value, [], []);
    assert BuildProperties([count], next) ==
      Discovered([], [CreateJavaScriptProperty(count, next)], (map[] + sub.nodes)[next := child], next + 1);
  }
}
