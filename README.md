# CefSharp JavaScript object repository, modelled in Dafny

This project models `JavascriptObjectRepository`, the registry through which
CefSharp exposes .NET host objects to JavaScript running in the browser. The
repository

- hands out node ids from one process-wide counter (`CreateJavascriptObject`);
- registers a named host object as a root node (`Register`);
- discovers, once and recursively, the methods and properties of the node's
  value, creating a child node for every retained property (`Analyse`);
- dispatches calls, property reads and property writes that arrive from
  JavaScript by node id and member name (`TryCallMethod`, `TryGetProperty`,
  `TrySetProperty`): an unknown id is answered with `false`, a known id with a
  missing member throws;
- derives every JavaScript-side name by lower-casing the first character
  (`LowercaseFirst`).

Files:

- `wrappers.dfy` — `Option`, for the references the C# code allows to be null.
- `naming.dfy` — `LowercaseFirst` and its properties.
- `host.dfy` — host values as reflection sees them: null, boxed primitives,
  strings, and objects listing their public instance methods and properties
  (each property with the value it holds). Invoking a method and reading a
  property are opaque functions passed in by the caller.
- `analysis.dfy` — the method, property and node descriptors, the member
  filters, and `AnalyseSpec`/`BuildProperties`: the whole recursive analysis as
  a function of the value and the counter, with the lemmas that it uses exactly
  the ids `next .. next + CountIds(v)` and that every node it creates holds the
  discovered surface of its own value.
- `repository.dfy` — the class `JavascriptObjectRepository` (the id map and the
  root list) with the shared `IdCounter`, the imperative operations proved
  against `AnalyseSpec`, and the three dispatch operations.

Modelling decisions:

- Nodes (`JavascriptObject`) are values of the datatype `JsNode` stored in the
  `objects` map under their id. The root list and a property's child node refer
  to nodes by id, so the sharing of one node object between the dictionary, the
  root list and a parent property is kept as sharing of one id.
- The static `lastId` is a separate `IdCounter` object passed to each
  repository's constructor. Dafny has no mutable static fields, so giving every
  repository of a process the same counter is up to the code that builds them;
  `RegisterBeside` and `TwoRepositories` prove that repositories sharing one
  counter never hand out the same id.
- `Analyse`'s method loop, its property loop and the body of the property loop
  are written as three methods (`AnalyseMethods`, `AnalyseProperties`,
  `AnalyseProperty`) that `Analyse` calls in the source's order; the updates
  they make are the source's, one by one.
- `CreateJavaScriptProperty` takes the child id as an argument; in the source
  the child is assigned right after the descriptor is built (line 135).
- `IsComplexType` (line 162) suggests that only complex properties were meant
  to get a child node, but the code gives one, with its own id, to **every**
  retained property, including primitive and string ones (lines 134-137); the
  flag decides nothing. The model follows the code, and
  `PrimitivePropertyGetsChild` shows it on an object with one `int` property.
- `Register` checks neither that the name is non-empty nor that the value is
  non-null (lines 34-44); the model accepts both.

## Model

| member | source | states |
|---|---|---|
| `Naming.LowercaseFirst` | CefSharp/Internals/JavascriptObjectRepository.cs:167-175 | a null or empty name gives ""; otherwise the result has the same length, its first character is the lower-cased first character and every later character is unchanged |
| `Naming.LowercaseFirstIdempotent` | CefSharp/Internals/JavascriptObjectRepository.cs:167-175 | deriving the JavaScript name of a derived name gives the same name |
| `Naming.LowercaseFirstExamples` | CefSharp/Internals/JavascriptObjectRepository.cs:167-175 | null and "" give "", "X" gives "x", "1x" stays "1x", "FooBar" gives "fooBar" |
| `Naming.ToLowerCharIdempotent` | CefSharp/Internals/JavascriptObjectRepository.cs:174 | the character lower-casing used by `LowercaseFirst` is idempotent |
| `Analysis.CreateJavaScriptMethod` | CefSharp/Internals/JavascriptObjectRepository.cs:142-151 | the descriptor keeps the reflected name as its managed name and binds the reflected method as its function; its JavaScript name is `LowercaseFirst` of the managed name, so it has the same length as the managed name and is already in lower-first form |
| `Analysis.CreateJavaScriptProperty` | CefSharp/Internals/JavascriptObjectRepository.cs:153-165 | the descriptor keeps the reflected name as its managed name and the reflected property as its getter and setter; its JavaScript name is `LowercaseFirst` of the managed name, so it has the same length and is in lower-first form; it is complex exactly when the declared type is neither primitive nor `System.String`; its child is the given node id (line 135) |
| `Analysis.MethodRetained` | CefSharp/Internals/JavascriptObjectRepository.cs:115-121 | the method exclusion rule: a method is kept unless it is special-named or returns `System.Type` |
| `Analysis.PropertyRetained` | CefSharp/Internals/JavascriptObjectRepository.cs:127-132 | the property exclusion rule: a property is kept unless it is special-named or of type `System.Type` |
| `Analysis.RetainedMethodsExactly` | CefSharp/Internals/JavascriptObjectRepository.cs:115-121 | the kept methods are exactly the enumerated ones that are not special-named and do not return `System.Type`, each kept as many times as it was enumerated, no more than were enumerated |
| `Analysis.RetainedPropertiesExactly` | CefSharp/Internals/JavascriptObjectRepository.cs:127-132 | the kept properties are exactly the enumerated ones that are not special-named and not of type `System.Type`, each kept as many times as it was enumerated |
| `Analysis.MethodsStep` | CefSharp/Internals/JavascriptObjectRepository.cs:115-125 | proof step for the loop invariant of `AnalyseMethods`: one more enumerated method appends its descriptor exactly when it is retained |
| `Analysis.PropertiesStep` | CefSharp/Internals/JavascriptObjectRepository.cs:127-139 | proof step for the loop invariant of `AnalyseProperties`: one more enumerated property changes nothing when it is filtered out; otherwise it takes the next id for its child, analyses the child's value from the following id, and appends its descriptor |
| `Analysis.AnalyseSpecIds` | CefSharp/Internals/JavascriptObjectRepository.cs:102-140 | analysing a value advances the counter by exactly the number of retained properties in its whole value tree, creates nodes under exactly the ids consumed, each node under its own id; the property descriptors' children are consumed ids, strictly increasing in enumeration order, so no two properties share a child |
| `Analysis.BuildPropertiesIds` | CefSharp/Internals/JavascriptObjectRepository.cs:127-139 | the property loop consumes one id per retained property plus the ids of each child's analysis, and creates exactly those nodes; each appended descriptor's child is a fresh id from that range, later properties getting larger ids |
| `Analysis.AnalyseSpecDescribes` | CefSharp/Internals/JavascriptObjectRepository.cs:102-140 | null, primitive and string values get no members; an object gets exactly its retained methods in order and one descriptor per retained property in order, whose child node holds the property's value; every created child is itself analysed the same way |
| `Analysis.BuildPropertiesDescribes` | CefSharp/Internals/JavascriptObjectRepository.cs:127-139 | the descriptors the property loop appends are those of the retained properties, in order, each with a child node holding the property's value, and every node it creates describes its own value |
| `Analysis.PrimitivePropertyGetsChild` | CefSharp/Internals/JavascriptObjectRepository.cs:134-137 | a primitive-typed property is not complex yet gets its own child node and id, holding the property's value and no members |
| `Repository.FirstIndex` | CefSharp/Internals/JavascriptObjectRepository.cs:55 | `FirstOrDefault`: no result exactly when no element matches; otherwise the first matching element |
| `Repository.FindMethod` | CefSharp/Internals/JavascriptObjectRepository.cs:55 | the method looked up by name is the first one, in list order, whose managed name equals the name exactly; none exactly when no method has that name |
| `Repository.FindProperty` | CefSharp/Internals/JavascriptObjectRepository.cs:74 | the property looked up by name (for get and for set) is the first one whose managed name equals the name exactly; none exactly when no property has that name |
| `Repository.MissingMember` | CefSharp/Internals/JavascriptObjectRepository.cs:56-59 | the exception a dispatch to a missing member raises (lines 58, 77, 95): a null reference exactly when the node's value is null, since the message asks the value for its type; otherwise a "not found" error naming the member kind, the name and the value's runtime type |
| `Repository.IdCounter.constructor` | CefSharp/Internals/JavascriptObjectRepository.cs:10 | the process-wide id counter starts at 0 |
| `Repository.RegisterBeside` | CefSharp/Internals/JavascriptObjectRepository.cs:10-44 | because `lastId` is static, a registration in one repository leaves another repository on the same counter unchanged and allocates no id that it holds |
| `Repository.TwoRepositories` | CefSharp/Internals/JavascriptObjectRepository.cs:10-44 | two repositories of one process, each with one registered object, hold disjoint sets of ids |
| `Repository.JavascriptObjectRepository.constructor` | CefSharp/Internals/JavascriptObjectRepository.cs:13-19 | a new repository has no nodes and an empty root list, and uses the counter it is given |
| `Repository.JavascriptObjectRepository.CreateJavascriptObject` | CefSharp/Internals/JavascriptObjectRepository.cs:21-32 | the new node's id is the counter's old value, which no stored node has; the counter grows by exactly one; the map gains that node and every other entry is unchanged |
| `Repository.JavascriptObjectRepository.Register` | CefSharp/Internals/JavascriptObjectRepository.cs:34-44 | appends exactly one id to the root list; that node is stored with the given name, value and `LowercaseFirst(name)` and holds the analysis of the value; the counter grows by 1 plus the retained properties of the whole value tree; old nodes are unchanged and new ones have fresh ids; every node keeps describing its value |
| `Repository.JavascriptObjectRepository.Analyse` | CefSharp/Internals/JavascriptObjectRepository.cs:102-140 | the node's descriptors grow by, and the map by the nodes of, the functional analysis of its value, and the counter ends where that analysis ends |
| `Repository.JavascriptObjectRepository.AnalyseMethods` | CefSharp/Internals/JavascriptObjectRepository.cs:115-125 | the node's methods grow by the descriptors of the retained methods, in order, and nothing else changes |
| `Repository.JavascriptObjectRepository.AnalyseProperties` | CefSharp/Internals/JavascriptObjectRepository.cs:127-139 | the node's properties, the map and the counter change as the functional property loop says |
| `Repository.JavascriptObjectRepository.AnalyseProperty` | CefSharp/Internals/JavascriptObjectRepository.cs:129-138 | a filtered-out property changes nothing; a retained one gets a child under the next id holding its value and that value's analysis, and its descriptor is appended to the parent |
| `Repository.JavascriptObjectRepository.TryCallMethod` | CefSharp/Internals/JavascriptObjectRepository.cs:46-63 | `false` exactly for an unknown id; throws exactly when the id is known and no method has the name (a null reference fault when the value is null); otherwise invokes the first method of that name on the node's value with the arguments and returns its result; changes no state |
| `Repository.JavascriptObjectRepository.TryGetProperty` | CefSharp/Internals/JavascriptObjectRepository.cs:65-82 | `false` exactly for an unknown id; throws exactly when the id is known and no property has the name; otherwise returns the getter of the first property of that name applied to the node's value; changes no state |
| `Repository.JavascriptObjectRepository.TrySetProperty` | CefSharp/Internals/JavascriptObjectRepository.cs:84-100 | `false` exactly for an unknown id; throws exactly when the id is known and no property has the name; otherwise calls the setter of the first property of that name on the node's value with the new value; changes no registry state |

## Left out

- Reflection itself (`GetMethods`, `GetProperties`, `MethodInfo.Invoke`, `PropertyInfo.GetValue`/`SetValue`): replaced by the `HostValue` datatype, whose object values list their members, and by invoker and getter functions the caller supplies.
- The effect of a property setter on the host object: the host heap is not modelled, so `TrySetProperty` returns the setter call it makes (accessor, target, value) instead of performing it.
- Exceptions raised by an invoked method, getter or setter: the repository neither catches nor translates them (reflection wraps them in `TargetInvocationException`); here the invoker and getter are total.
- A property getter that throws while `Register` analyses a value (an indexer property, whose `GetValue(o, null)` fails, is one case): in the source this leaves a half-registered node, stored in `objects` with the counter advanced but absent from the root list; here every property value is read successfully at analysis time.
- The `lock` around the counter increment and all thread-safety questions: the increment is one atomic step.
- Repository.JavascriptObjectRepository.constructor: takes the counter as an argument, because Dafny has no mutable static fields; that every repository of a process receives the same counter is the caller's obligation, and a repository built on a fresh `IdCounter` hands out ids from 0 again, which the static field rules out.
- Overflow of the 64-bit `lastId` after 2^63 ids: the counter is an unbounded integer.
- The text of the exception messages (`string.Format`) and the exact exception types: a missing member is a `MemberNotFound` fault carrying the member kind, the name and the value's type name, or a `NullReference` fault when the node's value is null.
- Culture-sensitive `char.ToLower`: ASCII lower-casing stands in for it.
- Cyclic or unbounded object graphs: host values are finite trees, so `Analyse` terminates by structure; the source has no guard and does not terminate on a cycle or on an unbounded chain of values (a public `DateTime` property, whose `Date` property is again a `DateTime`, is one).
- Per-type versus per-instance members: a property record carries the instance's value at analysis time, so the descriptors of one property on two instances of one type hold different accessor records; in the source both share one reflected `PropertyInfo`.
- `DisposableResource` teardown: its base class is not part of this model.
- `JavascriptRootObject`, `JavascriptObject`, `JavascriptMethod` and `JavascriptProperty` are not part of this model as source; their fields are taken from their uses in the repository.
- CefSharp.BrowserSubprocess.Core/JavascriptMethodWrapper.h: V8 binding glue with no logic of its own.
- CefSharp/ConsoleMessageEventArgs.cs: an event-argument record with no behaviour.
