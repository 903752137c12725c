/**
 Guards over caller-supplied JSON: the node-budget walks that bound settings values and
 background-task arguments, and the two searches for live capability handles.
 */
module JsonBounds {
  import opened Json

  /** How long a string and an object key may be. */
  datatype Limits = Limits(stringChars: nat, keyChars: nat)

  const TASK_ARGUMENT_LIMITS := Limits(65_536, 256)
  const MAX_TASK_ARGUMENT_NODES: nat := 4_096

  // ----- What the walk decides, stated without a budget -----

  ghost function NodeCount(v: Value): (n: nat)
    ensures n >= 1
  {
    match v
    case Array(items) => 1 + ItemNodes(items)
    case Object(fields) => 1 + FieldNodes(fields)
    case _ => 1
  }

  ghost function ItemNodes(items: seq<Value>): nat {
    if items == [] then 0 else NodeCount(items[0]) + ItemNodes(items[1..])
  }

  ghost function FieldNodes(fields: seq<Field>): nat {
    if fields == [] then 0 else NodeCount(fields[0].value) + FieldNodes(fields[1..])
  }

  /** Every string and every key, at any depth, is within the limits. */
  ghost predicate AllShort(v: Value, limits: Limits) {
    match v
    case Str(text) => |text| <= limits.stringChars
    case Array(items) => forall i :: 0 <= i < |items| ==> AllShort(items[i], limits)
    case Object(fields) =>
      forall i :: 0 <= i < |fields| ==>
        |fields[i].key| <= limits.keyChars && AllShort(fields[i].value, limits)
    case _ => true
  }

  /**
   The budgeted walk shared by `structured_value_is_bounded` and `bounded_json`, which differ
   only in the constants they take as limits and budget: `nodes` is the mutable budget,
   `rest` what is left of it. It accepts exactly the values whose total node count fits the
   budget and whose strings and keys are all short.
   */
  method BoundedWalk(v: Value, limits: Limits, nodes: nat) returns (ok: bool, rest: nat)
    ensures ok <==> NodeCount(v) <= nodes && AllShort(v, limits)
    ensures ok ==> rest == nodes - NodeCount(v)
    ensures rest <= nodes
    decreases v
  {
    if nodes == 0 {
      return false, nodes;
    }
    rest := nodes - 1;
    match v {
      case Str(text) => ok := |text| <= limits.stringChars;
      case Array(items) => ok, rest := BoundedItems(items, limits, rest);
      case Object(fields) => ok, rest := BoundedFields(fields, limits, rest);
      case _ => ok := true;
    }
  }

  method BoundedItems(items: seq<Value>, limits: Limits, nodes: nat) returns (ok: bool, rest: nat)
    ensures ok <==> ItemNodes(items) <= nodes && AllShort(Array(items), limits)
    ensures ok ==> rest == nodes - ItemNodes(items)
    ensures rest <= nodes
    decreases items
  {
    rest := nodes;
    var i := 0;
    while i < |items|
      invariant 0 <= i <= |items|
      invariant rest + ItemNodes(items) == nodes + ItemNodes(items[i..])
      invariant rest <= nodes
      invariant forall k :: 0 <= k < i ==> AllShort(items[k], limits)
    {
      assert items[i..][1..] == items[i + 1..];
      ok, rest := BoundedWalk(items[i], limits, rest);
      if !ok {
        return;
      }
      i := i + 1;
    }
    ok := true;
  }

  method BoundedFields(fields: seq<Field>, limits: Limits, nodes: nat) returns (ok: bool, rest: nat)
    ensures ok <==> FieldNodes(fields) <= nodes && AllShort(Object(fields), limits)
    ensures ok ==> rest == nodes - FieldNodes(fields)
    ensures rest <= nodes
    decreases fields
  {
    rest := nodes;
    var i := 0;
    while i < |fields|
      invariant 0 <= i <= |fields|
      invariant rest + FieldNodes(fields) == nodes + FieldNodes(fields[i..])
      invariant rest <= nodes
      invariant forall k :: 0 <= k < i ==>
                  |fields[k].key| <= limits.keyChars && AllShort(fields[k].value, limits)
    {
      assert fields[i..][1..] == fields[i + 1..];
      if |fields[i].key| > limits.keyChars {
        return false, rest;
      }
      ok, rest := BoundedWalk(fields[i].value, limits, rest);
      if !ok {
        return;
      }
      i := i + 1;
    }
    ok := true;
  }

  // ----- Live capability handles -----

  predicate IsHandleKey(key: string) {
    key == "handle_id" || key == "handleId" || key == "session_id" || key == "sessionId"
  }

  /** The runtime's check over a whole value (hapcli-ai-tasks). */
  predicate RuntimeContainsHandle(v: Value) {
    match v
    case Object(fields) =>
      exists i :: 0 <= i < |fields| && (IsHandleKey(fields[i].key) || RuntimeContainsHandle(fields[i].value))
    case Array(items) => exists i :: 0 <= i < |items| && RuntimeContainsHandle(items[i])
    case _ => false
  }

  /** The argument validator's check over an object's fields (hapcli-ai). */
  predicate ArgumentContainsHandle(fields: seq<Field>)
    decreases fields
  {
    exists i :: 0 <= i < |fields| && ArgumentFieldHasHandle(fields[i])
  }

  predicate ArgumentFieldHasHandle(field: Field)
    decreases field
  {
    || IsHandleKey(field.key)
    || (field.value.Object? && ArgumentContainsHandle(field.value.fields))
    || (field.value.Array? &&
        exists j :: 0 <= j < |field.value.items| &&
          field.value.items[j].Object? && ArgumentContainsHandle(field.value.items[j].fields))
  }

  /** One step into a value: by field position or by array position. */
  datatype Hop = Hop(index: nat)

  /** `v` can be followed along `path` down to an object field named `key`. */
  ghost predicate KeyAt(v: Value, path: seq<Hop>, key: string)
    decreases |path|
  {
    && path != []
    && match v
       case Object(fields) =>
         && path[0].index < |fields|
         && if |path| == 1 then fields[path[0].index].key == key
            else KeyAt(fields[path[0].index].value, path[1..], key)
       case Array(items) =>
         path[0].index < |items| && KeyAt(items[path[0].index], path[1..], key)
       case _ => false
  }

  /** An object field of that name occurs somewhere in the value, at any depth. */
  ghost predicate HasKey(v: Value, key: string) {
    exists path :: KeyAt(v, path, key)
  }

  /** A handle key occurs somewhere in the value, at any depth. */
  ghost predicate HandleOccurs(v: Value) {
    HasKey(v, "handle_id") || HasKey(v, "handleId") || HasKey(v, "session_id") || HasKey(v, "sessionId")
  }

  lemma {:induction false} HandleFound(v: Value, path: seq<Hop>, key: string)
    requires KeyAt(v, path, key) && IsHandleKey(key)
    ensures RuntimeContainsHandle(v)
    decreases |path|
  {
    match v
    case Object(fields) =>
      if |path| > 1 {
        HandleFound(fields[path[0].index].value, path[1..], key);
      }
    case Array(items) => HandleFound(items[path[0].index], path[1..], key);
  }

  lemma {:induction false} HandleLocated(v: Value) returns (path: seq<Hop>, key: string)
    requires RuntimeContainsHandle(v)
    ensures KeyAt(v, path, key) && IsHandleKey(key)
  {
    match v
    case Object(fields) =>
      var i :| 0 <= i < |fields| && (IsHandleKey(fields[i].key) || RuntimeContainsHandle(fields[i].value));
      if IsHandleKey(fields[i].key) {
        path, key := [Hop(i)], fields[i].key;
      } else {
        var inner;
        inner, key := HandleLocated(fields[i].value);
        path := [Hop(i)] + inner;
        assert path[1..] == inner;
      }
    case Array(items) =>
      var i :| 0 <= i < |items| && RuntimeContainsHandle(items[i]);
      var inner;
      inner, key := HandleLocated(items[i]);
      path := [Hop(i)] + inner;
      assert path[1..] == inner;
  }

  /** The runtime check is exact: true if and only if a handle key occurs at some depth. */
  lemma RuntimeCheckIsExact(v: Value)
    ensures RuntimeContainsHandle(v) <==>
            HasKey(v, "handle_id") || HasKey(v, "handleId") || HasKey(v, "session_id") || HasKey(v, "sessionId")
    ensures RuntimeContainsHandle(v) <==> HandleOccurs(v)
  {
    if RuntimeContainsHandle(v) {
      var path, key := HandleLocated(v);
      assert HasKey(v, key);
    }
    forall key | HasKey(v, key) && IsHandleKey(key)
      ensures RuntimeContainsHandle(v)
    {
      var path :| KeyAt(v, path, key);
      HandleFound(v, path, key);
    }
  }

  /** Like `KeyAt`, but never stepping from an array directly into an array. */
  ghost predicate KeyReachable(v: Value, path: seq<Hop>, key: string) {
    KeyAt(v, path, key) && NeverArrayToArray(v, path)
  }

  ghost predicate NeverArrayToArray(v: Value, path: seq<Hop>)
    decreases |path|
  {
    path != [] ==>
      match v
      case Object(fields) =>
        path[0].index < |fields| ==> NeverArrayToArray(fields[path[0].index].value, path[1..])
      case Array(items) =>
        path[0].index < |items| ==>
          !items[path[0].index].Array? && NeverArrayToArray(items[path[0].index], path[1..])
      case _ => true
  }

  lemma {:induction false} ReachableHandleFound(fields: seq<Field>, path: seq<Hop>, key: string)
    requires KeyReachable(Object(fields), path, key) && IsHandleKey(key)
    ensures ArgumentContainsHandle(fields)
    decreases |path|
  {
    var field := fields[path[0].index];
    if |path| > 1 {
      assert KeyReachable(field.value, path[1..], key);
      match field.value {
        case Object(inner) => ReachableHandleFound(inner, path[1..], key);
        case Array(items) =>
          var item := items[path[1].index];
          assert path[1..][1..] == path[2..];
          assert KeyReachable(item, path[2..], key);
          ReachableHandleFound(item.fields, path[2..], key);
      }
    }
    assert ArgumentFieldHasHandle(field);
  }

  lemma {:induction false} ReachableHandleLocated(fields: seq<Field>) returns (path: seq<Hop>, key: string)
    requires ArgumentContainsHandle(fields)
    ensures KeyReachable(Object(fields), path, key) && IsHandleKey(key)
    decreases fields
  {
    var i :| 0 <= i < |fields| && ArgumentFieldHasHandle(fields[i]);
    var value := fields[i].value;
    if IsHandleKey(fields[i].key) {
      path, key := [Hop(i)], fields[i].key;
    } else if value.Object? {
      var inner;
      inner, key := ReachableHandleLocated(value.fields);
      path := [Hop(i)] + inner;
      assert path[1..] == inner;
    } else {
      var j :| 0 <= j < |value.items| && value.items[j].Object? && ArgumentContainsHandle(value.items[j].fields);
      var inner;
      inner, key := ReachableHandleLocated(value.items[j].fields);
      var tail := [Hop(j)] + inner;
      assert tail[1..] == inner;
      assert KeyReachable(value, tail, key);
      path := [Hop(i)] + tail;
      assert path[1..] == tail;
    }
  }

  /** The argument-level check is exact too, but only for paths without array-to-array steps. */
  lemma ArgumentCheckIsExact(fields: seq<Field>)
    ensures ArgumentContainsHandle(fields) <==>
            exists path, key :: KeyReachable(Object(fields), path, key)
                                && key in {"handle_id", "handleId", "session_id", "sessionId"}
  {
    if ArgumentContainsHandle(fields) {
      var path, key := ReachableHandleLocated(fields);
      assert key in {"handle_id", "handleId", "session_id", "sessionId"};
    }
    if path, key :| KeyReachable(Object(fields), path, key)
                    && key in {"handle_id", "handleId", "session_id", "sessionId"} {
      ReachableHandleFound(fields, path, key);
    }
  }

  /** Whatever the argument-level check rejects, the runtime check rejects too. */
  lemma {:induction false} ArgumentCheckImpliesRuntimeCheck(fields: seq<Field>)
    requires ArgumentContainsHandle(fields)
    ensures RuntimeContainsHandle(Object(fields))
    decreases fields
  {
    var i :| 0 <= i < |fields| && ArgumentFieldHasHandle(fields[i]);
    var value := fields[i].value;
    if !IsHandleKey(fields[i].key) {
      if value.Object? && ArgumentContainsHandle(value.fields) {
        ArgumentCheckImpliesRuntimeCheck(value.fields);
      } else {
        var j :| 0 <= j < |value.items| && value.items[j].Object? && ArgumentContainsHandle(value.items[j].fields);
        ArgumentCheckImpliesRuntimeCheck(value.items[j].fields);
      }
      assert RuntimeContainsHandle(value);
    }
  }

  /** Nowhere does an array have an array as a direct element. */
  ghost predicate NoArrayInArray(v: Value) {
    match v
    case Array(items) => forall i :: 0 <= i < |items| ==> !items[i].Array? && NoArrayInArray(items[i])
    case Object(fields) => forall i :: 0 <= i < |fields| ==> NoArrayInArray(fields[i].value)
    case _ => true
  }

  /** Without directly nested arrays the two checks agree. */
  lemma {:induction false} ChecksAgreeWithoutNestedArrays(fields: seq<Field>)
    requires NoArrayInArray(Object(fields))
    ensures ArgumentContainsHandle(fields) <==> RuntimeContainsHandle(Object(fields))
    decreases fields
  {
    if ArgumentContainsHandle(fields) {
      ArgumentCheckImpliesRuntimeCheck(fields);
    }
    if RuntimeContainsHandle(Object(fields)) {
      var i :| 0 <= i < |fields| && (IsHandleKey(fields[i].key) || RuntimeContainsHandle(fields[i].value));
      var value := fields[i].value;
      if !IsHandleKey(fields[i].key) {
        match value {
          case Object(inner) => ChecksAgreeWithoutNestedArrays(inner);
          case Array(items) =>
            var j :| 0 <= j < |items| && RuntimeContainsHandle(items[j]);
            assert items[j].Object?;
            ChecksAgreeWithoutNestedArrays(items[j].fields);
        }
      }
      assert ArgumentFieldHasHandle(fields[i]);
    }
  }

  /** With a directly nested array they differ: the argument-level check lets this handle through. */
  lemma NestedArrayHidesHandle()
    ensures var fields := [Field("a", Array([Array([Object([Field("handle_id", Str("h"))])])]))];
            !ArgumentContainsHandle(fields) && RuntimeContainsHandle(Object(fields))
  {
    var leaf := Object([Field("handle_id", Str("h"))]);
    var fields := [Field("a", Array([Array([leaf])]))];
    assert RuntimeContainsHandle(leaf) by {
      assert IsHandleKey(leaf.fields[0].key);
    }
    assert RuntimeContainsHandle(Array([leaf])) by {
      assert Array([leaf]).items[0] == leaf;
    }
    assert RuntimeContainsHandle(fields[0].value) by {
      assert fields[0].value.items[0] == Array([leaf]);
    }
    assert RuntimeContainsHandle(Object(fields)) by {
      assert fields[0].value == Array([Array([leaf])]);
    }
    assert !ArgumentFieldHasHandle(fields[0]);
  }

  /**
   `validate_create_background_task`'s guard over the parsed arguments: bounded, and free
   of the handles the argument-level check can see.
   */
  method TaskArgumentsAccepted(fields: seq<Field>) returns (ok: bool)
    ensures ok <==>
            && NodeCount(Object(fields)) <= 4_096
            && AllShort(Object(fields), Limits(65_536, 256))
            && !exists path, key :: KeyReachable(Object(fields), path, key)
                                    && key in {"handle_id", "handleId", "session_id", "sessionId"}
    ensures ok && NoArrayInArray(Object(fields)) ==> !HandleOccurs(Object(fields))
  {
    var bounded, rest := BoundedWalk(Object(fields), TASK_ARGUMENT_LIMITS, MAX_TASK_ARGUMENT_NODES);
    var handle := ArgumentContainsHandle(fields);
    ok := bounded && !handle;
    ArgumentCheckIsExact(fields);
    RuntimeCheckIsExact(Object(fields));
    if NoArrayInArray(Object(fields)) {
      ChecksAgreeWithoutNestedArrays(fields);
    }
  }
}
