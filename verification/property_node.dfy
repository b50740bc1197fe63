/**
 The immutable IR node for one property of an object literal
 (`PropertyNode`): its fields, the copy-on-change setters, the key-name
 query and the visitor traversal.

 Java object identity is made explicit. Every node and expression carries
 an `id`; two references are the same object exactly when the values are
 equal. A setter that has to copy takes the id of the new node from its
 caller, which must not reuse the old node's id.
 */
module PropertyNodes {

  import opened Wrappers

  /** An expression; `propertyName` is present when it is a `PropertyKey` (an identifier, string or number literal). */
  datatype Expression = Expression(id: nat, propertyName: Option<string>)

  /** A function literal used as an accessor. */
  datatype FunctionNode = FunctionNode(id: nat)

  datatype PropertyNode = PropertyNode(
    id: nat,                      // object identity
    token: int, finish: int,      // source position, shared by every copy
    key: Expression,
    value: Option<Expression>,    // null when the property is an accessor
    getter: Option<FunctionNode>,
    setter: Option<FunctionNode>,
    isStatic: bool,
    computed: bool)

  /** `b` is a copy of `a`: same position, flags and fields, under a new identity. */
  predicate CopyOf(a: PropertyNode, b: PropertyNode)
  {
    b.id != a.id && b.token == a.token && b.finish == a.finish &&
    b.isStatic == a.isStatic && b.computed == a.computed
  }

  /** `getKeyName()`: the key's name, or null for a computed key or a key that is not a `PropertyKey`. */
  function GetKeyName(n: PropertyNode): (name: Option<string>)
    ensures name.Some? <==> !n.computed && n.key.propertyName.Some?
    ensures name.Some? ==> name == n.key.propertyName
  {
    if !n.computed && n.key.propertyName.Some? then n.key.propertyName else None
  }

  /**
   The key name follows the key: replacing the key gives the new key's name
   (unless the key is computed), and replacing the value or an accessor
   leaves the name as it was.
   */
  lemma KeyNameFollowsKey(n: PropertyNode, k: Expression, v: Option<Expression>,
                          g: Option<FunctionNode>, s: Option<FunctionNode>, freshId: nat)
    requires freshId != n.id
    ensures GetKeyName(SetKey(n, k, freshId)) == (if n.computed then None else k.propertyName)
    ensures GetKeyName(SetValue(n, v, freshId)) == GetKeyName(n)
    ensures GetKeyName(SetGetter(n, g, freshId)) == GetKeyName(n)
    ensures GetKeyName(SetSetter(n, s, freshId)) == GetKeyName(n)
  {
  }

  // ---------------------------------------------------------------------
  // Setters
  // ---------------------------------------------------------------------

  /** `setKey(key)`: the same node when the key is the same object, else a copy with only the key replaced. */
  function SetKey(n: PropertyNode, key: Expression, freshId: nat): (m: PropertyNode)
    requires freshId != n.id
    ensures key == n.key ==> m == n
    ensures key != n.key ==> CopyOf(n, m) && m.id == freshId
    ensures m.key == key && m.value == n.value && m.getter == n.getter && m.setter == n.setter
  {
    if n.key == key then n else n.(id := freshId, key := key)
  }

  /** `setValue(value)`: the same node when the value is the same object (or both null), else a copy. */
  function SetValue(n: PropertyNode, value: Option<Expression>, freshId: nat): (m: PropertyNode)
    requires freshId != n.id
    ensures value == n.value ==> m == n
    ensures value != n.value ==> CopyOf(n, m) && m.id == freshId
    ensures m.value == value && m.key == n.key && m.getter == n.getter && m.setter == n.setter
  {
    if n.value == value then n else n.(id := freshId, value := value)
  }

  /** `setGetter(getter)` */
  function SetGetter(n: PropertyNode, getter: Option<FunctionNode>, freshId: nat): (m: PropertyNode)
    requires freshId != n.id
    ensures getter == n.getter ==> m == n
    ensures getter != n.getter ==> CopyOf(n, m) && m.id == freshId
    ensures m.getter == getter && m.key == n.key && m.value == n.value && m.setter == n.setter
  {
    if n.getter == getter then n else n.(id := freshId, getter := getter)
  }

  /** `setSetter(setter)` */
  function SetSetter(n: PropertyNode, setter: Option<FunctionNode>, freshId: nat): (m: PropertyNode)
    requires freshId != n.id
    ensures setter == n.setter ==> m == n
    ensures setter != n.setter ==> CopyOf(n, m) && m.id == freshId
    ensures m.setter == setter && m.key == n.key && m.value == n.value && m.getter == n.getter
  {
    if n.setter == setter then n else n.(id := freshId, setter := setter)
  }

  /** Setting a field to what a setter just stored returns that very node. */
  lemma SettersIdempotent(n: PropertyNode, k: Expression, v: Option<Expression>, g: Option<FunctionNode>,
                          s: Option<FunctionNode>, fresh1: nat, fresh2: nat)
    requires fresh1 != n.id && fresh2 != n.id && fresh2 != fresh1
    ensures SetKey(SetKey(n, k, fresh1), k, fresh2) == SetKey(n, k, fresh1)
    ensures SetValue(SetValue(n, v, fresh1), v, fresh2) == SetValue(n, v, fresh1)
    ensures SetGetter(SetGetter(n, g, fresh1), g, fresh2) == SetGetter(n, g, fresh1)
    ensures SetSetter(SetSetter(n, s, fresh1), s, fresh2) == SetSetter(n, s, fresh1)
  {
  }

  /** Setting back the old value after a change gives a node equal to the original in everything but identity. */
  lemma SetterUndo(n: PropertyNode, v: Option<Expression>, fresh1: nat, fresh2: nat)
    requires fresh1 != n.id && fresh2 != fresh1 && v != n.value
    ensures SetValue(SetValue(n, v, fresh1), n.value, fresh2) == n.(id := fresh2)
  {
  }

  // ---------------------------------------------------------------------
  // Traversal
  // ---------------------------------------------------------------------

  /**
   A node visitor as `accept` uses it: whether to enter the node, what a
   child becomes after its own traversal, and what `leavePropertyNode`
   makes of the rebuilt node. The visitor is stateless, so the order in
   which a visitor with state would see the children is not modelled.
   */
  datatype Visitor = Visitor(
    enter: PropertyNode -> bool,
    visitExpression: Expression -> Expression,
    visitFunction: FunctionNode -> FunctionNode,
    leave: PropertyNode -> PropertyNode)

  /**
   The node `accept` hands to `leavePropertyNode`: each child replaced by
   its visited form, a null child left null, and each replacement made
   through the setter (so unchanged children keep the node). The setters run
   for key, value, getter and setter in turn; the copies they make take ids
   `nextId`, `nextId + 1`, ...
   */
  function Rebuild(n: PropertyNode, v: Visitor, nextId: nat): (m: PropertyNode)
    requires n.id < nextId
    ensures m.key == v.visitExpression(n.key)
    ensures m.value == (if n.value.None? then None else Some(v.visitExpression(n.value.value)))
    ensures m.getter == (if n.getter.None? then None else Some(v.visitFunction(n.getter.value)))
    ensures m.setter == (if n.setter.None? then None else Some(v.visitFunction(n.setter.value)))
    ensures m.token == n.token && m.finish == n.finish && m.isStatic == n.isStatic && m.computed == n.computed
  {
    var n1 := SetKey(n, v.visitExpression(n.key), nextId);
    var n2 := SetValue(n1, if n.value.None? then None else Some(v.visitExpression(n.value.value)), nextId + 1);
    var n3 := SetGetter(n2, if n.getter.None? then None else Some(v.visitFunction(n.getter.value)), nextId + 2);
    SetSetter(n3, if n.setter.None? then None else Some(v.visitFunction(n.setter.value)), nextId + 3)
  }

  /** `accept(visitor)`: a visitor that declines to enter gets the node back untouched. */
  function Accept(n: PropertyNode, v: Visitor, nextId: nat): (m: PropertyNode)
    requires n.id < nextId
    ensures !v.enter(n) ==> m == n
    ensures v.enter(n) ==> m == v.leave(Rebuild(n, v, nextId))
  {
    if v.enter(n) then v.leave(Rebuild(n, v, nextId)) else n
  }

  /** A traversal whose children all come back as the same objects rebuilds the very same node. */
  lemma RebuildUnchangedChildren(n: PropertyNode, v: Visitor, nextId: nat)
    requires n.id < nextId
    requires v.visitExpression(n.key) == n.key
    requires n.value.Some? ==> v.visitExpression(n.value.value) == n.value.value
    requires n.getter.Some? ==> v.visitFunction(n.getter.value) == n.getter.value
    requires n.setter.Some? ==> v.visitFunction(n.setter.value) == n.setter.value
    ensures Rebuild(n, v, nextId) == n
  {
    var m := Rebuild(n, v, nextId);
    assert m.key == n.key && m.value == n.value && m.getter == n.getter && m.setter == n.setter;
    var n1 := SetKey(n, v.visitExpression(n.key), nextId);
    var n2 := SetValue(n1, if n.value.None? then None else Some(v.visitExpression(n.value.value)), nextId + 1);
    var n3 := SetGetter(n2, if n.getter.None? then None else Some(v.visitFunction(n.getter.value)), nextId + 2);
    assert n1 == n && n2 == n && n3 == n;
  }
}
