/**
 * Property lookup on a plain JavaScript object parsed from JSON, as the
 * handlers index the `tests` and `submissions` documents with `obj[id]`.
 * Besides its own keys, such an object answers for the names it inherits
 * from `Object.prototype`, whose values are functions and so are truthy.
 */
module PlainObject {

  /** The data properties every plain object inherits (the `__proto__` accessor is left out). */
  const InheritedNames: set<string> := {
    "constructor", "hasOwnProperty", "isPrototypeOf", "propertyIsEnumerable",
    "toLocaleString", "toString", "valueOf",
    "__defineGetter__", "__defineSetter__", "__lookupGetter__", "__lookupSetter__"
  }

  /** What `obj[key]` yields: an own value, an inherited function, or `undefined`. */
  datatype Property<V> = Own(value: V) | Inherited | Undefined

  function Lookup<V>(m: map<string, V>, key: string): (p: Property<V>)
    ensures p.Own? <==> key in m
    ensures p.Own? ==> p.value == m[key]
    ensures p.Undefined? <==> key !in m && key !in InheritedNames
  {
    if key in m then Own(m[key])
    else if key in InheritedNames then Inherited
    else Undefined
  }

  /** Stored tests and lists are objects and arrays, and inherited values are functions: all truthy. */
  predicate Truthy<V>(p: Property<V>) {
    !p.Undefined?
  }
}
