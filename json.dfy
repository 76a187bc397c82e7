/**
 * A decoded JSON document, and the few Python operations the toolkit applies
 * to one: `d.get(key, default)`, `d.items()`, `key in container` and
 * `container[key]` with a string key, and `str(v)`.
 */
module Json {
  import opened Wrappers
  import opened Text

  /**
   * Objects keep their members in insertion order, as a Python dict does.
   * Numbers are integers only.
   */
  datatype Json =
    | JNull
    | JBool(b: bool)
    | JNum(n: int)
    | JStr(s: string)
    | JArr(items: seq<Json>)
    | JObj(fields: seq<(string, Json)>)

  /** The Python exceptions these operations raise on a value of the wrong kind. */
  datatype PyError = AttributeError | TypeError | KeyError

  /** Some member of `fields` has the key `key`. */
  predicate HasKey(fields: seq<(string, Json)>, key: string) {
    exists i :: 0 <= i < |fields| && fields[i].0 == key
  }

  /** Member `i` is the first member of `fields` with the key `key`. */
  predicate FirstAt(fields: seq<(string, Json)>, key: string, i: int) {
    && 0 <= i < |fields| && fields[i].0 == key
    && forall j :: 0 <= j < i ==> fields[j].0 != key
  }

  /** The value stored under `key`; a Python dict holds each key once, so the first match is the match. */
  function Lookup(fields: seq<(string, Json)>, key: string): Option<Json> {
    if fields == [] then None
    else if fields[0].0 == key then Some(fields[0].1)
    else Lookup(fields[1..], key)
  }

  /** `Lookup` finds a key exactly when some member has it, and returns that member's value. */
  lemma {:induction false} LookupFinds(fields: seq<(string, Json)>, key: string)
    ensures Lookup(fields, key).None? <==> forall i :: 0 <= i < |fields| ==> fields[i].0 != key
    ensures Lookup(fields, key).Some? ==> exists i :: 0 <= i < |fields| && fields[i] == (key, Lookup(fields, key).value)
  {
    if fields != [] && fields[0].0 != key {
      LookupFinds(fields[1..], key);
      if Lookup(fields, key).Some? {
        var i :| 0 <= i < |fields[1..]| && fields[1..][i] == (key, Lookup(fields, key).value);
        assert fields[i + 1] == fields[1..][i];
      }
    }
  }

  /** `Lookup` gives the value of the first member with the key. */
  lemma {:induction false} LookupFirst(fields: seq<(string, Json)>, key: string, i: int)
    requires FirstAt(fields, key, i)
    ensures Lookup(fields, key) == Some(fields[i].1)
  {
    if i > 0 {
      assert FirstAt(fields[1..], key, i - 1);
      LookupFirst(fields[1..], key, i - 1);
    }
  }

  /** `d.get(key, default)`: only a dict has `get`. */
  function Get(d: Json, key: string, default: Json): Result<Json, PyError> {
    match d
    case JObj(fields) => Ok(match Lookup(fields, key) case Some(v) => v case None => default)
    case _ => Err(AttributeError)
  }

  /**
   * What `d.get(key, default)` gives, by member position: `AttributeError`
   * for anything but a dict; for a dict, `default` when no member has the
   * key, and otherwise the value of the first member with the key.
   */
  lemma GetByPosition(d: Json, key: string, default: Json)
    ensures !d.JObj? ==> Get(d, key, default) == Err(AttributeError)
    ensures d.JObj? && !HasKey(d.fields, key) ==> Get(d, key, default) == Ok(default)
    ensures forall i :: d.JObj? && FirstAt(d.fields, key, i) ==> Get(d, key, default) == Ok(d.fields[i].1)
  {
    if d.JObj? {
      LookupFinds(d.fields, key);
      forall i | FirstAt(d.fields, key, i) ensures Get(d, key, default) == Ok(d.fields[i].1) {
        LookupFirst(d.fields, key, i);
      }
    }
  }

  /** `d.items()`: only a dict has `items`; the members come in insertion order. */
  function Items(d: Json): Result<seq<(string, Json)>, PyError> {
    if d.JObj? then Ok(d.fields) else Err(AttributeError)
  }

  /**
   * `key in container`: a key of a dict, an element of a list, a substring of
   * a string; None, booleans and numbers are not iterable.
   */
  function In(key: string, container: Json): Result<bool, PyError> {
    match container
    case JObj(fields) => Ok(Lookup(fields, key).Some?)
    case JArr(items) => Ok(JStr(key) in items)
    case JStr(s) => Ok(Contains(s, key))
    case _ => Err(TypeError)
  }

  /**
   * What `key in container` means: some member of a dict has the key, some
   * element of a list equals the string, or the key occurs in a string at
   * some offset; anything else raises `TypeError`.
   */
  lemma InMeaning(key: string, container: Json)
    ensures !(container.JObj? || container.JArr? || container.JStr?) ==> In(key, container) == Err(TypeError)
    ensures container.JObj? ==> In(key, container) == Ok(HasKey(container.fields, key))
    ensures container.JArr? ==>
      In(key, container) == Ok(exists i :: 0 <= i < |container.items| && container.items[i] == JStr(key))
    ensures container.JStr? ==> In(key, container) == Ok(exists i :: OccursAt(container.s, key, i))
  {
    match container
    case JObj(fields) => LookupFinds(fields, key);
    case JStr(s) => ContainsAt(s, key);
    case _ =>
  }

  /** `container[key]`: only a dict can be indexed by a string key. */
  function Index(container: Json, key: string): Result<Json, PyError> {
    match container
    case JObj(fields) => (match Lookup(fields, key) case Some(v) => Ok(v) case None => Err(KeyError))
    case _ => Err(TypeError)
  }

  /**
   * What `container[key]` gives, by member position: `TypeError` for
   * anything but a dict (a list or a string cannot be indexed by a string);
   * for a dict, `KeyError` when no member has the key, and otherwise the
   * value of the first member with the key.
   */
  lemma IndexByPosition(container: Json, key: string)
    ensures !container.JObj? ==> Index(container, key) == Err(TypeError)
    ensures container.JObj? && !HasKey(container.fields, key) ==> Index(container, key) == Err(KeyError)
    ensures forall i :: container.JObj? && FirstAt(container.fields, key, i) ==> Index(container, key) == Ok(container.fields[i].1)
  {
    if container.JObj? {
      LookupFinds(container.fields, key);
      forall i | FirstAt(container.fields, key, i) ensures Index(container, key) == Ok(container.fields[i].1) {
        LookupFirst(container.fields, key, i);
      }
    }
  }

  /** `str(v)`, which an f-string uses to interpolate a value: a string as it is, anything else as its `repr`. */
  function Display(v: Json): string {
    match v
    case JStr(s) => s
    case _ => Repr(v)
  }

  /** `repr(v)`: how a value is written inside a list or dict. */
  function Repr(v: Json): string
    decreases v, 1
  {
    match v
    case JNull => "None"
    case JBool(b) => if b then "True" else "False"
    case JNum(n) => IntToString(n)
    case JStr(s) => "'" + s + "'"
    case JArr(items) =>
      "[" + Join(", ", seq(|items|, i requires 0 <= i < |items| => Repr(items[i]))) + "]"
    case JObj(fields) =>
      "{" + Join(", ", seq(|fields|, i requires 0 <= i < |fields| =>
                             "'" + fields[i].0 + "': " + Repr(fields[i].1))) + "}"
  }
}
