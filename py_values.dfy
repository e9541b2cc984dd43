// The dynamically typed values the controller handles: what YAML and JSON
// decoding produce, the errors Python raises while inspecting them, and the
// few built-in operations the control logic applies to them (truthiness,
// the `in` operator with a string on the left, and subscripting with a
// string key).

module PyValues {

  datatype Option<+T> = None | Some(value: T)

  /** The exceptions the modelled code can raise; the message text is not modelled. */
  datatype Exc =
    | AttributeError
    | KeyError
    | TypeError
    | ValueError
    | IndexError
    | NotImplementedError

  /** The outcome of a Python expression: a value, or a raised exception. */
  datatype Result<+T> = Ok(value: T) | Err(exc: Exc) {
    predicate IsFailure() { Err? }
    function PropagateFailure<U>(): Result<U>
      requires Err?
    {
      Err(exc)
    }
    function Extract(): T
      requires Ok?
    {
      value
    }
  }

  /**
   * A decoded YAML or JSON value. A dict keeps the insertion order of its
   * entries, as a Python dict does; its keys are strings (JSON object keys
   * always are).
   */
  datatype Value =
    | Null
    | Bool(b: bool)
    | Int(i: int)
    | Float(f: real)
    | Str(s: string)
    | List(items: seq<Value>)
    | Dict(entries: seq<(string, Value)>)

  type Entries = seq<(string, Value)>

  /** Python's `bool(v)`. */
  predicate Truthy(v: Value)
  {
    match v
    case Null => false
    case Bool(b) => b
    case Int(i) => i != 0
    case Float(f) => f != 0.0
    case Str(s) => |s| > 0
    case List(items) => |items| > 0
    case Dict(entries) => |entries| > 0
  }

  /** The keys of a dict, in insertion order. */
  function Keys(es: Entries): (ks: seq<string>)
    ensures |ks| == |es|
    ensures forall i :: 0 <= i < |es| ==> ks[i] == es[i].0
  {
    if es == [] then [] else [es[0].0] + Keys(es[1..])
  }

  /** No key occurs twice, as in every Python dict. */
  predicate DistinctKeys(es: Entries)
  {
    forall i, j :: 0 <= i < j < |es| ==> es[i].0 != es[j].0
  }

  /** `d.get(k)` on a dict: the value stored under `k`, if any. */
  function Lookup(es: Entries, k: string): (r: Option<Value>)
    ensures r.None? <==> k !in Keys(es)
    ensures r.Some? ==> exists i :: 0 <= i < |es| && es[i] == (k, r.value)
  {
    if es == [] then None
    else if es[0].0 == k then Some(es[0].1)
    else
      var r := Lookup(es[1..], k);
      assert r.Some? ==> exists i :: 1 <= i < |es| && es[i] == (k, r.value) by {
        if r.Some? {
          var i :| 0 <= i < |es[1..]| && es[1..][i] == (k, r.value);
          assert es[i + 1] == (k, r.value);
        }
      }
      r
  }

  /** In a dict without repeated keys, the entry at position `i` is what a lookup of its key finds. */
  lemma {:induction false} LookupAt(es: Entries, i: nat)
    requires DistinctKeys(es) && i < |es|
    ensures Lookup(es, es[i].0) == Some(es[i].1)
  {
    if i > 0 {
      assert DistinctKeys(es[1..]) by {
        forall a, b | 0 <= a < b < |es[1..]| ensures es[1..][a].0 != es[1..][b].0 {
          assert es[1..][a] == es[a + 1] && es[1..][b] == es[b + 1];
        }
      }
      LookupAt(es[1..], i - 1);
      assert es[1..][i - 1] == es[i];
    }
  }

  /** `d[k] = v` on a dict: an existing key keeps its position, a new one goes last. */
  function Put(es: Entries, k: string, v: Value): (r: Entries)
    ensures k in Keys(es) ==> |r| == |es|
    ensures k !in Keys(es) ==> r == es + [(k, v)]
    ensures forall i :: 0 <= i < |es| ==> r[i].0 == es[i].0
    ensures forall i :: 0 <= i < |es| && es[i].0 != k ==> r[i] == es[i]
  {
    if es == [] then [(k, v)]
    else if es[0].0 == k then [(k, v)] + es[1..]
    else [es[0]] + Put(es[1..], k, v)
  }

  /** Substring test, Python's `k in s` on two strings. */
  predicate IsSubstring(k: string, s: string)
  {
    k <= s || (|s| > 0 && IsSubstring(k, s[1..]))
  }

  /**
   * Python's `k in container` for a string `k`: a key test on a dict, a
   * substring test on a string, an element test on a list; any other
   * container raises TypeError.
   */
  function Contains(container: Value, k: string): (r: Result<bool>)
    ensures container.Dict? ==> r == Ok(k in Keys(container.entries))
    ensures container.Str? ==> r == Ok(IsSubstring(k, container.s))
    ensures container.List? ==> r == Ok(Str(k) in container.items)
    ensures r.Err? <==> !(container.Dict? || container.Str? || container.List?)
  {
    match container
    case Dict(es) => Ok(Lookup(es, k).Some?)
    case Str(s) => Ok(IsSubstring(k, s))
    case List(items) => Ok(Str(k) in items)
    case _ => Err(TypeError)
  }

  /** Python's `container[k]` for a string `k`. */
  function Index(container: Value, k: string): (r: Result<Value>)
    ensures r.Ok? <==> container.Dict? && k in Keys(container.entries)
    ensures r.Ok? ==> Lookup(container.entries, k) == Some(r.value)
    ensures container.Dict? && r.Err? ==> r.exc == KeyError
    ensures !container.Dict? ==> r == Err(TypeError)
  {
    match container
    case Dict(es) =>
      (match Lookup(es, k)
       case Some(v) => Ok(v)
       case None => Err(KeyError))
    case _ => Err(TypeError)
  }
}
