/**
 * Node data as a tree of objects, and the lodash path operations the node
 * panel uses on it: `_.get` and the copy-then-`_.set` of `setNodeDataAt`.
 * A path is a sequence of keys; an array is an object keyed by its indices.
 * Every object or array in node data is an `Obj`, so the leaves are the
 * primitive values only.
 */
module NodeData {
  import opened Wrappers
  import opened Values

  /** A primitive JavaScript value: anything but an object. */
  type Scalar = v: Value | !v.Composite? witness Undefined

  datatype Json = Leaf(value: Scalar) | Obj(fields: map<string, Json>)

  /** `_.get(node, path)`: `None` where the path leads nowhere. A path is followed only
      through objects that hold its next key. */
  function GetAt(node: Json, path: seq<string>): (r: Option<Json>)
    ensures |path| == 0 ==> r == Some(node)
    ensures r.Some? && |path| > 0 ==> node.Obj? && path[0] in node.fields
    decreases |path|
  {
    if |path| == 0 then Some(node)
    else match node
      case Leaf(_) => None
      case Obj(fields) => if path[0] in fields then GetAt(fields[path[0]], path[1..]) else None
  }

  /** `_.get` walks the path key by key: reading `p + q` reads `q` in what `p` leads to. */
  lemma {:induction false} GetAtAppend(node: Json, p: seq<string>, q: seq<string>)
    ensures GetAt(node, p + q) == match GetAt(node, p)
                                  case None => None
                                  case Some(inner) => GetAt(inner, q)
    decreases |p|
  {
    if |p| > 0 {
      assert (p + q)[0] == p[0] && (p + q)[1..] == p[1..] + q;
      if node.Obj? && p[0] in node.fields {
        GetAtAppend(node.fields[p[0]], p[1..], q);
      }
    } else {
      assert p + q == q;
    }
  }

  /** The object `_.set` descends into under `key`: the existing child when it is an object,
      otherwise a new empty one. */
  function ChildObject(fields: map<string, Json>, key: string): (r: Json)
    ensures r.Obj?
    ensures key in fields && fields[key].Obj? ==> r == fields[key]
    ensures !(key in fields && fields[key].Obj?) ==> r == Obj(map[])
  {
    if key in fields && fields[key].Obj? then fields[key] else Obj(map[])
  }

  /** `_.set(node, path, value)` on a copy of `node`. An empty path or a primitive root
      leaves the node as it is; otherwise the root stays an object and gains the first key. */
  function SetAt(node: Json, path: seq<string>, value: Json): (r: Json)
    ensures |path| == 0 || node.Leaf? ==> r == node
    ensures node.Obj? && |path| > 0 ==> r.Obj? && r.fields.Keys == node.fields.Keys + {path[0]}
    decreases |path|
  {
    if |path| == 0 || node.Leaf? then node
    else
      var key := path[0];
      var child := if |path| == 1 then value else SetAt(ChildObject(node.fields, key), path[1..], value);
      Obj(node.fields[key := child])
  }

  /** Two paths that part somewhere: neither is a prefix of the other. */
  predicate Diverge(p: seq<string>, q: seq<string>)
  {
    exists i :: 0 <= i < |p| && i < |q| && p[i] != q[i]
  }

  /** After `setNodeDataAt(path, value)` the node holds `value` at `path`. */
  lemma {:induction false} SetAtThenGet(node: Json, path: seq<string>, value: Json)
    requires node.Obj? && |path| > 0
    ensures GetAt(SetAt(node, path, value), path) == Some(value)
    decreases |path|
  {
    if |path| > 1 {
      SetAtThenGet(ChildObject(node.fields, path[0]), path[1..], value);
    }
  }

  /** ... and is unchanged at every path that parts from `path`. */
  lemma {:induction false} SetAtKeepsOthers(node: Json, path: seq<string>, value: Json, other: seq<string>)
    requires Diverge(path, other)
    ensures GetAt(SetAt(node, path, value), other) == GetAt(node, other)
    decreases |path|
  {
    var i :| 0 <= i < |path| && i < |other| && path[i] != other[i];
    if node.Obj? && path[0] == other[0] {
      assert i > 0;
      assert path[1..][i - 1] != other[1..][i - 1];
      var child := ChildObject(node.fields, path[0]);
      SetAtKeepsOthers(child, path[1..], value, other[1..]);
      if !(path[0] in node.fields && node.fields[path[0]].Obj?) {
        assert |other[1..]| > 0;
      }
    }
  }

  /** `_.get(node, path, "")` read as a checkbox's `checked`: a missing or `undefined` value
      gives the default `""`, which is falsy; an object is truthy. */
  function CheckedAt(node: Json, path: seq<string>): (r: bool)
    ensures GetAt(node, path).None? ==> !r
    ensures GetAt(node, path).Some? && GetAt(node, path).value.Obj? ==> r
    ensures GetAt(node, path).Some? && GetAt(node, path).value.Leaf? ==> (r <==> Truthy(GetAt(node, path).value.value))
  {
    match GetAt(node, path)
    case None => false
    case Some(Leaf(v)) => Truthy(v)
    case Some(Obj(_)) => true
  }
}
