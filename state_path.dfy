/** Paths through the nested state: reading the value a dotted path names (the walk in
    the `state` setter) and storing a value at a path (the walk in `setStateProperty`). */
module StatePath {

  import opened JsValues

  /** `value = value[step]` for every step in turn. Throws as soon as a step reads
      through undefined or null. */
  function Resolve(v: Value, path: seq<string>): Result<Value>
    decreases |path|
  {
    if path == [] then Ok(v)
    else
      match Get(v, path[0])
      case Err(f) => Err(f)
      case Ok(w) => Resolve(w, path[1..])
  }

  /** The state after `parent[last] = x`, where `parent` is reached by reading all
      steps but the last. Throws when a read meets undefined or null, or when `parent`
      is not an object (class bodies are strict code, so a store into a primitive
      throws instead of being dropped). */
  function Assign(v: Value, path: seq<string>, x: Value): Result<Value>
    requires |path| >= 1
    decreases |path|
  {
    if |path| == 1 then
      match v
      case Obj(m) => Ok(Obj(m[path[0] := x]))
      case Undefined => Err(WriteToNullish(path[0]))
      case Null => Err(WriteToNullish(path[0]))
      case _ => Err(WriteToPrimitive(path[0]))
    else
      match v
      case Undefined => Err(ReadOfNullish(path[0]))
      case Null => Err(ReadOfNullish(path[0]))
      case Obj(m) =>
        var child := if path[0] in m then m[path[0]] else Undefined;
        (match Assign(child, path[1..], x)
         case Ok(c) => Ok(Obj(m[path[0] := c]))
         case Err(f) => Err(f))
      case _ => Assign(Undefined, path[1..], x)
  }

  /** Neither path is a prefix of the other: they part at some step. */
  predicate Diverge(p: seq<string>, q: seq<string>)
    decreases |p|
  {
    |p| > 0 && |q| > 0 && (p[0] != q[0] || Diverge(p[1..], q[1..]))
  }

  /** Reading along p + q is reading along p, then along q from where p ended. */
  lemma {:induction false} ResolveConcat(v: Value, p: seq<string>, q: seq<string>)
    ensures Resolve(v, p + q) == match Resolve(v, p)
                                 case Ok(w) => Resolve(w, q)
                                 case Err(f) => Err(f)
    decreases |p|
  {
    if p == [] {
      assert p + q == q;
    } else {
      assert (p + q)[0] == p[0] && (p + q)[1..] == p[1..] + q;
      match Get(v, p[0])
      case Err(f) =>
      case Ok(w) => ResolveConcat(w, p[1..], q);
    }
  }

  /** The store succeeds exactly when the walk to the parent succeeds and ends on an
      object. */
  lemma {:induction false} AssignSucceedsIff(v: Value, p: seq<string>, x: Value)
    requires |p| >= 1
    ensures Assign(v, p, x).Ok?
            <==> Resolve(v, p[..|p| - 1]).Ok? && Resolve(v, p[..|p| - 1]).value.Obj?
    decreases |p|
  {
    var n := |p|;
    if n == 1 {
      assert p[..0] == [];
    } else {
      assert p[..n - 1][0] == p[0];
      assert p[..n - 1][1..] == p[1..][..n - 2];
      match v
      case Undefined =>
      case Null =>
      case Obj(m) =>
        var child := if p[0] in m then m[p[0]] else Undefined;
        AssignSucceedsIff(child, p[1..], x);
      case _ =>
        AssignSucceedsIff(Undefined, p[1..], x);
    }
  }

  /** How the store throws: with the read fault of the walk to the parent, or, when
      the parent is reached but is not an object, with a write fault naming the last
      step. */
  lemma {:induction false} AssignFaults(v: Value, p: seq<string>, x: Value)
    requires |p| >= 1
    ensures var walk := Resolve(v, p[..|p| - 1]);
            && (walk.Err? ==> Assign(v, p, x) == Err(walk.fault))
            && (walk.Ok? && walk.value.IsNullish() ==> Assign(v, p, x) == Err(WriteToNullish(p[|p| - 1])))
            && (walk.Ok? && !walk.value.IsNullish() && !walk.value.Obj? ==>
                  Assign(v, p, x) == Err(WriteToPrimitive(p[|p| - 1])))
    decreases |p|
  {
    var n := |p|;
    if n == 1 {
      assert p[..0] == [];
    } else {
      assert p[..n - 1][0] == p[0];
      assert p[..n - 1][1..] == p[1..][..n - 2];
      assert p[1..][n - 2] == p[n - 1];
      match v
      case Undefined =>
      case Null =>
      case Obj(m) =>
        var child := if p[0] in m then m[p[0]] else Undefined;
        AssignFaults(child, p[1..], x);
      case _ =>
        AssignFaults(Undefined, p[1..], x);
    }
  }

  /** After a successful store, the path reads back the stored value. */
  lemma {:induction false} AssignThenResolve(v: Value, p: seq<string>, x: Value)
    requires |p| >= 1
    ensures Assign(v, p, x).Ok? ==> Resolve(Assign(v, p, x).value, p) == Ok(x)
    decreases |p|
  {
    if |p| > 1 {
      if v.Obj? {
        var m := v.fields;
        var child := if p[0] in m then m[p[0]] else Undefined;
        AssignThenResolve(child, p[1..], x);
      } else if !v.IsNullish() {
        AssignSucceedsIff(Undefined, p[1..], x);
        if |p| > 2 { assert p[1..][..|p| - 2][0] == p[1]; }
      }
    }
  }

  /** After a successful store, any path that parts from p reads what it read before:
      every other leaf is unchanged. */
  lemma {:induction false} AssignFrame(v: Value, p: seq<string>, x: Value, q: seq<string>)
    requires |p| >= 1 && Diverge(p, q)
    ensures Assign(v, p, x).Ok? ==> Resolve(Assign(v, p, x).value, q) == Resolve(v, q)
    decreases |p|
  {
    if |p| == 1 {
      assert p[0] != q[0];
    } else if v.Obj? {
      var m := v.fields;
      var child := if p[0] in m then m[p[0]] else Undefined;
      if p[0] == q[0] {
        AssignFrame(child, p[1..], x, q[1..]);
      }
    } else if !v.IsNullish() {
      AssignSucceedsIff(Undefined, p[1..], x);
      if |p| > 2 { assert p[1..][..|p| - 2][0] == p[1]; }
    }
  }

  /** After a successful store, paths below p read from the stored value. */
  lemma AssignBelow(v: Value, p: seq<string>, x: Value, t: seq<string>)
    requires |p| >= 1
    ensures Assign(v, p, x).Ok? ==> Resolve(Assign(v, p, x).value, p + t) == Resolve(x, t)
  {
    if Assign(v, p, x).Ok? {
      ResolveConcat(Assign(v, p, x).value, p, t);
      AssignThenResolve(v, p, x);
    }
  }

  /** The resolution loop of the `state` setter: reassigns `value` once per step. */
  method ResolveWalk(root: Value, path: seq<string>) returns (r: Result<Value>)
    ensures r == Resolve(root, path)
  {
    var value := root;
    var i := 0;
    while i < |path|
      invariant 0 <= i <= |path|
      invariant Resolve(root, path) == Resolve(value, path[i..])
    {
      assert path[i..][0] == path[i] && path[i..][1..] == path[i + 1..];
      var next := Get(value, path[i]);
      if next.Err? {
        return Err(next.fault);
      }
      value := next.value;
      i := i + 1;
    }
    assert path[i..] == [];
    r := Ok(value);
  }
}
