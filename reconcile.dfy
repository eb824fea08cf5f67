/** What the engine stores into the rendered elements: the full reconciliation of the
    `state` setter, the targeted stores of `setStateProperty`, and what a sequence of
    stores leaves in the elements. The loop over the keys of the `state` setter is
    `WriteAll` here (`Core.CoreElement.SetState` calls it); the loops over the
    bindings of one key are `WriteKey` (full pass) and `WriteTargeted`
    (`setStateProperty`). All are proved against the functions of this module. */
module Reconcile {

  import opened JsValues
  import opened Text
  import opened Dom
  import opened StatePath
  import opened Bindings

  /** One store: the property `propName` of `element` receives `value`. */
  datatype Store = Store(element: Element, propName: string, value: Value)

  /** The effect of one store. A property that reads other than undefined is assigned;
      with `skipEqual` (the targeted write) an equal value is not assigned at all.
      Otherwise the attribute of that name is set to the value's string form. */
  function ApplyStore(es: ElemState, name: string, v: Value, skipEqual: bool): ElemState {
    var cur := PropOf(es, name);
    if cur != Undefined then
      if skipEqual && cur == v then es
      else ElemState(es.props[name := v], es.attrs, es.stores + 1)
    else
      ElemState(es.props, es.attrs[AttrName(name) := ToStr(v)], es.stores + 1)
  }

  /** What one store does: the property is assigned when it reads other than
      undefined, and the attribute set otherwise; nothing else changes, and the store
      count stays exactly when the targeted write skips an equal property. */
  lemma ApplyStoreEffect(es: ElemState, name: string, v: Value, skipEqual: bool)
    ensures var r := ApplyStore(es, name, v, skipEqual);
            && (PropOf(es, name) != Undefined ==> PropOf(r, name) == v && r.attrs == es.attrs)
            && (PropOf(es, name) == Undefined ==> r.props == es.props && AttrOf(r, name) == Some(ToStr(v)))
            && (forall p :: p != name ==> PropOf(r, p) == PropOf(es, p))
            && (forall a :: a != AttrName(name) && a in es.attrs ==> a in r.attrs && r.attrs[a] == es.attrs[a])
            && (forall a :: a in r.attrs ==> a in es.attrs || a == AttrName(name))
            && (r.stores == es.stores <==> skipEqual && PropOf(es, name) == v && v != Undefined)
            && (r.stores == es.stores ==> r == es)
  {
  }

  /** What element `e`, holding `es`, holds after the stores, one after the other:
      each store naming `e` acts on what the earlier stores left. */
  function After(es: ElemState, e: Element, ws: seq<Store>, skipEqual: bool): ElemState
    decreases |ws|
  {
    if ws == [] then es
    else
      var pre := After(es, e, ws[..|ws| - 1], skipEqual);
      var w := ws[|ws| - 1];
      if w.element == e then ApplyStore(pre, w.propName, w.value, skipEqual) else pre
  }

  /** The store may change what `name` reads on `e`, as a property or (HTML names being
      case-insensitive) as an attribute. */
  predicate Touches(w: Store, e: Element, name: string) {
    w.element == e && AttrName(w.propName) == AttrName(name)
  }

  /** Replaying a + b is replaying a, then b. */
  lemma {:induction false} AfterConcat(es: ElemState, e: Element, a: seq<Store>, b: seq<Store>, skipEqual: bool)
    ensures After(es, e, a + b, skipEqual) == After(After(es, e, a, skipEqual), e, b, skipEqual)
    decreases |b|
  {
    if b == [] {
      assert a + b == a;
    } else {
      assert (a + b)[..|a + b| - 1] == a + b[..|b| - 1];
      assert (a + b)[|a + b| - 1] == b[|b| - 1];
      AfterConcat(es, e, a, b[..|b| - 1], skipEqual);
    }
  }

  /** An element no store names is left exactly as it was. */
  lemma {:induction false} AfterFrame(es: ElemState, e: Element, ws: seq<Store>, skipEqual: bool)
    requires forall i :: 0 <= i < |ws| ==> ws[i].element != e
    ensures After(es, e, ws, skipEqual) == es
    decreases |ws|
  {
    if ws != [] {
      AfterFrame(es, e, ws[..|ws| - 1], skipEqual);
    }
  }

  /** What `name` reads on `e`, as a property and as an attribute, is kept by stores
      that do not touch it. */
  lemma {:induction false} AfterUntouched(es: ElemState, e: Element, ws: seq<Store>, skipEqual: bool, name: string)
    requires forall i :: 0 <= i < |ws| ==> !Touches(ws[i], e, name)
    ensures PropOf(After(es, e, ws, skipEqual), name) == PropOf(es, name)
    ensures AttrOf(After(es, e, ws, skipEqual), name) == AttrOf(es, name)
    decreases |ws|
  {
    if ws != [] {
      var w := ws[|ws| - 1];
      var pre := After(es, e, ws[..|ws| - 1], skipEqual);
      AfterUntouched(es, e, ws[..|ws| - 1], skipEqual, name);
      assert !Touches(w, e, name);
      if w.element == e {
        ApplyStoreEffect(pre, w.propName, w.value, skipEqual);
        assert AttrName(name) != AttrName(w.propName);
      }
    }
  }

  /** The last store that touches a target decides what it ends up holding: the value
      as the property when the property was defined when that store ran, otherwise its
      string form as the attribute. */
  lemma AfterLastWrite(es: ElemState, ws: seq<Store>, skipEqual: bool, i: nat)
    requires i < |ws|
    requires forall j :: i < j < |ws| ==> !Touches(ws[j], ws[i].element, ws[i].propName)
    ensures var w := ws[i];
            var before := After(es, w.element, ws[..i], skipEqual);
            var after := After(es, w.element, ws, skipEqual);
            if PropOf(before, w.propName) != Undefined then PropOf(after, w.propName) == w.value
            else AttrOf(after, w.propName) == Some(ToStr(w.value))
  {
    var w := ws[i];
    assert ws[..i + 1][..i] == ws[..i];
    var before := After(es, w.element, ws[..i], skipEqual);
    ApplyStoreEffect(before, w.propName, w.value, skipEqual);
    var mid := After(es, w.element, ws[..i + 1], skipEqual);
    var tail := ws[i + 1..];
    assert ws == ws[..i + 1] + tail;
    AfterConcat(es, w.element, ws[..i + 1], tail, skipEqual);
    assert forall j :: 0 <= j < |tail| ==> tail[j] == ws[i + 1 + j];
    AfterUntouched(mid, w.element, tail, skipEqual, w.propName);
  }

  /** Stores the targeted write skips (a defined property already equal to the value)
      leave the element as it was, store count included. */
  lemma {:induction false} AfterSkipsEqual(es: ElemState, e: Element, ws: seq<Store>)
    requires forall i :: 0 <= i < |ws| && ws[i].element == e ==>
               PropOf(es, ws[i].propName) == ws[i].value != Undefined
    ensures After(es, e, ws, true) == es
    decreases |ws|
  {
    if ws != [] {
      AfterSkipsEqual(es, e, ws[..|ws| - 1]);
    }
  }

  /** One store per binding, all with the same value, in binding order. */
  function StoresOf(bs: seq<Binding>, v: Value): (ws: seq<Store>)
    ensures |ws| == |bs|
    ensures forall i :: 0 <= i < |bs| ==> ws[i] == Store(bs[i].element, bs[i].propName, v)
  {
    seq(|bs|, i requires 0 <= i < |bs| => Store(bs[i].element, bs[i].propName, v))
  }

  /** One binding more, one store more. */
  lemma StoresOfPrefix(bs: seq<Binding>, v: Value, j: nat)
    requires j < |bs|
    ensures StoresOf(bs[..j + 1], v) == StoresOf(bs[..j], v) + [Store(bs[j].element, bs[j].propName, v)]
  {
    assert bs[..j + 1][..j] == bs[..j];
  }

  /** The stores of one binding more: the element of that binding receives one store
      more, and every other element is as it was. */
  lemma AfterStoresStep(bs: seq<Binding>, v: Value, j: nat, skipEqual: bool)
    requires j < |bs|
    ensures forall es, e {:trigger After(es, e, StoresOf(bs[..j + 1], v), skipEqual)} ::
              After(es, e, StoresOf(bs[..j + 1], v), skipEqual)
              == if bs[j].element == e then ApplyStore(After(es, e, StoresOf(bs[..j], v), skipEqual), bs[j].propName, v, skipEqual)
                 else After(es, e, StoresOf(bs[..j], v), skipEqual)
  {
    StoresOfPrefix(bs, v, j);
    assert (StoresOf(bs[..j], v) + [Store(bs[j].element, bs[j].propName, v)])[..j] == StoresOf(bs[..j], v);
  }

  /** The split of a key into path steps. */
  function Steps(key: string): seq<string> {
    Split(key, '.')
  }

  /** The stores a pass makes, and the TypeError that ended it, if one did. */
  datatype Plan = Plan(stores: seq<Store>, fault: Option<Fault>)

  /** What each key of `keys` resolves to in the state `s`, by position. The pass
      below is stated for any such resolutions `rs`, and `FullPlan` instantiates it
      with these. */
  function ResolveAll(s: Value, keys: seq<string>): (rs: seq<Result<Value>>)
    ensures |rs| == |keys|
    ensures forall i :: 0 <= i < |keys| ==> rs[i] == Resolve(s, Steps(keys[i]))
    decreases |keys|
  {
    if keys == [] then [] else ResolveAll(s, keys[..|keys| - 1]) + [Resolve(s, Steps(keys[|keys| - 1]))]
  }

  /** One key of the full reconciliation, whose path resolves to `res`: every binding
      under it receives the resolved value. The path is resolved for each binding, so
      a key whose path throws throws at its first binding; a key with no bindings
      resolves nothing. */
  function KeyPlan(res: Result<Value>, bs: seq<Binding>): Plan {
    if bs == [] then Plan([], None)
    else
      match res
      case Err(f) => Plan([], Some(f))
      case Ok(v) => Plan(StoresOf(bs, v), None)
  }

  /** The first n keys of the enumeration order, in that order, stopping at the first
      key that throws. Stores already made are not undone. */
  function Reconciliation(rs: seq<Result<Value>>, idx: Index, n: nat): Plan
    requires n <= |idx.order| == |rs|
    decreases n
  {
    if n == 0 then Plan([], None)
    else
      var pre := Reconciliation(rs, idx, n - 1);
      if pre.fault.Some? then pre
      else
        var key := idx.order[n - 1];
        var kp := KeyPlan(rs[n - 1], Entry(idx, key));
        Plan(pre.stores + kp.stores, kp.fault)
  }

  /** One key more: its plan is appended, and its fault is the pass's. */
  lemma ReconciliationStep(rs: seq<Result<Value>>, idx: Index, k: nat)
    requires k < |idx.order| == |rs|
    requires Reconciliation(rs, idx, k).fault.None?
    ensures var kp := KeyPlan(rs[k], Entry(idx, idx.order[k]));
            Reconciliation(rs, idx, k + 1) == Plan(Reconciliation(rs, idx, k).stores + kp.stores, kp.fault)
  {
  }

  /** Once a key throws, the keys after it are never reached. */
  lemma {:induction false} ReconciliationSticks(rs: seq<Result<Value>>, idx: Index, n: nat, m: nat)
    requires n <= m <= |idx.order| == |rs|
    requires Reconciliation(rs, idx, n).fault.Some?
    ensures Reconciliation(rs, idx, m) == Reconciliation(rs, idx, n)
    decreases m - n
  {
    if n < m {
      ReconciliationSticks(rs, idx, n, m - 1);
    }
  }

  /** The completion of a pass: normal, or the TypeError that ended it. */
  function PlanOutcome(p: Plan): (r: Outcome)
    ensures r.Pass? <==> p.fault.None?
    ensures r.Fail? ==> r.fault == p.fault.value
  {
    if p.fault.Some? then Fail(p.fault.value) else Pass
  }

  /** The whole `for ... in` over the index, each key's path resolved in `s`. */
  function FullPlan(s: Value, idx: Index): Plan {
    Reconciliation(ResolveAll(s, idx.order), idx, |idx.order|)
  }

  /** A key that throws: it has bindings and its path does not resolve. */
  predicate Throws(rs: seq<Result<Value>>, idx: Index, m: nat)
    requires m < |idx.order| == |rs|
  {
    Entry(idx, idx.order[m]) != [] && rs[m].Err?
  }

  /** The pass throws exactly when one of the keys it reaches throws. */
  lemma {:induction false} ReconciliationFaultIff(rs: seq<Result<Value>>, idx: Index, n: nat)
    requires n <= |idx.order| == |rs|
    ensures Reconciliation(rs, idx, n).fault.Some? <==> exists m :: 0 <= m < n && Throws(rs, idx, m)
    decreases n
  {
    if n > 0 {
      ReconciliationFaultIff(rs, idx, n - 1);
      if Throws(rs, idx, n - 1) {
        assert exists m :: 0 <= m < n && Throws(rs, idx, m);
      } else if exists m :: 0 <= m < n && Throws(rs, idx, m) {
        var m :| 0 <= m < n && Throws(rs, idx, m);
        assert m < n - 1;
      }
    }
  }

  /** A key that does not throw stores its resolved value into each of its bindings,
      in order, and stores nothing else. */
  lemma KeyPlanStores(res: Result<Value>, bs: seq<Binding>)
    requires KeyPlan(res, bs).fault.None?
    ensures var ws := KeyPlan(res, bs).stores;
            && |ws| == |bs|
            && (bs != [] ==> res.Ok?)
            && forall j :: 0 <= j < |bs| ==> ws[j] == Store(bs[j].element, bs[j].propName, res.value)
  {
  }

  /** With no throw, every binding under every key reached receives that key's
      resolved value. */
  lemma {:induction false} ReconciliationWritesEvery(rs: seq<Result<Value>>, idx: Index, n: nat, m: nat, j: nat)
    requires m < n <= |idx.order| == |rs|
    requires j < |Entry(idx, idx.order[m])|
    requires Reconciliation(rs, idx, n).fault.None?
    ensures rs[m].Ok?
    ensures var b := Entry(idx, idx.order[m])[j];
            Store(b.element, b.propName, rs[m].value) in Reconciliation(rs, idx, n).stores
    decreases n
  {
    var pre := Reconciliation(rs, idx, n - 1);
    var key := idx.order[n - 1];
    var kp := KeyPlan(rs[n - 1], Entry(idx, key));
    assert Reconciliation(rs, idx, n).stores == pre.stores + kp.stores;
    if m < n - 1 {
      ReconciliationWritesEvery(rs, idx, n - 1, m, j);
    } else {
      KeyPlanStores(rs[n - 1], Entry(idx, key));
      assert kp.stores[j] in kp.stores;
    }
  }

  /** A key's stores are those of its bindings, with its resolved value. */
  lemma KeyPlanOnly(res: Result<Value>, bs: seq<Binding>, j: nat)
    requires j < |KeyPlan(res, bs).stores|
    ensures var w := KeyPlan(res, bs).stores[j];
            && j < |bs| && bs[j] == Binding(w.element, w.propName) && res == Ok(w.value)
  {
  }

  /** Every store of the pass belongs to a binding of some key reached, and carries
      that key's resolved value: nothing else is written. */
  lemma {:induction false} ReconciliationOnlyBindings(rs: seq<Result<Value>>, idx: Index, n: nat, i: nat)
    requires n <= |idx.order| == |rs|
    requires i < |Reconciliation(rs, idx, n).stores|
    ensures var w := Reconciliation(rs, idx, n).stores[i];
            exists m :: 0 <= m < n && Binding(w.element, w.propName) in Entry(idx, idx.order[m])
                        && rs[m] == Ok(w.value)
    decreases n
  {
    var pre := Reconciliation(rs, idx, n - 1);
    var w := Reconciliation(rs, idx, n).stores[i];
    if i < |pre.stores| {
      assert w == pre.stores[i];
      ReconciliationOnlyBindings(rs, idx, n - 1, i);
      var m :| 0 <= m < n - 1 && Binding(w.element, w.propName) in Entry(idx, idx.order[m])
               && rs[m] == Ok(w.value);
      assert 0 <= m < n;
    } else {
      var key := idx.order[n - 1];
      var bs := Entry(idx, key);
      var j := i - |pre.stores|;
      assert w == KeyPlan(rs[n - 1], bs).stores[j];
      KeyPlanOnly(rs[n - 1], bs, j);
      assert bs[j] in bs;
      assert 0 <= n - 1 < n && Binding(w.element, w.propName) in Entry(idx, idx.order[n - 1]);
    }
  }

  /** One store of the `state` setter: `el[name] = v` when the property reads other
      than undefined, `el.setAttribute(name, v)` otherwise. */
  method StoreValue(el: Element, name: string, v: Value)
    modifies el
    ensures el.State() == ApplyStore(old(el.State()), name, v, false)
  {
    if name in el.props && el.props[name] != Undefined {
      el.SetProperty(name, v);
    } else {
      el.SetAttribute(name, ToStr(v));
    }
  }

  /** One store of `setStateProperty`: as `StoreValue`, except that a defined
      property already holding `v` is not assigned. */
  method StoreChanged(el: Element, name: string, v: Value)
    modifies el
    ensures el.State() == ApplyStore(old(el.State()), name, v, true)
  {
    if name in el.props && el.props[name] != Undefined {
      if el.props[name] != v {
        el.SetProperty(name, v);
      }
    } else {
      el.SetAttribute(name, ToStr(v));
    }
  }

  /** The inner `forEach` of the `state` setter: every binding under `key` receives
      the value the key's path resolves to in `s`, the path being walked again for
      each binding. */
  method WriteKey(s: Value, key: string, bs: seq<Binding>, ghost targets: set<Element>) returns (r: Outcome)
    requires forall i :: 0 <= i < |bs| ==> bs[i].element in targets
    modifies targets
    ensures var kp := KeyPlan(Resolve(s, Steps(key)), bs);
            && r == PlanOutcome(kp)
            && forall e :: e in targets ==> e.State() == After(old(e.State()), e, kp.stores, false)
  {
    ghost var res := Resolve(s, Steps(key));
    ghost var gv := if res.Ok? then res.value else Undefined;
    var j := 0;
    assert bs[..0] == [];
    while j < |bs|
      invariant 0 <= j <= |bs|
      invariant j > 0 ==> res.Ok?
      invariant forall e :: e in targets ==> e.State() == After(old(e.State()), e, StoresOf(bs[..j], gv), false)
    {
      var b := bs[j];
      var v := ResolveWalk(s, Split(key, '.'));
      if v.Err? {
        return Fail(v.fault);
      }
      var el := b.element;
      AfterStoresStep(bs, gv, j, false);
      StoreValue(el, b.propName, v.value);
      j := j + 1;
    }
    assert bs[..j] == bs;
    r := Pass;
  }

  /** The `forEach` of `setStateProperty`: every binding under the path receives the
      value, except that a defined property already equal to it is left alone. */
  method WriteTargeted(bs: seq<Binding>, v: Value, ghost targets: set<Element>)
    requires forall i :: 0 <= i < |bs| ==> bs[i].element in targets
    modifies targets
    ensures forall e :: e in targets ==> e.State() == After(old(e.State()), e, StoresOf(bs, v), true)
  {
    var j := 0;
    assert bs[..0] == [];
    while j < |bs|
      invariant 0 <= j <= |bs|
      invariant forall e :: e in targets ==> e.State() == After(old(e.State()), e, StoresOf(bs[..j], v), true)
    {
      var b := bs[j];
      var el := b.element;
      AfterStoresStep(bs, v, j, true);
      StoreChanged(el, b.propName, v);
      j := j + 1;
    }
    assert bs[..j] == bs;
  }

  /** The pass after k keys without a throw, one key on: either it goes on without a
      throw, or that key's throw is the outcome of the whole pass. */
  lemma KeyStep(rs: seq<Result<Value>>, idx: Index, k: nat, done: seq<Store>)
    requires k < |idx.order| == |rs| && Reconciliation(rs, idx, k) == Plan(done, None)
    ensures var kp := KeyPlan(rs[k], Entry(idx, idx.order[k]));
            && (kp.fault.None? ==> Reconciliation(rs, idx, k + 1) == Plan(done + kp.stores, None))
            && (kp.fault.Some? ==> Reconciliation(rs, idx, |idx.order|) == Plan(done + kp.stores, kp.fault))
  {
    ReconciliationStep(rs, idx, k);
    if KeyPlan(rs[k], Entry(idx, idx.order[k])).fault.Some? {
      ReconciliationSticks(rs, idx, k + 1, |idx.order|);
    }
  }

  /** The outer `for … in` of the `state` setter: the keys of the index in enumeration
      order, each written by `WriteKey`; the first key whose path throws ends the pass,
      the stores made before it staying in place. */
  method WriteAll(s: Value, idx: Index, ghost targets: set<Element>) returns (r: Outcome)
    requires forall key, i :: key in idx.entries && 0 <= i < |idx.entries[key]| ==> idx.entries[key][i].element in targets
    modifies targets
    ensures var plan := FullPlan(s, idx);
            && r == PlanOutcome(plan)
            && forall e :: e in targets ==> e.State() == After(old(e.State()), e, plan.stores, false)
  {
    var k := 0;
    ghost var done: seq<Store> := [];
    ghost var rs := ResolveAll(s, idx.order);
    while k < |idx.order|
      invariant 0 <= k <= |idx.order|
      invariant Reconciliation(rs, idx, k) == Plan(done, None)
      invariant forall e :: e in targets ==> e.State() == After(old(e.State()), e, done, false)
    {
      var key := idx.order[k];
      ghost var kp := KeyPlan(Resolve(s, Steps(key)), Entry(idx, key));
      assert rs[k] == Resolve(s, Steps(key));
      KeyStep(rs, idx, k, done);
      r := WriteKey(s, key, Entry(idx, key), targets);
      forall e | e in targets
        ensures e.State() == After(old(e.State()), e, done + kp.stores, false)
      {
        AfterConcat(old(e.State()), e, done, kp.stores, false);
      }
      done := done + kp.stores;
      if r.Fail? {
        return;
      }
      k := k + 1;
    }
    r := Pass;
  }
}
