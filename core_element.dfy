/** The `CoreElement` base class of core-element, its per-class (static) side, the
    shared template map, and the parts of `window` the engine talks to: timers, events
    and the custom-element registry. */
module Core {

  import opened JsValues
  import opened Text
  import opened Dom
  import opened StatePath
  import opened Bindings
  import opened Reconcile
  import opened Timers
  import opened Bus

  /** What a timer callback does when it fires. */
  datatype Task =
    | WriteLater(target: CoreElement, path: string, value: Value)  // `setStatePropertyLater`
    | Reactivate(target: CoreElement)                              // end of the bus suppression
    | DefineTag(name: string, cls: ComponentType)                  // the `is` setter
    | WhenConnected(target: CoreElement)                           // end of `connectedCallback`

  /** A bind handler: the closure one `connectedCallback` of `owner` creates. Every
      call creates a new closure, told apart by `serial`. */
  datatype Listener = Listener(owner: CoreElement, serial: nat)

  /** A `CustomEvent` the window dispatched: its type and its `detail`. */
  datatype Event = Event(channel: string, dispatcher: CoreElement, value: Value)

  /** The listeners of one channel, in the order they were added. */
  function ListenersOn(listeners: map<string, seq<Listener>>, channel: string): seq<Listener> {
    if channel in listeners then listeners[channel] else []
  }

  /** The instances behind a list of listeners, one per listener. */
  function OwnersOf(ls: seq<Listener>): (os: seq<CoreElement>)
    ensures |os| == |ls|
    ensures forall i :: 0 <= i < |ls| ==> os[i] == ls[i].owner
  {
    seq(|ls|, i requires 0 <= i < |ls| => ls[i].owner)
  }

  /** The list without the given listener (`removeEventListener`). */
  function Without(ls: seq<Listener>, l: Listener): (r: seq<Listener>)
    ensures forall i :: 0 <= i < |r| ==> r[i] != l && r[i] in ls
    ensures forall i :: 0 <= i < |ls| && ls[i] != l ==> ls[i] in r
    decreases |ls|
  {
    if ls == [] then []
    else
      var rest := Without(ls[..|ls| - 1], l);
      assert forall i :: 0 <= i < |ls| - 1 ==> ls[..|ls| - 1][i] == ls[i];
      if ls[|ls| - 1] == l then rest else rest + [ls[|ls| - 1]]
  }

  /** Order: removing from consecutive parts of a listener list gives consecutive
      results, so the listeners that stay keep their order. */
  lemma {:induction false} WithoutConcat(a: seq<Listener>, b: seq<Listener>, l: Listener)
    ensures Without(a + b, l) == Without(a, l) + Without(b, l)
    decreases |b|
  {
    if b == [] {
      assert a + b == a;
    } else {
      var b' := b[..|b| - 1];
      var x := b[|b| - 1];
      assert (a + b)[..|a + b| - 1] == a + b';
      assert (a + b)[|a + b| - 1] == x;
      WithoutConcat(a, b', l);
      if x != l {
        assert Without(a, l) + Without(b', l) + [x] == Without(a, l) + (Without(b', l) + [x]);
      }
    }
  }

  /** One listener is dropped exactly when it is the one removed. */
  lemma WithoutOne(x: Listener, l: Listener)
    ensures Without([x], l) == if x == l then [] else [x]
  {
    assert [x][..0] == [];
  }

  /** The window: its timer queue, its event listeners, the events it dispatched, and
      `customElements`. */
  class Window {
    var queue: seq<Timer<Task>>
    var nextId: nat
    var listeners: map<string, seq<Listener>>
    var closures: nat
    var log: seq<Event>
    var defined: map<string, ComponentType>

    ghost predicate Valid()
      reads this
    {
      QueueValid(queue, nextId)
    }

    constructor ()
      ensures Valid()
      ensures queue == [] && listeners == map[] && log == [] && defined == map[]
      ensures nextId == 1 && closures == 0
    {
      queue := [];
      nextId := 1;
      listeners := map[];
      closures := 0;
      log := [];
      defined := map[];
    }

    /** The instances listening on a channel. */
    ghost function Owners(channel: string): set<CoreElement>
      reads this`listeners
    {
      set l | l in ListenersOn(listeners, channel) :: l.owner
    }

    /** `setTimeout(callback)`: queued last under a fresh id. */
    method SetTimeout(task: Task) returns (id: nat)
      modifies this`queue, this`nextId
      ensures id == old(nextId)
      ensures queue == old(queue) + [Timer(id, task)] && nextId == old(nextId) + 1
    {
      id := nextId;
      queue := queue + [Timer(id, task)];
      nextId := nextId + 1;
    }

    /** `clearTimeout(id)`. */
    method ClearTimeout(id: nat)
      requires Valid()
      modifies this`queue
      ensures Valid()
      ensures queue == Cancel(old(queue), id)
    {
      CancelValid(queue, nextId, id);
      queue := Cancel(queue, id);
    }

    /** A fresh bind-handler closure for `owner`. */
    method NewClosure(owner: CoreElement) returns (l: Listener)
      modifies this`closures
      ensures l == Listener(owner, old(closures)) && closures == old(closures) + 1
    {
      l := Listener(owner, closures);
      closures := closures + 1;
    }

    /** `addEventListener(channel, l)`: a listener already on the channel is not added
      twice. */
    method AddEventListener(channel: string, l: Listener)
      modifies this`listeners
      ensures listeners == old(listeners)[channel := if l in ListenersOn(old(listeners), channel)
                                                     then ListenersOn(old(listeners), channel)
                                                     else ListenersOn(old(listeners), channel) + [l]]
    {
      var ls := ListenersOn(listeners, channel);
      if l !in ls {
        ls := ls + [l];
      }
      listeners := listeners[channel := ls];
    }

    /** `removeEventListener(channel, l)`. */
    method RemoveEventListener(channel: string, l: Listener)
      modifies this`listeners
      ensures channel in old(listeners) ==> listeners == old(listeners)[channel := Without(old(listeners)[channel], l)]
      ensures channel !in old(listeners) ==> listeners == old(listeners)
    {
      if channel in listeners {
        listeners := listeners[channel := Without(listeners[channel], l)];
      }
    }

    /** The oldest callback leaves the queue to run. */
    method PopTimer() returns (t: Option<Task>)
      requires Valid()
      modifies this`queue
      ensures Valid()
      ensures old(queue) == [] ==> t == None && queue == []
      ensures old(queue) != [] ==> t == Some(old(queue)[0].task) && queue == old(queue)[1..]
    {
      if queue == [] {
        return None;
      }
      t := Some(queue[0].task);
      assert forall i :: 0 <= i < |queue| - 1 ==> queue[1..][i] == queue[i + 1];
      queue := queue[1..];
    }

    /** `dispatchEvent(new CustomEvent(channel, {detail: {dispatcher, value}}))`: the
      event is logged, then the listeners of the channel, as they were when the
      dispatch began, are called in order. The instances end as the receive rule
      `Bus.Deliver` says, and one reactivation is queued per instance that acted, in
      the order they acted. */
    method Dispatch(channel: string, sender: CoreElement, v: Value, ghost owners: set<CoreElement>)
      requires Valid()
      requires forall l :: l in ListenersOn(listeners, channel) ==> l.owner in owners
      modifies this`log, this`queue, this`nextId, owners`bindActive, owners`props
      ensures Valid()
      ensures log == old(log) + [Event(channel, sender, v)]
      ensures var peers, os := old(PeersOf(owners)), OwnersOf(ListenersOn(listeners, channel));
              && (forall o {:trigger o.BusView()} :: o in owners ==> o.BusView() == Received(peers, os, sender, v, o))
              && queue == old(queue) + Reactivations(old(nextId), Receivers(peers, os, sender, v))
              && nextId == old(nextId) + |Receivers(peers, os, sender, v)|
    {
      var ls := ListenersOn(listeners, channel);
      ghost var peers := PeersOf(owners);
      log := log + [Event(channel, sender, v)];
      assert PeersOf(owners) == peers;
      CallListeners(ls, sender, v, owners);
      ReactivationsValid(old(queue), old(nextId), Receivers<CoreElement>(peers, OwnersOf(ls), sender, v));
    }

    /** The listeners `ls` called in order with the message: each instance acts as
      the reference rule says, and one reactivation is queued per receiver. */
    method CallListeners(ls: seq<Listener>, sender: CoreElement, v: Value, ghost owners: set<CoreElement>)
      requires forall i :: 0 <= i < |ls| ==> ls[i].owner in owners
      modifies this`queue, this`nextId, owners`bindActive, owners`props
      ensures var peers, os := old(PeersOf(owners)), OwnersOf(ls);
              && (forall o {:trigger o.BusView()} :: o in owners ==> o.BusView() == Received(peers, os, sender, v, o))
              && queue == old(queue) + Reactivations(old(nextId), Receivers(peers, os, sender, v))
              && nextId == old(nextId) + |Receivers(peers, os, sender, v)|
    {
      ghost var os := OwnersOf(ls);
      ghost var peers := PeersOf(owners);
      var i := 0;
      while i < |ls|
        invariant 0 <= i <= |ls|
        invariant forall o {:trigger o.BusView()} :: o in owners ==>
                    o.BusView() == Received<CoreElement>(peers, os[..i], sender, v, o)
        invariant queue == old(queue) + Reactivations(old(nextId), Receivers<CoreElement>(peers, os[..i], sender, v))
        invariant nextId == old(nextId) + |Receivers<CoreElement>(peers, os[..i], sender, v)|
      {
        var o := ls[i].owner;
        assert o in owners && os[i] == o;
        assert os[..i + 1] == os[..i] + [o];
        ReceivedOthers<CoreElement>(peers, os[..i], sender, v, o);
        Offer(o, sender, v, peers, os[..i], old(queue), old(nextId));
        i := i + 1;
      }
      assert os[..i] == os;
    }

    /** One listener of the dispatch called: its instance handles the message. */
    method Offer(o: CoreElement, sender: CoreElement, v: Value, ghost peers: map<CoreElement, Peer>,
                 ghost done: seq<CoreElement>, ghost q0: seq<Timer<Task>>, ghost first: nat)
      requires o in peers && o.BusView() == Received(peers, done, sender, v, o)
      requires queue == q0 + Reactivations(first, Receivers(peers, done, sender, v))
      requires nextId == first + |Receivers(peers, done, sender, v)|
      modifies this`queue, this`nextId, o`bindActive, o`props
      ensures o.BusView() == Received(peers, done + [o], sender, v, o)
      ensures queue == q0 + Reactivations(first, Receivers(peers, done + [o], sender, v))
      ensures nextId == first + |Receivers(peers, done + [o], sender, v)|
    {
      ghost var pre := Receivers(peers, done, sender, v);
      ReceiversMember(peers, done, sender, v, o);
      assert (done + [o])[..|done|] == done;
      var acted := o.Handle(this, sender, v);
      ReactivationsStep(first, pre, o);
      if acted {
        assert q0 + Reactivations(first, pre + [o]) == (q0 + Reactivations(first, pre)) + [Timer(first + |pre|, Reactivate(o))];
      }
    }

    /** `customElements.define(name, cls)`: refused when the name or the class is
      already registered. */
    method Define(name: string, cls: ComponentType) returns (r: Outcome)
      modifies this`defined
      ensures var taken := name in old(defined) || cls in old(defined).Values;
              && (taken ==> r == Fail(AlreadyDefined(name)) && defined == old(defined))
              && (!taken ==> r == Pass && defined == old(defined)[name := cls])
    {
      if name in defined || cls in defined.Values {
        return Fail(AlreadyDefined(name));
      }
      defined := defined[name := cls];
      return Pass;
    }
  }

  /** `getAttribute(name)` on an instance, for a name already in lower case: absent
      (null) and empty both read as "", the two falsy answers. */
  function HostAttr(attrs: map<string, string>, name: string): string {
    if name in attrs then attrs[name] else ""
  }

  /** What the receive rule sees of each listening instance. */
  ghost function PeersOf(os: set<CoreElement>): (m: map<CoreElement, Peer>)
    reads os
    ensures m.Keys == os
  {
    map o | o in os :: o.BusView()
  }

  /** The reactivation callbacks queued for the instances that acted, in turn, from
      the id `first` on. */
  function Reactivations(first: nat, rs: seq<CoreElement>): (q: seq<Timer<Task>>)
    ensures |q| == |rs|
    ensures forall i :: 0 <= i < |rs| ==> q[i] == Timer(first + i, Reactivate(rs[i]))
    decreases |rs|
  {
    if rs == [] then [] else Reactivations(first, rs[..|rs| - 1]) + [Timer(first + |rs| - 1, Reactivate(rs[|rs| - 1]))]
  }

  /** Queued under the ids `first`, `first + 1`, ..., the reactivations keep a well
      formed queue well formed. */
  lemma {:induction false} ReactivationsValid(q: seq<Timer<Task>>, first: nat, rs: seq<CoreElement>)
    requires QueueValid(q, first)
    ensures QueueValid(q + Reactivations(first, rs), first + |rs|)
    decreases |rs|
  {
    if rs != [] {
      var init := rs[..|rs| - 1];
      ReactivationsValid(q, first, init);
      ScheduleValid(q + Reactivations(first, init), first + |init|, Reactivate(rs[|rs| - 1]));
      assert q + Reactivations(first, rs) == q + Reactivations(first, init) + [Timer(first + |init|, Reactivate(rs[|rs| - 1]))];
    }
  }

  lemma ReactivationsStep(first: nat, rs: seq<CoreElement>, o: CoreElement)
    ensures Reactivations(first, rs + [o]) == Reactivations(first, rs) + [Timer(first + |rs|, Reactivate(o))]
  {
    assert (rs + [o])[..|rs|] == rs;
  }

  /** A pending `setStatePropertyLater` callback of instance `e`. */
  predicate WritesOf(t: Task, e: CoreElement) {
    t.WriteLater? && t.target == e
  }

  /** The deferred writes of `e` still queued, in queue order. */
  function PendingWrites(q: seq<Timer<Task>>, e: CoreElement): seq<Task>
    decreases |q|
  {
    if q == [] then []
    else PendingWrites(q[..|q| - 1], e) + (if WritesOf(q[|q| - 1].task, e) then [q[|q| - 1].task] else [])
  }

  /** Every deferred write of `e` in the queue is under the id `slot`, the one
      `__statePropertyTimeout` holds. */
  ghost predicate OneSlot(q: seq<Timer<Task>>, e: CoreElement, slot: nat) {
    forall i :: 0 <= i < |q| && WritesOf(q[i].task, e) ==> q[i].id == slot
  }

  /** No deferred write of `e` is queued exactly when none is pending. */
  lemma {:induction false} PendingNone(q: seq<Timer<Task>>, e: CoreElement)
    ensures PendingWrites(q, e) == [] <==> forall i :: 0 <= i < |q| ==> !WritesOf(q[i].task, e)
    decreases |q|
  {
    if q != [] {
      var init := q[..|q| - 1];
      PendingNone(init, e);
      assert forall i :: 0 <= i < |init| ==> init[i] == q[i];
    }
  }

  /** Queueing one more callback adds it to the pending writes of `e` exactly when it
      is one of them. */
  lemma PendingAppend(q: seq<Timer<Task>>, t: Timer<Task>, e: CoreElement)
    ensures PendingWrites(q + [t], e) == PendingWrites(q, e) + (if WritesOf(t.task, e) then [t.task] else [])
  {
    assert (q + [t])[..|q|] == q;
  }

  /** Ids are distinct, so the slot holds at most one pending write. */
  lemma {:induction false} SlotHoldsOne(q: seq<Timer<Task>>, nextId: nat, e: CoreElement, slot: nat)
    requires QueueValid(q, nextId) && OneSlot(q, e, slot)
    ensures |PendingWrites(q, e)| <= 1
    decreases |q|
  {
    if q != [] {
      var init := q[..|q| - 1];
      assert forall i :: 0 <= i < |init| ==> init[i] == q[i];
      SlotHoldsOne(init, nextId, e, slot);
      if WritesOf(q[|q| - 1].task, e) {
        PendingNone(init, e);
      }
    }
  }

  /** The pending write that runs first is the first one queued. */
  lemma {:induction false} PendingHead(q: seq<Timer<Task>>, e: CoreElement)
    requires q != [] && WritesOf(q[0].task, e)
    ensures PendingWrites(q, e) != [] && PendingWrites(q, e)[0] == q[0].task
    decreases |q|
  {
    if |q| > 1 {
      var init := q[..|q| - 1];
      assert init[0] == q[0];
      PendingHead(init, e);
    }
  }

  /** One debounced call on a well formed queue whose slot holds every pending write
      of `e`: after the cancel and the new callback under the next id, the new id
      holds every pending write, and the new write is the only one. */
  lemma DebounceStep(q: seq<Timer<Task>>, nextId: nat, e: CoreElement, slot: nat, t: Task)
    requires QueueValid(q, nextId) && OneSlot(q, e, slot) && WritesOf(t, e)
    ensures var q' := (if slot != 0 then Cancel(q, slot) else q) + [Timer(nextId, t)];
            OneSlot(q', e, nextId) && PendingWrites(q', e) == [t]
  {
    var kept := if slot != 0 then Cancel(q, slot) else q;
    forall i | 0 <= i < |kept| ensures !WritesOf(kept[i].task, e) {
      if slot != 0 {
        var j :| 0 <= j < |q| && q[j] == kept[i];
      }
    }
    PendingNone(kept, e);
    PendingAppend(kept, Timer(nextId, t), e);
  }

  /** The whole of one debounced call on the queue: it stays well formed, and
      `DebounceStep` applies when the slot held every pending write. */
  lemma LaterStep(q: seq<Timer<Task>>, nextId: nat, e: CoreElement, slot: nat, t: Task)
    requires QueueValid(q, nextId) && WritesOf(t, e)
    ensures var q' := (if slot != 0 then Cancel(q, slot) else q) + [Timer(nextId, t)];
            && QueueValid(q', nextId + 1)
            && (OneSlot(q, e, slot) ==> OneSlot(q', e, nextId) && PendingWrites(q', e) == [t])
  {
    if slot != 0 {
      CancelValid(q, nextId, slot);
    }
    ScheduleValid(if slot != 0 then Cancel(q, slot) else q, nextId, t);
    if OneSlot(q, e, slot) {
      DebounceStep(q, nextId, e, slot, t);
    }
  }

  /** With no deferred write of `e` queued, the empty slot holds every pending write
      of `e`, and none is pending. */
  lemma NoWritesSlot(q: seq<Timer<Task>>, e: CoreElement)
    requires forall i :: 0 <= i < |q| ==> !WritesOf(q[i].task, e)
    ensures OneSlot(q, e, 0) && PendingWrites(q, e) == []
  {
    PendingNone(q, e);
  }

  /** A new instance, whose `__statePropertyTimeout` is still unset, has no deferred
      write in a queue that existed before it: the single slot holds from the start. */
  twostate lemma FreshInstanceSlot(q: seq<Timer<Task>>, new e: CoreElement)
    requires fresh(e) && old(allocated(q))
    ensures OneSlot(q, e, 0) && PendingWrites(q, e) == []
  {
    forall i | 0 <= i < |q| ensures !WritesOf(q[i].task, e) {
      assert old(allocated(q[i].task));
    }
    NoWritesSlot(q, e);
  }

  /** Queueing a callback that is not a deferred write of `e` (a definition, a
      reactivation, a `whenConnected` call, another instance's deferred write) keeps
      `e`'s slot and its pending writes. */
  lemma SlotAppendOther(q: seq<Timer<Task>>, t: Timer<Task>, e: CoreElement, slot: nat)
    requires OneSlot(q, e, slot) && !WritesOf(t.task, e)
    ensures OneSlot(q + [t], e, slot) && PendingWrites(q + [t], e) == PendingWrites(q, e)
  {
    PendingAppend(q, t, e);
  }

  /** The reactivations a dispatch queues are no deferred writes: they keep `e`'s slot. */
  lemma SlotReactivations(q: seq<Timer<Task>>, first: nat, rs: seq<CoreElement>, e: CoreElement, slot: nat)
    requires OneSlot(q, e, slot)
    ensures OneSlot(q + Reactivations(first, rs), e, slot)
  {
    var q' := q + Reactivations(first, rs);
    forall i | |q| <= i < |q'| ensures !WritesOf(q'[i].task, e) {
      assert q'[i] == Timer(first + (i - |q|), Reactivate(rs[i - |q|]));
    }
  }

  /** A turn of the event loop takes the oldest callback off: the rest keeps `e`'s slot. */
  lemma SlotPop(q: seq<Timer<Task>>, e: CoreElement, slot: nat)
    requires q != [] && OneSlot(q, e, slot)
    ensures OneSlot(q[1..], e, slot)
  {
    forall i | 0 <= i < |q| - 1 && WritesOf(q[1..][i].task, e) ensures q[1..][i].id == slot {
      assert q[1..][i] == q[i + 1];
    }
  }

  /** Cancelling a callback, as another instance's debounced call does, keeps `e`'s slot. */
  lemma SlotCancel(q: seq<Timer<Task>>, id: nat, e: CoreElement, slot: nat)
    requires OneSlot(q, e, slot)
    ensures OneSlot(Cancel(q, id), e, slot)
  {
    var r := Cancel(q, id);
    forall i | 0 <= i < |r| && WritesOf(r[i].task, e) ensures r[i].id == slot {
      var j :| 0 <= j < |q| && q[j] == r[i];
    }
  }

  /** The template text registered for a class name; empty before the first use. */
  function TemplateOf(templates: map<string, string>, className: string): string {
    if className in templates then templates[className] else ""
  }

  /** The map after a sequence of registrations `(class name, text)`, in call order. */
  function AppendAll(templates: map<string, string>, calls: seq<(string, string)>): (r: map<string, string>)
    decreases |calls|
  {
    if calls == [] then templates
    else
      var pre := AppendAll(templates, calls[..|calls| - 1]);
      var (name, text) := calls[|calls| - 1];
      pre[name := TemplateOf(pre, name) + text]
  }

  /** The texts registered for one class name, joined in call order. */
  function TextsFor(calls: seq<(string, string)>, className: string): string
    decreases |calls|
  {
    if calls == [] then ""
    else
      var (name, text) := calls[|calls| - 1];
      TextsFor(calls[..|calls| - 1], className) + (if name == className then text else "")
  }

  /** Registrations accumulate: a class's template is what it had, followed by every
      text registered for it, in call order; an entry exists once any call named the
      class, and other classes are not affected. */
  lemma {:induction false} AppendAllAccumulates(templates: map<string, string>, calls: seq<(string, string)>,
                                                className: string)
    ensures TemplateOf(AppendAll(templates, calls), className) == TemplateOf(templates, className) + TextsFor(calls, className)
    ensures className in AppendAll(templates, calls) <==>
              className in templates || exists i :: 0 <= i < |calls| && calls[i].0 == className
    decreases |calls|
  {
    if calls == [] {
      assert TemplateOf(templates, className) + "" == TemplateOf(templates, className);
    } else {
      var init := calls[..|calls| - 1];
      AppendAllAccumulates(templates, init, className);
      var (name, text) := calls[|calls| - 1];
      if name == className {
        assert TemplateOf(templates, className) + TextsFor(init, className) + text
               == TemplateOf(templates, className) + (TextsFor(init, className) + text);
      } else {
        assert TextsFor(calls, className) == TextsFor(init, className) + "";
      }
      if exists i :: 0 <= i < |calls| && calls[i].0 == className {
        var i :| 0 <= i < |calls| && calls[i].0 == className;
        if i < |calls| - 1 {
          assert init[i].0 == className;
        }
      }
      if exists i :: 0 <= i < |init| && init[i].0 == className {
        var i :| 0 <= i < |init| && init[i].0 == className;
        assert calls[i].0 == className;
      }
    }
  }

  /** `CoreElement.__templatesMap`: class name -> the template the class's `styles`
      and `template` assignments built up. */
  class TemplateRegistry {
    var templates: map<string, string>

    constructor ()
      ensures templates == map[]
    {
      templates := map[];
    }

    /** A template is created on first use for the class; the text is then appended
      to it (`innerHTML += text`). */
    method Append(className: string, text: string)
      modifies this
      ensures templates == AppendAll(old(templates), [(className, text)])
    {
      if className !in templates {
        templates := templates[className := ""];
      }
      templates := templates[className := templates[className] + text];
    }
  }

  /** The static side of a `CoreElement` subclass. */
  class ComponentType {
    const name: string                // the class name, the template map's key
    var bindable: bool                // `__bindable`
    var tag: Option<string>           // `__is`

    constructor (name: string)
      ensures this.name == name && !bindable && tag == None
    {
      this.name := name;
      bindable := false;
      tag := None;
    }

    /** `static set styles(text)`. */
    method SetStyles(reg: TemplateRegistry, text: string)
      modifies reg
      ensures reg.templates == AppendAll(old(reg.templates), [(name, text)])
    {
      reg.Append(name, text);
    }

    /** `static set template(text)`. */
    method SetTemplate(reg: TemplateRegistry, text: string)
      modifies reg
      ensures reg.templates == AppendAll(old(reg.templates), [(name, text)])
    {
      reg.Append(name, text);
    }

    /** `static set is(tagName)`: nothing when the tag is already defined; otherwise
      the tag is recorded and exactly one deferred definition is scheduled. */
    method SetIs(win: Window, tagName: string)
      requires win.Valid()
      modifies this`tag, win`queue, win`nextId
      ensures win.Valid()
      ensures tagName in win.defined ==>
                tag == old(tag) && win.queue == old(win.queue) && win.nextId == old(win.nextId)
      ensures tagName !in win.defined ==>
                && tag == Some(tagName)
                && win.queue == old(win.queue) + [Timer(old(win.nextId), DefineTag(tagName, this))]
                && win.nextId == old(win.nextId) + 1
    {
      if tagName in win.defined {
        return;
      }
      tag := Some(tagName);
      ScheduleValid(win.queue, win.nextId, DefineTag(tagName, this));
      var _ := win.SetTimeout(DefineTag(tagName, this));
    }

    /** `static set bindable(val)`. */
    method SetBindable(val: bool)
      modifies this`bindable
      ensures bindable == val
    {
      bindable := val;
    }
  }

  /** A call the engine makes to user code: `onStateUpdated()`, an
      `on<Name>Change(value)` callback, or `whenConnected()`. */
  datatype Hook = StateUpdated | Changed(callback: string, value: Value) | Connected

  class CoreElement {
    const cls: ComponentType
    var state: Value
    var bindings: Option<Index>
    var props: map<string, Value>
    var attrs: map<string, string>
    var callbacks: set<string>           // the `on<Name>Change` methods the instance has
    var hasStateHook: bool               // `onStateUpdated` is set
    var hasConnectedHook: bool           // `whenConnected` is set
    var trace: seq<Hook>
    var statePropertyTimeout: nat
    var bindProp: string
    var bindId: string
    var bindActive: bool
    var bindHandler: Option<Listener>

    /** `props` are the properties the instance has before any store of the engine,
      for example those an element inherits (`title` is `""`). */
    constructor (cls: ComponentType, initial: Value, props: map<string, Value>, attrs: map<string, string>,
                 callbacks: set<string>)
      ensures this.cls == cls && state == initial && bindings == None
      ensures this.props == props && this.attrs == attrs && this.callbacks == callbacks
      ensures !hasStateHook && !hasConnectedHook && trace == [] && statePropertyTimeout == 0
      ensures bindProp == "" && bindId == "" && !bindActive && bindHandler == None
    {
      this.cls := cls;
      state := initial;
      bindings := None;
      this.props := props;
      this.attrs := attrs;
      this.callbacks := callbacks;
      hasStateHook := false;
      hasConnectedHook := false;
      trace := [];
      statePropertyTimeout := 0;
      bindProp := "";
      bindId := "";
      bindActive := false;
      bindHandler := None;
    }

    /** The elements the binding index refers to: all the engine ever writes. */
    ghost function Targets(): set<Element>
      reads this`bindings
    {
      if bindings.Some? then ElementsOf(bindings.value) else {}
    }

    /** What the bind handler reads and writes. */
    function BusView(): Peer
      reads this`bindActive, this`bindProp, this`props
    {
      Peer(bindActive, bindProp, props)
    }

    /** The bind handler a `connectedCallback` creates, called with a message `v` from
      `sender`: it acts only when active, not the sender, and not already holding
      `v`; acting suppresses the instance until a reactivation callback runs, and
      stores `v` in the bound property. */
    method Handle(win: Window, sender: CoreElement, v: Value) returns (acted: bool)
      modifies this`bindActive, this`props, win`queue, win`nextId
      ensures acted == Accepts(old(BusView()), sender == this, v)
      ensures acted ==> && BusView() == Applied(old(BusView()), v)
                        && win.queue == old(win.queue) + [Timer(old(win.nextId), Reactivate(this))]
                        && win.nextId == old(win.nextId) + 1
      ensures !acted ==> BusView() == old(BusView()) && win.queue == old(win.queue) && win.nextId == old(win.nextId)
    {
      if bindActive && sender != this && v != PropValue(props, bindProp) {
        bindActive := false;
        var _ := win.SetTimeout(Reactivate(this));
        props := props[bindProp := v];
        return true;
      }
      return false;
    }

    /** Whether `notify` publishes: the class is bindable, the instance has a bound
      property and a channel, and it is not suppressed. */
    predicate Publishes()
      reads this`bindProp, this`bindId, this`bindActive, cls`bindable
    {
      cls.bindable && bindProp != "" && bindId != "" && bindActive
    }

    /** `connectedCallback`: for a bindable class, the bound property is read once
      from `bind-prop` and the channel again from `bind-id`; when both are set the
      instance becomes active and a fresh handler subscribes to the channel.
      Otherwise nothing subscribes. In every case a callback that calls
      `whenConnected` is queued last. */
    method ConnectedCallback(win: Window)
      requires win.Valid()
      modifies this`bindProp, this`bindId, this`bindActive, this`bindHandler, win`closures, win`listeners
      modifies win`queue, win`nextId
      ensures win.Valid()
      ensures win.queue == old(win.queue) + [Timer(old(win.nextId), WhenConnected(this))]
      ensures win.nextId == old(win.nextId) + 1
      ensures !cls.bindable ==> bindProp == old(bindProp) && bindId == old(bindId)
      ensures cls.bindable ==>
                && bindProp == (if old(bindProp) == "" then HostAttr(attrs, "bind-prop") else old(bindProp))
                && bindId == HostAttr(attrs, "bind-id")
      ensures cls.bindable && bindProp != "" && bindId != "" ==>
                && bindActive && bindHandler == Some(Listener(this, old(win.closures)))
                && win.closures == old(win.closures) + 1
                && bindHandler.value in ListenersOn(win.listeners, bindId)
                && win.listeners == old(win.listeners)[bindId := if bindHandler.value in ListenersOn(old(win.listeners), bindId)
                                                                 then ListenersOn(old(win.listeners), bindId)
                                                                 else ListenersOn(old(win.listeners), bindId) + [bindHandler.value]]
      ensures !(cls.bindable && bindProp != "" && bindId != "") ==>
                && bindActive == old(bindActive) && bindHandler == old(bindHandler)
                && win.closures == old(win.closures) && win.listeners == old(win.listeners)
    {
      if cls.bindable {
        if bindProp == "" {
          bindProp := HostAttr(attrs, "bind-prop");
        }
        bindId := HostAttr(attrs, "bind-id");
        if bindProp != "" && bindId != "" {
          bindActive := true;
          var l := win.NewClosure(this);
          bindHandler := Some(l);
          win.AddEventListener(bindId, l);
        }
      }
      ScheduleValid(win.queue, win.nextId, WhenConnected(this));
      var _ := win.SetTimeout(WhenConnected(this));
    }

    /** `disconnectedCallback`: the handler leaves the channel; the other listeners of
      the channel stay in their order, and other channels are untouched. */
    method DisconnectedCallback(win: Window)
      modifies win`listeners
      ensures bindHandler.None? ==> win.listeners == old(win.listeners)
      ensures bindHandler.Some? ==>
                && (bindId in old(win.listeners) ==>
                      win.listeners == old(win.listeners)[bindId := Without(old(win.listeners)[bindId], bindHandler.value)])
                && (bindId !in old(win.listeners) ==> win.listeners == old(win.listeners))
                && bindHandler.value !in ListenersOn(win.listeners, bindId)
                && (forall c :: c != bindId ==> ListenersOn(win.listeners, c) == ListenersOn(old(win.listeners), c))
    {
      if bindHandler.Some? {
        win.RemoveEventListener(bindId, bindHandler.value);
      }
    }

    /** `notify(propName, value)`, whose value defaults to null (an undefined `v`
      stands for a missing argument): throws on an empty name before anything
      happens. Otherwise the `on<Name>Change` callback is called with the value when
      the instance has one, then the value is published on the channel when the
      instance publishes; a suppressed instance never does. */
    method Notify(win: Window, propName: string, v: Value, ghost owners: set<CoreElement>) returns (r: Outcome)
      requires win.Valid() && owners == win.Owners(bindId)
      modifies this`trace, win`log, win`queue, win`nextId, owners`bindActive, owners`props
      ensures win.Valid()
      ensures CallbackName(propName).Err? ==> r == Fail(EmptyName) && trace == old(trace)
      ensures CallbackName(propName).Ok? ==>
                var name := CallbackName(propName).value;
                r == Pass && trace == old(trace) + (if name in callbacks then [Changed(name, OrNull(v))] else [])
      ensures CallbackName(propName).Ok? && old(Publishes()) ==>
                var peers, os := old(PeersOf(owners)), OwnersOf(ListenersOn(win.listeners, bindId));
                && win.log == old(win.log) + [Event(bindId, this, OrNull(v))]
                && (forall o {:trigger o.BusView()} :: o in owners ==> o.BusView() == Received(peers, os, this, OrNull(v), o))
                && win.queue == old(win.queue) + Reactivations(old(win.nextId), Receivers(peers, os, this, OrNull(v)))
                && win.nextId == old(win.nextId) + |Receivers(peers, os, this, OrNull(v))|
      ensures !(CallbackName(propName).Ok? && old(Publishes())) ==>
                && win.log == old(win.log) && win.queue == old(win.queue) && win.nextId == old(win.nextId)
                && PeersOf(owners) == old(PeersOf(owners))
    {
      ghost var peers := PeersOf(owners);
      var value := OrNull(v);
      var name := CallbackName(propName);
      if name.Err? {
        return Fail(EmptyName);
      }
      if name.value in callbacks {
        trace := trace + [Changed(name.value, value)];
      }
      assert PeersOf(owners) == peers;
      if cls.bindable && bindProp != "" && bindId != "" && bindActive {
        win.Dispatch(bindId, this, value, owners);
      }
      r := Pass;
    }

    /** `attributeChangedCallback(name, oldVal, newVal)`: nothing when the value did
      not change; otherwise the property of that name takes the new value (null when
      the attribute was removed). */
    method AttributeChangedCallback(name: string, oldVal: Option<string>, newVal: Option<string>)
      modifies this`props
      ensures newVal == oldVal ==> props == old(props)
      ensures newVal != oldVal ==> props == old(props)[name := if newVal.Some? then Str(newVal.value) else Null]
    {
      if newVal == oldVal {
        return;
      }
      props := props[name := if newVal.Some? then Str(newVal.value) else Null];
    }

    /** `attr(name, value)`: null removes the attribute; any other value, the empty
      string when none is given, is set as its string form. */
    method Attr(name: string, value: Value)
      modifies this`attrs
      ensures value == Null ==> attrs == old(attrs) - {AttrName(name)} && AttrName(name) !in attrs
      ensures value != Null ==>
                attrs == old(attrs)[AttrName(name) := if value == Undefined then "" else ToStr(value)]
    {
      if value == Null {
        attrs := attrs - {AttrName(name)};
      } else {
        attrs := attrs[AttrName(name) := if value == Undefined then "" else ToStr(value)];
      }
    }

    /** `this.onStateUpdated = fn` (true) or `= null` (false). */
    method SetStateHook(present: bool)
      modifies this`hasStateHook
      ensures hasStateHook == present
    {
      hasStateHook := present;
    }

    /** `this.whenConnected = fn` (true) or `= null` (false). */
    method SetConnectedHook(present: bool)
      modifies this`hasConnectedHook
      ensures hasConnectedHook == present
    {
      hasConnectedHook := present;
    }

    /** The hook call that closes a pass that completed: `onStateUpdated()` once, when
      the instance has one. */
    function HookCalls(r: Outcome): seq<Hook>
      reads this
    {
      if r.Pass? && hasStateHook then [StateUpdated] else []
    }

    /** The `state` setter: the state is replaced; with no index nothing else happens.
      Otherwise every key is visited in enumeration order and every binding under it
      receives the key's resolved value; the first key whose path throws ends the
      pass, keeping the stores made before it. The hook runs once, after a pass that
      completed. */
    method SetState(s: Value) returns (r: Outcome)
      modifies this`state, this`trace, Targets()
      ensures state == s
      ensures old(bindings).None? ==> r == Pass && trace == old(trace)
      ensures old(bindings).Some? ==>
                var plan := FullPlan(s, old(bindings).value);
                && r == PlanOutcome(plan)
                && (forall e :: e in old(Targets()) ==> e.State() == After(old(e.State()), e, plan.stores, false))
                && trace == old(trace) + HookCalls(r)
    {
      state := s;
      if bindings.None? {
        return Pass;
      }
      assert forall key, i :: key in bindings.value.entries && 0 <= i < |bindings.value.entries[key]|
               ==> bindings.value.entries[key][i].element in Targets();
      r := WriteAll(s, bindings.value, Targets());
      if r.Fail? {
        return;
      }
      if hasStateHook {
        trace := trace + [StateUpdated];
      }
    }

    /** What a completed or thrown `setStateProperty(path, v)` with outcome `r` did,
      from the state before the call. */
    twostate predicate PropertyStored(path: string, v: Value, r: Outcome)
      reads this, Targets()
    {
      && bindings == old(bindings)
      && (old(bindings).None? ==> r == Pass && state == old(state) && trace == old(trace))
      && (old(bindings).Some? && path !in old(bindings).value.entries ==>
            && r == Fail(UnknownPath(path)) && state == old(state) && trace == old(trace)
            && forall e :: e in Targets() ==> e.State() == old(e.State()))
      && (old(bindings).Some? && path in old(bindings).value.entries ==>
            var a := Assign(old(state), Steps(path), v);
            && (forall e :: e in Targets() ==>
                  e.State() == After(old(e.State()), e, StoresOf(bindings.value.entries[path], v), true))
            && (a.Ok? ==> r == Pass && state == a.value)
            && (a.Err? ==> r == Fail(a.fault) && state == old(state))
            && trace == old(trace) + HookCalls(r))
    }

    /** `setStateProperty(path, value)`: nothing without an index; a path with no entry
      throws before anything changes. Otherwise every binding under the path receives
      the value (a defined property only when it differs), then the state is stored
      into at the path, which throws when the walk to the parent meets undefined or
      null, or the parent is not an object; the hook runs once after a completed
      call. */
    method SetStateProperty(path: string, v: Value) returns (r: Outcome)
      modifies this`state, this`trace, Targets()
      ensures PropertyStored(path, v, r)
    {
      if bindings.None? {
        return Pass;
      }
      if path !in bindings.value.entries {
        return Fail(UnknownPath(path));
      }
      var bs := bindings.value.entries[path];
      assert forall i :: 0 <= i < |bs| ==> bs[i].element in Targets();
      r := WriteThenStore(path, v, bs, Targets());
    }

    /** `setStateProperty` on a path with an entry: the bindings `bs` under it, the
      store at the path, then the hook after a completed call. */
    method WriteThenStore(path: string, v: Value, bs: seq<Binding>, ghost targets: set<Element>) returns (r: Outcome)
      requires forall i :: 0 <= i < |bs| ==> bs[i].element in targets
      modifies this`state, this`trace, targets
      ensures forall e :: e in targets ==> e.State() == After(old(e.State()), e, StoresOf(bs, v), true)
      ensures var a := Assign(old(state), Steps(path), v);
              && (a.Ok? ==> r == Pass && state == a.value)
              && (a.Err? ==> r == Fail(a.fault) && state == old(state))
              && trace == old(trace) + HookCalls(r)
    {
      WriteTargeted(bs, v, targets);
      r := StoreAtPath(path, v);
      if r.Fail? {
        return;
      }
      if hasStateHook {
        trace := trace + [StateUpdated];
      }
    }

    /** The second half of `setStateProperty`: `parent` walks every step but the last,
      then `parent[lastStep] = value`, which stores into the state tree in place. */
    method StoreAtPath(path: string, v: Value) returns (r: Outcome)
      modifies this`state
      ensures var a := Assign(old(state), Steps(path), v);
              && (a.Ok? ==> r == Pass && state == a.value)
              && (a.Err? ==> r == Fail(a.fault) && state == old(state))
    {
      var steps := Split(path, '.');
      AssignFaults(state, steps, v);
      AssignSucceedsIff(state, steps, v);
      var walk := ResolveWalk(state, steps[..|steps| - 1]);
      if walk.Err? {
        return Fail(walk.fault);
      }
      match walk.value {
        case Obj(_) =>
          state := Assign(state, steps, v).value;
        case Undefined =>
          return Fail(WriteToNullish(steps[|steps| - 1]));
        case Null =>
          return Fail(WriteToNullish(steps[|steps| - 1]));
        case _ =>
          return Fail(WriteToPrimitive(steps[|steps| - 1]));
      }
      r := Pass;
    }

    /** `setStatePropertyLater(path, value)`: the pending callback, if any, is cancelled
      and a new one is queued, its id kept in `__statePropertyTimeout`. When the slot
      held every pending write of the instance, it holds the new one, which is then
      the only pending write: the last call wins. */
    method SetStatePropertyLater(win: Window, path: string, v: Value)
      requires win.Valid()
      modifies this`statePropertyTimeout, win`queue, win`nextId
      ensures win.Valid()
      ensures statePropertyTimeout == old(win.nextId) && win.nextId == old(win.nextId) + 1
      ensures win.queue == (if old(statePropertyTimeout) != 0 then Cancel(old(win.queue), old(statePropertyTimeout))
                            else old(win.queue)) + [Timer(old(win.nextId), WriteLater(this, path, v))]
      ensures old(OneSlot(win.queue, this, statePropertyTimeout)) ==>
                OneSlot(win.queue, this, statePropertyTimeout) && PendingWrites(win.queue, this) == [WriteLater(this, path, v)]
    {
      var t := WriteLater(this, path, v);
      LaterStep(win.queue, win.nextId, this, statePropertyTimeout, t);
      if statePropertyTimeout != 0 {
        win.ClearTimeout(statePropertyTimeout);
      }
      var id := win.SetTimeout(t);
      statePropertyTimeout := id;
    }

    /** `__parseTemplateBindings(root)`, with the `[bind]` descendants of `root` in
      document order. Nothing happens when there are none. Otherwise the index is
      created if missing, and every piece of every declaration is added in order;
      a piece without ':' throws, and the pieces added before it stay. */
    method ParseTemplateBindings(subtree: seq<Element>) returns (r: Outcome)
      modifies this`bindings
      ensures TemplateParse(bindings, r) == old(ParseTemplate(bindings, BindTexts(BindCarriers(subtree))))
    {
      var carriers := BindCarriers(subtree);
      if |carriers| == 0 {
        return Pass;
      }
      var start := if bindings.Some? then bindings.value else EmptyIndex;
      ghost var cs := BindTexts(carriers);
      ghost var res := Parse(start, Pairs(cs));
      assert ParseTemplate(bindings, cs)
             == TemplateParse(Some(res.index), if res.fault.None? then Pass else Fail(res.fault.value));
      r := AddDeclarations(carriers, start);
      assert res == ParseResult(bindings.value, if r.Pass? then None else Some(r.fault));
    }

    /** The outer `forEach` of `__parseTemplateBindings`, starting from the index
      `start` (the existing one, or the fresh empty one): every carrier's declaration,
      element after element, until a piece throws. */
    method AddDeclarations(carriers: seq<Element>, start: Index) returns (r: Outcome)
      requires forall i :: 0 <= i < |carriers| ==> "bind" in carriers[i].attrs
      modifies this`bindings
      ensures bindings.Some?
      ensures old(Parse(start, Pairs(BindTexts(carriers))))
              == ParseResult(bindings.value, if r.Pass? then None else Some(r.fault))
    {
      ghost var cs := BindTexts(carriers);
      bindings := Some(start);
      var i := 0;
      assert cs[..0] == [];
      while i < |carriers|
        invariant 0 <= i <= |carriers|
        invariant bindings.Some? && Parse(start, Pairs(cs[..i])) == ParseResult(bindings.value, None)
      {
        var el := carriers[i];
        PairsStep(start, cs, i);
        r := AddDeclaration(el, Split(el.attrs["bind"], ';'), start, Pairs(cs[..i]));
        if r.Fail? {
          return;
        }
        i := i + 1;
      }
      assert cs[..i] == cs;
      r := Pass;
    }

    /** The inner `forEach` of `__parseTemplateBindings`: the pieces of one element's
      declaration, added to the index one after the other. */
    method AddDeclaration(el: Element, pieces: seq<string>, ghost start: Index, ghost done: seq<Decl>)
      returns (r: Outcome)
      requires bindings.Some? && Parse(start, done) == ParseResult(bindings.value, None)
      modifies this`bindings
      ensures bindings.Some?
      ensures Parse(start, done + PieceDecls(el, pieces))
              == ParseResult(bindings.value, if r.Pass? then None else Some(r.fault))
    {
      var j := 0;
      assert pieces[..0] == [] && done + PieceDecls(el, []) == done;
      while j < |pieces|
        invariant 0 <= j <= |pieces|
        invariant bindings.Some? && Parse(start, done + PieceDecls(el, pieces[..j])) == ParseResult(bindings.value, None)
      {
        ParsePieceStep(start, done, el, pieces, j, bindings.value);
        var res := AddPair(bindings.value, Decl(el, pieces[j]));
        if res.Err? {
          return Fail(res.fault);
        }
        bindings := Some(res.value);
        j := j + 1;
      }
      assert pieces[..j] == pieces;
      r := Pass;
    }

    /** `__initialRender()`, given the elements of the cloned template: nothing when
      the class has no template; otherwise the clone's bindings are parsed. */
    method InitialRender(reg: TemplateRegistry, content: seq<Element>) returns (r: Outcome)
      modifies this`bindings
      ensures cls.name !in reg.templates ==> bindings == old(bindings) && r == Pass
      ensures cls.name in reg.templates ==>
                TemplateParse(bindings, r) == old(ParseTemplate(bindings, BindTexts(BindCarriers(content))))
    {
      if cls.name in reg.templates {
        r := ParseTemplateBindings(content);
      } else {
        r := Pass;
      }
    }
  }

  /** The instance whose deferred write is at the head of the queue, if it is one. */
  ghost function Writer(q: seq<Timer<Task>>): set<CoreElement> {
    if q != [] && q[0].task.WriteLater? then {q[0].task.target} else {}
  }

  /** The elements that deferred write may store into. */
  ghost function WriterTargets(q: seq<Timer<Task>>): set<Element>
    reads Writer(q)`bindings
  {
    if q != [] && q[0].task.WriteLater? then q[0].task.target.Targets() else {}
  }

  /** The instance a reactivation at the head of the queue wakes, if it is one. */
  ghost function Woken(q: seq<Timer<Task>>): set<CoreElement> {
    if q != [] && q[0].task.Reactivate? then {q[0].task.target} else {}
  }

  /** The instance a `whenConnected` callback at the head of the queue calls, if it
      is one. */
  ghost function Greeted(q: seq<Timer<Task>>): set<CoreElement> {
    if q != [] && q[0].task.WhenConnected? then {q[0].task.target} else {}
  }

  /** One turn of the event loop: the oldest callback leaves the queue and runs. A
      deferred write is `setStateProperty` with the arguments of its call; a
      reactivation ends the instance's suppression; a deferred definition calls
      `customElements.define`; the callback of `connectedCallback` calls
      `whenConnected` when the instance has one. */
  method Tick(win: Window) returns (t: Option<Task>, r: Outcome)
    requires win.Valid()
    modifies win`queue, win`defined, Writer(win.queue)`state, Writer(win.queue)`trace, WriterTargets(win.queue)
    modifies Woken(win.queue)`bindActive, Greeted(win.queue)`trace
    ensures win.Valid()
    ensures old(win.queue) == [] ==> t == None && r == Pass && win.queue == [] && win.defined == old(win.defined)
    ensures old(win.queue) != [] ==> t == Some(old(win.queue)[0].task) && win.queue == old(win.queue)[1..]
    ensures t.Some? && t.value.WriteLater? ==>
              t.value.target.PropertyStored(t.value.path, t.value.value, r) && win.defined == old(win.defined)
    ensures t.Some? && t.value.Reactivate? ==> t.value.target.bindActive && r == Pass && win.defined == old(win.defined)
    ensures t.Some? && t.value.DefineTag? ==>
              var taken := t.value.name in old(win.defined) || t.value.cls in old(win.defined).Values;
              && (taken ==> r == Fail(AlreadyDefined(t.value.name)) && win.defined == old(win.defined))
              && (!taken ==> r == Pass && win.defined == old(win.defined)[t.value.name := t.value.cls])
    ensures t.Some? && t.value.WhenConnected? ==>
              && r == Pass && win.defined == old(win.defined)
              && t.value.target.trace == old(t.value.target.trace)
                   + (if t.value.target.hasConnectedHook then [Connected] else [])
  {
    t := win.PopTimer();
    if t.None? {
      return None, Pass;
    }
    match t.value
    case WriteLater(target, path, v) =>
      r := target.SetStateProperty(path, v);
    case Reactivate(target) =>
      target.bindActive := true;
      r := Pass;
    case DefineTag(name, cls) =>
      r := win.Define(name, cls);
    case WhenConnected(target) =>
      if target.hasConnectedHook {
        target.trace := target.trace + [Connected];
      }
      r := Pass;
  }

  /** What parsing the bindings of a fresh clone leaves behind. It refers only to
      the clone's own elements. */
  ghost function Rendered(content: seq<Element>): (tp: TemplateParse)
    reads content
    ensures tp.bindings.Some? ==> ElementsOf(tp.bindings.value) <= set e | e in content
  {
    var carriers := BindCarriers(content);
    var cs := BindTexts(carriers);
    if cs != [] then
      ParseElements(EmptyIndex, Pairs(cs));
      PairsElements(cs);
      assert forall e :: e in ElementsOf(Parse(EmptyIndex, Pairs(cs)).index) ==> e in content by {
        forall e | e in ElementsOf(Parse(EmptyIndex, Pairs(cs)).index) ensures e in content {
          assert e in DeclElements(Pairs(cs));
          var m :| 0 <= m < |cs| && cs[m].0 == e;
          assert carriers[m] == e;
        }
      }
      ParseTemplate(None, cs)
    else
      ParseTemplate(None, cs)
  }

  /** `new` of a class: the constructor renders the class's template into the
      clone `content` and parses its bindings with no hook set; then, when the
      initial state is truthy, the `state` setter runs with it. A throw while parsing
      ends the constructor. */
  method Create(cls: ComponentType, reg: TemplateRegistry, content: seq<Element>, initial: Value,
                props: map<string, Value>, attrs: map<string, string>, callbacks: set<string>,
                ghost els: set<Element>)
    returns (c: CoreElement, r: Outcome)
    requires forall e :: e in content ==> e in els
    modifies els
    ensures fresh(c) && c.cls == cls && c.props == props && c.attrs == attrs && c.callbacks == callbacks
    ensures c.state == initial && !c.hasStateHook && !c.hasConnectedHook && c.trace == []
    ensures cls.name !in reg.templates ==> c.bindings == None && r == Pass
    ensures cls.name in reg.templates ==> c.bindings == old(Rendered(content)).bindings
    ensures cls.name in reg.templates && c.bindings.Some? && old(Rendered(content)).outcome.Pass? && Truthy(initial) ==>
              var plan := FullPlan(initial, c.bindings.value);
              && r == PlanOutcome(plan)
              && forall e :: e in ElementsOf(c.bindings.value) ==> e.State() == After(old(e.State()), e, plan.stores, false)
    ensures !(cls.name in reg.templates && c.bindings.Some? && old(Rendered(content)).outcome.Pass? && Truthy(initial)) ==>
              && r == (if cls.name in reg.templates then old(Rendered(content)).outcome else Pass)
              && forall e :: e in els ==> e.State() == old(e.State())
  {
    c, r := Construct(cls, reg, content, initial, props, attrs, callbacks);
    if r.Fail? || !Truthy(initial) {
      return;
    }
    r := c.SetState(initial);
  }

  /** The constructor up to the `state` setter: a new instance holding `initial`,
      with the class's template rendered into `content` and its bindings parsed. */
  method Construct(cls: ComponentType, reg: TemplateRegistry, content: seq<Element>, initial: Value,
                   props: map<string, Value>, attrs: map<string, string>, callbacks: set<string>)
    returns (c: CoreElement, r: Outcome)
    ensures fresh(c) && c.cls == cls && c.props == props && c.attrs == attrs && c.callbacks == callbacks
    ensures c.state == initial && !c.hasStateHook && !c.hasConnectedHook && c.trace == []
    ensures cls.name !in reg.templates ==> c.bindings == None && r == Pass
    ensures cls.name in reg.templates ==> c.bindings == Rendered(content).bindings && r == Rendered(content).outcome
  {
    c := new CoreElement(cls, initial, props, attrs, callbacks);
    r := c.InitialRender(reg, content);
  }
}
