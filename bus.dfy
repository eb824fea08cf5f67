/** The receive rule of the cross-component channel: what one `dispatchEvent` does to
    the instances listening on the channel. Generic in the identity of an instance, so
    that the rule is stated apart from the heap; `Core.CoreElement.Dispatch` is proved
    against it. */
module Bus {

  import opened JsValues

  /** What the bind handler of an instance reads and writes: `__bindActive`,
      `__bindProp`, and the instance's own properties. */
  datatype Peer = Peer(active: bool, bindProp: string, props: map<string, Value>)

  /** `this[key]`: undefined when the instance has no such property. */
  function PropValue(props: map<string, Value>, key: string): Value {
    if key in props then props[key] else Undefined
  }

  /** The handler acts on a message only when the instance is active, did not send the
      message itself, and does not already hold the value. */
  predicate Accepts(p: Peer, fromSelf: bool, v: Value) {
    p.active && !fromSelf && v != PropValue(p.props, p.bindProp)
  }

  /** Acting on a message: suppressed until the next tick, and the bound property holds
      the value. */
  function Applied(p: Peer, v: Value): (r: Peer)
    ensures !r.active && r.bindProp == p.bindProp
    ensures PropValue(r.props, r.bindProp) == v
    ensures forall k :: k != p.bindProp ==> PropValue(r.props, k) == PropValue(p.props, k)
  {
    Peer(false, p.bindProp, p.props[p.bindProp := v])
  }

  /** The instances after the listeners are called in order, and the instances that
      acted on the message, in the order they did. */
  datatype Delivery<O> = Delivery(peers: map<O, Peer>, receivers: seq<O>)

  ghost function Deliver<O>(peers: map<O, Peer>, owners: seq<O>, sender: O, v: Value): (r: Delivery<O>)
    ensures r.peers.Keys == peers.Keys
    decreases |owners|
  {
    if owners == [] then Delivery(peers, [])
    else
      var pre := Deliver(peers, owners[..|owners| - 1], sender, v);
      var o := owners[|owners| - 1];
      if o in pre.peers && Accepts(pre.peers[o], o == sender, v) then
        Delivery(pre.peers[o := Applied(pre.peers[o], v)], pre.receivers + [o])
      else pre
  }

  /** Reference definition of one instance's state after the listeners `owners` are
      called: applied when it listens and accepts the message in its state before the
      dispatch, unchanged otherwise. */
  function Received<O>(peers: map<O, Peer>, owners: seq<O>, sender: O, v: Value, o: O): Peer
    requires o in peers
  {
    if o in owners && Accepts(peers[o], o == sender, v) then Applied(peers[o], v) else peers[o]
  }

  /** Reference definition of the receivers, from the states before the dispatch
      alone: each listening instance that accepts the message there, once, at its
      first listener. */
  function Receivers<O>(peers: map<O, Peer>, owners: seq<O>, sender: O, v: Value): seq<O>
    decreases |owners|
  {
    if owners == [] then []
    else
      var pre := Receivers(peers, owners[..|owners| - 1], sender, v);
      var o := owners[|owners| - 1];
      if o in peers && Accepts(peers[o], o == sender, v) && o !in pre then pre + [o] else pre
  }

  /** An instance is a receiver exactly when it listens and accepts the message in
      its state before the dispatch. */
  lemma {:induction false} ReceiversMember<O>(peers: map<O, Peer>, owners: seq<O>, sender: O, v: Value, o: O)
    ensures o in Receivers(peers, owners, sender, v) <==> o in owners && o in peers && Accepts(peers[o], o == sender, v)
    decreases |owners|
  {
    if owners != [] {
      var init := owners[..|owners| - 1];
      ReceiversMember(peers, init, sender, v, o);
      assert owners == init + [owners[|owners| - 1]];
    }
  }

  /** The sequential rule and the reference definition name the same receivers. */
  lemma {:induction false} DeliverReceivers<O>(peers: map<O, Peer>, owners: seq<O>, sender: O, v: Value)
    ensures Deliver(peers, owners, sender, v).receivers == Receivers(peers, owners, sender, v)
    decreases |owners|
  {
    if owners != [] {
      var init := owners[..|owners| - 1];
      var o := owners[|owners| - 1];
      DeliverReceivers(peers, init, sender, v);
      ReceiversMember(peers, init, sender, v, o);
      if o in peers {
        DeliverRule(peers, init, sender, v, o);
      }
    }
  }

  /** Each instance acts at most once per message, whatever number of listeners it
      has on the channel: the first one it accepts suppresses it for the rest. An
      instance ends applied exactly when one of its listeners is called and it accepts
      the message in its state before the dispatch; otherwise it is unchanged. */
  lemma {:induction false} DeliverRule<O>(peers: map<O, Peer>, owners: seq<O>, sender: O, v: Value, o: O)
    requires o in peers
    ensures var acts := o in owners && Accepts(peers[o], o == sender, v);
            && Deliver(peers, owners, sender, v).peers[o] == (if acts then Applied(peers[o], v) else peers[o])
            && (o in Deliver(peers, owners, sender, v).receivers <==> acts)
    decreases |owners|
  {
    if owners != [] {
      var init := owners[..|owners| - 1];
      DeliverRule(peers, init, sender, v, o);
      assert owners == init + [owners[|owners| - 1]];
    }
  }

  /** Every receiver is listed once, so one reactivation is scheduled per receiver. */
  lemma {:induction false} ReceiversDistinct<O>(peers: map<O, Peer>, owners: seq<O>, sender: O, v: Value)
    ensures var rs := Deliver(peers, owners, sender, v).receivers;
            forall i, j :: 0 <= i < j < |rs| ==> rs[i] != rs[j]
    decreases |owners|
  {
    if owners != [] {
      var init := owners[..|owners| - 1];
      ReceiversDistinct(peers, init, sender, v);
      assert forall i, j :: 0 <= i < j < |Deliver(peers, init, sender, v).receivers|
               ==> Deliver(peers, init, sender, v).receivers[i] != Deliver(peers, init, sender, v).receivers[j];
      var o := owners[|owners| - 1];
      var pre := Deliver(peers, init, sender, v);
      if o in pre.peers && Accepts(pre.peers[o], o == sender, v) {
        DeliverRule(peers, init, sender, v, o);
        assert o !in pre.receivers;
        var rs := pre.receivers + [o];
        assert Deliver(peers, owners, sender, v).receivers == rs;
        forall i, j | 0 <= i < j < |rs| ensures rs[i] != rs[j] {
          assert rs[i] == pre.receivers[i];
          if j < |pre.receivers| { assert rs[j] == pre.receivers[j]; }
        }
      } else {
        assert Deliver(peers, owners, sender, v) == pre;
        var rs := pre.receivers;
        assert forall i, j :: 0 <= i < j < |rs| ==> rs[i] != rs[j];
      }
    }
  }

  /** The sender is never changed by its own message. */
  lemma SenderUnchanged<O>(peers: map<O, Peer>, owners: seq<O>, sender: O, v: Value)
    requires sender in peers
    ensures Deliver(peers, owners, sender, v).peers[sender] == peers[sender]
    ensures sender !in Deliver(peers, owners, sender, v).receivers
  {
    DeliverRule(peers, owners, sender, v, sender);
  }

  /** Calling `o`'s listener leaves every other instance as it was. */
  lemma ReceivedOthers<O>(peers: map<O, Peer>, done: seq<O>, sender: O, v: Value, o: O)
    ensures forall x :: x in peers && x != o ==> Received(peers, done + [o], sender, v, x) == Received(peers, done, sender, v, x)
  {
  }

  /** The sequential rule, instance by instance and receiver by receiver, is the
      reference definition. */
  lemma DeliverPointwise<O>(peers: map<O, Peer>, owners: seq<O>, sender: O, v: Value)
    ensures forall o :: o in peers ==> Deliver(peers, owners, sender, v).peers[o] == Received(peers, owners, sender, v, o)
    ensures Deliver(peers, owners, sender, v).receivers == Receivers(peers, owners, sender, v)
  {
    forall o | o in peers ensures Deliver(peers, owners, sender, v).peers[o] == Received(peers, owners, sender, v, o) {
      DeliverRule(peers, owners, sender, v, o);
    }
    DeliverReceivers(peers, owners, sender, v);
  }

  /** Every receiver ends suppressed and holding the value: an echo of the message
      from a receiver is not published, and it does not take the message again until
      it is reactivated. */
  lemma ReceiversSuppressed<O>(peers: map<O, Peer>, owners: seq<O>, sender: O, v: Value)
    ensures forall o :: o in Receivers(peers, owners, sender, v) ==>
              && o in peers
              && !Received(peers, owners, sender, v, o).active
              && !Accepts(Received(peers, owners, sender, v, o), false, v)
  {
    forall o | o in Receivers(peers, owners, sender, v)
      ensures o in peers && !Received(peers, owners, sender, v, o).active
    {
      ReceiversMember(peers, owners, sender, v, o);
    }
  }
}
