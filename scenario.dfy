/** Concrete runs of the engine: the example application's index page, a debounced
    write, two bound instances exchanging one update, and a class registration. */
module Scenario {

  import opened JsValues
  import opened Text
  import opened Dom
  import opened StatePath
  import opened Bindings
  import opened Reconcile
  import opened Timers
  import opened Bus
  import opened Core

  /** Two debounced writes in a row on an instance with none pending: the first is
      cancelled, and only the second is pending. */
  method TwoWrites(win: Window, c: CoreElement)
    requires win.Valid() && win.queue == [] && c.statePropertyTimeout == 0
    modifies c`statePropertyTimeout, win`queue, win`nextId
    ensures win.Valid() && win.queue == [Timer(old(win.nextId) + 1, WriteLater(c, "b", Num(2)))]
    ensures PendingWrites(win.queue, c) == [WriteLater(c, "b", Num(2))]
  {
    ghost var n0 := win.nextId;
    var a, b := WriteLater(c, "a", Num(1)), WriteLater(c, "b", Num(2));
    c.SetStatePropertyLater(win, "a", Num(1));
    assert win.queue == [Timer(n0, a)] && c.statePropertyTimeout == n0 != 0;
    SingleTimer(n0, a, c);
    c.SetStatePropertyLater(win, "b", Num(2));
    assert win.queue == [Timer(n0 + 1, b)];
    SingleTimer(n0 + 1, b, c);
  }

  /** A queue of one callback: cancelling its id empties it, and it is the one pending
      write when it writes to `e`. */
  lemma SingleTimer(id: nat, t: Task, e: CoreElement)
    ensures Cancel([Timer(id, t)], id) == []
    ensures WritesOf(t, e) ==> PendingWrites([Timer(id, t)], e) == [t]
  {
    assert [Timer(id, t)][..0] == [];
  }

  /** Two debounced writes in a row, then one turn of the event loop: only the second
      write is pending, and it is the one that runs. The instance has no bindings, so
      the write returns before it touches the state. */
  method DebounceLastWins() returns (ran: Option<Task>, state: Value)
    ensures ran.Some? && ran.value.WriteLater? && ran.value.path == "b" && ran.value.value == Num(2)
    ensures state == Obj(map["a" := Num(0), "b" := Num(0)])
  {
    var win := new Window();
    var cls := new ComponentType("Counter");
    var c := new CoreElement(cls, Obj(map["a" := Num(0), "b" := Num(0)]), map[], map[], {});
    TwoWrites(win, c);
    assert Writer(win.queue) == {c} && WriterTargets(win.queue) == {} && Woken(win.queue) == {};
    var r;
    ran, r := Tick(win);
    state := c.state;
  }

  /** The three declarations of the index page's template. */
  const HeaderBind := "textContent" + ": " + "headerTxt"
  const ContentBind := "textContent" + ": " + "contentTxt"
  const FooterBind := "textContent" + ": " + "footerTxt"

  /** A key and a property name as the page's template writes them: no separator,
      no surrounding whitespace, no path step. */
  predicate Plain(k: string) {
    ':' !in k && ';' !in k && '.' !in k && Trim(k) == k
  }

  /** The index three declarations `prop: k1`, `prop: k2`, `prop: k3` build. */
  function ThreeIndex(e1: Element, e2: Element, e3: Element, prop: string, k1: string, k2: string, k3: string): Index {
    AddBinding(AddBinding(AddBinding(EmptyIndex, k1, Binding(e1, prop)), k2, Binding(e2, prop)), k3, Binding(e3, prop))
  }

  /** On distinct paths that index holds one binding of `prop` per path, the paths
      in template order. */
  lemma ThreeIndexShape(e1: Element, e2: Element, e3: Element, prop: string, k1: string, k2: string, k3: string)
    requires k1 != k2 && k1 != k3 && k2 != k3
    ensures var idx := ThreeIndex(e1, e2, e3, prop, k1, k2, k3);
            && idx.order == [k1, k2, k3]
            && Entry(idx, k1) == [Binding(e1, prop)] && Entry(idx, k2) == [Binding(e2, prop)]
            && Entry(idx, k3) == [Binding(e3, prop)]
  {
    var b1, b2, b3 := Binding(e1, prop), Binding(e2, prop), Binding(e3, prop);
    AddFresh(EmptyIndex, k1, b1);
    var i1 := Index([k1], map[k1 := [b1]]);
    assert [] + [k1] == [k1] && EmptyIndex.entries[k1 := [b1]] == i1.entries;
    AddFresh(i1, k2, b2);
    var i2 := Index([k1, k2], map[k1 := [b1], k2 := [b2]]);
    assert [k1] + [k2] == [k1, k2];
    AddFresh(i2, k3, b3);
    assert [k1, k2] + [k3] == [k1, k2, k3];
  }

  /** A binding under a new path: the path is enumerated last, with that binding alone. */
  lemma AddFresh(idx: Index, key: string, b: Binding)
    requires key !in idx.entries
    ensures AddBinding(idx, key, b) == Index(idx.order + [key], idx.entries[key := [b]])
  {
  }

  /** A plain declaration `prop: k` adds one piece. */
  lemma PairsPlain(cs: seq<(Element, string)>, e: Element, prop: string, k: string)
    requires Plain(prop) && Plain(k)
    ensures Pairs(cs + [(e, prop + ": " + k)]) == Pairs(cs) + [Decl(e, prop + ": " + k)]
  {
    DeclParts(prop, k);
    assert (cs + [(e, prop + ": " + k)])[..|cs|] == cs;
  }

  /** Parsing that piece binds `prop` on `e` under `k`. */
  lemma ParsePlain(ds: seq<Decl>, idx: Index, e: Element, prop: string, k: string)
    requires Plain(prop) && Plain(k)
    requires Parse(EmptyIndex, ds) == ParseResult(idx, None)
    ensures Parse(EmptyIndex, ds + [Decl(e, prop + ": " + k)]) == ParseResult(AddBinding(idx, k, Binding(e, prop)), None)
  {
    DeclParts(prop, k);
    ParseStep(EmptyIndex, ds, Decl(e, prop + ": " + k));
  }

  /** Parsing three plain declarations on distinct paths builds that index and does
      not throw. */
  lemma ThreeParse(e1: Element, e2: Element, e3: Element, prop: string, k1: string, k2: string, k3: string)
    requires Plain(prop) && Plain(k1) && Plain(k2) && Plain(k3)
    requires k1 != k2 && k1 != k3 && k2 != k3
    ensures Parse(EmptyIndex, Pairs([(e1, prop + ": " + k1), (e2, prop + ": " + k2), (e3, prop + ": " + k3)]))
            == ParseResult(ThreeIndex(e1, e2, e3, prop, k1, k2, k3), None)
  {
    var c1, c2, c3 := (e1, prop + ": " + k1), (e2, prop + ": " + k2), (e3, prop + ": " + k3);
    var d1, d2, d3 := Decl(e1, prop + ": " + k1), Decl(e2, prop + ": " + k2), Decl(e3, prop + ": " + k3);
    PairsPlain([], e1, prop, k1);
    PairsPlain([c1], e2, prop, k2);
    PairsPlain([c1, c2], e3, prop, k3);
    assert [] + [c1] == [c1] && [c1] + [c2] == [c1, c2] && [c1, c2] + [c3] == [c1, c2, c3];
    assert Pairs([c1, c2, c3]) == [d1, d2, d3];
    var i1 := AddBinding(EmptyIndex, k1, Binding(e1, prop));
    var i2 := AddBinding(i1, k2, Binding(e2, prop));
    assert [] + [d1] == [d1] && [d1] + [d2] == [d1, d2] && [d1, d2] + [d3] == [d1, d2, d3];
    ParsePlain([], EmptyIndex, e1, prop, k1);
    ParsePlain([d1], i1, e2, prop, k2);
    ParsePlain([d1, d2], i2, e3, prop, k3);
  }

  /** A key with one binding, whose path is one step present in the state: one
      store of what the state holds there. */
  lemma KeyPlanOne(m: map<string, Value>, k: string, e: Element, prop: string)
    requires '.' !in k && k in m
    ensures Resolve(Obj(m), Steps(k)) == Ok(m[k])
    ensures KeyPlan(Ok(m[k]), [Binding(e, prop)]) == Plan([Store(e, prop, m[k])], None)
  {
    SplitNone(k, '.');
    assert [k][1..] == [] && [k][0] == k;
    assert Steps(k) == [k];
    assert Get(Obj(m), k) == Ok(m[k]);
    assert Resolve(Obj(m), Steps(k)) == Ok(m[k]);
    assert StoresOf([Binding(e, prop)], m[k]) == [Store(e, prop, m[k])];
  }

  /** The full reconciliation of a state holding v1, v2, v3 under the paths of an
      index that binds `prop` once on each of them: one store per binding, with the
      value its path names, and no throw. */
  lemma ThreePlan(idx: Index, e1: Element, e2: Element, e3: Element, prop: string, k1: string, k2: string, k3: string,
                  v1: Value, v2: Value, v3: Value)
    requires Plain(k1) && Plain(k2) && Plain(k3)
    requires k1 != k2 && k1 != k3 && k2 != k3
    requires idx.order == [k1, k2, k3]
    requires Entry(idx, k1) == [Binding(e1, prop)] && Entry(idx, k2) == [Binding(e2, prop)]
    requires Entry(idx, k3) == [Binding(e3, prop)]
    ensures FullPlan(Obj(map[k1 := v1, k2 := v2, k3 := v3]), idx)
            == Plan([Store(e1, prop, v1), Store(e2, prop, v2), Store(e3, prop, v3)], None)
  {
    var m := map[k1 := v1, k2 := v2, k3 := v3];
    var s := Obj(m);
    assert m[k1] == v1 && m[k2] == v2 && m[k3] == v3;
    KeyPlanOne(m, k1, e1, prop);
    KeyPlanOne(m, k2, e2, prop);
    KeyPlanOne(m, k3, e3, prop);
    var rs := ResolveAll(s, idx.order);
    assert rs == [Ok(v1), Ok(v2), Ok(v3)];
    assert Reconciliation(rs, idx, 1) == Plan([Store(e1, prop, v1)], None);
    assert Reconciliation(rs, idx, 2) == Plan([Store(e1, prop, v1), Store(e2, prop, v2)], None);
  }

  /** When every store names a different element, each element ends holding the
      value of its own store, provided its property was defined. */
  lemma AfterDistinct(es: ElemState, ws: seq<Store>, i: nat)
    requires i < |ws|
    requires forall j, k :: 0 <= j < k < |ws| ==> ws[j].element != ws[k].element
    requires PropOf(es, ws[i].propName) != Undefined
    ensures PropOf(After(es, ws[i].element, ws, false), ws[i].propName) == ws[i].value
  {
    AfterLastWrite(es, ws, false, i);
    AfterFrame(es, ws[i].element, ws[..i], false);
  }

  /** A non-empty name without separators or path steps that neither starts nor
      ends with whitespace is plain. */
  lemma EdgesPlain(k: string)
    requires ':' !in k && ';' !in k && '.' !in k
    requires k != [] && !IsWhitespace(k[0]) && !IsWhitespace(k[|k| - 1])
    ensures Plain(k)
  {
    assert TrimStart(k) == k;
    assert TrimEnd(k) == k;
  }

  /** The property name and the three paths the index page's template uses are
      plain, one name per lemma. */
  lemma TextContentPlain() ensures Plain("textContent") { EdgesPlain("textContent"); }
  lemma HeaderTxtPlain() ensures Plain("headerTxt") { EdgesPlain("headerTxt"); }
  lemma ContentTxtPlain() ensures Plain("contentTxt") { EdgesPlain("contentTxt"); }
  lemma FooterTxtPlain() ensures Plain("footerTxt") { EdgesPlain("footerTxt"); }

  lemma PageNamesPlain()
    ensures Plain("textContent") && Plain("headerTxt") && Plain("contentTxt") && Plain("footerTxt")
  {
    TextContentPlain();
    HeaderTxtPlain();
    ContentTxtPlain();
    FooterTxtPlain();
  }

  /** Of the five elements of the page modelled here (the three `button-com` of the
      menu, which carry no `bind`, are left out), the three text `div`s carry
      declarations. */
  lemma PageCarriers(layout: Element, top: Element, menu: Element, body: Element, bottom: Element)
    requires "bind" !in layout.attrs && "bind" !in menu.attrs
    requires "bind" in top.attrs && "bind" in body.attrs && "bind" in bottom.attrs
    ensures BindCarriers([layout, top, menu, body, bottom]) == [top, body, bottom]
  {
    var content := [layout, top, menu, body, bottom];
    assert content[..4][..3] == content[..3] && content[..3][..2] == content[..2] && content[..2][..1] == content[..1];
    assert content[..5] == content && content[..1][..0] == [];
    assert BindCarriers(content[..1]) == [];
    assert BindCarriers(content[..2]) == [top];
    assert BindCarriers(content[..3]) == [top];
    assert BindCarriers(content[..4]) == [top, body];
  }

  /** The page's elements: the layout root, the header, menu, content and footer
      `div`s, the three text `div`s carrying their declarations. */
  lemma PageRendered(layout: Element, top: Element, menu: Element, body: Element, bottom: Element)
    requires "bind" !in layout.attrs && "bind" !in menu.attrs
    requires "bind" in top.attrs && top.attrs["bind"] == HeaderBind
    requires "bind" in body.attrs && body.attrs["bind"] == ContentBind
    requires "bind" in bottom.attrs && bottom.attrs["bind"] == FooterBind
    ensures Rendered([layout, top, menu, body, bottom])
            == TemplateParse(Some(ThreeIndex(top, body, bottom, "textContent", "headerTxt", "contentTxt", "footerTxt")), Pass)
  {
    PageCarriers(layout, top, menu, body, bottom);
    var cs := BindTexts([top, body, bottom]);
    assert cs == [(top, HeaderBind), (body, ContentBind), (bottom, FooterBind)];
    PageNamesPlain();
    ThreeParse(top, body, bottom, "textContent", "headerTxt", "contentTxt", "footerTxt");
  }

  /** Distinct elements in three stores. */
  lemma AfterThree(es: ElemState, ws: seq<Store>, i: nat)
    requires |ws| == 3 && i < 3
    requires ws[0].element != ws[1].element && ws[0].element != ws[2].element && ws[1].element != ws[2].element
    requires PropOf(es, ws[i].propName) != Undefined
    ensures PropOf(After(es, ws[i].element, ws, false), ws[i].propName) == ws[i].value
  {
    AfterDistinct(es, ws, i);
  }

  /** Constructing an instance over content that renders to `idx` without a throw,
      with no initial state; the subclass constructor then assigns a state whose full
      reconciliation over `idx` is the stores `ws` and does not throw. */
  method CreateThenAssign(cls: ComponentType, reg: TemplateRegistry, content: seq<Element>, s: Value,
                          idx: Index, ws: seq<Store>, ghost els: set<Element>)
    returns (r: Outcome)
    requires cls.name in reg.templates
    requires forall e :: e in content ==> e in els
    requires Rendered(content) == TemplateParse(Some(idx), Pass)
    requires FullPlan(s, idx) == Plan(ws, None)
    modifies els
    ensures r == Pass
    ensures forall e :: e in ElementsOf(idx) ==> e.State() == After(old(e.State()), e, ws, false)
  {
    var c;
    c, r := Create(cls, reg, content, Undefined, map[], map[], {}, els);
    assert c.Targets() <= els;
    r := c.SetState(s);
  }

  /** The page's state reconciles over the index its template builds to one store
      per text `div`, with the text its path names, and no throw. */
  lemma PagePlan(top: Element, body: Element, bottom: Element)
    ensures var idx := ThreeIndex(top, body, bottom, "textContent", "headerTxt", "contentTxt", "footerTxt");
            && FullPlan(PageState, idx) == Plan(PageStores(top, body, bottom), None)
            && top in ElementsOf(idx) && body in ElementsOf(idx) && bottom in ElementsOf(idx)
  {
    var idx := ThreeIndex(top, body, bottom, "textContent", "headerTxt", "contentTxt", "footerTxt");
    ThreeIndexShape(top, body, bottom, "textContent", "headerTxt", "contentTxt", "footerTxt");
    PageNamesPlain();
    ThreePlan(idx, top, body, bottom, "textContent", "headerTxt", "contentTxt", "footerTxt",
              Str("HEADER"), Str("CONTENT"), Str("FOOTER"));
    assert idx.entries["headerTxt"][0].element == top;
    assert idx.entries["contentTxt"][0].element == body;
    assert idx.entries["footerTxt"][0].element == bottom;
  }

  /** Three distinct text `div`s, in states `t`, `c` and `f` whose text is defined,
      receiving the page's stores: each shows its own text. */
  lemma PageShows(top: Element, body: Element, bottom: Element, t: ElemState, c: ElemState, f: ElemState)
    requires top != body && top != bottom && body != bottom
    requires PropOf(t, "textContent") != Undefined && PropOf(c, "textContent") != Undefined
    requires PropOf(f, "textContent") != Undefined
    ensures var ws := PageStores(top, body, bottom);
            && PropOf(After(t, top, ws, false), "textContent") == Str("HEADER")
            && PropOf(After(c, body, ws, false), "textContent") == Str("CONTENT")
            && PropOf(After(f, bottom, ws, false), "textContent") == Str("FOOTER")
  {
    var ws := PageStores(top, body, bottom);
    AfterThree(t, ws, 0);
    AfterThree(c, ws, 1);
    AfterThree(f, ws, 2);
  }

  /** The index page's template renders to its three bindings, the page's state
      reconciles to one store per binding, and each text `div` receiving its store
      shows its text. */
  lemma PageFacts(layout: Element, top: Element, menu: Element, body: Element, bottom: Element)
    requires top != body && top != bottom && body != bottom
    requires "bind" !in layout.attrs && "bind" !in menu.attrs
    requires "bind" in top.attrs && top.attrs["bind"] == HeaderBind
    requires "bind" in body.attrs && body.attrs["bind"] == ContentBind
    requires "bind" in bottom.attrs && bottom.attrs["bind"] == FooterBind
    requires PropOf(top.State(), "textContent") != Undefined && PropOf(body.State(), "textContent") != Undefined
    requires PropOf(bottom.State(), "textContent") != Undefined
    ensures var idx := ThreeIndex(top, body, bottom, "textContent", "headerTxt", "contentTxt", "footerTxt");
            var ws := PageStores(top, body, bottom);
            && Rendered([layout, top, menu, body, bottom]) == TemplateParse(Some(idx), Pass)
            && FullPlan(PageState, idx) == Plan(ws, None)
            && top in ElementsOf(idx) && body in ElementsOf(idx) && bottom in ElementsOf(idx)
            && PropOf(After(top.State(), top, ws, false), "textContent") == Str("HEADER")
            && PropOf(After(body.State(), body, ws, false), "textContent") == Str("CONTENT")
            && PropOf(After(bottom.State(), bottom, ws, false), "textContent") == Str("FOOTER")
  {
    PageRendered(layout, top, menu, body, bottom);
    PagePlan(top, body, bottom);
    PageShows(top, body, bottom, top.State(), body.State(), bottom.State());
  }

  /** The index page's initial state. */
  const PageState := Obj(map["headerTxt" := Str("HEADER"), "contentTxt" := Str("CONTENT"), "footerTxt" := Str("FOOTER")])

  /** The stores its reconciliation makes. */
  function PageStores(top: Element, body: Element, bottom: Element): seq<Store> {
    [Store(top, "textContent", Str("HEADER")), Store(body, "textContent", Str("CONTENT")),
     Store(bottom, "textContent", Str("FOOTER"))]
  }

  /** Constructing an instance of a class whose template holds the index page's
      elements, then assigning the page's state as its constructor does: each text
      `div` ends showing its text. */
  method RenderPage(cls: ComponentType, reg: TemplateRegistry,
                    layout: Element, top: Element, menu: Element, body: Element, bottom: Element,
                    ghost els: set<Element>)
    returns (r: Outcome, header: Value, content: Value, footer: Value)
    requires cls.name in reg.templates
    requires layout in els && top in els && menu in els && body in els && bottom in els
    requires top != body && top != bottom && body != bottom
    requires "bind" !in layout.attrs && "bind" !in menu.attrs
    requires "bind" in top.attrs && top.attrs["bind"] == HeaderBind
    requires "bind" in body.attrs && body.attrs["bind"] == ContentBind
    requires "bind" in bottom.attrs && bottom.attrs["bind"] == FooterBind
    requires PropOf(top.State(), "textContent") != Undefined && PropOf(body.State(), "textContent") != Undefined
    requires PropOf(bottom.State(), "textContent") != Undefined
    modifies els
    ensures r == Pass && header == Str("HEADER") && content == Str("CONTENT") && footer == Str("FOOTER")
  {
    var page := [layout, top, menu, body, bottom];
    assert forall e :: e in page ==> e in els;
    PageFacts(layout, top, menu, body, bottom);
    r := CreateThenAssign(cls, reg, page, PageState,
                          ThreeIndex(top, body, bottom, "textContent", "headerTxt", "contentTxt", "footerTxt"),
                          PageStores(top, body, bottom), els);
    header := PropOf(top.State(), "textContent");
    content := PropOf(body.State(), "textContent");
    footer := PropOf(bottom.State(), "textContent");
  }

  /** The index page of the example application: its template binds the text of three
      `div`s to `headerTxt`, `contentTxt` and `footerTxt`, and the state its
      constructor assigns fills them. */
  method AppIndexPage() returns (r: Outcome, header: Value, content: Value, footer: Value)
    ensures r == Pass && header == Str("HEADER") && content == Str("CONTENT") && footer == Str("FOOTER")
  {
    var reg := new TemplateRegistry();
    var cls := new ComponentType("AppIndex");
    cls.SetTemplate(reg, "<layout-com>...</layout-com>");
    var layout := new Element(map[], map[]);
    var top := new Element(map["textContent" := Str("")], map["slot" := "header", "bind" := HeaderBind]);
    var menu := new Element(map["textContent" := Str("")], map["slot" := "menu"]);
    var body := new Element(map["textContent" := Str("")], map["bind" := ContentBind]);
    var bottom := new Element(map["textContent" := Str("")], map["slot" := "footer", "bind" := FooterBind]);
    r, header, content, footer := RenderPage(cls, reg, layout, top, menu, body, bottom, {layout, top, menu, body, bottom});
  }

  /** A message from `a` on a channel where `a` listens first and `b` second: `b`
      takes it when it accepts it, and `a`, the sender, is left alone. */
  lemma PairDelivery(peers: map<CoreElement, Peer>, a: CoreElement, b: CoreElement, v: Value)
    requires a != b && peers.Keys == {a, b} && Accepts(peers[b], false, v)
    ensures Receivers(peers, [a, b], a, v) == [b]
    ensures Received(peers, [a, b], a, v, a) == peers[a]
    ensures Received(peers, [a, b], a, v, b) == Applied(peers[b], v)
  {
    assert [a, b][..1] == [a] && [a][..0] == [];
    assert Receivers(peers, [a], a, v) == [];
  }

  /** A new instance of a bindable class whose host element binds the property
      `value` to the channel `chan`, connected: it publishes, holds no value yet,
      its fresh handler listens last on the channel, and its `whenConnected`
      callback is queued last. */
  method JoinChannel(win: Window, cls: ComponentType) returns (c: CoreElement)
    requires win.Valid() && cls.bindable
    requires forall l :: l in ListenersOn(win.listeners, "chan") ==> l.serial < win.closures
    modifies win`closures, win`listeners, win`queue, win`nextId
    ensures fresh(c) && c.bindId == "chan" && c.Publishes() && c.BusView() == Peer(true, "value", map[])
    ensures win.Valid() && win.closures == old(win.closures) + 1
    ensures ListenersOn(win.listeners, "chan") == ListenersOn(old(win.listeners), "chan") + [Listener(c, old(win.closures))]
    ensures win.queue == old(win.queue) + [Timer(old(win.nextId), WhenConnected(c))] && win.nextId == old(win.nextId) + 1
  {
    var host := map["bind-prop" := "value", "bind-id" := "chan"];
    assert HostAttr(host, "bind-prop") == "value" && HostAttr(host, "bind-id") == "chan";
    c := new CoreElement(cls, Undefined, map[], host, {});
    c.ConnectedCallback(win);
  }

  /** An instance bound to `title`, a property every element already has as `""`:
      a message carrying `""` finds it held, so the handler does nothing, while a
      message carrying another text is taken. */
  method InheritedTitle() returns (heldEmpty: bool, tookText: bool)
    ensures !heldEmpty && tookText
  {
    var win := new Window();
    var cls := new ComponentType("Field");
    cls.SetBindable(true);
    var host := map["bind-prop" := "title", "bind-id" := "chan"];
    assert HostAttr(host, "bind-prop") == "title" && HostAttr(host, "bind-id") == "chan";
    var c := new CoreElement(cls, Undefined, map["title" := Str("")], host, {});
    c.ConnectedCallback(win);
    var sender := new CoreElement(cls, Undefined, map[], map[], {});
    heldEmpty := c.Handle(win, sender, Str(""));
    tookText := c.Handle(win, sender, Str("x"));
  }

  /** Two connected instances of the class: both listen on `chan`, `a` first, both
      publish, neither holds a value yet, and their `whenConnected` callbacks wait
      in the queue in connection order. */
  method ConnectedPair() returns (win: Window, a: CoreElement, b: CoreElement)
    ensures fresh(win) && fresh(a) && fresh(b) && a != b
    ensures win.Valid() && win.log == [] && win.nextId == 3
    ensures win.queue == [Timer(1, WhenConnected(a)), Timer(2, WhenConnected(b))]
    ensures ListenersOn(win.listeners, "chan") == [Listener(a, 0), Listener(b, 1)]
    ensures a.bindId == "chan" && b.bindId == "chan" && a.Publishes() && b.Publishes()
    ensures a.BusView() == Peer(true, "value", map[]) && b.BusView() == Peer(true, "value", map[])
  {
    win := new Window();
    var cls := new ComponentType("Field");
    cls.SetBindable(true);
    a := JoinChannel(win, cls);
    b := JoinChannel(win, cls);
  }

  /** `a` publishes 5: `b` takes it and is suppressed, one event is logged, and one
      reactivation, for `b`, is queued behind the `whenConnected` callbacks. */
  method PublishOnce(win: Window, a: CoreElement, b: CoreElement)
    requires a != b && win.Valid() && win.log == [] && win.nextId == 3
    requires win.queue == [Timer(1, WhenConnected(a)), Timer(2, WhenConnected(b))]
    requires ListenersOn(win.listeners, "chan") == [Listener(a, 0), Listener(b, 1)]
    requires a.bindId == "chan" && a.Publishes()
    requires a.BusView() == Peer(true, "value", map[]) && b.BusView() == Peer(true, "value", map[])
    modifies a`trace, win`log, win`queue, win`nextId, a`bindActive, a`props, b`bindActive, b`props
    ensures win.Valid() && win.log == [Event("chan", a, Num(5))]
    ensures win.queue == [Timer(1, WhenConnected(a)), Timer(2, WhenConnected(b)), Timer(3, Reactivate(b))]
    ensures b.BusView() == Peer(false, "value", map["value" := Num(5)])
  {
    assert win.Owners("chan") == {a, b};
    ghost var peers := PeersOf({a, b});
    PairDelivery(peers, a, b, Num(5));
    var r := a.Notify(win, "value", Num(5), {a, b});
  }

  /** The receiver echoes the change while suppressed: nothing is published. The
      next two turns of the event loop run the `whenConnected` callbacks, `b` still
      suppressed; the third runs its reactivation. */
  method EchoThenTick(win: Window, a: CoreElement, b: CoreElement, ghost owners: set<CoreElement>)
    returns (events: nat, waiting: bool, reactivated: bool)
    requires win.Valid()
    requires win.queue == [Timer(1, WhenConnected(a)), Timer(2, WhenConnected(b)), Timer(3, Reactivate(b))]
    requires owners == win.Owners(b.bindId) && b in owners && !b.bindActive
    modifies a`trace, b`trace, win`log, win`queue, win`nextId, win`defined, owners`bindActive, owners`props
    ensures events == |old(win.log)| && waiting && reactivated
  {
    var r := b.Notify(win, "value", Num(5), owners);
    events := |win.log|;
    waiting, reactivated := ThreeTurns(win, a, b);
  }

  /** The three queued callbacks run in order: `b` is still suppressed after the two
      `whenConnected` calls and active after its reactivation. */
  method ThreeTurns(win: Window, a: CoreElement, b: CoreElement) returns (waiting: bool, reactivated: bool)
    requires win.Valid() && !b.bindActive
    requires win.queue == [Timer(1, WhenConnected(a)), Timer(2, WhenConnected(b)), Timer(3, Reactivate(b))]
    modifies a`trace, b`trace, win`queue, win`defined, b`bindActive
    ensures waiting && reactivated && win.queue == []
  {
    var t, r;
    assert Writer(win.queue) == {} && WriterTargets(win.queue) == {} && Woken(win.queue) == {};
    t, r := Tick(win);
    assert Writer(win.queue) == {} && WriterTargets(win.queue) == {} && Woken(win.queue) == {};
    t, r := Tick(win);
    waiting := !b.bindActive;
    assert Writer(win.queue) == {} && WriterTargets(win.queue) == {} && Woken(win.queue) == {b};
    t, r := Tick(win);
    reactivated := b.bindActive;
  }

  /** Two instances of a bindable class sharing a channel: `a` publishes a value,
      `b` takes it and is suppressed, so `b`'s echo of the same change publishes
      nothing; `b` stays suppressed while the `whenConnected` callbacks queued
      before its reactivation run, and the turn after them reactivates it. */
  method ChannelExchange() returns (received: Value, events: nat, waiting: bool, reactivated: bool)
    ensures received == Num(5) && events == 1 && waiting && reactivated
  {
    var win, a, b := ConnectedPair();
    PublishOnce(win, a, b);
    received := PropValue(b.props, "value");
    assert win.Owners(b.bindId) == {a, b};
    events, waiting, reactivated := EchoThenTick(win, a, b, {a, b});
  }

  /** The example application's registration of its index page's markup: the
      styles and then the template go into one template, in that order. */
  method AppIndexTemplate() returns (tpl: string)
    ensures tpl == "<style>" + "<layout-com>"
  {
    var reg := new TemplateRegistry();
    var cls := new ComponentType("AppIndex");
    cls.SetStyles(reg, "<style>");
    cls.SetTemplate(reg, "<layout-com>");
    tpl := TemplateOf(reg.templates, "AppIndex");
  }

  /** The `is` setter schedules the definition, which the next turn of the event
      loop makes. A class asking for the tag after that schedules nothing. */
  method AppIndexTag() returns (defined: Outcome, laterTag: Option<string>, pending: nat)
    ensures defined == Pass && laterTag == None && pending == 0
  {
    var win := new Window();
    var cls := new ComponentType("AppIndex");
    cls.SetIs(win, "app-index");
    var t;
    t, defined := Tick(win);
    var other := new ComponentType("Other");
    other.SetIs(win, "app-index");
    laterTag := other.tag;
    pending := |win.queue|;
  }

  /** Two classes asking for the same tag before the event loop turns: both
      definitions are scheduled, the first succeeds and the second throws. */
  method RacingDefinitions() returns (first: Outcome, second: Outcome)
    ensures first == Pass && second == Fail(AlreadyDefined("x-field"))
  {
    var win := new Window();
    var a := new ComponentType("A");
    var b := new ComponentType("B");
    a.SetIs(win, "x-field");
    b.SetIs(win, "x-field");
    var t;
    t, first := Tick(win);
    t, second := Tick(win);
  }
}
