/** The binding index (`__stateBindingsMap`) and what parsing `bind` declarations does
    to it. Parsing proper is the loop in `Core.CoreElement.ParseTemplateBindings`; this
    module gives the function it is proved against and the properties of that function. */
module Bindings {

  import opened JsValues
  import opened Text
  import opened Dom

  /** `{element, propName}`: a non-owning reference to a view target and the name of
      the property bound on it. */
  datatype Binding = Binding(element: Element, propName: string)

  predicate Distinct(s: seq<string>) {
    forall i, j :: 0 <= i < j < |s| ==> s[i] != s[j]
  }

  /** The index: path -> bindings, with `order` the order in which `for ... in` visits
      the paths (the order they were first added). */
  datatype Index = Index(order: seq<string>, entries: map<string, seq<Binding>>) {
    /** Every path is enumerated once, and exactly the paths with an entry are. */
    ghost predicate Valid() {
      Distinct(order) && (forall k :: k in entries <==> k in order)
    }
  }

  const EmptyIndex: Index := Index([], map[])

  /** The bindings listed under a path; none when the path has no entry. */
  function Entry(idx: Index, key: string): seq<Binding> {
    if key in idx.entries then idx.entries[key] else []
  }

  /** The elements the index refers to. */
  ghost function ElementsOf(idx: Index): set<Element> {
    set k, i | k in idx.entries && 0 <= i < |idx.entries[k]| :: idx.entries[k][i].element
  }

  /** One `;`-separated piece of a declaration, with the element that carries it. */
  datatype Decl = Decl(element: Element, text: string)

  /** The piece has a `[1]` part after splitting on ':' (by `Text.SplitHasSecond`,
      exactly when it contains ':'). */
  predicate WellFormed(text: string) {
    |Split(text, ':')| >= 2
  }

  /** Every piece contains ':'. */
  predicate AllWellFormed(ds: seq<Decl>) {
    forall i :: 0 <= i < |ds| ==> WellFormed(ds[i].text)
  }

  /** `keyValArr[1].trim()`: the path a well-formed piece binds to. */
  function PiecePath(text: string): string
    requires WellFormed(text)
  {
    Trim(Split(text, ':')[1])
  }

  /** `keyValArr[0].trim()`: the property a piece binds. */
  function PieceProp(text: string): string {
    Trim(Split(text, ':')[0])
  }

  /** The index with `b` at the end of the list for `key`, the list being created when
      the key is new (and the key then enumerated last). */
  function AddBinding(idx: Index, key: string, b: Binding): (r: Index)
    ensures forall k :: Entry(r, k) == Entry(idx, k) + (if k == key then [b] else [])
    ensures idx.order <= r.order
    ensures idx.Valid() ==> forall k :: k in r.order <==> k in idx.order || k == key
    ensures idx.Valid() ==> r.Valid()
  {
    if key in idx.entries then
      Index(idx.order, idx.entries[key := idx.entries[key] + [b]])
    else
      var order := idx.order + [key];
      assert forall i :: 0 <= i < |idx.order| ==> order[i] == idx.order[i];
      Index(order, idx.entries[key := [b]])
  }

  /** What one piece contributes: the binding it declares and the path it goes under;
      a piece without ':' throws. */
  function PieceBinding(d: Decl): (r: Result<(string, Binding)>)
    ensures r.Err? <==> !WellFormed(d.text)
    ensures r.Ok? ==> r.value == (PiecePath(d.text), Binding(d.element, PieceProp(d.text)))
  {
    if WellFormed(d.text) then Ok((PiecePath(d.text), Binding(d.element, PieceProp(d.text))))
    else Err(MissingSeparator(d.text))
  }

  /** Index after one piece. */
  function AddPair(idx: Index, d: Decl): (r: Result<Index>)
    ensures r.Err? <==> !WellFormed(d.text)
    ensures r.Ok? ==> r.value == AddBinding(idx, PiecePath(d.text), Binding(d.element, PieceProp(d.text)))
  {
    match PieceBinding(d)
    case Err(f) => Err(f)
    case Ok((key, b)) => Ok(AddBinding(idx, key, b))
  }

  datatype ParseResult = ParseResult(index: Index, fault: Option<Fault>)

  /** The pieces in order, stopping at the first one without ':'. The index built up
      to that point is kept: nothing is rolled back. */
  function Parse(idx: Index, ds: seq<Decl>): ParseResult
    decreases |ds|
  {
    if ds == [] then ParseResult(idx, None)
    else
      var pre := Parse(idx, ds[..|ds| - 1]);
      if pre.fault.Some? then pre
      else
        match AddPair(pre.index, ds[|ds| - 1])
        case Err(f) => ParseResult(pre.index, Some(f))
        case Ok(next) => ParseResult(next, None)
  }

  /** Reference definition: the bindings the pieces contribute to one path, in order. */
  function BindingsFor(key: string, ds: seq<Decl>): seq<Binding>
    decreases |ds|
  {
    if ds == [] then []
    else
      var d := ds[|ds| - 1];
      BindingsFor(key, ds[..|ds| - 1])
        + (if WellFormed(d.text) && PiecePath(d.text) == key then [Binding(d.element, PieceProp(d.text))] else [])
  }

  /** The pieces of one element's declaration, in order. */
  function PieceDecls(el: Element, pieces: seq<string>): (ds: seq<Decl>)
    ensures |ds| == |pieces|
    ensures forall i :: 0 <= i < |pieces| ==> ds[i] == Decl(el, pieces[i])
  {
    seq(|pieces|, i requires 0 <= i < |pieces| => Decl(el, pieces[i]))
  }

  /** `querySelectorAll('[bind]')` over the scanned descendants, in document order. */
  function BindCarriers(subtree: seq<Element>): (r: seq<Element>)
    reads subtree
    ensures forall i :: 0 <= i < |r| ==> "bind" in r[i].attrs && r[i] in subtree
    ensures forall i :: 0 <= i < |subtree| && "bind" in subtree[i].attrs ==> subtree[i] in r
    ensures |r| <= |subtree|
    ensures (forall i :: 0 <= i < |subtree| ==> "bind" in subtree[i].attrs) ==> r == subtree
    decreases |subtree|
  {
    if subtree == [] then []
    else
      var rest := BindCarriers(subtree[..|subtree| - 1]);
      var e := subtree[|subtree| - 1];
      if "bind" in e.attrs then rest + [e] else rest
  }

  /** Document order: the carriers of consecutive parts of the subtree follow each
      other, so each carrier comes after those that precede it in the subtree. */
  lemma {:induction false} BindCarriersConcat(a: seq<Element>, b: seq<Element>)
    ensures BindCarriers(a + b) == BindCarriers(a) + BindCarriers(b)
    decreases |b|
  {
    if b == [] {
      assert a + b == a;
    } else {
      var b' := b[..|b| - 1];
      var e := b[|b| - 1];
      assert (a + b)[..|a + b| - 1] == a + b';
      assert (a + b)[|a + b| - 1] == e;
      BindCarriersConcat(a, b');
      if "bind" in e.attrs {
        assert BindCarriers(a) + BindCarriers(b') + [e] == BindCarriers(a) + (BindCarriers(b') + [e]);
      }
    }
  }

  /** One element is scanned as itself when it carries `bind`, and not otherwise. */
  lemma BindCarriersOne(e: Element)
    ensures BindCarriers([e]) == if "bind" in e.attrs then [e] else []
  {
    assert [e][..0] == [];
  }

  /** Each carrier with its declaration, `el.getAttribute('bind')`. */
  function BindTexts(els: seq<Element>): (r: seq<(Element, string)>)
    requires forall i :: 0 <= i < |els| ==> "bind" in els[i].attrs
    reads els
    ensures |r| == |els|
    ensures forall i :: 0 <= i < |els| ==> r[i] == (els[i], els[i].attrs["bind"])
    decreases |els|
  {
    if els == [] then []
    else
      var e := els[|els| - 1];
      BindTexts(els[..|els| - 1]) + [(e, e.attrs["bind"])]
  }

  /** All pieces of all declarations: element order, then order within the
      declaration (`split(';')`). */
  function Pairs(cs: seq<(Element, string)>): seq<Decl>
    decreases |cs|
  {
    if cs == [] then []
    else
      var (e, text) := cs[|cs| - 1];
      Pairs(cs[..|cs| - 1]) + PieceDecls(e, Split(text, ';'))
  }

  /** What `__parseTemplateBindings` leaves behind: the index, untouched when no
      element carries a declaration and otherwise created if missing and extended,
      and how the call completes. */
  datatype TemplateParse = TemplateParse(bindings: Option<Index>, outcome: Outcome)

  function ParseTemplate(existing: Option<Index>, cs: seq<(Element, string)>): (r: TemplateParse)
    ensures cs == [] ==> r == TemplateParse(existing, Pass)
  {
    if cs == [] then TemplateParse(existing, Pass)
    else
      var res := Parse(if existing.Some? then existing.value else EmptyIndex, Pairs(cs));
      TemplateParse(Some(res.index), if res.fault.None? then Pass else Fail(res.fault.value))
  }

  /** A piece is the `:`-separated parts `parts` (`split(':')` gives them back). With
      one part it throws; otherwise it binds the property named by the trimmed first
      part, on the piece's element, under the path named by the trimmed second part,
      appending that binding to the path's list; later parts are ignored. */
  lemma PieceBindingParts(idx: Index, e: Element, parts: seq<string>)
    requires |parts| >= 1 && forall i :: 0 <= i < |parts| ==> ':' !in parts[i]
    ensures var text := Join(parts, ':');
            && (|parts| == 1 ==> PieceBinding(Decl(e, text)) == Err(MissingSeparator(text))
                                 && AddPair(idx, Decl(e, text)) == Err(MissingSeparator(text)))
            && (|parts| >= 2 ==> PieceBinding(Decl(e, text)) == Ok((Trim(parts[1]), Binding(e, Trim(parts[0]))))
                                 && AddPair(idx, Decl(e, text)).Ok?
                                 && forall k :: Entry(AddPair(idx, Decl(e, text)).value, k)
                                               == Entry(idx, k) + (if k == Trim(parts[1]) then [Binding(e, Trim(parts[0]))] else []))
  {
    SplitJoin(parts, ':');
  }

  /** What `__parseTemplateBindings` does to the index `existing` given the declarations
      `cs`: with none, nothing. Otherwise the index exists afterwards and keeps its
      paths' order; the call completes exactly when every piece contains ':', and then
      every path's list is its old list followed by the bindings the pieces give it. */
  lemma ParseTemplateMeaning(existing: Option<Index>, cs: seq<(Element, string)>)
    ensures var r := ParseTemplate(existing, cs);
            var base := if existing.Some? then existing.value else EmptyIndex;
            var ds := Pairs(cs);
            && (cs == [] ==> r == TemplateParse(existing, Pass))
            && (cs != [] ==> r.bindings.Some? && base.order <= r.bindings.value.order)
            && (cs != [] ==> (r.outcome.Pass? <==> AllWellFormed(ds)))
            && (cs != [] && r.outcome.Pass? ==>
                  forall k :: Entry(r.bindings.value, k) == Entry(base, k) + BindingsFor(k, ds))
  {
    var base := if existing.Some? then existing.value else EmptyIndex;
    if cs != [] {
      var res := Parse(base, Pairs(cs));
      assert ParseTemplate(existing, cs) == TemplateParse(Some(res.index), if res.fault.None? then Pass else Fail(res.fault.value));
      ParseSucceedsIff(base, Pairs(cs));
      ParseKeepsOrder(base, Pairs(cs));
      if Parse(base, Pairs(cs)).fault.None? {
        ParseAppends(base, Pairs(cs));
      }
    }
  }

  /** The pieces of one declaration around its j-th piece. */
  lemma PieceDeclsAt(done: seq<Decl>, el: Element, pieces: seq<string>, j: nat)
    requires j < |pieces|
    ensures done + PieceDecls(el, pieces[..j + 1]) == done + PieceDecls(el, pieces[..j]) + [Decl(el, pieces[j])]
    ensures done + PieceDecls(el, pieces)
            == done + PieceDecls(el, pieces[..j]) + [Decl(el, pieces[j])] + PieceDecls(el, pieces[j + 1..])
  {
    var d := Decl(el, pieces[j]);
    var a, b := PieceDecls(el, pieces[..j]), PieceDecls(el, pieces[..j + 1]);
    var c, all := PieceDecls(el, pieces[j + 1..]), PieceDecls(el, pieces);
    assert b == a + [d] by {
      forall i | 0 <= i < |b| ensures b[i] == (a + [d])[i] {
        assert pieces[..j + 1][i] == pieces[i];
        if i < j { assert pieces[..j][i] == pieces[i]; }
      }
    }
    assert all == b + c by {
      forall i | 0 <= i < |all| ensures all[i] == (b + c)[i] {
        if i <= j { assert pieces[..j + 1][i] == pieces[i]; } else { assert pieces[j + 1..][i - j - 1] == pieces[i]; }
      }
    }
    assert done + all == (done + b) + c;
  }

  /** Adding the j-th piece of a declaration, after a clean parse of what came
      before, either throws, and then the parse of the whole declaration ends with
      that fault and the index as it was, or extends the clean parse by that piece. */
  lemma ParsePieceStep(start: Index, done: seq<Decl>, el: Element, pieces: seq<string>, j: nat, idx: Index)
    requires j < |pieces|
    requires Parse(start, done + PieceDecls(el, pieces[..j])) == ParseResult(idx, None)
    ensures match AddPair(idx, Decl(el, pieces[j]))
            case Err(f) => Parse(start, done + PieceDecls(el, pieces)) == ParseResult(idx, Some(f))
            case Ok(next) => Parse(start, done + PieceDecls(el, pieces[..j + 1])) == ParseResult(next, None)
  {
    var d := Decl(el, pieces[j]);
    var prefix := done + PieceDecls(el, pieces[..j]);
    PieceDeclsAt(done, el, pieces, j);
    ParseStep(start, prefix, d);
    if AddPair(idx, d).Err? {
      ParseFaultSticks(start, prefix + [d], PieceDecls(el, pieces[j + 1..]));
    }
  }

  /** The pieces of consecutive runs of declarations follow each other. */
  lemma {:induction false} PairsConcat(a: seq<(Element, string)>, b: seq<(Element, string)>)
    ensures Pairs(a + b) == Pairs(a) + Pairs(b)
    decreases |b|
  {
    if b == [] {
      assert a + b == a;
    } else {
      var b' := b[..|b| - 1];
      var last := PieceDecls(b[|b| - 1].0, Split(b[|b| - 1].1, ';'));
      assert (a + b)[..|a + b| - 1] == a + b';
      assert (a + b)[|a + b| - 1] == b[|b| - 1];
      assert Pairs(a + b) == Pairs(a + b') + last;
      assert Pairs(b) == Pairs(b') + last;
      PairsConcat(a, b');
      assert Pairs(a) + Pairs(b') + last == Pairs(a) + (Pairs(b') + last);
    }
  }

  /** The pieces of the first i + 1 declarations extend those of the first i by the
      (i+1)-th declaration's, and a fault met by then is the answer for all of them. */
  lemma PairsStep(start: Index, cs: seq<(Element, string)>, i: nat)
    requires i < |cs|
    ensures Pairs(cs[..i + 1]) == Pairs(cs[..i]) + PieceDecls(cs[i].0, Split(cs[i].1, ';'))
    ensures Parse(start, Pairs(cs[..i + 1])).fault.Some? ==>
              Parse(start, Pairs(cs)) == Parse(start, Pairs(cs[..i + 1]))
  {
    assert cs[..i + 1][..i] == cs[..i];
    PairsConcat(cs[..i + 1], cs[i + 1..]);
    assert cs[..i + 1] + cs[i + 1..] == cs;
    if Parse(start, Pairs(cs[..i + 1])).fault.Some? {
      ParseFaultSticks(start, Pairs(cs[..i + 1]), Pairs(cs[i + 1..]));
    }
  }

  /** A fault, once met, is the final answer: later pieces are never looked at. */
  lemma {:induction false} ParseFaultSticks(idx: Index, ds: seq<Decl>, more: seq<Decl>)
    requires Parse(idx, ds).fault.Some?
    ensures Parse(idx, ds + more) == Parse(idx, ds)
    decreases |more|
  {
    if more != [] {
      var init := more[..|more| - 1];
      ParseFaultSticks(idx, ds, init);
      var all := ds + more;
      assert all[..|all| - 1] == ds + init;
    } else {
      assert ds + more == ds;
    }
  }

  /** One more piece after a clean prefix is one more AddPair. */
  lemma ParseStep(idx: Index, ds: seq<Decl>, d: Decl)
    requires Parse(idx, ds).fault.None?
    ensures Parse(idx, ds + [d]) == match AddPair(Parse(idx, ds).index, d)
                                    case Err(f) => ParseResult(Parse(idx, ds).index, Some(f))
                                    case Ok(next) => ParseResult(next, None)
  {
    assert (ds + [d])[..|ds|] == ds;
  }

  /** Parsing succeeds exactly when every piece contains ':'. */
  lemma {:induction false} ParseSucceedsIff(idx: Index, ds: seq<Decl>)
    ensures Parse(idx, ds).fault.None? <==> AllWellFormed(ds)
    decreases |ds|
  {
    if ds != [] {
      var ds' := ds[..|ds| - 1];
      var d := ds[|ds| - 1];
      ParseSucceedsIff(idx, ds');
      assert ds == ds' + [d];
      if Parse(idx, ds').fault.None? {
        ParseStep(idx, ds', d);
      } else {
        ParseFaultSticks(idx, ds', [d]);
      }
      assert (forall i :: 0 <= i < |ds| ==> WellFormed(ds[i].text))
             <==> (forall i :: 0 <= i < |ds'| ==> WellFormed(ds'[i].text)) && WellFormed(d.text);
    }
  }

  /** On a fault, the index is the one built from the pieces before the first bad
      piece, and the fault names that piece. */
  lemma {:induction false} ParseStopsAtFirstBad(idx: Index, ds: seq<Decl>, i: nat)
    requires i < |ds| && !WellFormed(ds[i].text)
    requires forall j :: 0 <= j < i ==> WellFormed(ds[j].text)
    ensures Parse(idx, ds[..i]).fault.None?
    ensures Parse(idx, ds) == ParseResult(Parse(idx, ds[..i]).index, Some(MissingSeparator(ds[i].text)))
  {
    var pre := ds[..i];
    ParseSucceedsIff(idx, pre);
    assert ds[..i + 1] == pre + [ds[i]];
    ParseStep(idx, pre, ds[i]);
    ParseFaultSticks(idx, ds[..i + 1], ds[i + 1..]);
    assert ds[..i + 1] + ds[i + 1..] == ds;
  }

  /** Parsing appends: every path's list becomes its old list followed by the bindings
      the pieces contribute to it, in piece order; paths no piece names keep their list. */
  lemma {:induction false} ParseAppends(idx: Index, ds: seq<Decl>)
    requires Parse(idx, ds).fault.None?
    ensures forall k :: Entry(Parse(idx, ds).index, k) == Entry(idx, k) + BindingsFor(k, ds)
    decreases |ds|
  {
    if ds != [] {
      var ds' := ds[..|ds| - 1];
      ParseAppends(idx, ds');
      var d := ds[|ds| - 1];
      forall k ensures Entry(Parse(idx, ds).index, k) == Entry(idx, k) + BindingsFor(k, ds) {
        var extra := if WellFormed(d.text) && PiecePath(d.text) == k then [Binding(d.element, PieceProp(d.text))] else [];
        assert Entry(idx, k) + BindingsFor(k, ds') + extra == Entry(idx, k) + (BindingsFor(k, ds') + extra);
      }
    }
  }

  /** Paths already in the index keep their place in the enumeration order; new
      paths follow, and a path is enumerated exactly when it was before or some piece
      binds to it. */
  lemma {:induction false} ParseKeepsOrder(idx: Index, ds: seq<Decl>)
    ensures idx.order <= Parse(idx, ds).index.order
    ensures idx.Valid() && Parse(idx, ds).fault.None? ==>
              forall k :: k in Parse(idx, ds).index.order <==> k in idx.order || BindingsFor(k, ds) != []
    decreases |ds|
  {
    if ds != [] {
      var ds' := ds[..|ds| - 1];
      ParseKeepsOrder(idx, ds');
      if idx.Valid() {
        ParseValid(idx, ds');
      }
    }
  }

  /** Parsing keeps the index well formed. */
  lemma {:induction false} ParseValid(idx: Index, ds: seq<Decl>)
    requires idx.Valid()
    ensures Parse(idx, ds).index.Valid()
    decreases |ds|
  {
    if ds != [] {
      ParseValid(idx, ds[..|ds| - 1]);
    }
  }

  /** The elements a sequence of pieces comes from. */
  ghost function DeclElements(ds: seq<Decl>): set<Element> {
    set j | 0 <= j < |ds| :: ds[j].element
  }

  /** Adding a binding adds its element and no other. */
  lemma AddBindingElements(idx: Index, key: string, b: Binding)
    ensures ElementsOf(AddBinding(idx, key, b)) <= ElementsOf(idx) + {b.element}
  {
    var r := AddBinding(idx, key, b);
    forall e | e in ElementsOf(r) ensures e in ElementsOf(idx) || e == b.element {
      var k, i :| k in r.entries && 0 <= i < |r.entries[k]| && r.entries[k][i].element == e;
      assert Entry(r, k) == r.entries[k];
      if i < |Entry(idx, k)| {
        assert idx.entries[k][i] == r.entries[k][i];
      }
    }
  }

  /** The index only ever refers to elements it referred to or that carry a piece. */
  lemma {:induction false} ParseElements(idx: Index, ds: seq<Decl>)
    ensures ElementsOf(Parse(idx, ds).index) <= ElementsOf(idx) + DeclElements(ds)
    decreases |ds|
  {
    if ds != [] {
      var init := ds[..|ds| - 1];
      var d := ds[|ds| - 1];
      ParseElements(idx, init);
      forall e | e in DeclElements(init) ensures e in DeclElements(ds) {
        var j :| 0 <= j < |init| && init[j].element == e;
        assert ds[j] == init[j];
      }
      assert d.element in DeclElements(ds);
      var pre := Parse(idx, init);
      if pre.fault.None? && WellFormed(d.text) {
        AddBindingElements(pre.index, PiecePath(d.text), Binding(d.element, PieceProp(d.text)));
      }
    }
  }

  /** Every piece comes from one of the declarations. */
  lemma {:induction false} PairsElements(cs: seq<(Element, string)>)
    ensures forall e :: e in DeclElements(Pairs(cs)) ==> exists m :: 0 <= m < |cs| && cs[m].0 == e
    decreases |cs|
  {
    if cs != [] {
      var init := cs[..|cs| - 1];
      var (el, text) := cs[|cs| - 1];
      PairsElements(init);
      var pre := Pairs(init);
      var last := PieceDecls(el, Split(text, ';'));
      forall e | e in DeclElements(Pairs(cs)) ensures exists m :: 0 <= m < |cs| && cs[m].0 == e {
        var j :| 0 <= j < |Pairs(cs)| && Pairs(cs)[j].element == e;
        if j < |pre| {
          assert pre[j].element == e && e in DeclElements(pre);
          var m :| 0 <= m < |init| && init[m].0 == e;
          assert cs[m] == init[m];
        } else {
          assert last[j - |pre|].element == el;
          assert cs[|cs| - 1].0 == e;
        }
      }
    }
  }

  /** A declaration written `prop: path`, with neither part holding a separator or
      surrounding whitespace, is one piece binding `prop` to `path`. */
  lemma DeclParts(prop: string, path: string)
    requires ':' !in prop && ';' !in prop && ':' !in path && ';' !in path
    requires Trim(prop) == prop && Trim(path) == path
    ensures var text := prop + ": " + path;
            && Split(text, ';') == [text]
            && WellFormed(text) && PiecePath(text) == path && PieceProp(text) == prop
  {
    var text := prop + ": " + path;
    var tail := " " + path;
    assert text == prop + [':'] + tail;
    assert ';' !in text;
    assert ':' !in tail;
    SplitNone(text, ';');
    assert Join([prop, tail], ':') == text;
    SplitJoin([prop, tail], ':');
    TrimIgnoresPadding(" ", path, "");
    assert " " + path + "" == tail;
  }
}
