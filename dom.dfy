/** The rendered elements the engine writes to. An element has JavaScript properties
    and HTML attributes; the engine only reads and stores them. */
module Dom {

  import opened JsValues

  /** What an element holds: its defined properties, its attributes, and how many
      stores (property assignments and `setAttribute` calls) it has received. */
  datatype ElemState = ElemState(props: map<string, Value>, attrs: map<string, string>, stores: nat)

  /** `el[name]`: undefined when the element has no such property. */
  function PropOf(es: ElemState, name: string): Value {
    if name in es.props then es.props[name] else Undefined
  }

  function LowerChar(c: char): char {
    if 'A' <= c <= 'Z' then (c as int + 32) as char else c
  }

  /** HTML elements store attribute names in ASCII lower case. */
  function AttrName(name: string): string
    decreases |name|
  {
    if name == [] then [] else [LowerChar(name[0])] + AttrName(name[1..])
  }

  /** The attribute name is the property name with every ASCII capital lowered and
      every other character kept. */
  lemma {:induction false} AttrNameLower(name: string)
    ensures |AttrName(name)| == |name|
    ensures forall i :: 0 <= i < |name| ==> AttrName(name)[i] == LowerChar(name[i])
    ensures forall i :: 0 <= i < |name| ==> !('A' <= AttrName(name)[i] <= 'Z')
    decreases |name|
  {
    if name != [] {
      AttrNameLower(name[1..]);
      assert forall i :: 1 <= i < |name| ==> AttrName(name)[i] == AttrName(name[1..])[i - 1];
    }
  }

  /** `el.getAttribute(name)`: null (None) when the attribute is absent. */
  function AttrOf(es: ElemState, name: string): Option<string> {
    if AttrName(name) in es.attrs then Some(es.attrs[AttrName(name)]) else None
  }

  /** A rendered element. Its lifetime belongs to the render tree; bindings only refer
      to it. */
  class Element {
    var props: map<string, Value>
    var attrs: map<string, string>
    var stores: nat

    constructor (props: map<string, Value>, attrs: map<string, string>)
      ensures State() == ElemState(props, attrs, 0)
    {
      this.props := props;
      this.attrs := attrs;
      this.stores := 0;
    }

    function State(): ElemState
      reads this
    {
      ElemState(props, attrs, stores)
    }

    /** `el[name] = v`. */
    method SetProperty(name: string, v: Value)
      modifies this
      ensures State() == ElemState(old(props)[name := v], old(attrs), old(stores) + 1)
    {
      props := props[name := v];
      stores := stores + 1;
    }

    /** `el.setAttribute(name, value)`. */
    method SetAttribute(name: string, value: string)
      modifies this
      ensures State() == ElemState(old(props), old(attrs)[AttrName(name) := value], old(stores) + 1)
    {
      attrs := attrs[AttrName(name) := value];
      stores := stores + 1;
    }
  }
}
