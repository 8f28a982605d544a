/**
 * Building the intermediate representation from the protocol document.
 * The document is an already-parsed element tree; reading the XML file
 * itself is not part of this model.
 */
module Parse {
  import opened IR
  import CTypes
  import Signature

  /** An element of the document: its tag, its attributes and its child elements in document order. */
  datatype Element = Element(tag: string, attrs: map<string, string>, children: seq<Element>)

  /** The text of an attribute; a missing attribute reads as "". */
  function Attribute(e: Element, key: string): string
  {
    if key in e.attrs then e.attrs[key] else ""
  }

  /** The child elements with the given tag, in document order. */
  function ChildrenNamed(e: Element, tag: string): (r: seq<Element>)
    ensures forall c :: c in r ==> c in e.children && c.tag == tag
  {
    FilterSound(e.children, tag);
    Filter(e.children, tag)
  }

  /** The elements of xs with the given tag, in the order of xs. */
  function Filter(xs: seq<Element>, tag: string): seq<Element>
  {
    if xs == [] then []
    else Filter(xs[..|xs| - 1], tag) + (if xs[|xs| - 1].tag == tag then [xs[|xs| - 1]] else [])
  }

  /** Only elements of xs carrying the tag are selected. */
  lemma {:induction false} FilterSound(xs: seq<Element>, tag: string)
    ensures forall c :: c in Filter(xs, tag) ==> c in xs && c.tag == tag
  {
    if xs != [] {
      var init := xs[..|xs| - 1];
      FilterSound(init, tag);
      assert xs == init + [xs[|xs| - 1]];
    }
  }

  /** No element carrying the tag is left out. */
  lemma {:induction false} FilterComplete(xs: seq<Element>, tag: string, c: Element)
    requires c in xs && c.tag == tag
    ensures c in Filter(xs, tag)
  {
    var init := xs[..|xs| - 1];
    assert xs == init + [xs[|xs| - 1]];
    if c != xs[|xs| - 1] {
      FilterComplete(init, tag, c);
    }
  }

  /** A child is selected by a tag exactly when it carries that tag. */
  lemma ChildrenNamedExact(e: Element, tag: string, c: Element)
    ensures c in ChildrenNamed(e, tag) <==> c in e.children && c.tag == tag
  {
    if c in e.children && c.tag == tag {
      FilterComplete(e.children, tag, c);
    }
  }

  /** One unfolding of the selection at the last element. */
  lemma FilterSnoc(xs: seq<Element>, x: Element, tag: string)
    ensures Filter(xs + [x], tag) == Filter(xs, tag) + (if x.tag == tag then [x] else [])
  {
    assert (xs + [x])[..|xs|] == xs;
  }

  /**
   * Selection keeps document order: the selection from a concatenation is
   * the selection from the first part, then that from the second.
   */
  lemma {:induction false} FilterAppend(xs: seq<Element>, ys: seq<Element>, tag: string)
    ensures Filter(xs + ys, tag) == Filter(xs, tag) + Filter(ys, tag)
    decreases |ys|
  {
    if ys == [] {
      assert xs + ys == xs;
      assert Filter(xs, tag) + [] == Filter(xs, tag);
    } else {
      var init, last := ys[..|ys| - 1], ys[|ys| - 1];
      assert ys == init + [last];
      assert xs + ys == (xs + init) + [last];
      FilterAppend(xs, init, tag);
      FilterSnoc(init, last, tag);
      FilterSnoc(xs + init, last, tag);
    }
  }

  /** An element is selected alone exactly when it carries the tag. */
  lemma FilterOne(x: Element, tag: string)
    ensures Filter([x], tag) == if x.tag == tag then [x] else []
  {
    FilterSnoc([], x, tag);
    assert [] + [x] == [x];
  }

  /** The first child element with the given tag, if any. */
  function FirstChild(e: Element, tag: string): Option<Element>
  {
    var named := ChildrenNamed(e, tag);
    if named == [] then None else Some(named[0])
  }

  /**
   * The interface elements of the document's `protocol` element; a
   * document without one has none.
   */
  function InterfaceElements(doc: Element): seq<Element>
  {
    match FirstChild(doc, "protocol")
    case None => []
    case Some(p) => ChildrenNamed(p, "interface")
  }

  /** Value of the leading decimal digits of s, accumulated onto acc. */
  function LeadingDigits(s: string, acc: nat): nat
  {
    if s == [] || !('0' <= s[0] <= '9') then acc
    else LeadingDigits(s[1..], acc * 10 + (s[0] as int - '0' as int))
  }

  /** The integer value of an attribute text: an optional sign and decimal digits; anything else reads as 0. */
  function AsInt(s: string): int
  {
    if |s| > 0 && s[0] == '-' then -(LeadingDigits(s[1..], 0) as int)
    else if |s| > 0 && s[0] == '+' then LeadingDigits(s[1..], 0)
    else LeadingDigits(s, 0)
  }

  /**
   * One `arg` element. Its C type is computed from its kind first, so an
   * unknown kind aborts before the argument is stored.
   */
  function ParseArg(e: Element): (r: Result<Arg>)
    ensures r.Ok? <==> Attribute(e, "type") in Kinds
    ensures r.Err? ==> r.error == UnknownWpType
    ensures r.Ok? ==> CTypes.ArgTyped(r.value)
    ensures r.Ok? ==> r.value.wlType == Attribute(e, "type") && r.value.name == Attribute(e, "name")
                      && r.value.interface == Attribute(e, "interface")
  {
    match CTypes.WPTypeToCType(Attribute(e, "type"))
    case Err(msg) => Err(msg)
    case Ok(ctype) => Ok(Arg(ctype, Attribute(e, "type"), Attribute(e, "interface"), Attribute(e, "name")))
  }

  /** Some `arg` child of a request or event element has a kind outside the closed set. */
  predicate HasUnknownArg(e: Element)
  {
    exists k :: 0 <= k < |ChildrenNamed(e, "arg")| && Attribute(ChildrenNamed(e, "arg")[k], "type") !in Kinds
  }

  /** One `request` or `event` element with its `arg` children in order. */
  function ParseMessage(e: Element): (r: Result<Message>)
    ensures r.Ok? <==> !HasUnknownArg(e)
    ensures r.Err? ==> r.error == UnknownWpType
    ensures r.Ok? ==> r.value.name == Attribute(e, "name") && |r.value.args| == |ChildrenNamed(e, "arg")|
    ensures r.Ok? ==> forall k :: 0 <= k < |r.value.args| ==> ParseArg(ChildrenNamed(e, "arg")[k]) == Ok(r.value.args[k])
    ensures r.Ok? ==> forall a :: a in r.value.args ==> CTypes.ArgTyped(a)
  {
    match MapAll(ChildrenNamed(e, "arg"), ParseArg)
    case Err(msg) => Err(msg)
    case Ok(args) => Ok(Message(args, Attribute(e, "name")))
  }

  /** Some request or event of an interface element has an argument of unknown kind. */
  predicate InterfaceHasUnknownArg(e: Element)
  {
    || (exists k :: 0 <= k < |ChildrenNamed(e, "request")| && HasUnknownArg(ChildrenNamed(e, "request")[k]))
    || (exists k :: 0 <= k < |ChildrenNamed(e, "event")| && HasUnknownArg(ChildrenNamed(e, "event")[k]))
  }

  /**
   * One `interface` element: its name, its version attribute read as an
   * integer (0 when absent), its requests and then its events.
   */
  function ParseInterface(e: Element): (r: Result<Interface>)
    ensures r.Ok? <==> !InterfaceHasUnknownArg(e)
    ensures r.Err? ==> r.error == UnknownWpType
    ensures r.Ok? ==> r.value.name == Attribute(e, "name") && r.value.version == AsInt(Attribute(e, "version"))
    ensures r.Ok? ==> |r.value.requests| == |ChildrenNamed(e, "request")| && |r.value.events| == |ChildrenNamed(e, "event")|
    ensures r.Ok? ==> forall k :: 0 <= k < |r.value.requests| ==> ParseMessage(ChildrenNamed(e, "request")[k]) == Ok(r.value.requests[k])
    ensures r.Ok? ==> forall k :: 0 <= k < |r.value.events| ==> ParseMessage(ChildrenNamed(e, "event")[k]) == Ok(r.value.events[k])
    ensures r.Ok? ==> CTypes.MessagesTyped(r.value.requests) && CTypes.MessagesTyped(r.value.events)
  {
    match MapAll(ChildrenNamed(e, "request"), ParseMessage)
    case Err(msg) => Err(msg)
    case Ok(requests) =>
      match MapAll(ChildrenNamed(e, "event"), ParseMessage)
      case Err(msg) => Err(msg)
      case Ok(events) => Ok(Interface(requests, events, Attribute(e, "name"), AsInt(Attribute(e, "version"))))
  }

  /**
   * The whole model: one interface per `interface` element, in document
   * order, or the C-type mapping's error if any argument anywhere has an
   * unknown kind. Every stored argument carries the C type of its kind.
   */
  function ParseDocument(doc: Element): (r: Result<seq<Interface>>)
    ensures r.Ok? <==> forall k :: 0 <= k < |InterfaceElements(doc)| ==> !InterfaceHasUnknownArg(InterfaceElements(doc)[k])
    ensures r.Err? ==> r.error == UnknownWpType
    ensures r.Ok? ==> |r.value| == |InterfaceElements(doc)|
    ensures r.Ok? ==> forall k :: 0 <= k < |r.value| ==> ParseInterface(InterfaceElements(doc)[k]) == Ok(r.value[k])
    ensures r.Ok? ==> CTypes.ModelTyped(r.value)
  {
    MapAll(InterfaceElements(doc), ParseInterface)
  }

  /** The argument loop of the schema reader. */
  method ParseArgs(els: seq<Element>) returns (r: Result<seq<Arg>>)
    ensures r == MapAll(els, ParseArg)
  {
    var args: seq<Arg> := [];
    for i := 0 to |els|
      invariant MapAll(els[..i], ParseArg) == Ok(args)
    {
      MapAllSnoc(els, i, ParseArg);
      var arg := els[i];
      var ctype := CTypes.WPTypeToCType(Attribute(arg, "type"));
      if ctype.Err? {
        MapAllStopsAt(els, i + 1, ParseArg);
        return Err(ctype.error);
      }
      var sargm := Arg(ctype.value, Attribute(arg, "type"), Attribute(arg, "interface"), Attribute(arg, "name"));
      args := args + [sargm];
    }
    assert els[..|els|] == els;
    return Ok(args);
  }

  /** The body of the request (or event) loop: the name, then the argument loop. */
  method ReadMessage(el: Element) returns (r: Result<Message>)
    ensures r == ParseMessage(el)
  {
    var name := Attribute(el, "name");
    var args := ParseArgs(ChildrenNamed(el, "arg"));
    if args.Err? {
      return Err(args.error);
    }
    return Ok(Message(args.value, name));
  }

  /** The request loop (or the event loop) of one interface. */
  method ParseMessages(els: seq<Element>) returns (r: Result<seq<Message>>)
    ensures r == MapAll(els, ParseMessage)
  {
    var msgs: seq<Message> := [];
    for i := 0 to |els|
      invariant MapAll(els[..i], ParseMessage) == Ok(msgs)
    {
      MapAllSnoc(els, i, ParseMessage);
      var msg := ReadMessage(els[i]);
      if msg.Err? {
        MapAllStopsAt(els, i + 1, ParseMessage);
        return Err(msg.error);
      }
      msgs := msgs + [msg.value];
    }
    assert els[..|els|] == els;
    return Ok(msgs);
  }

  /** The body of the interface loop: the name, the version, the request loop, then the event loop. */
  method ReadInterface(iface: Element) returns (r: Result<Interface>)
    ensures r == ParseInterface(iface)
  {
    var name := Attribute(iface, "name");
    var version := AsInt(Attribute(iface, "version"));
    var requests := ParseMessages(ChildrenNamed(iface, "request"));
    if requests.Err? {
      return Err(requests.error);
    }
    var events := ParseMessages(ChildrenNamed(iface, "event"));
    if events.Err? {
      return Err(events.error);
    }
    return Ok(Interface(requests.value, events.value, name, version));
  }

  /** The schema reader: the interface loop over the whole document. */
  method ParseXML(doc: Element) returns (r: Result<seq<Interface>>)
    ensures r == ParseDocument(doc)
  {
    var els := InterfaceElements(doc);
    var ifaces: seq<Interface> := [];
    for i := 0 to |els|
      invariant MapAll(els[..i], ParseInterface) == Ok(ifaces)
    {
      MapAllSnoc(els, i, ParseInterface);
      var ifc := ReadInterface(els[i]);
      if ifc.Err? {
        MapAllStopsAt(els, i + 1, ParseInterface);
        return Err(ifc.error);
      }
      ifaces := ifaces + [ifc.value];
    }
    assert els[..|els|] == els;
    return Ok(ifaces);
  }

  /**
   * On a model the reader produced, the signature encoder never fails:
   * every kind it sees was already accepted by the C-type mapping.
   */
  lemma ParsedModelEncodes(doc: Element, i: nat, k: nat)
    requires ParseDocument(doc).Ok?
    requires i < |ParseDocument(doc).value|
    ensures k < |ParseDocument(doc).value[i].requests| ==> Signature.Encode(ParseDocument(doc).value[i].requests[k].args).Ok?
    ensures k < |ParseDocument(doc).value[i].events| ==> Signature.Encode(ParseDocument(doc).value[i].events[k].args).Ok?
  {
    var iface := ParseDocument(doc).value[i];
    assert iface in ParseDocument(doc).value;
    if k < |iface.requests| {
      Signature.TypedMessagesEncode(iface.requests, k);
    }
    if k < |iface.events| {
      Signature.TypedMessagesEncode(iface.events, k);
    }
  }
}
