/**
 * The declarations file, as structured rows: per interface, the class with
 * a setter per request, a sender declaration per event, and the stored
 * request callbacks.
 */
module Header {
  import opened IR
  import Camel
  import ArgList

  /** `set<Request>(handler)`: installs the callback of one request; params are the callback's extra parameter types. */
  datatype Setter = Setter(name: string, params: string)

  /** `send<Event>(...)`: the declaration of one event sender. */
  datatype SenderDecl = SenderDecl(name: string, params: string)

  /** One member of the `requests` storage struct: the callback type's extra parameters and the member name. */
  datatype Slot = Slot(params: string, member: string)

  datatype ClassDecl = ClassDecl(name: string, setters: seq<Setter>, senders: seq<SenderDecl>, slots: seq<Slot>)

  function SetterOf(rq: Request): Setter
  {
    Setter(Camel.Camel("set_" + rq.name), ArgList.Suffix(rq.args, ArgList.TypeOnly))
  }

  function SenderDeclOf(ev: Event): SenderDecl
  {
    SenderDecl(Camel.Camel("send_" + ev.name), ArgList.Join(ArgList.Items(ev.args, ArgList.TypeOnly), ", "))
  }

  function SlotOf(rq: Request): Slot
  {
    Slot(ArgList.Suffix(rq.args, ArgList.TypeOnly), Camel.Camel(rq.name))
  }

  function ClassDeclOf(iface: Interface): ClassDecl
  {
    ClassDecl(Camel.Camel("C_" + iface.name),
              seq(|iface.requests|, k requires 0 <= k < |iface.requests| => SetterOf(iface.requests[k])),
              seq(|iface.events|, k requires 0 <= k < |iface.events| => SenderDeclOf(iface.events[k])),
              seq(|iface.requests|, k requires 0 <= k < |iface.requests| => SlotOf(iface.requests[k])))
  }

  method DeclareSetter(rq: Request) returns (setter: Setter)
    ensures setter == SetterOf(rq)
  {
    var args := ArgList.PrefixedList(rq.args, ArgList.TypeOnly);
    var name := Camel.Camelize("set_" + rq.name);
    setter := Setter(name, args);
  }

  method DeclareSender(ev: Event) returns (sender: SenderDecl)
    ensures sender == SenderDeclOf(ev)
  {
    var args := ArgList.PlainList(ev.args, ArgList.TypeOnly);
    var name := Camel.Camelize("send_" + ev.name);
    sender := SenderDecl(name, args);
  }

  method DeclareSlot(rq: Request) returns (slot: Slot)
    ensures slot == SlotOf(rq)
  {
    var args := ArgList.PrefixedList(rq.args, ArgList.TypeOnly);
    var member := Camel.Camelize(rq.name);
    slot := Slot(args, member);
  }

  /** The setter loop of one class. */
  method DeclareSetters(iface: Interface) returns (setters: seq<Setter>)
    ensures setters == ClassDeclOf(iface).setters
  {
    setters := [];
    for k := 0 to |iface.requests|
      invariant |setters| == k
      invariant forall j :: 0 <= j < k ==> setters[j] == SetterOf(iface.requests[j])
    {
      var setter := DeclareSetter(iface.requests[k]);
      setters := setters + [setter];
    }
  }

  /** The event loop of one class. */
  method DeclareSenders(iface: Interface) returns (senders: seq<SenderDecl>)
    ensures senders == ClassDeclOf(iface).senders
  {
    senders := [];
    for k := 0 to |iface.events|
      invariant |senders| == k
      invariant forall j :: 0 <= j < k ==> senders[j] == SenderDeclOf(iface.events[j])
    {
      var sender := DeclareSender(iface.events[k]);
      senders := senders + [sender];
    }
  }

  /** The storage loop of one class. */
  method DeclareSlots(iface: Interface) returns (slots: seq<Slot>)
    ensures slots == ClassDeclOf(iface).slots
  {
    slots := [];
    for k := 0 to |iface.requests|
      invariant |slots| == k
      invariant forall j :: 0 <= j < k ==> slots[j] == SlotOf(iface.requests[j])
    {
      var slot := DeclareSlot(iface.requests[k]);
      slots := slots + [slot];
    }
  }

  /** The declarations generator: one class per interface, in order. */
  method ParseHeader(ifaces: seq<Interface>) returns (classes: seq<ClassDecl>)
    ensures |classes| == |ifaces|
    ensures forall i :: 0 <= i < |ifaces| ==> classes[i] == ClassDeclOf(ifaces[i])
  {
    classes := [];
    for i := 0 to |ifaces|
      invariant |classes| == i
      invariant forall j :: 0 <= j < i ==> classes[j] == ClassDeclOf(ifaces[j])
    {
      var name := Camel.Camelize("C_" + ifaces[i].name);
      var setters := DeclareSetters(ifaces[i]);
      var senders := DeclareSenders(ifaces[i]);
      var slots := DeclareSlots(ifaces[i]);
      classes := classes + [ClassDecl(name, setters, senders, slots)];
    }
  }

  /**
   * Each class has one setter and one stored callback per request and one
   * sender per event; setter k installs a callback of exactly the type
   * stored in slot k.
   */
  lemma SettersMatchSlots(iface: Interface, k: nat)
    requires k < |iface.requests|
    ensures var c := ClassDeclOf(iface);
            && |c.setters| == |c.slots| == |iface.requests| && |c.senders| == |iface.events|
            && c.setters[k].params == c.slots[k].params
            && c.slots[k].member == Camel.Camel(iface.requests[k].name)
  {
  }
}
