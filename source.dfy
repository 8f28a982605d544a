/**
 * The definitions file, as structured rows: the extern block, and per
 * interface the request handlers, the vtable, the event senders, the
 * per-request type tables and the message table.
 */
module Source {
  import opened IR
  import Camel
  import ArgList
  import Signature
  import Externs
  import CTypes

  function ClassName(iface: string): string
  {
    Camel.Camel("C_" + iface)
  }

  function HandlerName(iface: string, request: string): string
  {
    Camel.Camel("_" + "C_" + iface + "_" + request)
  }

  function SenderName(event: string): string
  {
    Camel.Camel("send_" + event)
  }

  function TypeTableName(iface: string, request: string): string
  {
    Camel.Camel("_" + "C_" + iface + "_" + request + "_types")
  }

  function MessageTableName(iface: string): string
  {
    Camel.Camel("_" + "C_" + iface + "_message")
  }

  function VTableName(iface: string): string
  {
    "_" + ClassName(iface) + "VTable"
  }

  /**
   * A static request handler: it receives the client, the resource and the
   * typed parameters, and forwards the arguments to the stored callback
   * `slot` when one is installed.
   */
  datatype Handler = Handler(name: string, params: string, slot: string, forward: string)

  function HandlerOf(iface: string, rq: Request): Handler
  {
    Handler(HandlerName(iface, rq.name), ArgList.Suffix(rq.args, ArgList.TypeAndName),
            Camel.Camel(rq.name), ArgList.Suffix(rq.args, ArgList.NameOnly))
  }

  function HandlersOf(iface: Interface): seq<Handler>
  {
    seq(|iface.requests|, k requires 0 <= k < |iface.requests| => HandlerOf(iface.name, iface.requests[k]))
  }

  /** The vtable: the handler of every request, in request order. */
  function VTableOf(iface: Interface): seq<string>
  {
    seq(|iface.requests|, k requires 0 <= k < |iface.requests| => HandlerName(iface.name, iface.requests[k].name))
  }

  /** The definition of an event sender: it posts event number `opcode` with the forwarded arguments. */
  datatype Sender = Sender(name: string, params: string, opcode: nat, forward: string)

  function SenderOf(ev: Event, opcode: nat): Sender
  {
    Sender(SenderName(ev.name), ArgList.Suffix(ev.args, ArgList.TypeAndName), opcode, ArgList.Suffix(ev.args, ArgList.NameOnly))
  }

  function SendersOf(iface: Interface): seq<Sender>
  {
    seq(|iface.events|, k requires 0 <= k < |iface.events| => SenderOf(iface.events[k], k))
  }

  /** One slot of a type table: `nullptr`, or the address of a named interface's descriptor. */
  datatype TypeEntry = NullEntry | InterfaceEntry(interface: string)

  datatype TypeTable = TypeTable(name: string, entries: seq<TypeEntry>)

  function EntryOf(a: Arg): TypeEntry
  {
    if a.interface == "" then NullEntry else InterfaceEntry(a.interface)
  }

  /** The type table of a request: one slot per argument, null exactly for the untyped ones. */
  function TypeTableOf(iface: string, rq: Request): (t: TypeTable)
    ensures |t.entries| == |rq.args|
    ensures forall j :: 0 <= j < |rq.args| ==> (t.entries[j] == NullEntry <==> rq.args[j].interface == "")
    ensures forall j :: 0 <= j < |rq.args| && rq.args[j].interface != "" ==> t.entries[j] == InterfaceEntry(rq.args[j].interface)
  {
    TypeTable(TypeTableName(iface, rq.name), seq(|rq.args|, j requires 0 <= j < |rq.args| => EntryOf(rq.args[j])))
  }

  /** The type tables of an interface: one per request that has arguments, in request order. */
  function TypeTablesOf(iface: string, rqs: seq<Request>): seq<TypeTable>
  {
    if rqs == [] then []
    else
      var last := rqs[|rqs| - 1];
      TypeTablesOf(iface, rqs[..|rqs| - 1]) + (if last.args == [] then [] else [TypeTableOf(iface, last)])
  }

  /** How many requests have at least one argument. */
  function WithArgs(rqs: seq<Request>): nat
  {
    if rqs == [] then 0 else WithArgs(rqs[..|rqs| - 1]) + (if rqs[|rqs| - 1].args == [] then 0 else 1)
  }

  /** The types pointer of a message row: the shared dummy table, or the request's own table. */
  datatype TypesRef = DummyTypes | TableTypes(table: string)

  /** One row of the message table: name, wire signature and types pointer. */
  datatype MessageRow = MessageRow(name: string, signature: string, types: TypesRef)

  function MessageRowOf(iface: string, rq: Request): Result<MessageRow>
  {
    match Signature.Encode(rq.args)
    case Err(e) => Err(e)
    case Ok(sig) => Ok(MessageRow(rq.name, sig, if rq.args == [] then DummyTypes else TableTypes(TypeTableName(iface, rq.name))))
  }

  function MessagesOf(iface: Interface): Result<seq<MessageRow>>
  {
    MapAll(iface.requests, (rq: Request) => MessageRowOf(iface.name, rq))
  }

  /**
   * Everything generated for one interface; `descriptor` is the interface
   * descriptor its constructor passes to `wl_resource_create`.
   */
  datatype InterfaceDefs = InterfaceDefs(
    className: string,
    descriptor: string,
    handlers: seq<Handler>,
    vtableName: string,
    vtable: seq<string>,
    senders: seq<Sender>,
    typeTables: seq<TypeTable>,
    messageTableName: string,
    messages: seq<MessageRow>)

  function DefsOf(iface: Interface): Result<InterfaceDefs>
  {
    match MessagesOf(iface)
    case Err(e) => Err(e)
    case Ok(ms) =>
      Ok(InterfaceDefs(ClassName(iface.name), Externs.Symbol(iface.name), HandlersOf(iface), VTableName(iface.name), VTableOf(iface),
                       SendersOf(iface), TypeTablesOf(iface.name, iface.requests), MessageTableName(iface.name), ms))
  }

  /** The definitions file: the header it includes, the extern block, then every interface. */
  datatype SourceDefs = SourceDefs(header: string, externs: seq<Externs.ExternDecl>, interfaces: seq<InterfaceDefs>)

  function SourceOf(fileName: string, ifaces: seq<Interface>): Result<SourceDefs>
  {
    match MapAll(ifaces, DefsOf)
    case Err(e) => Err(e)
    case Ok(defs) => Ok(SourceDefs(fileName + ".hpp", Externs.ExternRows(Externs.Dedup(Externs.Candidates(ifaces))), defs))
  }

  // ---------------------------------------------------------------- properties

  /** A table is generated exactly for each request that has arguments, and for no other. */
  lemma {:induction false} TypeTablesExactly(iface: string, rqs: seq<Request>, t: TypeTable)
    ensures |TypeTablesOf(iface, rqs)| == WithArgs(rqs)
    ensures t in TypeTablesOf(iface, rqs) <==> exists k :: 0 <= k < |rqs| && rqs[k].args != [] && t == TypeTableOf(iface, rqs[k])
  {
    if rqs != [] {
      var init := rqs[..|rqs| - 1];
      var last := rqs[|rqs| - 1];
      TypeTablesExactly(iface, init, t);
      if t in TypeTablesOf(iface, rqs) && t !in TypeTablesOf(iface, init) {
        assert last.args != [] && t == TypeTableOf(iface, last);
      }
      if k :| 0 <= k < |rqs| && rqs[k].args != [] && t == TypeTableOf(iface, rqs[k]) {
        if k < |rqs| - 1 {
          assert init[k] == rqs[k];
        }
      }
    }
  }

  /**
   * Row k of the message table describes request k: its name, its wire
   * signature, and a types pointer that is the shared dummy table exactly
   * when the request has no arguments and otherwise names the request's own
   * type table. That table has one slot per argument, while the signature
   * spends three characters on an untyped `new_id`.
   */
  lemma MessageRowResolves(iface: Interface, k: nat)
    requires MessagesOf(iface).Ok?
    requires k < |iface.requests|
    ensures |MessagesOf(iface).value| == |iface.requests|
    ensures var row := MessagesOf(iface).value[k];
            var rq := iface.requests[k];
            && row.name == rq.name
            && Signature.Encode(rq.args) == Ok(row.signature)
            && (row.types == DummyTypes <==> rq.args == [])
            && (row.types.TableTypes? ==>
                  var t := TypeTableOf(iface.name, rq);
                  t in TypeTablesOf(iface.name, iface.requests) && t.name == row.types.table
                  && |row.signature| == |t.entries| + 2 * Signature.UntypedNewIds(rq.args))
  {
    var rq := iface.requests[k];
    var row := MessagesOf(iface).value[k];
    assert MessageRowOf(iface.name, rq) == Ok(row);
    if rq.args != [] {
      TypeTablesExactly(iface.name, iface.requests, TypeTableOf(iface.name, rq));
      Signature.EncodeLength(rq.args);
    }
  }

  /**
   * The three per-interface tables line up: for every request opcode k,
   * the vtable's slot k is the handler of request k, that handler calls the
   * stored callback of request k, and message row k describes request k.
   */
  lemma TablesAligned(iface: Interface, k: nat)
    requires DefsOf(iface).Ok?
    requires k < |iface.requests|
    ensures var d := DefsOf(iface).value;
            && |d.vtable| == |d.handlers| == |d.messages| == |iface.requests|
            && d.vtable[k] == d.handlers[k].name
            && d.handlers[k].slot == Camel.Camel(iface.requests[k].name)
            && d.messages[k].name == iface.requests[k].name
  {
    MessageRowResolves(iface, k);
  }

  /** Event k is posted with opcode k, by the sender named after event k. */
  lemma SendersNumbered(iface: Interface, k: nat)
    requires k < |iface.events|
    ensures |SendersOf(iface)| == |iface.events|
    ensures SendersOf(iface)[k].opcode == k && SendersOf(iface)[k].name == SenderName(iface.events[k].name)
    ensures SendersOf(iface)[k].params == ArgList.Suffix(iface.events[k].args, ArgList.TypeAndName)
  {
  }

  /** Every request of every interface has a wire signature. */
  predicate RequestsEncode(ifaces: seq<Interface>)
  {
    forall i, k :: 0 <= i < |ifaces| && 0 <= k < |ifaces[i].requests| ==> Signature.Encode(ifaces[i].requests[k].args).Ok?
  }

  lemma MessagesOfOk(iface: Interface)
    ensures MessagesOf(iface).Ok? <==> forall k :: 0 <= k < |iface.requests| ==> Signature.Encode(iface.requests[k].args).Ok?
    ensures MessagesOf(iface).Err? ==> MessagesOf(iface).error == UnknownArg
  {
    var f := (rq: Request) => MessageRowOf(iface.name, rq);
    assert forall k :: 0 <= k < |iface.requests| ==> (f(iface.requests[k]).Ok? <==> Signature.Encode(iface.requests[k].args).Ok?);
  }

  /**
   * Generating the definitions fails exactly when some request has an
   * argument the signature encoder rejects, and then with its message;
   * otherwise there is one set of definitions per interface, in order.
   */
  lemma SourceSucceeds(fileName: string, ifaces: seq<Interface>)
    ensures SourceOf(fileName, ifaces).Ok? <==> RequestsEncode(ifaces)
    ensures SourceOf(fileName, ifaces).Err? ==> SourceOf(fileName, ifaces).error == UnknownArg
    ensures SourceOf(fileName, ifaces).Ok? ==>
              |SourceOf(fileName, ifaces).value.interfaces| == |ifaces|
              && forall i :: 0 <= i < |ifaces| ==> DefsOf(ifaces[i]) == Ok(SourceOf(fileName, ifaces).value.interfaces[i])
  {
    forall i | 0 <= i < |ifaces|
      ensures DefsOf(ifaces[i]).Ok? <==> forall k :: 0 <= k < |ifaces[i].requests| ==> Signature.Encode(ifaces[i].requests[k].args).Ok?
      ensures DefsOf(ifaces[i]).Err? ==> DefsOf(ifaces[i]).error == UnknownArg
    {
      MessagesOfOk(ifaces[i]);
    }
    if MapAll(ifaces, DefsOf).Err? {
      var i :| 0 <= i < |ifaces| && DefsOf(ifaces[i]) == Err(MapAll(ifaces, DefsOf).error);
    }
  }

  /** On a model whose arguments all carry the C type of a known kind, generation cannot fail. */
  lemma TypedModelGenerates(fileName: string, ifaces: seq<Interface>)
    requires CTypes.ModelTyped(ifaces)
    ensures SourceOf(fileName, ifaces).Ok?
  {
    forall i, k | 0 <= i < |ifaces| && 0 <= k < |ifaces[i].requests|
      ensures Signature.Encode(ifaces[i].requests[k].args).Ok?
    {
      assert ifaces[i] in ifaces;
      Signature.TypedMessagesEncode(ifaces[i].requests, k);
    }
    SourceSucceeds(fileName, ifaces);
  }

  /**
   * The descriptor each interface's constructor binds its resource to is
   * declared in the extern block.
   */
  lemma ResourceDescriptorDeclared(fileName: string, ifaces: seq<Interface>, k: nat)
    requires SourceOf(fileName, ifaces).Ok?
    requires k < |ifaces|
    ensures |SourceOf(fileName, ifaces).value.interfaces| == |ifaces|
    ensures var d := SourceOf(fileName, ifaces).value.interfaces[k].descriptor;
            d == Externs.Symbol(ifaces[k].name)
            && Externs.ExternDecl(d, Camel.Camel(d)) in SourceOf(fileName, ifaces).value.externs
  {
    SourceSucceeds(fileName, ifaces);
    var d := Externs.Symbol(ifaces[k].name);
    assert ifaces[k] in ifaces && Externs.Mentions(ifaces[k], d);
    Externs.DeclaredExactly(ifaces, d);
    Declared(ifaces, d);
  }

  /** A declared symbol has its row in the extern block. */
  lemma Declared(ifaces: seq<Interface>, x: string)
    requires x in Externs.Dedup(Externs.Candidates(ifaces))
    ensures Externs.ExternDecl(x, Camel.Camel(x)) in Externs.ExternRows(Externs.Dedup(Externs.Candidates(ifaces)))
  {
    var ds := Externs.Dedup(Externs.Candidates(ifaces));
    var j :| 0 <= j < |ds| && ds[j] == x;
    assert Externs.ExternRows(ds)[j] == Externs.ExternDecl(x, Camel.Camel(x));
  }

  /** Every interface a type table points at is declared in the extern block. */
  lemma TypeTableTargetsDeclared(fileName: string, ifaces: seq<Interface>, k: nat, t: TypeTable, x: string)
    requires SourceOf(fileName, ifaces).Ok?
    requires k < |ifaces|
    requires t in TypeTablesOf(ifaces[k].name, ifaces[k].requests)
    requires InterfaceEntry(x) in t.entries
    ensures Externs.ExternDecl(Externs.Symbol(x), Camel.Camel(Externs.Symbol(x))) in SourceOf(fileName, ifaces).value.externs
  {
    var iface := ifaces[k];
    TypeTablesExactly(iface.name, iface.requests, t);
    var r :| 0 <= r < |iface.requests| && iface.requests[r].args != [] && t == TypeTableOf(iface.name, iface.requests[r]);
    var rq := iface.requests[r];
    var j :| 0 <= j < |t.entries| && t.entries[j] == InterfaceEntry(x);
    assert rq.args[j].interface == x && x != "";
    assert rq.args[j] in rq.args && Externs.ArgsRefer(rq.args, Externs.Symbol(x));
    assert rq in iface.requests && Externs.MessagesRefer(iface.requests, Externs.Symbol(x));
    assert iface in ifaces && Externs.Mentions(iface, Externs.Symbol(x));
    Externs.DeclaredExactly(ifaces, Externs.Symbol(x));
    Declared(ifaces, Externs.Symbol(x));
  }

  // ---------------------------------------------------------------- loops

  /** The handler of one request: its name, its typed parameters and the forwarded arguments. */
  method EmitHandler(iface: string, rq: Request) returns (h: Handler)
    ensures h == HandlerOf(iface, rq)
  {
    var name := Camel.Camelize("_" + "C_" + iface + "_" + rq.name);
    var argsC := ArgList.PrefixedList(rq.args, ArgList.TypeAndName);
    var argsN := ArgList.PrefixedList(rq.args, ArgList.NameOnly);
    var slot := Camel.Camelize(rq.name);
    h := Handler(name, argsC, slot, argsN);
  }

  /** The handler loop of one interface. */
  method EmitHandlers(iface: Interface) returns (hs: seq<Handler>)
    ensures hs == HandlersOf(iface)
  {
    hs := [];
    ghost var spec := HandlersOf(iface);
    for k := 0 to |iface.requests|
      invariant hs == spec[..k]
    {
      var h := EmitHandler(iface.name, iface.requests[k]);
      assert spec[..k + 1] == spec[..k] + [h];
      hs := hs + [h];
    }
    assert spec[..|iface.requests|] == spec;
  }

  /** The vtable loop: one row per request, in request order. */
  method EmitVTable(iface: Interface) returns (rows: seq<string>)
    ensures |rows| == |iface.requests|
    ensures forall k :: 0 <= k < |rows| ==> rows[k] == HandlerOf(iface.name, iface.requests[k]).name
    ensures rows == VTableOf(iface)
  {
    rows := [];
    for k := 0 to |iface.requests|
      invariant |rows| == k
      invariant forall j :: 0 <= j < k ==> rows[j] == HandlerName(iface.name, iface.requests[j].name)
    {
      var name := Camel.Camelize("_" + "C_" + iface.name + "_" + iface.requests[k].name);
      rows := rows + [name];
    }
  }

  /** The sender of one event, posting it with the given number. */
  method EmitSender(ev: Event, evid: nat) returns (sd: Sender)
    ensures sd == SenderOf(ev, evid)
  {
    var name := Camel.Camelize("send_" + ev.name);
    var argsC := ArgList.PrefixedList(ev.args, ArgList.TypeAndName);
    var argsN := ArgList.PrefixedList(ev.args, ArgList.NameOnly);
    sd := Sender(name, argsC, evid, argsN);
  }

  /** The event loop: the counter gives each sender the 0-based number of its event. */
  method EmitSenders(iface: Interface) returns (ss: seq<Sender>)
    ensures ss == SendersOf(iface)
  {
    ss := [];
    var evid: nat := 0;
    ghost var spec := SendersOf(iface);
    for k := 0 to |iface.events|
      invariant evid == k
      invariant ss == spec[..k]
    {
      var sd := EmitSender(iface.events[k], evid);
      assert spec[..k + 1] == spec[..k] + [sd];
      ss := ss + [sd];
      evid := evid + 1;
    }
    assert spec[..|iface.events|] == spec;
  }

  lemma TypeTablesSnoc(iface: string, rqs: seq<Request>, k: nat)
    requires k < |rqs|
    ensures TypeTablesOf(iface, rqs[..k + 1])
         == TypeTablesOf(iface, rqs[..k]) + (if rqs[k].args == [] then [] else [TypeTableOf(iface, rqs[k])])
  {
    assert rqs[..k + 1][..k] == rqs[..k];
    assert rqs[..k + 1][k] == rqs[k];
  }

  /** The table of one request: its name, then one slot per argument. */
  method EmitTypeTable(iface: string, rq: Request) returns (t: TypeTable)
    ensures t == TypeTableOf(iface, rq)
  {
    var name := Camel.Camelize("_" + "C_" + iface + "_" + rq.name + "_types");
    var entries: seq<TypeEntry> := [];
    for j := 0 to |rq.args|
      invariant |entries| == j
      invariant forall i :: 0 <= i < j ==> entries[i] == EntryOf(rq.args[i])
    {
      var arg := rq.args[j];
      if arg.interface == "" {
        entries := entries + [NullEntry];
        continue;
      }
      entries := entries + [InterfaceEntry(arg.interface)];
    }
    t := TypeTable(name, entries);
  }

  /** The type-table loop: requests without arguments are skipped. */
  method EmitTypeTables(iface: Interface) returns (ts: seq<TypeTable>)
    ensures ts == TypeTablesOf(iface.name, iface.requests)
  {
    ts := [];
    var rqs := iface.requests;
    for k := 0 to |rqs|
      invariant ts == TypeTablesOf(iface.name, rqs[..k])
    {
      TypeTablesSnoc(iface.name, rqs, k);
      var rq := rqs[k];
      if rq.args == [] {
        continue;
      }
      var t := EmitTypeTable(iface.name, rq);
      ts := ts + [t];
    }
    assert rqs[..|rqs|] == rqs;
  }

  /** The message-table loop: each row needs the request's signature, and the encoder may throw. */
  method EmitMessages(iface: Interface) returns (r: Result<seq<MessageRow>>)
    ensures r == MessagesOf(iface)
  {
    var f := (rq: Request) => MessageRowOf(iface.name, rq);
    var rqs := iface.requests;
    var rows: seq<MessageRow> := [];
    for k := 0 to |rqs|
      invariant MapAll(rqs[..k], f) == Ok(rows)
    {
      MapAllSnoc(rqs, k, f);
      var rq := rqs[k];
      var name := Camel.Camelize("_" + "C_" + iface.name + "_" + rq.name + "_types");
      var sig := Signature.ArgsToShort(rq.args);
      if sig.Err? {
        MapAllStopsAt(rqs, k + 1, f);
        return Err(sig.error);
      }
      rows := rows + [MessageRow(rq.name, sig.value, if rq.args == [] then DummyTypes else TableTypes(name))];
    }
    assert rqs[..|rqs|] == rqs;
    return Ok(rows);
  }

  /** Everything the definitions file holds for one interface, in the order it is written. */
  method EmitInterface(iface: Interface) returns (r: Result<InterfaceDefs>)
    ensures r == DefsOf(iface)
  {
    var className := Camel.Camelize("C_" + iface.name);
    var handlers := EmitHandlers(iface);
    var vtable := EmitVTable(iface);
    var senders := EmitSenders(iface);
    var typeTables := EmitTypeTables(iface);
    var messageTableName := Camel.Camelize("_" + "C_" + iface.name + "_message");
    var messages := EmitMessages(iface);
    if messages.Err? {
      return Err(messages.error);
    }
    return Ok(InterfaceDefs(className, iface.name + "_interface", handlers, "_" + className + "VTable", vtable, senders, typeTables,
                            messageTableName, messages.value));
  }

  /** The definitions generator: the extern block over all interfaces, then each interface. */
  method ParseSource(fileName: string, ifaces: seq<Interface>) returns (r: Result<SourceDefs>)
    ensures r == SourceOf(fileName, ifaces)
  {
    var externs := Externs.DeclareInterfaces(ifaces);
    var defs: seq<InterfaceDefs> := [];
    for i := 0 to |ifaces|
      invariant MapAll(ifaces[..i], DefsOf) == Ok(defs)
    {
      MapAllSnoc(ifaces, i, DefsOf);
      var d := EmitInterface(ifaces[i]);
      if d.Err? {
        MapAllStopsAt(ifaces, i + 1, DefsOf);
        return Err(d.error);
      }
      defs := defs + [d.value];
    }
    assert ifaces[..|ifaces|] == ifaces;
    return Ok(SourceDefs(fileName + ".hpp", externs, defs));
  }
}
