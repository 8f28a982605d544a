/**
 * The block of `extern const wl_interface` declarations at the top of the
 * generated source: every interface descriptor the file refers to,
 * declared once, in the order the scanner first meets it.
 */
module Externs {
  import opened IR
  import Camel

  /** The descriptor symbol of an interface, as the reference scanner names it. */
  function Symbol(name: string): string
  {
    name + "_interface"
  }

  /** One declaration: the snake_case symbol and the camelCase alias defined for it. */
  datatype ExternDecl = ExternDecl(symbol: string, alias: string)

  function ExternRows(declared: seq<string>): (rows: seq<ExternDecl>)
    ensures |rows| == |declared|
    ensures forall k :: 0 <= k < |declared| ==> rows[k] == ExternDecl(declared[k], Camel.Camel(declared[k]))
  {
    seq(|declared|, k requires 0 <= k < |declared| => ExternDecl(declared[k], Camel.Camel(declared[k])))
  }

  /** Symbols of the typed arguments of an argument list, in order. */
  function ArgRefs(args: seq<Arg>): seq<string>
  {
    if args == [] then []
    else
      var a := args[|args| - 1];
      ArgRefs(args[..|args| - 1]) + (if a.interface == "" then [] else [Symbol(a.interface)])
  }

  /** Symbols of the typed arguments of a list of requests or events, message by message. */
  function MessageRefs(ms: seq<Message>): seq<string>
  {
    if ms == [] then [] else MessageRefs(ms[..|ms| - 1]) + ArgRefs(ms[|ms| - 1].args)
  }

  /** What one interface contributes: its own symbol, then its requests' references, then its events'. */
  function InterfaceRefs(i: Interface): seq<string>
  {
    [Symbol(i.name)] + MessageRefs(i.requests) + MessageRefs(i.events)
  }

  /** Every symbol the scanner considers declaring, in the order it meets them. */
  function Candidates(ifaces: seq<Interface>): seq<string>
  {
    if ifaces == [] then [] else Candidates(ifaces[..|ifaces| - 1]) + InterfaceRefs(ifaces[|ifaces| - 1])
  }

  /** The list with every element after its first occurrence removed. */
  function Dedup(xs: seq<string>): seq<string>
  {
    if xs == [] then []
    else
      var d := Dedup(xs[..|xs| - 1]);
      if xs[|xs| - 1] in d then d else d + [xs[|xs| - 1]]
  }

  /** Position of the first occurrence of x. */
  function FirstIndex(xs: seq<string>, x: string): (r: nat)
    requires x in xs
    ensures r < |xs| && xs[r] == x && x !in xs[..r]
  {
    if x in xs[..|xs| - 1] then FirstIndex(xs[..|xs| - 1], x) else |xs| - 1
  }

  /** Deduplication keeps exactly the elements of its input. */
  lemma {:induction false} DedupElements(xs: seq<string>)
    ensures forall x :: x in Dedup(xs) <==> x in xs
  {
    if xs != [] {
      DedupElements(xs[..|xs| - 1]);
      assert xs == xs[..|xs| - 1] + [xs[|xs| - 1]];
    }
  }

  /** No symbol is declared twice. */
  lemma {:induction false} DedupNoDuplicates(xs: seq<string>)
    ensures forall i, j :: 0 <= i < j < |Dedup(xs)| ==> Dedup(xs)[i] != Dedup(xs)[j]
  {
    if xs != [] {
      DedupNoDuplicates(xs[..|xs| - 1]);
    }
  }

  /** Declarations come in the order of the symbols' first occurrences. */
  lemma {:induction false} DedupFirstSeenOrder(xs: seq<string>)
    ensures forall x :: x in Dedup(xs) ==> x in xs
    ensures forall i, j :: 0 <= i < j < |Dedup(xs)| ==> FirstIndex(xs, Dedup(xs)[i]) < FirstIndex(xs, Dedup(xs)[j])
  {
    DedupElements(xs);
    if xs != [] {
      var init := xs[..|xs| - 1];
      var d := Dedup(init);
      DedupFirstSeenOrder(init);
      DedupElements(init);
      forall y | y in d
        ensures FirstIndex(xs, y) == FirstIndex(init, y) < |init|
      {
      }
      if xs[|xs| - 1] !in d {
        assert FirstIndex(xs, xs[|xs| - 1]) == |init|;
      }
    }
  }

  /** Some typed argument of the list refers to the interface with symbol x. */
  predicate ArgsRefer(args: seq<Arg>, x: string)
  {
    exists a :: a in args && a.interface != "" && x == Symbol(a.interface)
  }

  predicate MessagesRefer(ms: seq<Message>, x: string)
  {
    exists m :: m in ms && ArgsRefer(m.args, x)
  }

  /** x is the symbol of the interface itself or of an interface one of its arguments names. */
  predicate Mentions(i: Interface, x: string)
  {
    x == Symbol(i.name) || MessagesRefer(i.requests, x) || MessagesRefer(i.events, x)
  }

  lemma {:induction false} ArgRefsExact(args: seq<Arg>, x: string)
    ensures x in ArgRefs(args) <==> ArgsRefer(args, x)
  {
    if args != [] {
      var init := args[..|args| - 1];
      ArgRefsExact(init, x);
      assert args == init + [args[|args| - 1]];
    }
  }

  lemma {:induction false} MessageRefsExact(ms: seq<Message>, x: string)
    ensures x in MessageRefs(ms) <==> MessagesRefer(ms, x)
  {
    if ms != [] {
      var init := ms[..|ms| - 1];
      MessageRefsExact(init, x);
      ArgRefsExact(ms[|ms| - 1].args, x);
      assert ms == init + [ms[|ms| - 1]];
    }
  }

  lemma {:induction false} CandidatesExact(ifaces: seq<Interface>, x: string)
    ensures x in Candidates(ifaces) <==> exists i :: i in ifaces && Mentions(i, x)
  {
    if ifaces != [] {
      var init := ifaces[..|ifaces| - 1];
      var last := ifaces[|ifaces| - 1];
      CandidatesExact(init, x);
      MessageRefsExact(last.requests, x);
      MessageRefsExact(last.events, x);
      assert ifaces == init + [last];
      assert x in InterfaceRefs(last) <==> Mentions(last, x);
      if x in Candidates(ifaces) && x !in Candidates(init) {
        assert last in ifaces && Mentions(last, x);
      }
      if i :| i in ifaces && Mentions(i, x) {
        if i != last {
          assert i in init;
        }
      }
    }
  }

  /**
   * The declared symbols are exactly the interfaces' own symbols and the
   * symbols of every interface an argument names, each declared once.
   */
  lemma DeclaredExactly(ifaces: seq<Interface>, x: string)
    ensures x in Dedup(Candidates(ifaces)) <==> exists i :: i in ifaces && Mentions(i, x)
    ensures forall i, j :: 0 <= i < j < |Dedup(Candidates(ifaces))| ==> Dedup(Candidates(ifaces))[i] != Dedup(Candidates(ifaces))[j]
  {
    DedupElements(Candidates(ifaces));
    CandidatesExact(ifaces, x);
    DedupNoDuplicates(Candidates(ifaces));
  }

  /** The declared symbols and the rows written so far, after meeting the symbols of `seen` in order. */
  predicate Tracks(declared: seq<string>, rows: seq<ExternDecl>, seen: seq<string>)
  {
    declared == Dedup(seen) && rows == ExternRows(declared)
  }

  /** The `std::find` check and `push_back`: declare sym unless it was declared before. */
  method DeclareOnce(declared: seq<string>, rows: seq<ExternDecl>, ghost seen: seq<string>, sym: string)
    returns (declared': seq<string>, rows': seq<ExternDecl>)
    requires Tracks(declared, rows, seen)
    ensures Tracks(declared', rows', seen + [sym])
  {
    assert (seen + [sym])[..|seen|] == seen;
    var alias := Camel.Camelize(sym);
    if sym !in declared {
      declared' := declared + [sym];
      rows' := rows + [ExternDecl(sym, alias)];
    } else {
      declared', rows' := declared, rows;
    }
  }

  /** The loop over the arguments of one request or event. */
  method DeclareArgRefs(declared: seq<string>, rows: seq<ExternDecl>, ghost seen: seq<string>, args: seq<Arg>)
    returns (declared': seq<string>, rows': seq<ExternDecl>)
    requires Tracks(declared, rows, seen)
    ensures Tracks(declared', rows', seen + ArgRefs(args))
  {
    declared', rows' := declared, rows;
    assert seen + ArgRefs(args[..0]) == seen;
    for k := 0 to |args|
      invariant Tracks(declared', rows', seen + ArgRefs(args[..k]))
    {
      assert args[..k + 1][..k] == args[..k];
      var arg := args[k];
      assert ArgRefs(args[..k + 1]) == ArgRefs(args[..k]) + (if arg.interface == "" then [] else [Symbol(arg.interface)]);
      if arg.interface == "" {
        assert seen + ArgRefs(args[..k + 1]) == seen + ArgRefs(args[..k]);
        continue;
      }
      declared', rows' := DeclareOnce(declared', rows', seen + ArgRefs(args[..k]), Symbol(arg.interface));
      assert seen + ArgRefs(args[..k]) + [Symbol(arg.interface)] == seen + ArgRefs(args[..k + 1]);
    }
    assert args[..|args|] == args;
  }

  lemma MessageRefsSnoc(ms: seq<Message>, r: nat)
    requires r < |ms|
    ensures MessageRefs(ms[..r + 1]) == MessageRefs(ms[..r]) + ArgRefs(ms[r].args)
  {
    assert ms[..r + 1][..r] == ms[..r];
    assert ms[..r + 1][r] == ms[r];
  }

  /** The loop over the requests (or events) of one interface. */
  method DeclareMessageRefs(declared: seq<string>, rows: seq<ExternDecl>, ghost seen: seq<string>, ms: seq<Message>)
    returns (declared': seq<string>, rows': seq<ExternDecl>)
    requires Tracks(declared, rows, seen)
    ensures Tracks(declared', rows', seen + MessageRefs(ms))
  {
    declared', rows' := declared, rows;
    ghost var acc := seen;
    assert seen + MessageRefs(ms[..0]) == seen;
    for r := 0 to |ms|
      invariant acc == seen + MessageRefs(ms[..r])
      invariant Tracks(declared', rows', acc)
    {
      MessageRefsSnoc(ms, r);
      assert acc + ArgRefs(ms[r].args) == seen + MessageRefs(ms[..r + 1]);
      declared', rows' := DeclareArgRefs(declared', rows', acc, ms[r].args);
      acc := acc + ArgRefs(ms[r].args);
    }
    assert ms[..|ms|] == ms;
  }

  lemma CandidatesSnoc(ifaces: seq<Interface>, i: nat)
    requires i < |ifaces|
    ensures Candidates(ifaces[..i + 1])
         == Candidates(ifaces[..i]) + [Symbol(ifaces[i].name)] + MessageRefs(ifaces[i].requests) + MessageRefs(ifaces[i].events)
  {
    assert ifaces[..i + 1][..i] == ifaces[..i];
    assert ifaces[..i + 1][i] == ifaces[i];
  }

  /** The declaration loop over all interfaces. */
  method DeclareInterfaces(ifaces: seq<Interface>) returns (rows: seq<ExternDecl>)
    ensures rows == ExternRows(Dedup(Candidates(ifaces)))
  {
    var declared: seq<string> := [];
    rows := [];
    ghost var acc: seq<string> := [];
    for i := 0 to |ifaces|
      invariant acc == Candidates(ifaces[..i])
      invariant Tracks(declared, rows, acc)
    {
      CandidatesSnoc(ifaces, i);
      var iface := ifaces[i];
      declared, rows := DeclareOnce(declared, rows, acc, Symbol(iface.name));
      acc := acc + [Symbol(iface.name)];
      declared, rows := DeclareMessageRefs(declared, rows, acc, iface.requests);
      acc := acc + MessageRefs(iface.requests);
      declared, rows := DeclareMessageRefs(declared, rows, acc, iface.events);
      acc := acc + MessageRefs(iface.events);
    }
    assert ifaces[..|ifaces|] == ifaces;
  }
}
