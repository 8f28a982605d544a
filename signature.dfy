/**
 * The wire signature of a message: one code per argument, in argument
 * order, as the Wayland wire format expects it in a `wl_message`.
 */
module Signature {
  import opened IR
  import CTypes

  /**
   * Code of one argument. A `new_id` whose interface is not fixed by the
   * schema is sent as interface name, version and id, hence "sun".
   */
  function ArgCode(a: Arg): (r: Result<string>)
    ensures r.Ok? <==> a.wlType in Kinds
    ensures r.Err? ==> r.error == UnknownArg
  {
    if a.wlType == "int" then Ok("i")
    else if a.wlType == "new_id" then Ok(if a.interface == "" then "sun" else "n")
    else if a.wlType == "uint" then Ok("u")
    else if a.wlType == "fixed" then Ok("f")
    else if a.wlType == "string" then Ok("s")
    else if a.wlType == "object" then Ok("o")
    else if a.wlType == "array" then Ok("a")
    else if a.wlType == "fd" then Ok("h")
    else Err(UnknownArg)
  }

  /**
   * The signature of an argument list: the codes of its arguments in
   * order, or the encoder's error when some argument has an unknown kind.
   */
  function Encode(args: seq<Arg>): (r: Result<string>)
    ensures r.Ok? <==> forall i :: 0 <= i < |args| ==> args[i].wlType in Kinds
    ensures r.Err? ==> r.error == UnknownArg
  {
    if args == [] then Ok("")
    else
      match Encode(args[..|args| - 1])
      case Err(e) => Err(e)
      case Ok(prefix) =>
        match ArgCode(args[|args| - 1])
        case Err(e) => Err(e)
        case Ok(code) => Ok(prefix + code)
  }

  /** The argument-list loop of the encoder; it throws on the first unknown kind. */
  method ArgsToShort(args: seq<Arg>) returns (r: Result<string>)
    ensures r == Encode(args)
  {
    var shortt := "";
    for i := 0 to |args|
      invariant Encode(args[..i]) == Ok(shortt)
    {
      assert args[..i + 1][..i] == args[..i];
      var a := args[i];
      assert args[..i + 1][i] == a;
      if a.wlType == "int" {
        shortt := shortt + "i";
      } else if a.wlType == "new_id" {
        ghost var before := shortt;
        if a.interface == "" {
          shortt := shortt + "su";
        }
        shortt := shortt + "n";
        assert shortt == before + ArgCode(a).value;
      } else if a.wlType == "uint" {
        shortt := shortt + "u";
      } else if a.wlType == "fixed" {
        shortt := shortt + "f";
      } else if a.wlType == "string" {
        shortt := shortt + "s";
      } else if a.wlType == "object" {
        shortt := shortt + "o";
      } else if a.wlType == "array" {
        shortt := shortt + "a";
      } else if a.wlType == "fd" {
        shortt := shortt + "h";
      } else {
        return Err(UnknownArg);
      }
    }
    assert args[..|args|] == args;
    return Ok(shortt);
  }

  /** One unfolding of the encoder at the last argument. */
  lemma EncodeSnoc(init: seq<Arg>, a: Arg)
    requires Encode(init).Ok? && ArgCode(a).Ok?
    ensures Encode(init + [a]) == Ok(Encode(init).value + ArgCode(a).value)
  {
    assert (init + [a])[..|init|] == init;
  }

  /** The signature of a concatenation is the concatenation of the signatures. */
  lemma {:induction false} EncodeAppend(xs: seq<Arg>, ys: seq<Arg>)
    requires Encode(xs).Ok? && Encode(ys).Ok?
    ensures Encode(xs + ys) == Ok(Encode(xs).value + Encode(ys).value)
    decreases |ys|
  {
    if ys == [] {
      assert xs + ys == xs;
      assert Encode(xs).value + "" == Encode(xs).value;
    } else {
      var init, last := ys[..|ys| - 1], ys[|ys| - 1];
      assert ys == init + [last];
      assert xs + ys == (xs + init) + [last];
      EncodeAppend(xs, init);
      EncodeSnoc(init, last);
      EncodeSnoc(xs + init, last);
      var x, i, c := Encode(xs).value, Encode(init).value, ArgCode(last).value;
      assert x + (i + c) == (x + i) + c;
    }
  }

  /** A concatenation encodes exactly when both parts do. */
  lemma EncodeAppendFails(xs: seq<Arg>, ys: seq<Arg>)
    ensures Encode(xs + ys).Ok? <==> Encode(xs).Ok? && Encode(ys).Ok?
  {
    var zs := xs + ys;
    assert forall i :: 0 <= i < |xs| ==> zs[i] == xs[i];
    assert forall i :: 0 <= i < |ys| ==> zs[|xs| + i] == ys[i];
  }

  /** A one-argument list encodes to that argument's code. */
  lemma EncodeOne(a: Arg)
    ensures Encode([]) == Ok("")
    ensures Encode([a]) == ArgCode(a)
  {
    assert [a][..0] == [];
    if ArgCode(a).Ok? {
      assert "" + ArgCode(a).value == ArgCode(a).value;
    }
  }

  /** Number of `new_id` arguments whose interface the schema leaves open. */
  function UntypedNewIds(args: seq<Arg>): nat
  {
    if args == [] then 0
    else UntypedNewIds(args[..|args| - 1])
         + (if args[|args| - 1].wlType == "new_id" && args[|args| - 1].interface == "" then 1 else 0)
  }

  /** A signature has one code per argument plus two more for every untyped `new_id`. */
  lemma {:induction false} EncodeLength(args: seq<Arg>)
    ensures Encode(args).Ok? ==> |Encode(args).value| == |args| + 2 * UntypedNewIds(args)
  {
    if args != [] {
      EncodeLength(args[..|args| - 1]);
    }
  }

  /**
   * A code determines the kind of the argument it encodes, and for `new_id`
   * whether its interface was given: no two kinds share a code.
   */
  lemma CodeIdentifiesKind(a: Arg, b: Arg)
    requires a.wlType in Kinds && b.wlType in Kinds
    requires ArgCode(a) == ArgCode(b)
    ensures a.wlType == b.wlType
    ensures a.wlType == "new_id" ==> (a.interface == "") == (b.interface == "")
  {
  }

  /**
   * The C type that libwayland's wire layer uses for an argument with this
   * (last) signature code. This table is libwayland's convention, not part
   * of the scanner; it serves as an independent reference for the scanner's
   * own C-type mapping.
   */
  function CTypeOfCode(c: char): string
  {
    match c
    case 'i' => "int32_t"
    case 'h' => "int32_t"
    case 'u' => "uint32_t"
    case 'n' => "uint32_t"
    case 'f' => "wl_fixed_t"
    case 's' => "const char*"
    case 'o' => "wl_resource*"
    case 'a' => "wl_array*"
    case _ => ""
  }

  /**
   * The encoder and the C-type mapping accept exactly the same kinds, and
   * the C type of an argument is the one that belongs to its wire code.
   */
  lemma CodeAgreesWithCType(a: Arg)
    ensures ArgCode(a).Ok? <==> CTypes.WPTypeToCType(a.wlType).Ok?
    ensures ArgCode(a).Ok? ==>
      var code := ArgCode(a).value;
      |code| > 0 && CTypes.WPTypeToCType(a.wlType).value == CTypeOfCode(code[|code| - 1])
  {
  }

  /** Every message of a model whose arguments are all typed has a signature. */
  lemma TypedMessagesEncode(ms: seq<Message>, k: nat)
    requires CTypes.MessagesTyped(ms)
    requires k < |ms|
    ensures Encode(ms[k].args).Ok?
  {
    forall i | 0 <= i < |ms[k].args|
      ensures ms[k].args[i].wlType in Kinds
    {
      assert CTypes.ArgTyped(ms[k].args[i]);
    }
  }
}
