/**
 * The comma-separated argument lists spliced into generated signatures
 * and calls. The scanner appends every item followed by ", " and then
 * removes the trailing separator with two `pop_back` calls.
 */
module ArgList {
  import opened IR

  /** Which text one argument contributes to a list. */
  datatype ItemForm =
    | TypeOnly     // the C type: "uint32_t"
    | TypeAndName  // a parameter declaration: "uint32_t id"
    | NameOnly     // a forwarded argument: "id"

  function Item(a: Arg, form: ItemForm): string
  {
    match form
    case TypeOnly => a.cType
    case TypeAndName => a.cType + " " + a.name
    case NameOnly => a.name
  }

  function Items(args: seq<Arg>, form: ItemForm): (r: seq<string>)
    ensures |r| == |args|
    ensures forall i :: 0 <= i < |args| ==> r[i] == Item(args[i], form)
  {
    seq(|args|, i requires 0 <= i < |args| => Item(args[i], form))
  }

  /** The items separated by sep, with no separator before the first or after the last. */
  function Join(items: seq<string>, sep: string): string
  {
    if |items| == 0 then ""
    else if |items| == 1 then items[0]
    else Join(items[..|items| - 1], sep) + sep + items[|items| - 1]
  }

  /** Every item followed by sep: what the append loop accumulates. */
  function Terminated(items: seq<string>, sep: string): string
  {
    if items == [] then "" else Terminated(items[..|items| - 1], sep) + items[|items| - 1] + sep
  }

  /** Dropping the final separator of the accumulated text leaves the joined items. */
  lemma {:induction false} TerminatedIsJoinThenSep(items: seq<string>, sep: string)
    requires items != []
    ensures Terminated(items, sep) == Join(items, sep) + sep
  {
    if |items| == 1 {
      assert items[..0] == [];
    } else {
      TerminatedIsJoinThenSep(items[..|items| - 1], sep);
    }
  }

  /** Joining two non-empty lists joins their joins. */
  lemma {:induction false} JoinAppend(xs: seq<string>, ys: seq<string>, sep: string)
    requires xs != [] && ys != []
    ensures Join(xs + ys, sep) == Join(xs, sep) + sep + Join(ys, sep)
    decreases |ys|
  {
    var zs := xs + ys;
    if |ys| == 1 {
      assert zs[..|zs| - 1] == xs;
    } else {
      var init := ys[..|ys| - 1];
      assert zs[..|zs| - 1] == xs + init;
      JoinAppend(xs, init, sep);
    }
  }

  /** A joined list begins with its first item. */
  lemma {:induction false} JoinStartsWithFirst(items: seq<string>, sep: string)
    requires items != []
    ensures |items[0]| <= |Join(items, sep)| && Join(items, sep)[..|items[0]|] == items[0]
  {
    if |items| > 1 {
      var init := items[..|items| - 1];
      JoinStartsWithFirst(init, sep);
      assert init[0] == items[0];
    }
  }

  /** A parameter list that follows fixed leading parameters: empty, or ", " and the joined items. */
  function Suffix(args: seq<Arg>, form: ItemForm): string
  {
    if args == [] then "" else ", " + Join(Items(args, form), ", ")
  }

  /**
   * The list with a leading ", " (lines such as "wl_resource*, uint32_t"
   * follow a fixed first parameter). It starts as ", ", so the two final
   * `pop_back` calls never act on an empty string; with no arguments they
   * remove the initial ", " itself.
   */
  method PrefixedList(args: seq<Arg>, form: ItemForm) returns (s: string)
    ensures s == Suffix(args, form)
  {
    s := AppendItems(", ", args, form);
    PrefixedPops(Items(args, form));
    s := s[..|s| - 1];
    s := s[..|s| - 1];
  }

  /** The append loop: every item followed by ", ", after the initial text. */
  method AppendItems(init: string, args: seq<Arg>, form: ItemForm) returns (s: string)
    ensures s == init + Terminated(Items(args, form), ", ")
  {
    ghost var items := Items(args, form);
    s := init;
    for i := 0 to |args|
      invariant s == init + Terminated(items[..i], ", ")
    {
      assert items[..i + 1][..i] == items[..i];
      s := s + Item(args[i], form) + ", ";
    }
    assert items[..|args|] == items;
  }

  /** Two `pop_back` calls remove a trailing ", ". */
  lemma PopSeparator(t: string)
    ensures (t + ", ")[..|t| + 1][..|t|] == t
  {
  }

  /** The two `pop_back` calls after a list that starts as ", ". */
  lemma PrefixedPops(items: seq<string>)
    ensures var t := ", " + Terminated(items, ", ");
            |t| >= 2 && t[..|t| - 1][..|t| - 2] == if items == [] then "" else ", " + Join(items, ", ")
  {
    if items != [] {
      TerminatedIsJoinThenSep(items, ", ");
      PopSeparator(", " + Join(items, ", "));
    }
  }

  /**
   * The list without a leading separator: the trailing ", " is removed
   * only when something was appended.
   */
  method PlainList(args: seq<Arg>, form: ItemForm) returns (s: string)
    ensures s == Join(Items(args, form), ", ")
  {
    s := AppendItems("", args, form);
    ghost var items := Items(args, form);
    if args != [] {
      TerminatedIsJoinThenSep(items, ", ");
      PopSeparator(Join(items, ", "));
    }
    if s != "" {
      s := s[..|s| - 1];
      s := s[..|s| - 1];
    }
  }
}
