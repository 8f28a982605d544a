/**
 * The command-line driver: the output base name taken from the protocol
 * path, and the run that reads the document, builds the declarations and
 * the definitions, and names the two output files.
 */
module Scanner {
  import opened IR
  import CTypes
  import ArgList
  import Parse
  import Header
  import Source

  /** Sizes are `size_t`: arithmetic on them is modulo 2^64. */
  const SizeModulus: int := 0x1_0000_0000_0000_0000

  const NotEnoughArgs: string := "Not enough args"

  /**
   * One byte of a `std::string`. Command-line paths are byte strings: a
   * character outside ASCII is several elements of a path, and the lengths
   * and positions below count bytes.
   */
  type Byte = c: char | c as int < 0x100

  /** A file-system path as the program holds it: its bytes in order. */
  type Path = seq<Byte>

  /** Position of the last '/' in p, or -1 when there is none (`find_last_of` gives `npos`, which is -1 in `size_t`). */
  function LastSlash(p: Path): (r: int)
    ensures -1 <= r < |p|
    ensures r >= 0 ==> p[r] == '/'
    ensures forall j :: r < j < |p| ==> p[j] != '/'
  {
    LastSlashBefore(p, |p|)
  }

  /** Position of the last '/' among the first n bytes of p, or -1. */
  function LastSlashBefore(p: Path, n: nat): (r: int)
    requires n <= |p|
    ensures -1 <= r < n
    ensures r >= 0 ==> p[r] == '/'
    ensures forall j :: r < j < n ==> p[j] != '/'
  {
    if n == 0 then -1
    else if p[n - 1] == '/' then n - 1
    else LastSlashBefore(p, n - 1)
  }

  /** Subtraction of two `size_t` values: it wraps around below zero. */
  function SizeSub(a: nat, b: nat): (r: nat)
    requires a < SizeModulus && b < SizeModulus
    ensures r < SizeModulus
  {
    if a >= b then a - b else a - b + SizeModulus
  }

  /** The subtraction is the true difference reduced modulo 2^64. */
  lemma SizeSubWraps(a: nat, b: nat)
    requires a < SizeModulus && b < SizeModulus
    ensures SizeSub(a, b) == (a - b) % SizeModulus
    ensures a >= b ==> SizeSub(a, b) == a - b
  {
  }

  /**
   * The output base name: the bytes after the last '/', four fewer of them.
   * The length is computed in `size_t`, so when fewer than four bytes follow
   * the slash it wraps to a huge count and `substr` keeps them all.
   */
  function FileName(protopath: Path): (r: Path)
    requires |protopath| < SizeModulus
    ensures var tail := protopath[LastSlash(protopath) + 1..];
            r <= tail && |r| == if |tail| >= 4 then |tail| - 4 else |tail|
  {
    CutKeeps(protopath, LastSlash(protopath) + 1);
    Cut(protopath, LastSlash(protopath) + 1)
  }

  /** `substr(start, size - start - 4)` of p, with the length computed in `size_t`. */
  function Cut(p: Path, start: nat): Path
    requires start <= |p| < SizeModulus
  {
    p[start..start + Substr(|p|, start, SizeSub(SizeSub(|p|, start), 4))]
  }

  lemma CutKeeps(p: Path, start: nat)
    requires start <= |p| < SizeModulus
    ensures Cut(p, start) == p[start..start + (if |p| - start >= 4 then |p| - start - 4 else |p| - start)]
  {
    KeptCount(|p|, start);
  }

  /** How many bytes `substr(pos, count)` takes from a string of `len` bytes. */
  function Substr(len: nat, pos: nat, count: nat): (r: nat)
    requires pos <= len
    ensures r <= len - pos
  {
    if count < len - pos then count else len - pos
  }

  /** The length `substr` keeps, for a text of `len` bytes whose tail starts at `start`. */
  lemma KeptCount(len: nat, start: nat)
    requires start <= len < SizeModulus
    ensures Substr(len, start, SizeSub(SizeSub(len, start), 4)) == if len - start >= 4 then len - start - 4 else len - start
  {
    assert SizeSub(len, start) == len - start;
  }

  /** The base name has no '/'. */
  lemma FileNameHasNoSlash(protopath: Path)
    requires |protopath| < SizeModulus
    ensures '/' !in FileName(protopath)
  {
    var start := LastSlash(protopath) + 1;
    NoSlashAfterLast(protopath);
    CutKeeps(protopath, start);
    PrefixOmits(FileName(protopath), protopath[start..], '/');
  }

  lemma NoSlashAfterLast(p: Path)
    ensures '/' !in p[LastSlash(p) + 1..]
  {
    var tail := p[LastSlash(p) + 1..];
    forall j | 0 <= j < |tail|
      ensures tail[j] != '/'
    {
      assert tail[j] == p[LastSlash(p) + 1 + j];
    }
  }

  lemma PrefixOmits(a: Path, b: Path, c: char)
    requires a <= b && c !in b
    ensures c !in a
  {
    forall j | 0 <= j < |a|
      ensures a[j] != c
    {
      assert a[j] == b[j];
    }
  }

  /**
   * The base name is the text after the last '/' with its last four
   * bytes removed, or all of that text when it is shorter than four bytes.
   */
  lemma FileNameOfTail(protopath: Path)
    requires |protopath| < SizeModulus
    ensures var tail := protopath[LastSlash(protopath) + 1..];
            if |tail| >= 4 then FileName(protopath) + tail[|tail| - 4..] == tail
            else FileName(protopath) == tail
  {
    CutKeeps(protopath, LastSlash(protopath) + 1);
  }

  lemma LastSlashOfPath(dir: Path, rest: Path)
    requires '/' !in rest
    ensures LastSlash(dir + "/" + rest) == |dir|
  {
    var p := dir + "/" + rest;
    assert p[|dir|] == '/';
  }

  lemma LastSlashOfName(rest: Path)
    requires '/' !in rest
    ensures LastSlash(rest) == -1
  {
  }

  /** `dir/base.xml` and `base.xml` both give `base`. */
  lemma FileNameStripsExtension(dir: Path, base: Path, ext: Path)
    requires '/' !in base && '/' !in ext && |ext| == 4
    requires |dir + "/" + base + ext| < SizeModulus
    ensures FileName(dir + "/" + base + ext) == base
    ensures FileName(base + ext) == base
  {
    NoSlashInConcat(base, ext);
    var name := base + ext;
    var p := dir + "/" + name;
    assert dir + "/" + base + ext == p;
    LastSlashOfPath(dir, name);
    assert p[|dir| + 1..] == name;
    CutsExtension(p, |dir| + 1, base, ext);
    LastSlashOfName(name);
    assert name[0..] == name;
    CutsExtension(name, 0, base, ext);
  }

  lemma NoSlashInConcat(a: Path, b: Path)
    requires '/' !in a && '/' !in b
    ensures '/' !in a + b
  {
    forall j | 0 <= j < |a + b|
      ensures (a + b)[j] != '/'
    {
      if j < |a| { assert a[j] in a; } else { assert b[j - |a|] in b; }
    }
  }

  lemma CutsExtension(p: Path, start: nat, base: Path, ext: Path)
    requires start <= |p| < SizeModulus && |ext| == 4
    requires p[start..] == base + ext
    ensures Cut(p, start) == base
  {
    CutKeeps(p, start);
    assert p[start..start + |base|] == p[start..][..|base|] == (base + ext)[..|base|] == base;
  }

  /** A name of fewer than four bytes after the last slash is kept whole. */
  lemma ShortNameKeptWhole(dir: Path, name: Path)
    requires '/' !in name && |name| < 4
    requires |dir + "/" + name| < SizeModulus
    ensures FileName(dir + "/" + name) == name
  {
    LastSlashOfPath(dir, name);
    assert (dir + "/" + name)[|dir| + 1..] == name;
  }

  /** `d/éé` is six bytes in UTF-8: the four bytes of the name are all cut, leaving an empty base name. */
  lemma NonAsciiNameCutByBytes()
    ensures FileName(['d', '/', 0xC3 as char, 0xA9 as char, 0xC3 as char, 0xA9 as char]) == []
  {
    var name: Path := [0xC3 as char, 0xA9 as char, 0xC3 as char, 0xA9 as char];
    assert ['d', '/', 0xC3 as char, 0xA9 as char, 0xC3 as char, 0xA9 as char] == "d" + "/" + name;
    LastSlashOfPath("d", name);
  }

  /** What one run produces: the two output paths and their contents. */
  datatype Output = Output(headerPath: string, sourcePath: string, header: seq<Header.ClassDecl>, source: Source.SourceDefs)

  /**
   * One run: both paths must be given; the document is read, then the
   * declarations and the definitions are generated for the same model.
   */
  method Generate(doc: Parse.Element, protopath: Path, outpath: Path) returns (r: Result<Output>)
    requires |protopath| < SizeModulus
    ensures r.Ok? <==> protopath != "" && outpath != "" && Parse.ParseDocument(doc).Ok?
    ensures (protopath == "" || outpath == "") ==> r == Err(NotEnoughArgs)
    ensures r.Err? && protopath != "" && outpath != "" ==> r.error == UnknownWpType
    ensures r.Ok? ==>
              var model := Parse.ParseDocument(doc).value;
              var name := FileName(protopath);
              && r.value.headerPath == outpath + "/" + name + ".hpp"
              && r.value.sourcePath == outpath + "/" + name + ".cpp"
              && |r.value.header| == |model|
              && (forall i :: 0 <= i < |model| ==> r.value.header[i] == Header.ClassDeclOf(model[i]))
              && Source.SourceOf(name, model) == Ok(r.value.source)
  {
    if outpath == "" || protopath == "" {
      return Err(NotEnoughArgs);
    }
    var fileName := FileName(protopath);
    var model := Parse.ParseXML(doc);
    if model.Err? {
      return Err(model.error);
    }
    var header := Header.ParseHeader(model.value);
    var source := Source.ParseSource(fileName, model.value);
    Source.TypedModelGenerates(fileName, model.value);
    return Ok(Output(outpath + "/" + fileName + ".hpp", outpath + "/" + fileName + ".cpp", header, source.value));
  }

  /**
   * The static handler of request k calls the callback member the class
   * declares for request k, through the class the declarations define.
   */
  lemma HandlerCallsDeclaredSlot(iface: Interface, k: nat)
    requires k < |iface.requests|
    ensures Source.HandlerOf(iface.name, iface.requests[k]).slot == Header.ClassDeclOf(iface).slots[k].member
    ensures Source.ClassName(iface.name) == Header.ClassDeclOf(iface).name
  {
  }

  /**
   * The definition of an event sender repeats the declaration's parameter
   * list only for an event without arguments: otherwise the definition's
   * list keeps the leading ", " of the append loop, which the declaration's
   * list does not have.
   */
  lemma SenderDefinitionDiffersFromDeclaration(ev: Event, k: nat)
    requires forall a :: a in ev.args ==> CTypes.ArgTyped(a)
    ensures Source.SenderOf(ev, k).params == Header.SenderDeclOf(ev).params <==> ev.args == []
    ensures ev.args != [] ==> Source.SenderOf(ev, k).params[..2] == ", "
  {
    if ev.args != [] {
      var items := ArgList.Items(ev.args, ArgList.TypeOnly);
      ArgList.JoinStartsWithFirst(items, ", ");
      assert ev.args[0] in ev.args;
      CTypes.CTypeIsName(ev.args[0]);
      var decl := Header.SenderDeclOf(ev).params;
      assert items[0] == ev.args[0].cType;
      assert decl[0] == items[0][0];
      assert Source.SenderOf(ev, k).params[0] == ',';
    }
  }
}
