# hyprwayland-scanner (server side) in Dafny

hyprwayland-scanner reads a Wayland protocol description (an XML document
of `protocol` → `interface` → `request`/`event` → `arg` elements). From it,
it generates a C++ header and a C++ source file: for every interface, a
class that wraps a server-side `wl_resource`.

This project models how the scanner gets from the document to that
generated code:

- **The schema reader (`parseXML`).** It reads the document into the
  intermediate representation. This is a list of interfaces, each with a
  name, a version, its requests and its events. Each request or event has
  arguments, and each argument has a C type, a wire kind, an optional
  interface and a name. The C type comes from the closed table of eight
  wire kinds (`WPTypeToCType`). Any other kind aborts the run with
  "unknown wp type".
- **The wire-signature encoder (`argsToShort`).** It gives one code per
  argument. A `new_id` whose interface the schema leaves open becomes
  `sun`. Any other kind aborts with "Unknown arg in argsToShort".
- **`camelize`.** It converts snake_case to camelCase. Upper-casing is ASCII.
- **The argument-list builders.** Each appends `item + ", "` per argument
  and then removes the trailing separator with two `pop_back` calls.
  Lists that follow a fixed first parameter start as `", "`.
- **The declarations file (`parseHeader`), as structured rows.** Per
  interface, it holds the class name and one setter per request. It also
  holds one sender declaration per event, and the request-callback storage
  struct.
- **The definitions file (`parseSource`), as structured rows:**
  - the header it includes;
  - the `extern const wl_interface` block, with each descriptor declared
    once, in first-seen order;
  - per interface:
    - the static request handlers;
    - the vtable;
    - the event senders, numbered from 0;
    - the per-request type tables, with `nullptr` for untyped arguments;
    - the `wl_message` table. Its rows point at `dummyTypes` when a request
      has no arguments.
- **The driver (`main`).** It checks that both paths are given. It takes
  the output base name from the protocol path: the bytes after the last
  `/`, less four, with `size_t` wrap-around. It then names the
  two output files.

### Modules

| Module | File | What it holds |
|---|---|---|
| `IR` | `ir.dfy` | The intermediate representation, `Result`, and `MapAll`. `MapAll` is a loop that stops at the first thrown error. |
| `CTypes` | `ctypes.dfy` | `WPTypeToCType`. |
| `Signature` | `signature.dfy` | `argsToShort`. |
| `Camel` | `camelize.dfy` | `camelize`. |
| `ArgList` | `arglist.dfy` | The `", "` and `pop_back` list builders. |
| `Parse` | `parse.dfy` | `parseXML`, over an abstract element tree. |
| `Externs` | `externs.dfy` | The extern declaration block. |
| `Header` | `header.dfy` | `parseHeader`. |
| `Source` | `source.dfy` | `parseSource`. |
| `Scanner` | `scanner.dfy` | `main`. |

### How each part is modelled

Each loop of the source is a `method` with a loop. Its `ensures` ties the
result to a specification function: `ArgsToShort` → `Encode`,
`Camelize` → `Camel`, `ParseXML` → `ParseDocument`,
`DeclareInterfaces` → `Dedup(Candidates(..))`, `ParseSource` → `SourceOf`,
`ParseHeader` → `ClassDeclOf`. The properties are lemmas about those
functions.

A C++ exception is a `Result` error that carries the source's message.

### Behaviour that follows the code

Where the behaviour could be read otherwise, the model follows the code:

- **Interface version.** It is read with `as_int()`. An absent `version`
  attribute therefore gives 0, not the structure's default of 1
  (`src/main.cpp:30`, `src/main.cpp:109`).
- **Event sender parameters.** The definition of an event sender builds its
  parameter list with the `", "`-prefixed builder (`src/main.cpp:410-416`).
  So a sender whose event has arguments is defined with a list that starts
  with `", "`, while its declaration (`src/main.cpp:220-230`) has none. The
  model keeps this as written. `Scanner.SenderDefinitionDiffersFromDeclaration`
  states exactly when the two lists differ.
- **Short base names.** When fewer than four bytes follow the last `/`, the
  `size_t` length wraps around. `substr` then keeps those bytes whole
  (`Scanner.ShortNameKeptWhole`).
- **Paths are bytes.** `std::string` lengths and positions count bytes. A path
  is therefore a `Scanner.Path`, a sequence of `Scanner.Byte` values. A
  non-ASCII character is several of them. For example, `d/éé` is six bytes
  in UTF-8, and its base name is empty (`Scanner.NonAsciiNameCutByBytes`).

## Model

| member | source | states |
|---|---|---|
| IR.MapAll | src/main.cpp:105-147 | A loop over items that may throw: it succeeds exactly when every item succeeds, with one result per item in order. On failure, the error is the one thrown by the first failing item. |
| CTypes.WPTypeToCType | src/main.cpp:64-79 | It succeeds exactly for the eight wire kinds; any other kind fails with "unknown wp type". |
| CTypes.CTypeTable | src/main.cpp:64-79 | The mapping table: `uint` and `new_id` give `uint32_t`, `object` gives `wl_resource*`, `int` and `fd` give `int32_t`, `fixed` gives `wl_fixed_t`, `array` gives `wl_array*`, and `string` gives `const char*`. |
| CTypes.CTypeIsName | src/main.cpp:64-79 | The C type of a parsed argument is a non-empty name that does not start with a comma. |
| Signature.ArgCode | src/main.cpp:40-59 | The code of one argument exists exactly for the eight kinds; otherwise it fails with the encoder's message. |
| Signature.Encode | src/main.cpp:37-62 | A signature exists exactly when every argument's kind is one of the eight; otherwise it fails with "Unknown arg in argsToShort". |
| Signature.ArgsToShort | src/main.cpp:37-62 | The encoding loop returns the signature `Encode` specifies, including the throw on the first unknown kind. |
| Signature.EncodeAppend | src/main.cpp:37-62 | Encoding distributes over concatenation: the signature of `xs + ys` is the signature of `xs` followed by that of `ys`. |
| Signature.EncodeAppendFails | src/main.cpp:37-62 | A concatenation encodes exactly when both parts do. |
| Signature.EncodeOne | src/main.cpp:37-62 | The empty list encodes to the empty signature, and a one-argument list encodes to that argument's code. |
| Signature.EncodeLength | src/main.cpp:42-45 | A signature has one character per argument, plus two for every `new_id` whose interface is open (`sun` instead of `n`). |
| Signature.CodeIdentifiesKind | src/main.cpp:40-57 | Two accepted arguments with the same code have the same kind. For `new_id`, they also agree on whether the interface is given. |
| Signature.CodeAgreesWithCType | src/main.cpp:37-79 | The encoder and the C-type mapping accept the same kinds. An argument's C type is the one that belongs to the last character of its code. |
| Signature.TypedMessagesEncode | src/main.cpp:37-79 | Every message whose arguments all carry the C type of their kind has a signature. |
| Camel.Upper | src/main.cpp:88 | ASCII `toupper`: a lower-case letter becomes the corresponding upper-case letter, and every other character is kept. |
| Camel.Camelize | src/main.cpp:84-97 | The conversion loop computes `Camel`. An underscore that is not first, has a successor and is not followed by an underscore is dropped, and its successor is upper-cased. |
| Camel.CamelLength | src/main.cpp:84-97 | The output is as long as the input minus the number of dropped underscores. |
| Camel.NoUnderscoreUnchanged | src/main.cpp:84-97 | A string without underscores is returned unchanged. |
| Camel.FirstCharKept | src/main.cpp:87 | The first character of a non-empty input is kept as it is, even when it is an underscore. |
| Camel.SingleUnderscoresAllDropped | src/main.cpp:87-90 | In an identifier with no leading, trailing or doubled underscore, no underscore survives. |
| Camel.ClassNameOfWidget | src/main.cpp:167 | The class-name form: `C_widget` becomes `CWidget`. |
| ArgList.TerminatedIsJoinThenSep | src/main.cpp:204-210 | For a non-empty list, the appended text is the items joined by the separator, followed by one more separator. |
| ArgList.JoinAppend | src/main.cpp:220-228 | Joining two non-empty lists gives the two joins with one separator between them. |
| ArgList.JoinStartsWithFirst | src/main.cpp:220-228 | A joined list begins with its first item. |
| ArgList.AppendItems | src/main.cpp:204-207 | The append loop produces the initial text followed by every item, each followed by `", "`. |
| ArgList.PrefixedList | src/main.cpp:204-210 | A list that starts as `", "` and is popped twice gives `""` for no arguments. Otherwise it gives `", "` and then the items joined by `", "`. |
| ArgList.PlainList | src/main.cpp:220-228 | A list that starts empty and is popped only when non-empty gives exactly the items joined by `", "`. |
| Parse.ChildrenNamed | src/main.cpp:106 | The children selected by a tag are children of the element and carry that tag. |
| Parse.ChildrenNamedExact | src/main.cpp:106 | A child is selected by a tag exactly when it carries that tag: none is left out. |
| Parse.FilterSound | src/main.cpp:106 | Only elements of the input that carry the tag are selected. |
| Parse.FilterComplete | src/main.cpp:106 | Every element of the input that carries the tag is selected. |
| Parse.FilterSnoc | src/main.cpp:106 | Adding an element at the end adds it to the selection exactly when it carries the tag. |
| Parse.FilterAppend | src/main.cpp:106 | Selection keeps document order: the selection from a concatenation is the selection from the first part, then that from the second. |
| Parse.FilterOne | src/main.cpp:106 | A single element is selected exactly when it carries the tag. |
| Parse.ParseArg | src/main.cpp:115-122 | An argument is read exactly when its kind is one of the eight, and then carries the C type of that kind, its kind, interface and name. An unknown kind fails with "unknown wp type". |
| Parse.ParseMessage | src/main.cpp:111-126 | A request or event is read exactly when none of its `arg` children has an unknown kind. It then has the element's name and one argument per `arg` child, in order. |
| Parse.ParseInterface | src/main.cpp:106-143 | An interface is read exactly when none of its requests or events has an argument of unknown kind. It then has its name, its `version` read as an integer, and one request (event) per `request` (`event`) child, in order, all typed. |
| Parse.ParseDocument | src/main.cpp:105-147 | The model has one interface per `interface` child of `protocol`, in order. It exists exactly when no argument anywhere has an unknown kind, and every argument in it is typed. |
| Parse.ParseArgs | src/main.cpp:115-123 | The argument loop returns the arguments `ParseArg` specifies, or the first error. |
| Parse.ReadMessage | src/main.cpp:111-126 | The body of the request (event) loop computes `ParseMessage`. |
| Parse.ParseMessages | src/main.cpp:111-143 | The request (event) loop returns the messages `ParseMessage` specifies, or the first error. |
| Parse.ReadInterface | src/main.cpp:106-145 | The body of the interface loop computes `ParseInterface`. |
| Parse.ParseXML | src/main.cpp:105-147 | The schema reader returns `ParseDocument` of the document. |
| Parse.ParsedModelEncodes | src/main.cpp:115-122 | On a model the reader produced, every request and event has a signature, so the encoder never throws. |
| Externs.ExternRows | src/main.cpp:304 | One declaration per declared symbol, in order, each with its camelCase alias. |
| Externs.FirstIndex | src/main.cpp:303 | The position `std::find` reports: the first occurrence. |
| Externs.DedupElements | src/main.cpp:297-339 | A symbol is declared exactly when it was met. |
| Externs.DedupNoDuplicates | src/main.cpp:303-306 | No symbol is declared twice. |
| Externs.DedupFirstSeenOrder | src/main.cpp:297-339 | Declarations follow the order in which the symbols were first met. |
| Externs.ArgRefsExact | src/main.cpp:311-322 | The symbols met in an argument list are exactly those of its arguments that name an interface. |
| Externs.MessageRefsExact | src/main.cpp:310-338 | The symbols met in a list of requests or events are exactly those that some argument of theirs names. |
| Externs.CandidatesExact | src/main.cpp:299-339 | A symbol is met exactly when it is an interface's own symbol or is named by an argument of some interface. |
| Externs.DeclaredExactly | src/main.cpp:297-339 | The extern block declares exactly the interfaces' own symbols and every symbol an argument names, each once. |
| Externs.DeclareOnce | src/main.cpp:303-307 | One `std::find` check and `push_back`: after meeting a symbol, the declared list is the deduplication of everything met, with its rows. |
| Externs.DeclareArgRefs | src/main.cpp:311-322 | The argument loop keeps that relation across the interfaces its arguments name. |
| Externs.DeclareMessageRefs | src/main.cpp:310-323 | The request (event) loop keeps that relation. |
| Externs.DeclareInterfaces | src/main.cpp:297-339 | The declaration loop produces the rows of the deduplicated symbols in first-seen order. |
| Source.TypeTableOf | src/main.cpp:443-455 | A request's type table has one slot per argument. A slot is `nullptr` exactly when the argument names no interface, and otherwise points at that interface. |
| Source.TypeTablesExactly | src/main.cpp:439-456 | There is one type table per request that has arguments, and no other table. |
| Source.MessageRowResolves | src/main.cpp:465-470 | Message row k has request k's name and signature. Its types pointer is `dummyTypes` exactly when the request has no arguments; otherwise it names that request's table, which exists. The signature is longer than the table by two per open `new_id`. |
| Source.TablesAligned | src/main.cpp:349-470 | For every request opcode k, vtable slot k is handler k, handler k calls the callback stored for request k, and message row k describes request k. |
| Source.SendersNumbered | src/main.cpp:406-434 | Event k is posted with opcode k by the sender named after it, with the parameter list as the loop builds it. |
| Source.MessagesOfOk | src/main.cpp:458-472 | The message table is built exactly when every request has a signature; otherwise it fails with the encoder's message. |
| Source.SourceSucceeds | src/main.cpp:276-510 | Generating the definitions fails exactly when some request has an argument the encoder rejects, and then with its message. Otherwise it holds one set of definitions per interface, in order. |
| Source.TypedModelGenerates | src/main.cpp:465-470 | On a model whose arguments all carry the C type of their kind, generating the definitions cannot fail. |
| Source.ResourceDescriptorDeclared | src/main.cpp:300-307 | The descriptor each constructor passes to `wl_resource_create` is the interface's own symbol, and it is declared in the extern block. |
| Source.TypeTableTargetsDeclared | src/main.cpp:446-453 | Every interface a type table points at is declared in the extern block. |
| Source.EmitHandler | src/main.cpp:351-376 | One handler: its name, its typed parameters, the callback it calls and the arguments it forwards. |
| Source.EmitHandlers | src/main.cpp:350-377 | The handler loop gives one handler per request, in order. |
| Source.EmitVTable | src/main.cpp:388-402 | The vtable has one row per request, and row k is the name of request k's handler. |
| Source.EmitSender | src/main.cpp:408-431 | One sender definition: its name, its parameters, its opcode and the arguments it forwards. |
| Source.EmitSenders | src/main.cpp:406-434 | The event loop with its `evid` counter gives the senders numbered from 0 in event order. |
| Source.EmitTypeTable | src/main.cpp:443-455 | One table: its name and one slot per argument. |
| Source.EmitTypeTables | src/main.cpp:439-456 | The type-table loop skips requests without arguments and gives the tables `TypeTablesOf` specifies. |
| Source.EmitMessages | src/main.cpp:458-472 | The message-table loop gives the rows `MessagesOf` specifies, or the encoder's error. |
| Source.EmitInterface | src/main.cpp:343-509 | Everything generated for one interface, as `DefsOf` specifies. |
| Source.ParseSource | src/main.cpp:276-510 | The definitions generator gives `SourceOf`. That is the included header name, the extern block, then every interface, or the first error. |
| Header.DeclareSetter | src/main.cpp:202-213 | One setter: `set` + the request name in camelCase, taking a callback whose extra parameters are the argument types after a leading `", "`. |
| Header.DeclareSender | src/main.cpp:219-231 | One sender declaration: `send` + the event name in camelCase, with the argument types joined by `", "`. |
| Header.DeclareSlot | src/main.cpp:241-252 | One stored callback: the same parameter list as the setter, and the request name in camelCase. |
| Header.DeclareSetters | src/main.cpp:202-213 | The setter loop gives one setter per request, in order. |
| Header.DeclareSenders | src/main.cpp:219-231 | The event loop gives one sender declaration per event, in order. |
| Header.DeclareSlots | src/main.cpp:241-252 | The storage loop gives one callback member per request, in order. |
| Header.ParseHeader | src/main.cpp:149-274 | The declarations generator gives one class per interface, in order, with its setters, sender declarations and callback members. |
| Header.SettersMatchSlots | src/main.cpp:202-252 | A class has as many setters and stored callbacks as requests and as many senders as events. Setter k installs a callback of exactly the type stored in slot k. |
| Scanner.LastSlash | src/main.cpp:539 | `find_last_of('/')`: the last position holding `/`, or -1 (`npos`) when there is none. |
| Scanner.LastSlashBefore | src/main.cpp:539 | The same among the first n characters. |
| Scanner.SizeSub | src/main.cpp:539 | A `size_t` subtraction stays within the 64-bit range. |
| Scanner.SizeSubWraps | src/main.cpp:539 | That subtraction is the difference modulo 2^64, and the plain difference when there is no underflow. |
| Scanner.Substr | src/main.cpp:539 | `substr` never takes more than what follows its position. |
| Scanner.FileName | src/main.cpp:539 | The output base name is a prefix of the bytes after the last `/`. It is four bytes shorter than they are, or all of them when fewer than four follow the slash. |
| Scanner.FileNameHasNoSlash | src/main.cpp:539 | The output base name contains no `/`. |
| Scanner.FileNameOfTail | src/main.cpp:539 | The base name is the bytes after the last `/` without the last four of them, or all of them when fewer than four follow. |
| Scanner.FileNameStripsExtension | src/main.cpp:539 | `dir/base.xml` and `base.xml` both give `base`. |
| Scanner.ShortNameKeptWhole | src/main.cpp:539 | A name of fewer than four bytes after the last `/` is kept whole, because the `size_t` length wraps. |
| Scanner.NonAsciiNameCutByBytes | src/main.cpp:539 | The cut counts bytes: `d/éé` (six bytes in UTF-8) gives an empty base name. |
| Scanner.Generate | src/main.cpp:512-556 | A run fails with "Not enough args" when a path is missing and with "unknown wp type" when the document has an unknown kind; otherwise it succeeds. It then names `out/<base>.hpp` and `out/<base>.cpp`, holds one class per interface, and holds the definitions `SourceOf` gives for the same model and base name. |
| Scanner.HandlerCallsDeclaredSlot | src/main.cpp:369-376 | The handler of request k calls the callback member that the declared class stores for request k, through that class. |
| Scanner.SenderDefinitionDiffersFromDeclaration | src/main.cpp:406-431 | The defined sender's parameter list equals the declared one exactly when the event has no arguments. Otherwise the definition's list starts with `", "`. |

## Left out

- Loading the XML file (pugixml) is not modelled. The document is an
  already-parsed element tree (`Parse.Element`), and the "Couldn't load
  proto" failure of an unreadable file is not modelled.
- Parse.AsInt: reads an optional sign and leading decimal digits.
  Whitespace, hexadecimal prefixes and clamping to `int` range are not
  modelled.
- Command-line parsing is not modelled. The two paths are parameters of
  `Scanner.Generate`.
- Writing the two output files (`ofstream`) is not modelled. The output is
  the two paths and their contents.
- The generated text is modelled as structured rows (names, parameter
  lists, table entries, signatures), not as the literal C++ text. The fixed
  template text is therefore not modelled: the boilerplate, the destroy
  listener, the constructor and destructor bodies, and `onDestroyCalled`.
- The copyright banner, `SCANNER_VERSION` and the protocol name are not
  modelled; the protocol name only feeds the banner. Its camelCase form
  (`PROTO_DATA.name`, `src/main.cpp:538`) is computed and never read.
- The run-time lifecycle of the generated class is not modelled. This
  includes resource creation, the destroy listener and user data.
- Names read from the document (interface, request, event and argument
  names) are Dafny strings of Unicode characters, where the program holds
  their UTF-8 bytes. Encoding is not modelled. The model depends only on
  ASCII characters (`_`, `a`..`z`), which UTF-8 never uses inside a
  multi-byte character.
- `toupper` is locale-dependent; `Camel.Upper` maps only ASCII `a`..`z`.
- The global `XMLDATA`, `HEADER` and `SOURCE` buffers become method results.
  Each generator runs once, on empty buffers.
- Scanner.Generate: requires the protocol path to be shorter than 2^64
  characters, which every `std::string` is.
- The generation of the definitions never fails on a parsed model
  (`Source.TypedModelGenerates`). So the uncaught exception that
  `argsToShort` would throw there cannot occur in `Scanner.Generate`.
