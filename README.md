# gopp in Dafny

gopp translates Go source that uses `class Name extends Parent { ... }` blocks
into plain Go. Each class becomes an interface, a struct embedding the parent's
struct, a `New` function, its methods and two reflection methods (`IsA` and
`Class`). Text outside classes is copied through unchanged. The translation has
three stages:

- the lexer (`lexer.go`), a state machine that emits items;
- the parser, which builds an ast of literal text and class definitions and
  registers every class in a global map;
- `ast.String`, which prints the ast.

There are two generations of the parser:

- the newer one, `gopp/parser.go`, prints a class through a text template;
- the older one, `parser.go`, builds the text by string concatenation.

This project models the lexer, both parsers and both printers.

Layout:

- `items.dfy` (module `Items`): the items and the item stream that replaces the
  lexer's channel. A `Stream` is the items the lexer sends followed by how the
  scan ended:
  - `Closed`: the channel was closed;
  - `Stalled`: the lexer loops forever without sending;
  - `Crashed`: the lexer goroutine panicked.

  `ReadAt` is nextItem: reading past the items panics with "Read past end of
  file", blocks forever, or panics with the lexer's message, respectively.
  `Outcome` records whether a computation finished, panicked (with its
  message) or never ends.
- `lex_spec.dfy` (module `LexSpec`): one step function per state function of
  the lexer, and `Lex`, the whole scan as a function of the input.
- `lexer.dfy` (module `Lexer`): the lexer as a class whose fields
  `input`, `start`, `pos`, `width` and `items` change in place. Each state
  function is a method proved to do exactly what its step function says, and
  `Run` is proved to produce `LexSpec.Lex(input)`.
- `gopp.dfy` (module `Gopp`): the newer parser as a class `Parser` over a
  stream cursor and the global registry of class objects; classes as objects
  (`ClassObj`) that `classDef.String` updates in place; the parsing loops as
  functions (`ParseFrom`, `ClassFrom`, `BodyFrom`, `FuncFrom`); and printing
  (`Prepared`, `Template`, `Printed`, `AstText`). The template is written out as
  the exact text `tmplString` renders for a class.
- `legacy.dfy` (module `Legacy`): the older parser and printer, including
  `outNew`, `outFuncs` and `outReflect`.
- `body_scan.dfy` (module `BodyScan`): the loop of `processFuncBody` that cuts a
  method body into chunks. Comments are dropped, string literals end a chunk,
  and an unclosed quote panics. Both generators share it.
- `rewrite.dfy` (module `Rewrite`): `convertBody` of both generators
  (`this.m(` becomes a call through the interface, `parent::` and `this.` are
  rewritten) and `parentName`.
- `params.dfy` (module `Params`): the argument list of the constructor call,
  made of the first word of each comma-separated declaration.
- `go_strings.dfy` (module `GoStrings`): the Go `strings` functions the code
  uses (`Index`, `LastIndex`, `Split`, `Join`, `Fields`, `Trim`, `TrimSpace`,
  `Replace`).
- `gopp_props.dfy`, `legacy_props.dfy`, `print_props.dfy`: properties of the
  parsers and printers that relate several calls.
- `translate.dfy` (module `Translate`): `ProcessString` as lex, then parse, then
  print. Proved (`Translate.TextPassesThrough`, `Translate.CommentPassesThrough`):
  input in which "class ", "/*" and "package" do not occur comes out unchanged,
  and so does such text, then one block comment without "*/" inside it, then
  such text, provided the text before the comment is empty or ends in a newline.

## Model

| member | source | states |
|---|---|---|
| LexSpec.SkipSpace | lexer.go:201-214 | the position after the run of blanks and tabs: every character skipped is a space and the next one is not |
| LexSpec.LineEnd | lexer.go:184-191 | nextLine stops just after the first newline, or at the end of input; no newline is skipped before that |
| LexSpec.IdEnd | lexer.go:216-235 | the end of the run of identifier characters (letters, digits, '.', '_') |
| LexSpec.UntilEnd | lexer.go:405-409 | acceptUntil stops at the first terminator; every character before it is not a terminator |
| LexSpec.BodyEnd | lexer.go:329-348 | the brace-counting loop of lexFuncBody ends just after a '}' |
| LexSpec.BodyEndBalance | lexer.go:335-345 | the function body ends at the first point where the braces balance; if none exists, the braces never balance before the end of input |
| LexSpec.Flush | lexer.go:127-129 | text already read is emitted as one Text item exactly when it is non-empty |
| LexSpec.CommentStep | lexer.go:156-165 | without a closing "*/" the scan stops with "unclosed comment"; otherwise one Comment item from "/*" to the first "*/" |
| LexSpec.CommentEnd | lexer.go:158-162 | strings.Index finds the first "*/" after the opener |
| LexSpec.IdentifierStep | lexer.go:216-235 | end of input or a newline before the identifier ends gives "Missing identifier"; otherwise one item of the given kind, made of identifier characters and preceded only by spaces |
| LexSpec.EmptyIdentifier | lexer.go:226-232 | a non-identifier character right after the spaces emits an empty identifier: the "Invalid identifier" branch cannot fire because ignore moved start |
| LexSpec.PackageIsIdentifier | lexer.go:136-137 | the package keyword is itself read as the identifier of the Package item |
| LexSpec.TextStop | lexer.go:124-146 | the text loop stops at a line that starts with "class ", "/*" or "package", or at the end of input |
| LexSpec.TextStep | lexer.go:123-153 | lexText hands over to lexClass only where "class " starts, and otherwise makes progress |
| LexSpec.ClassStep | lexer.go:167-171 | lexClass skips "class " and reads the class name, then lexExtends |
| LexSpec.ExtendsStep | lexer.go:238-245 | a missing "extends" emits the error and the scan goes on; the position always moves 7 past the spaces |
| LexSpec.ExtendsClassNameStep | lexer.go:247-249 | the parent name, then lexBodyOpen |
| LexSpec.BodyOpenStep | lexer.go:251-262 | the next non-space character becomes the LeftDelim item; at the end of input the slice panics with Go's "[:N] with length M" message |
| LexSpec.ClassBodyStep | lexer.go:272-294 | dispatch inside a class: "}" closes, "func " starts a method, a line comment becomes one item up to its line end, anything else is a member |
| LexSpec.ClassCloseStep | lexer.go:296-299 | "}" becomes a RightDelim item and lexText resumes after it |
| LexSpec.FuncStep | lexer.go:305-310 | the method name after "func", then lexFuncParams |
| LexSpec.FuncParamsStep | lexer.go:317-325 | parameters run up to the first '{' or newline; with neither, acceptUntil loops forever; a newline first gives "Missing opening bracket for function." |
| LexSpec.FuncBodyStep | lexer.go:329-348 | the body is one item from the '{' to the brace that closes it, or "Unexpected EOF. Function body is still open." |
| LexSpec.FuncBodyBalanced | lexer.go:329-348 | the FuncBody item starts with '{', ends with '}', is balanced, and every proper prefix has more '{' than '}' |
| LexSpec.MemberStep | lexer.go:350-358 | a member is the rest of the line, emitted only when longer than one character |
| LexSpec.Step | lexer.go:88-93 | each state hands over at a position where its successor's precondition holds, and the scan progresses except for lexMember at the end of input |
| LexSpec.ClassBodyCycle | lexer.go:272-294 | at the end of input inside a class, lexClassBody and lexMember hand over to each other forever without emitting |
| LexSpec.LexFromStep | lexer.go:88-93 | the scan is the items of one state followed by the scan from its successor |
| LexSpec.PlainText | lexer.go:123-153 | input with no "class ", "/*" or "package" lexes to one Text item holding all of it (none when empty), then EOF, and the channel is closed |
| LexSpec.PlainTextFrom | lexer.go:124-146 | in such input the text loop runs to the end |
| Lexer.Lexer.constructor | lexer.go:109-116 | a lexer at position 0 with no items |
| Lexer.Lexer.Next | lexer.go:173-182 | returns the character at pos (or eof) and moves past it |
| Lexer.Lexer.Backup | lexer.go:193-195 | steps back over the last character read |
| Lexer.Lexer.Ignore | lexer.go:197-199 | drops the text read so far |
| Lexer.Lexer.Peek | lexer.go:383-387 | the next character, with the position unchanged |
| Lexer.Lexer.Emit | lexer.go:118-121 | sends the text from start to pos as an item and starts the next item there |
| Lexer.Lexer.Errorf | lexer.go:377-380 | sends an Error item with the message |
| Lexer.Lexer.IgnoreSpace | lexer.go:201-214 | skips blanks and tabs, and drops them when any were skipped |
| Lexer.Lexer.AcceptSpace | lexer.go:411-415 | skips blanks and tabs and keeps them in the pending item |
| Lexer.Lexer.NextLine | lexer.go:184-191 | moves just past the next newline, or to the end of input |
| Lexer.Lexer.AcceptUntil | lexer.go:405-409 | stops at the first terminator; reports the endless loop when there is none |
| Lexer.Lexer.LexComment | lexer.go:156-165 | emits and moves exactly as CommentStep says |
| Lexer.Lexer.LexIdentifier | lexer.go:216-235 | emits and moves exactly as IdentifierStep says |
| Lexer.Lexer.FlushText | lexer.go:127-129 | emits exactly the pending Text item, if any |
| Lexer.Lexer.SeekTextTrigger | lexer.go:124-146 | stops where TextStop says |
| Lexer.Lexer.LexText | lexer.go:123-153 | emits and moves exactly as TextStep says |
| Lexer.Lexer.LexClass | lexer.go:167-171 | as ClassStep |
| Lexer.Lexer.LexExtends | lexer.go:238-245 | as ExtendsStep |
| Lexer.Lexer.LexExtendsClassName | lexer.go:247-249 | as ExtendsClassNameStep |
| Lexer.Lexer.LexLeftDelim | lexer.go:257-262 | emits the first non-space character as LeftDelim; crashes with the slice error at the end of input |
| Lexer.Lexer.LexBodyOpen | lexer.go:251-255 | as BodyOpenStep |
| Lexer.Lexer.LexRightDelim | lexer.go:264-268 | emits "}" as RightDelim |
| Lexer.Lexer.LexClassBody | lexer.go:272-294 | as ClassBodyStep |
| Lexer.Lexer.LexClassClose | lexer.go:296-299 | as ClassCloseStep |
| Lexer.Lexer.LexFunc | lexer.go:305-310 | as FuncStep |
| Lexer.Lexer.LexFuncParams | lexer.go:317-325 | as FuncParamsStep |
| Lexer.Lexer.SkipPastOpenBrace | lexer.go:334 | moves just past the first '{', or to the end of input |
| Lexer.Lexer.LexFuncBody | lexer.go:329-348 | as FuncBodyStep |
| Lexer.Lexer.LexMember | lexer.go:350-358 | as MemberStep |
| Lexer.Lexer.Call | lexer.go:89-91 | running the state function named by fn does exactly what Step says |
| Lexer.Lexer.Run | lexer.go:88-93 | the items sent, and how the scan ends, are exactly Lex(input) |
| Lexer.Lex | lexer.go:109-116 | lex(input) produces the stream LexSpec.Lex(input) |
| LexSpec.Lex | lexer.go:88-116 | the scan from lexText at the start of the input: the items sent and how the channel ends |
| Items.Describe | lexer.go:58-73 | item.String: an error item prints its text, EOF prints "EOF", every other item prints quoted |
| Items.ReadAt | lexer.go:97-107 | nextItem gets an item while one is left; past the end it panics only when the channel was closed |
| Items.ReadFailure | lexer.go:97-107 | reading past the end never yields a value |
| Items.Quote | lexer.go:68-71 | %q of an item's text starts and ends with a double quote |
| Gopp.Receiver | gopp/parser.go:102 | the receiver is the lower-cased first character of the name, then "_"; an empty name panics |
| Gopp.FuncFrom | gopp/parser.go:171-185 | parseFunc reads params then body; the method keeps its name and comment, with no processed body and no override |
| Gopp.Recorded | gopp/parser.go:147-156 | the method's override flag is the pending flag, forced on for Construct |
| Gopp.BodyRound | gopp/parser.go:131-163 | one round of the class-body loop: it only adds fresh methods, and a closing "}" registers the class under its name, with parent filled in |
| Gopp.ClassFrom | gopp/parser.go:96-169 | an empty class name panics; a finished class consumes at least one item |
| Gopp.ParseFrom | gopp/parser.go:55-94 | a finished parse consumes at least one item |
| Gopp.BodyFromInduct | gopp/parser.go:131-166 | any property kept by adding members and methods holds of the class the body loop registers |
| Gopp.ClassFromRegisters | gopp/parser.go:164-168 | a class node is registered under its own name; a text node leaves the registry alone |
| Gopp.ClassObj.constructor | gopp/parser.go:98-101 | the object holds the given class fields |
| Gopp.ClassObj.Prepare | gopp/parser.go:236-247 | returns Prepared of the class and leaves the fields AfterPrepare says, whether or not a body panics |
| Gopp.ClassObj.ProcessBodies | gopp/parser.go:245-247 | processes the methods' bodies in order, writing each back as soon as it is done: returns FuncsOut and leaves the methods FuncsAfter says, also after a panic |
| Gopp.ClassObj.String | gopp/parser.go:213-258 | classDef.String returns Printed of the class and leaves the fields AfterPrepare says: ParentVarList set and, when a body panics, the bodies before it processed and the others as they were |
| Gopp.Parser.constructor | gopp/parser.go:40 | a parser at the first item, over the given registry |
| Gopp.Parser.NextItem | lexer.go:97-107 | reads the next item and moves on only when one was there |
| Gopp.Parser.ParseFunc | gopp/parser.go:171-185 | reads and returns exactly what FuncFrom says |
| Gopp.Parser.ParseClass | gopp/parser.go:96-169 | builds a fresh class object holding what ClassFrom says, and stores it in the registry under its name |
| Gopp.Parser.ReadClass | gopp/parser.go:96-125 | the header checks of parseClass, as ClassFrom |
| Gopp.Parser.ParseBody | gopp/parser.go:127-168 | the class-body loop, as BodyFrom |
| Gopp.Parser.ReadRound | gopp/parser.go:132-162 | one item of the class body, as BodyRound |
| Gopp.Parser.Parse | gopp/parser.go:55-94 | the ast and the registry are exactly those of ParseFrom |
| Gopp.Parser.ParseItem | gopp/parser.go:61-90 | one item of the top-level loop, as ParseFrom |
| Gopp.Parser.AppendClass | gopp/parser.go:69-71 | appends the class node and registers it, as ClassFrom |
| Gopp.ContentsUpdate | gopp/parser.go:166 | storing an object in the registry stores its current fields |
| Gopp.ProcessFuncBody | gopp/parser.go:359-414 | the body's chunks, converted, joined, trimmed of braces and spaces, then of white space |
| Gopp.BodyOut | gopp/parser.go:359-414 | processFuncBody panics only on an open quote, and its result neither starts nor ends with white space |
| Gopp.FuncsOut | gopp/parser.go:245-247 | one processed method per method |
| Gopp.FuncsOutStep | gopp/parser.go:245-247 | the loop processes method i after methods 0..i-1, and stops at the first panic |
| Gopp.FuncsOutFails | gopp/parser.go:245-247 | a panic on an early method is the panic of the whole loop |
| Gopp.AstString | gopp/parser.go:42-50 | ast.String is the nodes' texts joined until the first panic; every class object is left untouched or prepared as AfterPrepare says, and when printing finishes every one is prepared |
| Gopp.PrintNode | gopp/parser.go:45-47 | one turn of the loop: node i prints as its value says, node i's object is now prepared, and every object still holds its value untouched or prepared, also when one object occurs twice |
| Gopp.NodeString | gopp/parser.go:45-47 | a text node prints itself and a class prints as Printed, leaving its object prepared |
| Gopp.PrintClass | gopp/parser.go:213-258 | printing a class object gives Printed of its fields and leaves the fields AfterPrepare says, also when the object was printed before |
| Gopp.AstTextStep | gopp/parser.go:45-47 | one more node appends its text |
| Gopp.AstTextFails | gopp/parser.go:45-47 | a panic on an early node is the panic of the whole print |
| Gopp.FuncsOutIdempotent | gopp/parser.go:245-247 | processing the bodies twice is processing them once |
| Gopp.PreparedIdempotent | gopp/parser.go:213-258 | printing a class twice gives the same text, because the second print re-prepares what the first one set |
| Gopp.FuncsAfter | gopp/parser.go:245-247 | the methods the loop leaves: one per method, and when the loop finishes, the methods it returns |
| Gopp.FuncsAfterPanic | gopp/parser.go:245-247 | when method j is the first whose body panics, the methods before it hold their processed bodies and the others are untouched |
| Gopp.AfterPrepare | gopp/parser.go:236-247 | String changes only ParentVarList and the methods, and when it finishes they are the prepared class |
| Gopp.FuncsAfterIdempotent | gopp/parser.go:245-247 | running the loop again over the methods it left, finished or panicked, gives the same outcome and leaves them as they were |
| Gopp.AfterPrepareIdempotent | gopp/parser.go:213-258 | printing a class again after a print that finished or panicked leaves the same fields and gives the same outcome |
| Gopp.Parse | gopp/parser.go:55-94 | a finished parse has read at least one item and stops inside the stream |
| Gopp.Prepared | gopp/parser.go:236-247 | the class handed to the template: ParentVarList filled in and every body processed, or the first body's panic |
| Gopp.Template | gopp/parser.go:437-475 | the text the template renders: interface, struct, New, the methods, IsA and Class (its properties are the lemmas TemplateCallsConstruct, InterfaceListsDeclared and InterfaceLinesAt) |
| Gopp.Printed | gopp/parser.go:213-258 | the template's text for the prepared class, or the panic of preparing it |
| Gopp.AstText | gopp/parser.go:42-50 | the nodes' texts, concatenated, until the first class that panics |
| GoppProperties.ParseFromRegisters | gopp/parser.go:55-94 | after a parse, the registry is the old one with every class of the ast stored in order |
| GoppProperties.RoundRegisters | gopp/parser.go:61-90 | one round of the parse loop keeps that registry invariant |
| GoppProperties.ParseRegisters | gopp/parser.go:55-94 | parse registers exactly the classes it returns |
| GoppProperties.LastWriteWins | gopp/parser.go:166 | a later class of the same name replaces an earlier one in the registry |
| GoppProperties.OtherNamesKept | gopp/parser.go:166 | entries for names the ast does not define are untouched |
| GoppProperties.CommentJoinsText | gopp/parser.go:66-68 | pending comments are prefixed to the next text |
| GoppProperties.PackageLeavesComment | gopp/parser.go:80-86 | a package clause is output before the comments that preceded it |
| GoppProperties.ErrorDropsComment | gopp/parser.go:72-74 | an error item ends the parse and the pending comments are lost |
| GoppProperties.EmptyClassNamePanics | gopp/parser.go:102 | an empty class name panics with an index error |
| GoppProperties.FuncAdded | gopp/parser.go:157 | adding a method keeps a class well shaped |
| GoppProperties.BodyFromCloses | gopp/parser.go:130-166 | the class registered keeps its name, parent, comment, members and methods already read, and its parent is parentName(extends) |
| GoppProperties.ClassFromCloses | gopp/parser.go:96-168 | the registered class has the parsed name, comment and extends, and its parent is parentName(extends) |
| GoppProperties.ParseFromShapes | gopp/parser.go:55-94 | every class in the ast is well shaped |
| GoppProperties.RoundShapes | gopp/parser.go:61-90 | one round of the parse loop keeps that |
| GoppProperties.CommentRound | gopp/parser.go:136-137 | a comment inside a class joins the pending comment |
| GoppProperties.MemberRound | gopp/parser.go:140-142 | a member takes the pending comment, which is then cleared |
| GoppProperties.OverrideRound | gopp/parser.go:143-144 | an override item marks the next method |
| GoppProperties.FuncRound | gopp/parser.go:145-159 | a method takes the pending comment and override flag, both cleared after it |
| GoppProperties.CloseRound | gopp/parser.go:160-168 | "}" registers the class with parentName filled in |
| GoppProperties.MemberTakesComments | gopp/parser.go:136-142 | of two members, the first gets all comments before it and the second none |
| GoppProperties.OverrideMarksNextOnly | gopp/parser.go:143-159 | the override flag applies to the next method only |
| GoppProperties.ConstructRecorded | gopp/parser.go:152-156 | Construct sets the constructor parameters, trimmed of parentheses and spaces, and always counts as an override |
| GoppProperties.ConstructArgList | gopp/parser.go:236-243 | the constructor call passes the declared parameter names, in order |
| PrintProperties.FuncsOutDone | gopp/parser.go:245-247 | processing the bodies succeeds exactly when every body does |
| PrintProperties.ProcessableSnoc | gopp/parser.go:245-247 | a list of methods is processable exactly when its prefix and its last method are |
| PrintProperties.FuncsOutEach | gopp/parser.go:245-247 | each processed method is the original with its body processed |
| PrintProperties.PrintedFails | gopp/parser.go:213-258 | printing a class fails exactly when some method body has an open quote, with that panic |
| PrintProperties.FuncsOutPanics | gopp/parser.go:359-414 | the only failure of processing is the open-quote panic |
| PrintProperties.PreparedFields | gopp/parser.go:236-247 | preparing sets only ParentVarList and the processed bodies |
| PrintProperties.PrintedCallsConstruct | gopp/parser.go:452-456 | the printed New function calls Construct with the argument names of the constructor |
| PrintProperties.TemplateCallsConstruct | gopp/parser.go:455 | the template calls Construct with ParentVarList |
| PrintProperties.InterfaceListsDeclared | gopp/parser.go:441-442 | every method that is neither Construct nor an override is declared in the interface |
| PrintProperties.InterfaceLineCount | gopp/parser.go:441-442 | the interface holds exactly one line per declared method |
| PrintProperties.BodyTrimmed | gopp/parser.go:411-412 | braces, spaces and white space around a plain body are trimmed off |
| Legacy.FuncFrom | parser.go:155-169 | parseFunc reads params then body; the method keeps its name and comments |
| Legacy.BodyFrom | parser.go:121-152 | the class-body loop registers the class under its name; constructorParams are those of the last Construct_ |
| Legacy.ClassFrom | parser.go:89-153 | a class node is registered with the parsed name and comment |
| Legacy.ParseFrom | parser.go:47-86 | a finished parse consumes at least one item |
| Legacy.Parser.constructor | parser.go:32 | a parser at the first item, over the given registry |
| Legacy.Parser.NextItem | lexer.go:97-107 | reads the next item and moves on only when one was there |
| Legacy.Parser.ParseFunc | parser.go:155-169 | as FuncFrom |
| Legacy.Parser.ParseClass | parser.go:89-153 | as ClassFrom, with the registry updated in place |
| Legacy.Parser.Parse | parser.go:47-86 | the ast and the registry are exactly those of ParseFrom |
| Legacy.Parse | parser.go:47-86 | a finished parse has read at least one item and stops inside the stream |
| Legacy.InterfaceText | parser.go:177-183 | the interface: the parent's interface embedded, then one line per method, the constructor included |
| Legacy.StructText | parser.go:185-195 | the struct: the parent's struct embedded, then each member after its comments |
| Legacy.SliceError | parser.go:227 | Go's runtime message for params[lo:hi]: the upper bound alone when it is negative, both bounds otherwise |
| Legacy.NewText | parser.go:237-245 | the New function: doc comment, header with the parameters, Init_, Construct_ with the argument names, and the interface returned |
| Legacy.ReflectText | parser.go:263-281 | IsA answers true for the class's own name and otherwise asks the embedded parent; Class returns the name |
| Legacy.AstText | parser.go:34-42 | the nodes' texts in order; it finishes only when every node prints |
| Legacy.NewParams | parser.go:210-224 | New takes the class's constructor parameters, else the parent's, else "()"; if the parent has none either, the loop never ends |
| Legacy.ArgList | parser.go:227-235 | the slice between the first "(" and the last ")" panics exactly when there is no ")" or it comes first |
| Legacy.OutNew | parser.go:204-248 | outNew never ends exactly when NewParams never ends |
| Legacy.FuncsText | parser.go:251-261 | outFuncs panics only on an open quote |
| Legacy.ClassText | parser.go:174-202 | classDef.String never ends exactly when outNew's loop never ends |
| Legacy.OutNewString | parser.go:204-248 | the imperative outNew produces OutNew |
| Legacy.FuncsTextStops | parser.go:254-258 | after a panic the rest of the methods are not printed |
| Legacy.FuncsTextStep | parser.go:254-258 | one more method appends its head and converted body |
| Legacy.OutFuncsString | parser.go:251-261 | the imperative outFuncs produces FuncsText |
| Legacy.InterfaceString | parser.go:177-183 | the interface text |
| Legacy.StructString | parser.go:185-195 | the struct text |
| Legacy.ClassString | parser.go:174-202 | the imperative classDef.String produces ClassText |
| Legacy.AstTextStops | parser.go:37-39 | a panic on an early node is the panic of the whole print |
| Legacy.AstString | parser.go:34-42 | the imperative ast.String produces AstText |
| LegacyProperties.ParseFromRegisters | parser.go:47-86 | after a parse, the registry is the old one with every class of the ast stored in order |
| LegacyProperties.ParseRegisters | parser.go:47-86 | parse registers exactly the classes it returns |
| LegacyProperties.LastWriteWins | parser.go:150 | a later class of the same name replaces an earlier one |
| LegacyProperties.OtherNamesKept | parser.go:150 | other names are untouched |
| LegacyProperties.CommentJoinsText | parser.go:58-60 | pending comments are prefixed to the next text |
| LegacyProperties.PackageLeavesComment | parser.go:71-78 | a package clause is output before the comments that preceded it |
| LegacyProperties.ErrorDropsComment | parser.go:64-66 | an error item ends the parse and drops the pending comments |
| LegacyProperties.MemberTakesComments | parser.go:127-133 | of two members, the first gets all comments before it and the second none |
| LegacyProperties.ConstructorParamsRecorded | parser.go:134-143 | Construct_ sets constructorParams to its raw parameters |
| LegacyProperties.UnexpectedEofReadsOn | parser.go:61-63 | when a class ends at EOF, parse reads past the EOF item and fails as nextItem does |
| LegacyProperties.OpenClassAtEnd | parser.go:121-126 | a class left open at the end of input panics, hangs or crashes according to how the lexer ended |
| LegacyProperties.MethodLinesAppend | parser.go:180-182 | the interface lines of two method lists are concatenated |
| LegacyProperties.InterfaceListsEveryMethod | parser.go:180-182 | every method, the constructor included, has its line in the interface |
| LegacyProperties.ArgListOfDecls | parser.go:227-235 | the constructor call passes the declared parameter names, in order |
| LegacyProperties.ArgListAround | parser.go:227-235 | only the text inside the outer parentheses is used |
| LegacyProperties.ArgListWithoutClose | parser.go:227 | parameters without ")" panic with "slice bounds out of range [:-1]" |
| LegacyProperties.ParentWithoutParamsHangs | parser.go:213-224 | a class without constructor whose registered parent has none never finishes printing |
| BodyScan.Find | parser.go:325-330 | strings.Index from a position |
| BodyScan.FindIsIndex | gopp/parser.go:393-398 | the scan's search is strings.Index on the rest of the body |
| BodyScan.StepAt | gopp/parser.go:368-405 | one turn of the scanning loop cuts a chunk or moves forward |
| BodyScan.ScanFrom | gopp/parser.go:366-409 | a finished scan yields at least one chunk |
| BodyScan.ScanFromStep | gopp/parser.go:366-409 | the scan is one turn followed by the scan from where the turn left off |
| BodyScan.NextMove | gopp/parser.go:368-405 | the imperative turn is StepAt |
| BodyScan.ProcessFuncBody | parser.go:291-343 | the imperative loop produces Processed: the converted chunks joined, or the open-quote panic |
| BodyScan.SkipPlain | gopp/parser.go:374-402 | characters other than quotes and '/' pass without a cut |
| BodyScan.PlainBody | gopp/parser.go:366-409 | a body without quotes or '/' is one chunk, converted whole |
| BodyScan.Processed | gopp/parser.go:366-409 | the scan and conversion never hang, and the only panic is the open-quote one |
| BodyScan.StepShift | gopp/parser.go:368-405 | a turn of the scan depends only on the body from the current position |
| BodyScan.ScanShift | gopp/parser.go:366-409 | so does the whole scan |
| BodyScan.ScanRest | gopp/parser.go:366-409 | the scan after a cut is the scan of the rest of the body |
| BodyScan.LineCommentStep | gopp/parser.go:391-395 | a line comment is cut off up to and including its newline |
| BodyScan.BlockCommentStep | gopp/parser.go:396-400 | a block comment is cut off up to and including "*/" |
| BodyScan.QuoteStep | gopp/parser.go:375-383 | a quoted literal ends the current chunk after its closing quote |
| BodyScan.OpenQuoteStep | gopp/parser.go:376-379 | a quote with no partner panics |
| BodyScan.LineCommentDropped | gopp/parser.go:391-395 | line comments vanish from the chunks |
| BodyScan.BlockCommentDropped | gopp/parser.go:396-400 | block comments vanish from the chunks |
| BodyScan.LiteralStaysInChunk | gopp/parser.go:375-383 | a string literal stays whole, at the end of its chunk |
| BodyScan.OpenQuotePanics | gopp/parser.go:376-379 | an unclosed quote panics with "String has open quote, but not close quote." |
| BodyScan.ChunksTileFrom | gopp/parser.go:366-409 | without comments the chunks tile the body |
| BodyScan.ChunksTile | gopp/parser.go:366-409 | without comments the chunks joined are the body |
| BodyScan.ProcessedCons | gopp/parser.go:382-397 | each chunk is converted on its own and appended |
| BodyScan.LineCommentOutput | gopp/parser.go:391-395 | a line comment is dropped from the output |
| BodyScan.BlockCommentOutput | gopp/parser.go:396-400 | a block comment is dropped from the output |
| BodyScan.LiteralRewritten | gopp/parser.go:375-383 | a string literal is converted with the text before it; literals are not protected from the rewriting |
| Rewrite.WordEnd | gopp/parser.go:420 | the end of the run of [a-zA-Z0-9_] |
| Rewrite.CallAt | gopp/parser.go:420 | a match of `this\.([a-zA-Z0-9_]+) ?\(` at the start of the text, and when no match starts at a word, why not |
| Rewrite.ReplaceCalls | gopp/parser.go:420-421 | text with no "this." is unchanged |
| Rewrite.CallRewritten | gopp/parser.go:420-421 | `this.m(` and `this.m (` become the prefix followed by `m(` |
| Rewrite.ParentName | gopp/parser.go:428-431 | the part of extends after its last '.', or extends itself when it has no '.' |
| Rewrite.ParentNameIdempotent | gopp/parser.go:428-431 | taking the parent name twice changes nothing |
| Rewrite.LegacyConvert | parser.go:345-354 | text with no "this." and no "parent::" is unchanged |
| Rewrite.GoppConvert | gopp/parser.go:416-425 | text with no "this." and no "parent::" is unchanged |
| Rewrite.GoppCallThroughInterface | gopp/parser.go:421 | `this.m(` becomes a call through the class's interface: receiver.I().(NameI).m( |
| Rewrite.CallAtExtends | gopp/parser.go:420-421 | a call matched at the start of a text is matched whatever follows it |
| Rewrite.CallAtSeam | gopp/parser.go:420-421 | across a seam between a non-word, non-dot character and what follows, no new call is matched |
| Rewrite.ReplaceCallsSplit | gopp/parser.go:421 | the call rewrite of two pieces joined at such a seam is the rewrite of each |
| Rewrite.ReplaceCallsKeepsLast | gopp/parser.go:421 | the call rewrite keeps the text's last character |
| Rewrite.ParentNameQualified | gopp/parser.go:417-418 | a package-qualified parent loses its package |
| RewriteProperties.FieldCopied | gopp/parser.go:420-421 | a field of `this` matches no call and is copied by the call rewrite |
| RewriteProperties.ParentReplaced | gopp/parser.go:421-422 | `parent::` followed by a name passes the call rewrite and is replaced by the parent's path |
| RewriteProperties.GoppFieldRewritten | gopp/parser.go:420-423 | `this.x` not followed by a call becomes receiver.x |
| RewriteProperties.LegacyFieldKept | parser.go:350-352 | `this.x` not followed by a call stays as it is |
| RewriteProperties.GoppParentRewritten | gopp/parser.go:417-423 | `parent::m` becomes receiver.Parent.m, with the package stripped from extends |
| RewriteProperties.LegacyParentRewritten | parser.go:346-352 | `parent::m` becomes this.Parent_.m |
| RewriteProperties.GoppSplit | gopp/parser.go:416-425 | convertBody of two pieces joined at a seam is the join of each piece's |
| RewriteProperties.LegacySplit | parser.go:345-354 | the same for parser.go |
| RewriteProperties.GoppPieces | gopp/parser.go:416-425 | convertBody of a body cut at seams is the join of what it makes of each piece |
| RewriteProperties.LegacyPieces | parser.go:345-354 | the same for parser.go |
| RewriteProperties.GoppOrder | gopp/parser.go:420-423 | on mixed text the three rewrites apply in order: the call goes through the interface, `parent::` to the receiver's parent, and the last rewrite turns only the remaining fields |
| RewriteProperties.LegacyOrder | parser.go:350-352 | on mixed text the call goes through the interface, `parent::` becomes this.Parent_ after the call rewrite has run, and the fields stay |
| RewriteProperties.GoppConvertExample | gopp/parser.go:416-425 | `this.x = parent::Foo(this.y (1), this.z)` in class Dog extending pkg.Animal becomes `d_.x = d_.Animal.Foo(d_.I().(DogI).y(1), d_.z)` |
| RewriteProperties.LegacyConvertExample | parser.go:345-354 | the same body becomes `this.x = this.Animal_.Foo(this.I_().(Dog).y(1), this.z)` |
| Rewrite.LegacyCallThroughInterface | parser.go:351 | `this.m(` becomes this.I_().(Name).m( |
| Params.FirstWords | gopp/parser.go:237-242 | only declarations with a first field contribute, each by a non-empty word without white space |
| Params.CollectVarList | gopp/parser.go:236-243 | the imperative loop produces VarList |
| Params.VarListOfDecls | gopp/parser.go:236-243 | for declarations "name type", the list is the names joined by "," |
| Params.FirstWordsOfDecls | gopp/parser.go:237-242 | the first words of such declarations are their names |
| Params.VarList | gopp/parser.go:236-243 | the argument list holds no white space |
| GoStrings.Index | parser.go:227 | strings.Index: the first occurrence, or -1 when there is none |
| GoStrings.LastIndexOf | parser.go:227 | strings.LastIndex of one character: the last occurrence, or -1 |
| GoStrings.Split | gopp/parser.go:236 | the pieces contain no separator and join back to the input |
| GoStrings.SplitJoin | gopp/parser.go:236 | splitting joined pieces gives back the pieces |
| GoStrings.FirstField | gopp/parser.go:238-240 | strings.Fields(s)[0]: none for blank text, else a non-empty word |
| GoStrings.Trim | gopp/parser.go:411 | a piece of the input that neither starts nor ends with a cut character |
| GoStrings.TrimAround | gopp/parser.go:411 | trimming removes exactly the cut characters around the middle |
| GoStrings.TrimSpace | gopp/parser.go:412 | a piece of the input that neither starts nor ends with white space |
| GoStrings.ReplaceAll | gopp/parser.go:422-423 | text without the pattern is unchanged |
| GoStrings.ReplaceAllAt | gopp/parser.go:422-423 | at the first occurrence, the text before it is copied, the occurrence replaced and the scan goes on after it |
| GoStrings.ReplaceAllSplit | gopp/parser.go:422-423 | replacing in two pieces that no occurrence spans is replacing in each |
| GoStrings.ReplaceAllSeam | gopp/parser.go:422-423 | cutting the text after a character the pattern does not contain splits the replacement in two, and the left side still ends with that character |
| GoStrings.ReplaceAllKeepsLast | gopp/parser.go:422-423 | unless the text ends the way the pattern does, its last character survives the replacement |
| GoStrings.ToLower | gopp/parser.go:102 | the result is not an upper-case letter, and other characters are kept |
| Translate.ProcessString | gopp/main.go:48-56 | lex, parse, print: a finished translation is the print of the parsed ast, the registry holds exactly its classes in order, and a lexer crash is survived only when the parser stopped before the last item |
| Translate.UnopenedClassCrashes | lexer.go:257-262 | a class header with neither "extends" nor a body ends in the lexer's crash, with Go's message for a slice past the end |
| Translate.PassiveFrom | gopp/parser.go:59-91 | from any point of a stream of text and comments, parse prints the pending comments and the items' texts in order, stops just past EOF and registers nothing |
| Translate.PassiveParse | gopp/parser.go:55-94 | a stream of text and comments ending in EOF parses, registers nothing, and prints back the text of its items (comments are carried into the next text or flushed at EOF) |
| Translate.PassiveTranslation | gopp/main.go:48-56 | such a stream prints as the concatenation of its items |
| Translate.CommentLexed | lexer.go:123-165 | text, one block comment starting a line, then text lexes to one Text item, the Comment item, one Text item (each Text item only when non-empty), then EOF |
| Translate.CommentPassesThrough | gopp/main.go:48-56 | text with one block comment comes out unchanged, and the registry too |
| Translate.TextPassesThrough | gopp/main.go:48-56 | text with no "class ", "/*" or "package" comes out unchanged |
| Translate.TestTextPasses | gopp/parser_test.go:7-18 | the input of TestText comes out unchanged |
| Translate.TestText2Passes | gopp/parser_test.go:20-35 | the input of TestText2 comes out unchanged |

## Left out

- Reading and writing files, command-line flags and running `gofmt`/`go build`
  (gopp/main.go:13-44, 60-103). These are I/O. `Translate.ProcessString` takes
  the input text and returns the text that would be written.
- The goroutine and channel between the lexer and the parser. The lexer runs to
  completion first and the parser reads its `Stream`. Because the channel is
  unbuffered, the items the parser sees are the same.
- The text/template engine. `Gopp.Template` is the exact text `tmplString`
  (gopp/parser.go:437-475) renders for a class; the engine itself is not part
  of this model.
- Unicode letters and case. A character stands for one rune of width one.
  `strings.Fields` and `strings.TrimSpace` use the full white-space set of
  `unicode.IsSpace` (`GoStrings.WhiteSet`), but `isIdChar` (lexer.go:371-373)
  and `strings.ToLower` know only the ASCII letters and digits, not Unicode's
  letter, digit and case tables.
- The lexer that produces the `Override` item that gopp/parser.go:143-144
  reads is not part of this model. The lexer modelled (lexer.go) never emits
  it, so `Translate` can only reach the override branch through properties
  stated on streams (`GoppProperties.OverrideRound`).
- `outNew`, `outFuncs` and `outReflect` of gopp/parser.go:268-351: nothing calls
  them. The live versions are those of parser.go (`Legacy.OutNew`,
  `Legacy.FuncsText`, `Legacy.ClassText`).
- base.go, goppbase/base.go, doc.go and gopp/doc.go: runtime support code and
  documentation that the translator does not run.
- Gopp.AstString: when a class panics, states only that each class object is
  untouched or prepared, not which ones the loop reached (those up to and
  including the panicking node). `processFile` recovers the panic
  (gopp/main.go:23-27) and the objects stay in the registry, but nothing in
  gopp/parser.go reads the registry after printing starts, so the ast's text
  does not depend on them. `Gopp.ClassObj.String` states the panicking
  object's own fields.
- A crash of the lexer goroutine (the slice at lexer.go:257-262) ends the
  program in Go. The model ends the stream with `Crashed` and the translation
  with that panic, unless the parser stops before reading the last item.
- Translate.ProcessString: a function, not a method over class objects. Its
  parse is the value-level `Gopp.Parse`, which `Gopp.Parser.Parse` is proved
  to match.
- TestSimple and TestJustMember (gopp/parser_test.go:37-96) expect output of
  an older template. The code does not produce it, so they are not stated.
