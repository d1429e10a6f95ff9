# trivial-elim, modelled in Dafny

trivial-elim is a Clang tool that walks the syntax tree of C translation units and picks out
function definitions whose body could be replaced by a stub. It skips declarations of
functions that are defined nowhere in the translation unit, and skips functions whose body sits
in a file not named `*.c`. For each function it keeps, it takes the
body's source range and builds the stub: a block holding
`panic("<file>: Execute eliminated function(<name>).");`, guarded by `#ifdef _LINUX_KERNEL_H`.
It then writes one line `name,start,end` to standard output. The visitor never stops the walk.

The project has three files:

- `panic_stmt.dfy` (module `PanicStmt`) models `createPanicStmt`. It proves the stub's exact
  layout, its length and its shape. It defines `ParseStub`, which reads the two names back out
  of a stub. It proves the round trip, that the parser only accepts stubs, and that stubs are
  injective when function names contain no `:`. It also proves that in general two different
  name pairs can give the same stub.
- `trivial_elim.dfy` (module `TrivialElim`) models `FindTrivialFuncVisitor`. Each Clang
  declaration becomes a `FunctionDecl` record with these fields:
  - the name;
  - whether `getBody()` finds a body, on this declaration or on any other declaration of the
    same function;
  - the file name the source manager gives for that body's start;
  - the printed start and end locations of that body.

  The syntax tree becomes the sequence of these records, in the order the walk reaches them.
  `Visit`, `Report` and `Plan` are the specification functions. The class
  `FindTrivialFuncVisitor` has a `report` field, which holds the lines written to standard
  output, and a ghost `planned` field, which holds the `(range, stub)` pairs the visitor
  computes and then discards.
  Its methods are proved against those functions. The lemmas show four things:
  - the walk is an in-order filter followed by a map;
  - a declaration produces output exactly when it is eligible;
  - ranges are taken verbatim;
  - each declaration's output does not depend on its neighbours.
- `wrappers.dfy` holds the `Option` datatype.

## Model

| member | source | states |
|---|---|---|
| `PanicStmt.CreatePanicStmt` | trivial-elim.cpp:17-29 | The stub is as long as the file name plus the function name plus the 78 characters of the three fixed fragments. |
| `PanicStmt.StubLayout` | trivial-elim.cpp:19-27 | The stub is the first fragment, then the file name at offset 34, then the 30-character middle fragment, then the function name, then the 14-character closing fragment. The text between the first and last fragments is `<file>: Execute eliminated function(<name>`. |
| `PanicStmt.StubShape` | trivial-elim.cpp:19-27 | The stub begins with `{` and ends with `}`. The line `#ifdef _LINUX_KERNEL_H` follows the opening brace, and `#endif` comes after it and just before the closing brace. The opening brace and the closing brace are each followed, or preceded, by a line break. The text between the guard line and `#endif` is exactly `\n  panic("<file>: Execute eliminated function(<name>).");\n`. |
| `PanicStmt.StubRoundTrip` | trivial-elim.cpp:17-29 | Parsing a stub gives back the file name and function name it was built from, whenever the function name holds no `:`. |
| `PanicStmt.ParseStubSound` | trivial-elim.cpp:17-29 | Any text the parser accepts is exactly the stub of the two names it returns, so the parser accepts stubs and nothing else. |
| `PanicStmt.StubInjective` | trivial-elim.cpp:17-29 | Two equal stubs come from equal file names and equal function names, when neither function name holds `:`. |
| `PanicStmt.CollidingStubs` | trivial-elim.cpp:17-29 | Some different (file, name) pairs give the same stub: a function name that contains the middle fragment collides with a longer file name. |
| `PanicStmt.SameMessageSameStub` | trivial-elim.cpp:19-27 | The stub depends only on the message `<file>: Execute eliminated function(<name>`. |
| `TrivialElim.EndsWith` | trivial-elim.cpp:50 | A name ends with a suffix exactly when the suffix is no longer than the name and each suffix character equals the name character at the same distance from the end. |
| `TrivialElim.IsEligible` | trivial-elim.cpp:43-52 | A declaration passes the filter exactly when `getBody()` finds a body and that body's file name ends in the characters `.` then `c`. |
| `TrivialElim.ReportLine` | trivial-elim.cpp:57 | The report line is two characters longer than the name plus the two locations, and it has commas right after the name and right after the start location. |
| `TrivialElim.PlanEntryFor` | trivial-elim.cpp:53-54 | The entry's range is the body's start and end, unchanged. Its stub is 78 characters longer than the file name plus the function name. When the function name has no `:`, the stub parses back to that file name and function name. |
| `TrivialElim.Visit` | trivial-elim.cpp:40-59 | A visit plans exactly when the declaration passes the filter. When it plans, the visit's line is the declaration's report line and its entry is the declaration's plan entry. |
| `TrivialElim.Candidates` | trivial-elim.cpp:43-52 | A declaration is among the walk's candidates exactly when it is in the walk, has a body and lies in a `.c` file. |
| `TrivialElim.VisitPlansIffEligible` | trivial-elim.cpp:43-52 | A visit plans a replacement if and only if the declaration has a body and its body's file name ends in the characters `.` then `c`. |
| `TrivialElim.CExtensionExamples` | trivial-elim.cpp:49-52 | The suffix test is exact and case-sensitive. It accepts `foo.c`, `a.b.c` and `.c`. It rejects `foo.C`, `foo.h`, `foo.cc`, `foo`, `c` and the empty name. |
| `TrivialElim.NoBodyNoOutput` | trivial-elim.cpp:43-45 | Removing, from any walk, a declaration of a function that is defined nowhere in the unit leaves both the report and the plan unchanged. |
| `TrivialElim.RedeclaredDefinitionReportedTwice` | trivial-elim.cpp:43-57 | When the walk reaches the same function body twice, through an earlier declaration and through the definition, the report holds that function's line twice and the plan holds its entry twice, at the positions the walk order fixes. |
| `TrivialElim.VisitIsLocal` | trivial-elim.cpp:40-58 | Whether a declaration is planned depends only on whether it has a body and on its file name. Its stub depends only on its file name and its own name. |
| `TrivialElim.WalkAppend` | trivial-elim.cpp:40-59 | The report and the plan of a walk over `a + b` are those of `a` followed by those of `b`. |
| `TrivialElim.VisitInContext` | trivial-elim.cpp:40-59 | Wherever a declaration stands in a walk, it adds exactly its own output. That output is its line and its entry if it is eligible, and nothing otherwise. The declarations around it add theirs. |
| `TrivialElim.ReportIsFilterMap` | trivial-elim.cpp:43-57 | The report has one line per eligible declaration. Its k-th line is `name,start,end` of the k-th eligible declaration, in walk order. |
| `TrivialElim.PlanIsFilterMap` | trivial-elim.cpp:46-54 | The plan has one entry per eligible declaration. Its k-th entry is the body range and stub of the k-th eligible declaration, in walk order. |
| `TrivialElim.EligibleIsReported` | trivial-elim.cpp:43-57 | Every eligible declaration of the walk gets its report line and its plan entry. |
| `TrivialElim.ReportedComesFromEligible` | trivial-elim.cpp:43-57 | Every reported line is the line of some eligible declaration of the walk. |
| `TrivialElim.PlanEntriesFromEligible` | trivial-elim.cpp:46-54 | Every plan entry replaces the body range `(start, end)` of an eligible declaration, unwidened and unnarrowed, with that declaration's own stub. |
| `TrivialElim.ReportLineFields` | trivial-elim.cpp:57 | A report line is the function name, a comma, the start location, a comma and the end location. Its length is the sum of those three lengths plus two. |
| `TrivialElim.FindTrivialFuncVisitor.constructor` | trivial-elim.cpp:34-38 | A new visitor has written no line and planned no entry. |
| `TrivialElim.FindTrivialFuncVisitor.VisitFunctionDecl` | trivial-elim.cpp:40-59 | A visit always answers `true`. It appends exactly the visit's output to `report` and to `planned`. |
| `TrivialElim.FindTrivialFuncVisitor.TraverseDecls` | trivial-elim.cpp:73 | The walk visits every declaration, because no visit stops it. Afterwards `report` and `planned` have grown by exactly the walk's report and plan. |
| `TrivialElim.HandleTranslationUnit` | trivial-elim.cpp:68-74 | A fresh visitor walking one translation unit produces exactly `Report(decls)` and `Plan(decls)`. |

## Left out

- The Clang syntax tree, `RecursiveASTVisitor` and `TraverseDecl` (trivial-elim.cpp:31, 73) are not modelled; the model walks a sequence of declarations in walk order. `SourceManager::getFilename` and `SourceLocation::printToString` (49, 57) are library calls; their results are the `file`, `start` and `end` fields of a `FunctionDecl`.
- The global `clang::Rewriter` (15, 37) and `getRangeSize` (55) are left out. The length computed at 55 is never used, because the `ReplaceText` call (56) and the edit-buffer write (102) are commented out. No file is ever rewritten. The `planned` field records the `(range, stub)` pairs that the visitor computes and then discards.
- At 54 the stub is held in a `StringRef` that points into a destroyed temporary. The model keeps the stub as a plain string value.
- `FindTrivialFuncAction`, the option category and `main` (80-104) are command-line and compilation-database plumbing. They are not part of this model.
- Writing to `std::cout` (57) is modelled by appending one line to `report`. The `std::endl` terminator is implicit in the line boundaries.
- The code does not guarantee that distinct (file, name) pairs give distinct stubs. `CollidingStubs` exhibits a collision. `StubInjective` gives distinctness only for function names without `:`, and no C identifier contains one.
- The code has no step that drops a candidate whose source range cannot be resolved. The range is taken as reported, and the model does the same.
- `getBody()` (43, 46-47) looks through every declaration of a function. Each declaration the walk reaches is its own record, so a function declared before its definition in the same unit, or declared in an included header, gives two identical records. It then produces two identical report lines and two identical plan entries. `RedeclaredDefinitionReportedTwice` states this. Which declarations Clang visits, and in what order, is not modelled.
- The source handles names and locations as byte strings (`std::string`, `StringRef`). The model treats each byte as one `char`, so every length it states, including the 78 characters the stub template adds, is a byte count in the source.
