# LOBSTER tracing check, modelled in Dafny

This project models the `lobster-tracing` clang-tidy check. The check reports which requirements each C/C++ function traces to. It has two parts, both in `tracing.dfy`, module `Tracing`.

- **The comment handler** (`TracingCommentHandler`) is given every lexed comment as raw text plus a source range. A comment whose text starts with `// lobster-trace:` is appended to `traceComments`. One that starts with `// lobster-exclude:` is appended to `excludeComments`. Each entry holds the range and the text after the prefix, taken by slicing at the prefix length (17 or 19) with no trimming. Every other comment is dropped. The handler never claims a comment. The class keeps a ghost history `seen` of all comments it has been given. Its invariant `Valid()` ties both lists to the pure functions `Entries(Trace, seen)` and `Entries(Exclude, seen)`.
- **The check** (`TracingCheck.Check`) runs once per matched function declaration. It skips a declaration without a body. Otherwise it picks the kind: "main function" first; then, for class members, it skips a destructor whose class declares no destructor and else uses "method"; everything else is "function". Next it loops over the trace entries, then over the exclude entries. Each entry whose range is fully inside the body range emits one diagnostic at the declaration's location. When none does, it emits a single "has no tracing tags" diagnostic. The method appends diagnostics to `emitted`, and its postcondition equates what it appends with the pure reference definition `Annotate`. The lemmas about `Annotate` state the check's promises.

Source locations are integers. A source range is a pair `(b, e)`, and `FullyContains(A, B)` means `A.b <= B.b && B.e <= A.e`. A declaration is a `Decl` record. Its fields stand for the host AST queries: whether it has a body, the body range, its location, its qualified name, `isMain`, `isCXXClassMember`, whether it is a destructor, and `hasUserDeclaredDestructor` of its class. A diagnostic is a datatype value: `Traces`, `Exempt` or `NoTags`. `Render` gives the three message texts.

The payload is emitted exactly as stored; nothing further is stripped when the message is built (Tracing.cpp:41, 44, 102, 109). `TracedFunctionScenario` reproduces the regression test's double space in "traces to  cb-12345".

## Model

| member | source | states |
|---|---|---|
| `Tracing.Classify` | clang-tools-extra/clang-tidy/lobster/Tracing.cpp:39-45 | A comment is a trace comment exactly when its untrimmed text starts with `// lobster-trace:`. It is an exclude comment exactly when it does not, and starts with `// lobster-exclude:`. Otherwise it is ignored. The prefix followed by the payload gives back the comment text, so the payload is the verbatim rest. |
| `Tracing.PrefixLengths` | clang-tools-extra/clang-tidy/lobster/Tracing.cpp:29-32 | The slicing offsets come from the prefix strings: 17 for trace and 19 for exclude. |
| `Tracing.PrefixesExclusive` | clang-tools-extra/clang-tidy/lobster/Tracing.cpp:39-44 | No text starts with both prefixes, so the order of the two tests cannot change the outcome. |
| `Tracing.NearMissesIgnored` | clang-tools-extra/clang-tidy/lobster/Tracing.cpp:39-42 | `//lobster-trace:`, `/* lobster-trace:` and a comment with a leading space before `//` match neither prefix. |
| `Tracing.EntriesAppend` | clang-tools-extra/clang-tidy/lobster/Tracing.cpp:40-44 | The lists only grow at the end. The entries for comments `a + b` are the entries for `a` followed by those for `b`, so earlier entries never change and each list is in call order. |
| `Tracing.EntriesOrigin` | clang-tools-extra/clang-tidy/lobster/Tracing.cpp:39-44 | Every stored entry of a kind comes from some comment that was seen. The entry has that comment's range, and `Classify` gives that kind and payload for the comment's text. |
| `Tracing.TracingCommentHandler.constructor` | clang-tools-extra/clang-tidy/lobster/Tracing.cpp:29-50 | A fresh handler has both lists empty and satisfies its invariant. |
| `Tracing.TracingCommentHandler.HandleComment` | clang-tools-extra/clang-tidy/lobster/Tracing.cpp:34-47 | Returns false in every case. A trace comment appends exactly `(range, text[17..])` to `traceComments` and leaves `excludeComments` unchanged. An exclude comment appends exactly `(range, text[19..])` to `excludeComments` and leaves `traceComments` unchanged. Any other comment leaves both unchanged. The invariant tying the lists to the comment history is preserved. |
| `Tracing.SelectKind` | clang-tools-extra/clang-tidy/lobster/Tracing.cpp:82-96 | The kind is "main function" exactly when `isMain` holds, even for members. It is "method" exactly for non-main members that are not a destructor of a class without a user-declared destructor, and "function" exactly for non-main non-members. It is none (skip) exactly for such an implicit destructor. |
| `Tracing.Render` | clang-tools-extra/clang-tidy/lobster/Tracing.cpp:102-117 | Every message starts with the kind text, a space and the qualified name. A Traces message continues with exactly " traces to " and ends with the stored payload, unchanged. An Exempt message continues with exactly " exempt from tracing: " and ends with the payload. A NoTags message continues with exactly " has no tracing tags" and nothing follows. |
| `Tracing.ContainedAppend` | clang-tools-extra/clang-tidy/lobster/Tracing.cpp:100-113 | Selecting the entries inside a body distributes over concatenation, so the selection keeps list order. |
| `Tracing.ContainedMembers` | clang-tools-extra/clang-tidy/lobster/Tracing.cpp:100-113 | An entry is selected for a body exactly when it is in the list and the body range fully contains its range. |
| `Tracing.AnnotateSkips` | clang-tools-extra/clang-tidy/lobster/Tracing.cpp:79-91 | A declaration produces no diagnostics exactly when it has no body, or is a non-main member destructor whose class has no user-declared destructor. |
| `Tracing.AnnotateNoTags` | clang-tools-extra/clang-tidy/lobster/Tracing.cpp:99-118 | For a processed declaration, a NoTags diagnostic occurs exactly when no entry of either list lies in the body. When it occurs, it is the only diagnostic. |
| `Tracing.AnnotateLayout` | clang-tools-extra/clang-tidy/lobster/Tracing.cpp:100-113 | When some entry lies in the body, the output is one Traces per contained trace entry, in list order, followed by one Exempt per contained exclude entry, in list order. Nothing is merged or dropped. |
| `Tracing.AnnotateTracesFirst` | clang-tools-extra/clang-tidy/lobster/Tracing.cpp:100-113 | No Traces diagnostic ever follows an Exempt diagnostic, whatever the order of the comments in the file. |
| `Tracing.AnnotateAtDeclaration` | clang-tools-extra/clang-tidy/lobster/Tracing.cpp:102-117 | Every diagnostic is at the declaration's location and carries its qualified name and its selected kind. |
| `Tracing.NestedBodiesShareTraces` | clang-tools-extra/clang-tidy/lobster/Tracing.cpp:100-106 | Containment is plain nesting. A trace comment in a body that is nested inside another body is reported for both declarations. |
| `Tracing.TracingCheck.constructor` | clang-tools-extra/clang-tidy/lobster/Tracing.cpp:59-61 | The check owns a fresh, empty, valid comment handler and has emitted nothing. |
| `Tracing.TracingCheck.Check` | clang-tools-extra/clang-tidy/lobster/Tracing.cpp:75-119 | The check appends exactly `Annotate(d, traceComments, excludeComments)` to the emitted diagnostics. Its two loops and the `hasTracing` flag are proved against that definition. |
| `Tracing.TracedFunctionScenario` | clang-tools-extra/test/clang-tidy/checkers/lobster/tracing.cpp:8-12 | A function whose body holds `// lobster-trace: cb-12345, tex-potato` gets exactly one diagnostic: "function kitten::test2 traces to  cb-12345, tex-potato", with the double space. |
| `Tracing.MainScenario` | clang-tools-extra/test/clang-tidy/checkers/lobster/tracing.cpp:28-29 | `main` with no comments gets the single diagnostic "main function main has no tracing tags". |

## Left out

- Registration with the clang-tidy module registry (`LobsterTidyModule.cpp`) is left out. It is host plumbing with no logic.
- `registerPPCallbacks` and `registerMatchers` (Tracing.cpp:65-73) are left out. The model assumes the host calls `HandleComment` for every lexed comment, and `Check` for every matched function declaration.
- `Lexer::getSourceText` and the `SourceManager` are left out. A comment arrives as its text plus a range of integer locations, and location order is integer order.
- The AST queries (`doesThisDeclarationHaveABody`, `getBody`, `isMain`, `isCXXClassMember`, the destructor cast, `hasUserDeclaredDestructor`, `getQualifiedNameAsString`, `getLocation`) are taken as given fields of `Decl`.
- Diagnostic severity, printing, and `%0`/`%1`/`%2` substitution are left out. Diagnostics are datatype values collected in `emitted`, which stands for the host's diagnostic sink, and `Render` builds only the message text.
- The prefix strings and their lengths are module constants rather than private fields of the handler, because they never change after construction.
