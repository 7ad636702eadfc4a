# tex_of_ocaml: compiler and TeX code generator, modelled in Dafny

tex_of_ocaml translates lambda terms into a program for an SECD-style
abstract machine written as TeX macros (the `secd` package). The pipeline
has three parts, all pure, and this project models each as Dafny datatypes,
functions and lemmas:

- **Lists** (`lists.dfy`) is the owned cons list of `src/list.rs`, with
  `foldl`, `singleton`, `append` and `cons`. The contracts of `singleton`,
  `cons` and `append` are stated through `Elements`, the list's view as a
  sequence; the append and fold laws are stated on lists and proved through
  that view.
- **Syntax** (`syntax.dfy`) holds lambda terms (`Var`, `Lambda`, `Apply`),
  constants, primitive operators and machine instructions.
- **Compiler** (`compiler.dfy`) models `src/compiler.rs`. It compiles a term
  by threading a lexical level and a map from identifier to binding level.
  A variable becomes `Access(level - binding level)`. A lambda becomes one
  `Closure` whose code ends in `Return`. An application becomes the
  operator's code, then the operand's code, then `Apply`. A free variable
  gives `UnboundVariable`. The model proves four things:
  - the error cases exactly;
  - that errors short-circuit left to right;
  - that every `Access` is in range;
  - that level arithmetic computes de Bruijn indices: the compiler is
    proved equal to a reference compiler that keeps the binders on a stack.
- **Codegen** (`codegen.dfy`) models `src/codegen.rs`. Each instruction
  becomes one `\secd@...` macro call. A left fold concatenates the calls,
  and the result is wrapped in a fixed LaTeX document. The model proves:
  - the exact text of every call and of the template;
  - that the fold is a concatenation homomorphism;
  - the unary encodings of distances and integers;
  - that strings are copied verbatim;
  - that the generator adds no unmatched brace of its own: the output is
    balanced whenever every string constant and every primitive command
    name in it is.

`Prim::command` gives the macro name of a primitive operator. Its body is
not part of this model, so it is a parameter `command: Prim -> string` of
every code-generation function.

## Model

| member | source | states |
|---|---|---|
| Lists.Singleton | src/list.rs:15-17 | the result is the one-element list holding x |
| Lists.Prepend | src/list.rs:27-29 | `cons` puts x in front of the elements of xs; the length grows by one |
| Lists.Append | src/list.rs:20-25 | the elements of xs in order, then those of ys; the lengths add up |
| Lists.AppendNilRight | src/list.rs:20-25 | appending Nil on the right gives xs back |
| Lists.AppendAssoc | src/list.rs:20-25 | append is associative |
| Lists.Foldl | src/list.rs:8-13 | no contract of its own; Lists.FoldlIsFoldSeq and Lists.FoldlAppend state its behaviour |
| Lists.FoldlIsFoldSeq | src/list.rs:8-13 | foldl combines the elements head first, starting from acc, like a reference left fold over the element sequence |
| Lists.FoldlAppend | src/list.rs:8-13 | folding an appended list folds xs, then continues over ys from that result |
| Lists.ElementsInjective | src/list.rs:1-5 | two lists with the same elements are the same list |
| Compiler.Compile | src/compiler.rs:15-17 | compilation succeeds exactly on closed terms; an error names a free variable of the term |
| Compiler.Iter | src/compiler.rs:19-43 | succeeds exactly when every free variable is bound in the level map; an error names a free variable that the map does not bind |
| Compiler.FirstUnbound | src/compiler.rs:21-24 | reference for the error: nothing exactly when every free variable is bound, otherwise a free unbound variable |
| Compiler.IterReportsFirstUnbound | src/compiler.rs:34-36 | on failure the error names the leftmost unbound occurrence; the operator's error wins over the operand's |
| Compiler.CompileReportsFirstUnbound | src/compiler.rs:15-17 | compile fails exactly when the term has an unbound occurrence, and reports the leftmost one |
| Compiler.IterWellScoped | src/compiler.rs:21-31 | if every level in the map lies in 1..lev, every emitted Access has a distance from 0 to one less than the number of enclosing lambdas |
| Compiler.CompileWellScoped | src/compiler.rs:15-17 | compiled closed terms only access frames that exist, never at a negative distance |
| Compiler.IndexOf | src/compiler.rs:21-24 | reference lookup: the innermost position of x on a binder stack, present exactly when x is on the stack |
| Compiler.AgreeBind | src/compiler.rs:26-27 | entering a lambda with `levmap.update(x, lev + 1)` keeps the level map in step with the binder stack, shadowing any outer x |
| Compiler.IterIsDeBruijn | src/compiler.rs:19-43 | with a level map that agrees with a binder stack, iter gives exactly what the reference de Bruijn compiler gives, errors included |
| Compiler.CompileIsDeBruijn | src/compiler.rs:15-17 | compile equals the reference de Bruijn compiler started from the empty stack |
| Compiler.ShadowedVariableIsInnermost | src/compiler.rs:26-27 | `fun x -> fun x -> x` compiles to two nested closures around `Access(0)`: the inner binder wins |
| Compiler.NearestBinderAtZero | src/compiler.rs:21-31 | a variable bound by the nearest lambda is at distance 0, at any level and under any map |
| Compiler.CompiledShape | src/compiler.rs:26-41 | a lambda gives one Closure holding the body's code followed by Return; an application gives the operator's code, then the operand's code, then Apply |
| Compiler.IterPreservesCounts | src/compiler.rs:19-43 | the code holds one Access per variable occurrence, one Closure and one Return per lambda, one Apply per application, and nothing else |
| Codegen.Output | src/codegen.rs:9-15 | the document is the header, then the code, then the footer; each part can be cut back out |
| Codegen.HeaderText | src/codegen.rs:11-13 | the header is `\documentclass{jsarticle}\usepackage{secd}\makeatletter\edef\result{\secd@EvalAndShow{` |
| Codegen.FooterText | src/codegen.rs:11-13 | the footer is `}}\makeatother\begin{document}\result\end{document}` |
| Codegen.OutputInjective | src/codegen.rs:9-15 | different code gives a different document |
| Codegen.Repeat | src/codegen.rs:24 | `(0..n)` repetition: max(n, 0) copies of the character and nothing else |
| Codegen.Iter | src/codegen.rs:17-19 | no contract of its own; Codegen.IterIsConcatEncodings, Codegen.IterIsFoldl, Codegen.IterCons and Codegen.IterAppend state its behaviour |
| Codegen.Fold | src/codegen.rs:18 | no contract of its own; the `foldl(accumulate, ..)` of iter, whose behaviour Codegen.FoldIsFoldl and Codegen.FoldExtendsAcc state |
| Codegen.Value | src/codegen.rs:38-53 | no contract of its own; the value call inside a constant's call, written out by Codegen.ValueText |
| Codegen.Accumulate | src/codegen.rs:21-61 | the accumulated text is kept as a prefix and strictly extended |
| Codegen.Encode | src/codegen.rs:22-59 | every instruction's call is non-empty and starts with `\secd@` |
| Codegen.ReturnApplyText | src/codegen.rs:31-32 | Return and Apply are written `\secd@RETURN{}` and `\secd@APPLY{}` |
| Codegen.AccessText | src/codegen.rs:23-26 | Access(n) is written `\secd@ACCESS{` followed by the stars and `}` |
| Codegen.ClosureText | src/codegen.rs:27-30 | a closure is written `\secd@CLOSURE{` followed by its body's code and `}` |
| Codegen.IfText | src/codegen.rs:33-37 | a conditional is written `\secd@IF{{` then-code `}{` else-code `}}` |
| Codegen.ConstText | src/codegen.rs:38-54 | a constant is written `\secd@CONST{`, then its value call, then `\secd@ENDVAL}` |
| Codegen.ValueText | src/codegen.rs:39-53 | an integer's value call is `\secd@INT{` plus the letters o plus `}`; a string's is `\secd@STRING{` plus the string plus `}`; a boolean's is `\secd@BOOL{T}` or `\secd@BOOL{F}` |
| Codegen.PrimitiveText | src/codegen.rs:55-58 | a primitive is written `\secd@PRIM{\secd@` followed by its command name and `}` |
| Codegen.AccessExample | src/codegen.rs:23-26 | `[Access(5)]` is written `\secd@ACCESS{*****}` |
| Codegen.IntExample | src/codegen.rs:39-42 | `[Const(Int(3))]` is written `\secd@CONST{\secd@INT{ooo}\secd@ENDVAL}` |
| Codegen.FoldExtendsAcc | src/codegen.rs:60 | folding from acc gives acc followed by the code of the list |
| Codegen.IterCons | src/codegen.rs:17-19 | the code of a list is its head's call followed by the code of its tail |
| Codegen.IterAppend | src/codegen.rs:17-19 | the code of an appended list is the code of xs followed by the code of ys |
| Codegen.IterIsConcatEncodings | src/codegen.rs:17-19 | the code is the calls of the elements, concatenated in list order |
| Codegen.IterIsFoldl | src/codegen.rs:17-19 | the code is the list library's foldl of accumulate from the empty string |
| Codegen.FoldIsFoldl | src/codegen.rs:17-19 | the hand-written fold agrees with foldl for every starting accumulator |
| Codegen.AccessIsUnary | src/codegen.rs:23-26 | the call for Access(n) holds exactly n stars, or none when n is negative |
| Codegen.AccessEncodingInjective | src/codegen.rs:23-26 | distinct non-negative distances give distinct calls |
| Codegen.IntIsUnary | src/codegen.rs:39-42 | the call for Int(n) holds exactly n letters o, or none when n is negative |
| Codegen.StringCopiedVerbatim | src/codegen.rs:43-46 | a string constant appears unchanged at a fixed offset in its call |
| Codegen.ValueBalanced | src/codegen.rs:39-53 | a value call has balanced braces when its string (if any) does |
| Codegen.ConstBalanced | src/codegen.rs:38-54 | a constant's call has balanced braces when its string (if any) does |
| Codegen.EncodeBalanced | src/codegen.rs:22-59 | every call has balanced braces when the string constants and command names inside it do |
| Codegen.IterBalanced | src/codegen.rs:17-19 | the code of a list has balanced braces under the same condition |
| Codegen.OutputBalanced | src/codegen.rs:9-15 | the whole document has balanced braces: the header opens exactly the two groups the footer closes |

## Left out

- src/parser.rs is a stub that ignores its input and returns `Var("x")`. It is not part of this model.
- src/main.rs (command-line parsing and printing) and src/error.rs (wrappers of I/O and parser errors) are I/O plumbing. They are not part of this model.
- `Prim::command` has no body in the model. It is the parameter `command`, an arbitrary function; the brace lemmas require its names to be balanced.
- `Instruction` and `Const` are not defined in the shown source; the model declares them from their uses in src/codegen.rs and src/compiler.rs.
- `Prim` is not defined in the shown source; the model declares the operators `Add | Sub | Mult | Append | Arabic | IsZero`. Nothing in the model depends on which operators there are.
- `Expr` (src/syntax.rs:10-14) has only `Var`, `Lambda` and `Apply`, so the compiler never emits `If`, `Const` or `Primitive`; the code generator still encodes every instruction form.
- Compiler.Iter: the level is an `i32` in the source. The model uses unbounded integers, so a 32-bit overflow of the level is not modelled. It would take more than two billion nested lambdas.
- Access distances are computed in `i32` (src/compiler.rs:6,23), so they are signed; the type of `Const::Int` is not shown in the source, and the model gives both `int`. A negative count gives an empty repetition, as Rust's empty range `0..n` does.
- The `im` persistent hash map is a Dafny `map<Ident, int>`, and `update` is map override. Its sharing and hashing are not modelled.
- Rust's `String`, `format!` and iterator machinery become operations on `seq<char>`. The `(0..n).map(..).collect()` repetitions are the function `Repeat`.
- Codegen.Iter is written as its own fold (`Fold`) rather than as a call of `Lists.Foldl`, because a function cannot be passed as a value inside its own recursive group. Codegen.IterIsFoldl proves the two equal.
- Ownership and moves (`self`, `Box`) have no counterpart: lists and strings are values.
