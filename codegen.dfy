/** Serialisation of instruction lists as calls of the `secd` TeX macro package
    (src/codegen.rs): each instruction becomes one macro call, the calls are
    concatenated by a left fold, and the result is wrapped in a fixed LaTeX
    document that evaluates and shows it. */
module Codegen {
  import opened Lists
  import opened Syntax

  const PREFIX: string := "\\secd@"
  const DOCUMENT_CLASS: string := "jsarticle"
  const VM_PACKAGE_NAME: string := "secd"
  const RESULT_NAME: string := "result"

  /** A macro call with one argument: the name, then the argument in braces. */
  function Call(name: string, arg: string): string
  {
    name + "{" + arg + "}"
  }

  /** The fixed text before the generated code: the preamble, then the
      definition of the result macro opened up to the argument of
      `EvalAndShow`. */
  const HEADER: string :=
    Call("\\documentclass", DOCUMENT_CLASS) + Call("\\usepackage", VM_PACKAGE_NAME)
      + ("\\makeatletter\\edef\\" + RESULT_NAME) + "{" + (PREFIX + "EvalAndShow") + "{"

  /** The fixed text after the generated code: it closes both groups the header
      opened, then the document body shows the result. */
  const FOOTER: string :=
    "}}" + Call("\\makeatother\\begin", "document") + Call("\\" + RESULT_NAME + "\\end", "document")

  /** The complete document: the template filled with the class, package and
      result names, around the code of instrs. `command` gives the macro name of
      each primitive operator. The code sits between the header and the footer
      and can be cut back out of the document. */
  function Output(instrs: List<Instruction>, command: Prim -> string): (r: string)
    ensures |r| == |HEADER| + |Iter(instrs, command)| + |FOOTER|
    ensures r[..|HEADER|] == HEADER
    ensures r[|HEADER|..|r| - |FOOTER|] == Iter(instrs, command)
    ensures r[|r| - |FOOTER|..] == FOOTER
  {
    Framed(HEADER, Iter(instrs, command), FOOTER);
    HEADER + Iter(instrs, command) + FOOTER
  }

  /** Each of three concatenated parts can be cut back out. */
  lemma Framed(front: string, middle: string, back: string)
    ensures var r := front + middle + back;
      r[..|front|] == front && r[|front|..|r| - |back|] == middle && r[|r| - |back|..] == back
  {
    var r := front + middle + back;
    assert r[..|front| + |middle|] == front + middle;
  }

  lemma PreambleText()
    ensures Call("\\documentclass", DOCUMENT_CLASS) + Call("\\usepackage", VM_PACKAGE_NAME)
      == "\\documentclass{jsarticle}\\usepackage{secd}"
  {
    assert Call("\\documentclass", DOCUMENT_CLASS) == "\\documentclass{jsarticle}";
    assert Call("\\usepackage", VM_PACKAGE_NAME) == "\\usepackage{secd}";
  }

  /** The header, character for character. */
  lemma HeaderText()
    ensures HEADER ==
      "\\documentclass{jsarticle}\\usepackage{secd}\\makeatletter\\edef\\result{\\secd@EvalAndShow{"
  {
    PreambleText();
    var h := "\\documentclass{jsarticle}\\usepackage{secd}" + "\\makeatletter\\edef\\result";
    assert h == "\\documentclass{jsarticle}\\usepackage{secd}\\makeatletter\\edef\\result";
    assert HEADER == h + "{" + "\\secd@EvalAndShow" + "{";
  }

  /** The footer, character for character. */
  lemma FooterText()
    ensures FOOTER == "}}\\makeatother\\begin{document}\\result\\end{document}"
  {
    var f1 := "}}" + Call("\\makeatother\\begin", "document");
    assert f1 == "}}\\makeatother\\begin{document}";
    assert Call("\\" + RESULT_NAME + "\\end", "document") == "\\result\\end{document}";
  }

  /** Different code gives a different document. */
  lemma OutputInjective(xs: List<Instruction>, ys: List<Instruction>, command: Prim -> string)
    requires Output(xs, command) == Output(ys, command)
    ensures Iter(xs, command) == Iter(ys, command)
  {
  }

  /** `n` copies of c; none when n is zero or negative, as an empty range gives. */
  function Repeat(c: char, n: int): (r: string)
    ensures |r| == if n <= 0 then 0 else n
    ensures forall k :: 0 <= k < |r| ==> r[k] == c
    decreases n
  {
    if n <= 0 then "" else Repeat(c, n - 1) + [c]
  }

  /** The code of a list of instructions: the encodings of its elements,
      concatenated left to right. */
  function Iter(instrs: List<Instruction>, command: Prim -> string): string
    decreases instrs, 1
  {
    Fold(instrs, "", command)
  }

  /** The left fold of Accumulate over instrs, starting from acc. */
  function Fold(instrs: List<Instruction>, acc: string, command: Prim -> string): string
    decreases instrs, 0
  {
    match instrs
    case Nil => acc
    case Cons(i, t) => Fold(t, Accumulate(acc, i, command), command)
  }

  /** Extends the accumulated text by the encoding of one instruction. */
  function Accumulate(acc: string, instr: Instruction, command: Prim -> string): (r: string)
    ensures |r| > |acc| && r[..|acc|] == acc
    decreases instr, 1
  {
    acc + Encode(instr, command)
  }

  /** The macro call for one instruction. Every such call is non-empty and
      starts with the package prefix. */
  function Encode(instr: Instruction, command: Prim -> string): (s: string)
    ensures |s| > |PREFIX| && s[..|PREFIX|] == PREFIX
    decreases instr, 0
  {
    match instr
    case Access(i) => Call(PREFIX + "ACCESS", Repeat('*', i))
    case Closure(body) => Call(PREFIX + "CLOSURE", Iter(body, command))
    case Return => Call(PREFIX + "RETURN", "")
    case Apply => Call(PREFIX + "APPLY", "")
    case If(code1, code2) =>
      Call(PREFIX + "IF", Call("", Iter(code1, command)) + Call("", Iter(code2, command)))
    case Const(c) => Call(PREFIX + "CONST", Value(c) + (PREFIX + "ENDVAL"))
    case Primitive(prim) => Call(PREFIX + "PRIM", PREFIX + command(prim))
  }

  /** The call that writes a constant's value inside its `CONST` call. */
  function Value(c: Const): string
  {
    match c
    case Int(n) => Call(PREFIX + "INT", Repeat('o', n))
    case String(s) => Call(PREFIX + "STRING", s)
    case Bool(b) => Call(PREFIX + "BOOL", if b then "T" else "F")
  }

  // ---------------------------------------------------------------------------
  // The text of each call, written out

  lemma ReturnApplyText(command: Prim -> string)
    ensures Encode(Return, command) == "\\secd@RETURN{}"
    ensures Encode(Instruction.Apply, command) == "\\secd@APPLY{}"
  {
    assert PREFIX + "RETURN" == "\\secd@RETURN";
    assert PREFIX + "APPLY" == "\\secd@APPLY";
  }

  lemma AccessText(n: int, command: Prim -> string)
    ensures Encode(Access(n), command) == "\\secd@ACCESS{" + Repeat('*', n) + "}"
  {
    assert PREFIX + "ACCESS" + "{" == "\\secd@ACCESS{";
  }

  lemma ClosureText(body: List<Instruction>, command: Prim -> string)
    ensures Encode(Closure(body), command) == "\\secd@CLOSURE{" + Iter(body, command) + "}"
  {
    assert PREFIX + "CLOSURE" + "{" == "\\secd@CLOSURE{";
  }

  lemma IfText(code1: List<Instruction>, code2: List<Instruction>, command: Prim -> string)
    ensures Encode(If(code1, code2), command) ==
      "\\secd@IF{{" + Iter(code1, command) + "}{" + Iter(code2, command) + "}}"
  {
    PairText(PREFIX + "IF", Iter(code1, command), Iter(code2, command));
    assert PREFIX + "IF" == "\\secd@IF";
    assert "\\secd@IF" + "{{" == "\\secd@IF{{";
  }

  /** A call around two groups, written out. */
  lemma PairText(name: string, s1: string, s2: string)
    ensures Call(name, Call("", s1) + Call("", s2)) == name + "{{" + s1 + "}{" + s2 + "}}"
  {
    assert Call(name, Call("", s1) + Call("", s2))
      == name + ("{" + ("{" + s1 + "}") + ("{" + s2 + "}") + "}");
  }

  lemma PrimitiveText(prim: Prim, command: Prim -> string)
    ensures Encode(Primitive(prim), command) == "\\secd@PRIM{\\secd@" + command(prim) + "}"
  {
    assert PREFIX + "PRIM" + "{" + PREFIX == "\\secd@PRIM{\\secd@";
  }

  /** The text around every constant's value call. */
  lemma ConstText(c: Const, command: Prim -> string)
    ensures Encode(Const(c), command) == "\\secd@CONST{" + Value(c) + "\\secd@ENDVAL}"
  {
    EncodeConst(c, command);
    assert PREFIX + "CONST" + "{" == "\\secd@CONST{";
    assert PREFIX + "ENDVAL" + "}" == "\\secd@ENDVAL}";
  }

  lemma ValueText(c: Const)
    ensures c.Int? ==> Value(c) == "\\secd@INT{" + Repeat('o', c.n) + "}"
    ensures c.String? ==> Value(c) == "\\secd@STRING{" + c.s + "}"
    ensures c.Bool? ==> Value(c) == "\\secd@BOOL{" + (if c.b then "T" else "F") + "}"
  {
    match c
    case Int(_) => assert PREFIX + "INT" + "{" == "\\secd@INT{";
    case String(_) => assert PREFIX + "STRING" + "{" == "\\secd@STRING{";
    case Bool(_) => assert PREFIX + "BOOL" + "{" == "\\secd@BOOL{";
  }

  /** Distance 5 is written as five stars. */
  lemma AccessExample(command: Prim -> string)
    ensures Iter(Singleton(Access(5)), command) == "\\secd@ACCESS{*****}"
  {
    IterCons(Access(5), Nil, command);
    AccessText(5, command);
    assert Repeat('*', 5) == "*****";
    assert "\\secd@ACCESS{" + "*****" + "}" == "\\secd@ACCESS{*****}";
  }

  /** The integer 3 is written as three letters `o`. */
  lemma IntExample(command: Prim -> string)
    ensures Iter(Singleton(Const(Int(3))), command) == "\\secd@CONST{\\secd@INT{ooo}\\secd@ENDVAL}"
  {
    IterCons(Const(Int(3)), Nil, command);
    ConstText(Int(3), command);
    ValueText(Int(3));
    assert Repeat('o', 3) == "ooo";
    assert "\\secd@INT{" + "ooo" + "}" == "\\secd@INT{ooo}";
    assert "\\secd@CONST{" + "\\secd@INT{ooo}" + "\\secd@ENDVAL}"
      == "\\secd@CONST{\\secd@INT{ooo}\\secd@ENDVAL}";
  }

  // ---------------------------------------------------------------------------
  // The list encoding is a homomorphism

  lemma {:induction false} FoldExtendsAcc(instrs: List<Instruction>, acc: string, command: Prim -> string)
    ensures Fold(instrs, acc, command) == acc + Iter(instrs, command)
  {
    match instrs
    case Nil =>
    case Cons(i, t) =>
      var e := Encode(i, command);
      assert Accumulate(acc, i, command) == acc + e;
      assert Accumulate("", i, command) == e;
      assert Fold(instrs, acc, command) == Fold(t, acc + e, command);
      assert Iter(instrs, command) == Fold(t, e, command);
      FoldExtendsAcc(t, acc + e, command);
      FoldExtendsAcc(t, e, command);
      assert (acc + e) + Iter(t, command) == acc + (e + Iter(t, command));
  }

  /** The code of a list is its head's encoding followed by the code of its tail. */
  lemma IterCons(i: Instruction, t: List<Instruction>, command: Prim -> string)
    ensures Iter(Cons(i, t), command) == Encode(i, command) + Iter(t, command)
  {
    var e := Encode(i, command);
    assert Accumulate("", i, command) == e;
    assert Iter(Cons(i, t), command) == Fold(t, e, command);
    FoldExtendsAcc(t, e, command);
  }

  lemma {:induction false} IterAppend(xs: List<Instruction>, ys: List<Instruction>, command: Prim -> string)
    ensures Iter(Lists.Append(xs, ys), command) == Iter(xs, command) + Iter(ys, command)
  {
    match xs
    case Nil =>
    case Cons(i, t) =>
      IterAppend(t, ys, command);
      IterCons(i, Lists.Append(t, ys), command);
      IterCons(i, t, command);
  }

  /** Reference: the encodings of a sequence of instructions, concatenated. */
  function ConcatEncodings(s: seq<Instruction>, command: Prim -> string): string
  {
    if s == [] then "" else Encode(s[0], command) + ConcatEncodings(s[1..], command)
  }

  lemma {:induction false} IterIsConcatEncodings(instrs: List<Instruction>, command: Prim -> string)
    ensures Iter(instrs, command) == ConcatEncodings(Elements(instrs), command)
  {
    match instrs
    case Nil =>
    case Cons(i, t) =>
      IterCons(i, t, command);
      IterIsConcatEncodings(t, command);
      assert Elements(instrs)[1..] == Elements(t);
  }

  /** The code is the list library's left fold of Accumulate from the empty text. */
  lemma IterIsFoldl(instrs: List<Instruction>, command: Prim -> string)
    ensures Iter(instrs, command) == Foldl(instrs, (acc, i) => Accumulate(acc, i, command), "")
  {
    FoldIsFoldl(instrs, "", command);
  }

  lemma {:induction false} FoldIsFoldl(instrs: List<Instruction>, acc: string, command: Prim -> string)
    ensures Fold(instrs, acc, command) == Foldl(instrs, (a, i) => Accumulate(a, i, command), acc)
  {
    match instrs
    case Nil =>
    case Cons(i, t) => FoldIsFoldl(t, Accumulate(acc, i, command), command);
  }

  // ---------------------------------------------------------------------------
  // Unary numbers and verbatim strings

  /** How often c occurs in s. */
  function Occurrences(c: char, s: string): nat
  {
    multiset(s)[c]
  }

  lemma {:induction false} OccurrencesRepeat(c: char, d: char, n: int)
    ensures Occurrences(c, Repeat(d, n)) == if c != d || n <= 0 then 0 else n
    decreases n
  {
    if n > 0 {
      OccurrencesRepeat(c, d, n - 1);
      assert multiset(Repeat(d, n)) == multiset(Repeat(d, n - 1)) + multiset{d};
    }
  }

  /** A character other than a brace occurs in a call as often as in its name
      and argument together. */
  lemma OccurrencesCall(c: char, name: string, arg: string)
    requires c != '{' && c != '}'
    ensures Occurrences(c, Call(name, arg)) == Occurrences(c, name) + Occurrences(c, arg)
  {
    assert multiset(Call(name, arg)) == multiset(name) + multiset{'{'} + multiset(arg) + multiset{'}'};
  }

  lemma AccessNameWithoutStar()
    ensures Occurrences('*', PREFIX + "ACCESS") == 0
  {
    assert '*' !in PREFIX + "ACCESS";
  }

  lemma EncodeAccess(n: int, command: Prim -> string)
    ensures Encode(Access(n), command) == Call(PREFIX + "ACCESS", Repeat('*', n))
  {
  }

  /** Access(n) is written in unary: its call holds exactly n stars (none for a
      negative n). */
  lemma AccessIsUnary(n: int, command: Prim -> string)
    ensures Occurrences('*', Encode(Access(n), command)) == if n <= 0 then 0 else n
  {
    OccurrencesRepeat('*', '*', n);
    OccurrencesCall('*', PREFIX + "ACCESS", Repeat('*', n));
    AccessNameWithoutStar();
    EncodeAccess(n, command);
  }

  /** Distinct non-negative distances give distinct calls. */
  lemma AccessEncodingInjective(n: nat, m: nat, command: Prim -> string)
    requires Encode(Access(n), command) == Encode(Access(m), command)
    ensures n == m
  {
    AccessIsUnary(n, command);
    AccessIsUnary(m, command);
  }

  lemma OccurrencesConcat(c: char, a: string, b: string)
    ensures Occurrences(c, a + b) == Occurrences(c, a) + Occurrences(c, b)
  {
    assert multiset(a + b) == multiset(a) + multiset(b);
  }

  /** The names around an integer constant hold no letter `o`. */
  lemma IntNamesWithoutO()
    ensures Occurrences('o', PREFIX + "INT") == 0
    ensures Occurrences('o', PREFIX + "CONST") == 0
    ensures Occurrences('o', PREFIX + "ENDVAL") == 0
  {
    assert 'o' !in PREFIX + "INT" && 'o' !in PREFIX + "CONST" && 'o' !in PREFIX + "ENDVAL";
  }

  /** Int(n) is written in unary: its call holds exactly n letters `o`. */
  lemma IntIsUnary(n: int, command: Prim -> string)
    ensures Occurrences('o', Encode(Const(Int(n)), command)) == if n <= 0 then 0 else n
  {
    var value := Value(Int(n));
    assert value == Call(PREFIX + "INT", Repeat('o', n));
    IntNamesWithoutO();
    OccurrencesRepeat('o', 'o', n);
    OccurrencesCall('o', PREFIX + "INT", Repeat('o', n));
    OccurrencesConcat('o', value, PREFIX + "ENDVAL");
    OccurrencesCall('o', PREFIX + "CONST", value + (PREFIX + "ENDVAL"));
    EncodeConst(Int(n), command);
  }

  /** A string constant is copied verbatim, at a fixed offset in its call. */
  lemma StringCopiedVerbatim(s: string, command: Prim -> string)
    ensures var r := Encode(Const(String(s)), command);
      var k := |PREFIX + "CONST{" + PREFIX + "STRING{"|;
      |r| == k + |s| + |"}" + PREFIX + "ENDVAL}"| && r[k..k + |s|] == s
  {
    var front, back := PREFIX + "CONST{" + PREFIX + "STRING{", "}" + PREFIX + "ENDVAL}";
    var r := Encode(Const(String(s)), command);
    assert r == front + s + back;
    assert r[|front|..|front| + |s|] == s;
  }

  // ---------------------------------------------------------------------------
  // Braces: the generated code is a well-formed sequence of TeX groups

  /** Opening minus closing braces in s. */
  function Net(s: string): int
  {
    multiset(s)['{'] as int - multiset(s)['}'] as int
  }

  /** Every `}` closes an earlier `{`, and every `{` is closed. */
  ghost predicate Balanced(s: string)
  {
    Net(s) == 0 && forall k :: 0 <= k <= |s| ==> Net(s[..k]) >= 0
  }

  lemma NetConcat(a: string, b: string)
    ensures Net(a + b) == Net(a) + Net(b)
  {
    assert multiset(a + b) == multiset(a) + multiset(b);
  }

  lemma BalancedConcat(a: string, b: string)
    requires Balanced(a) && Balanced(b)
    ensures Balanced(a + b)
  {
    NetConcat(a, b);
    forall k | 0 <= k <= |a + b|
      ensures Net((a + b)[..k]) >= 0
    {
      if k <= |a| {
        assert (a + b)[..k] == a[..k];
      } else {
        assert (a + b)[..k] == a + b[..k - |a|];
        NetConcat(a, b[..k - |a|]);
      }
    }
  }

  /** s holds no brace. */
  predicate NoBraces(s: string)
  {
    '{' !in s && '}' !in s
  }

  lemma BraceFreeBalanced(s: string)
    requires NoBraces(s)
    ensures Balanced(s)
  {
    forall k | 0 <= k <= |s|
      ensures Net(s[..k]) == 0
    {
      assert s == s[..k] + s[k..];
      assert multiset(s) == multiset(s[..k]) + multiset(s[k..]);
    }
    assert s[..|s|] == s;
  }

  /** A call is balanced when its name has no brace and its argument is balanced. */
  lemma BalancedCall(name: string, arg: string)
    requires NoBraces(name)
    requires Balanced(arg)
    ensures Balanced(Call(name, arg))
  {
    var g := "{" + arg + "}";
    NetConcat("{", arg);
    NetConcat("{" + arg, "}");
    forall k | 0 <= k <= |g|
      ensures Net(g[..k]) >= 0
    {
      if 1 <= k <= |arg| + 1 {
        assert g[..k] == "{" + arg[..k - 1];
        NetConcat("{", arg[..k - 1]);
      } else if k == |g| {
        assert g[..k] == g;
      } else {
        assert g[..k] == [];
      }
    }
    BraceFreeBalanced(name);
    BalancedConcat(name, g);
    assert Call(name, arg) == name + g;
  }

  /** Every string constant inside code (at any depth) is itself balanced. */
  ghost predicate StringsBalanced(code: List<Instruction>)
  {
    match code
    case Nil => true
    case Cons(i, t) => InstrStringsBalanced(i) && StringsBalanced(t)
  }

  ghost predicate InstrStringsBalanced(i: Instruction)
  {
    match i
    case Closure(body) => StringsBalanced(body)
    case If(t, f) => StringsBalanced(t) && StringsBalanced(f)
    case Const(String(s)) => Balanced(s)
    case _ => true
  }

  /** The macro names the generator emits hold no brace. */
  lemma NamesBraceFree()
    ensures NoBraces(PREFIX + "ACCESS") && NoBraces(PREFIX + "CLOSURE")
    ensures NoBraces(PREFIX + "RETURN") && NoBraces(PREFIX + "APPLY")
    ensures NoBraces(PREFIX + "IF") && NoBraces("") && NoBraces(PREFIX + "PRIM")
    ensures NoBraces(PREFIX + "CONST") && NoBraces(PREFIX + "INT")
    ensures NoBraces(PREFIX + "STRING") && NoBraces(PREFIX + "BOOL")
    ensures NoBraces(PREFIX + "ENDVAL") && NoBraces(PREFIX)
    ensures NoBraces("T") && NoBraces("F")
  {
  }

  /** A call whose name and argument hold no brace is balanced. */
  lemma BalancedPlainCall(name: string, arg: string)
    requires NoBraces(name) && NoBraces(arg)
    ensures Balanced(Call(name, arg))
  {
    BraceFreeBalanced(arg);
    BalancedCall(name, arg);
  }

  lemma ValueBalanced(c: Const)
    requires c.String? ==> Balanced(c.s)
    ensures Balanced(Value(c))
  {
    NamesBraceFree();
    match c
    case Int(n) =>
      BalancedPlainCall(PREFIX + "INT", Repeat('o', n));
    case String(s) =>
      BalancedCall(PREFIX + "STRING", s);
    case Bool(b) =>
      BalancedPlainCall(PREFIX + "BOOL", if b then "T" else "F");
  }

  /** The shape of a constant: a call around a balanced value and a plain tail. */
  lemma BalancedValueCall(name: string, value: string, tail: string)
    requires NoBraces(name) && NoBraces(tail) && Balanced(value)
    ensures Balanced(Call(name, value + tail))
  {
    BraceFreeBalanced(tail);
    BalancedConcat(value, tail);
    BalancedCall(name, value + tail);
  }

  lemma ConstBalanced(c: Const, command: Prim -> string)
    requires c.String? ==> Balanced(c.s)
    ensures Balanced(Encode(Const(c), command))
  {
    ValueBalanced(c);
    NamesBraceFree();
    BalancedValueCall(PREFIX + "CONST", Value(c), PREFIX + "ENDVAL");
    EncodeConst(c, command);
  }

  lemma EncodeConst(c: Const, command: Prim -> string)
    ensures Encode(Const(c), command) == Call(PREFIX + "CONST", Value(c) + (PREFIX + "ENDVAL"))
  {
  }

  /** When string constants and primitive names are balanced, so is every call:
      the generator itself never emits an unmatched brace. */
  lemma {:induction false} EncodeBalanced(instr: Instruction, command: Prim -> string)
    requires InstrStringsBalanced(instr)
    requires forall p :: Balanced(command(p))
    ensures Balanced(Encode(instr, command))
    decreases instr, 0
  {
    NamesBraceFree();
    match instr
    case Access(i) =>
      BalancedPlainCall(PREFIX + "ACCESS", Repeat('*', i));
    case Closure(body) =>
      IterBalanced(body, command);
      BalancedCall(PREFIX + "CLOSURE", Iter(body, command));
    case Return =>
      BalancedPlainCall(PREFIX + "RETURN", "");
    case Apply =>
      BalancedPlainCall(PREFIX + "APPLY", "");
    case If(code1, code2) =>
      IterBalanced(code1, command);
      IterBalanced(code2, command);
      BalancedPair(PREFIX + "IF", Iter(code1, command), Iter(code2, command));
    case Const(c) =>
      ConstBalanced(c, command);
    case Primitive(prim) =>
      BraceFreeBalanced(PREFIX);
      BalancedConcat(PREFIX, command(prim));
      BalancedCall(PREFIX + "PRIM", PREFIX + command(prim));
  }

  /** The shape of a conditional: a call around two groups. */
  lemma BalancedPair(name: string, s1: string, s2: string)
    requires NoBraces(name) && Balanced(s1) && Balanced(s2)
    ensures Balanced(Call(name, Call("", s1) + Call("", s2)))
  {
    assert NoBraces("");
    BalancedCall("", s1);
    BalancedCall("", s2);
    BalancedConcat(Call("", s1), Call("", s2));
    BalancedCall(name, Call("", s1) + Call("", s2));
  }

  lemma {:induction false} IterBalanced(instrs: List<Instruction>, command: Prim -> string)
    requires StringsBalanced(instrs)
    requires forall p :: Balanced(command(p))
    ensures Balanced(Iter(instrs, command))
    decreases instrs, 1
  {
    match instrs
    case Nil =>
      BraceFreeBalanced("");
    case Cons(i, t) =>
      IterCons(i, t, command);
      EncodeBalanced(i, command);
      IterBalanced(t, command);
      BalancedConcat(Encode(i, command), Iter(t, command));
  }

  /** The shape of the document: two plain calls, a call opened around a
      second call opened around the code, both closed, then two plain calls. */
  lemma BalancedDocumentShape(n1: string, a1: string, n2: string, a2: string,
                              n3: string, n4: string, code: string,
                              n5: string, a5: string, n6: string, a6: string)
    requires NoBraces(n1) && NoBraces(a1) && NoBraces(n2) && NoBraces(a2)
    requires NoBraces(n3) && NoBraces(n4) && NoBraces(n5) && NoBraces(a5)
    requires NoBraces(n6) && NoBraces(a6)
    requires Balanced(code)
    ensures Balanced((Call(n1, a1) + Call(n2, a2) + n3 + "{" + n4 + "{") + code
                     + ("}}" + Call(n5, a5) + Call(n6, a6)))
  {
    var d1, d2, d4, d5 := Call(n1, a1), Call(n2, a2), Call(n5, a5), Call(n6, a6);
    var d3 := Call(n3, Call(n4, code));
    assert (d1 + d2 + n3 + "{" + n4 + "{") + code + ("}}" + d4 + d5) == d1 + d2 + d3 + d4 + d5;
    BalancedPlainCall(n1, a1);
    BalancedPlainCall(n2, a2);
    BalancedCall(n4, code);
    BalancedCall(n3, Call(n4, code));
    BalancedPlainCall(n5, a5);
    BalancedPlainCall(n6, a6);
    BalancedConcat(d1, d2);
    BalancedConcat(d1 + d2, d3);
    BalancedConcat(d1 + d2 + d3, d4);
    BalancedConcat(d1 + d2 + d3 + d4, d5);
  }

  /** The names and arguments of the template hold no brace. */
  lemma PreambleNamesBraceFree()
    ensures NoBraces("\\documentclass") && NoBraces(DOCUMENT_CLASS)
    ensures NoBraces("\\usepackage") && NoBraces(VM_PACKAGE_NAME)
  {
  }

  lemma ResultNamesBraceFree()
    ensures NoBraces("\\makeatletter\\edef\\" + RESULT_NAME) && NoBraces(PREFIX + "EvalAndShow")
  {
  }

  lemma BodyNamesBraceFree()
    ensures NoBraces("\\makeatother\\begin") && NoBraces("document")
    ensures NoBraces("\\" + RESULT_NAME + "\\end")
  {
  }

  /** The whole document is balanced too: the header opens exactly the two
      groups the footer closes. */
  lemma OutputBalanced(instrs: List<Instruction>, command: Prim -> string)
    requires StringsBalanced(instrs)
    requires forall p :: Balanced(command(p))
    ensures Balanced(Output(instrs, command))
  {
    IterBalanced(instrs, command);
    PreambleNamesBraceFree();
    ResultNamesBraceFree();
    BodyNamesBraceFree();
    BalancedDocumentShape("\\documentclass", DOCUMENT_CLASS, "\\usepackage", VM_PACKAGE_NAME,
      "\\makeatletter\\edef\\" + RESULT_NAME, PREFIX + "EvalAndShow", Iter(instrs, command),
      "\\makeatother\\begin", "document", "\\" + RESULT_NAME + "\\end", "document");
  }
}
