/** Compilation of lambda terms to SECD-style instruction lists by lexical
    addressing (src/compiler.rs): a variable becomes `Access(d)`, where d is the
    number of lambdas between its use and its binder. */
module Compiler {
  import opened Lists
  import opened Syntax

  datatype Option<T> = None | Some(value: T)

  datatype Result<T, E> = Ok(value: T) | Err(error: E)

  datatype Error = UnboundVariable(x: Ident)

  /** The current lexical level: the number of lambdas entered so far. */
  type Level = int

  /** The level at which each identifier in scope was bound. */
  type LevelMap = map<Ident, Level>

  /** Compilation starts at level 0 with nothing bound. */
  function Compile(e: Expr): (r: Result<List<Instruction>, Error>)
    ensures r.Ok? <==> FreeVars(e) == {}
    ensures r.Err? ==> r.error.x in FreeVars(e)
  {
    Iter(0, map[], e)
  }

  /** Compiles e at level lev under the bindings levmap. It fails exactly when e
      has a free variable levmap does not bind, and then names such a variable. */
  function Iter(lev: Level, levmap: LevelMap, e: Expr): (r: Result<List<Instruction>, Error>)
    ensures r.Ok? <==> FreeVars(e) <= levmap.Keys
    ensures r.Err? ==> r.error.x in FreeVars(e) && r.error.x !in levmap
    decreases e
  {
    match e
    case Var(x) =>
      if x in levmap then Ok(Singleton(Access(lev - levmap[x])))
      else Err(UnboundVariable(x))
    case Lambda(x, e0) =>
      var r0 := Iter(lev + 1, levmap[x := lev + 1], e0);
      if r0.Err? then Err(r0.error)
      else Ok(Singleton(Closure(Lists.Append(r0.value, Singleton(Return)))))
    case Apply(e1, e2) =>
      var r1 := Iter(lev, levmap, e1);
      if r1.Err? then Err(r1.error)
      else
        var r2 := Iter(lev, levmap, e2);
        if r2.Err? then Err(r2.error)
        else Ok(Lists.Append(r1.value, Lists.Append(r2.value, Singleton(Instruction.Apply))))
  }

  // ---------------------------------------------------------------------------
  // Scoping: free variables and the first unbound occurrence

  /** The identifiers that occur in e outside every lambda binding them. */
  function FreeVars(e: Expr): set<Ident>
  {
    match e
    case Var(x) => {x}
    case Lambda(x, b) => FreeVars(b) - {x}
    case Apply(f, a) => FreeVars(f) + FreeVars(a)
  }

  /** The leftmost occurrence in e of a variable neither bound inside e nor in bound. */
  function FirstUnbound(e: Expr, bound: set<Ident>): (r: Option<Ident>)
    ensures r.None? <==> FreeVars(e) <= bound
    ensures r.Some? ==> r.value in FreeVars(e) - bound
  {
    match e
    case Var(x) => if x in bound then None else Some(x)
    case Lambda(x, b) => FirstUnbound(b, bound + {x})
    case Apply(f, a) =>
      var u := FirstUnbound(f, bound);
      if u.Some? then u else FirstUnbound(a, bound)
  }

  /** Errors short-circuit from left to right: the error reported is the leftmost
      unbound occurrence, even when later parts of the term are unbound too. */
  lemma {:induction false} IterReportsFirstUnbound(lev: Level, levmap: LevelMap, e: Expr)
    ensures Iter(lev, levmap, e).Err? <==> FirstUnbound(e, levmap.Keys).Some?
    ensures Iter(lev, levmap, e).Err? ==>
      Iter(lev, levmap, e).error == UnboundVariable(FirstUnbound(e, levmap.Keys).value)
    decreases e
  {
    match e
    case Var(x) =>
    case Lambda(x, b) =>
      assert levmap[x := lev + 1].Keys == levmap.Keys + {x};
      IterReportsFirstUnbound(lev + 1, levmap[x := lev + 1], b);
    case Apply(f, a) =>
      IterReportsFirstUnbound(lev, levmap, f);
      IterReportsFirstUnbound(lev, levmap, a);
  }

  lemma CompileReportsFirstUnbound(e: Expr)
    ensures Compile(e).Err? <==> FirstUnbound(e, {}).Some?
    ensures Compile(e).Err? ==> Compile(e).error == UnboundVariable(FirstUnbound(e, {}).value)
  {
    var empty: LevelMap := map[];
    assert empty.Keys == {};
    IterReportsFirstUnbound(0, empty, e);
  }

  // ---------------------------------------------------------------------------
  // Distances: every Access reaches an existing frame

  /** Every level in the map lies in 1..lev: bound by one of the lambdas entered. */
  ghost predicate LevelsInRange(lev: Level, levmap: LevelMap)
  {
    0 <= lev && forall y :: y in levmap ==> 1 <= levmap[y] <= lev
  }

  /** Every Access in code, at closure-nesting depth k below a point at level
      lev, has a distance in 0..lev+k-1. */
  ghost predicate WellScoped(code: List<Instruction>, lev: Level)
  {
    match code
    case Nil => true
    case Cons(i, t) => InstrWellScoped(i, lev) && WellScoped(t, lev)
  }

  ghost predicate InstrWellScoped(i: Instruction, lev: Level)
  {
    match i
    case Access(d) => 0 <= d < lev
    case Closure(body) => WellScoped(body, lev + 1)
    case If(t, f) => WellScoped(t, lev) && WellScoped(f, lev)
    case _ => true
  }

  lemma {:induction false} WellScopedAppend(xs: List<Instruction>, ys: List<Instruction>, lev: Level)
    ensures WellScoped(Lists.Append(xs, ys), lev) <==> WellScoped(xs, lev) && WellScoped(ys, lev)
  {
    match xs
    case Nil =>
    case Cons(_, t) => WellScopedAppend(t, ys, lev);
  }

  /** The level map invariant yields well-scoped code: no Access is negative or
      reaches past the outermost lambda. */
  lemma {:induction false} IterWellScoped(lev: Level, levmap: LevelMap, e: Expr)
    requires LevelsInRange(lev, levmap)
    ensures Iter(lev, levmap, e).Ok? ==> WellScoped(Iter(lev, levmap, e).value, lev)
    decreases e
  {
    match e
    case Var(x) =>
    case Lambda(x, b) =>
      var m' := levmap[x := lev + 1];
      assert LevelsInRange(lev + 1, m');
      IterWellScoped(lev + 1, m', b);
      var r0 := Iter(lev + 1, m', b);
      if r0.Ok? {
        WellScopedAppend(r0.value, Singleton(Return), lev + 1);
      }
    case Apply(f, a) =>
      IterWellScoped(lev, levmap, f);
      IterWellScoped(lev, levmap, a);
      var r1, r2 := Iter(lev, levmap, f), Iter(lev, levmap, a);
      if r1.Ok? && r2.Ok? {
        WellScopedAppend(r2.value, Singleton(Instruction.Apply), lev);
        WellScopedAppend(r1.value, Lists.Append(r2.value, Singleton(Instruction.Apply)), lev);
      }
  }

  /** A closed term compiles to code whose every Access is non-negative and
      addresses a frame pushed by an enclosing closure. */
  lemma CompileWellScoped(e: Expr)
    ensures Compile(e).Ok? ==> WellScoped(Compile(e).value, 0)
  {
    IterWellScoped(0, map[], e);
  }

  // ---------------------------------------------------------------------------
  // Lexical addressing agrees with de Bruijn indices over a context stack

  /** The position of the innermost binding of x in ctx (ctx[0] is innermost). */
  function IndexOf(ctx: seq<Ident>, x: Ident): (r: Option<nat>)
    ensures r.Some? <==> x in ctx
    ensures r.Some? ==> r.value < |ctx| && ctx[r.value] == x
    ensures r.Some? ==> forall j :: 0 <= j < r.value ==> ctx[j] != x
  {
    if ctx == [] then None
    else if ctx[0] == x then Some(0)
    else
      var k := IndexOf(ctx[1..], x);
      if k.Some? then Some(k.value + 1) else None
  }

  /** Reference compiler: keeps the binders as a stack and emits each variable's
      de Bruijn index, the number of binders between it and its own. */
  function CompileCtx(ctx: seq<Ident>, e: Expr): Result<List<Instruction>, Error>
    decreases e
  {
    match e
    case Var(x) =>
      var k := IndexOf(ctx, x);
      if k.Some? then Ok(Singleton(Access(k.value))) else Err(UnboundVariable(x))
    case Lambda(x, e0) =>
      var r0 := CompileCtx([x] + ctx, e0);
      if r0.Err? then Err(r0.error)
      else Ok(Singleton(Closure(Lists.Append(r0.value, Singleton(Return)))))
    case Apply(e1, e2) =>
      var r1 := CompileCtx(ctx, e1);
      if r1.Err? then Err(r1.error)
      else
        var r2 := CompileCtx(ctx, e2);
        if r2.Err? then Err(r2.error)
        else Ok(Lists.Append(r1.value, Lists.Append(r2.value, Singleton(Instruction.Apply))))
  }

  /** The level map and the binder stack describe the same scope: the same names,
      and for each the level difference equals the stack position. */
  ghost predicate Agree(lev: Level, levmap: LevelMap, ctx: seq<Ident>)
  {
    (forall y :: y in levmap <==> y in ctx) &&
    (forall y :: y in levmap ==> IndexOf(ctx, y) == Some(lev - levmap[y]))
  }

  /** Entering a lambda keeps the two scopes in step: the new name gets the new
      level and goes on top of the stack, every other name moves one further. */
  lemma AgreeBind(lev: Level, levmap: LevelMap, ctx: seq<Ident>, x: Ident)
    requires Agree(lev, levmap, ctx)
    ensures Agree(lev + 1, levmap[x := lev + 1], [x] + ctx)
  {
    var m', ctx' := levmap[x := lev + 1], [x] + ctx;
    assert ctx'[1..] == ctx;
    forall y | y in m'
      ensures IndexOf(ctx', y) == Some(lev + 1 - m'[y])
    {
      if y != x {
        assert IndexOf(ctx', y) == Some(IndexOf(ctx, y).value + 1);
      }
    }
  }

  /** Level arithmetic computes de Bruijn indices: lev - levmap[x] is the number
      of lambdas between a use of x and its innermost binder. */
  lemma {:induction false} IterIsDeBruijn(lev: Level, levmap: LevelMap, ctx: seq<Ident>, e: Expr)
    requires Agree(lev, levmap, ctx)
    ensures Iter(lev, levmap, e) == CompileCtx(ctx, e)
    decreases e
  {
    match e
    case Var(x) =>
    case Lambda(x, b) =>
      AgreeBind(lev, levmap, ctx, x);
      IterIsDeBruijn(lev + 1, levmap[x := lev + 1], [x] + ctx, b);
    case Apply(f, a) =>
      IterIsDeBruijn(lev, levmap, ctx, f);
      IterIsDeBruijn(lev, levmap, ctx, a);
  }

  lemma CompileIsDeBruijn(e: Expr)
    ensures Compile(e) == CompileCtx([], e)
  {
    IterIsDeBruijn(0, map[], [], e);
  }

  /** Shadowing: in `fun x -> fun x -> x` the use refers to the inner binder. */
  lemma ShadowedVariableIsInnermost()
    ensures Compile(Lambda("x", Lambda("x", Var("x")))) ==
      Ok(Singleton(Closure(Cons(Closure(Cons(Access(0), Cons(Return, Nil))), Cons(Return, Nil)))))
  {
  }

  /** A variable bound by the nearest enclosing lambda is at distance 0,
      whatever is bound further out. */
  lemma {:induction false} NearestBinderAtZero(lev: Level, levmap: LevelMap, x: Ident)
    ensures Iter(lev, levmap, Lambda(x, Var(x))).Ok?
    ensures Elements(Iter(lev, levmap, Lambda(x, Var(x))).value) ==
      [Closure(Cons(Access(0), Cons(Return, Nil)))]
  {
  }

  // ---------------------------------------------------------------------------
  // Shape and census of the compiled code

  /** A lambda compiles to one Closure whose code ends in Return; an application
      to the operator's code, then the operand's, then one Apply. */
  lemma CompiledShape(lev: Level, levmap: LevelMap, e: Expr)
    requires Iter(lev, levmap, e).Ok?
    ensures e.Lambda? ==>
      var code := Elements(Iter(lev, levmap, e).value);
      |code| == 1 && code[0].Closure? &&
      Elements(code[0].code) ==
        Elements(Iter(lev + 1, levmap[e.param := lev + 1], e.body).value) + [Return]
    ensures e.Apply? ==>
      Elements(Iter(lev, levmap, e).value) ==
        Elements(Iter(lev, levmap, e.fn).value) + Elements(Iter(lev, levmap, e.arg).value)
          + [Instruction.Apply]
  {
  }

  /** The kind of an instruction, without its operands. */
  datatype Tag = TAccess | TClosure | TReturn | TApply | TIf | TConst | TPrimitive

  function TagOf(i: Instruction): Tag
  {
    match i
    case Access(_) => TAccess
    case Closure(_) => TClosure
    case Return => TReturn
    case Apply => TApply
    case If(_, _) => TIf
    case Const(_) => TConst
    case Primitive(_) => TPrimitive
  }

  /** How many instructions of kind tag code holds, counting inside closure
      bodies and branches. */
  function Count(code: List<Instruction>, tag: Tag): nat
  {
    match code
    case Nil => 0
    case Cons(i, t) => InstrCount(i, tag) + Count(t, tag)
  }

  function InstrCount(i: Instruction, tag: Tag): nat
  {
    (if TagOf(i) == tag then 1 else 0) +
    match i
    case Closure(body) => Count(body, tag)
    case If(t, f) => Count(t, tag) + Count(f, tag)
    case _ => 0
  }

  lemma {:induction false} CountAppend(xs: List<Instruction>, ys: List<Instruction>, tag: Tag)
    ensures Count(Lists.Append(xs, ys), tag) == Count(xs, tag) + Count(ys, tag)
  {
    match xs
    case Nil =>
    case Cons(_, t) => CountAppend(t, ys, tag);
  }

  /** What a term should compile to, counted: one Access per variable
      occurrence, one Closure and one Return per lambda, one Apply per
      application, and nothing else. */
  function TermCount(e: Expr, tag: Tag): nat
  {
    match e
    case Var(_) => if tag == TAccess then 1 else 0
    case Lambda(_, b) => (if tag == TClosure || tag == TReturn then 1 else 0) + TermCount(b, tag)
    case Apply(f, a) => (if tag == TApply then 1 else 0) + TermCount(f, tag) + TermCount(a, tag)
  }

  /** Compilation loses and duplicates nothing: the compiled code holds exactly
      the instructions the term's census predicts. */
  lemma {:induction false} IterPreservesCounts(lev: Level, levmap: LevelMap, e: Expr, tag: Tag)
    requires Iter(lev, levmap, e).Ok?
    ensures Count(Iter(lev, levmap, e).value, tag) == TermCount(e, tag)
    decreases e
  {
    match e
    case Var(x) =>
    case Lambda(x, b) =>
      var r0 := Iter(lev + 1, levmap[x := lev + 1], b);
      IterPreservesCounts(lev + 1, levmap[x := lev + 1], b, tag);
      CountAppend(r0.value, Singleton(Return), tag);
    case Apply(f, a) =>
      var r1, r2 := Iter(lev, levmap, f), Iter(lev, levmap, a);
      IterPreservesCounts(lev, levmap, f, tag);
      IterPreservesCounts(lev, levmap, a, tag);
      CountAppend(r2.value, Singleton(Instruction.Apply), tag);
      CountAppend(r1.value, Lists.Append(r2.value, Singleton(Instruction.Apply)), tag);
  }
}
